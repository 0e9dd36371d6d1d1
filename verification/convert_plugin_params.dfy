/**
  The parameter list of a generated plugin method
  (`ConvertPluginParamsToString`): the subject first, then the slot each plugin
  kind inserts after it, then the target method's own parameters, all joined
  with a bare comma; and the type hint chosen for a non-parameter element from
  its type set and the project's feature profile.
 */
module ConvertPluginParams {
  import opened Options
  import opened JavaText
  import opened PluginTypes

  /**
    One member of the collection the list is built from. `Param` is a
    parameter of the target method, carried as the text the IDE renders for
    it (`PhpCodeUtil.paramToString`). `Subject` is any other named element —
    in practice the target class, always at position 0 — with its name, its
    declared type set and that set after global resolution.
   */
  datatype Element =
    | Param(text: string)
    | Subject(name: string, localTypes: set<string>, globalTypes: set<string>)

  lemma SingletonUnique(s: set<string>)
    requires |s| == 1
    ensures forall a, b | a in s && b in s :: a == b
  {
    forall a, b | a in s && b in s
      ensures a == b
    {
      var rest := s - {a};
      assert |rest| == 0;
    }
  }

  /** The member of a one-element set (the iterator's first element). */
  function Only(s: set<string>): (t: string)
    requires |s| == 1
    ensures s == {t}
  {
    SingletonUnique(s);
    var t :| t in s;
    t
  }

  /** `filterNullCaseInsensitive`: the set without members equal to `\null` ignoring case. */
  function FilterNull(types: set<string>): set<string>
  {
    set t | t in types && !EqualsIgnoreCase(t, NULL_TYPE)
  }

  // ---------------------------------------------------------------------------
  // Type hints
  // ---------------------------------------------------------------------------

  /**
    The gate of `convertTypeToString`: a class type always passes; a primitive
    passes when scalar hints are supported or it is `array` or `callable`.
   */
  predicate Hintable(simpleType: string, profile: FeatureProfile, host: Host)
  {
    || !host.isPrimitive(simpleType)
    || profile.scalarTypeHints
    || EqualsIgnoreCase(simpleType, ARRAY_TYPE)
    || EqualsIgnoreCase(simpleType, CALLABLE_PARAM)
  }

  /** The type of a one-element set with one leading `\` removed. */
  function SimpleType(types: set<string>): string
    requires |types| == 1
  {
    TrimStart(Only(types), [FQN_SEPARATOR])
  }

  /**
    `convertTypeToString`: the hint for a one-element type set. An array type
    (ending in `]`) becomes `array`; anything else is the IDE's presentation of
    the element's declared types without null, rendered in the given scope;
    an empty presentation or a failed gate gives no hint.
   */
  function ConvertTypeToString(
    types: set<string>, localTypes: set<string>, globalScope: bool,
    profile: FeatureProfile, host: Host
  ): (r: Option<string>)
    requires |types| == 1
    ensures r.Some? ==> r.value != ""
    ensures !Hintable(SimpleType(types), profile, host) ==> r == None
    ensures (Hintable(SimpleType(types), profile, host) && EndsWith(SimpleType(types), "]"))
              ==> r == Some(ARRAY_TYPE)
    ensures (Hintable(SimpleType(types), profile, host) && !EndsWith(SimpleType(types), "]"))
              ==> var shown := host.presentation(FilterNull(localTypes), globalScope);
                  r == (if shown != "" then Some(shown) else None)
  {
    var simpleType := SimpleType(types);
    if Hintable(simpleType, profile, host) then
      var typeString :=
        if EndsWith(simpleType, "]") then ARRAY_TYPE
        else host.presentation(FilterNull(localTypes), globalScope);
      if typeString != "" then Some(typeString) else None
    else
      None
  }

  /** Exactly two types of which exactly one is null: a nullable type. */
  predicate IsNullableUnion(types: set<string>)
  {
    |types| == 2 && |FilterNull(types)| == 1
  }

  /**
    `getTypeHint` prefixes `?` to the base hint of a nullable union without
    checking that there is one, so a missing base hint with nullable types
    supported is a crash there; callers must rule it out.
   */
  predicate NullableBaseResolves(
    globalTypes: set<string>, localTypes: set<string>, globalScope: bool,
    profile: FeatureProfile, host: Host
  )
  {
    IsNullableUnion(globalTypes) && profile.nullables ==>
      ConvertTypeToString(FilterNull(globalTypes), localTypes, globalScope, profile, host).Some?
  }

  /**
    `getTypeHint`: a one-element set is converted directly; a nullable union is
    converted through its non-null member and gets a `?` prefix when nullable
    types are supported; every other set (empty, three or more types, two
    types without null) gets no hint.
   */
  function GetTypeHint(
    globalTypes: set<string>, localTypes: set<string>, globalScope: bool,
    profile: FeatureProfile, host: Host
  ): (r: Option<string>)
    requires NullableBaseResolves(globalTypes, localTypes, globalScope, profile, host)
    ensures r.Some? ==> r.value != ""
    ensures |globalTypes| == 1 ==> r == ConvertTypeToString(globalTypes, localTypes, globalScope, profile, host)
    ensures |globalTypes| != 1 && !IsNullableUnion(globalTypes) ==> r == None
  {
    if |globalTypes| == 1 then
      ConvertTypeToString(globalTypes, localTypes, globalScope, profile, host)
    else if IsNullableUnion(globalTypes) then
      var base := ConvertTypeToString(FilterNull(globalTypes), localTypes, globalScope, profile, host);
      if profile.nullables then Some("?" + base.value) else base
    else
      None
  }

  /** The hint text written before a name: the hint and one space, or nothing. */
  function HintText(hint: Option<string>): string
  {
    if hint.Some? && hint.value != "" then hint.value + " " else ""
  }

  // ---------------------------------------------------------------------------
  // Rendering one element
  // ---------------------------------------------------------------------------

  /** A namespace separator occurs at index 1 or later. */
  predicate HasInnerSeparator(text: string)
  {
    exists i | 1 <= i < |text| :: text[i] == FQN_SEPARATOR
  }

  /**
    Splitting a text made only of separators (two or more) yields no pieces
    and `execute`'s last-piece lookup fails; every other text is fine.
   */
  predicate ParamTextRenderable(text: string)
  {
    |text| <= 1 || exists i | 0 <= i < |text| :: text[i] != FQN_SEPARATOR
  }

  /**
    A parameter's text, kept verbatim unless a separator occurs past its first
    character; then the last piece of splitting it on the separator, which is
    the non-empty text after the last separator once trailing separators are
    dropped.
   */
  function ShortenParamText(text: string): string
    requires ParamTextRenderable(text)
  {
    if HasInnerSeparator(text) then
      var parts := JavaSplit(text, FQN_SEPARATOR);
      assert |parts| >= 1 by {
        var j :| 0 <= j < |text| && text[j] != FQN_SEPARATOR;
        JavaSplitLast(text, FQN_SEPARATOR, j);
      }
      parts[|parts| - 1]
    else
      text
  }

  /**
    A text without a separator past its first character is kept verbatim;
    any other is replaced by the non-empty text after its last separator,
    once trailing separators are dropped.
   */
  lemma ShortenedToLastSegment(text: string)
    requires ParamTextRenderable(text)
    ensures !HasInnerSeparator(text) ==> ShortenParamText(text) == text
    ensures HasInnerSeparator(text) ==>
              var r := ShortenParamText(text);
              r == AfterLast(StripTrailing(text, FQN_SEPARATOR), FQN_SEPARATOR) && r != ""
  {
    if HasInnerSeparator(text) {
      var j :| 0 <= j < |text| && text[j] != FQN_SEPARATOR;
      JavaSplitLast(text, FQN_SEPARATOR, j);
    }
  }

  predicate EntryRenderable(e: Element, index: nat, profile: FeatureProfile, host: Host)
  {
    match e
    case Param(text) => ParamTextRenderable(text)
    case Subject(_, localTypes, globalTypes) =>
      NullableBaseResolves(globalTypes, localTypes, index != 0, profile, host)
  }

  /** No element of the collection makes `execute` throw. */
  predicate Renderable(elems: seq<Element>, profile: FeatureProfile, host: Host)
  {
    forall i {:trigger EntryRenderable(elems[i], i, profile, host)} | 0 <= i < |elems| ::
      EntryRenderable(elems[i], i, profile, host)
  }

  /**
    The rendering of the element at `index`: a parameter's (shortened) text,
    or an optional hint and `$name`, where the element at position 0 is always
    named `subject` and has its type presented in local scope, later ones in
    global scope.
   */
  function Entry(e: Element, index: nat, profile: FeatureProfile, host: Host): string
    requires EntryRenderable(e, index, profile, host)
  {
    match e
    case Param(text) => ShortenParamText(text)
    case Subject(name, localTypes, globalTypes) =>
      HintText(GetTypeHint(globalTypes, localTypes, index != 0, profile, host))
      + "$" + (if index == 0 then "subject" else name)
  }

  /**
    What each kind inserts right after the first entry: the intercepted
    method's result (typed with the raw return-type text unless that is
    absent or `void`) for after, the continuation for around, nothing for
    before.
   */
  function Insertion(kind: PluginKind, returnType: Option<string>): string
  {
    match kind
    case Before => ""
    case After =>
      if returnType.Some? && returnType.value != VOID_RETURN_TYPE
      then ", " + returnType.value + " $result"
      else ", $result"
    case Around => ", callable $proceed"
  }

  // ---------------------------------------------------------------------------
  // The whole list
  // ---------------------------------------------------------------------------

  /** The rendering of every element, position by position. */
  function Entries(elems: seq<Element>, profile: FeatureProfile, host: Host): (r: seq<string>)
    requires Renderable(elems, profile, host)
    ensures |r| == |elems|
  {
    seq(|elems|, i requires 0 <= i < |elems| && Renderable(elems, profile, host) =>
      Entry(elems[i], i, profile, host))
  }

  /** The entries after the first, up to entry `n`, each preceded by a bare comma. */
  function Tail(entries: seq<string>, n: nat): string
    requires 1 <= n <= |entries|
  {
    if n == 1 then "" else Tail(entries, n - 1) + "," + entries[n - 1]
  }

  /**
    The text built from the first `n` entries: the first entry followed by
    the kind's insertion, then each further entry after a bare comma.
   */
  function Assembled(entries: seq<string>, kind: PluginKind, returnType: Option<string>, n: nat): string
    requires n <= |entries|
  {
    if n == 0 then ""
    else if n == 1 then entries[0] + Insertion(kind, returnType)
    else Assembled(entries, kind, returnType, n - 1) + "," + entries[n - 1]
  }

  /** The parameter list of the generated method. */
  function ParamList(
    elems: seq<Element>, kind: PluginKind, returnType: Option<string>,
    profile: FeatureProfile, host: Host
  ): string
    requires Renderable(elems, profile, host)
  {
    var entries := Entries(elems, profile, host);
    Assembled(entries, kind, returnType, |entries|)
  }

  /**
    `execute`: renders every element in order, then appends the renderings,
    a comma before every one but the first and the kind's insertion right
    after the first.
   */
  method Execute(
    elems: seq<Element>, kind: PluginKind, returnType: Option<string>,
    profile: FeatureProfile, host: Host
  ) returns (s: string)
    requires Renderable(elems, profile, host)
    ensures s == ParamList(elems, kind, returnType, profile, host)
  {
    var entries := RenderAll(elems, profile, host);
    s := AppendAll(entries, kind, returnType);
  }

  /** Renders the elements one by one, in input order. */
  method RenderAll(elems: seq<Element>, profile: FeatureProfile, host: Host) returns (entries: seq<string>)
    requires Renderable(elems, profile, host)
    ensures entries == Entries(elems, profile, host)
  {
    entries := [];
    var i := 0;
    while i < |elems|
      invariant 0 <= i <= |elems|
      invariant entries == Entries(elems, profile, host)[..i]
    {
      assert EntryRenderable(elems[i], i, profile, host);
      var entry := "";
      match elems[i] {
        case Param(paramText) =>
          entry := ShortenParamText(paramText);
        case Subject(name, localTypes, globalTypes) =>
          var typeHint := GetTypeHint(globalTypes, localTypes, i != 0, profile, host);
          if typeHint.Some? && typeHint.value != "" {
            entry := entry + typeHint.value + " ";
          }
          var paramName := name;
          if i == 0 {
            paramName := "subject";
          }
          entry := entry + "$" + paramName;
      }
      assert entry == Entry(elems[i], i, profile, host);
      entries := entries + [entry];
      i := i + 1;
    }
  }

  /** Appends the renderings as `execute`'s string builder does. */
  method AppendAll(entries: seq<string>, kind: PluginKind, returnType: Option<string>) returns (s: string)
    ensures s == Assembled(entries, kind, returnType, |entries|)
  {
    s := "";
    var i := 0;
    while i < |entries|
      invariant 0 <= i <= |entries|
      invariant s == Assembled(entries, kind, returnType, i)
    {
      if i != 0 {
        s := s + ",";
      }
      s := s + entries[i];
      if kind == After && i == 0 {
        if returnType.Some? && returnType.value != VOID_RETURN_TYPE {
          s := s + ", " + returnType.value + " $result";
        } else {
          s := s + ", $result";
        }
      }
      if kind == Around && i == 0 {
        s := s + ", callable $proceed";
      }
      i := i + 1;
    }
  }

  // ---------------------------------------------------------------------------
  // Properties of the list
  // ---------------------------------------------------------------------------

  /** The first entry carrying the kind's insertion, then the other entries unchanged. */
  function Slots(entries: seq<string>, kind: PluginKind, returnType: Option<string>): (r: seq<string>)
    requires |entries| >= 1
  {
    [entries[0] + Insertion(kind, returnType)] + entries[1..]
  }

  /** After the first entry, the text is the first slot followed by the comma-led tail. */
  lemma {:induction false} AssembledIsHeadTail(
    entries: seq<string>, kind: PluginKind, returnType: Option<string>, n: nat
  )
    requires 1 <= n <= |entries|
    ensures Assembled(entries, kind, returnType, n)
            == entries[0] + Insertion(kind, returnType) + Tail(entries, n)
  {
    if n > 1 {
      AssembledIsHeadTail(entries, kind, returnType, n - 1);
      var head := entries[0] + Insertion(kind, returnType);
      assert head + Tail(entries, n - 1) + "," + entries[n - 1]
          == head + (Tail(entries, n - 1) + "," + entries[n - 1]);
    }
  }

  /** The text built from the first `n` entries is the join of the first `n` slots. */
  lemma {:induction false} AssembledIsJoin(
    entries: seq<string>, kind: PluginKind, returnType: Option<string>, n: nat
  )
    requires 1 <= n <= |entries|
    ensures Join(Slots(entries, kind, returnType)[..n], ',') == Assembled(entries, kind, returnType, n)
  {
    var slots := Slots(entries, kind, returnType);
    if n > 1 {
      AssembledIsJoin(entries, kind, returnType, n - 1);
      var pre := slots[..n];
      assert pre[..n - 1] == slots[..n - 1];
      assert pre[n - 1] == entries[n - 1];
      assert Join(pre, ',') == Join(pre[..n - 1], ',') + [','] + pre[n - 1];
    } else {
      assert slots[..1] == [entries[0] + Insertion(kind, returnType)];
    }
  }

  /**
    The list is the elements' entries in input order joined with a bare
    comma, the first entry carrying the kind's insertion; the first entry is
    rendered in local scope and every later `Subject` in global scope.
   */
  lemma ParamListIsJoin(
    elems: seq<Element>, kind: PluginKind, returnType: Option<string>,
    profile: FeatureProfile, host: Host
  )
    requires |elems| >= 1 && Renderable(elems, profile, host)
    ensures var entries := Entries(elems, profile, host);
      && ParamList(elems, kind, returnType, profile, host) == Join(Slots(entries, kind, returnType), ',')
      && (forall i | 0 <= i < |elems| :: entries[i] == Entry(elems[i], i, profile, host))
      && forall i | 1 <= i < |elems| && elems[i].Subject? ::
           Entry(elems[i], i, profile, host)
           == HintText(GetTypeHint(elems[i].globalTypes, elems[i].localTypes, true, profile, host))
              + "$" + elems[i].name
  {
    var entries := Entries(elems, profile, host);
    var slots := Slots(entries, kind, returnType);
    AssembledIsJoin(entries, kind, returnType, |elems|);
    assert slots[..|elems|] == slots;
  }

  /**
    Whatever the first element's own name, it is rendered as `$subject`,
    preceded by its hint resolved in local scope and followed by the kind's
    insertion.
   */
  lemma FirstEntryIsSubject(
    elems: seq<Element>, kind: PluginKind, returnType: Option<string>,
    profile: FeatureProfile, host: Host
  )
    requires |elems| >= 1 && elems[0].Subject? && Renderable(elems, profile, host)
    ensures EntryRenderable(elems[0], 0, profile, host)
    ensures StartsWith(
              ParamList(elems, kind, returnType, profile, host),
              HintText(GetTypeHint(elems[0].globalTypes, elems[0].localTypes, false, profile, host))
              + "$subject" + Insertion(kind, returnType))
  {
    var entries := Entries(elems, profile, host);
    var e := elems[0];
    assert EntryRenderable(e, 0, profile, host);
    var hint := GetTypeHint(e.globalTypes, e.localTypes, false, profile, host);
    assert entries[0] == HintText(hint) + "$subject";
    AssembledIsHeadTail(entries, kind, returnType, |elems|);
    var list := ParamList(elems, kind, returnType, profile, host);
    var head := HintText(hint) + "$subject" + Insertion(kind, returnType);
    assert list == head + Tail(entries, |elems|);
    assert list[..|head|] == head;
  }

  /**
    The kinds differ only in what follows the first entry: the before list is
    the plain comma-join of the entries; the after list inserts the typed or
    untyped `$result` there, and the around list `callable $proceed`.
   */
  lemma KindInsertsAfterFirstEntry(
    elems: seq<Element>, returnType: Option<string>, profile: FeatureProfile, host: Host
  )
    requires |elems| >= 1 && Renderable(elems, profile, host)
    ensures var plain := ParamList(elems, Before, returnType, profile, host);
      var cut := |Entry(elems[0], 0, profile, host)|;
      && cut <= |plain|
      && (returnType.Some? && returnType.value != VOID_RETURN_TYPE ==>
            ParamList(elems, After, returnType, profile, host)
            == plain[..cut] + ", " + returnType.value + " $result" + plain[cut..])
      && (returnType.None? || returnType.value == VOID_RETURN_TYPE ==>
            ParamList(elems, After, returnType, profile, host) == plain[..cut] + ", $result" + plain[cut..])
      && ParamList(elems, Around, returnType, profile, host) == plain[..cut] + ", callable $proceed" + plain[cut..]
  {
    var entries := Entries(elems, profile, host);
    var first := entries[0];
    var tail := Tail(entries, |elems|);
    var plain := ParamList(elems, Before, returnType, profile, host);
    AssembledIsHeadTail(entries, Before, returnType, |elems|);
    AssembledIsHeadTail(entries, After, returnType, |elems|);
    AssembledIsHeadTail(entries, Around, returnType, |elems|);
    assert plain == first + tail;
    assert plain[..|first|] == first;
    assert plain[|first|..] == tail;
  }

  // ---------------------------------------------------------------------------
  // Properties of the type hint
  // ---------------------------------------------------------------------------

  /** A nullable union's hint is its non-null member's hint, with `?` exactly when nullable types are supported. */
  lemma NullableUnionHint(
    nullType: string, other: string, localTypes: set<string>, globalScope: bool,
    profile: FeatureProfile, host: Host
  )
    requires EqualsIgnoreCase(nullType, NULL_TYPE) && !EqualsIgnoreCase(other, NULL_TYPE)
    requires NullableBaseResolves({nullType, other}, localTypes, globalScope, profile, host)
    ensures IsNullableUnion({nullType, other}) && FilterNull({nullType, other}) == {other}
    ensures var base := ConvertTypeToString({other}, localTypes, globalScope, profile, host);
      var hint := GetTypeHint({nullType, other}, localTypes, globalScope, profile, host);
      && (profile.nullables ==> base.Some? && hint == Some("?" + base.value))
      && (!profile.nullables ==> hint == base)
  {
    assert nullType != other;
    assert FilterNull({nullType, other}) == {other};
  }

  /** Supporting scalar type hints never takes a hint away, nor changes one. */
  lemma ScalarHintsOnlyAdd(
    globalTypes: set<string>, localTypes: set<string>, globalScope: bool,
    profile: FeatureProfile, host: Host
  )
    requires NullableBaseResolves(globalTypes, localTypes, globalScope, profile, host)
    ensures var richer := profile.(scalarTypeHints := true);
      && NullableBaseResolves(globalTypes, localTypes, globalScope, richer, host)
      && (GetTypeHint(globalTypes, localTypes, globalScope, profile, host).Some? ==>
            GetTypeHint(globalTypes, localTypes, globalScope, richer, host)
            == GetTypeHint(globalTypes, localTypes, globalScope, profile, host))
  {
  }

  /**
    Whether nullable types are supported only decides the `?` of a nullable
    union: with support the hint is `?` and the hint without support.
   */
  lemma NullablesOnlyAddMarker(
    globalTypes: set<string>, localTypes: set<string>, globalScope: bool,
    profile: FeatureProfile, host: Host
  )
    requires profile.nullables
    requires NullableBaseResolves(globalTypes, localTypes, globalScope, profile, host)
    ensures var plain := profile.(nullables := false);
      var withMarker := GetTypeHint(globalTypes, localTypes, globalScope, profile, host);
      var without := GetTypeHint(globalTypes, localTypes, globalScope, plain, host);
      && (IsNullableUnion(globalTypes) ==> without.Some? && withMarker == Some("?" + without.value))
      && (!IsNullableUnion(globalTypes) ==> withMarker == without)
  {
  }

  /** A class type ending in `]` is hinted `array` under every profile. */
  lemma ArrayMarkerAlwaysHinted(
    t: string, localTypes: set<string>, globalScope: bool, profile: FeatureProfile, host: Host
  )
    requires EndsWith(TrimStart(t, [FQN_SEPARATOR]), "]") && !host.isPrimitive(TrimStart(t, [FQN_SEPARATOR]))
    ensures GetTypeHint({t}, localTypes, globalScope, profile, host) == Some(ARRAY_TYPE)
  {
  }

  /**
    A class type not ending in `]` is hinted, under every profile, with the
    IDE's presentation of the element's declared types without null, in the
    given scope; an empty presentation gives no hint.
   */
  lemma ClassTypeHint(
    t: string, localTypes: set<string>, globalScope: bool, profile: FeatureProfile, host: Host
  )
    requires var simple := TrimStart(t, [FQN_SEPARATOR]);
      !host.isPrimitive(simple) && !EndsWith(simple, "]")
    ensures var shown := host.presentation(FilterNull(localTypes), globalScope);
      GetTypeHint({t}, localTypes, globalScope, profile, host) == (if shown != "" then Some(shown) else None)
  {
  }

  /** A primitive other than `array`/`callable` gets no hint without scalar type hints. */
  lemma ScalarNeedsSupport(
    t: string, localTypes: set<string>, globalScope: bool, profile: FeatureProfile, host: Host
  )
    requires var simple := TrimStart(t, [FQN_SEPARATOR]);
      host.isPrimitive(simple) && !profile.scalarTypeHints
      && !EqualsIgnoreCase(simple, ARRAY_TYPE) && !EqualsIgnoreCase(simple, CALLABLE_PARAM)
    ensures GetTypeHint({t}, localTypes, globalScope, profile, host) == None
  {
  }

  /** A hint, when there is one, is never empty, so it is always written with its space. */
  lemma HintTextWritesHint(
    globalTypes: set<string>, localTypes: set<string>, globalScope: bool,
    profile: FeatureProfile, host: Host
  )
    requires NullableBaseResolves(globalTypes, localTypes, globalScope, profile, host)
    ensures var hint := GetTypeHint(globalTypes, localTypes, globalScope, profile, host);
      HintText(hint) == (if hint.Some? then hint.value + " " else "")
  {
  }
}
