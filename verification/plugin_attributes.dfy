/**
  The attributes the plugin-method template is filled with
  (`PluginMethodsGenerator.getAccessMethodAttributes`, `fillAttributes` and
  `addTypeHintsAndReturnType`), as a map from attribute name to value; an
  attribute these methods do not set is absent from the map.
 */
module PluginAttributes {
  import opened Options
  import opened JavaText
  import opened PluginTypes
  import opened ConvertPluginParams
  import opened DocTypeHints
  import opened PluginMethodNames

  /** A parameter of the target method: its name and the text the IDE renders for it. */
  datatype Parameter = Parameter(name: string, text: string)

  /**
    The intercepted method: its name, its parameters in declaration order and
    the text of its declared return type, if it declares one.
   */
  datatype TargetMethod = TargetMethod(name: string, params: seq<Parameter>, returnType: Option<string>)

  /** The class declaring the target method, with its declared and resolved type sets. */
  datatype TargetClass = TargetClass(name: string, localTypes: set<string>, globalTypes: set<string>)

  /** The template attributes the generator may set. */
  datatype AttributeKey =
    | NameKey | ParamDocKey | ParamListKey | ReturnVariablesKey
    | ScalarTypeHintKey | VoidReturnTypeKey | ReturnTypeKey

  /** The property name under which each attribute reaches the template. */
  function PropertyName(key: AttributeKey): string
  {
    match key
    case NameKey => "NAME"
    case ParamDocKey => "PARAM_DOC"
    case ParamListKey => "PARAM_LIST"
    case ReturnVariablesKey => "RETURN_VARIABLES"
    case ScalarTypeHintKey => "SCALAR_TYPE_HINT"
    case VoidReturnTypeKey => "VOID_RETURN_TYPE"
    case ReturnTypeKey => "RETURN_TYPE"
  }

  /** Distinct attributes reach the template under distinct property names. */
  lemma PropertyNamesDistinct(k1: AttributeKey, k2: AttributeKey)
    requires PropertyName(k1) == PropertyName(k2)
    ensures k1 == k2
  {
    var n1 := PropertyName(k1);
    var n2 := PropertyName(k2);
    assert |n1| == |n2| && n1[0] == n2[0] && n1[|n1| - 1] == n2[|n2| - 1];
  }

  /** The attributes as a map; an attribute that is not set is absent. */
  type Attributes = map<AttributeKey, string>

  /** The collection the parameter list is built from: the target class, then the method's parameters. */
  function PluginParameters(cls: TargetClass, target: TargetMethod): (r: seq<Element>)
    ensures |r| == |target.params| + 1
  {
    [Subject(cls.name, cls.localTypes, cls.globalTypes)]
    + seq(|target.params|, i requires 0 <= i < |target.params| => Param(target.params[i].text))
  }

  /** The names of the target's parameters, in declaration order. */
  function ParamNames(target: TargetMethod): seq<string>
  {
    seq(|target.params|, i requires 0 <= i < |target.params| => target.params[i].name)
  }

  /** The return-type text the generator works with: the declared text, or empty when there is none. */
  function ReturnTypeText(target: TargetMethod): string
  {
    if target.returnType.Some? then target.returnType.value else ""
  }

  /**
    What `fillAttributes` needs in order not to throw: a non-empty method
    name, a subject whose nullable union has a base hint, and a parameter
    list every element of which renders.
   */
  predicate Generatable(cls: TargetClass, target: TargetMethod, profile: FeatureProfile, host: Host)
  {
    && |target.name| >= 1
    && NullableBaseResolves(cls.globalTypes, cls.localTypes, false, profile, host)
    && forall i | 0 <= i < |target.params| :: ParamTextRenderable(target.params[i].text)
  }

  lemma GeneratableRenders(cls: TargetClass, target: TargetMethod, profile: FeatureProfile, host: Host)
    requires Generatable(cls, target, profile, host)
    ensures Renderable(PluginParameters(cls, target), profile, host)
  {
    var elems := PluginParameters(cls, target);
    forall i | 0 <= i < |elems|
      ensures EntryRenderable(elems[i], i, profile, host)
    {
      if i > 0 {
        assert elems[i] == Param(target.params[i - 1].text);
      }
    }
  }

  /** `execute` applied to the target class and the target's parameters. */
  function PluginParamList(
    kind: PluginKind, cls: TargetClass, target: TargetMethod, profile: FeatureProfile, host: Host
  ): string
    requires Generatable(cls, target, profile, host)
  {
    GeneratableRenders(cls, target, profile, host);
    ParamList(PluginParameters(cls, target), kind, target.returnType, profile, host)
  }

  /** The entry of the target class: its hint in local scope, then `$subject`. */
  function SubjectEntry(cls: TargetClass, profile: FeatureProfile, host: Host): string
    requires NullableBaseResolves(cls.globalTypes, cls.localTypes, false, profile, host)
  {
    HintText(GetTypeHint(cls.globalTypes, cls.localTypes, false, profile, host)) + "$subject"
  }

  /** The target's parameters as the list renders them, in declaration order. */
  function ShortenedParams(target: TargetMethod): (r: seq<string>)
    requires forall i | 0 <= i < |target.params| :: ParamTextRenderable(target.params[i].text)
    ensures |r| == |target.params|
  {
    seq(|target.params|, i requires 0 <= i < |target.params| && ParamTextRenderable(target.params[i].text) =>
      ShortenParamText(target.params[i].text))
  }

  /** `fillAttributes`: the name, doc, list and (when there are any) return variables. */
  function FillAttributes(
    kind: PluginKind, cls: TargetClass, target: TargetMethod, paramDoc: string,
    profile: FeatureProfile, host: Host
  ): (r: Attributes)
    requires Generatable(cls, target, profile, host)
    ensures r.Keys == {NameKey, ParamDocKey, ParamListKey}
                      + (if kind == After || |target.params| >= 1 then {ReturnVariablesKey} else {})
    ensures r[NameKey] == PluginMethodName(kind, target.name)
    ensures r[ParamDocKey] == paramDoc
    ensures r[ParamListKey] == PluginParamList(kind, cls, target, profile, host)
    ensures ReturnVariablesKey in r ==>
              Some(r[ReturnVariablesKey]) == ReturnVariables(kind, ParamNames(target))
  {
    var attributes := map[
      NameKey := PluginMethodName(kind, target.name),
      ParamDocKey := paramDoc,
      ParamListKey := PluginParamList(kind, cls, target, profile, host)
    ];
    var returnVariables := ReturnVariables(kind, ParamNames(target));
    if returnVariables.Some? then attributes[ReturnVariablesKey := returnVariables.value]
    else attributes
  }

  /**
    `addTypeHintsAndReturnType`: the scalar type hint and the return type,
    each gated on its feature and on the type being convertible, and the
    `void` return type whenever that feature is supported.
   */
  function AddTypeHintsAndReturnType(
    attributes: Attributes, typeHint: string, profile: FeatureProfile
  ): (r: Attributes)
    ensures forall k | k in attributes && k != ScalarTypeHintKey && k != VoidReturnTypeKey
                       && k != ReturnTypeKey :: k in r && r[k] == attributes[k]
    ensures forall k | k in r :: k in attributes || k == ScalarTypeHintKey || k == VoidReturnTypeKey || k == ReturnTypeKey
    ensures profile.scalarTypeHints && IsDocTypeConvertable(typeHint) ==>
              ScalarTypeHintKey in r
              && r[ScalarTypeHintKey] == ConvertDocTypeToHint(typeHint, profile.nullables)
    ensures !(profile.scalarTypeHints && IsDocTypeConvertable(typeHint)) ==>
              && (ScalarTypeHintKey in r <==> ScalarTypeHintKey in attributes)
              && (ScalarTypeHintKey in attributes ==> r[ScalarTypeHintKey] == attributes[ScalarTypeHintKey])
    ensures profile.returnVoid ==> VoidReturnTypeKey in r && r[VoidReturnTypeKey] == VOID_RETURN_TYPE
    ensures !profile.returnVoid ==>
              && (VoidReturnTypeKey in r <==> VoidReturnTypeKey in attributes)
              && (VoidReturnTypeKey in attributes ==> r[VoidReturnTypeKey] == attributes[VoidReturnTypeKey])
    ensures profile.returnTypes && IsDocTypeConvertable(typeHint) ==>
              ReturnTypeKey in r
              && r[ReturnTypeKey] == ConvertDocTypeToHint(typeHint, profile.nullables)
    ensures !(profile.returnTypes && IsDocTypeConvertable(typeHint)) ==>
              && (ReturnTypeKey in r <==> ReturnTypeKey in attributes)
              && (ReturnTypeKey in attributes ==> r[ReturnTypeKey] == attributes[ReturnTypeKey])
  {
    var convertable := IsDocTypeConvertable(typeHint);
    var hint := ConvertDocTypeToHint(typeHint, profile.nullables);
    var withScalar :=
      if profile.scalarTypeHints && convertable then attributes[ScalarTypeHintKey := hint]
      else attributes;
    var withVoid :=
      if profile.returnVoid then withScalar[VoidReturnTypeKey := VOID_RETURN_TYPE]
      else withScalar;
    if profile.returnTypes && convertable then withVoid[ReturnTypeKey := hint]
    else withVoid
  }

  /**
    `getAccessMethodAttributes`: the attributes `fillAttributes` sets, then
    those `addTypeHintsAndReturnType` adds for the target's return-type text.
    `paramDoc` is the doc-comment text built by a utility outside this model.
    Name, doc and list are always set; the return variables whenever there
    are any; each type attribute exactly when its feature is supported and
    the return type is convertible; the `void` type exactly when that feature
    is supported, whatever the target returns.
   */
  function AccessMethodAttributes(
    kind: PluginKind, cls: TargetClass, target: TargetMethod, paramDoc: string,
    profile: FeatureProfile, host: Host
  ): (r: Attributes)
    requires Generatable(cls, target, profile, host)
    ensures NameKey in r && ParamDocKey in r && ParamListKey in r
    ensures ReturnVariablesKey in r <==> kind == After || |target.params| >= 1
    ensures ScalarTypeHintKey in r <==>
              profile.scalarTypeHints && IsDocTypeConvertable(ReturnTypeText(target))
    ensures ReturnTypeKey in r <==>
              profile.returnTypes && IsDocTypeConvertable(ReturnTypeText(target))
    ensures VoidReturnTypeKey in r <==> profile.returnVoid
  {
    AddTypeHintsAndReturnType(
      FillAttributes(kind, cls, target, paramDoc, profile, host), ReturnTypeText(target), profile)
  }

  /**
    The always-present attributes: the plugin method's name, the doc text and
    the parameter list built from the target class and the target's
    parameters; and the return variables, when set.
   */
  lemma FilledAttributeValues(
    kind: PluginKind, cls: TargetClass, target: TargetMethod, paramDoc: string,
    profile: FeatureProfile, host: Host
  )
    requires Generatable(cls, target, profile, host)
    ensures var r := AccessMethodAttributes(kind, cls, target, paramDoc, profile, host);
      && r[NameKey] == PluginMethodName(kind, target.name)
      && r[ParamDocKey] == paramDoc
      && r[ParamListKey] == PluginParamList(kind, cls, target, profile, host)
      && (ReturnVariablesKey in r ==> Some(r[ReturnVariablesKey]) == ReturnVariables(kind, ParamNames(target)))
  {
  }

  /**
    Both type attributes, when set, hold the same hint: the converted
    return-type text; the `void` attribute holds `void`.
   */
  lemma TypeAttributeValues(
    kind: PluginKind, cls: TargetClass, target: TargetMethod, paramDoc: string,
    profile: FeatureProfile, host: Host
  )
    requires Generatable(cls, target, profile, host)
    ensures var r := AccessMethodAttributes(kind, cls, target, paramDoc, profile, host);
      var hint := ConvertDocTypeToHint(ReturnTypeText(target), profile.nullables);
      && (ScalarTypeHintKey in r ==> r[ScalarTypeHintKey] == hint)
      && (ReturnTypeKey in r ==> r[ReturnTypeKey] == hint)
      && (VoidReturnTypeKey in r ==> r[VoidReturnTypeKey] == VOID_RETURN_TYPE)
  {
  }

  /**
    Every kind's list carries all of the target's parameters after the
    first slot, each as its shortened text, in declaration order; for an
    after plugin too.
   */
  lemma ParamListCarriesParameters(
    kind: PluginKind, cls: TargetClass, target: TargetMethod, profile: FeatureProfile, host: Host
  )
    requires Generatable(cls, target, profile, host)
    ensures PluginParamList(kind, cls, target, profile, host)
            == Join([SubjectEntry(cls, profile, host) + Insertion(kind, target.returnType)] + ShortenedParams(target), ',')
  {
    var elems := PluginParameters(cls, target);
    PluginParameterEntries(cls, target, profile, host);
    ParamListIsJoin(elems, kind, target.returnType, profile, host);
    var entries := Entries(elems, profile, host);
    assert Slots(entries, kind, target.returnType)
           == [SubjectEntry(cls, profile, host) + Insertion(kind, target.returnType)] + ShortenedParams(target);
  }

  /** The class renders as the subject entry, each parameter as its shortened text. */
  lemma PluginParameterEntries(cls: TargetClass, target: TargetMethod, profile: FeatureProfile, host: Host)
    requires Generatable(cls, target, profile, host)
    ensures Renderable(PluginParameters(cls, target), profile, host)
    ensures var entries := Entries(PluginParameters(cls, target), profile, host);
      entries[0] == SubjectEntry(cls, profile, host) && entries[1..] == ShortenedParams(target)
  {
    GeneratableRenders(cls, target, profile, host);
    var elems := PluginParameters(cls, target);
    var entries := Entries(elems, profile, host);
    assert elems[0] == Subject(cls.name, cls.localTypes, cls.globalTypes);
    forall i | 0 <= i < |target.params|
      ensures entries[1..][i] == ShortenedParams(target)[i]
    {
      assert elems[i + 1] == Param(target.params[i].text);
    }
  }

  /**
    A target without a declared return type still gets both type attributes,
    when their features are supported, and both are the empty text.
   */
  lemma MissingReturnTypeGivesEmptyHints(
    kind: PluginKind, cls: TargetClass, target: TargetMethod, paramDoc: string,
    profile: FeatureProfile, host: Host
  )
    requires Generatable(cls, target, profile, host) && target.returnType.None?
    ensures var r := AccessMethodAttributes(kind, cls, target, paramDoc, profile, host);
      && (ScalarTypeHintKey in r <==> profile.scalarTypeHints)
      && (ReturnTypeKey in r <==> profile.returnTypes)
      && (ScalarTypeHintKey in r ==> r[ScalarTypeHintKey] == "")
      && (ReturnTypeKey in r ==> r[ReturnTypeKey] == "")
  {
    EmptyReturnTypeConvertable(profile.nullables);
    TypeAttributeValues(kind, cls, target, paramDoc, profile, host);
  }

  /** A reserved return type (`mixed`, `static`, `true`, `false`, `null`, any case) sets neither type attribute. */
  lemma ReservedReturnTypeOmitted(
    kind: PluginKind, cls: TargetClass, target: TargetMethod, paramDoc: string,
    profile: FeatureProfile, host: Host
  )
    requires Generatable(cls, target, profile, host)
    requires target.returnType.Some? && IsReserved(target.returnType.value)
    ensures var r := AccessMethodAttributes(kind, cls, target, paramDoc, profile, host);
      ScalarTypeHintKey !in r && ReturnTypeKey !in r
  {
  }

  /**
    The `void` return-type attribute depends on the feature alone: two
    targets with any return types and any parameters agree on it.
   */
  lemma VoidAttributeIgnoresTarget(
    kind: PluginKind, cls: TargetClass, t1: TargetMethod, t2: TargetMethod, paramDoc: string,
    profile: FeatureProfile, host: Host
  )
    requires Generatable(cls, t1, profile, host) && Generatable(cls, t2, profile, host)
    ensures var r1 := AccessMethodAttributes(kind, cls, t1, paramDoc, profile, host);
      var r2 := AccessMethodAttributes(kind, cls, t2, paramDoc, profile, host);
      && (VoidReturnTypeKey in r1 <==> VoidReturnTypeKey in r2)
      && (VoidReturnTypeKey in r1 ==> r1[VoidReturnTypeKey] == r2[VoidReturnTypeKey])
  {
    TypeAttributeValues(kind, cls, t1, paramDoc, profile, host);
    TypeAttributeValues(kind, cls, t2, paramDoc, profile, host);
  }
}
