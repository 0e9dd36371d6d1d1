/**
  The return-type hint of a generated plugin method, derived from the text of
  the target method's declared return type (`PluginMethodsGenerator`'s
  `isDocTypeConvertable`, `typeWithNull`, `convertNullableType` and
  `convertDocTypeToHint`).
 */
module DocTypeHints {
  import opened JavaText
  import opened PluginTypes

  /** A text equal, ignoring case, to a return type no declaration can express. */
  predicate IsReserved(typeHint: string)
  {
    || EqualsIgnoreCase(typeHint, MIXED_RETURN_TYPE)
    || EqualsIgnoreCase(typeHint, STATIC_MODIFIER)
    || EqualsIgnoreCase(typeHint, PHP_TRUE)
    || EqualsIgnoreCase(typeHint, PHP_FALSE)
    || EqualsIgnoreCase(typeHint, PHP_NULL)
  }

  /** The pieces of a doc type, as Java's `split` on the union separator yields them. */
  function Alternatives(typeHint: string): seq<string>
  {
    JavaSplit(typeHint, DOC_TYPE_SEPARATOR)
  }

  /**
    `typeWithNull`: exactly two alternatives, and the upper-cased text holds
    `NULL` anywhere (not necessarily as a whole alternative).
   */
  predicate TypeWithNull(typeHint: string)
  {
    |Alternatives(typeHint)| == 2 && Contains(ToUpper(typeHint), "NULL")
  }

  /**
    `isDocTypeConvertable`: not a reserved word, and either no union at all or
    a two-way union with null.
   */
  predicate IsDocTypeConvertable(typeHint: string)
  {
    !IsReserved(typeHint) && (DOC_TYPE_SEPARATOR !in typeHint || TypeWithNull(typeHint))
  }

  /**
    `convertNullableType` reads the first alternative, and the second when the
    first is `null`; a text without them makes it throw.
   */
  predicate NullableSplitSafe(hint: string)
  {
    var split := Alternatives(hint);
    |split| >= 1 && (EqualsIgnoreCase(split[0], PHP_NULL) ==> |split| >= 2)
  }

  /** The `?` marker of a nullable type when the project supports nullable types. */
  function NullMarker(nullables: bool): string
  {
    if nullables then "?" else ""
  }

  /**
    `convertNullableType`: the alternative that is not `null` — the second
    when the first is `null`, otherwise the first — after the marker.
   */
  function ConvertNullableType(hint: string, nullables: bool): string
    requires NullableSplitSafe(hint)
  {
    var split := Alternatives(hint);
    if EqualsIgnoreCase(split[0], PHP_NULL) then NullMarker(nullables) + split[1]
    else NullMarker(nullables) + split[0]
  }

  /** The hint before nullable conversion: `array` for `[]` texts, `bool` for `boolean` ones. */
  function MappedHint(typeHint: string): string
  {
    var arrayMapped := if Contains(typeHint, "[]") then ARRAY_TYPE else typeHint;
    if Contains(arrayMapped, "boolean") then "bool" else arrayMapped
  }

  /** A text without the separator is its own single alternative. */
  lemma SingleAlternative(t: string)
    requires DOC_TYPE_SEPARATOR !in t
    ensures Alternatives(t) == [t]
  {
  }

  /**
    `convertDocTypeToHint`: the mapped hint, converted as a nullable type when
    the original text is a union with null.
   */
  function ConvertDocTypeToHint(typeHint: string, nullables: bool): string
  {
    var hint := MappedHint(typeHint);
    if TypeWithNull(typeHint) then
      assert NullableSplitSafe(hint) by {
        if hint != typeHint {
          assert hint == ARRAY_TYPE || hint == "bool";
          SingleAlternative(hint);
          assert !EqualsIgnoreCase(hint, PHP_NULL) by {
            assert UpperChar(hint[0]) != UpperChar(PHP_NULL[0]);
          }
        }
      }
      ConvertNullableType(hint, nullables)
    else
      hint
  }

  // ---------------------------------------------------------------------------
  // Properties
  // ---------------------------------------------------------------------------

  /** Upper-casing works character by character. */
  lemma ToUpperConcat(a: string, b: string)
    ensures ToUpper(a + b) == ToUpper(a) + ToUpper(b)
  {
    assert forall i | 0 <= i < |a + b| :: ToUpper(a + b)[i] == (ToUpper(a) + ToUpper(b))[i];
  }

  /** The upper-cased form of a two-way union. */
  lemma ToUpperUnion(a: string, b: string)
    requires DOC_TYPE_SEPARATOR !in a && DOC_TYPE_SEPARATOR !in b
    ensures ToUpper(a + [DOC_TYPE_SEPARATOR] + b) == ToUpper(a) + [DOC_TYPE_SEPARATOR] + ToUpper(b)
  {
    ToUpperConcat(a + [DOC_TYPE_SEPARATOR], b);
    ToUpperConcat(a, [DOC_TYPE_SEPARATOR]);
  }

  /** A two-way union splits into its two sides. */
  lemma UnionAlternatives(a: string, b: string)
    requires DOC_TYPE_SEPARATOR !in a && DOC_TYPE_SEPARATOR !in b && b != ""
    ensures Alternatives(a + [DOC_TYPE_SEPARATOR] + b) == [a, b]
  {
    JavaSplitTwo(a, b, 0, DOC_TYPE_SEPARATOR);
    assert a + [DOC_TYPE_SEPARATOR] + b + Repeat(DOC_TYPE_SEPARATOR, 0) == a + [DOC_TYPE_SEPARATOR] + b;
  }

  /** Reserved words are plain letters, so none of them is a union. */
  lemma ReservedHasNoSeparator(t: string)
    requires IsReserved(t)
    ensures DOC_TYPE_SEPARATOR !in t
  {
    if EqualsIgnoreCase(t, MIXED_RETURN_TYPE) {
      LettersOnly(t, MIXED_RETURN_TYPE);
    } else if EqualsIgnoreCase(t, STATIC_MODIFIER) {
      LettersOnly(t, STATIC_MODIFIER);
    } else if EqualsIgnoreCase(t, PHP_TRUE) {
      LettersOnly(t, PHP_TRUE);
    } else if EqualsIgnoreCase(t, PHP_FALSE) {
      LettersOnly(t, PHP_FALSE);
    } else {
      LettersOnly(t, PHP_NULL);
    }
  }

  /** A text equal, ignoring case, to a lower-case word is made of letters. */
  lemma LettersOnly(t: string, w: string)
    requires EqualsIgnoreCase(t, w)
    requires forall i | 0 <= i < |w| :: 'a' <= w[i] <= 'z'
    ensures DOC_TYPE_SEPARATOR !in t
  {
    forall i | 0 <= i < |t|
      ensures t[i] != DOC_TYPE_SEPARATOR
    {
      assert UpperChar(t[i]) == UpperChar(w[i]);
    }
  }

  /**
    A text is convertible exactly when it is a non-reserved text without a
    union, or a two-way union mentioning null; no union is ever reserved.
   */
  lemma ConvertableCases(t: string)
    ensures IsDocTypeConvertable(t)
            <==> (!IsReserved(t) && DOC_TYPE_SEPARATOR !in t) || TypeWithNull(t)
  {
    if TypeWithNull(t) {
      assert DOC_TYPE_SEPARATOR in t;
      if IsReserved(t) {
        ReservedHasNoSeparator(t);
      }
    }
  }

  /**
    A two-way union is convertible exactly when one of its sides, upper-cased,
    mentions `NULL`.
   */
  lemma TwoWayUnionConvertable(a: string, b: string)
    requires DOC_TYPE_SEPARATOR !in a && DOC_TYPE_SEPARATOR !in b && b != ""
    ensures IsDocTypeConvertable(a + [DOC_TYPE_SEPARATOR] + b)
            <==> Contains(ToUpper(a), "NULL") || Contains(ToUpper(b), "NULL")
  {
    var t := a + [DOC_TYPE_SEPARATOR] + b;
    UnionAlternatives(a, b);
    ToUpperUnion(a, b);
    ContainsAcross(ToUpper(a), ToUpper(b), DOC_TYPE_SEPARATOR, "NULL");
    assert DOC_TYPE_SEPARATOR in t by {
      assert t[|a|] == DOC_TYPE_SEPARATOR;
    }
    ConvertableCases(t);
  }

  /**
    The two-piece test of `typeWithNull` holds exactly when one union
    separator remains once trailing separators are removed.
   */
  lemma TwoAlternativesIffOneSeparator(t: string)
    ensures |Alternatives(t)| == 2 <==> Count(StripTrailing(t, DOC_TYPE_SEPARATOR), DOC_TYPE_SEPARATOR) == 1
  {
    var st := StripTrailing(t, DOC_TYPE_SEPARATOR);
    JavaSplitCount(t, DOC_TYPE_SEPARATOR);
    if DOC_TYPE_SEPARATOR !in t {
      assert DOC_TYPE_SEPARATOR !in st by {
        assert forall i | 0 <= i < |st| :: st[i] == t[i];
      }
      CountAbsent(st, DOC_TYPE_SEPARATOR);
    }
  }

  /** Three or more alternatives are never convertible, whatever they mention. */
  lemma ManyAlternativesRejected(t: string)
    requires |Alternatives(t)| >= 3
    ensures !IsDocTypeConvertable(t)
  {
    ConvertableCases(t);
  }

  /** In particular a union of three alternatives is never convertible. */
  lemma ThreeWayUnionRejected(a: string, b: string, c: string)
    requires DOC_TYPE_SEPARATOR !in a && DOC_TYPE_SEPARATOR !in b && DOC_TYPE_SEPARATOR !in c
    requires c != ""
    ensures !IsDocTypeConvertable(a + [DOC_TYPE_SEPARATOR] + b + [DOC_TYPE_SEPARATOR] + c)
  {
    var sep := DOC_TYPE_SEPARATOR;
    var ab := a + [sep] + b;
    var t := ab + [sep] + c;
    SplitRawNoSep(a, sep);
    SplitRawAppendPiece(a, b, sep);
    SplitRawAppendPiece(ab, c, sep);
    assert SplitRaw(t, sep) == [a, b, c];
    DropTrailingAppendEmpties([a, b, c], 0);
    assert [a, b, c] + Empties(0) == [a, b, c];
    assert t[|ab|] == sep;
    ManyAlternativesRejected(t);
  }

  /** A side equal to `null` up to case upper-cases to `NULL`. */
  lemma NullSideMentionsNull(x: string)
    requires EqualsIgnoreCase(x, PHP_NULL)
    ensures ToUpper(x) == "NULL"
  {
  }

  /**
    A union of a type with `null`, on either side, converts to the other
    side, marked `?` exactly when nullable types are supported, provided no
    array or boolean mapping applies.
   */
  lemma NullUnionKeepsOtherSide(a: string, b: string, nullables: bool)
    requires DOC_TYPE_SEPARATOR !in a && DOC_TYPE_SEPARATOR !in b && b != ""
    requires EqualsIgnoreCase(a, PHP_NULL) || EqualsIgnoreCase(b, PHP_NULL)
    requires !Contains(a + [DOC_TYPE_SEPARATOR] + b, "[]")
    requires !Contains(a + [DOC_TYPE_SEPARATOR] + b, "boolean")
    ensures var t := a + [DOC_TYPE_SEPARATOR] + b;
      && IsDocTypeConvertable(t)
      && ConvertDocTypeToHint(t, nullables)
         == NullMarker(nullables) + (if EqualsIgnoreCase(a, PHP_NULL) then b else a)
  {
    var t := a + [DOC_TYPE_SEPARATOR] + b;
    TwoWayUnionConvertable(a, b);
    if EqualsIgnoreCase(a, PHP_NULL) {
      NullSideMentionsNull(a);
      assert IsAt(ToUpper(a), "NULL", 0);
    } else {
      NullSideMentionsNull(b);
      assert IsAt(ToUpper(b), "NULL", 0);
    }
    UnionAlternatives(a, b);
  }

  /**
    In a union with null, an array or boolean mapping wins: the result is the
    mapped hint with the marker.
   */
  lemma NullUnionOfMappedType(t: string, nullables: bool)
    requires TypeWithNull(t)
    requires Contains(t, "[]") || Contains(t, "boolean")
    ensures MappedHint(t) == ARRAY_TYPE || MappedHint(t) == "bool"
    ensures IsDocTypeConvertable(t)
    ensures ConvertDocTypeToHint(t, nullables) == NullMarker(nullables) + MappedHint(t)
  {
    var hint := MappedHint(t);
    AbsentHeadNotContained(ARRAY_TYPE, "boolean");
    SingleAlternative(hint);
    assert !EqualsIgnoreCase(hint, PHP_NULL) by {
      assert UpperChar(hint[0]) != UpperChar(PHP_NULL[0]);
    }
    ConvertableCases(t);
  }

  /**
    Which side `null` stands on does not matter: `X|null` and `null|X` are
    both convertible and give the same hint.
   */
  lemma NullSideIrrelevant(x: string, n: string, nullables: bool)
    requires DOC_TYPE_SEPARATOR !in x && x != "" && !EqualsIgnoreCase(x, PHP_NULL)
    requires EqualsIgnoreCase(n, PHP_NULL)
    ensures var xn := x + [DOC_TYPE_SEPARATOR] + n;
      var nx := n + [DOC_TYPE_SEPARATOR] + x;
      && IsDocTypeConvertable(xn) && IsDocTypeConvertable(nx)
      && ConvertDocTypeToHint(xn, nullables) == ConvertDocTypeToHint(nx, nullables)
  {
    var sep := DOC_TYPE_SEPARATOR;
    var xn := x + [sep] + n;
    var nx := n + [sep] + x;
    assert sep !in n by {
      ReservedHasNoSeparator(n);
    }
    NullSideMentionsNull(n);
    assert IsAt(ToUpper(n), "NULL", 0);
    TwoWayUnionConvertable(x, n);
    TwoWayUnionConvertable(n, x);
    ContainsAcross(x, n, sep, "[]");
    ContainsAcross(n, x, sep, "[]");
    ContainsAcross(x, n, sep, "boolean");
    ContainsAcross(n, x, sep, "boolean");
    UnionAlternatives(x, n);
    UnionAlternatives(n, x);
    if Contains(xn, "[]") || Contains(xn, "boolean") {
      NullUnionOfMappedType(xn, nullables);
      NullUnionOfMappedType(nx, nullables);
    } else {
      NullUnionKeepsOtherSide(x, n, nullables);
      NullUnionKeepsOtherSide(n, x, nullables);
    }
  }

  /**
    A text without a union gets no nullable conversion: `array` if it holds
    `[]`, else `bool` if it holds `boolean`, else itself; it is convertible
    unless it is a reserved word.
   */
  lemma PlainTypeHint(t: string, nullables: bool)
    requires DOC_TYPE_SEPARATOR !in t
    ensures IsDocTypeConvertable(t) <==> !IsReserved(t)
    ensures Contains(t, "[]") ==> ConvertDocTypeToHint(t, nullables) == ARRAY_TYPE
    ensures !Contains(t, "[]") && Contains(t, "boolean") ==> ConvertDocTypeToHint(t, nullables) == "bool"
    ensures !Contains(t, "[]") && !Contains(t, "boolean") ==> ConvertDocTypeToHint(t, nullables) == t
  {
    SingleAlternative(t);
    AbsentHeadNotContained(ARRAY_TYPE, "boolean");
  }

  /**
    The null test is a substring test: a union whose second side merely
    mentions null (`Foo|NullFoo`) counts as a union with null, and the second
    side is dropped.
   */
  lemma NullMentionDropsSecondSide(a: string, b: string, nullables: bool)
    requires DOC_TYPE_SEPARATOR !in a && DOC_TYPE_SEPARATOR !in b && b != ""
    requires Contains(ToUpper(b), "NULL") && !EqualsIgnoreCase(a, PHP_NULL)
    requires !Contains(a + [DOC_TYPE_SEPARATOR] + b, "[]")
    requires !Contains(a + [DOC_TYPE_SEPARATOR] + b, "boolean")
    ensures IsDocTypeConvertable(a + [DOC_TYPE_SEPARATOR] + b)
    ensures ConvertDocTypeToHint(a + [DOC_TYPE_SEPARATOR] + b, nullables) == NullMarker(nullables) + a
  {
    TwoWayUnionConvertable(a, b);
    UnionAlternatives(a, b);
  }

  /** A missing return type reads as the empty text, which is convertible and converts to itself. */
  lemma EmptyReturnTypeConvertable(nullables: bool)
    ensures IsDocTypeConvertable("")
    ensures ConvertDocTypeToHint("", nullables) == ""
  {
    PlainTypeHint("", nullables);
  }
}
