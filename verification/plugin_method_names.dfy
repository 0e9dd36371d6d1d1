/**
  The name of a generated plugin method and its "return variables" text
  (`PluginMethodsGenerator.fillAttributes` and `getReturnVariables`).
 */
module PluginMethodNames {
  import opened Options
  import opened JavaText
  import opened PluginTypes

  // ---------------------------------------------------------------------------
  // Method name
  // ---------------------------------------------------------------------------

  /** The target name with its first character upper-cased, the rest unchanged. */
  function Capitalize(targetName: string): (r: string)
    requires |targetName| >= 1
    ensures |r| == |targetName| && r[1..] == targetName[1..]
    ensures r[0] == UpperChar(targetName[0])
    ensures UpperChar(r[0]) == r[0]
  {
    [UpperChar(targetName[0])] + targetName[1..]
  }

  /**
    The plugin method's name: the kind's name followed by the capitalised
    target name. `fillAttributes` takes the first character with
    `substring(0, 1)`, which throws on an empty name; hence the precondition.
   */
  function PluginMethodName(kind: PluginKind, targetName: string): string
    requires |targetName| >= 1
  {
    KindName(kind) + Capitalize(targetName)
  }

  /** A generated name taken apart again: its kind and its capitalised suffix. */
  datatype NameParts = NameParts(kind: PluginKind, suffix: string)

  /** A non-empty suffix whose first character is already upper case. */
  predicate IsCapitalized(suffix: string)
  {
    |suffix| >= 1 && UpperChar(suffix[0]) == suffix[0]
  }

  /** The suffix of `name` after the kind's name, when it begins with it. */
  function SuffixAfter(name: string, kind: PluginKind): (r: Option<string>)
    ensures r.Some? <==> StartsWith(name, KindName(kind))
    ensures r.Some? ==> name == KindName(kind) + r.value
  {
    var prefix := KindName(kind);
    if StartsWith(name, prefix) then Some(name[|prefix|..]) else None
  }

  /** Recognises a generated plugin method name: a kind's name, then a capitalised suffix. */
  function ParsePluginMethodName(name: string): (r: Option<NameParts>)
  {
    var before := SuffixAfter(name, Before);
    var after := SuffixAfter(name, After);
    var around := SuffixAfter(name, Around);
    if before.Some? && IsCapitalized(before.value) then Some(NameParts(Before, before.value))
    else if after.Some? && IsCapitalized(after.value) then Some(NameParts(After, after.value))
    else if around.Some? && IsCapitalized(around.value) then Some(NameParts(Around, around.value))
    else None
  }

  /** No kind's name is a prefix of another's, so the kind of a name is determined. */
  lemma KindPrefixUnique(name: string, k1: PluginKind, k2: PluginKind)
    requires StartsWith(name, KindName(k1)) && StartsWith(name, KindName(k2))
    ensures k1 == k2
  {
    var n1 := KindName(k1);
    var n2 := KindName(k2);
    assert n1[0] == name[0] == n2[0] && n1[1] == name[1] == n2[1];
    match k1
    case Before => assert n1[0] == 'b';
    case After => assert n1[..2] == "af";
    case Around => assert n1[..2] == "ar";
  }

  /** Parsing a generated name gives back its kind and the capitalised target name. */
  lemma ParseNameRoundTrip(kind: PluginKind, targetName: string)
    requires |targetName| >= 1
    ensures ParsePluginMethodName(PluginMethodName(kind, targetName))
            == Some(NameParts(kind, Capitalize(targetName)))
  {
    var name := PluginMethodName(kind, targetName);
    assert StartsWith(name, KindName(kind));
    assert name[|KindName(kind)|..] == Capitalize(targetName);
    forall k | k != kind
      ensures !StartsWith(name, KindName(k))
    {
      if StartsWith(name, KindName(k)) {
        KindPrefixUnique(name, k, kind);
      }
    }
  }

  /** Whatever the parser recognises is exactly the name generated from its parts. */
  lemma ParseNameSound(name: string)
    requires ParsePluginMethodName(name).Some?
    ensures var parts := ParsePluginMethodName(name).value;
      && |parts.suffix| >= 1
      && name == PluginMethodName(parts.kind, parts.suffix)
  {
    var parts := ParsePluginMethodName(name).value;
    assert Capitalize(parts.suffix) == parts.suffix;
  }

  /**
    Two targets get the same plugin method name only under the same kind and
    when they differ at most in the case of their first letter.
   */
  lemma PluginMethodNameInjective(k1: PluginKind, t1: string, k2: PluginKind, t2: string)
    requires |t1| >= 1 && |t2| >= 1
    requires PluginMethodName(k1, t1) == PluginMethodName(k2, t2)
    ensures k1 == k2 && UpperChar(t1[0]) == UpperChar(t2[0]) && t1[1..] == t2[1..]
  {
    ParseNameRoundTrip(k1, t1);
    ParseNameRoundTrip(k2, t2);
    var c1 := Capitalize(t1);
    var c2 := Capitalize(t2);
    assert c1 == c2;
    assert c1[1..] == c2[1..];
  }

  /** Concrete names: `save` gives `beforeSave` and `afterSave`, `execute` gives `aroundExecute`. */
  lemma NameExamples()
    ensures PluginMethodName(Before, "save") == "beforeSave"
    ensures PluginMethodName(After, "save") == "afterSave"
    ensures PluginMethodName(Around, "execute") == "aroundExecute"
  {
  }

  // ---------------------------------------------------------------------------
  // Return variables
  // ---------------------------------------------------------------------------

  /** One parameter as a PHP variable. */
  function Variable(name: string): string
  {
    "$" + name
  }

  /** The parameters as variables, separated by a comma and a space, in order. */
  function Variables(names: seq<string>): string
    requires |names| >= 1
  {
    if |names| == 1 then Variable(names[0])
    else Variables(names[..|names| - 1]) + ", " + Variable(names[|names| - 1])
  }

  /**
    `getReturnVariables`: `$result` for an after plugin whatever the target's
    parameters; otherwise the target's parameters as variables, or nothing
    (Java `null`, not the empty text) when it has none.
   */
  function ReturnVariables(kind: PluginKind, paramNames: seq<string>): (r: Option<string>)
    ensures r.Some? <==> kind == After || |paramNames| >= 1
    ensures kind == After ==> r == Some("$result")
  {
    if kind == After then Some("$result")
    else if |paramNames| == 0 then None
    else Some(Variables(paramNames))
  }

  /** Concrete return variables: none without parameters, `$a, $b` for two, `$result` after. */
  lemma ReturnVariablesExamples()
    ensures ReturnVariables(Before, []) == None
    ensures ReturnVariables(Around, ["a", "b"]) == Some("$a, $b")
    ensures ReturnVariables(After, ["a", "b"]) == Some("$result")
  {
    var names := ["a", "b"];
    assert names[..1] == ["a"];
    assert Variables(names[..1]) == "$a";
    assert Variables(names) == "$a" + ", " + "$b" == "$a, $b";
    assert ReturnVariables(Around, names) == Some(Variables(names));
  }

  /** The string-builder loop of `getReturnVariables`. */
  method BuildReturnVariables(kind: PluginKind, paramNames: seq<string>) returns (r: Option<string>)
    ensures r == ReturnVariables(kind, paramNames)
  {
    if kind == After {
      return Some("$result");
    }
    if |paramNames| == 0 {
      return None;
    }
    var buf := "";
    var isFirst := true;
    var i := 0;
    while i < |paramNames|
      invariant 0 <= i <= |paramNames|
      invariant isFirst <==> i == 0
      invariant i == 0 ==> buf == ""
      invariant i >= 1 ==> buf == Variables(paramNames[..i])
    {
      if isFirst {
        isFirst := false;
      } else {
        buf := buf + ", ";
      }
      buf := buf + "$" + paramNames[i];
      assert paramNames[..i + 1][..i] == paramNames[..i];
      i := i + 1;
    }
    assert paramNames[..i] == paramNames;
    return Some(buf);
  }

  /** Recovers parameter names from a variables text: each comma-separated piece without its `$` (and leading space). */
  function ParseVariables(text: string): seq<string>
  {
    var pieces := SplitRaw(text, ',');
    seq(|pieces|, i requires 0 <= i < |pieces| =>
      TrimStart(pieces[i], if i == 0 then "$" else " $"))
  }

  /** Each piece of the variables text between commas: `$name`, then ` $name` for the others. */
  lemma {:induction false} VariablesPieces(names: seq<string>)
    requires |names| >= 1
    requires forall i | 0 <= i < |names| :: ',' !in names[i]
    ensures var pieces := SplitRaw(Variables(names), ',');
      && |pieces| == |names|
      && pieces[0] == Variable(names[0])
      && forall i | 1 <= i < |names| :: pieces[i] == " " + Variable(names[i])
  {
    var n := |names|;
    if n == 1 {
      assert ',' !in Variable(names[0]);
      SplitRawNoSep(Variable(names[0]), ',');
    } else {
      var pre := names[..n - 1];
      VariablesPieces(pre);
      var last := " " + Variable(names[n - 1]);
      assert ',' !in last;
      assert Variables(names) == Variables(pre) + [','] + last;
      SplitRawAppendPiece(Variables(pre), last, ',');
    }
  }

  /**
    The return-variables text of a before or around plugin gives back the
    target's parameter names, in order, when no name holds a comma.
   */
  lemma ReturnVariablesRoundTrip(kind: PluginKind, paramNames: seq<string>)
    requires kind != After && |paramNames| >= 1
    requires forall i | 0 <= i < |paramNames| :: ',' !in paramNames[i]
    ensures ReturnVariables(kind, paramNames).Some?
    ensures ParseVariables(ReturnVariables(kind, paramNames).value) == paramNames
  {
    var text := Variables(paramNames);
    VariablesPieces(paramNames);
    var parsed := ParseVariables(text);
    forall i | 0 <= i < |paramNames|
      ensures parsed[i] == paramNames[i]
    {
      if i == 0 {
        assert Variable(paramNames[0]) == "$" + paramNames[0];
      } else {
        assert " " + Variable(paramNames[i]) == " $" + paramNames[i];
      }
    }
  }

  /** With `$`-free names, the variables text holds exactly one `$` per parameter. */
  lemma {:induction false} VariablesDollarCount(names: seq<string>)
    requires |names| >= 1
    requires forall i | 0 <= i < |names| :: '$' !in names[i]
    ensures Count(Variables(names), '$') == |names|
  {
    var n := |names|;
    var last := names[n - 1];
    CountAbsent(last, '$');
    CountConcat("$", last, '$');
    assert Count("$", '$') == 1 by {
      assert ("$")[..0] == "";
    }
    if n > 1 {
      var pre := names[..n - 1];
      VariablesDollarCount(pre);
      CountConcat(Variables(pre), ", ", '$');
      assert Count(", ", '$') == 0 by {
        CountAbsent(", ", '$');
      }
      CountConcat(Variables(pre) + ", ", Variable(last), '$');
    }
  }
}
