/**
  The pairing of generated methods with their doc comments
  (`PluginMethodsGenerator.createPluginMethods`). The expanded template
  becomes a dummy class; its children are scanned in order, remembering the
  last doc comment seen, and every method child yields one record carrying
  that doc comment.
 */
module PluginMethodPairing {
  import opened Options

  /** A child node of the dummy class: a doc comment, a method, or anything else. */
  datatype Child<D, M> = DocComment(doc: D) | MethodNode(element: M) | OtherNode

  /** `PluginMethodData`: the target method, the doc comment in force, the generated method. */
  datatype PluginMethodData<T, D, M> = PluginMethodData(target: T, doc: Option<D>, pluginMethod: M)

  /** The most recent doc comment strictly before position `i`, if any. */
  function LatestDoc<D, M>(children: seq<Child<D, M>>, i: nat): Option<D>
    requires i <= |children|
  {
    if i == 0 then None
    else if children[i - 1].DocComment? then Some(children[i - 1].doc)
    else LatestDoc(children, i - 1)
  }

  /** The positions of the method children below `n`, in increasing order. */
  function MethodPositions<D, M>(children: seq<Child<D, M>>, n: nat): (ps: seq<nat>)
    requires n <= |children|
    ensures forall k | 0 <= k < |ps| :: ps[k] < n && children[ps[k]].MethodNode?
    ensures forall k, l | 0 <= k < l < |ps| :: ps[k] < ps[l]
    ensures forall i | 0 <= i < n && children[i].MethodNode? :: i in ps
  {
    if n == 0 then []
    else MethodPositions(children, n - 1) + (if children[n - 1].MethodNode? then [n - 1] else [])
  }

  /** The record of the method child at position `p`. */
  function RecordAt<T, D, M>(children: seq<Child<D, M>>, target: T, p: nat): PluginMethodData<T, D, M>
    requires p < |children| && children[p].MethodNode?
  {
    PluginMethodData(target, LatestDoc(children, p), children[p].element)
  }

  /** The records of the method children below `n`, in child order. */
  function PairingsUpTo<T, D, M>(children: seq<Child<D, M>>, target: T, n: nat): (r: seq<PluginMethodData<T, D, M>>)
    requires n <= |children|
    ensures |r| == |MethodPositions(children, n)|
  {
    var ps := MethodPositions(children, n);
    seq(|ps|, k requires 0 <= k < |ps| => RecordAt(children, target, ps[k]))
  }

  /** One record per method child, in child order, each with the doc comment in force at it. */
  function Pairings<T, D, M>(children: seq<Child<D, M>>, target: T): seq<PluginMethodData<T, D, M>>
  {
    PairingsUpTo(children, target, |children|)
  }

  /** Scanning one more child adds its record when it is a method, and nothing otherwise. */
  lemma PairingsStep<T, D, M>(children: seq<Child<D, M>>, target: T, n: nat)
    requires n < |children|
    ensures children[n].MethodNode? ==>
              PairingsUpTo(children, target, n + 1)
              == PairingsUpTo(children, target, n) + [RecordAt(children, target, n)]
    ensures !children[n].MethodNode? ==>
              PairingsUpTo(children, target, n + 1) == PairingsUpTo(children, target, n)
  {
    var ps := MethodPositions(children, n);
    var ps1 := MethodPositions(children, n + 1);
    assert ps1[..|ps|] == ps;
  }

  /**
    `createPluginMethods`' loop: no dummy class gives no records; otherwise
    the children are scanned once with the last doc comment remembered (and
    never reset).
   */
  method CreatePluginMethods<T, D, M>(dummy: Option<seq<Child<D, M>>>, target: T)
    returns (methods: seq<PluginMethodData<T, D, M>>)
    ensures dummy.None? ==> methods == []
    ensures dummy.Some? ==> methods == Pairings(dummy.value, target)
  {
    methods := [];
    if dummy.Some? {
      var children := dummy.value;
      var currDoc: Option<D> := None;
      var i := 0;
      while i < |children|
        invariant 0 <= i <= |children|
        invariant currDoc == LatestDoc(children, i)
        invariant methods == PairingsUpTo(children, target, i)
      {
        PairingsStep(children, target, i);
        match children[i] {
          case DocComment(d) =>
            currDoc := Some(d);
          case MethodNode(m) =>
            methods := methods + [PluginMethodData(target, currDoc, m)];
          case OtherNode =>
        }
        i := i + 1;
      }
    }
  }

  // ---------------------------------------------------------------------------
  // Properties
  // ---------------------------------------------------------------------------

  /**
    The doc comment in force at `i` is a doc comment before `i` with none
    after it up to `i`; there is none in force exactly when no doc comment
    precedes `i`.
   */
  lemma {:induction false} LatestDocIsMostRecent<D, M>(children: seq<Child<D, M>>, i: nat)
    requires i <= |children|
    ensures LatestDoc(children, i).None? <==> forall j | 0 <= j < i :: !children[j].DocComment?
    ensures LatestDoc(children, i).Some? ==>
              exists j | 0 <= j < i ::
                && children[j] == DocComment(LatestDoc(children, i).value)
                && forall k | j < k < i :: !children[k].DocComment?
  {
    if i > 0 {
      LatestDocIsMostRecent(children, i - 1);
      if !children[i - 1].DocComment? && LatestDoc(children, i).Some? {
        var j :| 0 <= j < i - 1
          && children[j] == DocComment(LatestDoc(children, i - 1).value)
          && forall k | j < k < i - 1 :: !children[k].DocComment?;
        assert forall k | j < k < i :: !children[k].DocComment?;
      }
    }
  }

  /**
    The remembered doc comment is not reset by a method: two method
    children with no doc comment between them get the same doc comment.
   */
  lemma {:induction false} DocNotReset<D, M>(children: seq<Child<D, M>>, p: nat, q: nat)
    requires p <= q <= |children|
    requires forall k | p <= k < q :: !children[k].DocComment?
    ensures LatestDoc(children, q) == LatestDoc(children, p)
    decreases q
  {
    if q > p {
      DocNotReset(children, p, q - 1);
    }
  }

  /**
    The `k`-th record belongs to the `k`-th method child: it carries that
    child's method and the doc comment in force there, and every record
    refers to the same target.
   */
  lemma PairingsFollowMethods<T, D, M>(children: seq<Child<D, M>>, target: T)
    ensures var ps := MethodPositions(children, |children|);
      var r := Pairings(children, target);
      && |r| == |ps|
      && forall k | 0 <= k < |ps| ::
           && r[k].target == target
           && r[k].pluginMethod == children[ps[k]].element
           && r[k].doc == LatestDoc(children, ps[k])
  {
  }
}
