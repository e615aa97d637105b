/** MethodFinder: which interface methods an expression selector refers to.
    The expression-tree walk itself is replaced by the sequence of references
    the walk meets, in visiting order; what is kept is what `Add` records. */
module MethodFinder {
  import opened Signatures
  import opened Catalog

  /** A node the visitor reacts to: a method call or a MethodInfo constant
      (both hand their method to `Add`), or a property access, which hands over
      the getter or the setter, either of which may be missing. */
  datatype Reference = MethodRef(m: Op) | PropertyRef(getter: Option<Op>, setter: Option<Op>)

  /** The method a node hands to `Add`: the setter of a property when
      `returnSetter` is set, its getter otherwise. */
  function Picked(r: Reference, returnSetter: bool): Option<Op>
  {
    match r
    case MethodRef(m) => Some(m)
    case PropertyRef(getter, setter) => if returnSetter then setter else getter
  }

  /** A node whose picked method is a catalog member: `Add` records it. */
  predicate Recorded(catalog: seq<Op>, r: Reference, returnSetter: bool)
  {
    Picked(r, returnSetter).Some? && Contains(catalog, Picked(r, returnSetter).value)
  }

  /** The methods recorded for a walk over `refs`: each picked method that is
      a member of the catalog, in visiting order. */
  function Referenced(catalog: seq<Op>, refs: seq<Reference>, returnSetter: bool): (found: seq<Op>)
    ensures |found| <= |refs|
    ensures forall m :: m in found ==> Contains(catalog, m)
    decreases |refs|
  {
    if |refs| == 0 then []
    else
      var earlier := Referenced(catalog, refs[..|refs| - 1], returnSetter);
      match Picked(refs[|refs| - 1], returnSetter)
      case Some(m) => if Contains(catalog, m) then earlier + [m] else earlier
      case None => earlier
  }

  /** CalledMethods: a fresh list, filled by `Add` as the walk proceeds. */
  method CalledMethods(catalog: seq<Op>, refs: seq<Reference>, returnSetter: bool) returns (methods: seq<Op>)
    ensures methods == Referenced(catalog, refs, returnSetter)
  {
    methods := [];
    for i := 0 to |refs|
      invariant methods == Referenced(catalog, refs[..i], returnSetter)
    {
      assert refs[..i + 1][..i] == refs[..i];
      match Picked(refs[i], returnSetter)
      case Some(m) =>
        if Contains(catalog, m) {
          methods := methods + [m];
        }
      case None =>
    }
    assert refs[..|refs|] == refs;
  }

  /** A method is recorded exactly when it is a catalog member and some node
      of the walk hands it over. */
  lemma {:induction false} ReferencedExactly(catalog: seq<Op>, refs: seq<Reference>, returnSetter: bool, m: Op)
    ensures m in Referenced(catalog, refs, returnSetter) <==>
            Contains(catalog, m) && exists i :: 0 <= i < |refs| && Picked(refs[i], returnSetter) == Some(m)
    decreases |refs|
  {
    if |refs| > 0 {
      var init := refs[..|refs| - 1];
      ReferencedExactly(catalog, init, returnSetter, m);
      assert forall i :: 0 <= i < |init| ==> init[i] == refs[i];
    }
  }

  /** Nothing is recorded exactly when no node hands over a catalog member. */
  lemma {:induction false} NoneReferenced(catalog: seq<Op>, refs: seq<Reference>, returnSetter: bool)
    ensures |Referenced(catalog, refs, returnSetter)| == 0 <==>
            forall i :: 0 <= i < |refs| ==> !Recorded(catalog, refs[i], returnSetter)
    decreases |refs|
  {
    if |refs| > 0 {
      var init := refs[..|refs| - 1];
      NoneReferenced(catalog, init, returnSetter);
      assert forall i :: 0 <= i < |init| ==> init[i] == refs[i];
    }
  }

  /** Two recording nodes give at least two entries, even when they hand over
      the same method: the list is not de-duplicated. */
  lemma {:induction false} ManyFromTwoNodes(catalog: seq<Op>, refs: seq<Reference>, returnSetter: bool, i: nat, j: nat)
    requires i < j < |refs|
    requires Recorded(catalog, refs[i], returnSetter) && Recorded(catalog, refs[j], returnSetter)
    ensures |Referenced(catalog, refs, returnSetter)| > 1
    decreases |refs|
  {
    var init := refs[..|refs| - 1];
    assert init[i] == refs[i];
    if j == |refs| - 1 {
      NoneReferenced(catalog, init, returnSetter);
    } else {
      assert init[j] == refs[j];
      ManyFromTwoNodes(catalog, init, returnSetter, i, j);
    }
  }

  /** At least two entries come from two recording nodes. */
  lemma {:induction false} TwoNodesFromMany(catalog: seq<Op>, refs: seq<Reference>, returnSetter: bool) returns (i: nat, j: nat)
    requires |Referenced(catalog, refs, returnSetter)| > 1
    ensures i < j < |refs|
    ensures Recorded(catalog, refs[i], returnSetter) && Recorded(catalog, refs[j], returnSetter)
    decreases |refs|
  {
    var init := refs[..|refs| - 1];
    if Recorded(catalog, refs[|refs| - 1], returnSetter) {
      NoneReferenced(catalog, init, returnSetter);
      var k :| 0 <= k < |init| && Recorded(catalog, init[k], returnSetter);
      assert init[k] == refs[k];
      i, j := k, |refs| - 1;
    } else {
      var i', j' := TwoNodesFromMany(catalog, init, returnSetter);
      assert init[i'] == refs[i'] && init[j'] == refs[j'];
      i, j := i', j';
    }
  }

  /** More than one entry exactly when two distinct nodes of the walk hand
      over catalog members, so `x => x.B() + x.B()` records B twice. */
  lemma ReferencedMany(catalog: seq<Op>, refs: seq<Reference>, returnSetter: bool)
    ensures |Referenced(catalog, refs, returnSetter)| > 1 <==>
            exists i, j :: 0 <= i < j < |refs| && Recorded(catalog, refs[i], returnSetter) && Recorded(catalog, refs[j], returnSetter)
  {
    if |Referenced(catalog, refs, returnSetter)| > 1 {
      var i, j := TwoNodesFromMany(catalog, refs, returnSetter);
    }
    if exists i, j :: 0 <= i < j < |refs| && Recorded(catalog, refs[i], returnSetter) && Recorded(catalog, refs[j], returnSetter) {
      var i, j :| 0 <= i < j < |refs| && Recorded(catalog, refs[i], returnSetter) && Recorded(catalog, refs[j], returnSetter);
      ManyFromTwoNodes(catalog, refs, returnSetter, i, j);
    }
  }

  /** Exactly one entry exactly when exactly one node of the walk hands over a
      catalog member; the entry is that node's method. */
  lemma ReferencedOne(catalog: seq<Op>, refs: seq<Reference>, returnSetter: bool)
    ensures |Referenced(catalog, refs, returnSetter)| == 1 <==>
            exists i :: 0 <= i < |refs| && Recorded(catalog, refs[i], returnSetter) &&
              forall j :: 0 <= j < |refs| && j != i ==> !Recorded(catalog, refs[j], returnSetter)
    ensures |Referenced(catalog, refs, returnSetter)| == 1 ==>
            exists i :: 0 <= i < |refs| && Picked(refs[i], returnSetter) == Some(Referenced(catalog, refs, returnSetter)[0]) &&
              forall j :: 0 <= j < |refs| && j != i ==> !Recorded(catalog, refs[j], returnSetter)
  {
    NoneReferenced(catalog, refs, returnSetter);
    ReferencedMany(catalog, refs, returnSetter);
    var found := Referenced(catalog, refs, returnSetter);
    if |found| == 1 {
      ReferencedExactly(catalog, refs, returnSetter, found[0]);
      assert found[0] in found;
      var i :| 0 <= i < |refs| && Picked(refs[i], returnSetter) == Some(found[0]);
      assert Recorded(catalog, refs[i], returnSetter);
    }
  }
}
