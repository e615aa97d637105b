/** The method catalog of an interface: the methods it declares itself,
    followed by the methods each of its base interfaces declares, with no
    de-duplication by signature (the static constructor of Builder). */
module Catalog {
  import opened Signatures

  /** What reflection reports about TInterface: its own declared methods and,
      for each interface `GetInterfaces` returns (all ancestors, in the order
      reflection gives them), that interface's declared methods. */
  datatype InterfaceDecl = InterfaceDecl(declared: seq<Op>, bases: seq<seq<Op>>)

  /** The groups of methods laid end to end, in order. */
  function Concat(groups: seq<seq<Op>>): seq<Op>
  {
    if |groups| == 0 then [] else Concat(groups[..|groups| - 1]) + groups[|groups| - 1]
  }

  /** The catalog of an interface declaration. */
  function Methods(decl: InterfaceDecl): seq<Op>
  {
    decl.declared + Concat(decl.bases)
  }

  /** Some catalog entry has identity `id`. */
  predicate Declares(catalog: seq<Op>, id: OpId)
  {
    exists k :: 0 <= k < |catalog| && catalog[k].id == id
  }

  /** `interfaceMethods.Contains(method)`: some catalog entry is that very method. */
  predicate Contains(catalog: seq<Op>, m: Op)
  {
    Declares(catalog, m.id)
  }

  /** The static constructor: start from the declared methods and AddRange the
      declared methods of each base interface in turn. */
  method BuildCatalog(decl: InterfaceDecl) returns (methods: seq<Op>)
    ensures methods == Methods(decl)
  {
    methods := decl.declared;
    var types := decl.bases;
    for i := 0 to |types|
      invariant methods == decl.declared + Concat(types[..i])
    {
      assert types[..i + 1][..i] == types[..i];
      methods := methods + types[i];
    }
    assert types[..|types|] == types;
  }

  /** Every method of every group, counted with multiplicity. */
  function BaseBag(groups: seq<seq<Op>>): multiset<Op>
  {
    if |groups| == 0 then multiset{} else BaseBag(groups[..|groups| - 1]) + multiset(groups[|groups| - 1])
  }

  lemma {:induction false} ConcatMembership(groups: seq<seq<Op>>, op: Op)
    ensures op in Concat(groups) <==> exists i :: 0 <= i < |groups| && op in groups[i]
    decreases |groups|
  {
    if |groups| > 0 {
      var init := groups[..|groups| - 1];
      ConcatMembership(init, op);
      assert forall i :: 0 <= i < |init| ==> init[i] == groups[i];
    }
  }

  /** A method is in the catalog exactly when TInterface or one of its base
      interfaces declares it. */
  lemma CatalogMembership(decl: InterfaceDecl, op: Op)
    ensures op in Methods(decl) <==>
            op in decl.declared || exists i :: 0 <= i < |decl.bases| && op in decl.bases[i]
  {
    ConcatMembership(decl.bases, op);
  }

  lemma {:induction false} ConcatBag(groups: seq<seq<Op>>)
    ensures multiset(Concat(groups)) == BaseBag(groups)
    decreases |groups|
  {
    if |groups| > 0 {
      ConcatBag(groups[..|groups| - 1]);
    }
  }

  /** No de-duplication: the catalog holds one entry per declaration, and
      nothing is merged by signature, so a `new` re-declaration and the base
      method it hides, two different methods with one signature, are two
      entries. */
  lemma CatalogKeepsEveryDeclaration(decl: InterfaceDecl)
    ensures multiset(Methods(decl)) == multiset(decl.declared) + BaseBag(decl.bases)
    ensures |Methods(decl)| == |decl.declared| + |BaseBag(decl.bases)|
  {
    ConcatBag(decl.bases);
  }

  /** The interface's own methods come first, in declaration order. */
  lemma DeclaredFirst(decl: InterfaceDecl)
    ensures Methods(decl)[..|decl.declared|] == decl.declared
  {
  }

  /** No two entries share an identity. */
  predicate DistinctIds(s: seq<Op>)
  {
    forall i, j :: 0 <= i < j < |s| ==> s[i].id != s[j].id
  }

  /** What reflection guarantees: `GetInterfaces` lists each ancestor once,
      a diamond's shared base included, and `DeclaredOnly` gives each method
      to the one interface that declares it, so no identity occurs twice
      within a group or across the declared methods and the groups. */
  predicate WellFormed(decl: InterfaceDecl)
  {
    DistinctIds(decl.declared) &&
    (forall g :: 0 <= g < |decl.bases| ==> DistinctIds(decl.bases[g])) &&
    (forall g, i, k :: 0 <= g < |decl.bases| && 0 <= i < |decl.bases[g]| && 0 <= k < |decl.declared| ==>
       decl.bases[g][i].id != decl.declared[k].id) &&
    (forall g, h, i, k :: 0 <= g < h < |decl.bases| && 0 <= i < |decl.bases[g]| && 0 <= k < |decl.bases[h]| ==>
       decl.bases[g][i].id != decl.bases[h][k].id)
  }

  /** Every entry of the concatenation sits at some position of some group. */
  lemma {:induction false} ConcatOrigin(groups: seq<seq<Op>>, p: nat)
    requires p < |Concat(groups)|
    ensures exists g, i :: 0 <= g < |groups| && 0 <= i < |groups[g]| && Concat(groups)[p] == groups[g][i]
    decreases |groups|
  {
    var init := groups[..|groups| - 1];
    var last := groups[|groups| - 1];
    if p < |Concat(init)| {
      ConcatOrigin(init, p);
      var g, i :| 0 <= g < |init| && 0 <= i < |init[g]| && Concat(init)[p] == init[g][i];
      assert init[g] == groups[g];
    } else {
      assert Concat(groups)[p] == last[p - |Concat(init)|];
    }
  }

  lemma {:induction false} ConcatDistinct(groups: seq<seq<Op>>)
    requires forall g :: 0 <= g < |groups| ==> DistinctIds(groups[g])
    requires forall g, h, i, k :: 0 <= g < h < |groups| && 0 <= i < |groups[g]| && 0 <= k < |groups[h]| ==>
               groups[g][i].id != groups[h][k].id
    ensures DistinctIds(Concat(groups))
    decreases |groups|
  {
    if |groups| > 0 {
      var init := groups[..|groups| - 1];
      var last := groups[|groups| - 1];
      assert forall g :: 0 <= g < |init| ==> init[g] == groups[g];
      ConcatDistinct(init);
      var c := Concat(groups);
      var n := |Concat(init)|;
      forall p, q | 0 <= p < q < |c|
        ensures c[p].id != c[q].id
      {
        if q >= n {
          if p >= n {
            assert c[p] == last[p - n] && c[q] == last[q - n];
          } else {
            ConcatOrigin(init, p);
            var g, i :| 0 <= g < |init| && 0 <= i < |init[g]| && Concat(init)[p] == init[g][i];
            assert c[p] == groups[g][i] && c[q] == groups[|groups| - 1][q - n];
          }
        } else {
          assert c[p] == Concat(init)[p] && c[q] == Concat(init)[q];
        }
      }
    }
  }

  /** Under what reflection guarantees, every method occurs once in the
      catalog: a base reached along two inheritance paths still contributes
      its methods once, and two entries are always two different methods. */
  lemma CatalogIdsDistinct(decl: InterfaceDecl)
    requires WellFormed(decl)
    ensures DistinctIds(Methods(decl))
  {
    ConcatDistinct(decl.bases);
    var c := Methods(decl);
    var n := |decl.declared|;
    forall p, q | 0 <= p < q < |c|
      ensures c[p].id != c[q].id
    {
      if p < n && q >= n {
        ConcatOrigin(decl.bases, q - n);
        var g, i :| 0 <= g < |decl.bases| && 0 <= i < |decl.bases[g]| && Concat(decl.bases)[q - n] == decl.bases[g][i];
        assert c[q] == decl.bases[g][i] && c[p] == decl.declared[p];
      } else if p >= n {
        assert c[p] == Concat(decl.bases)[p - n] && c[q] == Concat(decl.bases)[q - n];
      }
    }
  }
}
