/** The registration logic of Builder, on values: how each public
    registration form resolves the interface method it targets, and how the
    implementations table then gains that one binding
    (AddMatchedImplementation). Every form runs its own checks, none of which
    looks at the table, and then the shared membership and duplicate checks. */
module Registry {
  import opened Signatures
  import opened Catalog
  import opened MethodFinder

  /** Which expression-based form could not pin down its method. */
  datatype SelectorKind = InterfaceMethod | PropertyGetter | PropertySetter

  /** The InvalidOperationException each check raises. */
  datatype Error =
    | NotAMember                         // "Method is not a member of the interface."
    | AlreadyImplemented(name: string)   // "Interface already has an implementation for <name>"
    | DelegateMismatch                   // "Delegate does not match interface method definition."
    | NoMatch(name: string)              // "Could not match "<name>" to an interface method."
    | MultipleMatches(name: string)      // ""<name>" matched multiple interface methods."
    | Undetermined(kind: SelectorKind)   // "Could not determine interface method/property getter/setter."
    | NotADelegate                       // "Implementation is not a delegate."

  datatype Result<+T> = Success(value: T) | Failure(error: Error)

  /** An argument of a generic type parameter: a delegate, or any other value
      (null included). */
  datatype Implementation = IsDelegate(d: Delegate) | NotDelegate

  /** A successful registration: the method bound and the table afterwards. */
  datatype Bound = Bound(op: Op, table: Table)

  /** The public registration forms of Builder. */
  datatype Request =
    | ByInfo(m: Op, d: Delegate)                              // Method(MethodInfo, Delegate)
    | ByName(name: string, d: Delegate)                       // Method(string, Delegate)
    | BySelector(refs: seq<Reference>, impl: Implementation)  // Method<TMethod>(selector, implementation)
    | PropertyGet(refs: seq<Reference>, d: Delegate)          // PropertyGet<T>(selector, Func<T>)
    | PropertySet(refs: seq<Reference>, d: Delegate)          // PropertySet<T>(selector, Action<T>)
    | PropertySetByName(propertyName: string, d: Delegate)    // PropertySet<T>(string, Action<T>)
    | IndexGet(impl: Implementation)                          // IndexGet<TMethod>(implementation)
    | IndexSet(impl: Implementation)                          // IndexSet<TMethod>(implementation)
    | EventSubscribe(eventName: string, d: Delegate)          // EventSubscribe<TEvent>(string, Action<TEvent>)
    | EventUnsubscribe(eventName: string, d: Delegate)        // EventUnsubscribe<TEvent>(string, Action<TEvent>)

  /** The `Where` filter of Method(string, Delegate): the catalog entries the
      delegate matches under `name`, in catalog order. */
  function Candidates(catalog: seq<Op>, impl: Op, name: string): (found: seq<Op>)
    ensures |found| <= |catalog|
    ensures forall op :: op in found <==> op in catalog && Matches(op, impl, name)
  {
    if |catalog| == 0 then []
    else (if Matches(catalog[0], impl, name) then [catalog[0]] else []) + Candidates(catalog[1..], impl, name)
  }

  /** No candidate exactly when no catalog position matches. */
  lemma NoCandidates(catalog: seq<Op>, impl: Op, name: string)
    ensures |Candidates(catalog, impl, name)| == 0 <==>
            forall k :: 0 <= k < |catalog| ==> !Matches(catalog[k], impl, name)
  {
    var found := Candidates(catalog, impl, name);
    if |found| > 0 {
      assert found[0] in found;
    }
  }

  /** Two matching positions give at least two candidates. */
  lemma {:induction false} ManyFromPair(catalog: seq<Op>, impl: Op, name: string, i: nat, j: nat)
    requires i < j < |catalog|
    requires Matches(catalog[i], impl, name) && Matches(catalog[j], impl, name)
    ensures |Candidates(catalog, impl, name)| > 1
    decreases i
  {
    var rest := catalog[1..];
    assert rest[j - 1] == catalog[j];
    if i == 0 {
      assert rest[j - 1] in Candidates(rest, impl, name);
    } else {
      assert rest[i - 1] == catalog[i];
      ManyFromPair(rest, impl, name, i - 1, j - 1);
    }
  }

  /** At least two candidates come from two matching positions. */
  lemma {:induction false} PairFromMany(catalog: seq<Op>, impl: Op, name: string) returns (i: nat, j: nat)
    requires |Candidates(catalog, impl, name)| > 1
    ensures i < j < |catalog|
    ensures Matches(catalog[i], impl, name) && Matches(catalog[j], impl, name)
    decreases |catalog|
  {
    var rest := catalog[1..];
    var later := Candidates(rest, impl, name);
    if Matches(catalog[0], impl, name) {
      assert later[0] in later;
      var k :| 0 <= k < |rest| && rest[k] == later[0];
      i, j := 0, k + 1;
    } else {
      var i', j' := PairFromMany(rest, impl, name);
      i, j := i' + 1, j' + 1;
    }
  }

  /** More than one candidate exactly when two distinct catalog positions
      match: entries are never merged, so a method hidden by a `new`
      re-declaration of the same signature makes a name ambiguous. */
  lemma CandidatesMany(catalog: seq<Op>, impl: Op, name: string)
    ensures |Candidates(catalog, impl, name)| > 1 <==>
            exists i, j :: 0 <= i < j < |catalog| && Matches(catalog[i], impl, name) && Matches(catalog[j], impl, name)
  {
    if |Candidates(catalog, impl, name)| > 1 {
      var i, j := PairFromMany(catalog, impl, name);
    }
    if exists i, j :: 0 <= i < j < |catalog| && Matches(catalog[i], impl, name) && Matches(catalog[j], impl, name) {
      var i, j :| 0 <= i < j < |catalog| && Matches(catalog[i], impl, name) && Matches(catalog[j], impl, name);
      ManyFromPair(catalog, impl, name, i, j);
    }
  }

  /** When exactly one catalog position matches, the filter yields exactly
      that entry. */
  lemma {:induction false} UniqueCandidate(catalog: seq<Op>, impl: Op, name: string, k: nat)
    requires k < |catalog| && Matches(catalog[k], impl, name)
    requires forall j :: 0 <= j < |catalog| && j != k ==> !Matches(catalog[j], impl, name)
    ensures Candidates(catalog, impl, name) == [catalog[k]]
    decreases k
  {
    var rest := catalog[1..];
    if k == 0 {
      forall j | 0 <= j < |rest|
        ensures !Matches(rest[j], impl, name)
      {
        assert rest[j] == catalog[j + 1];
      }
      NoCandidates(rest, impl, name);
    } else {
      forall j | 0 <= j < |rest| && j != k - 1
        ensures !Matches(rest[j], impl, name)
      {
        assert rest[j] == catalog[j + 1];
      }
      UniqueCandidate(rest, impl, name, k - 1);
    }
  }

  /** Method(MethodInfo, Delegate) before AddMatchedImplementation: the
      delegate must match the method under the method's own name. */
  function ResolveByInfo(m: Op, d: Delegate): Result<(Op, Delegate)>
  {
    if Matches(m, d.info, m.name) then Success((m, d)) else Failure(DelegateMismatch)
  }

  /** Method(string, Delegate) before AddMatchedImplementation: exactly one
      catalog entry may match. */
  function ResolveByName(catalog: seq<Op>, name: string, d: Delegate): Result<(Op, Delegate)>
  {
    var found := Candidates(catalog, d.info, name);
    if |found| == 0 then Failure(NoMatch(name))
    else if |found| > 1 then Failure(MultipleMatches(name))
    else Success((found[0], d))
  }

  /** The expression-based forms: the selector must reference exactly one
      catalog method, the implementation must be a delegate, and then
      Method(MethodInfo, Delegate) applies. */
  function ResolveBySelector(catalog: seq<Op>, refs: seq<Reference>, returnSetter: bool, kind: SelectorKind, impl: Implementation): Result<(Op, Delegate)>
  {
    var found := Referenced(catalog, refs, returnSetter);
    if |found| != 1 then Failure(Undetermined(kind))
    else if !impl.IsDelegate? then Failure(NotADelegate)
    else ResolveByInfo(found[0], impl.d)
  }

  /** Which interface method a registration targets, with the delegate to
      bind; the checks run in the order Builder runs them. */
  function Resolve(catalog: seq<Op>, req: Request): Result<(Op, Delegate)>
  {
    match req
    case ByInfo(m, d) => ResolveByInfo(m, d)
    case ByName(name, d) => ResolveByName(catalog, name, d)
    case BySelector(refs, impl) => ResolveBySelector(catalog, refs, false, InterfaceMethod, impl)
    case PropertyGet(refs, d) => ResolveBySelector(catalog, refs, false, PropertyGetter, IsDelegate(d))
    case PropertySet(refs, d) => ResolveBySelector(catalog, refs, true, PropertySetter, IsDelegate(d))
    case PropertySetByName(p, d) => ResolveByName(catalog, "set_" + p, d)
    case IndexGet(impl) => if impl.IsDelegate? then ResolveByName(catalog, "get_Item", impl.d) else Failure(NotADelegate)
    case IndexSet(impl) => if impl.IsDelegate? then ResolveByName(catalog, "set_Item", impl.d) else Failure(NotADelegate)
    case EventSubscribe(e, d) => ResolveByName(catalog, "add_" + e, d)
    case EventUnsubscribe(e, d) => ResolveByName(catalog, "remove_" + e, d)
  }

  /** AddMatchedImplementation: the method must be a catalog member and not
      yet implemented; then the table gains that one key and nothing else
      changes. */
  function AddMatched(catalog: seq<Op>, table: Table, m: Op, d: Delegate): (r: Result<Bound>)
    ensures r.Success? <==> Contains(catalog, m) && m.id !in table
    ensures !Contains(catalog, m) ==> r == Failure(NotAMember)
    ensures Contains(catalog, m) && m.id in table ==> r == Failure(AlreadyImplemented(m.name))
    ensures r.Success? ==>
              r.value.op == m &&
              r.value.table.Keys == table.Keys + {m.id} &&
              r.value.table[m.id] == d &&
              forall k :: k in table ==> r.value.table[k] == table[k]
  {
    if !Contains(catalog, m) then Failure(NotAMember)
    else if m.id in table then Failure(AlreadyImplemented(m.name))
    else Success(Bound(m, table[m.id := d]))
  }

  /** A whole registration: resolve, then AddMatchedImplementation. */
  function Register(catalog: seq<Op>, table: Table, req: Request): Result<Bound>
  {
    match Resolve(catalog, req)
    case Failure(e) => Failure(e)
    case Success(target) => AddMatched(catalog, table, target.0, target.1)
  }

  /** Every key of the table names a catalog method. */
  ghost predicate OnlyMembers(catalog: seq<Op>, table: Table)
  {
    forall id :: id in table ==> Declares(catalog, id)
  }

  /** No form bypasses the shared checks: a successful registration binds a
      catalog member that had no implementation, adds exactly that key with
      the resolved delegate, and keeps the table to catalog members. */
  lemma RegisterOnlyAdds(catalog: seq<Op>, table: Table, req: Request)
    requires OnlyMembers(catalog, table)
    ensures Register(catalog, table, req).Success? ==>
              var target := Resolve(catalog, req).value;
              var b := Register(catalog, table, req).value;
              Resolve(catalog, req).Success? &&
              b.op == target.0 && Contains(catalog, b.op) && b.op.id !in table &&
              b.table == table[b.op.id := target.1] &&
              OnlyMembers(catalog, b.table)
  {
  }

  /** Method(string, Delegate) fails with NoMatch exactly when no catalog
      entry matches, fails with MultipleMatches exactly when two entries do,
      and otherwise binds the one matching entry. */
  lemma ResolveByNameCases(catalog: seq<Op>, name: string, d: Delegate)
    ensures ResolveByName(catalog, name, d) == Failure(NoMatch(name)) <==>
            forall k :: 0 <= k < |catalog| ==> !Matches(catalog[k], d.info, name)
    ensures ResolveByName(catalog, name, d) == Failure(MultipleMatches(name)) <==>
            exists i, j :: 0 <= i < j < |catalog| && Matches(catalog[i], d.info, name) && Matches(catalog[j], d.info, name)
    ensures ResolveByName(catalog, name, d).Success? ==>
              exists k :: 0 <= k < |catalog| && ResolveByName(catalog, name, d).value == (catalog[k], d) &&
                forall j :: 0 <= j < |catalog| && j != k ==> !Matches(catalog[j], d.info, name)
  {
    NoCandidates(catalog, d.info, name);
    CandidatesMany(catalog, d.info, name);
    var found := Candidates(catalog, d.info, name);
    if |found| == 1 {
      assert found[0] in found;
      var k :| 0 <= k < |catalog| && catalog[k] == found[0];
    }
  }

  /** A delegate with the shape of catalog entry k, offered under that
      entry's name, binds exactly that entry when no other entry matches. */
  lemma OwnSignatureResolves(catalog: seq<Op>, k: nat, d: Delegate)
    requires k < |catalog|
    requires SameShape(catalog[k], d.info)
    requires forall j :: 0 <= j < |catalog| && j != k ==> !Matches(catalog[j], d.info, catalog[k].name)
    ensures Resolve(catalog, ByName(catalog[k].name, d)) == Success((catalog[k], d))
  {
    UniqueCandidate(catalog, d.info, catalog[k].name, k);
  }

  /** Method(MethodInfo, Delegate) is AddMatchedImplementation guarded by the
      signature test under the method's own name. */
  lemma ByInfoIsGuardedAdd(catalog: seq<Op>, table: Table, m: Op, d: Delegate)
    ensures Register(catalog, table, ByInfo(m, d)) ==
            if Matches(m, d.info, m.name) then AddMatched(catalog, table, m, d) else Failure(DelegateMismatch)
  {
  }

  /** The name helpers are Method(string, Delegate) with a synthesised name;
      the index helpers first insist on a delegate. */
  lemma NameHelpersAreSugar(catalog: seq<Op>, table: Table, p: string, e: string, d: Delegate, impl: Implementation)
    ensures Register(catalog, table, PropertySetByName(p, d)) == Register(catalog, table, ByName("set_" + p, d))
    ensures Register(catalog, table, EventSubscribe(e, d)) == Register(catalog, table, ByName("add_" + e, d))
    ensures Register(catalog, table, EventUnsubscribe(e, d)) == Register(catalog, table, ByName("remove_" + e, d))
    ensures Register(catalog, table, IndexGet(impl)) ==
            if impl.IsDelegate? then Register(catalog, table, ByName("get_Item", impl.d)) else Failure(NotADelegate)
    ensures Register(catalog, table, IndexSet(impl)) ==
            if impl.IsDelegate? then Register(catalog, table, ByName("set_Item", impl.d)) else Failure(NotADelegate)
  {
  }

  /** A method bound by name is a catalog entry that the delegate matches
      under that name, is the only such entry, and so is found again by the
      same name: the helpers that synthesise a name bind what
      Method(string, Delegate) would bind. */
  lemma ByNameBindingIsDiscoverable(catalog: seq<Op>, table: Table, name: string, d: Delegate)
    requires Register(catalog, table, ByName(name, d)).Success?
    ensures var op := Register(catalog, table, ByName(name, d)).value.op;
            op in catalog && Matches(op, d.info, name) &&
            (op.name == name || op.id == d.info.id) &&
            Candidates(catalog, d.info, name) == [op]
  {
    var found := Candidates(catalog, d.info, name);
    assert found[0] in found;
  }

  /** The expression-based forms bind the one catalog method the selector
      hands over (the setter of a property for PropertySet, the getter
      otherwise): exactly one node of the walk hands over a catalog member,
      and the delegate matches it under its own name. */
  lemma SelectorBindsReferencedMethod(catalog: seq<Op>, table: Table, req: Request)
    requires req.BySelector? || req.PropertyGet? || req.PropertySet?
    requires Register(catalog, table, req).Success?
    ensures var op := Register(catalog, table, req).value.op;
            Referenced(catalog, req.refs, req.PropertySet?) == [op] &&
            (exists i :: 0 <= i < |req.refs| && Picked(req.refs[i], req.PropertySet?) == Some(op) &&
               forall j :: 0 <= j < |req.refs| && j != i ==> !Recorded(catalog, req.refs[j], req.PropertySet?)) &&
            Matches(op, Resolve(catalog, req).value.1.info, op.name)
  {
    var op := Register(catalog, table, req).value.op;
    var found := Referenced(catalog, req.refs, req.PropertySet?);
    assert found[0] == op;
    ReferencedOne(catalog, req.refs, req.PropertySet?);
  }

  /** The expression-based forms fail with Undetermined exactly when no node,
      or more than one node, of the walk hands over a catalog member; a
      method referenced twice is not one method. */
  lemma SelectorUndetermined(catalog: seq<Op>, table: Table, req: Request)
    requires req.BySelector? || req.PropertyGet? || req.PropertySet?
    ensures var kind := if req.BySelector? then InterfaceMethod else if req.PropertyGet? then PropertyGetter else PropertySetter;
            Register(catalog, table, req) == Failure(Undetermined(kind)) <==>
              (forall i :: 0 <= i < |req.refs| ==> !Recorded(catalog, req.refs[i], req.PropertySet?)) ||
              exists i, j :: 0 <= i < j < |req.refs| && Recorded(catalog, req.refs[i], req.PropertySet?) && Recorded(catalog, req.refs[j], req.PropertySet?)
  {
    NoneReferenced(catalog, req.refs, req.PropertySet?);
    ReferencedMany(catalog, req.refs, req.PropertySet?);
  }

  /** A method is bound at most once, whichever forms are used: once any
      registration has bound it, any later registration that resolves to it
      fails with AlreadyImplemented and binds nothing. */
  lemma SecondBindingFails(catalog: seq<Op>, table: Table, first: Request, second: Request)
    requires Register(catalog, table, first).Success?
    requires Resolve(catalog, second).Success?
    requires Resolve(catalog, second).value.0.id == Register(catalog, table, first).value.op.id
    ensures Register(catalog, Register(catalog, table, first).value.table, second) ==
            Failure(AlreadyImplemented(Resolve(catalog, second).value.0.name))
  {
    var m := Register(catalog, table, first).value.op;
    var k :| 0 <= k < |catalog| && catalog[k].id == m.id;
    assert Contains(catalog, Resolve(catalog, second).value.0);
  }

  /** For an interface as reflection reports it, a name is ambiguous only
      through two different methods, and at most one of the two can be the
      delegate's own method, so the other has the requested name and the
      delegate's shape; when the delegate's method is not an interface member
      (the usual lambda), both have them: the hidden-base case. */
  lemma AmbiguityNeedsTwinSignatures(decl: InterfaceDecl, name: string, d: Delegate)
    requires WellFormed(decl)
    ensures var c := Methods(decl);
            ResolveByName(c, name, d) == Failure(MultipleMatches(name)) ==>
              exists i, j :: 0 <= i < j < |c| && c[i].id != c[j].id &&
                Matches(c[i], d.info, name) && Matches(c[j], d.info, name) &&
                ((c[i].name == name && SameShape(c[i], d.info)) || (c[j].name == name && SameShape(c[j], d.info))) &&
                (!Contains(c, d.info) ==>
                   c[i].name == name && SameShape(c[i], d.info) && c[j].name == name && SameShape(c[j], d.info))
  {
    var c := Methods(decl);
    CatalogIdsDistinct(decl);
    ResolveByNameCases(c, name, d);
    if ResolveByName(c, name, d) == Failure(MultipleMatches(name)) {
      var i, j :| 0 <= i < j < |c| && Matches(c[i], d.info, name) && Matches(c[j], d.info, name);
      if !Contains(c, d.info) {
        assert c[i].id != d.info.id;
        assert c[j].id != d.info.id;
      }
    }
  }
}
