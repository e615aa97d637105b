/** Whole-builder runs on small interfaces, written as clients of Builder and
    Proxy: the interfaces of the unit tests (a hidden base method, `out`
    parameters, a property) and a one-method greeter. */
module Scenarios {
  import opened Signatures
  import opened Catalog
  import opened MethodFinder
  import opened Registry
  import opened Dispatch
  import opened Builders

  const Void := Named("Void")
  const Int32 := Named("Int32")
  const StringType := Named("String")

  /** interface IGreeter { string SayHi(string name); } */
  const SayHi := Op(1, "SayHi", StringType, [Param("name", StringType, false, false, false)])
  const Greeter := InterfaceDecl([SayHi], [])

  /** `n => "Hi, " + n` as a Func<string, string>. */
  function Greet(args: seq<Value>): Value
  {
    if |args| == 1 && args[0].Str? then Str("Hi, " + args[0].s) else Null
  }
  const GreetDelegate := Delegate(Op(100, "Invoke", StringType, [Param("n", StringType, false, false, false)]), Greet)

  /** Registering by name binds SayHi; binding it again fails and keeps the
      first delegate; the proxy then answers with the delegate. */
  method GreeterRun() returns (first: Status, second: Status, r: CallResult)
    ensures first == Pass
    ensures second == Fail(AlreadyImplemented("SayHi"))
    ensures r == Returned(Str("Hi, Ann"))
  {
    var b := new Builder(Greeter, None);
    first := b.AddMethodByName("SayHi", GreetDelegate);
    second := b.AddMethodByName("SayHi", Delegate(GreetDelegate.info, args => Null));
    var proxy := b.Create();
    r := proxy.Call(SayHi, [Str("Ann")]);
    assert Greet([Str("Ann")]) == Str("Hi, Ann");
  }

  /** The selector shares the builder's table: a registration made after
      Create is seen by the next call on the proxy. */
  method LateRegistrationRun() returns (before: CallResult, after: CallResult)
    ensures before == NotImplemented
    ensures after == Returned(Str("Hi, Ann"))
  {
    var b := new Builder(Greeter, None);
    var proxy := b.Create();
    before := proxy.Call(SayHi, [Str("Ann")]);
    var _ := b.AddMethodByName("SayHi", GreetDelegate);
    after := proxy.Call(SayHi, [Str("Ann")]);
    assert Greet([Str("Ann")]) == Str("Hi, Ann");
  }

  /** interface ITestBase { void A(); } and interface ITest : ITestBase
      { new void A(); void A(out int arg); }. */
  const BaseA := Op(10, "A", Void, [])
  const DerivedA := Op(11, "A", Void, [])
  const OutA := Op(12, "A", Void, [Param("arg", ByRef(Int32), false, true, false)])
  const ITest := InterfaceDecl([DerivedA, OutA], [[BaseA]])

  /** An Action that reports 13. */
  const Report13 := Delegate(Op(200, "Invoke", Void, []), args => Int(13))
  /** The MethodInfo of Delegate.CreateDelegate, which a method-group
      selector such as `x => ((ITestBase)x).A` also calls. */
  const CreateDelegateInfo := Op(300, "CreateDelegate", Named("Delegate"), [])

  lemma ITestCatalog()
    ensures Methods(ITest) == [DerivedA, OutA, BaseA]
  {
    var bases := ITest.bases;
    assert bases == [[BaseA]];
    assert bases[..0] == [];
    assert Concat(bases[..0]) == [];
    assert Concat(bases) == [BaseA];
  }

  /** By name, the parameterless A is ambiguous: the hidden base A and its
      re-declaration are both catalog entries with that signature. */
  lemma HiddenBaseIsAmbiguousByName()
    ensures ResolveByName(Methods(ITest), "A", Report13) == Failure(MultipleMatches("A"))
  {
    ITestCatalog();
    var catalog := Methods(ITest);
    CandidatesMany(catalog, Report13.info, "A");
    assert Matches(catalog[0], Report13.info, "A") && Matches(catalog[2], Report13.info, "A");
  }

  /** A method-group selector `x => x.M` references CreateDelegate, which no
      interface declares, and then M itself: only M is recorded. */
  lemma MethodGroupSelector(catalog: seq<Op>, k: nat)
    requires k < |catalog|
    requires !Contains(catalog, CreateDelegateInfo)
    ensures Referenced(catalog, [MethodRef(CreateDelegateInfo), MethodRef(catalog[k])], false) == [catalog[k]]
  {
    var refs := [MethodRef(CreateDelegateInfo), MethodRef(catalog[k])];
    assert refs[..1][..0] == [];
    assert Referenced(catalog, refs[..1], false) == [];
  }

  /** The re-declared A and the hidden base A share name and signature, so by
      name they are ambiguous; a selector naming the base one binds it, and
      only it. */
  method HiddenBaseMethodRun() returns (byName: Status, bySelector: Status, onBase: CallResult, onDerived: CallResult)
    ensures byName == Fail(MultipleMatches("A"))
    ensures bySelector == Pass
    ensures onBase == Returned(Int(13))
    ensures onDerived == NotImplemented
  {
    var b := new Builder(ITest, None);
    HiddenBaseIsAmbiguousByName();
    ITestCatalog();
    MethodGroupSelector(b.catalog, 2);
    byName := b.AddMethodByName("A", Report13);
    bySelector := b.AddMethodBySelector([MethodRef(CreateDelegateInfo), MethodRef(BaseA)], IsDelegate(Report13));
    var proxy := b.Create();
    onBase := proxy.Call(BaseA, []);
    onDerived := proxy.Call(DerivedA, []);
  }

  /** `A(out int)` accepts a delegate with an `out int` parameter and refuses
      one whose parameter is a plain `ref int`: the In/Out flags differ even
      though the by-ref type is the same. */
  method OutParameterRun() returns (withRef: Status, withOut: Status)
    ensures withRef == Fail(DelegateMismatch)
    ensures withOut == Pass
  {
    var b := new Builder(ITest, None);
    ITestCatalog();
    assert b.catalog[1] == OutA;
    var refDelegate := Delegate(Op(201, "Invoke", Void, [Param("x", ByRef(Int32), false, false, false)]), args => Null);
    var outDelegate := Delegate(Op(202, "Invoke", Void, [Param("x", ByRef(Int32), false, true, false)]), args => Int(11));
    assert !Matches(OutA, refDelegate.info, "A") by {
      assert OutA.params[0].Direction() != refDelegate.info.params[0].Direction();
    }
    assert Matches(OutA, outDelegate.info, "A");
    assert Contains(b.catalog, OutA);
    withRef := b.AddMethod(OutA, refDelegate);
    withOut := b.AddMethod(OutA, outDelegate);
  }

  /** interface ICounter { int Count { get; } void Increment(); } with a
      default target: overriding Increment leaves Count served by the target. */
  const GetCount := Op(20, "get_Count", Int32, [])
  const Increment := Op(21, "Increment", Void, [])
  const Counter := InterfaceDecl([GetCount, Increment], [])

  method OverrideWithDefaultTargetRun() returns (override: Status, count: CallResult, inc: CallResult)
    ensures override == Pass
    ensures count == Returned(Int(0))
    ensures inc == Returned(Null)
  {
    var target := Target((id, args) => if id == GetCount.id then Int(0) else Int(1));
    var b := new Builder(Counter, Some(target));
    assert b.catalog == [GetCount, Increment];
    MethodGroupSelector(b.catalog, 1);
    override := b.AddMethodBySelector([MethodRef(CreateDelegateInfo), MethodRef(Increment)],
                                 IsDelegate(Delegate(Op(203, "Invoke", Void, []), args => Null)));
    var proxy := b.Create();
    inc := proxy.Call(Increment, []);
    count := proxy.Call(GetCount, []);
  }

  /** interface IProperty { int Val { get; set; } }: a property selector
      hands over the getter to PropertyGet and the setter to PropertySet. */
  const GetVal := Op(30, "get_Val", Int32, [])
  const SetVal := Op(31, "set_Val", Void, [Param("value", Int32, false, false, false)])
  const WithProperty := InterfaceDecl([GetVal, SetVal], [])

  method PropertyRun() returns (getter: Status, setter: Status, read: CallResult)
    ensures getter == Pass && setter == Pass
    ensures read == Returned(Int(13))
  {
    var b := new Builder(WithProperty, None);
    var valRef := PropertyRef(Some(GetVal), Some(SetVal));
    assert b.catalog == [GetVal, SetVal];
    assert [valRef][..0] == [];
    assert Referenced(b.catalog, [valRef], false) == [GetVal] by { assert b.catalog[0] == GetVal; }
    assert Referenced(b.catalog, [valRef], true) == [SetVal] by { assert b.catalog[1] == SetVal; }
    getter := b.AddPropertyGet([valRef], Delegate(Op(204, "Invoke", Int32, []), args => Int(13)));
    setter := b.AddPropertySet([valRef], Delegate(Op(205, "Invoke", Void, [Param("x", Int32, false, false, false)]), args => Null));
    var proxy := b.Create();
    read := proxy.Call(GetVal, []);
  }
}
