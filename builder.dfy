/** Builder<TInterface>: the catalog of TInterface, the implementations
    dictionary it fills one registration at a time, the optional default
    target, and Create. */
module Builders {
  import opened Signatures
  import opened Catalog
  import opened MethodFinder
  import opened Registry
  import opened Dispatch

  /** What a registration call reports: the builder, ready for the next call,
      or the InvalidOperationException it threw. */
  datatype Status = Pass | Fail(error: Error)

  /** The state change a registration makes: on success the table becomes the
      one the registration computes, on failure it is left as it was. */
  ghost predicate Applied(result: Result<Bound>, before: Table, after: Table, status: Status)
  {
    match result
    case Success(b) => status == Pass && after == b.table
    case Failure(e) => status == Fail(e) && after == before
  }

  class Builder {
    /** The methods of TInterface and of its base interfaces. */
    const catalog: seq<Op>
    /** The implementations dictionary; the selector of every proxy this
        builder creates holds this same object. */
    const implementations: ImplementationTable
    /** The optional default target. */
    const defaultTarget: Option<Target>

    /** The table only ever holds catalog methods. */
    ghost predicate Valid()
      reads this, implementations
    {
      OnlyMembers(catalog, implementations.entries)
    }

    /** A builder for the interface `decl` (Anonymous.Implement): the catalog
        as the static constructor builds it, and an empty table. */
    constructor (decl: InterfaceDecl, defaultTarget: Option<Target>)
      ensures Valid() && fresh(implementations)
      ensures catalog == Methods(decl)
      ensures implementations.entries == map[]
      ensures this.defaultTarget == defaultTarget
    {
      var methods := BuildCatalog(decl);
      catalog := methods;
      implementations := new ImplementationTable();
      this.defaultTarget := defaultTarget;
    }

    /** AddMatchedImplementation: both checks, then the one insertion. */
    method AddMatchedImplementation(m: Op, d: Delegate) returns (status: Status)
      requires Valid()
      modifies implementations
      ensures Valid()
      ensures Applied(AddMatched(catalog, old(implementations.entries), m, d), old(implementations.entries), implementations.entries, status)
    {
      if !Contains(catalog, m) {
        return Fail(NotAMember);
      }
      if m.id in implementations.entries {
        return Fail(AlreadyImplemented(m.name));
      }
      implementations.entries := implementations.entries[m.id := d];
      status := Pass;
    }

    /** Method(MethodInfo, Delegate). */
    method AddMethod(m: Op, d: Delegate) returns (status: Status)
      requires Valid()
      modifies implementations
      ensures Valid()
      ensures Applied(Register(catalog, old(implementations.entries), ByInfo(m, d)), old(implementations.entries), implementations.entries, status)
    {
      var ok := Match(m, d.info, m.name);
      if !ok {
        return Fail(DelegateMismatch);
      }
      status := AddMatchedImplementation(m, d);
    }

    /** Method(string, Delegate). */
    method AddMethodByName(name: string, d: Delegate) returns (status: Status)
      requires Valid()
      modifies implementations
      ensures Valid()
      ensures Applied(Register(catalog, old(implementations.entries), ByName(name, d)), old(implementations.entries), implementations.entries, status)
    {
      var found := Candidates(catalog, d.info, name);
      if |found| == 0 {
        return Fail(NoMatch(name));
      }
      if |found| > 1 {
        return Fail(MultipleMatches(name));
      }
      status := AddMatchedImplementation(found[0], d);
    }

    /** Method<TMethod>(selector, implementation): `refs` is what the walk
        over the selector expression meets. */
    method AddMethodBySelector(refs: seq<Reference>, impl: Implementation) returns (status: Status)
      requires Valid()
      modifies implementations
      ensures Valid()
      ensures Applied(Register(catalog, old(implementations.entries), BySelector(refs, impl)), old(implementations.entries), implementations.entries, status)
    {
      var methodCall := CalledMethods(catalog, refs, false);
      if |methodCall| != 1 {
        return Fail(Undetermined(InterfaceMethod));
      }
      if !impl.IsDelegate? {
        return Fail(NotADelegate);
      }
      status := AddMethod(methodCall[0], impl.d);
    }

    /** PropertyGet<T>(selector, Func<T>). */
    method AddPropertyGet(refs: seq<Reference>, d: Delegate) returns (status: Status)
      requires Valid()
      modifies implementations
      ensures Valid()
      ensures Applied(Register(catalog, old(implementations.entries), PropertyGet(refs, d)), old(implementations.entries), implementations.entries, status)
    {
      var methodCall := CalledMethods(catalog, refs, false);
      if |methodCall| != 1 {
        return Fail(Undetermined(PropertyGetter));
      }
      status := AddMethod(methodCall[0], d);
    }

    /** PropertySet<T>(selector, Action<T>): the walk records setters. */
    method AddPropertySet(refs: seq<Reference>, d: Delegate) returns (status: Status)
      requires Valid()
      modifies implementations
      ensures Valid()
      ensures Applied(Register(catalog, old(implementations.entries), PropertySet(refs, d)), old(implementations.entries), implementations.entries, status)
    {
      var methodCall := CalledMethods(catalog, refs, true);
      if |methodCall| != 1 {
        return Fail(Undetermined(PropertySetter));
      }
      status := AddMethod(methodCall[0], d);
    }

    /** PropertySet<T>(string, Action<T>): a set-only property, by name. */
    method AddPropertySetByName(propertyName: string, d: Delegate) returns (status: Status)
      requires Valid()
      modifies implementations
      ensures Valid()
      ensures Applied(Register(catalog, old(implementations.entries), PropertySetByName(propertyName, d)), old(implementations.entries), implementations.entries, status)
    {
      status := AddMethodByName("set_" + propertyName, d);
    }

    /** IndexGet<TMethod>(implementation). */
    method AddIndexGet(impl: Implementation) returns (status: Status)
      requires Valid()
      modifies implementations
      ensures Valid()
      ensures Applied(Register(catalog, old(implementations.entries), IndexGet(impl)), old(implementations.entries), implementations.entries, status)
    {
      if !impl.IsDelegate? {
        return Fail(NotADelegate);
      }
      status := AddMethodByName("get_Item", impl.d);
    }

    /** IndexSet<TMethod>(implementation). */
    method AddIndexSet(impl: Implementation) returns (status: Status)
      requires Valid()
      modifies implementations
      ensures Valid()
      ensures Applied(Register(catalog, old(implementations.entries), IndexSet(impl)), old(implementations.entries), implementations.entries, status)
    {
      if !impl.IsDelegate? {
        return Fail(NotADelegate);
      }
      status := AddMethodByName("set_Item", impl.d);
    }

    /** EventSubscribe<TEvent>(string, Action<TEvent>). */
    method AddEventSubscribe(eventName: string, d: Delegate) returns (status: Status)
      requires Valid()
      modifies implementations
      ensures Valid()
      ensures Applied(Register(catalog, old(implementations.entries), EventSubscribe(eventName, d)), old(implementations.entries), implementations.entries, status)
    {
      status := AddMethodByName("add_" + eventName, d);
    }

    /** EventUnsubscribe<TEvent>(string, Action<TEvent>). */
    method AddEventUnsubscribe(eventName: string, d: Delegate) returns (status: Status)
      requires Valid()
      modifies implementations
      ensures Valid()
      ensures Applied(Register(catalog, old(implementations.entries), EventUnsubscribe(eventName, d)), old(implementations.entries), implementations.entries, status)
    {
      status := AddMethodByName("remove_" + eventName, d);
    }

    /** Create: a proxy with the default target when there is one, without a
        target otherwise; its selector references this builder's table. */
    method Create() returns (proxy: Proxy)
      ensures fresh(proxy) && fresh(proxy.interceptor) && fresh(proxy.interceptor.methodSelector)
      ensures proxy.target == defaultTarget
      ensures proxy.interceptor.methodSelector.implementations == implementations
    {
      var selector := new DictionaryMethodSelector(implementations);
      var interceptor := new MethodInterceptor(selector);
      if defaultTarget.None? {
        proxy := new Proxy(None, interceptor);
      } else {
        proxy := new Proxy(defaultTarget, interceptor);
      }
    }
  }
}
