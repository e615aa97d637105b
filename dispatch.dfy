/** Call routing: the dictionary selector, the interceptor that either runs
    the registered delegate or lets the call proceed, and the proxy that the
    builder creates with or without a default target. */
module Dispatch {
  import opened Signatures

  /** The implementations dictionary as an object, so that the builder and the
      selector can hold the same instance. */
  class ImplementationTable {
    var entries: Table

    constructor ()
      ensures entries == map[]
    {
      entries := map[];
    }
  }

  /** DictionaryMethodSelector: a read-only view of a table it references
      (the dictionary is not copied). */
  class DictionaryMethodSelector {
    const implementations: ImplementationTable

    constructor (implementations: ImplementationTable)
      ensures this.implementations == implementations
    {
      this.implementations := implementations;
    }

    /** GetMethod: the delegate stored under the method's identity, or null. */
    function GetMethod(m: Op): (r: Option<Delegate>)
      reads implementations
      ensures m.id in implementations.entries ==> r == Some(implementations.entries[m.id])
      ensures m.id !in implementations.entries ==> r == None
    {
      if m.id in implementations.entries then Some(implementations.entries[m.id]) else None
    }
  }

  /** The part of Castle's IInvocation the interceptor touches: the invoked
      method, its arguments, the return value slot and whether the call was
      passed on with Proceed. */
  class Invocation {
    const invoked: Op
    const arguments: seq<Value>
    var returnValue: Option<Value>
    var proceeded: bool

    constructor (invoked: Op, arguments: seq<Value>)
      ensures this.invoked == invoked && this.arguments == arguments
      ensures returnValue == None && !proceeded
    {
      this.invoked := invoked;
      this.arguments := arguments;
      returnValue := None;
      proceeded := false;
    }

    /** Proceed: hand the call to the next stage; what that stage does is the
        proxy's business (see Proxy.Call). */
    method Proceed()
      modifies this
      ensures proceeded && returnValue == old(returnValue)
    {
      proceeded := true;
    }
  }

  /** MethodInterceptor over a dictionary selector. */
  class MethodInterceptor {
    const methodSelector: DictionaryMethodSelector

    constructor (methodSelector: DictionaryMethodSelector)
      ensures this.methodSelector == methodSelector
    {
      this.methodSelector := methodSelector;
    }

    /** Intercept: ask the selector about exactly the invoked method; a delegate
        found there computes the return value, otherwise the call proceeds and
        the return value is left alone. Exactly one of the two happens. */
    method Intercept(invocation: Invocation)
      modifies invocation
      ensures methodSelector.GetMethod(invocation.invoked).Some? ==>
                invocation.returnValue == Some(methodSelector.GetMethod(invocation.invoked).value.invoke(invocation.arguments)) &&
                invocation.proceeded == old(invocation.proceeded)
      ensures methodSelector.GetMethod(invocation.invoked).None? ==>
                invocation.proceeded && invocation.returnValue == old(invocation.returnValue)
    {
      var func := methodSelector.GetMethod(invocation.invoked);
      if func.Some? {
        invocation.returnValue := Some(func.value.invoke(invocation.arguments));
      } else {
        invocation.Proceed();
      }
    }
  }

  /** A default target: an existing object implementing the interface; calling
      interface method `id` on it with some arguments yields a value. */
  datatype Target = Target(call: (OpId, seq<Value>) -> Value)

  /** Where one call goes: the registered delegate, the default target, or
      nowhere (a target-less proxy has nothing to proceed to). */
  datatype Routing = Invoke(d: Delegate) | Forward(target: Target) | Unimplemented

  datatype CallResult = Returned(value: Value) | NotImplemented

  function Route(table: Table, defaultTarget: Option<Target>, m: Op): Routing
  {
    if m.id in table then Invoke(table[m.id])
    else if defaultTarget.Some? then Forward(defaultTarget.value)
    else Unimplemented
  }

  /** What a call on the created proxy yields. */
  function Outcome(table: Table, defaultTarget: Option<Target>, m: Op, args: seq<Value>): CallResult
  {
    match Route(table, defaultTarget, m)
    case Invoke(d) => Returned(d.invoke(args))
    case Forward(t) => Returned(t.call(m.id, args))
    case Unimplemented => NotImplemented
  }

  /** The three outcomes partition the calls: a registration always wins, the
      default target serves exactly the unregistered methods, and only a
      target-less proxy leaves a method unimplemented. */
  lemma RouteCases(table: Table, defaultTarget: Option<Target>, m: Op)
    ensures Route(table, defaultTarget, m).Invoke? <==> m.id in table
    ensures Route(table, defaultTarget, m).Forward? <==> m.id !in table && defaultTarget.Some?
    ensures Route(table, defaultTarget, m).Unimplemented? <==> m.id !in table && defaultTarget.None?
  {
  }

  /** With no registrations and a default target, the proxy behaves exactly
      like the target, method by method. */
  lemma PureForwarding(t: Target, m: Op, args: seq<Value>)
    ensures Outcome(map[], Some(t), m, args) == Returned(t.call(m.id, args))
  {
  }

  /** With no registrations and no default target, every call is unimplemented. */
  lemma NothingImplemented(m: Op, args: seq<Value>)
    ensures Outcome(map[], None, m, args) == NotImplemented
  {
  }

  /** Binding one method never changes how any other method is dispatched,
      overloads of the same name included. */
  lemma OverloadIsolation(table: Table, defaultTarget: Option<Target>, bound: Op, d: Delegate, m: Op, args: seq<Value>)
    requires m.id != bound.id
    ensures Outcome(table[bound.id := d], defaultTarget, m, args) == Outcome(table, defaultTarget, m, args)
  {
  }

  /** The object Create returns: a proxy with the interceptor in front of an
      optional target. */
  class Proxy {
    const target: Option<Target>
    const interceptor: MethodInterceptor

    constructor (target: Option<Target>, interceptor: MethodInterceptor)
      ensures this.target == target && this.interceptor == interceptor
    {
      this.target := target;
      this.interceptor := interceptor;
    }

    /** A call on the proxy: the interceptor runs first; a call it lets
        proceed reaches the target, or fails when there is none. Routing reads
        the table as it is at the time of the call. */
    method Call(m: Op, args: seq<Value>) returns (r: CallResult)
      ensures r == Outcome(interceptor.methodSelector.implementations.entries, target, m, args)
    {
      var invocation := new Invocation(m, args);
      interceptor.Intercept(invocation);
      if invocation.proceeded {
        match target
        case Some(t) =>
          r := Returned(t.call(m.id, args));
        case None =>
          r := NotImplemented;
      } else {
        r := Returned(invocation.returnValue.value);
      }
    }
  }
}
