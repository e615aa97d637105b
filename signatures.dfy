/** Descriptors that stand in for reflection's MethodInfo and ParameterInfo,
    and the signature test a delegate must pass before it may implement an
    interface method (Builder.Match). */
module Signatures {

  datatype Option<+T> = None | Some(value: T)

  /** Reference identity of a MethodInfo: two descriptors with the same id are
      the same reflection object, so `ReferenceEquals` becomes id equality. */
  type OpId = nat

  /** A runtime type. A by-reference parameter (`ref int`, `out int`) shows up
      in its type, as ByRef(Named("Int32")), not in its attribute flags. */
  datatype TypeRef = Named(name: string) | ByRef(element: TypeRef)

  /** One ParameterInfo: the parameter's name, its type and the attribute bits
      reflection reports for it. */
  datatype Param = Param(name: string, ty: TypeRef, isIn: bool, isOut: bool, isOptional: bool)
  {
    /** The attributes masked with `ParameterAttributes.In | ParameterAttributes.Out`. */
    function Direction(): (bool, bool) { (isIn, isOut) }
  }

  /** One MethodInfo: identity, name, return type and parameters. */
  datatype Op = Op(id: OpId, name: string, retType: TypeRef, params: seq<Param>)

  /** Argument and return values crossing a call. */
  datatype Value = Null | Int(i: int) | Str(s: string)

  /** A delegate: the method it wraps (`Delegate.Method`, here `info`) and what invoking it
      on an argument list computes. */
  datatype Delegate = Delegate(info: Op, invoke: seq<Value> -> Value)

  /** The implementations dictionary, keyed by method identity. */
  type Table = map<OpId, Delegate>

  /** Two parameters in the same position are compatible: same type and the
      same In/Out pair. Names, optionality and default values do not count. */
  predicate SameSlot(a: Param, b: Param)
  {
    a.ty == b.ty && a.Direction() == b.Direction()
  }

  /** Same return type, same arity and compatible parameters position by position. */
  predicate SameShape(iface: Op, impl: Op)
  {
    iface.retType == impl.retType &&
    |iface.params| == |impl.params| &&
    forall i :: 0 <= i < |iface.params| ==> SameSlot(iface.params[i], impl.params[i])
  }

  /** `impl` may implement `iface` when requested under `name`: it is the very
      same method, or the name agrees and the shapes agree. */
  predicate Matches(iface: Op, impl: Op, name: string)
  {
    iface.id == impl.id || (iface.name == name && SameShape(iface, impl))
  }

  /** Builder.Match: the early-returning checks, then the parameter loop. */
  method Match(iface: Op, impl: Op, name: string) returns (b: bool)
    ensures b <==> Matches(iface, impl, name)
  {
    if iface.id == impl.id {
      return true;
    }
    if iface.name != name {
      return false;
    }
    if iface.retType != impl.retType {
      return false;
    }
    var ifaceParams, implParams := iface.params, impl.params;
    if |ifaceParams| != |implParams| {
      return false;
    }
    var i := 0;
    while i != |ifaceParams|
      invariant 0 <= i <= |ifaceParams|
      invariant forall k :: 0 <= k < i ==> SameSlot(ifaceParams[k], implParams[k])
    {
      if ifaceParams[i].ty != implParams[i].ty {
        return false;
      }
      if ifaceParams[i].Direction() != implParams[i].Direction() {
        return false;
      }
      i := i + 1;
    }
    return true;
  }

  /** An `out` slot never accepts an implementation whose parameter there is
      not `out`, whatever else agrees, unless the two are the same method. */
  lemma OutNeverMatchesIn(iface: Op, impl: Op, name: string, k: nat)
    requires iface.id != impl.id
    requires k < |iface.params| && k < |impl.params|
    requires iface.params[k].isOut != impl.params[k].isOut
    ensures !Matches(iface, impl, name)
  {
  }
}
