/**
  The client side of `org.freedesktop.DBus.Properties` (src/property.cpp):
  the call messages `PropertiesProxy` builds, the way it reads the answers,
  and the stub that unpacks an inbound `PropertiesChanged` signal.

  Sending a call and waiting for its answer (`invoke_method`) belongs to the
  connection and is not part of this model: each proxy operation is split into
  the call it builds and the reading of the return message it is handed back.
*/
module PropertiesProxy {
  import opened Wrappers
  import opened Messages
  import opened Properties

  /**
    The call `PropertiesProxy::Get` sends: member Get on the Properties
    interface, with the interface name then the property name, which the
    adaptor reads back in that order and whose types are the input arguments
    the introspection table declares for Get.
  */
  function GetCall(iface: string, property: string): (c: CallMessage)
    ensures c.iface == PropertiesName && c.member == GetMember
    ensures DecodeGetArgs(c.args) == Success((iface, property))
    ensures FindMethod(Introspect().methods, GetMember).Some?
    ensures Signatures(c.args) == Directed(FindMethod(Introspect().methods, GetMember).value.args, true)
  {
    var call := CallMessage(PropertiesName, GetMember, []);
    call.(args := call.args + [Str(iface)] + [Str(property)])
  }

  /**
    The call `PropertiesProxy::Set` sends: interface name, property name and
    value, in the order the adaptor reads them.
  */
  function SetCall(iface: string, property: string, value: Variant): (c: CallMessage)
    ensures c.iface == PropertiesName && c.member == SetMember
    ensures DecodeSetArgs(c.args) == Success((iface, property, value))
    ensures FindMethod(Introspect().methods, SetMember).Some?
    ensures Signatures(c.args) == Directed(FindMethod(Introspect().methods, SetMember).value.args, true)
  {
    var call := CallMessage(PropertiesName, SetMember, []);
    call.(args := call.args + [Str(iface)] + [Str(property)] + [Var(value)])
  }

  /** The call `PropertiesProxy::GetAll` sends: the interface name alone. */
  function GetAllCall(iface: string): (c: CallMessage)
    ensures c.iface == PropertiesName && c.member == GetAllMember
    ensures DecodeGetAllArgs(c.args) == Success(iface)
    ensures FindMethod(Introspect().methods, GetAllMember).Some?
    ensures Signatures(c.args) == Directed(FindMethod(Introspect().methods, GetAllMember).value.args, true)
  {
    var call := CallMessage(PropertiesName, GetAllMember, []);
    call.(args := call.args + [Str(iface)])
  }

  /** `ri >> argout` on the return of Get: the first argument, which must be a variant. */
  function GetResult(ret: ReturnMessage): (r: Result<Variant, Error>)
    ensures r.Success? <==> |ret.args| > 0 && ret.args[0].Var?
    ensures r.Success? ==> ret.args[0] == Var(r.value)
  {
    match ReadVariant(ret.args)
    case Failure(e) => Failure(e)
    case Success((value, _)) => Success(value)
  }

  /** `ri >> argout` on the return of GetAll: the first argument, which must be an `a{sv}` dictionary. */
  function GetAllResult(ret: ReturnMessage): (r: Result<PropertyDict, Error>)
    ensures r.Success? <==> |ret.args| > 0 && ret.args[0].Dict?
    ensures r.Success? ==> ret.args[0] == Dict(r.value)
  {
    match ReadDict(ret.args)
    case Failure(e) => Failure(e)
    case Success((dict, _)) => Success(dict)
  }

  /** The three fields handed to the user's `PropertiesChanged` handler. */
  datatype PropertiesChanged = PropertiesChanged(iface: string, changed: PropertyDict, invalidated: seq<string>)

  /**
    The body of a `PropertiesChanged(s, a{sv}, as)` signal as the D-Bus
    specification lays it out: interface name, changed properties,
    invalidated property names. The emitting side is not in this file; this
    is the layout the stub below expects.
  */
  function PropertiesChangedSignal(iface: string, changed: PropertyDict, invalidated: seq<string>): (s: SignalMessage)
    ensures s.iface == PropertiesName && s.member == "PropertiesChanged"
    ensures Signatures(s.args) == ["s", "a{sv}", "as"]
  {
    SignalMessage(PropertiesName, "PropertiesChanged", [Str(iface), Dict(changed), StrArray(invalidated)])
  }

  /**
    `PropertiesProxy::_PropertiesChanged_stub`: reads the interface name, the
    changed map and the invalidated list, in that order, and forwards the
    three unchanged; it forwards exactly what the emitter packed.
  */
  function PropertiesChangedStub(sig: SignalMessage): (r: Result<PropertiesChanged, Error>)
    ensures r.Success? <==> |sig.args| >= 3 && sig.args[0].Str? && sig.args[1].Dict? && sig.args[2].StrArray?
    ensures r.Failure? ==> r.error == InvalidArgs
    ensures r.Success? ==> sig.args[..3] == [Str(r.value.iface), Dict(r.value.changed), StrArray(r.value.invalidated)]
    ensures forall iface, changed, invalidated ::
      sig == PropertiesChangedSignal(iface, changed, invalidated) ==>
        r == Success(PropertiesChanged(iface, changed, invalidated))
  {
    match ReadString(sig.args)
    case Failure(e) => Failure(e)
    case Success((iface, rest)) =>
      match ReadDict(rest)
      case Failure(e) => Failure(e)
      case Success((changed, rest')) =>
        match ReadStrArray(rest')
        case Failure(e) => Failure(e)
        case Success((invalidated, _)) => Success(PropertiesChanged(iface, changed, invalidated))
  }
}
