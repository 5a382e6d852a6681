/**
  The server side of the standard `org.freedesktop.DBus.Properties` interface
  (src/property.cpp): Get, Set and GetAll delegate to the property store of
  the interface they name, and the static introspection tables describe them.

  The object's interface table (what `find_interface` searches) is a map from
  interface name to the interface's property provider. The provider's own
  `get_property`, `set_property` and `get_all_properties` live in code that is
  not part of this model; they are given here as small concrete definitions
  over a property store and an injected verdict on proposed values.
*/
module Properties {
  import opened Wrappers
  import opened Messages

  const PropertiesName := "org.freedesktop.DBus.Properties"

  const GetMember := "Get"
  const SetMember := "Set"
  const GetAllMember := "GetAll"

  const InterfaceNotFound := "requested interface not found"
  const PropertyNotFound := "requested property not found"
  const PropertyNotInitialized := "requested property has not been initialized"

  /**
    The property provider of one interface adaptor. `properties` holds every
    declared property (an uninitialized one with an empty signature);
    `setter` is the interface's own verdict on a proposed value: None
    accepts it, Some(e) stands for `set_property` throwing e. A verdict that
    accepts an undeclared name declares it.
  */
  datatype InterfaceAdaptor = InterfaceAdaptor(properties: PropertyDict, setter: (string, Variant) -> Option<Error>)
  {
    /** `get_property(name)`: the stored variant, or nothing for an undeclared name. */
    function GetProperty(name: string): (r: Option<Variant>)
      ensures r.Some? <==> name in properties
      ensures r.Some? ==> r.value == properties[name]
    {
      if name in properties then Some(properties[name]) else None
    }

    /** `get_all_properties()`: a fresh snapshot of the whole store. */
    function GetAllProperties(): (r: PropertyDict)
      ensures forall name :: GetProperty(name) == (if name in r then Some(r[name]) else None)
    {
      properties
    }

    /**
      `set_property(name, value)`: an accepted value replaces the stored one;
      a rejected one leaves the store as it was and raises the setter's error.
    */
    function SetProperty(name: string, value: Variant): (r: (InterfaceAdaptor, Option<Error>))
      ensures r.1 == setter(name, value)
      ensures r.0.setter == setter
      ensures r.1.None? ==> r.0.GetProperty(name) == Some(value)
      ensures forall other :: other != name ==> r.0.GetProperty(other) == GetProperty(other)
      ensures r.1.Some? ==> r.0 == this
      ensures r.0.properties.Keys == properties.Keys + (if r.1.None? then {name} else {})
    {
      match setter(name, value)
      case None => (this.(properties := properties[name := value]), None)
      case Some(e) => (this, Some(e))
    }
  }

  /** A call the overlay makes to an observation hook or to an interface. */
  datatype Callout =
    | OnGetProperty(iface: string, property: string, value: Variant)
    | OnSetProperty(iface: string, property: string, value: Variant)
    | InterfaceSetProperty(iface: string, property: string, value: Variant)

  /** The outcome of a handler that does not change state: the callouts it made, then its reply or error. */
  datatype Handled = Handled(callouts: seq<Callout>, reply: Result<ReturnMessage, Error>)

  /** `ri >> iface_name >> property_name` in Get; trailing arguments are not read. */
  function DecodeGetArgs(args: seq<Arg>): (r: Result<(string, string), Error>)
    ensures r.Success? <==> |args| >= 2 && args[0].Str? && args[1].Str?
    ensures r.Success? ==> args[0] == Str(r.value.0) && args[1] == Str(r.value.1)
    ensures r.Failure? ==> r.error == InvalidArgs
  {
    match ReadString(args)
    case Failure(e) => Failure(e)
    case Success((iface, rest)) =>
      match ReadString(rest)
      case Failure(e) => Failure(e)
      case Success((property, _)) => Success((iface, property))
  }

  /** `ri >> iface_name >> property_name >> value` in Set. */
  function DecodeSetArgs(args: seq<Arg>): (r: Result<(string, string, Variant), Error>)
    ensures r.Success? <==> |args| >= 3 && args[0].Str? && args[1].Str? && args[2].Var?
    ensures r.Success? ==> args[0] == Str(r.value.0) && args[1] == Str(r.value.1) && args[2] == Var(r.value.2)
    ensures r.Failure? ==> r.error == InvalidArgs
  {
    match ReadString(args)
    case Failure(e) => Failure(e)
    case Success((iface, rest)) =>
      match ReadString(rest)
      case Failure(e) => Failure(e)
      case Success((property, rest')) =>
        match ReadVariant(rest')
        case Failure(e) => Failure(e)
        case Success((value, _)) => Success((iface, property, value))
  }

  /** `ri >> iface_name` in GetAll. */
  function DecodeGetAllArgs(args: seq<Arg>): (r: Result<string, Error>)
    ensures r.Success? <==> |args| >= 1 && args[0].Str?
    ensures r.Success? ==> args[0] == Str(r.value)
    ensures r.Failure? ==> r.error == InvalidArgs
  {
    match ReadString(args)
    case Failure(e) => Failure(e)
    case Success((iface, _)) => Success(iface)
  }

  /**
    `PropertiesAdaptor::Get`. The checks run in a fixed order (interface,
    then property, then signature), each failure is its own error, and only
    a call that passes all three fires `on_get_property` (once) and replies,
    with exactly the stored variant.
  */
  function Get(interfaces: map<string, InterfaceAdaptor>, call: CallMessage): (r: Handled)
    ensures r.reply.Failure? ==> r.callouts == []
    ensures DecodeGetArgs(call.args).Failure? ==> r.reply == Failure(InvalidArgs)
    ensures DecodeGetArgs(call.args).Success? ==>
      var (i, p) := DecodeGetArgs(call.args).value;
      && (r.reply == Failure(Failed(InterfaceNotFound)) <==> i !in interfaces)
      && (r.reply == Failure(Failed(PropertyNotFound)) <==>
            i in interfaces && interfaces[i].GetProperty(p).None?)
      && (r.reply == Failure(Failed(PropertyNotInitialized)) <==>
            i in interfaces && interfaces[i].GetProperty(p).Some? && !interfaces[i].GetProperty(p).value.Initialized())
      && (r.reply.Success? <==>
            i in interfaces && interfaces[i].GetProperty(p).Some? && interfaces[i].GetProperty(p).value.Initialized())
      && (r.reply.Success? ==>
            var v := interfaces[i].GetProperty(p).value;
            r.reply.value == ReturnMessage(call, [Var(v)]) && r.callouts == [OnGetProperty(i, p, v)])
  {
    match DecodeGetArgs(call.args)
    case Failure(e) => Handled([], Failure(e))
    case Success((iface, property)) =>
      if iface !in interfaces then
        Handled([], Failure(Failed(InterfaceNotFound)))
      else
        match interfaces[iface].GetProperty(property)
        case None => Handled([], Failure(Failed(PropertyNotFound)))
        case Some(value) =>
          if !value.Initialized() then
            Handled([], Failure(Failed(PropertyNotInitialized)))
          else
            var reply := ReplyTo(call);
            Handled([OnGetProperty(iface, property, value)], Success(reply.(args := reply.args + [Var(value)])))
  }

  /** The new interface table, the callouts made and the reply of one Set call. */
  datatype SetOutcome = SetOutcome(interfaces: map<string, InterfaceAdaptor>, callouts: seq<Callout>, reply: Result<ReturnMessage, Error>)

  /**
    What `PropertiesAdaptor::Set` does to the interface table. A missing
    interface changes nothing and fires no hook. A found interface gets
    `on_set_property` with the proposed value, then `set_property` with the
    same value; the overlay makes no existence or signature check of its own,
    the interface's answer decides the reply, and a success reply is empty.
  */
  function SetEffect(interfaces: map<string, InterfaceAdaptor>, call: CallMessage): (r: SetOutcome)
    ensures r.interfaces.Keys == interfaces.Keys
    ensures DecodeSetArgs(call.args).Failure? ==> r == SetOutcome(interfaces, [], Failure(InvalidArgs))
    ensures DecodeSetArgs(call.args).Success? ==>
      var (i, p, v) := DecodeSetArgs(call.args).value;
      && (i !in interfaces ==> r == SetOutcome(interfaces, [], Failure(Failed(InterfaceNotFound))))
      && (i in interfaces ==>
            && r.callouts == [OnSetProperty(i, p, v), InterfaceSetProperty(i, p, v)]
            && (forall n :: n in interfaces && n != i ==> r.interfaces[n] == interfaces[n])
            && r.interfaces[i].setter == interfaces[i].setter
            && (match interfaces[i].setter(p, v)
                case None =>
                  && r.reply == Success(ReturnMessage(call, []))
                  && r.interfaces[i].GetProperty(p) == Some(v)
                  && (forall q :: q != p ==> r.interfaces[i].GetProperty(q) == interfaces[i].GetProperty(q))
                case Some(e) =>
                  r.reply == Failure(e) && r.interfaces == interfaces))
  {
    match DecodeSetArgs(call.args)
    case Failure(e) => SetOutcome(interfaces, [], Failure(e))
    case Success((iface, property, value)) =>
      if iface !in interfaces then
        SetOutcome(interfaces, [], Failure(Failed(InterfaceNotFound)))
      else
        var (updated, err) := interfaces[iface].SetProperty(property, value);
        var callouts := [OnSetProperty(iface, property, value), InterfaceSetProperty(iface, property, value)];
        var table := interfaces[iface := updated];
        match err
        case Some(e) => SetOutcome(table, callouts, Failure(e))
        case None => SetOutcome(table, callouts, Success(ReplyTo(call)))
  }

  /**
    `PropertiesAdaptor::GetAll`: a missing interface raises the same error as
    Get and Set; otherwise the reply carries one dictionary holding exactly the
    interface's properties, a copy that shares nothing with the live store.
  */
  function GetAll(interfaces: map<string, InterfaceAdaptor>, call: CallMessage): (r: Result<ReturnMessage, Error>)
    ensures DecodeGetAllArgs(call.args).Failure? ==> r == Failure(InvalidArgs)
    ensures DecodeGetAllArgs(call.args).Success? ==>
      var i := DecodeGetAllArgs(call.args).value;
      && (r == Failure(Failed(InterfaceNotFound)) <==> i !in interfaces)
      && (r.Success? <==> i in interfaces)
      && (r.Success? ==>
            && r.value.call == call
            && |r.value.args| == 1 && r.value.args[0].Dict?
            && forall name :: interfaces[i].GetProperty(name) ==
                 (if name in r.value.args[0].dict then Some(r.value.args[0].dict[name]) else None))
  {
    match DecodeGetAllArgs(call.args)
    case Failure(e) => Failure(e)
    case Success(iface) =>
      if iface !in interfaces then
        Failure(Failed(InterfaceNotFound))
      else
        var snapshot := interfaces[iface].GetAllProperties();
        var reply := ReplyTo(call);
        Success(reply.(args := reply.args + [Dict(snapshot)]))
  }

  /**
    The adaptor's mutable state: the object's interface table, and the record
    of every hook and interface call Set has made, oldest first.
  */
  class PropertiesAdaptor {
    var interfaces: map<string, InterfaceAdaptor>
    var callouts: seq<Callout>

    constructor (interfaces: map<string, InterfaceAdaptor>)
      ensures this.interfaces == interfaces && callouts == []
    {
      this.interfaces := interfaces;
      callouts := [];
    }

    /** `PropertiesAdaptor::Set`, changing the addressed interface in place. */
    method Set(call: CallMessage) returns (r: Result<ReturnMessage, Error>)
      modifies this
      ensures var o := SetEffect(old(interfaces), call);
        interfaces == o.interfaces && callouts == old(callouts) + o.callouts && r == o.reply
    {
      var decoded := DecodeSetArgs(call.args);
      if decoded.Failure? {
        return Failure(decoded.error);
      }
      var (iface, property, value) := decoded.value;
      if iface !in interfaces {
        return Failure(Failed(InterfaceNotFound));
      }
      callouts := callouts + [OnSetProperty(iface, property, value)];
      var (updated, err) := interfaces[iface].SetProperty(property, value);
      callouts := callouts + [InterfaceSetProperty(iface, property, value)];
      interfaces := interfaces[iface := updated];
      if err.Some? {
        return Failure(err.value);
      }
      r := Success(ReplyTo(call));
    }
  }

  // ----- introspection: the static tables of `PropertiesAdaptor::introspect` -----

  datatype IntrospectedArgument = IntrospectedArgument(name: string, signature: string, isIn: bool)
  datatype IntrospectedMethod = IntrospectedMethod(name: string, args: seq<IntrospectedArgument>)
  datatype IntrospectedProperty = IntrospectedProperty(name: string, signature: string, read: bool, write: bool)
  datatype IntrospectedInterface = IntrospectedInterface(
    name: string,
    methods: seq<IntrospectedMethod>,
    signals: seq<IntrospectedMethod>,
    properties: seq<IntrospectedProperty>)

  /** The signatures of the input (or, with `input == false`, output) arguments, in declaration order. */
  function Directed(args: seq<IntrospectedArgument>, input: bool): seq<string>
  {
    if args == [] then []
    else (if args[0].isIn == input then [args[0].signature] else []) + Directed(args[1..], input)
  }

  /** A method of that name in a method table, if there is one. */
  function FindMethod(methods: seq<IntrospectedMethod>, name: string): (r: Option<IntrospectedMethod>)
    ensures r.Some? ==> r.value in methods && r.value.name == name
    ensures r.None? ==> forall m :: m in methods ==> m.name != name
  {
    if methods == [] then None
    else if methods[0].name == name then Some(methods[0])
    else FindMethod(methods[1..], name)
  }

  /**
    The description the adaptor gives of itself: three methods, in the
    order Get, Set, GetAll, no signals and no properties. The zero rows that
    end each C array are not entries.
  */
  function Introspect(): (r: IntrospectedInterface)
    ensures r.name == PropertiesName
    ensures |r.methods| == 3
    ensures r.methods[0].name == GetMember && r.methods[1].name == SetMember && r.methods[2].name == GetAllMember
    ensures r.signals == [] && r.properties == []
    ensures Directed(r.methods[0].args, true) == ["s", "s"] && Directed(r.methods[0].args, false) == ["v"]
    ensures Directed(r.methods[1].args, true) == ["s", "s", "v"] && Directed(r.methods[1].args, false) == []
    ensures Directed(r.methods[2].args, true) == ["s"] && Directed(r.methods[2].args, false) == ["a{sv}"]
  {
    var getArgs := [
      IntrospectedArgument("interface_name", "s", true),
      IntrospectedArgument("property_name", "s", true),
      IntrospectedArgument("value", "v", false)];
    var setArgs := [
      IntrospectedArgument("interface_name", "s", true),
      IntrospectedArgument("property_name", "s", true),
      IntrospectedArgument("value", "v", true)];
    var getAllArgs := [
      IntrospectedArgument("interface_name", "s", true),
      IntrospectedArgument("properties", "a{sv}", false)];
    IntrospectedInterface(
      PropertiesName,
      [IntrospectedMethod(GetMember, getArgs),
       IntrospectedMethod(SetMember, setArgs),
       IntrospectedMethod(GetAllMember, getAllArgs)],
      [],
      [])
  }
}
