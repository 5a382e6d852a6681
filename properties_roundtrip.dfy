/**
  How the proxy and the adaptor of src/property.cpp fit together: what the
  proxy writes is what the adaptor reads, what the adaptor replies is what the
  proxy reads back, and the introspection table agrees with both.
*/
module PropertiesRoundTrip {
  import opened Wrappers
  import opened Messages
  import opened Properties
  import opened PropertiesProxy

  /**
    A proxy Get served by the adaptor hands back exactly the stored variant,
    in a return correlated with the proxy's own call, after one
    `on_get_property` carrying that same variant.
  */
  lemma ProxyGetReturnsStoredValue(interfaces: map<string, InterfaceAdaptor>, iface: string, property: string)
    requires iface in interfaces && property in interfaces[iface].properties
    requires interfaces[iface].properties[property].Initialized()
    ensures var h := Get(interfaces, GetCall(iface, property));
      && h.reply.Success?
      && h.reply.value.call == GetCall(iface, property)
      && GetResult(h.reply.value) == Success(interfaces[iface].properties[property])
      && h.callouts == [OnGetProperty(iface, property, interfaces[iface].properties[property])]
  {
  }

  /** A proxy GetAll served by the adaptor hands back the interface's whole property store. */
  lemma ProxyGetAllReturnsSnapshot(interfaces: map<string, InterfaceAdaptor>, iface: string)
    requires iface in interfaces
    ensures var r := GetAll(interfaces, GetAllCall(iface));
      r.Success? && GetAllResult(r.value) == Success(interfaces[iface].properties)
  {
  }

  /**
    Set followed by Get on the same property: an accepted initialized value
    is read back exactly; an accepted value with an empty signature reads as
    "not initialized"; a rejected value leaves every Get answer on that
    interface as it was before the Set.
  */
  lemma SetThenGet(interfaces: map<string, InterfaceAdaptor>, iface: string, property: string, value: Variant)
    requires iface in interfaces
    ensures var after := SetEffect(interfaces, SetCall(iface, property, value)).interfaces;
      match interfaces[iface].setter(property, value)
      case None =>
        && (value.Initialized() ==>
              Get(after, GetCall(iface, property)).reply == Success(ReturnMessage(GetCall(iface, property), [Var(value)])))
        && (!value.Initialized() ==>
              Get(after, GetCall(iface, property)).reply == Failure(Failed(PropertyNotInitialized)))
      case Some(e) =>
        forall q :: Get(after, GetCall(iface, q)) == Get(interfaces, GetCall(iface, q))
  {
  }

  /**
    GetAll and Get agree property by property: Get succeeds on a name
    exactly when GetAll lists it with an initialized value, and then both
    report the same variant.
  */
  lemma GetAllAgreesWithGet(interfaces: map<string, InterfaceAdaptor>, iface: string, property: string)
    requires iface in interfaces
    ensures var all := GetAll(interfaces, GetAllCall(iface));
      && all.Success?
      && GetAllResult(all.value).Success?
      && var d := GetAllResult(all.value).value;
      && var one := Get(interfaces, GetCall(iface, property)).reply;
      && (one.Success? <==> property in d && d[property].Initialized())
      && (one.Success? ==> GetResult(one.value) == Success(d[property]))
  {
  }

  /** The argument types of the adaptor's successful replies. */
  lemma ReplySignatures(interfaces: map<string, InterfaceAdaptor>, call: CallMessage)
    ensures Get(interfaces, call).reply.Success? ==> Signatures(Get(interfaces, call).reply.value.args) == ["v"]
    ensures SetEffect(interfaces, call).reply.Success? ==> Signatures(SetEffect(interfaces, call).reply.value.args) == []
    ensures GetAll(interfaces, call).Success? ==> Signatures(GetAll(interfaces, call).value.args) == ["a{sv}"]
  {
  }

  /**
    Every successful reply of the adaptor carries arguments whose types are
    the output arguments the introspection table declares for that method.
  */
  lemma RepliesMatchIntrospection(interfaces: map<string, InterfaceAdaptor>, call: CallMessage)
    ensures FindMethod(Introspect().methods, GetMember).Some?
    ensures FindMethod(Introspect().methods, SetMember).Some?
    ensures FindMethod(Introspect().methods, GetAllMember).Some?
    ensures Get(interfaces, call).reply.Success? ==>
      Signatures(Get(interfaces, call).reply.value.args) ==
        Directed(FindMethod(Introspect().methods, GetMember).value.args, false)
    ensures SetEffect(interfaces, call).reply.Success? ==>
      Signatures(SetEffect(interfaces, call).reply.value.args) ==
        Directed(FindMethod(Introspect().methods, SetMember).value.args, false)
    ensures GetAll(interfaces, call).Success? ==>
      Signatures(GetAll(interfaces, call).value.args) ==
        Directed(FindMethod(Introspect().methods, GetAllMember).value.args, false)
  {
    var methods := Introspect().methods;
    assert FindMethod(methods, GetMember) == Some(methods[0]);
    assert FindMethod(methods, SetMember) == Some(methods[1]) by {
      assert FindMethod(methods, SetMember) == FindMethod(methods[1..], SetMember);
    }
    assert FindMethod(methods, GetAllMember) == Some(methods[2]) by {
      assert FindMethod(methods, GetAllMember) == FindMethod(methods[1..], GetAllMember);
      assert FindMethod(methods[1..], GetAllMember) == FindMethod(methods[2..], GetAllMember);
    }
    ReplySignatures(interfaces, call);
  }
}
