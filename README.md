# D-Bus Properties overlay and object continuations, in Dafny

This project models two parts of the dbus-c++ bindings.

The first is the generic implementation of the standard
`org.freedesktop.DBus.Properties` interface, in `src/property.cpp`. The D-Bus
Specification defines that interface in its chapter "Standard Interfaces".
On the server side, `PropertiesAdaptor` implements `Get`, `Set` and `GetAll`.
Each one finds the named interface on the object and delegates to that
interface's property store. Two observation hooks fire along the way:
`on_get_property` and `on_set_property`. `introspect` describes the
interface with static tables. On the client side, `PropertiesProxy` builds the
matching call messages, reads the answers, and unpacks the
`PropertiesChanged` signal.

The second is the exported-object identity and the table of deferred replies,
in `include/dbus-c++/object.h`. An object's identity is its connection, path
and service. `ObjectAdaptor::Continuation` is one deferred call. An adaptor
keeps `_continuations`, a map from a caller tag to a continuation. The table
operations are `return_later`, `find_continuation`, `return_now` and
`return_error`.

Files:

- `wrappers.dfy`: `Option` and `Result`.
- `messages.dfy`: variants, message arguments, call, return and signal
  messages, errors, and reader cursors. A reader pops typed arguments off the
  front of a message body.
- `properties.dfy`: module `Properties`. It holds the adaptor's `Get`,
  `GetAll` and `SetEffect` functions and the `PropertiesAdaptor` class with
  its `Set` method. It also holds the interface's property provider and the
  introspection tables.
- `properties_proxy.dfy`: module `PropertiesProxy`. It holds the proxy's call
  builders, its reply readers, and the `PropertiesChanged` stub.
- `properties_roundtrip.dfy`: module `PropertiesRoundTrip`. These lemmas
  connect the proxy, the adaptor and the introspection table.
- `objects.dfy`: module `Objects`. It holds the identity record, the
  `Continuation` record, the table semantics `Step`/`Run` and the lemmas about
  them, and the `ObjectAdaptor` and `ObjectProxy` classes.

How the source is represented:

- A variant is a signature plus opaque data. The empty signature means "never
  initialized".
- A message body is an ordered list of typed arguments. `wi << x` appends to
  it. `ri >> x` pops its head. A missing argument or one of another type
  raises `InvalidArgs`.
- A C++ `throw` becomes `Failure(e)`. `ErrorFailed(m)` is `Failed(m)`, with
  the three messages of the source spelled exactly.
- `find_interface` is a lookup in a map from interface name to the interface's
  property provider.
- Each hook fires as a recorded `Callout`. `Get` returns the callouts it
  makes. `PropertiesAdaptor.Set` appends to its `callouts` field, which
  records the hook and the delegated `set_property` in the order they happen.
- `path()`, `service()` and `conn()` are the fields of `Objects.ObjectIdentity`.
  Each class holds that identity in a `const` field. No operation can change
  it after construction.

## Model

| member | source | states |
|---|---|---|
| `Properties.Get` | src/property.cpp:45-77 | The checks run in a fixed order: interface missing gives "requested interface not found". A missing property gives "requested property not found". An empty signature gives "requested property has not been initialized". Each outcome holds exactly when its condition holds. Only a call that passes all three succeeds. That call fires `on_get_property` exactly once and replies with exactly the stored variant. A failed call fires nothing. |
| `Properties.DecodeGetArgs` | src/property.cpp:47-52 | Get reads the interface name then the property name. It succeeds exactly when the first two arguments are strings, and otherwise raises InvalidArgs. |
| `Properties.DecodeSetArgs` | src/property.cpp:81-87 | Set reads interface name, property name and variant, in that order. It succeeds exactly when the arguments have those types. |
| `Properties.DecodeGetAllArgs` | src/property.cpp:105-111 | GetAll reads the interface name. It succeeds exactly when the first argument is a string. |
| `Properties.SetEffect` | src/property.cpp:79-101 | A missing interface gives "requested interface not found". No hook fires and the table does not change. For a found interface, `on_set_property` fires with the proposed value, then `set_property` is called with the same value. The overlay makes no property or signature check of its own. If the interface accepts, the reply is empty and only that property changes; the interface keeps its own verdict on later Sets. If it rejects, the table is unchanged and the interface's error propagates. No other interface changes. |
| `Properties.PropertiesAdaptor.Set` | src/property.cpp:79-101 | Proved against `SetEffect`. The new interface table, the callouts appended in order, and the reply are those of `SetEffect` on the old table. |
| `Properties.GetAll` | src/property.cpp:103-128 | A missing interface gives the same "requested interface not found" error. Otherwise the reply answers the call with one dictionary. That dictionary agrees with `get_property` on every name: same names, same variants. |
| `Properties.InterfaceAdaptor.GetProperty` | src/property.cpp:61-64 | An interface's `get_property` returns the stored variant exactly when the name is declared, and nothing otherwise. |
| `Properties.InterfaceAdaptor.GetAllProperties` | src/property.cpp:118-119 | `get_all_properties` returns a snapshot that agrees with `get_property` on every name. |
| `Properties.InterfaceAdaptor.SetProperty` | src/property.cpp:96 | `set_property` returns the interface's own verdict. If accepted, the property reads back as the new value. If rejected, the store is unchanged. No other property changes either way. The declared names grow only by the accepted name. |
| `Properties.Introspect` | src/property.cpp:130-175 | The table describes interface `org.freedesktop.DBus.Properties`. It has methods Get, Set and GetAll, in that order. It has no signals and no properties. Get takes `s`, `s` in and gives `v` out; Set takes `s`, `s`, `v` in and gives nothing out; GetAll takes `s` in and gives `a{sv}` out. |
| `PropertiesProxy.GetCall` | src/property.cpp:183-191 | The proxy addresses member "Get" on "org.freedesktop.DBus.Properties". The adaptor decodes its arguments back to exactly (interface, property). Their types are the input arguments that the introspection table declares for Get. |
| `PropertiesProxy.SetCall` | src/property.cpp:198-207 | The call uses member "Set" on the Properties interface. The adaptor decodes it back to exactly (interface, property, value). Its argument types match the inputs declared for Set. |
| `PropertiesProxy.GetAllCall` | src/property.cpp:210-217 | The call uses member "GetAll" on the Properties interface. The adaptor decodes it back to exactly the interface name. Its argument types match the inputs declared for GetAll. |
| `PropertiesProxy.GetResult` | src/property.cpp:191-195 | The proxy reads the first argument of the return as a variant. It succeeds exactly when that argument is one. |
| `PropertiesProxy.GetAllResult` | src/property.cpp:217-221 | The proxy reads the first argument of the return as an `a{sv}` dictionary. It succeeds exactly when that argument is one. |
| `PropertiesProxy.PropertiesChangedStub` | src/property.cpp:224-235 | The stub reads interface name, changed map and invalidated list, in that order. It succeeds exactly when the body has those types. It forwards the first three arguments unchanged, whatever follows them, so a signal packed as `(s, a{sv}, as)` is delivered as exactly what was packed. |
| `PropertiesProxy.PropertiesChangedSignal` | src/property.cpp:224-233 | The signal body the stub expects is interface, changed and invalidated, with signatures `s`, `a{sv}` and `as`. |
| `PropertiesRoundTrip.ProxyGetReturnsStoredValue` | src/property.cpp:183-196 | When the adaptor serves a proxy Get on an initialized property, the return is correlated with the proxy's call. The proxy reads back exactly the stored variant, after one `on_get_property` that carries that variant. |
| `PropertiesRoundTrip.ProxyGetAllReturnsSnapshot` | src/property.cpp:210-222 | When the adaptor serves a proxy GetAll, the proxy reads back exactly the interface's property store. |
| `PropertiesRoundTrip.SetThenGet` | src/property.cpp:79-101 | After a Set the interface accepts, Get returns the new value, or "not initialized" if the value has an empty signature. After a Set it rejects, every Get on that interface answers as before. |
| `PropertiesRoundTrip.GetAllAgreesWithGet` | src/property.cpp:103-128 | Get succeeds on a name exactly when GetAll lists it with an initialized value, and then both give the same variant. |
| `PropertiesRoundTrip.RepliesMatchIntrospection` | src/property.cpp:132-158 | Every successful reply of Get, Set and GetAll carries arguments whose types are the output arguments that the introspection table declares: `v`, nothing, and `a{sv}`. |
| `Objects.NewContinuation` | include/dbus-c++/object.h:120-126 | A new continuation's `tag()` is the tag it was built with. It keeps the connection and the call. Its return message answers that call and starts with an empty body. |
| `Objects.Step` | include/dbus-c++/object.h:131-137 | One table operation keeps every entry filed under its own tag. Only a completion of a pending tag sends a reply. That reply answers the call deferred under that tag, and the tag is retired. Completing now sends the return accumulated for that call; completing with an error sends an error reply to that call with the given error. A deferral of a new tag files a fresh continuation with no written arguments; a deferral of a pending tag changes nothing. Writing appends the argument to that continuation's return and leaves its call, connection and tag alone. No other tag's entry changes. |
| `Objects.AtMostOneReplyPerDeferral` | include/dbus-c++/object.h:148-149 | Over any sequence of operations, the replies sent for a tag, plus one if it is still pending, never exceed its deferrals plus one if it was pending at the start. |
| `Objects.SingleDeferralSingleReply` | include/dbus-c++/object.h:131-135 | A call deferred once under a fresh tag is answered at most once, whatever operations follow. |
| `Objects.DeferThenComplete` | include/dbus-c++/object.h:131-135 | `return_later`, a write through `writer()`, `return_now`, then a second `return_now` sends exactly one return. It answers the deferred call with what was written, and the table is as it was before. |
| `Objects.ObjectAdaptor.constructor` | include/dbus-c++/object.h:102 | A new adaptor's identity is the connection, path and service it was built with, and it has no pending continuations. |
| `Objects.ObjectAdaptor.Object` | include/dbus-c++/object.h:154-157 | `object()` is the adaptor itself. |
| `Objects.ObjectAdaptor.FindContinuation` | include/dbus-c++/object.h:137 | It finds a continuation exactly when one is pending under the tag. That continuation's `tag()` is the tag and its connection is the adaptor's. |
| `Objects.ObjectAdaptor.ReturnLater` | include/dbus-c++/object.h:131 | Inserts a continuation for the call under a tag not yet pending. It reports whether it did, and keeps the table well keyed. |
| `Objects.ObjectAdaptor.WriteReply` | include/dbus-c++/object.h:114 | A write through a pending continuation's `writer()` appends to its return message. It reports whether a continuation was pending. |
| `Objects.ObjectAdaptor.ReturnNow` | include/dbus-c++/object.h:133 | Sends the pending continuation's return and removes it from the table. An unknown or completed tag sends nothing. |
| `Objects.ObjectAdaptor.ReturnError` | include/dbus-c++/object.h:135 | Sends an error reply to the pending continuation's call and removes it. An unknown or completed tag sends nothing. |
| `Objects.ObjectProxy.constructor` | include/dbus-c++/object.h:180 | A new proxy's identity is the connection, path and service it was given. |
| `Objects.ObjectProxy.Object` | include/dbus-c++/object.h:200-203 | `object()` is the proxy itself. |
| `Objects.ProxyServiceDefault` | include/dbus-c++/object.h:180 | A proxy built without a service name has the empty service name. |

## Left out

- Wire marshalling is not modelled. This covers `MessageIter` `<<`/`>>`, the byte encoding of variants and signature parsing. Reading and writing are list pop and append on typed arguments. The error a reader raises is shown only as `InvalidArgs`.
- `invoke_method`/`_invoke_method` and the `Connection` are left out. They block on the network and correlate replies there. The proxy operations are modelled as the call they build and the reading of the return they are given. An error reply, which `invoke_method` turns into an exception, is not modelled.
- `handle_message`, `register_obj`, `unregister_obj` and `_emit_signal` are left out. Their bodies are not shown, and they belong to connection dispatch. The same goes for the `register_method`/`connect_signal` calls in the `PropertiesAdaptor`/`PropertiesProxy` constructors. The member names they bind are the shared constants `GetMember`, `SetMember` and `GetAllMember`.
- `ObjectAdaptor::from_path` and `from_path_prefix` are left out. They consult a global registry whose code is not shown.
- Completing continuations from other threads is not modelled, because this is concurrency.
- `debug_log` is left out. It is logging only.
- Introspection XML generation is left out. Only the static tables are modelled, without the zero rows that end each C array.
- Properties.InterfaceAdaptor: the interfaces' own `get_property`, `set_property` and `get_all_properties` are in interface.h, which is not part of this model. They are given small concrete definitions over a property store and an injected verdict function. A verdict `Some(e)` stands for `set_property` throwing `e`: src/property.cpp:96 ignores any return value, and lines 98-100 reply success whenever nothing is thrown. The model does not show which values the real interface rejects (e.g. read-only properties). If the verdict accepts a name the store does not hold, the model adds that name, so a later GetAll lists it; `SetProperty` states this outright.
- Properties.Get: the hooks' own code is in property.h, which is not part of this model. The hooks `on_get_property` (src/property.cpp:69) and `on_set_property` (src/property.cpp:94) are modelled as observations that are recorded and cannot change the value. They are assumed not to throw: a throwing `on_get_property` would skip the reply, and a throwing `on_set_property` would skip `set_property`.
- Objects.ObjectAdaptor.ReturnLater: rejecting a tag that is already pending is an assumption, made so that a second `return_later` cannot overwrite a pending call. The header shows only `void return_later(const void*)` and the map type.
- Objects.ObjectAdaptor.ReturnNow: `return_now`/`return_error` receive a `Continuation*`. Here they are identified by its tag, which `FindContinuation` shows is the key it is filed under. Sending nothing for a tag that is not pending is an assumption. In C++ that case would use a dangling pointer. Copying the serial number and sender into the reply is shown only as the return carrying its call.
- Objects.ObjectAdaptor.constructor: the service name that `ObjectAdaptor(conn, path)` passes to `Object` comes from code that is not shown, so it is a constructor parameter here. The null tag is not modelled: tags are naturals.

## Notes on the source

- The D-Bus Specification (chapter "Standard Interfaces", section
  `org.freedesktop.DBus.Properties`) gives the interface a
  `PropertiesChanged(s, a{sv}, as)` signal. The adaptor's introspection table at src/property.cpp:159-162
  declares no signals. The model follows the code: `Introspect` has none. The
  proxy still unpacks that signal, as `PropertiesChangedStub` shows.
