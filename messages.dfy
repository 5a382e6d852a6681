/**
  The message values the Properties overlay reads and writes.

  The wire encoding is not modelled: a message body is an ordered list of
  already-typed arguments, a writer cursor appends to that list and a reader
  cursor pops from its front. A reader that meets an argument of another type,
  or runs out of arguments, raises the bus's "invalid arguments" error.
*/
module Messages {
  import opened Wrappers

  newtype byte = x: int | 0 <= x < 256

  /**
    A variant: a type signature plus the marshalled data. The empty signature
    is the state of a variant that was declared but never assigned.
  */
  datatype Variant = Variant(signature: string, body: seq<byte>)
  {
    predicate Initialized() { signature != "" }
  }

  /** The `a{sv}` dictionary that GetAll returns and PropertiesChanged carries. */
  type PropertyDict = map<string, Variant>

  /** One argument of a message body, in the four D-Bus types this core exchanges. */
  datatype Arg =
    | Str(str: string)
    | Var(variant: Variant)
    | Dict(dict: PropertyDict)
    | StrArray(strs: seq<string>)

  /** The D-Bus type signature of one argument. */
  function SignatureOf(a: Arg): string
  {
    match a
    case Str(_) => "s"
    case Var(_) => "v"
    case Dict(_) => "a{sv}"
    case StrArray(_) => "as"
  }

  function Signatures(args: seq<Arg>): seq<string>
  {
    seq(|args|, k requires 0 <= k < |args| => SignatureOf(args[k]))
  }

  /** The errors a call can raise. */
  datatype Error =
    | Failed(message: string)                 // org.freedesktop.DBus.Error.Failed
    | InvalidArgs                             // a reader cursor met the wrong type or the end of the body
    | Other(name: string, message: string)    // any other named error, e.g. one an interface's setter raises

  /** A method call: the interface and member it addresses, and its arguments. */
  datatype CallMessage = CallMessage(iface: string, member: string, args: seq<Arg>)

  /** A method return; it carries the call it answers (serial and sender are copied from it). */
  datatype ReturnMessage = ReturnMessage(call: CallMessage, args: seq<Arg>)

  datatype SignalMessage = SignalMessage(iface: string, member: string, args: seq<Arg>)

  /** What goes back to a caller: a return, or an error reply to its call. */
  datatype Reply = Return(ret: ReturnMessage) | ErrorReply(call: CallMessage, error: Error)
  {
    /** The call this reply answers. */
    function Answers(): CallMessage
    {
      match this
      case Return(ret) => ret.call
      case ErrorReply(call, _) => call
    }
  }

  /** `ReturnMessage reply(call)`: an empty return correlated with `call`. */
  function ReplyTo(call: CallMessage): (r: ReturnMessage)
    ensures r.call == call && r.args == []
  {
    ReturnMessage(call, [])
  }

  /** `ri >> s` for a string. */
  function ReadString(args: seq<Arg>): (r: Result<(string, seq<Arg>), Error>)
    ensures r.Success? <==> |args| > 0 && args[0].Str?
    ensures r.Success? ==> args == [Str(r.value.0)] + r.value.1
    ensures r.Failure? ==> r.error == InvalidArgs
  {
    if |args| > 0 && args[0].Str? then Success((args[0].str, args[1..])) else Failure(InvalidArgs)
  }

  /** `ri >> v` for a variant. */
  function ReadVariant(args: seq<Arg>): (r: Result<(Variant, seq<Arg>), Error>)
    ensures r.Success? <==> |args| > 0 && args[0].Var?
    ensures r.Success? ==> args == [Var(r.value.0)] + r.value.1
    ensures r.Failure? ==> r.error == InvalidArgs
  {
    if |args| > 0 && args[0].Var? then Success((args[0].variant, args[1..])) else Failure(InvalidArgs)
  }

  /** `ri >> m` for a `std::map<std::string, Variant>`. */
  function ReadDict(args: seq<Arg>): (r: Result<(PropertyDict, seq<Arg>), Error>)
    ensures r.Success? <==> |args| > 0 && args[0].Dict?
    ensures r.Success? ==> args == [Dict(r.value.0)] + r.value.1
    ensures r.Failure? ==> r.error == InvalidArgs
  {
    if |args| > 0 && args[0].Dict? then Success((args[0].dict, args[1..])) else Failure(InvalidArgs)
  }

  /** `ri >> l` for a `std::vector<std::string>`. */
  function ReadStrArray(args: seq<Arg>): (r: Result<(seq<string>, seq<Arg>), Error>)
    ensures r.Success? <==> |args| > 0 && args[0].StrArray?
    ensures r.Success? ==> args == [StrArray(r.value.0)] + r.value.1
    ensures r.Failure? ==> r.error == InvalidArgs
  {
    if |args| > 0 && args[0].StrArray? then Success((args[0].strs, args[1..])) else Failure(InvalidArgs)
  }
}
