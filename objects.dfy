/**
  Exported-object identity and the per-adaptor table of deferred replies
  (include/dbus-c++/object.h).

  An object is identified by its connection, bus path and service name, all
  fixed at construction. An adaptor keeps `_continuations`, a map from an
  opaque caller tag to the saved context of a call whose reply was deferred.
  The header declares `return_later`, `find_continuation`, `return_now` and
  `return_error` but does not show their bodies: here they insert, look up and
  remove entries of that map by tag. Two policies are assumptions, since the
  header does not show them: a `return_later` for a tag that is already
  pending is rejected, so that it cannot overwrite a pending call; and
  completing a tag that is not pending sends nothing, so that no call is
  ever answered twice.
*/
module Objects {
  import opened Wrappers
  import opened Messages

  /** The bus connection an object talks through, as an opaque handle. */
  datatype Connection = Connection(id: nat)

  type Path = string

  /** The `const void*` tag a handler uses to name one deferred call. */
  type Tag = nat

  /** `Object`'s identity: `conn()`, `path()` and `service()` read these fields. */
  datatype ObjectIdentity = ObjectIdentity(conn: Connection, path: Path, service: string)

  /**
    `ObjectAdaptor::Continuation`: the connection to answer on, the deferred
    call, the return message being filled in, and the tag. `writer()` is the
    cursor that appends to that return message's body.
  */
  datatype Continuation = Continuation(conn: Connection, call: CallMessage, ret: ReturnMessage, tag: Tag)
  {
    /** What has been written through `writer()` so far. */
    function Written(): seq<Arg>
    {
      ret.args
    }
  }

  /**
    `Continuation(conn, call, tag)`: its `tag()` is the tag it was built with,
    and its return message answers `call` and starts with an empty body.
  */
  function NewContinuation(conn: Connection, call: CallMessage, tag: Tag): (c: Continuation)
    ensures c.tag == tag && c.conn == conn && c.call == call
    ensures c.ret.call == call && c.Written() == []
  {
    Continuation(conn, call, ReplyTo(call), tag)
  }

  /** A table in which every entry is filed under its own tag, answers its own call and uses the adaptor's connection. */
  ghost predicate WellKeyed(conn: Connection, table: map<Tag, Continuation>)
  {
    forall t :: t in table ==> table[t].tag == t && table[t].conn == conn && table[t].ret.call == table[t].call
  }

  /** One operation on the table. */
  datatype TableOp =
    | Defer(tag: Tag, call: CallMessage)          // `return_later(tag)` while `call` is dispatched
    | Append(tag: Tag, arg: Arg)                  // `find_continuation(tag)->writer() << arg`
    | CompleteNow(tag: Tag)                       // `return_now`: send the filled-in return
    | CompleteError(tag: Tag, error: Error)       // `return_error`: send an error reply instead

  predicate Completes(op: TableOp)
  {
    op.CompleteNow? || op.CompleteError?
  }

  datatype StepResult = StepResult(table: map<Tag, Continuation>, sent: Option<Reply>)

  /**
    The effect of one operation on the table and the reply it sends, if any.
    Only a completion of a pending tag sends, and it sends a reply to that
    tag's deferred call and retires the tag; no other tag is touched.
  */
  function Step(conn: Connection, table: map<Tag, Continuation>, op: TableOp): (r: StepResult)
    ensures WellKeyed(conn, table) ==> WellKeyed(conn, r.table)
    ensures r.sent.Some? <==> Completes(op) && op.tag in table
    ensures WellKeyed(conn, table) && r.sent.Some? ==> r.sent.value.Answers() == table[op.tag].call
    ensures op.tag in r.table <==> if Completes(op) then false else op.tag in table || op.Defer?
    ensures forall t :: t != op.tag ==> (t in r.table <==> t in table)
    ensures forall t :: t != op.tag && t in table ==> r.table[t] == table[t]
    ensures op.Defer? && op.tag in table ==> r.table == table
    ensures op.Defer? && op.tag !in table ==> r.table[op.tag] == NewContinuation(conn, op.call, op.tag)
    ensures op.Append? && op.tag in table ==>
      var c, c' := table[op.tag], r.table[op.tag];
      c'.Written() == c.Written() + [op.arg] && c'.ret.call == c.ret.call &&
      c'.call == c.call && c'.conn == c.conn && c'.tag == c.tag
    ensures op.CompleteNow? && op.tag in table ==> r.sent == Some(Return(table[op.tag].ret))
    ensures op.CompleteError? && op.tag in table ==> r.sent == Some(ErrorReply(table[op.tag].call, op.error))
  {
    match op
    case Defer(t, call) =>
      if t in table then StepResult(table, None)
      else StepResult(table[t := NewContinuation(conn, call, t)], None)
    case Append(t, a) =>
      if t in table then
        var c := table[t];
        StepResult(table[t := c.(ret := c.ret.(args := c.ret.args + [a]))], None)
      else StepResult(table, None)
    case CompleteNow(t) =>
      if t in table then StepResult(table - {t}, Some(Return(table[t].ret)))
      else StepResult(table, None)
    case CompleteError(t, e) =>
      if t in table then StepResult(table - {t}, Some(ErrorReply(table[t].call, e)))
      else StepResult(table, None)
  }

  /** A reply put on the wire, with the tag whose completion sent it. */
  datatype Sent = Sent(tag: Tag, reply: Reply)

  /** The final table and the replies sent, in order, by a sequence of operations. */
  function Run(conn: Connection, table: map<Tag, Continuation>, ops: seq<TableOp>): (map<Tag, Continuation>, seq<Sent>)
    decreases |ops|
  {
    if ops == [] then (table, [])
    else
      var s := Step(conn, table, ops[0]);
      var rest := Run(conn, s.table, ops[1..]);
      (rest.0, if s.sent.Some? then [Sent(ops[0].tag, s.sent.value)] + rest.1 else rest.1)
  }

  /** How many of the sent replies were sent for `tag`. */
  function RepliesFor(tag: Tag, sent: seq<Sent>): nat
  {
    if sent == [] then 0 else (if sent[0].tag == tag then 1 else 0) + RepliesFor(tag, sent[1..])
  }

  /** How many operations defer a call under `tag`. */
  function Deferrals(tag: Tag, ops: seq<TableOp>): nat
  {
    if ops == [] then 0 else (if ops[0].Defer? && ops[0].tag == tag then 1 else 0) + Deferrals(tag, ops[1..])
  }

  function Pending(tag: Tag, table: map<Tag, Continuation>): nat
  {
    if tag in table then 1 else 0
  }

  lemma {:induction false} RepliesForAppend(tag: Tag, a: seq<Sent>, b: seq<Sent>)
    ensures RepliesFor(tag, a + b) == RepliesFor(tag, a) + RepliesFor(tag, b)
  {
    if a != [] {
      assert (a + b)[0] == a[0];
      assert (a + b)[1..] == a[1..] + b;
      RepliesForAppend(tag, a[1..], b);
    } else {
      assert a + b == b;
    }
  }

  /**
    At most one reply per deferred call: over any sequence of operations,
    the replies sent for a tag, plus one if the tag is still pending at the
    end, never exceed the deferrals made under that tag plus one if it was
    pending at the start. A second completion of the same tag sends nothing.
  */
  lemma {:induction false} AtMostOneReplyPerDeferral(conn: Connection, table: map<Tag, Continuation>, ops: seq<TableOp>, tag: Tag)
    ensures var (final, sent) := Run(conn, table, ops);
      RepliesFor(tag, sent) + Pending(tag, final) <= Pending(tag, table) + Deferrals(tag, ops)
    decreases |ops|
  {
    if ops != [] {
      var s := Step(conn, table, ops[0]);
      var later := Run(conn, s.table, ops[1..]).1;
      var first: seq<Sent> := if s.sent.Some? then [Sent(ops[0].tag, s.sent.value)] else [];
      AtMostOneReplyPerDeferral(conn, s.table, ops[1..], tag);
      RepliesForAppend(tag, first, later);
      assert RepliesFor(tag, first) + Pending(tag, s.table) <= Pending(tag, table) + (if ops[0].Defer? && ops[0].tag == tag then 1 else 0);
    }
  }

  /** A call deferred once under a fresh tag is answered at most once, whatever else happens. */
  lemma SingleDeferralSingleReply(conn: Connection, table: map<Tag, Continuation>, ops: seq<TableOp>, tag: Tag)
    requires tag !in table && Deferrals(tag, ops) == 1
    ensures RepliesFor(tag, Run(conn, table, ops).1) <= 1
  {
    AtMostOneReplyPerDeferral(conn, table, ops, tag);
  }

  /**
    `return_later(tag)` then `return_now` of that continuation sends exactly
    one return, answering the deferred call with what was written to it; a
    second `return_now` for the same tag sends nothing more.
  */
  lemma DeferThenComplete(conn: Connection, table: map<Tag, Continuation>, tag: Tag, call: CallMessage, arg: Arg)
    requires tag !in table
    ensures Run(conn, table, [Defer(tag, call), Append(tag, arg), CompleteNow(tag), CompleteNow(tag)])
         == (table, [Sent(tag, Return(ReturnMessage(call, [arg])))])
  {
    var done := ReturnMessage(call, [arg]);
    var t1 := table[tag := NewContinuation(conn, call, tag)];
    var t2 := table[tag := Continuation(conn, call, done, tag)];
    assert Step(conn, table, Defer(tag, call)) == StepResult(t1, None);
    assert NewContinuation(conn, call, tag).ret.args + [arg] == [arg];
    assert Step(conn, t1, Append(tag, arg)) == StepResult(t2, None);
    assert t2 - {tag} == table;
    assert Step(conn, t2, CompleteNow(tag)) == StepResult(table, Some(Return(done)));
    assert Step(conn, table, CompleteNow(tag)) == StepResult(table, None);
    assert Run(conn, table, []) == (table, []);
    var ops := [Defer(tag, call), Append(tag, arg), CompleteNow(tag), CompleteNow(tag)];
    var sent := [Sent(tag, Return(done))];
    assert ops[3..][0] == CompleteNow(tag) && ops[3..][1..] == [];
    assert Run(conn, table, ops[3..]) == (table, []);
    assert ops[2..][0] == CompleteNow(tag) && ops[2..][1..] == ops[3..];
    assert sent + [] == sent;
    assert Run(conn, t2, ops[2..]) == (table, sent);
    assert ops[1..][0] == Append(tag, arg) && ops[1..][1..] == ops[2..];
    assert Run(conn, t1, ops[1..]) == (table, sent);
  }

  /**
    `ObjectAdaptor`: its identity, fixed at construction, and its table of
    pending continuations, which only the four table operations change.
  */
  class ObjectAdaptor {
    const identity: ObjectIdentity
    var continuations: map<Tag, Continuation>

    ghost predicate Valid()
      reads this
    {
      WellKeyed(identity.conn, continuations)
    }

    /**
      `ObjectAdaptor(conn, path)`. The service name the base `Object` is given
      comes from code that is not part of this model, so it is a parameter.
    */
    constructor (conn: Connection, path: Path, service: string)
      ensures identity == ObjectIdentity(conn, path, service)
      ensures continuations == map[]
      ensures Valid()
    {
      identity := ObjectIdentity(conn, path, service);
      continuations := map[];
    }

    /** `object()`: the adaptor itself. */
    function Object(): (r: ObjectAdaptor)
      ensures r == this
    {
      this
    }

    /**
      `find_continuation(tag)`: the continuation pending under `tag`, whose
      own `tag()` is that tag, or nothing when none is pending.
    */
    function FindContinuation(tag: Tag): (r: Option<Continuation>)
      reads this
      requires Valid()
      ensures r.Some? <==> tag in continuations
      ensures r.Some? ==> r.value == continuations[tag] && r.value.tag == tag && r.value.conn == identity.conn
    {
      if tag in continuations then Some(continuations[tag]) else None
    }

    /** `return_later(tag)` while `call` is being dispatched; `ok` is false for a tag already pending. */
    method ReturnLater(tag: Tag, call: CallMessage) returns (ok: bool)
      requires Valid()
      modifies this
      ensures Valid()
      ensures ok <==> tag !in old(continuations)
      ensures continuations == Step(identity.conn, old(continuations), TableOp.Defer(tag, call)).table
    {
      if tag in continuations {
        return false;
      }
      continuations := continuations[tag := NewContinuation(identity.conn, call, tag)];
      ok := true;
    }

    /** `find_continuation(tag)->writer() << arg`; `ok` is false when no continuation is pending under `tag`. */
    method WriteReply(tag: Tag, arg: Arg) returns (ok: bool)
      requires Valid()
      modifies this
      ensures Valid()
      ensures ok <==> tag in old(continuations)
      ensures continuations == Step(identity.conn, old(continuations), TableOp.Append(tag, arg)).table
    {
      var found := FindContinuation(tag);
      if found.None? {
        return false;
      }
      var c := found.value;
      continuations := continuations[tag := c.(ret := c.ret.(args := c.ret.args + [arg]))];
      ok := true;
    }

    /** `return_now(c)` for the continuation pending under `tag`: the reply to send, if any, and the entry retired. */
    method ReturnNow(tag: Tag) returns (sent: Option<Reply>)
      requires Valid()
      modifies this
      ensures Valid()
      ensures StepResult(continuations, sent) == Step(identity.conn, old(continuations), TableOp.CompleteNow(tag))
    {
      var found := FindContinuation(tag);
      if found.None? {
        return None;
      }
      sent := Some(Return(found.value.ret));
      continuations := continuations - {tag};
    }

    /** `return_error(c, error)` for the continuation pending under `tag`. */
    method ReturnError(tag: Tag, error: Error) returns (sent: Option<Reply>)
      requires Valid()
      modifies this
      ensures Valid()
      ensures StepResult(continuations, sent) == Step(identity.conn, old(continuations), TableOp.CompleteError(tag, error))
    {
      var found := FindContinuation(tag);
      if found.None? {
        return None;
      }
      sent := Some(ErrorReply(found.value.call, error));
      continuations := continuations - {tag};
    }
  }

  /** `ObjectProxy`: an identity only; sending calls belongs to the connection. */
  class ObjectProxy {
    const identity: ObjectIdentity

    /** `ObjectProxy(conn, path, service = "")`. */
    constructor (conn: Connection, path: Path, service: string := "")
      ensures identity == ObjectIdentity(conn, path, service)
    {
      identity := ObjectIdentity(conn, path, service);
    }

    /** `object()`: the proxy itself. */
    function Object(): (r: ObjectProxy)
      ensures r == this
    {
      this
    }
  }

  /** A proxy built without a service name has the empty service name, and its identity is never changed afterwards. */
  method ProxyServiceDefault(conn: Connection, path: Path) returns (p: ObjectProxy)
    ensures p.identity == ObjectIdentity(conn, path, "")
  {
    p := new ObjectProxy(conn, path);
  }
}
