/**
 The two ends of the wire at run time: the client that calls under a lock (rpc/rpc.c,
 fs/proxy.c) and the provider that serves one message after the other (rpc/stub.c,
 fs/stub.c, and the loop of app/provider.c).
 */
module Service {
  import opened Words
  import opened Buffers
  import opened Wire
  import opened WireLaws
  import opened Tables
  import opened Framing
  import opened Serializer
  import opened Deserializer
  import opened Calls
  import opened Remote
  import opened Transparency
  import Capabilities

  // ---------------------------------------------------------------- the client

  /** What one invocation does: its status, the bytes it sent and took, the scripts it
      left, the caller's objects, and whether the connection reported an error. */
  datatype Invocation = Invocation(status: int, sent: seq<byte>, sending: seq<Framing.Outcome>, taken: nat,
                                   receiving: seq<Framing.Outcome>, mem: seq<Slot>, reported: bool)

  /** One exchange; `stale` is what the buffer still holds behind the reply. */
  ghost function Invoked(id: i32, ins: seq<Row>, outs: seq<Row>, mem: seq<Slot>, stale: seq<byte>,
                         sending: seq<Framing.Outcome>, stream: seq<byte>, receiving: seq<Framing.Outcome>): Invocation
    requires AllLoadable(ins, mem)
  {
    var e := SerializeRows(ins, mem);
    if e.status != RPC_GOOD then Invocation(e.status, [], sending, 0, receiving, mem, false)
    else
      var sent := WriteAll(Frame(id, e.payload), sending);
      if sent.status != RPC_GOOD then Invocation(sent.status, sent.bytes, sent.script, 0, receiving, mem, true)
      else
        var r := Receive(stream, receiving);
        if r.status != RPC_GOOD then Invocation(r.status, sent.bytes, sent.script, r.taken, r.script, mem, true)
        else if MethodId(r.frame + stale, |r.frame|) != id then
          Invocation(RPC_BAD_INVALID_RESPONSE_METHOD_ID, sent.bytes, sent.script, r.taken, r.script, mem, false)
        else
          var d := DeserializeRows(outs, r.frame + stale, |r.frame|, DATA_OFFSET, mem);
          Invocation(d.status, sent.bytes, sent.script, r.taken, r.script, d.mem, false)
  }

  lemma {:induction false} SerializeStatuses(ms: seq<Row>, mem: seq<Slot>)
    requires AllLoadable(ms, mem)
    ensures SerializeRows(ms, mem).status in {RPC_GOOD, RPC_BAD_UNKNOWN_SERIALIZER}
    decreases |ms|
  {
    if ms != [] && Known(ms[0].typ) {
      SerializeStatuses(ms[1..], mem);
    }
  }

  lemma {:induction false} DeserializeStatuses(ms: seq<Row>, data: seq<byte>, limit: nat, pos: nat, mem: seq<Slot>)
    requires limit <= |data|
    ensures DeserializeRows(ms, data, limit, pos, mem).status
            in {RPC_GOOD, RPC_BAD_UNKNOWN_DESERIALIZER, RPC_BAD_DESERIALIZE_FAILED}
    decreases |ms|
  {
    hide Parse, Store;
    if ms != [] && Known(ms[0].typ) {
      match Parse(ClassOf(ms[0].typ), data, limit, pos)
      case Done(view, next) => DeserializeStatuses(ms[1..], data, limit, next, Store(ms[0], view, data, mem));
      case Failed(_) =>
    }
  }

  /** The client stays aligned after a rejected reply. Whatever the reply holds, an
      invocation that got as far as looking at it, successful or not, has taken exactly
      one message, so the next one starts at the next message; and it is only then
      that it has taken a whole message. Over unbroken pipes that is so exactly for
      replies below the size limit: of a larger one only the header is taken, and the
      next invocation starts in the middle of it. */
  lemma RejectedReplyKeepsAlignment(id: i32, ins: seq<Row>, outs: seq<Row>, mem: seq<Slot>, stale: seq<byte>,
                                    sending: seq<Framing.Outcome>, f: seq<byte>, rest: seq<byte>,
                                    receiving: seq<Framing.Outcome>)
    requires AllLoadable(ins, mem) && CountsItself(f)
    ensures var i := Invoked(id, ins, outs, mem, stale, sending, f + rest, receiving);
            && i.taken <= |f|
            && (i.taken == |f| <==> (f + rest)[i.taken..] == rest)
            && (i.taken == |f| <==> i.status in {0, -2, -8, -9})
            && (i.taken == |f| ==> i.sent == Frame(id, SerializeRows(ins, mem).payload))
            && (NeverBroken(sending) && NeverBroken(receiving) && AllKnown(ins) ==>
                  && (i.taken == |f| <==> |f| < 0x100_0000)
                  && (|f| >= 0x100_0000 ==> i.status == -6 && (f + rest)[i.taken..] == f[4..] + rest))
  {
    hide Receive, WriteAll, DeserializeRows, SerializeRows, MethodId, Frame, NeverBroken, AllLoadable, CountsItself;
    SerializeStatuses(ins, mem);
    if AllKnown(ins) {
      KnownSerialize(ins, mem);
    }
    var e := SerializeRows(ins, mem);
    WriteAllLaws(Frame(id, e.payload), sending);
    var r := Receive(f + rest, receiving);
    DeserializeStatuses(outs, r.frame + stale, |r.frame|, DATA_OFFSET, mem);
    ReceivedPart(f, rest, receiving);
    var i := Invoked(id, ins, outs, mem, stale, sending, f + rest, receiving);
    assert (f + rest)[|f|..] == rest;
    assert |f| >= SIZE_SIZE ==> (f + rest)[SIZE_SIZE..] == f[SIZE_SIZE..] + rest;
    assert |(f + rest)[i.taken..]| == |f| + |rest| - i.taken;
  }

  /** Only the reply to the method that was called is accepted: whatever else a reply
      carries, the four bytes behind its size must be the method's id. Any other reply is
      rejected before it is decoded, and the caller's objects are left alone. */
  lemma OnlyOwnReplyAccepted(id: i32, ins: seq<Row>, outs: seq<Row>, mem: seq<Slot>, stale: seq<byte>,
                             sending: seq<Framing.Outcome>, f: seq<byte>, rest: seq<byte>,
                             receiving: seq<Framing.Outcome>)
    requires AllLoadable(ins, mem) && AllKnown(ins) && WellFramed(f)
    requires NeverBroken(sending) && NeverBroken(receiving) && id != 0
    ensures var i := Invoked(id, ins, outs, mem, stale, sending, f + rest, receiving);
            && (i.status == -2 <==> |f| < 8 || f[4..8] != BigEndian(4, id))
            && (i.status == -2 ==> i.mem == mem)
            && (i.status != -2 ==>
                  var d := DeserializeRows(outs, f + stale, |f|, 8, mem);
                  i.status == d.status && i.mem == d.mem)
  {
    FrameArrives(f, rest, receiving);
    KnownSerialize(ins, mem);
    WriteAllLaws(Frame(id, SerializeRows(ins, mem).payload), sending);
    IdIsRead(f, stale, id);
    DeserializeStatuses(outs, f + stale, |f|, DATA_OFFSET, mem);
    hide Receive, WriteAll, DeserializeRows, SerializeRows, MethodId, Frame, NeverBroken, AllLoadable, WellFramed;
    hide BigEndian;
  }

  lemma IdIsRead(f: seq<byte>, stale: seq<byte>, id: i32)
    requires id != 0
    ensures MethodId(f + stale, |f|) == id <==> |f| >= 8 && f[4..8] == BigEndian(4, id)
  {
    if |f| >= 8 {
      assert (f + stale)[4..8] == f[4..8];
      Int32RoundTrip(id);
      Int32LoadIsInverse(f[4..8]);
    }
  }

  lemma {:induction false} KnownSerialize(ms: seq<Row>, mem: seq<Slot>)
    requires AllLoadable(ms, mem) && AllKnown(ms)
    ensures SerializeRows(ms, mem).status == RPC_GOOD
    decreases |ms|
  {
    if ms != [] {
      KnownSerialize(ms[1..], mem);
    }
  }

  lemma ReceivedPart(f: seq<byte>, rest: seq<byte>, script: seq<Framing.Outcome>)
    requires CountsItself(f)
    ensures |f| >= SIZE_SIZE && Receive(f + rest, script).taken <= |f|
    ensures Receive(f + rest, script).taken == |f| <==> Receive(f + rest, script).status == RPC_GOOD
    ensures Receive(f + rest, script).status in {RPC_GOOD, RPC_BAD_CONNECTION_READ_ERROR,
                                                 RPC_BAD_MAX_MESSAGE_SIZE_EXCEEDED}
    ensures NeverBroken(script) ==>
              if |f| < MAX_BUFFER_SIZE then Receive(f + rest, script).status == RPC_GOOD
              else
                && Receive(f + rest, script).status == RPC_BAD_MAX_MESSAGE_SIZE_EXCEEDED
                && Receive(f + rest, script).taken == SIZE_SIZE
  {
    var stream := f + rest;
    assert stream[..SIZE_SIZE] == BigEndian(4, |f|);
    U32RoundTrip(|f|);
    var h := ReadAll(stream, SIZE_SIZE, script);
    ReadAllLaws(stream, SIZE_SIZE, script);
    ReadAllLaws(stream[SIZE_SIZE..], BodySize(|f|), h.script);
  }

  lemma Roomy(stream: seq<byte>)
    requires NoOverrun(stream, MIN_CAPACITY)
    ensures forall room :: room >= MIN_CAPACITY ==> NoOverrun(stream, room)
  {
  }

  /** The client: one buffer and one connection, shared under one lock. */
  class Rpc {
    const connection: Connection
    const buffer: Buffer
    var locked: bool

    ghost predicate Ready()
      reads this, buffer
    {
      && !locked && buffer.Valid()
      && connection.input != connection.output
    }

    constructor (connection: Connection, buffer: Buffer)
      requires buffer.Valid() && connection.input != connection.output
      ensures this.connection == connection && this.buffer == buffer && Ready()
    {
      this.connection := connection;
      this.buffer := buffer;
      locked := false;
    }

    /** Sends a request and waits for its reply. The lock is taken by this call and
        free again when it returns, whichever way it returns. */
    method Invoke(methodId: i32, rows: seq<Row>, mem: Memory) returns (status: int, ghost stale: seq<byte>)
      requires Ready() && NoOverrun(connection.input.stream, MIN_CAPACITY)
      requires Terminated(rows)
      requires AllLoadable(Matching(RPC_IN, rows), mem.slots) && AllStorable(Matching(RPC_OUT, rows), mem.slots)
      modifies this`locked, connection`errors, connection.input, connection.output, buffer, buffer.data, mem
      ensures Ready() && (buffer.data == old(buffer.data) || fresh(buffer.data))
      ensures var i := Invoked(methodId, Matching(RPC_IN, rows), Matching(RPC_OUT, rows), old(mem.slots), stale,
                               old(connection.output.script), old(connection.input.stream),
                               old(connection.input.script));
              && status == i.status
              && mem.slots == i.mem
              && connection.output.stream == old(connection.output.stream) + i.sent
              && connection.output.script == i.sending
              && connection.input.stream == old(connection.input.stream)[i.taken..]
              && connection.input.script == i.receiving
              && connection.errors == old(connection.errors) + if i.reported && connection.observed then 1 else 0
    {
      hide Receive, WriteAll, DeserializeRows, SerializeRows, MethodId, Frame, AllLoadable, AllStorable;
      hide Matching, Terminated, FromBigEndian, NoOverrun;
      Roomy(connection.input.stream);
      locked := true;
      stale := [];
      status := Serialize(buffer, RPC_IN, methodId, rows, mem.slots);
      if status != RPC_GOOD {
        assert connection.output.stream == old(connection.output.stream) + [];
        locked := false;
        return;
      }
      status := connection.Write(buffer);
      if status != RPC_GOOD {
        locked := false;
        return;
      }
      status := connection.Read(buffer);
      if status != RPC_GOOD {
        locked := false;
        return;
      }
      stale := buffer.data[buffer.size..];
      assert buffer.data[..] == buffer.Contents() + stale;
      var responseMethodId := GetMethodId(buffer);
      if methodId != responseMethodId {
        locked := false;
        return RPC_BAD_INVALID_RESPONSE_METHOD_ID, stale;
      }
      status := Deserialize(buffer, RPC_OUT, rows, mem);
      locked := false;
    }
  }

  lemma ProxyTables(call: Call, out: Slot)
    requires CallOk(call) && OutOk(call, out)
    ensures CallSizesOk(call)
    ensures Terminated(ProxyRows(MethodOf(call)))
    ensures Matching(RPC_IN, ProxyRows(MethodOf(call))) == ProxyIn(MethodOf(call))
    ensures Matching(RPC_OUT, ProxyRows(MethodOf(call))) == ProxyOut(MethodOf(call))
    ensures AllLoadable(ProxyIn(MethodOf(call)), ProxyMem(call, out))
    ensures AllStorable(ProxyOut(MethodOf(call)), ProxyMem(call, out))
    ensures ResultSlot(MethodOf(call)) + 1 < |ProxyMem(call, out)|
  {
    hide ProxyIn, ProxyOut, ProxyMem, MethodOf, Matching, Storable, Separate, AllLoadable, CallOk, OutOk, ResultSlot;
    RequestLoads(call, out);
    ProxyReceives(call, out);
    HalvesOf(MethodOf(call));
  }

  /** What a proxy function's invocation does. */
  ghost function ProxyInvoked(call: Call, out: Slot, stale: seq<byte>, sending: seq<Framing.Outcome>,
                              stream: seq<byte>, receiving: seq<Framing.Outcome>): (i: Invocation)
    requires CallOk(call) && OutOk(call, out)
  {
    ProxyTables(call, out);
    Invoked(MethodOf(call), ProxyIn(MethodOf(call)), ProxyOut(MethodOf(call)), ProxyMem(call, out), stale,
            sending, stream, receiving)
  }

  lemma InvokedKeepsSlots(id: i32, ins: seq<Row>, outs: seq<Row>, mem: seq<Slot>, stale: seq<byte>,
                          sending: seq<Framing.Outcome>, stream: seq<byte>, receiving: seq<Framing.Outcome>)
    requires AllLoadable(ins, mem)
    ensures |Invoked(id, ins, outs, mem, stale, sending, stream, receiving).mem| == |mem|
    ensures Invoked(id, ins, outs, mem, stale, sending, stream, receiving).taken <= |stream|
  {
    hide Receive, WriteAll, DeserializeRows, SerializeRows, MethodId, Frame, AllLoadable;
  }

  /** The proxy functions. */
  class FsProxy {
    const rpc: Rpc

    constructor (rpc: Rpc)
      ensures this.rpc == rpc
    {
      this.rpc := rpc;
    }

    /** Calls a method: its table over its own locals and parameters, one invocation,
        and its return value; `after` is what became of the caller's out object. */
    method Perform(call: Call, out: Slot) returns (result: int, after: Slot, ghost stale: seq<byte>)
      requires rpc.Ready() && NoOverrun(rpc.connection.input.stream, MIN_CAPACITY)
      requires CallOk(call) && OutOk(call, out)
      modifies rpc`locked, rpc.connection`errors, rpc.connection.input, rpc.connection.output
      modifies rpc.buffer, rpc.buffer.data
      ensures rpc.Ready() && (rpc.buffer.data == old(rpc.buffer.data) || fresh(rpc.buffer.data))
      ensures var i := ProxyInvoked(call, out, stale, old(rpc.connection.output.script),
                                    old(rpc.connection.input.stream), old(rpc.connection.input.script));
              && ResultSlot(MethodOf(call)) + 1 < |i.mem| && i.taken <= |old(rpc.connection.input.stream)|
              && (i.status == 0 && !call.ListOperations? ==> result == ResultOf(call, i.mem))
              && (i.status != 0 && !call.ListOperations? ==> result == -1)
              && (call.ListOperations? ==> result == i.status)
              && after == OutOf(call, out, i.mem)
              && rpc.connection.output.stream == old(rpc.connection.output.stream) + i.sent
              && rpc.connection.output.script == i.sending
              && rpc.connection.input.stream == old(rpc.connection.input.stream)[i.taken..]
              && rpc.connection.input.script == i.receiving
    {
      hide ProxyIn, ProxyOut, ProxyMem, MethodOf, Matching, AllStorable, AllLoadable, CallOk, OutOk, ResultSlot;
      hide Invoked, Terminated, ResultOf, OutOf, ProxyRows;
      ProxyTables(call, out);
      var id := MethodOf(call);
      ghost var slots := ProxyMem(call, out);
      ghost var stream, sending, receiving :=
        rpc.connection.input.stream, rpc.connection.output.script, rpc.connection.input.script;
      var mem := new Memory(ProxyMem(call, out));
      var status;
      status, stale := rpc.Invoke(id, ProxyRows(id), mem);
      InvokedKeepsSlots(id, ProxyIn(id), ProxyOut(id), slots, stale, sending, stream, receiving);
      result := Returned(call, status, ResultOf(call, mem.slots));
      after := OutOf(call, out, mem.slots);
    }
  }

  /** The FUSE side: asks for the provider's operations and fills libfuse's table. */
  class ProxyFs {
    const proxy: FsProxy
    const operations: Capabilities.FuseOperations

    constructor (proxy: FsProxy, operations: Capabilities.FuseOperations)
      ensures this.proxy == proxy && this.operations == operations
    {
      this.proxy := proxy;
      this.operations := operations;
    }

    /** The negotiated table, or none when the exchange failed. The table itself holds what
        was listed even then. */
    method GetOperations() returns (table: Option<Capabilities.Table>, ghost stale: seq<byte>)
      requires proxy.rpc.Ready() && NoOverrun(proxy.rpc.connection.input.stream, MIN_CAPACITY)
      modifies proxy.rpc`locked, proxy.rpc.connection`errors, proxy.rpc.connection.input, proxy.rpc.connection.output
      modifies proxy.rpc.buffer, proxy.rpc.buffer.data, operations
      ensures proxy.rpc.Ready()
      ensures var i := ProxyInvoked(ListOperations, List([]), stale, old(proxy.rpc.connection.output.script),
                                    old(proxy.rpc.connection.input.stream), old(proxy.rpc.connection.input.script));
              && 1 < |i.mem| && i.mem[1].List?
              && operations.callbacks == Capabilities.Negotiated(map[], i.mem[1].names)
              && table == if i.status == RPC_GOOD then Some(operations.callbacks) else None
    {
      var result, out;
      ghost var stream, sending, receiving := proxy.rpc.connection.input.stream,
        proxy.rpc.connection.output.script, proxy.rpc.connection.input.script;
      result, out, stale := proxy.Perform(ListOperations, List([]));
      ListStaysList(stale, sending, stream, receiving);
      operations.Install(out.names);
      table := if result == RPC_GOOD then Some(operations.callbacks) else None;
    }
  }

  /** A list of names stays one, whatever arrives. */
  lemma ListStaysList(stale: seq<byte>, sending: seq<Framing.Outcome>, stream: seq<byte>,
                      receiving: seq<Framing.Outcome>)
    ensures var i := ProxyInvoked(ListOperations, List([]), stale, sending, stream, receiving);
            |i.mem| == 2 && i.mem[1].List?
  {
    hide Receive, WriteAll, SerializeRows, MethodId, Frame;
    ProxyTables(ListOperations, List([]));
    var r := Receive(stream, receiving);
    var data, mem := r.frame + stale, ProxyMem(ListOperations, List([]));
    ListSlotKept(ProxyOut(1), data, |r.frame|, DATA_OFFSET, mem, 1);
  }

  lemma {:induction false} ListSlotKept(ms: seq<Row>, data: seq<byte>, limit: nat, pos: nat, mem: seq<Slot>, s: nat)
    requires limit <= |data| && s < |mem| && mem[s].List?
    requires forall k :: 0 <= k < |ms| && s in Footprint(ms[k]) ==> ms[k].typ == RPC_STRINGLIST
    ensures DeserializeRows(ms, data, limit, pos, mem).mem[s].List?
    decreases |ms|
  {
    hide Parse;
    if ms != [] && Known(ms[0].typ) {
      match Parse(ClassOf(ms[0].typ), data, limit, pos)
      case Done(view, next) => ListSlotKept(ms[1..], data, limit, next, Store(ms[0], view, data, mem), s);
      case Failed(_) =>
    }
  }

  // ---------------------------------------------------------------- the provider

  lemma StubTables(id: int)
    requires IsMethod(id)
    ensures Terminated(StubInRows(id)) && Terminated(StubOutRows(id))
    ensures Matching(RPC_IN, StubInRows(id)) == StubIn(id)
    ensures Matching(RPC_OUT, StubOutRows(id)) == StubOut(id)
    ensures AllStorable(StubIn(id), STUB_LOCALS)
  {
    hide ProxyIn, ProxyOut, StubIn, StubOut, Matching, Separate, Storable;
    HalvesOf(id);
    StubReceives(id);
  }

  lemma ReplyTables(call: Call, answer: Answer, junk: Junk)
    requires AnswerOk(call, answer)
    ensures AllLoadable(StubOut(MethodOf(call)), ReplyMem(call, answer, junk))
    ensures SerializeRows(StubOut(MethodOf(call)), ReplyMem(call, answer, junk)).status == RPC_GOOD
    ensures Reply(call, answer, junk)
         == Frame(MethodOf(call), SerializeRows(StubOut(MethodOf(call)), ReplyMem(call, answer, junk)).payload)
  {
    hide StubOut, ReplyMem, MethodOf, AllLoadable, SerializeRows, Frame, AnswerOk;
    ReplyLoads(call, answer, junk);
    KnownSerialize(StubOut(MethodOf(call)), ReplyMem(call, answer, junk));
  }

  /** The names a provider with these operations offers. */
  function Offers(operations: set<Capabilities.Op>): seq<Name> {
    Capabilities.NamesOf(Capabilities.LISTED, operations)
  }

  lemma OffersOk(operations: set<Capabilities.Op>)
    ensures NamesOk(Offers(operations))
  {
    Capabilities.ListedNamesAreShort(Capabilities.LISTED, operations);
    Capabilities.ShortNamesOk(Offers(operations));
  }

  /** Wherever the reader gets to, a declared size below four leaves no more behind it
      than the smallest buffer holds. */
  ghost predicate HeadersOk(stream: seq<byte>)
    decreases |stream|
  {
    && NoOverrun(stream, MIN_CAPACITY)
    && (|stream| >= SIZE_SIZE ==>
          var count := FromBigEndian(stream[..SIZE_SIZE]);
          SIZE_SIZE <= count <= |stream| && count < MAX_BUFFER_SIZE ==> HeadersOk(stream[count..]))
  }

  lemma HeadersStart(stream: seq<byte>, room: nat)
    requires HeadersOk(stream) && room >= MIN_CAPACITY
    ensures NoOverrun(stream, room)
  {
  }

  /** A provider between two messages: its backend's state, what it has yet to read,
      what it has written, and the scripts of both. */
  datatype Provider<+S> = Provider(state: S, stream: seq<byte>, reading: seq<Framing.Outcome>,
                                   written: seq<byte>, writing: seq<Framing.Outcome>)

  /** What a handler's uninitialised locals and the rest of its buffer hold. */
  datatype Luck = Luck(junk: Junk, stale: seq<byte>)

  datatype Turn<+S> = Turn(status: int, after: Provider<S>, request: seq<byte>, made: seq<Call>, reply: seq<byte>)

  /** One turn of the service loop. */
  ghost function Served<S(!new)>(names: seq<Name>, apply: (S, Call) -> (S, Answer), p: Provider<S>, luck: Luck): Turn<S>
    requires WellBehaved(apply) && NamesOk(names)
  {
    var got := Receive(p.stream, p.reading);
    var p1 := p.(stream := p.stream[got.taken..], reading := got.script);
    if got.status != RPC_GOOD then Turn(got.status, p1, [], [], [])
    else
      var h := Handle(names, apply, p.state, luck.junk, got.frame + luck.stale, |got.frame|);
      var p2 := p1.(state := h.state);
      if h.status != RPC_GOOD then Turn(h.status, p2, got.frame, h.made, h.reply)
      else
        var sent := WriteAll(h.reply, p.writing);
        Turn(sent.status, p2.(written := p.written + sent.bytes, writing := sent.script), got.frame, h.made, h.reply)
  }

  /** A run of the service loop: the states between its turns, and the turns. */
  datatype Run<+S> = Run(states: seq<Provider<S>>, turns: seq<Turn<S>>, lucks: seq<Luck>)

  /** The run starts at `p`, and every turn but perhaps the last succeeds. */
  ghost predicate IsRun<S(!new)>(names: seq<Name>, apply: (S, Call) -> (S, Answer), p: Provider<S>, run: Run<S>)
    requires WellBehaved(apply) && NamesOk(names)
  {
    && |run.states| == |run.turns| + 1 && |run.lucks| == |run.turns| && run.states[0] == p
    && forall k :: 0 <= k < |run.turns| ==> TurnOf(names, apply, run, k)
  }

  ghost predicate TurnOf<S(!new)>(names: seq<Name>, apply: (S, Call) -> (S, Answer), run: Run<S>, k: nat)
    requires WellBehaved(apply) && NamesOk(names)
    requires |run.states| == |run.turns| + 1 && |run.lucks| == |run.turns| && k < |run.turns|
  {
    && run.turns[k] == Served(names, apply, run.states[k], run.lucks[k])
    && run.states[k + 1] == run.turns[k].after
    && (k + 1 < |run.turns| ==> run.turns[k].status == RPC_GOOD)
  }

  ghost predicate Ended<S>(run: Run<S>, status: int, p: Provider<S>) {
    && |run.turns| > 0 && |run.states| == |run.turns| + 1
    && run.turns[|run.turns| - 1].status == status
    && run.states[|run.turns|] == p
  }

  lemma ServedAdvances<S(!new)>(names: seq<Name>, apply: (S, Call) -> (S, Answer), p: Provider<S>, luck: Luck)
    requires WellBehaved(apply) && NamesOk(names) && HeadersOk(p.stream)
    ensures var t := Served(names, apply, p, luck);
            && |t.after.stream| <= |p.stream|
            && (t.status == RPC_GOOD ==> |t.after.stream| < |p.stream| && HeadersOk(t.after.stream))
  {
    hide Handle, WriteAll;
    ReadAllLaws(p.stream, SIZE_SIZE, p.reading);
    var h := ReadAll(p.stream, SIZE_SIZE, p.reading);
    if h.status == RPC_GOOD {
      var count := FromBigEndian(p.stream[..SIZE_SIZE]);
      ReadAllLaws(p.stream[SIZE_SIZE..], BodySize(count), h.script);
    }
  }

  lemma RunMore<S(!new)>(names: seq<Name>, apply: (S, Call) -> (S, Answer), p: Provider<S>, run: Run<S>, luck: Luck)
    returns (more: Run<S>)
    requires WellBehaved(apply) && NamesOk(names) && IsRun(names, apply, p, run)
    requires run.turns == [] || run.turns[|run.turns| - 1].status == RPC_GOOD
    ensures IsRun(names, apply, p, more) && |more.turns| == |run.turns| + 1
    ensures more.turns[|run.turns|] == Served(names, apply, run.states[|run.turns|], luck)
    ensures more.states[|run.turns| + 1] == more.turns[|run.turns|].after
  {
    hide Served, WellBehaved, NamesOk;
    var turn := Served(names, apply, run.states[|run.turns|], luck);
    more := Run(run.states + [turn.after], run.turns + [turn], run.lucks + [luck]);
    forall k | 0 <= k < |more.turns|
      ensures TurnOf(names, apply, more, k)
    {
      if k < |run.turns| {
        assert TurnOf(names, apply, run, k);
      }
    }
  }

  /** The stub of one backend: its operations, its state, and the buffer it decodes
      from and replies in. */
  class Stub<S(!new)> {
    const connection: Connection
    const buffer: Buffer
    const operations: set<Capabilities.Op>
    const apply: (S, Call) -> (S, Answer)
    var state: S

    constructor (connection: Connection, buffer: Buffer, operations: set<Capabilities.Op>,
                 apply: (S, Call) -> (S, Answer), state: S)
      requires buffer.Valid() && connection.input != connection.output && WellBehaved(apply)
      ensures this.connection == connection && this.buffer == buffer && this.operations == operations
      ensures this.apply == apply && this.state == state && Ready()
    {
      this.connection := connection;
      this.buffer := buffer;
      this.operations := operations;
      this.apply := apply;
      this.state := state;
    }

    ghost predicate Ready()
      reads this, buffer
    {
      && buffer.Valid() && WellBehaved(apply)
      && connection.input != connection.output
    }

    /** Decodes the call in the buffer, makes it, and replaces the request by the reply.
        `junk` is what the handler's uninitialised locals hold. */
    method OnMethodCall(junk: Junk) returns (status: int)
      requires Ready()
      modifies this`state, buffer, buffer.data
      ensures Ready() && (buffer.data == old(buffer.data) || fresh(buffer.data))
      ensures NamesOk(Offers(operations))
      ensures var h := Handle(Offers(operations), apply, old(state), junk, old(buffer.data[..]), old(buffer.size));
              && status == h.status
              && state == h.state
              && (status == RPC_GOOD ==> buffer.Contents() == h.reply)
    {
      OffersOk(operations);
      hide StubIn, StubOut, Offers, AllStorable, DeserializeRows, MethodId, CallFrom, Reply, WellBehaved, AnswerOk;
      ghost var data, limit := buffer.data[..], buffer.size;
      var id := GetMethodId(buffer);
      if !IsMethod(id) {
        return RPC_BAD;
      }
      var mem := new Memory(STUB_LOCALS);
      StubTables(id);
      status := Deserialize(buffer, RPC_IN, StubInRows(id), mem);
      if status == RPC_GOOD {
        CallHasItsMethod(id, mem.slots, buffer.data[..]);
        var call := CallFrom(id, mem.slots, buffer.data[..]);
        AnsweredOk(Offers(operations), apply, state, call);
        status := Answering(call, junk);
      }
    }

    /** Makes one call and encodes the reply. */
    method Answering(call: Call, junk: Junk) returns (status: int)
      requires Ready() && NamesOk(Offers(operations))
      requires AnswerOk(call, Answered(Offers(operations), apply, state, call).1)
      modifies this`state, buffer, buffer.data
      ensures Ready() && (buffer.data == old(buffer.data) || fresh(buffer.data))
      ensures status == RPC_GOOD
      ensures state == Answered(Offers(operations), apply, old(state), call).0
      ensures buffer.Contents() == Reply(call, Answered(Offers(operations), apply, old(state), call).1, junk)
      ensures AnswerOk(call, if call.ListOperations? then Answer(0, Offered(Offers(operations)))
                             else apply(old(state), call).1)
      ensures !call.ListOperations? ==>
                state == apply(old(state), call).0 && buffer.Contents() == Reply(call, apply(old(state), call).1, junk)
      ensures call.ListOperations? ==>
                state == old(state)
                && buffer.Contents() == Reply(call, Answer(0, Offered(Offers(operations))), junk)
    {
      hide StubIn, StubOut, StubOutRows, Offers, AnswerOk, Reply, ReplyMem, MethodOf, AllLoadable, SerializeRows, Frame;
      hide Matching, Terminated, WellBehaved, NamesOk;
      ghost var expected := Answered(Offers(operations), apply, state, call);
      var answer;
      if call.ListOperations? {
        var list := Capabilities.ListOperations(operations);
        answer := Answer(0, Offered(list.entries[..list.size]));
        ListedIsOffered(list, operations);
      } else {
        var made := apply(state, call);
        state, answer := made.0, made.1;
      }
      assert answer == expected.1;
      StubTables(MethodOf(call));
      ReplyTables(call, answer, junk);
      status := Serialize(buffer, RPC_OUT, MethodOf(call), StubOutRows(MethodOf(call)), ReplyMem(call, answer, junk));
    }

    ghost function Now(): Provider<S>
      reads this, connection.input, connection.output
    {
      Provider(state, connection.input.stream, connection.input.script, connection.output.stream,
               connection.output.script)
    }

    /** Serves one message: reads it, makes its call, writes the reply. */
    method Serve(junk: Junk) returns (status: int, ghost luck: Luck)
      requires Ready() && NoOverrun(connection.input.stream, buffer.capacity)
      modifies this`state, connection`errors, connection.input, connection.output, buffer, buffer.data
      ensures Ready() && (buffer.data == old(buffer.data) || fresh(buffer.data))
      ensures NamesOk(Offers(operations))
      ensures var t := Served(Offers(operations), apply, old(Now()), luck);
              status == t.status && Now() == t.after
    {
      OffersOk(operations);
      hide Receive, WriteAll, Handle, NoOverrun, Offers, WellBehaved, NamesOk;
      luck := Luck(junk, []);
      status := connection.Read(buffer);
      if status != RPC_GOOD {
        return;
      }
      luck := Luck(junk, buffer.data[buffer.size..]);
      assert buffer.data[..] == buffer.Contents() + luck.stale;
      status := OnMethodCall(junk);
      if status != RPC_GOOD {
        return;
      }
      status := connection.Write(buffer);
    }

    /** Serves until something fails. */
    method Loop(junk: nat -> Junk) returns (status: int, ghost run: Run<S>)
      requires Ready() && HeadersOk(connection.input.stream)
      modifies this`state, connection`errors, connection.input, connection.output, buffer, buffer.data
      ensures Ready() && NamesOk(Offers(operations))
      ensures IsRun(Offers(operations), apply, old(Now()), run)
      ensures status != RPC_GOOD && Ended(run, status, Now())
    {
      OffersOk(operations);
      hide Receive, WriteAll, Handle, NoOverrun, HeadersOk, Offers, WellBehaved, NamesOk, Served;
      ghost var start := Now();
      ghost var names := Offers(operations);
      run := Run([start], [], []);
      status := RPC_GOOD;
      var served: nat := 0;
      while status == RPC_GOOD
        invariant Ready() && NamesOk(names) && names == Offers(operations)
        invariant buffer.data == old(buffer.data) || fresh(buffer.data)
        invariant IsRun(names, apply, start, run) && Now() == run.states[|run.turns|]
        invariant status == RPC_GOOD ==> HeadersOk(connection.input.stream)
        invariant run.turns == [] || run.turns[|run.turns| - 1].status == status
        invariant status == RPC_GOOD || run.turns != []
        decreases |connection.input.stream|, if status == RPC_GOOD then 1 else 0
      {
        HeadersStart(connection.input.stream, buffer.capacity);
        ghost var before := Now();
        ghost var luck;
        status, luck := Serve(junk(served));
        ServedAdvances(names, apply, before, luck);
        run := RunMore(names, apply, start, run, luck);
        served := served + 1;
      }
    }
  }

  lemma ListedIsOffered(list: NameList, operations: set<Capabilities.Op>)
    requires list.Valid() && list.Contents() == Capabilities.NamesOf(Capabilities.LISTED, operations)
    ensures list.entries[..list.size] == Offers(operations)
  {
  }

  // ---------------------------------------------------------------- provider runs

  /** The backend after a list of calls. */
  function Applied<S>(apply: (S, Call) -> (S, Answer), s: S, calls: seq<Call>): S
    decreases |calls|
  {
    if calls == [] then s else apply(Applied(apply, s, calls[..|calls| - 1]), calls[|calls| - 1]).0
  }

  /** A request was dispatched: it names a method, the backend got at most one call and
      it is of that method (the capability query is answered without one), and the
      reply names the same method. */
  ghost predicate Dispatched<S>(t: Turn<S>, stale: seq<byte>) {
    var id := MethodId(t.request + stale, |t.request|);
    && WellSized(t.request) && IsMethod(id)
    && MethodId(t.reply, |t.reply|) == id
    && (if id == 1 then t.made == [] else |t.made| == 1 && MethodOf(t.made[0]) == id)
  }

  ghost predicate WellSized(request: seq<byte>) {
    SIZE_SIZE <= |request| < MAX_BUFFER_SIZE && FromBigEndian(request[..SIZE_SIZE]) == |request|
  }

  lemma ReplyNamesMethod(call: Call, answer: Answer, junk: Junk)
    requires AnswerOk(call, answer)
    ensures |Reply(call, answer, junk)| >= 8
    ensures MethodId(Reply(call, answer, junk), |Reply(call, answer, junk)|) == MethodOf(call)
  {
    hide StubOut, ReplyMem, MethodOf, AllLoadable, SerializeRows, Frame, AnswerOk, MethodId;
    ReplyTables(call, answer, junk);
    var reply := Reply(call, answer, junk);
    assert reply[..|reply|] == reply;
    var payload := SerializeRows(StubOut(MethodOf(call)), ReplyMem(call, answer, junk)).payload;
    FrameId(MethodOf(call), payload, reply, |reply|);
  }

  lemma NamesCall(call: Call)
    ensures MethodOf(call) == 1 <==> call == ListOperations
  {
  }

  /** A message too short to hold an id names no method, and is refused. */
  lemma ShortMessageRefused<S(!new)>(names: seq<Name>, apply: (S, Call) -> (S, Answer), s: S, junk: Junk,
                                     data: seq<byte>, limit: nat)
    requires limit <= |data| && limit < 8 && WellBehaved(apply) && NamesOk(names)
    ensures MethodId(data, limit) == 0
    ensures Handle(names, apply, s, junk, data, limit) == Handled(-1, s, [], [])
  {
  }

  /** A request either is dispatched, with one call and one reply that names its method,
      or it is refused: exactly when it names no method or does not decode. A refused
      request makes no call, gets no reply and leaves the backend alone. The call is the
      decoded one, the state and the reply are those of the backend's own answer to it, and
      only the capability query is answered with the stub's names. */
  lemma HandledOrRefused<S(!new)>(names: seq<Name>, apply: (S, Call) -> (S, Answer), s: S, junk: Junk,
                                  data: seq<byte>, limit: nat)
    requires limit <= |data| && WellBehaved(apply) && NamesOk(names)
    ensures var h, id := Handle(names, apply, s, junk, data, limit), MethodId(data, limit);
            && (h.status == RPC_GOOD <==>
                  1 <= id <= 23
                  && DeserializeRows(StubIn(id), data, limit, DATA_OFFSET, STUB_LOCALS).status == RPC_GOOD)
            && (h.status != RPC_GOOD ==> h == Handled(h.status, s, [], []))
            && (!(1 <= id <= 23) ==> h.status == -1)
            && (1 <= id <= 23 && h.status != RPC_GOOD ==> h.status in {-8, -9})
            && (h.status == RPC_GOOD ==>
                  && |h.reply| >= 8 && MethodId(h.reply, |h.reply|) == id
                  && h.state == Applied(apply, s, h.made)
                  && (if id == 1 then h.made == [] else |h.made| == 1 && MethodOf(h.made[0]) == id)
                  && var r := DeserializeRows(StubIn(id), data, limit, DATA_OFFSET, STUB_LOCALS);
                     var call := CallFrom(id, r.mem, data);
                     if id == 1 then
                       h.state == s && h.reply == Reply(ListOperations, Answer(0, Offered(names)), junk)
                     else
                       && h.made == [call] && AnswerOk(call, apply(s, call).1)
                       && h.state == apply(s, call).0 && h.reply == Reply(call, apply(s, call).1, junk))
  {
    var id := MethodId(data, limit);
    hide DeserializeRows, CallFrom, Reply, AnswerOk, WellBehaved, NamesOk, MethodId, StubIn, STUB_LOCALS;
    if IsMethod(id) {
      var r := DeserializeRows(StubIn(id), data, limit, DATA_OFFSET, STUB_LOCALS);
      DeserializeStatuses(StubIn(id), data, limit, DATA_OFFSET, STUB_LOCALS);
      if r.status == RPC_GOOD {
        CallHasItsMethod(id, r.mem, data);
        var call := CallFrom(id, r.mem, data);
        AnsweredOk(names, apply, s, call);
        NamesCall(call);
        ReplyNamesMethod(call, Answered(names, apply, s, call).1, junk);
        assert Applied(apply, s, []) == s;
        assert [call][..0] == [];
        assert Applied(apply, s, [call]) == apply(s, call).0;
      }
    }
  }

  /** What one turn does to the pipes and the backend. */
  lemma TurnConserves<S(!new)>(names: seq<Name>, apply: (S, Call) -> (S, Answer), p: Provider<S>, luck: Luck)
    requires WellBehaved(apply) && NamesOk(names) && |p.stream| < SIZE_T_RANGE
    ensures var t := Served(names, apply, p, luck);
            && t.after.state == Applied(apply, p.state, t.made)
            && (t.request != [] ==> p.stream == t.request + t.after.stream)
            && (t.reply == [] ==> t.status != RPC_GOOD && t.made == [] && t.after.written == p.written)
            && (t.reply != [] ==>
                  && Dispatched(t, luck.stale)
                  && p.written <= t.after.written <= p.written + t.reply
                  && (t.status == RPC_GOOD <==> t.after.written == p.written + t.reply))
            && (t.status == RPC_GOOD ==> t.request != [])
  {
    hide Receive, WriteAll, Handle, MethodId, WellBehaved, NamesOk;
    var got := Receive(p.stream, p.reading);
    ReceivedWhole(p.stream, p.reading);
    if got.status == RPC_GOOD {
      HandledOrRefused(names, apply, p.state, luck.junk, got.frame + luck.stale, |got.frame|);
      var h := Handle(names, apply, p.state, luck.junk, got.frame + luck.stale, |got.frame|);
      WriteAllLaws(h.reply, p.writing);
      var sent := WriteAll(h.reply, p.writing);
      assert |p.written + sent.bytes| == |p.written| + |sent.bytes|;
    }
  }

  lemma ReceivedWhole(stream: seq<byte>, script: seq<Framing.Outcome>)
    requires |stream| < SIZE_T_RANGE
    ensures var got := Receive(stream, script);
            && (got.status == RPC_GOOD ==> stream == got.frame + stream[got.taken..] && WellSized(got.frame))
            && (got.status != RPC_GOOD ==> got.frame == [])
  {
    ReadAllLaws(stream, SIZE_SIZE, script);
    var h := ReadAll(stream, SIZE_SIZE, script);
    if h.status == RPC_GOOD {
      var count := FromBigEndian(stream[..SIZE_SIZE]);
      if count < MAX_BUFFER_SIZE {
        ReadAllLaws(stream[SIZE_SIZE..], BodySize(count), h.script);
        if SIZE_SIZE <= count <= |stream| {
          assert stream[..count][..SIZE_SIZE] == stream[..SIZE_SIZE];
        }
      }
    }
  }

  /** Everything the turns consumed, wrote and called. */
  function Consumed<S>(turns: seq<Turn<S>>): seq<byte> {
    if turns == [] then [] else Consumed(turns[..|turns| - 1]) + turns[|turns| - 1].request
  }

  function Replied<S>(turns: seq<Turn<S>>): seq<byte> {
    if turns == [] then [] else Replied(turns[..|turns| - 1]) + turns[|turns| - 1].reply
  }

  function Made<S>(turns: seq<Turn<S>>): seq<Call> {
    if turns == [] then [] else Made(turns[..|turns| - 1]) + turns[|turns| - 1].made
  }

  lemma {:induction false} AppliedAfter<S>(apply: (S, Call) -> (S, Answer), s: S, first: seq<Call>, later: seq<Call>)
    ensures Applied(apply, s, first + later) == Applied(apply, Applied(apply, s, first), later)
    decreases |later|
  {
    if later == [] {
      assert first + later == first;
    } else {
      var n := |later| - 1;
      assert (first + later)[..|first + later| - 1] == first + later[..n];
      AppliedAfter(apply, s, first, later[..n]);
    }
  }

  /** Turns from `p` to `now` account for all input, all output and the backend. */
  ghost predicate Conserved<S>(apply: (S, Call) -> (S, Answer), p: Provider<S>, turns: seq<Turn<S>>, now: Provider<S>) {
    && p.stream == Consumed(turns) + now.stream
    && now.written == p.written + Replied(turns)
    && now.state == Applied(apply, p.state, Made(turns))
  }

  lemma NothingConserved<S>(apply: (S, Call) -> (S, Answer), p: Provider<S>)
    ensures Conserved(apply, p, [], p)
  {
    assert p.stream == [] + p.stream && p.written == p.written + [];
  }

  lemma StreamShrinks<S>(apply: (S, Call) -> (S, Answer), p: Provider<S>, turns: seq<Turn<S>>, now: Provider<S>)
    requires Conserved(apply, p, turns, now)
    ensures |now.stream| <= |p.stream|
  {
  }

  lemma ConservedMore<S>(apply: (S, Call) -> (S, Answer), p: Provider<S>, turns: seq<Turn<S>>, before: Provider<S>,
                         t: Turn<S>)
    requires Conserved(apply, p, turns, before)
    requires before.stream == t.request + t.after.stream && t.after.written == before.written + t.reply
    requires t.after.state == Applied(apply, before.state, t.made)
    ensures Conserved(apply, p, turns + [t], t.after)
  {
    assert (turns + [t])[..|turns|] == turns;
    hide Applied;
    AppliedAfter(apply, p.state, Made(turns), t.made);
    var consumed, replied := Consumed(turns), Replied(turns);
    assert consumed + (t.request + t.after.stream) == consumed + t.request + t.after.stream;
    assert p.written + replied + t.reply == p.written + (replied + t.reply);
  }

  /** Provider-run conservation. In every run, up to its last turn: the requests taken
      are the input so far, in order; every one was dispatched, with its one call and
      its one reply; the replies are the output so far, in the same order; and the
      backend is where those calls, in that order, leave it. */
  lemma {:induction false} RunConserves<S(!new)>(names: seq<Name>, apply: (S, Call) -> (S, Answer), p: Provider<S>,
                                                 run: Run<S>, n: nat)
    requires WellBehaved(apply) && NamesOk(names) && IsRun(names, apply, p, run) && |p.stream| < SIZE_T_RANGE
    requires n <= |run.turns| && (n > 0 ==> run.turns[n - 1].status == RPC_GOOD)
    ensures Conserved(apply, p, run.turns[..n], run.states[n])
    ensures forall k :: 0 <= k < n ==> Dispatched(run.turns[k], run.lucks[k].stale)
    decreases n
  {
    hide Served, WellBehaved, NamesOk, Dispatched, Conserved;
    if n == 0 {
      assert run.turns[..0] == [];
      NothingConserved(apply, p);
    } else {
      var k := n - 1;
      assert TurnOf(names, apply, run, k);
      assert k > 0 ==> TurnOf(names, apply, run, k - 1);
      RunConserves(names, apply, p, run, k);
      StreamShrinks(apply, p, run.turns[..k], run.states[k]);
      TurnConserves(names, apply, run.states[k], run.lucks[k]);
      assert run.turns[..n] == run.turns[..k] + [run.turns[k]];
      ConservedMore(apply, p, run.turns[..k], run.states[k], run.turns[k]);
    }
  }

  /** How a run ends: the failing turn either dispatched its request and could not send
      all of the reply, or it made no call, wrote nothing and left the backend alone. */
  lemma RunEnds<S(!new)>(names: seq<Name>, apply: (S, Call) -> (S, Answer), p: Provider<S>, run: Run<S>)
    requires WellBehaved(apply) && NamesOk(names) && IsRun(names, apply, p, run) && |run.turns| > 0
    requires |p.stream| < SIZE_T_RANGE
    requires run.turns[|run.turns| - 1].status != RPC_GOOD
    ensures var n := |run.turns| - 1;
            var t, before := run.turns[n], run.states[n];
            if t.reply == [] then
              t.made == [] && t.after.written == before.written && t.after.state == before.state
            else
              && Dispatched(t, run.lucks[n].stale) && t.status == RPC_BAD_CONNECTION_WRITE_ERROR
              && before.written <= t.after.written < before.written + t.reply
  {
    hide WellBehaved, NamesOk, Dispatched, Receive, Handle, WriteAll;
    var n := |run.turns| - 1;
    assert TurnOf(names, apply, run, n);
    assert n > 0 ==> TurnOf(names, apply, run, n - 1);
    RunConserves(names, apply, p, run, n);
    StreamShrinks(apply, p, run.turns[..n], run.states[n]);
    var before, luck := run.states[n], run.lucks[n];
    TurnConserves(names, apply, before, luck);
    ReceivedWhole(before.stream, before.reading);
    var got := Receive(before.stream, before.reading);
    if got.status == RPC_GOOD {
      var h := Handle(names, apply, before.state, luck.junk, got.frame + luck.stale, |got.frame|);
      HandledOrRefused(names, apply, before.state, luck.junk, got.frame + luck.stale, |got.frame|);
      WriteAllLaws(h.reply, before.writing);
    }
  }

  // ---------------------------------------------------------------- both ends together

  lemma OutStaysOut(call: Call, out: Slot)
    requires CallOk(call) && OutOk(call, out)
    ensures CallSizesOk(call) && ResultSlot(MethodOf(call)) + 1 < |ProxyMem(call, out)|
    ensures OutOf(call, out, ProxyMem(call, out)) == out
  {
    RequestLoads(call, out);
    ProxyReceives(call, out);
    hide TextOk, AllLoadable, Storable, Separate;
  }

  lemma NothingArrives(script: seq<Framing.Outcome>)
    requires NeverBroken(script)
    ensures Receive([], script).status == RPC_BAD_CONNECTION_CLOSED
  {
    EmptyReadCloses(SIZE_SIZE, script);
  }

  lemma {:induction false} EmptyReadCloses(need: nat, script: seq<Framing.Outcome>)
    requires need > 0 && NeverBroken(script)
    ensures ReadAll([], need, script).status == RPC_BAD_CONNECTION_CLOSED
    decreases |script|
  {
    if script != [] {
      assert script[0] in script && NeverBroken(script[1..]);
      if script[0].Retry? {
        EmptyReadCloses(need, script[1..]);
      }
    }
  }

  /** The proxy's turn: what its invocation makes of what the provider wrote. */
  ghost predicate ProxySees<S>(trip: Trip<S>, call: Call, out: Slot, s: S, stale: seq<byte>,
                               sending: seq<Framing.Outcome>, written: seq<byte>, receiving: seq<Framing.Outcome>)
    requires CallOk(call) && OutOk(call, out)
  {
    var i := ProxyInvoked(call, out, stale, sending, written, receiving);
    && ResultSlot(MethodOf(call)) + 1 < |i.mem|
    && i.sent == Request(call, out)
    && trip == Trip(s, i.status, Returned(call, i.status, ResultOf(call, i.mem)), OutOf(call, out, i.mem))
  }

  /** The provider's turn: it answers a request below the limit, and reads no other. */
  lemma RequestIsServed<S(!new)>(names: seq<Name>, apply: (S, Call) -> (S, Answer), s: S, junk: Junk,
                                 call: Call, out: Slot, w: Weather, stale: seq<byte>)
    requires WellBehaved(apply) && NamesOk(names) && Fair(w)
    requires CallOk(call) && AnswerOk(Arriving(call), Answered(names, apply, s, Arriving(call)).1)
    requires |Request(call, out)| < TWO_TO_32
    ensures var t := Served(names, apply, Provider(s, Request(call, out), w.arrival, [], w.reply), Luck(junk, stale));
            if |Request(call, out)| < MAX_BUFFER_SIZE then
              && t.status == RPC_GOOD && t.request == Request(call, out) && t.after.stream == []
              && t.reply == Reply(Arriving(call), Answered(names, apply, s, Arriving(call)).1, junk)
              && t.after.state == Answered(names, apply, s, Arriving(call)).0
              && t.after.written == Reply(Arriving(call), Answered(names, apply, s, Arriving(call)).1, junk)
            else
              t.after.state == s && t.after.written == []
  {
    var id, request := MethodOf(call), Request(call, out);
    var reply := Reply(Arriving(call), Answered(names, apply, s, Arriving(call)).1, junk);
    RequestLoads(call, out);
    hide ProxyIn, ProxyMem, MethodOf, AllLoadable, SerializeRows, Frame, Handle, Reply, AllKnown;
    hide WellBehaved, AnswerOk, CallOk, BigEndian, Receive, WriteAll, NeverBroken;
    FramesCountThemselves(id, SerializeRows(ProxyIn(id), ProxyMem(call, out)).payload);
    FrameDelivered(request, w.arrival);
    if |request| < MAX_BUFFER_SIZE {
      assert (request + stale)[..|request|] == request;
      RequestIsHandled(names, apply, s, junk, call, out, request + stale, |request|);
      WriteAllLaws(reply, w.reply);
      assert [] + reply == reply;
      DeliveredWhole(request, w.arrival);
    }
  }

  lemma DeliveredWhole(f: seq<byte>, script: seq<Framing.Outcome>)
    requires Receive(f, script).status == RPC_GOOD && Receive(f, script).frame == f && |f| < MAX_BUFFER_SIZE
    ensures f[Receive(f, script).taken..] == []
  {
    ReceivedWhole(f, script);
    var got := Receive(f, script);
    assert |f| == |got.frame| + |f[got.taken..]|;
  }

  /** A remote call is what the two ends do: the proxy's invocation sends the request,
      one turn of the service loop reads it and writes the reply, and the invocation
      ends with that reply. */
  lemma RemoteCallIsBothEnds<S(!new)>(names: seq<Name>, apply: (S, Call) -> (S, Answer), s: S, junk: Junk,
                                      call: Call, out: Slot, w: Weather, stale: seq<byte>)
    requires WellBehaved(apply) && NamesOk(names) && Fair(w)
    requires CallOk(call) && OutOk(call, out)
    requires AnswerOk(Arriving(call), Answered(names, apply, s, Arriving(call)).1)
    requires |Request(call, out)| < TWO_TO_32
    requires |Reply(Arriving(call), Answered(names, apply, s, Arriving(call)).1, junk)| < TWO_TO_32
    ensures var t := Served(names, apply, Provider(s, Request(call, out), w.arrival, [], w.reply), Luck(junk, stale));
            ProxySees(RemoteCall(names, apply, s, junk, call, out, w, stale), call, out, t.after.state, stale,
                         w.request, t.after.written, w.delivery)
  {
    var id, request := MethodOf(call), Request(call, out);
    var answer := Answered(names, apply, s, Arriving(call)).1;
    var reply := Reply(Arriving(call), answer, junk);
    RequestIsServed(names, apply, s, junk, call, out, w, stale);
    ReplyLoads(Arriving(call), answer, junk);
    RequestLoads(call, out);
    hide ProxyIn, ProxyMem, ProxyOut, StubOut, ReplyMem, MethodOf, AllLoadable, SerializeRows, Frame, Handle, AllKnown;
    hide WellBehaved, AnswerOk, CallOk, OutOk, BigEndian, Receive, WriteAll, NeverBroken, DeserializeRows;
    hide MethodId, ResultOf, OutOf, ResultSlot, Returned, Served, ProxySees, RemoteCall, Concluded;
    FramesCountThemselves(id, SerializeRows(StubOut(id), ReplyMem(Arriving(call), answer, junk)).payload);
    FrameDelivered(reply, w.delivery);
    NothingArrives(w.delivery);
    RemoteCallConcludes(names, apply, s, junk, call, out, w, stale);
    if |request| < MAX_BUFFER_SIZE {
      ProxyConcludes(Answered(names, apply, s, Arriving(call)).0, call, out, stale, w.request, reply, w.delivery);
    } else {
      ProxyConcludes(s, call, out, stale, w.request, [], w.delivery);
    }
  }

  /** How a call ends, given what its read of the reply returned. */
  ghost function Concluded<S>(s: S, call: Call, out: Slot, stale: seq<byte>, r: Received): Trip<S>
    requires CallOk(call) && OutOk(call, out)
  {
    if r.status != RPC_GOOD then Lost(s, call, r.status, out)
    else Finish(s, call, out, r.frame + stale, |r.frame|)
  }

  lemma InvokedReads(id: i32, ins: seq<Row>, outs: seq<Row>, mem: seq<Slot>, stale: seq<byte>,
                     sending: seq<Framing.Outcome>, stream: seq<byte>, receiving: seq<Framing.Outcome>)
    requires AllLoadable(ins, mem) && AllKnown(ins) && NeverBroken(sending)
    ensures var i := Invoked(id, ins, outs, mem, stale, sending, stream, receiving);
            var r := Receive(stream, receiving);
            && i.sent == Frame(id, SerializeRows(ins, mem).payload) && i.taken == r.taken
            && (r.status != RPC_GOOD ==> i.status == r.status && i.mem == mem)
            && (r.status == RPC_GOOD && MethodId(r.frame + stale, |r.frame|) != id ==>
                  i.status == RPC_BAD_INVALID_RESPONSE_METHOD_ID && i.mem == mem)
            && (r.status == RPC_GOOD && MethodId(r.frame + stale, |r.frame|) == id ==>
                  var d := DeserializeRows(outs, r.frame + stale, |r.frame|, DATA_OFFSET, mem);
                  i.status == d.status && i.mem == d.mem)
  {
    hide Receive, WriteAll, DeserializeRows, SerializeRows, MethodId, Frame, NeverBroken, AllLoadable, AllKnown;
    KnownSerialize(ins, mem);
    WriteAllLaws(Frame(id, SerializeRows(ins, mem).payload), sending);
  }

  lemma ProxyConcludes<S>(s: S, call: Call, out: Slot, stale: seq<byte>, sending: seq<Framing.Outcome>,
                          written: seq<byte>, receiving: seq<Framing.Outcome>)
    requires CallOk(call) && OutOk(call, out) && NeverBroken(sending)
    ensures ProxySees(Concluded(s, call, out, stale, Receive(written, receiving)), call, out, s, stale,
                      sending, written, receiving)
  {
    ProxyTables(call, out);
    OutStaysOut(call, out);
    RequestLoads(call, out);
    hide ProxyIn, ProxyMem, ProxyOut, MethodOf, AllLoadable, SerializeRows, Frame, AllKnown, CallOk, OutOk;
    hide Receive, WriteAll, NeverBroken, DeserializeRows, MethodId, ResultOf, OutOf, ResultSlot, Returned;
    hide Invoked;
    InvokedReads(MethodOf(call), ProxyIn(MethodOf(call)), ProxyOut(MethodOf(call)), ProxyMem(call, out), stale,
                 sending, written, receiving);
  }

  /** A remote call whose first three legs succeed is decided by the fourth. */
  lemma FourthLegDecides<S(!new)>(names: seq<Name>, apply: (S, Call) -> (S, Answer), s: S, junk: Junk,
                                  call: Call, out: Slot, w: Weather, stale: seq<byte>, h: Handled<S>)
    requires WellBehaved(apply) && NamesOk(names) && CallOk(call) && OutOk(call, out)
    requires WriteAll(Request(call, out), w.request).status == RPC_GOOD
    requires Receive(Request(call, out), w.arrival).status == RPC_GOOD
    requires Receive(Request(call, out), w.arrival).frame == Request(call, out)
    requires h == Handle(names, apply, s, junk, Request(call, out) + stale, |Request(call, out)|)
    requires h.status == RPC_GOOD && WriteAll(h.reply, w.reply).status == RPC_GOOD
    ensures RemoteCall(names, apply, s, junk, call, out, w, stale)
         == Concluded(h.state, call, out, stale, Receive(h.reply, w.delivery))
  {
    hide WellBehaved, NamesOk, CallOk, OutOk, Request, Receive, WriteAll, Handle, Finish, Lost;
  }

  lemma RemoteCallConcludes<S(!new)>(names: seq<Name>, apply: (S, Call) -> (S, Answer), s: S, junk: Junk,
                                     call: Call, out: Slot, w: Weather, stale: seq<byte>)
    requires WellBehaved(apply) && NamesOk(names) && Fair(w)
    requires CallOk(call) && OutOk(call, out)
    requires AnswerOk(Arriving(call), Answered(names, apply, s, Arriving(call)).1)
    requires |Request(call, out)| < TWO_TO_32
    ensures RemoteCall(names, apply, s, junk, call, out, w, stale)
         == if |Request(call, out)| < MAX_BUFFER_SIZE then
              Concluded(Answered(names, apply, s, Arriving(call)).0, call, out, stale,
                        Receive(Reply(Arriving(call), Answered(names, apply, s, Arriving(call)).1, junk), w.delivery))
            else Concluded(s, call, out, stale, Receive([], w.delivery))
  {
    var id, request := MethodOf(call), Request(call, out);
    var reply := Reply(Arriving(call), Answered(names, apply, s, Arriving(call)).1, junk);
    RequestLoads(call, out);
    hide ProxyIn, ProxyMem, MethodOf, AllLoadable, SerializeRows, Frame, Handle, AllKnown, Reply, Finish;
    hide WellBehaved, AnswerOk, CallOk, OutOk, BigEndian, Receive, WriteAll, NeverBroken, Returned, Lost;
    FramesCountThemselves(id, SerializeRows(ProxyIn(id), ProxyMem(call, out)).payload);
    WriteAllLaws(request, w.request);
    FrameDelivered(request, w.arrival);
    NothingArrives(w.delivery);
    if |request| < MAX_BUFFER_SIZE {
      hide RemoteCall, Concluded, Answered, Arriving;
      assert (request + stale)[..|request|] == request;
      RequestIsHandled(names, apply, s, junk, call, out, request + stale, |request|);
      WriteAllLaws(reply, w.reply);
      FourthLegDecides(names, apply, s, junk, call, out, w, stale,
                       Handle(names, apply, s, junk, request + stale, |request|));
    }
  }
}
