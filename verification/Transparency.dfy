/**
 The whole path of a call: proxy table, frame, pipe, stub, backend, frame, pipe, proxy.
 Its main result is that a remote call equals a direct one.
 */
module Transparency {
  import opened Words
  import opened Wire
  import opened WireLaws
  import opened Framing
  import opened Calls
  import opened Remote
  import opened Sizes

  /** What the four loops of one exchange meet: the client's write, the provider's
      read, the provider's write and the client's read. */
  datatype Weather = Weather(request: seq<Framing.Outcome>, arrival: seq<Framing.Outcome>,
                             reply: seq<Framing.Outcome>, delivery: seq<Framing.Outcome>)

  /** Chunks, retries and zero-length writes in any pattern, but no failing call. */
  ghost predicate Fair(w: Weather) {
    NeverBroken(w.request) && NeverBroken(w.arrival) && NeverBroken(w.reply) && NeverBroken(w.delivery)
  }

  /** What one remote call leaves behind: the backend, the status of the exchange, the
      proxy's return value and the caller's out object. */
  datatype Trip<+S> = Trip(state: S, status: int, result: int, out: Slot)

  /** A proxy function returns the decoded result, or -1 for a failed exchange; only the
      capability query returns the status of the exchange itself. */
  function Returned(call: Call, status: int, result: int): int {
    if call.ListOperations? then status else if status == RPC_GOOD then result else -1
  }

  /** A failed exchange that decoded nothing. */
  function Lost<S>(s: S, call: Call, status: int, out: Slot): Trip<S> {
    Trip(s, status, Returned(call, status, -1), out)
  }

  /** The proxy's end: a reply is accepted if it names the method and decodes. */
  ghost function Finish<S>(s: S, call: Call, out: Slot, data: seq<byte>, limit: nat): Trip<S>
    requires limit <= |data| && CallOk(call) && OutOk(call, out)
  {
    RequestLoads(call, out);
    ProxyReceives(call, out);
    if MethodId(data, limit) != MethodOf(call) then Lost(s, call, RPC_BAD_INVALID_RESPONSE_METHOD_ID, out)
    else
      var r := DeserializeRows(ProxyOut(MethodOf(call)), data, limit, DATA_OFFSET, ProxyMem(call, out));
      Trip(s, r.status, Returned(call, r.status, ResultOf(call, r.mem)), OutOf(call, out, r.mem))
  }

  /** One call through the whole stack, on pipes that start empty. Both buffers hold
      stale bytes behind the message. A provider that fails closes its end, which the
      client reads as end of file. */
  ghost function RemoteCall<S(!new)>(names: seq<Name>, apply: (S, Call) -> (S, Answer), s: S, junk: Junk,
                                     call: Call, out: Slot, w: Weather, stale: seq<byte>): Trip<S>
    requires WellBehaved(apply) && NamesOk(names) && CallOk(call) && OutOk(call, out)
  {
    RequestLoads(call, out);
    var request := Request(call, out);
    var sent := WriteAll(request, w.request);
    if sent.status != RPC_GOOD then Lost(s, call, sent.status, out)
    else
      var got := Receive(request, w.arrival);
      if got.status != RPC_GOOD then Lost(s, call, RPC_BAD_CONNECTION_CLOSED, out)
      else
        var handled := Handle(names, apply, s, junk, got.frame + stale, |got.frame|);
        if handled.status != RPC_GOOD then Lost(handled.state, call, RPC_BAD_CONNECTION_CLOSED, out)
        else
          var answered := WriteAll(handled.reply, w.reply);
          if answered.status != RPC_GOOD then
            Lost(handled.state, call, RPC_BAD_CONNECTION_CLOSED, out)
          else
            var back := Receive(handled.reply, w.delivery);
            if back.status != RPC_GOOD then Lost(handled.state, call, back.status, out)
            else Finish(handled.state, call, out, back.frame + stale, |back.frame|)
  }

  lemma FramesCountThemselves(id: int, payload: seq<byte>)
    requires 8 + |payload| < TWO_TO_32
    ensures Frame(id, payload)[..SIZE_SIZE] == BigEndian(4, |Frame(id, payload)|)
    ensures 8 + |payload| < MAX_BUFFER_SIZE ==> WellFramed(Frame(id, payload))
  {
    hide BigEndian, FromBigEndian;
    assert Frame(id, payload)[..4] == BigEndian(4, 8 + |payload|);
    U32RoundTrip(8 + |payload|);
  }

  /** A message below the limit is received as it was sent; one at or above it is not. */
  lemma FrameDelivered(f: seq<byte>, script: seq<Framing.Outcome>)
    requires CountsItself(f) && NeverBroken(script)
    ensures |f| < MAX_BUFFER_SIZE ==> Receive(f, script).status == RPC_GOOD && Receive(f, script).frame == f
    ensures |f| >= MAX_BUFFER_SIZE ==> Receive(f, script).status == RPC_BAD_MAX_MESSAGE_SIZE_EXCEEDED
  {
    hide BigEndian, FromBigEndian, NeverBroken, Receive;
    assert f + [] == f;
    SizeLimitIsExact(f, [], script);
    if |f| < MAX_BUFFER_SIZE {
      FrameArrives(f, [], script);
    }
  }

  /** The exchange succeeds and hands over what the provider answers. */
  lemma RemoteCallIsAnswered<S(!new)>(names: seq<Name>, apply: (S, Call) -> (S, Answer), s: S, junk: Junk,
                                      call: Call, out: Slot, w: Weather, stale: seq<byte>)
    requires WellBehaved(apply) && NamesOk(names) && TextOk(junk.text) && Fair(w)
    requires CallOk(call) && OutOk(call, out)
    requires RequestSize(call) < MAX_BUFFER_SIZE
    requires ReplySize(call, Answered(names, apply, s, Arriving(call)).1, junk) < MAX_BUFFER_SIZE
    ensures AnswerOk(Arriving(call), Answered(names, apply, s, Arriving(call)).1)
    ensures RemoteCall(names, apply, s, junk, call, out, w, stale)
         == Trip(Answered(names, apply, s, Arriving(call)).0, RPC_GOOD,
                 Answered(names, apply, s, Arriving(call)).1.result,
                 RemoteOut(call, out, Answered(names, apply, s, Arriving(call)).1, junk))
  {
    var id, request := MethodOf(call), Request(call, out);
    AnsweredOk(names, apply, s, Arriving(call));
    var answer := Answered(names, apply, s, Arriving(call)).1;
    var reply := Reply(Arriving(call), answer, junk);
    MessagesHaveSize(call, out, answer, junk);
    RequestLoads(call, out);
    ReplyLoads(Arriving(call), answer, junk);
    ProxyReceives(call, out);
    hide ProxyIn, ProxyMem, ProxyOut, StubOut, ReplyMem, MethodOf, AllLoadable, SerializeRows, Frame, Handle;
    hide WellBehaved, AnswerOk, CallOk, OutOk, RemoteOut, ResultOf, OutOf, ResultSlot, BigEndian, Receive, WriteAll;
    hide DeserializeRows, MethodId, NeverBroken, RequestSize, ReplySize, Arriving;
    FramesCountThemselves(id, SerializeRows(ProxyIn(id), ProxyMem(call, out)).payload);
    FramesCountThemselves(id, SerializeRows(StubOut(id), ReplyMem(Arriving(call), answer, junk)).payload);
    WriteAllLaws(request, w.request);
    FrameDelivered(request, w.arrival);
    assert (request + stale)[..|request|] == request;
    RequestIsHandled(names, apply, s, junk, call, out, request + stale, |request|);
    WriteAllLaws(reply, w.reply);
    FrameDelivered(reply, w.delivery);
    assert (reply + stale)[..|reply|] == reply;
    var r := ReplyArrives(call, out, answer, junk, reply + stale, |reply|);
  }

  /** Remote-call transparency. For every method, backend, state and arguments in the
      domain, and for every pattern of chunks and retries: when request and reply stay
      below 16 MiB, the backend ends in the state `after` of the direct call with the
      caller's own arguments, sizes cut to 32 bits; the caller gets the result of its
      `answer`; and a robust out object ends as the direct call leaves it. The capability
      query is answered by the stub itself. */
  lemma RemoteCallIsTransparent<S(!new)>(names: seq<Name>, apply: (S, Call) -> (S, Answer), s: S, junk: Junk,
                                         call: Call, out: Slot, w: Weather, stale: seq<byte>, after: S, answer: Answer)
    requires WellBehaved(apply) && NamesOk(names) && TextOk(junk.text) && Fair(w)
    requires CallOk(call) && OutOk(call, out)
    requires call.ListOperations? ==> after == s && answer == Answer(0, Offered(names))
    requires !call.ListOperations? ==> apply(s, Arriving(call)) == (after, answer)
    requires RequestSize(call) < 0x100_0000 && ReplySize(call, answer, junk) < 0x100_0000
    ensures AnswerOk(Arriving(call), answer)
    ensures var trip := RemoteCall(names, apply, s, junk, call, out, w, stale);
            && trip.state == after && trip.status == 0 && trip.result == answer.result
            && trip.out == RemoteOut(call, out, answer, junk)
            && (Robust(call, out, answer) ==> trip.out == DirectOut(call, out, answer))
  {
    AnsweredOk(names, apply, s, Arriving(call));
    assert Answered(names, apply, s, Arriving(call)) == (after, answer);
    RobustSurvives(call, out, answer, junk);
    hide RemoteCall, Robust, DirectOut, RemoteOut, CallOk, OutOk, AnswerOk, RequestSize, ReplySize, Fair, WellBehaved;
    RemoteCallIsAnswered(names, apply, s, junk, call, out, w, stale);
  }

  /** A remote `read`, byte for byte: the bytes the backend reports are in the caller's
      buffer, and the rest of it is as it was. */
  lemma RemoteReadCopies<S(!new)>(names: seq<Name>, apply: (S, Call) -> (S, Answer), s: S, junk: Junk,
                                  call: Call, out: Slot, w: Weather, stale: seq<byte>)
    requires WellBehaved(apply) && NamesOk(names) && TextOk(junk.text) && Fair(w)
    requires call.Read? && TextOk(call.path) && |call.path| + 33 < 0x100_0000
    requires out.Buf? && call.size <= |out.bytes| && call.size != BORROW
    requires apply(s, Arriving(call)).1.result + 16 < 0x100_0000
    ensures var answer, trip := apply(s, Arriving(call)).1, RemoteCall(names, apply, s, junk, call, out, w, stale);
            && trip.result == answer.result
            && trip.out.Buf? && |trip.out.bytes| == |out.bytes|
            && (answer.result > 0 ==> answer.wrote.WroteBytes? && answer.result <= |answer.wrote.bytes|)
            && forall i :: 0 <= i < |out.bytes| ==>
                 trip.out.bytes[i] == if i < answer.result then answer.wrote.bytes[i] else out.bytes[i]
  {
    var made := apply(s, Arriving(call));
    AnsweredOk(names, apply, s, Arriving(call));
    assert AnswerOk(Arriving(call), made.1);
    assert |Reported(made.1)| == if made.1.result > 0 then made.1.result else 0;
    RemoteReadOut(call, out, made.1, junk);
    hide RemoteCall, RemoteOut, DirectOut, Robust, Fair, WellBehaved, NamesOk, TextOk, Reported;
    RemoteCallIsTransparent(names, apply, s, junk, call, out, w, stale, made.0, made.1);
  }

  /** A remote `readlink`: the C string in the caller's buffer is the link's target, or as
      much of it as fits before a terminator. */
  lemma RemoteReadLinkPrints<S(!new)>(names: seq<Name>, apply: (S, Call) -> (S, Answer), s: S, junk: Junk,
                                      call: Call, out: Slot, w: Weather, stale: seq<byte>)
    requires WellBehaved(apply) && NamesOk(names) && TextOk(junk.text) && Fair(w)
    requires call.ReadLink? && TextOk(call.path) && |call.path| + 17 < 0x100_0000
    requires out.Buf? && call.size <= |out.bytes|
    requires var wrote := apply(s, Arriving(call)).1.wrote; wrote.WroteText? && |wrote.text| + 17 < 0x100_0000
    ensures var answer, trip := apply(s, Arriving(call)).1, RemoteCall(names, apply, s, junk, call, out, w, stale);
            var text := answer.wrote.text;
            && trip.result == answer.result
            && trip.out.Buf? && |trip.out.bytes| == |out.bytes| && |text| < call.size
            && CStr(trip.out.bytes, 0) == text
            && forall i :: |text| < i < |out.bytes| ==> trip.out.bytes[i] == out.bytes[i]
  {
    var made := apply(s, Arriving(call));
    AnsweredOk(names, apply, s, Arriving(call));
    assert AnswerOk(Arriving(call), made.1);
    RemoteReadLinkOut(call, out, made.1, junk);
    assert made.1.wrote.text[..|made.1.wrote.text|] == made.1.wrote.text;
    hide RemoteCall, RemoteOut, DirectOut, Robust, Fair, WellBehaved, NamesOk, TextOk, CStr;
    RemoteCallIsTransparent(names, apply, s, junk, call, out, w, stale, made.0, made.1);
  }

  lemma MessagesHaveSize(call: Call, out: Slot, answer: Answer, junk: Junk)
    requires CallOk(call) && AnswerOk(Arriving(call), answer)
    ensures |Request(call, out)| == RequestSize(call)
    ensures |Reply(Arriving(call), answer, junk)| == ReplySize(call, answer, junk)
  {
    RequestHasSize(call, out);
    ReplyHasSize(Arriving(call), answer, junk);
    hide RequestSize, AnswerOk, CallOk, Request, Reply, Reported, NamesSize, TextSize;
  }

  /** 16 MiB is exactly where remote calls stop working. A request of that size or more
      never reaches the backend; a reply of that size or more is lost after the backend has
      acted; the proxy returns -1 for both, and the out object is left alone. Only the
      capability query returns the status instead. */
  lemma RemoteCallWorksWithinLimit<S(!new)>(names: seq<Name>, apply: (S, Call) -> (S, Answer), s: S, junk: Junk,
                                            call: Call, out: Slot, w: Weather, stale: seq<byte>,
                                            after: S, answer: Answer)
    requires WellBehaved(apply) && NamesOk(names) && TextOk(junk.text) && Fair(w)
    requires CallOk(call) && OutOk(call, out)
    requires call.ListOperations? ==> after == s && answer == Answer(0, Offered(names))
    requires !call.ListOperations? ==> apply(s, Arriving(call)) == (after, answer)
    requires RequestSize(call) < 0x1_0000_0000 && ReplySize(call, answer, junk) < 0x1_0000_0000
    ensures var trip := RemoteCall(names, apply, s, junk, call, out, w, stale);
            && (trip.status == 0 <==> RequestSize(call) < 0x100_0000 && ReplySize(call, answer, junk) < 0x100_0000)
            && (RequestSize(call) >= 0x100_0000 ==> trip.state == s && trip.status == -5)
            && (RequestSize(call) < 0x100_0000 <= ReplySize(call, answer, junk) ==>
                  trip.state == after && trip.status == -6)
            && (trip.status != 0 ==>
                  trip.out == out && trip.result == if call.ListOperations? then trip.status else -1)
  {
    var id, request := MethodOf(call), Request(call, out);
    AnsweredOk(names, apply, s, Arriving(call));
    assert Answered(names, apply, s, Arriving(call)) == (after, answer);
    var reply := Reply(Arriving(call), answer, junk);
    MessagesHaveSize(call, out, answer, junk);
    RequestLoads(call, out);
    ReplyLoads(Arriving(call), answer, junk);
    hide Answered;
    if |request| < 0x100_0000 && |reply| < 0x100_0000 {
      hide RemoteCall;
      RemoteCallIsAnswered(names, apply, s, junk, call, out, w, stale);
    } else {
      hide ProxyIn, ProxyMem, ProxyOut, StubOut, ReplyMem, MethodOf, AllLoadable, SerializeRows, Frame, Handle;
      hide WellBehaved, AnswerOk, CallOk, OutOk, BigEndian, Receive, WriteAll, NeverBroken, Finish;
      hide RequestSize, ReplySize, Arriving;
      FramesCountThemselves(id, SerializeRows(ProxyIn(id), ProxyMem(call, out)).payload);
      FramesCountThemselves(id, SerializeRows(StubOut(id), ReplyMem(Arriving(call), answer, junk)).payload);
      WriteAllLaws(request, w.request);
      FrameDelivered(request, w.arrival);
      if |request| < 0x100_0000 {
        assert (request + stale)[..|request|] == request;
        RequestIsHandled(names, apply, s, junk, call, out, request + stale, |request|);
        WriteAllLaws(reply, w.reply);
        FrameDelivered(reply, w.delivery);
      }
    }
  }

  /** For a `write`, the limit is on its path and bytes together; a write of 16 MiB is
      one that fails, and does so without reaching the backend. */
  lemma LargeWriteFails<S(!new)>(names: seq<Name>, apply: (S, Call) -> (S, Answer), s: S, junk: Junk,
                                 path: Name, bytes: seq<byte>, offset: i64, handle: u64, out: Slot, w: Weather,
                                 stale: seq<byte>)
    requires WellBehaved(apply) && NamesOk(names) && TextOk(junk.text) && Fair(w)
    requires TextOk(path) && |path| + |bytes| + 33 < 0x1_0000_0000
    ensures RemoteCall(names, apply, s, junk, Write(path, bytes, offset, handle), out, w, stale).status == 0
            <==> |path| + |bytes| + 33 < 0x100_0000
    ensures |bytes| == 0x100_0000 ==>
              RemoteCall(names, apply, s, junk, Write(path, bytes, offset, handle), out, w, stale)
              == Trip(s, -5, -1, out)
  {
    var call := Write(path, bytes, offset, handle);
    var made := apply(s, call);
    AnsweredOk(names, apply, s, call);
    assert made == (made.0, made.1);
    hide WellBehaved, NamesOk, TextOk, RemoteCall;
    RemoteCallWorksWithinLimit(names, apply, s, junk, call, out, w, stale, made.0, made.1);
  }

  /** For a `read`, the limit is on the bytes that are reported. */
  lemma LargeReadFails<S(!new)>(names: seq<Name>, apply: (S, Call) -> (S, Answer), s: S, junk: Junk,
                                path: Name, size: u64, offset: i64, handle: u64, out: Slot, w: Weather,
                                stale: seq<byte>)
    requires WellBehaved(apply) && NamesOk(names) && TextOk(junk.text) && Fair(w)
    requires TextOk(path) && |path| + 33 < 0x100_0000
    requires out.Buf? && size <= |out.bytes| && size != BORROW
    ensures var answer := apply(s, Read(path, size % 0x1_0000_0000, offset, handle)).1;
            RemoteCall(names, apply, s, junk, Read(path, size, offset, handle), out, w, stale).status == 0
            <==> answer.result + 16 < 0x100_0000
  {
    var call := Read(path, size, offset, handle);
    AnsweredOk(names, apply, s, Arriving(call));
    var made := apply(s, Arriving(call));
    var answer := made.1;
    assert |Reported(answer)| == if answer.result > 0 then answer.result else 0;
    hide WellBehaved, NamesOk, TextOk, RemoteCall, Reported;
    RemoteCallWorksWithinLimit(names, apply, s, junk, call, out, w, stale, made.0, made.1);
  }

  // ---------------------------------------------------------------- where the two differ

  ghost predicate FitsVfsFormat(v: Vfs) {
    v.favail == 0 && v.fsid == 0 && v.flag == 0
  }

  /** The backend wrote the out object, in a form that fits the wire, or the object has no
      room for anything else. A `read` wrote nothing that it does not report, unless it was
      there before. */
  ghost predicate Robust(call: Call, out: Slot, answer: Answer)
    requires AnswerOk(Arriving(call), answer) && OutOk(call, out)
  {
    var wrote := answer.wrote;
    match call
    case GetAttr(_, _) => wrote.WroteStat? && FitsStatFormat(wrote.stat)
    case StatFs(_) => wrote.WroteVfs? && FitsVfsFormat(wrote.vfs)
    case Create(_, _, _) => wrote.WroteHandle?
    case Open(_, _) => wrote.WroteHandle?
    case ReadLink(_, size) => wrote.WroteText? || size == 0 || (size == 1 && out.bytes[0] == 0)
    case Read(_, _, _, _) =>
      wrote.WroteBytes? ==>
        forall k :: |Reported(answer)| <= k < |wrote.bytes| ==> wrote.bytes[k] == out.bytes[k]
    case _ => true
  }

  lemma RobustSurvives(call: Call, out: Slot, answer: Answer, junk: Junk)
    requires OutOk(call, out) && AnswerOk(Arriving(call), answer)
    ensures Robust(call, out, answer) ==> RemoteOut(call, out, answer, junk) == DirectOut(call, out, answer)
  {
    hide TextOk, TextsOk;
    if call.GetAttr? && answer.wrote.WroteStat? {
      StatIsLossless(answer.wrote.stat);
    } else if call.Read? && Robust(call, out, answer) {
      assert Copied(out.bytes, call.size, []) == out.bytes;
      if answer.wrote.WroteBytes? {
        UnreportedIsThere(out.bytes, call.size, answer);
      }
    }
  }

  lemma UnreportedIsThere(buffer: seq<byte>, size: nat, answer: Answer)
    requires size <= |buffer| && answer.wrote.WroteBytes? && answer.result <= |answer.wrote.bytes| <= size
    requires forall k :: |Reported(answer)| <= k < |answer.wrote.bytes| ==> answer.wrote.bytes[k] == buffer[k]
    ensures Copied(buffer, size, Reported(answer)) == Copied(buffer, size, answer.wrote.bytes)
  {
    var short, long := Copied(buffer, size, Reported(answer)), Copied(buffer, size, answer.wrote.bytes);
    forall k | 0 <= k < |buffer|
      ensures short[k] == long[k]
    {
    }
  }

  /** A fragile out object comes out different for some contents of the stub's own. */
  lemma FragileDiffers(call: Call, out: Slot, answer: Answer) returns (junk: Junk)
    requires OutOk(call, out) && AnswerOk(Arriving(call), answer) && !Robust(call, out, answer)
    ensures TextOk(junk.text)
    ensures RemoteOut(call, out, answer, junk) != DirectOut(call, out, answer)
  {
    var stat := Stat(0, 0, 0, 0, 0, 0, 0, 0, 0, 0, 0, 0, 0, 0, 0, 0);
    var vfs := Vfs(0, 0, 0, 0, 0, 0, 0, 0, 0, 0, 0);
    junk := Junk(stat, vfs, 0, []);
    match call {
      case GetAttr(_, _) =>
        junk := junk.(stat := stat.(ino := if out.stat.ino == 0 then 1 else 0));
        if answer.wrote.WroteStat? {
          StatIsLossless(answer.wrote.stat);
        }
      case StatFs(_) => junk := junk.(vfs := vfs.(bsize := if out.vfs.bsize == 0 then 1 else 0));
      case Create(_, _, _) => junk := junk.(handle := if out.bits64 == 0 then 1 else 0);
      case Open(_, _) => junk := junk.(handle := if out.bits64 == 0 then 1 else 0);
      case ReadLink(_, size) =>
        if size > 1 && out.bytes[0] == 0 {
          junk := junk.(text := [1]);
        }
        assert Printed(out.bytes, size, junk.text)[0] != out.bytes[0];
      case Read(_, size, _, _) =>
        var k :| |Reported(answer)| <= k < |answer.wrote.bytes| && answer.wrote.bytes[k] != out.bytes[k];
        assert Copied(out.bytes, size, Reported(answer))[k] == out.bytes[k];
        assert Copied(out.bytes, size, answer.wrote.bytes)[k] == answer.wrote.bytes[k];
      case _ =>
    }
  }

  /** The caller's out object ends as a direct call leaves it, whatever the stub's locals
      happen to hold, exactly when it is robust. */
  lemma OutObjectIsFaithful(call: Call, out: Slot, answer: Answer)
    requires OutOk(call, out) && AnswerOk(Arriving(call), answer)
    ensures Robust(call, out, answer) <==>
            forall junk: Junk | TextOk(junk.text) :: RemoteOut(call, out, answer, junk) == DirectOut(call, out, answer)
  {
    hide AnswerOk, OutOk, Robust, RemoteOut, DirectOut;
    if Robust(call, out, answer) {
      forall junk: Junk | TextOk(junk.text)
        ensures RemoteOut(call, out, answer, junk) == DirectOut(call, out, answer)
      {
        RobustSurvives(call, out, answer, junk);
      }
    } else {
      var junk := FragileDiffers(call, out, answer);
    }
  }

  /** A failed `open` that stores no handle leaves the caller's handle alone directly,
      and replaces it remotely. */
  lemma FailedOpenReplacesHandle()
    ensures var call, out, answer := Open([], 0), W64(7), Answer(-2, Nothing);
            var junk := Junk(Stat(0, 0, 0, 0, 0, 0, 0, 0, 0, 0, 0, 0, 0, 0, 0, 0), Vfs(0, 0, 0, 0, 0, 0, 0, 0, 0, 0, 0),
                             9, []);
            && CallOk(call) && OutOk(call, out) && AnswerOk(Arriving(call), answer)
            && DirectOut(call, out, answer) == W64(7)
            && RemoteOut(call, out, answer, junk) == W64(9)
  {
  }

  // ---------------------------------------------------------------- directory listings

  /** The names a backend offers directly: it stops after the first one the callback
      refuses. `refuses` sees the names offered so far. */
  function OfferedDirectly(refuses: seq<Name> -> bool, names: seq<Name>, offered: seq<Name>): seq<Name>
    decreases |names|
  {
    if names == [] then offered
    else if refuses(offered + [names[0]]) then offered + [names[0]]
    else OfferedDirectly(refuses, names[1..], offered + [names[0]])
  }

  /** The callback refuses once it has seen `k` of the names. */
  predicate RefusesAfter(refuses: seq<Name> -> bool, names: seq<Name>, offered: seq<Name>, k: nat)
    requires k <= |names|
  {
    refuses(offered + names[..k])
  }

  ghost predicate NeverRefusesEarly(refuses: seq<Name> -> bool, names: seq<Name>, offered: seq<Name>) {
    forall k :: 0 < k < |names| ==> !RefusesAfter(refuses, names, offered, k)
  }

  lemma RefusesLater(refuses: seq<Name> -> bool, names: seq<Name>, offered: seq<Name>, k: nat)
    requires k < |names|
    ensures RefusesAfter(refuses, names[1..], offered + [names[0]], k) == RefusesAfter(refuses, names, offered, k + 1)
  {
    assert offered + [names[0]] + names[1..][..k] == offered + names[..k + 1];
  }

  lemma {:induction false} OfferedPrefix(refuses: seq<Name> -> bool, names: seq<Name>, offered: seq<Name>)
    ensures OfferedDirectly(refuses, names, offered) <= offered + names
    ensures OfferedDirectly(refuses, names, offered) == offered + names <==> NeverRefusesEarly(refuses, names, offered)
    decreases |names|
  {
    if names == [] {
      assert offered + names == offered;
    } else {
      var rest, more := names[1..], offered + [names[0]];
      assert more + rest == offered + names;
      RefusesLater(refuses, names, offered, 0);
      assert more + rest[..0] == more;
      if refuses(more) {
        assert RefusesAfter(refuses, names, offered, 1);
        assert |names| > 1 ==> |more| < |offered + names|;
        assert |names| == 1 ==> more == offered + names;
      } else {
        hide RefusesAfter;
        OfferedPrefix(refuses, rest, more);
        forall k | 0 <= k < |rest|
          ensures RefusesAfter(refuses, rest, more, k) == RefusesAfter(refuses, names, offered, k + 1)
        {
          RefusesLater(refuses, names, offered, k);
        }
        assert forall k :: 0 < k < |names| ==>
          RefusesAfter(refuses, names, offered, k) == RefusesAfter(refuses, rest, more, k - 1);
      }
    }
  }

  /** Remotely every name is offered, because the stub's own callback never refuses and
      the proxy ignores what its callback returns. So the out object of a remote `readdir`
      is that of a direct one exactly when the callback refuses no name but possibly the
      last. */
  lemma ListingIsFaithful(refuses: seq<Name> -> bool, path: Name, offset: i64, handle: u64, offered: seq<Name>,
                          answer: Answer, junk: Junk)
    requires AnswerOk(ReadDir(path, offset, handle), answer)
    ensures RemoteOut(ReadDir(path, offset, handle), List(offered), answer, junk)
            == List(OfferedDirectly(refuses, answer.wrote.names, offered))
            <==> NeverRefusesEarly(refuses, answer.wrote.names, offered)
  {
    OfferedPrefix(refuses, answer.wrote.names, offered);
  }

  /** The same of the whole remote call. */
  lemma RemoteListingIsFaithful<S(!new)>(names: seq<Name>, apply: (S, Call) -> (S, Answer), s: S, junk: Junk,
                                         refuses: seq<Name> -> bool, path: Name, offset: i64, handle: u64,
                                         offered: seq<Name>, w: Weather, stale: seq<byte>)
    requires WellBehaved(apply) && NamesOk(names) && TextOk(junk.text) && Fair(w) && TextOk(path)
    requires |path| + 29 < 0x100_0000
    requires apply(s, ReadDir(path, offset, handle)).1.wrote.Offered?
    requires NamesSize(apply(s, ReadDir(path, offset, handle)).1.wrote.names) + 16 < 0x100_0000
    ensures var call := ReadDir(path, offset, handle);
            RemoteCall(names, apply, s, junk, call, List(offered), w, stale).out
            == List(OfferedDirectly(refuses, apply(s, call).1.wrote.names, offered))
            <==> NeverRefusesEarly(refuses, apply(s, call).1.wrote.names, offered)
  {
    var call := ReadDir(path, offset, handle);
    AnsweredOk(names, apply, s, call);
    hide WellBehaved, NamesOk, TextOk, RemoteCall, NeverRefusesEarly, OfferedDirectly, NamesSize, DirectOut, Robust;
    RemoteCallIsTransparent(names, apply, s, junk, call, List(offered), w, stale, apply(s, call).0, apply(s, call).1);
    ListingIsFaithful(refuses, path, offset, handle, offered, apply(s, call).1, junk);
  }

  /** A callback that refuses the first of two names: directly the second is never
      offered, remotely it is. */
  lemma FullListingRunsOn()
    ensures var names: seq<Name> := [[97], [98]];
            && OfferedDirectly(_ => true, names, []) == [[97]]
            && AnswerOk(ReadDir([], 0, 0), Answer(0, Offered(names)))
            && forall junk :: RemoteOut(ReadDir([], 0, 0), List([]), Answer(0, Offered(names)), junk) == List(names)
  {
    var names: seq<Name> := [[97], [98]];
    assert [] + [names[0]] == [[97]];
    assert [] + names == names;
  }

  // ---------------------------------------------------------------- no pointer escapes

  /** No slot points into the message buffer. */
  ghost predicate NoPointers(mem: seq<Slot>) {
    forall s :: 0 <= s < |mem| ==> !mem[s].Ptr?
  }

  /** The row copies: its string has a buffer size, its bytes are not asked for by pointer. */
  predicate Copies(row: Row, mem: seq<Slot>) {
    && (row.typ == RPC_STRING ==> !row.extra.Null?)
    && (row.typ == RPC_BYTES ==> HasSize(row, mem) && mem[row.extra.slot].bits64 != BORROW)
  }

  lemma {:induction false} CopyingRowsKeepNoPointers(ms: seq<Row>, data: seq<byte>, limit: nat, pos: nat,
                                                           mem: seq<Slot>)
    requires limit <= |data| && Separate(ms) && NoPointers(mem)
    requires forall k :: 0 <= k < |ms| ==> Copies(ms[k], mem)
    ensures NoPointers(DeserializeRows(ms, data, limit, pos, mem).mem)
    decreases |ms|
  {
    hide Parse, CStr, Printed, Copied;
    if ms == [] || !Known(ms[0].typ) {
    } else {
      match Parse(ClassOf(ms[0].typ), data, limit, pos)
      case Failed(names) =>
        assert Copies(ms[0], mem);
      case Done(view, next) =>
        assert Copies(ms[0], mem);
        var mem1 := Store(ms[0], view, data, mem);
        forall k | 0 <= k < |ms[1..]|
          ensures Copies(ms[1..][k], mem1)
        {
          assert Footprint(ms[0]) !! Footprint(ms[k + 1]);
          assert Copies(ms[k + 1], mem);
        }
        assert forall i, j :: 0 <= i < j < |ms[1..]| ==>
                 Footprint(ms[i + 1]) !! Footprint(ms[j + 1]) && ms[1..][i] == ms[i + 1] && ms[1..][j] == ms[j + 1];
        CopyingRowsKeepNoPointers(ms[1..], data, limit, next, mem1);
    }
  }

  /** Whatever bytes a reply holds, nothing a proxy hands to its caller points into the
      shared buffer, so a later call cannot change an earlier result. */
  lemma ProxyResultsDoNotEscape(call: Call, out: Slot, data: seq<byte>, limit: nat)
    requires CallOk(call) && OutOk(call, out) && !out.Ptr? && limit <= |data|
    ensures CallSizesOk(call)
    ensures NoPointers(DeserializeRows(ProxyOut(MethodOf(call)), data, limit, DATA_OFFSET, ProxyMem(call, out)).mem)
  {
    RequestLoads(call, out);
    ProxyReceives(call, out);
    ProxyRowsCopy(call, out);
    CopyingRowsKeepNoPointers(ProxyOut(MethodOf(call)), data, limit, DATA_OFFSET, ProxyMem(call, out));
  }

  lemma EarlyRowsCopy(call: Call, out: Slot)
    requires CallOk(call) && CallSizesOk(call) && OutOk(call, out) && !out.Ptr? && MethodOf(call) <= 10
    ensures NoPointers(ProxyMem(call, out))
    ensures forall k :: 0 <= k < |ProxyOut(MethodOf(call))| ==> Copies(ProxyOut(MethodOf(call))[k], ProxyMem(call, out))
  {
    hide TextOk;
  }

  lemma MiddleRowsCopy(call: Call, out: Slot)
    requires CallOk(call) && CallSizesOk(call) && OutOk(call, out) && !out.Ptr? && 10 < MethodOf(call) <= 17
    ensures NoPointers(ProxyMem(call, out))
    ensures forall k :: 0 <= k < |ProxyOut(MethodOf(call))| ==> Copies(ProxyOut(MethodOf(call))[k], ProxyMem(call, out))
  {
    hide TextOk;
  }

  lemma LateRowsCopy(call: Call, out: Slot)
    requires CallOk(call) && CallSizesOk(call) && OutOk(call, out) && !out.Ptr? && 17 < MethodOf(call)
    ensures NoPointers(ProxyMem(call, out))
    ensures forall k :: 0 <= k < |ProxyOut(MethodOf(call))| ==> Copies(ProxyOut(MethodOf(call))[k], ProxyMem(call, out))
  {
    hide TextOk;
  }

  lemma ProxyRowsCopy(call: Call, out: Slot)
    requires CallOk(call) && CallSizesOk(call) && OutOk(call, out) && !out.Ptr?
    ensures NoPointers(ProxyMem(call, out))
    ensures forall k :: 0 <= k < |ProxyOut(MethodOf(call))| ==> Copies(ProxyOut(MethodOf(call))[k], ProxyMem(call, out))
  {
    hide CallOk, OutOk, NoPointers, Copies, ProxyMem, ProxyOut, MethodOf;
    if MethodOf(call) <= 10 {
      EarlyRowsCopy(call, out);
    } else if MethodOf(call) <= 17 {
      MiddleRowsCopy(call, out);
    } else {
      LateRowsCopy(call, out);
    }
  }

  /** The exception is a `read` into a buffer said to have the largest size there is: that
      size asks the decoder to lend its bytes, and every reply that decodes leaves the
      caller a pointer. */
  lemma LargestSizeBorrows(path: Name, offset: i64, handle: u64, out: Slot, data: seq<byte>, limit: nat)
    requires limit <= |data|
    ensures var call := Read(path, 0xffff_ffff_ffff_ffff, offset, handle);
            var r := DeserializeRows(ProxyOut(MethodOf(call)), data, limit, DATA_OFFSET, ProxyMem(call, out));
            r.status == RPC_GOOD ==> |r.mem| == 6 && r.mem[5].Ptr?
  {
    hide Parse;
    var call := Read(path, BORROW, offset, handle);
    var rows, mem := ProxyOut(18), ProxyMem(call, out);
    var last := [Row(RPC_OUT, RPC_BYTES, 5, SizeAt(1))];
    assert rows[1..] == last && last[1..] == [];
    match Parse(ClassOf(RPC_INT), data, limit, DATA_OFFSET)
    case Failed(_) =>
    case Done(result, next) =>
      OneRowDecodes(rows, data, limit, DATA_OFFSET, mem, result, next);
      var mem1 := Store(rows[0], result, data, mem);
      assert |mem1| == 6 && mem1[1] == W64(BORROW);
      match Parse(ClassOf(RPC_BYTES), data, limit, next)
      case Failed(_) =>
      case Done(bytes, end) =>
        OneRowDecodes(last, data, limit, next, mem1, bytes, end);
  }
}
