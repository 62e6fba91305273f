/**
 Remote-call transparency: a call through proxy tables, wire and stub tables gives the
 backend the caller's arguments and the caller the backend's answer.
 */
module Remote {
  import opened Words
  import opened Wire
  import opened WireLaws
  import opened Calls

  // ---------------------------------------------------------------- one value across

  /** The receiving row holds what the sending row pointed to. */
  ghost predicate Arrived(sent: Row, source: seq<Slot>, received: Row, data: seq<byte>, before: seq<Slot>,
                          after: seq<Slot>)
    requires Known(sent.typ) && Loadable(sent, source)
  {
    && received.value < |before| == |after|
    && (IsWord32(sent.typ) && IsWord32(received.typ) ==>
          after[received.value] == W32(source[sent.value].bits32))
    && (sent.typ == RPC_SIZE && received.typ == RPC_SIZE ==>
          after[received.value] == W64(source[sent.value].bits64 % TWO_TO_32))
    && (IsWord64(sent.typ) && IsWord64(received.typ) ==>
          after[received.value] == W64(source[sent.value].bits64))
    && (sent.typ == RPC_STAT && received.typ == RPC_STAT ==>
          after[received.value] == StatSlot(StatProjection(source[sent.value].stat)))
    && (sent.typ == RPC_STATVFS && received.typ == RPC_STATVFS ==>
          after[received.value] == VfsSlot(VfsProjection(source[sent.value].vfs)))
    && (sent.typ == RPC_STRINGLIST && received.typ == RPC_STRINGLIST ==>
          && before[received.value].List?
          && after[received.value] == List(before[received.value].names + source[sent.value].names))
    && (sent.typ == RPC_STRING && received.typ == RPC_STRING ==>
          ArrivedText(source[sent.value].chars, received, data, before, after))
    && (sent.typ == RPC_BYTES && received.typ == RPC_BYTES ==>
          ArrivedBytes(source[sent.value].bytes[..source[sent.extra.slot].bits64], received, data, before, after))
  }

  ghost predicate ArrivedText(text: seq<byte>, received: Row, data: seq<byte>, before: seq<Slot>, after: seq<Slot>)
    requires received.value < |before| == |after|
  {
    if received.extra.Null? then
      after[received.value].Ptr? && CStr(data, after[received.value].offset) == text
    else
      && HasSize(received, before) && before[received.value].Buf?
      && before[received.extra.slot].bits64 <= |before[received.value].bytes|
      && after[received.value] == Buf(Printed(before[received.value].bytes, before[received.extra.slot].bits64, text))
  }

  ghost predicate ArrivedBytes(bytes: seq<byte>, received: Row, data: seq<byte>, before: seq<Slot>, after: seq<Slot>)
    requires received.value < |before| == |after|
  {
    && HasSize(received, before)
    && if before[received.extra.slot].bits64 == BORROW then
         && after[received.value].Ptr? && At(data, after[received.value].offset, bytes)
         && after[received.extra.slot].W64? && after[received.extra.slot].bits64 == |bytes|
       else
         && before[received.value].Buf?
         && before[received.extra.slot].bits64 <= |before[received.value].bytes|
         && after[received.value]
            == Buf(Copied(before[received.value].bytes, before[received.extra.slot].bits64, bytes))
  }

  lemma ValuesOfOne(w: Word)
    ensures ValuesOf([w]) == [w.value]
  {
    assert ValuesOf([w][1..]) == [];
  }

  lemma RowArrives(sent: Row, source: seq<Slot>, received: Row, data: seq<byte>, before: seq<Slot>, after: seq<Slot>)
    requires Known(sent.typ) && Loadable(sent, source) && |before| == |after|
    requires Takes(received, Load(sent, source)) && Holds(received, Load(sent, source), data, before, after)
    ensures Arrived(sent, source, received, data, before, after)
  {
    hide At, CStr, Printed, Copied, Widths;
    if IsWord32(sent.typ) || IsWord64(sent.typ) || sent.typ == RPC_SIZE {
      ValuesOfOne(Load(sent, source).words[0]);
    } else if sent.typ == RPC_STAT {
      StatCodec(source[sent.value].stat);
    } else if sent.typ == RPC_STATVFS {
      VfsCodec(source[sent.value].vfs);
    }
  }

  /** A whole table across the wire: the message decodes, and every row arrived. */
  lemma RowsArrive(sent: seq<Row>, source: seq<Slot>, received: seq<Row>, into: seq<Slot>, id: i32,
                   data: seq<byte>, limit: nat) returns (r: Decoded)
    requires WireCompatible(sent, received) && AllLoadable(sent, source)
    requires ItemsOk(LoadAll(sent, source))
    requires Separate(received) && forall k :: 0 <= k < |received| ==> Storable(received[k], into)
    requires |Frame(id, SerializeRows(sent, source).payload)| <= limit <= |data|
    requires data[..|Frame(id, SerializeRows(sent, source).payload)|] == Frame(id, SerializeRows(sent, source).payload)
    ensures MethodId(data, limit) == id
    ensures r == DeserializeRows(received, data, limit, DATA_OFFSET, into)
    ensures r.status == RPC_GOOD && r.pos == |Frame(id, SerializeRows(sent, source).payload)|
    ensures forall k :: 0 <= k < |received| ==> Arrived(sent[k], source, received[k], data, into, r.mem)
    ensures Untouched(received, into, r.mem)
  {
    hide Separate, Storable, Frame, MethodId, DeserializeRows, Holds, Untouched;
    TableRoundTrip(sent, source, received, into, id, data, limit);
    r := DeserializeRows(received, data, limit, DATA_OFFSET, into);
    forall k | 0 <= k < |received|
      ensures Arrived(sent[k], source, received[k], data, into, r.mem)
    {
      RowArrives(sent[k], source, received[k], data, into, r.mem);
    }
  }

  // ---------------------------------------------------------------- the request

  /** The message the proxy sends. */
  ghost function Request(call: Call, out: Slot): seq<byte>
    requires CallOk(call)
  {
    RequestLoads(call, out);
    Frame(MethodOf(call), SerializeRows(ProxyIn(MethodOf(call)), ProxyMem(call, out)).payload)
  }

  lemma RequestLoads(call: Call, out: Slot)
    requires CallOk(call)
    ensures CallSizesOk(call)
    ensures AllLoadable(ProxyIn(MethodOf(call)), ProxyMem(call, out))
    ensures AllKnown(ProxyIn(MethodOf(call)))
  {
    if MethodOf(call) <= 7 {
      RequestLoadsA(call, out);
    } else if MethodOf(call) <= 15 {
      RequestLoadsB(call, out);
    } else {
      RequestLoadsC(call, out);
    }
  }

  lemma RequestLoadsA(call: Call, out: Slot)
    requires CallOk(call) && MethodOf(call) <= 7
    ensures CallSizesOk(call)
    ensures AllLoadable(ProxyIn(MethodOf(call)), ProxyMem(call, out))
    ensures AllKnown(ProxyIn(MethodOf(call)))
  {
  }

  lemma RequestLoadsB(call: Call, out: Slot)
    requires CallOk(call) && 8 <= MethodOf(call) <= 15
    ensures CallSizesOk(call)
    ensures AllLoadable(ProxyIn(MethodOf(call)), ProxyMem(call, out))
    ensures AllKnown(ProxyIn(MethodOf(call)))
  {
  }

  lemma RequestLoadsC(call: Call, out: Slot)
    requires CallOk(call) && 16 <= MethodOf(call)
    ensures CallSizesOk(call)
    ensures AllLoadable(ProxyIn(MethodOf(call)), ProxyMem(call, out))
    ensures AllKnown(ProxyIn(MethodOf(call)))
  {
  }

  /** A string or bytes in the domain of the format, or any other object. */
  ghost predicate SlotOk(slot: Slot) {
    && (slot.Str? ==> TextOk(slot.chars))
    && (slot.Buf? ==> |slot.bytes| < TWO_TO_32)
    && (slot.List? ==> |slot.names| < TWO_TO_32 && TextsOk(slot.names))
  }

  lemma LoadedOk(row: Row, mem: seq<Slot>)
    requires Known(row.typ) && Loadable(row, mem) && SlotOk(mem[row.value])
    ensures ItemOk(Load(row, mem))
  {
    LoadedShape(row, mem);
  }

  /** Request arguments sit in the slots of their rows, all in the domain. */
  lemma RequestSlotsOk(call: Call, out: Slot)
    requires CallOk(call)
    ensures CallSizesOk(call)
    ensures |ProxyIn(MethodOf(call))| < |ProxyMem(call, out)|
    ensures forall k :: 0 <= k < |ProxyIn(MethodOf(call))| ==>
              ProxyIn(MethodOf(call))[k].value == k && SlotOk(ProxyMem(call, out)[k])
  {
    if MethodOf(call) <= 7 {
      RequestSlotsOkA(call, out);
    } else if MethodOf(call) <= 15 {
      RequestSlotsOkB(call, out);
    } else {
      RequestSlotsOkC(call, out);
    }
  }

  lemma RequestSlotsOkA(call: Call, out: Slot)
    requires CallOk(call) && 1 <= MethodOf(call) <= 7
    ensures CallSizesOk(call)
    ensures |ProxyIn(MethodOf(call))| < |ProxyMem(call, out)|
    ensures forall k :: 0 <= k < |ProxyIn(MethodOf(call))| ==>
              ProxyIn(MethodOf(call))[k].value == k && SlotOk(ProxyMem(call, out)[k])
  {
    hide TextOk;
  }

  lemma RequestSlotsOkB(call: Call, out: Slot)
    requires CallOk(call) && 8 <= MethodOf(call) <= 15
    ensures CallSizesOk(call)
    ensures |ProxyIn(MethodOf(call))| < |ProxyMem(call, out)|
    ensures forall k :: 0 <= k < |ProxyIn(MethodOf(call))| ==>
              ProxyIn(MethodOf(call))[k].value == k && SlotOk(ProxyMem(call, out)[k])
  {
    hide TextOk;
  }

  lemma RequestSlotsOkC(call: Call, out: Slot)
    requires CallOk(call) && 16 <= MethodOf(call) <= 23
    ensures CallSizesOk(call)
    ensures |ProxyIn(MethodOf(call))| < |ProxyMem(call, out)|
    ensures forall k :: 0 <= k < |ProxyIn(MethodOf(call))| ==>
              ProxyIn(MethodOf(call))[k].value == k && SlotOk(ProxyMem(call, out)[k])
  {
    hide TextOk;
  }

  lemma RequestItemsOk(call: Call, out: Slot)
    requires CallOk(call)
    ensures CallSizesOk(call)
    ensures AllLoadable(ProxyIn(MethodOf(call)), ProxyMem(call, out))
    ensures AllKnown(ProxyIn(MethodOf(call)))
    ensures ItemsOk(LoadAll(ProxyIn(MethodOf(call)), ProxyMem(call, out)))
  {
    hide ProxyIn, ProxyMem, CallOk, SlotOk, Loadable, Known, MethodOf, ItemOk;
    RequestLoads(call, out);
    RequestSlotsOk(call, out);
    var ms, mem := ProxyIn(MethodOf(call)), ProxyMem(call, out);
    forall k | 0 <= k < |ms|
      ensures ItemOk(LoadAll(ms, mem)[k])
    {
      LoadedOk(ms[k], mem);
    }
  }

  lemma StubReceives(id: int)
    requires IsMethod(id)
    ensures Separate(StubIn(id))
    ensures forall k :: 0 <= k < |StubIn(id)| ==> Storable(StubIn(id)[k], STUB_LOCALS)
  {
  }

  ghost predicate AllArrived(sent: seq<Row>, source: seq<Slot>, received: seq<Row>, data: seq<byte>,
                             before: seq<Slot>, after: seq<Slot>)
  {
    && |sent| == |received| && |before| == |after|
    && AllKnown(sent) && AllLoadable(sent, source)
    && forall k :: 0 <= k < |received| ==> Arrived(sent[k], source, received[k], data, before, after)
  }

  lemma FirstFour(sent: seq<Row>, source: seq<Slot>, received: seq<Row>, data: seq<byte>,
                  before: seq<Slot>, after: seq<Slot>)
    requires AllArrived(sent, source, received, data, before, after)
    ensures |sent| == |received|
    ensures |sent| > 0 ==> Known(sent[0].typ) && Loadable(sent[0], source)
                           && Arrived(sent[0], source, received[0], data, before, after)
    ensures |sent| > 1 ==> Known(sent[1].typ) && Loadable(sent[1], source)
                           && Arrived(sent[1], source, received[1], data, before, after)
    ensures |sent| > 2 ==> Known(sent[2].typ) && Loadable(sent[2], source)
                           && Arrived(sent[2], source, received[2], data, before, after)
    ensures |sent| > 3 ==> Known(sent[3].typ) && Loadable(sent[3], source)
                           && Arrived(sent[3], source, received[3], data, before, after)
  {
  }

  lemma ArgumentsArriveA(call: Call, out: Slot, data: seq<byte>, m: seq<Slot>)
    requires CallOk(call) && CallSizesOk(call) && 1 <= MethodOf(call) <= 7 && |m| == 6
    requires AllArrived(ProxyIn(MethodOf(call)), ProxyMem(call, out), StubIn(MethodOf(call)), data, STUB_LOCALS, m)
    ensures CallFrom(MethodOf(call), m, data) == Arriving(call)
  {
    hide CStr, Printed, Copied, StatProjection, VfsProjection, TextOk;
    var id := MethodOf(call);
    FirstFour(ProxyIn(id), ProxyMem(call, out), StubIn(id), data, STUB_LOCALS, m);
  }

  lemma ArgumentsArriveB(call: Call, out: Slot, data: seq<byte>, m: seq<Slot>)
    requires CallOk(call) && CallSizesOk(call) && 8 <= MethodOf(call) <= 15 && |m| == 6
    requires AllArrived(ProxyIn(MethodOf(call)), ProxyMem(call, out), StubIn(MethodOf(call)), data, STUB_LOCALS, m)
    ensures CallFrom(MethodOf(call), m, data) == Arriving(call)
  {
    hide CStr, Printed, Copied, StatProjection, VfsProjection, TextOk;
    var id := MethodOf(call);
    FirstFour(ProxyIn(id), ProxyMem(call, out), StubIn(id), data, STUB_LOCALS, m);
  }

  lemma ArgumentsArriveC(call: Call, out: Slot, data: seq<byte>, m: seq<Slot>)
    requires CallOk(call) && CallSizesOk(call) && 16 <= MethodOf(call) <= 23 && |m| == 6
    requires AllArrived(ProxyIn(MethodOf(call)), ProxyMem(call, out), StubIn(MethodOf(call)), data, STUB_LOCALS, m)
    ensures CallFrom(MethodOf(call), m, data) == Arriving(call)
  {
    hide CStr, Printed, Copied, StatProjection, VfsProjection, TextOk;
    var id := MethodOf(call);
    FirstFour(ProxyIn(id), ProxyMem(call, out), StubIn(id), data, STUB_LOCALS, m);
  }

  /** The stub decodes a request and makes the call the proxy was asked for, with a
      size_t cut to 32 bits. */
  lemma RequestArrives(call: Call, out: Slot, data: seq<byte>, limit: nat) returns (r: Decoded)
    requires CallOk(call)
    requires |Request(call, out)| <= limit <= |data| && data[..|Request(call, out)|] == Request(call, out)
    ensures MethodId(data, limit) == MethodOf(call)
    ensures r == DeserializeRows(StubIn(MethodOf(call)), data, limit, DATA_OFFSET, STUB_LOCALS)
    ensures r.status == RPC_GOOD
    ensures CallFrom(MethodOf(call), r.mem, data) == Arriving(call)
  {
    var id := MethodOf(call);
    RequestItemsOk(call, out);
    TablesAgree(id);
    StubReceives(id);
    assert |STUB_LOCALS| == 6;
    hide ProxyIn, ProxyMem, StubIn, Arrived, WireCompatible, Separate, Storable, AllLoadable, AllKnown;
    hide DeserializeRows, SerializeRows, ItemsOk, MethodId, Frame, CallFrom, MethodOf, Untouched;
    r := RowsArrive(ProxyIn(id), ProxyMem(call, out), StubIn(id), STUB_LOCALS, id, data, limit);
    SameLength(ProxyIn(id), StubIn(id));
    if id <= 7 {
      ArgumentsArriveA(call, out, data, r.mem);
    } else if id <= 15 {
      ArgumentsArriveB(call, out, data, r.mem);
    } else {
      ArgumentsArriveC(call, out, data, r.mem);
    }
  }

  lemma SameLength(sent: seq<Row>, received: seq<Row>)
    requires WireCompatible(sent, received)
    ensures |sent| == |received|
  {
  }

  // ---------------------------------------------------------------- the reply

  /** The message the stub sends back. */
  ghost function Reply(call: Call, answer: Answer, junk: Junk): seq<byte>
    requires AnswerOk(call, answer)
  {
    ReplyLoads(call, answer, junk);
    Frame(MethodOf(call), SerializeRows(StubOut(MethodOf(call)), ReplyMem(call, answer, junk)).payload)
  }

  lemma ReplyLoads(call: Call, answer: Answer, junk: Junk)
    requires AnswerOk(call, answer)
    ensures AllLoadable(StubOut(MethodOf(call)), ReplyMem(call, answer, junk))
    ensures AllKnown(StubOut(MethodOf(call)))
  {
    hide TextOk;
  }

  lemma ReplyItemsOk(call: Call, answer: Answer, junk: Junk)
    requires AnswerOk(call, answer) && TextOk(junk.text) && Arriving(call) == call
    ensures AllLoadable(StubOut(MethodOf(call)), ReplyMem(call, answer, junk))
    ensures AllKnown(StubOut(MethodOf(call)))
    ensures ItemsOk(LoadAll(StubOut(MethodOf(call)), ReplyMem(call, answer, junk)))
  {
    ReplyLoads(call, answer, junk);
    ReplySlotsOk(call, answer, junk);
    hide StubOut, ReplyMem, AnswerOk, SlotOk, Loadable, Known, MethodOf, ItemOk;
    var ms, mem := StubOut(MethodOf(call)), ReplyMem(call, answer, junk);
    forall k | 0 <= k < |ms|
      ensures ItemOk(LoadAll(ms, mem)[k])
    {
      LoadedOk(ms[k], mem);
    }
  }

  lemma ReplySlotsOk(call: Call, answer: Answer, junk: Junk)
    requires AnswerOk(call, answer) && TextOk(junk.text) && Arriving(call) == call
    ensures forall k :: 0 <= k < |StubOut(MethodOf(call))| ==>
              StubOut(MethodOf(call))[k].value < 3
              && SlotOk(ReplyMem(call, answer, junk)[StubOut(MethodOf(call))[k].value])
  {
    hide TextOk, TextsOk;
    ReplySlotsInDomain(call, answer, junk);
  }

  lemma ReplySlotsInDomain(call: Call, answer: Answer, junk: Junk)
    requires AnswerOk(call, answer) && TextOk(junk.text) && Arriving(call) == call
    ensures forall s :: 0 <= s < 3 ==> SlotOk(ReplyMem(call, answer, junk)[s])
  {
    hide TextOk, TextsOk;
  }

  predicate HasOut(call: Call) {
    || call.ListOperations? || call.GetAttr? || call.ReadLink? || call.ReadDir?
    || call.Create? || call.Open? || call.Read? || call.StatFs?
  }

  lemma ProxyReceives(call: Call, out: Slot)
    requires CallOk(call) && CallSizesOk(call) && OutOk(call, out)
    ensures Separate(ProxyOut(MethodOf(call)))
    ensures forall k :: 0 <= k < |ProxyOut(MethodOf(call))| ==>
              Storable(ProxyOut(MethodOf(call))[k], ProxyMem(call, out))
    ensures ResultSlot(MethodOf(call)) + 1 < |ProxyMem(call, out)|
  {
    if !HasOut(call) && MethodOf(call) <= 12 {
      ProxyReceivesPlain(call, out);
    } else if !HasOut(call) {
      ProxyReceivesLatePlain(call, out);
    } else if MethodOf(call) <= 5 {
      ProxyReceivesEarly(call, out);
    } else {
      ProxyReceivesLate(call, out);
    }
  }

  lemma ProxyReceivesPlain(call: Call, out: Slot)
    requires CallOk(call) && CallSizesOk(call) && OutOk(call, out)
    requires !HasOut(call) && MethodOf(call) <= 12
    ensures Separate(ProxyOut(MethodOf(call)))
    ensures forall k :: 0 <= k < |ProxyOut(MethodOf(call))| ==>
              Storable(ProxyOut(MethodOf(call))[k], ProxyMem(call, out))
    ensures ResultSlot(MethodOf(call)) + 1 < |ProxyMem(call, out)|
  {
    hide TextOk;
  }

  lemma ProxyReceivesLatePlain(call: Call, out: Slot)
    requires CallOk(call) && CallSizesOk(call) && OutOk(call, out)
    requires !HasOut(call) && MethodOf(call) > 12
    ensures Separate(ProxyOut(MethodOf(call)))
    ensures forall k :: 0 <= k < |ProxyOut(MethodOf(call))| ==>
              Storable(ProxyOut(MethodOf(call))[k], ProxyMem(call, out))
    ensures ResultSlot(MethodOf(call)) + 1 < |ProxyMem(call, out)|
  {
    hide TextOk;
  }

  lemma ProxyReceivesEarly(call: Call, out: Slot)
    requires CallOk(call) && CallSizesOk(call) && OutOk(call, out)
    requires HasOut(call) && MethodOf(call) <= 5
    ensures Separate(ProxyOut(MethodOf(call)))
    ensures forall k :: 0 <= k < |ProxyOut(MethodOf(call))| ==>
              Storable(ProxyOut(MethodOf(call))[k], ProxyMem(call, out))
    ensures ResultSlot(MethodOf(call)) + 1 < |ProxyMem(call, out)|
  {
    hide TextOk;
  }

  lemma ProxyReceivesLate(call: Call, out: Slot)
    requires CallOk(call) && CallSizesOk(call) && OutOk(call, out)
    requires HasOut(call) && MethodOf(call) > 5
    ensures Separate(ProxyOut(MethodOf(call)))
    ensures forall k :: 0 <= k < |ProxyOut(MethodOf(call))| ==>
              Storable(ProxyOut(MethodOf(call))[k], ProxyMem(call, out))
    ensures ResultSlot(MethodOf(call)) + 1 < |ProxyMem(call, out)|
  {
    hide TextOk;
  }

  /** What the proxy returns. */
  function ResultOf(call: Call, m: seq<Slot>): i64
    requires ResultSlot(MethodOf(call)) < |m|
  {
    var slot := m[ResultSlot(MethodOf(call))];
    if call.LSeek? then Signed64(Bits64(slot)) else Signed32(Bits32(slot))
  }

  /** The caller's out object, if the call has one. */
  function OutOf(call: Call, out: Slot, m: seq<Slot>): Slot
    requires ResultSlot(MethodOf(call)) + 1 < |m|
  {
    if HasOut(call) then m[ResultSlot(MethodOf(call)) + 1] else out
  }

  /** The bytes of a `read` that its stub puts on the wire: as many as were reported. */
  function Reported(answer: Answer): seq<byte> {
    if answer.wrote.WroteBytes? && 0 < answer.result <= |answer.wrote.bytes| then answer.wrote.bytes[..answer.result]
    else []
  }

  /** The caller's out object after a direct call of the backend. */
  function DirectOut(call: Call, out: Slot, answer: Answer): Slot
    requires AnswerOk(Arriving(call), answer) && OutOk(call, out)
  {
    var wrote := answer.wrote;
    match call
    case ListOperations => List(out.names + wrote.names)
    case ReadDir(_, _, _) => List(out.names + wrote.names)
    case GetAttr(_, _) => if wrote.WroteStat? then StatSlot(wrote.stat) else out
    case StatFs(_) => if wrote.WroteVfs? then VfsSlot(wrote.vfs) else out
    case Create(_, _, _) => if wrote.WroteHandle? then W64(wrote.handle) else out
    case Open(_, _) => if wrote.WroteHandle? then W64(wrote.handle) else out
    case ReadLink(_, size) => if wrote.WroteText? then Buf(Printed(out.bytes, size, wrote.text)) else out
    case Read(_, size, _, _) => if wrote.WroteBytes? then Buf(Copied(out.bytes, size, wrote.bytes)) else out
    case _ => out
  }

  /** The caller's out object after a call through the wire: what the backend wrote,
      or what the stub's own object happened to hold, through the codec. */
  function RemoteOut(call: Call, out: Slot, answer: Answer, junk: Junk): Slot
    requires AnswerOk(Arriving(call), answer) && OutOk(call, out)
  {
    var wrote := answer.wrote;
    match call
    case ListOperations => List(out.names + wrote.names)
    case ReadDir(_, _, _) => List(out.names + wrote.names)
    case GetAttr(_, _) => StatSlot(StatProjection(if wrote.WroteStat? then wrote.stat else junk.stat))
    case StatFs(_) => VfsSlot(VfsProjection(if wrote.WroteVfs? then wrote.vfs else junk.vfs))
    case Create(_, _, _) => W64(if wrote.WroteHandle? then wrote.handle else junk.handle)
    case Open(_, _) => W64(if wrote.WroteHandle? then wrote.handle else junk.handle)
    case ReadLink(_, size) =>
      Buf(Printed(out.bytes, size, if wrote.WroteText? then wrote.text else junk.text))
    case Read(_, size, _, _) => Buf(Copied(out.bytes, size, Reported(answer)))
    case _ => out
  }

  lemma ResultsArrive(call: Call, out: Slot, answer: Answer, junk: Junk, data: seq<byte>, m: seq<Slot>)
    requires CallOk(call) && CallSizesOk(call) && OutOk(call, out) && AnswerOk(Arriving(call), answer)
    requires AllArrived(StubOut(MethodOf(call)), ReplyMem(call, answer, junk), ProxyOut(MethodOf(call)), data,
                        ProxyMem(call, out), m)
    requires ResultSlot(MethodOf(call)) + 1 < |m|
    ensures ResultOf(call, m) == answer.result
    ensures OutOf(call, out, m) == RemoteOut(call, out, answer, junk)
  {
    hide Arrived, ProxyMem, StubOut, ProxyOut, ReplyMem, ResultOf, OutOf, RemoteOut, CallOk, AnswerOk, OutOk;
    if !HasOut(call) && MethodOf(call) <= 12 {
      ResultsArrivePlain(call, out, answer, junk, data, m);
    } else if !HasOut(call) {
      ResultsArriveLatePlain(call, out, answer, junk, data, m);
    } else if MethodOf(call) <= 5 {
      ResultsArriveEarly(call, out, answer, junk, data, m);
    } else if MethodOf(call) <= 17 {
      ResultsArriveLate(call, out, answer, junk, data, m);
    } else if MethodOf(call) == 18 {
      assert call.Read?;
      ResultsArriveRead(call, out, answer, junk, data, m);
    } else {
      assert call.StatFs?;
      ResultsArriveStatFs(call, out, answer, junk, data, m);
    }
  }

  lemma ResultsArrivePlain(call: Call, out: Slot, answer: Answer, junk: Junk, data: seq<byte>, m: seq<Slot>)
    requires CallOk(call) && CallSizesOk(call) && OutOk(call, out) && AnswerOk(Arriving(call), answer)
    requires !HasOut(call) && MethodOf(call) <= 12
    requires AllArrived(StubOut(MethodOf(call)), ReplyMem(call, answer, junk), ProxyOut(MethodOf(call)), data,
                        ProxyMem(call, out), m)
    requires ResultSlot(MethodOf(call)) + 1 < |m|
    ensures ResultOf(call, m) == answer.result
    ensures OutOf(call, out, m) == RemoteOut(call, out, answer, junk)
  {
    hide CStr, Printed, StatProjection, VfsProjection, TextOk, TextsOk;
    var id := MethodOf(call);
    FirstFour(StubOut(id), ReplyMem(call, answer, junk), ProxyOut(id), data, ProxyMem(call, out), m);
  }

  lemma ResultsArriveLatePlain(call: Call, out: Slot, answer: Answer, junk: Junk, data: seq<byte>, m: seq<Slot>)
    requires CallOk(call) && CallSizesOk(call) && OutOk(call, out) && AnswerOk(Arriving(call), answer)
    requires !HasOut(call) && MethodOf(call) > 12
    requires AllArrived(StubOut(MethodOf(call)), ReplyMem(call, answer, junk), ProxyOut(MethodOf(call)), data,
                        ProxyMem(call, out), m)
    requires ResultSlot(MethodOf(call)) + 1 < |m|
    ensures ResultOf(call, m) == answer.result
    ensures OutOf(call, out, m) == RemoteOut(call, out, answer, junk)
  {
    hide CStr, Printed, StatProjection, VfsProjection, TextOk, TextsOk;
    var id := MethodOf(call);
    FirstFour(StubOut(id), ReplyMem(call, answer, junk), ProxyOut(id), data, ProxyMem(call, out), m);
  }

  lemma ResultsArriveEarly(call: Call, out: Slot, answer: Answer, junk: Junk, data: seq<byte>, m: seq<Slot>)
    requires CallOk(call) && CallSizesOk(call) && OutOk(call, out) && AnswerOk(Arriving(call), answer)
    requires HasOut(call) && MethodOf(call) <= 5
    requires AllArrived(StubOut(MethodOf(call)), ReplyMem(call, answer, junk), ProxyOut(MethodOf(call)), data,
                        ProxyMem(call, out), m)
    requires ResultSlot(MethodOf(call)) + 1 < |m|
    ensures ResultOf(call, m) == answer.result
    ensures OutOf(call, out, m) == RemoteOut(call, out, answer, junk)
  {
    hide CStr, Printed, StatProjection, VfsProjection, TextOk, TextsOk;
    var id := MethodOf(call);
    FirstFour(StubOut(id), ReplyMem(call, answer, junk), ProxyOut(id), data, ProxyMem(call, out), m);
  }

  lemma ResultsArriveLate(call: Call, out: Slot, answer: Answer, junk: Junk, data: seq<byte>, m: seq<Slot>)
    requires CallOk(call) && CallSizesOk(call) && OutOk(call, out) && AnswerOk(Arriving(call), answer)
    requires HasOut(call) && 5 < MethodOf(call) <= 17
    requires AllArrived(StubOut(MethodOf(call)), ReplyMem(call, answer, junk), ProxyOut(MethodOf(call)), data,
                        ProxyMem(call, out), m)
    requires ResultSlot(MethodOf(call)) + 1 < |m|
    ensures ResultOf(call, m) == answer.result
    ensures OutOf(call, out, m) == RemoteOut(call, out, answer, junk)
  {
    hide CStr, Printed, StatProjection, VfsProjection, TextOk, TextsOk;
    var id := MethodOf(call);
    FirstFour(StubOut(id), ReplyMem(call, answer, junk), ProxyOut(id), data, ProxyMem(call, out), m);
  }

  lemma ReportedIsSent(call: Call, answer: Answer, junk: Junk)
    requires call.Read? && AnswerOk(Arriving(call), answer)
    ensures var mem := ReplyMem(call, answer, junk);
            && mem[1].Buf? && mem[2].W64? && mem[2].bits64 <= |mem[1].bytes|
            && mem[1].bytes[..mem[2].bits64] == Reported(answer)
  {
  }

  lemma ResultsArriveRead(call: Call, out: Slot, answer: Answer, junk: Junk, data: seq<byte>, m: seq<Slot>)
    requires CallOk(call) && CallSizesOk(call) && OutOk(call, out) && AnswerOk(Arriving(call), answer)
    requires call.Read?
    requires AllArrived(StubOut(MethodOf(call)), ReplyMem(call, answer, junk), ProxyOut(MethodOf(call)), data,
                        ProxyMem(call, out), m)
    requires ResultSlot(MethodOf(call)) + 1 < |m|
    ensures ResultOf(call, m) == answer.result
    ensures OutOf(call, out, m) == RemoteOut(call, out, answer, junk)
  {
    hide CStr, Printed, StatProjection, VfsProjection, TextOk, TextsOk;
    var id := MethodOf(call);
    FirstFour(StubOut(id), ReplyMem(call, answer, junk), ProxyOut(id), data, ProxyMem(call, out), m);
    ReportedIsSent(call, answer, junk);
  }

  lemma ResultsArriveStatFs(call: Call, out: Slot, answer: Answer, junk: Junk, data: seq<byte>, m: seq<Slot>)
    requires CallOk(call) && CallSizesOk(call) && OutOk(call, out) && AnswerOk(Arriving(call), answer)
    requires call.StatFs?
    requires AllArrived(StubOut(MethodOf(call)), ReplyMem(call, answer, junk), ProxyOut(MethodOf(call)), data,
                        ProxyMem(call, out), m)
    requires ResultSlot(MethodOf(call)) + 1 < |m|
    ensures ResultOf(call, m) == answer.result
    ensures OutOf(call, out, m) == RemoteOut(call, out, answer, junk)
  {
    hide CStr, Printed, StatProjection, VfsProjection, TextOk, TextsOk;
    var id := MethodOf(call);
    FirstFour(StubOut(id), ReplyMem(call, answer, junk), ProxyOut(id), data, ProxyMem(call, out), m);
  }

  /** A remote `read`, byte for byte: what the backend reported is in the caller's buffer,
      and the rest of it is as it was. */
  lemma RemoteReadOut(call: Call, out: Slot, answer: Answer, junk: Junk)
    requires call.Read? && AnswerOk(Arriving(call), answer) && OutOk(call, out)
    ensures var after := RemoteOut(call, out, answer, junk);
            && after.Buf? && |after.bytes| == |out.bytes|
            && forall i :: 0 <= i < |out.bytes| ==>
                 after.bytes[i] == if answer.wrote.WroteBytes? && i < answer.result then answer.wrote.bytes[i]
                                   else out.bytes[i]
  {
    CopiedAt(out.bytes, call.size, Reported(answer));
    hide Copied;
  }

  /** A remote `readlink`: the C string in the caller's buffer is the target, or as much of
      it as fits, and the rest of the buffer is as it was. */
  lemma RemoteReadLinkOut(call: Call, out: Slot, answer: Answer, junk: Junk)
    requires call.ReadLink? && AnswerOk(Arriving(call), answer) && OutOk(call, out) && TextOk(junk.text)
    ensures var after := RemoteOut(call, out, answer, junk);
            var text := if answer.wrote.WroteText? then answer.wrote.text else junk.text;
            && after.Buf? && |after.bytes| == |out.bytes|
            && (call.size == 0 ==> after == out)
            && (call.size > 0 ==>
                  var n := if |text| < call.size then |text| else call.size - 1;
                  && CStr(after.bytes, 0) == text[..n]
                  && forall i :: n < i < |out.bytes| ==> after.bytes[i] == out.bytes[i])
  {
    PrintedAt(out.bytes, call.size, if answer.wrote.WroteText? then answer.wrote.text else junk.text);
    hide Printed, CStr;
  }

  /** What a direct call leaves in the caller's out object, spelled out. */
  lemma DirectCallWrites(call: Call, out: Slot, answer: Answer)
    requires AnswerOk(Arriving(call), answer) && OutOk(call, out)
    ensures var after, wrote := DirectOut(call, out, answer), answer.wrote;
            && (wrote.Nothing? || !HasOut(call) ==> after == out)
            && (wrote.WroteStat? ==> after == StatSlot(wrote.stat))
            && (wrote.WroteVfs? ==> after == VfsSlot(wrote.vfs))
            && (wrote.WroteHandle? ==> after == W64(wrote.handle))
            && (wrote.Offered? ==> after == List(out.names + wrote.names))
            && (wrote.WroteText? ==>
                  && after.Buf? && |after.bytes| == |out.bytes| && CStr(after.bytes, 0) == wrote.text
                  && forall i :: |wrote.text| < i < |out.bytes| ==> after.bytes[i] == out.bytes[i])
            && (wrote.WroteBytes? ==>
                  && after.Buf? && |after.bytes| == |out.bytes|
                  && forall i :: 0 <= i < |out.bytes| ==>
                       after.bytes[i] == if i < |wrote.bytes| then wrote.bytes[i] else out.bytes[i])
  {
    if call.ReadLink? && answer.wrote.WroteText? {
      PrintedAt(out.bytes, call.size, answer.wrote.text);
      assert answer.wrote.text[..|answer.wrote.text|] == answer.wrote.text;
    } else if call.Read? && answer.wrote.WroteBytes? {
      CopiedAt(out.bytes, call.size, answer.wrote.bytes);
    }
  }

  /** The reply does not depend on the size that was asked for. */
  lemma ReplyIgnoresSize(call: Call, answer: Answer, junk: Junk)
    ensures ReplyMem(Arriving(call), answer, junk) == ReplyMem(call, answer, junk)
  {
  }

  /** The proxy decodes a reply into the answer that was sent. */
  lemma ReplyArrives(call: Call, out: Slot, answer: Answer, junk: Junk, data: seq<byte>, limit: nat)
    returns (r: Decoded)
    requires CallOk(call) && OutOk(call, out) && AnswerOk(Arriving(call), answer) && TextOk(junk.text)
    requires |Reply(Arriving(call), answer, junk)| <= limit <= |data|
    requires data[..|Reply(Arriving(call), answer, junk)|] == Reply(Arriving(call), answer, junk)
    ensures MethodId(data, limit) == MethodOf(call)
    ensures CallSizesOk(call)
    ensures r == DeserializeRows(ProxyOut(MethodOf(call)), data, limit, DATA_OFFSET, ProxyMem(call, out))
    ensures r.status == RPC_GOOD
    ensures ResultSlot(MethodOf(call)) + 1 < |r.mem|
    ensures ResultOf(call, r.mem) == answer.result
    ensures OutOf(call, out, r.mem) == RemoteOut(call, out, answer, junk)
    ensures call.Read? ==>
              var after := OutOf(call, out, r.mem);
              && after.Buf? && |after.bytes| == |out.bytes|
              && forall i :: 0 <= i < |out.bytes| ==>
                   after.bytes[i] == if answer.wrote.WroteBytes? && i < answer.result then answer.wrote.bytes[i]
                                     else out.bytes[i]
    ensures call.ReadLink? && call.size > 0 ==>
              var after := OutOf(call, out, r.mem);
              var text := if answer.wrote.WroteText? then answer.wrote.text else junk.text;
              after.Buf? && CStr(after.bytes, 0) == text[..if |text| < call.size then |text| else call.size - 1]
  {
    if call.Read? {
      RemoteReadOut(call, out, answer, junk);
    } else if call.ReadLink? {
      RemoteReadLinkOut(call, out, answer, junk);
    }
    hide CStr;
    var id := MethodOf(call);
    RequestLoads(call, out);
    ReplyItemsOk(Arriving(call), answer, junk);
    ReplyIgnoresSize(call, answer, junk);
    TablesAgree(id);
    ProxyReceives(call, out);
    hide ProxyIn, ProxyOut, ProxyMem, StubOut, Arrived, WireCompatible, Separate, Storable, AllLoadable, AllKnown;
    hide DeserializeRows, SerializeRows, ItemsOk, MethodId, Frame, MethodOf, Untouched, ReplyMem, AnswerOk, OutOk;
    hide CallOk, RemoteOut, OutOf, ResultOf, ResultSlot, Arriving;
    r := RowsArrive(StubOut(id), ReplyMem(call, answer, junk), ProxyOut(id), ProxyMem(call, out), id, data, limit);
    SameLength(StubOut(id), ProxyOut(id));
    ResultsArrive(call, out, answer, junk, data, r.mem);
  }

  // ---------------------------------------------------------------- the stub's callback

  datatype Handled<+S> = Handled(status: int, state: S, reply: seq<byte>, made: seq<Call>)

  /** A backend that keeps its contract whatever it is asked. */
  ghost predicate WellBehaved<S(!new)>(apply: (S, Call) -> (S, Answer)) {
    forall s, call :: AnswerOk(call, apply(s, call).1)
  }

  /** The provider's side of a call: the capability list is the stub's own answer,
      every other call goes to the backend. */
  function Answered<S>(names: seq<Name>, apply: (S, Call) -> (S, Answer), s: S, call: Call): (S, Answer) {
    if call.ListOperations? then (s, Answer(0, Offered(names))) else apply(s, call)
  }

  ghost predicate NamesOk(names: seq<Name>) {
    TextsOk(names) && |names| < TWO_TO_32
  }

  lemma AnsweredOk<S(!new)>(names: seq<Name>, apply: (S, Call) -> (S, Answer), s: S, call: Call)
    requires WellBehaved(apply) && NamesOk(names)
    ensures AnswerOk(call, Answered(names, apply, s, call).1)
  {
  }

  /** What the stub does with a received message: dispatch by id, decode, call, and
      encode the reply. A message that fails to decode or names no method makes no
      call and gets no reply. */
  ghost function Handle<S(!new)>(names: seq<Name>, apply: (S, Call) -> (S, Answer), s: S, junk: Junk,
                                 data: seq<byte>, limit: nat): Handled<S>
    requires limit <= |data| && WellBehaved(apply) && NamesOk(names)
  {
    var id := MethodId(data, limit);
    if !IsMethod(id) then Handled(RPC_BAD, s, [], [])
    else
      var r := DeserializeRows(StubIn(id), data, limit, DATA_OFFSET, STUB_LOCALS);
      if r.status != RPC_GOOD then Handled(r.status, s, [], [])
      else
        var call := CallFrom(id, r.mem, data);
        var (s', answer) := Answered(names, apply, s, call);
        AnsweredOk(names, apply, s, call);
        Handled(RPC_GOOD, s', Reply(call, answer, junk), if call.ListOperations? then [] else [call])
  }

  lemma CallHasItsMethod(id: int, m: seq<Slot>, data: seq<byte>)
    requires IsMethod(id) && |m| == 6
    ensures MethodOf(CallFrom(id, m, data)) == id
  {
    hide CallFrom, MethodOf;
    if id <= 11 {
      EarlyCall(id, m, data);
    } else {
      LateCall(id, m, data);
    }
  }

  lemma EarlyCall(id: int, m: seq<Slot>, data: seq<byte>)
    requires 1 <= id <= 11 && |m| == 6
    ensures MethodOf(CallFrom(id, m, data)) == id
  {
    hide CStr, Pointed, Signed32, Unsigned32, Signed64;
  }

  lemma LateCall(id: int, m: seq<Slot>, data: seq<byte>)
    requires 11 < id <= 23 && |m| == 6
    ensures MethodOf(CallFrom(id, m, data)) == id
  {
    hide CStr, Pointed, Signed32, Unsigned32, Signed64;
  }

  /** A request is answered with the backend's answer to the proxy's own call. */
  lemma RequestIsHandled<S(!new)>(names: seq<Name>, apply: (S, Call) -> (S, Answer), s: S, junk: Junk,
                                  call: Call, out: Slot, data: seq<byte>, limit: nat)
    requires WellBehaved(apply) && NamesOk(names)
    requires CallOk(call)
    requires |Request(call, out)| <= limit <= |data| && data[..|Request(call, out)|] == Request(call, out)
    ensures AnswerOk(Arriving(call), Answered(names, apply, s, Arriving(call)).1)
    ensures Handle(names, apply, s, junk, data, limit)
         == Handled(RPC_GOOD, Answered(names, apply, s, Arriving(call)).0,
                    Reply(Arriving(call), Answered(names, apply, s, Arriving(call)).1, junk),
                    if call.ListOperations? then [] else [Arriving(call)])
  {
    var r := RequestArrives(call, out, data, limit);
    hide DeserializeRows, MethodId, CallFrom, Reply, AnswerOk, WellBehaved;
    AnsweredOk(names, apply, s, Arriving(call));
  }

  // ---------------------------------------------------------------- the reply stands alone

  /** No object a stub replies with is a pointer into the message buffer, so the reply
      never reads from the request it overwrites. */
  lemma ReplyHoldsNoPointers(call: Call, answer: Answer, junk: Junk)
    ensures forall s :: 0 <= s < |ReplyMem(call, answer, junk)| ==> !ReplyMem(call, answer, junk)[s].Ptr?
  {
  }
}
