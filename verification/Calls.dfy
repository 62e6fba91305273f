/**
 The 23 file system methods: the calls, the argument tables of the proxy
 (fs/proxy.c) and of the stub (fs/stub_operations.c), and the objects they point to.

 Both halves of every signature are written out, as they are in the source; that
 they agree on the wire is proved in `TablesAgree`.
 */
module Calls {
  import opened Words
  import opened Wire
  import opened WireLaws

  type Name = seq<byte>

  /** A call of a file system operation, with its arguments. */
  datatype Call =
    | ListOperations
    | GetAttr(path: Name, handle: u64)
    | Access(path: Name, mask: i32)
    | ReadLink(path: Name, size: u64)
    | ReadDir(path: Name, offset: i64, handle: u64)
    | MkNod(path: Name, mode: u32, rdev: u64)
    | MkDir(path: Name, mode: u32)
    | SymLink(source: Name, target: Name)
    | Unlink(path: Name)
    | RmDir(path: Name)
    | Rename(source: Name, target: Name, renameFlags: u32)
    | Link(source: Name, target: Name)
    | ChMod(path: Name, mode: u32)
    | ChOwn(path: Name, uid: u32, gid: u32)
    | Truncate(path: Name, length: i64, handle: u64)
    | Create(path: Name, mode: u32, flags: i32)
    | Open(path: Name, flags: i32)
    | Read(path: Name, size: u64, offset: i64, handle: u64)
    | Write(path: Name, bytes: seq<byte>, offset: i64, handle: u64)
    | StatFs(path: Name)
    | Release(path: Name, handle: u64)
    | FSync(path: Name, isdatasync: i32, handle: u64)
    | LSeek(path: Name, offset: i64, whence: i32, handle: u64)

  /** What an operation stored through its out parameter, if anything. */
  datatype Wrote =
    | Nothing
    | WroteStat(stat: Stat)
    | WroteVfs(vfs: Vfs)
    | WroteHandle(handle: u64)
    | WroteText(text: Name)
    | WroteBytes(bytes: seq<byte>)
    | Offered(names: seq<Name>)

  datatype Answer = Answer(result: i64, wrote: Wrote)

  const FIRST_METHOD: int := 1
  const LAST_METHOD: int := 23

  predicate IsMethod(id: int) { FIRST_METHOD <= id <= LAST_METHOD }

  function MethodOf(call: Call): (id: i32)
    ensures IsMethod(id)
  {
    match call
    case ListOperations => 1
    case GetAttr(_, _) => 2
    case Access(_, _) => 3
    case ReadLink(_, _) => 4
    case ReadDir(_, _, _) => 5
    case MkNod(_, _, _) => 6
    case MkDir(_, _) => 7
    case SymLink(_, _) => 8
    case Unlink(_) => 9
    case RmDir(_) => 10
    case Rename(_, _, _) => 11
    case Link(_, _) => 12
    case ChMod(_, _) => 13
    case ChOwn(_, _, _) => 14
    case Truncate(_, _, _) => 15
    case Create(_, _, _) => 16
    case Open(_, _) => 17
    case Read(_, _, _, _) => 18
    case Write(_, _, _, _) => 19
    case StatFs(_) => 20
    case Release(_, _) => 21
    case FSync(_, _, _) => 22
    case LSeek(_, _, _, _) => 23
  }

  // ---------------------------------------------------------------- tables

  function In(typ: int, value: nat): Row { Row(RPC_IN, typ, value, Null) }

  function Out(typ: int, value: nat): Row { Row(RPC_OUT, typ, value, Null) }

  const END: Row := Row(RPC_END, RPC_NONE, 0, Null)

  /** The request half of the proxy's tables. */
  function ProxyIn(id: int): seq<Row>
    requires IsMethod(id)
  {
    match id
    case 1 => []
    case 2 => [In(RPC_STRING, 0), In(RPC_UINT64, 1)]
    case 3 => [In(RPC_STRING, 0), In(RPC_INT, 1)]
    case 4 => [In(RPC_STRING, 0), In(RPC_SIZE, 1)]
    case 5 => [In(RPC_STRING, 0), In(RPC_OFFSET, 1), In(RPC_UINT64, 2)]
    case 6 => [In(RPC_STRING, 0), In(RPC_MODE, 1), In(RPC_DEV, 2)]
    case 7 => [In(RPC_STRING, 0), In(RPC_MODE, 1)]
    case 8 => [In(RPC_STRING, 0), In(RPC_STRING, 1)]
    case 9 => [In(RPC_STRING, 0)]
    case 10 => [In(RPC_STRING, 0)]
    case 11 => [In(RPC_STRING, 0), In(RPC_STRING, 1), In(RPC_INT, 2)]
    case 12 => [In(RPC_STRING, 0), In(RPC_STRING, 1)]
    case 13 => [In(RPC_STRING, 0), In(RPC_MODE, 1)]
    case 14 => [In(RPC_STRING, 0), In(RPC_UID, 1), In(RPC_GID, 2)]
    case 15 => [In(RPC_STRING, 0), In(RPC_OFFSET, 1), In(RPC_UINT64, 2)]
    case 16 => [In(RPC_STRING, 0), In(RPC_MODE, 1), In(RPC_INT, 2)]
    case 17 => [In(RPC_STRING, 0), In(RPC_MODE, 1)]
    case 18 => [In(RPC_STRING, 0), In(RPC_SIZE, 1), In(RPC_OFFSET, 2), In(RPC_UINT64, 3)]
    case 19 => [In(RPC_STRING, 0), Row(RPC_IN, RPC_BYTES, 1, SizeAt(5)), In(RPC_OFFSET, 2), In(RPC_UINT64, 3)]
    case 20 => [In(RPC_STRING, 0)]
    case 21 => [In(RPC_STRING, 0), In(RPC_UINT64, 1)]
    case 22 => [In(RPC_STRING, 0), In(RPC_INT, 1), In(RPC_UINT64, 2)]
    case _ => [In(RPC_STRING, 0), In(RPC_OFFSET, 1), In(RPC_INT, 2), In(RPC_UINT64, 3)]
  }

  /** Where a method's result goes: behind its request arguments. */
  function ResultSlot(id: int): nat
    requires IsMethod(id)
  {
    |ProxyIn(id)|
  }

  /** The reply half of the proxy's tables. */
  function ProxyOut(id: int): seq<Row>
    requires IsMethod(id)
  {
    var r := ResultSlot(id);
    match id
    case 1 => [Out(RPC_INT, r), Row(RPC_OUT, RPC_STRINGLIST, r + 1, Callback)]
    case 2 => [Out(RPC_INT, r), Out(RPC_STAT, r + 1)]
    case 4 => [Out(RPC_INT, r), Row(RPC_OUT, RPC_STRING, r + 1, SizeAt(1))]
    case 5 => [Out(RPC_INT, r), Row(RPC_OUT, RPC_STRINGLIST, r + 1, Callback)]
    case 16 => [Out(RPC_INT, r), Out(RPC_UINT64, r + 1)]
    case 17 => [Out(RPC_INT, r), Out(RPC_UINT64, r + 1)]
    case 18 => [Out(RPC_INT, r), Row(RPC_OUT, RPC_BYTES, r + 1, SizeAt(1))]
    case 20 => [Out(RPC_INT, r), Out(RPC_STATVFS, r + 1)]
    case 23 => [Out(RPC_OFFSET, r)]
    case _ => [Out(RPC_INT, r)]
  }

  function ProxyRows(id: int): seq<Row>
    requires IsMethod(id)
  {
    ProxyIn(id) + ProxyOut(id) + [END]
  }

  /** The request half of the stub's tables. It differs from the proxy's in the type
      of the flags of `open`, and its strings and bytes are borrowed. */
  function StubIn(id: int): seq<Row>
    requires IsMethod(id)
  {
    match id
    case 1 => []
    case 2 => [In(RPC_STRING, 0), In(RPC_UINT64, 1)]
    case 3 => [In(RPC_STRING, 0), In(RPC_INT, 1)]
    case 4 => [In(RPC_STRING, 0), In(RPC_SIZE, 1)]
    case 5 => [In(RPC_STRING, 0), In(RPC_OFFSET, 1), In(RPC_UINT64, 2)]
    case 6 => [In(RPC_STRING, 0), In(RPC_MODE, 1), In(RPC_DEV, 2)]
    case 7 => [In(RPC_STRING, 0), In(RPC_MODE, 1)]
    case 8 => [In(RPC_STRING, 0), In(RPC_STRING, 1)]
    case 9 => [In(RPC_STRING, 0)]
    case 10 => [In(RPC_STRING, 0)]
    case 11 => [In(RPC_STRING, 0), In(RPC_STRING, 1), In(RPC_INT, 2)]
    case 12 => [In(RPC_STRING, 0), In(RPC_STRING, 1)]
    case 13 => [In(RPC_STRING, 0), In(RPC_MODE, 1)]
    case 14 => [In(RPC_STRING, 0), In(RPC_UID, 1), In(RPC_GID, 2)]
    case 15 => [In(RPC_STRING, 0), In(RPC_OFFSET, 1), In(RPC_UINT64, 2)]
    case 16 => [In(RPC_STRING, 0), In(RPC_MODE, 1), In(RPC_INT, 2)]
    case 17 => [In(RPC_STRING, 0), In(RPC_INT, 1)]
    case 18 => [In(RPC_STRING, 0), In(RPC_SIZE, 1), In(RPC_OFFSET, 2), In(RPC_UINT64, 3)]
    case 19 => [In(RPC_STRING, 0), Row(RPC_IN, RPC_BYTES, 1, SizeAt(5)), In(RPC_OFFSET, 2), In(RPC_UINT64, 3)]
    case 20 => [In(RPC_STRING, 0)]
    case 21 => [In(RPC_STRING, 0), In(RPC_UINT64, 1)]
    case 22 => [In(RPC_STRING, 0), In(RPC_INT, 1), In(RPC_UINT64, 2)]
    case _ => [In(RPC_STRING, 0), In(RPC_OFFSET, 1), In(RPC_INT, 2), In(RPC_UINT64, 3)]
  }

  /** The reply half of the stub's tables; the result is at 0, the out object at 1. */
  function StubOut(id: int): seq<Row>
    requires IsMethod(id)
  {
    match id
    case 1 => [Out(RPC_INT, 0), Out(RPC_STRINGLIST, 1)]
    case 2 => [Out(RPC_INT, 0), Out(RPC_STAT, 1)]
    case 4 => [Out(RPC_INT, 0), Out(RPC_STRING, 1)]
    case 5 => [Out(RPC_INT, 0), Out(RPC_STRINGLIST, 1)]
    case 16 => [Out(RPC_INT, 0), Out(RPC_UINT64, 1)]
    case 17 => [Out(RPC_INT, 0), Out(RPC_UINT64, 1)]
    case 18 => [Out(RPC_INT, 0), Row(RPC_OUT, RPC_BYTES, 1, SizeAt(2))]
    case 20 => [Out(RPC_INT, 0), Out(RPC_STATVFS, 1)]
    case 23 => [Out(RPC_OFFSET, 0)]
    case _ => [Out(RPC_INT, 0)]
  }

  function StubInRows(id: int): seq<Row>
    requires IsMethod(id)
  {
    StubIn(id) + [END]
  }

  function StubOutRows(id: int): seq<Row>
    requires IsMethod(id)
  {
    StubOut(id) + [END]
  }

  /** Every hand-written pair of tables agrees on the wire, in both directions, though
      the two halves of `open` name different types. */
  lemma TablesAgree(id: int)
    requires IsMethod(id)
    ensures WireCompatible(ProxyIn(id), StubIn(id))
    ensures WireCompatible(StubOut(id), ProxyOut(id))
  {
    if id <= 12 {
      EarlyTablesAgree(id);
    } else {
      LateTablesAgree(id);
    }
  }

  lemma EarlyTablesAgree(id: int)
    requires 1 <= id <= 12
    ensures WireCompatible(ProxyIn(id), StubIn(id))
    ensures WireCompatible(StubOut(id), ProxyOut(id))
  {
  }

  lemma LateTablesAgree(id: int)
    requires 12 < id <= 23
    ensures WireCompatible(ProxyIn(id), StubIn(id))
    ensures WireCompatible(StubOut(id), ProxyOut(id))
  {
  }

  lemma {:induction false} MatchingOfHalves(direction: int, same: seq<Row>, other: seq<Row>)
    requires direction != RPC_END
    requires forall k :: 0 <= k < |same| ==> same[k].direction == direction
    requires forall k :: 0 <= k < |other| ==> other[k].direction != direction && other[k].direction != RPC_END
    ensures Matching(direction, same + other + [END]) == same
    ensures Matching(direction, other + same + [END]) == same
    decreases |same| + |other|
  {
    if other != [] {
      assert (other + same + [END])[1..] == other[1..] + same + [END];
      MatchingOfHalves(direction, same, other[1..]);
    }
    if same != [] {
      assert (same + other + [END])[1..] == same[1..] + other + [END];
      MatchingOfHalves(direction, same[1..], other);
      if other == [] {
        assert (other + same + [END])[1..] == other + same[1..] + [END];
      }
    } else if other != [] {
      assert (same + other + [END])[1..] == same + other[1..] + [END];
    }
  }

  lemma RequestHalvesAreIn(id: int)
    requires IsMethod(id)
    ensures forall k :: 0 <= k < |ProxyIn(id)| ==> ProxyIn(id)[k].direction == RPC_IN
    ensures forall k :: 0 <= k < |StubIn(id)| ==> StubIn(id)[k].direction == RPC_IN
  {
  }

  lemma ReplyHalvesAreOut(id: int)
    requires IsMethod(id)
    ensures forall k :: 0 <= k < |ProxyOut(id)| ==> ProxyOut(id)[k].direction == RPC_OUT
    ensures forall k :: 0 <= k < |StubOut(id)| ==> StubOut(id)[k].direction == RPC_OUT
  {
    hide ProxyIn;
  }

  /** The tables split into their halves. */
  lemma HalvesOf(id: int)
    requires IsMethod(id)
    ensures Matching(RPC_IN, ProxyRows(id)) == ProxyIn(id)
    ensures Matching(RPC_OUT, ProxyRows(id)) == ProxyOut(id)
    ensures Matching(RPC_IN, StubInRows(id)) == StubIn(id)
    ensures Matching(RPC_OUT, StubOutRows(id)) == StubOut(id)
  {
    RequestHalvesAreIn(id);
    ReplyHalvesAreOut(id);
    hide ProxyIn, ProxyOut, StubIn, StubOut;
    MatchingOfHalves(RPC_IN, ProxyIn(id), ProxyOut(id));
    MatchingOfHalves(RPC_OUT, ProxyOut(id), ProxyIn(id));
    MatchingOfHalves(RPC_IN, StubIn(id), []);
    MatchingOfHalves(RPC_OUT, StubOut(id), []);
    assert StubIn(id) + [] + [END] == StubInRows(id);
    assert StubOut(id) + [] + [END] == StubOutRows(id);
  }

  // ---------------------------------------------------------------- the domain

  /** Arguments the wire can carry: C strings, and less than 2^32 bytes to write. */
  ghost predicate CallOk(call: Call) {
    match call
    case ListOperations => true
    case SymLink(source, target) => TextOk(source) && TextOk(target)
    case Rename(source, target, _) => TextOk(source) && TextOk(target)
    case Link(source, target) => TextOk(source) && TextOk(target)
    case Write(path, bytes, _, _) => TextOk(path) && |bytes| < TWO_TO_32
    case _ => TextOk(call.path)
  }

  /** The call that reaches the backend: a size_t travels as its lower 32 bits. */
  function Arriving(call: Call): (a: Call)
    ensures MethodOf(a) == MethodOf(call)
    ensures a == call <==> !((call.Read? || call.ReadLink?) && call.size >= 0x1_0000_0000)
    ensures call.Read? ==> a == Read(call.path, call.size % 0x1_0000_0000, call.offset, call.handle)
    ensures call.ReadLink? ==> a == ReadLink(call.path, call.size % 0x1_0000_0000)
  {
    match call
    case ReadLink(path, size) => ReadLink(path, size % TWO_TO_32)
    case Read(path, size, offset, handle) => Read(path, size % TWO_TO_32, offset, handle)
    case _ => call
  }

  /** The caller's out object is the one the call's signature asks for, and a buffer is as
      large as it is said to be; the largest size_t is no size but a decoder's sentinel. */
  predicate OutOk(call: Call, out: Slot) {
    match call
    case ListOperations => out.List?
    case GetAttr(_, _) => out.StatSlot?
    case ReadLink(_, size) => out.Buf? && size <= |out.bytes|
    case ReadDir(_, _, _) => out.List?
    case Create(_, _, _) => out.W64?
    case Open(_, _) => out.W64?
    case Read(_, size, _, _) => out.Buf? && size <= |out.bytes| && size != BORROW
    case StatFs(_) => out.VfsSlot?
    case _ => true
  }

  /** The contract of a backend: results in range, nothing written but the out object,
      a terminated link target, and at least as many bytes written as reported read. */
  ghost predicate AnswerOk(call: Call, answer: Answer) {
    && (call.LSeek? || -0x8000_0000 <= answer.result < 0x8000_0000)
    && match call
       case ListOperations => answer.wrote.Offered? && TextsOk(answer.wrote.names) && |answer.wrote.names| < TWO_TO_32
       case ReadDir(_, _, _) =>
         answer.wrote.Offered? && TextsOk(answer.wrote.names) && |answer.wrote.names| < TWO_TO_32
       case GetAttr(_, _) => answer.wrote.Nothing? || answer.wrote.WroteStat?
       case StatFs(_) => answer.wrote.Nothing? || answer.wrote.WroteVfs?
       case Create(_, _, _) => answer.wrote.Nothing? || answer.wrote.WroteHandle?
       case Open(_, _) => answer.wrote.Nothing? || answer.wrote.WroteHandle?
       case ReadLink(_, size) =>
         answer.wrote.Nothing? ||
         (answer.wrote.WroteText? && TextOk(answer.wrote.text) && |answer.wrote.text| < size)
       case Read(_, size, _, _) =>
         if answer.wrote.WroteBytes? then answer.result <= |answer.wrote.bytes| <= size
         else answer.wrote.Nothing? && answer.result <= 0
       case _ => answer.wrote.Nothing?
  }

  /** What the stub's uninitialised locals and its fresh heap buffer happen to hold. */
  datatype Junk = Junk(stat: Stat, vfs: Vfs, handle: u64, text: Name)

  // ---------------------------------------------------------------- memory

  /** The proxy's locals and parameters; slot k belongs to row k. */
  function ProxyMem(call: Call, out: Slot): seq<Slot>
    requires CallSizesOk(call)
  {
    var result := if call.LSeek? then W64(0) else W32(0);
    match call
    case ListOperations => [result, out]
    case GetAttr(path, handle) => [Str(path), W64(handle), result, out]
    case Access(path, mask) => [Str(path), W32(Unsigned32(mask)), result, out]
    case ReadLink(path, size) => [Str(path), W64(size), result, out]
    case ReadDir(path, offset, handle) => [Str(path), W64(Unsigned64(offset)), W64(handle), result, out]
    case MkNod(path, mode, rdev) => [Str(path), W32(mode), W64(rdev), result, out]
    case MkDir(path, mode) => [Str(path), W32(mode), result, out]
    case SymLink(source, target) => [Str(source), Str(target), result, out]
    case Unlink(path) => [Str(path), result, out]
    case RmDir(path) => [Str(path), result, out]
    case Rename(source, target, flags) => [Str(source), Str(target), W32(flags), result, out]
    case Link(source, target) => [Str(source), Str(target), result, out]
    case ChMod(path, mode) => [Str(path), W32(mode), result, out]
    case ChOwn(path, uid, gid) => [Str(path), W32(uid), W32(gid), result, out]
    case Truncate(path, length, handle) => [Str(path), W64(Unsigned64(length)), W64(handle), result, out]
    case Create(path, mode, flags) => [Str(path), W32(mode), W32(Unsigned32(flags)), result, out]
    case Open(path, flags) => [Str(path), W32(Unsigned32(flags)), result, out]
    case Read(path, size, offset, handle) =>
      [Str(path), W64(size), W64(Unsigned64(offset)), W64(handle), result, out]
    case Write(path, bytes, offset, handle) =>
      [Str(path), Buf(bytes), W64(Unsigned64(offset)), W64(handle), result, W64(|bytes|)]
    case StatFs(path) => [Str(path), result, out]
    case Release(path, handle) => [Str(path), W64(handle), result, out]
    case FSync(path, isdatasync, handle) => [Str(path), W32(Unsigned32(isdatasync)), W64(handle), result, out]
    case LSeek(path, offset, whence, handle) =>
      [Str(path), W64(Unsigned64(offset)), W32(Unsigned32(whence)), W64(handle), result, out]
  }

  /** A byte count is a size_t. */
  predicate CallSizesOk(call: Call) {
    call.Write? ==> |call.bytes| < 0x1_0000_0000_0000_0000
  }

  /** The stub's locals before decoding. They are uninitialised in the source and each
      is written before it is read, except the size that asks for borrowed bytes. */
  const STUB_LOCALS: seq<Slot> := [Ptr(0), Ptr(0), W64(0), W64(0), W64(0), W64(BORROW)]

  function OffsetOf(slot: Slot): nat { if slot.Ptr? then slot.offset else 0 }

  function Bits32(slot: Slot): u32 { if slot.W32? then slot.bits32 else 0 }

  function Bits64(slot: Slot): u64 { if slot.W64? then slot.bits64 else 0 }

  /** The bytes a pointer and a length name. */
  function Pointed(data: seq<byte>, at: nat, length: nat): seq<byte> {
    if at + length <= |data| then data[at..at + length] else []
  }

  /** The call a stub makes from its decoded locals; pointers are followed into the
      message buffer now, before the reply overwrites it. */
  function CallFrom(id: int, m: seq<Slot>, data: seq<byte>): Call
    requires IsMethod(id) && |m| == 6
  {
    var text0, text1 := CStr(data, OffsetOf(m[0])), CStr(data, OffsetOf(m[1]));
    match id
    case 1 => ListOperations
    case 2 => GetAttr(text0, Bits64(m[1]))
    case 3 => Access(text0, Signed32(Bits32(m[1])))
    case 4 => ReadLink(text0, Bits64(m[1]))
    case 5 => ReadDir(text0, Signed64(Bits64(m[1])), Bits64(m[2]))
    case 6 => MkNod(text0, Bits32(m[1]), Bits64(m[2]))
    case 7 => MkDir(text0, Bits32(m[1]))
    case 8 => SymLink(text0, text1)
    case 9 => Unlink(text0)
    case 10 => RmDir(text0)
    case 11 => Rename(text0, text1, Unsigned32(Signed32(Bits32(m[2]))))
    case 12 => Link(text0, text1)
    case 13 => ChMod(text0, Bits32(m[1]))
    case 14 => ChOwn(text0, Bits32(m[1]), Bits32(m[2]))
    case 15 => Truncate(text0, Signed64(Bits64(m[1])), Bits64(m[2]))
    case 16 => Create(text0, Bits32(m[1]), Signed32(Bits32(m[2])))
    case 17 => Open(text0, Signed32(Bits32(m[1])))
    case 18 => Read(text0, Bits64(m[1]), Signed64(Bits64(m[2])), Bits64(m[3]))
    case 19 =>
      Write(text0, Pointed(data, OffsetOf(m[1]), Bits64(m[5])), Signed64(Bits64(m[2])), Bits64(m[3]))
    case 20 => StatFs(text0)
    case 21 => Release(text0, Bits64(m[1]))
    case 22 => FSync(text0, Signed32(Bits32(m[1])), Bits64(m[2]))
    case _ => LSeek(text0, Signed64(Bits64(m[1])), Signed32(Bits32(m[2])), Bits64(m[3]))
  }

  /** The stub's reply objects: result, out object, and the length of bytes read. */
  function ReplyMem(call: Call, answer: Answer, junk: Junk): seq<Slot> {
    var wrote := answer.wrote;
    var result := if call.LSeek? then W64(Unsigned64(answer.result)) else W32(answer.result % TWO_TO_32);
    var length := W64(if answer.result > 0 then answer.result else 0);
    match call
    case ListOperations => [result, List(if wrote.Offered? then wrote.names else []), length]
    case GetAttr(_, _) => [result, StatSlot(if wrote.WroteStat? then wrote.stat else junk.stat), length]
    case ReadLink(_, _) => [result, Str(if wrote.WroteText? then wrote.text else junk.text), length]
    case ReadDir(_, _, _) => [result, List(if wrote.Offered? then wrote.names else []), length]
    case Create(_, _, _) => [result, W64(if wrote.WroteHandle? then wrote.handle else junk.handle), length]
    case Open(_, _) => [result, W64(if wrote.WroteHandle? then wrote.handle else junk.handle), length]
    case Read(_, _, _, _) => [result, Buf(if wrote.WroteBytes? then wrote.bytes else []), length]
    case StatFs(_) => [result, VfsSlot(if wrote.WroteVfs? then wrote.vfs else junk.vfs), length]
    case _ => [result, W64(0), length]
  }
}
