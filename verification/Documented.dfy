/**
 The messages as doc/protocol.md describes them, byte for byte, and that the messages of
 the proxy's and the stub's tables are these.
 */
module Documented {
  import opened Words
  import opened Wire
  import opened WireLaws
  import opened Calls
  import opened Remote
  import opened Sizes

  // ---------------------------------------------------------------- data types

  /** int, u32, size, mode, uid, gid */
  function U32(v: int): seq<byte> {
    [v / 0x100_0000 % 256, v / 0x1_0000 % 256, v / 0x100 % 256, v % 256]
  }

  /** u64, offset, dev */
  function U64(v: int): seq<byte> {
    U32(v / 0x1_0000_0000) + U32(v)
  }

  function String(t: seq<byte>): seq<byte> {
    U32(|t| + 1) + t + [0]
  }

  function Bytes(b: seq<byte>): seq<byte> {
    U32(|b|) + b
  }

  function Strings(ts: seq<Name>): seq<byte> {
    if ts == [] then [] else String(ts[0]) + Strings(ts[1..])
  }

  function StringList(ts: seq<Name>): seq<byte> {
    U32(|ts|) + Strings(ts)
  }

  function StatRecord(s: Stat): seq<byte> {
    U64(s.ino) + U32(s.mode) + U64(s.nlink) + U32(s.uid) + U32(s.gid) + U64(s.rdev) + U64(s.size) + U64(s.blocks)
    + U32(s.atimeSec) + U32(s.atimeNsec) + U32(s.mtimeSec) + U32(s.mtimeNsec) + U32(s.ctimeSec) + U32(s.ctimeNsec)
  }

  function VfsRecord(v: Vfs): seq<byte> {
    U64(v.bsize) + U64(v.frsize) + U64(v.blocks) + U64(v.bfree) + U64(v.bavail) + U64(v.files) + U64(v.ffree)
    + U64(v.namemax)
  }

  function Message(id: int, payload: seq<byte>): seq<byte> {
    U32(8 + |payload|) + U32(id) + payload
  }

  // ---------------------------------------------------------------- messages

  function DocumentedRequest(call: Call): seq<byte> {
    match call
    case ListOperations => Message(1, [])
    case GetAttr(path, handle) => Message(2, String(path) + U64(handle))
    case Access(path, mask) => Message(3, String(path) + U32(mask))
    case ReadLink(path, size) => Message(4, String(path) + U32(size))
    case ReadDir(path, offset, handle) => Message(5, String(path) + U64(offset) + U64(handle))
    case MkNod(path, mode, rdev) => Message(6, String(path) + U32(mode) + U64(rdev))
    case MkDir(path, mode) => Message(7, String(path) + U32(mode))
    case SymLink(source, target) => Message(8, String(source) + String(target))
    case Unlink(path) => Message(9, String(path))
    case RmDir(path) => Message(10, String(path))
    case Rename(source, target, flags) => Message(11, String(source) + String(target) + U32(flags))
    case Link(source, target) => Message(12, String(source) + String(target))
    case ChMod(path, mode) => Message(13, String(path) + U32(mode))
    case ChOwn(path, uid, gid) => Message(14, String(path) + U32(uid) + U32(gid))
    case Truncate(path, length, handle) => Message(15, String(path) + U64(length) + U64(handle))
    case Create(path, mode, flags) => Message(16, String(path) + U32(mode) + U32(flags))
    case Open(path, flags) => Message(17, String(path) + U32(flags))
    case Read(path, size, offset, handle) => Message(18, String(path) + U32(size) + U64(offset) + U64(handle))
    case Write(path, bytes, offset, handle) => Message(19, String(path) + Bytes(bytes) + U64(offset) + U64(handle))
    case StatFs(path) => Message(20, String(path))
    case Release(path, handle) => Message(21, String(path) + U64(handle))
    case FSync(path, isdatasync, handle) => Message(22, String(path) + U32(isdatasync) + U64(handle))
    case LSeek(path, offset, whence, handle) => Message(23, String(path) + U64(offset) + U32(whence) + U64(handle))
  }

  /** A reply always has all its fields; one the backend did not write holds leftovers. */
  function DocumentedReply(call: Call, answer: Answer, junk: Junk): seq<byte>
    requires AnswerOk(call, answer)
  {
    var result, wrote := answer.result, answer.wrote;
    match call
    case ListOperations => Message(1, U32(result) + StringList(wrote.names))
    case GetAttr(_, _) => Message(2, U32(result) + StatRecord(if wrote.WroteStat? then wrote.stat else junk.stat))
    case Access(_, _) => Message(3, U32(result))
    case ReadLink(_, _) => Message(4, U32(result) + String(if wrote.WroteText? then wrote.text else junk.text))
    case ReadDir(_, _, _) => Message(5, U32(result) + StringList(wrote.names))
    case MkNod(_, _, _) => Message(6, U32(result))
    case MkDir(_, _) => Message(7, U32(result))
    case SymLink(_, _) => Message(8, U32(result))
    case Unlink(_) => Message(9, U32(result))
    case RmDir(_) => Message(10, U32(result))
    case Rename(_, _, _) => Message(11, U32(result))
    case Link(_, _) => Message(12, U32(result))
    case ChMod(_, _) => Message(13, U32(result))
    case ChOwn(_, _, _) => Message(14, U32(result))
    case Truncate(_, _, _) => Message(15, U32(result))
    case Create(_, _, _) => Message(16, U32(result) + U64(if wrote.WroteHandle? then wrote.handle else junk.handle))
    case Open(_, _) => Message(17, U32(result) + U64(if wrote.WroteHandle? then wrote.handle else junk.handle))
    case Read(_, _, _, _) =>
      Message(18, U32(result) + Bytes(if wrote.WroteBytes? && result > 0 then wrote.bytes[..result] else []))
    case Write(_, _, _, _) => Message(19, U32(result))
    case StatFs(_) => Message(20, U32(result) + VfsRecord(if wrote.WroteVfs? then wrote.vfs else junk.vfs))
    case Release(_, _) => Message(21, U32(result))
    case FSync(_, _, _) => Message(22, U32(result))
    case LSeek(_, _, _, _) => Message(23, U64(result))
  }

  // ---------------------------------------------------------------- one row

  lemma WordsSpelled(v: int)
    ensures U32(v) == BigEndian(4, v) == BigEndian(4, v % 0x1_0000_0000) == U32(v % 0x1_0000_0000)
    ensures U64(v) == BigEndian(8, v) == BigEndian(8, v % 0x1_0000_0000_0000_0000)
  {
    FourSpelled(v);
    FourSpelled(v % 0x1_0000_0000);
    MaskedIsSame(v);
    EightSpelled(v);
    MaskedLong(v);
  }

  lemma FourSpelled(v: int)
    ensures U32(v) == BigEndian(4, v)
  {
    FourBytes(v);
  }

  lemma EightSpelled(v: int)
    ensures U64(v) == BigEndian(8, v)
  {
    FourSpelled(v / 0x1_0000_0000);
    FourSpelled(v);
    HalvesAreEightBytes(v);
    MaskedIsSame(v);
    MaskedIsSame(v / 0x1_0000_0000);
  }

  lemma TextSpelled(t: seq<byte>)
    ensures EncodeText(t) == String(t)
  {
    hide U32;
    FourSpelled(|t| + 1);
  }

  lemma {:induction false} TextsSpelled(ts: seq<Name>)
    ensures EncodeTexts(ts) == Strings(ts)
    decreases |ts|
  {
    hide EncodeText, String;
    if ts != [] {
      TextSpelled(ts[0]);
      TextsSpelled(ts[1..]);
    }
  }

  lemma {:induction false} MoreWords(ws: seq<Word>, w: Word)
    ensures EncodeWords(ws + [w]) == EncodeWords(ws) + BigEndian(w.width, w.value)
    decreases |ws|
  {
    if ws == [] {
      assert ws + [w] == [w];
      OneWord(w);
    } else {
      assert (ws + [w])[1..] == ws[1..] + [w];
      MoreWords(ws[1..], w);
    }
  }

  /** The first `k` fields of a record, and one more. */
  lemma NextField(ws: seq<Word>, k: nat, bytes: seq<byte>)
    requires k < |ws| && EncodeWords(ws[..k]) == bytes
    ensures EncodeWords(ws[..k + 1]) == bytes + BigEndian(ws[k].width, ws[k].value)
  {
    assert ws[..k + 1] == ws[..k] + [ws[k]];
    MoreWords(ws[..k], ws[k]);
  }

  function Field(w: Word): seq<byte> { BigEndian(w.width, w.value) }

  lemma EightFields(ws: seq<Word>)
    requires |ws| >= 8
    ensures EncodeWords(ws[..8]) == Field(ws[0]) + Field(ws[1]) + Field(ws[2]) + Field(ws[3]) + Field(ws[4])
                                    + Field(ws[5]) + Field(ws[6]) + Field(ws[7])
  {
    hide EncodeWords, BigEndian;
    assert ws[..1] == [ws[0]];
    OneWord(ws[0]);
    NextField(ws, 1, EncodeWords(ws[..1]));
    NextField(ws, 2, EncodeWords(ws[..2]));
    NextField(ws, 3, EncodeWords(ws[..3]));
    NextField(ws, 4, EncodeWords(ws[..4]));
    NextField(ws, 5, EncodeWords(ws[..5]));
    NextField(ws, 6, EncodeWords(ws[..6]));
    NextField(ws, 7, EncodeWords(ws[..7]));
  }

  lemma FourteenFields(ws: seq<Word>)
    requires |ws| == 14
    ensures EncodeWords(ws) == EncodeWords(ws[..8]) + Field(ws[8]) + Field(ws[9]) + Field(ws[10]) + Field(ws[11])
                               + Field(ws[12]) + Field(ws[13])
  {
    hide EncodeWords, BigEndian;
    assert ws[..14] == ws;
    NextField(ws, 8, EncodeWords(ws[..8]));
    NextField(ws, 9, EncodeWords(ws[..9]));
    NextField(ws, 10, EncodeWords(ws[..10]));
    NextField(ws, 11, EncodeWords(ws[..11]));
    NextField(ws, 12, EncodeWords(ws[..12]));
    NextField(ws, 13, EncodeWords(ws[..13]));
  }

  lemma StatSpelled(s: Stat)
    ensures EncodeWords(StatWords(s)) == StatRecord(s)
  {
    hide EncodeWords, BigEndian, U32, U64;
    var ws := StatWords(s);
    EightFields(ws);
    FourteenFields(ws);
    WordsSpelled(s.ino);
    WordsSpelled(s.mode);
    WordsSpelled(s.nlink);
    WordsSpelled(s.uid);
    WordsSpelled(s.gid);
    WordsSpelled(s.rdev);
    WordsSpelled(s.size);
    WordsSpelled(s.blocks);
    WordsSpelled(s.atimeSec);
    WordsSpelled(s.atimeNsec);
    WordsSpelled(s.mtimeSec);
    WordsSpelled(s.mtimeNsec);
    WordsSpelled(s.ctimeSec);
    WordsSpelled(s.ctimeNsec);
  }

  lemma VfsSpelled(v: Vfs)
    ensures EncodeWords(VfsWords(v)) == VfsRecord(v)
  {
    hide EncodeWords, BigEndian, U32, U64;
    var ws := VfsWords(v);
    EightFields(ws);
    assert ws[..8] == ws;
    WordsSpelled(v.bsize);
    WordsSpelled(v.frsize);
    WordsSpelled(v.blocks);
    WordsSpelled(v.bfree);
    WordsSpelled(v.bavail);
    WordsSpelled(v.files);
    WordsSpelled(v.ffree);
    WordsSpelled(v.namemax);
  }

  /** What a row contributes, by its type. */
  function Spelled(row: Row, mem: seq<Slot>): seq<byte>
    requires Known(row.typ) && Loadable(row, mem)
  {
    var slot := mem[row.value];
    if IsWord32(row.typ) then U32(slot.bits32)
    else if row.typ == RPC_SIZE then U32(slot.bits64)
    else if IsWord64(row.typ) then U64(slot.bits64)
    else if row.typ == RPC_STRING then String(slot.chars)
    else if row.typ == RPC_BYTES then Bytes(slot.bytes[..mem[row.extra.slot].bits64])
    else if row.typ == RPC_STAT then StatRecord(slot.stat)
    else if row.typ == RPC_STATVFS then VfsRecord(slot.vfs)
    else StringList(slot.names)
  }

  lemma RowSpelled(row: Row, mem: seq<Slot>)
    requires Known(row.typ) && Loadable(row, mem)
    ensures Encode(Load(row, mem)) == Spelled(row, mem)
  {
    var slot := mem[row.value];
    hide EncodeWords, BigEndian, U32, U64, StatWords, VfsWords, StatRecord, VfsRecord, EncodeText, String, EncodeTexts;
    hide Strings;
    if IsWord32(row.typ) {
      WordsSpelled(slot.bits32);
      OneWord(Word(4, slot.bits32));
    } else if row.typ == RPC_SIZE {
      WordsSpelled(slot.bits64);
      OneWord(Word(4, slot.bits64 % TWO_TO_32));
    } else if IsWord64(row.typ) {
      WordsSpelled(slot.bits64);
      OneWord(Word(8, slot.bits64));
    } else if row.typ == RPC_STRING {
      TextSpelled(slot.chars);
    } else if row.typ == RPC_BYTES {
      WordsSpelled(mem[row.extra.slot].bits64);
    } else if row.typ == RPC_STAT {
      StatSpelled(slot.stat);
    } else if row.typ == RPC_STATVFS {
      VfsSpelled(slot.vfs);
    } else {
      WordsSpelled(|slot.names|);
      TextsSpelled(slot.names);
    }
  }

  // ---------------------------------------------------------------- a table

  /** The payload of a table of at most four rows. */
  ghost function RowsSpelled(ms: seq<Row>, mem: seq<Slot>): seq<byte>
    requires Measurable(ms, mem)
  {
    if |ms| == 0 then []
    else if |ms| == 1 then Spelled(ms[0], mem)
    else if |ms| == 2 then Spelled(ms[0], mem) + Spelled(ms[1], mem)
    else if |ms| == 3 then Spelled(ms[0], mem) + Spelled(ms[1], mem) + Spelled(ms[2], mem)
    else Spelled(ms[0], mem) + Spelled(ms[1], mem) + Spelled(ms[2], mem) + Spelled(ms[3], mem)
  }

  lemma FirstSpelled(row: Row, ms: seq<Row>, mem: seq<Slot>)
    requires Known(row.typ) && Loadable(row, mem) && AllLoadable(ms, mem)
    ensures AllLoadable([row] + ms, mem)
    ensures SerializeRows([row] + ms, mem).payload == Spelled(row, mem) + SerializeRows(ms, mem).payload
  {
    hide Encode, Load, Spelled, Loadable, Known;
    RowSpelled(row, mem);
    assert ([row] + ms)[1..] == ms;
  }

  lemma PayloadSpelled(ms: seq<Row>, mem: seq<Slot>)
    requires Measurable(ms, mem)
    ensures SerializeRows(ms, mem).payload == RowsSpelled(ms, mem)
  {
    hide Spelled, Loadable, Known, SerializeRows;
    NoRows(mem);
    if |ms| == 1 {
      OneSpelled(ms[0], mem);
      assert ms == [ms[0]];
    } else if |ms| == 2 {
      OneSpelled(ms[1], mem);
      FirstSpelled(ms[0], [ms[1]], mem);
      assert ms == [ms[0]] + [ms[1]];
    } else if |ms| == 3 {
      OneSpelled(ms[2], mem);
      FirstSpelled(ms[1], [ms[2]], mem);
      FirstSpelled(ms[0], [ms[1]] + [ms[2]], mem);
      assert ms == [ms[0]] + ([ms[1]] + [ms[2]]);
      var a, b, c := Spelled(ms[0], mem), Spelled(ms[1], mem), Spelled(ms[2], mem);
      assert a + (b + c) == a + b + c;
    } else if |ms| == 4 {
      OneSpelled(ms[3], mem);
      FirstSpelled(ms[2], [ms[3]], mem);
      FirstSpelled(ms[1], [ms[2]] + [ms[3]], mem);
      FirstSpelled(ms[0], [ms[1]] + ([ms[2]] + [ms[3]]), mem);
      assert ms == [ms[0]] + ([ms[1]] + ([ms[2]] + [ms[3]]));
      var a, b, c, d := Spelled(ms[0], mem), Spelled(ms[1], mem), Spelled(ms[2], mem), Spelled(ms[3], mem);
      assert a + (b + (c + d)) == a + b + c + d;
    }
  }

  lemma NoRows(mem: seq<Slot>)
    ensures SerializeRows([], mem).payload == []
  {
  }

  lemma OneSpelled(row: Row, mem: seq<Slot>)
    requires Known(row.typ) && Loadable(row, mem)
    ensures SerializeRows([row], mem).payload == Spelled(row, mem)
  {
    FirstSpelled(row, [], mem);
    assert [row] + [] == [row];
    assert Spelled(row, mem) + [] == Spelled(row, mem);
  }

  lemma MessageSpelled(id: int, payload: seq<byte>)
    ensures Frame(id, payload) == Message(id, payload)
  {
    FourSpelled(8 + |payload|);
    FourSpelled(id);
  }

  lemma MaskSpelled(v: i32)
    ensures U32(Unsigned32(v)) == U32(v)
  {
    hide U32;
    WordsSpelled(v);
  }

  lemma OffsetSpelled(v: i64)
    ensures U64(Unsigned64(v)) == U64(v)
  {
    hide U64;
    WordsSpelled(v);
    EightSpelled(Unsigned64(v));
  }

  lemma ArgumentsSpelled(call: Call)
    ensures (call.ReadDir? || call.Read? || call.Write? || call.LSeek?) ==>
              U64(Unsigned64(call.offset)) == U64(call.offset)
    ensures call.Truncate? ==> U64(Unsigned64(call.length)) == U64(call.length)
    ensures call.Access? ==> U32(Unsigned32(call.mask)) == U32(call.mask)
    ensures (call.Create? || call.Open?) ==> U32(Unsigned32(call.flags)) == U32(call.flags)
    ensures call.FSync? ==> U32(Unsigned32(call.isdatasync)) == U32(call.isdatasync)
    ensures call.LSeek? ==> U32(Unsigned32(call.whence)) == U32(call.whence)
  {
    hide U32, U64, Unsigned32, Unsigned64;
    if call.ReadDir? || call.Read? || call.Write? || call.LSeek? { OffsetSpelled(call.offset); }
    if call.Truncate? { OffsetSpelled(call.length); }
    if call.Access? { MaskSpelled(call.mask); }
    if call.Create? || call.Open? { MaskSpelled(call.flags); }
    if call.FSync? { MaskSpelled(call.isdatasync); }
    if call.LSeek? { MaskSpelled(call.whence); }
  }

  // ---------------------------------------------------------------- requests

  lemma RequestA(call: Call, out: Slot)
    requires CallOk(call) && MethodOf(call) <= 3
    ensures CallSizesOk(call) && Measurable(ProxyIn(MethodOf(call)), ProxyMem(call, out))
    ensures Message(MethodOf(call), RowsSpelled(ProxyIn(MethodOf(call)), ProxyMem(call, out)))
         == DocumentedRequest(call)
  {
    hide TextOk, AllLoadable, AllKnown, Message, U32, U64, String, Bytes, Unsigned32, Unsigned64;
    RequestMeasurable(call, out);
    ArgumentsSpelled(call);
  }

  lemma RequestB(call: Call, out: Slot)
    requires CallOk(call) && 4 <= MethodOf(call) <= 6
    ensures CallSizesOk(call) && Measurable(ProxyIn(MethodOf(call)), ProxyMem(call, out))
    ensures Message(MethodOf(call), RowsSpelled(ProxyIn(MethodOf(call)), ProxyMem(call, out)))
         == DocumentedRequest(call)
  {
    hide TextOk, AllLoadable, AllKnown, Message, U32, U64, String, Bytes, Unsigned32, Unsigned64;
    RequestMeasurable(call, out);
    ArgumentsSpelled(call);
  }

  lemma RequestC(call: Call, out: Slot)
    requires CallOk(call) && 7 <= MethodOf(call) <= 10
    ensures CallSizesOk(call) && Measurable(ProxyIn(MethodOf(call)), ProxyMem(call, out))
    ensures Message(MethodOf(call), RowsSpelled(ProxyIn(MethodOf(call)), ProxyMem(call, out)))
         == DocumentedRequest(call)
  {
    hide TextOk, AllLoadable, AllKnown, Message, U32, U64, String, Bytes, Unsigned32, Unsigned64;
    RequestMeasurable(call, out);
    ArgumentsSpelled(call);
  }

  lemma RequestD(call: Call, out: Slot)
    requires CallOk(call) && 11 <= MethodOf(call) <= 13
    ensures CallSizesOk(call) && Measurable(ProxyIn(MethodOf(call)), ProxyMem(call, out))
    ensures Message(MethodOf(call), RowsSpelled(ProxyIn(MethodOf(call)), ProxyMem(call, out)))
         == DocumentedRequest(call)
  {
    hide TextOk, AllLoadable, AllKnown, Message, U32, U64, String, Bytes, Unsigned32, Unsigned64;
    RequestMeasurable(call, out);
    ArgumentsSpelled(call);
  }

  lemma RequestE(call: Call, out: Slot)
    requires CallOk(call) && 14 <= MethodOf(call) <= 15
    ensures CallSizesOk(call) && Measurable(ProxyIn(MethodOf(call)), ProxyMem(call, out))
    ensures Message(MethodOf(call), RowsSpelled(ProxyIn(MethodOf(call)), ProxyMem(call, out)))
         == DocumentedRequest(call)
  {
    hide TextOk, AllLoadable, AllKnown, Message, U32, U64, String, Bytes, Unsigned32, Unsigned64;
    RequestMeasurable(call, out);
    ArgumentsSpelled(call);
  }

  lemma RequestF(call: Call, out: Slot)
    requires CallOk(call) && 16 <= MethodOf(call) <= 17
    ensures CallSizesOk(call) && Measurable(ProxyIn(MethodOf(call)), ProxyMem(call, out))
    ensures Message(MethodOf(call), RowsSpelled(ProxyIn(MethodOf(call)), ProxyMem(call, out)))
         == DocumentedRequest(call)
  {
    hide TextOk, AllLoadable, AllKnown, Message, U32, U64, String, Bytes, Unsigned32, Unsigned64;
    RequestMeasurable(call, out);
    ArgumentsSpelled(call);
  }

  lemma RequestG(call: Call, out: Slot)
    requires CallOk(call) && MethodOf(call) == 18
    ensures CallSizesOk(call) && Measurable(ProxyIn(MethodOf(call)), ProxyMem(call, out))
    ensures Message(MethodOf(call), RowsSpelled(ProxyIn(MethodOf(call)), ProxyMem(call, out)))
         == DocumentedRequest(call)
  {
    hide TextOk, AllLoadable, AllKnown, Message, U32, U64, String, Bytes, Unsigned32, Unsigned64;
    RequestMeasurable(call, out);
    ArgumentsSpelled(call);
  }

  lemma RequestH(call: Call, out: Slot)
    requires CallOk(call) && MethodOf(call) == 19
    ensures CallSizesOk(call) && Measurable(ProxyIn(MethodOf(call)), ProxyMem(call, out))
    ensures Message(MethodOf(call), RowsSpelled(ProxyIn(MethodOf(call)), ProxyMem(call, out)))
         == DocumentedRequest(call)
  {
    hide TextOk, AllLoadable, AllKnown, Message, U32, U64, String, Bytes, Unsigned32, Unsigned64;
    RequestMeasurable(call, out);
    ArgumentsSpelled(call);
    assert call.bytes[..|call.bytes|] == call.bytes;
  }

  lemma RequestI(call: Call, out: Slot)
    requires CallOk(call) && 20 <= MethodOf(call) <= 21
    ensures CallSizesOk(call) && Measurable(ProxyIn(MethodOf(call)), ProxyMem(call, out))
    ensures Message(MethodOf(call), RowsSpelled(ProxyIn(MethodOf(call)), ProxyMem(call, out)))
         == DocumentedRequest(call)
  {
    hide TextOk, AllLoadable, AllKnown, Message, U32, U64, String, Bytes, Unsigned32, Unsigned64;
    RequestMeasurable(call, out);
    ArgumentsSpelled(call);
  }

  lemma RequestJ(call: Call, out: Slot)
    requires CallOk(call) && 22 <= MethodOf(call) <= 23
    ensures CallSizesOk(call) && Measurable(ProxyIn(MethodOf(call)), ProxyMem(call, out))
    ensures Message(MethodOf(call), RowsSpelled(ProxyIn(MethodOf(call)), ProxyMem(call, out)))
         == DocumentedRequest(call)
  {
    hide TextOk, AllLoadable, AllKnown, Message, U32, U64, String, Bytes, Unsigned32, Unsigned64;
    RequestMeasurable(call, out);
    ArgumentsSpelled(call);
  }

  /** Every method's request is the documented one, byte for byte. */
  lemma RequestIsDocumented(call: Call, out: Slot)
    requires CallOk(call)
    ensures Request(call, out) == DocumentedRequest(call)
  {
    hide DocumentedRequest, Message, RowsSpelled, ProxyIn, ProxyMem, CallOk, SerializeRows, Frame, Measurable, MethodOf;
    RequestLoads(call, out);
    RequestMeasurable(call, out);
    match MethodOf(call) {
      case 1 | 2 | 3 => RequestA(call, out);
      case 4 | 5 | 6 => RequestB(call, out);
      case 7 | 8 | 9 | 10 => RequestC(call, out);
      case 11 | 12 | 13 => RequestD(call, out);
      case 14 | 15 => RequestE(call, out);
      case 16 | 17 => RequestF(call, out);
      case 18 => RequestG(call, out);
      case 19 => RequestH(call, out);
      case 20 | 21 => RequestI(call, out);
      case _ => RequestJ(call, out);
    }
    PayloadSpelled(ProxyIn(MethodOf(call)), ProxyMem(call, out));
    MessageSpelled(MethodOf(call), SerializeRows(ProxyIn(MethodOf(call)), ProxyMem(call, out)).payload);
  }

  // ---------------------------------------------------------------- replies

  lemma ResultSpelled(call: Call, answer: Answer, junk: Junk)
    requires AnswerOk(call, answer)
    ensures var result := ReplyMem(call, answer, junk)[0];
            if call.LSeek? then result.W64? && U64(result.bits64) == U64(answer.result)
            else result.W32? && U32(result.bits32) == U32(answer.result)
  {
    hide U32, U64;
    WordsSpelled(answer.result);
    OffsetSpelled(answer.result);
  }

  lemma ReplyA(call: Call, answer: Answer, junk: Junk)
    requires AnswerOk(call, answer) && MethodOf(call) <= 5
    ensures Measurable(StubOut(MethodOf(call)), ReplyMem(call, answer, junk))
    ensures Message(MethodOf(call), RowsSpelled(StubOut(MethodOf(call)), ReplyMem(call, answer, junk)))
         == DocumentedReply(call, answer, junk)
  {
    hide TextOk, TextsOk, AllLoadable, AllKnown, Message, U32, U64, String, Bytes, StringList, StatRecord, VfsRecord;
    ReplyMeasurable(call, answer, junk);
    ResultSpelled(call, answer, junk);
  }

  lemma ReplyB(call: Call, answer: Answer, junk: Junk)
    requires AnswerOk(call, answer) && 6 <= MethodOf(call) <= 10
    ensures Measurable(StubOut(MethodOf(call)), ReplyMem(call, answer, junk))
    ensures Message(MethodOf(call), RowsSpelled(StubOut(MethodOf(call)), ReplyMem(call, answer, junk)))
         == DocumentedReply(call, answer, junk)
  {
    hide TextOk, TextsOk, AllLoadable, AllKnown, Message, U32, U64, String, Bytes, StringList, StatRecord, VfsRecord;
    ReplyMeasurable(call, answer, junk);
    ResultSpelled(call, answer, junk);
  }

  lemma ReplyC(call: Call, answer: Answer, junk: Junk)
    requires AnswerOk(call, answer) && 11 <= MethodOf(call) <= 15
    ensures Measurable(StubOut(MethodOf(call)), ReplyMem(call, answer, junk))
    ensures Message(MethodOf(call), RowsSpelled(StubOut(MethodOf(call)), ReplyMem(call, answer, junk)))
         == DocumentedReply(call, answer, junk)
  {
    hide TextOk, TextsOk, AllLoadable, AllKnown, Message, U32, U64, String, Bytes, StringList, StatRecord, VfsRecord;
    ReplyMeasurable(call, answer, junk);
    ResultSpelled(call, answer, junk);
  }

  lemma ReplyD(call: Call, answer: Answer, junk: Junk)
    requires AnswerOk(call, answer) && 16 <= MethodOf(call) <= 18
    ensures Measurable(StubOut(MethodOf(call)), ReplyMem(call, answer, junk))
    ensures Message(MethodOf(call), RowsSpelled(StubOut(MethodOf(call)), ReplyMem(call, answer, junk)))
         == DocumentedReply(call, answer, junk)
  {
    hide TextOk, TextsOk, AllLoadable, AllKnown, Message, U32, U64, String, Bytes, StringList, StatRecord, VfsRecord;
    ReplyMeasurable(call, answer, junk);
    ResultSpelled(call, answer, junk);
  }

  lemma ReplyE(call: Call, answer: Answer, junk: Junk)
    requires AnswerOk(call, answer) && 19 <= MethodOf(call)
    ensures Measurable(StubOut(MethodOf(call)), ReplyMem(call, answer, junk))
    ensures Message(MethodOf(call), RowsSpelled(StubOut(MethodOf(call)), ReplyMem(call, answer, junk)))
         == DocumentedReply(call, answer, junk)
  {
    hide TextOk, TextsOk, AllLoadable, AllKnown, Message, U32, U64, String, Bytes, StringList, StatRecord, VfsRecord;
    ReplyMeasurable(call, answer, junk);
    ResultSpelled(call, answer, junk);
  }

  /** Every method's reply is the documented one, byte for byte. */
  lemma ReplyIsDocumented(call: Call, answer: Answer, junk: Junk)
    requires AnswerOk(call, answer)
    ensures Reply(call, answer, junk) == DocumentedReply(call, answer, junk)
  {
    hide DocumentedReply, Message, RowsSpelled, StubOut, ReplyMem, AnswerOk, SerializeRows, Frame, Measurable, MethodOf;
    ReplyLoads(call, answer, junk);
    ReplyMeasurable(call, answer, junk);
    var id := MethodOf(call);
    if id <= 5 {
      ReplyA(call, answer, junk);
    } else if id <= 10 {
      ReplyB(call, answer, junk);
    } else if id <= 15 {
      ReplyC(call, answer, junk);
    } else if id <= 18 {
      ReplyD(call, answer, junk);
    } else {
      ReplyE(call, answer, junk);
    }
    PayloadSpelled(StubOut(id), ReplyMem(call, answer, junk));
    MessageSpelled(id, SerializeRows(StubOut(id), ReplyMem(call, answer, junk)).payload);
  }
}
