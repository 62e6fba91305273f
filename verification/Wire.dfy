/**
 The wire format as functions: what each argument type puts on the wire, what the
 decoder of each type takes from arbitrary bytes, and what it stores where.

 The imperative serialiser and deserialiser (modules Serializer and Deserializer) are
 proved equal to these functions; the laws of the format are proved in WireLaws.
 */
module Wire {
  import opened Words

  // rpc/arg.h
  const RPC_END: int := 0
  const RPC_IN: int := 1
  const RPC_OUT: int := 2

  // rpc/types.h
  const RPC_NONE: int := 0
  const RPC_INT: int := 1
  const RPC_SIZE: int := 2
  const RPC_UID: int := 3
  const RPC_GID: int := 4
  const RPC_MODE: int := 5
  const RPC_UINT64: int := 6
  const RPC_OFFSET: int := 7
  const RPC_DEV: int := 8
  const RPC_STRING: int := 9
  const RPC_BYTES: int := 10
  const RPC_STAT: int := 11
  const RPC_STATVFS: int := 12
  const RPC_STRINGLIST: int := 13

  // rpc/status.h
  const RPC_GOOD: int := 0
  const RPC_BAD: int := -1
  const RPC_BAD_INVALID_RESPONSE_METHOD_ID: int := -2
  const RPC_BAD_CONNECTION_READ_ERROR: int := -3
  const RPC_BAD_CONNECTION_WRITE_ERROR: int := -4
  const RPC_BAD_CONNECTION_CLOSED: int := -5
  const RPC_BAD_MAX_MESSAGE_SIZE_EXCEEDED: int := -6
  const RPC_BAD_UNKNOWN_SERIALIZER: int := -7
  const RPC_BAD_UNKNOWN_DESERIALIZER: int := -8
  const RPC_BAD_DESERIALIZE_FAILED: int := -9

  // The sentinel that makes the bytes decoder hand out a pointer.
  const BORROW: u64 := 0xffff_ffff_ffff_ffff

  datatype Option<+T> = None | Some(value: T)

  /** struct stat; 64-bit fields are bit patterns. */
  datatype Stat = Stat(dev: u64, ino: u64, mode: u32, nlink: u64, uid: u32, gid: u32, rdev: u64, size: u64,
                       blksize: u64, blocks: u64, atimeSec: u64, atimeNsec: u64, mtimeSec: u64, mtimeNsec: u64,
                       ctimeSec: u64, ctimeNsec: u64)

  /** struct statvfs. */
  datatype Vfs = Vfs(bsize: u64, frsize: u64, blocks: u64, bfree: u64, bavail: u64, files: u64, ffree: u64,
                     favail: u64, fsid: u64, flag: u64, namemax: u64)

  /** One C object an argument row points to. */
  datatype Slot =
    | W32(bits32: u32)                   // int, unsigned int, mode_t, uid_t, gid_t
    | W64(bits64: u64)                   // uint64_t, off_t, dev_t, size_t
    | Str(chars: seq<byte>)              // char const *, without its terminator
    | Buf(bytes: seq<byte>)              // char [n]
    | Ptr(offset: nat)                   // char *, into the message buffer
    | StatSlot(stat: Stat)
    | VfsSlot(vfs: Vfs)
    | List(names: seq<seq<byte>>)        // a name list, or the calls a callback received

  datatype Extra = Null | SizeAt(slot: nat) | Callback

  /** A row of an argument table; `value` and `extra` are addresses in the caller's memory. */
  datatype Row = Row(direction: int, typ: int, value: nat, extra: Extra)

  // ---------------------------------------------------------------- encoding

  datatype Word = Word(width: nat, value: nat)

  /** What a row contributes to a message. */
  datatype Item =
    | Fixed(words: seq<Word>)
    | Text(chars: seq<byte>)
    | Blob(bytes: seq<byte>)
    | Names(names: seq<seq<byte>>)

  function EncodeWords(ws: seq<Word>): seq<byte> {
    if ws == [] then [] else BigEndian(ws[0].width, ws[0].value) + EncodeWords(ws[1..])
  }

  lemma OneWord(w: Word)
    ensures EncodeWords([w]) == BigEndian(w.width, w.value)
  {
    assert EncodeWords([w][1..]) == [];
  }

  function EncodeText(t: seq<byte>): (s: seq<byte>)
    ensures |s| == |t| + 5
  {
    BigEndian(4, |t| + 1) + t + [0]
  }

  function EncodeTexts(ts: seq<seq<byte>>): seq<byte> {
    if ts == [] then [] else EncodeText(ts[0]) + EncodeTexts(ts[1..])
  }

  function Encode(item: Item): seq<byte> {
    match item
    case Fixed(ws) => EncodeWords(ws)
    case Text(t) => EncodeText(t)
    case Blob(b) => BigEndian(4, |b|) + b
    case Names(ts) => BigEndian(4, |ts|) + EncodeTexts(ts)
  }

  function EncodeItems(items: seq<Item>): seq<byte> {
    if items == [] then [] else Encode(items[0]) + EncodeItems(items[1..])
  }

  function StatWords(s: Stat): seq<Word> {
    [Word(8, s.ino), Word(4, s.mode), Word(8, s.nlink), Word(4, s.uid), Word(4, s.gid), Word(8, s.rdev),
     Word(8, s.size), Word(8, s.blocks), Word(4, s.atimeSec % TWO_TO_32), Word(4, s.atimeNsec % TWO_TO_32),
     Word(4, s.mtimeSec % TWO_TO_32), Word(4, s.mtimeNsec % TWO_TO_32),
     Word(4, s.ctimeSec % TWO_TO_32), Word(4, s.ctimeNsec % TWO_TO_32)]
  }

  function VfsWords(v: Vfs): seq<Word> {
    [Word(8, v.bsize), Word(8, v.frsize), Word(8, v.blocks), Word(8, v.bfree),
     Word(8, v.bavail), Word(8, v.files), Word(8, v.ffree), Word(8, v.namemax)]
  }

  predicate IsWord32(typ: int) { typ in {RPC_INT, RPC_UID, RPC_GID, RPC_MODE} }

  predicate IsWord64(typ: int) { typ in {RPC_UINT64, RPC_OFFSET, RPC_DEV} }

  predicate Known(typ: int) { RPC_INT <= typ <= RPC_STRINGLIST }

  /** The row points to an object of the C type its type id stands for. */
  predicate Loadable(row: Row, mem: seq<Slot>) {
    && row.value < |mem|
    && (IsWord32(row.typ) ==> mem[row.value].W32?)
    && (IsWord64(row.typ) || row.typ == RPC_SIZE ==> mem[row.value].W64?)
    && (row.typ == RPC_STRING ==> mem[row.value].Str?)
    && (row.typ == RPC_BYTES ==>
          && mem[row.value].Buf?
          && row.extra.SizeAt? && row.extra.slot < |mem| && mem[row.extra.slot].W64?
          && mem[row.extra.slot].bits64 <= |mem[row.value].bytes|)
    && (row.typ == RPC_STAT ==> mem[row.value].StatSlot?)
    && (row.typ == RPC_STATVFS ==> mem[row.value].VfsSlot?)
    && (row.typ == RPC_STRINGLIST ==> mem[row.value].List?)
  }

  function Load(row: Row, mem: seq<Slot>): Item
    requires Known(row.typ) && Loadable(row, mem)
  {
    var slot := mem[row.value];
    if IsWord32(row.typ) then Fixed([Word(4, slot.bits32)])
    else if row.typ == RPC_SIZE then Fixed([Word(4, slot.bits64 % TWO_TO_32)])
    else if IsWord64(row.typ) then Fixed([Word(8, slot.bits64)])
    else if row.typ == RPC_STRING then Text(slot.chars)
    else if row.typ == RPC_BYTES then Blob(slot.bytes[..mem[row.extra.slot].bits64])
    else if row.typ == RPC_STAT then Fixed(StatWords(slot.stat))
    else if row.typ == RPC_STATVFS then Fixed(VfsWords(slot.vfs))
    else Names(slot.names)
  }

  /** The rows of one direction, up to the end marker. */
  function Matching(direction: int, rows: seq<Row>): seq<Row> {
    if rows == [] || rows[0].direction == RPC_END then []
    else if rows[0].direction == direction then [rows[0]] + Matching(direction, rows[1..])
    else Matching(direction, rows[1..])
  }

  ghost predicate AllLoadable(ms: seq<Row>, mem: seq<Slot>) {
    forall k :: 0 <= k < |ms| ==> Loadable(ms[k], mem)
  }

  datatype Encoded = Encoded(status: int, payload: seq<byte>)

  /** The argument loop of the serialiser: it stops at the first unknown type. */
  function SerializeRows(ms: seq<Row>, mem: seq<Slot>): Encoded
    requires AllLoadable(ms, mem)
  {
    if ms == [] then Encoded(RPC_GOOD, [])
    else if !Known(ms[0].typ) then Encoded(RPC_BAD_UNKNOWN_SERIALIZER, [])
    else
      var rest := SerializeRows(ms[1..], mem);
      Encoded(rest.status, Encode(Load(ms[0], mem)) + rest.payload)
  }

  /** A message: total size, method id, payload. */
  function Frame(id: int, payload: seq<byte>): (f: seq<byte>)
    ensures |f| == 8 + |payload|
  {
    BigEndian(4, 8 + |payload|) + BigEndian(4, id) + payload
  }

  // ---------------------------------------------------------------- decoding

  /** The wire shape a type id stands for. */
  datatype Class = FixedClass(widths: seq<nat>) | TextClass | BlobClass | NamesClass

  const STAT_WIDTHS: seq<nat> := [8, 4, 8, 4, 4, 8, 8, 8, 4, 4, 4, 4, 4, 4]
  const VFS_WIDTHS: seq<nat> := [8, 8, 8, 8, 8, 8, 8, 8]

  function ClassOf(typ: int): Class
    requires Known(typ)
  {
    if IsWord32(typ) || typ == RPC_SIZE then FixedClass([4])
    else if IsWord64(typ) then FixedClass([8])
    else if typ == RPC_STRING then TextClass
    else if typ == RPC_BYTES then BlobClass
    else if typ == RPC_STAT then FixedClass(STAT_WIDTHS)
    else if typ == RPC_STATVFS then FixedClass(VFS_WIDTHS)
    else NamesClass
  }

  /** What a decoder took from the message: values, or places in it. */
  datatype View =
    | Values(values: seq<nat>)
    | CharsAt(at: nat)
    | BytesAt(at: nat, length: nat)
    | Delivered(names: seq<seq<byte>>)

  datatype Parsed = Done(view: View, pos: nat) | Failed(names: seq<seq<byte>>)

  function Sum(widths: seq<nat>): nat {
    if widths == [] then 0 else widths[0] + Sum(widths[1..])
  }

  ghost predicate Fits(widths: seq<nat>, values: seq<nat>) {
    |widths| == |values| && forall k :: 0 <= k < |widths| ==> values[k] < Pow256(widths[k])
  }

  /** The view is one the decoder of class `c` makes of the first `limit` bytes. */
  ghost predicate ViewFits(c: Class, view: View, limit: nat) {
    match c
    case FixedClass(widths) => view.Values? && Fits(widths, view.values)
    case TextClass => view.CharsAt?
    case BlobClass => view.BytesAt? && view.at + view.length <= limit && view.length < TWO_TO_32
    case NamesClass => view.Delivered?
  }

  function ParseWords(widths: seq<nat>, data: seq<byte>, limit: nat, pos: nat): (r: Option<seq<nat>>)
    requires limit <= |data|
    ensures r.Some? ==> Fits(widths, r.value)
    ensures r.Some? ==> pos + Sum(widths) <= limit || widths == []
  {
    if widths == [] then Some([])
    else if pos + widths[0] > limit then None
    else
      var v := FromBigEndian(data[pos..pos + widths[0]]);
      LoadBound(data[pos..pos + widths[0]]);
      match ParseWords(widths[1..], data, limit, pos + widths[0])
      case None => None
      case Some(vs) => Some([v] + vs)
  }

  /** The C string that starts at an offset: everything up to the first NUL. */
  function CStr(data: seq<byte>, at: nat): seq<byte>
    decreases |data| - at
  {
    if at >= |data| || data[at] == 0 then [] else [data[at]] + CStr(data, at + 1)
  }

  /** A length-prefixed field: its place and its length. */
  function ParseField(data: seq<byte>, limit: nat, pos: nat): (r: Option<(nat, nat)>)
    requires limit <= |data|
    ensures r.Some? ==> r.value.0 == pos + 4 && pos + 4 + r.value.1 <= limit && r.value.1 < TWO_TO_32
  {
    if pos + 4 > limit then None
    else
      U32Load(data[pos..pos + 4]);
      var length := FromBigEndian(data[pos..pos + 4]);
      if pos + 4 + length > limit then None else Some((pos + 4, length))
  }

  /** The list decoder: `delivered` names have been handed to the callback so far. */
  function ParseNames(count: nat, data: seq<byte>, limit: nat, pos: nat, delivered: seq<seq<byte>>): (r: Parsed)
    requires limit <= |data|
    ensures r.Done? ==> r.view.Delivered?
    decreases count
  {
    if count == 0 then Done(Delivered(delivered), pos)
    else
      match ParseField(data, limit, pos)
      case None => Failed(delivered)
      case Some((at, length)) => ParseNames(count - 1, data, limit, at + length, delivered + [CStr(data, at)])
  }

  function Parse(c: Class, data: seq<byte>, limit: nat, pos: nat): (r: Parsed)
    requires limit <= |data|
    ensures r.Done? ==> ViewFits(c, r.view, limit)
  {
    match c
    case FixedClass(widths) =>
      (match ParseWords(widths, data, limit, pos)
       case None => Failed([])
       case Some(vs) => Done(Values(vs), pos + Sum(widths)))
    case TextClass =>
      (match ParseField(data, limit, pos)
       case None => Failed([])
       case Some((at, length)) => Done(CharsAt(at), at + length))
    case BlobClass =>
      (match ParseField(data, limit, pos)
       case None => Failed([])
       case Some((at, length)) => Done(BytesAt(at, length), at + length))
    case NamesClass =>
      if pos + 4 > limit then Failed([])
      else ParseNames(FromBigEndian(data[pos..pos + 4]), data, limit, pos + 4, [])
  }

  function StatFrom(vs: seq<nat>): Stat
    requires Fits(STAT_WIDTHS, vs)
  {
    PowersOfInterest();
    Stat(0, vs[0], vs[1], vs[2], vs[3], vs[4], vs[5], vs[6], 0, vs[7],
         vs[8], vs[9], vs[10], vs[11], vs[12], vs[13])
  }

  function VfsFrom(vs: seq<nat>): Vfs
    requires Fits(VFS_WIDTHS, vs)
  {
    PowersOfInterest();
    Vfs(vs[0], vs[1], vs[2], vs[3], vs[4], vs[5], vs[6], 0, 0, 0, vs[7])
  }

  /** The object a fixed-width type writes through `value`. */
  function FixedSlot(typ: int, vs: seq<nat>): Slot
    requires Known(typ) && ClassOf(typ).FixedClass? && Fits(ClassOf(typ).widths, vs)
  {
    PowersOfInterest();
    if IsWord32(typ) then W32(vs[0])
    else if typ == RPC_STAT then StatSlot(StatFrom(vs))
    else if typ == RPC_STATVFS then VfsSlot(VfsFrom(vs))
    else W64(vs[0])
  }

  /** snprintf(buffer, size, "%s", text). */
  function Printed(buffer: seq<byte>, size: nat, text: seq<byte>): (b: seq<byte>)
    requires size <= |buffer|
    ensures |b| == |buffer|
  {
    if size == 0 then buffer
    else
      var n := if |text| < size then |text| else size - 1;
      text[..n] + [0] + buffer[n + 1..]
  }

  /** memcpy of as much as fits. */
  function Copied(buffer: seq<byte>, size: nat, bytes: seq<byte>): (b: seq<byte>)
    requires size <= |buffer|
    ensures |b| == |buffer|
  {
    var n := if |bytes| < size then |bytes| else size;
    bytes[..n] + buffer[n..]
  }

  predicate HasSize(row: Row, mem: seq<Slot>) {
    row.extra.SizeAt? && row.extra.slot < |mem| && mem[row.extra.slot].W64?
  }

  /** What a decoder does with its view. */
  function Store(row: Row, view: View, data: seq<byte>, mem: seq<Slot>): (m: seq<Slot>)
    requires Known(row.typ)
    requires view.Delivered? || ViewFits(ClassOf(row.typ), view, |data|)
    ensures |m| == |mem|
  {
    if row.value >= |mem| then mem
    else
      match view
      case Values(vs) => mem[row.value := FixedSlot(row.typ, vs)]
      case CharsAt(at) =>
        if row.extra.Null? then mem[row.value := Ptr(at)]
        else if HasSize(row, mem) && mem[row.value].Buf? && mem[row.extra.slot].bits64 <= |mem[row.value].bytes| then
          mem[row.value := Buf(Printed(mem[row.value].bytes, mem[row.extra.slot].bits64, CStr(data, at)))]
        else mem
      case BytesAt(at, length) =>
        if !HasSize(row, mem) then mem
        else if mem[row.extra.slot].bits64 == BORROW then
          mem[row.value := Ptr(at)][row.extra.slot := W64(length)]
        else if mem[row.value].Buf? && mem[row.extra.slot].bits64 <= |mem[row.value].bytes| then
          mem[row.value := Buf(Copied(mem[row.value].bytes, mem[row.extra.slot].bits64, data[at..at + length]))]
        else mem
      case Delivered(names) =>
        if mem[row.value].List? then mem[row.value := List(mem[row.value].names + names)] else mem
  }

  datatype Decoded = Decoded(status: int, pos: nat, mem: seq<Slot>)

  /** The argument loop of the deserialiser. */
  function DeserializeRows(ms: seq<Row>, data: seq<byte>, limit: nat, pos: nat, mem: seq<Slot>): (r: Decoded)
    requires limit <= |data|
    ensures |r.mem| == |mem|
  {
    if ms == [] then Decoded(RPC_GOOD, pos, mem)
    else if !Known(ms[0].typ) then Decoded(RPC_BAD_UNKNOWN_DESERIALIZER, pos, mem)
    else
      match Parse(ClassOf(ms[0].typ), data, limit, pos)
      case Done(view, next) => DeserializeRows(ms[1..], data, limit, next, Store(ms[0], view, data, mem))
      case Failed(names) =>
        Decoded(RPC_BAD_DESERIALIZE_FAILED, pos, Store(ms[0], Delivered(names), data, mem))
  }

  /** The id of a message, or 0 when the message is too short to hold one. */
  function MethodId(data: seq<byte>, limit: nat): i32
    requires limit <= |data|
  {
    if 8 > limit then 0
    else
      U32Load(data[4..8]);
      Signed32(FromBigEndian(data[4..8]))
  }

  const DATA_OFFSET: nat := 8
}
