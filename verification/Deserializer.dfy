/**
 The deserialiser (rpc/deserializer.c and the decoders of rpc/type/), each method
 proved to take and store what the wire functions say.
 */
module Deserializer {
  import opened Words
  import opened Buffers
  import opened Wire
  import opened WireLaws
  import opened Tables

  /** A fixed-width load either takes its bytes or fails and leaves the cursor. */
  twostate predicate Took(cursor: Buffer, width: nat, status: int, value: nat)
    reads cursor, cursor.data
  {
    && old(cursor.Bounded()) && cursor.Bounded()
    && if old(cursor.size) + width <= cursor.capacity then
         && status == RPC_GOOD && cursor.size == old(cursor.size) + width
         && value == FromBigEndian(cursor.data[old(cursor.size)..old(cursor.size) + width])
       else
         status == RPC_BAD_DESERIALIZE_FAILED && cursor.size == old(cursor.size)
  }

  method DeserializeRawU32(cursor: Buffer) returns (status: int, value: u32)
    requires cursor.Bounded()
    modifies cursor`size
    ensures Took(cursor, 4, status, value)
  {
    value := 0;
    var ok, at := cursor.Read(4);
    if !ok {
      return RPC_BAD_DESERIALIZE_FAILED, value;
    }
    U32Load(cursor.data[at..at + 4]);
    var word := LoadWord(cursor.data, at, 4, 4);
    return RPC_GOOD, word;
  }

  method DeserializeRawInt(cursor: Buffer) returns (status: int, value: i32)
    requires cursor.Bounded()
    modifies cursor`size
    ensures Took(cursor, 4, status, Unsigned32(value))
  {
    value := 0;
    var ok, at := cursor.Read(4);
    if !ok {
      return RPC_BAD_DESERIALIZE_FAILED, value;
    }
    U32Load(cursor.data[at..at + 4]);
    var word := LoadWord(cursor.data, at, 4, 4);
    return RPC_GOOD, Signed32(word);
  }

  method DeserializeRawU64(cursor: Buffer) returns (status: int, value: u64)
    requires cursor.Bounded()
    modifies cursor`size
    ensures Took(cursor, 8, status, value)
  {
    value := 0;
    var ok, at := cursor.Read(8);
    if !ok {
      return RPC_BAD_DESERIALIZE_FAILED, value;
    }
    U64Load(cursor.data[at..at + 8]);
    var word := LoadWord(cursor.data, at, 8, 8);
    return RPC_GOOD, word;
  }

  /** A length-prefixed field: its offset and its length. */
  method DeserializeField(cursor: Buffer) returns (status: int, at: nat, length: u32)
    requires cursor.Bounded()
    modifies cursor`size
    ensures cursor.Bounded()
    ensures match ParseField(cursor.data[..], cursor.capacity, old(cursor.size))
            case Some((a, n)) =>
              status == RPC_GOOD && at == a && length == n && cursor.size == a + n
            case None =>
              status == RPC_BAD_DESERIALIZE_FAILED && old(cursor.size) <= cursor.size <= old(cursor.size) + 4
              && (old(cursor.size) <= cursor.capacity ==> cursor.size <= cursor.capacity)
    ensures status == RPC_GOOD ==>
              && at == old(cursor.size) + 4 && at + length <= cursor.data.Length
              && length == FromBigEndian(cursor.data[at - 4..at])
  {
    at := 0;
    ghost var start := cursor.size;
    status, length := DeserializeRawU32(cursor);
    if status == RPC_GOOD {
      assert cursor.data[..][start..start + 4] == cursor.data[start..start + 4];
      var ok, place := cursor.Read(length);
      at := place;
      if !ok {
        status := RPC_BAD_DESERIALIZE_FAILED;
      }
    }
  }

  // ------------------------------------------------------------ deserialising one row

  /** The caller's objects that argument rows point to. */
  class Memory {
    var slots: seq<Slot>

    constructor (slots: seq<Slot>)
      ensures this.slots == slots
    {
      this.slots := slots;
    }
  }

  /** A cursor only moves forward, and stays inside the message if it was inside. */
  predicate Within(start: nat, pos: nat, limit: nat) {
    start <= pos && (start <= limit ==> pos <= limit)
  }

  /** A row's decoder did to memory what `Parse` and `Store` say. */
  twostate predicate RowDecoded(cursor: Buffer, row: Row, mem: Memory, status: int)
    requires Known(row.typ)
    reads cursor, cursor.data, mem
  {
    && cursor.Bounded() && cursor.data == old(cursor.data) && cursor.capacity == old(cursor.capacity)
    && match Parse(ClassOf(row.typ), cursor.data[..], cursor.capacity, old(cursor.size))
       case Done(view, next) =>
         && status == RPC_GOOD && cursor.size == next
         && mem.slots == Store(row, view, cursor.data[..], old(mem.slots))
       case Failed(names) =>
         && status == RPC_BAD_DESERIALIZE_FAILED && Within(old(cursor.size), cursor.size, cursor.capacity)
         && mem.slots == Store(row, Delivered(names), cursor.data[..], old(mem.slots))
  }

  lemma ParseOneWord(width: nat, data: seq<byte>, limit: nat, pos: nat)
    requires limit <= |data|
    ensures ParseWords([width], data, limit, pos)
         == if pos + width > limit then None else Some([FromBigEndian(data[pos..pos + width])])
    ensures Sum([width]) == width
  {
    hide FromBigEndian;
    assert [width][1..] == [];
    assert Sum([]) == 0;
    if pos + width <= limit {
      var v := FromBigEndian(data[pos..pos + width]);
      assert ParseWords([], data, limit, pos + width) == Some([]);
      assert [v] + [] == [v];
    }
  }

  /** A failed decoder of anything but a list changes no object. */
  lemma NothingStored(row: Row, data: seq<byte>, mem: seq<Slot>)
    requires Known(row.typ)
    ensures Store(row, Delivered([]), data, mem) == mem
  {
    if row.value < |mem| && mem[row.value].List? {
      assert mem[row.value].names + [] == mem[row.value].names;
      assert mem[row.value := List(mem[row.value].names)] == mem;
      assert Store(row, Delivered([]), data, mem) == mem[row.value := List(mem[row.value].names + [])];
    }
  }

  /** int, mode_t, uid_t and gid_t; an int is the cast of the loaded word. */
  method DeserializeWord32(cursor: Buffer, row: Row, mem: Memory) returns (status: int)
    requires cursor.Bounded() && IsWord32(row.typ) && Storable(row, mem.slots)
    modifies cursor`size, mem
    ensures RowDecoded(cursor, row, mem, status)
  {
    hide BigEndian, FromBigEndian;
    ghost var bytes, start := cursor.data[..], cursor.size;
    ParseOneWord(4, bytes, cursor.capacity, start);
    assert start + 4 <= cursor.capacity ==> bytes[start..start + 4] == cursor.data[start..start + 4];
    NothingStored(row, bytes, mem.slots);
    if row.typ == RPC_INT {
      var value: int;
      status, value := DeserializeRawInt(cursor);
      if status == RPC_GOOD {
        mem.slots := mem.slots[row.value := W32(Unsigned32(value))];
      }
    } else {
      var value: int;
      status, value := DeserializeRawU32(cursor);
      if status == RPC_GOOD {
        mem.slots := mem.slots[row.value := W32(value)];
      }
    }
  }

  method DeserializeSize(cursor: Buffer, row: Row, mem: Memory) returns (status: int)
    requires cursor.Bounded() && row.typ == RPC_SIZE && Storable(row, mem.slots)
    modifies cursor`size, mem
    ensures RowDecoded(cursor, row, mem, status)
  {
    hide BigEndian, FromBigEndian;
    ghost var bytes, start := cursor.data[..], cursor.size;
    ParseOneWord(4, bytes, cursor.capacity, start);
    assert start + 4 <= cursor.capacity ==> bytes[start..start + 4] == cursor.data[start..start + 4];
    NothingStored(row, bytes, mem.slots);
    var value: int;
    status, value := DeserializeRawU32(cursor);
    if status == RPC_GOOD {
      mem.slots := mem.slots[row.value := W64(value)];
    }
  }

  /** uint64_t, off_t and dev_t. */
  method DeserializeWord64(cursor: Buffer, row: Row, mem: Memory) returns (status: int)
    requires cursor.Bounded() && IsWord64(row.typ) && Storable(row, mem.slots)
    modifies cursor`size, mem
    ensures RowDecoded(cursor, row, mem, status)
  {
    hide BigEndian, FromBigEndian;
    ghost var bytes, start := cursor.data[..], cursor.size;
    ParseOneWord(8, bytes, cursor.capacity, start);
    assert start + 8 <= cursor.capacity ==> bytes[start..start + 8] == cursor.data[start..start + 8];
    NothingStored(row, bytes, mem.slots);
    var value: int;
    status, value := DeserializeRawU64(cursor);
    if status == RPC_GOOD {
      mem.slots := mem.slots[row.value := W64(value)];
    }
  }

  /** Without `extra` the caller gets a pointer into the message; with it, a copy
      printed into the caller's buffer. */
  method DeserializeString(cursor: Buffer, row: Row, mem: Memory) returns (status: int)
    requires cursor.Bounded() && row.typ == RPC_STRING && Storable(row, mem.slots)
    modifies cursor`size, mem
    ensures RowDecoded(cursor, row, mem, status)
    ensures |mem.slots| == |old(mem.slots)|
    ensures status == RPC_GOOD && !row.extra.Null? ==>
              var before, after := old(mem.slots)[row.value], mem.slots[row.value];
              var size, text := old(mem.slots)[row.extra.slot].bits64, CStr(cursor.data[..], old(cursor.size) + 4);
              && after.Buf? && |after.bytes| == |before.bytes|
              && (size == 0 ==> after == before)
              && (size > 0 ==>
                    var n := if |text| < size then |text| else size - 1;
                    && CStr(after.bytes, 0) == text[..n]
                    && forall i :: n < i < |before.bytes| ==> after.bytes[i] == before.bytes[i])
  {
    hide ParseField, CStr, Printed;
    NothingStored(row, cursor.data[..], mem.slots);
    var at, length;
    status, at, length := DeserializeField(cursor);
    if status == RPC_GOOD {
      if row.extra.Null? {
        mem.slots := mem.slots[row.value := Ptr(at)];
      } else {
        var size := mem.slots[row.extra.slot].bits64;
        var text := CStr(cursor.data[..], at);
        TextHasNoNul(cursor.data[..], at);
        PrintedAt(mem.slots[row.value].bytes, size, text);
        mem.slots := mem.slots[row.value := Buf(Printed(mem.slots[row.value].bytes, size, text))];
      }
    }
  }

  /** With the sentinel size the caller gets a pointer and the length; otherwise as
      many bytes as fit are copied and the size is left alone. */
  method DeserializeBytes(cursor: Buffer, row: Row, mem: Memory) returns (status: int)
    requires cursor.Bounded() && row.typ == RPC_BYTES && Storable(row, mem.slots)
    modifies cursor`size, mem
    ensures RowDecoded(cursor, row, mem, status)
    ensures |mem.slots| == |old(mem.slots)|
    ensures status == RPC_GOOD ==> old(cursor.size) + 4 <= cursor.data.Length
    ensures status == RPC_GOOD && old(mem.slots)[row.extra.slot].bits64 != 0xffff_ffff_ffff_ffff ==>
              var before, after := old(mem.slots)[row.value], mem.slots[row.value];
              var size, at := old(mem.slots)[row.extra.slot].bits64, old(cursor.size) + 4;
              var length := FromBigEndian(cursor.data[at - 4..at]);
              && at + length <= cursor.data.Length
              && after.Buf? && |after.bytes| == |before.bytes|
              && forall i :: 0 <= i < |before.bytes| ==>
                   after.bytes[i] == if i < length && i < size then cursor.data[at + i] else before.bytes[i]
  {
    hide ParseField, Copied, FromBigEndian;
    NothingStored(row, cursor.data[..], mem.slots);
    var at, length;
    status, at, length := DeserializeField(cursor);
    if status == RPC_GOOD {
      var size := mem.slots[row.extra.slot].bits64;
      if size != BORROW {
        var bytes := cursor.data[..][at..at + length];
        CopiedAt(mem.slots[row.value].bytes, size, bytes);
        mem.slots := mem.slots[row.value := Buf(Copied(mem.slots[row.value].bytes, size, bytes))];
      } else {
        mem.slots := mem.slots[row.value := Ptr(at)];
        mem.slots := mem.slots[row.extra.slot := W64(length)];
      }
    }
  }

  /** Hands each name to the callback as soon as it is decoded; what the callback
      returns is ignored. */
  method DeserializeStringList(cursor: Buffer, row: Row, mem: Memory) returns (status: int)
    requires cursor.Bounded() && row.typ == RPC_STRINGLIST && Storable(row, mem.slots)
    modifies cursor`size, mem
    ensures RowDecoded(cursor, row, mem, status)
  {
    hide BigEndian, FromBigEndian, ParseField, CStr;
    ghost var bytes, start, before := cursor.data[..], cursor.size, mem.slots;
    assert start + 4 <= cursor.capacity ==> bytes[start..start + 4] == cursor.data[start..start + 4];
    NothingStored(row, bytes, mem.slots);
    var count: int;
    status, count := DeserializeRawU32(cursor);
    if status == RPC_GOOD {
      status := DeserializeEntries(cursor, row, mem, count);
    }
  }

  method DeserializeEntries(cursor: Buffer, row: Row, mem: Memory, count: u32) returns (status: int)
    requires cursor.Bounded() && row.value < |mem.slots| && mem.slots[row.value].List?
    modifies cursor`size, mem
    ensures cursor.Bounded()
    ensures match ParseNames(count, cursor.data[..], cursor.capacity, old(cursor.size), [])
            case Done(view, next) =>
              && status == RPC_GOOD && cursor.size == next
              && mem.slots == old(mem.slots)[row.value := List(old(mem.slots)[row.value].names + view.names)]
            case Failed(names) =>
              && status == RPC_BAD_DESERIALIZE_FAILED && Within(old(cursor.size), cursor.size, cursor.capacity)
              && mem.slots == old(mem.slots)[row.value := List(old(mem.slots)[row.value].names + names)]
  {
    hide ParseField, CStr;
    ghost var bytes, limit, start, before := cursor.data[..], cursor.capacity, cursor.size, mem.slots;
    ghost var delivered: seq<seq<byte>> := [];
    assert before[row.value].names + delivered == before[row.value].names;
    assert List(before[row.value].names) == before[row.value];
    assert before == before[row.value := before[row.value]];
    status := RPC_GOOD;
    var i := 0;
    while status == RPC_GOOD && i < count
      invariant 0 <= i <= count
      invariant cursor.Bounded() && Within(start, cursor.size, limit)
      invariant mem.slots == before[row.value := List(before[row.value].names + delivered)]
      invariant status == RPC_GOOD ==>
                  ParseNames(count, bytes, limit, start, [])
                  == ParseNames(count - i, bytes, limit, cursor.size, delivered)
      invariant status != RPC_GOOD ==>
                  status == RPC_BAD_DESERIALIZE_FAILED
                  && ParseNames(count, bytes, limit, start, []) == Failed(delivered)
      decreases count - i
    {
      var at, length;
      status, at, length := DeserializeField(cursor);
      if status == RPC_GOOD {
        var name := CStr(cursor.data[..], at);
        mem.slots := mem.slots[row.value := List(mem.slots[row.value].names + [name])];
        assert before[row.value].names + (delivered + [name]) == before[row.value].names + delivered + [name];
        delivered := delivered + [name];
      }
      i := i + 1;
    }
  }

  /** A record in the middle of being read: `vals` are read, `rest` widths are to come. */
  datatype Progress = Progress(widths: seq<nat>, start: nat, rest: seq<nat>, vals: seq<nat>)

  ghost predicate Reading(p: Progress, data: seq<byte>, limit: nat, pos: nat, status: int) {
    && limit <= |data|
    && if status == RPC_GOOD then
         && pos + Sum(p.rest) == p.start + Sum(p.widths)
         && ParseWords(p.widths, data, limit, p.start)
            == match ParseWords(p.rest, data, limit, pos) case None => None case Some(vs) => Some(p.vals + vs)
       else
         && status == RPC_BAD_DESERIALIZE_FAILED
         && ParseWords(p.widths, data, limit, p.start).None?
         && Within(p.start, pos, limit)
  }

  function Advance(p: Progress, value: nat): Progress
    requires p.rest != []
  {
    p.(rest := p.rest[1..], vals := p.vals + [value])
  }

  lemma StartsReading(widths: seq<nat>, data: seq<byte>, limit: nat, pos: nat)
    requires limit <= |data|
    ensures Reading(Progress(widths, pos, widths, []), data, limit, pos, RPC_GOOD)
  {
    match ParseWords(widths, data, limit, pos)
    case None =>
    case Some(vs) => assert [] + vs == vs;
  }

  lemma WordsStep(widths: seq<nat>, data: seq<byte>, limit: nat, pos: nat, v: nat)
    requires limit <= |data| && widths != [] && pos + widths[0] <= limit
    requires v == FromBigEndian(data[pos..pos + widths[0]])
    ensures ParseWords(widths, data, limit, pos)
         == match ParseWords(widths[1..], data, limit, pos + widths[0])
            case None => None
            case Some(vs) => Some([v] + vs)
    ensures Sum(widths) == widths[0] + Sum(widths[1..])
  {
    hide FromBigEndian;
  }

  lemma ReadsOne(p: Progress, data: seq<byte>, limit: nat, pos: nat, v: nat)
    requires Reading(p, data, limit, pos, RPC_GOOD) && p.rest != []
    requires pos + p.rest[0] <= limit
    requires v == FromBigEndian(data[pos..pos + p.rest[0]])
    ensures Reading(Advance(p, v), data, limit, pos + p.rest[0], RPC_GOOD)
  {
    hide FromBigEndian, ParseWords, Sum;
    WordsStep(p.rest, data, limit, pos, v);
    var later := ParseWords(p.rest[1..], data, limit, pos + p.rest[0]);
    if later.Some? {
      assert p.vals + [v] + later.value == p.vals + ([v] + later.value);
    }
  }

  lemma ReadsNone(p: Progress, data: seq<byte>, limit: nat, pos: nat, status: int, v: nat)
    requires p.rest != [] && Reading(p, data, limit, pos, status) && Within(p.start, pos, limit)
    requires status == RPC_GOOD ==> pos + p.rest[0] > limit
    ensures Reading(Advance(p, v), data, limit, pos, RPC_BAD_DESERIALIZE_FAILED)
  {
    hide FromBigEndian;
  }

  /** The next field, unless an earlier one has failed. */
  method NextU64(cursor: Buffer, before: int, ghost p: Progress, ghost bytes: seq<byte>)
    returns (status: int, value: u64, ghost q: Progress)
    requires cursor.Bounded() && bytes == cursor.data[..] && p.rest != [] && p.rest[0] == 8
    requires Reading(p, bytes, cursor.capacity, cursor.size, before) && Within(p.start, cursor.size, cursor.capacity)
    modifies cursor`size
    ensures cursor.Bounded() && bytes == cursor.data[..] && q == Advance(p, value)
    ensures Reading(q, bytes, cursor.capacity, cursor.size, status) && Within(p.start, cursor.size, cursor.capacity)
  {
    hide BigEndian, FromBigEndian;
    status, value := before, 0;
    ghost var pos := cursor.size;
    if status == RPC_GOOD {
      if pos + 8 <= cursor.capacity {
        ReadsOne(p, bytes, cursor.capacity, pos, FromBigEndian(bytes[pos..pos + 8]));
        assert bytes[pos..pos + 8] == cursor.data[pos..pos + 8];
      }
      hide Reading;
      status, value := DeserializeRawU64(cursor);
      if status != RPC_GOOD {
        ReadsNone(p, bytes, cursor.capacity, pos, RPC_GOOD, value);
      }
    } else {
      FailsReading(p, bytes, cursor.capacity, pos, status);
      ReadsNone(p, bytes, cursor.capacity, pos, status, value);
    }
    q := Advance(p, value);
  }

  method NextU32(cursor: Buffer, before: int, ghost p: Progress, ghost bytes: seq<byte>)
    returns (status: int, value: u32, ghost q: Progress)
    requires cursor.Bounded() && bytes == cursor.data[..] && p.rest != [] && p.rest[0] == 4
    requires Reading(p, bytes, cursor.capacity, cursor.size, before) && Within(p.start, cursor.size, cursor.capacity)
    modifies cursor`size
    ensures cursor.Bounded() && bytes == cursor.data[..] && q == Advance(p, value)
    ensures Reading(q, bytes, cursor.capacity, cursor.size, status) && Within(p.start, cursor.size, cursor.capacity)
  {
    hide BigEndian, FromBigEndian;
    status, value := before, 0;
    ghost var pos := cursor.size;
    if status == RPC_GOOD {
      if pos + 4 <= cursor.capacity {
        ReadsOne(p, bytes, cursor.capacity, pos, FromBigEndian(bytes[pos..pos + 4]));
        assert bytes[pos..pos + 4] == cursor.data[pos..pos + 4];
      }
      hide Reading;
      status, value := DeserializeRawU32(cursor);
      if status != RPC_GOOD {
        ReadsNone(p, bytes, cursor.capacity, pos, RPC_GOOD, value);
      }
    } else {
      FailsReading(p, bytes, cursor.capacity, pos, status);
      ReadsNone(p, bytes, cursor.capacity, pos, status, value);
    }
    q := Advance(p, value);
  }

  lemma FinishesReading(p: Progress, data: seq<byte>, limit: nat, pos: nat, status: int)
    requires Reading(p, data, limit, pos, status) && p.rest == []
    ensures status == RPC_GOOD ==>
              ParseWords(p.widths, data, limit, p.start) == Some(p.vals) && pos == p.start + Sum(p.widths)
  {
    assert p.vals + [] == p.vals;
  }

  /** The field loop of the statvfs decoder. */
  method ReadFields(cursor: Buffer, ghost bytes: seq<byte>, ghost widths: seq<nat>)
    returns (status: int, fields: seq<u64>, ghost p: Progress)
    requires cursor.Bounded() && bytes == cursor.data[..]
    requires |widths| == 8 && forall k :: 0 <= k < 8 ==> widths[k] == 8
    modifies cursor`size
    ensures cursor.Bounded() && bytes == cursor.data[..] && Within(p.start, cursor.size, cursor.capacity)
    ensures p.widths == widths && p.start == old(cursor.size)
    ensures status == RPC_GOOD ==> |fields| == 8 && p.rest == [] && p.vals == fields
    ensures Reading(p, bytes, cursor.capacity, cursor.size, status)
  {
    StartsReading(widths, bytes, cursor.capacity, cursor.size);
    p := Progress(widths, cursor.size, widths, []);
    hide Reading, ParseWords, Sum;
    fields := [];
    status := RPC_GOOD;
    var i := 0;
    while status == RPC_GOOD && i < 8
      invariant 0 <= i <= 8 && |fields| == i
      invariant cursor.Bounded() && bytes == cursor.data[..] && Within(p.start, cursor.size, cursor.capacity)
      invariant p.widths == widths && p.start == old(cursor.size)
      invariant |p.rest| == 8 - i && (forall k :: 0 <= k < 8 - i ==> p.rest[k] == 8)
      invariant p.vals == fields
      invariant Reading(p, bytes, cursor.capacity, cursor.size, status)
      decreases 8 - i
    {
      var field;
      status, field, p := NextU64(cursor, status, p, bytes);
      fields := fields + [field];
      i := i + 1;
    }
  }

  method DeserializeStatVfs(cursor: Buffer, row: Row, mem: Memory) returns (status: int)
    requires cursor.Bounded() && row.typ == RPC_STATVFS && Storable(row, mem.slots)
    modifies cursor`size, mem
    ensures RowDecoded(cursor, row, mem, status)
  {
    hide Reading;
    ghost var bytes := cursor.data[..];
    NothingStored(row, bytes, mem.slots);
    var fields;
    ghost var p;
    status, fields, p := ReadFields(cursor, bytes, VFS_WIDTHS);
    if status == RPC_GOOD {
      FinishesReading(p, bytes, cursor.capacity, cursor.size, status);
      mem.slots := mem.slots[row.value :=
        VfsSlot(Vfs(fields[0], fields[1], fields[2], fields[3], fields[4], fields[5], fields[6], 0, 0, 0, fields[7]))];
    } else {
      FailsReading(p, bytes, cursor.capacity, cursor.size, status);
    }
  }

  lemma FailsReading(p: Progress, data: seq<byte>, limit: nat, pos: nat, status: int)
    requires Reading(p, data, limit, pos, status) && status != RPC_GOOD
    ensures ParseWords(p.widths, data, limit, p.start).None? && status == RPC_BAD_DESERIALIZE_FAILED
    ensures Within(p.start, pos, limit)
  {
  }

  /** st_mode, st_nlink, st_uid and st_gid. */
  method NextOwner(cursor: Buffer, before: int, ghost p: Progress, ghost bytes: seq<byte>, ghost tail: seq<nat>)
    returns (status: int, mode: u32, nlink: u64, uid: u32, gid: u32, ghost q: Progress)
    requires cursor.Bounded() && bytes == cursor.data[..]
    requires p.rest == [4, 8, 4, 4] + tail
    requires Reading(p, bytes, cursor.capacity, cursor.size, before) && Within(p.start, cursor.size, cursor.capacity)
    modifies cursor`size
    ensures cursor.Bounded() && bytes == cursor.data[..]
    ensures q == p.(rest := tail, vals := p.vals + [mode, nlink, uid, gid])
    ensures Reading(q, bytes, cursor.capacity, cursor.size, status) && Within(p.start, cursor.size, cursor.capacity)
  {
    hide Reading, Within;
    status, mode, q := NextU32(cursor, before, p, bytes);
    status, nlink, q := NextU64(cursor, status, q, bytes);
    status, uid, q := NextU32(cursor, status, q, bytes);
    status, gid, q := NextU32(cursor, status, q, bytes);
  }

  /** st_rdev, st_size and st_blocks. */
  method NextSizes(cursor: Buffer, before: int, ghost p: Progress, ghost bytes: seq<byte>, ghost tail: seq<nat>)
    returns (status: int, rdev: u64, size: u64, blocks: u64, ghost q: Progress)
    requires cursor.Bounded() && bytes == cursor.data[..]
    requires p.rest == [8, 8, 8] + tail
    requires Reading(p, bytes, cursor.capacity, cursor.size, before) && Within(p.start, cursor.size, cursor.capacity)
    modifies cursor`size
    ensures cursor.Bounded() && bytes == cursor.data[..]
    ensures q == p.(rest := tail, vals := p.vals + [rdev, size, blocks])
    ensures Reading(q, bytes, cursor.capacity, cursor.size, status) && Within(p.start, cursor.size, cursor.capacity)
  {
    hide Reading, Within;
    status, rdev, q := NextU64(cursor, before, p, bytes);
    status, size, q := NextU64(cursor, status, q, bytes);
    status, blocks, q := NextU64(cursor, status, q, bytes);
  }

  /** Seconds and nanoseconds of the three times. */
  method NextTimes(cursor: Buffer, before: int, ghost p: Progress, ghost bytes: seq<byte>, ghost tail: seq<nat>)
    returns (status: int, atimeSec: u32, atimeNsec: u32, mtimeSec: u32, mtimeNsec: u32, ctimeSec: u32, ctimeNsec: u32,
             ghost q: Progress)
    requires cursor.Bounded() && bytes == cursor.data[..]
    requires p.rest == [4, 4, 4, 4, 4, 4] + tail
    requires Reading(p, bytes, cursor.capacity, cursor.size, before) && Within(p.start, cursor.size, cursor.capacity)
    modifies cursor`size
    ensures cursor.Bounded() && bytes == cursor.data[..]
    ensures q == p.(rest := tail, vals := p.vals + [atimeSec, atimeNsec, mtimeSec, mtimeNsec, ctimeSec, ctimeNsec])
    ensures Reading(q, bytes, cursor.capacity, cursor.size, status) && Within(p.start, cursor.size, cursor.capacity)
  {
    hide Reading, Within;
    status, atimeSec, q := NextU32(cursor, before, p, bytes);
    status, atimeNsec, q := NextU32(cursor, status, q, bytes);
    status, mtimeSec, q := NextU32(cursor, status, q, bytes);
    status, mtimeNsec, q := NextU32(cursor, status, q, bytes);
    status, ctimeSec, q := NextU32(cursor, status, q, bytes);
    status, ctimeNsec, q := NextU32(cursor, status, q, bytes);
  }

  lemma StatFields(ino: u64, mode: u32, nlink: u64, uid: u32, gid: u32, rdev: u64, size: u64, blocks: u64,
                   asec: u32, ansec: u32, msec: u32, mnsec: u32, csec: u32, cnsec: u32)
    ensures var vals := [ino, mode, nlink, uid, gid, rdev, size, blocks, asec, ansec, msec, mnsec, csec, cnsec];
            && Fits(STAT_WIDTHS, vals)
            && StatFrom(vals) == Stat(0, ino, mode, nlink, uid, gid, rdev, size, 0, blocks,
                                      asec, ansec, msec, mnsec, csec, cnsec)
  {
    PowersOfInterest();
    hide Pow256;
  }

  /** All fields, each read only if the ones before it were. */
  method ReadStat(cursor: Buffer, ghost bytes: seq<byte>, ghost widths: seq<nat>)
    returns (status: int, stat: Stat, ghost p: Progress)
    requires cursor.Bounded() && bytes == cursor.data[..]
    requires widths == [8] + ([4, 8, 4, 4] + ([8, 8, 8] + ([4, 4, 4, 4, 4, 4] + [])))
    modifies cursor`size
    ensures cursor.Bounded() && bytes == cursor.data[..]
    ensures p.widths == widths && p.start == old(cursor.size) && p.rest == []
    ensures Fits(STAT_WIDTHS, p.vals) && stat == StatFrom(p.vals)
    ensures Reading(p, bytes, cursor.capacity, cursor.size, status)
  {
    hide ParseWords, Sum, Fits, StatFrom, Pow256;
    ghost var times: seq<nat> := [4, 4, 4, 4, 4, 4] + [];
    ghost var sizes: seq<nat> := [8, 8, 8] + times;
    ghost var owner: seq<nat> := [4, 8, 4, 4] + sizes;
    p := Progress(widths, cursor.size, widths, []);
    StartsReading(widths, bytes, cursor.capacity, cursor.size);
    hide Reading;
    assert widths[1..] == owner;
    var ino, mode, nlink, uid, gid, rdev, size, blocks, asec, ansec, msec, mnsec, csec, cnsec;
    status, ino, p := NextU64(cursor, RPC_GOOD, p, bytes);
    status, mode, nlink, uid, gid, p := NextOwner(cursor, status, p, bytes, sizes);
    status, rdev, size, blocks, p := NextSizes(cursor, status, p, bytes, times);
    status, asec, ansec, msec, mnsec, csec, cnsec, p := NextTimes(cursor, status, p, bytes, []);
    stat := Stat(0, ino, mode, nlink, uid, gid, rdev, size, 0, blocks, asec, ansec, msec, mnsec, csec, cnsec);
    assert p.vals == [ino, mode, nlink, uid, gid, rdev, size, blocks, asec, ansec, msec, mnsec, csec, cnsec];
    StatFields(ino, mode, nlink, uid, gid, rdev, size, blocks, asec, ansec, msec, mnsec, csec, cnsec);
  }

  method DeserializeStat(cursor: Buffer, row: Row, mem: Memory) returns (status: int)
    requires cursor.Bounded() && row.typ == RPC_STAT && Storable(row, mem.slots)
    modifies cursor`size, mem
    ensures RowDecoded(cursor, row, mem, status)
  {
    hide Reading, StatFrom, Fits, ParseWords, Sum;
    ghost var bytes := cursor.data[..];
    NothingStored(row, bytes, mem.slots);
    var stat;
    ghost var p;
    status, stat, p := ReadStat(cursor, bytes, STAT_WIDTHS);
    if status == RPC_GOOD {
      FinishesReading(p, bytes, cursor.capacity, cursor.size, status);
      mem.slots := mem.slots[row.value := StatSlot(stat)];
    } else {
      FailsReading(p, bytes, cursor.capacity, cursor.size, status);
    }
  }

  /** Dispatch by type id; an unknown id takes nothing and stores nothing. */
  method DeserializeRow(cursor: Buffer, row: Row, mem: Memory) returns (status: int)
    requires cursor.Bounded() && (Known(row.typ) ==> Storable(row, mem.slots))
    modifies cursor`size, mem
    ensures Known(row.typ) ==> RowDecoded(cursor, row, mem, status)
    ensures !Known(row.typ) ==>
              (status == RPC_BAD_UNKNOWN_DESERIALIZER
               && cursor.size == old(cursor.size) && mem.slots == old(mem.slots))
  {
    hide RowDecoded, Storable;
    if row.typ == RPC_INT || row.typ == RPC_MODE || row.typ == RPC_UID || row.typ == RPC_GID {
      status := DeserializeWord32(cursor, row, mem);
    } else if row.typ == RPC_STRING {
      status := DeserializeString(cursor, row, mem);
    } else if row.typ == RPC_SIZE {
      status := DeserializeSize(cursor, row, mem);
    } else if row.typ == RPC_UINT64 || row.typ == RPC_OFFSET || row.typ == RPC_DEV {
      status := DeserializeWord64(cursor, row, mem);
    } else if row.typ == RPC_STAT {
      status := DeserializeStat(cursor, row, mem);
    } else if row.typ == RPC_STATVFS {
      status := DeserializeStatVfs(cursor, row, mem);
    } else if row.typ == RPC_STRINGLIST {
      status := DeserializeStringList(cursor, row, mem);
    } else if row.typ == RPC_BYTES {
      status := DeserializeBytes(cursor, row, mem);
    } else {
      status := RPC_BAD_UNKNOWN_DESERIALIZER;
    }
  }

  // ------------------------------------------------------------ deserialising a table

  /** The rows of known type can be received: their slots fit and do not overlap. */
  ghost predicate AllStorable(ms: seq<Row>, mem: seq<Slot>) {
    && Separate(ms)
    && forall k :: 0 <= k < |ms| && Known(ms[k].typ) ==> Storable(ms[k], mem)
  }

  lemma StoreIsLocal(row: Row, view: View, data: seq<byte>, mem: seq<Slot>)
    requires Known(row.typ) && (view.Delivered? || ViewFits(ClassOf(row.typ), view, |data|))
    ensures forall s :: 0 <= s < |mem| && s !in Footprint(row) ==> Store(row, view, data, mem)[s] == mem[s]
  {
  }

  lemma AllStorableRest(row: Row, ms: seq<Row>, view: View, data: seq<byte>, mem: seq<Slot>)
    requires Known(row.typ) && (view.Delivered? || ViewFits(ClassOf(row.typ), view, |data|))
    requires AllStorable([row] + ms, mem)
    ensures AllStorable(ms, Store(row, view, data, mem))
  {
    hide Storable, Store, Footprint;
    var all := [row] + ms;
    assert forall k :: 0 <= k < |ms| ==> ms[k] == all[k + 1];
    StoreIsLocal(row, view, data, mem);
    forall k | 0 <= k < |ms| && Known(ms[k].typ)
      ensures Storable(ms[k], Store(row, view, data, mem))
    {
      assert Footprint(all[0]) !! Footprint(all[k + 1]);
      assert Storable(all[k + 1], mem);
      StorableIsLocal(ms[k], mem, Store(row, view, data, mem));
    }
  }

  /** The rows `ms` are still to come at `pos`. */
  ghost predicate DeserializedUpTo(all: Decoded, status: int, ms: seq<Row>, data: seq<byte>, limit: nat, pos: nat,
                                   mem: seq<Slot>)
  {
    && limit <= |data|
    && AllStorable(ms, mem)
    && if status == RPC_GOOD then all == DeserializeRows(ms, data, limit, pos, mem)
       else all.status == status && all.mem == mem
  }

  lemma DeserializeStep(all: Decoded, row: Row, ms: seq<Row>, data: seq<byte>, limit: nat, pos: nat, mem: seq<Slot>)
    requires DeserializedUpTo(all, RPC_GOOD, [row] + ms, data, limit, pos, mem)
    ensures Known(row.typ) ==>
              Storable(row, mem)
              && match Parse(ClassOf(row.typ), data, limit, pos)
                 case Done(view, next) =>
                   DeserializedUpTo(all, RPC_GOOD, ms, data, limit, next, Store(row, view, data, mem))
                 case Failed(names) =>
                   DeserializedUpTo(all, RPC_BAD_DESERIALIZE_FAILED, ms, data, limit, pos,
                                    Store(row, Delivered(names), data, mem))
    ensures !Known(row.typ) ==> DeserializedUpTo(all, RPC_BAD_UNKNOWN_DESERIALIZER, ms, data, limit, pos, mem)
  {
    hide Storable, Store, Parse, AllStorable, ClassOf;
    var rows := [row] + ms;
    assert rows[0] == row && rows[1..] == ms;
    FirstStorable(row, ms, mem);
    if Known(row.typ) {
      match Parse(ClassOf(row.typ), data, limit, pos)
      case Done(view, next) =>
        OneRowDecodes(rows, data, limit, pos, mem, view, next);
        AllStorableRest(row, ms, view, data, mem);
      case Failed(names) =>
        AllStorableRest(row, ms, Delivered(names), data, mem);
    }
  }

  lemma FirstStorable(row: Row, ms: seq<Row>, mem: seq<Slot>)
    requires AllStorable([row] + ms, mem)
    ensures Known(row.typ) ==> Storable(row, mem)
    ensures AllStorable(ms, mem)
  {
    hide Storable, Footprint;
    var rows := [row] + ms;
    assert rows[0] == row;
    assert forall k :: 0 <= k < |ms| ==> ms[k] == rows[k + 1];
  }

  /** One turn of the argument loop; the cursor's position matters only while the
      status is good. */
  method DeserializeTurn(cursor: Buffer, direction: int, rows: seq<Row>, i: nat, mem: Memory,
                         ghost all: Decoded, ghost bytes: seq<byte>) returns (status: int)
    requires cursor.Bounded() && i < |rows| && rows[i].direction != RPC_END && bytes == cursor.data[..]
    requires DeserializedUpTo(all, RPC_GOOD, Rest(direction, rows, i), bytes, cursor.capacity, cursor.size, mem.slots)
    modifies cursor`size, mem
    ensures cursor.Bounded() && bytes == cursor.data[..]
    ensures Within(old(cursor.size), cursor.size, cursor.capacity)
    ensures DeserializedUpTo(all, status, Rest(direction, rows, i + 1), bytes, cursor.capacity, cursor.size, mem.slots)
  {
    hide Storable, Store, Parse, AllStorable, ClassOf, Rest, DeserializeRows;
    RestStep(direction, rows, i);
    if rows[i].direction == direction {
      DeserializeStep(all, rows[i], Rest(direction, rows, i + 1), bytes, cursor.capacity, cursor.size, mem.slots);
      if Known(rows[i].typ) {
        ParseAdvances(ClassOf(rows[i].typ), bytes, cursor.capacity, cursor.size);
      }
      status := DeserializeRow(cursor, rows[i], mem);
    } else {
      status := RPC_GOOD;
    }
  }

  lemma ParseAdvances(c: Class, data: seq<byte>, limit: nat, pos: nat)
    requires limit <= |data|
    ensures match Parse(c, data, limit, pos)
            case Done(_, next) => Within(pos, next, limit)
            case Failed(_) => true
  {
    if pos <= limit {
      ParseBounded(c, data, limit, pos);
    } else {
      match c
      case FixedClass(_) =>
      case TextClass =>
      case BlobClass =>
      case NamesClass =>
    }
  }

  lemma EndsDeserialized(all: Decoded, status: int, ms: seq<Row>, data: seq<byte>, limit: nat, pos: nat,
                         mem: seq<Slot>)
    requires DeserializedUpTo(all, status, ms, data, limit, pos, mem)
    requires status != RPC_GOOD || ms == []
    ensures all.status == status && all.mem == mem
  {
  }

  /** Decodes the rows of one direction from a received message. */
  method Deserialize(buffer: Buffer, direction: int, rows: seq<Row>, mem: Memory) returns (status: int)
    requires buffer.Valid() && Terminated(rows)
    requires AllStorable(Matching(direction, rows), mem.slots)
    modifies mem
    ensures buffer.Valid() && buffer.data[..] == old(buffer.data[..])
    ensures status == DeserializeRows(Matching(direction, rows), buffer.data[..], buffer.size, DATA_OFFSET,
                                      old(mem.slots)).status
    ensures mem.slots == DeserializeRows(Matching(direction, rows), buffer.data[..], buffer.size, DATA_OFFSET,
                                         old(mem.slots)).mem
  {
    hide AllStorable, DeserializeRows, Matching, Rest;
    ghost var bytes := buffer.data[..];
    ghost var all := DeserializeRows(Matching(direction, rows), bytes, buffer.size, DATA_OFFSET, mem.slots);
    var cursor := new Buffer.View(buffer.data, DATA_OFFSET, buffer.size);
    RestStarts(direction, rows);
    assert DeserializedUpTo(all, RPC_GOOD, Rest(direction, rows, 0), bytes, cursor.capacity, cursor.size, mem.slots);
    hide DeserializedUpTo;
    status := RPC_GOOD;
    var i := 0;
    while status == RPC_GOOD && rows[i].direction != RPC_END
      invariant 0 <= i < |rows|
      invariant cursor.Bounded() && bytes == cursor.data[..]
      invariant cursor.data == buffer.data && cursor.capacity == buffer.size
      invariant Within(DATA_OFFSET, cursor.size, cursor.capacity)
      invariant DeserializedUpTo(all, status, Rest(direction, rows, i), bytes, cursor.capacity, cursor.size, mem.slots)
      decreases |rows| - i
    {
      status := DeserializeTurn(cursor, direction, rows, i, mem, all, bytes);
      i := i + 1;
    }
    RestStep(direction, rows, i);
    EndsDeserialized(all, status, Rest(direction, rows, i), bytes, cursor.capacity, cursor.size, mem.slots);
  }

  /** Reads the id of a received message, or 0 if it is too short. */
  method GetMethodId(buffer: Buffer) returns (id: i32)
    requires buffer.Valid()
    ensures id == MethodId(buffer.data[..], buffer.size)
  {
    hide FromBigEndian;
    var cursor := new Buffer.View(buffer.data, 4, buffer.size);
    var status, value := DeserializeRawInt(cursor);
    assert buffer.size >= 8 ==> buffer.data[4..8] == buffer.data[..][4..8];
    id := if status == RPC_GOOD then value else 0;
  }
}
