/**
 The serialiser (rpc/serializer.c and the encoders of rpc/type/), each method
 proved to append what the wire functions say.
 */
module Serializer {
  import opened Words
  import opened Buffers
  import opened Wire
  import opened Tables

  /** The buffer holds what it held before, then `bytes`; it may have moved. */
  twostate predicate Appended(buffer: Buffer, bytes: seq<byte>)
    reads buffer, buffer.data
  {
    && old(buffer.Valid()) && buffer.Valid()
    && (buffer.data == old(buffer.data) || fresh(buffer.data))
    && buffer.Contents() == old(buffer.Contents()) + bytes
  }

  // ------------------------------------------------------------ raw values

  method SerializeRawInt(buffer: Buffer, value: i32)
    requires buffer.Valid()
    modifies buffer, buffer.data
    ensures Appended(buffer, BigEndian(4, value))
  {
    var data := StoreWord(4, value);
    buffer.Write(data[..]);
  }

  method SerializeRawU32(buffer: Buffer, value: u32)
    requires buffer.Valid()
    modifies buffer, buffer.data
    ensures Appended(buffer, BigEndian(4, value))
  {
    var data := StoreWord(4, value);
    buffer.Write(data[..]);
  }

  method SerializeRawU64(buffer: Buffer, value: u64)
    requires buffer.Valid()
    modifies buffer, buffer.data
    ensures Appended(buffer, BigEndian(8, value))
  {
    var data := StoreWord(8, value);
    buffer.Write(data[..]);
  }

  method SerializeRawString(buffer: Buffer, value: seq<byte>)
    requires buffer.Valid()
    modifies buffer, buffer.data
    ensures Appended(buffer, EncodeText(value))
  {
    hide BigEndian;
    var length := |value| + 1;
    assert EncodeText(value) == BigEndian(4, length) + (value + [0]);
    hide EncodeText;
    MaskedIsSame(length);
    SerializeRawU32(buffer, length % TWO_TO_32);
    buffer.Write(value + [0]);
  }

  // ------------------------------------------------------------ serialising one row

  method SerializeInt(buffer: Buffer, row: Row, mem: seq<Slot>) returns (status: int)
    requires buffer.Valid() && row.typ == RPC_INT && Loadable(row, mem)
    modifies buffer, buffer.data
    ensures status == RPC_GOOD && Appended(buffer, Encode(Load(row, mem)))
  {
    var value := Signed32(mem[row.value].bits32);
    Int32RoundTrip(value);
    OneWord(Word(4, mem[row.value].bits32));
    SerializeRawInt(buffer, value);
    status := RPC_GOOD;
  }

  /** mode_t, uid_t and gid_t. */
  method SerializeMode(buffer: Buffer, row: Row, mem: seq<Slot>) returns (status: int)
    requires buffer.Valid() && row.typ in {RPC_MODE, RPC_UID, RPC_GID} && Loadable(row, mem)
    modifies buffer, buffer.data
    ensures status == RPC_GOOD && Appended(buffer, Encode(Load(row, mem)))
  {
    OneWord(Word(4, mem[row.value].bits32));
    SerializeRawU32(buffer, mem[row.value].bits32);
    status := RPC_GOOD;
  }

  method SerializeSize(buffer: Buffer, row: Row, mem: seq<Slot>) returns (status: int)
    requires buffer.Valid() && row.typ == RPC_SIZE && Loadable(row, mem)
    modifies buffer, buffer.data
    ensures status == RPC_GOOD && Appended(buffer, Encode(Load(row, mem)))
  {
    OneWord(Word(4, mem[row.value].bits64 % TWO_TO_32));
    SerializeRawU32(buffer, mem[row.value].bits64 % TWO_TO_32);
    status := RPC_GOOD;
  }

  /** uint64_t, off_t and dev_t; the cast of a signed offset keeps its bits. */
  method SerializeU64(buffer: Buffer, row: Row, mem: seq<Slot>) returns (status: int)
    requires buffer.Valid() && IsWord64(row.typ) && Loadable(row, mem)
    modifies buffer, buffer.data
    ensures status == RPC_GOOD && Appended(buffer, Encode(Load(row, mem)))
  {
    OneWord(Word(8, mem[row.value].bits64));
    SerializeRawU64(buffer, mem[row.value].bits64);
    status := RPC_GOOD;
  }

  method SerializeString(buffer: Buffer, row: Row, mem: seq<Slot>) returns (status: int)
    requires buffer.Valid() && row.typ == RPC_STRING && Loadable(row, mem)
    modifies buffer, buffer.data
    ensures status == RPC_GOOD && Appended(buffer, Encode(Load(row, mem)))
  {
    SerializeRawString(buffer, mem[row.value].chars);
    status := RPC_GOOD;
  }

  method SerializeBytes(buffer: Buffer, row: Row, mem: seq<Slot>) returns (status: int)
    requires buffer.Valid() && row.typ == RPC_BYTES && Loadable(row, mem)
    modifies buffer, buffer.data
    ensures status == RPC_GOOD && Appended(buffer, Encode(Load(row, mem)))
  {
    hide BigEndian;
    var length := mem[row.extra.slot].bits64;
    var bytes := mem[row.value].bytes[..length];
    assert Encode(Load(row, mem)) == BigEndian(4, |bytes|) + bytes;
    hide Encode, Load, Loadable;
    MaskedIsSame(length);
    SerializeRawU32(buffer, length % TWO_TO_32);
    if 0 < length {
      buffer.Write(bytes);
    }
    status := RPC_GOOD;
  }

  lemma {:induction false} EncodeWordsSnoc(ws: seq<Word>, w: Word)
    ensures EncodeWords(ws + [w]) == EncodeWords(ws) + BigEndian(w.width, w.value)
    decreases |ws|
  {
    hide BigEndian;
    if ws == [] {
      OneWord(w);
      assert [] + [w] == [w];
    } else {
      EncodeWordsSnoc(ws[1..], w);
      assert (ws + [w])[1..] == ws[1..] + [w];
    }
  }

  /** One more field of a record: `done` are the ones written since `base`. */
  method PutU64(buffer: Buffer, value: u64, ghost base: seq<byte>, ghost done: seq<Word>)
    returns (ghost more: seq<Word>)
    requires buffer.Valid() && buffer.Contents() == base + EncodeWords(done)
    modifies buffer, buffer.data
    ensures buffer.Valid() && (buffer.data == old(buffer.data) || fresh(buffer.data))
    ensures more == done + [Word(8, value)]
    ensures buffer.Contents() == base + EncodeWords(more)
  {
    SerializeRawU64(buffer, value);
    more := done + [Word(8, value)];
    EncodeWordsSnoc(done, Word(8, value));
  }

  method PutU32(buffer: Buffer, value: u32, ghost base: seq<byte>, ghost done: seq<Word>)
    returns (ghost more: seq<Word>)
    requires buffer.Valid() && buffer.Contents() == base + EncodeWords(done)
    modifies buffer, buffer.data
    ensures buffer.Valid() && (buffer.data == old(buffer.data) || fresh(buffer.data))
    ensures more == done + [Word(4, value)]
    ensures buffer.Contents() == base + EncodeWords(more)
  {
    SerializeRawU32(buffer, value);
    more := done + [Word(4, value)];
    EncodeWordsSnoc(done, Word(4, value));
  }

  method PutFourU64(buffer: Buffer, a: u64, b: u64, c: u64, d: u64, ghost base: seq<byte>, ghost done: seq<Word>)
    returns (ghost more: seq<Word>)
    requires buffer.Valid() && buffer.Contents() == base + EncodeWords(done)
    modifies buffer, buffer.data
    ensures buffer.Valid() && (buffer.data == old(buffer.data) || fresh(buffer.data))
    ensures more == done + [Word(8, a), Word(8, b), Word(8, c), Word(8, d)]
    ensures buffer.Contents() == base + EncodeWords(more)
  {
    hide EncodeWords;
    more := PutU64(buffer, a, base, done);
    more := PutU64(buffer, b, base, more);
    more := PutU64(buffer, c, base, more);
    more := PutU64(buffer, d, base, more);
  }

  /** A time: seconds and nanoseconds, each cut to 32 bits. */
  method PutTime(buffer: Buffer, sec: u64, nsec: u64, ghost base: seq<byte>, ghost done: seq<Word>)
    returns (ghost more: seq<Word>)
    requires buffer.Valid() && buffer.Contents() == base + EncodeWords(done)
    modifies buffer, buffer.data
    ensures buffer.Valid() && (buffer.data == old(buffer.data) || fresh(buffer.data))
    ensures more == done + [Word(4, sec % TWO_TO_32), Word(4, nsec % TWO_TO_32)]
    ensures buffer.Contents() == base + EncodeWords(more)
  {
    hide EncodeWords;
    more := PutU32(buffer, sec % TWO_TO_32, base, done);
    more := PutU32(buffer, nsec % TWO_TO_32, base, more);
  }

  method PutTimes(buffer: Buffer, s: Stat, ghost base: seq<byte>, ghost done: seq<Word>)
    returns (ghost more: seq<Word>)
    requires buffer.Valid() && buffer.Contents() == base + EncodeWords(done)
    modifies buffer, buffer.data
    ensures buffer.Valid() && (buffer.data == old(buffer.data) || fresh(buffer.data))
    ensures more == done + [Word(4, s.atimeSec % TWO_TO_32), Word(4, s.atimeNsec % TWO_TO_32),
                            Word(4, s.mtimeSec % TWO_TO_32), Word(4, s.mtimeNsec % TWO_TO_32),
                            Word(4, s.ctimeSec % TWO_TO_32), Word(4, s.ctimeNsec % TWO_TO_32)]
    ensures buffer.Contents() == base + EncodeWords(more)
  {
    hide EncodeWords;
    more := PutTime(buffer, s.atimeSec, s.atimeNsec, base, done);
    more := PutTime(buffer, s.mtimeSec, s.mtimeNsec, base, more);
    more := PutTime(buffer, s.ctimeSec, s.ctimeNsec, base, more);
  }

  method PutOwner(buffer: Buffer, s: Stat, ghost base: seq<byte>, ghost done: seq<Word>)
    returns (ghost more: seq<Word>)
    requires buffer.Valid() && buffer.Contents() == base + EncodeWords(done)
    modifies buffer, buffer.data
    ensures buffer.Valid() && (buffer.data == old(buffer.data) || fresh(buffer.data))
    ensures more == done + [Word(4, s.mode), Word(8, s.nlink), Word(4, s.uid), Word(4, s.gid)]
    ensures buffer.Contents() == base + EncodeWords(more)
  {
    hide EncodeWords;
    more := PutU32(buffer, s.mode, base, done);
    more := PutU64(buffer, s.nlink, base, more);
    more := PutU32(buffer, s.uid, base, more);
    more := PutU32(buffer, s.gid, base, more);
  }

  method PutSizes(buffer: Buffer, s: Stat, ghost base: seq<byte>, ghost done: seq<Word>)
    returns (ghost more: seq<Word>)
    requires buffer.Valid() && buffer.Contents() == base + EncodeWords(done)
    modifies buffer, buffer.data
    ensures buffer.Valid() && (buffer.data == old(buffer.data) || fresh(buffer.data))
    ensures more == done + [Word(8, s.rdev), Word(8, s.size), Word(8, s.blocks)]
    ensures buffer.Contents() == base + EncodeWords(more)
  {
    hide EncodeWords;
    more := PutU64(buffer, s.rdev, base, done);
    more := PutU64(buffer, s.size, base, more);
    more := PutU64(buffer, s.blocks, base, more);
  }

  method SerializeStat(buffer: Buffer, row: Row, mem: seq<Slot>) returns (status: int)
    requires buffer.Valid() && row.typ == RPC_STAT && Loadable(row, mem)
    modifies buffer, buffer.data
    ensures status == RPC_GOOD && Appended(buffer, Encode(Load(row, mem)))
  {
    hide EncodeWords;
    var s := mem[row.value].stat;
    assert Encode(Load(row, mem)) == EncodeWords(StatWords(s));
    hide Encode, Load, Loadable;
    ghost var base := buffer.Contents();
    NoFields(base);
    ghost var done := PutU64(buffer, s.ino, base, []);
    done := PutOwner(buffer, s, base, done);
    done := PutSizes(buffer, s, base, done);
    done := PutTimes(buffer, s, base, done);
    assert done == StatWords(s);
    status := RPC_GOOD;
  }

  lemma NoFields(base: seq<byte>)
    ensures base == base + EncodeWords([])
  {
  }

  method SerializeStatVfs(buffer: Buffer, row: Row, mem: seq<Slot>) returns (status: int)
    requires buffer.Valid() && row.typ == RPC_STATVFS && Loadable(row, mem)
    modifies buffer, buffer.data
    ensures status == RPC_GOOD && Appended(buffer, Encode(Load(row, mem)))
  {
    hide EncodeWords;
    var v := mem[row.value].vfs;
    assert Encode(Load(row, mem)) == EncodeWords(VfsWords(v));
    hide Encode, Load, Loadable;
    ghost var base := buffer.Contents();
    NoFields(base);
    ghost var done := PutFourU64(buffer, v.bsize, v.frsize, v.blocks, v.bfree, base, []);
    done := PutFourU64(buffer, v.bavail, v.files, v.ffree, v.namemax, base, done);
    assert done == VfsWords(v);
    status := RPC_GOOD;
  }

  lemma {:induction false} EncodeTextsSnoc(ts: seq<seq<byte>>, t: seq<byte>)
    ensures EncodeTexts(ts + [t]) == EncodeTexts(ts) + EncodeText(t)
    decreases |ts|
  {
    hide EncodeText;
    if ts == [] {
      assert [] + [t] == [t];
      assert EncodeTexts([t][1..]) == [];
    } else {
      EncodeTextsSnoc(ts[1..], t);
      assert (ts + [t])[1..] == ts[1..] + [t];
    }
  }

  lemma NoTexts()
    ensures EncodeTexts([]) == []
  {
  }

  method SerializeEntries(buffer: Buffer, names: seq<seq<byte>>)
    requires buffer.Valid()
    modifies buffer, buffer.data
    ensures Appended(buffer, EncodeTexts(names))
  {
    hide EncodeText, EncodeTexts, BigEndian;
    NoTexts();
    ghost var base := buffer.Contents();
    assert base == base + [];
    var i := 0;
    while i < |names|
      invariant 0 <= i <= |names|
      invariant buffer.Valid() && (buffer.data == old(buffer.data) || fresh(buffer.data))
      invariant buffer.Contents() == base + EncodeTexts(names[..i])
    {
      EncodeTextsSnoc(names[..i], names[i]);
      assert names[..i + 1] == names[..i] + [names[i]];
      SerializeRawString(buffer, names[i]);
      i := i + 1;
    }
    assert names[..i] == names;
  }

  method SerializeStringList(buffer: Buffer, row: Row, mem: seq<Slot>) returns (status: int)
    requires buffer.Valid() && row.typ == RPC_STRINGLIST && Loadable(row, mem)
    modifies buffer, buffer.data
    ensures status == RPC_GOOD && Appended(buffer, Encode(Load(row, mem)))
  {
    hide EncodeText, EncodeTexts, BigEndian;
    var names := mem[row.value].names;
    assert Encode(Load(row, mem)) == BigEndian(4, |names|) + EncodeTexts(names);
    hide Encode, Load, Loadable;
    MaskedIsSame(|names|);
    SerializeRawU32(buffer, |names| % TWO_TO_32);
    SerializeEntries(buffer, names);
    status := RPC_GOOD;
  }

  /** Dispatch by type id; an unknown id writes nothing. */
  method SerializeRow(buffer: Buffer, row: Row, mem: seq<Slot>) returns (status: int)
    requires buffer.Valid() && Loadable(row, mem)
    modifies buffer, buffer.data
    ensures Known(row.typ) ==> status == RPC_GOOD && Appended(buffer, Encode(Load(row, mem)))
    ensures !Known(row.typ) ==> status == RPC_BAD_UNKNOWN_SERIALIZER && Appended(buffer, [])
  {
    hide Encode, Load, Loadable;
    if row.typ == RPC_INT {
      status := SerializeInt(buffer, row, mem);
    } else if row.typ == RPC_STRING {
      status := SerializeString(buffer, row, mem);
    } else if row.typ == RPC_SIZE {
      status := SerializeSize(buffer, row, mem);
    } else if row.typ == RPC_UINT64 || row.typ == RPC_OFFSET || row.typ == RPC_DEV {
      status := SerializeU64(buffer, row, mem);
    } else if row.typ == RPC_STAT {
      status := SerializeStat(buffer, row, mem);
    } else if row.typ == RPC_STATVFS {
      status := SerializeStatVfs(buffer, row, mem);
    } else if row.typ == RPC_STRINGLIST {
      status := SerializeStringList(buffer, row, mem);
    } else if row.typ == RPC_MODE || row.typ == RPC_UID || row.typ == RPC_GID {
      status := SerializeMode(buffer, row, mem);
    } else if row.typ == RPC_BYTES {
      status := SerializeBytes(buffer, row, mem);
    } else {
      status := RPC_BAD_UNKNOWN_SERIALIZER;
    }
  }

  // ------------------------------------------------------------ serialising a table

  /** `done` bytes are out, the rows `ms` are still to come. */
  ghost predicate SerializedUpTo(all: Encoded, status: int, done: seq<byte>, ms: seq<Row>, mem: seq<Slot>)
  {
    && AllLoadable(ms, mem)
    && if status == RPC_GOOD then
         var rest := SerializeRows(ms, mem);
         all == Encoded(rest.status, done + rest.payload)
       else
         all == Encoded(status, done)
  }

  lemma SerializeStep(all: Encoded, done: seq<byte>, row: Row, ms: seq<Row>, mem: seq<Slot>)
    requires SerializedUpTo(all, RPC_GOOD, done, [row] + ms, mem)
    ensures Loadable(row, mem)
    ensures Known(row.typ) ==> SerializedUpTo(all, RPC_GOOD, done + Encode(Load(row, mem)), ms, mem)
    ensures !Known(row.typ) ==> SerializedUpTo(all, RPC_BAD_UNKNOWN_SERIALIZER, done, ms, mem)
  {
    hide Encode, Load;
    assert ([row] + ms)[0] == row && ([row] + ms)[1..] == ms;
    assert forall k :: 0 <= k < |ms| ==> ms[k] == ([row] + ms)[k + 1];
    if Known(row.typ) {
      var rest := SerializeRows(ms, mem);
      assert done + (Encode(Load(row, mem)) + rest.payload) == done + Encode(Load(row, mem)) + rest.payload;
    }
  }

  /** Writes the size into the reserved header. */
  method Finalize(buffer: Buffer)
    requires buffer.Valid() && |buffer.Contents()| >= 4
    modifies buffer, buffer.data
    ensures buffer.Valid() && (buffer.data == old(buffer.data) || fresh(buffer.data))
    ensures buffer.Contents() == BigEndian(4, |old(buffer.Contents())|) + old(buffer.Contents())[4..]
  {
    hide BigEndian;
    var data := StoreWord(4, buffer.size);
    buffer.WriteAt(0, data[..]);
    assert buffer.Contents()[..4] == buffer.data[0..4];
    assert buffer.Contents()[4..] == old(buffer.Contents())[4..];
    assert buffer.Contents() == buffer.Contents()[..4] + buffer.Contents()[4..];
  }

  /** One turn of the argument loop. */
  method SerializeTurn(buffer: Buffer, direction: int, rows: seq<Row>, i: nat, mem: seq<Slot>,
                       ghost all: Encoded, ghost header: seq<byte>, ghost done: seq<byte>)
    returns (status: int, ghost more: seq<byte>)
    requires buffer.Valid() && i < |rows| && rows[i].direction != RPC_END
    requires SerializedUpTo(all, RPC_GOOD, done, Rest(direction, rows, i), mem)
    requires buffer.Contents() == header + done
    modifies buffer, buffer.data
    ensures buffer.Valid() && (buffer.data == old(buffer.data) || fresh(buffer.data))
    ensures SerializedUpTo(all, status, more, Rest(direction, rows, i + 1), mem)
    ensures buffer.Contents() == header + more
  {
    hide Loadable, Rest, SerializeRows, SerializedUpTo, AllLoadable, Encode, Load, Known;
    status, more := RPC_GOOD, done;
    RestStep(direction, rows, i);
    if rows[i].direction == direction {
      SerializeStep(all, done, rows[i], Rest(direction, rows, i + 1), mem);
      status := SerializeRow(buffer, rows[i], mem);
      if status == RPC_GOOD {
        more := done + Encode(Load(rows[i], mem));
        assert header + more == header + done + Encode(Load(rows[i], mem));
      } else {
        assert header + done + [] == header + done;
      }
    }
  }

  /** The argument loop. */
  method SerializeArguments(buffer: Buffer, direction: int, rows: seq<Row>, mem: seq<Slot>) returns (status: int)
    requires buffer.Valid() && Terminated(rows)
    requires AllLoadable(Matching(direction, rows), mem)
    modifies buffer, buffer.data
    ensures status == SerializeRows(Matching(direction, rows), mem).status
    ensures Appended(buffer, SerializeRows(Matching(direction, rows), mem).payload)
  {
    ghost var all := SerializeRows(Matching(direction, rows), mem);
    StartsSerialized(all, Matching(direction, rows), mem);
    hide Loadable, Known, Matching, Rest, SerializeRows, SerializedUpTo, AllLoadable, Encode, Load, Buffer.Contents;
    status := RPC_GOOD;
    ghost var header, done := buffer.Contents(), [];
    assert header + done == header;
    RestStarts(direction, rows);
    var i := 0;
    while status == RPC_GOOD && rows[i].direction != RPC_END
      invariant 0 <= i < |rows|
      invariant buffer.Valid() && (buffer.data == old(buffer.data) || fresh(buffer.data))
      invariant SerializedUpTo(all, status, done, Rest(direction, rows, i), mem)
      invariant buffer.Contents() == header + done
      decreases |rows| - i
    {
      status, done := SerializeTurn(buffer, direction, rows, i, mem, all, header, done);
      i := i + 1;
    }
    RestStep(direction, rows, i);
    EndsSerialized(all, status, done, Rest(direction, rows, i), mem);
  }

  /** The buffer becomes one message, whatever it held before. When an unknown type
      stops the loop, the header still counts the bytes that were written. */
  method Serialize(buffer: Buffer, direction: int, methodId: i32, rows: seq<Row>, mem: seq<Slot>)
    returns (status: int)
    requires buffer.Valid() && Terminated(rows)
    requires AllLoadable(Matching(direction, rows), mem)
    modifies buffer, buffer.data
    ensures buffer.Valid() && (buffer.data == old(buffer.data) || fresh(buffer.data))
    ensures status == SerializeRows(Matching(direction, rows), mem).status
    ensures buffer.Contents() == Frame(methodId, SerializeRows(Matching(direction, rows), mem).payload)
  {
    hide Matching, SerializeRows, AllLoadable, BigEndian, Buffer.Contents;
    ghost var payload := SerializeRows(Matching(direction, rows), mem).payload;
    ghost var start := Begin(buffer, methodId);
    status := SerializeArguments(buffer, direction, rows, mem);
    Finalize(buffer);
    assert (start + BigEndian(4, methodId) + payload)[4..] == BigEndian(4, methodId) + payload;
    assert BigEndian(4, 8 + |payload|) + (BigEndian(4, methodId) + payload) == Frame(methodId, payload);
  }

  /** Reserves the size and writes the method id. */
  method Begin(buffer: Buffer, methodId: i32) returns (ghost start: seq<byte>)
    requires buffer.Valid()
    modifies buffer, buffer.data
    ensures buffer.Valid() && (buffer.data == old(buffer.data) || fresh(buffer.data))
    ensures |start| == 4 && buffer.Contents() == start + BigEndian(4, methodId)
  {
    buffer.Reset();
    buffer.Skip(4);
    start := buffer.Contents();
    SerializeRawInt(buffer, methodId);
  }

  lemma StartsSerialized(all: Encoded, ms: seq<Row>, mem: seq<Slot>)
    requires AllLoadable(ms, mem) && all == SerializeRows(ms, mem)
    ensures SerializedUpTo(all, RPC_GOOD, [], ms, mem)
  {
    assert [] + all.payload == all.payload;
  }

  lemma EndsSerialized(all: Encoded, status: int, done: seq<byte>, ms: seq<Row>, mem: seq<Slot>)
    requires SerializedUpTo(all, status, done, ms, mem)
    requires status != RPC_GOOD || ms == []
    ensures all == Encoded(status, done)
  {
  }
}
