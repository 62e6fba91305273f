/**
 The second implementation of the wire format: the message writer and reader of the
 Python provider (provider/python/stdiofs_provider.py). It shares no code with the
 first one; what it writes is the same, and what it reads differs only where a message
 is malformed.
 */
module PythonCodec {
  import opened Words
  import opened Wire
  import opened WireLaws

  // ---------------------------------------------------------------- writing

  /** A value a handler adds to its reply. */
  datatype Value =
    | U32(number: int)
    | I32(number: int)
    | U64(number: int)
    | Chars(chars: seq<byte>)
    | Strings(strings: seq<seq<byte>>)
    | Bytes(bytes: seq<byte>)

  /** The same value as an argument of the C serialiser: a bit pattern of the width of
      its type, a string, a list or bytes. */
  function ItemOf(v: Value): Item {
    match v
    case U32(n) => Fixed([Word(4, n % TWO_TO_32)])
    case I32(n) => Fixed([Word(4, n % TWO_TO_32)])
    case U64(n) => Fixed([Word(8, n % 0x1_0000_0000_0000_0000)])
    case Chars(t) => Text(t)
    case Strings(ts) => Names(ts)
    case Bytes(b) => Blob(b)
  }

  function ItemsOf(vs: seq<Value>): seq<Item> {
    if vs == [] then [] else [ItemOf(vs[0])] + ItemsOf(vs[1..])
  }

  lemma ItemsOfFirst(vs: seq<Value>)
    requires vs != []
    ensures EncodeItems(ItemsOf(vs)) == Encode(ItemOf(vs[0])) + EncodeItems(ItemsOf(vs[1..]))
  {
    assert ItemsOf(vs)[1..] == ItemsOf(vs[1..]);
  }

  /** What the C serialiser writes for a number of any size and sign. */
  lemma NumberItems(n: int)
    ensures Encode(ItemOf(U32(n))) == Encode(ItemOf(I32(n))) == BigEndian(4, n)
    ensures Encode(ItemOf(U64(n))) == BigEndian(8, n)
  {
    hide BigEndian, EncodeWords;
    MaskedIsSame(n);
    OneWord(Word(4, n % TWO_TO_32));
    MaskedLong(n);
    OneWord(Word(8, n % 0x1_0000_0000_0000_0000));
  }

  /** A message under construction: a list of bytes, extended and patched in place. */
  class Message {
    var buffer: seq<byte>

    constructor (id: int)
      ensures |buffer| == 8 && buffer[4..] == BigEndian(4, id)
    {
      buffer := [];
      new;
      AddU32(0);
      AddU32(id);
      assert buffer[4..] == BigEndian(4, id);
    }

    method AddU32(value: int)
      modifies this
      ensures buffer == old(buffer) + BigEndian(4, value)
    {
      var a := (value / 0x100_0000) % 256;
      var b := (value / 0x1_0000) % 256;
      var c := (value / 0x100) % 256;
      var d := value % 256;
      FourBytes(value);
      buffer := buffer + [a, b, c, d];
    }

    method AddI32(value: int)
      modifies this
      ensures buffer == old(buffer) + BigEndian(4, value)
    {
      MaskedIsSame(value);
      AddU32(value % TWO_TO_32);
    }

    method AddU64(value: int)
      modifies this
      ensures buffer == old(buffer) + BigEndian(8, value)
    {
      var upper := value / TWO_TO_32 % TWO_TO_32;
      var lower := value % TWO_TO_32;
      HalvesAreEightBytes(value);
      AddU32(upper);
      AddU32(lower);
    }

    method AddStr(data: seq<byte>)
      modifies this
      ensures buffer == old(buffer) + EncodeText(data)
    {
      var size := |data| + 1;
      AddU32(size);
      buffer := buffer + data;
      buffer := buffer + [0];
      assert buffer == old(buffer) + (BigEndian(4, size) + data + [0]);
    }

    method AddStrings(values: seq<seq<byte>>)
      modifies this
      ensures buffer == old(buffer) + Encode(Names(values))
    {
      hide BigEndian, EncodeText;
      var count := |values|;
      AddU32(count);
      ghost var start := buffer;
      var i := 0;
      assert values[0..] == values;
      while i < |values|
        invariant i <= |values|
        invariant buffer + EncodeTexts(values[i..]) == start + EncodeTexts(values)
      {
        assert values[i..][1..] == values[i + 1..];
        ghost var before, rest := buffer, EncodeTexts(values[i + 1..]);
        AddStr(values[i]);
        assert before + (EncodeText(values[i]) + rest) == before + EncodeText(values[i]) + rest;
        i := i + 1;
      }
      assert values[|values|..] == [];
      assert buffer + [] == buffer;
      ghost var counted := BigEndian(4, count);
      assert old(buffer) + counted + EncodeTexts(values) == old(buffer) + (counted + EncodeTexts(values));
    }

    method AddBytes(value: seq<byte>)
      modifies this
      ensures buffer == old(buffer) + Encode(Blob(value))
    {
      var size := |value|;
      AddU32(size);
      buffer := buffer + value;
      assert buffer == old(buffer) + (BigEndian(4, size) + value);
    }

    /** Patches the size into the first four cells. */
    method GetBytes() returns (bytes: seq<byte>)
      requires |buffer| >= 4
      modifies this
      ensures bytes == buffer == BigEndian(4, |old(buffer)|) + old(buffer)[4..]
    {
      var size := |buffer|;
      FourBytes(size);
      buffer := buffer[0 := (size / 0x100_0000) % 256];
      buffer := buffer[1 := (size / 0x1_0000) % 256];
      buffer := buffer[2 := (size / 0x100) % 256];
      buffer := buffer[3 := size % 256];
      bytes := buffer;
    }

    /** One of the calls a handler makes. */
    method Add(v: Value)
      modifies this
      ensures buffer == old(buffer) + Encode(ItemOf(v))
    {
      hide BigEndian, EncodeTexts;
      match v {
        case U32(n) => NumberItems(n); AddU32(n);
        case I32(n) => NumberItems(n); AddI32(n);
        case U64(n) => NumberItems(n); AddU64(n);
        case Chars(t) => AddStr(t);
        case Strings(ts) => AddStrings(ts);
        case Bytes(b) => AddBytes(b);
      }
    }
  }

  /** Two implementations, one format: a message that is constructed with an id, given any
      values and asked for its bytes is the C serialiser's frame of the same values. */
  method OneFormat(id: int, vs: seq<Value>) returns (bytes: seq<byte>)
    ensures bytes == Frame(id, EncodeItems(ItemsOf(vs)))
  {
    hide BigEndian, Encode, ItemOf, EncodeItems, ItemsOf;
    var message := new Message(id);
    ghost var start, payload := message.buffer, EncodeItems(ItemsOf(vs));
    var i := 0;
    assert vs[0..] == vs;
    while i < |vs|
      invariant i <= |vs|
      invariant message.buffer + EncodeItems(ItemsOf(vs[i..])) == start + payload
    {
      assert vs[i..][1..] == vs[i + 1..];
      ghost var before, rest := message.buffer, EncodeItems(ItemsOf(vs[i + 1..]));
      ItemsOfFirst(vs[i..]);
      message.Add(vs[i]);
      assert before + (Encode(ItemOf(vs[i])) + rest) == before + Encode(ItemOf(vs[i])) + rest;
      i := i + 1;
    }
    assert vs[|vs|..] == [];
    NoItems();
    assert message.buffer + [] == message.buffer;
    bytes := message.GetBytes();
    assert (start + payload)[4..] == BigEndian(4, id) + payload;
    assert BigEndian(4, 8 + |payload|) + (BigEndian(4, id) + payload) == Frame(id, payload);
  }

  lemma NoItems()
    ensures EncodeItems(ItemsOf([])) == []
  {
  }

  // ---------------------------------------------------------------- reading

  /** `s[first : last]`, for bounds that are not negative. */
  function Slice(s: seq<byte>, first: nat, last: nat): seq<byte> {
    var to := if last > |s| then |s| else last;
    if first < to then s[first..to] else []
  }

  /** What a read returns: a value and the new offset, or an index error. */
  datatype Reading<+T> = Raised | Read(value: T, offset: nat)

  /** The big-endian number in the next bytes. */
  function ReadNumber(s: seq<byte>, offset: nat, width: nat): Reading<nat> {
    if offset + width > |s| then Raised else Read(FromBigEndian(s[offset..offset + width]), offset + width)
  }

  /** A field without its last `cut` bytes, or, when its declared size runs past the end,
      everything that is left. */
  function ReadField(s: seq<byte>, offset: nat, cut: nat): Reading<seq<byte>> {
    match ReadNumber(s, offset, 4)
    case Raised => Raised
    case Read(size, at) =>
      Read(if at + size > |s| then s[at..] else if size < cut then [] else s[at..at + size - cut], at + size)
  }

  class MessageReader {
    const buffer: seq<byte>
    var offset: nat

    constructor (buffer: seq<byte>)
      ensures this.buffer == buffer && offset == 0
    {
      this.buffer := buffer;
      offset := 0;
    }

    method ReadU32() returns (r: Reading<nat>)
      modifies this
      ensures r.Raised? <==> old(offset) + 4 > |buffer|
      ensures r.Read? ==> r.value == FromBigEndian(buffer[old(offset)..old(offset) + 4])
      ensures r.Read? ==> offset == r.offset == old(offset) + 4
      ensures r.Raised? ==> offset == old(offset)
    {
      if offset + 3 >= |buffer| {
        return Raised;
      }
      var value := Weighed(buffer[offset], buffer[offset + 1], buffer[offset + 2], buffer[offset + 3]);
      LoadFour(buffer[offset..offset + 4]);
      offset := offset + 4;
      r := Read(value, offset);
    }

    method ReadI32() returns (r: Reading<int>)
      modifies this
      ensures r.Raised? <==> old(offset) + 4 > |buffer|
      ensures r.Read? ==> FromBigEndian(buffer[old(offset)..old(offset) + 4]) < TWO_TO_32
      ensures r.Read? ==> r.value == Signed32(FromBigEndian(buffer[old(offset)..old(offset) + 4]))
      ensures r.Read? ==> offset == r.offset == old(offset) + 4
      ensures r.Raised? ==> offset == old(offset)
    {
      var word := ReadU32();
      if word.Raised? {
        return Raised;
      }
      U32Load(buffer[old(offset)..old(offset) + 4]);
      var value: int := word.value;
      if value >= 0x8000_0000 {
        value := value - TWO_TO_32;
      }
      r := Read(value, offset);
    }

    method ReadU64() returns (r: Reading<nat>)
      modifies this
      ensures r == ReadNumber(buffer, old(offset), 8)
      ensures r.Read? ==> offset == r.offset
      ensures r.Raised? ==> offset == if old(offset) + 4 > |buffer| then old(offset) else old(offset) + 4
    {
      ghost var start := offset;
      var high := ReadU32();
      if high.Raised? {
        return Raised;
      }
      var low := ReadU32();
      if low.Raised? {
        return Raised;
      }
      TwoWords(buffer, start);
      r := Read(high.value * TWO_TO_32 + low.value, offset);
    }

    /** The bytes of a string, without its terminator. */
    method ReadStr() returns (r: Reading<seq<byte>>)
      modifies this
      ensures r == ReadField(buffer, old(offset), 1)
      ensures match ParseField(buffer, |buffer|, old(offset))
              case Some((at, length)) =>
                r == Read(if length == 0 then [] else buffer[at..at + length - 1], at + length)
              case None => r.Raised? || (r.value == buffer[old(offset) + 4..] && r.offset > |buffer|)
      ensures r.Read? ==> offset == r.offset
    {
      var size := ReadU32();
      if size.Raised? {
        return Raised;
      }
      var value := if size.value >= 1 then Slice(buffer, offset, offset + size.value - 1) else [];
      SliceStops(buffer, offset, size.value, 1);
      offset := offset + size.value;
      r := Read(value, offset);
    }

    method ReadBytes() returns (r: Reading<seq<byte>>)
      modifies this
      ensures r == ReadField(buffer, old(offset), 0)
      ensures match ParseField(buffer, |buffer|, old(offset))
              case Some((at, length)) => r == Read(buffer[at..at + length], at + length)
              case None => r.Raised? || (r.value == buffer[old(offset) + 4..] && r.offset > |buffer|)
      ensures r.Read? ==> offset == r.offset
    {
      var size := ReadU32();
      if size.Raised? {
        return Raised;
      }
      var value := Slice(buffer, offset, offset + size.value);
      SliceStops(buffer, offset, size.value, 0);
      offset := offset + size.value;
      r := Read(value, offset);
    }
  }

  /** A slice that runs past the end stops there. */
  lemma SliceStops(s: seq<byte>, at: nat, size: nat, cut: nat)
    requires at <= |s| && cut <= size + 1 && cut <= 1
    ensures size >= cut ==>
              Slice(s, at, at + size - cut) == if at + size > |s| then s[at..] else s[at..at + size - cut]
    ensures size == 0 ==> s[at..at + size] == []
  {
  }

  /** `(a << 24) + (b << 16) + (c << 8) + d` */
  function Weighed(a: nat, b: nat, c: nat, d: nat): nat {
    a * 0x100_0000 + b * 0x1_0000 + c * 0x100 + d
  }

  /** The four-term sum of the reader is what the C decoder's byte loop computes. */
  lemma LoadFour(w: seq<byte>)
    requires |w| == 4
    ensures Weighed(w[0], w[1], w[2], w[3]) == FromBigEndian(w)
  {
    var first, second, third := w[..1], w[..2], w[..3];
    assert first[..0] == [] && second[..1] == first && third[..2] == second;
    var a: nat, b: nat, c: nat := w[0], w[1], w[2];
    assert FromBigEndian(first) == a;
    assert FromBigEndian(second) == a * 256 + b;
    assert FromBigEndian(third) == (a * 256 + b) * 256 + c;
  }

  lemma TwoWords(s: seq<byte>, offset: nat)
    requires offset + 8 <= |s|
    ensures FromBigEndian(s[offset..offset + 8])
         == FromBigEndian(s[offset..offset + 4]) * TWO_TO_32 + FromBigEndian(s[offset + 4..offset + 8])
  {
    var high, low := s[offset..offset + 4], s[offset + 4..offset + 8];
    assert s[offset..offset + 8] == high + low;
    LoadSplit(high, low);
    PowersOfInterest();
  }

  lemma {:induction false} LoadSplit(high: seq<byte>, low: seq<byte>)
    ensures FromBigEndian(high + low) == FromBigEndian(high) * Pow256(|low|) + FromBigEndian(low)
    decreases |low|
  {
    if low == [] {
      assert high + low == high;
    } else {
      var front := low[..|low| - 1];
      assert (high + low)[..|high + low| - 1] == high + front;
      LoadSplit(high, front);
      assert FromBigEndian(high) * Pow256(|front|) * 256 == FromBigEndian(high) * Pow256(|low|);
    }
  }

  /** The reader inverts the C encoding of a 32-bit word, signed or not ... */
  lemma ReadsWord(v: i32, s: seq<byte>, offset: nat)
    requires At(s, offset, BigEndian(4, v))
    ensures ReadNumber(s, offset, 4) == Read(Unsigned32(v), offset + 4)
    ensures Signed32(Unsigned32(v)) == v
  {
    Int32RoundTrip(v);
  }

  /** ... of a 64-bit word ... */
  lemma ReadsLong(v: u64, s: seq<byte>, offset: nat)
    requires At(s, offset, BigEndian(8, v))
    ensures ReadNumber(s, offset, 8) == Read(v, offset + 8)
  {
    U64RoundTrip(v);
  }

  lemma ReadsField(s: seq<byte>, offset: nat, size: nat, body: seq<byte>, cut: nat)
    requires size < TWO_TO_32 && cut <= size && |body| == size - cut && cut <= 1
    requires At(s, offset, BigEndian(4, size)) && At(s, offset + 4, body)
    ensures ReadField(s, offset, cut) == Read(body, offset + 4 + size)
  {
    U32RoundTrip(size);
    hide BigEndian, FromBigEndian;
    assert ReadNumber(s, offset, 4) == Read(size, offset + 4);
    if offset + 4 + size > |s| {
      assert s[offset + 4..] == s[offset + 4..offset + 4 + |body|];
    }
  }

  /** ... and of strings and bytes. */
  lemma ReadsText(t: seq<byte>, s: seq<byte>, offset: nat)
    requires |t| + 1 < TWO_TO_32 && At(s, offset, EncodeText(t))
    ensures ReadField(s, offset, 1) == Read(t, offset + |EncodeText(t)|)
  {
    hide BigEndian, At;
    AtSplit(s, offset, BigEndian(4, |t| + 1) + t, [0]);
    AtSplit(s, offset, BigEndian(4, |t| + 1), t);
    ReadsField(s, offset, |t| + 1, t, 1);
  }

  lemma ReadsBytes(b: seq<byte>, s: seq<byte>, offset: nat)
    requires |b| < TWO_TO_32 && At(s, offset, Encode(Blob(b)))
    ensures ReadField(s, offset, 0) == Read(b, offset + |Encode(Blob(b))|)
  {
    hide BigEndian, At;
    AtSplit(s, offset, BigEndian(4, |b|), b);
    ReadsField(s, offset, |b|, b, 0);
  }

  /** Where the two readers part. On a field of bytes they agree exactly when the
      declared size fits what is left: past that, the C decoder fails, and the reader
      hands out what there is. */
  lemma BytesReadAlike(s: seq<byte>, offset: nat)
    ensures ReadField(s, offset, 0).Raised? ==> ParseField(s, |s|, offset).None?
    ensures ReadField(s, offset, 0).Read? ==>
              (ParseField(s, |s|, offset).Some? <==> ReadField(s, offset, 0).offset <= |s|)
    ensures ParseField(s, |s|, offset).Some? ==>
              var (at, length) := ParseField(s, |s|, offset).value;
              ReadField(s, offset, 0) == Read(s[at..at + length], at + length)
  {
    hide FromBigEndian;
  }

  /** On a string field that fits they agree exactly when its only NUL is its last byte: the
      C decoder stops at the first NUL, wherever it is, and the reader always drops one
      byte. For a field of no bytes, exactly when what follows it is a NUL or nothing. */
  lemma StringsReadAlike(s: seq<byte>, offset: nat)
    requires ParseField(s, |s|, offset).Some?
    ensures var (at, length) := ParseField(s, |s|, offset).value;
            && ReadField(s, offset, 1).Read?
            && (ReadField(s, offset, 1).value == CStr(s, at) <==>
                if length == 0 then at == |s| || s[at] == 0
                else s[at + length - 1] == 0 && 0 !in s[at..at + length - 1])
  {
    hide ReadField, CStr, ParseField, FromBigEndian;
    var (at, length) := ParseField(s, |s|, offset).value;
    FieldIsRead(s, offset);
    if length > 0 {
      FirstNul(s, at, at + length - 1);
    } else {
      EmptyString(s, at);
    }
  }

  lemma FieldIsRead(s: seq<byte>, offset: nat)
    requires ParseField(s, |s|, offset).Some?
    ensures var (at, length) := ParseField(s, |s|, offset).value;
            ReadField(s, offset, 1) == Read(if length == 0 then [] else s[at..at + length - 1], at + length)
  {
    hide FromBigEndian;
  }

  lemma EmptyString(s: seq<byte>, at: nat)
    requires at <= |s|
    ensures CStr(s, at) == [] <==> at == |s| || s[at] == 0
  {
  }

  /** A C string ends at `end` exactly when the first NUL is there. */
  lemma FirstNul(s: seq<byte>, at: nat, end: nat)
    requires at <= end < |s|
    ensures s[at..end] == CStr(s, at) <==> s[end] == 0 && 0 !in s[at..end]
  {
    CStrExtent(s, at);
    CStrIsFront(s, at);
    var n := |CStr(s, at)|;
    if s[at..end] == CStr(s, at) {
      assert n == end - at;
      assert forall k :: 0 <= k < end - at ==> s[at..end][k] == s[at + k];
    }
    if s[end] == 0 && 0 !in s[at..end] {
      assert forall k :: 0 <= k < end - at ==> s[at..end][k] != 0;
      assert at + n >= end;
    }
  }

  lemma {:induction false} CStrIsFront(s: seq<byte>, at: nat)
    requires at <= |s|
    ensures at + |CStr(s, at)| <= |s| && CStr(s, at) == s[at..at + |CStr(s, at)|]
    decreases |s| - at
  {
    if at < |s| && s[at] != 0 {
      CStrIsFront(s, at + 1);
    }
  }
}
