/**
 Laws of the wire format: decoding inverts encoding for every table, a message
 delimits itself, and decoding is bounded on arbitrary bytes.
 */
module WireLaws {
  import opened Words
  import opened Wire

  function Widths(ws: seq<Word>): seq<nat> {
    if ws == [] then [] else [ws[0].width] + Widths(ws[1..])
  }

  function ValuesOf(ws: seq<Word>): seq<nat> {
    if ws == [] then [] else [ws[0].value] + ValuesOf(ws[1..])
  }

  function ClassOfItem(item: Item): Class {
    match item
    case Fixed(ws) => FixedClass(Widths(ws))
    case Text(_) => TextClass
    case Blob(_) => BlobClass
    case Names(_) => NamesClass
  }

  ghost predicate TextOk(t: seq<byte>) {
    0 !in t && |t| + 1 < TWO_TO_32
  }

  ghost predicate TextsOk(ts: seq<seq<byte>>) {
    forall k :: 0 <= k < |ts| ==> TextOk(ts[k])
  }

  /** The domain of the format: C strings, and lengths that fit their prefix. */
  ghost predicate ItemOk(item: Item) {
    match item
    case Fixed(ws) => WordsOk(ws)
    case Text(t) => TextOk(t)
    case Blob(b) => |b| < TWO_TO_32
    case Names(ts) => |ts| < TWO_TO_32 && TextsOk(ts)
  }

  ghost predicate ItemsOk(items: seq<Item>) {
    forall k :: 0 <= k < |items| ==> ItemOk(items[k])
  }

  /** `bytes` stand in `data` at `pos`. */
  ghost predicate At(data: seq<byte>, pos: nat, bytes: seq<byte>) {
    pos + |bytes| <= |data| && data[pos..pos + |bytes|] == bytes
  }

  lemma AtSplit(data: seq<byte>, pos: nat, a: seq<byte>, b: seq<byte>)
    requires At(data, pos, a + b)
    ensures At(data, pos, a) && At(data, pos + |a|, b)
  {
    assert data[pos..pos + |a + b|][..|a|] == a;
    assert data[pos..pos + |a + b|][|a|..] == b;
  }

  // ------------------------------------------------------------ one item

  lemma WordAt(w: Word, data: seq<byte>, pos: nat)
    requires w.value < Pow256(w.width) && At(data, pos, BigEndian(w.width, w.value))
    ensures pos + w.width <= |data|
    ensures FromBigEndian(data[pos..pos + w.width]) == w.value
  {
    hide BigEndian, FromBigEndian, Pow256;
    LoadStore(w.width, w.value);
    RemainderIsUnique(w.value, Pow256(w.width), 0, w.value);
  }

  ghost predicate WordsOk(ws: seq<Word>) {
    forall k :: 0 <= k < |ws| ==> ws[k].value < Pow256(ws[k].width)
  }

  lemma FirstWordDecodes(ws: seq<Word>, data: seq<byte>, limit: nat, pos: nat, rest: seq<nat>)
    requires ws != [] && WordsOk(ws)
    requires At(data, pos, EncodeWords(ws))
    requires pos + |EncodeWords(ws)| <= limit <= |data|
    ensures WordsOk(ws[1..]) && At(data, pos + ws[0].width, EncodeWords(ws[1..]))
    ensures |EncodeWords(ws)| == ws[0].width + |EncodeWords(ws[1..])|
    ensures Widths(ws)[1..] == Widths(ws[1..])
    ensures ParseWords(Widths(ws[1..]), data, limit, pos + ws[0].width) == Some(rest) ==>
              ParseWords(Widths(ws), data, limit, pos) == Some([ws[0].value] + rest)
  {
    hide At, BigEndian, FromBigEndian, Pow256;
    AtSplit(data, pos, BigEndian(ws[0].width, ws[0].value), EncodeWords(ws[1..]));
    WordAt(ws[0], data, pos);
    assert Widths(ws)[1..] == Widths(ws[1..]);
  }

  lemma {:induction false} WordsDecode(ws: seq<Word>, data: seq<byte>, limit: nat, pos: nat)
    requires WordsOk(ws)
    requires At(data, pos, EncodeWords(ws))
    requires pos + |EncodeWords(ws)| <= limit <= |data|
    ensures ParseWords(Widths(ws), data, limit, pos) == Some(ValuesOf(ws))
    ensures Sum(Widths(ws)) == |EncodeWords(ws)|
    decreases |ws|
  {
    hide At, WordsOk, ParseWords, EncodeWords;
    if ws == [] {
      NoWords(data, limit, pos);
    } else {
      FirstWordDecodes(ws, data, limit, pos, ValuesOf(ws[1..]));
      WordsDecode(ws[1..], data, limit, pos + ws[0].width);
    }
  }

  lemma NoWords(data: seq<byte>, limit: nat, pos: nat)
    requires limit <= |data|
    ensures ParseWords([], data, limit, pos) == Some([]) && EncodeWords([]) == []
  {
  }

  lemma {:induction false} CStrReads(data: seq<byte>, at: nat, t: seq<byte>)
    requires 0 !in t
    requires At(data, at, t + [0])
    ensures CStr(data, at) == t
    decreases |t|
  {
    assert data[at..at + |t| + 1] == t + [0];
    assert data[at] == (t + [0])[0];
    if t == [] {
    } else {
      assert t + [0] == [t[0]] + (t[1..] + [0]);
      AtSplit(data, at, [t[0]], t[1..] + [0]);
      CStrReads(data, at + 1, t[1..]);
    }
  }

  lemma FieldDecodes(bytes: seq<byte>, data: seq<byte>, limit: nat, pos: nat)
    requires |bytes| < TWO_TO_32
    requires At(data, pos, BigEndian(4, |bytes|) + bytes)
    requires pos + 4 + |bytes| <= limit <= |data|
    ensures ParseField(data, limit, pos) == Some((pos + 4, |bytes|))
    ensures At(data, pos + 4, bytes)
  {
    AtSplit(data, pos, BigEndian(4, |bytes|), bytes);
    U32RoundTrip(|bytes|);
  }

  lemma TextDecodes(t: seq<byte>, data: seq<byte>, limit: nat, pos: nat)
    requires TextOk(t)
    requires At(data, pos, EncodeText(t))
    requires pos + |EncodeText(t)| <= limit <= |data|
    ensures ParseField(data, limit, pos) == Some((pos + 4, |t| + 1))
    ensures CStr(data, pos + 4) == t
  {
    assert EncodeText(t) == BigEndian(4, |t + [0]|) + (t + [0]);
    FieldDecodes(t + [0], data, limit, pos);
    CStrReads(data, pos + 4, t);
  }

  lemma FirstNameDecodes(ts: seq<seq<byte>>, data: seq<byte>, limit: nat, pos: nat, delivered: seq<seq<byte>>)
    requires ts != [] && TextsOk(ts)
    requires At(data, pos, EncodeTexts(ts))
    requires pos + |EncodeTexts(ts)| <= limit <= |data|
    ensures TextsOk(ts[1..]) && At(data, pos + |ts[0]| + 5, EncodeTexts(ts[1..]))
    ensures |EncodeTexts(ts)| == |ts[0]| + 5 + |EncodeTexts(ts[1..])|
    ensures ParseNames(|ts|, data, limit, pos, delivered)
         == ParseNames(|ts| - 1, data, limit, pos + |ts[0]| + 5, delivered + [ts[0]])
  {
    hide At, EncodeText, TextOk, CStr;
    assert TextOk(ts[0]);
    AtSplit(data, pos, EncodeText(ts[0]), EncodeTexts(ts[1..]));
    TextDecodes(ts[0], data, limit, pos);
  }

  lemma {:induction false} NamesDecode(ts: seq<seq<byte>>, data: seq<byte>, limit: nat, pos: nat,
                                       delivered: seq<seq<byte>>)
    requires TextsOk(ts)
    requires At(data, pos, EncodeTexts(ts))
    requires pos + |EncodeTexts(ts)| <= limit <= |data|
    ensures ParseNames(|ts|, data, limit, pos, delivered)
         == Done(Delivered(delivered + ts), pos + |EncodeTexts(ts)|)
    decreases |ts|
  {
    hide At, EncodeText, CStr, TextOk;
    if ts == [] {
      assert delivered + ts == delivered;
    } else {
      FirstNameDecodes(ts, data, limit, pos, delivered);
      NamesDecode(ts[1..], data, limit, pos + |ts[0]| + 5, delivered + [ts[0]]);
      assert delivered + [ts[0]] + ts[1..] == delivered + ts;
    }
  }

  /** What the decoder makes of an item that stands at `pos`. */
  function ViewOf(item: Item, pos: nat): View {
    match item
    case Fixed(ws) => Values(ValuesOf(ws))
    case Text(_) => CharsAt(pos + 4)
    case Blob(b) => BytesAt(pos + 4, |b|)
    case Names(ts) => Delivered(ts)
  }

  /** The place a view names holds the item's content. */
  ghost predicate Shows(data: seq<byte>, item: Item, pos: nat) {
    && (item.Text? ==> CStr(data, pos + 4) == item.chars)
    && (item.Blob? ==> At(data, pos + 4, item.bytes))
  }

  lemma CountAt(count: u32, data: seq<byte>, pos: nat)
    requires At(data, pos, BigEndian(4, count))
    ensures pos + 4 <= |data| && FromBigEndian(data[pos..pos + 4]) == count
  {
    U32RoundTrip(count);
  }

  lemma ItemDecodes(item: Item, data: seq<byte>, limit: nat, pos: nat)
    requires ItemOk(item)
    requires At(data, pos, Encode(item))
    requires pos + |Encode(item)| <= limit <= |data|
    ensures Parse(ClassOfItem(item), data, limit, pos) == Done(ViewOf(item, pos), pos + |Encode(item)|)
    ensures Shows(data, item, pos)
  {
    hide At, EncodeText, EncodeWords, EncodeTexts, CStr;
    match item
    case Fixed(ws) =>
      WordsDecode(ws, data, limit, pos);
    case Text(t) =>
      TextDecodes(t, data, limit, pos);
    case Blob(b) =>
      FieldDecodes(b, data, limit, pos);
    case Names(ts) =>
      AtSplit(data, pos, BigEndian(4, |ts|), EncodeTexts(ts));
      CountAt(|ts|, data, pos);
      NamesDecode(ts, data, limit, pos + 4, []);
      assert [] + ts == ts;
  }

  // ------------------------------------------------------------ argument lists

  /** The slots a row may write. */
  function Footprint(row: Row): set<nat> {
    {row.value} + (if row.extra.SizeAt? then {row.extra.slot} else {})
  }

  ghost predicate Separate(ms: seq<Row>) {
    forall i, j :: 0 <= i < j < |ms| ==> Footprint(ms[i]) !! Footprint(ms[j])
  }

  /** The row's type id has the item's wire shape. */
  predicate Takes(row: Row, item: Item) {
    Known(row.typ) && ClassOf(row.typ) == ClassOfItem(item)
  }

  /** What one row leaves in memory once its item has been decoded. */
  ghost predicate Holds(row: Row, item: Item, data: seq<byte>, before: seq<Slot>, after: seq<Slot>)
    requires Takes(row, item)
    requires |before| == |after|
  {
    && row.value < |before|
    && match item
       case Fixed(ws) =>
         && Fits(ClassOf(row.typ).widths, ValuesOf(ws))
         && after[row.value] == FixedSlot(row.typ, ValuesOf(ws))
       case Text(t) =>
         if row.extra.Null? then
           after[row.value].Ptr? && CStr(data, after[row.value].offset) == t
         else
           && HasSize(row, before) && before[row.value].Buf?
           && before[row.extra.slot].bits64 <= |before[row.value].bytes|
           && after[row.value] == Buf(Printed(before[row.value].bytes, before[row.extra.slot].bits64, t))
       case Blob(b) =>
         && HasSize(row, before)
         && if before[row.extra.slot].bits64 == BORROW then
              && row.extra.slot != row.value
              && after[row.value].Ptr? && At(data, after[row.value].offset, b)
              && after[row.extra.slot].W64? && after[row.extra.slot].bits64 == |b|
            else
              && before[row.value].Buf?
              && before[row.extra.slot].bits64 <= |before[row.value].bytes|
              && after[row.value] == Buf(Copied(before[row.value].bytes, before[row.extra.slot].bits64, b))
       case Names(ts) =>
         before[row.value].List? && after[row.value] == List(before[row.value].names + ts)
  }

  /** The row can receive an item: its slots have the C types its type id stands for. */
  predicate Storable(row: Row, mem: seq<Slot>) {
    && Known(row.typ) && row.value < |mem|
    && (row.typ == RPC_STRING ==>
          row.extra.Null? ||
          (HasSize(row, mem) && mem[row.value].Buf? && mem[row.extra.slot].bits64 <= |mem[row.value].bytes|))
    && (row.typ == RPC_BYTES ==>
          && HasSize(row, mem) && row.extra.slot != row.value
          && (mem[row.extra.slot].bits64 == BORROW ||
              (mem[row.value].Buf? && mem[row.extra.slot].bits64 <= |mem[row.value].bytes|)))
    && (row.typ == RPC_STRINGLIST ==> mem[row.value].List?)
  }

  lemma StoredItem(row: Row, item: Item, data: seq<byte>, pos: nat, mem: seq<Slot>)
    requires Storable(row, mem) && ItemOk(item) && ClassOf(row.typ) == ClassOfItem(item)
    requires Shows(data, item, pos)
    requires ViewFits(ClassOf(row.typ), ViewOf(item, pos), |data|)
    ensures Holds(row, item, data, mem, Store(row, ViewOf(item, pos), data, mem))
    ensures forall s :: 0 <= s < |mem| && s !in Footprint(row) ==> Store(row, ViewOf(item, pos), data, mem)[s] == mem[s]
  {
  }

  lemma HoldsIsLocal(row: Row, item: Item, data: seq<byte>, before: seq<Slot>, after: seq<Slot>,
                     before': seq<Slot>, after': seq<Slot>)
    requires Takes(row, item)
    requires |before| == |after| == |before'| == |after'|
    requires Holds(row, item, data, before, after)
    requires forall s :: s in Footprint(row) && s < |before| ==> before'[s] == before[s] && after'[s] == after[s]
    ensures Holds(row, item, data, before', after')
  {
    assert row.value in Footprint(row);
    assert row.extra.SizeAt? ==> row.extra.slot in Footprint(row);
  }

  /** Every row of a list holds its own item. */
  ghost predicate AllHold(ms: seq<Row>, items: seq<Item>, data: seq<byte>, before: seq<Slot>, after: seq<Slot>) {
    && |ms| == |items| && |before| == |after|
    && forall k :: 0 <= k < |ms| ==> Takes(ms[k], items[k]) && Holds(ms[k], items[k], data, before, after)
  }

  /** The list can be received row by row. */
  ghost predicate Receives(ms: seq<Row>, items: seq<Item>, mem: seq<Slot>) {
    && |ms| == |items| && Separate(ms)
    && forall k :: 0 <= k < |ms| ==> Storable(ms[k], mem) && Takes(ms[k], items[k])
  }

  ghost predicate Untouched(ms: seq<Row>, before: seq<Slot>, after: seq<Slot>) {
    && |before| == |after|
    && forall s :: 0 <= s < |before| && (forall k :: 0 <= k < |ms| ==> s !in Footprint(ms[k])) ==>
         after[s] == before[s]
  }

  lemma ReceivesRest(ms: seq<Row>, items: seq<Item>, mem: seq<Slot>, mem1: seq<Slot>)
    requires ms != [] && Receives(ms, items, mem) && |mem| == |mem1|
    requires forall s :: 0 <= s < |mem| && s !in Footprint(ms[0]) ==> mem1[s] == mem[s]
    ensures Receives(ms[1..], items[1..], mem1)
  {
    forall k | 0 <= k < |ms[1..]|
      ensures Storable(ms[1..][k], mem1) && Takes(ms[1..][k], items[1..][k])
    {
      assert Storable(ms[k + 1], mem) && Takes(ms[k + 1], items[k + 1]);
      assert Footprint(ms[0]) !! Footprint(ms[k + 1]);
      StorableIsLocal(ms[k + 1], mem, mem1);
    }
    forall i, j | 0 <= i < j < |ms[1..]|
      ensures Footprint(ms[1..][i]) !! Footprint(ms[1..][j])
    {
      assert Footprint(ms[i + 1]) !! Footprint(ms[j + 1]);
    }
  }

  lemma HoldsJoin(ms: seq<Row>, items: seq<Item>, data: seq<byte>, mem: seq<Slot>, mem1: seq<Slot>, last: seq<Slot>)
    requires ms != [] && Receives(ms, items, mem) && |mem| == |mem1| == |last|
    requires Holds(ms[0], items[0], data, mem, mem1)
    requires forall s :: 0 <= s < |mem| && s !in Footprint(ms[0]) ==> mem1[s] == mem[s]
    requires AllHold(ms[1..], items[1..], data, mem1, last)
    requires Untouched(ms[1..], mem1, last)
    ensures AllHold(ms, items, data, mem, last)
    ensures Untouched(ms, mem, last)
  {
    assert forall k :: 0 <= k < |ms[1..]| ==> ms[1..][k] == ms[k + 1] && items[1..][k] == items[k + 1];
    forall k | 0 <= k < |ms|
      ensures Takes(ms[k], items[k]) && Holds(ms[k], items[k], data, mem, last)
    {
      if k == 0 {
        forall s | s in Footprint(ms[0]) && s < |mem|
          ensures last[s] == mem1[s]
        {
          assert forall j :: 0 < j < |ms| ==> Footprint(ms[0]) !! Footprint(ms[j]);
          assert forall j :: 0 <= j < |ms[1..]| ==> s !in Footprint(ms[1..][j]);
        }
        HoldsIsLocal(ms[0], items[0], data, mem, mem1, mem, last);
      } else {
        assert Takes(ms[1..][k - 1], items[1..][k - 1]) && Holds(ms[1..][k - 1], items[1..][k - 1], data, mem1, last);
        assert Footprint(ms[0]) !! Footprint(ms[k]);
        HoldsIsLocal(ms[k], items[k], data, mem1, last, mem, last);
      }
    }
    forall s | 0 <= s < |mem| && (forall k :: 0 <= k < |ms| ==> s !in Footprint(ms[k]))
      ensures last[s] == mem[s]
    {
      assert s !in Footprint(ms[0]);
      assert forall j :: 0 <= j < |ms[1..]| ==> s !in Footprint(ms[1..][j]);
    }
  }

  lemma OneRowDecodes(ms: seq<Row>, data: seq<byte>, limit: nat, pos: nat, mem: seq<Slot>, view: View, next: nat)
    requires limit <= |data| && ms != [] && Known(ms[0].typ)
    requires Parse(ClassOf(ms[0].typ), data, limit, pos) == Done(view, next)
    ensures ViewFits(ClassOf(ms[0].typ), view, |data|)
    ensures DeserializeRows(ms, data, limit, pos, mem)
         == DeserializeRows(ms[1..], data, limit, next, Store(ms[0], view, data, mem))
  {
  }

  lemma RowDecodes(row: Row, item: Item, data: seq<byte>, limit: nat, pos: nat, mem: seq<Slot>)
    requires Storable(row, mem) && Takes(row, item) && ItemOk(item)
    requires At(data, pos, Encode(item))
    requires pos + |Encode(item)| <= limit <= |data|
    ensures Parse(ClassOf(row.typ), data, limit, pos) == Done(ViewOf(item, pos), pos + |Encode(item)|)
    ensures ViewFits(ClassOf(row.typ), ViewOf(item, pos), |data|)
    ensures Holds(row, item, data, mem, Store(row, ViewOf(item, pos), data, mem))
    ensures forall s :: 0 <= s < |mem| && s !in Footprint(row) ==> Store(row, ViewOf(item, pos), data, mem)[s] == mem[s]
  {
    ItemDecodes(item, data, limit, pos);
    StoredItem(row, item, data, pos, mem);
  }

  lemma FirstRowDecodes(ms: seq<Row>, items: seq<Item>, data: seq<byte>, limit: nat, pos: nat, mem: seq<Slot>)
    returns (mem1: seq<Slot>)
    requires ms != [] && ItemsOk(items) && Receives(ms, items, mem)
    requires At(data, pos, EncodeItems(items))
    requires pos + |EncodeItems(items)| <= limit <= |data|
    ensures |mem1| == |mem|
    ensures Takes(ms[0], items[0]) && Holds(ms[0], items[0], data, mem, mem1)
    ensures forall s :: 0 <= s < |mem| && s !in Footprint(ms[0]) ==> mem1[s] == mem[s]
    ensures At(data, pos + |Encode(items[0])|, EncodeItems(items[1..]))
    ensures |EncodeItems(items)| == |Encode(items[0])| + |EncodeItems(items[1..])|
    ensures ItemsOk(items[1..]) && Receives(ms[1..], items[1..], mem1)
    ensures DeserializeRows(ms, data, limit, pos, mem)
         == DeserializeRows(ms[1..], data, limit, pos + |Encode(items[0])|, mem1)
  {
    hide At, Encode, Holds, Store, Parse, Storable, Footprint, ItemOk;
    var row, item := ms[0], items[0];
    assert Storable(row, mem) && Takes(row, item) && ItemOk(item);
    AtSplit(data, pos, Encode(item), EncodeItems(items[1..]));
    RowDecodes(row, item, data, limit, pos, mem);
    OneRowDecodes(ms, data, limit, pos, mem, ViewOf(item, pos), pos + |Encode(item)|);
    mem1 := Store(row, ViewOf(item, pos), data, mem);
    ReceivesRest(ms, items, mem, mem1);
  }

  /** Decoding a list of items that stand one after the other succeeds, ends right
      behind the last one, and leaves every row holding its own item. */
  lemma {:induction false} ItemsDecode(ms: seq<Row>, items: seq<Item>, data: seq<byte>, limit: nat, pos: nat,
                                       mem: seq<Slot>) returns (r: Decoded)
    requires ItemsOk(items) && Receives(ms, items, mem)
    requires At(data, pos, EncodeItems(items))
    requires pos + |EncodeItems(items)| <= limit <= |data|
    ensures r == DeserializeRows(ms, data, limit, pos, mem)
    ensures r.status == RPC_GOOD && r.pos == pos + |EncodeItems(items)|
    ensures AllHold(ms, items, data, mem, r.mem)
    ensures Untouched(ms, mem, r.mem)
    decreases |ms|
  {
    hide At, Encode, ItemOk, Holds, Takes, Storable, Footprint, Parse, Store, Separate;
    if ms == [] {
      r := Decoded(RPC_GOOD, pos, mem);
    } else {
      var mem1 := FirstRowDecodes(ms, items, data, limit, pos, mem);
      r := ItemsDecode(ms[1..], items[1..], data, limit, pos + |Encode(items[0])|, mem1);
      HoldsJoin(ms, items, data, mem, mem1, r.mem);
    }
  }

  lemma StorableIsLocal(row: Row, mem: seq<Slot>, mem': seq<Slot>)
    requires |mem| == |mem'| && Storable(row, mem)
    requires forall s :: s in Footprint(row) && s < |mem| ==> mem'[s] == mem[s]
    ensures Storable(row, mem')
  {
    assert row.value in Footprint(row);
    assert row.extra.SizeAt? ==> row.extra.slot in Footprint(row);
  }

  // ------------------------------------------------------------ messages

  ghost predicate AllKnown(ms: seq<Row>) {
    forall k :: 0 <= k < |ms| ==> Known(ms[k].typ)
  }

  /** What the rows of a table contribute to a message, in order. */
  function LoadAll(ms: seq<Row>, mem: seq<Slot>): (items: seq<Item>)
    requires AllKnown(ms) && AllLoadable(ms, mem)
    ensures |items| == |ms|
    ensures forall k :: 0 <= k < |ms| ==> items[k] == Load(ms[k], mem)
  {
    seq(|ms|, k requires 0 <= k < |ms| => Load(ms[k], mem))
  }

  lemma {:induction false} SerializeIsItems(ms: seq<Row>, mem: seq<Slot>)
    requires AllKnown(ms) && AllLoadable(ms, mem)
    ensures SerializeRows(ms, mem) == Encoded(RPC_GOOD, EncodeItems(LoadAll(ms, mem)))
    decreases |ms|
  {
    if ms == [] {
    } else {
      assert AllKnown(ms[1..]) && AllLoadable(ms[1..], mem);
      SerializeIsItems(ms[1..], mem);
      assert LoadAll(ms, mem)[1..] == LoadAll(ms[1..], mem);
    }
  }

  lemma LoadedShape(row: Row, mem: seq<Slot>)
    requires Known(row.typ) && Loadable(row, mem)
    ensures Takes(row, Load(row, mem))
    ensures Load(row, mem).Fixed? ==> ItemOk(Load(row, mem))
  {
    PowersOfInterest();
    if row.typ == RPC_STAT {
      StatShape(mem[row.value].stat);
    } else if row.typ == RPC_STATVFS {
      VfsShape(mem[row.value].vfs);
    } else {
      assert Widths([Word(4, 0)]) == [4] && Widths([Word(8, 0)]) == [8];
      assert forall w: Word :: Widths([w]) == [w.width] + Widths([]);
    }
  }

  lemma WidthsAt(ws: seq<Word>)
    ensures |Widths(ws)| == |ValuesOf(ws)| == |ws|
    ensures forall k :: 0 <= k < |ws| ==> Widths(ws)[k] == ws[k].width && ValuesOf(ws)[k] == ws[k].value
  {
    if ws != [] {
      WidthsAt(ws[1..]);
      assert forall k :: 0 < k < |ws| ==> ws[k] == ws[1..][k - 1];
    }
  }

  lemma StatShape(s: Stat)
    ensures Widths(StatWords(s)) == STAT_WIDTHS
    ensures ItemOk(Fixed(StatWords(s)))
  {
    PowersOfInterest();
    WidthsAt(StatWords(s));
    hide Widths, ValuesOf, Pow256;
  }

  lemma VfsShape(v: Vfs)
    ensures Widths(VfsWords(v)) == VFS_WIDTHS
    ensures ItemOk(Fixed(VfsWords(v)))
  {
    PowersOfInterest();
    WidthsAt(VfsWords(v));
  }

  /** Two lists of rows put and expect the same shapes, one by one. */
  ghost predicate WireCompatible(sent: seq<Row>, received: seq<Row>) {
    && |sent| == |received| && AllKnown(sent) && AllKnown(received)
    && forall k :: 0 <= k < |sent| ==> ClassOf(sent[k].typ) == ClassOf(received[k].typ)
  }

  lemma FrameLayout(id: int, payload: seq<byte>, data: seq<byte>)
    requires |data| >= 8 + |payload| && data[..8 + |payload|] == Frame(id, payload)
    ensures At(data, 0, BigEndian(4, 8 + |payload|))
    ensures At(data, 4, BigEndian(4, id))
    ensures At(data, 8, payload)
  {
    assert At(data, 0, Frame(id, payload));
    AtSplit(data, 0, BigEndian(4, 8 + |payload|) + BigEndian(4, id), payload);
    AtSplit(data, 0, BigEndian(4, 8 + |payload|), BigEndian(4, id));
  }

  lemma FrameId(id: i32, payload: seq<byte>, data: seq<byte>, limit: nat)
    requires 8 + |payload| <= limit <= |data| && data[..8 + |payload|] == Frame(id, payload)
    ensures MethodId(data, limit) == id
  {
    FrameLayout(id, payload, data);
    Int32RoundTrip(id);
  }

  /** The law of the format. What one table serialises, any wire-compatible table
      deserialises, whatever stands behind the message: the id is read back, every
      row holds the value of its counterpart, the cursor ends exactly where the
      message does, and no other slot is written. */
  lemma TableRoundTrip(sent: seq<Row>, from: seq<Slot>, received: seq<Row>, into: seq<Slot>, id: i32,
                       data: seq<byte>, limit: nat)
    requires WireCompatible(sent, received) && AllLoadable(sent, from)
    requires ItemsOk(LoadAll(sent, from))
    requires Separate(received) && forall k :: 0 <= k < |received| ==> Storable(received[k], into)
    requires |Frame(id, SerializeRows(sent, from).payload)| <= limit <= |data|
    requires data[..|Frame(id, SerializeRows(sent, from).payload)|] == Frame(id, SerializeRows(sent, from).payload)
    ensures MethodId(data, limit) == id
    ensures DeserializeRows(received, data, limit, DATA_OFFSET, into).status == RPC_GOOD
    ensures DeserializeRows(received, data, limit, DATA_OFFSET, into).pos
         == |Frame(id, SerializeRows(sent, from).payload)|
    ensures AllHold(received, LoadAll(sent, from), data, into,
                    DeserializeRows(received, data, limit, DATA_OFFSET, into).mem)
    ensures Untouched(received, into, DeserializeRows(received, data, limit, DATA_OFFSET, into).mem)
  {
    var items := LoadAll(sent, from);
    SerializeIsItems(sent, from);
    FrameId(id, EncodeItems(items), data, limit);
    FrameLayout(id, EncodeItems(items), data);
    forall k | 0 <= k < |received|
      ensures Takes(received[k], items[k])
    {
      LoadedShape(sent[k], from);
    }
    var r := ItemsDecode(received, items, data, limit, DATA_OFFSET, into);
  }

  // ------------------------------------------------------------ copying decoders

  /** memcpy, byte for byte: what fits arrives, and the rest of the buffer stays. */
  lemma CopiedAt(buffer: seq<byte>, size: nat, bytes: seq<byte>)
    requires size <= |buffer|
    ensures |Copied(buffer, size, bytes)| == |buffer|
    ensures forall i :: 0 <= i < |buffer| ==>
              Copied(buffer, size, bytes)[i] == if i < |bytes| && i < size then bytes[i] else buffer[i]
  {
  }

  lemma {:induction false} TextHasNoNul(data: seq<byte>, at: nat)
    ensures 0 !in CStr(data, at)
    decreases |data| - at
  {
    if at < |data| && data[at] != 0 {
      TextHasNoNul(data, at + 1);
    }
  }

  /** snprintf, byte for byte: as much of the text as fits, a NUL, and the rest of the
      buffer stays; so the C string that is read back is the text or the part that fits. */
  lemma PrintedAt(buffer: seq<byte>, size: nat, text: seq<byte>)
    requires size <= |buffer| && 0 !in text
    ensures |Printed(buffer, size, text)| == |buffer|
    ensures size == 0 ==> Printed(buffer, size, text) == buffer
    ensures size > 0 ==>
              var n := if |text| < size then |text| else size - 1;
              && CStr(Printed(buffer, size, text), 0) == text[..n]
              && forall i :: n < i < |buffer| ==> Printed(buffer, size, text)[i] == buffer[i]
  {
    if size > 0 {
      var n := if |text| < size then |text| else size - 1;
      var printed := Printed(buffer, size, text);
      assert printed[0..n] == text[..n] && printed[n] == 0;
      CStrReads(printed, 0, text[..n]);
    }
  }

  // ------------------------------------------------------------ truncation

  /** Only a strict prefix of `bytes` stands at `pos` before the limit. */
  ghost predicate CutShort(data: seq<byte>, limit: nat, pos: nat, bytes: seq<byte>) {
    && limit <= |data| && limit < pos + |bytes|
    && (pos <= limit ==> data[pos..limit] == bytes[..limit - pos])
  }

  lemma CutIsShort(data: seq<byte>, limit: nat, pos: nat, bytes: seq<byte>)
    requires CutShort(data, limit, pos, bytes)
    ensures limit < pos + |bytes|
  {
  }

  lemma CutSplit(data: seq<byte>, limit: nat, pos: nat, a: seq<byte>, b: seq<byte>)
    requires CutShort(data, limit, pos, a + b)
    ensures limit < pos + |a| ==> CutShort(data, limit, pos, a)
    ensures limit >= pos + |a| ==> At(data, pos, a) && CutShort(data, limit, pos + |a|, b)
  {
    if pos <= limit {
      if limit < pos + |a| {
        assert (a + b)[..limit - pos] == a[..limit - pos];
      } else {
        assert (a + b)[..limit - pos] == a + b[..limit - pos - |a|];
        assert data[pos..limit][..|a|] == a;
        assert data[pos..limit][|a|..] == b[..limit - pos - |a|];
      }
    }
  }

  lemma {:induction false} WordsCut(ws: seq<Word>, data: seq<byte>, limit: nat, pos: nat)
    requires ws != [] && CutShort(data, limit, pos, EncodeWords(ws))
    ensures ParseWords(Widths(ws), data, limit, pos).None?
    decreases |ws|
  {
    hide CutShort, At, BigEndian, FromBigEndian;
    var w, rest := ws[0], ws[1..];
    CutSplit(data, limit, pos, BigEndian(w.width, w.value), EncodeWords(rest));
    assert Widths(ws)[1..] == Widths(rest);
    if pos + w.width <= limit {
      CutIsShort(data, limit, pos + w.width, EncodeWords(rest));
      WordsCut(rest, data, limit, pos + w.width);
    }
  }

  lemma FieldCut(bytes: seq<byte>, data: seq<byte>, limit: nat, pos: nat)
    requires |bytes| < TWO_TO_32 && CutShort(data, limit, pos, BigEndian(4, |bytes|) + bytes)
    ensures ParseField(data, limit, pos).None?
  {
    CutSplit(data, limit, pos, BigEndian(4, |bytes|), bytes);
    U32RoundTrip(|bytes|);
  }

  lemma TextCut(t: seq<byte>, data: seq<byte>, limit: nat, pos: nat)
    requires TextOk(t) && CutShort(data, limit, pos, EncodeText(t))
    ensures ParseField(data, limit, pos).None?
  {
    assert EncodeText(t) == BigEndian(4, |t + [0]|) + (t + [0]);
    FieldCut(t + [0], data, limit, pos);
  }

  lemma {:induction false} NamesCut(ts: seq<seq<byte>>, data: seq<byte>, limit: nat, pos: nat,
                                    delivered: seq<seq<byte>>)
    requires pos <= limit && CutShort(data, limit, pos, EncodeTexts(ts))
    requires TextsOk(ts)
    ensures ParseNames(|ts|, data, limit, pos, delivered).Failed?
    decreases |ts|
  {
    hide CutShort, At, EncodeText, CStr, TextOk;
    CutIsShort(data, limit, pos, EncodeTexts(ts));
    var first, rest := ts[0], ts[1..];
    assert TextOk(first);
    CutSplit(data, limit, pos, EncodeText(first), EncodeTexts(rest));
    if limit < pos + |EncodeText(first)| {
      TextCut(first, data, limit, pos);
    } else {
      TextDecodes(first, data, limit, pos);
      NamesCut(rest, data, limit, pos + |EncodeText(first)|, delivered + [first]);
    }
  }

  lemma ItemCut(item: Item, data: seq<byte>, limit: nat, pos: nat)
    requires ItemOk(item) && item != Fixed([])
    requires CutShort(data, limit, pos, Encode(item))
    ensures Parse(ClassOfItem(item), data, limit, pos).Failed?
  {
    match item
    case Fixed(ws) =>
      WordsCut(ws, data, limit, pos);
    case Text(t) =>
      TextCut(t, data, limit, pos);
    case Blob(b) =>
      FieldCut(b, data, limit, pos);
    case Names(ts) =>
      CutSplit(data, limit, pos, BigEndian(4, |ts|), EncodeTexts(ts));
      U32RoundTrip(|ts|);
      if pos + 4 <= limit {
        NamesCut(ts, data, limit, pos + 4, []);
      }
  }

  /** The message delimits itself: with any byte of the payload missing, decoding
      a non-empty argument list fails, for every table the sender's rows match. */
  lemma {:induction false} TruncationFails(ms: seq<Row>, items: seq<Item>, data: seq<byte>, limit: nat, pos: nat,
                                           mem: seq<Slot>)
    requires ms != [] && |ms| == |items| && ItemsOk(items)
    requires forall k :: 0 <= k < |ms| ==> Takes(ms[k], items[k])
    requires CutShort(data, limit, pos, EncodeItems(items))
    ensures DeserializeRows(ms, data, limit, pos, mem).status == RPC_BAD_DESERIALIZE_FAILED
    decreases |ms|
  {
    var row, item := ms[0], items[0];
    assert Takes(row, item) && ItemOk(item);
    CutSplit(data, limit, pos, Encode(item), EncodeItems(items[1..]));
    if limit < pos + |Encode(item)| {
      ItemCut(item, data, limit, pos);
    } else {
      ItemDecodes(item, data, limit, pos);
      var next := pos + |Encode(item)|;
      OneRowDecodes(ms, data, limit, pos, mem, ViewOf(item, pos), next);
      TruncationFails(ms[1..], items[1..], data, limit, next, Store(row, ViewOf(item, pos), data, mem));
    }
  }

  /** Every strict truncation of a message fails to decode: whatever part of the payload
      is missing, whatever stands behind the cut, and whatever table receives it. */
  lemma TruncatedTableFails(sent: seq<Row>, from: seq<Slot>, received: seq<Row>, into: seq<Slot>, id: i32,
                            data: seq<byte>, limit: nat)
    requires WireCompatible(sent, received) && AllLoadable(sent, from) && sent != []
    requires ItemsOk(LoadAll(sent, from))
    requires limit <= |data| && DATA_OFFSET <= limit < |Frame(id, SerializeRows(sent, from).payload)|
    requires data[..limit] == Frame(id, SerializeRows(sent, from).payload)[..limit]
    ensures DeserializeRows(received, data, limit, DATA_OFFSET, into).status == RPC_BAD_DESERIALIZE_FAILED
  {
    var items := LoadAll(sent, from);
    SerializeIsItems(sent, from);
    var payload := SerializeRows(sent, from).payload;
    assert data[DATA_OFFSET..limit] == data[..limit][DATA_OFFSET..] == payload[..limit - DATA_OFFSET];
    forall k | 0 <= k < |received|
      ensures Takes(received[k], items[k])
    {
      LoadedShape(sent[k], from);
    }
    TruncationFails(received, items, data, limit, DATA_OFFSET, into);
  }

  // ------------------------------------------------------------ arbitrary bytes

  lemma {:induction false} NamesBounded(count: nat, data: seq<byte>, limit: nat, pos: nat, delivered: seq<seq<byte>>)
    requires pos <= limit <= |data|
    ensures match ParseNames(count, data, limit, pos, delivered)
            case Done(view, next) =>
              && pos <= next <= limit
              && delivered <= view.names && |view.names| == |delivered| + count
              && 4 * count <= next - pos
            case Failed(names) =>
              && delivered <= names && |names| - |delivered| < count
              && 4 * (|names| - |delivered|) <= limit - pos
    decreases count
  {
    if count == 0 {
    } else {
      match ParseField(data, limit, pos)
      case None =>
      case Some((at, length)) =>
        NamesBounded(count - 1, data, limit, at + length, delivered + [CStr(data, at)]);
    }
  }

  /** When the list decoder fails at an entry, the callback has received exactly the
      entries before it: that many decode, and the next one does not. */
  lemma {:induction false} NamesFailExactly(count: nat, data: seq<byte>, limit: nat, pos: nat,
                                            delivered: seq<seq<byte>>) returns (k: nat, next: nat)
    requires limit <= |data| && ParseNames(count, data, limit, pos, delivered).Failed?
    ensures k < count
    ensures ParseNames(k, data, limit, pos, delivered)
         == Done(Delivered(ParseNames(count, data, limit, pos, delivered).names), next)
    ensures ParseField(data, limit, next).None?
    decreases count
  {
    match ParseField(data, limit, pos)
    case None =>
      k, next := 0, pos;
    case Some((at, length)) =>
      var more := delivered + [CStr(data, at)];
      k, next := NamesFailExactly(count - 1, data, limit, at + length, more);
      k := k + 1;
  }

  lemma {:induction false} WordsBounded(widths: seq<nat>, data: seq<byte>, limit: nat, pos: nat)
    requires pos <= limit <= |data|
    ensures ParseWords(widths, data, limit, pos).Some? <==> pos + Sum(widths) <= limit
    decreases |widths|
  {
    if widths == [] {
    } else if pos + widths[0] <= limit {
      WordsBounded(widths[1..], data, limit, pos + widths[0]);
    }
  }

  lemma ParseBounded(c: Class, data: seq<byte>, limit: nat, pos: nat)
    requires pos <= limit <= |data|
    ensures match Parse(c, data, limit, pos)
            case Done(view, next) =>
              pos <= next <= limit && (c.NamesClass? ==> 4 * |view.names| <= next - pos - 4)
            case Failed(names) =>
              names != [] ==> 4 * |names| <= limit - pos - 4
  {
    match c
    case FixedClass(widths) => WordsBounded(widths, data, limit, pos);
    case TextClass =>
    case BlobClass =>
    case NamesClass =>
      if pos + 4 <= limit {
        NamesBounded(FromBigEndian(data[pos..pos + 4]), data, limit, pos + 4, []);
      }
  }

  /** No list slot received more than one name per four of `budget` bytes. */
  ghost predicate ListsGrowBy(budget: nat, before: seq<Slot>, after: seq<Slot>)
    requires |before| == |after|
  {
    forall s :: 0 <= s < |before| && before[s].List? && after[s].List? ==>
                  4 * (|after[s].names| - |before[s].names|) <= budget
  }

  /** On arbitrary bytes the cursor never moves back and never passes the limit,
      and a list callback runs at most once per four bytes that were left. */
  lemma {:induction false} DecodingIsBounded(ms: seq<Row>, data: seq<byte>, limit: nat, pos: nat, mem: seq<Slot>)
    requires pos <= limit <= |data|
    ensures pos <= DeserializeRows(ms, data, limit, pos, mem).pos <= limit
    ensures ListsGrowBy(limit - pos, mem, DeserializeRows(ms, data, limit, pos, mem).mem)
    decreases |ms|
  {
    if ms == [] || !Known(ms[0].typ) {
    } else {
      ParseBounded(ClassOf(ms[0].typ), data, limit, pos);
      match Parse(ClassOf(ms[0].typ), data, limit, pos)
      case Done(view, next) =>
        var mem1 := Store(ms[0], view, data, mem);
        OneRowDecodes(ms, data, limit, pos, mem, view, next);
        DecodingIsBounded(ms[1..], data, limit, next, mem1);
        forall s | 0 <= s < |mem| && mem[s].List?
                   && DeserializeRows(ms, data, limit, pos, mem).mem[s].List?
          ensures 4 * (|DeserializeRows(ms, data, limit, pos, mem).mem[s].names| - |mem[s].names|) <= limit - pos
        {
          ListSlotStays(ms[1..], data, limit, next, mem1, s);
        }
      case Failed(names) =>
    }
  }

  /** A slot that ends as a list was a list all along: no decoder turns another
      object into one. */
  lemma {:induction false} ListSlotStays(ms: seq<Row>, data: seq<byte>, limit: nat, pos: nat, mem: seq<Slot>, s: nat)
    requires limit <= |data| && s < |mem|
    requires DeserializeRows(ms, data, limit, pos, mem).mem[s].List?
    ensures mem[s].List?
    decreases |ms|
  {
    if ms == [] || !Known(ms[0].typ) {
    } else {
      match Parse(ClassOf(ms[0].typ), data, limit, pos)
      case Done(view, next) =>
        ListSlotStays(ms[1..], data, limit, next, Store(ms[0], view, data, mem), s);
      case Failed(names) =>
    }
  }

  /** A decoder that fails leaves the caller's object as it was, unless it is a list. */
  lemma FailedDecodeKeepsObject(row: Row, data: seq<byte>, limit: nat, pos: nat, mem: seq<Slot>)
    requires limit <= |data| && Known(row.typ) && row.typ != RPC_STRINGLIST
    requires DeserializeRows([row], data, limit, pos, mem).status != RPC_GOOD
    ensures DeserializeRows([row], data, limit, pos, mem).mem == mem
  {
    assert Parse(ClassOf(row.typ), data, limit, pos).Failed?;
    if row.value < |mem| && mem[row.value].List? {
      assert mem[row.value].names + [] == mem[row.value].names;
    }
  }

  /** Reading a decoded string stays inside its own field exactly when the field
      holds a NUL; the decoder itself does not ask for one. */
  lemma StringStaysInField(data: seq<byte>, limit: nat, pos: nat)
    requires limit <= |data| && ParseField(data, limit, pos).Some?
    ensures var (at, length) := ParseField(data, limit, pos).value;
            |CStr(data, at)| < length <==> 0 in data[at..at + length]
  {
    var (at, length) := ParseField(data, limit, pos).value;
    CStrExtent(data, at);
    if 0 in data[at..at + length] {
      var k :| 0 <= k < length && data[at..at + length][k] == 0;
      assert data[at + k] == 0;
    }
    if |CStr(data, at)| < length {
      assert data[at..at + length][|CStr(data, at)|] == 0;
    }
  }

  /** A field of one byte that is no NUL: the string that is read runs into the next one. */
  lemma UnterminatedFieldRunsOn()
    ensures var data: seq<byte> := [0, 0, 0, 1, 65, 66, 0];
            && ParseField(data, 7, 0) == Some((4, 1))
            && CStr(data, 4) == [65, 66]
  {
    var data: seq<byte> := [0, 0, 0, 1, 65, 66, 0];
    assert data[0..4] == BigEndian(4, 1) by {
      assert BigEndian(4, 1) == BigEndian(3, 0) + [1];
      assert BigEndian(3, 0) == BigEndian(2, 0) + [0];
      assert BigEndian(2, 0) == BigEndian(1, 0) + [0];
      assert BigEndian(1, 0) == BigEndian(0, 0) + [0];
    }
    U32RoundTrip(1);
    assert CStr(data, 6) == [];
    assert CStr(data, 5) == [66] + CStr(data, 6);
    assert CStr(data, 4) == [65] + CStr(data, 5);
  }

  lemma {:induction false} CStrExtent(data: seq<byte>, at: nat)
    requires at <= |data|
    ensures at + |CStr(data, at)| <= |data|
    ensures at + |CStr(data, at)| < |data| ==> data[at + |CStr(data, at)|] == 0
    ensures forall k :: at <= k < at + |CStr(data, at)| ==> data[k] != 0
    decreases |data| - at
  {
    if at < |data| && data[at] != 0 {
      CStrExtent(data, at + 1);
    }
  }

  // ------------------------------------------------------------ stat and statvfs

  /** What survives the wire: st_dev and st_blksize are dropped, times keep 32 bits. */
  function StatProjection(s: Stat): Stat {
    s.(dev := 0, blksize := 0,
       atimeSec := s.atimeSec % TWO_TO_32, atimeNsec := s.atimeNsec % TWO_TO_32,
       mtimeSec := s.mtimeSec % TWO_TO_32, mtimeNsec := s.mtimeNsec % TWO_TO_32,
       ctimeSec := s.ctimeSec % TWO_TO_32, ctimeNsec := s.ctimeNsec % TWO_TO_32)
  }

  function VfsProjection(v: Vfs): Vfs {
    v.(favail := 0, fsid := 0, flag := 0)
  }

  lemma StatWordsOfProjection(s: Stat)
    ensures StatWords(StatProjection(s)) == StatWords(s)
    ensures StatProjection(StatProjection(s)) == StatProjection(s)
  {
  }

  lemma StatValues(s: Stat)
    ensures Fits(STAT_WIDTHS, ValuesOf(StatWords(s)))
    ensures StatFrom(ValuesOf(StatWords(s))) == StatProjection(s)
  {
    StatShape(s);
    WidthsAt(StatWords(s));
  }

  /** Sending a stat applies the projection; sending the projection puts the same
      bytes on the wire, so a second trip changes nothing. */
  lemma StatCodec(s: Stat)
    ensures Fits(STAT_WIDTHS, ValuesOf(StatWords(s)))
    ensures StatFrom(ValuesOf(StatWords(s))) == StatProjection(s)
    ensures StatProjection(StatProjection(s)) == StatProjection(s)
    ensures EncodeWords(StatWords(StatProjection(s))) == EncodeWords(StatWords(s))
  {
    StatShape(s);
    StatValues(s);
    StatWordsOfProjection(s);
  }

  lemma VfsCodec(v: Vfs)
    ensures Fits(VFS_WIDTHS, ValuesOf(VfsWords(v)))
    ensures VfsFrom(ValuesOf(VfsWords(v))) == VfsProjection(v)
    ensures VfsProjection(VfsProjection(v)) == VfsProjection(v)
    ensures EncodeWords(VfsWords(VfsProjection(v))) == EncodeWords(VfsWords(v))
  {
    VfsShape(v);
    WidthsAt(VfsWords(v));
    assert VfsWords(VfsProjection(v)) == VfsWords(v);
  }

  ghost predicate FitsStatFormat(s: Stat) {
    && s.dev == 0 && s.blksize == 0
    && s.atimeSec < TWO_TO_32 && s.atimeNsec < TWO_TO_32
    && s.mtimeSec < TWO_TO_32 && s.mtimeNsec < TWO_TO_32
    && s.ctimeSec < TWO_TO_32 && s.ctimeNsec < TWO_TO_32
  }

  /** The projection loses nothing exactly when the dropped fields are zero and the
      times fit 32 bits. */
  lemma StatIsLossless(s: Stat)
    ensures StatProjection(s) == s <==> FitsStatFormat(s)
  {
    if StatProjection(s) == s {
      assert StatProjection(s).atimeSec < TWO_TO_32 && StatProjection(s).atimeNsec < TWO_TO_32;
      assert StatProjection(s).mtimeSec < TWO_TO_32 && StatProjection(s).mtimeNsec < TWO_TO_32;
      assert StatProjection(s).ctimeSec < TWO_TO_32 && StatProjection(s).ctimeNsec < TWO_TO_32;
    }
  }

  /** A time before 1970 is one that does not fit: one second before comes out late. */
  lemma NegativeTimeIsLost()
    ensures var s := Stat(0, 0, 0, 0, 0, 0, 0, 0, 0, 0, Unsigned64(-1), 0, 0, 0, 0, 0);
            !FitsStatFormat(s) && Signed64(StatProjection(s).atimeSec) == 0xffff_ffff
  {
  }
}
