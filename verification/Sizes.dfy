/**
 How long messages are, in terms a caller can evaluate: the lengths of its strings and
 bytes, and of what the backend wrote.
 */
module Sizes {
  import opened Words
  import opened Wire
  import opened WireLaws
  import opened Calls
  import opened Remote

  function TextSize(t: seq<byte>): nat { |t| + 5 }

  function NamesSize(ts: seq<Name>): nat {
    if ts == [] then 0 else TextSize(ts[0]) + NamesSize(ts[1..])
  }

  const HEADER_SIZE: nat := 8
  const STAT_SIZE: nat := 76
  const VFS_SIZE: nat := 64

  function RequestSize(call: Call): nat {
    HEADER_SIZE +
    match call
    case ListOperations => 0
    case GetAttr(path, _) => TextSize(path) + 8
    case Access(path, _) => TextSize(path) + 4
    case ReadLink(path, _) => TextSize(path) + 4
    case ReadDir(path, _, _) => TextSize(path) + 16
    case MkNod(path, _, _) => TextSize(path) + 12
    case MkDir(path, _) => TextSize(path) + 4
    case SymLink(source, target) => TextSize(source) + TextSize(target)
    case Unlink(path) => TextSize(path)
    case RmDir(path) => TextSize(path)
    case Rename(source, target, _) => TextSize(source) + TextSize(target) + 4
    case Link(source, target) => TextSize(source) + TextSize(target)
    case ChMod(path, _) => TextSize(path) + 4
    case ChOwn(path, _, _) => TextSize(path) + 8
    case Truncate(path, _, _) => TextSize(path) + 16
    case Create(path, _, _) => TextSize(path) + 8
    case Open(path, _) => TextSize(path) + 4
    case Read(path, _, _, _) => TextSize(path) + 20
    case Write(path, bytes, _, _) => TextSize(path) + |bytes| + 20
    case StatFs(path) => TextSize(path)
    case Release(path, _) => TextSize(path) + 8
    case FSync(path, _, _) => TextSize(path) + 12
    case LSeek(path, _, _, _) => TextSize(path) + 20
  }

  function ReplySize(call: Call, answer: Answer, junk: Junk): nat {
    var wrote := answer.wrote;
    HEADER_SIZE + (if call.LSeek? then 8 else 4) +
    match call
    case ListOperations => 4 + NamesSize(if wrote.Offered? then wrote.names else [])
    case GetAttr(_, _) => STAT_SIZE
    case ReadLink(_, _) => TextSize(if wrote.WroteText? then wrote.text else junk.text)
    case ReadDir(_, _, _) => 4 + NamesSize(if wrote.Offered? then wrote.names else [])
    case Create(_, _, _) => 8
    case Open(_, _) => 8
    case Read(_, _, _, _) => 4 + |Reported(answer)|
    case StatFs(_) => VFS_SIZE
    case _ => 0
  }

  // ---------------------------------------------------------------- one row

  lemma {:induction false} WordsSize(ws: seq<Word>)
    ensures |EncodeWords(ws)| == Sum(Widths(ws))
    decreases |ws|
  {
    if ws != [] {
      WordsSize(ws[1..]);
      assert Widths(ws)[1..] == Widths(ws[1..]);
    }
  }

  lemma SumOfEight(w: seq<nat>)
    requires |w| >= 8
    ensures Sum(w) == w[0] + w[1] + w[2] + w[3] + w[4] + w[5] + w[6] + w[7] + Sum(w[8..])
  {
    assert w[1..][1..] == w[2..] && w[2..][1..] == w[3..] && w[3..][1..] == w[4..] && w[4..][1..] == w[5..];
    assert w[5..][1..] == w[6..] && w[6..][1..] == w[7..] && w[7..][1..] == w[8..];
    assert Sum(w) == w[0] + Sum(w[1..]);
    assert Sum(w[1..]) == w[1] + Sum(w[2..]);
    assert Sum(w[2..]) == w[2] + Sum(w[3..]);
    assert Sum(w[3..]) == w[3] + Sum(w[4..]);
    assert Sum(w[4..]) == w[4] + Sum(w[5..]);
    assert Sum(w[5..]) == w[5] + Sum(w[6..]);
    assert Sum(w[6..]) == w[6] + Sum(w[7..]);
    assert Sum(w[7..]) == w[7] + Sum(w[8..]);
  }

  lemma SumOfSix(w: seq<nat>)
    requires |w| == 6
    ensures Sum(w) == w[0] + w[1] + w[2] + w[3] + w[4] + w[5]
  {
    assert w[1..][1..] == w[2..] && w[2..][1..] == w[3..] && w[3..][1..] == w[4..] && w[4..][1..] == w[5..];
    assert w[5..][1..] == [];
    assert Sum(w[5..]) == w[5] + Sum([]);
    assert Sum(w[4..]) == w[4] + Sum(w[5..]);
    assert Sum(w[3..]) == w[3] + Sum(w[4..]);
    assert Sum(w[2..]) == w[2] + Sum(w[3..]);
    assert Sum(w[1..]) == w[1] + Sum(w[2..]);
  }

  lemma SumOfOne(n: nat)
    ensures Sum([n]) == n
  {
    assert [n][1..] == [];
    assert Sum([]) == 0;
  }

  lemma VfsSum(w: seq<nat>)
    requires |w| == 8 && forall k :: 0 <= k < 8 ==> w[k] == 8
    ensures Sum(w) == VFS_SIZE
  {
    SumOfEight(w);
    assert w[8..] == [];
  }

  lemma StatSum(w: seq<nat>)
    requires |w| == 14 && forall k :: 0 <= k < 14 ==> w[k] == if k in {0, 2, 5, 6, 7} then 8 else 4
    ensures Sum(w) == STAT_SIZE
  {
    hide Sum;
    SumOfEight(w);
    SumOfSix(w[8..]);
  }

  lemma RecordSizes()
    ensures Sum([4]) == 4 && Sum([8]) == 8
    ensures Sum(VFS_WIDTHS) == VFS_SIZE
    ensures Sum(STAT_WIDTHS) == STAT_SIZE
  {
    hide Sum;
    SumOfOne(4);
    SumOfOne(8);
    VfsSum(VFS_WIDTHS);
    StatSum(STAT_WIDTHS);
  }

  lemma {:induction false} TextsSize(ts: seq<Name>)
    ensures |EncodeTexts(ts)| == NamesSize(ts)
    decreases |ts|
  {
    if ts != [] {
      TextsSize(ts[1..]);
    }
  }

  function RowSize(row: Row, mem: seq<Slot>): nat
    requires Known(row.typ) && Loadable(row, mem)
  {
    var slot := mem[row.value];
    if IsWord32(row.typ) || row.typ == RPC_SIZE then 4
    else if IsWord64(row.typ) then 8
    else if row.typ == RPC_STRING then TextSize(slot.chars)
    else if row.typ == RPC_BYTES then 4 + mem[row.extra.slot].bits64
    else if row.typ == RPC_STAT then STAT_SIZE
    else if row.typ == RPC_STATVFS then VFS_SIZE
    else 4 + NamesSize(slot.names)
  }

  lemma RecordHasSize(row: Row, mem: seq<Slot>)
    requires Known(row.typ) && Loadable(row, mem) && ClassOf(row.typ).FixedClass?
    ensures |Encode(Load(row, mem))| == RowSize(row, mem)
  {
    hide BigEndian, Sum, EncodeWords;
    RecordSizes();
    LoadedShape(row, mem);
    WordsSize(Load(row, mem).words);
  }

  lemma RowHasSize(row: Row, mem: seq<Slot>)
    requires Known(row.typ) && Loadable(row, mem)
    ensures |Encode(Load(row, mem))| == RowSize(row, mem)
  {
    if ClassOf(row.typ).FixedClass? {
      RecordHasSize(row, mem);
    } else {
      hide BigEndian, EncodeWords, EncodeTexts, NamesSize;
      if row.typ == RPC_STRINGLIST {
        TextsSize(mem[row.value].names);
      }
    }
  }

  // ---------------------------------------------------------------- a table

  ghost function SizeAt(ms: seq<Row>, mem: seq<Slot>, k: nat): nat
    requires AllKnown(ms) && AllLoadable(ms, mem)
  {
    if k < |ms| then RowSize(ms[k], mem) else 0
  }

  /** No table has more than four rows of one direction. */
  lemma PayloadSize(ms: seq<Row>, mem: seq<Slot>)
    requires AllKnown(ms) && AllLoadable(ms, mem) && |ms| <= 4
    ensures |SerializeRows(ms, mem).payload|
         == SizeAt(ms, mem, 0) + SizeAt(ms, mem, 1) + SizeAt(ms, mem, 2) + SizeAt(ms, mem, 3)
  {
    hide Encode, Load, RowSize, Loadable, Known;
    PayloadSizeFrom(ms, mem, |ms|);
    assert ms[|ms|..] == [];
    if |ms| > 3 { PayloadSizeFrom(ms, mem, 3); }
    if |ms| > 2 { PayloadSizeFrom(ms, mem, 2); }
    if |ms| > 1 { PayloadSizeFrom(ms, mem, 1); }
    if |ms| > 0 { PayloadSizeFrom(ms, mem, 0); }
    assert ms[0..] == ms;
  }

  /** The payload of the rows from `k` on. */
  ghost function PayloadFrom(ms: seq<Row>, mem: seq<Slot>, k: nat): nat
    requires AllLoadable(ms, mem) && k <= |ms|
  {
    assert forall i :: 0 <= i < |ms[k..]| ==> ms[k..][i] == ms[k + i];
    |SerializeRows(ms[k..], mem).payload|
  }

  lemma PayloadSizeFrom(ms: seq<Row>, mem: seq<Slot>, k: nat)
    requires AllKnown(ms) && AllLoadable(ms, mem) && k <= |ms|
    ensures k == |ms| ==> PayloadFrom(ms, mem, k) == 0
    ensures k < |ms| ==> PayloadFrom(ms, mem, k) == SizeAt(ms, mem, k) + PayloadFrom(ms, mem, k + 1)
  {
    hide Encode, Load, RowSize, Loadable, Known;
    if k < |ms| {
      RowHasSize(ms[k], mem);
      assert ms[k..][0] == ms[k] && ms[k..][1..] == ms[k + 1..];
    }
  }

  // ---------------------------------------------------------------- messages

  ghost predicate Measurable(ms: seq<Row>, mem: seq<Slot>) {
    |ms| <= 4 && AllKnown(ms) && AllLoadable(ms, mem)
  }

  ghost function RowsSize(ms: seq<Row>, mem: seq<Slot>): nat
    requires Measurable(ms, mem)
  {
    SizeAt(ms, mem, 0) + SizeAt(ms, mem, 1) + SizeAt(ms, mem, 2) + SizeAt(ms, mem, 3)
  }

  lemma RequestMeasurable(call: Call, out: Slot)
    requires CallOk(call)
    ensures CallSizesOk(call) && Measurable(ProxyIn(MethodOf(call)), ProxyMem(call, out))
  {
    RequestLoads(call, out);
    hide ProxyMem, AllLoadable, AllKnown, CallOk;
  }

  lemma RequestRowsA(call: Call, out: Slot)
    requires CallOk(call) && MethodOf(call) <= 7
    ensures CallSizesOk(call) && Measurable(ProxyIn(MethodOf(call)), ProxyMem(call, out))
    ensures RowsSize(ProxyIn(MethodOf(call)), ProxyMem(call, out)) == RequestSize(call) - HEADER_SIZE
  {
    hide TextOk, AllLoadable, AllKnown;
    RequestMeasurable(call, out);
  }

  lemma RequestRowsB(call: Call, out: Slot)
    requires CallOk(call) && 8 <= MethodOf(call) <= 15
    ensures CallSizesOk(call) && Measurable(ProxyIn(MethodOf(call)), ProxyMem(call, out))
    ensures RowsSize(ProxyIn(MethodOf(call)), ProxyMem(call, out)) == RequestSize(call) - HEADER_SIZE
  {
    hide TextOk, AllLoadable, AllKnown;
    RequestMeasurable(call, out);
  }

  lemma RequestRowsC(call: Call, out: Slot)
    requires CallOk(call) && 16 <= MethodOf(call) <= 17
    ensures CallSizesOk(call) && Measurable(ProxyIn(MethodOf(call)), ProxyMem(call, out))
    ensures RowsSize(ProxyIn(MethodOf(call)), ProxyMem(call, out)) == RequestSize(call) - HEADER_SIZE
  {
    hide TextOk, AllLoadable, AllKnown;
    RequestMeasurable(call, out);
  }

  lemma RequestRowsD(call: Call, out: Slot)
    requires CallOk(call) && MethodOf(call) == 18
    ensures CallSizesOk(call) && Measurable(ProxyIn(MethodOf(call)), ProxyMem(call, out))
    ensures RowsSize(ProxyIn(MethodOf(call)), ProxyMem(call, out)) == RequestSize(call) - HEADER_SIZE
  {
    hide TextOk, AllLoadable, AllKnown;
    RequestMeasurable(call, out);
  }

  lemma RequestRowsE(call: Call, out: Slot)
    requires CallOk(call) && 19 <= MethodOf(call) <= 20
    ensures CallSizesOk(call) && Measurable(ProxyIn(MethodOf(call)), ProxyMem(call, out))
    ensures RowsSize(ProxyIn(MethodOf(call)), ProxyMem(call, out)) == RequestSize(call) - HEADER_SIZE
  {
    hide TextOk, AllLoadable, AllKnown;
    RequestMeasurable(call, out);
  }

  lemma RequestRowsF(call: Call, out: Slot)
    requires CallOk(call) && 21 <= MethodOf(call) <= 22
    ensures CallSizesOk(call) && Measurable(ProxyIn(MethodOf(call)), ProxyMem(call, out))
    ensures RowsSize(ProxyIn(MethodOf(call)), ProxyMem(call, out)) == RequestSize(call) - HEADER_SIZE
  {
    hide TextOk, AllLoadable, AllKnown;
    RequestMeasurable(call, out);
  }

  lemma RequestRowsG(call: Call, out: Slot)
    requires CallOk(call) && MethodOf(call) == 23
    ensures CallSizesOk(call) && Measurable(ProxyIn(MethodOf(call)), ProxyMem(call, out))
    ensures RowsSize(ProxyIn(MethodOf(call)), ProxyMem(call, out)) == RequestSize(call) - HEADER_SIZE
  {
    hide TextOk, AllLoadable, AllKnown;
    RequestMeasurable(call, out);
  }

  /** The length of every method's request. */
  lemma RequestHasSize(call: Call, out: Slot)
    requires CallOk(call)
    ensures |Request(call, out)| == RequestSize(call)
  {
    RequestLoads(call, out);
    RequestMeasurable(call, out);
    match MethodOf(call) {
      case 16 | 17 => RequestRowsC(call, out);
      case 18 => RequestRowsD(call, out);
      case 19 | 20 => RequestRowsE(call, out);
      case 21 | 22 => RequestRowsF(call, out);
      case 23 => RequestRowsG(call, out);
      case id => if id <= 7 { RequestRowsA(call, out); } else { RequestRowsB(call, out); }
    }
    hide RequestSize, SerializeRows, CallOk, ProxyIn, ProxyMem, SizeAt, AllLoadable, AllKnown, MethodOf;
    PayloadSize(ProxyIn(MethodOf(call)), ProxyMem(call, out));
  }

  lemma ReplyMeasurable(call: Call, answer: Answer, junk: Junk)
    requires AnswerOk(call, answer)
    ensures Measurable(StubOut(MethodOf(call)), ReplyMem(call, answer, junk))
  {
    ReplyLoads(call, answer, junk);
    hide ReplyMem, AllLoadable, AllKnown, AnswerOk;
  }

  lemma ReplyRowsEarly(call: Call, answer: Answer, junk: Junk)
    requires AnswerOk(call, answer) && MethodOf(call) <= 15
    ensures Measurable(StubOut(MethodOf(call)), ReplyMem(call, answer, junk))
    ensures RowsSize(StubOut(MethodOf(call)), ReplyMem(call, answer, junk))
         == ReplySize(call, answer, junk) - HEADER_SIZE
  {
    ReplyMeasurable(call, answer, junk);
    hide Measurable, Loadable, Known, TextOk, TextsOk;
  }

  lemma ReplyRowsLate(call: Call, answer: Answer, junk: Junk)
    requires AnswerOk(call, answer) && 16 <= MethodOf(call)
    ensures Measurable(StubOut(MethodOf(call)), ReplyMem(call, answer, junk))
    ensures RowsSize(StubOut(MethodOf(call)), ReplyMem(call, answer, junk))
         == ReplySize(call, answer, junk) - HEADER_SIZE
  {
    ReplyMeasurable(call, answer, junk);
    hide Measurable, Loadable, Known, TextOk, TextsOk;
  }

  /** The length of every method's reply. */
  lemma ReplyHasSize(call: Call, answer: Answer, junk: Junk)
    requires AnswerOk(call, answer)
    ensures |Reply(call, answer, junk)| == ReplySize(call, answer, junk)
  {
    ReplyLoads(call, answer, junk);
    ReplyMeasurable(call, answer, junk);
    if MethodOf(call) <= 15 {
      ReplyRowsEarly(call, answer, junk);
    } else {
      ReplyRowsLate(call, answer, junk);
    }
    hide ReplySize, SerializeRows, AnswerOk, StubOut, ReplyMem, SizeAt, AllLoadable, AllKnown, MethodOf;
    PayloadSize(StubOut(MethodOf(call)), ReplyMem(call, answer, junk));
  }
}
