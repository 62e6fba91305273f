/**
 Framing over a pipe that moves any number of bytes per call (rpc/connection.c).

 A channel is a FIFO of bytes and a script of what its next read or write calls do.
 A script is finite: once it is used up, calls move all they can. Retries stand for
 EAGAIN, EWOULDBLOCK and EINTR; a read of an empty channel reports end of file.
 */
module Framing {
  import opened Words
  import opened Buffers
  import opened Wire

  const SIZE_SIZE: nat := 4
  const MAX_BUFFER_SIZE: nat := 16 * 1024 * 1024

  /** What one system call does: moves up to `n` bytes, is to be retried, or fails. */
  datatype Outcome = Moves(n: nat) | Retry | Broken

  function Min(a: nat, b: nat): nat { if a < b then a else b }

  // ---------------------------------------------------------------- specifications

  datatype Sent = Sent(status: int, bytes: seq<byte>, script: seq<Outcome>)

  /** Everything the write loop sends. */
  function WriteAll(data: seq<byte>, script: seq<Outcome>): Sent
    decreases script
  {
    if data == [] then Sent(RPC_GOOD, [], script)
    else if script == [] then Sent(RPC_GOOD, data, [])
    else
      match script[0]
      case Moves(n) =>
        var k := Min(n, |data|);
        var rest := WriteAll(data[k..], script[1..]);
        Sent(rest.status, data[..k] + rest.bytes, rest.script)
      case Retry => WriteAll(data, script[1..])
      case Broken => Sent(RPC_BAD_CONNECTION_WRITE_ERROR, [], script[1..])
  }

  datatype Got = Got(status: int, taken: nat, script: seq<Outcome>)

  /** How far the read loop gets through the stream. */
  function ReadAll(stream: seq<byte>, need: nat, script: seq<Outcome>): (g: Got)
    ensures g.taken <= |stream| && g.taken <= need
    decreases script
  {
    if need == 0 then Got(RPC_GOOD, 0, script)
    else if script == [] then
      if |stream| >= need then Got(RPC_GOOD, need, []) else Got(RPC_BAD_CONNECTION_CLOSED, |stream|, [])
    else
      match script[0]
      case Moves(n) =>
        if stream == [] then Got(RPC_BAD_CONNECTION_CLOSED, 0, script[1..])
        else
          var k := Min(Min(if n == 0 then 1 else n, need), |stream|);
          var rest := ReadAll(stream[k..], need - k, script[1..]);
          Got(rest.status, k + rest.taken, rest.script)
      case Retry => ReadAll(stream, need, script[1..])
      case Broken => Got(RPC_BAD_CONNECTION_READ_ERROR, 0, script[1..])
  }

  datatype Received = Received(status: int, frame: seq<byte>, taken: nat, script: seq<Outcome>)

  const SIZE_T_RANGE: nat := 0x1_0000_0000_0000_0000

  /** The size_t the reader computes for what follows a declared size: for a size that
      does not cover its own four bytes, the subtraction wraps around. */
  function BodySize(count: nat): nat {
    if count >= SIZE_SIZE then count - SIZE_SIZE else SIZE_T_RANGE + count - SIZE_SIZE
  }

  /** A declared size below four makes the reader ask for more than ever fits; the stream
      then must not hold more than there is room for. */
  ghost predicate NoOverrun(stream: seq<byte>, room: nat) {
    |stream| >= SIZE_SIZE && FromBigEndian(stream[..SIZE_SIZE]) < SIZE_SIZE ==> |stream| <= room
  }

  /** What reading one message takes from the stream. */
  function Receive(stream: seq<byte>, script: seq<Outcome>): (r: Received)
    ensures r.taken <= |stream|
  {
    var h := ReadAll(stream, SIZE_SIZE, script);
    ReadAllLaws(stream, SIZE_SIZE, script);
    if h.status != RPC_GOOD then Received(h.status, [], h.taken, h.script)
    else
      var count := FromBigEndian(stream[..SIZE_SIZE]);
      if count >= MAX_BUFFER_SIZE then Received(RPC_BAD_MAX_MESSAGE_SIZE_EXCEEDED, [], SIZE_SIZE, h.script)
      else
        var b := ReadAll(stream[SIZE_SIZE..], BodySize(count), h.script);
        ReadAllLaws(stream[SIZE_SIZE..], BodySize(count), h.script);
        Received(b.status, if b.status == RPC_GOOD then stream[..count] else [], SIZE_SIZE + b.taken, b.script)
  }

  // ---------------------------------------------------------------- laws of the loops

  ghost predicate NeverBroken(script: seq<Outcome>) {
    Broken !in script
  }

  /** The write loop sends a prefix; it reports success exactly when it sent it all,
      and only a failing call can stop it. */
  lemma {:induction false} WriteAllLaws(data: seq<byte>, script: seq<Outcome>)
    ensures WriteAll(data, script).bytes <= data
    ensures WriteAll(data, script).status == RPC_GOOD <==> WriteAll(data, script).bytes == data
    ensures WriteAll(data, script).status in {RPC_GOOD, RPC_BAD_CONNECTION_WRITE_ERROR}
    ensures NeverBroken(script) ==> WriteAll(data, script).status == RPC_GOOD
    ensures NeverBroken(script) ==> NeverBroken(WriteAll(data, script).script)
    ensures data != [] && script != [] && script[0].Broken? ==>
              WriteAll(data, script).status == -4 && WriteAll(data, script).bytes == []
    decreases |script|
  {
    if data == [] || script == [] {
    } else {
      assert NeverBroken(script) ==> NeverBroken(script[1..]) && script[0] in script;
      match script[0]
      case Moves(n) =>
        var k := Min(n, |data|);
        WriteAllLaws(data[k..], script[1..]);
        assert data == data[..k] + data[k..];
      case Retry =>
        WriteAllLaws(data, script[1..]);
      case Broken =>
    }
  }

  /** The read loop succeeds exactly when it took all it needs; it reports end of
      file only after taking everything there was, which was too little. */
  lemma {:induction false} ReadAllLaws(stream: seq<byte>, need: nat, script: seq<Outcome>)
    ensures ReadAll(stream, need, script).status == RPC_GOOD <==> ReadAll(stream, need, script).taken == need
    ensures ReadAll(stream, need, script).status
            in {RPC_GOOD, RPC_BAD_CONNECTION_CLOSED, RPC_BAD_CONNECTION_READ_ERROR}
    ensures ReadAll(stream, need, script).status == RPC_BAD_CONNECTION_CLOSED ==>
              ReadAll(stream, need, script).taken == |stream| < need
    ensures NeverBroken(script) ==>
              (ReadAll(stream, need, script).status == RPC_GOOD <==> need <= |stream|)
    ensures NeverBroken(script) ==> NeverBroken(ReadAll(stream, need, script).script)
    ensures NeverBroken(script) && |stream| < need ==>
              ReadAll(stream, need, script).status == -5 && ReadAll(stream, need, script).taken == |stream|
    ensures need > 0 && script != [] && script[0].Broken? ==>
              ReadAll(stream, need, script).status == -3 && ReadAll(stream, need, script).taken == 0
    decreases |script|
  {
    if need == 0 || script == [] {
    } else {
      assert NeverBroken(script) ==> NeverBroken(script[1..]) && script[0] in script;
      match script[0]
      case Moves(n) =>
        if stream != [] {
          var k := Min(Min(if n == 0 then 1 else n, need), |stream|);
          ReadAllLaws(stream[k..], need - k, script[1..]);
        }
      case Retry =>
        ReadAllLaws(stream, need, script[1..]);
      case Broken =>
    }
  }

  // ---------------------------------------------------------------- laws of frames

  /** A message whose header holds its length. */
  ghost predicate CountsItself(f: seq<byte>) {
    SIZE_SIZE <= |f| < TWO_TO_32 && f[..SIZE_SIZE] == BigEndian(4, |f|)
  }

  /** A message that counts itself and that the reader accepts. */
  ghost predicate WellFramed(f: seq<byte>) {
    4 <= |f| < 0x100_0000 && f[..4] == BigEndian(4, |f|)
  }

  /** Whatever the script does, a message at the head of the stream is delivered
      whole and alone, or an error is reported. */
  lemma FrameArrives(f: seq<byte>, rest: seq<byte>, script: seq<Outcome>)
    requires WellFramed(f)
    ensures Receive(f + rest, script).status == RPC_GOOD ==>
              Receive(f + rest, script).frame == f && Receive(f + rest, script).taken == |f|
    ensures Receive(f + rest, script).status in {RPC_GOOD, RPC_BAD_CONNECTION_READ_ERROR}
    ensures NeverBroken(script) ==>
              Receive(f + rest, script).status == RPC_GOOD && NeverBroken(Receive(f + rest, script).script)
  {
    var stream := f + rest;
    assert stream[..SIZE_SIZE] == BigEndian(4, |f|);
    U32RoundTrip(|f|);
    assert stream[..|f|] == f;
    var h := ReadAll(stream, SIZE_SIZE, script);
    ReadAllLaws(stream, SIZE_SIZE, script);
    if h.status == RPC_GOOD {
      ReadAllLaws(stream[SIZE_SIZE..], |f| - SIZE_SIZE, h.script);
    }
  }

  /** The reader's bound is exact: a message that counts itself is accepted over an
      unbroken channel if and only if it is smaller than 16 MiB. */
  lemma SizeLimitIsExact(f: seq<byte>, rest: seq<byte>, script: seq<Outcome>)
    requires CountsItself(f) && NeverBroken(script)
    ensures Receive(f + rest, script).status == RPC_GOOD <==> |f| < 0x100_0000
    ensures |f| >= 0x100_0000 ==>
              Receive(f + rest, script).status == RPC_BAD_MAX_MESSAGE_SIZE_EXCEEDED
              && Receive(f + rest, script).taken == SIZE_SIZE
  {
    var stream := f + rest;
    assert stream[..SIZE_SIZE] == BigEndian(4, |f|);
    U32RoundTrip(|f|);
    if |f| < MAX_BUFFER_SIZE {
      FrameArrives(f, rest, script);
    } else {
      ReadAllLaws(stream, SIZE_SIZE, script);
    }
  }

  function Concat(frames: seq<seq<byte>>): seq<byte> {
    if frames == [] then [] else frames[0] + Concat(frames[1..])
  }

  /** Writing messages one after the other, stopping at the first failure. */
  function WriteFrames(frames: seq<seq<byte>>, script: seq<Outcome>): Sent
    decreases frames
  {
    if frames == [] then Sent(RPC_GOOD, [], script)
    else
      var first := WriteAll(frames[0], script);
      if first.status != RPC_GOOD then first
      else
        var rest := WriteFrames(frames[1..], first.script);
        Sent(rest.status, first.bytes + rest.bytes, rest.script)
  }

  datatype Inbox = Inbox(status: int, frames: seq<seq<byte>>, rest: seq<byte>)

  /** Reading `count` messages, stopping at the first failure. */
  function ReadFrames(count: nat, stream: seq<byte>, script: seq<Outcome>): Inbox
    decreases count
  {
    if count == 0 then Inbox(RPC_GOOD, [], stream)
    else
      var first := Receive(stream, script);
      if first.status != RPC_GOOD then Inbox(first.status, [], stream[first.taken..])
      else
        var rest := ReadFrames(count - 1, stream[first.taken..], first.script);
        Inbox(rest.status, [first.frame] + rest.frames, rest.rest)
  }

  lemma {:induction false} FramesAreWritten(frames: seq<seq<byte>>, sending: seq<Outcome>)
    ensures WriteFrames(frames, sending).bytes <= Concat(frames)
    ensures WriteFrames(frames, sending).status == RPC_GOOD ==> WriteFrames(frames, sending).bytes == Concat(frames)
    ensures NeverBroken(sending) ==> WriteFrames(frames, sending).status == RPC_GOOD
    decreases |frames|
  {
    hide WriteAll, NeverBroken;
    if frames != [] {
      WriteAllLaws(frames[0], sending);
      FramesAreWritten(frames[1..], WriteAll(frames[0], sending).script);
    }
  }

  lemma {:induction false} FramesAreRead(frames: seq<seq<byte>>, tail: seq<byte>, receiving: seq<Outcome>)
    requires forall k :: 0 <= k < |frames| ==> WellFramed(frames[k])
    ensures var inbox := ReadFrames(|frames|, Concat(frames) + tail, receiving);
            && inbox.frames <= frames
            && (inbox.status == RPC_GOOD ==> inbox.frames == frames && inbox.rest == tail)
            && (NeverBroken(receiving) ==> inbox.status == RPC_GOOD)
    decreases |frames|
  {
    hide Receive, NeverBroken, WellFramed;
    if frames == [] {
      assert Concat(frames) + tail == tail;
    } else {
      var f, later := frames[0], frames[1..];
      assert WellFramed(f);
      assert forall k :: 0 <= k < |later| ==> later[k] == frames[k + 1];
      assert Concat(frames) + tail == f + (Concat(later) + tail);
      FrameArrives(f, Concat(later) + tail, receiving);
      var first := Receive(Concat(frames) + tail, receiving);
      FramesAreRead(later, tail, first.script);
      assert (f + (Concat(later) + tail))[|f|..] == Concat(later) + tail;
    }
  }

  /** Framing does not depend on chunking. Messages written under one script and read
      under another arrive byte for byte, in order, and the stream ends at a frame
      boundary; with no failing call in either script, everything succeeds. */
  lemma FramesSurviveChunking(frames: seq<seq<byte>>, tail: seq<byte>, sending: seq<Outcome>, receiving: seq<Outcome>)
    requires forall k :: 0 <= k < |frames| ==> WellFramed(frames[k])
    ensures WriteFrames(frames, sending).bytes <= Concat(frames)
    ensures NeverBroken(sending) ==> WriteFrames(frames, sending).status == RPC_GOOD
    ensures WriteFrames(frames, sending).status == RPC_GOOD ==>
              var inbox := ReadFrames(|frames|, WriteFrames(frames, sending).bytes + tail, receiving);
              && inbox.frames <= frames
              && (inbox.status == RPC_GOOD ==> inbox.frames == frames && inbox.rest == tail)
              && (NeverBroken(receiving) ==> inbox.status == RPC_GOOD)
  {
    FramesAreWritten(frames, sending);
    FramesAreRead(frames, tail, receiving);
  }

  // ---------------------------------------------------------------- one system call

  function Tail(script: seq<Outcome>): (t: seq<Outcome>)
    ensures |t| <= |script|
  {
    if script == [] then [] else script[1..]
  }

  /** A system call's return value, and whether errno asks for a retry. */
  datatype Result = Result(length: int, again: bool)

  /** The return value of one write(2) of `count` bytes. */
  function OneWrite(count: nat, script: seq<Outcome>): (r: Result)
    ensures -1 <= r.length <= count
  {
    if script == [] then Result(count, false)
    else
      match script[0]
      case Moves(n) => Result(Min(n, count), false)
      case Retry => Result(-1, true)
      case Broken => Result(-1, false)
  }

  /** The return value of one read(2) of up to `count` bytes. */
  function OneRead(available: nat, count: nat, script: seq<Outcome>): (r: Result)
    ensures -1 <= r.length <= count && r.length <= available
  {
    if script == [] then Result(Min(count, available), false)
    else
      match script[0]
      case Moves(n) => Result(Min(Min(if n == 0 then 1 else n, count), available), false)
      case Retry => Result(-1, true)
      case Broken => Result(-1, false)
  }

  lemma WriteStep(data: seq<byte>, script: seq<Outcome>)
    requires data != []
    ensures var Result(length, again) := OneWrite(|data|, script);
            if length >= 0 then
              var rest := WriteAll(data[length..], Tail(script));
              WriteAll(data, script) == Sent(rest.status, data[..length] + rest.bytes, rest.script)
            else if again then
              WriteAll(data, script) == WriteAll(data, Tail(script))
            else
              WriteAll(data, script) == Sent(RPC_BAD_CONNECTION_WRITE_ERROR, [], Tail(script))
    ensures |Tail(script)| < |script| || OneWrite(|data|, script).length > 0
  {
    if script == [] {
      assert data[|data|..] == [] && data[..|data|] + [] == data;
    }
  }

  lemma ReadStep(stream: seq<byte>, need: nat, script: seq<Outcome>)
    requires need > 0
    ensures var Result(length, again) := OneRead(|stream|, need, script);
            if length > 0 then
              var rest := ReadAll(stream[length..], need - length, Tail(script));
              ReadAll(stream, need, script) == Got(rest.status, length + rest.taken, rest.script)
            else if length == 0 then
              ReadAll(stream, need, script) == Got(RPC_BAD_CONNECTION_CLOSED, 0, Tail(script))
            else if again then
              ReadAll(stream, need, script) == ReadAll(stream, need, Tail(script))
            else
              ReadAll(stream, need, script) == Got(RPC_BAD_CONNECTION_READ_ERROR, 0, Tail(script))
    ensures |Tail(script)| < |script| || OneRead(|stream|, need, script).length >= 0
  {
  }

  // ---------------------------------------------------------------- the code

  /** The first `count` bytes of the stream, put into `data` at `at`. */
  function Filled(data: seq<byte>, at: nat, stream: seq<byte>, count: nat): (d: seq<byte>)
    requires at + count <= |data| && count <= |stream|
    ensures |d| == |data|
  {
    data[..at] + stream[..count] + data[at + count..]
  }

  /** A file descriptor and the system calls on it. */
  class Channel {
    var stream: seq<byte>
    var script: seq<Outcome>

    constructor (stream: seq<byte>, script: seq<Outcome>)
      ensures this.stream == stream && this.script == script
    {
      this.stream := stream;
      this.script := script;
    }

    /** write(2): the number of bytes taken, or -1 and whether to try again. */
    method SysWrite(bytes: seq<byte>) returns (length: int, again: bool)
      modifies this
      ensures Result(length, again) == OneWrite(|bytes|, old(script))
      ensures script == Tail(old(script))
      ensures stream == old(stream) + if length >= 0 then bytes[..length] else []
    {
      again := false;
      if script == [] {
        length := |bytes|;
      } else {
        match script[0] {
          case Moves(n) => length := Min(n, |bytes|);
          case Retry => length, again := -1, true;
          case Broken => length := -1;
        }
        script := script[1..];
      }
      if length >= 0 {
        stream := stream + bytes[..length];
      }
    }

    /** read(2) into `data` at `offset`: the number of bytes, 0 at end of file, or -1. What
        can arrive has room. */
    method SysRead(data: array<byte>, offset: nat, count: nat) returns (length: int, again: bool)
      requires offset + Min(count, |stream|) <= data.Length
      modifies this, data
      ensures Result(length, again) == OneRead(|old(stream)|, count, old(script))
      ensures script == Tail(old(script))
      ensures length <= 0 ==> stream == old(stream) && data[..] == old(data[..])
      ensures length > 0 ==> stream == old(stream)[length..]
      ensures length > 0 ==> data[..] == Filled(old(data[..]), offset, old(stream), length)
    {
      again := false;
      if script == [] {
        length := Min(count, |stream|);
      } else {
        match script[0] {
          case Moves(n) => length := Min(Min(if n == 0 then 1 else n, count), |stream|);
          case Retry => length, again := -1, true;
          case Broken => length := -1;
        }
        script := script[1..];
      }
      if length > 0 {
        forall i | 0 <= i < length {
          data[offset + i] := stream[i];
        }
        stream := stream[length..];
      }
    }
  }

  lemma FilledMore(data: seq<byte>, at: nat, stream: seq<byte>, offset: nat, length: nat)
    requires offset + length <= |stream| && at + offset + length <= |data|
    ensures Filled(Filled(data, at, stream, offset), at + offset, stream[offset..], length)
         == Filled(data, at, stream, offset + length)
  {
    assert Filled(data, at, stream, offset)[..at + offset] == data[..at] + stream[..offset];
    assert stream[..offset] + stream[offset..][..length] == stream[..offset + length];
  }

  /** The read loop has taken `offset` bytes into place and has `remaining` to go. */
  ghost predicate ReadSoFar(all: Got, stream0: seq<byte>, data0: seq<byte>, at: nat, size: nat, offset: nat,
                            remaining: nat, stream: seq<byte>, data: seq<byte>, script: seq<Outcome>)
  {
    && remaining + offset == size && offset <= |stream0| && at + Min(size, |stream0|) <= |data0|
    && stream == stream0[offset..] && data == Filled(data0, at, stream0, offset)
    && var rest := ReadAll(stream, remaining, script);
       all == Got(rest.status, offset + rest.taken, rest.script)
  }

  lemma StartsRead(stream0: seq<byte>, data0: seq<byte>, at: nat, size: nat, script: seq<Outcome>)
    requires at + Min(size, |stream0|) <= |data0|
    ensures ReadSoFar(ReadAll(stream0, size, script), stream0, data0, at, size, 0, size, stream0, data0, script)
  {
    assert data0 == Filled(data0, at, stream0, 0);
  }

  /** What one read call did to the loop. */
  lemma ReadMore(all: Got, stream0: seq<byte>, data0: seq<byte>, at: nat, size: nat, offset: nat, remaining: nat,
                 stream: seq<byte>, data: seq<byte>, script: seq<Outcome>)
    requires ReadSoFar(all, stream0, data0, at, size, offset, remaining, stream, data, script) && remaining > 0
    requires |data| == |data0|
    ensures at + offset + Min(remaining, |stream|) <= |data|
    ensures var Result(length, again) := OneRead(|stream|, remaining, script);
            && (length > 0 ==>
                  ReadSoFar(all, stream0, data0, at, size, offset + length, remaining - length, stream[length..],
                            Filled(data, at + offset, stream, length), Tail(script)))
            && (length == 0 ==> all == Got(RPC_BAD_CONNECTION_CLOSED, offset, Tail(script)))
            && (length < 0 && again ==>
                  ReadSoFar(all, stream0, data0, at, size, offset, remaining, stream, data, Tail(script)))
            && (length < 0 && !again ==> all == Got(RPC_BAD_CONNECTION_READ_ERROR, offset, Tail(script)))
  {
    ReadStep(stream, remaining, script);
    var length := OneRead(|stream|, remaining, script).length;
    hide Filled, ReadAll, OneRead, Tail, Min;
    if length > 0 {
      assert stream0[offset..][length..] == stream0[offset + length..];
      FilledMore(data0, at, stream0, offset, length);
    }
  }

  lemma EndsRead(all: Got, stream0: seq<byte>, data0: seq<byte>, at: nat, size: nat, stream: seq<byte>,
                 data: seq<byte>, script: seq<Outcome>)
    requires ReadSoFar(all, stream0, data0, at, size, size, 0, stream, data, script)
    ensures all == Got(RPC_GOOD, size, script) && stream == stream0[size..] && data == Filled(data0, at, stream0, size)
  {
  }

  /** Reads exactly `size` bytes into place, or says why not. */
  method ReadExact(channel: Channel, data: array<byte>, at: nat, size: nat) returns (status: int)
    requires at + Min(size, |channel.stream|) <= data.Length
    modifies channel, data
    ensures var g := ReadAll(old(channel.stream), size, old(channel.script));
            && status == g.status
            && channel.script == g.script
            && channel.stream == old(channel.stream)[g.taken..]
            && data[..] == Filled(old(data[..]), at, old(channel.stream), g.taken)
  {
    hide Filled, ReadAll, OneRead, Tail, Min;
    ghost var stream0, data0 := channel.stream, data[..];
    ghost var all := ReadAll(channel.stream, size, channel.script);
    StartsRead(stream0, data0, at, size, channel.script);
    status := RPC_GOOD;
    var remaining, offset := size, 0;
    while remaining > 0
      invariant 0 <= remaining && 0 <= offset && remaining + offset == size
      invariant status == RPC_GOOD
      invariant ReadSoFar(all, stream0, data0, at, size, offset, remaining, channel.stream, data[..], channel.script)
      decreases |channel.script|, remaining
    {
      ReadMore(all, stream0, data0, at, size, offset, remaining, channel.stream, data[..], channel.script);
      ReadStep(channel.stream, remaining, channel.script);
      var length, again := channel.SysRead(data, at + offset, remaining);
      if 0 < length {
        remaining := remaining - length;
        offset := offset + length;
      } else if 0 == length {
        status := RPC_BAD_CONNECTION_CLOSED;
        break;
      } else if !again {
        status := RPC_BAD_CONNECTION_READ_ERROR;
        break;
      }
    }
    if status == RPC_GOOD {
      EndsRead(all, stream0, data0, at, size, channel.stream, data[..], channel.script);
    }
  }

  class Connection {
    const input: Channel
    const output: Channel
    // Whether an error callback is installed, and how often it was called.
    var observed: bool
    var errors: nat

    constructor (input: Channel, output: Channel)
      ensures this.input == input && this.output == output
      ensures !observed && errors == 0
    {
      this.input := input;
      this.output := output;
      observed, errors := false, 0;
    }

    method SetOnError()
      modifies this
      ensures observed && errors == old(errors)
    {
      observed := true;
    }

    method Report(status: int)
      modifies this`errors
      ensures errors == old(errors) + if status != RPC_GOOD && observed then 1 else 0
    {
      if status != RPC_GOOD && observed {
        errors := errors + 1;
      }
    }

    /** Sends the buffer's message. */
    method Write(buffer: Buffer) returns (status: int)
      requires buffer.Valid()
      modifies this`errors, output
      ensures buffer.Contents() == old(buffer.Contents())
      ensures var sent := WriteAll(old(buffer.Contents()), old(output.script));
              && status == sent.status
              && output.stream == old(output.stream) + sent.bytes
              && output.script == sent.script
      ensures errors == old(errors) + if status != RPC_GOOD && observed then 1 else 0
    {
      hide WriteAll, OneWrite, Tail;
      status := RPC_GOOD;
      var remaining, offset := buffer.size, 0;
      ghost var data, stream0, script0 := buffer.Contents(), output.stream, output.script;
      ghost var bytes: seq<byte> := [];
      assert data[0..] == data;
      assert stream0 + bytes == stream0;
      Prepended(bytes, WriteAll(data, script0).bytes);
      while remaining > 0
        invariant 0 <= remaining && 0 <= offset && remaining + offset == buffer.size == |data|
        invariant status == RPC_GOOD && errors == old(errors)
        invariant buffer.Valid() && buffer.Contents() == data
        invariant output.stream == stream0 + bytes
        invariant var rest := WriteAll(data[offset..], output.script);
                  WriteAll(data, script0) == Sent(rest.status, bytes + rest.bytes, rest.script)
        decreases |output.script|, remaining
      {
        var chunk := buffer.data[offset..buffer.size];
        assert chunk == data[offset..];
        WriteStep(chunk, output.script);
        var length, again := output.SysWrite(chunk);
        if length > 0 {
          assert data[offset..][length..] == data[offset + length..];
          assert stream0 + bytes + chunk[..length] == stream0 + (bytes + chunk[..length]);
          ghost var rest := WriteAll(data[offset + length..], output.script).bytes;
          assert bytes + (chunk[..length] + rest) == bytes + chunk[..length] + rest;
          bytes := bytes + chunk[..length];
          remaining := remaining - length;
          offset := offset + length;
        } else if -1 == length {
          if !again {
            status := RPC_BAD_CONNECTION_WRITE_ERROR;
            break;
          }
        } else {
          Prepended(chunk[..0], WriteAll(chunk, output.script).bytes);
          assert chunk[0..] == chunk;
        }
      }
      assert bytes + [] == bytes;
      assert data[|data|..] == [];
      NothingToWrite(output.script);
      Report(status);
    }

    /** Receives one message into the buffer; on failure the buffer is left empty. */
    method Read(buffer: Buffer) returns (status: int)
      requires buffer.Valid() && NoOverrun(input.stream, buffer.capacity)
      modifies this`errors, input, buffer, buffer.data
      ensures buffer.Valid() && (buffer.data == old(buffer.data) || fresh(buffer.data))
      ensures var r := Receive(old(input.stream), old(input.script));
              && status == r.status
              && buffer.Contents() == r.frame
              && input.stream == old(input.stream)[r.taken..]
              && input.script == r.script
      ensures status == RPC_GOOD ==>
                && |old(input.stream)| >= 4
                && var count := FromBigEndian(old(input.stream)[..4]);
                   && count < 0x100_0000 && count <= |old(input.stream)|
                   && buffer.Contents() == old(input.stream)[..count]
      ensures status == RPC_BAD_MAX_MESSAGE_SIZE_EXCEEDED ==>
                && |old(input.stream)| >= 4 && FromBigEndian(old(input.stream)[..4]) >= 0x100_0000
                && input.stream == old(input.stream)[4..] && buffer.Contents() == []
      ensures errors == old(errors) + if status != RPC_GOOD && observed then 1 else 0
    {
      hide ReadAll, FromBigEndian, Buffer.Contents, Grown, BytesMoved;
      ghost var stream0 := input.stream;
      ReadAllLaws(stream0, SIZE_SIZE, input.script);
      buffer.Reset();
      buffer.Reserve(SIZE_SIZE);
      status := ReadExact(input, buffer.data, 0, SIZE_SIZE);
      if status == RPC_GOOD {
        assert buffer.data[0..SIZE_SIZE] == stream0[..SIZE_SIZE];
        var count := LoadWord(buffer.data, 0, SIZE_SIZE, 8);
        if count < MAX_BUFFER_SIZE {
          status := ReadBody(buffer, count, stream0);
        } else {
          status := RPC_BAD_MAX_MESSAGE_SIZE_EXCEEDED;
        }
      }
      NothingHeld(buffer);
      Report(status);
    }

    /** Receives the rest of a message whose first four bytes are in place. */
    method ReadBody(buffer: Buffer, count: nat, ghost stream0: seq<byte>) returns (status: int)
      requires buffer.Valid() && buffer.size == 0 && SIZE_SIZE <= |stream0|
      requires count >= SIZE_SIZE || |stream0| <= buffer.capacity
      requires buffer.capacity >= SIZE_SIZE && buffer.data[..SIZE_SIZE] == stream0[..SIZE_SIZE]
      requires input.stream == stream0[SIZE_SIZE..]
      modifies input, buffer, buffer.data
      ensures buffer.Valid() && (buffer.data == old(buffer.data) || fresh(buffer.data))
      ensures var b := ReadAll(stream0[SIZE_SIZE..], BodySize(count), old(input.script));
              && status == b.status
              && (status == RPC_GOOD ==> count <= |stream0| && buffer.Contents() == stream0[..count])
              && (status != RPC_GOOD ==> buffer.Contents() == [])
              && input.stream == stream0[SIZE_SIZE + b.taken..]
              && input.script == b.script
      ensures status in {RPC_GOOD, RPC_BAD_CONNECTION_CLOSED, RPC_BAD_CONNECTION_READ_ERROR}
    {
      hide ReadAll;
      ReadAllLaws(stream0[SIZE_SIZE..], BodySize(count), input.script);
      buffer.Reserve(count);
      ghost var start := buffer.data[..];
      assert start[..SIZE_SIZE] == stream0[..SIZE_SIZE] by {
        assert buffer.data[..old(buffer.capacity)][..SIZE_SIZE] == stream0[..SIZE_SIZE];
      }
      status := ReadExact(input, buffer.data, SIZE_SIZE, BodySize(count));
      if status == RPC_GOOD {
        buffer.size := count;
        FilledFrame(start, stream0, count, BodySize(count));
      }
    }
  }

  lemma FilledFrame(start: seq<byte>, stream: seq<byte>, count: nat, taken: nat)
    requires SIZE_SIZE + taken <= |start| && SIZE_SIZE + taken <= |stream|
    requires count <= SIZE_SIZE + taken && start[..SIZE_SIZE] == stream[..SIZE_SIZE]
    ensures Filled(start, SIZE_SIZE, stream[SIZE_SIZE..], taken)[..count] == stream[..count]
  {
    var filled := Filled(start, SIZE_SIZE, stream[SIZE_SIZE..], taken);
    assert filled[..SIZE_SIZE + taken] == stream[..SIZE_SIZE + taken];
    assert filled[..count] == filled[..SIZE_SIZE + taken][..count];
    assert stream[..count] == stream[..SIZE_SIZE + taken][..count];
  }

  lemma NothingHeld(buffer: Buffer)
    requires buffer.Valid()
    ensures buffer.size == 0 ==> buffer.Contents() == []
  {
  }

  lemma Prepended(a: seq<byte>, b: seq<byte>)
    requires a == []
    ensures a + b == b
  {
  }

  lemma NothingToWrite(script: seq<Outcome>)
    ensures WriteAll([], script) == Sent(RPC_GOOD, [], script)
  {
  }
}
