/**
 How the imperative code and the state machine fit together: every system call of a loop
 is a step, loops are runs of steps, and so are a whole turn of the service loop and a
 whole invocation.
 */
module Refinement {
  import opened Words
  import opened Wire
  import opened WireLaws
  import opened Calls
  import opened Remote
  import opened Sizes
  import opened Transparency
  import opened Protocol
  import opened Concurrent
  import Framing
  import Service

  // ---------------------------------------------------------------- loops as runs

  lemma FirstStep<C, S>(x: Setup<C, S>, y: System<C, S>, step: Step<C>, more: seq<Step<C>>)
    requires Next(x, y, step).Some?
    ensures Execute(x, y, [step] + more) == Execute(x, Next(x, y, step).value, more)
  {
    assert ([step] + more)[1..] == more;
  }

  lemma OneStep<C, S>(x: Setup<C, S>, y: System<C, S>, step: Step<C>)
    requires Next(x, y, step).Some?
    ensures Execute(x, y, [step]) == Next(x, y, step)
  {
    assert [step][1..] == [];
  }

  /** The system when thread `t` has sent these bytes, or received its next `n`. */
  function AfterSending<C, S>(y: System<C, S>, t: Thread, bytes: seq<byte>): System<C, S>
    requires t < |y.threads| && y.threads[t].Sending?
  {
    y.(toProvider := y.toProvider + bytes,
       threads := y.threads[t := Sending(y.threads[t].call, y.threads[t].sent + |bytes|)])
  }

  function AfterReceiving<C, S>(y: System<C, S>, n: nat): System<C, S>
    requires n <= |y.toClient|
  {
    y.(buffer := y.buffer + y.toClient[..n], toClient := y.toClient[n..])
  }

  lemma SentTwice<C, S>(y: System<C, S>, t: Thread, a: seq<byte>, b: seq<byte>)
    requires t < |y.threads| && y.threads[t].Sending?
    ensures AfterSending(AfterSending(y, t, a), t, b) == AfterSending(y, t, a + b)
    ensures AfterSending(y, t, []) == y
  {
    assert y.toProvider + a + b == y.toProvider + (a + b);
    assert y.toProvider + [] == y.toProvider;
  }

  lemma ReceivedTwice<C, S>(y: System<C, S>, n: nat, m: nat)
    requires n + m <= |y.toClient|
    ensures AfterReceiving(AfterReceiving(y, n), m) == AfterReceiving(y, n + m)
    ensures AfterReceiving(y, 0) == y
  {
    assert y.toClient[..n] + y.toClient[n..][..m] == y.toClient[..n + m];
    assert y.buffer + y.toClient[..n] + y.toClient[n..][..m] == y.buffer + y.toClient[..n + m];
    assert y.buffer + [] == y.buffer;
  }

  lemma SendNext<C, S>(x: Setup<C, S>, y: System<C, S>, t: Thread, n: nat)
    requires t < |y.threads| && y.threads[t].Sending? && y.threads[t].sent + n <= |y.buffer|
    ensures Next(x, y, Send(t, n)) == Some(AfterSending(y, t, y.buffer[y.threads[t].sent..][..n]))
  {
    var sent := y.threads[t].sent;
    assert y.buffer[sent..sent + n] == y.buffer[sent..][..n];
  }

  /** A write loop is a run of send steps: under any unbroken script it puts the rest of
      the message into the pipe. */
  lemma {:induction false} WriteLoopIsSteps<C, S>(x: Setup<C, S>, y: System<C, S>, t: Thread,
                                                  script: seq<Framing.Outcome>)
    returns (steps: seq<Step<C>>)
    requires t < |y.threads| && y.threads[t].Sending? && y.threads[t].sent <= |y.buffer|
    requires Framing.NeverBroken(script)
    ensures forall k :: 0 <= k < |steps| ==> steps[k].Send? && steps[k].t == t
    ensures Framing.WriteAll(y.buffer[y.threads[t].sent..], script).bytes == y.buffer[y.threads[t].sent..]
    ensures Execute(x, y, steps) == Some(AfterSending(y, t, y.buffer[y.threads[t].sent..]))
    decreases |script|
  {
    var sent := y.threads[t].sent;
    var data := y.buffer[sent..];
    Framing.WriteAllLaws(data, script);
    hide Framing.WriteAll, Next, Execute;
    if data == [] || script == [] {
      SendNext(x, y, t, |data|);
      OneStep(x, y, Send(t, |data|));
      steps := [Send(t, |data|)];
      assert data[..|data|] == data;
    } else if script[0].Retry? {
      assert Framing.NeverBroken(script[1..]);
      steps := WriteLoopIsSteps(x, y, t, script[1..]);
    } else {
      assert script[0] in script && Framing.NeverBroken(script[1..]);
      var n := Framing.Min(script[0].n, |data|);
      var step, y' := Send(t, n), AfterSending(y, t, data[..n]);
      assert y.buffer[sent + n..] == data[n..];
      SendNext(x, y, t, n);
      var more := WriteLoopIsSteps(x, y', t, script[1..]);
      FirstStep(x, y, step, more);
      steps := [step] + more;
      SentTwice(y, t, data[..n], data[n..]);
      assert data[..n] + data[n..] == data;
    }
  }

  lemma ReceiveNext<C, S>(x: Setup<C, S>, y: System<C, S>, t: Thread, n: nat)
    requires t < |y.threads| && y.threads[t].Receiving? && n <= |y.toClient| && n <= Need(y.buffer)
    ensures Next(x, y, Receive(t, n)) == Some(AfterReceiving(y, n))
  {
  }

  lemma {:induction false} ReceiveRun<C, S>(x: Setup<C, S>, y: System<C, S>, t: Thread, m: nat,
                                            script: seq<Framing.Outcome>)
    returns (steps: seq<Step<C>>)
    requires t < |y.threads| && y.threads[t].Receiving?
    requires m <= Need(y.buffer) && m <= |y.toClient| && Framing.NeverBroken(script)
    ensures forall k :: 0 <= k < |steps| ==> steps[k].Receive? && steps[k].t == t
    ensures Execute(x, y, steps) == Some(AfterReceiving(y, m))
    decreases |script|
  {
    hide Need, Next, Execute;
    if m == 0 || script == [] {
      ReceiveNext(x, y, t, m);
      OneStep(x, y, Receive(t, m));
      steps := [Receive(t, m)];
    } else if script[0].Retry? {
      assert Framing.NeverBroken(script[1..]);
      steps := ReceiveRun(x, y, t, m, script[1..]);
    } else {
      assert script[0] in script && Framing.NeverBroken(script[1..]);
      var n := Framing.Min(if script[0].n == 0 then 1 else script[0].n, m);
      ReceiveNext(x, y, t, n);
      NeedShrinks(y.buffer, y.toClient[..n]);
      var more := ReceiveRun(x, AfterReceiving(y, n), t, m - n, script[1..]);
      FirstStep(x, y, Receive(t, n), more);
      steps := [Receive(t, n)] + more;
      ReceivedTwice(y, n, m - n);
    }
  }

  /** A read loop is a run of receive steps. Under any unbroken script it moves what it
      needs, or all that is there, and still needs the rest: between two arrivals the
      other side may do whatever it likes. */
  lemma ReadLoopIsSteps<C, S>(x: Setup<C, S>, y: System<C, S>, t: Thread, need: nat, script: seq<Framing.Outcome>)
    returns (steps: seq<Step<C>>)
    requires t < |y.threads| && y.threads[t].Receiving?
    requires need <= Need(y.buffer) && Framing.NeverBroken(script)
    ensures forall k :: 0 <= k < |steps| ==> steps[k].Receive? && steps[k].t == t
    ensures Framing.ReadAll(y.toClient, need, script).taken == Framing.Min(need, |y.toClient|)
    ensures Execute(x, y, steps) == Some(AfterReceiving(y, Framing.Min(need, |y.toClient|)))
    ensures Need(AfterReceiving(y, Framing.Min(need, |y.toClient|)).buffer)
            >= Need(y.buffer) - Framing.Min(need, |y.toClient|)
  {
    hide Need, Framing.ReadAll, Execute;
    var m := Framing.Min(need, |y.toClient|);
    NeedShrinks(y.buffer, y.toClient[..m]);
    UnbrokenTaken(y.toClient, need, script);
    steps := ReceiveRun(x, y, t, m, script);
  }

  lemma UnbrokenTaken(stream: seq<byte>, need: nat, script: seq<Framing.Outcome>)
    requires Framing.NeverBroken(script)
    ensures Framing.ReadAll(stream, need, script).taken == Framing.Min(need, |stream|)
  {
    Framing.ReadAllLaws(stream, need, script);
  }

  lemma NeedShrinks(got: seq<byte>, more: seq<byte>)
    requires |more| <= Need(got)
    ensures Need(got + more) >= Need(got) - |more|
  {
    if |got| >= Framing.SIZE_SIZE {
      assert (got + more)[..Framing.SIZE_SIZE] == got[..Framing.SIZE_SIZE];
    }
  }

  // ---------------------------------------------------------------- calls as steps

  /** Whatever is in the pipe, and whatever happened since the last one, a read call of the
      client is a receive step of as many bytes; it returns none only when the pipe is
      empty, which is end of file exactly when the provider is gone. */
  lemma ReadCallIsStep<C, S>(x: Setup<C, S>, y: System<C, S>, t: Thread, script: seq<Framing.Outcome>)
    requires t < |y.threads| && y.threads[t].Receiving? && !Complete(y.buffer)
    ensures var r := Framing.OneRead(|y.toClient|, Need(y.buffer), script);
            && (r.length > 0 ==> Next(x, y, Receive(t, r.length)) == Some(AfterReceiving(y, r.length)))
            && (r.length == 0 ==> y.toClient == [] && (y.desk.Gone? <==> Next(x, y, Lose(t)).Some?))
  {
    UnfinishedNeeds(y.buffer);
  }

  /** A write call of the client is a send step. */
  lemma WriteCallIsStep<C, S>(x: Setup<C, S>, y: System<C, S>, t: Thread, script: seq<Framing.Outcome>)
    requires t < |y.threads| && y.threads[t].Sending? && y.threads[t].sent < |y.buffer|
    ensures var r := Framing.OneWrite(|y.buffer| - y.threads[t].sent, script);
            r.length >= 0 ==>
              Next(x, y, Send(t, r.length))
              == Some(AfterSending(y, t, y.buffer[y.threads[t].sent..][..r.length]))
  {
    var r := Framing.OneWrite(|y.buffer| - y.threads[t].sent, script);
    if r.length >= 0 {
      SendNext(x, y, t, r.length);
    }
  }

  /** The provider's calls, in the same way. */
  lemma ProviderCallsAreSteps<C, S>(x: Setup<C, S>, y: System<C, S>, script: seq<Framing.Outcome>)
    ensures y.desk.Taking? && !Complete(y.desk.got) ==>
              var r := Framing.OneRead(|y.toProvider|, Need(y.desk.got), script);
              && (r.length > 0 ==>
                    Next(x, y, Take(r.length))
                    == Some(y.(desk := Taking(y.desk.got + y.toProvider[..r.length]),
                               toProvider := y.toProvider[r.length..])))
              && (r.length == 0 ==> y.toProvider == [])
    ensures y.desk.Giving? && y.desk.given < |y.desk.reply| ==>
              var r := Framing.OneWrite(|y.desk.reply| - y.desk.given, script);
              r.length >= 0 ==>
                Next(x, y, Give(r.length))
                == Some(y.(toClient := y.toClient + y.desk.reply[y.desk.given..y.desk.given + r.length],
                           desk := Giving(y.desk.reply, y.desk.given + r.length)))
  {
    if y.desk.Taking? && !Complete(y.desk.got) {
      UnfinishedNeeds(y.desk.got);
    }
  }

  // ---------------------------------------------------------------- a turn of the service loop

  lemma TwoRuns<C, S>(x: Setup<C, S>, y: System<C, S>, first: seq<Step<C>>, second: seq<Step<C>>)
    requires Execute(x, y, first).Some?
    ensures Execute(x, y, first + second) == Execute(x, Execute(x, y, first).value, second)
    decreases |first|
  {
    if first == [] {
      assert first + second == second;
    } else {
      assert (first + second)[1..] == first[1..] + second;
      TwoRuns(x, Next(x, y, first[0]).value, first[1..], second);
    }
  }

  lemma WholeNeeds(f: seq<byte>)
    requires Service.WellSized(f)
    ensures Need([]) == Framing.SIZE_SIZE && Need(f[..Framing.SIZE_SIZE]) == |f| - Framing.SIZE_SIZE
    ensures Complete(f) && f[..Framing.SIZE_SIZE] + f[Framing.SIZE_SIZE..] == f
  {
    assert f[..Framing.SIZE_SIZE][..Framing.SIZE_SIZE] == f[..Framing.SIZE_SIZE];
  }

  /** The provider takes a whole message off its pipe. */
  lemma MessageIsTaken<C, S>(x: Setup<C, S>, y: System<C, S>, f: seq<byte>) returns (steps: seq<Step<C>>)
    requires y.desk == Taking([]) && Service.WellSized(f) && f <= y.toProvider
    ensures Execute(x, y, steps) == Some(y.(desk := Thinking(f), toProvider := y.toProvider[|f|..]))
  {
    WholeNeeds(f);
    var head, tail := f[..Framing.SIZE_SIZE], f[Framing.SIZE_SIZE..];
    hide Need, Complete;
    assert y.toProvider[..Framing.SIZE_SIZE] == head && y.toProvider[Framing.SIZE_SIZE..][..|tail|] == tail;
    var y1 := y.(desk := Taking(head), toProvider := y.toProvider[Framing.SIZE_SIZE..]);
    var y2 := y.(desk := Taking(f), toProvider := y.toProvider[|f|..]);
    var y3 := y2.(desk := Thinking(f));
    assert [] + head == head;
    assert Next(x, y, Take(Framing.SIZE_SIZE)) == Some(y1);
    assert y1.toProvider[|tail|..] == y.toProvider[|f|..];
    assert Next(x, y1, Take(|tail|)) == Some(y2);
    assert Next(x, y2, Taken) == Some(y3);
    hide Next, Execute;
    OneStep(x, y2, Taken);
    FirstStep(x, y1, Take(|tail|), [Taken]);
    FirstStep(x, y, Take(Framing.SIZE_SIZE), [Take(|tail|)] + [Taken]);
    steps := [Take(Framing.SIZE_SIZE)] + ([Take(|tail|)] + [Taken]);
  }

  /** The provider answers and writes its reply. */
  lemma ReplyIsGiven<C, S>(x: Setup<C, S>, y: System<C, S>, state: S, reply: seq<byte>) returns (steps: seq<Step<C>>)
    requires y.desk.Thinking? && x.handle(y.state, y.desk.request) == Replies(state, reply) && Framing.WellFramed(reply)
    ensures Execute(x, y, steps) == Some(y.(state := state, desk := Taking([]), toClient := y.toClient + reply))
  {
    var y1 := y.(state := state, desk := Giving(reply, 0));
    var y2 := y1.(desk := Giving(reply, |reply|), toClient := y.toClient + reply);
    var y3 := y2.(desk := Taking([]));
    assert reply[0..0 + |reply|] == reply;
    assert Next(x, y, Step.Answer) == Some(y1) && Next(x, y1, Give(|reply|)) == Some(y2);
    assert Next(x, y2, Given) == Some(y3);
    hide Next, Execute;
    OneStep(x, y2, Given);
    FirstStep(x, y1, Give(|reply|), [Given]);
    FirstStep(x, y, Step.Answer, [Give(|reply|)] + [Given]);
    steps := [Step.Answer] + ([Give(|reply|)] + [Given]);
  }

  /** What the state machine's provider sees of a turn of the service loop. */
  ghost function TurnAt<S(!new)>(names: seq<Name>, apply: (S, Call) -> (S, Answer), junk: nat -> Junk,
                                 stale: nat -> seq<byte>, y: System<Asked, Office<S>>,
                                 reading: seq<Framing.Outcome>, writing: seq<Framing.Outcome>): Service.Turn<S>
    requires WellBehaved(apply) && NamesOk(names)
  {
    Service.Served(names, apply, Service.Provider(y.state.state, y.toProvider, reading, y.toClient, writing),
                   Service.Luck(junk(y.state.turn), stale(y.state.turn)))
  }

  /** What a turn that got a message is, in terms of the stub's callback. */
  lemma TurnHandles<S(!new)>(names: seq<Name>, apply: (S, Call) -> (S, Answer), junk: nat -> Junk,
                             stale: nat -> seq<byte>, y: System<Asked, Office<S>>,
                             reading: seq<Framing.Outcome>, writing: seq<Framing.Outcome>)
    requires WellBehaved(apply) && NamesOk(names) && |y.toProvider| < Framing.SIZE_T_RANGE
    requires Framing.NeverBroken(writing)
    requires TurnAt(names, apply, junk, stale, y, reading, writing).request != []
    ensures var t := TurnAt(names, apply, junk, stale, y, reading, writing);
            && Service.WellSized(t.request) && t.request <= y.toProvider
            && t.after.stream == y.toProvider[|t.request|..]
            && (if t.status == RPC_GOOD then
                  && Stub(names, apply, junk, stale)(y.state, t.request)
                     == Replies(Office(t.after.state, y.state.turn + 1), t.reply)
                  && t.after.written == y.toClient + t.reply
                else
                  && Stub(names, apply, junk, stale)(y.state, t.request) == Refuses
                  && t.after.state == y.state.state && t.after.written == y.toClient)
  {
    hide Framing.Receive, Framing.WriteAll, Handle, WellBehaved, NamesOk, Service.WellSized;
    hide CallFrom, Reply, DeserializeRows, StubIn, STUB_LOCALS, AnswerOk, MethodId, MethodOf, Service.Applied;
    Service.ReceivedWhole(y.toProvider, reading);
    var got := Framing.Receive(y.toProvider, reading);
    var n := y.state.turn;
    Service.HandledOrRefused(names, apply, y.state.state, junk(n), got.frame + stale(n), |got.frame|);
    var h := Handle(names, apply, y.state.state, junk(n), got.frame + stale(n), |got.frame|);
    Framing.WriteAllLaws(h.reply, writing);
    TakenIsFrame(y.toProvider, reading);
  }

  lemma TakenIsFrame(stream: seq<byte>, script: seq<Framing.Outcome>)
    requires |stream| < Framing.SIZE_T_RANGE
    ensures var got := Framing.Receive(stream, script);
            got.status == RPC_GOOD ==> got.taken == |got.frame| && got.frame <= stream
  {
    Service.ReceivedWhole(stream, script);
    var got := Framing.Receive(stream, script);
    if got.status == RPC_GOOD {
      assert |stream| == |got.frame| + |stream| - got.taken;
      assert stream[..|got.frame|] == got.frame;
    }
  }

  /** The system after a turn that took `f` and reacted like this. */
  function AfterTurn<C, S>(y: System<C, S>, f: seq<byte>, r: Reaction<S>): System<C, S>
    requires f <= y.toProvider
  {
    match r
    case Refuses => y.(toProvider := y.toProvider[|f|..], desk := Gone)
    case Replies(state, reply) =>
      y.(toProvider := y.toProvider[|f|..], toClient := y.toClient + reply, desk := Taking([]), state := state)
  }

  lemma TurnIsRun<C, S>(x: Setup<C, S>, y: System<C, S>, f: seq<byte>) returns (steps: seq<Step<C>>)
    requires y.desk == Taking([]) && Service.WellSized(f) && f <= y.toProvider
    requires var r := x.handle(y.state, f); r.Replies? ==> Framing.WellFramed(r.reply)
    ensures Execute(x, y, steps) == Some(AfterTurn(y, f, x.handle(y.state, f)))
  {
    hide Service.WellSized, Framing.WellFramed;
    var r := x.handle(y.state, f);
    var first := MessageIsTaken(x, y, f);
    var y1 := y.(desk := Thinking(f), toProvider := y.toProvider[|f|..]);
    var second;
    if r.Replies? {
      second := ReplyIsGiven(x, y1, r.state, r.reply);
    } else {
      second := [Step.Answer];
      OneStep(x, y1, Step.Answer);
    }
    hide Execute;
    TwoRuns(x, y, first, second);
    steps := first + second;
  }

  /** A turn of the service loop is a run of the provider's steps: it takes the request,
      and then either hands over the whole reply or is gone. */
  lemma ServedIsRun<S(!new)>(names: seq<Name>, apply: (S, Call) -> (S, Answer), start: S, junk: nat -> Junk,
                             stale: nat -> seq<byte>, y: System<Asked, Office<S>>,
                             reading: seq<Framing.Outcome>, writing: seq<Framing.Outcome>)
    returns (steps: seq<Step<Asked>>)
    requires WellBehaved(apply) && NamesOk(names) && |y.toProvider| < Framing.SIZE_T_RANGE
    requires y.desk == Taking([]) && Framing.NeverBroken(writing)
    requires TurnAt(names, apply, junk, stale, y, reading, writing).request != []
    requires var t := TurnAt(names, apply, junk, stale, y, reading, writing);
             t.status == RPC_GOOD ==> Framing.WellFramed(t.reply)
    ensures var t := TurnAt(names, apply, junk, stale, y, reading, writing);
            Execute(StdioFs(names, apply, start, junk, stale), y, steps)
            == Some(if t.status == RPC_GOOD then
                      y.(toProvider := t.after.stream, toClient := t.after.written, desk := Taking([]),
                         state := Office(t.after.state, y.state.turn + 1))
                    else y.(toProvider := t.after.stream, desk := Gone))
  {
    TurnHandles(names, apply, junk, stale, y, reading, writing);
    hide WellBehaved, NamesOk, TurnAt, Stub, Asks, Service.WellSized, Framing.WellFramed, Framing.NeverBroken, Execute;
    steps := TurnIsRun(StdioFs(names, apply, start, junk, stale), y,
                       TurnAt(names, apply, junk, stale, y, reading, writing).request);
  }

  // ---------------------------------------------------------------- an invocation

  /** The client takes the lock, serialises and writes its request. */
  lemma RequestIsSent<C, S>(x: Setup<C, S>, y: System<C, S>, t: Thread) returns (steps: seq<Step<C>>)
    requires t < |y.threads| && y.threads[t].Blocked? && y.lock.None?
    ensures Execute(x, y, steps)
         == Some(y.(lock := Some(t), acquired := y.acquired + [t], buffer := [],
                    toProvider := y.toProvider + x.encode(y.threads[t].call),
                    threads := y.threads[t := Receiving(y.threads[t].call)]))
  {
    var call := y.threads[t].call;
    var request := x.encode(call);
    var y1 := y.(lock := Some(t), threads := y.threads[t := Locked(call)], acquired := y.acquired + [t]);
    var y2 := y1.(buffer := request, threads := y.threads[t := Sending(call, 0)]);
    var y3 := y2.(toProvider := y.toProvider + request, threads := y.threads[t := Sending(call, |request|)]);
    var y4 := y3.(buffer := [], threads := y.threads[t := Receiving(call)]);
    assert y.threads[t := Locked(call)][t := Sending(call, 0)] == y.threads[t := Sending(call, 0)];
    assert y.threads[t := Sending(call, 0)][t := Sending(call, |request|)] == y.threads[t := Sending(call, |request|)];
    assert y.threads[t := Sending(call, |request|)][t := Receiving(call)] == y.threads[t := Receiving(call)];
    assert request[0..0 + |request|] == request;
    assert Next(x, y, Acquire(t)) == Some(y1) && Next(x, y1, Serialise(t)) == Some(y2);
    assert Next(x, y2, Send(t, |request|)) == Some(y3) && Next(x, y3, Step.Sent(t)) == Some(y4);
    hide Next, Execute;
    OneStep(x, y3, Step.Sent(t));
    FirstStep(x, y2, Send(t, |request|), [Step.Sent(t)]);
    FirstStep(x, y1, Serialise(t), [Send(t, |request|)] + [Step.Sent(t)]);
    FirstStep(x, y, Acquire(t), [Serialise(t)] + ([Send(t, |request|)] + [Step.Sent(t)]));
    steps := [Acquire(t)] + ([Serialise(t)] + ([Send(t, |request|)] + [Step.Sent(t)]));
  }

  lemma MessageIsReceived<C, S>(x: Setup<C, S>, y: System<C, S>, t: Thread, reply: seq<byte>)
    returns (steps: seq<Step<C>>)
    requires t < |y.threads| && y.threads[t].Receiving? && y.buffer == [] && y.toClient == reply
    requires Service.WellSized(reply)
    ensures Execute(x, y, steps) == Some(y.(buffer := reply, toClient := []))
  {
    WholeNeeds(reply);
    var head, tail := reply[..Framing.SIZE_SIZE], reply[Framing.SIZE_SIZE..];
    hide Need, Complete, Service.WellSized, Next, Execute;
    var y1 := y.(buffer := head, toClient := tail);
    assert [] + head == head && tail[..|tail|] == tail && tail[|tail|..] == [];
    ReceiveNext(x, y, t, Framing.SIZE_SIZE);
    assert AfterReceiving(y, Framing.SIZE_SIZE) == y1;
    ReceiveNext(x, y1, t, |tail|);
    OneStep(x, y1, Receive(t, |tail|));
    FirstStep(x, y, Receive(t, Framing.SIZE_SIZE), [Receive(t, |tail|)]);
    steps := [Receive(t, Framing.SIZE_SIZE)] + [Receive(t, |tail|)];
  }

  lemma CallIsLeft<C, S>(x: Setup<C, S>, y: System<C, S>, t: Thread) returns (steps: seq<Step<C>>)
    requires t < |y.threads| && y.threads[t].Receiving? && Complete(y.buffer)
    ensures Execute(x, y, steps)
         == Some(y.(lock := None, threads := y.threads[t := Idle],
                    log := y.log + [Entry(t, y.threads[t].call, Some(y.buffer))]))
  {
    hide Complete;
    var call, reply := y.threads[t].call, y.buffer;
    var y1 := y.(threads := y.threads[t := Leaving(call, Some(reply))]);
    assert y.threads[t := Leaving(call, Some(reply))][t := Idle] == y.threads[t := Idle];
    assert Next(x, y, Decode(t)) == Some(y1);
    hide Execute;
    OneStep(x, y1, Unlock(t));
    FirstStep(x, y, Decode(t), [Unlock(t)]);
    steps := [Decode(t)] + [Unlock(t)];
  }

  /** The client reads its reply, decodes it and unlocks. */
  lemma ReplyIsReceived<C, S>(x: Setup<C, S>, y: System<C, S>, t: Thread, reply: seq<byte>)
    returns (steps: seq<Step<C>>)
    requires t < |y.threads| && y.threads[t].Receiving? && y.buffer == [] && y.toClient == reply
    requires Service.WellSized(reply)
    ensures Execute(x, y, steps)
         == Some(y.(lock := None, buffer := reply, toClient := [], threads := y.threads[t := Idle],
                    log := y.log + [Entry(t, y.threads[t].call, Some(reply))]))
  {
    WholeNeeds(reply);
    hide Need, Complete, Service.WellSized, Execute;
    var first := MessageIsReceived(x, y, t, reply);
    var second := CallIsLeft(x, y.(buffer := reply, toClient := []), t);
    TwoRuns(x, y, first, second);
    steps := first + second;
  }

  /** The system a whole call leaves behind. */
  function AfterCall<C, S>(y: System<C, S>, t: Thread, state: S, reply: seq<byte>): System<C, S>
    requires t < |y.threads| && y.threads[t].Blocked?
  {
    y.(acquired := y.acquired + [t], buffer := reply, threads := y.threads[t := Idle],
       log := y.log + [Entry(t, y.threads[t].call, Some(reply))], state := state)
  }

  lemma CallIsRun<C, S>(x: Setup<C, S>, y: System<C, S>, t: Thread, state: S, reply: seq<byte>)
    returns (steps: seq<Step<C>>)
    requires y.lock.None? && y.toProvider == [] && y.toClient == [] && y.desk == Taking([])
    requires t < |y.threads| && y.threads[t].Blocked? && Service.WellSized(x.encode(y.threads[t].call))
    requires x.handle(y.state, x.encode(y.threads[t].call)) == Replies(state, reply) && Framing.WellFramed(reply)
    ensures Execute(x, y, steps) == Some(AfterCall(y, t, state, reply))
  {
    FramedIsSized(reply);
    hide Service.WellSized, Framing.WellFramed, Execute;
    var call := y.threads[t].call;
    var request := x.encode(call);
    assert [] + request == request && request[|request|..] == [] && [] + reply == reply;
    var first := RequestIsSent(x, y, t);
    var y1 := y.(lock := Some(t), acquired := y.acquired + [t], buffer := [], toProvider := request,
                 threads := y.threads[t := Receiving(call)]);
    var second := TurnIsRun(x, y1, request);
    var y2 := y1.(toProvider := [], toClient := reply, state := state);
    var third := ReplyIsReceived(x, y2, t, reply);
    assert y.threads[t := Receiving(call)][t := Idle] == y.threads[t := Idle];
    TwoRuns(x, y1, second, third);
    TwoRuns(x, y, first, second + third);
    steps := first + (second + third);
  }

  /** An invocation, with the turn of the service loop it waits for, is a run: from a
      system at rest, the bytes it sends and takes are those of the run, and the run ends
      at rest with the reply it decodes in the log. */
  lemma InvokedIsRun<S(!new)>(names: seq<Name>, apply: (S, Call) -> (S, Answer), start: S, junk: nat -> Junk,
                              stale: nat -> seq<byte>, y: System<Asked, Office<S>>, t: Thread, w: Weather,
                              tail: seq<byte>)
    returns (steps: seq<Step<Asked>>)
    requires WellBehaved(apply) && NamesOk(names) && Fair(w)
    requires y.lock.None? && y.toProvider == [] && y.toClient == [] && y.desk == Taking([])
    requires t < |y.threads| && y.threads[t].Blocked? && InDomain(y.threads[t].call)
    requires RequestSize(y.threads[t].call.call) < Framing.MAX_BUFFER_SIZE
    requires var call := y.threads[t].call.call;
             ReplySize(call, Answered(names, apply, y.state.state, Arriving(call)).1, junk(y.state.turn))
             < Framing.MAX_BUFFER_SIZE
    ensures var a := y.threads[t].call;
            var reply := DirectReply(names, apply, y.state.state, a.call, junk(y.state.turn));
            var i := Service.ProxyInvoked(a.call, a.out, tail, w.request, reply, w.delivery);
            && i.sent == Request(a.call, a.out) && i.taken == |reply|
            && Execute(StdioFs(names, apply, start, junk, stale), y, steps)
               == Some(AfterCall(y, t, Office(Answered(names, apply, y.state.state, Arriving(a.call)).0,
                                              y.state.turn + 1), reply))
  {
    var x, a := StdioFs(names, apply, start, junk, stale), y.threads[t].call;
    var s, n := y.state.state, y.state.turn;
    var reply := DirectReply(names, apply, s, a.call, junk(n));
    DirectReplyFits(names, apply, s, a, junk(n));
    InvocationTakesReply(a.call, a.out, tail, w.request, reply, w.delivery);
    RequestIsSized(a);
    StubReplies(names, apply, s, junk, stale, n, a);
    hide WellBehaved, NamesOk, Stub, Asks, InDomain, RequestSize, ReplySize, Request, DirectReply, Answered;
    hide Service.WellSized, Framing.WellFramed, Framing.NeverBroken, Execute, Service.ProxyInvoked;
    steps := CallIsRun(x, y, t, Office(Answered(names, apply, s, Arriving(a.call)).0, n + 1), reply);
  }

  lemma RequestIsSized(a: Asked)
    requires InDomain(a) && RequestSize(a.call) < Framing.MAX_BUFFER_SIZE
    ensures Service.WellSized(Asks()(a))
  {
    RequestHasSize(a.call, a.out);
    RequestLoads(a.call, a.out);
    hide RequestSize, ProxyIn, ProxyMem, MethodOf, SerializeRows, Frame, CallOk, OutOk;
    FramesCountThemselves(MethodOf(a.call), SerializeRows(ProxyIn(MethodOf(a.call)), ProxyMem(a.call, a.out)).payload);
    FramedIsSized(Request(a.call, a.out));
  }

  lemma FramedIsSized(f: seq<byte>)
    requires Framing.WellFramed(f)
    ensures Service.WellSized(f)
  {
    U32RoundTrip(|f|);
  }

  lemma InvocationTakesReply(call: Call, out: Slot, tail: seq<byte>, sending: seq<Framing.Outcome>, reply: seq<byte>,
                             receiving: seq<Framing.Outcome>)
    requires CallOk(call) && OutOk(call, out) && Framing.WellFramed(reply)
    requires Framing.NeverBroken(sending) && Framing.NeverBroken(receiving)
    ensures var i := Service.ProxyInvoked(call, out, tail, sending, reply, receiving);
            i.sent == Request(call, out) && i.taken == |reply|
  {
    Service.ProxyTables(call, out);
    RequestLoads(call, out);
    var id := MethodOf(call);
    Service.InvokedReads(id, ProxyIn(id), ProxyOut(id), ProxyMem(call, out), tail, sending, reply, receiving);
    hide ProxyIn, ProxyOut, ProxyMem, MethodOf, CallOk, OutOk, Service.Invoked, Framing.Receive;
    Service.ReceivedPart(reply, [], receiving);
    assert reply + [] == reply;
  }
}
