/**
 The protocol as a state machine: any number of threads call through one client
 (rpc/rpc.c), which serialises them under a lock into one buffer and one pair of pipes,
 and one provider serves the other end (rpc/stub.c). Every step is one action of one
 thread or of the provider; reads and writes move any number of bytes, also none.

 A system's runs end at the first transport failure. A provider that refuses a request
 is not one: it goes away, and its clients notice.
 */
module Protocol {
  import opened Words
  import opened Wire
  import Framing

  type Thread = nat

  /** What a provider makes of a request. */
  datatype Reaction<+S> = Refuses | Replies(state: S, reply: seq<byte>)

  /** How calls become requests, what the provider does, and the state it starts in. */
  datatype Setup<!C, !S> = Setup(encode: C -> seq<byte>, handle: (S, seq<byte>) -> Reaction<S>, start: S)

  /** Where a thread is. */
  datatype Pc<+C> =
    | Idle
    | Blocked(call: C)                              // waits for the lock
    | Locked(call: C)                               // holds it, has yet to serialise
    | Sending(call: C, sent: nat)                   // in the write loop
    | Receiving(call: C)                            // in the read loops
    | Leaving(call: C, reply: Option<seq<byte>>)    // has decoded or given up, has yet to unlock

  /** Where the provider is. */
  datatype Desk =
    | Taking(got: seq<byte>)                        // in the read loops
    | Thinking(request: seq<byte>)                  // in the callback
    | Giving(reply: seq<byte>, given: nat)          // in the write loop
    | Gone

  datatype Entry<+C> = Entry(thread: Thread, call: C, reply: Option<seq<byte>>)

  /** The whole system. Two histories are kept for the statements below: who took the
      lock, and the finished calls, in the order of their unlocking. */
  datatype System<+C, +S> = System(lock: Option<Thread>, threads: seq<Pc<C>>, buffer: seq<byte>,
                                   toProvider: seq<byte>, toClient: seq<byte>, desk: Desk, state: S,
                                   acquired: seq<Thread>, log: seq<Entry<C>>)

  datatype Step<+C> =
    | Call(t: Thread, call: C)
    | Acquire(t: Thread)
    | Serialise(t: Thread)
    | Send(t: Thread, n: nat)
    | Sent(t: Thread)
    | Receive(t: Thread, n: nat)
    | Decode(t: Thread)
    | Lose(t: Thread)
    | Unlock(t: Thread)
    | Take(n: nat)
    | Taken
    | Answer
    | Give(n: nat)
    | Given

  ghost function Init<C, S>(x: Setup<C, S>, threads: nat): System<C, S> {
    System(None, seq(threads, _ => Idle), [], [], [], Taking([]), x.start, [], [])
  }

  /** How many bytes a read loop that has got these still asks for: first the size,
      then what the size declares. */
  function Need(got: seq<byte>): nat {
    if |got| < Framing.SIZE_SIZE then Framing.SIZE_SIZE - |got|
    else
      var count := FromBigEndian(got[..Framing.SIZE_SIZE]);
      if count > |got| then count - |got| else 0
  }

  predicate Complete(got: seq<byte>) {
    |got| >= Framing.SIZE_SIZE && Need(got) == 0
  }

  /** One step, if it is enabled. */
  ghost function Next<C, S>(x: Setup<C, S>, y: System<C, S>, step: Step<C>): Option<System<C, S>> {
    match step
    case Call(t, call) =>
      if t < |y.threads| && y.threads[t].Idle? && Framing.WellFramed(x.encode(call)) then
        Some(y.(threads := y.threads[t := Blocked(call)]))
      else None
    case Acquire(t) =>
      if t < |y.threads| && y.threads[t].Blocked? && y.lock.None? then
        Some(y.(lock := Some(t), threads := y.threads[t := Locked(y.threads[t].call)], acquired := y.acquired + [t]))
      else None
    case Serialise(t) =>
      if t < |y.threads| && y.threads[t].Locked? then
        Some(y.(buffer := x.encode(y.threads[t].call), threads := y.threads[t := Sending(y.threads[t].call, 0)]))
      else None
    case Send(t, n) =>
      if t < |y.threads| && y.threads[t].Sending? && y.threads[t].sent + n <= |y.buffer| then
        var pc := y.threads[t];
        Some(y.(toProvider := y.toProvider + y.buffer[pc.sent..pc.sent + n],
                threads := y.threads[t := Sending(pc.call, pc.sent + n)]))
      else None
    case Sent(t) =>
      if t < |y.threads| && y.threads[t].Sending? && y.threads[t].sent == |y.buffer| then
        Some(y.(buffer := [], threads := y.threads[t := Receiving(y.threads[t].call)]))
      else None
    case Receive(t, n) =>
      if t < |y.threads| && y.threads[t].Receiving? && n <= |y.toClient| && n <= Need(y.buffer) then
        Some(y.(buffer := y.buffer + y.toClient[..n], toClient := y.toClient[n..]))
      else None
    case Decode(t) =>
      if t < |y.threads| && y.threads[t].Receiving? && Complete(y.buffer) then
        Some(y.(threads := y.threads[t := Leaving(y.threads[t].call, Some(y.buffer))]))
      else None
    case Lose(t) =>
      if t < |y.threads| && y.desk.Gone?
         && (y.threads[t].Sending? || (y.threads[t].Receiving? && y.toClient == [])) then
        Some(y.(threads := y.threads[t := Leaving(y.threads[t].call, None)]))
      else None
    case Unlock(t) =>
      if t < |y.threads| && y.threads[t].Leaving? then
        Some(y.(lock := None, threads := y.threads[t := Idle],
                log := y.log + [Entry(t, y.threads[t].call, y.threads[t].reply)]))
      else None
    case Take(n) =>
      if y.desk.Taking? && n <= |y.toProvider| && n <= Need(y.desk.got) then
        Some(y.(desk := Taking(y.desk.got + y.toProvider[..n]), toProvider := y.toProvider[n..]))
      else None
    case Taken =>
      if y.desk.Taking? && Complete(y.desk.got) then Some(y.(desk := Thinking(y.desk.got))) else None
    case Answer =>
      if y.desk.Thinking? then
        match x.handle(y.state, y.desk.request)
        case Refuses => Some(y.(desk := Gone))
        case Replies(state, reply) =>
          if Framing.WellFramed(reply) then Some(y.(state := state, desk := Giving(reply, 0))) else None
      else None
    case Give(n) =>
      if y.desk.Giving? && y.desk.given + n <= |y.desk.reply| then
        Some(y.(toClient := y.toClient + y.desk.reply[y.desk.given..y.desk.given + n],
                desk := Giving(y.desk.reply, y.desk.given + n)))
      else None
    case Given =>
      if y.desk.Giving? && y.desk.given == |y.desk.reply| then Some(y.(desk := Taking([]))) else None
  }

  /** A run: every step is enabled where it is taken. */
  ghost function Execute<C, S>(x: Setup<C, S>, y: System<C, S>, steps: seq<Step<C>>): Option<System<C, S>>
    decreases |steps|
  {
    if steps == [] then Some(y)
    else
      match Next(x, y, steps[0])
      case None => None
      case Some(y') => Execute(x, y', steps[1..])
  }

  // ---------------------------------------------------------------- the sequential system

  /** One call after the other, without threads, pipes or chunks: after a refusal, the
      provider is gone and every call is lost. */
  datatype Ledger<+S> = Ledger(alive: bool, state: S, replies: seq<Option<seq<byte>>>)

  function Post<S>(handle: (S, seq<byte>) -> Reaction<S>, l: Ledger<S>, request: seq<byte>): Ledger<S> {
    if !l.alive then Ledger(false, l.state, l.replies + [None])
    else
      match handle(l.state, request)
      case Refuses => Ledger(false, l.state, l.replies + [None])
      case Replies(state, reply) => Ledger(true, state, l.replies + [Some(reply)])
  }

  function Sequential<C, S>(x: Setup<C, S>, log: seq<Entry<C>>): (l: Ledger<S>)
    ensures |l.replies| == |log|
    decreases |log|
  {
    if log == [] then Ledger(true, x.start, [])
    else Post(x.handle, Sequential(x, log[..|log| - 1]), x.encode(log[|log| - 1].call))
  }

  lemma SequentialMore<C, S>(x: Setup<C, S>, log: seq<Entry<C>>, e: Entry<C>)
    ensures Sequential(x, log + [e]) == Post(x.handle, Sequential(x, log), x.encode(e.call))
  {
    assert (log + [e])[..|log|] == log;
  }

  // ---------------------------------------------------------------- the invariant

  predicate Active<C>(pc: Pc<C>) {
    pc.Locked? || pc.Sending? || pc.Receiving? || pc.Leaving?
  }

  /** Mutual exclusion: a thread is past the lock exactly when it holds it. */
  ghost predicate Exclusive<C, S>(y: System<C, S>) {
    && (y.lock.Some? ==> y.lock.value < |y.threads|)
    && forall t :: 0 <= t < |y.threads| ==> (Active(y.threads[t]) <==> y.lock == Some(t))
  }

  ghost predicate Framed<C, S>(x: Setup<C, S>, y: System<C, S>) {
    && (forall t :: 0 <= t < |y.threads| && !y.threads[t].Idle? ==> Framing.WellFramed(x.encode(y.threads[t].call)))
    && (forall k :: 0 <= k < |y.log| ==> Framing.WellFramed(x.encode(y.log[k].call)))
  }

  function Callers<C>(log: seq<Entry<C>>): seq<Thread> {
    seq(|log|, k requires 0 <= k < |log| => log[k].thread)
  }

  /** Calls finish in the order in which they took the lock. */
  ghost predicate Ordered<C, S>(y: System<C, S>) {
    y.acquired == Callers(y.log) + if y.lock.Some? then [y.lock.value] else []
  }

  /** Every finished call got what the sequential system gives it. */
  ghost predicate Explained<C, S>(x: Setup<C, S>, log: seq<Entry<C>>) {
    forall k :: 0 <= k < |log| ==> log[k].reply == Sequential(x, log).replies[k]
  }

  /** The provider waits for a request; it may still have to notice that its write loop
      is done. */
  predicate Listening(desk: Desk) {
    desk.Taking? || (desk.Giving? && desk.given == |desk.reply|)
  }

  function Got(desk: Desk): seq<byte> {
    if desk.Taking? then desk.got else []
  }

  /** No call is under way: both pipes are empty and the provider is at its read. */
  ghost predicate Resting<C, S>(y: System<C, S>, l: Ledger<S>) {
    && y.state == l.state && y.toClient == []
    && if l.alive then y.toProvider == [] && Listening(y.desk) && Got(y.desk) == [] else y.desk.Gone?
  }

  /** The request is being sent and read. */
  ghost predicate Asking<C, S>(y: System<C, S>, l: Ledger<S>, request: seq<byte>, sent: nat, heard: seq<byte>)
    requires sent <= |request|
  {
    && l.alive && Listening(y.desk) && Got(y.desk) + y.toProvider == request[..sent]
    && y.toClient == [] && heard == [] && y.state == l.state
  }

  /** The request is all read and being handled. */
  ghost predicate Pondering<C, S>(y: System<C, S>, l: Ledger<S>, request: seq<byte>, sent: nat, heard: seq<byte>) {
    && l.alive && y.desk == Thinking(request) && sent == |request|
    && y.toProvider == [] && y.toClient == [] && heard == [] && y.state == l.state
  }

  /** The reply is being sent and read. */
  ghost predicate Replying<C, S>(x: Setup<C, S>, y: System<C, S>, l: Ledger<S>, request: seq<byte>, sent: nat,
                                 heard: seq<byte>) {
    && l.alive && sent == |request| && y.toProvider == []
    && var r := x.handle(l.state, request);
       && r.Replies? && Framing.WellFramed(r.reply) && y.state == r.state
       && if y.desk.Giving? then
            y.desk.reply == r.reply && y.desk.given <= |r.reply| && heard + y.toClient == r.reply[..y.desk.given]
          else y.desk == Taking([]) && heard + y.toClient == r.reply
  }

  /** The provider has gone away. */
  ghost predicate Forsaken<C, S>(x: Setup<C, S>, y: System<C, S>, l: Ledger<S>, request: seq<byte>, heard: seq<byte>) {
    && y.desk.Gone? && y.toClient == [] && heard == [] && y.state == l.state
    && (l.alive ==> x.handle(l.state, request).Refuses?)
  }

  /** One request or one reply is in flight, and it belongs to the holder of the lock. */
  ghost predicate InFlight<C, S>(x: Setup<C, S>, y: System<C, S>, l: Ledger<S>, request: seq<byte>, sent: nat,
                                 heard: seq<byte>) {
    && sent <= |request|
    && (|| Asking(y, l, request, sent, heard)
        || Pondering(y, l, request, sent, heard)
        || Replying(x, y, l, request, sent, heard)
        || Forsaken(x, y, l, request, heard))
  }

  /** What the holder's place in the code says about the rest of the system. */
  ghost predicate Phase<C, S>(x: Setup<C, S>, y: System<C, S>, l: Ledger<S>, pc: Pc<C>) {
    match pc
    case Sending(call, sent) => y.buffer == x.encode(call) && InFlight(x, y, l, x.encode(call), sent, [])
    case Receiving(call) => InFlight(x, y, l, x.encode(call), |x.encode(call)|, y.buffer)
    case Leaving(call, reply) =>
      var l' := Post(x.handle, l, x.encode(call));
      Resting(y, l') && l'.replies == l.replies + [reply]
    case _ => Resting(y, l)
  }

  ghost predicate Inv<C, S>(x: Setup<C, S>, y: System<C, S>) {
    && Exclusive(y) && Ordered(y) && Framed(x, y) && Explained(x, y.log)
    && Phase(x, y, Sequential(x, y.log), if y.lock.Some? then y.threads[y.lock.value] else Idle)
  }

  lemma InitIsInvariant<C, S>(x: Setup<C, S>, threads: nat)
    ensures Inv(x, Init(x, threads))
  {
  }

  /** What a message starts with, its reader never mistakes for a whole one. */
  lemma CompletePrefix(heard: seq<byte>, f: seq<byte>)
    requires Framing.WellFramed(f) && heard <= f
    ensures Complete(heard) ==> heard == f
  {
    U32RoundTrip(|f|);
    if |heard| >= 4 {
      assert heard[..4] == f[..4];
    }
  }

  lemma CallKeeps<C, S>(x: Setup<C, S>, y: System<C, S>, t: Thread, call: C, y': System<C, S>)
    requires Inv(x, y) && Next(x, y, Call(t, call)) == Some(y')
    ensures Inv(x, y')
  {
  }

  lemma AcquireKeeps<C, S>(x: Setup<C, S>, y: System<C, S>, t: Thread, y': System<C, S>)
    requires Inv(x, y) && Next(x, y, Acquire(t)) == Some(y')
    ensures Inv(x, y')
  {
  }

  lemma SerialiseKeeps<C, S>(x: Setup<C, S>, y: System<C, S>, t: Thread, y': System<C, S>)
    requires Inv(x, y) && Next(x, y, Serialise(t)) == Some(y')
    ensures Inv(x, y')
  {
  }

  lemma SendKeeps<C, S>(x: Setup<C, S>, y: System<C, S>, t: Thread, n: nat, y': System<C, S>)
    requires Inv(x, y) && Next(x, y, Send(t, n)) == Some(y')
    ensures Inv(x, y')
  {
  }

  lemma SentKeeps<C, S>(x: Setup<C, S>, y: System<C, S>, t: Thread, y': System<C, S>)
    requires Inv(x, y) && Next(x, y, Sent(t)) == Some(y')
    ensures Inv(x, y')
  {
  }

  lemma ReceiveKeeps<C, S>(x: Setup<C, S>, y: System<C, S>, t: Thread, n: nat, y': System<C, S>)
    requires Inv(x, y) && Next(x, y, Receive(t, n)) == Some(y')
    ensures Inv(x, y')
  {
  }

  lemma DecodeKeeps<C, S>(x: Setup<C, S>, y: System<C, S>, t: Thread, y': System<C, S>)
    requires Inv(x, y) && Next(x, y, Decode(t)) == Some(y')
    ensures Inv(x, y')
  {
    hide Framing.WellFramed, FromBigEndian, BigEndian;
    var request, l := x.encode(y.threads[t].call), Sequential(x, y.log);
    assert y.lock == Some(t);
    assert Replying(x, y, l, request, |request|, y.buffer);
    var reply := x.handle(l.state, request).reply;
    assert y.buffer <= y.buffer + y.toClient <= reply;
    CompletePrefix(y.buffer, reply);
    hide Complete;
    assert |y.buffer + y.toClient| == |reply| + |y.toClient|;
  }

  lemma LoseKeeps<C, S>(x: Setup<C, S>, y: System<C, S>, t: Thread, y': System<C, S>)
    requires Inv(x, y) && Next(x, y, Lose(t)) == Some(y')
    ensures Inv(x, y')
  {
  }

  lemma ExplainedMore<C, S>(x: Setup<C, S>, log: seq<Entry<C>>, e: Entry<C>)
    requires Explained(x, log)
    requires Post(x.handle, Sequential(x, log), x.encode(e.call)).replies == Sequential(x, log).replies + [e.reply]
    ensures Explained(x, log + [e])
  {
    SequentialMore(x, log, e);
    hide Sequential, Post;
  }

  /** What unlocking does to the threads and the histories. */
  lemma UnlockReleases<C, S>(x: Setup<C, S>, y: System<C, S>, t: Thread, y': System<C, S>)
    requires Exclusive(y) && Ordered(y) && Framed(x, y) && Next(x, y, Unlock(t)) == Some(y')
    ensures Exclusive(y') && Ordered(y') && Framed(x, y')
  {
    hide Framing.WellFramed;
    assert y.lock == Some(t);
    assert Callers(y'.log) == Callers(y.log) + [t];
  }

  lemma UnlockRests<C, S>(x: Setup<C, S>, y: System<C, S>, l: Ledger<S>, t: Thread, y': System<C, S>)
    requires Next(x, y, Unlock(t)) == Some(y') && Phase(x, y, l, y.threads[t])
    ensures Resting(y', Post(x.handle, l, x.encode(y.threads[t].call)))
    ensures Post(x.handle, l, x.encode(y.threads[t].call)).replies == l.replies + [y.threads[t].reply]
  {
    hide Post;
  }

  lemma UnlockKeeps<C, S>(x: Setup<C, S>, y: System<C, S>, t: Thread, y': System<C, S>)
    requires Inv(x, y) && Next(x, y, Unlock(t)) == Some(y')
    ensures Inv(x, y')
  {
    assert y.lock == Some(t);
    var e := Entry(t, y.threads[t].call, y.threads[t].reply);
    assert y'.lock.None? && y'.log == y.log + [e];
    hide Next, Sequential, InFlight, Resting, Explained, Exclusive, Ordered, Framed, Post;
    UnlockReleases(x, y, t, y');
    UnlockRests(x, y, Sequential(x, y.log), t, y');
    SequentialMore(x, y.log, e);
    ExplainedMore(x, y.log, e);
  }

  lemma PhaseOf<C, S>(x: Setup<C, S>, y: System<C, S>)
    requires Inv(x, y)
    ensures y.lock.Some? ==> y.lock.value < |y.threads|
    ensures Phase(x, y, Sequential(x, y.log), if y.lock.Some? then y.threads[y.lock.value] else Idle)
  {
  }

  /** A step of the provider leaves the threads alone, so only the phase is in question. */
  lemma ProviderKeeps<C, S>(x: Setup<C, S>, y: System<C, S>, y': System<C, S>)
    requires Inv(x, y)
    requires y'.lock == y.lock && y'.threads == y.threads && y'.acquired == y.acquired && y'.log == y.log
    requires Phase(x, y', Sequential(x, y.log), if y.lock.Some? then y.threads[y.lock.value] else Idle)
    ensures Inv(x, y')
  {
  }

  lemma TakeKeeps<C, S>(x: Setup<C, S>, y: System<C, S>, n: nat, y': System<C, S>)
    requires Inv(x, y) && Next(x, y, Take(n)) == Some(y')
    ensures Inv(x, y')
  {
    hide Ordered, Framed, Explained, Sequential, Inv;
    PhaseOf(x, y);
    ProviderKeeps(x, y, y');
  }

  lemma TakenKeeps<C, S>(x: Setup<C, S>, y: System<C, S>, y': System<C, S>)
    requires Inv(x, y) && Next(x, y, Taken) == Some(y')
    ensures Inv(x, y')
  {
    hide Framing.WellFramed, FromBigEndian, BigEndian;
    assert y.lock.Some?;
    var pc := y.threads[y.lock.value];
    var request, l := x.encode(pc.call), Sequential(x, y.log);
    var sent := if pc.Sending? then pc.sent else |request|;
    var heard := if pc.Sending? then [] else y.buffer;
    assert Asking(y, l, request, sent, heard);
    assert y.desk.got <= y.desk.got + y.toProvider <= request;
    CompletePrefix(y.desk.got, request);
    hide Complete;
    assert |y.desk.got + y.toProvider| == |request| + |y.toProvider|;
  }

  lemma AnswerKeeps<C, S>(x: Setup<C, S>, y: System<C, S>, y': System<C, S>)
    requires Inv(x, y) && Next(x, y, Answer) == Some(y')
    ensures Inv(x, y')
  {
    hide Ordered, Framed, Explained, Sequential, Inv;
    PhaseOf(x, y);
    ProviderKeeps(x, y, y');
  }

  lemma GiveKeeps<C, S>(x: Setup<C, S>, y: System<C, S>, n: nat, y': System<C, S>)
    requires Inv(x, y) && Next(x, y, Give(n)) == Some(y')
    ensures Inv(x, y')
  {
    hide Ordered, Framed, Explained, Sequential, Inv;
    PhaseOf(x, y);
    ProviderKeeps(x, y, y');
  }

  lemma GivenKeeps<C, S>(x: Setup<C, S>, y: System<C, S>, y': System<C, S>)
    requires Inv(x, y) && Next(x, y, Given) == Some(y')
    ensures Inv(x, y')
  {
    hide Ordered, Framed, Explained, Sequential, Inv;
    PhaseOf(x, y);
    ProviderKeeps(x, y, y');
  }

  lemma StepKeeps<C, S>(x: Setup<C, S>, y: System<C, S>, step: Step<C>, y': System<C, S>)
    requires Inv(x, y) && Next(x, y, step) == Some(y')
    ensures Inv(x, y')
  {
    hide Inv, Next;
    match step
    case Call(t, call) => CallKeeps(x, y, t, call, y');
    case Acquire(t) => AcquireKeeps(x, y, t, y');
    case Serialise(t) => SerialiseKeeps(x, y, t, y');
    case Send(t, n) => SendKeeps(x, y, t, n, y');
    case Sent(t) => SentKeeps(x, y, t, y');
    case Receive(t, n) => ReceiveKeeps(x, y, t, n, y');
    case Decode(t) => DecodeKeeps(x, y, t, y');
    case Lose(t) => LoseKeeps(x, y, t, y');
    case Unlock(t) => UnlockKeeps(x, y, t, y');
    case Take(n) => TakeKeeps(x, y, n, y');
    case Taken => TakenKeeps(x, y, y');
    case Answer => AnswerKeeps(x, y, y');
    case Give(n) => GiveKeeps(x, y, n, y');
    case Given => GivenKeeps(x, y, y');
  }

  lemma {:induction false} RunKeeps<C, S>(x: Setup<C, S>, y: System<C, S>, steps: seq<Step<C>>)
    requires Inv(x, y) && Execute(x, y, steps).Some?
    ensures Inv(x, Execute(x, y, steps).value)
    decreases |steps|
  {
    hide Inv, Next;
    if steps != [] {
      var y' := Next(x, y, steps[0]).value;
      StepKeeps(x, y, steps[0], y');
      RunKeeps(x, y', steps[1..]);
    }
  }

  // ---------------------------------------------------------------- what holds in every run

  ghost predicate Reachable<C(!new), S>(x: Setup<C, S>, y: System<C, S>) {
    exists n: nat, steps: seq<Step<C>> :: Execute(x, Init(x, n), steps) == Some(y)
  }

  lemma ReachableKeeps<C(!new), S>(x: Setup<C, S>, y: System<C, S>)
    requires Reachable(x, y)
    ensures Inv(x, y)
  {
    hide Inv, Execute, Init;
    var n: nat, steps: seq<Step<C>> :| Execute(x, Init(x, n), steps) == Some(y);
    InitIsInvariant(x, n);
    RunKeeps(x, Init(x, n), steps);
  }

  /** Whatever the interleaving and the chunks, a run is a sequential one: calls finish
      in the order in which they took the lock, each with the reply the sequential
      system gives its own request in that order; and whenever the lock is free, the
      provider's state is the sequential one too. */
  lemma RunsLinearise<C(!new), S>(x: Setup<C, S>, y: System<C, S>)
    requires Reachable(x, y)
    ensures Callers(y.log) <= y.acquired && |y.acquired| <= |y.log| + 1
    ensures forall k :: 0 <= k < |y.log| ==> y.log[k].reply == Sequential(x, y.log).replies[k]
    ensures y.lock.None? ==> y.state == Sequential(x, y.log).state && Callers(y.log) == y.acquired
    ensures y.lock.None? ==> (Sequential(x, y.log).alive <==> !y.desk.Gone?)
  {
    ReachableKeeps(x, y);
  }

  /** The lock separates calls completely: while it is free and the provider lives, both
      pipes are empty and the provider has begun to read nothing. */
  lemma QuietWhenFree<C(!new), S>(x: Setup<C, S>, y: System<C, S>)
    requires Reachable(x, y) && y.lock.None? && !y.desk.Gone?
    ensures y.toProvider == [] && y.toClient == []
    ensures Listening(y.desk) && Got(y.desk) == []
    ensures forall t :: 0 <= t < |y.threads| ==> y.threads[t].Idle? || y.threads[t].Blocked?
  {
    ReachableKeeps(x, y);
  }

  predicate Piece(part: seq<byte>, of: seq<byte>) {
    exists i, j :: 0 <= i <= j <= |of| && part == of[i..j]
  }

  /** At most one message is in flight. While the provider lives, one pipe is empty, and
      what is in the other is a piece of the lock holder's request, or of the reply the
      sequential system gives to it. */
  lemma OneMessageInFlight<C(!new), S>(x: Setup<C, S>, y: System<C, S>)
    requires Reachable(x, y) && !y.desk.Gone?
    ensures y.toProvider == [] || y.toClient == []
    ensures y.toProvider != [] || y.toClient != [] ==>
              && y.lock.Some? && y.lock.value < |y.threads| && Active(y.threads[y.lock.value])
              && var request := x.encode(y.threads[y.lock.value].call);
                 && Piece(y.toProvider, request)
                 && (y.toClient != [] ==>
                       var r := x.handle(Sequential(x, y.log).state, request);
                       r.Replies? && Piece(y.toClient, r.reply))
  {
    ReachableKeeps(x, y);
    if y.toProvider != [] || y.toClient != [] {
      var pc := y.threads[y.lock.value];
      var request, l := x.encode(pc.call), Sequential(x, y.log);
      var sent := if pc.Sending? then pc.sent else |request|;
      var heard := if pc.Sending? then [] else y.buffer;
      if Asking(y, l, request, sent, heard) {
        PieceBehind(Got(y.desk), y.toProvider, request, sent);
        assert request[0..0] == [];
      } else {
        assert Replying(x, y, l, request, sent, heard);
        var reply := x.handle(l.state, request).reply;
        PieceBehind(heard, y.toClient, reply, if y.desk.Giving? then y.desk.given else |reply|);
        assert request[0..0] == y.toProvider;
      }
    }
  }

  lemma PieceBehind(front: seq<byte>, part: seq<byte>, of: seq<byte>, upTo: nat)
    requires upTo <= |of| && front + part == of[..upTo]
    ensures Piece(part, of)
  {
    assert part == (front + part)[|front|..];
    assert part == of[|front|..upTo];
  }

  // ---------------------------------------------------------------- progress

  const LIMIT: nat := Framing.MAX_BUFFER_SIZE

  /** What is left to do for the call under way: the holder's writing and reading, and
      in between the provider's. */
  ghost function Work<C, S>(x: Setup<C, S>, y: System<C, S>): nat
    requires y.lock.Some? && y.lock.value < |y.threads| && Active(y.threads[y.lock.value])
  {
    var pc := y.threads[y.lock.value];
    var request, l := x.encode(pc.call), Sequential(x, y.log);
    var answered := pc.Leaving?
                    || (pc.Sending? && Replying(x, y, l, request, pc.sent, []))
                    || (pc.Receiving? && Replying(x, y, l, request, |request|, y.buffer));
    WritingLeft(pc, |request|) + DeskLeft(y.desk, |request|, answered) + ReadingLeft(pc, y.buffer)
  }

  function WritingLeft<C>(pc: Pc<C>, length: nat): nat {
    match pc
    case Locked(_) => length + 2
    case Sending(_, sent) => if sent <= length then length - sent + 1 else 0
    case _ => 0
  }

  function DeskLeft(desk: Desk, length: nat, answered: bool): nat {
    match desk
    case Taking(got) => if answered || |got| > length then 0 else LIMIT + length - |got| + 2
    case Thinking(_) => LIMIT + 1
    case Giving(reply, given) =>
      if !answered then LIMIT + length + 3 else if given <= |reply| then |reply| - given else 0
    case Gone => 0
  }

  function ReadingLeft<C>(pc: Pc<C>, buffer: seq<byte>): nat {
    match pc
    case Receiving(_) => if |buffer| <= LIMIT then LIMIT - |buffer| + 2 else 0
    case Leaving(_, _) => 1
    case _ => LIMIT + 3
  }

  /** The step that gets the call under way on. */
  ghost function Onward<C, S>(x: Setup<C, S>, y: System<C, S>): Step<C>
    requires y.lock.Some? && y.lock.value < |y.threads|
  {
    var t := y.lock.value;
    match y.threads[t]
    case Sending(_, sent) =>
      if y.desk.Gone? then Lose(t) else if sent < |y.buffer| then Send(t, |y.buffer| - sent) else Sent(t)
    case Receiving(_) =>
      if Complete(y.buffer) then Decode(t)
      else if y.toClient != [] then Receive(t, Framing.Min(|y.toClient|, Need(y.buffer)))
      else
        (match y.desk
         case Taking(got) => if Complete(got) then Taken else Take(Framing.Min(|y.toProvider|, Need(got)))
         case Thinking(_) => Answer
         case Giving(reply, given) => if given < |reply| then Give(|reply| - given) else Given
         case Gone => Lose(t))
    case Leaving(_, _) => Unlock(t)
    case _ => Serialise(t)
  }

  /** The reply to the call under way stays below the size limit. */
  ghost predicate ReplyFits<C, S>(x: Setup<C, S>, y: System<C, S>) {
    y.lock.Some? && y.lock.value < |y.threads| && Active(y.threads[y.lock.value]) ==>
      var r := x.handle(Sequential(x, y.log).state, x.encode(y.threads[y.lock.value].call));
      r.Replies? ==> Framing.WellFramed(r.reply)
  }

  /** The holder's next step is enabled and leaves less to do. */
  ghost predicate GetsOn<C, S>(x: Setup<C, S>, y: System<C, S>) {
    && y.lock.Some? && y.lock.value < |y.threads| && Active(y.threads[y.lock.value])
    && var next := Next(x, y, Onward(x, y));
       && next.Some?
       && (next.value.lock.Some? ==>
             && next.value.lock == y.lock && |next.value.threads| == |y.threads|
             && Active(next.value.threads[y.lock.value])
             && next.value.threads[y.lock.value].call == y.threads[y.lock.value].call && next.value.log == y.log
             && Work(x, next.value) < Work(x, y))
  }

  lemma SenderGetsOn<C, S>(x: Setup<C, S>, y: System<C, S>)
    requires Inv(x, y) && y.lock.Some? && !y.threads[y.lock.value].Receiving?
    ensures GetsOn(x, y)
  {
    hide Framing.WellFramed, Explained, Ordered, Sequential, Complete, Need;
  }

  lemma HearerGetsOn<C, S>(x: Setup<C, S>, y: System<C, S>)
    requires Inv(x, y) && y.lock.Some? && y.threads[y.lock.value].Receiving?
    requires Complete(y.buffer) || y.toClient != []
    ensures GetsOn(x, y)
  {
    hide Explained, Ordered, Sequential;
    var request, l := x.encode(y.threads[y.lock.value].call), Sequential(x, y.log);
    assert Replying(x, y, l, request, |request|, y.buffer);
    var reply := x.handle(l.state, request).reply;
    assert |y.buffer + y.toClient| <= |reply|;
    if !Complete(y.buffer) {
      var n := Framing.Min(|y.toClient|, Need(y.buffer));
      assert n > 0;
      assert y.buffer + y.toClient == y.buffer + y.toClient[..n] + y.toClient[n..];
    }
  }

  lemma WholeIsComplete(f: seq<byte>)
    requires Framing.WellFramed(f)
    ensures Complete(f) && f != []
  {
    U32RoundTrip(|f|);
  }

  ghost predicate HolderReceives<C, S>(x: Setup<C, S>, y: System<C, S>, request: seq<byte>) {
    && y.lock.Some? && y.lock.value < |y.threads| && y.threads[y.lock.value].Receiving?
    && request == x.encode(y.threads[y.lock.value].call) && Framing.WellFramed(request)
  }

  /** The holder waits while its request is still being read. */
  lemma AskerGetsOn<C, S>(x: Setup<C, S>, y: System<C, S>, request: seq<byte>)
    requires HolderReceives(x, y, request)
    requires !Complete(y.buffer) && y.toClient == []
    requires Asking(y, Sequential(x, y.log), request, |request|, y.buffer)
    ensures GetsOn(x, y)
  {
    hide Sequential, Complete;
    WholeIsComplete(request);
    var got := Got(y.desk);
    assert got + y.toProvider == request;
    hide Framing.WellFramed;
    if y.desk.Taking? && !Complete(got) {
      assert y.toProvider != [];
      UnfinishedNeeds(got);
      hide Need;
      var n := Framing.Min(|y.toProvider|, Need(got));
      assert |got + y.toProvider[..n]| == |got| + n <= |request|;
    }
  }

  lemma UnfinishedNeeds(got: seq<byte>)
    requires !Complete(got)
    ensures Need(got) > 0
  {
  }

  /** The holder waits while its request is handled, or the provider is gone. */
  lemma PondererGetsOn<C, S>(x: Setup<C, S>, y: System<C, S>, request: seq<byte>)
    requires HolderReceives(x, y, request) && ReplyFits(x, y)
    requires !Complete(y.buffer) && y.toClient == []
    requires Pondering(y, Sequential(x, y.log), request, |request|, y.buffer)
             || Forsaken(x, y, Sequential(x, y.log), request, y.buffer)
    ensures GetsOn(x, y)
  {
    hide Sequential, Complete, Need;
  }

  /** The provider's write call that gives all it has left. */
  lemma RestIsGiven<C, S>(x: Setup<C, S>, y: System<C, S>, l: Ledger<S>, request: seq<byte>)
    requires Replying(x, y, l, request, |request|, y.buffer)
    requires !Complete(y.buffer) && y.toClient == []
    ensures y.desk.Giving? && y.desk.given < |y.desk.reply|
    ensures var rest := y.desk.reply[y.desk.given..];
            var y' := y.(toClient := rest, desk := Giving(y.desk.reply, |y.desk.reply|));
            Replying(x, y', l, request, |request|, y.buffer)
  {
    var reply := x.handle(l.state, request).reply;
    WholeIsComplete(reply);
    hide Complete, Framing.WellFramed;
    assert y.buffer + y.toClient == y.buffer;
    assert reply[..y.desk.given] + reply[y.desk.given..] == reply[..|reply|];
  }

  /** The holder waits while the reply is still being written. */
  lemma ReplierGetsOn<C, S>(x: Setup<C, S>, y: System<C, S>, request: seq<byte>)
    requires HolderReceives(x, y, request)
    requires !Complete(y.buffer) && y.toClient == []
    requires Replying(x, y, Sequential(x, y.log), request, |request|, y.buffer)
    ensures GetsOn(x, y)
  {
    hide Sequential, Complete, Need, Replying, Framing.WellFramed;
    RestIsGiven(x, y, Sequential(x, y.log), request);
    var reply, given := y.desk.reply, y.desk.given;
    assert y.toClient + reply[given..given + (|reply| - given)] == reply[given..];
    assert Next(x, y, Onward(x, y)) == Some(y.(toClient := reply[given..], desk := Giving(reply, |reply|)));
  }

  lemma HolderGetsOn<C, S>(x: Setup<C, S>, y: System<C, S>)
    requires Inv(x, y) && y.lock.Some? && ReplyFits(x, y)
    ensures GetsOn(x, y)
  {
    var pc := y.threads[y.lock.value];
    var request, l := x.encode(pc.call), Sequential(x, y.log);
    hide GetsOn, Exclusive, Ordered, Framed, Explained, Asking, Pondering, Replying, Forsaken, Complete;
    if !pc.Receiving? {
      SenderGetsOn(x, y);
    } else if Complete(y.buffer) || y.toClient != [] {
      HearerGetsOn(x, y);
    } else if Asking(y, l, request, |request|, y.buffer) {
      AskerGetsOn(x, y, request);
    } else if Replying(x, y, l, request, |request|, y.buffer) {
      ReplierGetsOn(x, y, request);
    } else {
      PondererGetsOn(x, y, request);
    }
  }

  lemma {:induction false} HolderCanFinish<C, S>(x: Setup<C, S>, y: System<C, S>)
    returns (steps: seq<Step<C>>, y': System<C, S>)
    requires Inv(x, y) && ReplyFits(x, y)
    ensures Execute(x, y, steps) == Some(y') && y'.lock.None?
    decreases y.lock.Some?,
              if y.lock.Some? && y.lock.value < |y.threads| && Active(y.threads[y.lock.value]) then Work(x, y) else 0
  {
    hide Inv, Next, Work, Active, Onward, Sequential;
    if y.lock.None? {
      return [], y;
    }
    HolderGetsOn(x, y);
    var step := Onward(x, y);
    var next := Next(x, y, step).value;
    StepKeeps(x, y, step, next);
    var more;
    more, y' := HolderCanFinish(x, next);
    steps := [step] + more;
    assert steps[1..] == more;
  }

  /** No call is ever stuck: from every reachable state some run gets the holder of the
      lock to release it, whatever the other threads wait for, unless the reply to it is
      over the size limit. */
  lemma CallsCanFinish<C(!new), S>(x: Setup<C, S>, y: System<C, S>) returns (steps: seq<Step<C>>, y': System<C, S>)
    requires Reachable(x, y) && ReplyFits(x, y)
    ensures Execute(x, y, steps) == Some(y') && y'.lock.None?
  {
    hide Inv, Execute, Reachable;
    ReachableKeeps(x, y);
    steps, y' := HolderCanFinish(x, y);
  }
}
