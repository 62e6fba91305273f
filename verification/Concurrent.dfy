/**
 The protocol with the real messages in it: threads make file system calls, requests
 and replies are the ones of the proxy's and the stub's tables, and the provider is the
 stub's callback. Concurrent remote calls equal direct calls made one after the other
 in the order of the lock.
 */
module Concurrent {
  import opened Words
  import opened Wire
  import opened WireLaws
  import opened Calls
  import opened Remote
  import opened Sizes
  import opened Transparency
  import Framing
  import Protocol

  /** A call together with the caller's out object. */
  datatype Asked = Asked(call: Call, out: Slot)

  /** The backend's state, and how many requests were handled, which selects the garbage
      in the handler's locals and behind the message. */
  datatype Office<+S> = Office(state: S, turn: nat)

  ghost predicate InDomain(a: Asked) {
    CallOk(a.call) && OutOk(a.call, a.out)
  }

  /** The request of a call; a call outside the domain has none and is never made. */
  ghost function Asks(): (encode: Asked -> seq<byte>)
  {
    (a: Asked) => if InDomain(a) then Request(a.call, a.out) else []
  }

  /** The stub's callback. */
  ghost function Stub<S(!new)>(names: seq<Name>, apply: (S, Call) -> (S, Answer), junk: nat -> Junk,
                               stale: nat -> seq<byte>): ((Office<S>, seq<byte>) -> Protocol.Reaction<Office<S>>)
    requires WellBehaved(apply) && NamesOk(names)
  {
    (o: Office<S>, f: seq<byte>) =>
      var h := Handle(names, apply, o.state, junk(o.turn), f + stale(o.turn), |f|);
      if h.status == RPC_GOOD then Protocol.Replies(Office(h.state, o.turn + 1), h.reply) else Protocol.Refuses
  }

  ghost function StdioFs<S(!new)>(names: seq<Name>, apply: (S, Call) -> (S, Answer), start: S, junk: nat -> Junk,
                                  stale: nat -> seq<byte>): Protocol.Setup<Asked, Office<S>>
    requires WellBehaved(apply) && NamesOk(names)
  {
    Protocol.Setup(Asks(), Stub(names, apply, junk, stale), Office(start, 0))
  }

  /** The backend after direct calls, one after the other. */
  ghost function Directly<S(!new)>(names: seq<Name>, apply: (S, Call) -> (S, Answer), start: S,
                             log: seq<Protocol.Entry<Asked>>): S
    decreases |log|
  {
    if log == [] then start
    else
      var before, call := Directly(names, apply, start, log[..|log| - 1]), log[|log| - 1].call.call;
      if call.ListOperations? then before else apply(before, Arriving(call)).0
  }

  ghost predicate AllInDomain(log: seq<Protocol.Entry<Asked>>) {
    forall k :: 0 <= k < |log| ==> InDomain(log[k].call)
  }

  /** What a call gets back when the backend is called directly. */
  ghost function DirectReply<S(!new)>(names: seq<Name>, apply: (S, Call) -> (S, Answer), before: S, call: Call,
                                      junk: Junk): seq<byte>
    requires WellBehaved(apply) && NamesOk(names)
  {
    AnsweredOk(names, apply, before, Arriving(call));
    Reply(Arriving(call), Answered(names, apply, before, Arriving(call)).1, junk)
  }

  /** The callback answers a request with the direct call's reply. */
  lemma StubReplies<S(!new)>(names: seq<Name>, apply: (S, Call) -> (S, Answer), before: S,
                             junk: nat -> Junk, stale: nat -> seq<byte>, n: nat, a: Asked)
    requires WellBehaved(apply) && NamesOk(names) && InDomain(a)
    ensures Stub(names, apply, junk, stale)(Office(before, n), Asks()(a))
         == Protocol.Replies(Office(Answered(names, apply, before, Arriving(a.call)).0, n + 1),
                             DirectReply(names, apply, before, a.call, junk(n)))
  {
    hide Handle, Reply, Request, AnswerOk, WellBehaved, NamesOk, Answered, CallOk, OutOk;
    var request := Request(a.call, a.out);
    assert (request + stale(n))[..|request|] == request;
    RequestIsHandled(names, apply, before, junk(n), a.call, a.out, request + stale(n), |request|);
  }

  lemma PostIsDirect<S(!new)>(names: seq<Name>, apply: (S, Call) -> (S, Answer), before: S,
                              junk: nat -> Junk, stale: nat -> seq<byte>, n: nat,
                              replies: seq<Option<seq<byte>>>, a: Asked)
    requires WellBehaved(apply) && NamesOk(names) && InDomain(a)
    ensures Protocol.Post(Stub(names, apply, junk, stale), Protocol.Ledger(true, Office(before, n), replies), Asks()(a))
         == Protocol.Ledger(true, Office(Answered(names, apply, before, Arriving(a.call)).0, n + 1),
                            replies + [Some(DirectReply(names, apply, before, a.call, junk(n)))])
  {
    hide Stub, Asks, WellBehaved, NamesOk, Answered, InDomain, DirectReply;
    StubReplies(names, apply, before, junk, stale, n, a);
  }

  /** The call at `k` got the reply of a direct call made after the earlier ones. */
  ghost predicate RepliedDirectly<S(!new)>(names: seq<Name>, apply: (S, Call) -> (S, Answer), start: S,
                                           junk: nat -> Junk, log: seq<Protocol.Entry<Asked>>,
                                           replies: seq<Option<seq<byte>>>, k: nat)
    requires WellBehaved(apply) && NamesOk(names) && k < |log| == |replies|
  {
    replies[k] == Some(DirectReply(names, apply, Directly(names, apply, start, log[..k]), log[k].call.call, junk(k)))
  }

  /** A ledger of direct calls. */
  ghost predicate LedgerIsDirect<S(!new)>(names: seq<Name>, apply: (S, Call) -> (S, Answer), start: S,
                                          junk: nat -> Junk, log: seq<Protocol.Entry<Asked>>,
                                          l: Protocol.Ledger<Office<S>>)
    requires WellBehaved(apply) && NamesOk(names)
  {
    && l.alive && l.state == Office(Directly(names, apply, start, log), |log|) && |l.replies| == |log|
    && forall k :: 0 <= k < |log| ==> RepliedDirectly(names, apply, start, junk, log, l.replies, k)
  }

  lemma AnsweredBy<S(!new)>(names: seq<Name>, apply: (S, Call) -> (S, Answer), s: S, call: Call)
    ensures Answered(names, apply, s, Arriving(call))
         == if call.ListOperations? then (s, Answer(0, Offered(names))) else apply(s, Arriving(call))
  {
  }

  lemma LedgerMore<S(!new)>(names: seq<Name>, apply: (S, Call) -> (S, Answer), start: S, junk: nat -> Junk,
                            log: seq<Protocol.Entry<Asked>>, e: Protocol.Entry<Asked>,
                            l: Protocol.Ledger<Office<S>>)
    requires WellBehaved(apply) && NamesOk(names)
    requires LedgerIsDirect(names, apply, start, junk, log, l)
    ensures var s := Directly(names, apply, start, log);
            LedgerIsDirect(names, apply, start, junk, log + [e],
                           Protocol.Ledger(true, Office(Answered(names, apply, s, Arriving(e.call.call)).0, |log| + 1),
                                           l.replies + [Some(DirectReply(names, apply, s, e.call.call, junk(|log|)))]))
  {
    hide DirectReply, WellBehaved, NamesOk;
    AnsweredBy(names, apply, Directly(names, apply, start, log), e.call.call);
    hide Answered;
    var s := Directly(names, apply, start, log);
    var replies := l.replies + [Some(DirectReply(names, apply, s, e.call.call, junk(|log|)))];
    assert (log + [e])[..|log|] == log;
    forall k | 0 <= k < |log| + 1
      ensures RepliedDirectly(names, apply, start, junk, log + [e], replies, k)
    {
      if k < |log| {
        assert RepliedDirectly(names, apply, start, junk, log, l.replies, k);
        assert (log + [e])[..k] == log[..k];
      }
    }
  }

  /** The sequential system makes direct calls, and never loses one. */
  lemma {:induction false} SequentialIsDirect<S(!new)>(names: seq<Name>, apply: (S, Call) -> (S, Answer), start: S,
                                                       junk: nat -> Junk, stale: nat -> seq<byte>,
                                                       log: seq<Protocol.Entry<Asked>>)
    requires WellBehaved(apply) && NamesOk(names) && AllInDomain(log)
    ensures LedgerIsDirect(names, apply, start, junk, log,
                           Protocol.Sequential(StdioFs(names, apply, start, junk, stale), log))
    decreases |log|
  {
    hide DirectReply, WellBehaved, NamesOk, Answered, InDomain, Protocol.Post, RepliedDirectly, Stub, Asks;
    var x := StdioFs(names, apply, start, junk, stale);
    if log != [] {
      var n := |log| - 1;
      var earlier, e := log[..n], log[n];
      assert log == earlier + [e];
      SequentialIsDirect(names, apply, start, junk, stale, earlier);
      var l := Protocol.Sequential(x, earlier);
      hide Protocol.Sequential, Directly;
      Protocol.SequentialMore(x, earlier, e);
      PostIsDirect(names, apply, l.state.state, junk, stale, n, l.replies, e.call);
      LedgerMore(names, apply, start, junk, earlier, e, l);
    }
  }

  lemma OnlyDomainCalls(a: Asked)
    requires Framing.WellFramed(Asks()(a))
    ensures InDomain(a)
  {
  }

  /** No call is lost, and whenever the lock is free the backend is where the direct
      calls leave it. */
  lemma ProviderNeverGoes<S(!new)>(names: seq<Name>, apply: (S, Call) -> (S, Answer), start: S,
                                   junk: nat -> Junk, stale: nat -> seq<byte>,
                                   y: Protocol.System<Asked, Office<S>>)
    requires WellBehaved(apply) && NamesOk(names)
    requires Protocol.Reachable(StdioFs(names, apply, start, junk, stale), y)
    ensures AllInDomain(y.log) && !y.desk.Gone?
    ensures LedgerIsDirect(names, apply, start, junk, y.log,
                           Protocol.Sequential(StdioFs(names, apply, start, junk, stale), y.log))
    ensures y.lock.None? ==> y.state.state == Directly(names, apply, start, y.log)
    ensures forall k :: 0 <= k < |y.log| ==>
              y.log[k].reply == Protocol.Sequential(StdioFs(names, apply, start, junk, stale), y.log).replies[k]
  {
    hide WellBehaved, NamesOk, Answered, InDomain, Stub, Asks, DirectReply, Protocol.Post, RepliedDirectly;
    var x := StdioFs(names, apply, start, junk, stale);
    Protocol.ReachableKeeps(x, y);
    forall k | 0 <= k < |y.log|
      ensures InDomain(y.log[k].call)
    {
      OnlyDomainCalls(y.log[k].call);
    }
    SequentialIsDirect(names, apply, start, junk, stale, y.log);
    var l := Protocol.Sequential(x, y.log);
    if y.lock.Some? {
      var a := y.threads[y.lock.value].call;
      OnlyDomainCalls(a);
      PostIsDirect(names, apply, l.state.state, junk, stale, |y.log|, l.replies, a);
      assert Protocol.Post(x.handle, l, x.encode(a)).alive;
      if y.desk.Gone? {
        GoneRefuses(x, y, l, a);
      }
    }
  }

  lemma GoneRefuses<S>(x: Protocol.Setup<Asked, Office<S>>, y: Protocol.System<Asked, Office<S>>,
                       l: Protocol.Ledger<Office<S>>, a: Asked)
    requires Protocol.Inv(x, y) && y.lock.Some? && y.desk.Gone?
    requires l == Protocol.Sequential(x, y.log) && l.alive && a == y.threads[y.lock.value].call
    ensures !Protocol.Post(x.handle, l, x.encode(a)).alive
  {
    hide Protocol.Sequential;
  }

  /** The caller of entry `k` got the result of a direct call made after the earlier
      entries, and a robust out object as that call leaves it; `tail` is what its buffer
      held behind the reply. */
  ghost predicate GotDirectly<S(!new)>(names: seq<Name>, apply: (S, Call) -> (S, Answer), start: S, junk: nat -> Junk,
                                       log: seq<Protocol.Entry<Asked>>, k: nat, tail: seq<byte>)
    requires WellBehaved(apply) && NamesOk(names) && AllInDomain(log) && k < |log|
  {
    var call, out := log[k].call.call, log[k].call.out;
    var before := Directly(names, apply, start, log[..k]);
    var answer := if call.ListOperations? then Answer(0, Offered(names)) else apply(before, Arriving(call)).1;
    && InDomain(log[k].call) && log[k].reply.Some? && AnswerOk(Arriving(call), answer)
    && var trip := Finish(before, call, out, log[k].reply.value + tail, |log[k].reply.value|);
       && trip.status == 0 && trip.result == answer.result && trip.out == RemoteOut(call, out, answer, junk(k))
       && (Robust(call, out, answer) ==> trip.out == DirectOut(call, out, answer))
  }

  lemma DirectReplyIsGot<S(!new)>(names: seq<Name>, apply: (S, Call) -> (S, Answer), start: S, junk: nat -> Junk,
                                  log: seq<Protocol.Entry<Asked>>, replies: seq<Option<seq<byte>>>, k: nat,
                                  tail: seq<byte>)
    requires WellBehaved(apply) && NamesOk(names) && AllInDomain(log)
    requires k < |log| == |replies| && TextOk(junk(k).text)
    requires RepliedDirectly(names, apply, start, junk, log, replies, k) && log[k].reply == replies[k]
    ensures GotDirectly(names, apply, start, junk, log, k, tail)
  {
    hide WellBehaved, NamesOk, AnswerOk, CallOk, OutOk, RemoteOut, ResultOf, OutOf;
    hide DeserializeRows, MethodId, ProxyMem, ProxyOut, MethodOf, Directly, DirectOut, Robust, Arriving;
    var call, out := log[k].call.call, log[k].call.out;
    assert InDomain(log[k].call);
    var before := Directly(names, apply, start, log[..k]);
    AnsweredOk(names, apply, before, Arriving(call));
    AnsweredBy(names, apply, before, call);
    var answer := Answered(names, apply, before, Arriving(call)).1;
    var reply := log[k].reply.value;
    RobustSurvives(call, out, answer, junk(k));
    assert (reply + tail)[..|reply|] == reply;
    var r := ReplyArrives(call, out, answer, junk(k), reply + tail, |reply|);
  }

  /** Concurrent transparency. However the threads interleave and the pipes chunk, every
      finished call gave its caller the result of a direct call, made after exactly the
      calls that had the lock before it, and left a robust out object as that call does. */
  lemma ConcurrentCallsAreDirect<S(!new)>(names: seq<Name>, apply: (S, Call) -> (S, Answer), start: S,
                                          junk: nat -> Junk, stale: nat -> seq<byte>,
                                          y: Protocol.System<Asked, Office<S>>)
    requires WellBehaved(apply) && NamesOk(names)
    requires Protocol.Reachable(StdioFs(names, apply, start, junk, stale), y)
    ensures AllInDomain(y.log)
    ensures forall k, tail :: 0 <= k < |y.log| && TextOk(junk(k).text) ==>
              GotDirectly(names, apply, start, junk, y.log, k, tail)
  {
    hide WellBehaved, NamesOk, Stub, Asks, Protocol.Reachable, GotDirectly, RepliedDirectly, TextOk, AllInDomain;
    ProviderNeverGoes(names, apply, start, junk, stale, y);
    var l := Protocol.Sequential(StdioFs(names, apply, start, junk, stale), y.log);
    hide Protocol.Sequential;
    forall k, tail | 0 <= k < |y.log| && TextOk(junk(k).text)
      ensures GotDirectly(names, apply, start, junk, y.log, k, tail)
    {
      DirectReplyIsGot(names, apply, start, junk, y.log, l.replies, k, tail);
    }
  }

  /** The backend's answer to the call under way makes a reply below the size limit. */
  ghost predicate NextReplyFits<S(!new)>(names: seq<Name>, apply: (S, Call) -> (S, Answer), start: S,
                                         junk: nat -> Junk, y: Protocol.System<Asked, Office<S>>)
  {
    y.lock.Some? && y.lock.value < |y.threads| && Protocol.Active(y.threads[y.lock.value]) ==>
      var call, before := y.threads[y.lock.value].call.call, Directly(names, apply, start, y.log);
      ReplySize(call, Answered(names, apply, before, Arriving(call)).1, junk(|y.log|)) < Framing.MAX_BUFFER_SIZE
  }

  lemma DirectReplyFits<S(!new)>(names: seq<Name>, apply: (S, Call) -> (S, Answer), before: S, a: Asked, junk: Junk)
    requires WellBehaved(apply) && NamesOk(names) && InDomain(a)
    requires ReplySize(a.call, Answered(names, apply, before, Arriving(a.call)).1, junk) < Framing.MAX_BUFFER_SIZE
    ensures Framing.WellFramed(DirectReply(names, apply, before, a.call, junk))
  {
    var call := Arriving(a.call);
    AnsweredOk(names, apply, before, call);
    var answer := Answered(names, apply, before, call).1;
    MessagesHaveSize(a.call, a.out, answer, junk);
    ReplyLoads(call, answer, junk);
    hide ReplySize, AnswerOk, StubOut, ReplyMem, MethodOf, SerializeRows, Arriving, Frame, WellBehaved, NamesOk, CallOk;
    FramesCountThemselves(MethodOf(call), SerializeRows(StubOut(MethodOf(call)), ReplyMem(call, answer, junk)).payload);
  }

  /** No file system call is ever stuck, as long as the backend's answer to it makes a
      reply below the size limit. */
  lemma CallsFinish<S(!new)>(names: seq<Name>, apply: (S, Call) -> (S, Answer), start: S,
                             junk: nat -> Junk, stale: nat -> seq<byte>, y: Protocol.System<Asked, Office<S>>)
    returns (steps: seq<Protocol.Step<Asked>>, y': Protocol.System<Asked, Office<S>>)
    requires WellBehaved(apply) && NamesOk(names) && NextReplyFits(names, apply, start, junk, y)
    requires Protocol.Reachable(StdioFs(names, apply, start, junk, stale), y)
    ensures Protocol.Execute(StdioFs(names, apply, start, junk, stale), y, steps) == Some(y') && y'.lock.None?
  {
    hide WellBehaved, NamesOk, Answered, InDomain, Stub, Asks, DirectReply, RepliedDirectly, ReplySize;
    var x := StdioFs(names, apply, start, junk, stale);
    Protocol.ReachableKeeps(x, y);
    ProviderNeverGoes(names, apply, start, junk, stale, y);
    var l := Protocol.Sequential(x, y.log);
    if y.lock.Some? {
      var a := y.threads[y.lock.value].call;
      OnlyDomainCalls(a);
      PostIsDirect(names, apply, l.state.state, junk, stale, |y.log|, l.replies, a);
      DirectReplyFits(names, apply, l.state.state, a, junk(|y.log|));
      PostReplies(x, l, x.encode(a));
    }
    assert Protocol.ReplyFits(x, y);
    hide Protocol.Inv, Protocol.Sequential, Protocol.Execute, Protocol.Reachable;
    steps, y' := Protocol.CallsCanFinish(x, y);
  }

  lemma PostReplies<S>(x: Protocol.Setup<Asked, Office<S>>, l: Protocol.Ledger<Office<S>>, request: seq<byte>)
    requires l.alive && Protocol.Post(x.handle, l, request).alive
    ensures x.handle(l.state, request).Replies?
    ensures Protocol.Post(x.handle, l, request).replies == l.replies + [Some(x.handle(l.state, request).reply)]
    ensures Protocol.Post(x.handle, l, request).replies[|l.replies|] == Some(x.handle(l.state, request).reply)
  {
  }
}
