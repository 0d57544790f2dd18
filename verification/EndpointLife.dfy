/**
 What the runs of two connected endpoints (ucp/core.py) make of each endpoint and of each message:
 when an endpoint is closed, what its counters count, and that messages only go forward.
 */
module EndpointLife {
  import opened Wrappers
  import opened EndpointCounting
  import opened ShutdownProtocol

  // ---------------------------------------------------------------------------------------
  // The endpoint that is closed

  /** The step ends in reaching the receive limit: an old one, or one that it sets. */
  predicate ReachesLimit(me: Half, peer: Half, a: Action) {
    match a
    case Finish(_) => me.ep.closeAfter.Some? && me.ep.finishedRecvCount + 1 >= me.ep.closeAfter.value
    case Limit(n, fromCreation) =>
      me.ep.closeAfter == None && n == if fromCreation then me.ep.finishedRecvCount as int else 0
    case CtrlArrives => peer.ctrl.InFlight? && me.ep.closeAfter == None && peer.ctrl.n == me.ep.finishedRecvCount
    case _ => false
  }

  lemma ReceivingCloses(me: Half, peer: Half, a: Action)
    requires Receiving(me, peer.out, a).Some?
    ensures Receiving(me, peer.out, a).value.0.ep.Closed() <==> me.ep.Closed() || ReachesLimit(me, peer, a)
  {
  }

  lemma ClosingCloses(me: Half, peer: Half, a: Action)
    requires Closing(me, a).Some?
    ensures Closing(me, a).value.ep.Closed()
            <==> me.ep.Closed() || a.EndClose? || a.UserAbort? || a.NativeFails? || ReachesLimit(me, peer, a)
  {
  }

  /** An open endpoint is closed by the end of `close()`, by `abort()`, by an error below and by
      reaching its receive limit, and by nothing else; a closed one stays closed, and no step of the
      peer closes or opens it. */
  lemma ClosesIff(me: Half, peer: Half, a: Action)
    requires HalfStep(me, peer, a).Some?
    ensures var (g, p) := HalfStep(me, peer, a).value;
      && (g.ep.Closed() <==> me.ep.Closed() || a.EndClose? || a.UserAbort? || a.NativeFails? || ReachesLimit(me, peer, a))
      && p.ep == peer.ep
  {
    if a.CtrlArrives? || Sending(me, a).Some? {
    } else if Receiving(me, peer.out, a).Some? {
      ReceivingCloses(me, peer, a);
    } else {
      ClosingCloses(me, peer, a);
    }
  }

  lemma {:induction false} StaysClosed(w: World, s: Side, steps: seq<(Side, Action)>)
    requires w.At(s).ep.Closed() && Run(w, steps).Some?
    ensures Run(w, steps).value.At(s).ep.Closed()
    decreases |steps|
  {
    if steps == [] {
    } else {
      var (side, a) := steps[0];
      ClosesIff(w.At(side), w.At(Other(side)), a);
      StaysClosed(Step(w, side, a).value, s, steps[1..]);
    }
  }

  /** `close()` closes its own endpoint for good: its end is always possible, and whatever happens
      afterwards, the endpoint is closed and refuses every send. */
  lemma CloseEndsEndpoint(w: World, s: Side, steps: seq<(Side, Action)>, c: Channel)
    ensures Step(w, s, EndClose).Some?
    ensures var v := Step(w, s, EndClose).value;
      Run(v, steps).Some? ==>
        var u := Run(v, steps).value;
        u.At(s).ep.Closed() && Step(u, s, Send(c)) == None && Step(u, s, SendFails(c)) == None
  {
    assert Closing(w.At(s), EndClose).Some?;
    ClosesIff(w.At(s), w.At(Other(s)), EndClose);
    var v := Step(w, s, EndClose).value;
    if Run(v, steps).Some? {
      StaysClosed(v, s, steps);
    }
  }

  /** The start of `close()`: on a closed endpoint it releases the native endpoint; the first one on an
      open endpoint writes the number of sends into a shutdown message; a later one changes nothing. */
  lemma CloseTellsOnce(w: World, s: Side)
    requires Reachable(w)
    ensures Step(w, s, BeginClose).Some?
    ensures var me, g := w.At(s), Step(w, s, BeginClose).value.At(s);
      && (me.ep.Closed() ==> g.ep.native.Absent? && g.ctrl == me.ctrl)
      && (!me.ep.Closed() && me.ctrl.Unsent? ==> g.ctrl == InFlight(|me.out.msgs|) && g.ep.native == me.ep.native)
      && (!me.ep.Closed() && !me.ctrl.Unsent? ==> g == me)
  {
    ReachableInv(w);
    assert Closing(w.At(s), BeginClose).Some?;
  }

  // ---------------------------------------------------------------------------------------
  // What the counters count

  function Sends(steps: seq<(Side, Action)>, s: Side): nat {
    if steps == [] then 0
    else (if steps[0].0 == s && (steps[0].1.Send? || steps[0].1.SendFails?) then 1 else 0) + Sends(steps[1..], s)
  }

  function Posts(steps: seq<(Side, Action)>, s: Side): nat {
    if steps == [] then 0
    else (if steps[0].0 == s && steps[0].1.Post? then 1 else 0) + Posts(steps[1..], s)
  }

  function Finishes(steps: seq<(Side, Action)>, s: Side): nat {
    if steps == [] then 0
    else (if steps[0].0 == s && steps[0].1.Finish? then 1 else 0) + Finishes(steps[1..], s)
  }

  lemma ReceivingCounters(me: Half, incoming: Pipe, a: Action)
    requires Receiving(me, incoming, a).Some?
    ensures var g := Receiving(me, incoming, a).value.0;
      && g.ep.sendCount == me.ep.sendCount
      && g.ep.recvCount == me.ep.recvCount + (if a.Post? then 1 else 0)
      && g.ep.finishedRecvCount == me.ep.finishedRecvCount + (if a.Finish? then 1 else 0)
  {
  }

  lemma ClosingCounters(me: Half, a: Action)
    requires Closing(me, a).Some?
    ensures var g := Closing(me, a).value;
      && g.ep.sendCount == me.ep.sendCount && g.ep.recvCount == me.ep.recvCount
      && g.ep.finishedRecvCount == me.ep.finishedRecvCount
  {
  }

  lemma StepCounters(me: Half, peer: Half, a: Action)
    requires HalfStep(me, peer, a).Some?
    ensures var g := HalfStep(me, peer, a).value.0;
      && g.ep.sendCount == me.ep.sendCount + (if a.Send? || a.SendFails? then 1 else 0)
      && g.ep.recvCount == me.ep.recvCount + (if a.Post? then 1 else 0)
      && g.ep.finishedRecvCount == me.ep.finishedRecvCount + (if a.Finish? then 1 else 0)
  {
    if a.CtrlArrives? || Sending(me, a).Some? {
    } else if Receiving(me, peer.out, a).Some? {
      ReceivingCounters(me, peer.out, a);
    } else {
      ClosingCounters(me, a);
    }
  }

  lemma {:induction false} CountersFrom(w: World, steps: seq<(Side, Action)>, s: Side)
    requires Run(w, steps).Some?
    ensures var v := Run(w, steps).value;
      && v.At(s).ep.sendCount == w.At(s).ep.sendCount + Sends(steps, s)
      && v.At(s).ep.recvCount == w.At(s).ep.recvCount + Posts(steps, s)
      && v.At(s).ep.finishedRecvCount == w.At(s).ep.finishedRecvCount + Finishes(steps, s)
    decreases |steps|
  {
    if steps == [] {
    } else {
      var (side, a) := steps[0];
      StepCounters(w.At(side), w.At(Other(side)), a);
      ClosesIff(w.At(side), w.At(Other(side)), a);
      CountersFrom(Step(w, side, a).value, steps[1..], s);
    }
  }

  /** The counters of an endpoint are the sends, the posted receives and the finished receives of the
      run. */
  lemma CountersCountSteps(steps: seq<(Side, Action)>, w: World, s: Side)
    requires Run(CONNECTED, steps) == Some(w)
    ensures w.At(s).ep.sendCount == Sends(steps, s)
    ensures w.At(s).ep.recvCount == Posts(steps, s)
    ensures w.At(s).ep.finishedRecvCount == Finishes(steps, s)
  {
    CountersFrom(CONNECTED, steps, s);
  }

  /** Every posted receive has been matched or still waits, until leaving the native endpoint cancels
      those that wait. */
  ghost predicate ReceivesAccounted(snd: Half, rcv: Half) {
    if rcv.ep.native.Absent? then rcv.posted == multiset{} && |snd.out.matched| <= rcv.ep.recvCount
    else |snd.out.matched| + |rcv.posted| == rcv.ep.recvCount
  }

  lemma OneMorePosted(posted: multiset<Channel>, c: Channel)
    ensures |posted + multiset{c}| == |posted| + 1
    ensures c in posted ==> |posted - multiset{c}| == |posted| - 1
  {
  }

  lemma PostAccounts(me: Half, peer: Half, c: Channel, probed: bool)
    requires ReceivesAccounted(peer, me) && Receiving(me, peer.out, Post(c, probed)).Some?
    ensures var (g, p) := Receiving(me, peer.out, Post(c, probed)).value; ReceivesAccounted(peer, g) && p == peer.out
  {
    OneMorePosted(me.posted, c);
  }

  lemma MatchAccounts(me: Half, peer: Half, id: nat)
    requires ReceivesAccounted(peer, me) && CanMatch(peer.out, me.posted, id)
    ensures var (g, p) := Receiving(me, peer.out, Match(id)).value;
      && g.ep == me.ep && |p.matched| == |peer.out.matched| + 1 && me.ep.native.Held?
      && |g.posted| == |me.posted| - 1
  {
    OneMorePosted(me.posted, peer.out.msgs[id].chan);
  }

  lemma FinishAccounts(me: Half, peer: Half, id: nat)
    requires ReceivesAccounted(peer, me) && Receiving(me, peer.out, Finish(id)).Some?
    ensures var (g, p) := Receiving(me, peer.out, Finish(id)).value;
      ReceivesAccounted(peer, g) && p.matched == peer.out.matched
  {
  }

  lemma ReceivingAccounts(me: Half, peer: Half, a: Action)
    requires ReceivesAccounted(peer, me) && Receiving(me, peer.out, a).Some?
    ensures var (g, p) := Receiving(me, peer.out, a).value; ReceivesAccounted(peer.(out := p), g) && g.out == me.out
  {
    match a
    case Post(c, probed) => PostAccounts(me, peer, c, probed);
    case Match(id) => MatchAccounts(me, peer, id);
    case Finish(id) => FinishAccounts(me, peer, id);
    case RecvFails(_) =>
  }

  lemma ClosingAccounts(me: Half, peer: Half, a: Action)
    requires ReceivesAccounted(peer, me) && Closing(me, a).Some?
    ensures ReceivesAccounted(peer, Closing(me, a).value) && Closing(me, a).value.out == me.out
  {
  }

  lemma StepAccounts(me: Half, peer: Half, a: Action)
    requires ReceivesAccounted(peer, me) && ReceivesAccounted(me, peer) && HalfStep(me, peer, a).Some?
    ensures var (g, p) := HalfStep(me, peer, a).value; ReceivesAccounted(p, g) && ReceivesAccounted(g, p)
  {
    if a.CtrlArrives? || Sending(me, a).Some? {
    } else if Receiving(me, peer.out, a).Some? {
      ReceivingAccounts(me, peer, a);
    } else {
      ClosingAccounts(me, peer, a);
    }
  }

  lemma {:induction false} RunAccounts(w: World, steps: seq<(Side, Action)>)
    requires ReceivesAccounted(w.left, w.right) && ReceivesAccounted(w.right, w.left) && Run(w, steps).Some?
    ensures var v := Run(w, steps).value; ReceivesAccounted(v.left, v.right) && ReceivesAccounted(v.right, v.left)
    decreases |steps|
  {
    if steps == [] {
    } else {
      var (s, a) := steps[0];
      StepAccounts(w.At(s), w.At(Other(s)), a);
      RunAccounts(Step(w, s, a).value, steps[1..]);
    }
  }

  /** In every run no message is handed over without a receive posted for it, and none at all to an
      aborted endpoint. */
  lemma NoMatchWithoutReceive(w: World, s: Side)
    requires Reachable(w)
    ensures |w.At(Other(s)).out.matched| <= w.At(s).ep.recvCount
    ensures w.At(s).ep.native.Held? ==> |w.At(Other(s)).out.matched| + |w.At(s).posted| == w.At(s).ep.recvCount
    ensures w.At(s).ep.native.Absent? ==> forall id :: Step(w, s, Match(id)) == None
  {
    var steps :| Run(CONNECTED, steps) == Some(w);
    RunAccounts(CONNECTED, steps);
  }

  // ---------------------------------------------------------------------------------------
  // The life of a message

  /** A message goes from the net to a receive and is then returned, or lost on the way. */
  predicate Onward(p: Place, q: Place) {
    p == q || p == Net || (p == Ready && q != Net)
  }

  ghost predicate MessagesGoOn(a: seq<Msg>, b: seq<Msg>) {
    |a| <= |b| && forall i :: 0 <= i < |a| ==> Onward(a[i].place, b[i].place) && b[i].chan == a[i].chan
  }

  lemma StepGoesOn(me: Half, peer: Half, a: Action)
    requires HalfStep(me, peer, a).Some?
    ensures var (g, p) := HalfStep(me, peer, a).value;
      && MessagesGoOn(me.out.msgs, g.out.msgs) && MessagesGoOn(peer.out.msgs, p.out.msgs)
      && (a.Send? ==> g.out.msgs == me.out.msgs + [Msg(a.chan, Net)])
      && (a.SendFails? ==> g.out.msgs == me.out.msgs + [Msg(a.chan, Lost)])
  {
    if a.CtrlArrives? || Sending(me, a).Some? {
    } else if Receiving(me, peer.out, a).Some? {
      ReceivingGoesOn(me, peer.out, a);
    } else {
      assert Closing(me, a).value.out == me.out;
    }
  }

  lemma ReceivingGoesOn(me: Half, incoming: Pipe, a: Action)
    requires Receiving(me, incoming, a).Some?
    ensures var (g, p) := Receiving(me, incoming, a).value; g.out == me.out && MessagesGoOn(incoming.msgs, p.msgs)
  {
  }

  lemma {:induction false} RunGoesOn(w: World, steps: seq<(Side, Action)>, s: Side)
    requires Run(w, steps).Some?
    ensures MessagesGoOn(w.At(s).out.msgs, Run(w, steps).value.At(s).out.msgs)
    decreases |steps|
  {
    if steps == [] {
    } else {
      var (side, a) := steps[0];
      StepGoesOn(w.At(side), w.At(Other(side)), a);
      RunGoesOn(Step(w, side, a).value, steps[1..], s);
    }
  }

  /** A message whose submission raised, that was dropped, or whose receive failed, is never received;
      a message that was received stays so. */
  lemma LostForGood(w: World, s: Side, a: Action, id: nat, steps: seq<(Side, Action)>)
    requires Step(w, s, a).Some? && Run(Step(w, s, a).value, steps).Some?
    ensures var msgs := Run(Step(w, s, a).value, steps).value.At(s).out.msgs;
      && (a.SendFails? ==> |w.At(s).out.msgs| < |msgs| && msgs[|w.At(s).out.msgs|] == Msg(a.chan, Lost))
      && (a == Drop(id) ==> IsAt(msgs, id, Lost))
    ensures var msgs := Run(Step(w, s, a).value, steps).value.At(Other(s)).out.msgs;
      && (a == RecvFails(id) ==> IsAt(msgs, id, Lost))
      && (a == Finish(id) ==> IsAt(msgs, id, Finished))
  {
    StepGoesOn(w.At(s), w.At(Other(s)), a);
    RunGoesOn(Step(w, s, a).value, steps, s);
    RunGoesOn(Step(w, s, a).value, steps, Other(s));
  }
}
