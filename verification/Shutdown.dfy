/**
 Two connected endpoints and everything that can happen between them: counted sends, receives
 that are posted, matched and later resumed, the control message, user aborts, receive limits,
 native errors and lost messages, in any interleaving.
 */
module ShutdownProtocol {
  import opened Wrappers
  import opened EndpointCounting

  /** What a message is matched by: a tag (in order of sending) or the active-message queue. */
  datatype Channel = Tag(tag: nat) | Am

  /** Where a counted message is: on the way, matched to a receive whose coroutine has not
      resumed, returned by a receive, or lost (its submission raised, it was dropped, or the
      receive that took it failed). */
  datatype Place = Net | Ready | Finished | Lost

  datatype Msg = Msg(chan: Channel, place: Place)

  /** The counted messages of one direction by their number in the sender's count, and the
      numbers in the order of matching. */
  datatype Pipe = Pipe(msgs: seq<Msg>, matched: seq<nat>)

  function Moved(p: Pipe, id: nat, place: Place): Pipe
    requires id < |p.msgs|
  {
    p.(msgs := p.msgs[id := p.msgs[id].(place := place)])
  }

  /** The shutdown message of one direction. */
  datatype Ctrl = Unsent | InFlight(n: nat) | Handled(n: nat) | Dropped(n: nat)

  datatype Cause = ByShutdown | ByOther

  /** One endpoint with its outgoing messages and its posted receives. `taken` records that the
      peer's shutdown message was accepted, `handled` how its handler ended, `cause` why the endpoint
      was aborted. */
  datatype Half = Half(
    ep: EpState,
    out: Pipe,
    ctrl: Ctrl,
    posted: multiset<Channel>,
    taken: bool,
    handled: Option<CtrlOutcome>,
    cause: Option<Cause>)

  datatype Action =
    | Send(chan: Channel)
    | SendFails(chan: Channel)
    | Post(chan: Channel, probed: bool)
    | Match(id: nat)
    | Finish(id: nat)
    | RecvFails(id: nat)
    | BeginClose
    | EndClose
    | UserAbort
    | CtrlArrives
    | CtrlLost
    | Limit(n: int, fromCreation: bool)
    | NativeFails(keepsInitialized: bool)
    | Drop(id: nat)

  /** Moves to `ep`; leaving the native endpoint cancels the receives posted on it. */
  function Become(me: Half, ep: EpState, cause: Cause): Half {
    if me.ep.native.Held? && ep.native.Absent? then
      me.(ep := ep, posted := multiset{}, cause := Some(cause))
    else me.(ep := ep)
  }

  function Submit(me: Half, c: Channel, fails: bool): Half {
    me.(ep := SendStart(me.ep),
        out := me.out.(msgs := me.out.msgs + [Msg(c, if fails then Lost else Net)]))
  }

  predicate IsAt(msgs: seq<Msg>, id: nat, place: Place) {
    id < |msgs| && msgs[id].place == place
  }

  /** A tag receive takes the oldest message with its tag; active messages come in any order. */
  predicate CanMatch(p: Pipe, posted: multiset<Channel>, id: nat) {
    && IsAt(p.msgs, id, Net)
    && p.msgs[id].chan in posted
    && (p.msgs[id].chan.Tag? ==> forall j: nat :: j < id && IsAt(p.msgs, j, Net) ==> p.msgs[j].chan != p.msgs[id].chan)
  }

  /** Steps that only concern what `me` sends. `None` where the code raises before changing
      anything, or where the event cannot happen. */
  function Sending(me: Half, a: Action): Option<Half> {
    match a
    case Send(c) => if me.ep.Closed() then None else Some(Submit(me, c, false))
    case SendFails(c) => if me.ep.Closed() then None else Some(Submit(me, c, true))
    case Drop(id) =>
      if !IsAt(me.out.msgs, id, Net) then None else Some(me.(out := Moved(me.out, id, Lost)))
    case _ => None
  }

  /** Steps of a receive on `me`, which move the peer's messages. */
  function Receiving(me: Half, incoming: Pipe, a: Action): Option<(Half, Pipe)> {
    match a
    case Post(c, probed) =>
      if me.ep.native.Absent? || (me.ep.Closed() && !probed) then None
      else Some((me.(ep := RecvStart(me.ep), posted := me.posted + multiset{c}), incoming))
    case Match(id) =>
      if !CanMatch(incoming, me.posted, id) then None
      else
        var p := Moved(incoming, id, Ready);
        Some((me.(posted := me.posted - multiset{p.msgs[id].chan}), p.(matched := p.matched + [id])))
    case Finish(id) =>
      if !IsAt(incoming.msgs, id, Ready) then None
      else Some((Become(me, RecvFinish(me.ep), if me.taken then ByShutdown else ByOther),
                 Moved(incoming, id, Finished)))
    case RecvFails(id) =>
      if !IsAt(incoming.msgs, id, Ready) then None else Some((me, Moved(incoming, id, Lost)))
    case _ => None
  }

  /** Steps that only concern the endpoint `me` and its shutdown message. */
  function Closing(me: Half, a: Action): Option<Half> {
    match a
    case BeginClose =>
      var (ep, step) := CloseStart(me.ep);
      var moved := Become(me, ep, ByOther);
      Some(if step.TellPeer? then moved.(ctrl := InFlight(step.closeAfterNRecv)) else moved)
    case EndClose => Some(Become(me, CloseFinish(me.ep), ByOther))
    case UserAbort => Some(Become(me, Abort(me.ep), ByOther))
    case CtrlLost => if !me.ctrl.InFlight? then None else Some(me.(ctrl := Dropped(me.ctrl.n)))
    case Limit(n, c) => Some(Become(me, CloseAfterNRecv(me.ep, n, c).0, ByOther))
    case NativeFails(i) =>
      if me.ep.native.Absent? then None
      else Some(me.(ep := me.ep.(native := Held(me.ep.native.initialized && i, me.ep.native.alive && !i))))
    case _ => None
  }

  /** The control callback of `me` runs with the peer's message `n`. */
  function TakeCtrl(me: Half, n: nat): Half {
    var (ep, outcome) := HandleCtrlMsg(me.ep, false, 1, n);
    var ok := outcome == CtrlTaken(Accepted);
    Become(me, ep, if ok then ByShutdown else ByOther).(taken := ok, handled := Some(outcome))
  }

  /** The step of one endpoint, given its peer. */
  function HalfStep(me: Half, peer: Half, a: Action): Option<(Half, Half)> {
    if a.CtrlArrives? then
      if !peer.ctrl.InFlight? then None
      else Some((TakeCtrl(me, peer.ctrl.n), peer.(ctrl := Handled(peer.ctrl.n))))
    else
      match (Sending(me, a), Receiving(me, peer.out, a), Closing(me, a))
      case (Some(h), _, _) => Some((h, peer))
      case (_, Some((h, p)), _) => Some((h, peer.(out := p)))
      case (_, _, Some(h)) => Some((h, peer))
      case _ => None
  }

  // ---------------------------------------------------------------------------------------
  // The invariant of one direction

  function CountFinished(msgs: seq<Msg>): (r: nat)
    ensures r <= |msgs|
  {
    if msgs == [] then 0
    else CountFinished(msgs[..|msgs| - 1]) + if msgs[|msgs| - 1].place == Finished then 1 else 0
  }

  lemma {:induction false} CountMoved(msgs: seq<Msg>, id: nat, m: Msg)
    requires id < |msgs| && msgs[id].place != Finished
    ensures CountFinished(msgs[id := m]) == CountFinished(msgs) + if m.place == Finished then 1 else 0
  {
    var last := |msgs| - 1;
    if id < last {
      assert msgs[id := m][..last] == msgs[..last][id := m];
      CountMoved(msgs[..last], id, m);
    } else {
      assert msgs[id := m][..last] == msgs[..last];
    }
  }

  lemma {:induction false} AllFinished(msgs: seq<Msg>)
    requires CountFinished(msgs) == |msgs|
    ensures forall i :: 0 <= i < |msgs| ==> msgs[i].place == Finished
  {
    if msgs == [] {
    } else {
      AllFinished(msgs[..|msgs| - 1]);
    }
  }

  predicate SameTag(msgs: seq<Msg>, i: nat, j: nat) {
    i < |msgs| && j < |msgs| && msgs[i].chan.Tag? && msgs[i].chan == msgs[j].chan
  }

  /** Per tag, messages are matched in the order in which they were sent. */
  ghost predicate InOrder(p: Pipe) {
    && (forall i :: 0 <= i < |p.matched| ==> p.matched[i] < |p.msgs| && p.msgs[p.matched[i]].place != Net)
    && (forall i, j :: 0 <= i < j < |p.matched| && SameTag(p.msgs, p.matched[i], p.matched[j]) ==>
          p.matched[i] < p.matched[j])
    && (forall i, id :: 0 <= i < |p.matched| && IsAt(p.msgs, id, Net) && SameTag(p.msgs, p.matched[i], id) ==>
          p.matched[i] < id)
  }

  /** No send was counted after `close()` took its snapshot. The code does not prevent one. */
  predicate Punctual(h: Half) {
    h.ctrl.Unsent? || h.ctrl.n == h.ep.sendCount
  }

  ghost predicate CtrlInv(snd: Half, rcv: Half) {
    && (snd.ctrl.Unsent? <==> !snd.ep.shuttingDownPeer)
    && (!snd.ctrl.Unsent? ==> snd.ctrl.n <= snd.ep.sendCount)
    && (snd.ctrl.Unsent? || snd.ctrl.InFlight? ==> !rcv.taken && rcv.handled == None)
    && (rcv.taken ==>
          && snd.ctrl.Handled?
          && rcv.handled == Some(CtrlTaken(Accepted))
          && (rcv.ep.native.Held? ==> rcv.ep.closeAfter == Some(snd.ctrl.n)
                                      && rcv.ep.finishedRecvCount < snd.ctrl.n))
    && (rcv.cause == None <==> rcv.ep.native.Held?)
    && (rcv.cause == Some(ByShutdown) ==> rcv.taken && rcv.ep.finishedRecvCount >= snd.ctrl.n)
    && (rcv.handled == Some(CtrlTaken(TooFew)) ==> snd.ctrl.Handled? && rcv.ep.finishedRecvCount > snd.ctrl.n)
  }

  ghost predicate PipeInv(snd: Half, rcv: Half) {
    && |snd.out.msgs| == snd.ep.sendCount
    && InOrder(snd.out)
    && rcv.ep.finishedRecvCount == CountFinished(snd.out.msgs)
  }

  ghost predicate DirInv(snd: Half, rcv: Half) {
    PipeInv(snd, rcv) && CtrlInv(snd, rcv)
  }

  lemma MovedInOrder(p: Pipe, id: nat, place: Place)
    requires InOrder(p) && id < |p.msgs| && place != Net
    ensures InOrder(Moved(p, id, place))
  {
    var q := Moved(p, id, place);
    assert forall i: nat, j: nat :: SameTag(q.msgs, i, j) == SameTag(p.msgs, i, j);
    assert forall i: nat :: IsAt(q.msgs, i, Net) ==> IsAt(p.msgs, i, Net);
  }

  lemma MatchInOrder(p: Pipe, posted: multiset<Channel>, id: nat)
    requires InOrder(p) && CanMatch(p, posted, id)
    ensures var q := Moved(p, id, Ready); InOrder(q.(matched := q.matched + [id]))
  {
    MovedInOrder(p, id, Ready);
    var q := Moved(p, id, Ready);
    forall i | 0 <= i < |p.matched| && SameTag(q.msgs, p.matched[i], id)
      ensures p.matched[i] < id
    {
      assert SameTag(p.msgs, p.matched[i], id);
    }
    forall j: nat | IsAt(q.msgs, j, Net) && SameTag(q.msgs, id, j)
      ensures id < j
    {
      assert IsAt(p.msgs, j, Net);
    }
  }

  lemma SubmitInOrder(p: Pipe, m: Msg)
    requires InOrder(p) && m.place != Finished
    ensures InOrder(p.(msgs := p.msgs + [m]))
    ensures CountFinished(p.msgs + [m]) == CountFinished(p.msgs)
  {
    var q := p.(msgs := p.msgs + [m]);
    assert q.msgs[..|p.msgs|] == p.msgs;
    assert forall i: nat, j: nat :: i < |p.msgs| && j < |p.msgs| ==> SameTag(q.msgs, i, j) == SameTag(p.msgs, i, j);
    assert forall i: nat :: i < |p.msgs| ==> IsAt(q.msgs, i, Net) == IsAt(p.msgs, i, Net);
  }

  lemma SendingKeepsInv(me: Half, peer: Half, a: Action)
    requires DirInv(me, peer) && DirInv(peer, me) && Sending(me, a).Some?
    ensures var me' := Sending(me, a).value; DirInv(me', peer) && DirInv(peer, me')
  {
    match a
    case Send(c) => SubmitInOrder(me.out, Msg(c, Net));
    case SendFails(c) => SubmitInOrder(me.out, Msg(c, Lost));
    case Drop(id) =>
      MovedInOrder(me.out, id, Lost);
      CountMoved(me.out.msgs, id, me.out.msgs[id].(place := Lost));
  }

  lemma FinishKeepsPipes(me: Half, peer: Half, id: nat)
    requires DirInv(me, peer) && DirInv(peer, me) && Receiving(me, peer.out, Finish(id)).Some?
    ensures var (me', p) := Receiving(me, peer.out, Finish(id)).value;
      PipeInv(me', peer.(out := p)) && PipeInv(peer.(out := p), me')
  {
    MovedInOrder(peer.out, id, Finished);
    CountMoved(peer.out.msgs, id, peer.out.msgs[id].(place := Finished));
  }

  lemma FinishKeepsCtrl(me: Half, peer: Half, id: nat)
    requires DirInv(me, peer) && DirInv(peer, me) && Receiving(me, peer.out, Finish(id)).Some?
    ensures var (me', p) := Receiving(me, peer.out, Finish(id)).value;
      CtrlInv(me', peer.(out := p)) && CtrlInv(peer.(out := p), me')
  {
  }

  lemma FinishKeepsInv(me: Half, peer: Half, id: nat)
    requires DirInv(me, peer) && DirInv(peer, me) && Receiving(me, peer.out, Finish(id)).Some?
    ensures var (me', p) := Receiving(me, peer.out, Finish(id)).value;
      DirInv(me', peer.(out := p)) && DirInv(peer.(out := p), me')
  {
    FinishKeepsPipes(me, peer, id);
    FinishKeepsCtrl(me, peer, id);
  }

  lemma ReceivingKeepsInv(me: Half, peer: Half, a: Action)
    requires DirInv(me, peer) && DirInv(peer, me) && Receiving(me, peer.out, a).Some?
    ensures var (me', p) := Receiving(me, peer.out, a).value;
      DirInv(me', peer.(out := p)) && DirInv(peer.(out := p), me')
  {
    match a
    case Post(_, _) =>
    case Match(id) =>
      MatchInOrder(peer.out, me.posted, id);
      CountMoved(peer.out.msgs, id, peer.out.msgs[id].(place := Ready));
    case Finish(id) => FinishKeepsInv(me, peer, id);
    case RecvFails(id) =>
      MovedInOrder(peer.out, id, Lost);
      CountMoved(peer.out.msgs, id, peer.out.msgs[id].(place := Lost));
  }

  lemma ClosingKeepsOut(me: Half, peer: Half, a: Action)
    requires DirInv(me, peer) && Closing(me, a).Some?
    ensures DirInv(Closing(me, a).value, peer)
  {
    var me' := Closing(me, a).value;
    assert me'.out == me.out && me'.ep.sendCount == me.ep.sendCount;
    assert PipeInv(me', peer);
    assert a.BeginClose? || a.CtrlLost? || (me'.ctrl == me.ctrl && me'.ep.shuttingDownPeer == me.ep.shuttingDownPeer);
  }

  lemma ClosingKeepsIn(me: Half, peer: Half, a: Action)
    requires DirInv(peer, me) && Closing(me, a).Some?
    ensures DirInv(peer, Closing(me, a).value)
  {
  }

  lemma TakeCtrlKeepsInv(me: Half, peer: Half)
    requires DirInv(me, peer) && DirInv(peer, me) && peer.ctrl.InFlight?
    ensures var me', peer' := TakeCtrl(me, peer.ctrl.n), peer.(ctrl := Handled(peer.ctrl.n));
      DirInv(me', peer') && DirInv(peer', me')
  {
  }

  lemma StepKeepsInv(me: Half, peer: Half, a: Action)
    requires DirInv(me, peer) && DirInv(peer, me) && HalfStep(me, peer, a).Some?
    ensures var (me', peer') := HalfStep(me, peer, a).value; DirInv(me', peer') && DirInv(peer', me')
  {
    if a.CtrlArrives? {
      TakeCtrlKeepsInv(me, peer);
    } else if Sending(me, a).Some? {
      SendingKeepsInv(me, peer, a);
    } else if Receiving(me, peer.out, a).Some? {
      ReceivingKeepsInv(me, peer, a);
    } else {
      ClosingKeepsOut(me, peer, a);
      ClosingKeepsIn(me, peer, a);
    }
  }

  // ---------------------------------------------------------------------------------------
  // Runs

  datatype Side = Left | Right

  function Other(s: Side): Side {
    if s.Left? then Right else Left
  }

  datatype World = World(left: Half, right: Half)
  {
    function At(s: Side): Half {
      if s.Left? then left else right
    }
  }

  const FRESH_HALF := Half(FRESH_ENDPOINT, Pipe([], []), Unsent, multiset{}, false, None, None)

  const CONNECTED := World(FRESH_HALF, FRESH_HALF)

  function Step(w: World, s: Side, a: Action): Option<World> {
    match HalfStep(w.At(s), w.At(Other(s)), a)
    case None => None
    case Some((me, peer)) => Some(if s.Left? then World(me, peer) else World(peer, me))
  }

  function Run(w: World, steps: seq<(Side, Action)>): Option<World>
    decreases |steps|
  {
    if steps == [] then Some(w)
    else
      match Step(w, steps[0].0, steps[0].1)
      case None => None
      case Some(v) => Run(v, steps[1..])
  }

  ghost predicate Inv(w: World) {
    DirInv(w.left, w.right) && DirInv(w.right, w.left)
  }

  ghost predicate Reachable(w: World) {
    exists steps :: Run(CONNECTED, steps) == Some(w)
  }

  lemma {:induction false} RunKeepsInv(w: World, steps: seq<(Side, Action)>)
    requires Inv(w) && Run(w, steps).Some?
    ensures Inv(Run(w, steps).value)
    decreases |steps|
  {
    if steps == [] {
    } else {
      var (s, a) := steps[0];
      StepKeepsInv(w.At(s), w.At(Other(s)), a);
      RunKeepsInv(Step(w, s, a).value, steps[1..]);
    }
  }

  lemma ReachableInv(w: World)
    requires Reachable(w)
    ensures Inv(w)
  {
    var steps :| Run(CONNECTED, steps) == Some(w);
    RunKeepsInv(CONNECTED, steps);
  }

  /** From `h` to `g`, `late` sends were counted after the shutdown message was written. */
  predicate CountsLate(h: Half, g: Half, late: nat) {
    if h.ctrl.Unsent? then late == 0 && (g.ctrl.Unsent? || g.ctrl.n == g.ep.sendCount)
    else !g.ctrl.Unsent? && g.ctrl.n == h.ctrl.n && g.ep.sendCount == h.ep.sendCount + late
  }

  function IsLate(h: Half, a: Action): nat {
    if (a.Send? || a.SendFails?) && !h.ctrl.Unsent? then 1 else 0
  }

  /** The sends that `s` counts in a run after its shutdown message was written. */
  function LateSends(w: World, steps: seq<(Side, Action)>, s: Side): nat
    requires Run(w, steps).Some?
    decreases |steps|
  {
    if steps == [] then 0
    else
      var (side, a) := steps[0];
      (if side == s then IsLate(w.At(s), a) else 0) + LateSends(Step(w, side, a).value, steps[1..], s)
  }

  lemma ReceivingCountsNone(me: Half, incoming: Pipe, a: Action)
    requires Receiving(me, incoming, a).Some?
    ensures var g := Receiving(me, incoming, a).value.0;
      g.ctrl == me.ctrl && g.ep.sendCount == me.ep.sendCount
  {
  }

  lemma ClosingCountsNone(me: Half, peer: Half, a: Action)
    requires CtrlInv(me, peer) && Closing(me, a).Some?
    ensures CountsLate(me, Closing(me, a).value, 0)
  {
    var g := Closing(me, a).value;
    assert g.ep.sendCount == me.ep.sendCount;
    if !a.BeginClose? && !a.CtrlLost? {
      assert g.ctrl == me.ctrl;
    }
  }

  lemma ActingCountsLate(me: Half, peer: Half, a: Action)
    requires CtrlInv(me, peer) && HalfStep(me, peer, a).Some?
    ensures CountsLate(me, HalfStep(me, peer, a).value.0, IsLate(me, a))
  {
    if a.CtrlArrives? || Sending(me, a).Some? {
    } else if Receiving(me, peer.out, a).Some? {
      ReceivingCountsNone(me, peer.out, a);
    } else {
      ClosingCountsNone(me, peer, a);
    }
  }

  lemma PeerCountsLate(me: Half, peer: Half, a: Action)
    requires HalfStep(me, peer, a).Some?
    ensures CountsLate(peer, HalfStep(me, peer, a).value.1, 0)
  {
    assert HalfStep(me, peer, a).value.1.ep == peer.ep;
  }

  lemma StepCountsLate(w: World, side: Side, a: Action, s: Side)
    requires Inv(w) && Step(w, side, a).Some?
    ensures CountsLate(w.At(s), Step(w, side, a).value.At(s), if side == s then IsLate(w.At(s), a) else 0)
  {
    ActingCountsLate(w.At(side), w.At(Other(side)), a);
    PeerCountsLate(w.At(side), w.At(Other(side)), a);
  }

  /** `late` sends were counted from `h` to `g` after the shutdown message, wherever it was written. */
  predicate CountedLate(h: Half, g: Half, late: nat) {
    if !h.ctrl.Unsent? then
      !g.ctrl.Unsent? && g.ctrl.n == h.ctrl.n && g.ep.sendCount == h.ep.sendCount + late
    else if g.ctrl.Unsent? then late == 0
    else g.ep.sendCount == g.ctrl.n + late
  }

  lemma CountsOn(h: Half, g: Half, k: Half, m: nat, n: nat)
    requires CountsLate(h, g, m) && CountedLate(g, k, n)
    ensures CountedLate(h, k, m + n)
  {
  }

  lemma {:induction false} RunCountsLate(w: World, steps: seq<(Side, Action)>, s: Side)
    requires Inv(w) && Run(w, steps).Some?
    ensures CountedLate(w.At(s), Run(w, steps).value.At(s), LateSends(w, steps, s))
    decreases |steps|
  {
    if steps == [] {
    } else {
      var (side, a) := steps[0];
      var v := Step(w, side, a).value;
      StepKeepsInv(w.At(side), w.At(Other(side)), a);
      StepCountsLate(w, side, a, s);
      RunCountsLate(v, steps[1..], s);
      CountsOn(w.At(s), v.At(s), Run(w, steps).value.At(s),
               if side == s then IsLate(w.At(s), a) else 0, LateSends(v, steps[1..], s));
    }
  }

  /** An endpoint is punctual exactly when it has counted no send since it wrote its shutdown
      message, so the number in that message is the number of sends counted before it. */
  lemma PunctualIffNoLateSend(w: World, steps: seq<(Side, Action)>, s: Side)
    requires Run(CONNECTED, steps) == Some(w)
    ensures Punctual(w.At(s)) <==> LateSends(CONNECTED, steps, s) == 0
  {
    RunCountsLate(CONNECTED, steps, s);
  }

  // ---------------------------------------------------------------------------------------
  // Shutdown

  /** An endpoint that the peer's shutdown message aborted has finished receiving every message
      its punctual peer counted: none is lost, waiting, or on the way. */
  lemma ShutdownLosesNothing(w: World, closer: Side)
    requires Reachable(w) && Punctual(w.At(closer))
    requires w.At(Other(closer)).cause == Some(ByShutdown)
    ensures w.At(Other(closer)).ep.finishedRecvCount == |w.At(closer).out.msgs| == w.At(closer).ep.sendCount
    ensures forall i :: 0 <= i < w.At(closer).ep.sendCount ==> w.At(closer).out.msgs[i].place == Finished
  {
    ReachableInv(w);
    AllFinished(w.At(closer).out.msgs);
  }

  /** Once the shutdown message is accepted, the endpoint is aborted because of it exactly when
      it has finished as many receives as its punctual peer counted sends. */
  lemma ShutdownFiresExactly(w: World, closer: Side)
    requires Reachable(w) && Punctual(w.At(closer)) && w.At(Other(closer)).taken
    requires w.At(Other(closer)).cause != Some(ByOther)
    ensures w.At(Other(closer)).cause == Some(ByShutdown)
            <==> w.At(Other(closer)).ep.finishedRecvCount == w.At(closer).ep.sendCount
  {
    ReachableInv(w);
    match w.At(Other(closer)).cause
    case None =>
    case Some(c) => assert c == ByShutdown;
  }

  /** Messages with one tag are handed over in the order in which they were sent. */
  lemma MatchedInSendOrder(w: World, s: Side, i: nat, j: nat)
    requires Reachable(w)
    requires var p := w.At(s).out; i < j < |p.matched| && SameTag(p.msgs, p.matched[i], p.matched[j])
    ensures w.At(s).out.matched[i] < w.At(s).out.matched[j]
  {
    ReachableInv(w);
  }

  /** The handler's "n cannot be less" error is out of reach while the closer is punctual. */
  lemma PunctualNeverTooFew(w: World, closer: Side)
    requires Reachable(w) && Punctual(w.At(closer))
    ensures w.At(Other(closer)).handled != Some(CtrlTaken(TooFew))
  {
    ReachableInv(w);
  }

  // ---------------------------------------------------------------------------------------
  // Sends after `close()` took its snapshot

  lemma {:induction false} CountSplit(a: seq<Msg>, b: seq<Msg>)
    ensures CountFinished(a + b) == CountFinished(a) + CountFinished(b)
  {
    if b == [] {
      assert a + b == a;
    } else {
      var last := |b| - 1;
      assert (a + b)[..|a| + last] == a + b[..last];
      CountSplit(a, b[..last]);
    }
  }

  lemma {:induction false} NoneFinished(msgs: seq<Msg>)
    ensures CountFinished(msgs) == 0 <==> forall i :: 0 <= i < |msgs| ==> msgs[i].place != Finished
  {
    if msgs == [] {
    } else {
      NoneFinished(msgs[..|msgs| - 1]);
    }
  }

  lemma {:induction false} AllFinishedCount(msgs: seq<Msg>)
    requires forall i :: 0 <= i < |msgs| ==> msgs[i].place == Finished
    ensures CountFinished(msgs) == |msgs|
  {
    if msgs == [] {
    } else {
      AllFinishedCount(msgs[..|msgs| - 1]);
    }
  }

  lemma EarlyIffNoLate(msgs: seq<Msg>, n: nat)
    requires n <= |msgs| && CountFinished(msgs) == n
    ensures (forall i :: 0 <= i < n ==> msgs[i].place == Finished)
            <==> (forall i :: n <= i < |msgs| ==> msgs[i].place != Finished)
  {
    var early, late := msgs[..n], msgs[n..];
    assert msgs == early + late;
    CountSplit(early, late);
    NoneFinished(late);
    if CountFinished(early) == n {
      AllFinished(early);
      assert forall i :: n <= i < |msgs| ==> msgs[i] == late[i - n];
    } else if forall i :: 0 <= i < n ==> msgs[i].place == Finished {
      AllFinishedCount(early);
    } else {
      assert exists i :: 0 <= i < |late| && late[i] == msgs[n + i] && late[i].place == Finished;
    }
  }

  /** Punctual or not: at its `n`-th finished receive an endpoint has received everything counted
      before the snapshot exactly when it has received nothing that was counted after it. */
  lemma EarlyMessagesSafeIff(w: World, closer: Side)
    requires Reachable(w) && w.At(Other(closer)).cause == Some(ByShutdown)
    requires !w.At(closer).ctrl.Unsent? && w.At(Other(closer)).ep.finishedRecvCount == w.At(closer).ctrl.n
    ensures var h := w.At(closer);
      && h.ctrl.n <= |h.out.msgs|
      && ((forall i :: 0 <= i < h.ctrl.n ==> h.out.msgs[i].place == Finished)
          <==> (forall i :: h.ctrl.n <= i < |h.out.msgs| ==> h.out.msgs[i].place != Finished))
  {
    ReachableInv(w);
    EarlyIffNoLate(w.At(closer).out.msgs, w.At(closer).ctrl.n);
  }

  lemma {:induction false} RunConcat(w: World, a: seq<(Side, Action)>, b: seq<(Side, Action)>)
    requires Run(w, a).Some?
    ensures Run(w, a + b) == Run(Run(w, a).value, b)
    decreases |a|
  {
    if a == [] {
      assert a + b == b;
    } else {
      assert (a + b)[1..] == a[1..] + b;
      RunConcat(Step(w, a[0].0, a[0].1).value, a[1..], b);
    }
  }

  lemma Then(w: World, s: Side, a: Action, rest: seq<(Side, Action)>, u: World)
    requires Step(w, s, a).Some? && Run(Step(w, s, a).value, rest) == Some(u)
    ensures Run(w, [(s, a)] + rest) == Some(u)
  {
    assert ([(s, a)] + rest)[1..] == rest;
  }

  /** The shutdown message is on its way, and both ends are still open. */
  predicate InWindow(w: World, closer: Side) {
    && w.At(closer).ctrl.InFlight? && !w.At(closer).ep.Closed()
    && !w.At(Other(closer)).ep.Closed() && w.At(Other(closer)).ep.closeAfter == None
  }

  /** One more message is sent, and a receive posted for it, while the shutdown message is on
      its way. */
  lemma LateSend(w: World, c: Side) returns (steps: seq<(Side, Action)>, v: World)
    requires InWindow(w, c) && |w.At(c).out.msgs| == w.At(c).ep.sendCount
    ensures Run(w, steps) == Some(v)
    ensures InWindow(v, c) && |v.At(c).out.msgs| == v.At(c).ep.sendCount == w.At(c).ep.sendCount + 1
    ensures v.At(c).out.msgs == w.At(c).out.msgs + [Msg(Am, Net)] && Am in v.At(Other(c)).posted
    ensures v.At(c).ctrl == w.At(c).ctrl
    ensures v.At(Other(c)).ep.finishedRecvCount == w.At(Other(c)).ep.finishedRecvCount
  {
    var p := Other(c);
    var w1 := Step(w, c, Send(Am)).value;
    v := Step(w1, p, Post(Am, false)).value;
    Then(w1, p, Post(Am, false), [], v);
    Then(w, c, Send(Am), [(p, Post(Am, false))] + [], v);
    steps := [(c, Send(Am))] + ([(p, Post(Am, false))] + []);
  }

  lemma LateRecv(w: World, c: Side, id: nat) returns (steps: seq<(Side, Action)>, v: World)
    requires InWindow(w, c) && |w.At(c).out.msgs| == w.At(c).ep.sendCount
    requires id < |w.At(c).out.msgs| && w.At(c).out.msgs[id] == Msg(Am, Net) && Am in w.At(Other(c)).posted
    ensures Run(w, steps) == Some(v)
    ensures InWindow(v, c) && |v.At(c).out.msgs| == v.At(c).ep.sendCount
    ensures v.At(c).out.msgs == w.At(c).out.msgs[id := Msg(Am, Finished)]
    ensures v.At(c).ctrl == w.At(c).ctrl
    ensures v.At(Other(c)).ep.finishedRecvCount == w.At(Other(c)).ep.finishedRecvCount + 1
  {
    var p := Other(c);
    var w1 := Step(w, p, Match(id)).value;
    v := Step(w1, p, Finish(id)).value;
    Then(w1, p, Finish(id), [], v);
    Then(w, p, Match(id), [(p, Finish(id))] + [], v);
    steps := [(p, Match(id))] + ([(p, Finish(id))] + []);
  }

  lemma {:induction false} LateMessages(w: World, c: Side, k: nat)
      returns (steps: seq<(Side, Action)>, v: World)
    requires InWindow(w, c) && |w.At(c).out.msgs| == w.At(c).ep.sendCount
    decreases k
    ensures Run(w, steps) == Some(v)
    ensures InWindow(v, c) && v.At(c).ctrl == w.At(c).ctrl && w.At(c).out.msgs <= v.At(c).out.msgs
    ensures v.At(Other(c)).ep.finishedRecvCount == w.At(Other(c)).ep.finishedRecvCount + k
  {
    if k == 0 {
      steps, v := [], w;
    } else {
      var s1, w1 := LateSend(w, c);
      var s2, w2 := LateRecv(w1, c, w.At(c).ep.sendCount);
      var s3, w3 := LateMessages(w2, c, k - 1);
      RunConcat(w1, s2, s3);
      RunConcat(w, s1, s2 + s3);
      steps, v := s1 + (s2 + s3), w3;
    }
  }

  ghost predicate Raises(w: World, closer: Side, steps: seq<(Side, Action)>) {
    Run(w, steps).Some? && Run(w, steps).value.At(Other(closer)).handled == Some(CtrlTaken(TooFew))
  }

  /** While the shutdown message is on its way the error is always still reachable, and it is
      reached only by counting a send after the snapshot. */
  lemma TooFewIffLateSend(w: World, closer: Side)
    requires Reachable(w) && InWindow(w, closer)
    ensures exists steps :: Raises(w, closer, steps)
    ensures forall steps :: Raises(w, closer, steps) ==> !Punctual(Run(w, steps).value.At(closer))
  {
    ReachableInv(w);
    var steps, v := LateMessages(w, closer, w.At(closer).ctrl.n + 1);
    var last := [(Other(closer), CtrlArrives)] + [];
    Then(v, Other(closer), CtrlArrives, [], Step(v, Other(closer), CtrlArrives).value);
    RunConcat(w, steps, last);
    assert Raises(w, closer, steps + last);
    forall steps | Raises(w, closer, steps)
      ensures !Punctual(Run(w, steps).value.At(closer))
    {
      var before :| Run(CONNECTED, before) == Some(w);
      RunConcat(CONNECTED, before, steps);
      if Punctual(Run(w, steps).value.At(closer)) {
        PunctualNeverTooFew(Run(w, steps).value, closer);
      }
    }
  }

  /** The continuation aborts the peer because of the shutdown message, with message `id` not
      received. */
  ghost predicate Loses(w: World, closer: Side, steps: seq<(Side, Action)>, id: nat) {
    && Run(w, steps).Some?
    && Run(w, steps).value.At(Other(closer)).cause == Some(ByShutdown)
    && id < |Run(w, steps).value.At(closer).out.msgs|
    && Run(w, steps).value.At(closer).out.msgs[id].place != Finished
  }

  /** The peer has finished more receives than the closer announced, so its handler will raise. */
  predicate Overrun(w: World, closer: Side) {
    var snd, rcv := w.At(closer), w.At(Other(closer));
    !snd.ctrl.Unsent? && !rcv.taken && rcv.cause != Some(ByShutdown) && rcv.ep.finishedRecvCount > snd.ctrl.n
  }

  lemma ActingOverrun(me: Half, peer: Half, a: Action)
    requires HalfStep(me, peer, a).Some?
    ensures var (g, p) := HalfStep(me, peer, a).value;
      && p.taken == peer.taken && p.cause == peer.cause && p.ep == peer.ep
      && g.ep.finishedRecvCount >= me.ep.finishedRecvCount
  {
  }

  lemma ActingStaysOverrun(me: Half, peer: Half, a: Action)
    requires HalfStep(me, peer, a).Some? && !peer.ctrl.Unsent?
    requires !me.taken && me.cause != Some(ByShutdown) && me.ep.finishedRecvCount > peer.ctrl.n
    ensures var g := HalfStep(me, peer, a).value.0; !g.taken && g.cause != Some(ByShutdown)
  {
  }

  lemma {:induction false} StaysOverrun(w: World, closer: Side, steps: seq<(Side, Action)>)
    requires Inv(w) && Overrun(w, closer) && Run(w, steps).Some?
    ensures Overrun(Run(w, steps).value, closer)
    decreases |steps|
  {
    if steps == [] {
    } else {
      var (s, a) := steps[0];
      StepKeepsInv(w.At(s), w.At(Other(s)), a);
      ActingOverrun(w.At(s), w.At(Other(s)), a);
      StepCountsLate(w, s, a, closer);
      if s == Other(closer) {
        ActingStaysOverrun(w.At(s), w.At(closer), a);
      }
      StaysOverrun(Step(w, s, a).value, closer, steps[1..]);
    }
  }

  /** While the shutdown message is on its way, a message that was sent before it and has not been
      matched can still be lost, exactly if the peer has not yet finished more receives than were
      announced; and then only by counting a send after the snapshot. */
  lemma EarlyLossIff(w: World, closer: Side, id: nat)
    requires Reachable(w) && InWindow(w, closer)
    requires id < w.At(closer).ctrl.n && IsAt(w.At(closer).out.msgs, id, Net)
    ensures (exists steps :: Loses(w, closer, steps, id))
            <==> w.At(Other(closer)).ep.finishedRecvCount <= w.At(closer).ctrl.n
    ensures forall steps :: Loses(w, closer, steps, id) ==> !Punctual(Run(w, steps).value.At(closer))
  {
    ReachableInv(w);
    var n, finished := w.At(closer).ctrl.n, w.At(Other(closer)).ep.finishedRecvCount;
    if finished <= n {
      var steps, v := LateMessages(w, closer, n - finished);
      var last := [(Other(closer), CtrlArrives)] + [];
      Then(v, Other(closer), CtrlArrives, [], Step(v, Other(closer), CtrlArrives).value);
      RunConcat(w, steps, last);
      assert v.At(closer).out.msgs[id] == w.At(closer).out.msgs[id];
      assert Loses(w, closer, steps + last, id);
    }
    forall steps | Loses(w, closer, steps, id)
      ensures finished <= n && !Punctual(Run(w, steps).value.At(closer))
    {
      if finished > n {
        StaysOverrun(w, closer, steps);
      }
      var before :| Run(CONNECTED, before) == Some(w);
      RunConcat(CONNECTED, before, steps);
      if Punctual(Run(w, steps).value.At(closer)) {
        ShutdownLosesNothing(Run(w, steps).value, closer);
      }
    }
  }

  const LATE_WORLD :=
    World(FRESH_HALF.(ep := FRESH_ENDPOINT.(sendCount := 2, shuttingDownPeer := true), ctrl := InFlight(1),
                     out := Pipe([Msg(Tag(0), Net), Msg(Tag(1), Net)], [])),
          FRESH_HALF)

  lemma LateWorldReachable() returns (steps: seq<(Side, Action)>)
    ensures Run(CONNECTED, steps) == Some(LATE_WORLD)
  {
    var w1 := Step(CONNECTED, Left, Send(Tag(0))).value;
    var w2 := Step(w1, Left, BeginClose).value;
    var w3 := Step(w2, Left, Send(Tag(1))).value;
    assert w3.left.out.msgs == LATE_WORLD.left.out.msgs;
    Then(w2, Left, Send(Tag(1)), [], LATE_WORLD);
    Then(w1, Left, BeginClose, [(Left, Send(Tag(1)))] + [], LATE_WORLD);
    steps := [(Left, Send(Tag(0)))] + ([(Left, BeginClose)] + ([(Left, Send(Tag(1)))] + []));
    Then(CONNECTED, Left, Send(Tag(0)), [(Left, BeginClose)] + ([(Left, Send(Tag(1)))] + []), LATE_WORLD);
  }

  /** The message on tag 1 is handed over, the one on tag 0 stays behind. */
  lemma LateMessageOvertakes() returns (steps: seq<(Side, Action)>, w: World)
    ensures Run(LATE_WORLD, steps) == Some(w)
    ensures w.left.ctrl == InFlight(1) && w.left.out.msgs == [Msg(Tag(0), Net), Msg(Tag(1), Ready)]
    ensures w.right.ep == FRESH_ENDPOINT.(recvCount := 1) && !w.right.taken
  {
    var w1 := Step(LATE_WORLD, Right, Post(Tag(1), false)).value;
    w := Step(w1, Right, Match(1)).value;
    Then(w1, Right, Match(1), [], w);
    Then(LATE_WORLD, Right, Post(Tag(1), false), [(Right, Match(1))] + [], w);
    steps := [(Right, Post(Tag(1), false))] + ([(Right, Match(1))] + []);
  }

  /** And a late send can make the shutdown lose an earlier message: the message on tag 0 is still
      on its way when the one on tag 1, sent after `close()`, completes the count. */
  lemma LateSendLosesEarlyMessage() returns (steps: seq<(Side, Action)>, w: World)
    ensures Run(CONNECTED, steps) == Some(w)
    ensures w.right.cause == Some(ByShutdown) && w.left.ctrl == Handled(1)
    ensures |w.left.out.msgs| > 0 && w.left.out.msgs[0] == Msg(Tag(0), Net)
  {
    var before := LateWorldReachable();
    var overtaking, w2 := LateMessageOvertakes();
    RunConcat(CONNECTED, before, overtaking);
    var w3 := Step(w2, Right, Finish(1)).value;
    w := Step(w3, Right, CtrlArrives).value;
    Then(w3, Right, CtrlArrives, [], w);
    Then(w2, Right, Finish(1), [(Right, CtrlArrives)] + [], w);
    var last := [(Right, Finish(1))] + ([(Right, CtrlArrives)] + []);
    RunConcat(CONNECTED, before + overtaking, last);
    steps := before + overtaking + last;
  }
}
