/**
 Objects over a connection that is being shut down (`send_obj` and `recv_obj` of ucp/core.py). A
 `send_obj` is two counted sends with a suspension in between, so `close()` can take its snapshot
 when only the length has been counted; other sends of any kind come in between as they like.
 */
module ObjectShutdown {
  import opened Wrappers
  import opened EndpointCounting
  import opened ShutdownProtocol

  /** What a counted message carries. */
  datatype Part = Plain | Length(obj: nat) | Payload(obj: nat)

  /** The sends of one endpoint: what each counted message is, the calls of `send_obj` that are
      suspended between their two sends, with their tags, those that ended there with an exception,
      and the two together as `close()` found them when it took its snapshot. */
  datatype Sender = Sender(
    parts: seq<Part>, suspended: map<nat, nat>, abandoned: map<nat, nat>, snapshot: set<nat>)
  {
    function Halfway(): set<nat> {
      suspended.Keys + abandoned.Keys
    }

    /** The calls that are, or ended, between their two sends on `tag`. */
    function HalfwayOn(tag: nat): set<nat> {
      (set obj | obj in suspended && suspended[obj] == tag) + (set obj | obj in abandoned && abandoned[obj] == tag)
    }
  }

  /** Any step of the endpoints, where a send is one of `send` or `am_send`; and those of `send_obj`. */
  datatype ObjAction =
    | Any(a: Action)
    | SendLength(obj: nat, tag: nat, fails: bool)
    | SendPayload(obj: nat, fails: bool)
    | GiveUp(obj: nat)

  function SendOn(tag: nat, fails: bool): Action {
    if fails then SendFails(Tag(tag)) else Send(Tag(tag))
  }

  /** What an action does on the endpoint, unless it is not possible or does nothing there. */
  function OnEndpoint(me: Sender, a: ObjAction): Option<Action> {
    match a
    case Any(b) => Some(b)
    case SendLength(obj, tag, fails) => if Length(obj) in me.parts then None else Some(SendOn(tag, fails))
    case SendPayload(obj, fails) => if obj in me.suspended then Some(SendOn(me.suspended[obj], fails)) else None
    case GiveUp(_) => None
  }

  /** And on the sends. */
  function OnSender(me: Sender, a: ObjAction): Sender {
    match a
    case Any(b) => if b.Send? || b.SendFails? then me.(parts := me.parts + [Plain]) else me
    case SendLength(obj, tag, _) =>
      me.(parts := me.parts + [Length(obj)], suspended := me.suspended[obj := tag])
    case SendPayload(obj, _) => me.(parts := me.parts + [Payload(obj)], suspended := me.suspended - {obj})
    case GiveUp(obj) =>
      if obj !in me.suspended then me
      else me.(suspended := me.suspended - {obj}, abandoned := me.abandoned[obj := me.suspended[obj]])
  }

  /** `before` and `after` are the endpoint: has it just announced its count? */
  function TakeSnapshot(me: Sender, before: Half, after: Half): Sender {
    if before.ctrl.Unsent? && !after.ctrl.Unsent? then me.(snapshot := me.Halfway()) else me
  }

  datatype ObjWorld = ObjWorld(net: World, left: Sender, right: Sender)
  {
    function From(s: Side): Sender {
      if s.Left? then left else right
    }
  }

  const NO_SENDS := Sender([], map[], map[], {})

  const FRESH := ObjWorld(CONNECTED, NO_SENDS, NO_SENDS)

  function SetSender(w: ObjWorld, s: Side, me: Sender): ObjWorld {
    if s.Left? then w.(left := me) else w.(right := me)
  }

  function ObjStep(w: ObjWorld, s: Side, a: ObjAction): Option<ObjWorld> {
    var me := w.From(s);
    if a.GiveUp? then
      if a.obj in me.suspended then Some(SetSender(w, s, OnSender(me, a))) else None
    else
      match OnEndpoint(me, a)
      case None => None
      case Some(b) =>
        match Step(w.net, s, b)
        case None => None
        case Some(net) =>
          Some(SetSender(w.(net := net), s, TakeSnapshot(OnSender(me, a), w.net.At(s), net.At(s))))
  }

  function ObjRun(w: ObjWorld, steps: seq<(Side, ObjAction)>): Option<ObjWorld>
    decreases |steps|
  {
    if steps == [] then Some(w)
    else
      match ObjStep(w, steps[0].0, steps[0].1)
      case None => None
      case Some(v) => ObjRun(v, steps[1..])
  }

  // ---------------------------------------------------------------------------------------
  // The invariant of one sender

  /** The length of `obj` is among `parts`, its payload is not. */
  predicate Splits(parts: seq<Part>, obj: nat) {
    Length(obj) in parts && Payload(obj) !in parts
  }

  ghost predicate SenderInv(me: Sender, h: Half) {
    && |me.parts| == |h.out.msgs|
    && (forall obj :: Splits(me.parts, obj) <==> obj in me.Halfway())
    && (forall obj :: Payload(obj) in me.parts ==> Length(obj) in me.parts)
    && me.suspended.Keys !! me.abandoned.Keys
    && (!h.ctrl.Unsent? ==>
          && h.ctrl.n <= |me.parts|
          && forall obj :: Splits(me.parts[..h.ctrl.n], obj) <==> obj in me.snapshot)
  }

  ghost predicate ObjInv(w: ObjWorld) {
    && Inv(w.net)
    && SenderInv(w.left, w.net.left) && SenderInv(w.right, w.net.right)
  }

  lemma SendingKeeps(me: Sender, h: Half, a: ObjAction)
    requires SenderInv(me, h) && (a.GiveUp? ==> a.obj in me.suspended)
    requires a.GiveUp? || OnEndpoint(me, a).Some?
    ensures var me' := OnSender(me, a);
      && me.parts <= me'.parts && me'.snapshot == me.snapshot
      && (forall obj :: Splits(me'.parts, obj) <==> obj in me'.Halfway())
      && (forall obj :: Payload(obj) in me'.parts ==> Length(obj) in me'.parts)
      && me'.suspended.Keys !! me'.abandoned.Keys
  {
    var me' := OnSender(me, a);
    match a
    case SendLength(obj, _, _) =>
      assert !Splits(me.parts, obj) && Payload(obj) !in me.parts;
      assert forall p :: p in me'.parts <==> p in me.parts || p == Length(obj);
      assert forall o :: Splits(me'.parts, o) <==> o == obj || Splits(me.parts, o);
    case SendPayload(obj, _) =>
      assert Splits(me.parts, obj);
      assert forall p :: p in me'.parts <==> p in me.parts || p == Payload(obj);
      assert forall o :: Splits(me'.parts, o) <==> o != obj && Splits(me.parts, o);
    case Any(_) =>
      assert me'.Halfway() == me.Halfway();
      assert forall p :: p in me'.parts && p != Plain ==> p in me.parts;
      assert forall obj :: Splits(me'.parts, obj) <==> Splits(me.parts, obj);
    case GiveUp(_) =>
  }

  /** What a step of the endpoints does to the acting one's sends and announcement, and that it does
      nothing to the other's. */
  lemma StepSends(me: Half, peer: Half, a: Action)
    requires DirInv(me, peer) && DirInv(peer, me) && HalfStep(me, peer, a).Some?
    ensures var (g, p) := HalfStep(me, peer, a).value;
      && |g.out.msgs| == |me.out.msgs| + (if a.Send? || a.SendFails? then 1 else 0)
      && (me.ctrl.Unsent? && !g.ctrl.Unsent? ==> g.ctrl.n == |g.out.msgs|)
      && (!me.ctrl.Unsent? ==> !g.ctrl.Unsent? && g.ctrl.n == me.ctrl.n)
      && |p.out.msgs| == |peer.out.msgs|
      && (p.ctrl.Unsent? <==> peer.ctrl.Unsent?) && (!p.ctrl.Unsent? ==> p.ctrl.n == peer.ctrl.n)
  {
    StepKeepsInv(me, peer, a);
    ActingCountsLate(me, peer, a);
    PeerCountsLate(me, peer, a);
  }

  lemma ActorKeepsSenderInv(me: Sender, h: Half, peer: Half, a: ObjAction)
    requires SenderInv(me, h) && DirInv(h, peer) && DirInv(peer, h) && OnEndpoint(me, a).Some?
    requires HalfStep(h, peer, OnEndpoint(me, a).value).Some?
    ensures var g := HalfStep(h, peer, OnEndpoint(me, a).value).value.0;
      SenderInv(TakeSnapshot(OnSender(me, a), h, g), g)
  {
    var g := HalfStep(h, peer, OnEndpoint(me, a).value).value.0;
    var me1 := OnSender(me, a);
    SendingKeeps(me, h, a);
    StepSends(h, peer, OnEndpoint(me, a).value);
    if h.ctrl.Unsent? && !g.ctrl.Unsent? {
      assert me1.parts[..g.ctrl.n] == me1.parts;
    } else if !h.ctrl.Unsent? {
      assert me1.parts[..g.ctrl.n] == me.parts[..h.ctrl.n];
    }
  }

  lemma ObjStepInv(w: ObjWorld, s: Side, a: ObjAction)
    requires ObjInv(w) && ObjStep(w, s, a).Some?
    ensures ObjInv(ObjStep(w, s, a).value)
  {
    var me, h, peer := w.From(s), w.net.At(s), w.net.At(Other(s));
    if a.GiveUp? {
      SendingKeeps(me, h, a);
    } else {
      var b := OnEndpoint(me, a).value;
      StepKeepsInv(h, peer, b);
      ActorKeepsSenderInv(me, h, peer, a);
      StepSends(h, peer, b);
    }
  }

  /** A run with objects is a run of the two endpoints. */
  lemma {:induction false} ObjRunInv(w: ObjWorld, steps: seq<(Side, ObjAction)>) returns (base: seq<(Side, Action)>)
    requires ObjInv(w) && ObjRun(w, steps).Some?
    ensures ObjInv(ObjRun(w, steps).value)
    ensures Run(w.net, base) == Some(ObjRun(w, steps).value.net)
    decreases |steps|
  {
    if steps == [] {
      base := [];
    } else {
      var (s, a) := steps[0];
      var v := ObjStep(w, s, a).value;
      ObjStepInv(w, s, a);
      base := ObjRunInv(v, steps[1..]);
      if !a.GiveUp? {
        Then(w.net, s, OnEndpoint(w.From(s), a).value, base, ObjRun(w, steps).value.net);
        base := [(s, OnEndpoint(w.From(s), a).value)] + base;
      }
    }
  }

  // ---------------------------------------------------------------------------------------
  // Main results

  /** In every run, whatever else is sent: the messages that a shutdown announces hold the length of
      an object without its payload exactly if its `send_obj` had counted the one and not the other
      when `close()` took its snapshot. */
  lemma AnnouncementSplitsIff(steps: seq<(Side, ObjAction)>, w: ObjWorld, closer: Side, obj: nat)
    requires ObjRun(FRESH, steps) == Some(w) && !w.net.At(closer).ctrl.Unsent?
    ensures var n := w.net.At(closer).ctrl.n;
      n <= |w.From(closer).parts| && (Splits(w.From(closer).parts[..n], obj) <==> obj in w.From(closer).snapshot)
  {
    var base := ObjRunInv(FRESH, steps);
  }

  /** The peer has received this part. */
  predicate Received(w: ObjWorld, closer: Side, part: Part) {
    var parts, msgs := w.From(closer).parts, w.net.At(closer).out.msgs;
    exists i :: 0 <= i < |parts| && i < |msgs| && parts[i] == part && msgs[i].place == Finished
  }

  /** And so does the shutdown itself: if the peer was aborted by it and received nothing that was
      counted after the snapshot, as when nothing was, it has received the length of an object and not
      its payload exactly for those calls of `send_obj`. */
  lemma ShutdownSplitsIff(steps: seq<(Side, ObjAction)>, w: ObjWorld, closer: Side, obj: nat)
    requires ObjRun(FRESH, steps) == Some(w) && w.net.At(Other(closer)).cause == Some(ByShutdown)
    requires var h := w.net.At(closer);
      h.ctrl.Unsent? || forall i :: h.ctrl.n <= i < |h.out.msgs| ==> h.out.msgs[i].place != Finished
    ensures Received(w, closer, Length(obj)) && !Received(w, closer, Payload(obj))
            <==> obj in w.From(closer).snapshot
  {
    var base := ObjRunInv(FRESH, steps);
    AnnouncementSplitsIff(steps, w, closer, obj);
    FinishedIsAnnounced(w.net, closer);
    ReceivedIff(w, closer, Length(obj), w.net.At(closer).ctrl.n);
    ReceivedIff(w, closer, Payload(obj), w.net.At(closer).ctrl.n);
  }

  /** What the peer has finished is exactly what was announced. */
  lemma FinishedIsAnnounced(net: World, closer: Side)
    requires Inv(net) && net.At(Other(closer)).cause == Some(ByShutdown)
    requires var h := net.At(closer);
      h.ctrl.Unsent? || forall i :: h.ctrl.n <= i < |h.out.msgs| ==> h.out.msgs[i].place != Finished
    ensures var h := net.At(closer);
      && !h.ctrl.Unsent? && h.ctrl.n <= |h.out.msgs|
      && forall i :: 0 <= i < |h.out.msgs| ==> (h.out.msgs[i].place == Finished <==> i < h.ctrl.n)
  {
    var n, msgs := net.At(closer).ctrl.n, net.At(closer).out.msgs;
    var early, late := msgs[..n], msgs[n..];
    assert msgs == early + late;
    CountSplit(early, late);
    NoneFinished(late);
    AllFinished(early);
    forall i | 0 <= i < n ensures msgs[i].place == Finished {
      assert msgs[i] == early[i];
    }
  }

  lemma ReceivedIff(w: ObjWorld, closer: Side, part: Part, n: nat)
    requires var parts, msgs := w.From(closer).parts, w.net.At(closer).out.msgs;
      && n <= |parts| == |msgs|
      && forall i :: 0 <= i < |msgs| ==> (msgs[i].place == Finished <==> i < n)
    ensures Received(w, closer, part) <==> part in w.From(closer).parts[..n]
  {
    var parts, msgs := w.From(closer).parts, w.net.At(closer).out.msgs;
    if part in parts[..n] {
      var i :| 0 <= i < n && parts[..n][i] == part;
      assert parts[i] == part && msgs[i].place == Finished;
    }
    if Received(w, closer, part) {
      var i :| 0 <= i < |parts| && parts[i] == part && msgs[i].place == Finished;
      assert parts[..n][i] == part;
    }
  }

  lemma ObjThen(w: ObjWorld, s: Side, a: ObjAction, rest: seq<(Side, ObjAction)>, u: ObjWorld)
    requires ObjStep(w, s, a).Some? && ObjRun(ObjStep(w, s, a).value, rest) == Some(u)
    ensures ObjRun(w, [(s, a)] + rest) == Some(u)
  {
    assert ([(s, a)] + rest)[1..] == rest;
  }

  /** An even announcement: one active message and the length of one object. */
  lemma HalfAnObjectAnnounced() returns (steps: seq<(Side, ObjAction)>, w: ObjWorld)
    ensures ObjRun(FRESH, steps) == Some(w)
    ensures w.net.left.ctrl == InFlight(2) && w.net.left.out == Pipe([Msg(Am, Net), Msg(Tag(0), Net)], [])
    ensures w.left.parts == [Plain, Length(0)] && w.left.snapshot == {0}
    ensures w.net.right == FRESH_HALF
  {
    var w1 := ObjStep(FRESH, Left, Any(Send(Am))).value;
    var w2 := ObjStep(w1, Left, SendLength(0, 0, false)).value;
    w := ObjStep(w2, Left, Any(BeginClose)).value;
    var last := [(Left, Any(BeginClose))] + [];
    ObjThen(w2, Left, Any(BeginClose), [], w);
    ObjThen(w1, Left, SendLength(0, 0, false), last, w);
    steps := [(Left, Any(Send(Am)))] + ([(Left, SendLength(0, 0, false))] + last);
    ObjThen(FRESH, Left, Any(Send(Am)), [(Left, SendLength(0, 0, false))] + last, w);
  }

  /** The peer posts a receive, and message `id` is handed to it. */
  lemma Receive(w: ObjWorld, id: nat) returns (steps: seq<(Side, ObjAction)>, v: ObjWorld)
    requires var msgs := w.net.left.out.msgs;
      IsAt(msgs, id, Net) && forall j: nat :: j < id ==> !IsAt(msgs, j, Net)
    requires !w.net.right.ep.Closed()
    ensures ObjRun(w, steps) == Some(v)
    ensures var (h, p) := Receiving(w.net.right.(ep := RecvStart(w.net.right.ep)),
                                    Pipe(w.net.left.out.msgs[id := w.net.left.out.msgs[id].(place := Ready)],
                                         w.net.left.out.matched + [id]), Finish(id)).value;
      v == w.(net := World(w.net.left.(out := p), h))
  {
    var c := w.net.left.out.msgs[id].chan;
    var w1 := ObjStep(w, Right, Any(Post(c, false))).value;
    var w2 := ObjStep(w1, Right, Any(Match(id))).value;
    assert w2.net.right.posted == w.net.right.posted;
    v := ObjStep(w2, Right, Any(Finish(id))).value;
    ObjThen(w2, Right, Any(Finish(id)), [], v);
    ObjThen(w1, Right, Any(Match(id)), [(Right, Any(Finish(id)))] + [], v);
    steps := [(Right, Any(Post(c, false)))] + ([(Right, Any(Match(id)))] + ([(Right, Any(Finish(id)))] + []));
    ObjThen(w, Right, Any(Post(c, false)), [(Right, Any(Match(id)))] + ([(Right, Any(Finish(id)))] + []), v);
  }

  lemma {:induction false} ObjRunConcat(w: ObjWorld, a: seq<(Side, ObjAction)>, b: seq<(Side, ObjAction)>)
    requires ObjRun(w, a).Some?
    ensures ObjRun(w, a + b) == ObjRun(ObjRun(w, a).value, b)
    decreases |a|
  {
    if a == [] {
      assert a + b == b;
    } else {
      assert (a + b)[1..] == a[1..] + b;
      ObjRunConcat(ObjStep(w, a[0].0, a[0].1).value, a[1..], b);
    }
  }

  /** And that happens, whatever the parity of the number announced. */
  lemma ShutdownSplitsObject() returns (steps: seq<(Side, ObjAction)>, w: ObjWorld)
    ensures ObjRun(FRESH, steps) == Some(w)
    ensures w.net.right.cause == Some(ByShutdown) && w.net.left.ctrl == Handled(2)
    ensures Received(w, Left, Length(0)) && !Received(w, Left, Payload(0))
  {
    var s1, w1 := HalfAnObjectAnnounced();
    var w2 := ObjStep(w1, Right, Any(CtrlArrives)).value;
    var s3, w3 := Receive(w2, 0);
    var s4, w4 := Receive(w3, 1);
    ObjRunConcat(w2, s3, s4);
    ObjThen(w1, Right, Any(CtrlArrives), s3 + s4, w4);
    ObjRunConcat(FRESH, s1, [(Right, Any(CtrlArrives))] + (s3 + s4));
    steps, w := s1 + ([(Right, Any(CtrlArrives))] + (s3 + s4)), w4;
    assert w.From(Left).parts[1] == Length(0) && w.net.At(Left).out.msgs[1].place == Finished;
  }
}
