/**
 Reading objects back from one tag (`send_obj` and `recv_obj` of ucp/core.py) in every run of two
 endpoints: when the messages of a tag are whole objects, one after another, and that the peer's
 receives are handed them in that order.
 */
module ObjectFraming {
  import opened Wrappers
  import opened ShutdownProtocol
  import opened ObjectShutdown
  import opened Wire

  // ---------------------------------------------------------------------------------------
  // The parts sent on one tag

  /** What the counted messages of one tag carry, in the order of sending. */
  function TagParts(parts: seq<Part>, msgs: seq<Msg>, tag: nat): seq<Part>
    requires |parts| == |msgs|
  {
    if parts == [] then []
    else
      var last := |parts| - 1;
      TagParts(parts[..last], msgs[..last], tag) + if msgs[last].chan == Tag(tag) then [parts[last]] else []
  }

  /** Where reading stands: before an object, after the length of one, or off track. */
  datatype Framing = Between | Within(obj: nat) | Broken

  function Advance(f: Framing, p: Part): Framing {
    match (f, p)
    case (Between, Length(obj)) => Within(obj)
    case (Within(obj), Payload(other)) => if obj == other then Between else Broken
    case _ => Broken
  }

  function Scan(f: Framing, sub: seq<Part>): Framing
    decreases |sub|
  {
    if sub == [] then f else Scan(Advance(f, sub[0]), sub[1..])
  }

  lemma {:induction false} ScanAppend(f: Framing, sub: seq<Part>, p: Part)
    ensures Scan(f, sub + [p]) == Advance(Scan(f, sub), p)
    decreases |sub|
  {
    if sub == [] {
      assert (sub + [p])[1..] == [];
    } else {
      assert (sub + [p])[1..] == sub[1..] + [p];
      ScanAppend(Advance(f, sub[0]), sub[1..], p);
    }
  }

  lemma {:induction false} BrokenStays(sub: seq<Part>)
    ensures Scan(Broken, sub) == Broken
    decreases |sub|
  {
    if sub == [] {
    } else {
      BrokenStays(sub[1..]);
    }
  }

  // ---------------------------------------------------------------------------------------
  // Reading bytes

  /** The message of a part, for given contents of the objects and of the plain messages. */
  function MessageOf(p: Part, contents: nat -> seq<byte>, plain: seq<byte>): seq<byte> {
    match p
    case Plain => plain
    case Length(obj) => Pack(|contents(obj)|, 8)
    case Payload(obj) => contents(obj)
  }

  function MessagesOf(sub: seq<Part>, contents: nat -> seq<byte>, plain: seq<byte>): seq<seq<byte>> {
    if sub == [] then [] else [MessageOf(sub[0], contents, plain)] + MessagesOf(sub[1..], contents, plain)
  }

  /** The objects announced, in order. */
  function ObjectsOf(sub: seq<Part>): seq<nat> {
    if sub == [] then [] else (if sub[0].Length? then [sub[0].obj] else []) + ObjectsOf(sub[1..])
  }

  function ContentsOf(objs: seq<nat>, contents: nat -> seq<byte>): seq<seq<byte>> {
    if objs == [] then [] else [contents(objs[0])] + ContentsOf(objs[1..], contents)
  }

  /** `recv_obj` as often as objects were sent reads exactly those objects and uses up every message. */
  ghost predicate ReadsAs(sub: seq<Part>, contents: nat -> seq<byte>, plain: seq<byte>) {
    ReadMany(MessagesOf(sub, contents, plain), |ObjectsOf(sub)|) == Some(ContentsOf(ObjectsOf(sub), contents))
  }

  /** Whatever the objects and the other messages contain. */
  ghost predicate ReadsBack(sub: seq<Part>) {
    && |sub| == 2 * |ObjectsOf(sub)|
    && forall contents: nat -> seq<byte>, plain ::
         (forall obj :: |contents(obj)| < U64) ==> ReadsAs(sub, contents, plain)
  }

  lemma ReadPair(sub: seq<Part>, contents: nat -> seq<byte>, plain: seq<byte>)
    requires |sub| >= 2 && sub[0].Length? && sub[1] == Payload(sub[0].obj) && |contents(sub[0].obj)| < U64
    ensures ReadsAs(sub, contents, plain) <==> ReadsAs(sub[2..], contents, plain)
    ensures ObjectsOf(sub) == [sub[0].obj] + ObjectsOf(sub[2..])
  {
    var obj, rest := sub[0].obj, sub[2..];
    var q := MessagesOf(rest, contents, plain);
    assert sub[1..][1..] == rest;
    assert ObjectsOf(sub[1..]) == ObjectsOf(rest);
    assert MessagesOf(sub, contents, plain) == Frames(contents(obj)) + q;
    ReadOneFrame(contents(obj), q);
    var objs := ObjectsOf(sub);
    assert objs[1..] == ObjectsOf(rest);
    assert ContentsOf(objs, contents) == [contents(obj)] + ContentsOf(objs[1..], contents);
    if ReadMany(q, |objs| - 1).Some? {
      var read := ReadMany(q, |objs| - 1).value;
      assert ([contents(obj)] + read)[1..] == read;
      assert ([contents(obj)] + ContentsOf(objs[1..], contents))[1..] == ContentsOf(objs[1..], contents);
    }
  }

  lemma {:induction false} PairsReadBack(sub: seq<Part>, contents: nat -> seq<byte>, plain: seq<byte>)
    requires Scan(Between, sub) == Between && forall obj :: |contents(obj)| < U64
    ensures ReadsAs(sub, contents, plain) && |sub| == 2 * |ObjectsOf(sub)|
    decreases |sub|
  {
    if sub == [] {
    } else {
      BrokenStays(sub[1..]);
      assert sub[0].Length?;
      assert |sub| >= 2 && sub[1..][0] == sub[1] && sub[1..][1..] == sub[2..];
      BrokenStays(sub[2..]);
      assert Scan(Within(sub[0].obj), sub[1..]) == Scan(Advance(Within(sub[0].obj), sub[1]), sub[2..]);
      PairsReadBack(sub[2..], contents, plain);
      ReadPair(sub, contents, plain);
    }
  }

  /** Every object but `obj` is one byte long. */
  function OnlyEmpty(obj: nat): nat -> seq<byte> {
    o => if o == obj then [] else [0]
  }

  /** If the parts read back whatever they contain, they start with a whole object. */
  lemma StartsWithPair(sub: seq<Part>)
    requires ReadsBack(sub) && sub != []
    ensures |sub| >= 2 && sub[0].Length? && sub[1] == Payload(sub[0].obj)
  {
    var obj := if sub[0].Length? then sub[0].obj else 0;
    assert forall o :: |OnlyEmpty(obj)(o)| < U64;
    assert ReadsAs(sub, OnlyEmpty(obj), [0]);
    var q := MessagesOf(sub, OnlyEmpty(obj), [0]);
    assert sub[1..][0] == sub[1];
    assert |q| >= 2 && q[0] == MessageOf(sub[0], OnlyEmpty(obj), [0]) && q[1] == MessageOf(sub[1], OnlyEmpty(obj), [0]);
    assert ReadObj(q).0.Some?;
    Power256_8();
    PackRoundTrip(0, 8);
  }

  /** The parts of one tag read back, whatever they contain, exactly if they are whole objects one
      after another. */
  lemma {:induction false} ReadsBackIff(sub: seq<Part>)
    ensures ReadsBack(sub) <==> Scan(Between, sub) == Between
    decreases |sub|
  {
    if Scan(Between, sub) == Between {
      PairsReadBack(sub, o => [], []);
      forall contents: nat -> seq<byte>, plain | forall obj :: |contents(obj)| < U64
        ensures ReadsAs(sub, contents, plain)
      {
        PairsReadBack(sub, contents, plain);
      }
    } else if ReadsBack(sub) {
      StartsWithPair(sub);
      forall contents: nat -> seq<byte>, plain | forall obj :: |contents(obj)| < U64
        ensures ReadsAs(sub[2..], contents, plain)
      {
        ReadPair(sub, contents, plain);
      }
      ReadPair(sub, o => [], []);
      assert sub[1..][0] == sub[1] && sub[1..][1..] == sub[2..];
      assert Scan(Within(sub[0].obj), sub[1..]) == Scan(Between, sub[2..]);
      ReadsBackIff(sub[2..]);
    }
  }

  // ---------------------------------------------------------------------------------------
  // Runs

  /** The step counts a message on `tag` that does not go on where the last one stopped: any plain
      send, or a `send_obj` that starts while another one on that tag is, or ended, halfway. */
  predicate Disturbs(me: Sender, a: ObjAction, tag: nat) {
    match a
    case Any(b) => (b.Send? || b.SendFails?) && b.chan == Tag(tag)
    case SendLength(_, t, _) => t == tag && me.HalfwayOn(tag) != {}
    case _ => false
  }

  /** Some step of the run does so at the endpoint `s`. */
  predicate Disturbed(w: ObjWorld, steps: seq<(Side, ObjAction)>, s: Side, tag: nat)
    requires ObjRun(w, steps).Some?
    decreases |steps|
  {
    steps != [] &&
    var (side, a) := steps[0];
    ((side == s && Disturbs(w.From(s), a, tag)) || Disturbed(ObjStep(w, side, a).value, steps[1..], s, tag))
  }

  /** The framing of a tag says which `send_obj` on it is halfway. */
  predicate FramingInv(me: Sender, h: Half, tag: nat)
    requires |me.parts| == |h.out.msgs|
  {
    match Scan(Between, TagParts(me.parts, h.out.msgs, tag))
    case Between => me.HalfwayOn(tag) == {}
    case Within(obj) => me.HalfwayOn(tag) == {obj}
    case Broken => true
  }

  predicate OffTrack(me: Sender, h: Half, tag: nat)
    requires |me.parts| == |h.out.msgs|
  {
    Scan(Between, TagParts(me.parts, h.out.msgs, tag)) == Broken
  }

  lemma {:induction false} SameChannels(parts: seq<Part>, a: seq<Msg>, b: seq<Msg>, tag: nat)
    requires |parts| == |a| == |b| && forall i :: 0 <= i < |a| ==> a[i].chan == b[i].chan
    ensures TagParts(parts, a, tag) == TagParts(parts, b, tag)
  {
    if parts == [] {
    } else {
      var last := |parts| - 1;
      SameChannels(parts[..last], a[..last], b[..last], tag);
    }
  }

  /** The channel of a counted message, if the action counts one. */
  function ChannelOf(a: Action): Option<Channel> {
    match a
    case Send(c) => Some(c)
    case SendFails(c) => Some(c)
    case _ => None
  }

  /** Every message that a receive took, unless it was lost afterwards, is among the matched ones. */
  ghost predicate AllMatched(p: Pipe) {
    forall id: nat :: IsAt(p.msgs, id, Ready) || IsAt(p.msgs, id, Finished) ==> id in p.matched
  }

  predicate SameChans(a: seq<Msg>, b: seq<Msg>) {
    |a| == |b| && forall i :: 0 <= i < |a| ==> a[i].chan == b[i].chan
  }

  lemma ReceivingChannels(me: Half, incoming: Pipe, a: Action)
    requires Receiving(me, incoming, a).Some?
    ensures var (g, p) := Receiving(me, incoming, a).value; g.out == me.out && SameChans(incoming.msgs, p.msgs)
    ensures AllMatched(incoming) ==> AllMatched(Receiving(me, incoming, a).value.1)
  {
  }

  lemma ClosingChannels(me: Half, a: Action)
    requires Closing(me, a).Some?
    ensures Closing(me, a).value.out == me.out
  {
  }

  /** From `a` to `b` a message on the channel was counted, if any. */
  predicate Counts(a: seq<Msg>, b: seq<Msg>, channel: Option<Channel>) {
    if channel.None? then SameChans(a, b)
    else |b| == |a| + 1 && SameChans(a, b[..|a|]) && b[|a|].chan == channel.value
  }

  /** What a step of the endpoints does to the channels of what was sent. */
  lemma StepChannels(me: Half, peer: Half, a: Action)
    requires HalfStep(me, peer, a).Some?
    ensures var (g, p) := HalfStep(me, peer, a).value;
      && Counts(me.out.msgs, g.out.msgs, ChannelOf(a))
      && SameChans(peer.out.msgs, p.out.msgs)
  {
    if a.CtrlArrives? || Sending(me, a).Some? {
    } else if Receiving(me, peer.out, a).Some? {
      ReceivingChannels(me, peer.out, a);
    } else {
      ClosingChannels(me, a);
    }
  }

  lemma ActorFraming(me: Sender, h: Half, peer: Half, a: ObjAction, tag: nat)
    requires SenderInv(me, h) && OnEndpoint(me, a).Some? && FramingInv(me, h, tag)
    requires HalfStep(h, peer, OnEndpoint(me, a).value).Some?
    ensures var g := HalfStep(h, peer, OnEndpoint(me, a).value).value.0;
      var me' := TakeSnapshot(OnSender(me, a), h, g);
      && |me'.parts| == |g.out.msgs| && FramingInv(me', g, tag)
      && (OffTrack(me', g, tag) <==> OffTrack(me, h, tag) || Disturbs(me, a, tag))
  {
    var g := HalfStep(h, peer, OnEndpoint(me, a).value).value.0;
    StepChannels(h, peer, OnEndpoint(me, a).value);
    SenderFraming(me, h, g, a, tag);
    assert TakeSnapshot(OnSender(me, a), h, g).HalfwayOn(tag) == OnSender(me, a).HalfwayOn(tag);
  }

  lemma SenderFraming(me: Sender, h: Half, g: Half, a: ObjAction, tag: nat)
    requires SenderInv(me, h) && OnEndpoint(me, a).Some? && FramingInv(me, h, tag)
    requires Counts(h.out.msgs, g.out.msgs, ChannelOf(OnEndpoint(me, a).value))
    ensures var me' := OnSender(me, a);
      && |me'.parts| == |g.out.msgs| && FramingInv(me', g, tag)
      && (OffTrack(me', g, tag) <==> OffTrack(me, h, tag) || Disturbs(me, a, tag))
  {
    if ChannelOf(OnEndpoint(me, a).value).None? {
      SameChannels(me.parts, h.out.msgs, g.out.msgs, tag);
    } else {
      OneMoreOnTag(me.parts, h.out.msgs, OnSender(me, a).parts, g.out.msgs, tag);
      AdvanceHalfway(me, h, a, tag);
    }
  }

  lemma OneMoreOnTag(parts: seq<Part>, a: seq<Msg>, parts': seq<Part>, b: seq<Msg>, tag: nat)
    requires |parts| == |a| && |parts'| == |b| == |a| + 1 && parts <= parts'
    requires SameChans(a, b[..|a|])
    ensures Scan(Between, TagParts(parts', b, tag))
            == if b[|a|].chan == Tag(tag) then Advance(Scan(Between, TagParts(parts, a, tag)), parts'[|a|])
               else Scan(Between, TagParts(parts, a, tag))
  {
    SameChannels(parts, a, b[..|a|], tag);
    ScanAppend(Between, TagParts(parts, a, tag), parts'[|a|]);
    assert parts'[..|a|] == parts;
    assert TagParts(parts, a, tag) + [] == TagParts(parts, a, tag);
  }

  /** Counting one more message goes on where the tag stopped unless it disturbs it. */
  lemma AdvanceHalfway(me: Sender, h: Half, a: ObjAction, tag: nat)
    requires SenderInv(me, h) && OnEndpoint(me, a).Some? && ChannelOf(OnEndpoint(me, a).value).Some?
    requires FramingInv(me, h, tag)
    ensures var f := Scan(Between, TagParts(me.parts, h.out.msgs, tag));
      var me' := OnSender(me, a);
      && |me'.parts| == |me.parts| + 1
      && if ChannelOf(OnEndpoint(me, a).value) == Some(Tag(tag)) then
           match Advance(f, me'.parts[|me.parts|])
           case Between => me'.HalfwayOn(tag) == {} && !Disturbs(me, a, tag)
           case Within(obj) => me'.HalfwayOn(tag) == {obj} && !Disturbs(me, a, tag)
           case Broken => f == Broken || Disturbs(me, a, tag)
         else me'.HalfwayOn(tag) == me.HalfwayOn(tag) && !Disturbs(me, a, tag)
  {
    var me' := OnSender(me, a);
    match a
    case SendLength(obj, t, _) =>
      assert !Splits(me.parts, obj);
      assert me'.HalfwayOn(tag) == me.HalfwayOn(tag) + if t == tag then {obj} else {};
    case SendPayload(obj, _) =>
      assert me'.HalfwayOn(tag) == me.HalfwayOn(tag) - {obj} by {
        assert obj !in me.abandoned;
      }
      assert me.suspended[obj] == tag ==> obj in me.HalfwayOn(tag);
      assert me.suspended[obj] != tag ==> obj !in me.HalfwayOn(tag);
    case Any(_) => assert me'.HalfwayOn(tag) == me.HalfwayOn(tag);
  }

  predicate Framed(w: ObjWorld, s: Side, tag: nat) {
    |w.From(s).parts| == |w.net.At(s).out.msgs| && FramingInv(w.From(s), w.net.At(s), tag)
  }

  lemma PeerFraming(me: Sender, h: Half, actor: Half, b: Action, tag: nat)
    requires |me.parts| == |h.out.msgs| && HalfStep(actor, h, b).Some?
    ensures var p := HalfStep(actor, h, b).value.1;
      && |p.out.msgs| == |h.out.msgs|
      && (FramingInv(me, p, tag) <==> FramingInv(me, h, tag)) && (OffTrack(me, p, tag) <==> OffTrack(me, h, tag))
  {
    StepChannels(actor, h, b);
    SameChannels(me.parts, h.out.msgs, HalfStep(actor, h, b).value.1.out.msgs, tag);
  }

  lemma StepFraming(w: ObjWorld, side: Side, a: ObjAction, s: Side, tag: nat)
    requires ObjInv(w) && Framed(w, s, tag) && ObjStep(w, side, a).Some?
    ensures var v := ObjStep(w, side, a).value;
      && Framed(v, s, tag)
      && (OffTrack(v.From(s), v.net.At(s), tag)
          <==> OffTrack(w.From(s), w.net.At(s), tag) || (side == s && Disturbs(w.From(s), a, tag)))
  {
    var v := ObjStep(w, side, a).value;
    var me, h, peer := w.From(side), w.net.At(side), w.net.At(Other(side));
    if a.GiveUp? {
      if side == s {
        assert v.From(s).HalfwayOn(tag) == me.HalfwayOn(tag);
      }
    } else if side == s {
      ActorFraming(me, h, peer, a, tag);
    } else {
      PeerFraming(w.From(s), peer, h, OnEndpoint(me, a).value, tag);
    }
  }

  lemma {:induction false} RunFraming(w: ObjWorld, steps: seq<(Side, ObjAction)>, s: Side, tag: nat)
    requires ObjInv(w) && Framed(w, s, tag) && ObjRun(w, steps).Some?
    ensures var v := ObjRun(w, steps).value;
      && Framed(v, s, tag)
      && (OffTrack(v.From(s), v.net.At(s), tag)
          <==> OffTrack(w.From(s), w.net.At(s), tag) || Disturbed(w, steps, s, tag))
    decreases |steps|
  {
    if steps == [] {
    } else {
      var (side, a) := steps[0];
      ObjStepInv(w, side, a);
      StepFraming(w, side, a, s, tag);
      RunFraming(ObjStep(w, side, a).value, steps[1..], s, tag);
    }
  }

  /** In every run, the messages of one tag read back as the objects sent on it, whatever these
      contain, exactly if the tag was used by `send_obj` alone, no two calls on it overlapped, and
      none is, or ended, between its two sends. */
  lemma ReadsBackIffUndisturbed(steps: seq<(Side, ObjAction)>, w: ObjWorld, s: Side, tag: nat)
    requires ObjRun(FRESH, steps) == Some(w)
    ensures |w.From(s).parts| == |w.net.At(s).out.msgs|
    ensures ReadsBack(TagParts(w.From(s).parts, w.net.At(s).out.msgs, tag))
            <==> !Disturbed(FRESH, steps, s, tag) && w.From(s).HalfwayOn(tag) == {}
  {
    RunFraming(FRESH, steps, s, tag);
    ReadsBackIff(TagParts(w.From(s).parts, w.net.At(s).out.msgs, tag));
  }

  lemma StartSecond(w: ObjWorld, rest: seq<(Side, ObjAction)>)
    requires ObjRun(w, [(Left, SendLength(1, 0, false))] + rest).Some? && w.left.HalfwayOn(0) != {}
    ensures Disturbed(w, [(Left, SendLength(1, 0, false))] + rest, Left, 0)
  {
  }

  /** And that happens: two overlapping calls on one tag. */
  lemma OverlapDoesNotReadBack() returns (steps: seq<(Side, ObjAction)>, w: ObjWorld)
    ensures ObjRun(FRESH, steps) == Some(w) && w.left.HalfwayOn(0) == {}
    ensures w.left.parts == [Length(0), Length(1), Payload(0), Payload(1)]
    ensures |w.net.left.out.msgs| == 4 && !ReadsBack(TagParts(w.left.parts, w.net.left.out.msgs, 0))
  {
    var a, b := SendLength(0, 0, false), SendLength(1, 0, false);
    var w1 := ObjStep(FRESH, Left, a).value;
    var rest: seq<(Side, ObjAction)>;
    rest, w := FinishBoth(ObjStep(w1, Left, b).value);
    ObjThen(w1, Left, b, rest, w);
    ObjThen(FRESH, Left, a, [(Left, b)] + rest, w);
    assert 0 in w1.left.HalfwayOn(0);
    StartSecond(w1, rest);
    steps := [(Left, a)] + ([(Left, b)] + rest);
    assert steps[1..] == [(Left, b)] + rest;
    assert Disturbed(FRESH, steps, Left, 0);
    ReadsBackIffUndisturbed(steps, w, Left, 0);
  }

  lemma FinishBoth(w: ObjWorld) returns (steps: seq<(Side, ObjAction)>, v: ObjWorld)
    requires w.left.suspended == map[0 := 0, 1 := 0] && w.left.abandoned == map[] && !w.net.left.ep.Closed()
    ensures ObjRun(w, steps) == Some(v) && v.left.HalfwayOn(0) == {}
    ensures v.left.parts == w.left.parts + [Payload(0), Payload(1)]
  {
    var c, d := SendPayload(0, false), SendPayload(1, false);
    var w1 := ObjStep(w, Left, c).value;
    v := ObjStep(w1, Left, d).value;
    ObjThen(w1, Left, d, [], v);
    ObjThen(w, Left, c, [(Left, d)] + [], v);
    steps := [(Left, c)] + ([(Left, d)] + []);
  }

  // ---------------------------------------------------------------------------------------
  // The receiving side

  /** The numbers among `ids` of the messages on `tag`. */
  function OnTag(ids: seq<nat>, msgs: seq<Msg>, tag: nat): (r: seq<nat>)
    requires forall i :: 0 <= i < |ids| ==> ids[i] < |msgs|
    ensures forall x :: x in r <==> x in ids && x < |msgs| && msgs[x].chan == Tag(tag)
  {
    if ids == [] then []
    else
      var last := ids[|ids| - 1];
      assert ids == ids[..|ids| - 1] + [last];
      OnTag(ids[..|ids| - 1], msgs, tag) + if msgs[last].chan == Tag(tag) then [last] else []
  }

  function AllIds(msgs: seq<Msg>): (r: seq<nat>)
    ensures |r| == |msgs| && forall i :: 0 <= i < |r| ==> r[i] == i
  {
    seq(|msgs|, i => i)
  }

  predicate Increasing(s: seq<nat>) {
    forall i, j :: 0 <= i < j < |s| ==> s[i] < s[j]
  }

  lemma {:induction false} OnTagIncreasing(ids: seq<nat>, msgs: seq<Msg>, tag: nat)
    requires forall i :: 0 <= i < |ids| ==> ids[i] < |msgs|
    requires forall i, j :: 0 <= i < j < |ids| && SameTag(msgs, ids[i], ids[j]) ==> ids[i] < ids[j]
    ensures Increasing(OnTag(ids, msgs, tag))
  {
    if ids == [] {
    } else {
      var front, last := ids[..|ids| - 1], ids[|ids| - 1];
      OnTagIncreasing(front, msgs, tag);
      var r := OnTag(front, msgs, tag);
      forall i | 0 <= i < |r| && msgs[last].chan == Tag(tag)
        ensures r[i] < last
      {
        assert r[i] in r;
        var j :| 0 <= j < |front| && front[j] == r[i];
        assert SameTag(msgs, ids[j], last);
      }
    }
  }

  /** `b` has only members of `a`, and all that are not above one of its own. */
  ghost predicate LeavesOutAbove(a: seq<nat>, b: seq<nat>) {
    && (forall x :: x in b ==> x in a)
    && (forall x, y :: x in a && x !in b && y in b ==> y < x)
  }

  lemma LeavesOutAboveFront(a: seq<nat>, b: seq<nat>)
    requires Increasing(b) && b != [] && LeavesOutAbove(a, b)
    ensures LeavesOutAbove(a, b[..|b| - 1]) && Increasing(b[..|b| - 1])
  {
    var front, last := b[..|b| - 1], b[|b| - 1];
    assert b == front + [last];
    assert forall y :: y in front ==> y in b && y < last;
  }

  /** An increasing part of an increasing sequence that leaves out only what lies above is a prefix. */
  lemma {:induction false} PrefixOfIncreasing(a: seq<nat>, b: seq<nat>)
    requires Increasing(a) && Increasing(b) && LeavesOutAbove(a, b)
    ensures b <= a
  {
    if b == [] {
    } else {
      var front, last := b[..|b| - 1], b[|b| - 1];
      LeavesOutAboveFront(a, b);
      PrefixOfIncreasing(a, front);
      assert last in b;
      var j :| 0 <= j < |a| && a[j] == last;
      var x := a[|front|];
      assert x in b ==> x in front || x == last by { assert b == front + [last]; }
      assert x !in front;
      assert j == |front|;
    }
  }

  lemma StepMatches(me: Half, peer: Half, a: Action)
    requires AllMatched(me.out) && AllMatched(peer.out) && HalfStep(me, peer, a).Some?
    ensures var (g, p) := HalfStep(me, peer, a).value; AllMatched(g.out) && AllMatched(p.out)
  {
    if a.CtrlArrives? || Sending(me, a).Some? {
    } else if Receiving(me, peer.out, a).Some? {
      ReceivingChannels(me, peer.out, a);
    } else {
      ClosingChannels(me, a);
    }
  }

  lemma {:induction false} RunMatches(w: World, steps: seq<(Side, Action)>)
    requires AllMatched(w.left.out) && AllMatched(w.right.out) && Run(w, steps).Some?
    ensures var v := Run(w, steps).value; AllMatched(v.left.out) && AllMatched(v.right.out)
    decreases |steps|
  {
    if steps == [] {
    } else {
      var (s, a) := steps[0];
      StepMatches(w.At(s), w.At(Other(s)), a);
      RunMatches(Step(w, s, a).value, steps[1..]);
    }
  }

  /** Nothing sent on the tag was lost: no submission raised, nothing was dropped, no receive failed. */
  predicate NoneLost(msgs: seq<Msg>, tag: nat) {
    forall id :: 0 <= id < |msgs| && msgs[id].place == Lost ==> msgs[id].chan != Tag(tag)
  }

  /** In every run the receives on one tag are handed its messages in the order of sending without a
      gap, as long as none of them was lost. */
  lemma HandedOverInOrder(w: World, s: Side, tag: nat)
    requires Reachable(w) && NoneLost(w.At(s).out.msgs, tag)
    ensures forall i :: 0 <= i < |w.At(s).out.matched| ==> w.At(s).out.matched[i] < |w.At(s).out.msgs|
    ensures var p := w.At(s).out;
      OnTag(p.matched, p.msgs, tag) <= OnTag(AllIds(p.msgs), p.msgs, tag)
  {
    ReachableInv(w);
    var steps :| Run(CONNECTED, steps) == Some(w);
    RunMatches(CONNECTED, steps);
    PrefixOnTag(w.At(s).out, tag);
  }

  lemma PrefixOnTag(p: Pipe, tag: nat)
    requires InOrder(p) && AllMatched(p)
    requires NoneLost(p.msgs, tag)
    ensures OnTag(p.matched, p.msgs, tag) <= OnTag(AllIds(p.msgs), p.msgs, tag)
  {
    var all := AllIds(p.msgs);
    OnTagIncreasing(all, p.msgs, tag);
    OnTagIncreasing(p.matched, p.msgs, tag);
    LeavesOutWaiting(p, tag);
    PrefixOfIncreasing(OnTag(all, p.msgs, tag), OnTag(p.matched, p.msgs, tag));
  }

  /** What no receive has been handed was sent after everything that one has. */
  lemma LeavesOutWaiting(p: Pipe, tag: nat)
    requires InOrder(p) && AllMatched(p)
    requires NoneLost(p.msgs, tag)
    ensures LeavesOutAbove(OnTag(AllIds(p.msgs), p.msgs, tag), OnTag(p.matched, p.msgs, tag))
  {
    var all := AllIds(p.msgs);
    var sent, taken := OnTag(all, p.msgs, tag), OnTag(p.matched, p.msgs, tag);
    forall x | x in taken ensures x in sent {
      assert all[x] == x;
    }
    forall x, y | x in sent && x !in taken && y in taken
      ensures y < x
    {
      assert IsAt(p.msgs, x, Net);
      var i :| 0 <= i < |p.matched| && p.matched[i] == y;
      assert SameTag(p.msgs, p.matched[i], x);
    }
  }

  function PartsOf(parts: seq<Part>, ids: seq<nat>): seq<Part>
    requires forall i :: 0 <= i < |ids| ==> ids[i] < |parts|
  {
    seq(|ids|, i requires 0 <= i < |ids| => parts[ids[i]])
  }

  lemma PartsOfAppend(parts: seq<Part>, ids: seq<nat>, x: nat)
    requires x < |parts| && forall i :: 0 <= i < |ids| ==> ids[i] < |parts|
    ensures PartsOf(parts, ids + [x]) == PartsOf(parts, ids) + [parts[x]]
  {
  }

  lemma {:induction false} PartsOnTag(parts: seq<Part>, msgs: seq<Msg>, tag: nat, k: nat)
    requires |parts| == |msgs| && k <= |msgs|
    ensures var ids := OnTag(AllIds(msgs)[..k], msgs, tag);
      && (forall i :: 0 <= i < |ids| ==> ids[i] in ids && ids[i] < |parts|)
      && PartsOf(parts, ids) == TagParts(parts[..k], msgs[..k], tag)
    decreases k
  {
    if k == 0 {
    } else {
      PartsOnTag(parts, msgs, tag, k - 1);
      assert AllIds(msgs)[..k][..k - 1] == AllIds(msgs)[..k - 1];
      assert parts[..k][..k - 1] == parts[..k - 1] && msgs[..k][..k - 1] == msgs[..k - 1];
      var before := OnTag(AllIds(msgs)[..k - 1], msgs, tag);
      PartsOfAppend(parts, before, k - 1);
      assert OnTag(AllIds(msgs)[..k], msgs, tag) == before + if msgs[k - 1].chan == Tag(tag) then [k - 1] else [];
    }
  }

  /** Together: once the peer's receives have been handed every message of a tag, and none was lost,
      what they were handed, in that order, reads back as the objects sent exactly under the same
      condition. */
  lemma PeerReadsBackIff(steps: seq<(Side, ObjAction)>, w: ObjWorld, s: Side, tag: nat)
    requires ObjRun(FRESH, steps) == Some(w) && NoneLost(w.net.At(s).out.msgs, tag)
    requires forall id :: 0 <= id < |w.net.At(s).out.msgs| && w.net.At(s).out.msgs[id].chan == Tag(tag) ==>
               w.net.At(s).out.msgs[id].place != Net
    ensures var p := w.net.At(s).out;
      && |w.From(s).parts| == |p.msgs|
      && (forall i :: 0 <= i < |p.matched| ==> p.matched[i] < |p.msgs|)
      && var ids := OnTag(p.matched, p.msgs, tag);
         && (forall i :: 0 <= i < |ids| ==> ids[i] in ids && ids[i] < |p.msgs|)
         && (ReadsBack(PartsOf(w.From(s).parts, ids))
             <==> !Disturbed(FRESH, steps, s, tag) && w.From(s).HalfwayOn(tag) == {})
  {
    var base := ObjRunInv(FRESH, steps);
    ReadsBackIffUndisturbed(steps, w, s, tag);
    ReachableInv(w.net);
    RunMatches(CONNECTED, base);
    AllHandedOver(w.From(s).parts, w.net.At(s).out, tag);
  }

  lemma AllHandedOver(parts: seq<Part>, p: Pipe, tag: nat)
    requires InOrder(p) && AllMatched(p) && NoneLost(p.msgs, tag) && |parts| == |p.msgs|
    requires forall id :: 0 <= id < |p.msgs| && p.msgs[id].chan == Tag(tag) ==> p.msgs[id].place != Net
    ensures var ids := OnTag(p.matched, p.msgs, tag);
      && (forall i :: 0 <= i < |ids| ==> ids[i] in ids && ids[i] < |parts|)
      && PartsOf(parts, ids) == TagParts(parts, p.msgs, tag)
  {
    AllTaken(p, tag);
    PartsOnTag(parts, p.msgs, tag, |p.msgs|);
    assert AllIds(p.msgs)[..|p.msgs|] == AllIds(p.msgs);
    assert parts[..|p.msgs|] == parts && p.msgs[..|p.msgs|] == p.msgs;
  }

  lemma AllTaken(p: Pipe, tag: nat)
    requires InOrder(p) && AllMatched(p) && NoneLost(p.msgs, tag)
    requires forall id :: 0 <= id < |p.msgs| && p.msgs[id].chan == Tag(tag) ==> p.msgs[id].place != Net
    ensures OnTag(p.matched, p.msgs, tag) == OnTag(AllIds(p.msgs), p.msgs, tag)
  {
    PrefixOnTag(p, tag);
    var sent, taken := OnTag(AllIds(p.msgs), p.msgs, tag), OnTag(p.matched, p.msgs, tag);
    OnTagIncreasing(AllIds(p.msgs), p.msgs, tag);
    OnTagIncreasing(p.matched, p.msgs, tag);
    forall x | x in sent ensures x in taken {
      assert IsAt(p.msgs, x, Ready) || IsAt(p.msgs, x, Finished);
    }
    PrefixOfIncreasing(taken, sent);
  }
}
