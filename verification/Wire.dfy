/**
 What the endpoints put on the wire (ucp/core.py): the packed control message, the exchange of
 tags when a connection is made, and the two messages that carry an object.
 */
module Wire {
  import opened Wrappers

  type byte = x: nat | x < 256

  const U64 := 0x1_0000_0000_0000_0000

  function Power(b: nat, k: nat): nat {
    if k == 0 then 1 else b * Power(b, k - 1)
  }

  /** `k` bytes, least significant first. */
  function Pack(n: nat, k: nat): (r: seq<byte>)
    ensures |r| == k
  {
    if k == 0 then [] else [n % 256] + Pack(n / 256, k - 1)
  }

  function Unpack(bs: seq<byte>): nat {
    if bs == [] then 0 else bs[0] + 256 * Unpack(bs[1..])
  }

  lemma {:induction false} PackRoundTrip(n: nat, k: nat)
    requires n < Power(256, k)
    ensures Unpack(Pack(n, k)) == n
  {
    if k == 0 {
    } else {
      PackRoundTrip(n / 256, k - 1);
      assert Pack(n, k)[1..] == Pack(n / 256, k - 1);
    }
  }

  lemma {:induction false} UnpackRoundTrip(bs: seq<byte>)
    ensures Pack(Unpack(bs), |bs|) == bs && Unpack(bs) < Power(256, |bs|)
  {
    if bs == [] {
    } else {
      UnpackRoundTrip(bs[1..]);
      var u := Unpack(bs);
      assert u % 256 == bs[0] && u / 256 == Unpack(bs[1..]);
      assert bs == [bs[0]] + bs[1..];
    }
  }

  lemma Power256_8()
    ensures Power(256, 8) == U64
  {
    assert Power(256, 4) == 0x1_0000_0000;
    assert Power(256, 8) == 256 * (256 * (256 * (256 * Power(256, 4))));
  }

  /** `struct.pack("Q...", ...)`; a value that does not fit raises. */
  function PackWords(ws: seq<nat>): Option<seq<byte>> {
    if exists i :: 0 <= i < |ws| && ws[i] >= U64 then None else Some(Words(ws))
  }

  function Words(ws: seq<nat>): (r: seq<byte>)
    ensures |r| == 8 * |ws|
  {
    if ws == [] then [] else Pack(ws[0], 8) + Words(ws[1..])
  }

  function UnpackWords(bs: seq<byte>): seq<nat>
    requires |bs| % 8 == 0
    decreases |bs|
  {
    if bs == [] then [] else [Unpack(bs[..8])] + UnpackWords(bs[8..])
  }

  lemma {:induction false} WordsRoundTrip(ws: seq<nat>)
    requires forall i :: 0 <= i < |ws| ==> ws[i] < U64
    ensures UnpackWords(Words(ws)) == ws
  {
    if ws == [] {
    } else {
      Power256_8();
      PackRoundTrip(ws[0], 8);
      assert Words(ws)[..8] == Pack(ws[0], 8) && Words(ws)[8..] == Words(ws[1..]);
      WordsRoundTrip(ws[1..]);
    }
  }

  lemma {:induction false} WordsOfUnpacked(bs: seq<byte>)
    requires |bs| % 8 == 0
    ensures Words(UnpackWords(bs)) == bs
    ensures forall i :: 0 <= i < |UnpackWords(bs)| ==> UnpackWords(bs)[i] < U64
    decreases |bs|
  {
    if bs == [] {
    } else {
      Power256_8();
      UnpackRoundTrip(bs[..8]);
      WordsOfUnpacked(bs[8..]);
      assert bs == bs[..8] + bs[8..];
    }
  }

  /** `CtrlMsg.serialize` and `CtrlMsg.deserialize` are inverse wherever packing does not raise. */
  lemma CtrlMsgRoundTrip(opcode: nat, n: nat)
    ensures PackWords([opcode, n]).Some? <==> opcode < U64 && n < U64
    ensures PackWords([opcode, n]).Some? ==>
              var bs := PackWords([opcode, n]).value; |bs| == 16 && UnpackWords(bs) == [opcode, n]
  {
    var ws := [opcode, n];
    assert ws[0] == opcode && ws[1] == n;
    if opcode < U64 && n < U64 {
      WordsRoundTrip(ws);
    }
  }

  // ---------------------------------------------------------------------------------------
  // Exchanging tags

  datatype PeerInfo = PeerInfo(msgTag: nat, ctrlTag: nat)

  datatype EpTags = EpTags(msgSend: nat, msgRecv: nat, ctrlSend: nat, ctrlRecv: nat)

  /** A 16-digit hexadecimal number, as `hash64bits` takes from a SHA-1 digest. */
  function HexValue(digits: seq<nat>): nat {
    if digits == [] then 0 else HexValue(digits[..|digits| - 1]) * 16 + digits[|digits| - 1]
  }

  lemma {:induction false} HexBelow(digits: seq<nat>)
    requires forall i :: 0 <= i < |digits| ==> digits[i] < 16
    ensures HexValue(digits) < Power(16, |digits|)
  {
    if digits == [] {
    } else {
      HexBelow(digits[..|digits| - 1]);
    }
  }

  /** A hash fits the field it is packed into. */
  lemma HashBelow(digits: seq<nat>)
    requires |digits| == 16 && forall i :: 0 <= i < |digits| ==> digits[i] < 16
    ensures HexValue(digits) < U64
  {
    HexBelow(digits);
    assert Power(16, 8) == 0x1_0000_0000;
    assert Power(16, 12) == 0x1_0000_0000_0000;
  }

  /** Different digits give different numbers. */
  lemma {:induction false} HexInjective(a: seq<nat>, b: seq<nat>)
    requires |a| == |b| && HexValue(a) == HexValue(b)
    requires forall i :: 0 <= i < |a| ==> a[i] < 16 && b[i] < 16
    ensures a == b
  {
    if a == [] {
    } else {
      var last := |a| - 1;
      assert HexValue(a) % 16 == a[last] && HexValue(b) % 16 == b[last];
      HexInjective(a[..last], b[..last]);
      assert a == a[..last] + [a[last]] && b == b[..last] + [b[last]];
    }
  }

  /** The message an endpoint sends about itself; `hash` stands for `hash64bits`. */
  function MyInfo(i: PeerInfo, hash: (nat, nat) -> nat): Option<seq<byte>> {
    PackWords([i.msgTag, i.ctrlTag, hash(i.msgTag, i.ctrlTag)])
  }

  /** Reading the peer's message; a bad checksum raises. */
  function ReadInfo(bs: seq<byte>, hash: (nat, nat) -> nat): Option<PeerInfo>
    requires |bs| == 24
  {
    var ws := UnpackWords(bs);
    assert |ws| == 3 by { WordsOfUnpacked(bs); }
    if hash(ws[0], ws[1]) == ws[2] then Some(PeerInfo(ws[0], ws[1])) else None
  }

  function TagsOf(mine: PeerInfo, peer: PeerInfo): EpTags {
    EpTags(peer.msgTag, mine.msgTag, peer.ctrlTag, mine.ctrlTag)
  }

  /** For every two pairs of tags, what each side sends reads back on the other; each side receives
      messages on the message tag that it drew and control messages on the control tag that it drew,
      and sends on exactly the tags on which the other receives. */
  lemma HandshakeCrossWires(a: PeerInfo, b: PeerInfo, hash: (nat, nat) -> nat)
    requires a.msgTag < U64 && a.ctrlTag < U64 && b.msgTag < U64 && b.ctrlTag < U64
    requires forall x, y :: hash(x, y) < U64
    ensures MyInfo(a, hash).Some? && MyInfo(b, hash).Some?
    ensures var (ma, mb) := (MyInfo(a, hash).value, MyInfo(b, hash).value);
      && |ma| == 24 && |mb| == 24 && ReadInfo(ma, hash) == Some(a) && ReadInfo(mb, hash) == Some(b)
      && var (ta, tb) := (TagsOf(a, ReadInfo(mb, hash).value), TagsOf(b, ReadInfo(ma, hash).value));
         && ta.msgSend == tb.msgRecv && ta.msgRecv == tb.msgSend
         && ta.ctrlSend == tb.ctrlRecv && ta.ctrlRecv == tb.ctrlSend
         && ta.msgRecv == a.msgTag && ta.ctrlRecv == a.ctrlTag && tb.msgRecv == b.msgTag && tb.ctrlRecv == b.ctrlTag
  {
    assert hash(a.msgTag, a.ctrlTag) < U64 && hash(b.msgTag, b.ctrlTag) < U64;
    WordsRoundTrip([a.msgTag, a.ctrlTag, hash(a.msgTag, a.ctrlTag)]);
    WordsRoundTrip([b.msgTag, b.ctrlTag, hash(b.msgTag, b.ctrlTag)]);
  }

  /** So if the tags drawn differ, no message travels on a control channel or the other way round, and
      the two directions stay apart. */
  lemma ChannelsStayApart(a: PeerInfo, b: PeerInfo)
    requires a.msgTag != a.ctrlTag && b.msgTag != b.ctrlTag
    requires {a.msgTag, a.ctrlTag} !! {b.msgTag, b.ctrlTag}
    ensures var (ta, tb) := (TagsOf(a, b), TagsOf(b, a));
      && {ta.msgSend, ta.msgRecv, tb.msgSend, tb.msgRecv} !! {ta.ctrlSend, ta.ctrlRecv, tb.ctrlSend, tb.ctrlRecv}
      && ta.msgSend != ta.msgRecv && ta.ctrlSend != ta.ctrlRecv
      && tb.msgSend != tb.msgRecv && tb.ctrlSend != tb.ctrlRecv
  {
  }

  /** A message is accepted exactly when it is what some endpoint with those tags would have sent;
      an altered message is accepted only with the checksum of the tags it carries. */
  lemma AcceptedIff(bs: seq<byte>, hash: (nat, nat) -> nat, i: PeerInfo)
    requires |bs| == 24 && forall x, y :: hash(x, y) < U64
    ensures ReadInfo(bs, hash) == Some(i) <==> MyInfo(i, hash) == Some(bs)
  {
    WordsOfUnpacked(bs);
    var ws := UnpackWords(bs);
    assert |ws| == 3;
    if ReadInfo(bs, hash) == Some(i) {
      assert ws == [i.msgTag, i.ctrlTag, hash(i.msgTag, i.ctrlTag)];
    }
    if MyInfo(i, hash) == Some(bs) {
      WordsRoundTrip([i.msgTag, i.ctrlTag, hash(i.msgTag, i.ctrlTag)]);
    }
  }

  // ---------------------------------------------------------------------------------------
  // The order of the exchange

  datatype Pc = AtSend | AtRecv | AtEnd

  /** One side of `exchange_peer_info`, and whether its message is waiting in the stream. */
  datatype Party = Party(listens: bool, pc: Pc, waiting: bool)

  function Starting(listens: bool): Party {
    Party(listens, if listens then AtSend else AtRecv, false)
  }

  function AfterSend(p: Party): Party {
    p.(pc := if p.listens then AtRecv else AtEnd)
  }

  function AfterRecv(p: Party): Party {
    p.(pc := if p.listens then AtEnd else AtSend)
  }

  datatype Exchange = Exchange(a: Party, b: Party)

  /** A send may complete by leaving its message in the stream, or only together with the peer's
      receive. */
  datatype Move = Deposit | Take | Handover

  function MoveOf(me: Party, peer: Party, m: Move): Option<(Party, Party)> {
    match m
    case Deposit => if me.pc == AtSend && !me.waiting then Some((AfterSend(me).(waiting := true), peer)) else None
    case Take => if me.pc == AtRecv && peer.waiting then Some((AfterRecv(me), peer.(waiting := false))) else None
    case Handover =>
      if me.pc == AtSend && !me.waiting && peer.pc == AtRecv then Some((AfterSend(me), AfterRecv(peer))) else None
  }

  function Apply(x: Exchange, first: bool, m: Move): Option<Exchange> {
    if first then
      match MoveOf(x.a, x.b, m)
      case Some((p, q)) => Some(Exchange(p, q))
      case None => None
    else
      match MoveOf(x.b, x.a, m)
      case Some((p, q)) => Some(Exchange(q, p))
      case None => None
  }

  ghost predicate Leads(x: Exchange, moves: seq<(bool, Move)>, y: Exchange)
    decreases |moves|
  {
    if moves == [] then x == y
    else
      match Apply(x, moves[0].0, moves[0].1)
      case None => false
      case Some(z) => Leads(z, moves[1..], y)
  }

  /** Some move does not depend on the stream having room. */
  predicate CanProgress(x: Exchange) {
    || Apply(x, true, Take).Some? || Apply(x, false, Take).Some?
    || Apply(x, true, Handover).Some? || Apply(x, false, Handover).Some?
  }

  predicate Over(x: Exchange) {
    x.a.pc == AtEnd && x.b.pc == AtEnd
  }

  ghost predicate NeverStuck(x: Exchange) {
    forall moves, y :: Leads(x, moves, y) ==> Over(y) || CanProgress(y)
  }

  /** The listener `l` sends first, the client `c` answers. */
  predicate Alternating(l: Party, c: Party) {
    && l.listens && !c.listens
    && match (l.pc, c.pc)
       case (AtSend, AtRecv) => !l.waiting && !c.waiting
       case (AtRecv, AtRecv) => l.waiting && !c.waiting
       case (AtRecv, AtSend) => !l.waiting && !c.waiting
       case (AtRecv, AtEnd) => !l.waiting && c.waiting
       case (AtEnd, AtEnd) => !l.waiting && !c.waiting
       case _ => false
  }

  lemma {:induction false} AlternatingLeads(x: Exchange, moves: seq<(bool, Move)>, y: Exchange)
    requires (Alternating(x.a, x.b) || Alternating(x.b, x.a)) && Leads(x, moves, y)
    ensures Alternating(y.a, y.b) || Alternating(y.b, y.a)
    decreases |moves|
  {
    if moves == [] {
    } else {
      AlternatingLeads(Apply(x, moves[0].0, moves[0].1).value, moves[1..], y);
    }
  }

  /** The exchange cannot get stuck, even on a stream without room, exactly when one side listens
      and the other does not. */
  lemma ExchangeNeverStuckIff(aListens: bool, bListens: bool)
    ensures NeverStuck(Exchange(Starting(aListens), Starting(bListens))) <==> aListens != bListens
  {
    var x := Exchange(Starting(aListens), Starting(bListens));
    if aListens == bListens {
      var none: seq<(bool, Move)> := [];
      assert Leads(x, none, x);
      assert !Over(x) && !CanProgress(x);
    } else {
      forall moves, y | Leads(x, moves, y)
        ensures Over(y) || CanProgress(y)
      {
        AlternatingLeads(x, moves, y);
      }
    }
  }

  // ---------------------------------------------------------------------------------------
  // Objects

  /** The counted messages of one `send_obj`. */
  function Frames(obj: seq<byte>): seq<seq<byte>> {
    [Pack(|obj|, 8), obj]
  }

  function AllFrames(objs: seq<seq<byte>>): seq<seq<byte>> {
    if objs == [] then [] else Frames(objs[0]) + AllFrames(objs[1..])
  }

  /** `recv_obj` on a tag whose next messages are `q`, and what it leaves there; a message of
      unexpected length raises. */
  function ReadObj(q: seq<seq<byte>>): (Option<seq<byte>>, seq<seq<byte>>)
    requires |q| >= 2
  {
    if |q[0]| != 8 then (None, q[1..])
    else if |q[1]| != Unpack(q[0]) then (None, q[2..])
    else (Some(q[1]), q[2..])
  }

  /** `recv_obj` returns an object exactly if the next two messages are what `send_obj` makes of it; it
      never uses up more than these two. */
  lemma ReadObjIff(q: seq<seq<byte>>, obj: seq<byte>)
    requires |q| >= 2 && |obj| < U64
    ensures var (r, rest) := ReadObj(q);
      && (r == Some(obj) <==> q[..2] == Frames(obj))
      && (r.Some? ==> rest == q[2..]) && (rest == q[1..] || rest == q[2..])
      && (rest == q[1..] <==> |q[0]| != 8)
  {
    Power256_8();
    PackRoundTrip(|obj|, 8);
    UnpackRoundTrip(q[0]);
    assert |q[1..]| != |q[2..]|;
    assert q[..2] == [q[0], q[1]];
  }

  /** `k` calls of `recv_obj`. */
  function ReadMany(q: seq<seq<byte>>, k: nat): Option<seq<seq<byte>>> {
    if k == 0 then Some([])
    else if |q| < 2 then None
    else
      match ReadObj(q)
      case (None, _) => None
      case (Some(obj), rest) =>
        match ReadMany(rest, k - 1)
        case None => None
        case Some(objs) => Some([obj] + objs)
  }

  lemma ReadOneFrame(obj: seq<byte>, rest: seq<seq<byte>>)
    requires |obj| < U64
    ensures ReadObj(Frames(obj) + rest) == (Some(obj), rest)
  {
    Power256_8();
    PackRoundTrip(|obj|, 8);
  }

  /** Any sequence of objects is read back as itself, from two counted messages each. */
  lemma {:induction false} ObjectsRoundTrip(objs: seq<seq<byte>>)
    requires forall i :: 0 <= i < |objs| ==> |objs[i]| < U64
    ensures ReadMany(AllFrames(objs), |objs|) == Some(objs) && |AllFrames(objs)| == 2 * |objs|
  {
    if objs == [] {
    } else {
      ReadOneFrame(objs[0], AllFrames(objs[1..]));
      ObjectsRoundTrip(objs[1..]);
      assert objs == [objs[0]] + objs[1..];
    }
  }

  /** The messages of one tag, which UCX hands over in order, and the counters of the two ends. */
  class ObjectChannel {
    var queue: seq<seq<byte>>
    var sendCount: nat
    var finishedRecvCount: nat

    method Send(msg: seq<byte>)
      modifies this
      ensures queue == old(queue) + [msg] && sendCount == old(sendCount) + 1
      ensures finishedRecvCount == old(finishedRecvCount)
    {
      queue := queue + [msg];
      sendCount := sendCount + 1;
    }

    /** `recv` into a buffer of `nbytes`; the message is used up even if its length is wrong. */
    method Recv(nbytes: nat) returns (msg: Option<seq<byte>>)
      requires queue != []
      modifies this
      ensures queue == old(queue)[1..] && sendCount == old(sendCount)
      ensures msg == (if |old(queue)[0]| == nbytes then Some(old(queue)[0]) else None)
      ensures finishedRecvCount == old(finishedRecvCount) + if msg.Some? then 1 else 0
    {
      var m := queue[0];
      queue := queue[1..];
      if |m| != nbytes {
        return None;
      }
      finishedRecvCount := finishedRecvCount + 1;
      msg := Some(m);
    }

    method SendObj(obj: seq<byte>)
      requires |obj| < U64
      modifies this
      ensures queue == old(queue) + Frames(obj) && sendCount == old(sendCount) + 2
      ensures finishedRecvCount == old(finishedRecvCount)
    {
      Send(Pack(|obj|, 8));
      Send(obj);
    }

    /** `recv_obj`, once both messages have arrived. */
    method RecvObj() returns (r: Option<seq<byte>>)
      requires |queue| >= 2
      modifies this
      ensures (r, queue) == ReadObj(old(queue)) && sendCount == old(sendCount)
      ensures finishedRecvCount ==
              old(finishedRecvCount) + if |old(queue)[0]| != 8 then 0 else if r == None then 1 else 2
    {
      var header := Recv(8);
      if header == None {
        return None;
      }
      r := Recv(Unpack(header.value));
    }
  }
}
