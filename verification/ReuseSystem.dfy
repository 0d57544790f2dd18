/**
 Endpoint reuse as a whole (ucp/endpoint_reuse.py): the connection protocol and the reference counts
 of all processes together. A virtual endpoint is named by the end of the connect that made it; which
 underlying endpoint it uses is what that connect settled for.
 */
module ReuseSystem {
  import opened Wrappers
  import P = ReusePairing
  import C = ReuseCounts

  /** The handle of an underlying endpoint, and scans named by their connect: all processes fit into
      one set of counters. */
  function Code(e: P.End): nat {
    2 * e.conn + if e.client then 1 else 0
  }

  /** `live`: the virtual endpoints that have not been closed. */
  datatype Sys = Sys(net: P.Net, counts: C.Counts, live: set<P.End>)

  const NO_ENDPOINTS := Sys(P.NO_CONNECTIONS, C.NO_ENDPOINTS, {})

  datatype Step =
    | Connects(from: nat, to: nat, tags: P.Tags, list: seq<P.End>)
    | Answers(c: nat)
    | ServerRegisters(c: nat)
    | LetsGo(c: nat)
    | Finishes(c: nat)
    | Closes(v: P.End)
    | Aborts(v: P.End)
    | Dies(e: P.End)  // again once it is listed, if it died before

  /** The ids that the client sends of the endpoints in its list: those of the open ones. */
  function IdsOf(n: P.Net, list: seq<P.End>): seq<nat>
    requires forall e :: e in list ==> P.Known(n, e)
  {
    if list == [] then []
    else (if list[0] in n.closed then [] else [P.RecvTag(n, list[0])]) + IdsOf(n, list[1..])
  }

  function CodesOf(list: seq<P.End>): seq<nat> {
    seq(|list|, i requires 0 <= i < |list| => Code(list[i]))
  }

  /** The virtual endpoint has been made. */
  predicate Settled(n: P.Net, v: P.End) {
    v.conn < |n.connects| &&
    var k := n.connects[v.conn];
    if v.client then k.phase.Finished? else !k.phase.Asked? && (k.phase.chosen == P.End(v.conn, false) ==> k.serverListed)
  }

  /** The underlying endpoint that it uses. */
  function Use(n: P.Net, v: P.End): P.End
    requires Settled(n, v)
  {
    var k := n.connects[v.conn];
    if v.client then k.phase.clientChosen else k.phase.chosen
  }

  /** What the server finds for the ids that a client has sent. */
  function Found(n: P.Net, c: nat): Option<P.End>
    requires c < |n.connects| && n.connects[c].phase.Asked?
  {
    P.Pick(P.RegistryOf(n, n.connects[c].to), n.closed, n.connects[c].phase.ids, None)
  }

  /** The endpoint that the client settles for. */
  function ClientUse(n: P.Net, c: nat): P.End
    requires c < |n.connects| && n.connects[c].phase.Answered?
  {
    var r, reply := P.RegistryOf(n, n.connects[c].from), n.connects[c].phase.reply;
    if P.Reuses(reply) && reply.value in r then r[reply.value] else P.End(c, true)
  }

  ghost predicate Registered(n: P.Net, p: nat, e: P.End) {
    exists k :: k in P.RegistryOf(n, p) && P.RegistryOf(n, p)[k] == e
  }

  ghost predicate Possible(s: Sys, a: Step) {
    match a
    case Connects(from, to, t, list) =>
      && (forall e :: e in list ==> Registered(s.net, from, e) && P.Known(s.net, e))
      && (forall i, j :: 0 <= i < j < |list| ==> list[i] != list[j])
      && P.Fresh(s.net, t)
    case Answers(c) => P.Possible(s.net, P.Answers(c))
    case ServerRegisters(c) => P.Possible(s.net, P.ServerRegisters(c))
    case LetsGo(c) => P.Possible(s.net, P.Finishes(c)) && c in s.counts.scans && s.counts.scans[c] != []
    case Finishes(c) => P.Possible(s.net, P.Finishes(c)) && C.Possible(s.counts, C.EndScan(c))
    case Closes(v) => v in s.live
    case Aborts(v) => v in s.live
    case Dies(_) => true
  }

  /** A connect's new endpoint gets a handle, an existing one a user. */
  function Settle(made: bool, e: P.End): C.Step {
    if made then C.NewHandle(Code(e)) else C.Share(Code(e))
  }

  /** What the step does to the connections, if anything. */
  function NetStep(s: Sys, a: Step): Option<P.Step>
    requires a.Connects? ==> forall e :: e in a.list ==> P.Known(s.net, e)
    requires a.Aborts? ==> Settled(s.net, a.v)
  {
    match a
    case Connects(from, to, t, list) => Some(P.Connects(from, to, t, IdsOf(s.net, list)))
    case Answers(c) => Some(P.Answers(c))
    case ServerRegisters(c) => Some(P.ServerRegisters(c))
    case Finishes(c) => Some(P.Finishes(c))
    case Dies(e) => Some(P.Closes(e))
    case Aborts(v) =>
      var h := Code(Use(s.net, v));
      if h in s.counts.open && h in s.counts.refs && s.counts.refs[h] == 1 then Some(P.Closes(Use(s.net, v))) else None
    case _ => None
  }

  /** And to the counters. */
  function CountStep(s: Sys, a: Step): Option<C.Step>
    requires a.Closes? || a.Aborts? ==> Settled(s.net, a.v)
    requires a.Answers? ==> a.c < |s.net.connects| && s.net.connects[a.c].phase.Asked?
    requires a.Finishes? ==> a.c < |s.net.connects| && s.net.connects[a.c].phase.Answered?
  {
    match a
    case Connects(_, _, _, list) => Some(C.BeginScan(|s.net.connects|, CodesOf(list)))
    case Answers(c) => if Found(s.net, c).Some? then Some(C.Share(Code(Found(s.net, c).value))) else None
    case ServerRegisters(c) => Some(C.NewHandle(Code(P.End(c, false))))
    case LetsGo(c) => Some(C.ReleaseNext(c))
    case Finishes(c) => Some(Settle(ClientUse(s.net, c) == P.End(c, true), ClientUse(s.net, c)))
    case Closes(v) => if Code(Use(s.net, v)) in s.counts.open then Some(C.CloseVirtual(Code(Use(s.net, v)))) else None
    case Aborts(v) => if Code(Use(s.net, v)) in s.counts.open then Some(C.AbortVirtual(Code(Use(s.net, v)))) else None
    case Dies(e) => Some(C.Dies(Code(e)))
  }

  /** The virtual endpoint that the step makes. */
  function Made(n: P.Net, a: Step): set<P.End>
    requires a.Answers? ==> a.c < |n.connects| && n.connects[a.c].phase.Asked?
  {
    match a
    case Answers(c) => if Found(n, c).Some? then {P.End(c, false)} else {}
    case ServerRegisters(c) => {P.End(c, false)}
    case Finishes(c) => {P.End(c, true)}
    case _ => {}
  }

  /** Every assertion and lookup of the step succeeds, and every counter that it moves exists. */
  ghost predicate Sound(s: Sys, a: Step)
    requires Possible(s, a)
  {
    && (a.Closes? || a.Aborts? ==> Settled(s.net, a.v))
    && (NetStep(s, a).Some? ==> P.Possible(s.net, NetStep(s, a).value) && P.Sound(s.net, NetStep(s, a).value))
    && (CountStep(s, a).Some? ==> C.Possible(s.counts, CountStep(s, a).value))
    && (a.Finishes? ==> C.Possible(C.Next(s.counts, CountStep(s, a).value), C.EndScan(a.c)))
  }

  ghost function Next(s: Sys, a: Step): Sys
    requires Possible(s, a) && Sound(s, a)
  {
    var net := if NetStep(s, a).Some? then P.Next(s.net, NetStep(s, a).value) else s.net;
    var counts := if CountStep(s, a).Some? then C.Next(s.counts, CountStep(s, a).value) else s.counts;
    var live := if a.Closes? || a.Aborts? then s.live - {a.v} else s.live + Made(s.net, a);
    Sys(net, if a.Finishes? then C.Next(counts, C.EndScan(a.c)) else counts, live)
  }

  // ---------------------------------------------------------------------------------------
  // The invariant

  /** The live virtual endpoints that use `e`. */
  ghost function Users(s: Sys, e: P.End): set<P.End> {
    set v | v in s.live && Settled(s.net, v) && Use(s.net, v) == e
  }

  /** The connect of `e` has made its endpoint an existing one. */
  predicate Listed(n: P.Net, e: P.End) {
    && e.conn < |n.connects|
    && if e.client then n.connects[e.conn].phase.Finished? && n.connects[e.conn].phase.clientChosen == e
       else n.connects[e.conn].serverListed
  }

  ghost predicate CountsMatch(s: Sys) {
    && (forall e: P.End :: Code(e) in s.counts.refs <==> Listed(s.net, e))
    && (forall e: P.End :: Code(e) in s.counts.open ==> C.Virtuals(s.counts, Code(e)) == |Users(s, e)|)
    && s.counts.repeats == map[]
  }

  ghost predicate NetMatches(s: Sys) {
    && (forall v: P.End :: Settled(s.net, v) ==> Listed(s.net, Use(s.net, v)))
    && (forall v: P.End :: v in s.live ==> Settled(s.net, v))
    && (forall id :: id in s.counts.scans ==> id < |s.net.connects| && !s.net.connects[id].phase.Finished?)
  }

  ghost predicate Inv(s: Sys) {
    P.Inv(s.net) && C.Inv(s.counts) && CountsMatch(s) && NetMatches(s)
  }

  /** What is registered was made an existing endpoint by its connect. */
  lemma RegisteredListed(n: P.Net, p: nat, k: nat)
    requires P.Inv(n) && k in P.RegistryOf(n, p)
    ensures Listed(n, P.RegistryOf(n, p)[k])
  {
    assert P.EntryOk(n, k, P.RegistryOf(n, p)[k]);
  }

  lemma FoundListed(n: P.Net, c: nat)
    requires P.Inv(n) && c < |n.connects| && n.connects[c].phase.Asked?
    ensures Found(n, c).Some? ==> Listed(n, Found(n, c).value) && Found(n, c).value.conn != c
  {
    var r, ids := P.RegistryOf(n, n.connects[c].to), n.connects[c].phase.ids;
    P.PickFound(r, n.closed, ids, None);
    P.PickedIsMate(n, c);
    if Found(n, c).Some? {
      var id :| id in ids && id in r && r[id] == Found(n, c).value;
      RegisteredListed(n, n.connects[c].to, id);
    }
  }

  lemma ClientUseListed(n: P.Net, c: nat)
    requires P.Inv(n) && c < |n.connects| && n.connects[c].phase.Answered?
    ensures ClientUse(n, c) != P.End(c, true) ==> Listed(n, ClientUse(n, c))
    ensures P.Reuses(n.connects[c].phase.reply) ==> ClientUse(n, c) != P.End(c, true)
  {
    P.StepsAreSound(n, P.Finishes(c));
    var r, reply := P.RegistryOf(n, n.connects[c].from), n.connects[c].phase.reply;
    if P.Reuses(reply) {
      RegisteredListed(n, n.connects[c].from, reply.value);
    }
  }

  /** A step of the connections keeps what is settled and what is listed. */
  ghost predicate NetGrows(n: P.Net, m: P.Net) {
    && (forall v: P.End :: Settled(n, v) ==> Settled(m, v) && Use(m, v) == Use(n, v))
    && (forall e: P.End :: Listed(n, e) ==> Listed(m, e))
  }

  lemma CodesDiffer(e: P.End, f: P.End)
    ensures Code(e) == Code(f) <==> e == f
  {
  }

  lemma {:induction false} IdsKnown(n: P.Net, list: seq<P.End>, id: nat)
    requires (forall e :: e in list ==> P.Known(n, e)) && id in IdsOf(n, list)
    ensures exists e :: e in list && id == P.RecvTag(n, e)
  {
    if list == [] {
    } else if list[0] !in n.closed && id == P.RecvTag(n, list[0]) {
      assert list[0] in list;
    } else {
      IdsKnown(n, list[1..], id);
      var e :| e in list[1..] && id == P.RecvTag(n, e);
      assert e in list;
    }
  }

  /** The client sends the ids of the open endpoints in its list and no others. */
  lemma {:induction false} IdsAreOpen(n: P.Net, list: seq<P.End>, id: nat)
    requires forall e :: e in list ==> P.Known(n, e)
    ensures id in IdsOf(n, list) <==> exists e :: e in list && e !in n.closed && id == P.RecvTag(n, e)
  {
    if list == [] {
    } else {
      IdsAreOpen(n, list[1..], id);
      assert list == [list[0]] + list[1..];
    }
  }

  // ---------------------------------------------------------------------------------------
  // Every step is sound

  lemma ConnectsSound(s: Sys, a: Step)
    requires Inv(s) && Possible(s, a) && a.Connects?
    ensures Sound(s, a)
  {
    var ids, r := IdsOf(s.net, a.list), P.RegistryOf(s.net, a.from);
    forall id | id in ids
      ensures exists k :: k in r && P.Known(s.net, r[k]) && id == P.RecvTag(s.net, r[k])
    {
      IdsKnown(s.net, a.list, id);
      var e :| e in a.list && id == P.RecvTag(s.net, e);
      assert Registered(s.net, a.from, e);
    }
    forall h | h in CodesOf(a.list)
      ensures h in s.counts.refs
    {
      var i :| 0 <= i < |a.list| && h == Code(a.list[i]);
      assert a.list[i] in a.list && Registered(s.net, a.from, a.list[i]);
      var k :| k in r && r[k] == a.list[i];
      RegisteredListed(s.net, a.from, k);
    }
  }

  lemma StepsAreSound(s: Sys, a: Step)
    requires Inv(s) && Possible(s, a)
    ensures Sound(s, a)
  {
    match a
    case Connects(_, _, _, _) => ConnectsSound(s, a);
    case Answers(c) =>
      P.StepsAreSound(s.net, P.Answers(c));
      FoundListed(s.net, c);
    case ServerRegisters(c) => P.StepsAreSound(s.net, P.ServerRegisters(c));
    case LetsGo(c) =>
      assert s.counts.scans[c][0] in s.counts.scans[c];
    case Finishes(c) =>
      P.StepsAreSound(s.net, P.Finishes(c));
      ClientUseListed(s.net, c);
    case Closes(v) => UserCounted(s, v);
    case Aborts(v) => UserCounted(s, v);
    case Dies(_) =>
  }

  /** A live virtual endpoint counts as a user of what it uses. */
  lemma UserCounted(s: Sys, v: P.End)
    requires Inv(s) && v in s.live
    ensures Settled(s.net, v) && v in Users(s, Use(s.net, v)) && Code(Use(s.net, v)) in s.counts.refs
    ensures Code(Use(s.net, v)) in s.counts.open ==> C.Virtuals(s.counts, Code(Use(s.net, v))) > 0
  {
    assert v in Users(s, Use(s.net, v));
  }

  // ---------------------------------------------------------------------------------------
  // Every step keeps the invariant

  lemma NetInvNext(s: Sys, a: Step)
    requires Inv(s) && Possible(s, a) && Sound(s, a)
    ensures P.Inv(Next(s, a).net)
  {
    if NetStep(s, a).Some? {
      P.NextInv(s.net, NetStep(s, a).value);
    }
  }

  lemma CountsNext(s: Sys, a: Step)
    requires Inv(s) && Possible(s, a) && Sound(s, a)
    ensures C.Inv(Next(s, a).counts)
  {
    if CountStep(s, a).Some? {
      C.NextInv(s.counts, CountStep(s, a).value);
    }
    if a.Finishes? {
      C.NextInv(C.Next(s.counts, CountStep(s, a).value), C.EndScan(a.c));
    }
  }

  /** What the virtual endpoint made by the step will use. */
  function MadeUse(n: P.Net, a: Step): P.End
    requires a.Answers? ==> a.c < |n.connects| && n.connects[a.c].phase.Asked? && Found(n, a.c).Some?
    requires a.Finishes? ==> a.c < |n.connects| && n.connects[a.c].phase.Answered?
    requires a.Answers? || a.ServerRegisters? || a.Finishes?
  {
    match a
    case Answers(c) => Found(n, c).value
    case ServerRegisters(c) => P.End(c, false)
    case Finishes(c) => ClientUse(n, c)
  }

  /** The endpoint that the step adds to the existing ones. */
  function NewlyListed(n: P.Net, a: Step): set<P.End>
    requires a.Finishes? ==> a.c < |n.connects| && n.connects[a.c].phase.Answered?
  {
    match a
    case ServerRegisters(c) => {P.End(c, false)}
    case Finishes(c) => if ClientUse(n, c) == P.End(c, true) then {P.End(c, true)} else {}
    case _ => {}
  }

  /** What the step does to the connects: from `n` to `m`, one of them moves on. */
  predicate Moves(n: P.Net, m: P.Net, a: Step) {
    match a
    case Connects(_, _, _, _) =>
      |m.connects| == |n.connects| + 1 && n.connects <= m.connects
      && m.connects[|n.connects|].phase.Asked? && !m.connects[|n.connects|].serverListed
    case Answers(c) =>
      && c < |n.connects| == |m.connects| && n.connects[c].phase.Asked? && m.connects[c].phase.Answered?
      && m.connects == n.connects[c := n.connects[c].(phase := m.connects[c].phase)]
      && m.connects[c].phase.chosen == if Found(n, c).Some? then Found(n, c).value else P.End(c, false)
    case ServerRegisters(c) =>
      && c < |n.connects| && !n.connects[c].phase.Asked? && !n.connects[c].serverListed
      && n.connects[c].phase.chosen == P.End(c, false)
      && m.connects == n.connects[c := n.connects[c].(serverListed := true)]
    case Finishes(c) =>
      && c < |n.connects| && n.connects[c].phase.Answered?
      && m.connects == n.connects[c := n.connects[c].(phase := P.Finished(n.connects[c].phase.chosen, ClientUse(n, c)))]
    case _ => m.connects == n.connects
  }

  lemma NetMoves(s: Sys, a: Step)
    requires Inv(s) && Possible(s, a) && Sound(s, a)
    ensures Moves(s.net, Next(s, a).net, a)
  {
  }

  /** The step settles the virtual endpoint that it makes, and no other. */
  lemma NewlySettled(n: P.Net, m: P.Net, a: Step)
    requires P.Inv(n) && Moves(n, m, a)
    ensures forall v :: v in Made(n, a) ==> !Settled(n, v) && Settled(m, v) && Use(m, v) == MadeUse(n, a)
    ensures forall v: P.End :: Settled(m, v) ==> Settled(n, v) || v in Made(n, a)
  {
    if a.Answers? {
      FoundListed(n, a.c);
      assert P.ConnectOk(n, a.c);
    }
  }

  lemma StaysSettled(n: P.Net, m: P.Net, a: Step)
    requires P.Inv(n) && Moves(n, m, a)
    ensures NetGrows(n, m)
  {
  }

  lemma NewlyListedBy(n: P.Net, m: P.Net, a: Step)
    requires P.Inv(n) && Moves(n, m, a)
    ensures forall e: P.End :: Listed(m, e) <==> Listed(n, e) || e in NewlyListed(n, a)
  {
    if a.Finishes? {
      ClientUseListed(n, a.c);
    }
  }

  lemma UsesListed(n: P.Net, m: P.Net, a: Step)
    requires P.Inv(n) && Moves(n, m, a)
    requires forall v: P.End :: Settled(n, v) ==> Listed(n, Use(n, v))
    ensures forall v: P.End :: Settled(m, v) ==> Listed(m, Use(m, v))
  {
    NewlySettled(n, m, a);
    StaysSettled(n, m, a);
    NewlyListedBy(n, m, a);
    if a.Answers? {
      FoundListed(n, a.c);
    } else if a.Finishes? {
      ClientUseListed(n, a.c);
    }
  }

  /** How the counters of a handle change. */
  function Change(a: Option<C.Step>, h: nat): int {
    match a
    case Some(NewHandle(g)) => if g == h then 1 else 0
    case Some(Share(g)) => if g == h then 1 else 0
    case Some(CloseVirtual(g)) => if g == h then -1 else 0
    case Some(AbortVirtual(g)) => if g == h then -1 else 0
    case _ => 0
  }

  lemma CountEffect(c: C.Counts, a: C.Step)
    requires C.Inv(c) && C.Possible(c, a) && c.repeats == map[] && !a.CloseAgain?
    requires a.CloseVirtual? || a.AbortVirtual? ==> a.h in c.open
    ensures var d := C.Next(c, a);
      && d.repeats == map[]
      && (forall h :: h in d.refs <==> h in c.refs || a == C.NewHandle(h))
      && (forall h :: h in d.open ==> h in c.open || a == C.NewHandle(h))
      && (forall h :: h in c.open && h !in d.open ==> a == C.Dies(h) || (a == C.AbortVirtual(h) && c.refs[h] == 1))
      && (a.NewHandle? ==> a.h in d.open)
      && (forall h :: h in c.open || a == C.NewHandle(h) ==>
            C.Virtuals(d, h) == C.Virtuals(c, h) + Change(Some(a), h))
      && d.scans.Keys == (if a.BeginScan? then c.scans.Keys + {a.id}
                          else if a.EndScan? then c.scans.Keys - {a.id} else c.scans.Keys)
  {
    if a.BeginScan? {
      C.HeldEffect(c.refs, c.open, a.list);
    }
  }

  lemma ScansNext(s: Sys, a: Step)
    requires Inv(s) && Possible(s, a) && Sound(s, a)
    ensures var t := Next(s, a);
      forall id :: id in t.counts.scans ==> id < |t.net.connects| && !t.net.connects[id].phase.Finished?
  {
    NetMoves(s, a);
    if CountStep(s, a).Some? {
      CountEffect(s.counts, CountStep(s, a).value);
    }
  }

  lemma NetMatchesNext(s: Sys, a: Step)
    requires Inv(s) && Possible(s, a) && Sound(s, a)
    ensures NetMatches(Next(s, a))
  {
    var t := Next(s, a);
    NetMoves(s, a);
    NewlySettled(s.net, t.net, a);
    StaysSettled(s.net, t.net, a);
    UsesListed(s.net, t.net, a);
    ScansNext(s, a);
  }

  /** The users of `e` with the one that the step makes, and without the one that it closes. */
  ghost function UsersAfter(s: Sys, a: Step, e: P.End): set<P.End>
    requires Possible(s, a)
  {
    if a.Closes? || a.Aborts? then Users(s, e) - {a.v}
    else if Made(s.net, a) != {} && MadeUse(s.net, a) == e then Users(s, e) + Made(s.net, a)
    else Users(s, e)
  }

  lemma UsersNext(s: Sys, a: Step, e: P.End)
    requires Inv(s) && Possible(s, a) && Sound(s, a)
    ensures Users(Next(s, a), e) == UsersAfter(s, a, e)
  {
    NetMoves(s, a);
    NewlySettled(s.net, Next(s, a).net, a);
    StaysSettled(s.net, Next(s, a).net, a);
  }

  lemma OneMore(a: set<P.End>, v: P.End)
    requires v !in a
    ensures |a + {v}| == |a| + 1
  {
  }

  /** The counters follow the users. */
  lemma UsersCounted(s: Sys, a: Step, e: P.End)
    requires Inv(s) && Possible(s, a) && Sound(s, a)
    requires Code(e) in s.counts.open || CountStep(s, a) == Some(C.NewHandle(Code(e)))
    ensures |Users(Next(s, a), e)| == |Users(s, e)| + Change(CountStep(s, a), Code(e))
  {
    UsersNext(s, a, e);
    if a.Closes? || a.Aborts? {
      LeaverCounted(s, a, e);
    } else if a.Answers? || a.ServerRegisters? || a.Finishes? {
      MadeIsNew(s, a);
      NewcomerCounted(s, a, e);
    } else {
      assert UsersAfter(s, a, e) == Users(s, e);
    }
  }

  lemma ChangeOfLeft(s: Sys, a: Step, e: P.End)
    requires Inv(s) && Possible(s, a) && Sound(s, a) && (a.Closes? || a.Aborts?) && Code(e) in s.counts.open
    ensures Change(CountStep(s, a), Code(e)) == if a.v in Users(s, e) then -1 else 0
  {
    UserCounted(s, a.v);
    if Code(Use(s.net, a.v)) == Code(e) {
      CodesDiffer(Use(s.net, a.v), e);
    }
  }

  lemma LeaverCounted(s: Sys, a: Step, e: P.End)
    requires Inv(s) && Possible(s, a) && Sound(s, a) && (a.Closes? || a.Aborts?) && Code(e) in s.counts.open
    ensures |UsersAfter(s, a, e)| == |Users(s, e)| + Change(CountStep(s, a), Code(e))
  {
    ChangeOfLeft(s, a, e);
    OneFewer(Users(s, e), a.v);
  }

  lemma OneFewer(a: set<P.End>, v: P.End)
    ensures |a - {v}| == |a| - if v in a then 1 else 0
  {
    if v !in a {
      assert a - {v} == a;
    }
  }

  lemma ChangeOfMade(s: Sys, a: Step, e: P.End)
    requires Possible(s, a) && Sound(s, a) && (a.Answers? || a.ServerRegisters? || a.Finishes?)
    ensures Change(CountStep(s, a), Code(e)) == if Made(s.net, a) != {} && MadeUse(s.net, a) == e then 1 else 0
    ensures Made(s.net, a) == {} || exists v :: Made(s.net, a) == {v}
  {
    if Made(s.net, a) != {} && Code(MadeUse(s.net, a)) == Code(e) {
      CodesDiffer(MadeUse(s.net, a), e);
    }
  }

  lemma NewcomerCounted(s: Sys, a: Step, e: P.End)
    requires Possible(s, a) && Sound(s, a) && (a.Answers? || a.ServerRegisters? || a.Finishes?)
    requires forall v :: v in Made(s.net, a) ==> v !in Users(s, e)
    ensures |UsersAfter(s, a, e)| == |Users(s, e)| + Change(CountStep(s, a), Code(e))
  {
    ChangeOfMade(s, a, e);
    if Made(s.net, a) != {} {
      var v :| Made(s.net, a) == {v};
      assert v in Made(s.net, a);
      OneMore(Users(s, e), v);
    }
  }

  lemma MadeIsNew(s: Sys, a: Step)
    requires Inv(s) && Possible(s, a) && Sound(s, a)
    ensures forall v, e :: v in Made(s.net, a) ==> v !in Users(s, e)
  {
    NetMoves(s, a);
    NewlySettled(s.net, Next(s, a).net, a);
  }

  /** What the step does to the counters, taken together. */
  lemma CountsEffect(s: Sys, a: Step)
    requires Inv(s) && Possible(s, a) && Sound(s, a)
    ensures var d := Next(s, a).counts;
      && d.repeats == map[]
      && (forall h :: h in d.refs <==> h in s.counts.refs || CountStep(s, a) == Some(C.NewHandle(h)))
      && (forall h :: h in d.open ==> h in s.counts.open || CountStep(s, a) == Some(C.NewHandle(h)))
      && (forall h :: h in s.counts.open && h !in d.open ==>
            || CountStep(s, a) == Some(C.Dies(h))
            || (CountStep(s, a) == Some(C.AbortVirtual(h)) && h in s.counts.refs && s.counts.refs[h] == 1))
      && (forall h :: CountStep(s, a) == Some(C.NewHandle(h)) ==> h in d.open)
      && (forall h :: h in d.open ==> C.Virtuals(d, h) == C.Virtuals(s.counts, h) + Change(CountStep(s, a), h))
  {
    if CountStep(s, a).Some? {
      CountEffect(s.counts, CountStep(s, a).value);
    }
  }

  lemma CountsMatchNext(s: Sys, a: Step)
    requires Inv(s) && Possible(s, a) && Sound(s, a)
    ensures CountsMatch(Next(s, a))
  {
    var t := Next(s, a);
    NetMoves(s, a);
    NewlyListedBy(s.net, t.net, a);
    CountsEffect(s, a);
    forall e: P.End | Code(e) in t.counts.open
      ensures C.Virtuals(t.counts, Code(e)) == |Users(t, e)|
    {
      UsersCounted(s, a, e);
      if Code(e) !in s.counts.open {
        NewHandleUnused(s, e);
      }
    }
  }

  /** Nothing uses an endpoint that is not listed yet. */
  lemma NewHandleUnused(s: Sys, e: P.End)
    requires Inv(s) && Code(e) !in s.counts.refs
    ensures Users(s, e) == {} && C.Virtuals(s.counts, Code(e)) == 0
  {
  }

  lemma NextInv(s: Sys, a: Step)
    requires Inv(s) && Possible(s, a)
    ensures Sound(s, a) && Inv(Next(s, a))
  {
    StepsAreSound(s, a);
    NetInvNext(s, a);
    CountsNext(s, a);
    CountsMatchNext(s, a);
    NetMatchesNext(s, a);
  }

  // ---------------------------------------------------------------------------------------
  // Every run

  /** Every step of the run is possible and sound. */
  ghost predicate Goes(s: Sys, steps: seq<Step>, t: Sys)
    decreases |steps|
  {
    if steps == [] then s == t
    else Possible(s, steps[0]) && Sound(s, steps[0]) && Goes(Next(s, steps[0]), steps[1..], t)
  }

  lemma {:induction false} GoesInv(s: Sys, steps: seq<Step>, t: Sys)
    requires Inv(s) && Goes(s, steps, t)
    ensures Inv(t)
    decreases |steps|
  {
    if steps == [] {
    } else {
      NextInv(s, steps[0]);
      GoesInv(Next(s, steps[0]), steps[1..], t);
    }
  }

  /** In every run of all processes no assertion fails, no lookup misses, and no counter is missing
      that a step moves. */
  lemma NothingFails(steps: seq<Step>, s: Sys, a: Step)
    requires Goes(NO_ENDPOINTS, steps, s) && Possible(s, a)
    ensures Sound(s, a)
  {
    GoesInv(NO_ENDPOINTS, steps, s);
    StepsAreSound(s, a);
  }

  /** What the counters take for closed, the connections do. */
  ghost predicate ClosedAgrees(s: Sys) {
    forall e: P.End :: Listed(s.net, e) && Code(e) !in s.counts.open ==> e in s.net.closed
  }

  lemma NetClosedNext(s: Sys, a: Step, e: P.End)
    requires Possible(s, a) && Sound(s, a)
    ensures e in s.net.closed || NetStep(s, a) == Some(P.Closes(e)) ==> e in Next(s, a).net.closed
  {
  }

  lemma ClosedNext(s: Sys, a: Step, e: P.End)
    requires Inv(s) && Possible(s, a) && Sound(s, a)
    requires CountStep(s, a) == Some(C.Dies(Code(e)))
             || (CountStep(s, a) == Some(C.AbortVirtual(Code(e))) && Code(e) in s.counts.open
                 && Code(e) in s.counts.refs && s.counts.refs[Code(e)] == 1)
    ensures NetStep(s, a) == Some(P.Closes(e))
  {
    if a.Aborts? {
      CodesDiffer(Use(s.net, a.v), e);
    } else {
      CodesDiffer(a.e, e);
    }
  }

  lemma ClosedAgreesNext(s: Sys, a: Step)
    requires Inv(s) && Possible(s, a) && Sound(s, a) && ClosedAgrees(s)
    ensures ClosedAgrees(Next(s, a))
  {
    var t := Next(s, a);
    NetMoves(s, a);
    NewlyListedBy(s.net, t.net, a);
    CountsEffect(s, a);
    forall e: P.End | Listed(t.net, e) && Code(e) !in t.counts.open
      ensures e in t.net.closed
    {
      NetClosedNext(s, a, e);
      if Code(e) in s.counts.open {
        ClosedNext(s, a, e);
      }
    }
  }

  lemma {:induction false} GoesClosed(s: Sys, steps: seq<Step>, t: Sys)
    requires Inv(s) && ClosedAgrees(s) && Goes(s, steps, t)
    ensures ClosedAgrees(t)
    decreases |steps|
  {
    if steps == [] {
    } else {
      NextInv(s, steps[0]);
      ClosedAgreesNext(s, steps[0]);
      GoesClosed(Next(s, steps[0]), steps[1..], t);
    }
  }

  /** In every run an existing endpoint that was aborted with its last user, or has died, is closed for
      every later connect too. */
  lemma AbortedIsClosed(steps: seq<Step>, s: Sys, e: P.End)
    requires Goes(NO_ENDPOINTS, steps, s) && Listed(s.net, e) && Code(e) !in s.counts.open
    ensures e in s.net.closed
  {
    GoesClosed(NO_ENDPOINTS, steps, s);
  }

  /** In every run the counter of an open endpoint is the number of live virtual endpoints whose
      connects settled for it, plus the number of clients that hold it while they connect. */
  lemma CounterCountsConnects(steps: seq<Step>, s: Sys, e: P.End)
    requires Goes(NO_ENDPOINTS, steps, s) && Code(e) in s.counts.open
    ensures Code(e) in s.counts.refs
    ensures s.counts.refs[Code(e)] == |Users(s, e)| + |C.Holding(s.counts, Code(e))|
  {
    GoesInv(NO_ENDPOINTS, steps, s);
  }

  lemma ClosedUnused(s: Sys, a: Step, e: P.End)
    requires Inv(s) && Possible(s, a) && Sound(s, a) && Next(s, a).counts.closes == s.counts.closes + [Code(e)]
    ensures Users(Next(s, a), e) == {}
  {
    var closes := Next(s, a).counts.closes;
    assert closes[|s.counts.closes|] == Code(e);
    assert CountStep(s, a).Some?;
    var b := CountStep(s, a).value;
    C.LastUserCloses(s.counts, b);
    CountEffect(s.counts, b);
    UsersCounted(s, a, e);
  }

  /** When the code starts to close an end of a connection, no live virtual endpoint uses that end;
      and no virtual connection of which both ends are live runs over it at all, except one whose
      server answered with tag zero. */
  lemma CloseCutsNoLivePair(steps: seq<Step>, s: Sys, a: Step, e: P.End, v: P.End)
    requires Goes(NO_ENDPOINTS, steps, s) && Possible(s, a)
    requires Sound(s, a) && Next(s, a).counts.closes == s.counts.closes + [Code(e)]
    ensures Users(Next(s, a), e) == {}
    ensures var t := Next(s, a);
      v in t.live && P.Mate(v) in t.live ==>
        && Settled(t.net, v) && Settled(t.net, P.Mate(v))
        && (Use(t.net, v).conn == e.conn ==>
              var chosen := t.net.connects[v.conn].phase.chosen;
              chosen.conn != v.conn && P.Known(t.net, chosen) && P.RecvTag(t.net, chosen) == 0)
  {
    GoesInv(NO_ENDPOINTS, steps, s);
    NextInv(s, a);
    ClosedUnused(s, a, e);
    var t := Next(s, a);
    if v in t.live && P.Mate(v) in t.live {
      assert P.ConnectOk(t.net, v.conn);
      assert v !in Users(t, e) && P.Mate(v) !in Users(t, e);
    }
  }
}
