/**
 The connection protocol of ucp/endpoint_reuse.py, for any number of processes that connect to
 each other (or to themselves) in any interleaving.
 */
module ReusePairing {
  import opened Wrappers

  /** One end of connection `conn`. */
  datatype End = End(conn: nat, client: bool)

  /** The tags that the two ends of a connection agreed on. */
  datatype Tags = Tags(client: nat, server: nat)

  /** The dictionary `existing_endpoints`: a registered end by its `msg_send` tag. */
  type Registry = map<nat, End>

  datatype Phase =
    | Asked(ids: seq<nat>)
    | Answered(reply: Option<nat>, chosen: End)
    | Finished(chosen: End, clientChosen: End)

  /** Connection `conn` from process `from` to process `to`; `serverListed` once the server has
      registered its own end. */
  datatype Connect = Connect(from: nat, to: nat, phase: Phase, serverListed: bool)

  datatype Net = Net(tags: seq<Tags>, connects: seq<Connect>, registries: map<nat, Registry>, closed: set<End>)

  const NO_CONNECTIONS := Net([], [], map[], {})

  function RegistryOf(n: Net, p: nat): Registry {
    if p in n.registries then n.registries[p] else map[]
  }

  function Mate(e: End): End {
    End(e.conn, !e.client)
  }

  predicate Known(n: Net, e: End) {
    e.conn < |n.tags|
  }

  /** `_tags["msg_recv"]` */
  function RecvTag(n: Net, e: End): nat
    requires Known(n, e)
  {
    if e.client then n.tags[e.conn].client else n.tags[e.conn].server
  }

  /** `_tags["msg_send"]` */
  function SendTag(n: Net, e: End): nat
    requires Known(n, e)
  {
    RecvTag(n, Mate(e))
  }

  function Register(n: Net, p: nat, e: End): Net
    requires Known(n, e)
  {
    n.(registries := n.registries[p := RegistryOf(n, p)[SendTag(n, e) := e]])
  }

  /** The server's choice: the first open end that one of the ids leads to, or else whatever the
      last id led to. */
  function Pick(r: Registry, closed: set<End>, ids: seq<nat>, found: Option<End>): Option<End>
    decreases |ids|
  {
    if ids == [] then found
    else
      var e := if ids[0] in r then Some(r[ids[0]]) else None;
      if e.Some? && e.value !in closed then e else Pick(r, closed, ids[1..], e)
  }

  ghost predicate LeadsToOpen(r: Registry, closed: set<End>, id: nat) {
    id in r && r[id] !in closed
  }

  ghost predicate IsFirstOpen(r: Registry, closed: set<End>, ids: seq<nat>, i: nat)
    requires i < |ids|
  {
    LeadsToOpen(r, closed, ids[i]) && forall j :: 0 <= j < i ==> !LeadsToOpen(r, closed, ids[j])
  }

  /** The choice is an open end exactly when some id leads to one, and then it is the first. */
  lemma {:induction false} PicksFirstOpen(r: Registry, closed: set<End>, ids: seq<nat>, found: Option<End>)
    ensures var e := Pick(r, closed, ids, found);
      && (forall i :: 0 <= i < |ids| && IsFirstOpen(r, closed, ids, i) ==> e == Some(r[ids[i]]))
      && (ids != [] && (forall i :: 0 <= i < |ids| ==> !LeadsToOpen(r, closed, ids[i])) ==>
            var last := ids[|ids| - 1]; e == if last in r then Some(r[last]) else None)
    decreases |ids|
  {
    if ids != [] && !LeadsToOpen(r, closed, ids[0]) {
      var e := if ids[0] in r then Some(r[ids[0]]) else None;
      PicksFirstOpen(r, closed, ids[1..], e);
      forall i | 0 <= i < |ids| && IsFirstOpen(r, closed, ids, i)
        ensures i > 0 && IsFirstOpen(r, closed, ids[1..], i - 1)
      {
        assert forall j :: 0 <= j < i - 1 ==> ids[1..][j] == ids[j + 1];
      }
    }
  }

  method PickExisting(r: Registry, closed: set<End>, ids: seq<nat>) returns (found: Option<End>)
    ensures found == Pick(r, closed, ids, None)
  {
    found := None;
    var i := 0;
    while i < |ids|
      invariant 0 <= i <= |ids|
      invariant Pick(r, closed, ids[i..], found) == Pick(r, closed, ids, None)
    {
      assert ids[i..][1..] == ids[i + 1..];
      found := if ids[i] in r then Some(r[ids[i]]) else None;
      if found.Some? && found.value !in closed {
        return;
      }
      i := i + 1;
    }
  }

  datatype Step =
    | Connects(from: nat, to: nat, tags: Tags, ids: seq<nat>)
    | Answers(c: nat)
    | ServerRegisters(c: nat)
    | Finishes(c: nat)
    | Closes(e: End)

  /** No tag has been handed out before. */
  ghost predicate Fresh(n: Net, t: Tags) {
    t.client != t.server && forall e: End :: Known(n, e) ==> RecvTag(n, e) != t.client && RecvTag(n, e) != t.server
  }

  ghost predicate Possible(n: Net, s: Step) {
    match s
    case Connects(from, _, t, ids) =>
      Fresh(n, t) &&
      forall id :: id in ids ==>
        exists k :: k in RegistryOf(n, from) && Known(n, RegistryOf(n, from)[k])
                    && id == RecvTag(n, RegistryOf(n, from)[k])
    case Answers(c) => c < |n.connects| == |n.tags| && n.connects[c].phase.Asked?
    case ServerRegisters(c) =>
      c < |n.connects| == |n.tags| && !n.connects[c].phase.Asked? && !n.connects[c].serverListed
      && n.connects[c].phase.chosen == End(c, false)
    case Finishes(c) => c < |n.connects| == |n.tags| && n.connects[c].phase.Answered?
    case Closes(_) => true
  }

  function SetPhase(n: Net, c: nat, p: Phase): Net
    requires c < |n.connects|
  {
    n.(connects := n.connects[c := n.connects[c].(phase := p)])
  }

  /** Does the client use an existing endpoint? A reply of zero looks like no reply. */
  predicate Reuses(reply: Option<nat>) {
    reply.Some? && reply.value != 0
  }

  /** What the code asserts, or looks up, in a step. */
  ghost predicate Sound(n: Net, s: Step)
    requires Possible(n, s)
  {
    match s
    case Answers(c) =>
      var found := Pick(RegistryOf(n, n.connects[c].to), n.closed, n.connects[c].phase.ids, None);
      found.Some? ==> Known(n, found.value)
    case ServerRegisters(c) => SendTag(n, End(c, false)) !in RegistryOf(n, n.connects[c].to)
    case Finishes(c) =>
      var r, reply := RegistryOf(n, n.connects[c].from), n.connects[c].phase.reply;
      if Reuses(reply) then reply.value in r else SendTag(n, End(c, true)) !in r
    case _ => true
  }

  ghost function Next(n: Net, s: Step): Net
    requires Possible(n, s) && Sound(n, s)
  {
    match s
    case Connects(from, to, t, ids) =>
      n.(tags := n.tags + [t], connects := n.connects + [Connect(from, to, Asked(ids), false)])
    case Answers(c) =>
      var found := Pick(RegistryOf(n, n.connects[c].to), n.closed, n.connects[c].phase.ids, None);
      SetPhase(n, c, if found.Some? then Answered(Some(RecvTag(n, found.value)), found.value)
                     else Answered(None, End(c, false)))
    case ServerRegisters(c) =>
      Register(n, n.connects[c].to, End(c, false)).(
        connects := n.connects[c := n.connects[c].(serverListed := true)])
    case Finishes(c) =>
      var p, ph := n.connects[c].from, n.connects[c].phase;
      if Reuses(ph.reply) then SetPhase(n, c, Finished(ph.chosen, RegistryOf(n, p)[ph.reply.value]))
      else Register(SetPhase(n, c, Finished(ph.chosen, End(c, true))), p, End(c, true))
    case Closes(e) => n.(closed := n.closed + {e})
  }

  // ---------------------------------------------------------------------------------------
  // The invariant

  /** All tags differ. */
  ghost predicate TagsUnique(n: Net) {
    forall e: End, f: End :: Known(n, e) && Known(n, f) && e != f ==> RecvTag(n, e) != RecvTag(n, f)
  }

  /** What is registered under a tag sends with it, and its registration was accounted for. */
  ghost predicate EntryOk(n: Net, k: nat, e: End)
    requires |n.connects| == |n.tags|
  {
    && Known(n, e) && k == SendTag(n, e)
    && (if e.client then n.connects[e.conn].phase.Finished? && n.connects[e.conn].phase.clientChosen == e
        else n.connects[e.conn].serverListed)
  }

  ghost predicate Listed(n: Net, p: nat, e: End) {
    Known(n, e) && SendTag(n, e) in RegistryOf(n, p) && RegistryOf(n, p)[SendTag(n, e)] == e
  }

  ghost predicate ConnectOk(n: Net, c: nat)
    requires c < |n.connects| == |n.tags|
  {
    var k := n.connects[c];
    && (k.serverListed ==> !k.phase.Asked? && k.phase.chosen == End(c, false))
    && match k.phase
       case Asked(ids) =>
         forall id :: id in ids ==> exists e: End :: Listed(n, k.from, e) && RecvTag(n, e) == id
       case Answered(reply, chosen) =>
         if reply == None then chosen == End(c, false)
         else chosen.conn != c && Known(n, chosen) && reply == Some(RecvTag(n, chosen)) && Listed(n, k.from, Mate(chosen))
       case Finished(chosen, clientChosen) =>
         Known(n, chosen) &&
         if chosen.conn == c then chosen == End(c, false) && clientChosen == End(c, true)
         else clientChosen == if RecvTag(n, chosen) != 0 then Mate(chosen) else End(c, true)
  }

  ghost predicate Inv(n: Net) {
    && |n.connects| == |n.tags|
    && TagsUnique(n)
    && (forall p, k :: k in RegistryOf(n, p) ==> EntryOk(n, k, RegistryOf(n, p)[k]))
    && (forall c :: 0 <= c < |n.connects| ==> ConnectOk(n, c))
  }

  lemma {:induction false} PickFound(r: Registry, closed: set<End>, ids: seq<nat>, found: Option<End>)
    ensures var e := Pick(r, closed, ids, found);
      e == found || (e.Some? ==> exists id :: id in ids && id in r && r[id] == e.value)
    decreases |ids|
  {
    if ids == [] {
    } else {
      var e := if ids[0] in r then Some(r[ids[0]]) else None;
      if !(e.Some? && e.value !in closed) {
        PickFound(r, closed, ids[1..], e);
      }
    }
  }

  /** The end that the server picks is the mate of an end that the client has registered. */
  lemma PickedIsMate(n: Net, c: nat)
    requires Inv(n) && c < |n.connects| && n.connects[c].phase.Asked?
    ensures var found := Pick(RegistryOf(n, n.connects[c].to), n.closed, n.connects[c].phase.ids, None);
      found.Some? ==> Known(n, found.value) && found.value.conn != c && Listed(n, n.connects[c].from, Mate(found.value))
  {
    var r, ids := RegistryOf(n, n.connects[c].to), n.connects[c].phase.ids;
    var found := Pick(r, n.closed, ids, None);
    PickFound(r, n.closed, ids, None);
    if found.Some? {
      var id :| id in ids && id in r && r[id] == found.value;
      assert EntryOk(n, id, found.value) && ConnectOk(n, c);
      var e: End :| Listed(n, n.connects[c].from, e) && RecvTag(n, e) == id;
      assert RecvTag(n, Mate(found.value)) == RecvTag(n, e);
      assert Mate(found.value) == e;
    }
  }

  lemma KeyIdentifies(n: Net, p: nat, e: End)
    requires Inv(n) && Known(n, e) && SendTag(n, e) in RegistryOf(n, p)
    ensures RegistryOf(n, p)[SendTag(n, e)] == e && EntryOk(n, SendTag(n, e), e)
  {
    var k := SendTag(n, e);
    var f := RegistryOf(n, p)[k];
    assert EntryOk(n, k, f);
    assert Mate(f) == Mate(e);
  }

  lemma RegisterEntries(n: Net, p: nat, e: End)
    requires Known(n, e) && SendTag(n, e) !in RegistryOf(n, p)
    ensures var m := Register(n, p, e);
      && (forall q, k :: k in RegistryOf(m, q) ==>
            || (k in RegistryOf(n, q) && RegistryOf(m, q)[k] == RegistryOf(n, q)[k])
            || (k == SendTag(n, e) && RegistryOf(m, q)[k] == e))
      && (forall q, f: End :: Listed(n, q, f) ==> Listed(m, q, f))
  {
  }

  /** No assertion of the protocol fails and no lookup misses. */
  lemma StepsAreSound(n: Net, s: Step)
    requires Inv(n) && Possible(n, s)
    ensures Sound(n, s)
  {
    match s
    case Answers(c) => PickedIsMate(n, c);
    case ServerRegisters(c) =>
      assert ConnectOk(n, c);
      if SendTag(n, End(c, false)) in RegistryOf(n, n.connects[c].to) {
        KeyIdentifies(n, n.connects[c].to, End(c, false));
      }
    case Finishes(c) =>
      assert ConnectOk(n, c);
      if SendTag(n, End(c, true)) in RegistryOf(n, n.connects[c].from) {
        KeyIdentifies(n, n.connects[c].from, End(c, true));
      }
    case _ =>
  }

  lemma ConnectsInv(n: Net, s: Step)
    requires Inv(n) && Possible(n, s) && s.Connects?
    ensures Inv(Next(n, s))
  {
    var m := Next(n, s);
    assert forall e: End :: Known(n, e) ==> Known(m, e) && RecvTag(m, e) == RecvTag(n, e);
    forall p, k | k in RegistryOf(m, p)
      ensures EntryOk(m, k, RegistryOf(m, p)[k])
    {
      assert EntryOk(n, k, RegistryOf(n, p)[k]);
    }
    forall c | 0 <= c < |m.connects|
      ensures ConnectOk(m, c)
    {
      if c < |n.connects| {
        assert ConnectOk(n, c);
        assert forall p, e: End :: Listed(n, p, e) ==> Listed(m, p, e);
      } else {
        forall id | id in s.ids
          ensures exists e: End :: Listed(m, s.from, e) && RecvTag(m, e) == id
        {
          var k :| k in RegistryOf(n, s.from) && Known(n, RegistryOf(n, s.from)[k])
                   && id == RecvTag(n, RegistryOf(n, s.from)[k]);
          assert EntryOk(n, k, RegistryOf(n, s.from)[k]);
          assert Listed(m, s.from, RegistryOf(n, s.from)[k]);
        }
      }
    }
  }

  /** Moving one connect on, and perhaps registering one of its ends. */
  lemma AdvanceInv(n: Net, m: Net, c: nat)
    requires Inv(n) && c < |n.connects| && m.tags == n.tags
    requires |m.connects| == |n.connects| && forall i :: 0 <= i < |n.connects| && i != c ==> m.connects[i] == n.connects[i]
    requires forall p, e: End :: Listed(n, p, e) ==> Listed(m, p, e)
    requires forall p, k :: k in RegistryOf(m, p) ==>
               EntryOk(m, k, RegistryOf(m, p)[k])
    requires ConnectOk(m, c)
    ensures Inv(m)
  {
    assert forall e: End :: Known(n, e) <==> Known(m, e);
    assert forall e: End :: Known(n, e) ==> RecvTag(n, e) == RecvTag(m, e);
    forall i | 0 <= i < |m.connects|
      ensures ConnectOk(m, i)
    {
      if i != c {
        assert ConnectOk(n, i);
      }
    }
  }

  lemma AnswersInv(n: Net, c: nat)
    requires Inv(n) && Possible(n, Answers(c))
    ensures Sound(n, Answers(c)) && Inv(Next(n, Answers(c)))
  {
    PickedIsMate(n, c);
    var m := Next(n, Answers(c));
    assert ConnectOk(n, c);
    forall p, k | k in RegistryOf(m, p)
      ensures EntryOk(m, k, RegistryOf(m, p)[k])
    {
      assert EntryOk(n, k, RegistryOf(n, p)[k]);
    }
    assert forall p, e: End :: Listed(n, p, e) ==> Listed(m, p, e);
    AdvanceInv(n, m, c);
  }

  lemma ServerRegistersInv(n: Net, c: nat)
    requires Inv(n) && Possible(n, ServerRegisters(c)) && Sound(n, ServerRegisters(c))
    ensures Inv(Next(n, ServerRegisters(c)))
  {
    var m := Next(n, ServerRegisters(c));
    assert ConnectOk(n, c);
    forall p, k | k in RegistryOf(m, p)
      ensures EntryOk(m, k, RegistryOf(m, p)[k])
    {
      assert k in RegistryOf(n, p) ==> EntryOk(n, k, RegistryOf(n, p)[k]);
    }
    assert forall p, e: End :: Listed(n, p, e) ==> Listed(m, p, e);
    AdvanceInv(n, m, c);
  }

  lemma FinishesReusingInv(n: Net, c: nat)
    requires Inv(n) && Possible(n, Finishes(c)) && Sound(n, Finishes(c)) && Reuses(n.connects[c].phase.reply)
    ensures Inv(Next(n, Finishes(c)))
  {
    var m := Next(n, Finishes(c));
    assert ConnectOk(n, c);
    assert m.registries == n.registries;
    forall p, k | k in RegistryOf(m, p)
      ensures EntryOk(m, k, RegistryOf(m, p)[k])
    {
      assert EntryOk(n, k, RegistryOf(n, p)[k]);
    }
    assert forall p, e: End :: Listed(n, p, e) ==> Listed(m, p, e);
    AdvanceInv(n, m, c);
  }

  lemma FinishesNewInv(n: Net, c: nat)
    requires Inv(n) && Possible(n, Finishes(c)) && Sound(n, Finishes(c)) && !Reuses(n.connects[c].phase.reply)
    ensures Inv(Next(n, Finishes(c)))
  {
    var p, e, m := n.connects[c].from, End(c, true), Next(n, Finishes(c));
    assert ConnectOk(n, c);
    RegisterEntries(n, p, e);
    assert m.registries == Register(n, p, e).registries;
    assert forall q :: RegistryOf(m, q) == RegistryOf(Register(n, p, e), q);
    forall q, k | k in RegistryOf(m, q)
      ensures EntryOk(m, k, RegistryOf(m, q)[k])
    {
      assert k in RegistryOf(n, q) ==> EntryOk(n, k, RegistryOf(n, q)[k]);
    }
    assert forall q, f: End :: Listed(Register(n, p, e), q, f) ==> Listed(m, q, f);
    AdvanceInv(n, m, c);
  }

  lemma ClosesInv(n: Net, e: End)
    requires Inv(n)
    ensures Inv(Next(n, Closes(e)))
  {
    var m := Next(n, Closes(e));
    assert forall f: End :: Known(n, f) ==> RecvTag(m, f) == RecvTag(n, f);
    forall p, k | k in RegistryOf(m, p)
      ensures EntryOk(m, k, RegistryOf(m, p)[k])
    {
      assert EntryOk(n, k, RegistryOf(n, p)[k]);
    }
    assert forall p, f: End :: Listed(n, p, f) ==> Listed(m, p, f);
    forall c | 0 <= c < |m.connects|
      ensures ConnectOk(m, c)
    {
      assert ConnectOk(n, c);
    }
  }

  lemma NextInv(n: Net, s: Step)
    requires Inv(n) && Possible(n, s)
    ensures Sound(n, s) && Inv(Next(n, s))
  {
    StepsAreSound(n, s);
    match s
    case Connects(_, _, _, _) => ConnectsInv(n, s);
    case Answers(c) => AnswersInv(n, c);
    case ServerRegisters(c) => ServerRegistersInv(n, c);
    case Finishes(c) =>
      if Reuses(n.connects[c].phase.reply) {
        FinishesReusingInv(n, c);
      } else {
        FinishesNewInv(n, c);
      }
    case Closes(e) => ClosesInv(n, e);
  }

  // ---------------------------------------------------------------------------------------
  // Every run

  /** Every step of the run is possible, and no assertion or lookup of it fails. */
  ghost predicate Goes(n: Net, steps: seq<Step>, m: Net)
    decreases |steps|
  {
    if steps == [] then n == m
    else Possible(n, steps[0]) && Sound(n, steps[0]) && Goes(Next(n, steps[0]), steps[1..], m)
  }

  lemma {:induction false} GoesInv(n: Net, steps: seq<Step>, m: Net)
    requires Inv(n) && Goes(n, steps, m)
    ensures Inv(m)
    decreases |steps|
  {
    if steps == [] {
    } else {
      NextInv(n, steps[0]);
      GoesInv(Next(n, steps[0]), steps[1..], m);
    }
  }

  lemma {:induction false} ClosedFrom(n: Net, steps: seq<Step>, m: Net, e: End)
    requires Goes(n, steps, m)
    ensures e in m.closed <==> e in n.closed || Closes(e) in steps
    decreases |steps|
  {
    if steps == [] {
    } else {
      assert steps == [steps[0]] + steps[1..];
      ClosedFrom(Next(n, steps[0]), steps[1..], m, e);
    }
  }

  /** In every run a server answers with an endpoint that has closed only if the last id leads to it
      and no id leads to one that is open. */
  lemma AnswersOpenIff(steps: seq<Step>, n: Net, c: nat)
    requires Goes(NO_CONNECTIONS, steps, n) && Possible(n, Answers(c))
    ensures var r, ids := RegistryOf(n, n.connects[c].to), n.connects[c].phase.ids;
      var found := Pick(r, n.closed, ids, None);
      && (found.Some? && Closes(found.value) !in steps
          <==> exists i :: 0 <= i < |ids| && ids[i] in r && Closes(r[ids[i]]) !in steps)
      && (found.Some? && Closes(found.value) in steps ==>
            ids != [] && ids[|ids| - 1] in r && r[ids[|ids| - 1]] == found.value)
  {
    var r, ids := RegistryOf(n, n.connects[c].to), n.connects[c].phase.ids;
    forall e: End
      ensures e in n.closed <==> Closes(e) in steps
    {
      ClosedFrom(NO_CONNECTIONS, steps, n, e);
    }
    PicksFirstOpen(r, n.closed, ids, None);
    if i :| 0 <= i < |ids| && LeadsToOpen(r, n.closed, ids[i]) {
      FirstOpen(r, n.closed, ids, i);
    }
  }

  lemma {:induction false} FirstOpen(r: Registry, closed: set<End>, ids: seq<nat>, i: nat)
    requires i < |ids| && LeadsToOpen(r, closed, ids[i])
    ensures exists j :: 0 <= j <= i && IsFirstOpen(r, closed, ids, j)
  {
    if j :| 0 <= j < i && LeadsToOpen(r, closed, ids[j]) {
      FirstOpen(r, closed, ids, j);
    } else {
      assert IsFirstOpen(r, closed, ids, i);
    }
  }

  /** In every run, the next possible step neither fails an assertion nor misses a lookup. */
  lemma ProtocolNeverFails(steps: seq<Step>, n: Net, s: Step)
    requires Goes(NO_CONNECTIONS, steps, n) && Possible(n, s)
    ensures Sound(n, s)
  {
    GoesInv(NO_CONNECTIONS, steps, n);
    StepsAreSound(n, s);
  }

  /** In every run, client and server of a finished connect use the two ends of one connection,
      exactly when the server did not answer with a tag that is zero. */
  lemma ChosenEndsArePaired(steps: seq<Step>, n: Net, c: nat)
    requires Goes(NO_CONNECTIONS, steps, n) && c < |n.connects| && n.connects[c].phase.Finished?
    ensures var ph := n.connects[c].phase;
      && Known(n, ph.chosen)
      && (ph.clientChosen == Mate(ph.chosen) <==> !(ph.chosen.conn != c && RecvTag(n, ph.chosen) == 0))
  {
    GoesInv(NO_CONNECTIONS, steps, n);
    assert ConnectOk(n, c);
  }

  lemma Then(n: Net, s: Step, rest: seq<Step>, m: Net)
    requires Possible(n, s) && Sound(n, s) && Goes(Next(n, s), rest, m)
    ensures Goes(n, [s] + rest, m)
  {
    assert ([s] + rest)[1..] == rest;
  }

  const ZERO_TAG := Tags(5, 0)

  /** A connection is made whose server end receives on tag zero. */
  lemma ZeroTagConnection() returns (n: Net)
    ensures Goes(NO_CONNECTIONS, [Connects(0, 1, ZERO_TAG, []), Answers(0), ServerRegisters(0), Finishes(0)], n)
    ensures n == Net([ZERO_TAG], [Connect(0, 1, Finished(End(0, false), End(0, true)), true)],
                     map[1 := map[5 := End(0, false)], 0 := map[0 := End(0, true)]], {})
  {
    var n1 := Next(NO_CONNECTIONS, Connects(0, 1, ZERO_TAG, []));
    var n2 := Next(n1, Answers(0));
    var n3 := Next(n2, ServerRegisters(0));
    assert n3.registries == map[1 := map[5 := End(0, false)]];
    n := Next(n3, Finishes(0));
    Then(n3, Finishes(0), [], n);
    Then(n2, ServerRegisters(0), [Finishes(0)], n);
    Then(n1, Answers(0), [ServerRegisters(0), Finishes(0)], n);
    Then(NO_CONNECTIONS, Connects(0, 1, ZERO_TAG, []), [Answers(0), ServerRegisters(0), Finishes(0)], n);
    assert [Connects(0, 1, ZERO_TAG, [])] + [Answers(0), ServerRegisters(0), Finishes(0)]
        == [Connects(0, 1, ZERO_TAG, []), Answers(0), ServerRegisters(0), Finishes(0)];
  }

  lemma {:induction false} GoesConcat(n: Net, a: seq<Step>, m: Net, b: seq<Step>, k: Net)
    requires Goes(n, a, m) && Goes(m, b, k)
    ensures Goes(n, a + b, k)
    decreases |a|
  {
    if a == [] {
      assert a + b == b;
    } else {
      assert (a + b)[1..] == a[1..] + b;
      GoesConcat(Next(n, a[0]), a[1..], m, b, k);
    }
  }

  /** And that happens: the next client is answered with tag zero, takes it for no answer, and keeps
      its new endpoint while the server uses the old one. */
  lemma ZeroTagLeavesUnpaired() returns (steps: seq<Step>, n: Net)
    ensures Goes(NO_CONNECTIONS, steps, n)
    ensures |n.connects| == 2 && n.connects[1].phase == Finished(End(0, false), End(1, true))
  {
    var n0 := ZeroTagConnection();
    var connect := Connects(0, 1, Tags(7, 8), [5]);
    assert RegistryOf(n0, 0)[0] == End(0, true) && RecvTag(n0, End(0, true)) == 5;
    var n1 := Next(n0, connect);
    assert Pick(RegistryOf(n1, 1), n1.closed, [5], None) == Some(End(0, false));
    var n2 := Next(n1, Answers(1));
    n := Next(n2, Finishes(1));
    Then(n2, Finishes(1), [], n);
    Then(n1, Answers(1), [Finishes(1)] + [], n);
    Then(n0, connect, [Answers(1)] + ([Finishes(1)] + []), n);
    steps := [Connects(0, 1, ZERO_TAG, []), Answers(0), ServerRegisters(0), Finishes(0)];
    GoesConcat(NO_CONNECTIONS, steps, n0, [connect] + ([Answers(1)] + ([Finishes(1)] + [])), n);
    steps := steps + ([connect] + ([Answers(1)] + ([Finishes(1)] + [])));
  }
}
