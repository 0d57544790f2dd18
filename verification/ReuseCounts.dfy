/**
 The reference counts of ucp/endpoint_reuse.py in one process. A connecting client holds every
 open endpoint while it waits for the server's answer, and lets go of them one by one; each
 `await` in between lets other connects, closes and failures in. Closing an endpoint takes time:
 until it is over, the endpoint still looks open.
 */
module ReuseCounts {
  import opened Wrappers

  /** `refs` and `open` are the counter and the state of each underlying endpoint, `virt` counts its
      live virtual endpoints and `repeats` the second closes of dead ones, `scans` lists what each
      waiting client has yet to let go of, and `closes` the endpoints in the order in which the code
      started to close them. */
  datatype Counts = Counts(
    refs: map<nat, int>,
    open: set<nat>,
    virt: map<nat, nat>,
    repeats: map<nat, nat>,
    scans: map<nat, seq<nat>>,
    closes: seq<nat>)

  const NO_ENDPOINTS := Counts(map[], {}, map[], map[], map[], [])

  function Virtuals(c: Counts, h: nat): nat {
    if h in c.virt then c.virt[h] else 0
  }

  function Repeats(c: Counts, h: nat): nat {
    if h in c.repeats then c.repeats[h] else 0
  }

  ghost function Holding(c: Counts, h: nat): set<nat> {
    set id | id in c.scans && h in c.scans[id]
  }

  /** One user fewer: the last one starts to close the endpoint. */
  function LetGo(c: Counts, h: nat): Counts
    requires h in c.refs
  {
    var r := c.refs[h] - 1;
    c.(refs := c.refs[h := r], closes := if r == 0 then c.closes + [h] else c.closes)
  }

  function Held(refs: map<nat, int>, open: set<nat>, list: seq<nat>): map<nat, int>
    requires forall h :: h in list ==> h in refs
    decreases |list|
  {
    if list == [] then refs
    else
      var h := list[|list| - 1];
      var before := Held(refs, open, list[..|list| - 1]);
      if h in open && h in before then before[h := before[h] + 1] else before
  }

  datatype Step =
    | NewHandle(h: nat)
    | BeginScan(id: nat, list: seq<nat>)
    | ReleaseNext(id: nat)
    | EndScan(id: nat)
    | Share(h: nat)
    | CloseVirtual(h: nat)
    | AbortVirtual(h: nat)
    | CloseAgain(h: nat)  // a virtual endpoint that is no longer live
    | Dies(h: nat)        // a close has finished, or the endpoint failed

  ghost predicate Possible(c: Counts, s: Step) {
    match s
    case NewHandle(h) => h !in c.refs
    case BeginScan(id, list) =>
      && id !in c.scans && (forall h :: h in list ==> h in c.refs)
      && forall i, j :: 0 <= i < j < |list| ==> list[i] != list[j]
    case ReleaseNext(id) => id in c.scans && c.scans[id] != [] && c.scans[id][0] in c.refs
    case EndScan(id) => id in c.scans && c.scans[id] == []
    case Share(h) => h in c.refs
    case CloseVirtual(h) => h in c.refs && Virtuals(c, h) > 0
    case AbortVirtual(h) => h in c.refs && Virtuals(c, h) > 0
    case CloseAgain(h) => h in c.refs
    case Dies(_) => true
  }

  function Next(c: Counts, s: Step): Counts
    requires Possible(c, s)
  {
    match s
    case NewHandle(h) => c.(refs := c.refs[h := 1], open := c.open + {h}, virt := c.virt[h := 1])
    case BeginScan(id, list) => c.(refs := Held(c.refs, c.open, list), scans := c.scans[id := list])
    case ReleaseNext(id) =>
      var h := c.scans[id][0];
      var d := c.(scans := c.scans[id := c.scans[id][1..]]);
      if h in c.open then LetGo(d, h) else d
    case EndScan(id) => c.(scans := c.scans - {id})
    case Share(h) => c.(refs := c.refs[h := c.refs[h] + 1], virt := c.virt[h := Virtuals(c, h) + 1])
    case CloseVirtual(h) =>
      if h !in c.open then c else LetGo(c.(virt := c.virt[h := Virtuals(c, h) - 1]), h)
    case AbortVirtual(h) =>
      if h !in c.open then c
      else LetGo(c.(virt := c.virt[h := Virtuals(c, h) - 1],
                    open := if c.refs[h] == 1 then c.open - {h} else c.open), h)
    case CloseAgain(h) =>
      if h !in c.open then c else LetGo(c.(repeats := c.repeats[h := Repeats(c, h) + 1]), h)
    case Dies(h) => c.(open := c.open - {h})
  }

  ghost predicate Inv(c: Counts) {
    && (forall h :: h in c.open ==> h in c.refs && c.refs[h] == Virtuals(c, h) + |Holding(c, h)| - Repeats(c, h))
    && (forall h :: h in c.virt || h in c.repeats || h in c.closes ==> h in c.refs)
    && (forall id, h :: id in c.scans && h in c.scans[id] ==> h in c.refs)
    && (forall id, i, j :: id in c.scans && 0 <= i < j < |c.scans[id]| ==> c.scans[id][i] != c.scans[id][j])
  }

  lemma {:induction false} HeldEffect(refs: map<nat, int>, open: set<nat>, list: seq<nat>)
    requires forall h :: h in list ==> h in refs
    requires forall i, j :: 0 <= i < j < |list| ==> list[i] != list[j]
    ensures var r := Held(refs, open, list);
      && r.Keys == refs.Keys
      && forall h :: h in refs ==> r[h] == refs[h] + if h in list && h in open then 1 else 0
    decreases |list|
  {
    if list == [] {
    } else {
      HeldEffect(refs, open, list[..|list| - 1]);
      assert list == list[..|list| - 1] + [list[|list| - 1]];
    }
  }

  lemma HoldingTaken(c: Counts, d: Counts, id: nat, list: seq<nat>, h: nat)
    requires id !in c.scans && d.scans == c.scans[id := list]
    ensures |Holding(d, h)| == |Holding(c, h)| + if h in list then 1 else 0
  {
    assert Holding(d, h) == Holding(c, h) + if h in list then {id} else {};
    assert id !in Holding(c, h);
  }

  lemma BeginScanInv(c: Counts, id: nat, list: seq<nat>)
    requires Inv(c) && Possible(c, BeginScan(id, list))
    ensures Inv(Next(c, BeginScan(id, list)))
  {
    var d := Next(c, BeginScan(id, list));
    HeldEffect(c.refs, c.open, list);
    forall h | h in d.open
      ensures h in d.refs && d.refs[h] == Virtuals(d, h) + |Holding(d, h)| - Repeats(d, h)
    {
      HoldingTaken(c, d, id, list, h);
    }
  }

  /** Letting go of the next endpoint takes this scan out of its holders, and of no other's. */
  lemma HoldingReleased(c: Counts, id: nat, h: nat)
    requires Inv(c) && Possible(c, ReleaseNext(id))
    ensures |Holding(Next(c, ReleaseNext(id)), h)| == |Holding(c, h)| - if h == c.scans[id][0] then 1 else 0
  {
    var d, g := Next(c, ReleaseNext(id)), c.scans[id][0];
    assert c.scans[id] == [g] + d.scans[id] && d.scans[id] == c.scans[id][1..];
    assert g !in d.scans[id];
    if h == g {
      assert Holding(c, h) == Holding(d, h) + {id} && id !in Holding(d, h);
    } else {
      assert Holding(c, h) == Holding(d, h);
    }
  }

  lemma ReleaseNextInv(c: Counts, id: nat)
    requires Inv(c) && Possible(c, ReleaseNext(id))
    ensures Inv(Next(c, ReleaseNext(id)))
  {
    var d := Next(c, ReleaseNext(id));
    assert d.scans[id] == c.scans[id][1..];
    forall h | h in d.open
      ensures h in d.refs && d.refs[h] == Virtuals(d, h) + |Holding(d, h)| - Repeats(d, h)
    {
      HoldingReleased(c, id, h);
    }
  }

  lemma SameHolding(c: Counts, d: Counts)
    requires d.scans == c.scans || exists id :: id in c.scans && c.scans[id] == [] && d.scans == c.scans - {id}
    ensures forall h :: Holding(d, h) == Holding(c, h)
  {
  }

  lemma NextInv(c: Counts, s: Step)
    requires Inv(c) && Possible(c, s)
    ensures Inv(Next(c, s))
  {
    match s
    case BeginScan(id, list) => BeginScanInv(c, id, list);
    case ReleaseNext(id) => ReleaseNextInv(c, id);
    case NewHandle(h) =>
      SameHolding(c, Next(c, s));
      assert Holding(c, h) == {};
    case _ => SameHolding(c, Next(c, s));
  }

  /** Every step of the run is possible. */
  ghost predicate Goes(c: Counts, steps: seq<Step>, d: Counts)
    decreases |steps|
  {
    if steps == [] then c == d else Possible(c, steps[0]) && Goes(Next(c, steps[0]), steps[1..], d)
  }

  lemma {:induction false} GoesInv(c: Counts, steps: seq<Step>, d: Counts)
    requires Inv(c) && Goes(c, steps, d)
    ensures Inv(d)
    decreases |steps|
  {
    if steps == [] {
    } else {
      NextInv(c, steps[0]);
      GoesInv(Next(c, steps[0]), steps[1..], d);
    }
  }

  /** In every run the counter of an open endpoint is the number of its live virtual endpoints plus
      the number of clients still holding it, exactly when no virtual endpoint of it was closed
      twice: the code does not notice a second close. */
  lemma CounterExactIff(steps: seq<Step>, c: Counts, h: nat)
    requires Goes(NO_ENDPOINTS, steps, c) && h in c.open
    ensures h in c.refs && c.refs[h] == Virtuals(c, h) + |Holding(c, h)| - Repeats(c, h)
    ensures c.refs[h] == Virtuals(c, h) + |Holding(c, h)| <==> Repeats(c, h) == 0
  {
    GoesInv(NO_ENDPOINTS, steps, c);
  }

  /** The endpoint that one of its users lets go of in a step. */
  ghost function Released(c: Counts, s: Step): Option<nat>
    requires Possible(c, s)
  {
    match s
    case ReleaseNext(id) => Some(c.scans[id][0])
    case CloseVirtual(h) => Some(h)
    case AbortVirtual(h) => Some(h)
    case CloseAgain(h) => Some(h)
    case _ => None
  }

  lemma LastUserCloses(c: Counts, s: Step)
    requires Inv(c) && Possible(c, s)
    ensures var d := Next(c, s);
      match Released(c, s)
      case None => d.closes == c.closes
      case Some(h) =>
        d.closes == c.closes + if h in c.open && Virtuals(d, h) + |Holding(d, h)| == Repeats(d, h) then [h] else []
  {
    match Released(c, s)
    case None =>
    case Some(h) =>
      if s.ReleaseNext? {
        HoldingReleased(c, s.id, h);
      } else {
        assert Holding(Next(c, s), h) == Holding(c, h);
      }
  }

  /** The code starts to close an endpoint exactly when its last user lets go of it while it is
      open; every second close counts as a user gone. */
  lemma ClosedWithLastUser(steps: seq<Step>, c: Counts, s: Step)
    requires Goes(NO_ENDPOINTS, steps, c) && Possible(c, s)
    ensures var d := Next(c, s);
      match Released(c, s)
      case None => d.closes == c.closes
      case Some(h) =>
        d.closes == c.closes + if h in c.open && Virtuals(d, h) + |Holding(d, h)| == Repeats(d, h) then [h] else []
  {
    GoesInv(NO_ENDPOINTS, steps, c);
    LastUserCloses(c, s);
  }

  /** An endpoint is open from when it is made until it dies, or its last user aborts it. */
  lemma OpenUntil(steps: seq<Step>, c: Counts, s: Step, h: nat)
    requires Goes(NO_ENDPOINTS, steps, c) && Possible(c, s)
    ensures var d := Next(c, s);
      h in d.open <==>
        && (h in c.open || s == NewHandle(h)) && s != Dies(h)
        && !(s == AbortVirtual(h) && Virtuals(d, h) + |Holding(d, h)| == Repeats(d, h))
  {
    GoesInv(NO_ENDPOINTS, steps, c);
    if s == AbortVirtual(h) {
      assert Holding(Next(c, s), h) == Holding(c, h);
    }
  }

  /** On an endpoint that is not open, letting go changes no counter and closes nothing. */
  lemma ClosedStaysAsItIs(c: Counts, s: Step, h: nat)
    requires Possible(c, s) && Released(c, s) == Some(h) && h !in c.open
    ensures var d := Next(c, s);
      d.refs == c.refs && d.open == c.open && d.virt == c.virt && d.repeats == c.repeats && d.closes == c.closes
  {
  }

  /** A second close of one of two virtual endpoints closes the endpoint under the other. */
  lemma SecondCloseMiscounts() returns (steps: seq<Step>, c: Counts)
    ensures Goes(NO_ENDPOINTS, steps, c)
    ensures 0 in c.open && c.closes == [0] && Virtuals(c, 0) == 1 && c.refs == map[0 := 0]
  {
    var c1 := Next(NO_ENDPOINTS, NewHandle(0));
    var c2 := Next(c1, Share(0));
    var c3 := Next(c2, CloseVirtual(0));
    c := Next(c3, CloseAgain(0));
    var last := [CloseAgain(0)];
    Then(c3, CloseAgain(0), [], c);
    Then(c2, CloseVirtual(0), last, c);
    Then(c1, Share(0), [CloseVirtual(0)] + last, c);
    Then(NO_ENDPOINTS, NewHandle(0), [Share(0)] + ([CloseVirtual(0)] + last), c);
    steps := [NewHandle(0)] + ([Share(0)] + ([CloseVirtual(0)] + last));
  }

  lemma Then(c: Counts, s: Step, rest: seq<Step>, d: Counts)
    requires Possible(c, s) && Goes(Next(c, s), rest, d)
    ensures Goes(c, [s] + rest, d)
  {
    assert ([s] + rest)[1..] == rest;
  }

  // ---------------------------------------------------------------------------------------
  // Endpoints handed out while they are being closed

  /** The code has started to close `h`, which still looks open. */
  predicate Closing(c: Counts, h: nat) {
    h in c.closes && h in c.open
  }

  /** Somewhere in the run a connect settles for `h` while it is being closed. */
  ghost predicate HandsOutClosing(c: Counts, steps: seq<Step>, h: nat)
    decreases |steps|
  {
    && steps != [] && Possible(c, steps[0])
    && ((steps[0] == Share(h) && Closing(c, h)) || HandsOutClosing(Next(c, steps[0]), steps[1..], h))
  }

  /** Somewhere in the run `h` is being closed and has a live virtual endpoint. */
  ghost predicate ClosesUnderUser(c: Counts, steps: seq<Step>, h: nat)
    decreases |steps|
  {
    || (Closing(c, h) && Virtuals(c, h) > 0)
    || (steps != [] && Possible(c, steps[0]) && ClosesUnderUser(Next(c, steps[0]), steps[1..], h))
  }

  /** Without second closes, a step puts a live virtual endpoint on an endpoint that is being closed
      only by handing it out. */
  lemma ClosingStep(c: Counts, s: Step, h: nat)
    requires Inv(c) && Possible(c, s) && s != CloseAgain(h) && Repeats(c, h) == 0
    requires Closing(c, h) ==> Virtuals(c, h) == 0
    ensures Repeats(Next(c, s), h) == 0
    ensures Closing(Next(c, s), h) && Virtuals(Next(c, s), h) > 0 <==> s == Share(h) && Closing(c, h)
  {
    if s == CloseVirtual(h) && h in c.open {
      NextInv(c, s);
    } else if s.ReleaseNext? && c.scans[s.id][0] == h && h in c.open {
      NextInv(c, s);
    }
  }

  lemma {:induction false} ClosesUnderUserFrom(c: Counts, steps: seq<Step>, d: Counts, h: nat)
    requires Inv(c) && Goes(c, steps, d) && CloseAgain(h) !in steps && Repeats(c, h) == 0
    requires Closing(c, h) ==> Virtuals(c, h) == 0
    ensures ClosesUnderUser(c, steps, h) <==> HandsOutClosing(c, steps, h)
    decreases |steps|
  {
    if steps == [] {
    } else {
      var e := Next(c, steps[0]);
      assert steps[0] in steps && Goes(e, steps[1..], d);
      NextInv(c, steps[0]);
      ClosingStep(c, steps[0], h);
      if !(Closing(e, h) && Virtuals(e, h) > 0) {
        ClosesUnderUserFrom(e, steps[1..], d, h);
      }
    }
  }

  /** While none of its virtual endpoints is closed twice, an endpoint closes under a live virtual
      endpoint exactly when some connect settled for it after its close had begun. */
  lemma ClosesUnderUserIff(steps: seq<Step>, c: Counts, h: nat)
    requires Goes(NO_ENDPOINTS, steps, c) && CloseAgain(h) !in steps
    ensures ClosesUnderUser(NO_ENDPOINTS, steps, h) <==> HandsOutClosing(NO_ENDPOINTS, steps, h)
  {
    ClosesUnderUserFrom(NO_ENDPOINTS, steps, c, h);
  }

  /** And that happens: an endpoint that is being closed still looks open. */
  lemma ReusedWhileClosing() returns (steps: seq<Step>, c: Counts)
    ensures Goes(NO_ENDPOINTS, steps, c) && HandsOutClosing(NO_ENDPOINTS, steps, 0)
    ensures Closing(c, 0) && Virtuals(c, 0) == 1
    ensures Possible(c, Dies(0)) && 0 !in Next(c, Dies(0)).open && Virtuals(Next(c, Dies(0)), 0) == 1
  {
    var c1 := Next(NO_ENDPOINTS, NewHandle(0));
    var c2 := Next(c1, CloseVirtual(0));
    c := Next(c2, Share(0));
    Then(c2, Share(0), [], c);
    Then(c1, CloseVirtual(0), [Share(0)] + [], c);
    Then(NO_ENDPOINTS, NewHandle(0), [CloseVirtual(0)] + ([Share(0)] + []), c);
    steps := [NewHandle(0)] + ([CloseVirtual(0)] + ([Share(0)] + []));
    assert steps[1..][1..][0] == Share(0) && Closing(c2, 0);
    assert HandsOutClosing(c2, steps[1..][1..], 0);
    assert HandsOutClosing(c1, steps[1..], 0);
  }

  /** The class `EndpointReuse` of one process, with its `EPHandle`s. */
  class Registry {
    var refs: map<nat, int>
    var open: set<nat>
    var virt: map<nat, nat>
    var scans: map<nat, seq<nat>>
    ghost var repeats: map<nat, nat>
    ghost var closes: seq<nat>

    ghost function Model(): Counts
      reads this
    {
      Counts(refs, open, virt, repeats, scans, closes)
    }

    constructor ()
      ensures Model() == NO_ENDPOINTS
    {
      refs, open, virt, repeats, scans, closes := map[], {}, map[], map[], map[], [];
    }

    /** `EPHandle(ep)`, owned by its first virtual endpoint. */
    method AddHandle(h: nat)
      requires Possible(Model(), NewHandle(h))
      modifies this
      ensures Model() == Next(old(Model()), NewHandle(h))
    {
      refs := refs[h := 1];
      open := open + {h};
      virt := virt[h := 1];
    }

    /** The loop before the request is sent. */
    method HoldAll(id: nat, list: seq<nat>)
      requires Possible(Model(), BeginScan(id, list))
      modifies `refs, `scans
      ensures Model() == Next(old(Model()), BeginScan(id, list))
    {
      var i := 0;
      while i < |list|
        invariant 0 <= i <= |list| && scans == old(scans)
        invariant refs.Keys == old(refs).Keys
        invariant refs == Held(old(refs), open, list[..i])
      {
        assert list[..i + 1][..i] == list[..i];
        assert list[i] in list;
        if list[i] in open {
          refs := refs[list[i] := refs[list[i]] + 1];
        }
        i := i + 1;
      }
      assert list[..i] == list;
      scans := scans[id := list];
    }

    /** One turn of the loop after the answer, which may suspend to close the endpoint. */
    method LetGoNext(id: nat)
      requires Possible(Model(), ReleaseNext(id))
      modifies `refs, `scans, `closes
      ensures Model() == Next(old(Model()), ReleaseNext(id))
    {
      var h := scans[id][0];
      scans := scans[id := scans[id][1..]];
      if h in open {
        refs := refs[h := refs[h] - 1];
        if refs[h] == 0 {
          closes := closes + [h];  // await ep.ep.close()
        }
      }
    }

    /** A connect, on either side, settles for an existing endpoint. */
    method Reuse(h: nat)
      requires Possible(Model(), Share(h))
      modifies `refs, `virt
      ensures Model() == Next(old(Model()), Share(h))
    {
      refs := refs[h := refs[h] + 1];
      virt := virt[h := (if h in virt then virt[h] else 0) + 1];
    }

    /** `close()` of a live virtual endpoint, up to its `await`. */
    method Close(h: nat)
      requires Possible(Model(), CloseVirtual(h))
      modifies `refs, `virt, `closes
      ensures Model() == Next(old(Model()), CloseVirtual(h))
    {
      if h !in open {
        return;
      }
      virt := virt[h := virt[h] - 1];
      refs := refs[h := refs[h] - 1];
      if refs[h] == 0 {
        closes := closes + [h];  // await h.ep.close()
      }
    }

    /** `abort()` */
    method Abort(h: nat)
      requires Possible(Model(), AbortVirtual(h))
      modifies `refs, `virt, `closes, `open
      ensures Model() == Next(old(Model()), AbortVirtual(h))
    {
      if h !in open {
        return;
      }
      virt := virt[h := virt[h] - 1];
      refs := refs[h := refs[h] - 1];
      if refs[h] == 0 {
        closes := closes + [h];
        open := open - {h};  // self.handle.ep.abort()
      }
    }
  }
}
