/**
 The uid counter of ucp/_libs/ucx_request.pyx in runs that make more than 2^32 requests: when a
 wrapper that reports closed can report open again.
 */
module RequestRecycling {
  import opened Requests
  import opened RequestRuns

  /** What holds of handles however often the counter has wrapped around. */
  ghost predicate SlotsOk(s: State) {
    && |s.opOf| == s.issued
    && s.slot.Keys <= s.ops.Keys
    && (forall op :: op in s.opOf ==> op in s.slot)
    && (forall h :: HandleSlotOk(s, h))
  }

  ghost predicate HandleSlotOk(s: State, h: nat) {
    var x := H(s, h);
    if x.native.Free? then x == FREE_HANDLE else x.native.op in s.slot && s.slot[x.native.op] == h
  }

  /** Number `j` was issued to a request on handle `h`. */
  predicate IssuedOn(s: State, j: int, h: nat) {
    1 <= j <= |s.opOf| && s.opOf[j - 1] in s.slot && s.slot[s.opOf[j - 1]] == h
  }

  /** From `s` to `t` the counter came round to the uid of `w` on its handle. */
  ghost predicate Issues(s: State, t: State, w: Wrapper) {
    exists j :: s.issued < j <= t.issued && j % UIDS == w.uid && IssuedOn(t, j, w.h)
  }

  ghost predicate Later(s: State, t: State) {
    && SlotsOk(t) && s.opOf <= t.opOf
    && forall op :: op in s.slot ==> op in t.slot && t.slot[op] == s.slot[op]
  }

  /** How a transition can open `w`. */
  ghost predicate OpensOnlyIf(s: State, t: State, w: Wrapper) {
    && (Issues(s, t, w) ==> !Closed(t, w))
    && (Closed(s, w) && !Closed(t, w) ==> Issues(s, t, w) || (w.uid == 0 && H(t, w.h).native.Free?))
  }

  /** A cancellation changes only handles in progress, and none that it gives a number once more. */
  ghost predicate Cancels(s: State, t: State, w: Wrapper) {
    && Later(s, t) && OpensOnlyIf(s, t, w)
    && (!H(s, w.h).native.InProgress? ==> H(t, w.h) == H(s, w.h))
    && (Issues(s, t, w) ==> !H(t, w.h).native.InProgress?)
  }

  /** A transition that gives no number, and either leaves the uid of each handle or frees it. */
  lemma NoNumber(s: State, t: State, w: Wrapper)
    requires t.issued == s.issued
    requires H(t, w.h).uid == H(s, w.h).uid || H(t, w.h) == FREE_HANDLE
    ensures !Issues(s, t, w) && OpensOnlyIf(s, t, w)
  {
  }

  /** A transition that gives the next number to handle `h`. */
  lemma OneNumber(s: State, t: State, h: nat, w: Wrapper)
    requires SlotsOk(s) && t.issued == s.issued + 1 == |t.opOf| && IssuedOn(t, t.issued, h)
    requires H(t, h).uid == t.issued % UIDS && (w.h != h ==> H(t, w.h) == H(s, w.h))
    ensures Issues(s, t, w) <==> w == Wrapper(h, t.issued % UIDS)
    ensures OpensOnlyIf(s, t, w)
  {
    assert t.issued % UIDS == w.uid && w.h == h ==> IssuedOn(t, t.issued, w.h);
  }

  lemma EffectLater(s: State, t: State, h: nat, x: Handle, w: Wrapper)
    requires SlotsOk(s) && !H(s, h).native.Free? && H(s, h).native.op in s.ops && WrapsAnd(s, t, h, x)
    requires x == FREE_HANDLE || (!x.native.Free? && x.native.op == H(s, h).native.op && x.uid == UidAfter(s, h))
    requires H(s, h).info == NoInfo ==> x != FREE_HANDLE
    ensures Later(s, t) && OpensOnlyIf(s, t, w) && (Issues(s, t, w) ==> w.h == h && x != FREE_HANDLE)
  {
    assert HandleSlotOk(s, h);
    assert forall g :: HandleSlotOk(s, g) ==> HandleSlotOk(t, g);
    if H(s, h).info == NoInfo {
      OneNumber(s, t, h, w);
    } else {
      NoNumber(s, t, w);
    }
  }

  lemma CallbackCancels(s: State, h: nat, status: Status, length: nat, w: Wrapper)
    requires SlotsOk(s) && H(s, h).native.InProgress? && H(s, h).native.op in s.ops
    ensures Cancels(s, Callback(s, h, status, length), w)
  {
    var t := Callback(s, h, status, length);
    CallbackEffect(s, h, status, length);
    assert HandleSlotOk(s, h);
    EffectLater(s, t, h, H(t, h), w);
  }

  lemma ReturnLater(s: State, h: nat, w: Wrapper)
    requires SlotsOk(s) && Possible(s, Returns(h))
    ensures Later(s, Return(s, h)) && OpensOnlyIf(s, Return(s, h), w)
  {
    var t := Return(s, h);
    ReturnEffect(s, h);
    assert HandleSlotOk(s, h);
    EffectLater(s, t, h, H(t, h), w);
  }

  lemma AskedCancels(s: State, asked: set<nat>, w: Wrapper)
    requires SlotsOk(s)
    ensures SlotsOk(s.(cancelAsked := asked)) && Cancels(s, s.(cancelAsked := asked), w)
  {
    var u := s.(cancelAsked := asked);
    assert forall h :: HandleSlotOk(s, h) ==> HandleSlotOk(u, h);
    NoNumber(s, u, w);
  }

  lemma CancelOneCancels(s: State, v: Wrapper, now: bool, w: Wrapper)
    requires SlotsOk(s)
    ensures Cancels(s, CancelOne(s, v, now), w)
  {
    if Closed(s, v) || !H(s, v.h).native.InProgress? || H(s, v.h).native.op !in s.ops {
      NoNumber(s, s, w);
    } else {
      var asked := s.cancelAsked + {H(s, v.h).native.op};
      AskedCancels(s, asked, w);
      if now {
        var u := s.(cancelAsked := asked);
        CallbackCancels(u, v.h, Canceled, 0, w);
        SameStart(s, u, Callback(u, v.h, Canceled, 0), w);
      }
    }
  }

  lemma SameStart(s: State, u: State, t: State, w: Wrapper)
    requires u.handles == s.handles && u.issued == s.issued && u.opOf == s.opOf && u.slot == s.slot
    requires Cancels(u, t, w)
    ensures Cancels(s, t, w)
  {
    assert Issues(s, t, w) == Issues(u, t, w);
  }

  /** What was issued on the way to `t` was issued on the way to `u`, and conversely. */
  lemma IssuesTwice(s: State, t: State, u: State, w: Wrapper)
    requires SlotsOk(s) && Later(s, t) && Later(t, u)
    ensures Issues(s, u, w) <==> Issues(s, t, w) || Issues(t, u, w)
  {
    if Issues(s, u, w) {
      var j :| s.issued < j <= u.issued && j % UIDS == w.uid && IssuedOn(u, j, w.h);
      if j <= t.issued {
        assert t.opOf[j - 1] == u.opOf[j - 1] && t.opOf[j - 1] in t.opOf;
        assert IssuedOn(t, j, w.h);
      }
    }
    if Issues(s, t, w) {
      var j :| s.issued < j <= t.issued && j % UIDS == w.uid && IssuedOn(t, j, w.h);
      assert t.opOf[j - 1] == u.opOf[j - 1];
      assert IssuedOn(u, j, w.h);
    }
  }

  lemma {:induction false} CancelManyCancels(s: State, order: seq<Wrapper>, now: seq<bool>, w: Wrapper)
    requires SlotsOk(s) && |now| == |order|
    ensures Cancels(s, CancelMany(s, order, now), w)
    decreases |order|
  {
    if order == [] {
      NoNumber(s, s, w);
    } else {
      var t := CancelOne(s, order[0], now[0]);
      CancelOneCancels(s, order[0], now[0], w);
      CancelManyCancels(t, order[1..], now[1..], w);
      IssuesTwice(s, t, CancelMany(t, order[1..], now[1..]), w);
      assert HandleSlotOk(t, w.h);
    }
  }

  lemma SubmitLater(s: State, op: nat, o: Op, h: nat, w: Wrapper)
    requires SlotsOk(s) && Possible(s, Submits(op, o, h))
    ensures Later(s, Submit(s, op, o, h)) && OpensOnlyIf(s, Submit(s, op, o, h), w)
  {
    var t := Submit(s, op, o, h);
    assert HandleSlotOk(s, h);
    assert forall g :: HandleSlotOk(s, g) ==> HandleSlotOk(t, g);
    NoNumber(s, t, w);
  }

  lemma NextLater(s: State, e: Event, w: Wrapper)
    requires SlotsOk(s) && Possible(s, e)
    ensures Later(s, Next(s, e)) && OpensOnlyIf(s, Next(s, e), w)
  {
    var t := Next(s, e);
    match e
    case Returns(h) => ReturnLater(s, h, w);
    case Completes(h, status, length) => CallbackCancels(s, h, status, length, w);
    case CancelsScheduled(order, now) =>
      CancelManyCancels(s, order, now, w);
      SameRequests(s, CancelMany(s, order, now), t, w);
    case CancelsGroup(k, order, now) =>
      CancelManyCancels(s, order, now, w);
      SameRequests(s, CancelMany(s, order, now), t, w);
    case Submits(op, o, h) => SubmitLater(s, op, o, h, w);
    case _ =>
      assert forall g :: HandleSlotOk(s, g) ==> HandleSlotOk(t, g);
      NoNumber(s, t, w);
  }

  lemma SameRequests(s: State, t: State, u: State, w: Wrapper)
    requires Later(s, t) && OpensOnlyIf(s, t, w)
    requires u.handles == t.handles && u.issued == t.issued && u.opOf == t.opOf && u.slot == t.slot && u.ops == t.ops
    ensures Later(s, u) && OpensOnlyIf(s, u, w)
  {
    assert forall g :: HandleSlotOk(t, g) ==> HandleSlotOk(u, g);
    assert Issues(s, u, w) == Issues(s, t, w) by {
      assert forall j :: IssuedOn(u, j, w.h) == IssuedOn(t, j, w.h);
    }
  }

  /** Somewhere in the run `w` reports open. */
  ghost predicate EverOpen(s: State, es: seq<Event>, w: Wrapper)
    requires IsRun(s, es)
    decreases |es|
  {
    !Closed(s, w) || (es != [] && EverOpen(Next(s, es[0]), es[1..], w))
  }

  /** Somewhere in the run the counter comes round to the uid of `w` on its handle, or, if that uid
      is zero, its handle is freed. */
  ghost predicate Recurs(s: State, es: seq<Event>, w: Wrapper)
    requires IsRun(s, es)
    decreases |es|
  {
    es != [] &&
    var t := Next(s, es[0]);
    (Issues(s, t, w) || (w.uid == 0 && H(t, w.h).native.Free?) || Recurs(t, es[1..], w))
  }

  lemma {:induction false} ReopensIffFrom(s: State, es: seq<Event>, w: Wrapper)
    requires SlotsOk(s) && IsRun(s, es) && Closed(s, w)
    ensures EverOpen(s, es, w) <==> Recurs(s, es, w)
    decreases |es|
  {
    if es == [] {
    } else {
      var t := Next(s, es[0]);
      NextLater(s, es[0], w);
      assert HandleSlotOk(t, w.h);
      if Closed(t, w) {
        ReopensIffFrom(t, es[1..], w);
      }
    }
  }

  lemma {:induction false} RunSlotsOk(s: State, es: seq<Event>)
    requires SlotsOk(s) && IsRun(s, es)
    ensures SlotsOk(Run(s, es))
    decreases |es|
  {
    if es == [] {
    } else {
      NextLater(s, es[0], Wrapper(0, 0));
      RunSlotsOk(Next(s, es[0]), es[1..]);
    }
  }

  /** In every run, however many requests it makes: a closed wrapper reports open again exactly when
      the 32-bit counter has come round to its uid on the same handle or, for the uid zero, as soon as
      its handle is free. */
  lemma ReopensIff(before: seq<Event>, es: seq<Event>, w: Wrapper)
    requires IsRun(START, before) && IsRun(Run(START, before), es) && Closed(Run(START, before), w)
    ensures EverOpen(Run(START, before), es, w) <==> Recurs(Run(START, before), es, w)
  {
    RunSlotsOk(START, before);
    ReopensIffFrom(Run(START, before), es, w);
  }

  lemma {:induction false} RecursNumber(s: State, es: seq<Event>, w: Wrapper)
    requires IsRun(s, es) && Recurs(s, es, w) && w.uid != 0
    ensures exists j :: s.issued < j <= Run(s, es).issued && j % UIDS == w.uid
    decreases |es|
  {
    var t := Next(s, es[0]);
    IssuedGrows(s, es[0]);
    RunGrows(t, es[1..]);
    if Issues(s, t, w) {
      var j :| s.issued < j <= t.issued && j % UIDS == w.uid && IssuedOn(t, j, w.h);
    } else {
      RecursNumber(t, es[1..], w);
      var j :| t.issued < j <= Run(t, es[1..]).issued && j % UIDS == w.uid;
    }
  }

  lemma {:induction false} NeverOpen(s: State, es: seq<Event>, w: Wrapper)
    requires IsRun(s, es) && !EverOpen(s, es, w)
    ensures Closed(Run(s, es), w)
    decreases |es|
  {
    if es == [] {
    } else {
      NeverOpen(Next(s, es[0]), es[1..], w);
    }
  }

  /** So a closed wrapper that was made for request number `k` stays closed while fewer than 2^32
      requests follow that one, whatever the number of requests before it, unless its uid is zero. */
  lemma ClosedForOneRound(before: seq<Event>, es: seq<Event>, w: Wrapper, k: nat)
    requires IsRun(START, before) && IsRun(Run(START, before), es) && Closed(Run(START, before), w)
    requires k <= Run(START, before).issued && w.uid == k % UIDS != 0
    requires Run(Run(START, before), es).issued < k + UIDS
    ensures Closed(Run(Run(START, before), es), w)
  {
    var s := Run(START, before);
    ReopensIff(before, es, w);
    if Recurs(s, es, w) {
      RecursNumber(s, es, w);
      var j :| s.issued < j <= Run(s, es).issued && j % UIDS == w.uid;
      SameRemainder(k, j);
    }
    NeverOpen(s, es, w);
  }

  lemma SameRemainder(k: nat, j: nat)
    requires k < j && j % UIDS == k % UIDS
    ensures j >= k + UIDS
  {
  }

  lemma {:induction false} RunConcat(s: State, a: seq<Event>, b: seq<Event>)
    requires IsRun(s, a) && IsRun(Run(s, a), b)
    ensures IsRun(s, a + b) && Run(s, a + b) == Run(Run(s, a), b)
    decreases |a|
  {
    if a == [] {
      assert a + b == b;
    } else {
      assert (a + b)[1..] == a[1..] + b;
      RunConcat(Next(s, a[0]), a[1..], b);
    }
  }

  /** Any number of requests can be made, one after another on one handle. */
  lemma {:induction false} ManyRequests(n: nat) returns (es: seq<Event>)
    ensures IsRun(START, es)
    ensures var s := Run(START, es);
      s.issued == n && H(s, 0) == FREE_HANDLE && forall op :: op in s.ops ==> op < n
  {
    if n == 0 {
      es := [];
    } else {
      var before := ManyRequests(n - 1);
      var s := Run(START, before);
      var one := RequestOn(s, n - 1);
      var t := Run(s, one);
      CallbackEffect(t, 0, Ok, 0);
      Then(t, Completes(0, Ok, 0), []);
      RunConcat(s, one, [Completes(0, Ok, 0)] + []);
      RunConcat(START, before, one + ([Completes(0, Ok, 0)] + []));
      es := before + (one + ([Completes(0, Ok, 0)] + []));
    }
  }

  lemma RequestOn(s: State, op: nat) returns (es: seq<Event>)
    requires H(s, 0) == FREE_HANDLE && op !in s.ops
    ensures IsRun(s, es)
    ensures var t := Run(s, es); var uid := (s.issued + 1) % UIDS;
      && t.issued == s.issued + 1 && t.ops == s.ops[op := Op(false, 0, 0)]
      && H(t, 0) == Handle(uid, Info(false, true), InProgress(op), false)
      && Wrapper(0, uid) in Members(t, 0)
  {
    var submit, back := Submits(op, Op(false, 0, 0), 0), Returns(0);
    es := [submit] + ([back] + []);
    Then(Next(s, submit), back, []);
    Then(s, submit, [back] + []);
  }

  /** And that happens: the wrapper of request number 2^32 has the uid zero, which is also that of a
      free handle; it still reports open after its request has completed and been freed. */
  lemma UidZeroStaysOpen() returns (es: seq<Event>, done: Event)
    ensures IsRun(START, es) && Wrapper(0, 0) in Members(Run(START, es), 0)
    ensures Possible(Run(START, es), done)
    ensures var t := Next(Run(START, es), done);
      && H(t, 0).native.Free? && H(Run(START, es), 0).native.InProgress?
      && H(Run(START, es), 0).native.op in t.calls && !Closed(t, Wrapper(0, 0))
  {
    var before := ManyRequests(UIDS - 1);
    var s := Run(START, before);
    var one := RequestOn(s, UIDS - 1);
    RunConcat(START, before, one);
    es, done := before + one, Completes(0, Ok, 0);
  }
}
