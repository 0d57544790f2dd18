/**
 Every run of the request layer: what is never undone, exactly-once completion, and what wrappers,
 in-flight sets and cancellations can be relied on for.
 */
module RequestRuns {
  import opened Requests
  import opened RequestSteps
  import opened RequestCancels

  // ---------------------------------------------------------------------------------------
  // What no transition undoes

  lemma CancelOneGrows(s: State, w: Wrapper, now: bool)
    ensures var t := CancelOne(s, w, now); t.issued >= s.issued && t.toCancel == s.toCancel
  {
    if !Closed(s, w) && H(s, w.h).native.InProgress? && H(s, w.h).native.op in s.ops {
      CallbackEffect(s.(cancelAsked := s.cancelAsked + {H(s, w.h).native.op}), w.h, Canceled, 0);
    }
  }

  lemma {:induction false} CancelManyGrows(s: State, order: seq<Wrapper>, now: seq<bool>)
    requires |now| == |order|
    ensures var t := CancelMany(s, order, now); t.issued >= s.issued && t.toCancel == s.toCancel
    decreases |order|
  {
    if order == [] {
    } else {
      CancelOneGrows(s, order[0], now[0]);
      CancelManyGrows(CancelOne(s, order[0], now[0]), order[1..], now[1..]);
    }
  }

  lemma IssuedGrows(s: State, e: Event)
    requires Possible(s, e)
    ensures Next(s, e).issued >= s.issued
  {
    match e
    case Completes(h, status, length) => CallbackEffect(s, h, status, length);
    case Returns(h) => ReturnEffect(s, h);
    case CancelsScheduled(order, now) => CancelManyGrows(s, order, now);
    case CancelsGroup(k, order, now) => CancelManyGrows(s, order, now);
    case _ =>
  }

  /** A wrapper that reports closed stays closed, whatever becomes of its handle; a resolved
      future keeps its result. */
  ghost predicate Settled(s: State, t: State) {
    && (forall w: Wrapper :: 1 <= w.uid <= |s.opOf| && Closed(s, w) ==> Closed(t, w))
    && (forall op :: op in s.futures && s.futures[op].Done? ==> op in t.futures && t.futures[op] == s.futures[op])
    && s.opOf <= t.opOf
  }

  lemma CancelManySettled(s: State, order: seq<Wrapper>, now: seq<bool>)
    requires Inv(s) && |now| == |order| && forall w :: w in order ==> WrapperOk(s, w)
    ensures Settled(s, CancelMany(s, order, now))
  {
    CancelManyInv(s, order, now);
    assert forall w: Wrapper :: 1 <= w.uid <= |s.opOf| && Closed(s, w) ==> WrapperOk(s, w);
  }

  /** What a transition that moves one handle on keeps settled. */
  lemma OneHandleSettled(s: State, t: State, h: nat, x: Handle)
    requires t.handles == s.handles[h := x]
    requires x.uid == 0 || x.uid == s.issued + 1 == |s.opOf| + 1
    requires s.opOf <= t.opOf
    requires forall op :: op in s.futures && s.futures[op].Done? ==> op in t.futures && t.futures[op] == s.futures[op]
    ensures Settled(s, t)
  {
  }

  lemma ReturnSettled(s: State, h: nat)
    requires Inv(s) && Possible(s, Returns(h)) && (H(s, h).native.Completed? || s.issued + 1 < UIDS)
    ensures Settled(s, Return(s, h))
  {
    assert HandleOk(s, h);
    ReturnForm(s, h);
    OneHandleSettled(s, Return(s, h), h, H(Return(s, h), h));
  }

  lemma LateSettled(s: State, h: nat, op: nat, status: Status, length: nat)
    requires Inv(s) && op in s.ops
    ensures Settled(s, CompletedLate(s, h, op, status, length))
  {
    OneHandleSettled(s, CompletedLate(s, h, op, status, length), h, FREE_HANDLE);
  }

  lemma EarlySettled(s: State, h: nat, op: nat, status: Status, length: nat)
    requires Inv(s)
    ensures Settled(s, CompletedEarly(s, h, op, status, length))
  {
    OneHandleSettled(s, CompletedEarly(s, h, op, status, length), h,
                     Handle(s.issued + 1, Info(true, false), Completed(op), true));
  }

  lemma CallbackSettled(s: State, h: nat, status: Status, length: nat)
    requires Inv(s) && Possible(s, Completes(h, status, length)) && (H(s, h).returning ==> s.issued + 1 < UIDS)
    ensures Settled(s, Callback(s, h, status, length))
  {
    assert HandleOk(s, h);
    var op := H(s, h).native.op;
    if H(s, h).returning {
      EarlyForm(s, h, status, length);
      EarlySettled(s, h, op, status, length);
    } else {
      LateForm(s, h, status, length);
      LateSettled(s, h, op, status, length);
    }
  }

  lemma CancelsGroupSettled(s: State, k: nat, order: seq<Wrapper>, now: seq<bool>)
    requires Inv(s) && Possible(s, CancelsGroup(k, order, now))
    ensures Settled(s, Next(s, CancelsGroup(k, order, now)))
  {
    forall w | w in order ensures WrapperOk(s, w) {
      assert MemberOk(s, k, w);
    }
    CancelManySettled(s, order, now);
  }

  lemma SubmitSettled(s: State, op: nat, o: Op, h: nat)
    requires Inv(s) && Possible(s, Submits(op, o, h))
    ensures Settled(s, Submit(s, op, o, h))
  {
    assert HandleOk(s, h);
    OneHandleSettled(s, Submit(s, op, o, h), h, H(Submit(s, op, o, h), h));
  }

  /** Events that touch no handle. */
  lemma CallerSettled(s: State, e: Event)
    requires Inv(s) && Possible(s, e)
    requires e.SubmitsImmediate? || e.UserCancels? || e.LoopCloses? || e.ErrorCallback?
    ensures Settled(s, Next(s, e))
  {
    assert Next(s, e).handles == s.handles && Next(s, e).opOf == s.opOf;
  }

  lemma NextSettled(s: State, e: Event)
    requires Inv(s) && Possible(s, e) && Next(s, e).issued < UIDS
    ensures Settled(s, Next(s, e))
  {
    match e
    case Submits(op, o, h) => SubmitSettled(s, op, o, h);
    case Returns(h) =>
      if !H(s, h).native.Completed? {
        ReturnNumber(s, h);
      }
      ReturnSettled(s, h);
    case Completes(h, status, length) =>
      if H(s, h).returning {
        CallbackNumber(s, h, status, length);
      }
      CallbackSettled(s, h, status, length);
    case CancelsScheduled(order, now) => CancelManySettled(s, order, now);
    case CancelsGroup(k, order, now) => CancelsGroupSettled(s, k, order, now);
    case _ => CallerSettled(s, e);
  }

  // ---------------------------------------------------------------------------------------
  // Runs

  ghost predicate IsRun(s: State, es: seq<Event>)
    decreases |es|
  {
    es == [] || (Possible(s, es[0]) && IsRun(Next(s, es[0]), es[1..]))
  }

  ghost function Run(s: State, es: seq<Event>): State
    requires IsRun(s, es)
    decreases |es|
  {
    if es == [] then s else Run(Next(s, es[0]), es[1..])
  }

  lemma {:induction false} RunGrows(s: State, es: seq<Event>)
    requires IsRun(s, es)
    ensures Run(s, es).issued >= s.issued
    decreases |es|
  {
    if es == [] {
    } else {
      IssuedGrows(s, es[0]);
      RunGrows(Next(s, es[0]), es[1..]);
    }
  }

  lemma {:induction false} RunInv(s: State, es: seq<Event>)
    requires Inv(s) && IsRun(s, es) && Run(s, es).issued < UIDS
    ensures Inv(Run(s, es)) && Settled(s, Run(s, es))
    decreases |es|
  {
    if es == [] {
    } else {
      RunGrows(Next(s, es[0]), es[1..]);
      NextInv(s, es[0]);
      NextSettled(s, es[0]);
      RunInv(Next(s, es[0]), es[1..]);
    }
  }

  /** Fewer than 2^32 requests have been made. */
  ghost predicate Reached(s: State) {
    s.issued < UIDS && exists es :: IsRun(START, es) && Run(START, es) == s
  }

  lemma ReachedInv(s: State)
    requires Reached(s)
    ensures Inv(s)
  {
    var es :| IsRun(START, es) && Run(START, es) == s;
    RunInv(START, es);
  }

  // ---------------------------------------------------------------------------------------
  // Exactly-once completion

  /** No operation's call-back runs twice. */
  lemma CallbackAtMostOnce(s: State, i: nat, j: nat)
    requires Reached(s) && i < j < |s.calls|
    ensures s.calls[i] != s.calls[j]
  {
    ReachedInv(s);
  }

  /** Once UCX has no operation in progress and no submission is about to return, every future is
      resolved, and every completed operation's call-back has run. */
  lemma NothingStaysPending(s: State)
    requires Reached(s) && s.loopOpen && forall h :: !H(s, h).returning && !H(s, h).native.InProgress?
    ensures forall op :: op in s.futures ==> s.futures[op].Done?
    ensures forall op :: op in s.completions <==> op in s.calls
  {
    ReachedInv(s);
    forall op | op in s.ops
      ensures op in s.futures && s.futures[op].Done? && (op in s.completions <==> op in s.calls)
    {
      assert FutureOk(s, op);
      if op in s.slot {
        assert HandleOk(s, s.slot[op]);
      }
    }
  }

  /** A future is resolved once: later events never change its result. */
  lemma ResolvedOnce(s: State, es: seq<Event>, op: nat)
    requires Reached(s) && IsRun(s, es) && Run(s, es).issued < UIDS
    requires op in s.futures && s.futures[op].Done?
    ensures op in Run(s, es).futures && Run(s, es).futures[op] == s.futures[op]
  {
    ReachedInv(s);
    RunInv(s, es);
  }

  /** A registered operation succeeds exactly when its status is OK and, for a receive, the length
      is the expected one; one that completed before its registration always reports success. */
  lemma SuccessIff(s: State, op: nat)
    requires Reached(s) && op in s.futures && op in s.completions
    requires s.futures[op].Done? && s.futures[op].result != CanceledByUser
    ensures op in s.ops
    ensures s.futures[op].result == Success <==>
      || s.completions[op].early
      || (s.completions[op].status == Ok && (s.ops[op].recv ==> s.completions[op].length == s.ops[op].expected))
  {
    ReachedInv(s);
    assert FutureOk(s, op);
  }

  /** And a registered operation that its caller did not cancel is given the exception that its
      completion calls for. */
  lemma ExceptionIff(s: State, op: nat)
    requires Reached(s) && op in s.futures && op in s.completions && !s.completions[op].early
    requires s.futures[op].Done? && s.futures[op].result != CanceledByUser
    ensures op in s.ops
    ensures var r, c := s.futures[op].result, s.completions[op];
      && (r == CanceledError <==> c.status == Canceled)
      && (forall code :: r == UcxError(code) <==> c.status == Failed(code))
      && (r == Truncated <==> c.status == Ok && s.ops[op].recv && c.length != s.ops[op].expected)
  {
    ReachedInv(s);
    assert FutureOk(s, op);
  }

  /** A submission that completes at once succeeds. */
  lemma ImmediateSucceeds(s: State, op: nat, o: Op)
    requires Possible(s, SubmitsImmediate(op, o))
    ensures op in Next(s, SubmitsImmediate(op, o)).futures
    ensures Next(s, SubmitsImmediate(op, o)).futures[op] == Done(Success)
  {
  }

  /** A future that its caller cancelled stays cancelled, whatever becomes of the operation. */
  lemma UserCancelStays(s: State, op: nat, es: seq<Event>)
    requires Reached(s) && Possible(s, UserCancels(op)) && IsRun(Next(s, UserCancels(op)), es)
    requires Run(Next(s, UserCancels(op)), es).issued < UIDS
    ensures var t := Run(Next(s, UserCancels(op)), es); op in t.futures && t.futures[op] == Done(CanceledByUser)
  {
    ReachedInv(s);
    UserCancelsInv(s, op);
    RunInv(Next(s, UserCancels(op)), es);
  }

  lemma ClosedLoopRegistered(t: State, w: Wrapper, op: nat, status: Status, length: nat)
    requires !t.loopOpen && op in t.ops
    ensures var u := RunRegistered(t, w, op, status, length); u.futures == t.futures && !u.loopOpen
  {
  }

  lemma ClosedLoopCallback(s: State, h: nat, status: Status, length: nat)
    requires !s.loopOpen && H(s, h).native.InProgress? && H(s, h).native.op in s.ops
    ensures var t := Callback(s, h, status, length); t.futures == s.futures && !t.loopOpen
  {
    var op := H(s, h).native.op;
    var (s1, w) := Wrap(s, h);
    var registered := H(s1, h).info.registered;
    var t := SetHandle(s1, h, H(s1, h).(info := Info(true, registered), native := Completed(op))).(
      completions := s1.completions[op := Completion(status, length, !registered)]);
    ClosedLoopRegistered(t, w, op, status, length);
  }

  lemma {:induction false} ClosedLoopCancel(s: State, order: seq<Wrapper>, now: seq<bool>)
    requires !s.loopOpen && |now| == |order|
    ensures var t := CancelMany(s, order, now); t.futures == s.futures && !t.loopOpen
    decreases |order|
  {
    if order == [] {
    } else {
      var w := order[0];
      if !Closed(s, w) && H(s, w.h).native.InProgress? && H(s, w.h).native.op in s.ops && now[0] {
        ClosedLoopCallback(s.(cancelAsked := s.cancelAsked + {H(s, w.h).native.op}), w.h, Canceled, 0);
      }
      ClosedLoopCancel(CancelOne(s, w, now[0]), order[1..], now[1..]);
    }
  }

  /** Once the event loop is closed no completion resolves a future. */
  lemma ClosedLoopResolvesNothing(s: State, e: Event)
    requires Possible(s, e) && !s.loopOpen && (e.Completes? || e.CancelsScheduled? || e.CancelsGroup?)
    ensures Next(s, e).futures == s.futures && !Next(s, e).loopOpen
  {
    match e
    case Completes(h, status, length) => ClosedLoopCallback(s, h, status, length);
    case CancelsScheduled(order, now) => ClosedLoopCancel(s, order, now);
    case CancelsGroup(k, order, now) => ClosedLoopCancel(s, order, now);
  }

  lemma {:induction false} LoopStaysClosed(s: State, es: seq<Event>)
    requires Inv(s) && IsRun(s, es) && Run(s, es).issued < UIDS && !s.loopOpen
    ensures !Run(s, es).loopOpen
    decreases |es|
  {
    if es == [] {
    } else {
      var e := es[0];
      RunGrows(Next(s, e), es[1..]);
      NextInv(s, e);
      if e.Completes? || e.CancelsScheduled? || e.CancelsGroup? {
        ClosedLoopResolvesNothing(s, e);
      } else if e.Returns? {
        ReturnKeepsLoop(s, e.h);
      }
      LoopStaysClosed(Next(s, e), es[1..]);
    }
  }

  lemma ReturnKeepsLoop(s: State, h: nat)
    requires !H(s, h).native.Free? && H(s, h).native.op in s.ops
    ensures Return(s, h).loopOpen == s.loopOpen
  {
    assert HandleStatus(s, h).0.loopOpen == s.loopOpen;
  }

  /** And a closed loop stays closed: after it, in every later state, completions resolve nothing. */
  lemma NothingResolvedAfterClose(s: State, es: seq<Event>, e: Event)
    requires Reached(s) && IsRun(Next(s, LoopCloses), es) && Run(Next(s, LoopCloses), es).issued < UIDS
    requires var t := Run(Next(s, LoopCloses), es);
      Possible(t, e) && (e.Completes? || e.CancelsScheduled? || e.CancelsGroup?)
    ensures var t := Run(Next(s, LoopCloses), es); Next(t, e).futures == t.futures
  {
    ReachedInv(s);
    LoopClosesInv(s);
    LoopStaysClosed(Next(s, LoopCloses), es);
    ClosedLoopResolvesNothing(Run(Next(s, LoopCloses), es), e);
  }

  /** And that happens: a receive that fails before its submission returns reports success. */
  lemma EarlyFailureReportsSuccess() returns (es: seq<Event>)
    ensures IsRun(START, es) && Reached(Run(START, es))
    ensures Run(START, es).completions == map[0 := Completion(Failed(-3), 0, true)]
    ensures Run(START, es).futures == map[0 := Done(Success)]
  {
    var s1 := Next(START, Submits(0, Op(true, 8, 0), 0));
    var s2 := Next(s1, Completes(0, Failed(-3), 0));
    var s3 := Next(s2, Returns(0));
    es := [Submits(0, Op(true, 8, 0), 0)] + ([Completes(0, Failed(-3), 0)] + ([Returns(0)] + []));
    Then(s2, Returns(0), []);
    Then(s1, Completes(0, Failed(-3), 0), [Returns(0)] + []);
    Then(START, Submits(0, Op(true, 8, 0), 0), [Completes(0, Failed(-3), 0)] + ([Returns(0)] + []));
    assert s3.futures[0] == Done(Success);
  }

  lemma Then(s: State, e: Event, rest: seq<Event>)
    requires Possible(s, e) && IsRun(Next(s, e), rest)
    ensures IsRun(s, [e] + rest) && Run(s, [e] + rest) == Run(Next(s, e), rest)
  {
    assert ([e] + rest)[1..] == rest;
  }

  // ---------------------------------------------------------------------------------------
  // Wrappers

  lemma ClosedForever(s: State, es: seq<Event>, w: Wrapper)
    requires Reached(s) && IsRun(s, es) && Run(s, es).issued < UIDS
    requires 1 <= w.uid <= s.issued && Closed(s, w)
    ensures Closed(Run(s, es), w)
  {
    ReachedInv(s);
    RunInv(s, es);
  }

  /** Open wrappers are equal exactly when they denote the same operation. */
  lemma EqualIffSameOp(s: State, v: Wrapper, w: Wrapper)
    requires Reached(s) && !Closed(s, v) && !Closed(s, w) && v.uid != 0 && w.uid != 0
    ensures !H(s, v.h).native.Free? && !H(s, w.h).native.Free?
    ensures Equal(s, v, w) <==> H(s, v.h).native.op == H(s, w.h).native.op
  {
    ReachedInv(s);
    assert HandleOk(s, v.h) && HandleOk(s, w.h);
  }

  /** A closed wrapper equals only itself, in whatever state the other one is. */
  lemma ClosedEqualsItself(s: State, v: Wrapper, w: Wrapper)
    requires Closed(s, v)
    ensures Equal(s, v, w) <==> v == w
  {
  }

  // ---------------------------------------------------------------------------------------
  // In-flight sets

  /** Every member of an in-flight set is open, pending, registered, and in the set that its
      operation was given, so the `not req.closed()` assertions hold; every registered pending
      request is a member, unless a cancellation cleared the set it was in. */
  lemma InflightSets(s: State, k: nat, w: Wrapper)
    requires Reached(s)
    ensures w in Members(s, k) ==>
      && !Closed(s, w) && H(s, w.h).native.InProgress? && H(s, w.h).info == Info(false, true)
      && H(s, w.h).native.op in s.ops && s.ops[H(s, w.h).native.op].group == k
    ensures H(s, w.h).native.InProgress? && H(s, w.h).info.Info? && w.uid == H(s, w.h).uid ==>
      && H(s, w.h).native.op in s.ops
      && (w in Members(s, s.ops[H(s, w.h).native.op].group) || w in s.cleared)
  {
    ReachedInv(s);
    assert HandleOk(s, w.h);
    assert w in Members(s, k) ==> MemberOk(s, k, w);
  }

  /** Cancelling the requests of a set asks only for operations that a wrapper of the set denoted
      when it was made: a wrapper left over from an older use of a handle cancels nothing. */
  lemma StaleCancelIsHarmless(s: State, order: seq<Wrapper>, now: seq<bool>, op: nat)
    requires Reached(s) && Possible(s, CancelsScheduled(order, now))
    requires op in CancelMany(s, order, now).cancelAsked && op !in s.cancelAsked
    ensures exists w :: w in s.toCancel && Names(s, w.uid, op)
  {
    ReachedInv(s);
    CancelManyAsksOnly(s, order, now, op);
    var w :| w in order && Names(s, w.uid, op);
    assert w in s.toCancel;
  }

  lemma {:induction false} CancelManyAsks(s: State, order: seq<Wrapper>, now: seq<bool>, w: Wrapper)
    requires Inv(s) && |now| == |order| && forall v :: v in order ==> WrapperOk(s, v)
    requires WrapperOk(s, w) && !Closed(s, w) && w in order
    ensures H(s, w.h).native.op in CancelMany(s, order, now).cancelAsked
    decreases |order|
  {
    var u, op := CancelOne(s, order[0], now[0]), H(s, w.h).native.op;
    OpenDenotes(s, w);
    CancelOneKeeps(s, order[0], now[0]);
    CancelOneFrame(s, order[0], now[0]);
    if order[0] == w {
      CancelManyKeepsAsked(u, order[1..], now[1..]);
    } else {
      CancelOneWrappers(s, order[0], now[0]);
      OpenDenotes(u, w);
      assert u.opOf[w.uid - 1] == op;
      CancelManyAsks(u, order[1..], now[1..], w);
    }
  }

  lemma {:induction false} CancelManyKeepsAsked(s: State, order: seq<Wrapper>, now: seq<bool>)
    requires Inv(s) && |now| == |order| && forall v :: v in order ==> WrapperOk(s, v)
    ensures s.cancelAsked <= CancelMany(s, order, now).cancelAsked
    decreases |order|
  {
    if order == [] {
    } else {
      CancelOneKeeps(s, order[0], now[0]);
      CancelOneFrame(s, order[0], now[0]);
      CancelManyKeepsAsked(CancelOne(s, order[0], now[0]), order[1..], now[1..]);
    }
  }

  /** A scheduled wrapper stays scheduled until the next scheduled cancellation. */
  lemma NextKeepsScheduled(s: State, e: Event)
    requires Possible(s, e) && !e.CancelsScheduled?
    ensures s.toCancel <= Next(s, e).toCancel
  {
    match e
    case Completes(h, status, length) => CallbackEffect(s, h, status, length);
    case Returns(h) => ReturnEffect(s, h);
    case CancelsGroup(k, order, now) => CancelManyGrows(s, order, now);
    case _ =>
  }

  lemma {:induction false} StaysScheduled(s: State, es: seq<Event>)
    requires IsRun(s, es) && forall e :: e in es ==> !e.CancelsScheduled?
    ensures s.toCancel <= Run(s, es).toCancel
    decreases |es|
  {
    if es == [] {
    } else {
      assert es[0] in es && forall e :: e in es[1..] ==> e in es;
      NextKeepsScheduled(s, es[0]);
      StaysScheduled(Next(s, es[0]), es[1..]);
    }
  }

  /** Whatever happens between an endpoint's error call-back and the next scheduled cancellation: that
      cancellation asks for every request that was in flight on the endpoint and is still open by
      then. */
  lemma ErrorCancelsInflight(s: State, k: nat, es: seq<Event>, order: seq<Wrapper>, now: seq<bool>, w: Wrapper)
    requires Reached(s) && w in Members(s, k)
    requires IsRun(Next(s, ErrorCallback(k)), es) && forall e :: e in es ==> !e.CancelsScheduled?
    requires var u := Run(Next(s, ErrorCallback(k)), es);
      u.issued < UIDS && Possible(u, CancelsScheduled(order, now)) && !Closed(u, w)
    ensures var u := Run(Next(s, ErrorCallback(k)), es);
      && !H(s, w.h).native.Free? && !H(u, w.h).native.Free? && H(u, w.h).native.op == H(s, w.h).native.op
      && H(u, w.h).native.op in Next(u, CancelsScheduled(order, now)).cancelAsked
  {
    ReachedInv(s);
    assert MemberOk(s, k, w);
    OpenDenotes(s, w);
    ErrorCallbackInv(s, k);
    var t := Next(s, ErrorCallback(k));
    var u := Run(t, es);
    RunInv(t, es);
    StaysScheduled(t, es);
    assert w in u.toCancel;
    OpenDenotes(u, w);
    CancelManyAsks(u, order, now, w);
  }

  /** A request that UCX cancels at once is resolved with the cancellation. */
  lemma CancelOneResolves(s: State, w: Wrapper)
    requires Inv(s) && WrapperOk(s, w) && !Closed(s, w) && s.loopOpen
    requires var op := H(s, w.h).native.op; op in s.futures && s.futures[op].Pending?
    ensures var t, op := CancelOne(s, w, true), H(s, w.h).native.op;
      op in t.futures && t.futures[op] == Done(CanceledError)
  {
    OpenDenotes(s, w);
    var u := s.(cancelAsked := s.cancelAsked + {H(s, w.h).native.op});
    assert HandleOk(s, w.h) && HandleOk(u, w.h);
    LateForm(u, w.h, Canceled, 0);
  }

  /** And leaves every other request as it was. */
  lemma CancelOneLeavesOthers(s: State, v: Wrapper, now: bool, w: Wrapper)
    requires Inv(s) && WrapperOk(s, v) && WrapperOk(s, w) && !Closed(s, w) && v != w
    ensures var t, op := CancelOne(s, v, now), H(s, w.h).native.op;
      && H(t, w.h) == H(s, w.h) && t.loopOpen == s.loopOpen
      && (op in s.futures ==> op in t.futures && t.futures[op] == s.futures[op])
  {
    OpenDenotes(s, w);
    assert HandleOk(s, w.h) && HandleOk(s, v.h);
    if !Closed(s, v) && now {
      OpenDenotes(s, v);
      var u := s.(cancelAsked := s.cancelAsked + {H(s, v.h).native.op});
      assert HandleOk(u, v.h);
      LateForm(u, v.h, Canceled, 0);
    }
  }

  lemma {:induction false} CancelManyResolves(s: State, order: seq<Wrapper>, now: seq<bool>, w: Wrapper)
    requires Inv(s) && |now| == |order| && s.loopOpen && forall v :: v in order ==> WrapperOk(s, v)
    requires WrapperOk(s, w) && !Closed(s, w) && w in order && forall i :: 0 <= i < |now| ==> now[i]
    requires var op := H(s, w.h).native.op; op in s.futures && s.futures[op].Pending?
    ensures var t, op := CancelMany(s, order, now), H(s, w.h).native.op;
      op in t.futures && t.futures[op] == Done(CanceledError)
    decreases |order|
  {
    var u := CancelOne(s, order[0], now[0]);
    CancelOneKeeps(s, order[0], now[0]);
    if order[0] == w {
      CancelOneResolves(s, w);
      CancelManyInv(u, order[1..], now[1..]);
    } else {
      CancelOneLeavesOthers(s, order[0], now[0], w);
      assert H(u, w.h) == H(s, w.h) && WrapperOk(u, w) && w in order[1..];
      CancelManyResolves(u, order[1..], now[1..], w);
    }
  }

  /** The endpoint's finalizer asks for every request in flight on the endpoint and leaves none in its
      set; each that UCX cancels at once, as all are here, is resolved with the cancellation. */
  lemma FinalizerCancels(s: State, k: nat, order: seq<Wrapper>, now: seq<bool>, w: Wrapper)
    requires Reached(s) && Possible(s, CancelsGroup(k, order, now)) && w in Members(s, k)
    ensures !H(s, w.h).native.Free?
    ensures var t, op := Next(s, CancelsGroup(k, order, now)), H(s, w.h).native.op;
      && op in t.cancelAsked && Members(t, k) == {}
      && ((forall i :: 0 <= i < |now| ==> now[i]) && s.loopOpen && op in s.futures && s.futures[op].Pending? ==>
            op in t.futures && t.futures[op] == Done(CanceledError))
  {
    ReachedInv(s);
    forall v | v in order ensures WrapperOk(s, v) {
      assert MemberOk(s, k, v);
    }
    assert MemberOk(s, k, w);
    CancelManyAsks(s, order, now, w);
    var op := H(s, w.h).native.op;
    if (forall i :: 0 <= i < |now| ==> now[i]) && s.loopOpen && op in s.futures && s.futures[op].Pending? {
      CancelManyResolves(s, order, now, w);
    }
  }

  /** A scheduled cancellation leaves nothing scheduled. */
  lemma ScheduleIsCleared(s: State, order: seq<Wrapper>, now: seq<bool>)
    requires Possible(s, CancelsScheduled(order, now))
    ensures Next(s, CancelsScheduled(order, now)).toCancel == {}
  {
  }

  lemma CancelOneSpares(s: State, w: Wrapper, now: bool, v: Wrapper)
    requires Inv(s) && WrapperOk(s, w) && WrapperOk(s, v) && v != w && !Closed(s, v)
    ensures WrapperOk(CancelOne(s, w, now), v) && !Closed(CancelOne(s, w, now), v)
  {
    CancelOneWrappers(s, w, now);
  }

  lemma {:induction false} RestStaysOpen(s: State, order: seq<Wrapper>, now: seq<bool>, i: nat)
    requires Inv(s) && |now| == |order| && i < |order|
    requires forall j :: 0 <= j < |order| ==> WrapperOk(s, order[j]) && !Closed(s, order[j])
    requires forall j, k :: 0 <= j < k < |order| ==> order[j] != order[k]
    ensures !Closed(CancelMany(s, order[..i], now[..i]), order[i])
    decreases i
  {
    if i == 0 {
    } else {
      var u, rest := CancelOne(s, order[0], now[0]), order[1..];
      CancelOneInv(s, order[0], now[0]);
      forall j | 0 <= j < |rest| ensures WrapperOk(u, rest[j]) && !Closed(u, rest[j]) {
        CancelOneSpares(s, order[0], now[0], order[j + 1]);
      }
      assert order[..i][1..] == rest[..i - 1] && now[..i][1..] == now[1..][..i - 1];
      RestStaysOpen(u, rest, now[1..], i - 1);
    }
  }

  /** The worker's finalizer goes through a copy of its in-flight set and asserts before each
      cancellation that the request is open. */
  lemma FinalizerAssertionHolds(s: State, k: nat, order: seq<Wrapper>, now: seq<bool>, i: nat)
    requires Reached(s) && Lists(order, now, Members(s, k)) && i < |order|
    requires forall j, l :: 0 <= j < l < |order| ==> order[j] != order[l]
    ensures !Closed(CancelMany(s, order[..i], now[..i]), order[i])
  {
    ReachedInv(s);
    forall j | 0 <= j < |order| ensures WrapperOk(s, order[j]) && !Closed(s, order[j]) {
      assert order[j] in order && MemberOk(s, k, order[j]);
    }
    RestStaysOpen(s, order, now, i);
  }
}
