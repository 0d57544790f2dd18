/**
 What the cancellation loops keep and ask for, and that every event keeps the invariant of the
 request layer.
 */
module RequestCancels {
  import opened Requests
  import opened RequestSteps

  /** An open wrapper denotes the operation of its handle. */
  lemma OpenDenotes(s: State, w: Wrapper)
    requires HandlesOk(s) && WrapperOk(s, w) && !Closed(s, w)
    ensures Live(s, H(s, w.h).native.op) && Names(s, w.uid, H(s, w.h).native.op)
  {
    assert HandleOk(s, w.h);
  }

  lemma CancelOneInv(s: State, w: Wrapper, now: bool)
    requires Inv(s) && WrapperOk(s, w)
    ensures Inv(CancelOne(s, w, now))
  {
    if !Closed(s, w) {
      OpenDenotes(s, w);
      var op := H(s, w.h).native.op;
      var t := s.(cancelAsked := s.cancelAsked + {op});
      assert NamesOk(t) && WrappersOk(t) by {
        assert forall k, v :: v in Members(s, k) ==> MemberOk(s, k, v);
        assert forall k, v :: MemberOk(s, k, v) ==> MemberOk(t, k, v);
      }
      assert forall h :: HandleOk(s, h) ==> HandleOk(t, h);
      assert forall o :: o in t.futures ==> FutureOk(s, o) && FutureOk(t, o);
      if now {
        LateForm(t, w.h, Canceled, 0);
        CompletedLateInv(t, w.h, op, Canceled, 0);
      }
    }
  }

  /** A completion closes one wrapper. */
  lemma CompletedLateFrame(s: State, w: Wrapper, op: nat)
    requires HandleOk(s, w.h) && WrapperOk(s, w) && !Closed(s, w) && op == H(s, w.h).native.op && op in s.ops
    ensures var t := CompletedLate(s, w.h, op, Canceled, 0);
      && (forall v :: v != w && WrapperOk(s, v) ==> WrapperOk(t, v) && (Closed(s, v) <==> Closed(t, v)))
      && WrapperOk(t, w)
  {
  }

  /** What one turn of a cancellation loop leaves alone. */
  lemma CancelOneFrame(s: State, w: Wrapper, now: bool)
    requires Inv(s) && WrapperOk(s, w)
    ensures var t := CancelOne(s, w, now);
      && t.issued == s.issued && t.opOf == s.opOf && t.toCancel == s.toCancel && t.cleared == s.cleared
      && t.loopOpen == s.loopOpen
      && (forall op :: op in s.futures && s.futures[op].Done? ==> op in t.futures && t.futures[op] == s.futures[op])
      && t.cancelAsked == s.cancelAsked + (if Closed(s, w) then {} else {H(s, w.h).native.op})
      && (!Closed(s, w) ==> Names(s, w.uid, H(s, w.h).native.op))
  {
    if !Closed(s, w) {
      OpenDenotes(s, w);
      var op := H(s, w.h).native.op;
      var u := s.(cancelAsked := s.cancelAsked + {op});
      if now {
        assert HandleOk(s, w.h) && HandleOk(u, w.h);
        LateForm(u, w.h, Canceled, 0);
      }
    }
  }

  /** It closes its own wrapper at most. */
  lemma CancelOneWrappers(s: State, w: Wrapper, now: bool)
    requires Inv(s) && WrapperOk(s, w)
    ensures var t := CancelOne(s, w, now);
      && (forall v :: v != w && WrapperOk(s, v) ==> WrapperOk(t, v) && (Closed(s, v) <==> Closed(t, v)))
      && (WrapperOk(t, w) && (Closed(s, w) ==> Closed(t, w)))
  {
    if !Closed(s, w) {
      OpenDenotes(s, w);
      var op := H(s, w.h).native.op;
      var u := s.(cancelAsked := s.cancelAsked + {op});
      if now {
        assert HandleOk(s, w.h) && HandleOk(u, w.h);
        LateForm(u, w.h, Canceled, 0);
        CompletedLateFrame(u, w, op);
        assert forall v :: WrapperOk(s, v) ==> WrapperOk(u, v);
      }
    }
  }

  /** What a cancellation loop keeps: wrappers stay what they are, closed ones stay closed, and
      resolved futures keep their results. */
  ghost predicate Kept(s: State, t: State) {
    && t.issued == s.issued && t.opOf == s.opOf && t.toCancel == s.toCancel && t.cleared == s.cleared
    && t.loopOpen == s.loopOpen
    && (forall v :: WrapperOk(s, v) ==> WrapperOk(t, v) && (Closed(s, v) ==> Closed(t, v)))
    && (forall op :: op in s.futures && s.futures[op].Done? ==> op in t.futures && t.futures[op] == s.futures[op])
  }

  lemma CancelOneKeeps(s: State, w: Wrapper, now: bool)
    requires Inv(s) && WrapperOk(s, w)
    ensures Inv(CancelOne(s, w, now)) && Kept(s, CancelOne(s, w, now))
  {
    CancelOneInv(s, w, now);
    CancelOneFrame(s, w, now);
    CancelOneWrappers(s, w, now);
  }

  lemma {:induction false} CancelManyInv(s: State, order: seq<Wrapper>, now: seq<bool>)
    requires Inv(s) && |now| == |order| && forall w :: w in order ==> WrapperOk(s, w)
    ensures Inv(CancelMany(s, order, now)) && Kept(s, CancelMany(s, order, now))
    decreases |order|
  {
    if order == [] {
    } else {
      CancelOneKeeps(s, order[0], now[0]);
      CancelManyInv(CancelOne(s, order[0], now[0]), order[1..], now[1..]);
    }
  }

  /** The loop asks only for operations that its wrappers denote, whatever has become of their
      handles since the set was copied. */
  lemma {:induction false} CancelManyAsksOnly(s: State, order: seq<Wrapper>, now: seq<bool>, op: nat)
    requires Inv(s) && |now| == |order| && forall w :: w in order ==> WrapperOk(s, w)
    requires op in CancelMany(s, order, now).cancelAsked && op !in s.cancelAsked
    ensures exists w :: w in order && Names(s, w.uid, op)
    decreases |order|
  {
    if order == [] {
    } else {
      var u := CancelOne(s, order[0], now[0]);
      CancelOneKeeps(s, order[0], now[0]);
      CancelOneFrame(s, order[0], now[0]);
      if op in u.cancelAsked {
        assert order[0] in order && Names(s, order[0].uid, op);
      } else {
        CancelManyAsksOnly(u, order[1..], now[1..], op);
        var w :| w in order[1..] && Names(u, w.uid, op);
        assert w in order && Names(s, w.uid, op);
      }
    }
  }

  lemma ReturnInv(s: State, h: nat)
    requires Inv(s) && Possible(s, Returns(h)) && (H(s, h).native.Completed? || s.issued + 1 < UIDS)
    ensures Inv(Return(s, h))
  {
    assert HandleOk(s, h);
    ReturnForm(s, h);
    if H(s, h).native.Completed? {
      ReturnedEarlyInv(s, h, H(s, h).native.op);
    } else {
      RegisteredInv(s, h, H(s, h).native.op);
    }
  }

  lemma EarlyCallbackInv(s: State, h: nat, status: Status, length: nat)
    requires Inv(s) && Possible(s, Completes(h, status, length)) && H(s, h).returning && s.issued + 1 < UIDS
    ensures Inv(Callback(s, h, status, length))
  {
    assert HandleOk(s, h);
    EarlyForm(s, h, status, length);
    CompletedEarlyInv(s, h, H(s, h).native.op, status, length);
  }

  lemma CallbackInv(s: State, h: nat, status: Status, length: nat)
    requires Inv(s) && Possible(s, Completes(h, status, length)) && (H(s, h).returning ==> s.issued + 1 < UIDS)
    ensures Inv(Callback(s, h, status, length))
  {
    if H(s, h).returning {
      EarlyCallbackInv(s, h, status, length);
    } else {
      assert HandleOk(s, h);
      LateForm(s, h, status, length);
      CompletedLateInv(s, h, H(s, h).native.op, status, length);
    }
  }

  /** A request is given its number when its submission returns, or before that if it completes. */
  lemma ReturnNumber(s: State, h: nat)
    requires Inv(s) && Possible(s, Returns(h)) && !H(s, h).native.Completed?
    ensures Return(s, h).issued == s.issued + 1
  {
    assert HandleOk(s, h);
    ReturnEffect(s, h);
  }

  lemma CallbackNumber(s: State, h: nat, status: Status, length: nat)
    requires Inv(s) && Possible(s, Completes(h, status, length)) && H(s, h).returning
    ensures Callback(s, h, status, length).issued == s.issued + 1
  {
    assert HandleOk(s, h);
    CallbackEffect(s, h, status, length);
  }

  lemma NextInv(s: State, e: Event)
    requires Inv(s) && Possible(s, e) && Next(s, e).issued < UIDS
    ensures Inv(Next(s, e))
  {
    match e
    case Submits(op, o, h) => SubmitInv(s, op, o, h);
    case Returns(h) =>
      if !H(s, h).native.Completed? {
        ReturnNumber(s, h);
      }
      ReturnInv(s, h);
    case Completes(h, status, length) =>
      if H(s, h).returning {
        CallbackNumber(s, h, status, length);
      }
      CallbackInv(s, h, status, length);
    case CancelsScheduled(order, now) =>
      CancelManyInv(s, order, now);
      NoneScheduledInv(CancelMany(s, order, now));
    case CancelsGroup(k, order, now) =>
      forall w | w in order ensures WrapperOk(s, w) {
        assert MemberOk(s, k, w);
      }
      CancelManyInv(s, order, now);
      ClearInv(CancelMany(s, order, now), k);
    case ErrorCallback(k) => ErrorCallbackInv(s, k);
    case SubmitsImmediate(op, o) => SubmitsImmediateInv(s, op, o);
    case UserCancels(op) => UserCancelsInv(s, op);
    case LoopCloses => LoopClosesInv(s);
  }
}
