/**
 Each transition of a single request keeps the invariant of the request layer.
 */
module RequestSteps {
  import opened Requests

  /** `t` differs from `s` only in handle `h` and in the history of operation `op`, which is on it. */
  ghost predicate MovesOne(s: State, t: State, h: nat, op: nat) {
    && NamesOk(t) && s.opOf <= t.opOf
    && t.toCancel == s.toCancel && t.cleared == s.cleared && t.loopOpen == s.loopOpen
    && (forall g :: g != h ==> H(t, g) == H(s, g))
    && (H(s, h).native.Free? || H(s, h).native.op == op) && (H(t, h).native.Free? || H(t, h).native.op == op)
    && (op in s.ops ==> op in s.slot && s.slot[op] == h)
    && (forall o :: o != op ==> SameHistory(s, t, o))
    && (forall k, w: Wrapper :: w.h != h ==> (w in Members(t, k) <==> w in Members(s, k)))
  }

  ghost predicate SameHistory(s: State, t: State, o: nat) {
    && (o in t.ops <==> o in s.ops) && (o in s.ops ==> t.ops[o] == s.ops[o])
    && (o in t.futures <==> o in s.futures) && (o in s.futures ==> t.futures[o] == s.futures[o])
    && (o in t.slot <==> o in s.slot) && (o in s.slot ==> t.slot[o] == s.slot[o])
    && (o in t.completions <==> o in s.completions) && (o in s.completions ==> t.completions[o] == s.completions[o])
    && (o in t.calls <==> o in s.calls) && (o in t.opOf <==> o in s.opOf)
  }

  /** Such a transition keeps the invariant if it does so for that handle and operation. */
  lemma MovesOneInv(s: State, t: State, h: nat, op: nat)
    requires Inv(s) && MovesOne(s, t, h, op)
    requires HandleOk(t, h) && FutureOk(t, op)
    requires forall k, w: Wrapper :: w.h == h && w in Members(t, k) ==> MemberOk(t, k, w)
    requires forall w: Wrapper :: w.h == h && WrapperOk(s, w) ==> WrapperOk(t, w)
    ensures Inv(t)
  {
    forall g | g != h ensures HandleOk(t, g) {
      assert HandleOk(s, g);
      assert !H(s, g).native.Free? ==> SameHistory(s, t, H(s, g).native.op);
    }
    forall k, w | w in Members(t, k) && w.h != h ensures MemberOk(t, k, w) {
      assert MemberOk(s, k, w) && HandleOk(s, w.h);
      assert SameHistory(s, t, H(s, w.h).native.op);
    }
    forall w | WrapperOk(s, w) && w.h != h ensures WrapperOk(t, w) {
      assert HandleOk(s, w.h);
    }
    forall o | o in t.futures && o != op ensures FutureOk(t, o) {
      assert SameHistory(s, t, o) && FutureOk(s, o);
    }
  }

  lemma SubmitInv(s: State, op: nat, o: Op, h: nat)
    requires Inv(s) && Possible(s, Submits(op, o, h))
    ensures Inv(Submit(s, op, o, h))
  {
    assert HandleOk(s, h);
    NoMembers(s, Submit(s, op, o, h), h);
    MovesOneInv(s, Submit(s, op, o, h), h, op);
  }

  /** No in-flight set has a wrapper of a handle without a registered request. */
  lemma NoMembers(s: State, t: State, h: nat)
    requires Inv(s) && (H(s, h).returning || !H(s, h).native.InProgress?) && t.inflight == s.inflight
    ensures forall k, w :: w in Members(t, k) ==> w.h != h
  {
    forall k, w | w in Members(t, k) ensures w.h != h {
      assert w in Members(s, k) && MemberOk(s, k, w);
    }
  }

  lemma CompletedEarlyInv(s: State, h: nat, op: nat, status: Status, length: nat)
    requires Inv(s) && s.issued + 1 < UIDS && H(s, h).native == InProgress(op) && H(s, h).returning
    ensures Inv(CompletedEarly(s, h, op, status, length))
  {
    assert HandleOk(s, h) && FutureOk(s, op);
    NoMembers(s, CompletedEarly(s, h, op, status, length), h);
    MovesOneInv(s, CompletedEarly(s, h, op, status, length), h, op);
  }

  lemma CompletedLateInv(s: State, h: nat, op: nat, status: Status, length: nat)
    requires Inv(s) && H(s, h).native == InProgress(op) && !H(s, h).returning && op in s.ops
    ensures Inv(CompletedLate(s, h, op, status, length))
  {
    var t := CompletedLate(s, h, op, status, length);
    assert HandleOk(s, h) && FutureOk(s, op);
    forall k, w | w in Members(s, k) && w.h == h
      ensures w !in Members(t, k)
    {
      assert MemberOk(s, k, w);
    }
    MovesOneInv(s, t, h, op);
  }

  lemma RegisteredInv(s: State, h: nat, op: nat)
    requires Inv(s) && s.issued + 1 < UIDS && H(s, h).native == InProgress(op) && H(s, h).returning && op in s.ops
    ensures Inv(Registered(s, h, op))
  {
    assert HandleOk(s, h) && FutureOk(s, op);
    NoMembers(s, s, h);
    var t, k := Registered(s, h, op), s.ops[op].group;
    assert forall j :: Members(t, j) == if j == k then Members(s, k) + {Wrapper(h, s.issued + 1)} else Members(s, j);
    MovesOneInv(s, t, h, op);
  }

  lemma ReturnedEarlyInv(s: State, h: nat, op: nat)
    requires Inv(s) && H(s, h).native == Completed(op)
    ensures Inv(ReturnedEarly(s, h, op))
  {
    assert HandleOk(s, h) && FutureOk(s, op);
    NoMembers(s, ReturnedEarly(s, h, op), h);
    MovesOneInv(s, ReturnedEarly(s, h, op), h, op);
  }

  lemma SubmitsImmediateInv(s: State, op: nat, o: Op)
    requires Inv(s) && op !in s.ops
    ensures Inv(Next(s, SubmitsImmediate(op, o)))
  {
    var t := Next(s, SubmitsImmediate(op, o));
    assert t == s.(ops := s.ops[op := o], futures := s.futures[op := Done(Success)]) by {
      assert s.futures[op := Pending][op := Done(Success)] == s.futures[op := Done(Success)];
    }
    forall h ensures HandleOk(t, h) {
      assert HandleOk(s, h);
    }
    forall k, w | w in Members(t, k) ensures MemberOk(t, k, w) {
      assert MemberOk(s, k, w);
    }
    forall op' | op' in t.futures ensures FutureOk(t, op') {
      assert op' in s.futures ==> FutureOk(s, op');
    }
  }

  lemma UserCancelsInv(s: State, op: nat)
    requires Inv(s) && Possible(s, UserCancels(op))
    ensures Inv(Next(s, UserCancels(op)))
  {
    var t := Next(s, UserCancels(op));
    forall h ensures HandleOk(t, h) {
      assert HandleOk(s, h);
    }
    forall k, w | w in Members(s, k) ensures MemberOk(t, k, w) {
      assert MemberOk(s, k, w);
    }
    forall op' | op' in s.futures ensures FutureOk(t, op') {
      assert FutureOk(s, op');
    }
  }

  lemma LoopClosesInv(s: State)
    requires Inv(s)
    ensures Inv(Next(s, LoopCloses))
  {
    var u := Next(s, LoopCloses);
    forall h ensures HandleOk(u, h) {
      assert HandleOk(s, h);
    }
    forall k, w | w in Members(s, k) ensures MemberOk(u, k, w) {
      assert MemberOk(s, k, w);
    }
    forall op | op in s.futures ensures FutureOk(u, op) {
      assert FutureOk(s, op);
    }
  }

  /** Changes to the sets alone: members may go to `cleared`, and be copied to `toCancel`. */
  lemma SetsStepInv(s: State, t: State)
    requires Inv(s) && t == s.(inflight := t.inflight, toCancel := t.toCancel, cleared := t.cleared)
    requires forall k, w :: w in Members(t, k) ==> w in Members(s, k)
    requires forall k, w :: w in Members(s, k) ==> w in Members(t, k) || w in t.cleared
    requires forall w :: w in t.toCancel || w in t.cleared ==> WrapperOk(s, w)
    requires s.cleared <= t.cleared
    ensures Inv(t)
  {
    forall h ensures HandleOk(t, h) {
      assert HandleOk(s, h);
    }
    forall k, w | w in Members(t, k) ensures MemberOk(t, k, w) {
      assert MemberOk(s, k, w);
    }
    forall op | op in t.futures ensures FutureOk(t, op) {
      assert FutureOk(s, op);
    }
  }

  lemma ErrorCallbackInv(s: State, k: nat)
    requires Inv(s)
    ensures Inv(Next(s, ErrorCallback(k)))
  {
    assert forall w :: w in Members(s, k) ==> MemberOk(s, k, w);
    assert forall j :: Members(Next(s, ErrorCallback(k)), j) == Members(s, j);
    SetsStepInv(s, Next(s, ErrorCallback(k)));
  }

  lemma ClearInv(s: State, k: nat)
    requires Inv(s)
    ensures Inv(Clear(s, k))
  {
    assert forall w :: w in Members(s, k) ==> MemberOk(s, k, w);
    assert forall j :: Members(Clear(s, k), j) == if j == k then {} else Members(s, j);
    SetsStepInv(s, Clear(s, k));
  }

  lemma NoneScheduledInv(s: State)
    requires Inv(s)
    ensures Inv(s.(toCancel := {}))
  {
    assert forall j :: Members(s.(toCancel := {}), j) == Members(s, j);
    SetsStepInv(s, s.(toCancel := {}));
  }
}
