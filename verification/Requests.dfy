/**
 The life of a request (ucp/_libs/ucx_request.pyx, the completion call-backs, the cancellation
 loops of ucp/_libs/ucx_endpoint.pyx and ucp/_libs/ucx_worker.pyx, and the futures of ucp/comm.py)
 against an environment that may complete an operation before or after its submission returns,
 recycles handles, and answers a cancellation now or later.
 */
module Requests {
  import opened Wrappers

  /** `unsigned int` */
  const UIDS := 0x1_0000_0000

  /** What UCX does with a handle. */
  datatype Native = Free | InProgress(op: nat) | Completed(op: nat)

  /** The dictionary attached to a handle: its `status`, and whether the call-back is in it. */
  datatype Info = NoInfo | Info(finished: bool, registered: bool)

  /** `returning`: the submission call has not returned yet. */
  datatype Handle = Handle(uid: nat, info: Info, native: Native, returning: bool)

  const FREE_HANDLE := Handle(0, NoInfo, Free, false)

  /** A `UCXRequest` object. */
  datatype Wrapper = Wrapper(h: nat, uid: nat)

  datatype Status = Ok | Canceled | Failed(code: int)

  datatype Result = Success | CanceledError | UcxError(code: int) | Truncated | CanceledByUser

  datatype Future = Pending | Done(result: Result)

  /** What was submitted: a receive or a send, its length, and the in-flight set it goes to. */
  datatype Op = Op(recv: bool, expected: nat, group: nat)

  /** How UCX completed an operation, and whether that was before its registration. */
  datatype Completion = Completion(status: Status, length: nat, early: bool)

  /** `issued` counts the uids given out; the counter itself is that number modulo 2^32. The last
      six fields are history: which operation got the i-th uid, which handle an operation was given,
      whose call-back ran, how operations completed, which were asked to cancel, and which pending
      members a `clear()` removed. */
  datatype State = State(
    handles: map<nat, Handle>,
    issued: nat,
    ops: map<nat, Op>,
    futures: map<nat, Future>,
    inflight: map<nat, set<Wrapper>>,
    toCancel: set<Wrapper>,
    loopOpen: bool,
    opOf: seq<nat>,
    slot: map<nat, nat>,
    calls: seq<nat>,
    completions: map<nat, Completion>,
    cancelAsked: set<nat>,
    cleared: set<Wrapper>)

  const START := State(map[], 0, map[], map[], map[], {}, true, [], map[], [], map[], {}, {})

  function H(s: State, h: nat): Handle {
    if h in s.handles then s.handles[h] else FREE_HANDLE
  }

  function Members(s: State, k: nat): set<Wrapper> {
    if k in s.inflight then s.inflight[k] else {}
  }

  function SetHandle(s: State, h: nat, x: Handle): State {
    s.(handles := s.handles[h := x])
  }

  // ---------------------------------------------------------------------------------------
  // UCXRequest

  predicate Closed(s: State, w: Wrapper) {
    H(s, w.h).uid != w.uid
  }

  /** `UCXRequest(h)`: the first wrapper of a handle gives it a uid. */
  function Wrap(s: State, h: nat): (State, Wrapper)
    requires !H(s, h).native.Free?
  {
    var x := H(s, h);
    if x.info == NoInfo then
      var uid := (s.issued + 1) % UIDS;
      (SetHandle(s, h, x.(uid := uid, info := Info(false, false))).(issued := s.issued + 1,
                                                                    opOf := s.opOf + [x.native.op]),
       Wrapper(h, uid))
    else (s, Wrapper(h, x.uid))
  }

  /** `close()` returns the handle to UCX, which may hand it out again. */
  function CloseReq(s: State, w: Wrapper): State {
    if Closed(s, w) then s else SetHandle(s, w.h, FREE_HANDLE)
  }

  datatype Hash = ById(w: Wrapper) | ByUid(uid: nat)

  function HashOf(s: State, w: Wrapper): Hash {
    if Closed(s, w) then ById(w) else ByUid(w.uid)
  }

  predicate Equal(s: State, w: Wrapper, v: Wrapper) {
    HashOf(s, w) == HashOf(s, v)
  }

  // ---------------------------------------------------------------------------------------
  // comm.py

  /** `_cb_func` does nothing once the loop is closed or the future is done. */
  function CbFunc(s: State, op: nat, r: Result): State {
    var t := s.(calls := s.calls + [op]);
    if !s.loopOpen || op !in s.futures || s.futures[op].Done? then t
    else t.(futures := s.futures[op := Done(r)])
  }

  /** `_call_ucx_api` when the submission returned no request. */
  function NoRequest(s: State, op: nat): State {
    if op in s.futures && s.futures[op].Pending? then s.(futures := s.futures[op := Done(Success)]) else s
  }

  // ---------------------------------------------------------------------------------------
  // Submission, completion and cancellation

  /** The exception a registered operation is completed with. */
  function Report(o: Op, status: Status, length: nat): Result {
    match status
    case Canceled => CanceledError
    case Failed(code) => UcxError(code)
    case Ok => if o.recv && length != o.expected then Truncated else Success
  }

  function Submit(s: State, op: nat, o: Op, h: nat): State {
    SetHandle(s, h, Handle(0, NoInfo, InProgress(op), true)).(
      ops := s.ops[op := o], futures := s.futures[op := Pending], slot := s.slot[op := h])
  }

  /** `_handle_status` with the request that the submission call returned: does it hand a pending
      request back? */
  function HandleStatus(s: State, h: nat): (State, bool)
    requires !H(s, h).native.Free? && H(s, h).native.op in s.ops
  {
    var op := H(s, h).native.op;
    var (t, w) := Wrap(s, h);
    if H(t, h).info.finished then
      // the completion call-back has already run; "received" was never stored
      (CloseReq(CbFunc(t, op, Success), w), false)
    else
      var k := s.ops[op].group;
      (SetHandle(t, h, H(t, h).(info := Info(false, true), returning := false)).(
         inflight := t.inflight[k := Members(t, k) + {w}]), true)
  }

  /** The submission call returns, in `_call_ucx_api`. */
  function Return(s: State, h: nat): State
    requires !H(s, h).native.Free? && H(s, h).native.op in s.ops
  {
    var (t, pending) := HandleStatus(s, h);
    if pending then t else NoRequest(t, H(s, h).native.op)
  }

  /** A completion call-back that finds the operation registered: leave the in-flight set, run the
      caller's call-back, close the request. */
  function RunRegistered(t: State, w: Wrapper, op: nat, status: Status, length: nat): State
    requires op in t.ops
  {
    var k := t.ops[op].group;
    var discarded := t.(inflight := t.inflight[k := Members(t, k) - {w}]);
    CloseReq(CbFunc(discarded, op, Report(t.ops[op], status, length)), w)
  }

  /** `_tag_recv_callback`, `_send_callback` and `_send_nbx_callback`. */
  function Callback(s: State, h: nat, status: Status, length: nat): State
    requires H(s, h).native.InProgress? && H(s, h).native.op in s.ops
  {
    var op := H(s, h).native.op;
    var (s1, w) := Wrap(s, h);
    var registered := H(s1, h).info.registered;
    var t := SetHandle(s1, h, H(s1, h).(info := Info(true, registered), native := Completed(op))).(
      completions := s1.completions[op := Completion(status, length, !registered)]);
    if !registered then t else RunRegistered(t, w, op, status, length)
  }

  /** One turn of a cancellation loop; UCX may run the call-back before `ucp_request_cancel`
      returns, or later. */
  function CancelOne(s: State, w: Wrapper, now: bool): State {
    if Closed(s, w) || !H(s, w.h).native.InProgress? || H(s, w.h).native.op !in s.ops then s
    else
      var t := s.(cancelAsked := s.cancelAsked + {H(s, w.h).native.op});
      if now then Callback(t, w.h, Canceled, 0) else t
  }

  function CancelMany(s: State, order: seq<Wrapper>, now: seq<bool>): State
    requires |now| == |order|
    decreases |order|
  {
    if order == [] then s else CancelMany(CancelOne(s, order[0], now[0]), order[1..], now[1..])
  }

  /** `inflight_msgs.clear()` */
  function Clear(s: State, k: nat): State {
    s.(inflight := s.inflight[k := {}], cleared := s.cleared + Members(s, k))
  }

  datatype Event =
    | Submits(op: nat, o: Op, h: nat)
    | SubmitsImmediate(op: nat, o: Op)
    | Returns(h: nat)
    | Completes(h: nat, status: Status, length: nat)
    | UserCancels(op: nat)
    | LoopCloses
    | ErrorCallback(k: nat)
    | CancelsScheduled(order: seq<Wrapper>, now: seq<bool>)
    | CancelsGroup(k: nat, order: seq<Wrapper>, now: seq<bool>)

  ghost predicate Lists(order: seq<Wrapper>, now: seq<bool>, s: set<Wrapper>) {
    |now| == |order| && forall w :: w in order <==> w in s
  }

  ghost predicate Possible(s: State, e: Event) {
    match e
    case Submits(op, o, h) => op !in s.ops && H(s, h).native.Free?
    case SubmitsImmediate(op, _) => op !in s.ops
    case Returns(h) => H(s, h).returning && !H(s, h).native.Free? && H(s, h).native.op in s.ops
    case Completes(h, _, _) => H(s, h).native.InProgress? && H(s, h).native.op in s.ops
    case UserCancels(op) => op in s.futures && s.futures[op].Pending?
    case LoopCloses => true
    case ErrorCallback(_) => true
    case CancelsScheduled(order, now) => Lists(order, now, s.toCancel)
    case CancelsGroup(k, order, now) => Lists(order, now, Members(s, k))
  }

  ghost function Next(s: State, e: Event): State
    requires Possible(s, e)
  {
    match e
    case Submits(op, o, h) => Submit(s, op, o, h)
    case SubmitsImmediate(op, o) =>
      NoRequest(s.(ops := s.ops[op := o], futures := s.futures[op := Pending]), op)
    case Returns(h) => Return(s, h)
    case Completes(h, status, length) => Callback(s, h, status, length)
    case UserCancels(op) => s.(futures := s.futures[op := Done(CanceledByUser)])
    case LoopCloses => s.(loopOpen := false)
    case ErrorCallback(k) => s.(toCancel := s.toCancel + Members(s, k))
    case CancelsScheduled(order, now) => CancelMany(s, order, now).(toCancel := {})
    case CancelsGroup(k, order, now) => Clear(CancelMany(s, order, now), k)
  }

  // ---------------------------------------------------------------------------------------
  // The invariant

  /** Operation `op` is not over: nothing but its caller can have resolved its future. */
  ghost predicate Live(s: State, op: nat) {
    && op in s.ops && op in s.futures && op !in s.calls
    && (s.futures[op].Pending? || s.futures[op] == Done(CanceledByUser))
  }

  /** Number `u` was given to operation `op`. */
  predicate Names(s: State, u: nat, op: nat) {
    1 <= u <= |s.opOf| && s.opOf[u - 1] == op
  }

  ghost predicate HandleOk(s: State, h: nat) {
    var x := H(s, h);
    match x.native
    case Free => x == FREE_HANDLE
    case InProgress(op) =>
      && Live(s, op) && op in s.slot && s.slot[op] == h && op !in s.completions
      && (if x.returning then x.uid == 0 && x.info == NoInfo && op !in s.opOf
          else
            && x.info == Info(false, true) && Names(s, x.uid, op)
            && (Wrapper(h, x.uid) in Members(s, s.ops[op].group) || Wrapper(h, x.uid) in s.cleared))
    case Completed(op) =>
      && Live(s, op) && op in s.slot && s.slot[op] == h
      && x.returning && x.info == Info(true, false) && Names(s, x.uid, op)
      && op in s.completions && s.completions[op].early
  }

  /** A wrapper of an operation that was registered. */
  ghost predicate WrapperOk(s: State, w: Wrapper) {
    && 1 <= w.uid <= |s.opOf|
    && (!Closed(s, w) ==> H(s, w.h).native.InProgress? && !H(s, w.h).returning)
  }

  ghost predicate MemberOk(s: State, k: nat, w: Wrapper) {
    && WrapperOk(s, w) && !Closed(s, w)
    && H(s, w.h).native.op in s.ops && s.ops[H(s, w.h).native.op].group == k
  }

  ghost predicate FutureOk(s: State, op: nat) {
    && op in s.ops && op in s.futures
    && (op in s.calls ==> op in s.completions)
    && (op in s.completions ==>
          op in s.calls || (op in s.slot && H(s, s.slot[op]).native == Completed(op)))
    && match s.futures[op]
       case Pending => !s.loopOpen || (op in s.slot && H(s, s.slot[op]).native in {InProgress(op), Completed(op)})
       case Done(r) =>
         r == CanceledByUser ||
         (if op in s.completions && !s.completions[op].early
          then r == Report(s.ops[op], s.completions[op].status, s.completions[op].length)
          else r == Success)
  }

  ghost predicate NoDuplicates(q: seq<nat>) {
    forall i, j :: 0 <= i < j < |q| ==> q[i] != q[j]
  }

  ghost predicate NamesOk(s: State) {
    && |s.opOf| == s.issued < UIDS
    && NoDuplicates(s.opOf) && NoDuplicates(s.calls)
    && s.ops.Keys == s.futures.Keys
    && (forall op :: op in s.opOf || op in s.calls || op in s.completions || op in s.slot ==> op in s.ops)
  }

  ghost predicate HandlesOk(s: State) {
    forall h :: HandleOk(s, h)
  }

  ghost predicate WrappersOk(s: State) {
    && (forall k, w :: w in Members(s, k) ==> MemberOk(s, k, w))
    && (forall w :: w in s.toCancel ==> WrapperOk(s, w))
    && (forall w :: w in s.cleared ==> WrapperOk(s, w))
  }

  ghost predicate FuturesOk(s: State) {
    forall op :: op in s.futures ==> FutureOk(s, op)
  }

  ghost predicate Inv(s: State) {
    NamesOk(s) && HandlesOk(s) && WrappersOk(s) && FuturesOk(s)
  }

  // ---------------------------------------------------------------------------------------
  // Each transition in one piece

  /** The completion call-back before its operation is registered. */
  function CompletedEarly(s: State, h: nat, op: nat, status: Status, length: nat): State {
    SetHandle(s, h, Handle(s.issued + 1, Info(true, false), Completed(op), true)).(
      issued := s.issued + 1, opOf := s.opOf + [op],
      completions := s.completions[op := Completion(status, length, true)])
  }

  function Resolved(s: State, op: nat, r: Result): map<nat, Future> {
    if s.loopOpen && op in s.futures && s.futures[op].Pending? then s.futures[op := Done(r)] else s.futures
  }

  /** The completion call-back of registered operation `op`. */
  function CompletedLate(s: State, h: nat, op: nat, status: Status, length: nat): State
    requires op in s.ops
  {
    var k := s.ops[op].group;
    SetHandle(s, h, FREE_HANDLE).(
      completions := s.completions[op := Completion(status, length, false)],
      inflight := s.inflight[k := Members(s, k) - {Wrapper(h, H(s, h).uid)}],
      calls := s.calls + [op],
      futures := Resolved(s, op, Report(s.ops[op], status, length)))
  }

  /** The submission returns a request that is still pending. */
  function Registered(s: State, h: nat, op: nat): State
    requires op in s.ops
  {
    var k := s.ops[op].group;
    SetHandle(s, h, Handle(s.issued + 1, Info(false, true), InProgress(op), false)).(
      issued := s.issued + 1, opOf := s.opOf + [op],
      inflight := s.inflight[k := Members(s, k) + {Wrapper(h, s.issued + 1)}])
  }

  /** The submission returns a request that has already completed. */
  function ReturnedEarly(s: State, h: nat, op: nat): State {
    SetHandle(s, h, FREE_HANDLE).(
      calls := s.calls + [op],
      futures := if op in s.futures && s.futures[op].Pending? then s.futures[op := Done(Success)] else s.futures)
  }

  lemma EarlyForm(s: State, h: nat, status: Status, length: nat)
    requires HandleOk(s, h) && s.issued + 1 < UIDS && Possible(s, Completes(h, status, length)) && H(s, h).returning
    ensures Callback(s, h, status, length) == CompletedEarly(s, h, H(s, h).native.op, status, length)
  {
  }

  lemma LateForm(s: State, h: nat, status: Status, length: nat)
    requires HandleOk(s, h) && Possible(s, Completes(h, status, length)) && !H(s, h).returning
    ensures Callback(s, h, status, length) == CompletedLate(s, h, H(s, h).native.op, status, length)
  {
    var x := H(s, h);
    assert Wrap(s, h) == (s, Wrapper(h, x.uid));
    var y := x.(info := Info(true, true), native := Completed(x.native.op));
    assert s.handles[h := y][h := FREE_HANDLE] == s.handles[h := FREE_HANDLE];
  }

  lemma ReturnForm(s: State, h: nat)
    requires HandleOk(s, h) && Possible(s, Returns(h))
    requires H(s, h).native.Completed? || s.issued + 1 < UIDS
    ensures var op := H(s, h).native.op;
      Return(s, h) == if H(s, h).native.Completed? then ReturnedEarly(s, h, op) else Registered(s, h, op)
  {
  }

  /** The uid that handle `h` has once it is wrapped. */
  function UidAfter(s: State, h: nat): nat {
    if H(s, h).info == NoInfo then (s.issued + 1) % UIDS else H(s, h).uid
  }

  /** Wrapping handle `h` and moving it on to `x`. */
  ghost predicate WrapsAnd(s: State, t: State, h: nat, x: Handle)
    requires !H(s, h).native.Free?
  {
    && t.handles == s.handles[h := x]
    && t.slot == s.slot && t.ops == s.ops && t.toCancel == s.toCancel
    && if H(s, h).info == NoInfo then t.issued == s.issued + 1 && t.opOf == s.opOf + [H(s, h).native.op]
       else t.issued == s.issued && t.opOf == s.opOf
  }

  /** `t` differs from `s` in the history of requests and in what became of handle `h`. */
  ghost predicate Sets(s: State, t: State, h: nat, x: Handle) {
    && t.handles == s.handles[h := x]
    && t.slot == s.slot && t.ops == s.ops && t.toCancel == s.toCancel && t.issued == s.issued && t.opOf == s.opOf
  }

  lemma RunRegisteredEffect(s: State, w: Wrapper, op: nat, status: Status, length: nat)
    requires op in s.ops && !Closed(s, w)
    ensures Sets(s, RunRegistered(s, w, op, status, length), w.h, FREE_HANDLE)
  {
  }

  lemma CallbackEffect(s: State, h: nat, status: Status, length: nat)
    requires H(s, h).native.InProgress? && H(s, h).native.op in s.ops
    ensures var x := H(s, h);
      WrapsAnd(s, Callback(s, h, status, length), h,
               if x.info.Info? && x.info.registered then FREE_HANDLE
               else Handle(UidAfter(s, h), Info(true, false), Completed(x.native.op), x.returning))
  {
    var x := H(s, h);
    if x.info.Info? && x.info.registered {
      RegisteredCallbackEffect(s, h, status, length);
    } else {
      var y := Handle(UidAfter(s, h), Info(true, false), Completed(x.native.op), x.returning);
      assert Wrap(s, h).0.handles[h := y] == s.handles[h := y];
    }
  }

  lemma RegisteredCallbackEffect(s: State, h: nat, status: Status, length: nat)
    requires H(s, h).native.InProgress? && H(s, h).native.op in s.ops
    requires H(s, h).info.Info? && H(s, h).info.registered
    ensures Sets(s, Callback(s, h, status, length), h, FREE_HANDLE)
  {
    var x := H(s, h);
    assert Wrap(s, h) == (s, Wrapper(h, x.uid));
    var y := x.(info := Info(true, true), native := Completed(x.native.op));
    var t := SetHandle(s, h, y).(completions := s.completions[x.native.op := Completion(status, length, false)]);
    RunRegisteredEffect(t, Wrapper(h, x.uid), x.native.op, status, length);
    assert s.handles[h := y][h := FREE_HANDLE] == s.handles[h := FREE_HANDLE];
  }

  lemma ReturnEffect(s: State, h: nat)
    requires !H(s, h).native.Free? && H(s, h).native.op in s.ops
    ensures var x := H(s, h);
      WrapsAnd(s, Return(s, h), h,
               if x.info.Info? && x.info.finished then FREE_HANDLE
               else Handle(UidAfter(s, h), Info(false, true), x.native, false))
  {
    HandleStatusEffect(s, h);
    var (t, pending) := HandleStatus(s, h);
    if !pending {
      assert NoRequest(t, H(s, h).native.op).handles == t.handles;
    }
  }

  lemma HandleStatusEffect(s: State, h: nat)
    requires !H(s, h).native.Free? && H(s, h).native.op in s.ops
    ensures var x := H(s, h);
      WrapsAnd(s, HandleStatus(s, h).0, h,
               if x.info.Info? && x.info.finished then FREE_HANDLE
               else Handle(UidAfter(s, h), Info(false, true), x.native, false))
  {
    var x := H(s, h);
    if x.info == NoInfo {
      var y := Handle(UidAfter(s, h), Info(false, true), x.native, false);
      assert Wrap(s, h).0.handles[h := y] == s.handles[h := y];
    } else {
      assert Wrap(s, h) == (s, Wrapper(h, x.uid));
    }
  }
}
