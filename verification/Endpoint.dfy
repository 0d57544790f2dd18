/**
 The message counters of `ucp.core.Endpoint` (ucp/core.py): the values each method leaves
 behind, and the class whose methods compute them. A coroutine that suspends at an `await`
 is one method per stretch between suspensions.
 */
module EndpointCounting {
  import opened Wrappers

  /** `Endpoint._ep`: absent after `abort()`, otherwise the wrapped `UCXEndpoint`. */
  datatype Native = Absent | Held(initialized: bool, alive: bool)

  datatype EpState = EpState(
    native: Native,
    sendCount: nat,
    recvCount: nat,
    finishedRecvCount: nat,
    shuttingDownPeer: bool,
    closeAfter: Option<int>)
  {
    predicate Closed() {
      native.Absent? || !native.initialized || !native.alive
    }
  }

  const FRESH_ENDPOINT := EpState(Held(true, true), 0, 0, 0, false, None)

  datatype CloseStep = AlreadyClosed | AlreadyTold | TellPeer(closeAfterNRecv: nat)

  datatype LimitOutcome = Accepted | AlreadySet | TooFew

  datatype CtrlOutcome = CtrlCanceled | CtrlIgnored | CtrlTaken(limit: LimitOutcome) | UnknownOpcode

  function Abort(s: EpState): EpState {
    s.(native := Absent)
  }

  /** `close()` up to the `await` of the control send. */
  function CloseStart(s: EpState): (EpState, CloseStep) {
    if s.Closed() then (Abort(s), AlreadyClosed)
    else if s.shuttingDownPeer then (s, AlreadyTold)
    else (s.(shuttingDownPeer := true), TellPeer(s.sendCount))
  }

  /** The `finally` block of `close()`. */
  function CloseFinish(s: EpState): EpState {
    if s.Closed() then s else Abort(s)
  }

  function SendStart(s: EpState): EpState {
    s.(sendCount := s.sendCount + 1)
  }

  function RecvStart(s: EpState): EpState {
    s.(recvCount := s.recvCount + 1)
  }

  /** What `recv()` and `am_recv()` do once the awaited receive has returned. */
  function RecvFinish(s: EpState): EpState {
    var t := s.(finishedRecvCount := s.finishedRecvCount + 1);
    if t.closeAfter.Some? && t.finishedRecvCount >= t.closeAfter.value then Abort(t) else t
  }

  function CloseAfterNRecv(s: EpState, n: int, countFromEpCreation: bool): (EpState, LimitOutcome) {
    var limit := if countFromEpCreation then n else n + s.finishedRecvCount;
    if s.closeAfter.Some? then (s, AlreadySet)
    else if limit == s.finishedRecvCount then (Abort(s), Accepted)
    else if limit > s.finishedRecvCount then (s.(closeAfter := Some(limit)), Accepted)
    else (s, TooFew)
  }

  function HandleCtrlMsg(s: EpState, canceled: bool, opcode: nat, n: nat): (EpState, CtrlOutcome) {
    if canceled then (s, CtrlCanceled)
    else if s.Closed() then (Abort(s), CtrlIgnored)
    else if opcode == 1 then
      var (t, outcome) := CloseAfterNRecv(s, n, true);
      (t, CtrlTaken(outcome))
    else (s, UnknownOpcode)
  }

  /** The endpoint object itself. */
  class Endpoint {
    var native: Native
    var sendCount: nat
    var recvCount: nat
    var finishedRecvCount: nat
    var shuttingDownPeer: bool
    var closeAfter: Option<int>

    ghost function Model(): EpState
      reads this
    {
      EpState(native, sendCount, recvCount, finishedRecvCount, shuttingDownPeer, closeAfter)
    }

    constructor ()
      ensures Model() == FRESH_ENDPOINT
    {
      native := Held(true, true);
      sendCount, recvCount, finishedRecvCount := 0, 0, 0;
      shuttingDownPeer, closeAfter := false, None;
    }

    method IsClosed() returns (r: bool)
      ensures r == Model().Closed()
    {
      r := native.Absent? || !native.initialized || !native.alive;
    }

    method DoAbort()
      modifies this`native
      ensures Model() == Abort(old(Model()))
    {
      if native.Held? {
        native := native.(initialized := false);  // self._ep.close()
      }
      native := Absent;
    }

    method BeginClose() returns (step: CloseStep)
      modifies this
      ensures (Model(), step) == CloseStart(old(Model()))
    {
      var closed := IsClosed();
      if closed {
        DoAbort();
        return AlreadyClosed;
      }
      if shuttingDownPeer {
        return AlreadyTold;
      }
      shuttingDownPeer := true;
      step := TellPeer(sendCount);
    }

    method EndClose()
      modifies this
      ensures Model() == CloseFinish(old(Model()))
    {
      var closed := IsClosed();
      if !closed {
        DoAbort();
      }
    }

    /** `send()` and `am_send()`: a closed endpoint refuses, otherwise the send is counted. */
    method Send() returns (refused: bool)
      modifies this
      ensures refused == old(Model()).Closed()
      ensures Model() == if refused then old(Model()) else SendStart(old(Model()))
    {
      refused := IsClosed();
      if refused {
        return;
      }
      sendCount := sendCount + 1;
    }

    /** `recv()` up to its `await`; a receive whose message has already arrived is let through. */
    method Recv(probed: bool) returns (refused: bool)
      modifies this
      ensures refused == (old(Model()).native.Absent? || (!probed && old(Model()).Closed()))
      ensures Model() == if refused then old(Model()) else RecvStart(old(Model()))
    {
      if native.Absent? {
        return true;
      }
      if !probed {
        refused := IsClosed();
        if refused {
          return;
        }
      }
      refused := false;
      recvCount := recvCount + 1;
    }

    method EndRecv()
      modifies this
      ensures Model() == RecvFinish(old(Model()))
    {
      finishedRecvCount := finishedRecvCount + 1;
      if closeAfter.Some? && finishedRecvCount >= closeAfter.value {
        DoAbort();
      }
    }

    method SetCloseAfterNRecv(n: int, countFromEpCreation: bool) returns (outcome: LimitOutcome)
      modifies this
      ensures (Model(), outcome) == CloseAfterNRecv(old(Model()), n, countFromEpCreation)
    {
      var limit := n;
      if !countFromEpCreation {
        limit := limit + finishedRecvCount;
      }
      if closeAfter.Some? {
        return AlreadySet;
      }
      if limit == finishedRecvCount {
        DoAbort();
      } else if limit > finishedRecvCount {
        closeAfter := Some(limit);
      } else {
        return TooFew;
      }
      outcome := Accepted;
    }

    method OnCtrlMsg(canceled: bool, opcode: nat, n: nat) returns (outcome: CtrlOutcome)
      modifies this
      ensures (Model(), outcome) == HandleCtrlMsg(old(Model()), canceled, opcode, n)
    {
      if canceled {
        return CtrlCanceled;
      }
      var closed := IsClosed();
      if closed {
        DoAbort();
        return CtrlIgnored;
      }
      if opcode != 1 {
        return UnknownOpcode;
      }
      var limit := SetCloseAfterNRecv(n, true);
      outcome := CtrlTaken(limit);
    }
  }

  // ---------------------------------------------------------------------------------------
  // The receive limit

  /** The state after `k` further receives have returned. */
  function FinishMany(s: EpState, k: nat): EpState {
    if k == 0 then s else RecvFinish(FinishMany(s, k - 1))
  }

  lemma {:induction false} FinishManyEffect(s: EpState, k: nat)
    ensures var t := FinishMany(s, k);
      && t == s.(finishedRecvCount := s.finishedRecvCount + k, native := t.native)
      && (t.native == s.native || t.native == Absent)
      && (t.native == Absent <==>
            || s.native == Absent
            || (k > 0 && s.closeAfter.Some? && s.finishedRecvCount + k >= s.closeAfter.value))
  {
    if k == 0 {
    } else {
      FinishManyEffect(s, k - 1);
    }
  }

  /** A limit of `n` set after `m` finished receives closes at finished receive `m + n`, not
      earlier, and is the absolute limit `m + n`. */
  lemma LimitFiresExactly(s: EpState, n: nat, k: nat)
    requires s.native.Held? && s.closeAfter == None
    ensures var (t, outcome) := CloseAfterNRecv(s, n, false);
      && outcome == Accepted
      && (FinishMany(t, k).native == Absent <==> k >= n)
      && FinishMany(t, k).finishedRecvCount == s.finishedRecvCount + k
      && (t, outcome) == CloseAfterNRecv(s, s.finishedRecvCount + n, true)
  {
    FinishManyEffect(CloseAfterNRecv(s, n, false).0, k);
  }

  /** The shutdown message may arrive after any `i` of the `m` receives: if it can still be
      honoured, the endpoint ends closed or open independently of `i`, with the same counters;
      otherwise the handler raises. */
  lemma ShutdownOrderIrrelevant(s: EpState, n: nat, i: nat, m: nat)
    requires !s.Closed() && s.closeAfter == None && i <= m
    ensures var (t, outcome) := HandleCtrlMsg(FinishMany(s, i), false, 1, n);
      && (s.finishedRecvCount + i <= n ==>
            && outcome == CtrlTaken(Accepted)
            && FinishMany(t, m - i).finishedRecvCount == s.finishedRecvCount + m
            && (FinishMany(t, m - i).native == Absent <==> s.finishedRecvCount + m >= n))
      && (s.finishedRecvCount + i > n <==> outcome == CtrlTaken(TooFew))
  {
    FinishManyEffect(s, i);
    FinishManyEffect(HandleCtrlMsg(FinishMany(s, i), false, 1, n).0, m - i);
  }

  /** A limit that is refused changes nothing; it is refused exactly if one was set before, or if more
      receives have finished already. */
  lemma RefusedLimit(s: EpState, n: int, fromCreation: bool)
    ensures var (t, outcome) := CloseAfterNRecv(s, n, fromCreation);
      && (outcome != Accepted ==> t == s)
      && (outcome == AlreadySet <==> s.closeAfter.Some?)
      && (outcome == TooFew <==> s.closeAfter == None && if fromCreation then n < s.finishedRecvCount else n < 0)
  {
  }

  /** A control message that is canceled, unknown or refused changes nothing. On a closed endpoint it
      releases the native endpoint; otherwise a shutdown message closes the endpoint at the `n`-th
      finished receive. */
  lemma CtrlMsgHonoured(s: EpState, canceled: bool, opcode: nat, n: nat, k: nat)
    ensures var (t, outcome) := HandleCtrlMsg(s, canceled, opcode, n);
      && (outcome == CtrlCanceled <==> canceled)
      && (outcome == CtrlIgnored <==> !canceled && s.Closed())
      && (outcome == UnknownOpcode <==> !canceled && !s.Closed() && opcode != 1)
      && (outcome != CtrlIgnored && outcome != CtrlTaken(Accepted) ==> t == s)
      && (outcome == CtrlIgnored ==> t == s.(native := Absent))
      && (outcome == CtrlTaken(Accepted) ==>
            && s.closeAfter == None && s.finishedRecvCount <= n
            && (FinishMany(t, k).native == Absent <==> s.finishedRecvCount + k >= n))
  {
    FinishManyEffect(HandleCtrlMsg(s, canceled, opcode, n).0, k);
  }

  // ---------------------------------------------------------------------------------------
  // Every history of one endpoint

  datatype Op =
    | OpSend | OpRecv(probed: bool) | OpRecvFinish | OpClose | OpCloseFinish | OpAbort
    | OpLimit(n: int, fromCreation: bool)
    | OpCtrl(canceled: bool, opcode: nat, limit: nat)
    | OpNativeError | OpNativeClosed

  /** One step, with the shutdown message it sends, if any. */
  function Apply(s: EpState, op: Op): (EpState, Option<nat>) {
    match op
    case OpSend => (if s.Closed() then s else SendStart(s), None)
    case OpRecv(probed) => (if s.native.Absent? || (!probed && s.Closed()) then s else RecvStart(s), None)
    case OpRecvFinish => (RecvFinish(s), None)
    case OpClose =>
      var (t, step) := CloseStart(s);
      (t, if step.TellPeer? then Some(step.closeAfterNRecv) else None)
    case OpCloseFinish => (CloseFinish(s), None)
    case OpAbort => (Abort(s), None)
    case OpLimit(n, c) => (CloseAfterNRecv(s, n, c).0, None)
    case OpCtrl(canceled, opcode, n) => (HandleCtrlMsg(s, canceled, opcode, n).0, None)
    case OpNativeError => (if s.native.Held? then s.(native := s.native.(alive := false)) else s, None)
    case OpNativeClosed => (if s.native.Held? then s.(native := s.native.(initialized := false)) else s, None)
  }

  /** The shutdown messages sent along a history. */
  function Announcements(s: EpState, ops: seq<Op>): seq<nat>
    decreases |ops|
  {
    if ops == [] then []
    else
      var (t, sent) := Apply(s, ops[0]);
      (if sent.Some? then [sent.value] else []) + Announcements(t, ops[1..])
  }

  lemma {:induction false} AtMostOneShutdown(s: EpState, ops: seq<Op>)
    ensures |Announcements(s, ops)| <= if s.shuttingDownPeer then 0 else 1
    decreases |ops|
  {
    if ops == [] {
    } else {
      AtMostOneShutdown(Apply(s, ops[0]).0, ops[1..]);
    }
  }
}
