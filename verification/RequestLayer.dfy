/**
 The code that moves requests along: the module-level uid counter, the fields written into UCX's
 handles, the in-flight sets and the futures, updated in place.
 */
module RequestObjects {
  import opened Requests
  import opened RequestCancels

  class RequestLayer {
    var handles: map<nat, Handle>
    var counter: nat                      // _ucx_py_request_counter
    var ops: map<nat, Op>
    var futures: map<nat, Future>
    var inflight: map<nat, set<Wrapper>>
    var toCancel: set<Wrapper>            // _inflight_msgs_to_cancel["tag"]
    var loopOpen: bool
    ghost var issued: nat
    ghost var opOf: seq<nat>
    ghost var slot: map<nat, nat>
    ghost var calls: seq<nat>
    ghost var completions: map<nat, Completion>
    ghost var cancelAsked: set<nat>
    ghost var cleared: set<Wrapper>

    ghost predicate Valid()
      reads this
    {
      counter == issued % UIDS
    }

    ghost function Model(): State
      reads this
    {
      State(handles, issued, ops, futures, inflight, toCancel, loopOpen, opOf, slot, calls, completions,
            cancelAsked, cleared)
    }

    constructor ()
      ensures Valid() && Model() == START
    {
      handles, counter, ops, futures := map[], 0, map[], map[];
      inflight, toCancel, loopOpen := map[], {}, true;
      issued, opOf, slot, calls, completions, cancelAsked, cleared := 0, [], map[], [], map[], {}, {};
    }

    method HandleAt(h: nat) returns (x: Handle)
      ensures x == H(Model(), h)
    {
      if h in handles {
        x := handles[h];
      } else {
        x := FREE_HANDLE;
      }
    }

    /** `UCXRequest.__init__` */
    method NewRequest(h: nat) returns (w: Wrapper)
      requires Valid() && !H(Model(), h).native.Free?
      modifies `handles, `counter, `issued, `opOf
      ensures Valid() && (Model(), w) == Wrap(old(Model()), h)
    {
      var x := HandleAt(h);
      if x.info == NoInfo {
        counter := (counter + 1) % UIDS;
        issued, opOf := issued + 1, opOf + [x.native.op];
        handles := handles[h := x.(uid := counter, info := Info(false, false))];
        w := Wrapper(h, counter);
      } else {
        w := Wrapper(h, x.uid);
      }
    }

    method IsClosed(w: Wrapper) returns (r: bool)
      ensures r == Closed(Model(), w)
    {
      var x := HandleAt(w.h);
      r := x.uid != w.uid;
    }

    /** `UCXRequest.close` */
    method Close(w: Wrapper)
      modifies `handles
      ensures Model() == CloseReq(old(Model()), w)
    {
      var closed := IsClosed(w);
      if !closed {
        handles := handles[w.h := FREE_HANDLE];
      }
    }

    /** `_cb_func` of ucp/comm.py */
    method Resolve(op: nat, r: Result)
      modifies `futures, `calls
      ensures Model() == CbFunc(old(Model()), op, r)
    {
      calls := calls + [op];
      if !loopOpen || op !in futures || futures[op].Done? {
        return;
      }
      futures := futures[op := Done(r)];
    }

    /** `_handle_status` */
    method OnReturned(h: nat) returns (pending: bool)
      requires Valid() && Possible(Model(), Returns(h))
      modifies `handles, `counter, `issued, `opOf, `inflight, `futures, `calls
      ensures Valid() && (Model(), pending) == HandleStatus(old(Model()), h)
    {
      var w := NewRequest(h);
      ghost var t := Model();
      var x := HandleAt(h);
      var op := x.native.op;
      if x.info.finished {
        Resolve(op, Success);
        Close(w);
        return false;
      }
      var k := ops[op].group;
      handles := handles[h := x.(info := Info(false, true), returning := false)];
      inflight := inflight[k := (if k in inflight then inflight[k] else {}) + {w}];
      assert inflight[k] == Members(t, k) + {w};
      pending := true;
    }

    /** `_call_ucx_api`, once the submission call comes back with a request. */
    method CallReturns(h: nat)
      requires Valid() && Possible(Model(), Returns(h))
      modifies this
      ensures Valid() && Model() == Next(old(Model()), Returns(h))
    {
      var x := HandleAt(h);
      var op := x.native.op;
      var pending := OnReturned(h);
      if !pending && op in futures && futures[op].Pending? {
        futures := futures[op := Done(Success)];
      }
    }

    /** The second half of a completion call-back, for a registered operation. */
    method FinishRegistered(w: Wrapper, op: nat, status: Status, length: nat)
      requires op in ops
      modifies `handles, `inflight, `futures, `calls
      ensures Model() == RunRegistered(old(Model()), w, op, status, length)
    {
      var result := Success;
      if status == Canceled {
        result := CanceledError;
      } else if status != Ok {
        result := UcxError(status.code);
      } else if ops[op].recv && length != ops[op].expected {
        result := Truncated;
      }
      var k := ops[op].group;
      inflight := inflight[k := (if k in inflight then inflight[k] else {}) - {w}];
      Resolve(op, result);
      Close(w);
    }

    /** `_tag_recv_callback` and the two send call-backs. */
    method OnCompleted(h: nat, status: Status, length: nat)
      requires Valid() && Possible(Model(), Completes(h, status, length))
      modifies `handles, `counter, `issued, `opOf, `completions, `inflight, `futures, `calls
      ensures Valid() && Model() == Next(old(Model()), Completes(h, status, length))
    {
      var w := NewRequest(h);
      var x := HandleAt(h);
      var op := x.native.op;
      handles := handles[h := x.(info := Info(true, x.info.registered), native := Completed(op))];
      completions := completions[op := Completion(status, length, !x.info.registered)];
      if x.info.registered {
        FinishRegistered(w, op, status, length);
      }
    }

    /** `UCXWorker.request_cancel`; `now` is UCX's choice to run the call-back before it returns. */
    method RequestCancel(w: Wrapper, now: bool)
      requires Valid() && !Closed(Model(), w)
      requires H(Model(), w.h).native.InProgress? && H(Model(), w.h).native.op in ops
      modifies this
      ensures Valid() && Model() == CancelOne(old(Model()), w, now)
    {
      var x := HandleAt(w.h);
      cancelAsked := cancelAsked + {x.native.op};
      if now {
        OnCompleted(w.h, Canceled, 0);
      }
    }

    /** The loop of `_cancel_inflight_msgs` over a copied list of wrappers. */
    method CancelEach(order: seq<Wrapper>, now: seq<bool>)
      requires Valid() && Inv(Model()) && |now| == |order|
      requires forall w :: w in order ==> WrapperOk(Model(), w)
      modifies this
      ensures Valid() && Model() == CancelMany(old(Model()), order, now)
    {
      var i := 0;
      while i < |order|
        invariant 0 <= i <= |order| && Valid() && Inv(Model())
        invariant forall w :: w in order ==> WrapperOk(Model(), w)
        invariant CancelMany(Model(), order[i..], now[i..]) == CancelMany(old(Model()), order, now)
      {
        ghost var before := Model();
        assert order[i..][1..] == order[i + 1..] && now[i..][1..] == now[i + 1..];
        assert order[i] in order;
        CancelOneKeeps(before, order[i], now[i]);
        var closed := IsClosed(order[i]);
        if !closed {
          OpenDenotes(before, order[i]);
          RequestCancel(order[i], now[i]);
        }
        assert Model() == CancelOne(before, order[i], now[i]);
        i := i + 1;
      }
    }

    /** `cancel_inflight_messages`, the tag part. */
    method CancelScheduled(order: seq<Wrapper>, now: seq<bool>) returns (n: nat)
      requires Valid() && Inv(Model()) && Possible(Model(), CancelsScheduled(order, now))
      modifies this
      ensures Valid() && Model() == Next(old(Model()), CancelsScheduled(order, now))
      ensures n == |old(toCancel)|
    {
      n := |toCancel|;
      CancelEach(order, now);
      toCancel := {};
    }

    /** The endpoint finalizer cancels its own in-flight set. */
    method CancelGroup(k: nat, order: seq<Wrapper>, now: seq<bool>)
      requires Valid() && Inv(Model()) && Possible(Model(), CancelsGroup(k, order, now))
      modifies this
      ensures Valid() && Model() == Next(old(Model()), CancelsGroup(k, order, now))
    {
      forall w | w in order ensures WrapperOk(Model(), w) {
        assert MemberOk(Model(), k, w);
      }
      CancelEach(order, now);
      cleared := cleared + Members(Model(), k);
      inflight := inflight[k := {}];
    }

    /** The error call-back of an endpoint copies its in-flight set. */
    method OnError(k: nat)
      requires Valid()
      modifies `toCancel
      ensures Valid() && Model() == Next(old(Model()), ErrorCallback(k))
    {
      if k in inflight {
        toCancel := toCancel + inflight[k];
      }
    }
  }
}
