/**
 Active-message matching (ucp/_libs/transfer_am.pyx, ucp/_libs/ucx_worker_cb.pyx and the
 cancellation in ucp/_libs/ucx_endpoint.pyx). Each endpoint handle has a pool of results nobody
 has asked for and a list of receives nobody has served; a call-back may post further receives
 while the queues are being changed.
 */
module ActiveMessages {
  import opened Wrappers

  /** A completed receive: an object, or the exception that took its place. */
  datatype Item = Buffer(id: nat) | Failure(status: int)

  /** What became of a message: it was received into `buf`; it failed; or it was to be received into
      `buf` and failed before the call-back could register the request, where the code drops the
      status. */
  datatype Report = Good(buf: nat) | Bad(status: int) | BadEarly(buf: nat, status: int)

  /** What the code makes of it. */
  function ItemOf(r: Report): Item {
    match r
    case Good(buf) => Buffer(buf)
    case Bad(status) => Failure(status)
    case BadEarly(buf, _) => Buffer(buf)
  }

  predicate IsError(r: Report) {
    r.Bad? || r.BadEarly?
  }

  /** A receive on handle `ep`, and the receives its call-back posts in turn. */
  datatype Post = Post(ep: nat, reposts: seq<Post>)

  /** Receive number `no` of its handle. */
  datatype Waiter = Waiter(no: nat, reposts: seq<Post>)

  /** The call-back of receive `no` ran with `item`, passed as an exception if `raised`. */
  datatype Delivery = Delivery(no: nat, item: Item, raised: bool)

  /** The two lists of one handle, with what has happened on it so far: how many receives were
      posted, the results in order of completion, what they report and whether a receive was waiting for
      each, the
      call-backs run and the receives cancelled. */
  datatype Queue = Queue(
    pool: seq<Item>,
    wait: seq<Waiter>,
    posts: nat,
    results: seq<Item>,
    reported: seq<Report>,
    awaited: seq<bool>,
    delivered: seq<Delivery>,
    cancelled: set<nat>)

  const EMPTY_QUEUE := Queue([], [], 0, [], [], [], [], {})

  type Queues = map<nat, Queue>

  function At(s: Queues, ep: nat): Queue {
    if ep in s then s[ep] else EMPTY_QUEUE
  }

  // ---------------------------------------------------------------------------------------
  // The elementary changes

  /** A receive takes the oldest pooled result. The code never recognises it as an exception. */
  function ServedFromPool(q: Queue): Queue
    requires q.pool != []
  {
    q.(pool := q.pool[1..], posts := q.posts + 1,
       delivered := q.delivered + [Delivery(q.posts, q.pool[0], false)])
  }

  function Waiting(q: Queue, reposts: seq<Post>): Queue {
    q.(wait := q.wait + [Waiter(q.posts, reposts)], posts := q.posts + 1)
  }

  /** A result completes the oldest waiting receive. */
  function ServedWaiter(q: Queue, r: Report): Queue
    requires q.wait != []
  {
    q.(wait := q.wait[1..],
       results := q.results + [ItemOf(r)], reported := q.reported + [r], awaited := q.awaited + [true],
       delivered := q.delivered + [Delivery(q.wait[0].no, ItemOf(r), ItemOf(r).Failure?)])
  }

  function Pooled(q: Queue, r: Report): Queue {
    q.(pool := q.pool + [ItemOf(r)],
       results := q.results + [ItemOf(r)], reported := q.reported + [r], awaited := q.awaited + [false])
  }

  function HeadCancelled(q: Queue): Queue
    requires q.wait != []
  {
    q.(wait := q.wait[1..], cancelled := q.cancelled + {q.wait[0].no})
  }

  // ---------------------------------------------------------------------------------------
  // The operations

  /** `am_recv_nb`. */
  function DoPost(s: Queues, p: Post): Queues
    decreases p, 1
  {
    var q := At(s, p.ep);
    if q.pool != [] then RunPosts(s[p.ep := ServedFromPool(q)], p.reposts)
    else s[p.ep := Waiting(q, p.reposts)]
  }

  /** The receives a call-back posts. */
  function RunPosts(s: Queues, ps: seq<Post>): Queues
    decreases ps, 0
  {
    if ps == [] then s else RunPosts(DoPost(s, ps[0]), ps[1..])
  }

  /** `_push_result`. */
  function PushResult(s: Queues, ep: nat, r: Report): Queues {
    var q := At(s, ep);
    if q.wait != [] then RunPosts(s[ep := ServedWaiter(q, r)], q.wait[0].reposts)
    else s[ep := Pooled(q, r)]
  }

  function Size(p: Post): nat
    decreases p, 1
  {
    1 + SizeAll(p.reposts)
  }

  function SizeAll(ps: seq<Post>): nat
    decreases ps, 0
  {
    if ps == [] then 0 else Size(ps[0]) + SizeAll(ps[1..])
  }

  function WaitSize(w: seq<Waiter>): nat {
    if w == [] then 0 else WaitSize(w[..|w| - 1]) + 1 + SizeAll(w[|w| - 1].reposts)
  }

  lemma {:induction false} WaitSizeTail(w: seq<Waiter>)
    requires w != []
    ensures WaitSize(w) == 1 + SizeAll(w[0].reposts) + WaitSize(w[1..])
  {
    var last := |w| - 1;
    if last > 0 {
      assert w[..last][1..] == w[1..][..last - 1];
      WaitSizeTail(w[..last]);
    }
  }

  /** Receives posted by a call-back grow no list by more than their own size. */
  lemma {:induction false} RunPostsSize(s: Queues, ps: seq<Post>, ep: nat)
    ensures WaitSize(At(RunPosts(s, ps), ep).wait) <= WaitSize(At(s, ep).wait) + SizeAll(ps)
    decreases ps, 0
  {
    if ps == [] {
    } else {
      DoPostSize(s, ps[0], ep);
      RunPostsSize(DoPost(s, ps[0]), ps[1..], ep);
    }
  }

  lemma {:induction false} DoPostSize(s: Queues, p: Post, ep: nat)
    ensures WaitSize(At(DoPost(s, p), ep).wait) <= WaitSize(At(s, ep).wait) + Size(p)
    decreases p, 1
  {
    var q := At(s, p.ep);
    if q.pool != [] {
      RunPostsSize(s[p.ep := ServedFromPool(q)], p.reposts, ep);
    } else {
      assert Waiting(q, p.reposts).wait[..|q.wait|] == q.wait;
    }
  }

  /** The loop of `_cancel_am_recv_single`: receives that a cancelled call-back posts on the same
      handle are cancelled too. */
  function CancelAll(s: Queues, ep: nat): Queues
    decreases WaitSize(At(s, ep).wait)
  {
    var q := At(s, ep);
    if q.wait == [] then s
    else
      assert WaitSize(At(RunPosts(s[ep := HeadCancelled(q)], q.wait[0].reposts), ep).wait) < WaitSize(q.wait) by {
        WaitSizeTail(q.wait);
        RunPostsSize(s[ep := HeadCancelled(q)], q.wait[0].reposts, ep);
      }
      CancelAll(RunPosts(s[ep := HeadCancelled(q)], q.wait[0].reposts), ep)
  }

  // ---------------------------------------------------------------------------------------
  // The FIFO it refines: the k-th result goes to the k-th receive that was not cancelled

  function Uncancelled(n: nat, cancelled: set<nat>): (r: seq<nat>)
    ensures forall i :: 0 <= i < |r| ==> r[i] < n && r[i] !in cancelled
  {
    if n == 0 then []
    else Uncancelled(n - 1, cancelled) + if n - 1 in cancelled then [] else [n - 1]
  }

  function DeliveredNos(d: seq<Delivery>): seq<nat> {
    seq(|d|, i requires 0 <= i < |d| => d[i].no)
  }

  function DeliveredItems(d: seq<Delivery>): seq<Item> {
    seq(|d|, i requires 0 <= i < |d| => d[i].item)
  }

  function WaitingNos(w: seq<Waiter>): seq<nat> {
    seq(|w|, i requires 0 <= i < |w| => w[i].no)
  }

  ghost predicate QueueInv(q: Queue) {
    && q.results == DeliveredItems(q.delivered) + q.pool
    && Uncancelled(q.posts, q.cancelled) == DeliveredNos(q.delivered) + WaitingNos(q.wait)
    && (q.pool == [] || q.wait == [])
    && |q.awaited| == |q.results| == |q.reported|
    && (forall k :: 0 <= k < |q.results| ==> q.results[k] == ItemOf(q.reported[k]))
    && (forall k :: 0 <= k < |q.delivered| ==> (q.delivered[k].raised <==> q.awaited[k] && q.results[k].Failure?))
    && (forall k :: |q.delivered| <= k < |q.results| ==> !q.awaited[k])
    && (forall k :: k in q.cancelled ==> k < q.posts)
    && q.posts == |q.delivered| + |q.wait| + |q.cancelled|
  }

  ghost predicate Inv(s: Queues) {
    forall ep :: ep in s ==> QueueInv(s[ep])
  }

  lemma {:induction false} UncancelledAbove(n: nat, cancelled: set<nat>, k: nat)
    requires n <= k
    ensures Uncancelled(n, cancelled + {k}) == Uncancelled(n, cancelled)
  {
    if n == 0 {
    } else {
      UncancelledAbove(n - 1, cancelled, k);
    }
  }

  lemma {:induction false} UncancelledRemove(n: nat, cancelled: set<nat>, before: seq<nat>, k: nat, after: seq<nat>)
    requires Uncancelled(n, cancelled) == before + [k] + after
    ensures Uncancelled(n, cancelled + {k}) == before + after && k !in cancelled
  {
    var u := Uncancelled(n, cancelled);
    assert u[|before|] == k;
    var m := n - 1;
    var v := Uncancelled(m, cancelled);
    if m in cancelled {
      UncancelledRemove(m, cancelled, before, k, after);
    } else if after == [] {
      assert u[..|u| - 1] == v == before;
      assert u[|u| - 1] == m;
      UncancelledAbove(m, cancelled, m);
      assert before + after == before;
    } else {
      var short := after[..|after| - 1];
      assert u[..|u| - 1] == v == before + [k] + short;
      assert after == short + [m] by { assert u[|u| - 1] == m; }
      assert v[|before|] == k;
      UncancelledRemove(m, cancelled, before, k, short);
      assert before + (short + [m]) == before + short + [m];
    }
  }

  lemma ServedFromPoolInv(q: Queue)
    requires QueueInv(q) && q.pool != []
    ensures QueueInv(ServedFromPool(q))
  {
    var r := ServedFromPool(q);
    assert DeliveredItems(r.delivered) == DeliveredItems(q.delivered) + [q.pool[0]];
    assert DeliveredNos(r.delivered) == DeliveredNos(q.delivered) + [q.posts];
    assert WaitingNos(r.wait) == [];
    assert Uncancelled(r.posts, r.cancelled) == Uncancelled(q.posts, q.cancelled) + [q.posts];
  }

  lemma WaitingInv(q: Queue, reposts: seq<Post>)
    requires QueueInv(q) && q.pool == []
    ensures QueueInv(Waiting(q, reposts))
  {
    assert WaitingNos(Waiting(q, reposts).wait) == WaitingNos(q.wait) + [q.posts];
  }

  lemma ServedWaiterInv(q: Queue, r: Report)
    requires QueueInv(q) && q.wait != []
    ensures QueueInv(ServedWaiter(q, r))
  {
    var p := ServedWaiter(q, r);
    assert DeliveredItems(p.delivered) == DeliveredItems(q.delivered) + [ItemOf(r)];
    assert DeliveredNos(p.delivered) == DeliveredNos(q.delivered) + [q.wait[0].no];
    assert WaitingNos(q.wait) == [q.wait[0].no] + WaitingNos(p.wait);
  }

  lemma HeadCancelledInv(q: Queue)
    requires QueueInv(q) && q.wait != []
    ensures QueueInv(HeadCancelled(q))
  {
    var r, no := HeadCancelled(q), q.wait[0].no;
    assert WaitingNos(q.wait) == [no] + WaitingNos(r.wait);
    assert Uncancelled(q.posts, q.cancelled) == DeliveredNos(q.delivered) + [no] + WaitingNos(r.wait);
    UncancelledRemove(q.posts, q.cancelled, DeliveredNos(q.delivered), no, WaitingNos(r.wait));
    assert no < q.posts by { assert Uncancelled(q.posts, q.cancelled)[|q.delivered|] == no; }
  }

  lemma {:induction false} RunPostsInv(s: Queues, ps: seq<Post>)
    requires Inv(s)
    ensures Inv(RunPosts(s, ps))
    decreases ps, 0
  {
    if ps == [] {
    } else {
      DoPostInv(s, ps[0]);
      RunPostsInv(DoPost(s, ps[0]), ps[1..]);
    }
  }

  lemma {:induction false} DoPostInv(s: Queues, p: Post)
    requires Inv(s)
    ensures Inv(DoPost(s, p))
    decreases p, 1
  {
    var q := At(s, p.ep);
    if q.pool != [] {
      ServedFromPoolInv(q);
      RunPostsInv(s[p.ep := ServedFromPool(q)], p.reposts);
    } else {
      WaitingInv(q, p.reposts);
    }
  }

  lemma PushResultInv(s: Queues, ep: nat, r: Report)
    requires Inv(s)
    ensures Inv(PushResult(s, ep, r))
  {
    var q := At(s, ep);
    if q.wait != [] {
      ServedWaiterInv(q, r);
      RunPostsInv(s[ep := ServedWaiter(q, r)], q.wait[0].reposts);
    }
  }

  lemma {:induction false} CancelAllInv(s: Queues, ep: nat)
    requires Inv(s)
    ensures Inv(CancelAll(s, ep)) && At(CancelAll(s, ep), ep).wait == []
    decreases WaitSize(At(s, ep).wait)
  {
    var q := At(s, ep);
    if q.wait != [] {
      HeadCancelledInv(q);
      RunPostsInv(s[ep := HeadCancelled(q)], q.wait[0].reposts);
      WaitSizeTail(q.wait);
      RunPostsSize(s[ep := HeadCancelled(q)], q.wait[0].reposts, ep);
      CancelAllInv(RunPosts(s[ep := HeadCancelled(q)], q.wait[0].reposts), ep);
    }
  }

  // ---------------------------------------------------------------------------------------
  // What an operation leaves alone

  /** Posting never completes a result and never cancels a receive. */
  lemma {:induction false} RunPostsFrame(s: Queues, ps: seq<Post>, ep: nat)
    ensures At(RunPosts(s, ps), ep).reported == At(s, ep).reported
    ensures At(RunPosts(s, ps), ep).cancelled == At(s, ep).cancelled
    decreases ps, 0
  {
    if ps == [] {
    } else {
      DoPostFrame(s, ps[0], ep);
      RunPostsFrame(DoPost(s, ps[0]), ps[1..], ep);
    }
  }

  lemma {:induction false} DoPostFrame(s: Queues, p: Post, ep: nat)
    ensures At(DoPost(s, p), ep).reported == At(s, ep).reported
    ensures At(DoPost(s, p), ep).cancelled == At(s, ep).cancelled
    decreases p, 1
  {
    var q := At(s, p.ep);
    if q.pool != [] {
      RunPostsFrame(s[p.ep := ServedFromPool(q)], p.reposts, ep);
    }
  }

  lemma PushResultFrame(s: Queues, ep: nat, r: Report, other: nat)
    ensures var t := PushResult(s, ep, r);
      && At(t, other).reported == At(s, other).reported + (if other == ep then [r] else [])
      && At(t, other).cancelled == At(s, other).cancelled
  {
    var q := At(s, ep);
    if q.wait != [] {
      RunPostsFrame(s[ep := ServedWaiter(q, r)], q.wait[0].reposts, other);
    }
  }

  lemma {:induction false} CancelAllFrame(s: Queues, ep: nat, other: nat)
    ensures At(CancelAll(s, ep), other).reported == At(s, other).reported
    ensures other != ep ==> At(CancelAll(s, ep), other).cancelled == At(s, other).cancelled
    decreases WaitSize(At(s, ep).wait)
  {
    var q := At(s, ep);
    if q.wait != [] {
      RunPostsFrame(s[ep := HeadCancelled(q)], q.wait[0].reposts, other);
      WaitSizeTail(q.wait);
      RunPostsSize(s[ep := HeadCancelled(q)], q.wait[0].reposts, ep);
      CancelAllFrame(RunPosts(s[ep := HeadCancelled(q)], q.wait[0].reposts), ep, other);
    }
  }

  // ---------------------------------------------------------------------------------------
  // Every run of one worker

  /** How `_am_recv_callback` learns about a message. Only a rendezvous message that is still
      being received when the call-back returns completes later; if it completed early, its
      status has been dropped. */
  datatype Arrival =
    | Eager | Unsupported | Immediate | Rejected(status: int) | Early(status: int) | Pending(rid: nat)

  datatype Event =
    | Arrive(ep: nat, buf: nat, how: Arrival)
    | RndvDone(rid: nat, ok: bool, status: int)
    | PostRecv(post: Post)
    | ErrorCallback(ep: nat)
    | CancelScheduled(order: seq<nat>)
    | Finalize(ep: nat)

  datatype Rndv = Rndv(ep: nat, buf: nat)

  /** `toCancel` is `_inflight_msgs_to_cancel["am"]`, `arrived` counts the messages of each handle. */
  datatype Am = Am(queues: Queues, outstanding: map<nat, Rndv>, toCancel: set<nat>, arrived: map<nat, nat>)

  const IDLE := Am(map[], map[], {}, map[])

  function Arrived(w: Am, ep: nat): nat {
    if ep in w.arrived then w.arrived[ep] else 0
  }

  function ArrivalReport(buf: nat, how: Arrival): Report
    requires !how.Pending?
  {
    match how
    case Unsupported => Bad(0)
    case Rejected(status) => Bad(status)
    case Early(status) => if status == 0 then Good(buf) else BadEarly(buf, status)
    case _ => Good(buf)
  }

  function RndvReport(r: Rndv, ok: bool, status: int): Report {
    if ok then Good(r.buf) else Bad(status)
  }

  function CancelEach(s: Queues, order: seq<nat>): Queues
    decreases |order|
  {
    if order == [] then s else CancelEach(CancelAll(s, order[0]), order[1..])
  }

  ghost predicate Possible(w: Am, e: Event) {
    match e
    case Arrive(_, _, Pending(rid)) => rid !in w.outstanding
    case RndvDone(rid, _, _) => rid in w.outstanding
    case CancelScheduled(order) => forall ep :: ep in order <==> ep in w.toCancel
    case _ => true
  }

  function Next(w: Am, e: Event): Am
    requires Possible(w, e)
  {
    match e
    case Arrive(ep, buf, how) =>
      var v := w.(arrived := w.arrived[ep := Arrived(w, ep) + 1]);
      if how.Pending? then v.(outstanding := w.outstanding[how.rid := Rndv(ep, buf)])
      else v.(queues := PushResult(w.queues, ep, ArrivalReport(buf, how)))
    case RndvDone(rid, ok, status) =>
      var r := w.outstanding[rid];
      w.(outstanding := w.outstanding - {rid},
         queues := PushResult(w.queues, r.ep, RndvReport(r, ok, status)))
    case PostRecv(p) => w.(queues := DoPost(w.queues, p))
    case ErrorCallback(ep) => w.(toCancel := w.toCancel + {ep})
    case CancelScheduled(order) => w.(queues := CancelEach(w.queues, order), toCancel := {})
    case Finalize(ep) => w.(queues := CancelAll(w.queues, ep), toCancel := w.toCancel - {ep})
  }

  ghost predicate IsRun(w: Am, es: seq<Event>)
    decreases |es|
  {
    es == [] || (Possible(w, es[0]) && IsRun(Next(w, es[0]), es[1..]))
  }

  ghost function Run(w: Am, es: seq<Event>): Am
    requires IsRun(w, es)
    decreases |es|
  {
    if es == [] then w else Run(Next(w, es[0]), es[1..])
  }

  ghost function OutstandingOn(w: Am, ep: nat): set<nat> {
    set rid | rid in w.outstanding && w.outstanding[rid].ep == ep
  }

  ghost predicate AmInv(w: Am) {
    && Inv(w.queues)
    && forall ep :: Arrived(w, ep) == |At(w.queues, ep).reported| + |OutstandingOn(w, ep)|
  }

  lemma {:induction false} CancelEachKeeps(s: Queues, order: seq<nat>, ep: nat)
    requires Inv(s)
    ensures Inv(CancelEach(s, order))
    ensures At(CancelEach(s, order), ep).reported == At(s, ep).reported
    ensures ep !in order ==> At(CancelEach(s, order), ep).cancelled == At(s, ep).cancelled
    decreases |order|
  {
    if order == [] {
    } else {
      CancelAllInv(s, order[0]);
      CancelAllFrame(s, order[0], ep);
      CancelEachKeeps(CancelAll(s, order[0]), order[1..], ep);
    }
  }

  /** The report on a message of handle `ep` that an event brings. */
  function Reports(w: Am, e: Event, ep: nat): seq<Report>
    requires Possible(w, e)
  {
    match e
    case Arrive(ep', buf, how) => if ep' == ep && !how.Pending? then [ArrivalReport(buf, how)] else []
    case RndvDone(rid, ok, status) =>
      if w.outstanding[rid].ep == ep then [RndvReport(w.outstanding[rid], ok, status)] else []
    case _ => []
  }

  lemma NextQueues(w: Am, e: Event, ep: nat)
    requires Inv(w.queues) && Possible(w, e)
    ensures Inv(Next(w, e).queues)
    ensures At(Next(w, e).queues, ep).reported == At(w.queues, ep).reported + Reports(w, e, ep)
    ensures ep !in w.toCancel && e != Finalize(ep) ==>
              At(Next(w, e).queues, ep).cancelled == At(w.queues, ep).cancelled
  {
    match e
    case Arrive(ep', buf, how) =>
      if !how.Pending? {
        PushResultInv(w.queues, ep', ArrivalReport(buf, how));
        PushResultFrame(w.queues, ep', ArrivalReport(buf, how), ep);
      }
    case RndvDone(rid, ok, status) =>
      var r := w.outstanding[rid];
      PushResultInv(w.queues, r.ep, RndvReport(r, ok, status));
      PushResultFrame(w.queues, r.ep, RndvReport(r, ok, status), ep);
    case PostRecv(p) =>
      DoPostInv(w.queues, p);
      DoPostFrame(w.queues, p, ep);
    case ErrorCallback(_) =>
    case CancelScheduled(order) =>
      CancelEachKeeps(w.queues, order, ep);
    case Finalize(ep') =>
      CancelAllInv(w.queues, ep');
      CancelAllFrame(w.queues, ep', ep);
  }

  lemma OutstandingAdded(w: Am, v: Am, rid: nat, r: Rndv, ep: nat)
    requires rid !in w.outstanding && v.outstanding == w.outstanding[rid := r]
    ensures |OutstandingOn(v, ep)| == |OutstandingOn(w, ep)| + if ep == r.ep then 1 else 0
  {
    assert OutstandingOn(v, ep) == OutstandingOn(w, ep) + if ep == r.ep then {rid} else {};
  }

  lemma NextArrived(w: Am, e: Event, ep: nat)
    requires AmInv(w) && Possible(w, e)
    ensures Arrived(Next(w, e), ep) == |At(Next(w, e).queues, ep).reported| + |OutstandingOn(Next(w, e), ep)|
  {
    var v := Next(w, e);
    assert Arrived(w, ep) == |At(w.queues, ep).reported| + |OutstandingOn(w, ep)|;
    match e
    case Arrive(ep', buf, how) =>
      if how.Pending? {
        OutstandingAdded(w, v, how.rid, Rndv(ep', buf), ep);
      } else {
        PushResultFrame(w.queues, ep', ArrivalReport(buf, how), ep);
        assert OutstandingOn(v, ep) == OutstandingOn(w, ep);
      }
    case RndvDone(rid, ok, status) =>
      var r := w.outstanding[rid];
      PushResultFrame(w.queues, r.ep, RndvReport(r, ok, status), ep);
      assert w.outstanding == v.outstanding[rid := r];
      OutstandingAdded(v, w, rid, r, ep);
    case _ =>
      NextQueues(w, e, ep);
      assert OutstandingOn(v, ep) == OutstandingOn(w, ep);
  }

  lemma {:induction false} RunInv(w: Am, es: seq<Event>)
    requires AmInv(w) && IsRun(w, es)
    ensures AmInv(Run(w, es))
    decreases |es|
  {
    if es == [] {
    } else {
      NextQueues(w, es[0], 0);
      forall ep
        ensures Arrived(Next(w, es[0]), ep)
                == |At(Next(w, es[0]).queues, ep).reported| + |OutstandingOn(Next(w, es[0]), ep)|
      {
        NextArrived(w, es[0], ep);
      }
      RunInv(Next(w, es[0]), es[1..]);
    }
  }

  /** In every run the k-th completed result has gone to the k-th receive that was not cancelled,
      and nothing is both pooled and awaited. */
  lemma MatchingIsFifo(es: seq<Event>, ep: nat, k: nat)
    requires IsRun(IDLE, es)
    ensures var q := At(Run(IDLE, es).queues, ep);
      && (q.pool == [] || q.wait == [])
      && (k < |q.delivered| ==>
            && k < |q.results| && q.delivered[k].item == q.results[k]
            && k < |Uncancelled(q.posts, q.cancelled)|
            && q.delivered[k].no == Uncancelled(q.posts, q.cancelled)[k])
  {
    assert forall ep :: OutstandingOn(IDLE, ep) == {};
    RunInv(IDLE, es);
  }

  /** In every run messages and receives are conserved. */
  lemma NothingLost(es: seq<Event>, ep: nat)
    requires IsRun(IDLE, es)
    ensures var w := Run(IDLE, es);
      var q := At(w.queues, ep);
      && q.results == DeliveredItems(q.delivered) + q.pool
      && q.posts == |q.delivered| + |q.wait| + |q.cancelled|
      && Arrived(w, ep) == |q.delivered| + |q.pool| + |OutstandingOn(w, ep)|
  {
    assert forall ep :: OutstandingOn(IDLE, ep) == {};
    RunInv(IDLE, es);
  }

  /** The reports that a run brings on messages of handle `ep`, in order. */
  ghost function AllReports(w: Am, es: seq<Event>, ep: nat): seq<Report>
    requires IsRun(w, es)
    decreases |es|
  {
    if es == [] then [] else Reports(w, es[0], ep) + AllReports(Next(w, es[0]), es[1..], ep)
  }

  lemma {:induction false} ReportedFrom(w: Am, es: seq<Event>, ep: nat)
    requires Inv(w.queues) && IsRun(w, es)
    ensures At(Run(w, es).queues, ep).reported == At(w.queues, ep).reported + AllReports(w, es, ep)
    decreases |es|
  {
    if es == [] {
    } else {
      var v := Next(w, es[0]);
      NextQueues(w, es[0], ep);
      ReportedFrom(v, es[1..], ep);
      Assoc(At(w.queues, ep).reported, Reports(w, es[0], ep), AllReports(v, es[1..], ep));
    }
  }

  lemma Assoc<T>(a: seq<T>, b: seq<T>, c: seq<T>)
    ensures (a + b) + c == a + (b + c)
  {
  }

  /** In every run, the k-th call-back gets what the code makes of the k-th report, and gets it as an
      exception exactly if it reports an error, a receive was already waiting for it, and the error
      did not come before the request was registered. A pooled error is delivered as an ordinary
      object; after an early one the receive gets a buffer that was never filled. */
  lemma ErrorRaisedIff(es: seq<Event>, ep: nat, k: nat)
    requires IsRun(IDLE, es) && k < |At(Run(IDLE, es).queues, ep).delivered|
    ensures var q, reports := At(Run(IDLE, es).queues, ep), AllReports(IDLE, es, ep);
      && k < |q.awaited| == |reports|
      && q.delivered[k].item == ItemOf(reports[k])
      && (q.delivered[k].raised <==> IsError(reports[k]) && q.awaited[k] && !reports[k].BadEarly?)
  {
    assert forall ep :: OutstandingOn(IDLE, ep) == {};
    RunInv(IDLE, es);
    ReportedFrom(IDLE, es, ep);
    assert At(IDLE.queues, ep).reported == [];
    var q := At(Run(IDLE, es).queues, ep);
    assert DeliveredItems(q.delivered)[k] == q.results[k];
  }

  lemma Then(w: Am, e: Event, rest: seq<Event>, ep: nat)
    requires Possible(w, e) && IsRun(Next(w, e), rest)
    ensures IsRun(w, [e] + rest) && Run(w, [e] + rest) == Run(Next(w, e), rest)
    ensures AllReports(w, [e] + rest, ep) == Reports(w, e, ep) + AllReports(Next(w, e), rest, ep)
  {
    assert ([e] + rest)[1..] == rest;
  }

  /** And both happen: a message that UCX rejects before anybody has asked for it is handed to the
      next receive as if it were a buffer; */
  lemma PooledErrorDelivered() returns (es: seq<Event>)
    ensures IsRun(IDLE, es)
    ensures At(Run(IDLE, es).queues, 0).delivered == [Delivery(0, Failure(-3), false)]
  {
    var arrival, post := Arrive(0, 7, Rejected(-3)), PostRecv(Post(0, []));
    var w := Next(IDLE, arrival);
    assert At(w.queues, 0) == Pooled(EMPTY_QUEUE, Bad(-3));
    Then(w, post, [], 0);
    Then(IDLE, arrival, [post] + [], 0);
    es := [arrival] + ([post] + []);
  }

  /** and a receive that waits for a rendezvous message gets its buffer although receiving it failed. */
  lemma EarlyErrorDelivered() returns (es: seq<Event>)
    ensures IsRun(IDLE, es) && AllReports(IDLE, es, 0) == [BadEarly(7, -3)]
    ensures At(Run(IDLE, es).queues, 0).delivered == [Delivery(0, Buffer(7), false)]
    ensures At(Run(IDLE, es).queues, 0).awaited == [true]
  {
    var post, arrival := PostRecv(Post(0, [])), Arrive(0, 7, Early(-3));
    var w := Next(IDLE, post);
    assert At(w.queues, 0) == Waiting(EMPTY_QUEUE, []);
    Then(w, arrival, [], 0);
    Then(IDLE, post, [arrival] + [], 0);
    es := [post] + ([arrival] + []);
  }

  lemma {:induction false} UncancelledExactly(n: nat, cancelled: set<nat>)
    ensures var u := Uncancelled(n, cancelled);
      && (forall i, j :: 0 <= i < j < |u| ==> u[i] < u[j])
      && (forall no: nat :: no in u <==> no < n && no !in cancelled)
    decreases n
  {
    if n == 0 {
    } else {
      UncancelledExactly(n - 1, cancelled);
    }
  }

  predicate Awaits(q: Queue, no: nat) {
    exists j :: 0 <= j < |q.wait| && q.wait[j].no == no
  }

  predicate Served(q: Queue, no: nat) {
    exists i :: 0 <= i < |q.delivered| && q.delivered[i].no == no
  }

  /** Receives are served in the order in which they were posted, and before all that wait. */
  lemma ServiceOrder(q: Queue)
    requires QueueInv(q)
    ensures forall i, j :: 0 <= i < j < |q.delivered| ==> q.delivered[i].no < q.delivered[j].no
    ensures forall i, j :: 0 <= i < |q.delivered| && 0 <= j < |q.wait| ==> q.delivered[i].no < q.wait[j].no
  {
    UncancelledExactly(q.posts, q.cancelled);
    var d, w := DeliveredNos(q.delivered), WaitingNos(q.wait);
    assert forall i :: 0 <= i < |d| ==> (d + w)[i] == q.delivered[i].no;
    assert forall j :: 0 <= j < |w| ==> (d + w)[|d| + j] == q.wait[j].no;
  }

  lemma Accounted(q: Queue, no: nat)
    requires QueueInv(q)
    ensures no < q.posts && no !in q.cancelled <==> Served(q, no) || Awaits(q, no)
  {
    UncancelledExactly(q.posts, q.cancelled);
    var d, w := DeliveredNos(q.delivered), WaitingNos(q.wait);
    if no in d + w {
      var k :| 0 <= k < |d + w| && (d + w)[k] == no;
      assert k < |d| ==> q.delivered[k].no == no;
      assert k >= |d| ==> q.wait[k - |d|].no == no;
    } else {
      assert forall i :: 0 <= i < |q.delivered| ==> d[i] == q.delivered[i].no && d[i] in d + w;
      assert forall j :: 0 <= j < |q.wait| ==> w[j] == q.wait[j].no && w[j] in d + w;
    }
  }

  /** In every run receives are served in the order in which they were posted and none twice; one
      that was cancelled is never served, and one that was not is served or still waiting. */
  lemma ServedOnceInOrder(es: seq<Event>, ep: nat)
    requires IsRun(IDLE, es)
    ensures var q := At(Run(IDLE, es).queues, ep);
      && (forall i, j :: 0 <= i < j < |q.delivered| ==> q.delivered[i].no < q.delivered[j].no)
      && (forall no: nat :: no < q.posts && no !in q.cancelled <==> Served(q, no) || Awaits(q, no))
      && (forall no: nat :: !(Served(q, no) && Awaits(q, no)))
  {
    assert forall ep :: OutstandingOn(IDLE, ep) == {};
    RunInv(IDLE, es);
    var q := At(Run(IDLE, es).queues, ep);
    ServiceOrder(q);
    forall no: nat
      ensures no < q.posts && no !in q.cancelled <==> Served(q, no) || Awaits(q, no)
    {
      Accounted(q, no);
    }
  }

  // ---------------------------------------------------------------------------------------
  // Cancelling after an error

  /** Posting serves no receive that was already waiting. */
  lemma {:induction false} RunPostsKeepsWaiting(s: Queues, ps: seq<Post>, ep: nat)
    ensures At(s, ep).wait <= At(RunPosts(s, ps), ep).wait
    decreases ps, 0
  {
    if ps == [] {
    } else {
      DoPostKeepsWaiting(s, ps[0], ep);
      RunPostsKeepsWaiting(DoPost(s, ps[0]), ps[1..], ep);
    }
  }

  lemma {:induction false} DoPostKeepsWaiting(s: Queues, p: Post, ep: nat)
    ensures At(s, ep).wait <= At(DoPost(s, p), ep).wait
    decreases p, 1
  {
    var q := At(s, p.ep);
    if q.pool != [] {
      RunPostsKeepsWaiting(s[p.ep := ServedFromPool(q)], p.reposts, ep);
    }
  }

  /** The loop cancels every waiting receive of its own handle and none of another. */
  lemma {:induction false} CancelAllReaches(s: Queues, ep: nat, other: nat, no: nat)
    requires Awaits(At(s, other), no) || no in At(s, other).cancelled
    ensures var q := At(CancelAll(s, ep), other);
      no in q.cancelled || (other != ep && Awaits(q, no) && no !in At(s, other).cancelled)
    decreases WaitSize(At(s, ep).wait)
  {
    var q := At(s, ep);
    if q.wait != [] {
      var t := s[ep := HeadCancelled(q)];
      var u := RunPosts(t, q.wait[0].reposts);
      assert Awaits(At(t, other), no) || no in At(t, other).cancelled by {
        if other == ep && Awaits(q, no) {
          var j :| 0 <= j < |q.wait| && q.wait[j].no == no;
          assert j == 0 || At(t, ep).wait[j - 1].no == no;
        }
      }
      RunPostsKeepsWaiting(t, q.wait[0].reposts, other);
      RunPostsFrame(t, q.wait[0].reposts, other);
      assert Awaits(At(t, other), no) ==> Awaits(At(u, other), no);
      WaitSizeTail(q.wait);
      RunPostsSize(t, q.wait[0].reposts, ep);
      CancelAllReaches(u, ep, other, no);
    }
  }

  lemma {:induction false} CancelEachReaches(s: Queues, order: seq<nat>, ep: nat, no: nat)
    requires no in At(s, ep).cancelled || (ep in order && Awaits(At(s, ep), no))
    ensures no in At(CancelEach(s, order), ep).cancelled
    decreases |order|
  {
    if order == [] {
    } else {
      CancelAllReaches(s, order[0], ep, no);
      CancelEachReaches(CancelAll(s, order[0]), order[1..], ep, no);
    }
  }

  /** A mark stays until the next scheduled cancellation or the finalizer of its endpoint. */
  lemma {:induction false} MarkStays(w: Am, es: seq<Event>, ep: nat)
    requires IsRun(w, es) && ep in w.toCancel
    requires Finalize(ep) !in es && forall e :: e in es ==> !e.CancelScheduled?
    ensures ep in Run(w, es).toCancel
    decreases |es|
  {
    if es == [] {
    } else {
      assert es[0] in es && forall e :: e in es[1..] ==> e in es;
      MarkStays(Next(w, es[0]), es[1..], ep);
    }
  }

  /** Whatever happens between an endpoint's error call-back and the next scheduled cancellation,
      unless the endpoint is finalized first: that cancellation cancels every receive that is waiting
      on its handle by then. */
  lemma ErrorCancelsWaiting(w: Am, ep: nat, es: seq<Event>, order: seq<nat>, no: nat)
    requires IsRun(Next(w, ErrorCallback(ep)), es)
    requires Finalize(ep) !in es && forall e :: e in es ==> !e.CancelScheduled?
    requires var u := Run(Next(w, ErrorCallback(ep)), es);
      Possible(u, CancelScheduled(order)) && Awaits(At(u.queues, ep), no)
    ensures var u := Run(Next(w, ErrorCallback(ep)), es);
      no in At(Next(u, CancelScheduled(order)).queues, ep).cancelled
  {
    var u := Run(Next(w, ErrorCallback(ep)), es);
    MarkStays(Next(w, ErrorCallback(ep)), es, ep);
    CancelEachReaches(u.queues, order, ep, no);
  }

  // ---------------------------------------------------------------------------------------
  // Handle generations

  lemma {:induction false} UnmarkedNotCancelled(w: Am, es: seq<Event>, ep: nat)
    requires Inv(w.queues) && IsRun(w, es) && ep !in w.toCancel
    requires ErrorCallback(ep) !in es && Finalize(ep) !in es
    ensures At(Run(w, es).queues, ep).cancelled == At(w.queues, ep).cancelled && ep !in Run(w, es).toCancel
    decreases |es|
  {
    if es == [] {
    } else {
      assert es[0] in es;
      NextQueues(w, es[0], ep);
      UnmarkedNotCancelled(Next(w, es[0]), es[1..], ep);
    }
  }

  /** After an endpoint's finalizer its handle has no waiting receive and no pending cancellation,
      so until a new endpoint with the same handle fails or closes itself, none of the receives
      posted on it is ever cancelled. */
  lemma CancellationStaysInGeneration(w: Am, es: seq<Event>, ep: nat)
    requires Inv(w.queues) && IsRun(Next(w, Finalize(ep)), es)
    requires ErrorCallback(ep) !in es && Finalize(ep) !in es
    ensures var closed := Next(w, Finalize(ep));
      && At(closed.queues, ep).wait == [] && ep !in closed.toCancel
      && At(Run(closed, es).queues, ep).cancelled == At(closed.queues, ep).cancelled
  {
    CancelAllInv(w.queues, ep);
    UnmarkedNotCancelled(Next(w, Finalize(ep)), es, ep);
  }
}
