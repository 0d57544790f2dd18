/**
 What becomes of a message in the active-message queues (ucp/_libs/ucx_worker_cb.pyx), and of the
 receives that call-backs post.
 */
module AmOutcomes {
  import opened ActiveMessages

  // ---------------------------------------------------------------------------------------
  // What a message becomes

  /** Receives posted by call-backs take nothing from an empty pool. */
  lemma {:induction false} RunPostsServesNone(s: Queues, ps: seq<Post>, ep: nat)
    requires At(s, ep).pool == []
    ensures var q, r := At(s, ep), At(RunPosts(s, ps), ep);
      r.pool == [] && r.delivered == q.delivered && r.results == q.results
    decreases ps, 0
  {
    if ps == [] {
    } else {
      DoPostServesNone(s, ps[0], ep);
      RunPostsServesNone(DoPost(s, ps[0]), ps[1..], ep);
    }
  }

  lemma {:induction false} DoPostServesNone(s: Queues, p: Post, ep: nat)
    requires At(s, ep).pool == []
    ensures var q, r := At(s, ep), At(DoPost(s, p), ep);
      r.pool == [] && r.delivered == q.delivered && r.results == q.results
    decreases p, 1
  {
    var q := At(s, p.ep);
    if q.pool != [] {
      RunPostsServesNone(s[p.ep := ServedFromPool(q)], p.reposts, ep);
    }
  }

  /** From `q` to `r` one result came: it was handed to the oldest waiting receive, as an exception if
      `raised`, or else pooled. */
  ghost predicate Handles(q: Queue, r: Queue, item: Item, raised: bool) {
    && r.results == q.results + [item]
    && (q.wait != [] ==> r.delivered == q.delivered + [Delivery(q.wait[0].no, item, raised)] && r.pool == q.pool == [])
    && (q.wait == [] ==> r.delivered == q.delivered && r.pool == q.pool + [item])
  }

  lemma PushHandles(s: Queues, ep: nat, r: Report)
    requires Inv(s)
    ensures Handles(At(s, ep), At(PushResult(s, ep, r), ep), ItemOf(r), ItemOf(r).Failure?)
  {
    var q := At(s, ep);
    if q.wait != [] {
      RunPostsServesNone(s[ep := ServedWaiter(q, r)], q.wait[0].reposts, ep);
    }
  }

  /** An arriving message is handed over as its buffer if it is eager, was received at once, or was
      received before its request was registered, even if that failed; it is an exception if its
      memory type is not supported or UCX rejects it. A rendezvous that is still going on changes no
      queue. */
  lemma ArrivalBecomes(w: Am, ep: nat, buf: nat, how: Arrival)
    requires Inv(w.queues) && Possible(w, Arrive(ep, buf, how))
    ensures var q, r := At(w.queues, ep), At(Next(w, Arrive(ep, buf, how)).queues, ep);
      match how
      case Eager => Handles(q, r, Buffer(buf), false)
      case Immediate => Handles(q, r, Buffer(buf), false)
      case Early(_) => Handles(q, r, Buffer(buf), false)
      case Unsupported => exists status :: Handles(q, r, Failure(status), true)
      case Rejected(status) => Handles(q, r, Failure(status), true)
      case Pending(_) => Next(w, Arrive(ep, buf, how)).queues == w.queues
    ensures how.Pending? ==>
              var v := Next(w, Arrive(ep, buf, how));
              how.rid in v.outstanding && v.outstanding[how.rid] == Rndv(ep, buf)
  {
    if !how.Pending? {
      PushHandles(w.queues, ep, ArrivalReport(buf, how));
    }
  }

  /** A rendezvous that completes is handed over as its own buffer, or as an exception with its status
      if it failed. */
  lemma RndvBecomes(w: Am, rid: nat, ok: bool, status: int)
    requires Inv(w.queues) && Possible(w, RndvDone(rid, ok, status))
    ensures var ep := w.outstanding[rid].ep;
      var q, r := At(w.queues, ep), At(Next(w, RndvDone(rid, ok, status)).queues, ep);
      if ok then Handles(q, r, Buffer(w.outstanding[rid].buf), false) else Handles(q, r, Failure(status), true)
    ensures rid !in Next(w, RndvDone(rid, ok, status)).outstanding
  {
    PushHandles(w.queues, w.outstanding[rid].ep, RndvReport(w.outstanding[rid], ok, status));
  }

  /** What an event reports is an error exactly in these cases, and an early one in the last. */
  lemma ReportsError(w: Am, ep: nat, buf: nat, how: Arrival)
    requires Possible(w, Arrive(ep, buf, how)) && !how.Pending?
    ensures |Reports(w, Arrive(ep, buf, how), ep)| == 1
    ensures var r := Reports(w, Arrive(ep, buf, how), ep)[0];
      && (IsError(r) <==> how.Unsupported? || how.Rejected? || (how.Early? && how.status != 0))
      && (r.BadEarly? <==> how.Early? && how.status != 0)
  {
  }

  // ---------------------------------------------------------------------------------------
  // No receive of a call-back is forgotten

  /** The receives posted on the handles below `n`, and those still to be posted by the call-backs of
      the receives that wait on them. */
  function Total(s: Queues, n: nat): nat {
    if n == 0 then 0 else Total(s, n - 1) + Weight(At(s, n - 1))
  }

  function Weight(q: Queue): nat {
    q.posts + ToPost(q.wait)
  }

  function ToPost(w: seq<Waiter>): nat {
    if w == [] then 0 else ToPost(w[..|w| - 1]) + SizeAll(w[|w| - 1].reposts)
  }

  lemma {:induction false} ToPostTail(w: seq<Waiter>)
    requires w != []
    ensures ToPost(w) == SizeAll(w[0].reposts) + ToPost(w[1..])
  {
    var last := |w| - 1;
    if last == 0 {
    } else {
      assert w[..last][1..] == w[1..][..last - 1];
      ToPostTail(w[..last]);
    }
  }

  lemma {:induction false} TotalUpdate(s: Queues, ep: nat, q: Queue, n: nat)
    ensures Total(s[ep := q], n) == Total(s, n) + if ep < n then Weight(q) - Weight(At(s, ep)) else 0
  {
    if n == 0 {
    } else {
      TotalUpdate(s, ep, q, n - 1);
    }
  }

  /** A receive, and all that its call-backs post, is on handles below `n`. */
  predicate Below(p: Post, n: nat)
    decreases p, 1
  {
    p.ep < n && AllBelow(p.reposts, n)
  }

  predicate AllBelow(ps: seq<Post>, n: nat)
    decreases ps, 0
  {
    ps == [] || (Below(ps[0], n) && AllBelow(ps[1..], n))
  }

  ghost predicate WaitBelow(q: Queue, ep: nat, n: nat) {
    q.wait != [] ==> ep < n && forall i :: 0 <= i < |q.wait| ==> AllBelow(q.wait[i].reposts, n)
  }

  ghost predicate WaitersBelow(s: Queues, n: nat) {
    forall ep: nat :: WaitBelow(At(s, ep), ep, n)
  }

  lemma UpdateBelow(s: Queues, ep: nat, q: Queue, n: nat)
    requires WaitersBelow(s, n) && WaitBelow(q, ep, n)
    ensures WaitersBelow(s[ep := q], n)
  {
    var t := s[ep := q];
    forall k: nat ensures WaitBelow(At(t, k), k, n) {
      assert WaitBelow(At(s, k), k, n);
    }
  }

  lemma {:induction false} RunPostsTotal(s: Queues, ps: seq<Post>, n: nat)
    requires WaitersBelow(s, n) && AllBelow(ps, n)
    ensures WaitersBelow(RunPosts(s, ps), n) && Total(RunPosts(s, ps), n) == Total(s, n) + SizeAll(ps)
    decreases ps, 0
  {
    if ps == [] {
    } else {
      DoPostTotal(s, ps[0], n);
      RunPostsTotal(DoPost(s, ps[0]), ps[1..], n);
    }
  }

  lemma {:induction false} DoPostTotal(s: Queues, p: Post, n: nat)
    requires WaitersBelow(s, n) && Below(p, n)
    ensures WaitersBelow(DoPost(s, p), n) && Total(DoPost(s, p), n) == Total(s, n) + Size(p)
    decreases p, 1
  {
    var q := At(s, p.ep);
    assert WaitBelow(q, p.ep, n);
    if q.pool != [] {
      UpdateBelow(s, p.ep, ServedFromPool(q), n);
      TotalUpdate(s, p.ep, ServedFromPool(q), n);
      RunPostsTotal(s[p.ep := ServedFromPool(q)], p.reposts, n);
    } else {
      var r := Waiting(q, p.reposts);
      assert r.wait[..|q.wait|] == q.wait;
      UpdateBelow(s, p.ep, r, n);
      TotalUpdate(s, p.ep, r, n);
    }
  }

  /** Taking the oldest waiting receive and running its call-back changes nothing in all. */
  lemma HeadTotal(s: Queues, ep: nat, q: Queue, n: nat)
    requires WaitersBelow(s, n) && At(s, ep).wait != []
    requires q.wait == At(s, ep).wait[1..] && q.posts == At(s, ep).posts
    ensures var t := RunPosts(s[ep := q], At(s, ep).wait[0].reposts);
      WaitersBelow(t, n) && Total(t, n) == Total(s, n)
  {
    var wait := At(s, ep).wait;
    assert WaitBelow(At(s, ep), ep, n);
    ToPostTail(wait);
    UpdateBelow(s, ep, q, n);
    TotalUpdate(s, ep, q, n);
    RunPostsTotal(s[ep := q], wait[0].reposts, n);
  }

  lemma PushTotal(s: Queues, ep: nat, r: Report, n: nat)
    requires WaitersBelow(s, n)
    ensures WaitersBelow(PushResult(s, ep, r), n) && Total(PushResult(s, ep, r), n) == Total(s, n)
  {
    var q := At(s, ep);
    if q.wait != [] {
      HeadTotal(s, ep, ServedWaiter(q, r), n);
    } else {
      UpdateBelow(s, ep, Pooled(q, r), n);
      TotalUpdate(s, ep, Pooled(q, r), n);
    }
  }

  lemma {:induction false} CancelAllTotal(s: Queues, ep: nat, n: nat)
    requires WaitersBelow(s, n)
    ensures WaitersBelow(CancelAll(s, ep), n) && Total(CancelAll(s, ep), n) == Total(s, n)
    decreases WaitSize(At(s, ep).wait)
  {
    var q := At(s, ep);
    if q.wait == [] {
    } else {
      HeadTotal(s, ep, HeadCancelled(q), n);
      WaitSizeTail(q.wait);
      RunPostsSize(s[ep := HeadCancelled(q)], q.wait[0].reposts, ep);
      CancelAllTotal(RunPosts(s[ep := HeadCancelled(q)], q.wait[0].reposts), ep, n);
    }
  }

  lemma {:induction false} CancelEachTotal(s: Queues, order: seq<nat>, n: nat)
    requires WaitersBelow(s, n)
    ensures WaitersBelow(CancelEach(s, order), n) && Total(CancelEach(s, order), n) == Total(s, n)
    decreases |order|
  {
    if order == [] {
    } else {
      CancelAllTotal(s, order[0], n);
      CancelEachTotal(CancelAll(s, order[0]), order[1..], n);
    }
  }

  /** The receives that a run asks for: those of its `am_recv` calls, with all that their call-backs
      post. */
  function Requested(es: seq<Event>): nat {
    if es == [] then 0 else (if es[0].PostRecv? then Size(es[0].post) else 0) + Requested(es[1..])
  }

  predicate AllPostsBelow(es: seq<Event>, n: nat) {
    forall i :: 0 <= i < |es| && es[i].PostRecv? ==> Below(es[i].post, n)
  }

  lemma NextTotal(w: Am, e: Event, n: nat)
    requires WaitersBelow(w.queues, n) && Possible(w, e) && (e.PostRecv? ==> Below(e.post, n))
    ensures WaitersBelow(Next(w, e).queues, n)
    ensures Total(Next(w, e).queues, n) == Total(w.queues, n) + if e.PostRecv? then Size(e.post) else 0
  {
    match e
    case Arrive(ep, buf, how) => if !how.Pending? { PushTotal(w.queues, ep, ArrivalReport(buf, how), n); }
    case RndvDone(rid, ok, status) =>
      PushTotal(w.queues, w.outstanding[rid].ep, RndvReport(w.outstanding[rid], ok, status), n);
    case PostRecv(p) => DoPostTotal(w.queues, p, n);
    case ErrorCallback(_) =>
    case CancelScheduled(order) => CancelEachTotal(w.queues, order, n);
    case Finalize(ep) => CancelAllTotal(w.queues, ep, n);
  }

  lemma {:induction false} RunTotal(w: Am, es: seq<Event>, n: nat)
    requires WaitersBelow(w.queues, n) && IsRun(w, es) && AllPostsBelow(es, n)
    ensures Total(Run(w, es).queues, n) == Total(w.queues, n) + Requested(es)
    decreases |es|
  {
    if es == [] {
    } else {
      NextTotal(w, es[0], n);
      RunTotal(Next(w, es[0]), es[1..], n);
    }
  }

  lemma {:induction false} TotalIdle(n: nat)
    ensures Total(IDLE.queues, n) == 0
  {
    if n == 0 {
    } else {
      TotalIdle(n - 1);
    }
  }

  /** In every run, every receive that was asked for, by the application or by a call-back of another
      receive however deeply nested, has been posted once, or will be by a call-back of one that still
      waits: serving and cancelling lose none. */
  lemma NoPostForgotten(es: seq<Event>, n: nat)
    requires IsRun(IDLE, es) && AllPostsBelow(es, n)
    ensures Total(Run(IDLE, es).queues, n) == Requested(es)
  {
    assert WaitersBelow(IDLE.queues, n);
    TotalIdle(n);
    RunTotal(IDLE, es, n);
  }

  /** A call-back posts its receives in its own order: with nothing pooled they wait in that order. */
  lemma {:induction false} PostedInOrder(s: Queues, ps: seq<Post>, ep: nat)
    requires At(s, ep).pool == []
    requires forall i :: 0 <= i < |ps| ==> ps[i].ep == ep
    ensures var q, r := At(s, ep), At(RunPosts(s, ps), ep);
      && |r.wait| == |q.wait| + |ps| && q.wait <= r.wait && r.posts == q.posts + |ps|
      && forall i :: 0 <= i < |ps| ==> r.wait[|q.wait| + i] == Waiter(q.posts + i, ps[i].reposts)
    decreases |ps|
  {
    if ps == [] {
    } else {
      PostedInOrder(DoPost(s, ps[0]), ps[1..], ep);
    }
  }

  /** A scheduled cancellation uses up every mark. */
  lemma MarksAreCleared(w: Am, order: seq<nat>)
    requires Possible(w, CancelScheduled(order))
    ensures Next(w, CancelScheduled(order)).toCancel == {}
  {
  }
}
