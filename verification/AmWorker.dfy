/**
 The worker object's active-message dictionaries (ucp/_libs/ucx_worker.pyx) and the code that
 updates them in place. A handle may be missing from either dictionary.
 */
module AmDictionaries {
  import opened ActiveMessages

  function Get<T>(m: map<nat, seq<T>>, ep: nat): seq<T> {
    if ep in m then m[ep] else []
  }

  /** A waiting list holds the call-backs; their numbers are only for the specification. */
  ghost function CallbacksOf(w: seq<Waiter>): seq<seq<Post>> {
    seq(|w|, i requires 0 <= i < |w| => w[i].reposts)
  }

  /** The dictionaries agree with the queue of handle `ep`. */
  ghost predicate Holds(pool: map<nat, seq<Item>>, wait: map<nat, seq<seq<Post>>>, queues: Queues, ep: nat) {
    Get(pool, ep) == At(queues, ep).pool && Get(wait, ep) == CallbacksOf(At(queues, ep).wait)
  }

  /** The dictionaries as values, to compare two moments. */
  datatype Dicts = Dicts(pool: map<nat, seq<Item>>, wait: map<nat, seq<seq<Post>>>)

  ghost predicate Agree(d: Dicts, queues: Queues) {
    forall ep: nat :: Holds(d.pool, d.wait, queues, ep)
  }

  ghost predicate OnlyAt<T>(m: map<nat, T>, m': map<nat, T>, ep: nat) {
    forall k :: k != ep ==> (k in m <==> k in m') && (k in m ==> m'[k] == m[k])
  }

  lemma AgreeAfterUpdate(d: Dicts, queues: Queues, e: Dicts, queues': Queues, ep: nat)
    requires Agree(d, queues) && Holds(e.pool, e.wait, queues', ep)
    requires OnlyAt(d.pool, e.pool, ep) && OnlyAt(d.wait, e.wait, ep)
    requires OnlyAt(queues, queues', ep)
    ensures Agree(e, queues')
  {
    forall k: nat
      ensures Holds(e.pool, e.wait, queues', k)
    {
      assert Holds(d.pool, d.wait, queues, k);
    }
  }

  /** The receives that a scheduled cancellation finds on each handle in turn. */
  ghost function FoundWaiting(s: Queues, order: seq<nat>): nat
    decreases |order|
  {
    if order == [] then 0 else |At(s, order[0]).wait| + FoundWaiting(CancelAll(s, order[0]), order[1..])
  }

  class AmWorker {
    var pool: map<nat, seq<Item>>
    var wait: map<nat, seq<seq<Post>>>
    var toCancel: set<nat>
    var outstanding: map<nat, Rndv> // rendezvous receives in progress, as their request info holds them
    ghost var queues: Queues
    ghost var arrived: map<nat, nat>

    ghost predicate Valid()
      reads this
    {
      Agree(Model(), queues)
    }

    ghost function Model(): Dicts
      reads this
    {
      Dicts(pool, wait)
    }

    ghost function World(): Am
      reads this
    {
      Am(queues, outstanding, toCancel, arrived)
    }

    constructor ()
      ensures Valid() && World() == IDLE
    {
      pool, wait, toCancel, outstanding := map[], map[], {}, map[];
      queues, arrived := map[], map[];
    }

    /** `am_recv_nb`: the call-back runs at once if a result is pooled. */
    method AmRecvNb(p: Post)
      requires Valid()
      modifies `pool, `wait, `queues
      ensures Valid() && queues == DoPost(old(queues), p)
      ensures old(wait).Keys <= wait.Keys
      decreases p, 1
    {
      assert Holds(pool, wait, queues, p.ep);
      if p.ep in pool && |pool[p.ep]| > 0 {
        queues := queues[p.ep := ServedFromPool(At(queues, p.ep))];
        pool := pool[p.ep := pool[p.ep][1..]];
        AgreeAfterUpdate(old(Model()), old(queues), Model(), queues, p.ep);
        RunCallback(p.reposts);
      } else {
        queues := queues[p.ep := Waiting(At(queues, p.ep), p.reposts)];
        if p.ep !in wait {
          wait := wait[p.ep := []];
        }
        wait := wait[p.ep := wait[p.ep] + [p.reposts]];
        AgreeAfterUpdate(old(Model()), old(queues), Model(), queues, p.ep);
      }
    }

    /** A call-back posts its receives one after another. */
    method RunCallback(ps: seq<Post>)
      requires Valid()
      modifies `pool, `wait, `queues
      ensures Valid() && queues == RunPosts(old(queues), ps)
      ensures old(wait).Keys <= wait.Keys
      decreases ps, 0
    {
      if ps != [] {
        AmRecvNb(ps[0]);
        RunCallback(ps[1..]);
      }
    }

    /** `_push_result`, after `_am_recv_callback` made sure that the handle has a pool. */
    method Push(ep: nat, item: Item, ghost r: Report)
      requires Valid() && item == ItemOf(r)
      modifies `pool, `wait, `queues
      ensures Valid() && queues == PushResult(old(queues), ep, r)
    {
      assert Holds(pool, wait, queues, ep);
      ghost var q := At(queues, ep);
      if ep !in pool {
        pool := pool[ep := []];
        AgreeAfterUpdate(old(Model()), queues, Model(), queues, ep);
      }
      ghost var before := Model();
      if ep in wait && |wait[ep]| > 0 {
        var reposts := wait[ep][0];
        queues := queues[ep := ServedWaiter(q, r)];
        wait := wait[ep := wait[ep][1..]];
        AgreeAfterUpdate(before, old(queues), Model(), queues, ep);
        RunCallback(reposts);
      } else {
        queues := queues[ep := Pooled(q, r)];
        pool := pool[ep := pool[ep] + [item]];
        AgreeAfterUpdate(before, old(queues), Model(), queues, ep);
      }
    }

    /** `_cancel_am_recv_single`; the length it returns was taken before the call-backs ran. */
    method CancelSingle(ep: nat) returns (lenWait: nat)
      requires Valid()
      modifies `pool, `wait, `queues
      ensures Valid() && queues == CancelAll(old(queues), ep)
      ensures lenWait == |At(old(queues), ep).wait|
      ensures ep !in wait
    {
      lenWait := 0;
      assert Holds(pool, wait, queues, ep);
      if ep in wait {
        lenWait := |wait[ep]|;
        while |wait[ep]| > 0
          invariant ep in wait && Valid()
          invariant CancelAll(queues, ep) == CancelAll(old(queues), ep)
          decreases WaitSize(At(queues, ep).wait)
        {
          ghost var q, before := At(queues, ep), Model();
          ghost var queuesBefore := queues;
          assert Holds(pool, wait, queues, ep);
          var reposts := wait[ep][0];
          WaitSizeTail(q.wait);
          RunPostsSize(queues[ep := HeadCancelled(q)], reposts, ep);
          queues := queues[ep := HeadCancelled(q)];
          wait := wait[ep := wait[ep][1..]];
          AgreeAfterUpdate(before, queuesBefore, Model(), queues, ep);
          RunCallback(reposts);
        }
        assert Holds(pool, wait, queues, ep);
        ghost var last := Model();
        wait := wait - {ep};
        AgreeAfterUpdate(last, queues, Model(), queues, ep);
      }
    }

    /** `_am_recv_callback`: every way in which the message can be handed over or kept back. */
    method OnArrival(ep: nat, buf: nat, how: Arrival)
      requires Valid() && Possible(World(), Arrive(ep, buf, how))
      modifies this
      ensures Valid() && World() == Next(old(World()), Arrive(ep, buf, how))
    {
      arrived := arrived[ep := Arrived(World(), ep) + 1];
      match how
      case Eager => Push(ep, Buffer(buf), ArrivalReport(buf, how));
      case Unsupported => Push(ep, Failure(0), ArrivalReport(buf, how));
      case Immediate => Push(ep, Buffer(buf), ArrivalReport(buf, how));
      case Rejected(status) => Push(ep, Failure(status), ArrivalReport(buf, how));
      case Early(_) => Push(ep, Buffer(buf), ArrivalReport(buf, how));
      case Pending(rid) => outstanding := outstanding[rid := Rndv(ep, buf)];
    }

    /** `_am_recv_completed_callback` of a registered request. */
    method OnRndvDone(rid: nat, ok: bool, status: int)
      requires Valid() && rid in outstanding
      modifies this
      ensures Valid() && World() == Next(old(World()), RndvDone(rid, ok, status))
    {
      var r := outstanding[rid];
      outstanding := outstanding - {rid};
      Push(r.ep, if ok then Buffer(r.buf) else Failure(status), RndvReport(r, ok, status));
    }

    /** `_cancel_am_recv` without a handle: the scheduled cancellations, in the order in which the
        set is iterated. */
    method CancelScheduledRecvs(order: seq<nat>) returns (total: nat)
      requires Valid() && Possible(World(), CancelScheduled(order))
      modifies this
      ensures Valid() && World() == Next(old(World()), CancelScheduled(order))
      ensures total == FoundWaiting(old(queues), order)
    {
      total := 0;
      var i := 0;
      while i < |order|
        invariant 0 <= i <= |order| && Valid()
        invariant toCancel == old(toCancel) && outstanding == old(outstanding) && arrived == old(arrived)
        invariant CancelEach(queues, order[i..]) == CancelEach(old(queues), order)
        invariant total + FoundWaiting(queues, order[i..]) == FoundWaiting(old(queues), order)
      {
        assert order[i..][1..] == order[i + 1..];
        var n := CancelSingle(order[i]);
        total := total + n;
        i := i + 1;
      }
      toCancel := {};
    }

    /** `_cancel_am_recv` with the handle of an endpoint that is being finalized. */
    method CancelForFinalizer(ep: nat) returns (lenWait: nat)
      requires Valid()
      modifies this
      ensures Valid() && World() == Next(old(World()), Finalize(ep))
      ensures lenWait == |At(old(queues), ep).wait|
      ensures ep !in wait
    {
      lenWait := CancelSingle(ep);
      toCancel := toCancel - {ep};
    }

    /** The error call-back of an endpoint schedules its receives for cancellation. */
    method OnError(ep: nat)
      requires Valid()
      modifies this`toCancel
      ensures Valid() && World() == Next(old(World()), ErrorCallback(ep))
    {
      toCancel := toCancel + {ep};
    }
  }
}
