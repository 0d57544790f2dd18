/**
 The full mesh built by `_worker_process` (ucp/utils.py): each rank connects to every higher rank
 in turn and learns from each accepted connection which lower rank it came from.
 */
module Mesh {

  /** Connection number `c` runs from `from` to `to`; `accepted` once `to` has read the rank. */
  datatype Conn = Conn(from: nat, to: nat, accepted: bool)

  /** `next[r]` is the loop variable of rank `r`, `eps[r]` its dictionary of connections by rank. */
  datatype Net = Net(n: nat, next: seq<nat>, eps: seq<map<nat, nat>>, conns: seq<Conn>)

  function Fresh(n: nat): Net {
    Net(n, seq(n, i requires 0 <= i < n => i + 1), seq(n, i => map[]), [])
  }

  datatype Step = ConnectNext(r: nat) | Accept(c: nat)

  predicate Possible(w: Net, s: Step) {
    |w.next| == w.n == |w.eps| &&
    match s
    case ConnectNext(r) => r < w.n && w.next[r] < w.n
    case Accept(c) => c < |w.conns| && !w.conns[c].accepted && w.conns[c].to < w.n
  }

  /** The two assertions about ranks that are already in the dictionary. The one in the connecting
      loop is made before an `await` and the entry written after it; while the loop variable has one
      value, `NoDuplicateRank` covers the state at either time. */
  predicate Asserted(w: Net, s: Step)
    requires Possible(w, s)
  {
    match s
    case ConnectNext(r) => w.next[r] !in w.eps[r]
    case Accept(c) => w.conns[c].from !in w.eps[w.conns[c].to]
  }

  function Next(w: Net, s: Step): Net
    requires Possible(w, s)
  {
    match s
    case ConnectNext(r) =>
      var to, c: nat := w.next[r], |w.conns|;
      var table: map<nat, nat> := w.eps[r][to := c];
      w.(next := w.next[r := to + 1], eps := w.eps[r := table], conns := w.conns + [Conn(r, to, false)])
    case Accept(c) =>
      var k := w.conns[c];
      var table: map<nat, nat> := w.eps[k.to][k.from := c];
      w.(eps := w.eps[k.to := table], conns := w.conns[c := k.(accepted := true)])
  }

  /** Rank `r` has `k` in its dictionary exactly when one of them has connected to the other, and the
      entry is that connection. */
  ghost predicate EntryOk(w: Net, r: nat, k: nat)
    requires r < |w.eps|
  {
    k in w.eps[r] ==>
      && w.eps[r][k] < |w.conns|
      && var c := w.conns[w.eps[r][k]];
         if k < r then c == Conn(k, r, true) else c.from == r && c.to == k && k > r
  }

  ghost predicate ConnOk(w: Net, c: nat)
    requires c < |w.conns| && |w.next| == w.n == |w.eps|
  {
    var k := w.conns[c];
    && k.from < k.to < w.n && k.to < w.next[k.from]
    && k.to in w.eps[k.from] && w.eps[k.from][k.to] == c
    && (k.accepted ==> k.from in w.eps[k.to] && w.eps[k.to][k.from] == c)
  }

  ghost predicate Inv(w: Net) {
    && |w.next| == w.n == |w.eps|
    && (forall r :: 0 <= r < w.n ==> r < w.next[r] <= w.n)
    && (forall r, k :: 0 <= r < w.n ==> EntryOk(w, r, k))
    && (forall r, k :: 0 <= r < w.n && r < k < w.next[r] ==> k in w.eps[r])
    && (forall c :: 0 <= c < |w.conns| ==> ConnOk(w, c))
  }

  lemma EntryConn(w: Net, r: nat, k: nat)
    requires Inv(w) && r < w.n && k in w.eps[r]
    ensures EntryOk(w, r, k) && ConnOk(w, w.eps[r][k])
  {
    assert EntryOk(w, r, k);
  }

  lemma StepAsserted(w: Net, s: Step)
    requires Inv(w) && Possible(w, s)
    ensures Asserted(w, s)
  {
    match s
    case ConnectNext(r) =>
      if w.next[r] in w.eps[r] {
        EntryConn(w, r, w.next[r]);
      }
    case Accept(c) =>
      assert ConnOk(w, c);
      if w.conns[c].from in w.eps[w.conns[c].to] {
        EntryConn(w, w.conns[c].to, w.conns[c].from);
      }
  }

  lemma ConnectInv(w: Net, r: nat)
    requires Inv(w) && Possible(w, ConnectNext(r)) && Asserted(w, ConnectNext(r))
    ensures Inv(Next(w, ConnectNext(r)))
  {
    var v := Next(w, ConnectNext(r));
    forall q, k: nat | 0 <= q < v.n
      ensures EntryOk(v, q, k)
    {
      assert EntryOk(w, q, k);
    }
    forall c | 0 <= c < |v.conns|
      ensures ConnOk(v, c)
    {
      assert c < |w.conns| ==> ConnOk(w, c);
    }
  }

  lemma AcceptInv(w: Net, c: nat)
    requires Inv(w) && Possible(w, Accept(c)) && Asserted(w, Accept(c))
    ensures Inv(Next(w, Accept(c)))
  {
    var v := Next(w, Accept(c));
    assert ConnOk(w, c);
    forall q, k: nat | 0 <= q < v.n
      ensures EntryOk(v, q, k)
    {
      assert EntryOk(w, q, k);
    }
    forall d | 0 <= d < |v.conns|
      ensures ConnOk(v, d)
    {
      assert ConnOk(w, d);
    }
  }

  /** Every step is possible and meets its assertion. */
  ghost predicate Goes(w: Net, steps: seq<Step>, v: Net)
    decreases |steps|
  {
    if steps == [] then w == v
    else Possible(w, steps[0]) && Asserted(w, steps[0]) && Goes(Next(w, steps[0]), steps[1..], v)
  }

  lemma {:induction false} GoesInv(w: Net, steps: seq<Step>, v: Net)
    requires Inv(w) && Goes(w, steps, v)
    ensures Inv(v) && v.n == w.n
    decreases |steps|
  {
    if steps == [] {
    } else {
      match steps[0] {
        case ConnectNext(r) => ConnectInv(w, r);
        case Accept(c) => AcceptInv(w, c);
      }
      GoesInv(Next(w, steps[0]), steps[1..], v);
    }
  }

  function Others(n: nat, r: nat): (s: set<nat>)
    ensures forall k: nat :: k in s <==> k < n && k != r
    ensures |s| == n - if r < n then 1 else 0
  {
    if n == 0 then {} else Others(n - 1, r) + if n - 1 == r then {} else {n - 1}
  }

  /** In every run, neither assertion about duplicate ranks fails at the next step. */
  lemma NoDuplicateRank(n: nat, steps: seq<Step>, w: Net, s: Step)
    requires Goes(Fresh(n), steps, w) && Possible(w, s)
    ensures Asserted(w, s)
  {
    GoesInv(Fresh(n), steps, w);
    StepAsserted(w, s);
  }

  /** A rank that leaves its waiting loop has exactly the other `n - 1` ranks in its dictionary. */
  lemma LeavesWithEveryPeer(n: nat, steps: seq<Step>, w: Net, r: nat)
    requires Goes(Fresh(n), steps, w) && r < n
    ensures |w.eps| == n
    ensures |w.eps[r]| == n - 1 <==> w.eps[r].Keys == Others(n, r)
  {
    GoesInv(Fresh(n), steps, w);
    var keys, all := w.eps[r].Keys, Others(n, r);
    assert keys <= all by {
      forall k | k in keys
        ensures k in all
      {
        assert EntryOk(w, r, k) && ConnOk(w, w.eps[r][k]);
      }
    }
    assert |all - keys| == |all| - |keys|;
    assert |keys| == |w.eps[r]|;
  }

  /** A mesh in which nothing can happen any more is full: nobody waits for ever. */
  lemma FullWhenStuck(n: nat, steps: seq<Step>, w: Net, r: nat)
    requires Goes(Fresh(n), steps, w) && r < n && forall s :: !Possible(w, s)
    ensures |w.eps| == n && w.eps[r].Keys == Others(n, r)
  {
    GoesInv(Fresh(n), steps, w);
    forall k: nat | k < n && k != r
      ensures k in w.eps[r]
    {
      var low, high := if k < r then k else r, if k < r then r else k;
      assert !Possible(w, ConnectNext(low));
      assert high in w.eps[low] && EntryOk(w, low, high);
      assert ConnOk(w, w.eps[low][high]) && !Possible(w, Accept(w.eps[low][high]));
    }
    forall k | k in w.eps[r]
      ensures k in Others(n, r)
    {
      EntryConn(w, r, k);
    }
  }

  // ---------------------------------------------------------------------------------------
  // How long a run can be

  function ToConnect(next: seq<nat>, n: nat): nat {
    if next == [] then 0
    else ToConnect(next[..|next| - 1], n) + if next[|next| - 1] < n then n - next[|next| - 1] else 0
  }

  function ToAccept(conns: seq<Conn>): nat {
    if conns == [] then 0
    else ToAccept(conns[..|conns| - 1]) + if conns[|conns| - 1].accepted then 0 else 1
  }

  lemma {:induction false} OneFewerToConnect(next: seq<nat>, n: nat, r: nat)
    requires r < |next| && next[r] < n
    ensures ToConnect(next[r := next[r] + 1], n) == ToConnect(next, n) - 1
  {
    var last, moved := |next| - 1, next[r := next[r] + 1];
    if r < last {
      assert moved[..last] == next[..last][r := next[r] + 1];
      OneFewerToConnect(next[..last], n, r);
    } else {
      assert moved[..last] == next[..last];
    }
  }

  lemma {:induction false} OneFewerToAccept(conns: seq<Conn>, c: nat)
    requires c < |conns| && !conns[c].accepted
    ensures ToAccept(conns[c := conns[c].(accepted := true)]) == ToAccept(conns) - 1
  {
    var last, moved := |conns| - 1, conns[c := conns[c].(accepted := true)];
    if c < last {
      assert moved[..last] == conns[..last][c := conns[c].(accepted := true)];
      OneFewerToAccept(conns[..last], c);
    } else {
      assert moved[..last] == conns[..last];
    }
  }

  /** Every connection still to be made takes two steps, every one still to be accepted takes one. */
  function StepsLeft(w: Net): nat {
    2 * ToConnect(w.next, w.n) + ToAccept(w.conns)
  }

  lemma {:induction false} GoesSteps(w: Net, steps: seq<Step>, v: Net)
    requires Goes(w, steps, v)
    ensures |steps| + StepsLeft(v) == StepsLeft(w)
    decreases |steps|
  {
    if steps == [] {
    } else {
      var u := Next(w, steps[0]);
      match steps[0] {
        case ConnectNext(r) =>
          OneFewerToConnect(w.next, w.n, r);
          assert u.conns[..|w.conns|] == w.conns;
        case Accept(c) => OneFewerToAccept(w.conns, c);
      }
      GoesSteps(u, steps[1..], v);
    }
  }

  lemma AddRow(n: nat, m: nat)
    requires 0 < m <= n
    ensures m * (2 * n - m - 1) == (m - 1) * (2 * n - m) + 2 * (n - m)
  {
    var a := 2 * n - m - 1;
    assert m * a == (m - 1) * a + a && (m - 1) * (a + 1) == (m - 1) * a + (m - 1);
  }

  lemma {:induction false} FreshToConnect(n: nat, m: nat)
    requires m <= n
    ensures 2 * ToConnect(seq(m, i requires 0 <= i < m => i + 1), n) == m * (2 * n - m - 1)
  {
    if m == 0 {
    } else {
      FreshToConnect(n, m - 1);
      AddRow(n, m);
      var next := seq(m, i requires 0 <= i < m => i + 1);
      assert next[..m - 1] == seq(m - 1, i requires 0 <= i < m - 1 => i + 1);
    }
  }

  /** No run has more than `n * (n - 1)` steps, so every run that goes on as long as it can ends with
      the mesh full. */
  lemma RunLength(n: nat, steps: seq<Step>, w: Net)
    requires Goes(Fresh(n), steps, w)
    ensures |steps| + StepsLeft(w) == n * (n - 1)
  {
    GoesSteps(Fresh(n), steps, w);
    FreshToConnect(n, n);
  }

  /** Two ranks that know each other share one connection. */
  lemma PairsShareConnection(n: nat, steps: seq<Step>, w: Net, r: nat, k: nat)
    requires Goes(Fresh(n), steps, w) && r < k < n
    ensures |w.eps| == n
    ensures k in w.eps[r] && r in w.eps[k] ==> w.eps[r][k] == w.eps[k][r]
    ensures r in w.eps[k] ==> k in w.eps[r]
  {
    GoesInv(Fresh(n), steps, w);
    assert EntryOk(w, r, k) && EntryOk(w, k, r);
    if r in w.eps[k] {
      assert ConnOk(w, w.eps[k][r]);
    }
  }

  /** The coroutine of one rank. */
  class Worker {
    const rank: nat
    const n: nat
    var next: nat
    var eps: map<nat, nat>

    constructor (rank: nat, n: nat)
      requires rank < n
      ensures this.rank == rank && this.n == n && next == rank + 1 && eps == map[]
    {
      this.rank, this.n := rank, n;
      next, eps := rank + 1, map[];
    }

    /** The coroutine is where the mesh has this rank. */
    ghost predicate In(w: Net)
      reads this
    {
      rank < |w.next| && rank < |w.eps| && next == w.next[rank] && eps == w.eps[rank]
    }

    /** One turn of the connecting loop; the connection gets number `c`. */
    method ConnectNext(c: nat, ghost w: Net)
      requires Inv(w) && In(w) && Possible(w, Step.ConnectNext(rank)) && c == |w.conns|
      modifies this
      ensures In(Next(w, Step.ConnectNext(rank)))
    {
      StepAsserted(w, Step.ConnectNext(rank));
      assert next !in eps;
      eps := eps[next := c];
      next := next + 1;
    }

    /** `server_handler`, once the peer's rank has arrived over connection `c`. */
    method OnPeer(peer: nat, c: nat, ghost w: Net)
      requires Inv(w) && In(w) && Possible(w, Accept(c)) && w.conns[c] == Conn(peer, rank, false)
      modifies `eps
      ensures In(Next(w, Accept(c)))
    {
      StepAsserted(w, Accept(c));
      assert peer !in eps;
      eps := eps[peer := c];
    }
  }
}
