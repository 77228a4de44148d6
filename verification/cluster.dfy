/** The primary process: how many workers it forks, and the respawn rule
    that forks one replacement for every worker exit it observes. The
    operating system and the `cluster` module are reduced to two signals: a
    worker dies, and the primary's `exit` handler runs for a dead worker. */
module Cluster {

  /** The worker count: the configured number when it is positive, and
      otherwise the number of CPUs. `configured` is `Number(...) || 0`, so a
      missing, empty or non-numeric setting arrives here as 0. */
  function WorkerCount(configured: int, cpus: nat): (n: nat)
    ensures configured > 0 ==> n == configured
    ensures configured <= 0 ==> n == cpus
    ensures n > 0 <==> configured > 0 || cpus > 0
  {
    if configured > 0 then configured else cpus
  }

  /** What the primary has done so far. `live` workers are running,
      `pending` have died but their `exit` handler has not yet run, `forks`
      counts every `cluster.fork()` and `exits` every handled exit. */
  datatype Pool = Pool(live: nat, pending: nat, forks: nat, exits: nat)

  /** The bookkeeping every reachable pool keeps for a worker count `n`:
      each worker slot is either live or awaiting its replacement, and the
      primary has forked the first `n` workers plus one per handled exit. */
  predicate Inv(p: Pool, n: nat) {
    p.live + p.pending == n && p.forks == n + p.exits
  }

  /** One `cluster.fork()`. */
  function Fork(p: Pool): (r: Pool)
    ensures r.live == p.live + 1 && r.forks == p.forks + 1
    ensures r.pending == p.pending && r.exits == p.exits
  {
    p.(live := p.live + 1, forks := p.forks + 1)
  }

  /** The start-up loop `for (i = 0; i < n; i++) cluster.fork()`. */
  method ForkWorkers(configured: int, cpus: nat) returns (pool: Pool)
    ensures pool.live == WorkerCount(configured, cpus) && pool.forks == pool.live
    ensures pool.pending == 0 && pool.exits == 0
  {
    pool := Pool(0, 0, 0, 0);
    var i := 0;
    while i < WorkerCount(configured, cpus)
      invariant 0 <= i <= WorkerCount(configured, cpus)
      invariant pool == Pool(i, 0, i, 0)
    {
      pool := Fork(pool);
      i := i + 1;
    }
  }

  datatype Signal =
    | Died          // a live worker crashes or exits
    | ExitObserved  // the `exit` handler runs for a dead worker

  predicate Enabled(p: Pool, s: Signal) {
    match s
    case Died => p.live > 0
    case ExitObserved => p.pending > 0
  }

  /** One signal. The `exit` handler logs and forks exactly one new worker,
      whatever the exit code or signal of the dead one. */
  function Step(p: Pool, s: Signal): (r: Pool)
    requires Enabled(p, s)
    ensures r.live + r.pending == p.live + p.pending
    ensures r.forks - r.exits == p.forks - p.exits
  {
    match s
    case Died => p.(live := p.live - 1, pending := p.pending + 1)
    case ExitObserved => Fork(p.(pending := p.pending - 1, exits := p.exits + 1))
  }

  /** Every signal of `ss` is possible when it arrives. */
  predicate Valid(p: Pool, ss: seq<Signal>)
    decreases |ss|
  {
    |ss| == 0 || (Enabled(p, ss[0]) && Valid(Step(p, ss[0]), ss[1..]))
  }

  function Run(p: Pool, ss: seq<Signal>): (r: Pool)
    requires Valid(p, ss)
    decreases |ss|
  {
    if |ss| == 0 then p else Run(Step(p, ss[0]), ss[1..])
  }

  /** Every signal keeps the invariant. */
  lemma StepKeepsInv(p: Pool, n: nat, s: Signal)
    requires Inv(p, n) && Enabled(p, s)
    ensures Inv(Step(p, s), n)
  {
  }

  /** Any run of signals keeps the invariant: the primary never runs more
      than `n` workers, and never fewer than `n` once every exit is handled. */
  lemma {:induction false} RunKeepsInv(p: Pool, n: nat, ss: seq<Signal>)
    requires Inv(p, n) && Valid(p, ss)
    ensures Inv(Run(p, ss), n)
    ensures Run(p, ss).live <= n
    ensures Run(p, ss).pending == 0 ==> Run(p, ss).live == n
    decreases |ss|
  {
    if |ss| > 0 {
      StepKeepsInv(p, n, ss[0]);
      RunKeepsInv(Step(p, ss[0]), n, ss[1..]);
    }
  }

  /** The counters after a run: one fork and one handled exit per
      `ExitObserved`, one fewer live worker per `Died`. */
  lemma {:induction false} RunCounts(p: Pool, ss: seq<Signal>)
    requires Valid(p, ss)
    ensures Run(p, ss).forks == p.forks + multiset(ss)[ExitObserved]
    ensures Run(p, ss).exits == p.exits + multiset(ss)[ExitObserved]
    ensures Run(p, ss).live + multiset(ss)[Died] == p.live + multiset(ss)[ExitObserved]
    decreases |ss|
  {
    if |ss| > 0 {
      assert ss == [ss[0]] + ss[1..];
      assert multiset(ss) == multiset{ss[0]} + multiset(ss[1..]);
      RunCounts(Step(p, ss[0]), ss[1..]);
    }
  }

  /** `k` exit notifications in a row. */
  function Notifications(k: nat): (r: seq<Signal>)
    ensures |r| == k && forall i :: 0 <= i < k ==> r[i] == ExitObserved
  {
    seq(k, i requires 0 <= i < k => ExitObserved)
  }

  /** Handling every pending exit brings the pool back to `n` live workers. */
  lemma {:induction false} DrainRestores(p: Pool, n: nat)
    requires Inv(p, n)
    ensures Valid(p, Notifications(p.pending))
    ensures Run(p, Notifications(p.pending)).live == n
    ensures Run(p, Notifications(p.pending)).pending == 0
    decreases p.pending
  {
    var ss := Notifications(p.pending);
    if p.pending > 0 {
      var q := Step(p, ExitObserved);
      StepKeepsInv(p, n, ExitObserved);
      DrainRestores(q, n);
      assert ss[1..] == Notifications(q.pending);
    }
  }

  /** Worked example: with no setting on a four-core machine the primary
      forks four workers, and after two crashes are handled it has forked
      six and runs four. */
  lemma FourCoreExample()
    ensures WorkerCount(0, 4) == 4
    ensures Valid(Pool(4, 0, 4, 0), [Died, Died, ExitObserved, ExitObserved])
    ensures Run(Pool(4, 0, 4, 0), [Died, Died, ExitObserved, ExitObserved]) == Pool(4, 0, 6, 2)
  {
    var ss := [Died, Died, ExitObserved, ExitObserved];
    assert ss[1..] == [Died, ExitObserved, ExitObserved];
    assert ss[1..][1..] == [ExitObserved, ExitObserved];
    assert ss[1..][1..][1..] == [ExitObserved];
    assert ss[1..][1..][1..][1..] == [];
  }
}
