/** `CCheckQueue`: one master and any number of workers sharing a stack of checks under a mutex.
    The critical sections are the steps of a state machine; every interleaving of them is a run. */
module CheckQueue {
  import opened Folding
  import Powers

  /** A check and what running it returns. */
  datatype Check = Check(id: nat, passes: bool)

  /** The fields the mutex protects. */
  datatype Shared = Shared(queue: seq<Check>, nIdle: int, nTotal: int, allOk: bool, nTodo: int, batchSize: nat)

  /** Where a thread is: not in `Loop`, running a batch, or waiting on its condition variable. */
  datatype Thread = Outside | Working(batch: seq<Check>, ok: bool) | Waiting(notified: bool)

  datatype Outcome = Return(result: bool) | Sleep | Took(batch: seq<Check>, ok: bool)

  predicate AllPass(checks: seq<Check>) {
    forall i :: 0 <= i < |checks| ==> checks[i].passes
  }

  /** Checks taken from the back of the queue come out in reverse order. */
  function TakenFrom(queue: seq<Check>, n: nat): (r: seq<Check>)
    requires n <= |queue|
    ensures |r| == n
  {
    seq(n, i requires 0 <= i < n => queue[|queue| - 1 - i])
  }

  function Max(a: int, b: int): int { if a > b then a else b }
  function Min(a: int, b: int): int { if a < b then a else b }

  function BatchLength(s: Shared): int
    requires s.nTotal + s.nIdle + 1 > 0
  {
    Max(1, Min(s.batchSize, |s.queue| / (s.nTotal + s.nIdle + 1)))
  }

  lemma BatchFits(s: Shared)
    requires s.nTotal + s.nIdle + 1 > 0 && s.queue != []
    ensures 1 <= BatchLength(s) <= |s.queue|
  {
    Quotient(|s.queue|, s.nTotal + s.nIdle + 1);
  }

  /** A batch is the thread's share of the queue: the most that all threads, idle ones included, and one more could
      take each, up to the batch size; but never nothing. */
  lemma BatchShare(s: Shared)
    requires s.nTotal + s.nIdle + 1 > 0
    ensures var n, threads := BatchLength(s), s.nTotal + s.nIdle + 1;
            (n == 1 || (1 < n <= s.batchSize && n * threads <= |s.queue|)) &&
            forall k: int :: k <= s.batchSize && k * threads <= |s.queue| ==> k <= n
  {
    var threads := s.nTotal + s.nIdle + 1;
    var q := |s.queue| / threads;
    assert |s.queue| == q * threads + |s.queue| % threads;
    forall k: int | k <= s.batchSize && k * threads <= |s.queue| ensures k <= BatchLength(s) {
      if k > q {
        Powers.MulMono(q + 1, k, threads);
        Powers.DistributeRight(q, 1, threads);
      }
    }
    Powers.MulMono(Min(s.batchSize, q), q, threads);
  }

  lemma Quotient(a: int, b: int)
    requires a >= 0 && b > 0
    ensures 0 <= a / b <= a
  {
    var q, r := a / b, a % b;
    assert a == q * b + r;
    if q < 0 { Powers.MulMono(q, -1, b); } else { Powers.MulMono(1, b, q); }
  }

  /** The inner loop of `Loop`, once the lock is held: return, wait, or take a batch. */
  function Resume(s: Shared, master: bool): (Shared, Outcome)
    requires s.nTotal + s.nIdle + 1 > 0
  {
    if s.queue == [] then
      if master && s.nTodo == 0 then (s.(nTotal := s.nTotal - 1, allOk := true), Return(s.allOk))
      else (s.(nIdle := s.nIdle + 1), Sleep)
    else
      BatchFits(s);
      var n := BatchLength(s);
      (s.(queue := s.queue[..|s.queue| - n]), Took(TakenFrom(s.queue, n), s.allOk))
  }

  /** The shared object. Each method is one critical section, or the work done outside the lock. */
  class Queue {
    var queue: seq<Check>
    var nIdle: int
    var nTotal: int
    var fAllOk: bool
    var nTodo: int
    const nBatchSize: nat

    ghost function Abs(): Shared
      reads this
    {
      Shared(queue, nIdle, nTotal, fAllOk, nTodo, nBatchSize)
    }

    constructor (batchSize: nat)
      ensures Abs() == Shared([], 0, 0, true, 0, batchSize)
    {
      queue, nIdle, nTotal, fAllOk, nTodo := [], 0, 0, true, 0;
      nBatchSize := batchSize;
    }

    /** `Add`; the caller learns how many workers to notify from the number of checks. */
    method Add(checks: seq<Check>)
      modifies this
      ensures Abs() == old(Abs()).(queue := old(queue) + checks, nTodo := old(nTodo) + |checks|)
    {
      for i := 0 to |checks|
        invariant Abs() == old(Abs()).(queue := old(queue) + checks[..i])
      {
        queue := queue + [checks[i]];
      }
      nTodo := nTodo + |checks|;
    }

    /** The clean-up of the previous run; true means the master is to be notified. */
    method Complete(count: int, ok: bool, master: bool) returns (notify: bool)
      modifies this
      ensures Abs() == old(Abs()).(allOk := old(fAllOk) && ok, nTodo := old(nTodo) - count)
      ensures notify <==> nTodo == 0 && !master
    {
      fAllOk := fAllOk && ok;
      nTodo := nTodo - count;
      notify := nTodo == 0 && !master;
    }

    method Enter()
      modifies this
      ensures Abs() == old(Abs()).(nTotal := old(nTotal) + 1)
    {
      nTotal := nTotal + 1;
    }

    method Awake()
      modifies this
      ensures Abs() == old(Abs()).(nIdle := old(nIdle) - 1)
    {
      nIdle := nIdle - 1;
    }

    method Next(master: bool) returns (o: Outcome)
      requires nTotal + nIdle + 1 > 0
      modifies this
      ensures (Abs(), o) == Resume(old(Abs()), master)
    {
      if queue == [] {
        if master && nTodo == 0 {
          nTotal := nTotal - 1;
          o := Return(fAllOk);
          fAllOk := true;
        } else {
          nIdle := nIdle + 1;
          o := Sleep;
        }
      } else {
        BatchFits(Abs());
        var n := Max(1, Min(nBatchSize, |queue| / (nTotal + nIdle + 1)));
        ghost var before := queue;
        var batch := [];
        for i := 0 to n
          invariant |batch| == i && queue == before[..|before| - i]
          invariant forall j :: 0 <= j < i ==> batch[j] == before[|before| - 1 - j]
          invariant Abs() == old(Abs()).(queue := queue)
        {
          batch := batch + [queue[|queue| - 1]];
          queue := queue[..|queue| - 1];
        }
        assert batch == TakenFrom(before, n);
        o := Took(batch, fAllOk);
      }
    }

    method IsIdle() returns (r: bool)
      ensures r <==> nTotal == nIdle && nTodo == 0 && fAllOk
    {
      r := nTotal == nIdle && nTodo == 0 && fAllOk == true;
    }
  }

  /** The work between two critical sections: checks run until one fails. */
  method Execute(batch: seq<Check>, ok: bool) returns (r: bool)
    ensures r <==> ok && AllPass(batch)
  {
    r := ok;
    for i := 0 to |batch|
      invariant r <==> ok && AllPass(batch[..i])
    {
      assert AllPass(batch[..i + 1]) <==> AllPass(batch[..i]) && batch[i].passes;
      if r {
        r := batch[i].passes;
      }
    }
    assert batch[..|batch|] == batch;
  }

  // ----- the machine -----

  /** All threads together. Thread 0 is the master. `added` and `finished` are the checks handed in
      and worked off since the last `Wait` returned; `rounds` records what each `Wait` returned. */
  datatype State = State(shared: Shared, threads: seq<Thread>, added: seq<Check>, finished: multiset<Check>,
                         rounds: seq<(seq<Check>, bool)>)

  datatype Event = Enter(t: nat) | Finish(t: nat) | Wake(t: nat) | Add(checks: seq<Check>, chosen: nat)

  /** A worker waiting that no one has notified. */
  predicate Asleep(ts: seq<Thread>, t: nat) {
    0 < t < |ts| && ts[t] == Waiting(false)
  }

  /** Wakes may be spurious; `notify_one` wakes some sleeping worker if there is one. */
  predicate Enabled(ts: seq<Thread>, e: Event) {
    match e
    case Enter(t) => t < |ts| && ts[t].Outside?
    case Finish(t) => t < |ts| && ts[t].Working?
    case Wake(t) => t < |ts| && ts[t].Waiting?
    case Add(_, chosen) =>
      |ts| > 0 && ts[0].Outside? && (Asleep(ts, chosen) || forall t :: 0 <= t < |ts| ==> !Asleep(ts, t))
  }

  function NotifyAll(ts: seq<Thread>): (r: seq<Thread>)
    ensures |r| == |ts|
  {
    seq(|ts|, t requires 0 <= t < |ts| => if Asleep(ts, t) then Waiting(true) else ts[t])
  }

  function NotifyOne(ts: seq<Thread>, chosen: nat): (r: seq<Thread>)
    ensures |r| == |ts|
  {
    if Asleep(ts, chosen) then ts[chosen := Waiting(true)] else ts
  }

  function NotifyMaster(ts: seq<Thread>): (r: seq<Thread>)
    ensures |r| == |ts|
  {
    if |ts| > 0 && ts[0].Waiting? then ts[0 := Waiting(true)] else ts
  }

  /** Thread t, holding the lock, goes on. */
  function Settle(s: State, t: nat): State
    requires t < |s.threads| && s.shared.nTotal + s.shared.nIdle + 1 > 0
  {
    var (shared, o) := Resume(s.shared, t == 0);
    match o
    case Return(r) => State(shared, s.threads[t := Outside], [], multiset{}, s.rounds + [(s.added, r)])
    case Sleep => s.(shared := shared, threads := s.threads[t := Waiting(false)])
    case Took(batch, ok) => s.(shared := shared, threads := s.threads[t := Working(batch, ok)])
  }

  /** The first part of a step: everything up to the inner loop, with thread t holding the lock. */
  function Before(s: State, e: Event): State
    requires !e.Add? && e.t < |s.threads| && (e.Finish? ==> s.threads[e.t].Working?)
  {
    var free := s.threads[e.t := Outside];
    match e
    case Enter(t) => s.(shared := s.shared.(nTotal := s.shared.nTotal + 1))
    case Wake(t) => s.(shared := s.shared.(nIdle := s.shared.nIdle - 1), threads := free)
    case Finish(t) =>
      var w := s.threads[t];
      var todo := s.shared.nTodo - |w.batch|;
      s.(shared := s.shared.(allOk := s.shared.allOk && w.ok && AllPass(w.batch), nTodo := todo),
         threads := if todo == 0 && t != 0 then NotifyMaster(free) else free,
         finished := s.finished + multiset(w.batch))
    case Add(_, _) => s
  }

  function AddAll(s: State, checks: seq<Check>, chosen: nat): State {
    s.(shared := s.shared.(queue := s.shared.queue + checks, nTodo := s.shared.nTodo + |checks|),
       threads := if |checks| == 1 then NotifyOne(s.threads, chosen)
                  else if |checks| > 1 then NotifyAll(s.threads) else s.threads,
       added := s.added + checks)
  }

  // ----- counting threads -----

  function InLoop(ts: seq<Thread>): nat {
    if ts == [] then 0 else InLoop(ts[..|ts| - 1]) + if ts[|ts| - 1].Outside? then 0 else 1
  }

  function Idle(ts: seq<Thread>): nat {
    if ts == [] then 0 else Idle(ts[..|ts| - 1]) + if ts[|ts| - 1].Waiting? then 1 else 0
  }

  function Busy(ts: seq<Thread>): nat {
    if ts == [] then 0 else Busy(ts[..|ts| - 1]) + if ts[|ts| - 1].Working? then 1 else 0
  }

  function BatchOf(t: Thread): seq<Check> { if t.Working? then t.batch else [] }

  /** Checks taken by some thread and not yet worked off. */
  function InFlight(ts: seq<Thread>): multiset<Check> {
    if ts == [] then multiset{} else InFlight(ts[..|ts| - 1]) + multiset(BatchOf(ts[|ts| - 1]))
  }

  lemma {:induction false} ReplaceCounts(ts: seq<Thread>, t: nat, x: Thread)
    requires t < |ts|
    ensures var us := ts[t := x];
            InLoop(us) + (if ts[t].Outside? then 0 else 1) == InLoop(ts) + (if x.Outside? then 0 else 1) &&
            Idle(us) + (if ts[t].Waiting? then 1 else 0) == Idle(ts) + (if x.Waiting? then 1 else 0)
  {
    var us := ts[t := x];
    var n := |ts| - 1;
    if t == n {
      assert us[..n] == ts[..n];
    } else {
      ReplaceCounts(ts[..n], t, x);
      assert us[..n] == ts[..n][t := x] && us[n] == ts[n];
    }
  }

  lemma {:induction false} ReplaceBatch(ts: seq<Thread>, t: nat, x: Thread)
    requires t < |ts|
    ensures InFlight(ts[t := x]) + multiset(BatchOf(ts[t])) == InFlight(ts) + multiset(BatchOf(x))
  {
    var us := ts[t := x];
    var n := |ts| - 1;
    var low, up := ts[..n], us[..n];
    var a, b := InFlight(up), InFlight(low);
    if t == n {
      assert up == low;
      assert (a + multiset(BatchOf(x))) + multiset(BatchOf(ts[n])) ==
             (b + multiset(BatchOf(ts[n]))) + multiset(BatchOf(x));
    } else {
      ReplaceBatch(low, t, x);
      assert up == low[t := x] && us[n] == ts[n] && low[t] == ts[t];
      Shifted(a, b, multiset(BatchOf(ts[t])), multiset(BatchOf(x)), multiset(BatchOf(ts[n])));
    }
  }

  lemma Shifted(a: multiset<Check>, b: multiset<Check>, x: multiset<Check>, y: multiset<Check>, m: multiset<Check>)
    requires a + x == b + y
    ensures (a + m) + x == (b + m) + y
  {
    assert (a + m) + x == (a + x) + m;
  }

  /** A thread without a batch gets into another state. */
  lemma ReplaceFree(ts: seq<Thread>, t: nat, x: Thread, us: seq<Thread>)
    requires t < |ts| && !ts[t].Working? && us == ts[t := x]
    ensures InLoop(us) + (if ts[t].Outside? then 0 else 1) == InLoop(ts) + (if x.Outside? then 0 else 1)
    ensures Idle(us) + (if ts[t].Waiting? then 1 else 0) == Idle(ts) + (if x.Waiting? then 1 else 0)
    ensures InFlight(us) == InFlight(ts) + multiset(BatchOf(x)) && |InFlight(us)| == |InFlight(ts)| + |BatchOf(x)|
    ensures BatchOf(x) == [] ==> InFlight(us) == InFlight(ts)
  {
    ReplaceCounts(ts, t, x);
    ReplaceBatch(ts, t, x);
    assert multiset(BatchOf(ts[t])) == multiset{};
    assert InFlight(us) == InFlight(us) + multiset{};
  }

  /** A thread gives its batch up. */
  lemma ReplaceBusy(ts: seq<Thread>, t: nat, us: seq<Thread>)
    requires t < |ts| && ts[t].Working? && us == ts[t := Outside]
    ensures InLoop(us) + 1 == InLoop(ts) && Idle(us) == Idle(ts)
    ensures InFlight(us) + multiset(ts[t].batch) == InFlight(ts) && |InFlight(us)| + |ts[t].batch| == |InFlight(ts)|
  {
    ReplaceCounts(ts, t, Outside);
    ReplaceBatch(ts, t, Outside);
    assert InFlight(ts) + multiset{} == InFlight(ts);
  }

  lemma {:induction false} BusyCount(ts: seq<Thread>)
    ensures InLoop(ts) == Idle(ts) + Busy(ts)
  {
    if ts != [] { BusyCount(ts[..|ts| - 1]); }
  }

  /** A batch in flight is part of all in flight. */
  lemma {:induction false} SomeInFlight(ts: seq<Thread>, t: nat)
    requires t < |ts|
    ensures multiset(BatchOf(ts[t])) <= InFlight(ts)
  {
    if t < |ts| - 1 { SomeInFlight(ts[..|ts| - 1], t); }
  }

  /** Nothing in flight means nobody works. */
  lemma {:induction false} NoneBusy(ts: seq<Thread>)
    requires forall t :: 0 <= t < |ts| ==> BatchOf(ts[t]) == []
    ensures |InFlight(ts)| == 0
  {
    if ts != [] { NoneBusy(ts[..|ts| - 1]); }
  }

  lemma {:induction false} NotBusy(ts: seq<Thread>)
    requires forall t :: 0 <= t < |ts| ==> !ts[t].Working?
    ensures Busy(ts) == 0
  {
    if ts != [] { NotBusy(ts[..|ts| - 1]); }
  }

  /** Same counts for thread lists that differ in notifications only. */
  ghost predicate SameButNotified(ts: seq<Thread>, us: seq<Thread>) {
    |us| == |ts| && forall t :: 0 <= t < |ts| ==> us[t] == ts[t] || (us[t] == Waiting(true) && ts[t].Waiting?)
  }

  lemma {:induction false} NotifiedCounts(ts: seq<Thread>, us: seq<Thread>)
    requires SameButNotified(ts, us)
    ensures InLoop(us) == InLoop(ts) && Idle(us) == Idle(ts) && InFlight(us) == InFlight(ts)
  {
    if ts != [] {
      var n := |ts| - 1;
      assert us[n] == ts[n] || (us[n] == Waiting(true) && ts[n].Waiting?);
      NotifiedCounts(ts[..n], us[..n]);
    }
  }

  // ----- the invariant -----

  ghost predicate AllPassed(m: multiset<Check>) {
    forall c :: c in m ==> c.passes
  }

  /** The part that holds even while thread t has the lock; `entered` is 1 then, for t is not in the list. */
  ghost predicate Counted(s: State, entered: int) {
    |s.threads| > 0 &&
    s.shared.nTotal == InLoop(s.threads) + entered && s.shared.nIdle == Idle(s.threads) &&
    s.shared.nTodo == |s.shared.queue| + |InFlight(s.threads)| &&
    multiset(s.added) == multiset(s.shared.queue) + InFlight(s.threads) + s.finished &&
    (s.shared.allOk <==> AllPassed(s.finished))
  }

  /** Batches are not empty, and a batch skipped was skipped because something had failed. */
  ghost predicate BatchesOk(s: State) {
    forall t {:trigger s.threads[t]} :: 0 <= t < |s.threads| && s.threads[t].Working? ==>
      s.threads[t].batch != [] && (!s.threads[t].ok ==> !s.shared.allOk)
  }

  /** A waiting master has nothing to take, and something to wait for until it is notified. */
  ghost predicate MasterOk(s: State) {
    |s.threads| > 0 &&
    (s.threads[0].Waiting? ==> s.shared.queue == [] && (!s.threads[0].notified ==> s.shared.nTodo > 0))
  }

  /** A worker that will look at the queue. */
  predicate Active(x: Thread) {
    x.Working? || x == Waiting(true)
  }

  /** Queued work is never left to sleeping workers only. */
  ghost predicate WorkersOk(s: State) {
    s.shared.queue != [] ==>
      (exists t {:trigger s.threads[t]} :: 0 < t < |s.threads| && Active(s.threads[t])) ||
      forall t {:trigger s.threads[t]} :: 0 < t < |s.threads| ==> !s.threads[t].Waiting?
  }

  /** Every `Wait` so far returned whether all checks of its round pass. */
  ghost predicate RoundsOk(s: State) {
    forall i :: 0 <= i < |s.rounds| ==> (s.rounds[i].1 <==> AllPass(s.rounds[i].0))
  }

  ghost predicate Inv(s: State) {
    Counted(s, 0) && BatchesOk(s) && MasterOk(s) && WorkersOk(s) && RoundsOk(s)
  }

  /** In the middle of a step of thread t. */
  ghost predicate Locked(s: State, t: nat) {
    t < |s.threads| && s.threads[t].Outside? && Counted(s, 1) && BatchesOk(s) && MasterOk(s) && RoundsOk(s) &&
    (t == 0 ==> WorkersOk(s))
  }

  // ----- every step keeps it -----

  lemma TakenChecks(queue: seq<Check>, n: nat)
    requires n <= |queue|
    ensures multiset(queue[..|queue| - n]) + multiset(TakenFrom(queue, n)) == multiset(queue)
    decreases n
  {
    var k := |queue| - n;
    if n == 0 {
      assert queue[..k] == queue;
    } else {
      TakenChecks(queue, n - 1);
      assert queue[..k + 1] == queue[..k] + [queue[k]];
      assert TakenFrom(queue, n) == TakenFrom(queue, n - 1) + [queue[k]];
    }
  }

  lemma PassedIff(checks: seq<Check>)
    ensures AllPass(checks) <==> AllPassed(multiset(checks))
  {
    if AllPass(checks) {
      forall c | c in multiset(checks) ensures c.passes { assert c in checks; }
    }
    if AllPassed(multiset(checks)) {
      forall i | 0 <= i < |checks| ensures checks[i].passes { assert checks[i] in multiset(checks); }
    }
  }

  lemma SettleTakes(s: State, t: nat)
    requires Locked(s, t) && s.shared.queue != []
    ensures s.shared.nTotal + s.shared.nIdle + 1 > 0 && Inv(Settle(s, t))
  {
    BatchFits(s.shared);
    var n := BatchLength(s.shared);
    var w := Working(TakenFrom(s.shared.queue, n), s.shared.allOk);
    var u := Settle(s, t);
    assert u == s.(shared := s.shared.(queue := s.shared.queue[..|s.shared.queue| - n]), threads := s.threads[t := w]);
    assert Counted(u, 0) by { TakeCounts(s, t, n, u); }
    assert BatchesOk(u) && MasterOk(u) && RoundsOk(u);
    if t > 0 { assert Active(u.threads[t]); } else { ActiveKept(s, u); }
  }

  lemma TakeCounts(s: State, t: nat, n: nat, u: State)
    requires Counted(s, 1) && t < |s.threads| && s.threads[t].Outside? && n <= |s.shared.queue|
    requires u == s.(shared := s.shared.(queue := s.shared.queue[..|s.shared.queue| - n]),
                     threads := s.threads[t := Working(TakenFrom(s.shared.queue, n), s.shared.allOk)])
    ensures Counted(u, 0)
  {
    var batch := TakenFrom(s.shared.queue, n);
    ReplaceFree(s.threads, t, u.threads[t], u.threads);
    TakeConserves(s, t, n, u, batch);
  }

  lemma TakeConserves(s: State, t: nat, n: nat, u: State, batch: seq<Check>)
    requires n <= |s.shared.queue| && batch == TakenFrom(s.shared.queue, n)
    requires u.shared.queue == s.shared.queue[..|s.shared.queue| - n] && u.added == s.added && u.finished == s.finished
    requires multiset(s.added) == multiset(s.shared.queue) + InFlight(s.threads) + s.finished
    requires InFlight(u.threads) == InFlight(s.threads) + multiset(batch)
    ensures multiset(u.added) == multiset(u.shared.queue) + InFlight(u.threads) + u.finished
  {
    TakenChecks(s.shared.queue, n);
    Moved(multiset(s.added), multiset(s.shared.queue), multiset(u.shared.queue), multiset(batch), InFlight(s.threads),
          s.finished);
  }

  /** Checks that move from the queue to a batch are still all there. */
  lemma Moved(all: multiset<Check>, q: multiset<Check>, r: multiset<Check>, b: multiset<Check>, f: multiset<Check>,
              d: multiset<Check>)
    requires all == q + f + d && r + b == q
    ensures all == r + (f + b) + d
  {
    assert r + (f + b) == (r + b) + f;
  }

  lemma Joins(all: multiset<Check>, q: multiset<Check>, b: multiset<Check>, f: multiset<Check>, d: multiset<Check>)
    requires all == q + f + d
    ensures all + b == (q + b) + f + d
  {
    assert (q + f + d) + b == (q + b) + f + d;
  }

  /** The master's own step leaves the workers alone. */
  lemma ActiveKept(s: State, u: State)
    requires WorkersOk(s) && |u.threads| == |s.threads| &&
             (forall t :: 0 < t < |s.threads| ==> u.threads[t] == s.threads[t])
    requires u.shared.queue != [] ==> s.shared.queue != []
    ensures WorkersOk(u)
  {
    if u.shared.queue != [] {
      if t :| 0 < t < |s.threads| && Active(s.threads[t]) {
        assert Active(u.threads[t]);
      }
    }
  }

  lemma SettleSleeps(s: State, t: nat)
    requires Locked(s, t) && s.shared.queue == [] && !(t == 0 && s.shared.nTodo == 0)
    ensures s.shared.nTotal + s.shared.nIdle + 1 > 0 && Inv(Settle(s, t))
  {
    ReplaceFree(s.threads, t, Waiting(false), s.threads[t := Waiting(false)]);
  }

  lemma SettleReturns(s: State)
    requires Locked(s, 0) && s.shared.queue == [] && s.shared.nTodo == 0
    ensures s.shared.nTotal + s.shared.nIdle + 1 > 0 && Inv(Settle(s, 0))
  {
    var u := Settle(s, 0);
    assert u.threads == s.threads;
    assert InFlight(s.threads) == multiset{};
    assert multiset(s.added) == s.finished;
    PassedIff(s.added);
    assert multiset(u.added) == multiset{};
    NobodyWorks(s);
  }

  /** Threads without anything in flight hold no batch. */
  lemma NobodyWorks(s: State)
    requires BatchesOk(s) && InFlight(s.threads) == multiset{}
    ensures forall t :: 0 <= t < |s.threads| ==> !s.threads[t].Working?
  {
    forall t | 0 <= t < |s.threads| ensures !s.threads[t].Working? {
      SomeInFlight(s.threads, t);
      assert |multiset(BatchOf(s.threads[t]))| == |BatchOf(s.threads[t])|;
    }
  }

  lemma SettleKeeps(s: State, t: nat)
    requires Locked(s, t)
    ensures s.shared.nTotal + s.shared.nIdle + 1 > 0 && Inv(Settle(s, t))
  {
    if s.shared.queue != [] {
      SettleTakes(s, t);
    } else if t == 0 && s.shared.nTodo == 0 {
      SettleReturns(s);
    } else {
      SettleSleeps(s, t);
    }
  }

  lemma EnterLocks(s: State, t: nat)
    requires Inv(s) && Enabled(s.threads, Enter(t))
    ensures Locked(Before(s, Enter(t)), t)
  {
  }

  lemma WakeLocks(s: State, t: nat)
    requires Inv(s) && Enabled(s.threads, Wake(t))
    ensures Locked(Before(s, Wake(t)), t)
  {
    var u := Before(s, Wake(t));
    WakeCounted(s, t, u);
    WakeThreads(s, t, u);
    if t == 0 { ActiveKept(s, u); }
  }

  lemma WakeCounted(s: State, t: nat, u: State)
    requires Counted(s, 0) && t < |s.threads| && s.threads[t].Waiting? && u == Before(s, Wake(t))
    ensures Counted(u, 1)
  {
    ReplaceFree(s.threads, t, Outside, u.threads);
  }

  lemma WakeThreads(s: State, t: nat, u: State)
    requires BatchesOk(s) && MasterOk(s) && t < |s.threads| && s.threads[t].Waiting? && u == Before(s, Wake(t))
    ensures BatchesOk(u) && MasterOk(u)
  {
  }

  lemma FinishLocks(s: State, t: nat)
    requires Inv(s) && Enabled(s.threads, Finish(t))
    ensures Locked(Before(s, Finish(t)), t) && s.shared.nTodo >= |s.threads[t].batch|
  {
    var u := Before(s, Finish(t));
    FinishCounted(s, t, u);
    FinishThreads(s, t, u);
    if t == 0 { ActiveKept(s, u); }
  }

  lemma FinishCounted(s: State, t: nat, u: State)
    requires Counted(s, 0) && BatchesOk(s) && t < |s.threads| && s.threads[t].Working? && u == Before(s, Finish(t))
    ensures Counted(u, 1) && s.shared.nTodo >= |s.threads[t].batch|
  {
    var free := s.threads[t := Outside];
    ReplaceBusy(s.threads, t, free);
    assert SameButNotified(free, u.threads);
    NotifiedCounts(free, u.threads);
    FinishCounts(s, t, free, u);
  }

  lemma FinishThreads(s: State, t: nat, u: State)
    requires BatchesOk(s) && MasterOk(s) && t < |s.threads| && s.threads[t].Working? && u == Before(s, Finish(t))
    requires u.shared.nTodo >= 0
    ensures BatchesOk(u) && MasterOk(u)
  {
  }

  lemma FinishCounts(s: State, t: nat, free: seq<Thread>, u: State)
    requires Counted(s, 0) && BatchesOk(s) && t < |s.threads| && s.threads[t].Working? && u == Before(s, Finish(t))
    requires InLoop(u.threads) + 1 == InLoop(s.threads) && Idle(u.threads) == Idle(s.threads)
    requires InFlight(u.threads) + multiset(s.threads[t].batch) == InFlight(s.threads)
    requires |InFlight(u.threads)| + |s.threads[t].batch| == |InFlight(s.threads)|
    ensures Counted(u, 1)
  {
    var w := s.threads[t];
    PassedIff(w.batch);
    forall c ensures c in u.finished <==> c in s.finished || c in multiset(w.batch) {}
    assert AllPassed(u.finished) <==> AllPassed(s.finished) && AllPassed(multiset(w.batch));
  }

  lemma AddKeeps(s: State, checks: seq<Check>, chosen: nat)
    requires Inv(s) && Enabled(s.threads, Add(checks, chosen))
    ensures Inv(AddAll(s, checks, chosen))
  {
    var u := AddAll(s, checks, chosen);
    assert SameButNotified(s.threads, u.threads);
    NotifiedCounts(s.threads, u.threads);
    assert multiset(u.added) == multiset(u.shared.queue) + InFlight(u.threads) + u.finished by {
      Joins(multiset(s.added), multiset(s.shared.queue), multiset(checks), InFlight(s.threads), s.finished);
    }
    AddWorkers(s, checks, chosen);
  }

  lemma AddWorkers(s: State, checks: seq<Check>, chosen: nat)
    requires WorkersOk(s) && Enabled(s.threads, Add(checks, chosen))
    ensures WorkersOk(AddAll(s, checks, chosen))
  {
    var u := AddAll(s, checks, chosen);
    if checks == [] {
      assert s.shared.queue + checks == s.shared.queue;
    } else if exists t :: 0 < t < |s.threads| && Active(s.threads[t]) {
      var t :| 0 < t < |s.threads| && Active(s.threads[t]);
      assert Active(u.threads[t]);
    } else if exists t :: Asleep(s.threads, t) {
      var t :| Asleep(s.threads, t);
      assert Active(u.threads[if |checks| == 1 then chosen else t]);
    } else {
      forall t | 0 < t < |u.threads| ensures !u.threads[t].Waiting? {
        assert !Active(s.threads[t]) && !Asleep(s.threads, t);
      }
    }
  }

  /** One step of the machine. */
  ghost function Next(s: State, e: Event): State
    requires Inv(s) && Enabled(s.threads, e)
  {
    if e.Add? then AddAll(s, e.checks, e.chosen) else
      StepLocks(s, e);
      SettleKeeps(Before(s, e), e.t);
      Settle(Before(s, e), e.t)
  }

  lemma StepLocks(s: State, e: Event)
    requires Inv(s) && Enabled(s.threads, e) && !e.Add?
    ensures Locked(Before(s, e), e.t)
  {
    match e
    case Enter(t) => EnterLocks(s, t);
    case Wake(t) => WakeLocks(s, t);
    case Finish(t) => FinishLocks(s, t);
  }

  lemma StepKeeps(s: State, e: Event)
    requires Inv(s) && Enabled(s.threads, e)
    ensures Inv(Next(s, e))
  {
    if e.Add? {
      AddKeeps(s, e.checks, e.chosen);
    } else {
      StepLocks(s, e);
      SettleKeeps(Before(s, e), e.t);
    }
  }

  // ----- what the invariant says -----

  /** The counters say where all checks and threads are. */
  lemma CountersExact(s: State)
    requires Inv(s)
    ensures s.shared.nTodo == |s.shared.queue| + |InFlight(s.threads)|
    ensures s.shared.nTotal - s.shared.nIdle == Busy(s.threads)
  {
    BusyCount(s.threads);
  }

  predicate IsIdle(s: Shared) {
    s.nTotal == s.nIdle && s.nTodo == 0 && s.allOk
  }

  /** With nothing added since the last `Wait`, the queue is idle: a new controller may be made. */
  lemma IdleBetweenRounds(s: State)
    requires Inv(s) && s.added == []
    ensures IsIdle(s.shared)
  {
    BusyCount(s.threads);
    assert multiset(s.added) == multiset{};
    assert |multiset(s.added)| == |multiset(s.shared.queue)| + |InFlight(s.threads)| + |s.finished|;
    assert InFlight(s.threads) == multiset{} && s.finished == multiset{};
    NobodyWorks(s);
    NotBusy(s.threads);
  }

  /** A master blocked without a notification waits for a check some worker is running. */
  lemma MasterNotStuck(s: State)
    requires Inv(s) && s.threads[0] == Waiting(false)
    ensures s.shared.nTodo > 0
    ensures exists t :: 0 < t < |s.threads| && s.threads[t].Working?
  {
    if forall t :: 0 < t < |s.threads| ==> !s.threads[t].Working? {
      NoneBusy(s.threads);
    }
  }

  // ----- runs -----

  function Initial(workers: nat, batchSize: nat): State {
    State(Shared([], 0, 0, true, 0, batchSize), seq(workers + 1, _ => Outside), [], multiset{}, [])
  }

  lemma {:induction false} NoThreads(ts: seq<Thread>)
    requires forall t :: 0 <= t < |ts| ==> ts[t].Outside?
    ensures InLoop(ts) == 0 && Idle(ts) == 0 && InFlight(ts) == multiset{}
  {
    if ts != [] { NoThreads(ts[..|ts| - 1]); }
  }

  lemma InitialOk(workers: nat, batchSize: nat)
    ensures Inv(Initial(workers, batchSize))
  {
    NoThreads(Initial(workers, batchSize).threads);
  }

  /** The division in the batch size is defined. */
  predicate Divides(s: Shared) { s.nTotal + s.nIdle + 1 > 0 }

  /** What the code does on an event, wherever it is defined. */
  ghost predicate Steps(s: State, e: Event, u: State) {
    Enabled(s.threads, e) &&
    if e.Add? then u == AddAll(s, e.checks, e.chosen)
    else Divides(Before(s, e).shared) ==> u == Settle(Before(s, e), e.t)
  }

  /** A run of the machine: from each state to the next by an event enabled there. */
  ghost predicate IsRun(states: seq<State>, es: seq<Event>) {
    |states| == |es| + 1 && forall k {:trigger es[k]} :: 0 <= k < |es| ==> Steps(states[k], es[k], states[k + 1])
  }

  /** Every state of every run satisfies the invariant: counters exact, verdicts right, master never stuck. */
  lemma {:induction false} RunSafe(workers: nat, batchSize: nat, states: seq<State>, es: seq<Event>, k: nat)
    requires IsRun(states, es) && states[0] == Initial(workers, batchSize) && k < |states|
    ensures Inv(states[k]) && (states[k].added == [] ==> IsIdle(states[k].shared))
  {
    if k == 0 {
      InitialOk(workers, batchSize);
    } else {
      RunSafe(workers, batchSize, states, es, k - 1);
      assert Steps(states[k - 1], es[k - 1], states[k]);
      StepKeeps(states[k - 1], es[k - 1]);
      NextIsStep(states[k - 1], es[k - 1], states[k]);
    }
    if states[k].added == [] { IdleBetweenRounds(states[k]); }
  }

  lemma NextIsStep(s: State, e: Event, u: State)
    requires Inv(s) && Steps(s, e, u)
    ensures u == Next(s, e)
  {
    if !e.Add? {
      StepLocks(s, e);
      SettleKeeps(Before(s, e), e.t);
    }
  }

  /** From s to u, the master's `Wait` returned `done`, or nothing returned. */
  ghost predicate Reported(s: State, u: State, done: seq<bool>) {
    if done == [] then u.rounds == s.rounds && u.added == s.added
    else u.rounds == s.rounds + [(s.added, done[0])] && u.added == []
  }

  /** One event other than `Add` on a real queue; `done` holds the result when the master's `Wait` returns. */
  method Perform(q: Queue, ts: seq<Thread>, e: Event, ghost s: State) returns (us: seq<Thread>, done: seq<bool>)
    requires Inv(s) && Enabled(s.threads, e) && !e.Add? && q.Abs() == s.shared && ts == s.threads
    modifies q
    ensures q.Abs() == Next(s, e).shared && us == Next(s, e).threads && Reported(s, Next(s, e), done)
  {
    ghost var b := Before(s, e);
    assert b.shared.nTotal + b.shared.nIdle + 1 > 0 by {
      StepLocks(s, e);
      SettleKeeps(b, e.t);
    }
    us := Begin(q, ts, e, s);
    us, done := GoOn(q, us, e.t, b);
    assert b.rounds == s.rounds && b.added == s.added;
  }

  /** The rest of a critical section. */
  method GoOn(q: Queue, ts: seq<Thread>, t: nat, ghost b: State) returns (us: seq<Thread>, done: seq<bool>)
    requires q.Abs() == b.shared && ts == b.threads && t < |ts| && b.shared.nTotal + b.shared.nIdle + 1 > 0
    modifies q
    ensures q.Abs() == Settle(b, t).shared && us == Settle(b, t).threads && Reported(b, Settle(b, t), done)
  {
    done := [];
    var o := q.Next(t == 0);
    match o {
      case Return(r) => us, done := ts[t := Outside], [r];
      case Sleep => us := ts[t := Waiting(false)];
      case Took(batch, ok) => us := ts[t := Working(batch, ok)];
    }
  }

  method PerformAdd(q: Queue, ts: seq<Thread>, checks: seq<Check>, chosen: nat, ghost s: State)
    returns (us: seq<Thread>)
    requires q.Abs() == s.shared && ts == s.threads
    modifies q
    ensures q.Abs() == AddAll(s, checks, chosen).shared && us == AddAll(s, checks, chosen).threads
  {
    q.Add(checks);
    us := if |checks| == 1 then NotifyOne(ts, chosen) else if |checks| > 1 then NotifyAll(ts) else ts;
  }

  /** What a thread does with the lock before it looks at the queue. */
  method Begin(q: Queue, ts: seq<Thread>, e: Event, ghost s: State) returns (us: seq<Thread>)
    requires !e.Add? && Enabled(s.threads, e) && q.Abs() == s.shared && ts == s.threads
    modifies q
    ensures q.Abs() == Before(s, e).shared && us == Before(s, e).threads
  {
    match e {
      case Enter(t) =>
        q.Enter();
        us := ts;
      case Wake(t) =>
        q.Awake();
        us := ts[t := Outside];
      case Finish(t) =>
        var ok := Execute(ts[t].batch, ts[t].ok);
        var notify := q.Complete(|ts[t].batch|, ok, t == 0);
        us := ts[t := Outside];
        if notify {
          us := NotifyMaster(us);
        }
    }
  }

  /** `Inv`, kept folded. */
  ghost predicate Sound(s: State) {
    forall z {:trigger Inside(z)} :: Inside(z) ==> Inv(s)
  }

  lemma OpenSound(s: State)
    requires Sound(s)
    ensures Inv(s)
  {
    assert Inside(0);
  }

  /** An event of a schedule; one that is not possible when its turn comes is left out. */
  ghost function Play(s: State, e: Event): (u: State)
    requires Sound(s)
    ensures Sound(u)
  {
    if Enabled(s.threads, e) then
      OpenSound(s);
      StepKeeps(s, e);
      Next(s, e)
    else s
  }

  /** The run a schedule stands for. */
  ghost function Run(workers: nat, batchSize: nat, es: seq<Event>, n: nat): (s: State)
    requires n <= |es|
    ensures Sound(s)
  {
    if n == 0 then
      InitialOk(workers, batchSize);
      Initial(workers, batchSize)
    else
      Play(Run(workers, batchSize, es, n - 1), es[n - 1])
  }

  /** What `Add` accepts of an event. */
  ghost function AcceptedNow(s: State, e: Event): seq<Check> {
    if e.Add? && Enabled(s.threads, e) then e.checks else []
  }

  /** The checks accepted by `Add` over a schedule, in order. */
  ghost function Accepted(workers: nat, batchSize: nat, es: seq<Event>, n: nat): seq<Check>
    requires n <= |es|
  {
    if n == 0 then [] else
      Accepted(workers, batchSize, es, n - 1) + AcceptedNow(Run(workers, batchSize, es, n - 1), es[n - 1])
  }

  function ChecksOf(rounds: seq<(seq<Check>, bool)>): seq<Check> {
    if rounds == [] then [] else ChecksOf(rounds[..|rounds| - 1]) + rounds[|rounds| - 1].0
  }

  /** The rounds, and what was added since the last, are what was added, nothing missing and in order. */
  lemma {:induction false} RoundsCover(workers: nat, batchSize: nat, es: seq<Event>, n: nat)
    requires n <= |es|
    ensures var s := Run(workers, batchSize, es, n);
            ChecksOf(s.rounds) + s.added == Accepted(workers, batchSize, es, n)
  {
    if n > 0 {
      RoundsCover(workers, batchSize, es, n - 1);
      PlayCovers(Run(workers, batchSize, es, n - 1), es[n - 1]);
    }
  }

  lemma PlayCovers(s: State, e: Event)
    requires Sound(s)
    ensures var u := Play(s, e);
            ChecksOf(u.rounds) + u.added == ChecksOf(s.rounds) + s.added + AcceptedNow(s, e)
  {
    if Enabled(s.threads, e) {
      OpenSound(s);
      if e.Add? {
        assert ChecksOf(s.rounds) + (s.added + e.checks) == (ChecksOf(s.rounds) + s.added) + e.checks;
      } else {
        var b := Before(s, e);
        assert Divides(b.shared) by {
          StepLocks(s, e);
          SettleKeeps(b, e.t);
        }
        SettleCovers(b, e.t);
        assert ChecksOf(s.rounds) + s.added + [] == ChecksOf(s.rounds) + s.added;
      }
    } else {
      assert ChecksOf(s.rounds) + s.added + [] == ChecksOf(s.rounds) + s.added;
    }
  }

  lemma SettleCovers(b: State, t: nat)
    requires t < |b.threads| && Divides(b.shared)
    ensures ChecksOf(Settle(b, t).rounds) + Settle(b, t).added == ChecksOf(b.rounds) + b.added
  {
    var u := Settle(b, t);
    if u.rounds != b.rounds {
      assert u.rounds[..|u.rounds| - 1] == b.rounds && u.rounds[|u.rounds| - 1].0 == b.added;
      assert ChecksOf(u.rounds) + [] == ChecksOf(b.rounds) + b.added;
    }
  }

  /** A real queue, the threads and the record of what happened are in a state of the machine. */
  ghost predicate Mirrored(s: State, q: Shared, ts: seq<Thread>, added: seq<Check>, rounds: seq<(seq<Check>, bool)>) {
    q == s.shared && ts == s.threads && added == s.added && rounds == s.rounds
  }

  /** Any schedule on a real queue: the rounds are those of its run, each `Wait` returns exactly
      whether all checks added for it pass, and the queue is idle after each. */
  method RunSchedule(workers: nat, batchSize: nat, es: seq<Event>)
    returns (rounds: seq<(seq<Check>, bool)>, idle: seq<bool>)
    ensures rounds == Run(workers, batchSize, es, |es|).rounds
    ensures forall i :: 0 <= i < |rounds| ==> (rounds[i].1 <==> AllPass(rounds[i].0))
    ensures |idle| == |rounds| && forall i :: 0 <= i < |idle| ==> idle[i]
  {
    var q := new Queue(batchSize);
    var ts: seq<Thread> := seq(workers + 1, _ => Outside);
    var added: seq<Check> := [];
    rounds, idle := [], [];
    for k := 0 to |es|
      invariant fresh(q) && Mirrored(Run(workers, batchSize, es, k), q.Abs(), ts, added, rounds)
      invariant |idle| == |rounds| && forall i :: 0 <= i < |idle| ==> idle[i]
    {
      var ended;
      ts, added, rounds, ended := Advance(q, ts, added, rounds, es[k], Run(workers, batchSize, es, k));
      idle := idle + ended;
    }
    OpenSound(Run(workers, batchSize, es, |es|));
  }

  /** One event of a schedule on a real queue; when a `Wait` returns, whether the queue is idle then. */
  method Advance(q: Queue, ts: seq<Thread>, added: seq<Check>, rounds: seq<(seq<Check>, bool)>, e: Event,
                 ghost s: State)
    returns (us: seq<Thread>, more: seq<Check>, past: seq<(seq<Check>, bool)>, idle: seq<bool>)
    requires Sound(s) && Mirrored(s, q.Abs(), ts, added, rounds)
    modifies q
    ensures Mirrored(Play(s, e), q.Abs(), us, more, past)
    ensures |past| == |rounds| + |idle| && forall i :: 0 <= i < |idle| ==> idle[i]
  {
    us, more, past, idle := ts, added, rounds, [];
    if Enabled(ts, e) {
      if e.Add? {
        us := PerformAdd(q, ts, e.checks, e.chosen, s);
        more := added + e.checks;
      } else {
        var done;
        OpenSound(s);
        us, done := Perform(q, ts, e, s);
        if done != [] {
          past, more := rounds + [(added, done[0])], [];
          OpenSound(Play(s, e));
          IdleBetweenRounds(Play(s, e));
          var b := q.IsIdle();
          idle := [b];
        }
      }
    }
  }

  // ----- progress -----

  function Notified(ts: seq<Thread>): nat {
    if ts == [] then 0 else Notified(ts[..|ts| - 1]) + if ts[|ts| - 1] == Waiting(true) then 1 else 0
  }

  /** What is left to do before a waiting master is bound to return. */
  function Weight(s: State): nat {
    4 * |s.shared.queue| + 2 * Busy(s.threads) + Notified(s.threads)
  }

  /** An event that runs a thread with a batch or a notified one. */
  predicate Productive(ts: seq<Thread>, e: Event) {
    Enabled(ts, e) && (e.Finish? || (e.Wake? && ts[e.t] == Waiting(true)))
  }

  lemma {:induction false} ReplaceWeights(ts: seq<Thread>, t: nat, x: Thread)
    requires t < |ts|
    ensures var us := ts[t := x];
            Busy(us) + (if ts[t].Working? then 1 else 0) == Busy(ts) + (if x.Working? then 1 else 0) &&
            Notified(us) + (if ts[t] == Waiting(true) then 1 else 0) ==
            Notified(ts) + (if x == Waiting(true) then 1 else 0)
  {
    var us := ts[t := x];
    var n := |ts| - 1;
    if t == n {
      assert us[..n] == ts[..n];
    } else {
      ReplaceWeights(ts[..n], t, x);
      assert us[..n] == ts[..n][t := x] && us[n] == ts[n];
    }
  }

  /** Settling never adds weight to a thread that holds none. */
  lemma SettleWeight(s: State, t: nat)
    requires t < |s.threads| && s.threads[t].Outside? && Divides(s.shared)
    ensures Weight(Settle(s, t)) <= Weight(s)
  {
    var u := Settle(s, t);
    ReplaceWeights(s.threads, t, u.threads[t]);
    if s.shared.queue != [] { BatchFits(s.shared); }
    assert u.threads == s.threads[t := u.threads[t]];
  }

  lemma BeforeWeight(s: State, e: Event)
    requires Inv(s) && Enabled(s.threads, e) && !e.Add?
    ensures Weight(Before(s, e)) <= Weight(s) && (Productive(s.threads, e) ==> Weight(Before(s, e)) < Weight(s))
  {
    ReplaceWeights(s.threads, e.t, Outside);
    var free := s.threads[e.t := Outside];
    if e.Finish? && free[0].Waiting? {
      ReplaceWeights(free, 0, Waiting(true));
    }
  }

  /** No event of a thread adds weight, and productive ones take some away. */
  lemma WeightDrops(s: State, e: Event)
    requires Inv(s) && Enabled(s.threads, e) && !e.Add?
    ensures Weight(Next(s, e)) <= Weight(s) && (Productive(s.threads, e) ==> Weight(Next(s, e)) < Weight(s))
  {
    StepLocks(s, e);
    SettleKeeps(Before(s, e), e.t);
    BeforeWeight(s, e);
    SettleWeight(Before(s, e), e.t);
  }

  /** While the master is in `Wait`, some thread with a batch or a notification can go on. */
  lemma AlwaysProductive(s: State) returns (e: Event)
    requires Inv(s) && InWait(s)
    ensures Productive(s.threads, e)
  {
    if s.threads[0].Working? {
      e := Finish(0);
    } else if s.threads[0].notified {
      e := Wake(0);
    } else {
      MasterNotStuck(s);
      var t: nat :| 0 < t < |s.threads| && s.threads[t].Working?;
      e := Finish(t);
    }
  }

  /** The master is in `Wait`. */
  predicate InWait(s: State) { |s.threads| > 0 && !s.threads[0].Outside? }

  ghost function ProductiveCount(states: seq<State>, es: seq<Event>, k: nat): nat
    requires k <= |es| && k <= |states|
  {
    if k == 0 then 0 else
      ProductiveCount(states, es, k - 1) + if Productive(states[k - 1].threads, es[k - 1]) then 1 else 0
  }

  /** However the threads interleave, a `Wait` lasts for no more productive events than the weight it starts
      with: it returns under every schedule that keeps running working and notified threads. */
  lemma {:induction false} WaitBounded(states: seq<State>, es: seq<Event>, k: nat)
    requires IsRun(states, es) && k <= |es| && Inv(states[0])
    requires forall i :: 0 <= i < k ==> InWait(states[i])
    ensures Inv(states[k]) && Weight(states[k]) + ProductiveCount(states, es, k) <= Weight(states[0])
  {
    if k > 0 {
      WaitBounded(states, es, k - 1);
      var s, e := states[k - 1], es[k - 1];
      assert Steps(s, e, states[k]);
      StepKeeps(s, e);
      NextIsStep(s, e, states[k]);
      WeightDrops(s, e);
    }
  }

  lemma {:induction false} BusyHolds(ts: seq<Thread>)
    requires forall t :: 0 <= t < |ts| && ts[t].Working? ==> ts[t].batch != []
    ensures Busy(ts) <= |InFlight(ts)| && Notified(ts) <= |ts|
  {
    if ts != [] { BusyHolds(ts[..|ts| - 1]); }
  }

  /** The weight is bounded by the checks not yet completed and the number of threads. */
  lemma WeightBound(s: State)
    requires Inv(s)
    ensures Weight(s) <= 4 * s.shared.nTodo + |s.threads|
  {
    BusyHolds(s.threads);
  }

  ghost function Finishes(es: seq<Event>, k: nat): nat
    requires k <= |es|
  {
    if k == 0 then 0 else Finishes(es, k - 1) + if es[k - 1].Finish? then 1 else 0
  }

  lemma FinishedGrows(s: State, e: Event)
    requires Inv(s) && Enabled(s.threads, e) && Next(s, e).rounds == s.rounds
    ensures |Next(s, e).finished| >= |s.finished| + if e.Finish? then 1 else 0
  {
    if !e.Add? {
      StepLocks(s, e);
      SettleKeeps(Before(s, e), e.t);
      if e.Finish? {
        assert |s.finished + multiset(s.threads[e.t].batch)| == |s.finished| + |s.threads[e.t].batch|;
      }
    }
  }

  /** A round runs at most as many batches as checks were added for it. */
  lemma {:induction false} BatchesBounded(states: seq<State>, es: seq<Event>, k: nat)
    requires IsRun(states, es) && k <= |es| && Inv(states[0])
    requires forall i :: 0 <= i <= k ==> states[i].rounds == states[0].rounds
    ensures Inv(states[k]) && Finishes(es, k) + |states[0].finished| <= |states[k].finished| <= |states[k].added|
  {
    if k > 0 {
      BatchesBounded(states, es, k - 1);
      var s, e := states[k - 1], es[k - 1];
      assert Steps(s, e, states[k]);
      StepKeeps(s, e);
      NextIsStep(s, e, states[k]);
      FinishedGrows(s, e);
    }
    FinishedWithin(states[k]);
  }

  lemma FinishedWithin(s: State)
    requires Inv(s)
    ensures |s.finished| <= |s.added|
  {
    assert |multiset(s.added)| == |s.added|;
    assert |multiset(s.shared.queue) + InFlight(s.threads) + s.finished| ==
           |multiset(s.shared.queue)| + |InFlight(s.threads)| + |s.finished|;
  }
}
