/**
 The guarantees of the retry scheduler (util/queue.go) over every run of a fresh queue.
 */
module RetryQueueRuns {
  import opened RetryQueue
  import opened RetryQueueLimits
  import opened RetryQueueOrder

  lemma FreshQueue(cfg: Config, now: int)
    ensures Conserved(Init(now)) && Counted(cfg, Init(now)) && InOrder(Init(now)) && Timely(cfg, Init(now))
  {
    var s := Init(now);
    assert Groups(s.running) == [] && Tasks(s.running) == [];
    assert forall g :: CountedIn(cfg, s, g);
  }

  /** Whatever the producers, goroutines and handlers do, in whatever order, all four invariants hold. */
  lemma EveryRun(cfg: Config, now: int, ls: seq<Label>)
    requires CanRun(cfg, Init(now), ls)
    ensures var s := End(cfg, Init(now), ls); Conserved(s) && Counted(cfg, s) && InOrder(s) && Timely(cfg, s)
  {
    FreshQueue(cfg, now);
    RunConserves(cfg, Init(now), ls);
    RunWithinLimits(cfg, Init(now), ls, 1);
    RunIsFifo(cfg, Init(now), ls);
    RunIsTimely(cfg, Init(now), ls);
  }

  lemma IdleIsDone(s: State, u: nat)
    requires Conserved(s) && !Busy(s) && u < |s.accepted|
    ensures Ended(s, u) == 1
  {
    assert Tasks(s.running) == [];
    assert Places(s, u) == 1;
  }

  /** A scheduler that cannot move, and is not starved of workers, has brought every accepted task to exactly one end. */
  lemma StuckMeansDone(cfg: Config, now: int, ls: seq<Label>, u: nat)
    requires cfg.Valid() && CanRun(cfg, Init(now), ls)
    requires AllDue(End(cfg, Init(now), ls)) && !Starved(cfg, End(cfg, Init(now), ls))
    requires forall l | Progress(l) :: !Enabled(cfg, End(cfg, Init(now), ls), l)
    requires u < |End(cfg, Init(now), ls).accepted|
    ensures Ended(End(cfg, Init(now), ls), u) == 1
  {
    var s := End(cfg, Init(now), ls);
    EveryRun(cfg, now, ls);
    if Busy(s) {
      DeadlockFreeIff(cfg, s);
    }
    IdleIsDone(s, u);
  }

  /** The handler of an accepted task is invoked at most its retry limit plus one times. */
  lemma AttemptsBounded(cfg: Config, now: int, ls: seq<Label>, u: nat)
    requires CanRun(cfg, Init(now), ls)
    requires u < |End(cfg, Init(now), ls).accepted|
    ensures |End(cfg, Init(now), ls).limits| == |End(cfg, Init(now), ls).accepted|
    ensures Attempts(End(cfg, Init(now), ls).starts, u) <= End(cfg, Init(now), ls).limits[u] + 1
  {
    EveryRun(cfg, now, ls);
  }

  // ---------- Termination ----------

  /** Step n of an endless behaviour. */
  predicate Steps(cfg: Config, st: nat -> State, lb: nat -> Label, n: nat) {
    Enabled(cfg, st(n), lb(n)) && st(n + 1) == Apply(cfg, st(n), lb(n))
  }

  ghost predicate Behaviour(cfg: Config, now: int, st: nat -> State, lb: nat -> Label) {
    st(0) == Init(now) && forall n: nat :: Steps(cfg, st, lb, n)
  }

  ghost predicate CanMove(cfg: Config, s: State) {
    exists l :: !External(l) && Enabled(cfg, s, l)
  }

  predicate OwnStep(lb: nat -> Label, n: nat) {
    !External(lb(n))
  }

  /** When the scheduler can move, it does so sooner or later. */
  ghost predicate Fair(cfg: Config, st: nat -> State, lb: nat -> Label) {
    forall n: nat | CanMove(cfg, st(n)) :: exists m: nat :: n <= m && OwnStep(lb, m)
  }

  /** No new task, no rotation and no starvation at step n. */
  predicate Quiet(cfg: Config, st: nat -> State, lb: nat -> Label, n: nat) {
    !lb(n).Enqueue? && !lb(n).FindEarly? && !Starved(cfg, st(n))
  }

  ghost predicate Settled(cfg: Config, st: nat -> State, lb: nat -> Label, n: nat) {
    forall m: nat | n <= m :: Quiet(cfg, st, lb, m)
  }

  lemma {:induction false} StateIsGood(cfg: Config, now: int, st: nat -> State, lb: nat -> Label, n: nat)
    requires Behaviour(cfg, now, st, lb)
    ensures Conserved(st(n)) && Counted(cfg, st(n))
  {
    if n == 0 {
      FreshQueue(cfg, now);
    } else {
      StateIsGood(cfg, now, st, lb, n - 1);
      assert Steps(cfg, st, lb, n - 1);
      StepConserves(cfg, st(n - 1), lb(n - 1));
      StepCounts(cfg, st(n - 1), lb(n - 1));
    }
  }

  lemma WorkStep(cfg: Config, now: int, st: nat -> State, lb: nat -> Label, n: nat, m: nat)
    requires Behaviour(cfg, now, st, lb) && Settled(cfg, st, lb, n) && n <= m
    ensures Work(cfg, st(m + 1)) <= Work(cfg, st(m))
    ensures OwnStep(lb, m) ==> Work(cfg, st(m + 1)) < Work(cfg, st(m))
  {
    assert Steps(cfg, st, lb, m) && Quiet(cfg, st, lb, m);
    StepLowersWork(cfg, st(m), lb(m));
  }

  lemma {:induction false} NeverRises(w: nat -> nat, n: nat, m: nat)
    requires n <= m && forall k: nat | n <= k :: w(k + 1) <= w(k)
    ensures w(m) <= w(n)
    decreases m - n
  {
    if n < m {
      NeverRises(w, n, m - 1);
      assert w(m - 1 + 1) <= w(m - 1);
    }
  }

  predicate Drops(w: nat -> nat, m: nat) {
    w(m + 1) < w(m)
  }

  /** What never rises, and drops again and again while there is something to do, leaves nothing to do. */
  lemma {:induction false} Descend(w: nat -> nat, busy: nat -> bool, n: nat) returns (m: nat)
    requires forall k: nat | n <= k :: w(k + 1) <= w(k)
    requires forall k: nat | n <= k && busy(k) :: exists j: nat :: k <= j && Drops(w, j)
    ensures n <= m && !busy(m)
    decreases w(n)
  {
    if busy(n) {
      var j: nat :| n <= j && Drops(w, j);
      NeverRises(w, n, j);
      m := Descend(w, busy, j + 1);
    } else {
      m := n;
    }
  }

  /** Work left means that the scheduler can move: on, or to see that a task is early. */
  lemma BusyCanMove(cfg: Config, s: State)
    requires cfg.Valid() && Counted(cfg, s) && Busy(s) && !Starved(cfg, s)
    ensures CanMove(cfg, s)
  {
    if AllDue(s) {
      DeadlockFreeIff(cfg, s);
    } else {
      assert Enabled(cfg, s, FindEarly);
    }
  }

  lemma IdleStep(cfg: Config, s: State, l: Label)
    requires Enabled(cfg, s, l) && !Busy(s) && !l.Enqueue?
    ensures !Busy(Apply(cfg, s, l))
  {
  }

  lemma {:induction false} StaysIdle(cfg: Config, now: int, st: nat -> State, lb: nat -> Label, n: nat, m: nat)
    requires Behaviour(cfg, now, st, lb) && Settled(cfg, st, lb, n) && !Busy(st(n)) && n <= m
    ensures !Busy(st(m))
    decreases m - n
  {
    if n < m {
      StaysIdle(cfg, now, st, lb, n, m - 1);
      assert Steps(cfg, st, lb, m - 1) && Quiet(cfg, st, lb, m - 1);
      IdleStep(cfg, st(m - 1), lb(m - 1));
    }
  }

  /** While there is work, some later step of the scheduler lowers it. */
  lemma MovesLater(cfg: Config, now: int, st: nat -> State, lb: nat -> Label, n: nat, k: nat) returns (m: nat)
    requires cfg.Valid() && Behaviour(cfg, now, st, lb) && Fair(cfg, st, lb) && Settled(cfg, st, lb, n) && n <= k
    requires Busy(st(k))
    ensures k <= m && Work(cfg, st(m + 1)) < Work(cfg, st(m))
  {
    StateIsGood(cfg, now, st, lb, k);
    assert Quiet(cfg, st, lb, k);
    BusyCanMove(cfg, st(k));
    m :| k <= m && OwnStep(lb, m);
    WorkStep(cfg, now, st, lb, n, m);
  }

  lemma EventuallyIdle(cfg: Config, now: int, st: nat -> State, lb: nat -> Label, n: nat) returns (m: nat)
    requires cfg.Valid() && Behaviour(cfg, now, st, lb) && Fair(cfg, st, lb) && Settled(cfg, st, lb, n)
    ensures n <= m && !Busy(st(m))
  {
    var w, busy := (k: nat) => Work(cfg, st(k)), (k: nat) => Busy(st(k));
    forall k: nat | n <= k ensures w(k + 1) <= w(k) {
      WorkStep(cfg, now, st, lb, n, k);
    }
    forall k: nat | n <= k && busy(k) ensures exists j: nat :: k <= j && Drops(w, j) {
      var j := MovesLater(cfg, now, st, lb, n, k);
      assert Drops(w, j);
    }
    m := Descend(w, busy, n);
  }

  /**
   Termination: in a fair behaviour with finitely many new tasks and rotations, and in the end no
   starvation, from some point on every accepted task is at exactly one end, for good.
   */
  lemma EventuallyDone(cfg: Config, now: int, st: nat -> State, lb: nat -> Label, n: nat) returns (m: nat)
    requires cfg.Valid() && Behaviour(cfg, now, st, lb) && Fair(cfg, st, lb) && Settled(cfg, st, lb, n)
    ensures forall k: nat, u: nat | m <= k && u < |st(k).accepted| :: Ended(st(k), u) == 1
  {
    m := EventuallyIdle(cfg, now, st, lb, n);
    forall k: nat, u: nat | m <= k && u < |st(k).accepted| ensures Ended(st(k), u) == 1 {
      StaysIdle(cfg, now, st, lb, m, k);
      StateIsGood(cfg, now, st, lb, k);
      IdleIsDone(st(k), u);
    }
  }
}
