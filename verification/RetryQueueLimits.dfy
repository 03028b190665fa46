/**
 Concurrency limits, deadlock freedom and bounded work of the retry scheduler (util/queue.go).
 */
module RetryQueueLimits {
  import opened RetryQueue

  // ---------- Slots and wait groups ----------

  function Groups(jobs: seq<Job>): seq<int> {
    seq(|jobs|, i requires 0 <= i < |jobs| => jobs[i].group)
  }

  function SubmittingIn(w: Watcher, g: int): nat {
    if w.Submitting? && w.group == g then 1 else 0
  }

  /** Handlers of group g that are executing right now. */
  function Executing(s: State, g: int): nat {
    multiset(Groups(s.running))[g]
  }

  function Unfinished(s: State, g: int): nat {
    Executing(s, g) + multiset(s.leaving)[g] + SubmittingIn(s.watcher, g)
  }

  /** Slots and wait group of g count exactly the jobs that hold them, within the group's capacity. */
  predicate CountedIn(cfg: Config, s: State, g: int) {
    && s.slots[g] == Unfinished(s, g) + multiset(s.releasing)[g]
    && s.waitGroup[g] == Unfinished(s, g)
    && s.slots[g] <= Capacity(cfg, g)
  }

  function Capacity(cfg: Config, g: int): nat {
    if g in cfg.caps then cfg.caps[g] else 0
  }

  ghost predicate Counted(cfg: Config, s: State) {
    && (forall g :: CountedIn(cfg, s, g))
    && InPool(s) <= cfg.poolCap
    && (s.watcher.Acquiring? ==> s.watcher.group == WorkerGroup(cfg, s.watcher.task))
  }

  lemma WithoutCount<T>(s: seq<T>, i: nat, x: T)
    requires i < |s|
    ensures multiset(s)[x] == multiset(Without(s, i))[x] + if s[i] == x then 1 else 0
  {
    assert s == s[..i] + [s[i]] + s[i + 1..];
  }

  /** What a handler leaves of its task holds no slot. */
  lemma AfterHandlerCountsIn(cfg: Config, s: State, t: Task, outcome: Outcome, g: int)
    requires CountedIn(cfg, s, g)
    ensures CountedIn(cfg, AfterHandler(cfg, s, t, outcome), g)
  {
  }

  /** A job whose handler has returned still holds its slot. */
  lemma ReturnedCountsIn(cfg: Config, s: State, j: nat, g: int)
    requires CountedIn(cfg, s, g) && j < |s.running|
    ensures CountedIn(cfg, s.(running := Without(s.running, j), leaving := s.leaving + [s.running[j].group]), g)
  {
    assert Groups(Without(s.running, j)) == Without(Groups(s.running), j);
    WithoutCount(Groups(s.running), j, g);
  }

  lemma FinishCountsIn(cfg: Config, s: State, j: nat, outcome: Outcome, g: int)
    requires CountedIn(cfg, s, g) && j < |s.running|
    ensures CountedIn(cfg, Apply(cfg, s, Finish(j, outcome)), g)
  {
    var job := s.running[j];
    var s1 := s.(running := Without(s.running, j), leaving := s.leaving + [job.group]);
    ReturnedCountsIn(cfg, s, j, g);
    AfterHandlerCountsIn(cfg, s1, job.task, outcome, g);
  }

  lemma SubmitCountsIn(cfg: Config, s: State, g: int)
    requires CountedIn(cfg, s, g) && Enabled(cfg, s, Submit)
    ensures CountedIn(cfg, Apply(cfg, s, Submit), g)
  {
    assert Groups(Apply(cfg, s, Submit).running) == Groups(s.running) + [s.watcher.group];
  }

  lemma LeaveCountsIn(cfg: Config, s: State, l: Label, g: int)
    requires CountedIn(cfg, s, g) && Enabled(cfg, s, l) && (l.Done? || l.Release?)
    ensures CountedIn(cfg, Apply(cfg, s, l), g)
  {
    if l.Done? {
      WithoutCount(s.leaving, l.i, g);
    } else {
      WithoutCount(s.releasing, l.i, g);
    }
  }

  lemma StepCountsIn(cfg: Config, s: State, l: Label, g: int)
    requires CountedIn(cfg, s, g) && Enabled(cfg, s, l)
    ensures CountedIn(cfg, Apply(cfg, s, l), g)
  {
    match l
    case Submit => SubmitCountsIn(cfg, s, g);
    case Finish(j, outcome) => FinishCountsIn(cfg, s, j, outcome, g);
    case Done(_) => LeaveCountsIn(cfg, s, l, g);
    case Release(_) => LeaveCountsIn(cfg, s, l, g);
    case _ =>
  }

  lemma StepWithinPool(cfg: Config, s: State, l: Label)
    requires InPool(s) <= cfg.poolCap && Enabled(cfg, s, l)
    ensures InPool(Apply(cfg, s, l)) <= cfg.poolCap
  {
  }

  lemma StepKeepsAcquiredGroup(cfg: Config, s: State, l: Label)
    requires s.watcher.Acquiring? ==> s.watcher.group == WorkerGroup(cfg, s.watcher.task)
    requires Enabled(cfg, s, l)
    ensures var w := Apply(cfg, s, l).watcher; w.Acquiring? ==> w.group == WorkerGroup(cfg, w.task)
  {
  }

  lemma StepCounts(cfg: Config, s: State, l: Label)
    requires Counted(cfg, s) && Enabled(cfg, s, l)
    ensures Counted(cfg, Apply(cfg, s, l))
  {
    var s' := Apply(cfg, s, l);
    StepWithinPool(cfg, s, l);
    StepKeepsAcquiredGroup(cfg, s, l);
    assert forall g :: CountedIn(cfg, s', g) by {
      forall g ensures CountedIn(cfg, s', g) {
        assert CountedIn(cfg, s, g);
        StepCountsIn(cfg, s, l, g);
      }
    }
  }

  /** In every state of every run a group executes at most its slot count, the fallback group included. */
  lemma {:induction false} RunWithinLimits(cfg: Config, s: State, ls: seq<Label>, g: int)
    requires Counted(cfg, s) && CanRun(cfg, s, ls)
    ensures Counted(cfg, End(cfg, s, ls))
    ensures Executing(End(cfg, s, ls), g) <= Capacity(cfg, g)
    ensures End(cfg, s, ls).waitGroup[g] == Unfinished(End(cfg, s, ls), g)
    decreases |ls|
  {
    if ls == [] {
      assert CountedIn(cfg, s, g);
    } else {
      StepCounts(cfg, s, ls[0]);
      RunWithinLimits(cfg, Apply(cfg, s, ls[0]), ls[1..], g);
    }
  }

  // ---------- Deadlock freedom ----------

  /** Some accepted task has not reached its end yet, or some slot has not been given back. */
  predicate Busy(s: State) {
    || s.queue != [] || !s.dispatcher.Idle? || s.channel != [] || !s.watcher.Waiting?
    || s.running != [] || s.leaving != [] || s.releasing != []
  }

  /** Nothing the dispatcher can look at lies in the future. */
  predicate AllDue(s: State) {
    s.dispatcher.Holding? ==> s.dispatcher.task.runAt <= s.now
  }

  /**
   The scheduler waits for the rest of the process: it has nothing in the pool, the watcher wants
   to submit a job, other users occupy every worker, and the dispatcher has nothing or nowhere to send.
   */
  predicate Starved(cfg: Config, s: State) {
    && s.running == [] && s.leaving == [] && s.releasing == []
    && s.watcher.Submitting? && s.others >= cfg.poolCap
    && ((s.dispatcher.Idle? && s.queue == []) || (s.dispatcher.Due? && |s.channel| >= cfg.channelCap))
  }

  /**
   Deadlock freedom: while there is work, and the clock has passed the time of the task the
   dispatcher looks at, some step of the scheduler makes progress, if and only if
   it is not starved of workers by other users of the pool. Retries never block: they go to the
   unbounded queue, not to the channel.
   */
  lemma DeadlockFreeIff(cfg: Config, s: State)
    requires cfg.Valid() && Counted(cfg, s) && Busy(s) && AllDue(s)
    ensures (exists l :: Progress(l) && Enabled(cfg, s, l)) <==> !Starved(cfg, s)
  {
    if !Starved(cfg, s) {
      var l := NotStarvedMoves(cfg, s);
    }
  }

  lemma NotStarvedMoves(cfg: Config, s: State) returns (l: Label)
    requires cfg.Valid() && Counted(cfg, s) && Busy(s) && AllDue(s) && !Starved(cfg, s)
    ensures Progress(l) && Enabled(cfg, s, l)
  {
    if s.running != [] {
      l := Finish(0, Success);
    } else if s.leaving != [] {
      l := Done(0);
    } else if s.releasing != [] {
      assert CountedIn(cfg, s, s.releasing[0]) && s.releasing[0] in multiset(s.releasing);
      l := Release(0);
    } else {
      l := IdlePoolMoves(cfg, s);
    }
  }

  function DispatcherStep(d: Dispatcher): Label {
    match d
    case Idle => Dequeue
    case Holding(_) => FindDue
    case Early(_) => Rotate
    case Due(_) => Send
  }

  /** With no job of its own in the pool every slot but the one being submitted is free, so the pipeline moves. */
  lemma IdlePoolMoves(cfg: Config, s: State) returns (l: Label)
    requires cfg.Valid() && Counted(cfg, s) && Busy(s) && AllDue(s) && !Starved(cfg, s)
    requires s.running == [] && s.leaving == [] && s.releasing == []
    ensures Progress(l) && Enabled(cfg, s, l)
  {
    match s.watcher
    case Routing(_) => l := Route;
    case Acquiring(t, g) =>
      assert CountedIn(cfg, s, g);
      assert Groups(s.running) == [];
      l := Acquire;
    case Submitting(_, _) => l := if s.others < cfg.poolCap then Submit else DispatcherStep(s.dispatcher);
    case Waiting => l := if s.channel != [] then Receive else DispatcherStep(s.dispatcher);
  }

  // ---------- Bounded work ----------

  function Budget(cfg: Config, t: Task): nat {
    if Limit(cfg, t) > t.retried then Limit(cfg, t) - t.retried else 0
  }

  function Budgets(cfg: Config, ts: seq<Task>): nat {
    if ts == [] then 0 else Budget(cfg, ts[0]) + Budgets(cfg, ts[1..])
  }

  function DispatcherWork(cfg: Config, d: Dispatcher): nat {
    match d
    case Idle => 0
    case Early(t) => 10 * Budget(cfg, t) + 11
    case Holding(t) => 10 * Budget(cfg, t) + 9
    case Due(t) => 10 * Budget(cfg, t) + 8
  }

  function WatcherWork(cfg: Config, w: Watcher): nat {
    match w
    case Waiting => 0
    case Routing(t) => 10 * Budget(cfg, t) + 6
    case Acquiring(t, _) => 10 * Budget(cfg, t) + 5
    case Submitting(t, _) => 10 * Budget(cfg, t) + 4
  }

  /** Remaining retries of every live task, and how far each is from the end of its current attempt. */
  function Work(cfg: Config, s: State): nat {
    10 * Budgets(cfg, s.queue) + 10 * |s.queue|
    + DispatcherWork(cfg, s.dispatcher)
    + 10 * Budgets(cfg, s.channel) + 7 * |s.channel|
    + WatcherWork(cfg, s.watcher)
    + 10 * Budgets(cfg, Tasks(s.running)) + 3 * |s.running| + 2 * |s.leaving| + |s.releasing|
  }

  lemma {:induction false} BudgetsConcat(cfg: Config, a: seq<Task>, b: seq<Task>)
    ensures Budgets(cfg, a + b) == Budgets(cfg, a) + Budgets(cfg, b)
  {
    if a == [] {
      assert a + b == b;
    } else {
      assert (a + b)[1..] == a[1..] + b;
      BudgetsConcat(cfg, a[1..], b);
    }
  }

  lemma BudgetsAppend(cfg: Config, ts: seq<Task>, t: Task)
    ensures Budgets(cfg, ts + [t]) == Budgets(cfg, ts) + Budget(cfg, t)
  {
    BudgetsConcat(cfg, ts, [t]);
  }

  lemma BudgetsWithout(cfg: Config, jobs: seq<Job>, j: nat)
    requires j < |jobs|
    ensures Budgets(cfg, Tasks(jobs)) == Budgets(cfg, Tasks(Without(jobs, j))) + Budget(cfg, jobs[j].task)
  {
    var a, b := Tasks(jobs[..j]), Tasks(jobs[j + 1..]);
    assert Tasks(jobs) == a + ([jobs[j].task] + b);
    assert Tasks(Without(jobs, j)) == a + b;
    BudgetsConcat(cfg, a, [jobs[j].task] + b);
    BudgetsConcat(cfg, [jobs[j].task], b);
    BudgetsConcat(cfg, a, b);
  }

  lemma FinishLowersWork(cfg: Config, s: State, j: nat, outcome: Outcome)
    requires Enabled(cfg, s, Finish(j, outcome))
    ensures Work(cfg, Apply(cfg, s, Finish(j, outcome))) < Work(cfg, s)
  {
    var s' := Apply(cfg, s, Finish(j, outcome));
    var t := s.running[j].task;
    BudgetsWithout(cfg, s.running, j);
    if |s'.queue| > |s.queue| {
      BudgetsAppend(cfg, s.queue, s'.queue[|s.queue|]);
      assert Budget(cfg, s'.queue[|s.queue|]) == Budget(cfg, t) - 1;
    }
  }

  lemma RotateLowersWork(cfg: Config, s: State)
    requires Enabled(cfg, s, Rotate)
    ensures Work(cfg, Apply(cfg, s, Rotate)) == Work(cfg, s) - 1
  {
    var s' := Apply(cfg, s, Rotate);
    BudgetsAppend(cfg, s.queue, s'.queue[|s.queue|]);
    assert Budget(cfg, s'.queue[|s.queue|]) == Budget(cfg, s.dispatcher.task);
  }

  lemma SendLowersWork(cfg: Config, s: State)
    requires Enabled(cfg, s, Send)
    ensures Work(cfg, Apply(cfg, s, Send)) == Work(cfg, s) - 1
  {
    BudgetsAppend(cfg, s.channel, s.dispatcher.task);
  }

  lemma SubmitLowersWork(cfg: Config, s: State)
    requires Enabled(cfg, s, Submit)
    ensures Work(cfg, Apply(cfg, s, Submit)) == Work(cfg, s) - 1
  {
    assert Tasks(Apply(cfg, s, Submit).running) == Tasks(s.running) + [s.watcher.task];
    BudgetsAppend(cfg, Tasks(s.running), s.watcher.task);
  }

  lemma HandOverLowersWork(cfg: Config, s: State, l: Label)
    requires Enabled(cfg, s, l) && (l.Dequeue? || l.Receive?)
    ensures Work(cfg, Apply(cfg, s, l)) < Work(cfg, s)
  {
  }

  /** Every step of the scheduler itself lowers the remaining work; finding a task early raises it by two. */
  lemma StepLowersWork(cfg: Config, s: State, l: Label)
    requires Enabled(cfg, s, l)
    ensures Progress(l) ==> Work(cfg, Apply(cfg, s, l)) < Work(cfg, s)
    ensures l.FindEarly? ==> Work(cfg, Apply(cfg, s, l)) == Work(cfg, s) + 2
    ensures External(l) && !l.Enqueue? ==> Work(cfg, Apply(cfg, s, l)) == Work(cfg, s)
  {
    match l
    case Rotate => RotateLowersWork(cfg, s);
    case Send => SendLowersWork(cfg, s);
    case Submit => SubmitLowersWork(cfg, s);
    case Finish(j, outcome) => FinishLowersWork(cfg, s, j, outcome);
    case Dequeue => HandOverLowersWork(cfg, s, l);
    case Receive => HandOverLowersWork(cfg, s, l);
    case _ =>
  }

  function Count(ls: seq<Label>, p: Label -> bool): nat {
    if ls == [] then 0 else (if p(ls[0]) then 1 else 0) + Count(ls[1..], p)
  }

  function IsProgress(): Label -> bool {
    (l: Label) => Progress(l)
  }

  function IsRotation(): Label -> bool {
    (l: Label) => l.FindEarly?
  }

  /** Without new tasks, the steps a run can take are bounded by the work at its start and its rotations. */
  lemma {:induction false} BoundedWork(cfg: Config, s: State, ls: seq<Label>)
    requires CanRun(cfg, s, ls)
    requires forall l | l in ls :: !l.Enqueue?
    ensures Count(ls, IsProgress()) + Work(cfg, End(cfg, s, ls)) <= Work(cfg, s) + 2 * Count(ls, IsRotation())
    decreases |ls|
  {
    if ls != [] {
      assert ls[0] in ls;
      StepLowersWork(cfg, s, ls[0]);
      BoundedWork(cfg, Apply(cfg, s, ls[0]), ls[1..]);
    }
  }
}
