/**
 Dispatch order, retry budget and timing of the retry scheduler (util/queue.go).
 */
module RetryQueueOrder {
  import opened RetryQueue

  // ---------- FIFO despite rotation ----------

  function DueKey(t: Task): seq<Key> {
    if t.due then [KeyOf(t)] else []
  }

  function DueKeys(ts: seq<Task>): seq<Key> {
    if ts == [] then [] else DueKey(ts[0]) + DueKeys(ts[1..])
  }

  function HeldKey(d: Dispatcher): seq<Key> {
    if d.Idle? then [] else DueKey(d.task)
  }

  /** What was due when enqueued is, in that very order: sent, in the dispatcher's hand, or still queued. */
  ghost predicate InOrder(s: State) {
    && s.dueEnqueued == s.dueSent + HeldKey(s.dispatcher) + DueKeys(s.queue)
    && (forall t | t in s.queue && t.due :: t.runAt <= s.now)
    && (!s.dispatcher.Idle? && s.dispatcher.task.due ==> s.dispatcher.task.runAt <= s.now)
    && (s.dispatcher.Early? ==> !s.dispatcher.task.due)
  }

  lemma DueKeysStep(t: Task, rest: seq<Task>)
    ensures DueKeys([t] + rest) == DueKey(t) + DueKeys(rest)
  {
    assert ([t] + rest)[1..] == rest;
  }

  lemma {:induction false} DueKeysAppend(ts: seq<Task>, t: Task)
    ensures DueKeys(ts + [t]) == DueKeys(ts) + DueKey(t)
  {
    if ts == [] {
      DueKeysStep(t, []);
      assert [] + [t] == [t] + [];
    } else {
      var head, rest := ts[0], ts[1..];
      calc {
        DueKeys(ts + [t]);
        { assert ts + [t] == [head] + (rest + [t]); DueKeysStep(head, rest + [t]); }
        DueKey(head) + DueKeys(rest + [t]);
        { DueKeysAppend(rest, t); }
        DueKey(head) + (DueKeys(rest) + DueKey(t));
        DueKeys(ts) + DueKey(t);
      }
    }
  }

  lemma AppendKeepsOrder(s: State, t: Task)
    requires InOrder(s)
    ensures InOrder(Append(s, t))
  {
    DueKeysAppend(s.queue, t.(due := t.runAt <= s.now));
  }

  lemma EnqueueKeepsOrder(cfg: Config, s: State, l: Label)
    requires InOrder(s) && l.Enqueue?
    ensures InOrder(Apply(cfg, s, l))
  {
    var t := Task(|s.accepted|, l.name, l.group, 0, l.maxRetry, l.runAt, false);
    AppendKeepsOrder(s.(accepted := s.accepted + [t.uid], limits := s.limits + [Limit(cfg, t)]), t);
  }

  lemma FinishKeepsOrder(cfg: Config, s: State, j: nat, outcome: Outcome)
    requires InOrder(s) && Enabled(cfg, s, Finish(j, outcome))
    ensures InOrder(Apply(cfg, s, Finish(j, outcome)))
  {
    var s1 := s.(running := Without(s.running, j), leaving := s.leaving + [s.running[j].group]);
    assert InOrder(s1);
    HandlerKeepsOrder(cfg, s1, s.running[j].task, outcome);
  }

  lemma HandlerKeepsOrder(cfg: Config, s: State, t: Task, outcome: Outcome)
    requires InOrder(s)
    ensures InOrder(AfterHandler(cfg, s, t, outcome))
  {
    if outcome.Failure? && t.retried < Limit(cfg, t) {
      AppendKeepsOrder(s.(failures := s.failures + [Failed(t.uid, t.retried, s.now)]),
                       Retry(cfg, t.(name := outcome.name, group := outcome.group), s.now));
    }
  }

  /** A task that was due when it was enqueued is never rotated; one that has become due meanwhile may be. */
  lemma RotateKeepsOrder(cfg: Config, s: State)
    requires InOrder(s) && Enabled(cfg, s, Rotate)
    ensures InOrder(Apply(cfg, s, Rotate))
  {
    AppendKeepsOrder(s.(dispatcher := Idle), s.dispatcher.task);
  }

  /** The dispatcher takes a task, finds it due or early, or sends it. */
  lemma HandKeepsOrder(cfg: Config, s: State, l: Label)
    requires InOrder(s) && Enabled(cfg, s, l) && (l.Dequeue? || l.FindDue? || l.FindEarly? || l.Send?)
    ensures InOrder(Apply(cfg, s, l))
  {
  }

  lemma StepKeepsOrder(cfg: Config, s: State, l: Label)
    requires InOrder(s) && Enabled(cfg, s, l)
    ensures InOrder(Apply(cfg, s, l))
  {
    match l
    case Enqueue(_, _, _, _) => EnqueueKeepsOrder(cfg, s, l);
    case Rotate => RotateKeepsOrder(cfg, s);
    case Finish(j, outcome) => FinishKeepsOrder(cfg, s, j, outcome);
    case Dequeue => HandKeepsOrder(cfg, s, l);
    case FindDue => HandKeepsOrder(cfg, s, l);
    case FindEarly => HandKeepsOrder(cfg, s, l);
    case Send => HandKeepsOrder(cfg, s, l);
    case _ =>
  }

  /** In every run, the due tasks sent to the workers are a prefix of the due tasks in enqueue order. */
  lemma {:induction false} RunIsFifo(cfg: Config, s: State, ls: seq<Label>)
    requires InOrder(s) && CanRun(cfg, s, ls)
    ensures InOrder(End(cfg, s, ls))
    ensures End(cfg, s, ls).dueSent <= End(cfg, s, ls).dueEnqueued
    decreases |ls|
  {
    if ls != [] {
      StepKeepsOrder(cfg, s, ls[0]);
      RunIsFifo(cfg, Apply(cfg, s, ls[0]), ls[1..]);
    }
  }

  // ---------- Retry budget and timing ----------

  function Attempts(starts: seq<Start>, u: nat): nat {
    if starts == [] then 0
    else Attempts(starts[..|starts| - 1], u) + if starts[|starts| - 1].uid == u then 1 else 0
  }

  /** Attempt number retried of the task u has failed. */
  predicate HasFailed(failures: seq<Failed>, u: nat, retried: nat) {
    exists i | 0 <= i < |failures| :: failures[i].uid == u && failures[i].retried == retried
  }

  /** A task that waits for its next attempt: earlier attempts have failed, and runAt keeps the delay from the last failure. */
  ghost predicate WaitingOk(cfg: Config, log: Log, t: Task) {
    && t.uid < |log.limits| && t.retried <= log.limits[t.uid] == Limit(cfg, t)
    && Attempts(log.starts, t.uid) == t.retried
    && (forall i | 0 <= i < |log.starts| && log.starts[i].uid == t.uid :: log.starts[i].retried < t.retried)
    && (forall i | 0 <= i < |log.failures| && log.failures[i].uid == t.uid ::
          && log.failures[i].retried < t.retried
          && (log.failures[i].retried + 1 == t.retried ==> log.failures[i].time + cfg.delay(t.uid, t.retried) <= t.runAt))
    && (t.retried > 0 ==> HasFailed(log.failures, t.uid, t.retried - 1))
  }

  ghost predicate AllWaiting(cfg: Config, log: Log, ts: seq<Task>) {
    forall t | t in ts :: WaitingOk(cfg, log, t)
  }

  ghost predicate RunningOk(cfg: Config, log: Log, t: Task) {
    && t.uid < |log.limits| && t.retried <= log.limits[t.uid] == Limit(cfg, t)
    && Attempts(log.starts, t.uid) == t.retried + 1
    && (forall i | 0 <= i < |log.starts| && log.starts[i].uid == t.uid :: log.starts[i].retried <= t.retried)
    && (forall i | 0 <= i < |log.failures| && log.failures[i].uid == t.uid :: log.failures[i].retried < t.retried)
  }

  ghost predicate AllRunning(cfg: Config, log: Log, jobs: seq<Job>) {
    forall i | 0 <= i < |jobs| :: RunningOk(cfg, log, jobs[i].task)
  }

  /** An attempt starts before it fails; the next one starts no earlier than its delay after the failure. */
  ghost predicate Spaced(cfg: Config, f: Failed, b: Start) {
    f.uid == b.uid ==>
      && (b.retried <= f.retried ==> b.time <= f.time)
      && (b.retried == f.retried + 1 ==> f.time + cfg.delay(b.uid, b.retried) <= b.time)
  }

  /** The handlers that were started and that failed, and how many retries each accepted task is granted. */
  datatype Log = Log(starts: seq<Start>, failures: seq<Failed>, limits: seq<nat>)

  function LogOf(s: State): Log {
    Log(s.starts, s.failures, s.limits)
  }

  /**
   Never before its time, never more often than allowed, attempts one after another, each retry
   after a failure of the attempt before it and its delay later.
   */
  ghost predicate LogOk(cfg: Config, log: Log, now: int) {
    && (forall i | 0 <= i < |log.starts| :: StartOk(log, log.starts[i], now))
    && (forall i | 0 <= i < |log.failures| :: log.failures[i].uid < |log.limits|)
    && (forall u: nat | u < |log.limits| :: Attempts(log.starts, u) <= log.limits[u] + 1)
    && Ascending(log.starts)
    && AllSpaced(cfg, log)
  }

  predicate Ascending(starts: seq<Start>) {
    forall i, j | 0 <= i < j < |starts| && starts[i].uid == starts[j].uid :: starts[i].retried < starts[j].retried
  }

  ghost predicate AllSpaced(cfg: Config, log: Log) {
    forall i, j | 0 <= i < |log.failures| && 0 <= j < |log.starts| :: Spaced(cfg, log.failures[i], log.starts[j])
  }

  ghost predicate StartOk(log: Log, b: Start, now: int) {
    b.runAt <= b.time <= now && b.uid < |log.limits| && (b.retried > 0 ==> HasFailed(log.failures, b.uid, b.retried - 1))
  }

  predicate DispatchedDue(s: State) {
    && (s.dispatcher.Due? ==> s.dispatcher.task.runAt <= s.now)
    && (forall t | t in s.channel :: t.runAt <= s.now)
    && (!s.watcher.Waiting? ==> s.watcher.task.runAt <= s.now)
  }

  function Held(s: State): seq<Task> {
    (if s.dispatcher.Idle? then [] else [s.dispatcher.task]) + (if s.watcher.Waiting? then [] else [s.watcher.task])
  }

  ghost predicate TasksTimely(cfg: Config, log: Log, s: State) {
    && AllWaiting(cfg, log, s.queue)
    && AllWaiting(cfg, log, Held(s))
    && AllWaiting(cfg, log, s.channel)
    && AllRunning(cfg, log, s.running)
  }

  ghost predicate Timely(cfg: Config, s: State) {
    LogOk(cfg, LogOf(s), s.now) && TasksTimely(cfg, LogOf(s), s) && DispatchedDue(s)
  }

  lemma {:induction false} OccursMember(ts: seq<Task>, t: Task)
    requires t in ts
    ensures Occurs(ts, t.uid) > 0
  {
    if t != ts[0] {
      OccursMember(ts[1..], t);
    }
  }

  lemma {:induction false} NoAttemptsYet(starts: seq<Start>, u: nat)
    requires forall i | 0 <= i < |starts| :: starts[i].uid != u
    ensures Attempts(starts, u) == 0
  {
    if starts != [] {
      NoAttemptsYet(starts[..|starts| - 1], u);
    }
  }

  /** The task the watcher starts is nowhere else. */
  lemma StartedIsUnique(s: State, t: Task)
    requires Conserved(s) && !s.watcher.Waiting?
    requires t in s.queue || t in s.channel || t in Tasks(s.running) || (!s.dispatcher.Idle? && t == s.dispatcher.task)
    ensures t.uid != s.watcher.task.uid
  {
    assert Places(s, s.watcher.task.uid) <= 1;
    if t in s.queue { OccursMember(s.queue, t); }
    if t in s.channel { OccursMember(s.channel, t); }
    if t in Tasks(s.running) { OccursMember(Tasks(s.running), t); }
  }

  function Started(log: Log, t: Task, now: int): Log {
    log.(starts := log.starts + [Start(t.uid, t.retried, t.runAt, now)])
  }

  function Failing(log: Log, t: Task, now: int): Log {
    log.(failures := log.failures + [Failed(t.uid, t.retried, now)])
  }

  /** Starting or failing another task does not concern this one. */
  lemma OthersKeepWaiting(cfg: Config, log: Log, n: Task, now: int, t: Task)
    requires WaitingOk(cfg, log, t) && n.uid != t.uid
    ensures WaitingOk(cfg, Started(log, n, now), t) && WaitingOk(cfg, Failing(log, n, now), t)
  {
    assert Started(log, n, now).starts[..|log.starts|] == log.starts;
    StillFailed(log, n, now);
  }

  lemma OthersKeepRunning(cfg: Config, log: Log, n: Task, now: int, t: Task)
    requires RunningOk(cfg, log, t) && n.uid != t.uid
    ensures RunningOk(cfg, Started(log, n, now), t) && RunningOk(cfg, Failing(log, n, now), t)
  {
    assert Started(log, n, now).starts[..|log.starts|] == log.starts;
  }

  lemma StillFailed(log: Log, n: Task, now: int)
    ensures forall u: nat, r: nat | HasFailed(log.failures, u, r) :: HasFailed(Failing(log, n, now).failures, u, r)
  {
    forall u: nat, r: nat | HasFailed(log.failures, u, r) ensures HasFailed(Failing(log, n, now).failures, u, r) {
      var i :| 0 <= i < |log.failures| && log.failures[i].uid == u && log.failures[i].retried == r;
      assert Failing(log, n, now).failures[i] == log.failures[i];
    }
  }

  lemma StartedRuns(cfg: Config, log: Log, now: int, t: Task)
    requires WaitingOk(cfg, log, t)
    ensures RunningOk(cfg, Started(log, t, now), t)
  {
    assert Started(log, t, now).starts[..|log.starts|] == log.starts;
  }

  lemma StartKeepsAttempts(cfg: Config, log: Log, now: int, t: Task, u: nat)
    requires WaitingOk(cfg, log, t) && u < |log.limits| && Attempts(log.starts, u) <= log.limits[u] + 1
    ensures Attempts(Started(log, t, now).starts, u) <= log.limits[u] + 1
  {
    assert Started(log, t, now).starts[..|log.starts|] == log.starts;
  }

  lemma StartKeepsSpace(cfg: Config, log: Log, now: int, t: Task)
    requires Ascending(log.starts) && AllSpaced(cfg, log) && WaitingOk(cfg, log, t) && t.runAt <= now
    ensures Ascending(Started(log, t, now).starts) && AllSpaced(cfg, Started(log, t, now))
  {
  }

  /** A waiting task that is started keeps the log in order. */
  lemma StartKeepsLog(cfg: Config, log: Log, now: int, t: Task)
    requires LogOk(cfg, log, now) && WaitingOk(cfg, log, t) && t.runAt <= now
    ensures LogOk(cfg, Started(log, t, now), now)
  {
    var log' := Started(log, t, now);
    StartKeepsSpace(cfg, log, now, t);
    forall u: nat | u < |log.limits| ensures Attempts(log'.starts, u) <= log.limits[u] + 1 {
      StartKeepsAttempts(cfg, log, now, t, u);
    }
    forall i | 0 <= i < |log'.starts| ensures StartOk(log', log'.starts[i], now) {
      if i < |log.starts| {
        assert StartOk(log, log.starts[i], now);
      }
    }
  }

  /** A running task that fails keeps the log in order. */
  lemma FailureKeepsLog(cfg: Config, log: Log, now: int, t: Task)
    requires LogOk(cfg, log, now) && RunningOk(cfg, log, t)
    ensures LogOk(cfg, Failing(log, t, now), now)
  {
    StillFailed(log, t, now);
  }

  /** A failed attempt with budget left becomes a waiting task, whose runAt keeps the delay from the failure. */
  lemma RetryWaits(cfg: Config, log: Log, now: int, t: Task)
    requires RunningOk(cfg, log, t) && t.retried < Limit(cfg, t)
    ensures WaitingOk(cfg, Failing(log, t, now), Retry(cfg, t, now))
  {
    var log' := Failing(log, t, now);
    assert log'.failures[|log.failures|] == Failed(t.uid, t.retried, now);
  }

  lemma SubmitIsTimely(cfg: Config, s: State)
    requires Conserved(s) && Timely(cfg, s) && Enabled(cfg, s, Submit)
    ensures Timely(cfg, Apply(cfg, s, Submit))
  {
    var s', t := Apply(cfg, s, Submit), s.watcher.task;
    assert t in Held(s) && LogOf(s') == Started(LogOf(s), t, s.now);
    StartKeepsLog(cfg, LogOf(s), s.now, t);
    StartedRuns(cfg, LogOf(s), s.now, t);
    forall x | x in s.queue || x in s.channel || (!s.dispatcher.Idle? && x == s.dispatcher.task)
      ensures WaitingOk(cfg, LogOf(s'), x)
    {
      StartedIsUnique(s, x);
      assert x in s.queue || x in s.channel || x in Held(s);
      OthersKeepWaiting(cfg, LogOf(s), t, s.now, x);
    }
    forall i | 0 <= i < |s.running| ensures RunningOk(cfg, LogOf(s'), s.running[i].task) {
      assert Tasks(s.running)[i] == s.running[i].task;
      StartedIsUnique(s, s.running[i].task);
      OthersKeepRunning(cfg, LogOf(s), t, s.now, s.running[i].task);
    }
  }

  /** A waiting task may be put into the queue. */
  lemma AppendIsTimely(cfg: Config, s: State, t: Task)
    requires Timely(cfg, s) && WaitingOk(cfg, LogOf(s), t)
    ensures Timely(cfg, Append(s, t))
  {
    assert WaitingOk(cfg, LogOf(s), t.(due := t.runAt <= s.now));
  }

  /** One more accepted task concerns no other. */
  lemma AcceptedKeepsLog(cfg: Config, log: Log, now: int, limit: nat)
    requires LogOk(cfg, log, now)
    ensures LogOk(cfg, log.(limits := log.limits + [limit]), now)
  {
    NoAttemptsYet(log.starts, |log.limits|);
  }

  lemma AcceptedKeepsTasks(cfg: Config, log: Log, s: State, limit: nat)
    requires TasksTimely(cfg, log, s)
    ensures TasksTimely(cfg, log.(limits := log.limits + [limit]), s)
  {
  }

  lemma AcceptedIsTimely(cfg: Config, s: State, limit: nat)
    requires Timely(cfg, s)
    ensures Timely(cfg, s.(accepted := s.accepted + [|s.accepted|], limits := s.limits + [limit]))
  {
    AcceptedKeepsLog(cfg, LogOf(s), s.now, limit);
    AcceptedKeepsTasks(cfg, LogOf(s), s, limit);
  }

  lemma EnqueueIsTimely(cfg: Config, s: State, l: Label)
    requires Conserved(s) && Timely(cfg, s) && l.Enqueue?
    ensures Timely(cfg, Apply(cfg, s, l))
  {
    var t := Task(|s.accepted|, l.name, l.group, 0, l.maxRetry, l.runAt, false);
    var s1 := s.(accepted := s.accepted + [t.uid], limits := s.limits + [Limit(cfg, t)]);
    AcceptedIsTimely(cfg, s, Limit(cfg, t));
    NoAttemptsYet(s.starts, t.uid);
    AppendIsTimely(cfg, s1, t);
  }

  /** The task whose handler returns is nowhere else. */
  lemma FinishedIsUnique(s: State, j: nat, t: Task)
    requires Conserved(s) && j < |s.running|
    requires t in s.queue || t in s.channel || t in Held(s) || t in Tasks(Without(s.running, j))
    ensures t.uid != s.running[j].task.uid
  {
    var u := s.running[j].task.uid;
    OccursWithout(s.running, j, u);
    assert Places(s, u) <= 1;
    if t in s.queue { OccursMember(s.queue, t); }
    if t in s.channel { OccursMember(s.channel, t); }
    if t in Tasks(Without(s.running, j)) { OccursMember(Tasks(Without(s.running, j)), t); }
  }

  /** A job that ends with a failure leaves the others as they were. */
  lemma FailureKeepsTasks(cfg: Config, s: State, j: nat)
    requires Conserved(s) && Timely(cfg, s) && j < |s.running|
    ensures TasksTimely(cfg, Failing(LogOf(s), s.running[j].task, s.now), s.(running := Without(s.running, j)))
  {
    var log, n, rest := LogOf(s), s.running[j].task, Without(s.running, j);
    forall x | x in s.queue || x in s.channel || x in Held(s) ensures WaitingOk(cfg, Failing(log, n, s.now), x) {
      FinishedIsUnique(s, j, x);
      OthersKeepWaiting(cfg, log, n, s.now, x);
    }
    forall i | 0 <= i < |rest| ensures RunningOk(cfg, Failing(log, n, s.now), rest[i].task) {
      assert Tasks(rest)[i] == rest[i].task;
      FinishedIsUnique(s, j, rest[i].task);
      assert rest[i] == s.running[if i < j then i else i + 1];
      OthersKeepRunning(cfg, log, n, s.now, rest[i].task);
    }
  }

  /** What is left of s while the outcome of job j is dealt with. */
  function Returned(s: State, j: nat): State
    requires j < |s.running|
  {
    s.(running := Without(s.running, j), leaving := s.leaving + [s.running[j].group])
  }

  lemma FailureIsTimely(cfg: Config, s: State, j: nat)
    requires Conserved(s) && Timely(cfg, s) && j < |s.running|
    ensures var t := s.running[j].task;
            Timely(cfg, Returned(s, j).(failures := s.failures + [Failed(t.uid, t.retried, s.now)]))
  {
    FailureKeepsLog(cfg, LogOf(s), s.now, s.running[j].task);
    FailureKeepsTasks(cfg, s, j);
  }

  lemma ReturnIsTimely(cfg: Config, s: State, j: nat, outcome: Outcome)
    requires Timely(cfg, s) && j < |s.running| && !outcome.Failure?
    ensures Timely(cfg, AfterHandler(cfg, Returned(s, j), s.running[j].task, outcome))
  {
  }

  lemma RetryIsTimely(cfg: Config, s: State, t: Task, outcome: Outcome)
    requires outcome.Failure?
    requires var failed := s.(failures := s.failures + [Failed(t.uid, t.retried, s.now)]);
             Timely(cfg, failed) && (t.retried < Limit(cfg, t) ==> WaitingOk(cfg, LogOf(failed), Retry(cfg, t, s.now)))
    ensures Timely(cfg, AfterHandler(cfg, s, t, outcome))
  {
    if t.retried < Limit(cfg, t) {
      AppendIsTimely(cfg, s.(failures := s.failures + [Failed(t.uid, t.retried, s.now)]),
                     Retry(cfg, t.(name := outcome.name, group := outcome.group), s.now));
    }
  }

  lemma FinishIsTimely(cfg: Config, s: State, j: nat, outcome: Outcome)
    requires Conserved(s) && Timely(cfg, s) && Enabled(cfg, s, Finish(j, outcome))
    ensures Timely(cfg, Apply(cfg, s, Finish(j, outcome)))
  {
    var t := s.running[j].task;
    assert RunningOk(cfg, LogOf(s), t);
    if outcome.Failure? {
      FailureIsTimely(cfg, s, j);
      if t.retried < Limit(cfg, t) {
        RetryWaits(cfg, LogOf(s), s.now, t);
      }
      RetryIsTimely(cfg, Returned(s, j), t, outcome);
    } else {
      ReturnIsTimely(cfg, s, j, outcome);
    }
  }

  /** The dispatcher and the watcher hand a task on; putting it back may find it due. */
  lemma HandOnIsTimely(cfg: Config, s: State, l: Label)
    requires Timely(cfg, s) && Enabled(cfg, s, l)
    requires l.Dequeue? || l.FindDue? || l.FindEarly? || l.Rotate? || l.Send? || l.Receive? || l.Route? || l.Acquire?
    ensures Timely(cfg, Apply(cfg, s, l))
  {
    if l.Rotate? {
      assert s.dispatcher.task in Held(s);
      AppendIsTimely(cfg, s.(dispatcher := Idle), s.dispatcher.task);
    }
  }

  lemma StepIsTimely(cfg: Config, s: State, l: Label)
    requires Conserved(s) && Timely(cfg, s) && Enabled(cfg, s, l)
    ensures Timely(cfg, Apply(cfg, s, l))
  {
    match l
    case Tick(_) =>
    case Register(_) =>
    case OthersTake =>
    case OthersGive =>
    case Enqueue(_, _, _, _) => EnqueueIsTimely(cfg, s, l);
    case Submit => SubmitIsTimely(cfg, s);
    case Finish(j, outcome) => FinishIsTimely(cfg, s, j, outcome);
    case Done(_) =>
    case Release(_) =>
    case _ => HandOnIsTimely(cfg, s, l);
  }

  /**
   Over every run from the start, a handler is invoked at most maxRetry + 1 times per task, never
   before runAt, and each retry at least its delay after the failure of the attempt before it.
   */
  lemma {:induction false} RunIsTimely(cfg: Config, s: State, ls: seq<Label>)
    requires Conserved(s) && Timely(cfg, s) && CanRun(cfg, s, ls)
    ensures Timely(cfg, End(cfg, s, ls))
    decreases |ls|
  {
    if ls != [] {
      StepConserves(cfg, s, ls[0]);
      StepIsTimely(cfg, s, ls[0]);
      RunIsTimely(cfg, Apply(cfg, s, ls[0]), ls[1..]);
    }
  }

  /** So consecutive attempts of a task are its delay apart, counted from the failure of the first. */
  lemma RetryAfterFailure(cfg: Config, s: State, i: nat, j: nat) returns (k: nat)
    requires Timely(cfg, s) && i < |s.starts| && j < |s.starts| && s.starts[i].uid == s.starts[j].uid
    requires s.starts[j].retried == s.starts[i].retried + 1
    ensures k < |s.failures| && s.failures[k].uid == s.starts[i].uid && s.failures[k].retried == s.starts[i].retried
    ensures s.starts[i].time <= s.failures[k].time
    ensures s.failures[k].time + cfg.delay(s.starts[j].uid, s.starts[j].retried) <= s.starts[j].time
  {
    var log, a, b := LogOf(s), s.starts[i], s.starts[j];
    assert StartOk(log, b, s.now);
    k :| 0 <= k < |log.failures| && log.failures[k].uid == b.uid && log.failures[k].retried == b.retried - 1;
    assert Spaced(cfg, log.failures[k], a) && Spaced(cfg, log.failures[k], b);
  }
}
