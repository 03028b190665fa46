/**
 The retry scheduler (util/queue.go, GQueue) as a labelled transition system.

 One dispatcher moves due tasks from the queue to a bounded channel and rotates the others to
 the back; one watcher takes them from the channel, waits for a slot of their worker group and
 submits them to a bounded pool shared with the rest of the process; a failed task is enqueued
 again while its retry budget lasts. Every goroutine is split at its blocking points, and a run
 is any sequence of enabled labels, so statements about runs cover every interleaving.
 */
module RetryQueue {

  /** A task. uid names the accepted task through all its retries; due says whether runAt had passed when it was enqueued. */
  datatype Task = Task(uid: nat, name: string, group: int, retried: nat, maxRetry: int, runAt: int, due: bool)

  /** caps: slots of each worker group; delay: the retry delay of a task for a retry number. */
  datatype Config = Config(caps: map<int, nat>, channelCap: nat, poolCap: nat, maxRetry: nat, delay: (nat, nat) -> int)
  {
    predicate Valid() {
      1 in caps && (forall g | g in caps :: caps[g] >= 1) && channelCap >= 1 && poolCap >= 1
    }
  }

  /** The dispatcher holds a task it has not looked at, or has found due, or early. */
  datatype Dispatcher = Idle | Holding(task: Task) | Due(task: Task) | Early(task: Task)

  datatype Watcher = Waiting | Routing(task: Task) | Acquiring(task: Task, group: int) | Submitting(task: Task, group: int)

  datatype Job = Job(task: Task, group: int)

  /** One invocation of a handler. */
  datatype Start = Start(uid: nat, retried: nat, runAt: int, time: int)

  /** A handler that returned an error. */
  datatype Failed = Failed(uid: nat, retried: nat, time: int)

  datatype Key = Key(uid: nat, retried: nat)

  /**
   slots and waitGroup count tokens and unfinished submissions per group. A job that has run its
   handler still has to leave the wait group (leaving) and give its slot back (releasing).
   The last block is history.
   */
  datatype State = State(
    now: int,
    handlers: set<string>,
    queue: seq<Task>,
    dispatcher: Dispatcher,
    channel: seq<Task>,
    watcher: Watcher,
    slots: multiset<int>,
    waitGroup: multiset<int>,
    running: seq<Job>,
    leaving: seq<int>,
    releasing: seq<int>,
    others: nat,
    accepted: seq<nat>,
    limits: seq<nat>,
    succeeded: seq<nat>,
    givenUp: seq<nat>,
    panicked: seq<nat>,
    unroutable: seq<nat>,
    starts: seq<Start>,
    failures: seq<Failed>,
    dueEnqueued: seq<Key>,
    dueSent: seq<Key>)

  function Init(now: int): State {
    State(now, {}, [], Idle, [], Waiting, multiset{}, multiset{}, [], [], [], 0, [], [], [], [], [], [], [], [], [], [])
  }

  /** How a handler ends. It may have edited the exported fields of its task. */
  datatype Outcome = Success | Failure(name: string, group: int) | Panic

  datatype Label =
    | Tick(d: nat)
    | Register(name: string)
    | Enqueue(name: string, group: int, maxRetry: int, runAt: int)
    | OthersTake
    | OthersGive
    | Dequeue
    | FindDue
    | FindEarly
    | Rotate
    | Send
    | Receive
    | Route
    | Acquire
    | Submit
    | Finish(job: nat, outcome: Outcome)
    | Done(i: nat)
    | Release(i: nat)

  /** Steps of the surroundings: clock, producers, and other users of the pool taking and returning workers. */
  predicate External(l: Label) {
    l.Tick? || l.Register? || l.Enqueue? || l.OthersTake? || l.OthersGive?
  }

  /** Steps of the scheduler itself, other than finding that a task is not due yet. */
  predicate Progress(l: Label) {
    !External(l) && !l.FindEarly?
  }

  function Limit(cfg: Config, t: Task): nat {
    if t.maxRetry > 0 then t.maxRetry else cfg.maxRetry
  }

  function WorkerGroup(cfg: Config, t: Task): int {
    if t.group in cfg.caps then t.group else 1
  }

  function InPool(s: State): nat {
    |s.running| + |s.leaving| + |s.releasing| + s.others
  }

  predicate Enabled(cfg: Config, s: State, l: Label) {
    match l
    case Tick(_) => true
    case Register(_) => true
    case Enqueue(_, _, _, _) => true
    case OthersTake => InPool(s) < cfg.poolCap
    case OthersGive => s.others > 0
    case Dequeue => s.dispatcher.Idle? && s.queue != []
    case FindDue => s.dispatcher.Holding? && s.dispatcher.task.runAt <= s.now
    case FindEarly => s.dispatcher.Holding? && s.dispatcher.task.runAt > s.now
    case Rotate => s.dispatcher.Early?
    case Send => s.dispatcher.Due? && |s.channel| < cfg.channelCap
    case Receive => s.watcher.Waiting? && s.channel != []
    case Route => s.watcher.Routing?
    case Acquire => s.watcher.Acquiring? && s.watcher.group in cfg.caps && s.slots[s.watcher.group] < cfg.caps[s.watcher.group]
    case Submit => s.watcher.Submitting? && InPool(s) < cfg.poolCap
    case Finish(j, _) => j < |s.running|
    case Done(i) => i < |s.leaving|
    case Release(i) => i < |s.releasing| && s.slots[s.releasing[i]] > 0
  }

  function Without<T>(s: seq<T>, i: nat): seq<T>
    requires i < |s|
  {
    s[..i] + s[i + 1..]
  }

  function KeyOf(t: Task): Key {
    Key(t.uid, t.retried)
  }

  /** The queue's Enqueue, for new, rotated and retried tasks alike. */
  function Append(s: State, t: Task): State {
    var t := t.(due := t.runAt <= s.now);
    s.(queue := s.queue + [t], dueEnqueued := if t.due then s.dueEnqueued + [KeyOf(t)] else s.dueEnqueued)
  }

  /** The next attempt at a task that fails now. */
  function Retry(cfg: Config, t: Task, now: int): Task {
    t.(retried := t.retried + 1, runAt := now + cfg.delay(t.uid, t.retried + 1))
  }

  function AfterHandler(cfg: Config, s: State, t: Task, outcome: Outcome): State {
    match outcome
    case Success => s.(succeeded := s.succeeded + [t.uid])
    case Panic => s.(panicked := s.panicked + [t.uid])
    case Failure(name, group) =>
      var s := s.(failures := s.failures + [Failed(t.uid, t.retried, s.now)]);
      if t.retried >= Limit(cfg, t) then s.(givenUp := s.givenUp + [t.uid])
      else Append(s, Retry(cfg, t.(name := name, group := group), s.now))
  }

  function Apply(cfg: Config, s: State, l: Label): State
    requires Enabled(cfg, s, l)
  {
    match l
    case Tick(d) => s.(now := s.now + d)
    case Register(name) => s.(handlers := s.handlers + {name})
    case Enqueue(name, group, maxRetry, runAt) =>
      var t := Task(|s.accepted|, name, group, 0, maxRetry, runAt, false);
      Append(s.(accepted := s.accepted + [t.uid], limits := s.limits + [Limit(cfg, t)]), t)
    case OthersTake => s.(others := s.others + 1)
    case OthersGive => s.(others := s.others - 1)
    case Dequeue => s.(dispatcher := Holding(s.queue[0]), queue := s.queue[1..])
    case FindDue => s.(dispatcher := Due(s.dispatcher.task))
    case FindEarly => s.(dispatcher := Early(s.dispatcher.task))
    case Rotate => Append(s.(dispatcher := Idle), s.dispatcher.task)
    case Send =>
      var t := s.dispatcher.task;
      s.(dispatcher := Idle, channel := s.channel + [t],
         dueSent := if t.due then s.dueSent + [KeyOf(t)] else s.dueSent)
    case Receive => s.(watcher := Routing(s.channel[0]), channel := s.channel[1..])
    case Route =>
      var t := s.watcher.task;
      if t.name in s.handlers then s.(watcher := Acquiring(t, WorkerGroup(cfg, t)))
      else s.(watcher := Waiting, unroutable := s.unroutable + [t.uid])
    case Acquire =>
      var g := s.watcher.group;
      s.(watcher := Submitting(s.watcher.task, g), slots := s.slots + multiset{g}, waitGroup := s.waitGroup + multiset{g})
    case Submit =>
      var t := s.watcher.task;
      s.(watcher := Waiting, running := s.running + [Job(t, s.watcher.group)],
         starts := s.starts + [Start(t.uid, t.retried, t.runAt, s.now)])
    case Finish(j, outcome) =>
      var job := s.running[j];
      AfterHandler(cfg, s.(running := Without(s.running, j), leaving := s.leaving + [job.group]), job.task, outcome)
    case Done(i) =>
      var g := s.leaving[i];
      s.(leaving := Without(s.leaving, i), releasing := s.releasing + [g], waitGroup := s.waitGroup - multiset{g})
    case Release(i) =>
      s.(releasing := Without(s.releasing, i), slots := s.slots - multiset{s.releasing[i]})
  }

  // ---------- Runs ----------

  predicate CanRun(cfg: Config, s: State, ls: seq<Label>)
    decreases |ls|
  {
    ls == [] || (Enabled(cfg, s, ls[0]) && CanRun(cfg, Apply(cfg, s, ls[0]), ls[1..]))
  }

  function End(cfg: Config, s: State, ls: seq<Label>): State
    requires CanRun(cfg, s, ls)
    decreases |ls|
  {
    if ls == [] then s else End(cfg, Apply(cfg, s, ls[0]), ls[1..])
  }

  // ---------- Conservation ----------

  function Occurs(ts: seq<Task>, u: nat): nat {
    if ts == [] then 0 else Here(ts[0], u) + Occurs(ts[1..], u)
  }

  function Tasks(jobs: seq<Job>): seq<Task> {
    seq(|jobs|, i requires 0 <= i < |jobs| => jobs[i].task)
  }

  function Here(t: Task, u: nat): nat {
    if t.uid == u then 1 else 0
  }

  function AtDispatcher(d: Dispatcher, u: nat): nat {
    if d.Idle? then 0 else Here(d.task, u)
  }

  function AtWatcher(w: Watcher, u: nat): nat {
    if w.Waiting? then 0 else Here(w.task, u)
  }

  function Pending(s: State, u: nat): nat {
    Occurs(s.queue, u) + AtDispatcher(s.dispatcher, u) + Occurs(s.channel, u) + AtWatcher(s.watcher, u)
  }

  function Ended(s: State, u: nat): nat {
    multiset(s.succeeded)[u] + multiset(s.givenUp)[u] + multiset(s.panicked)[u] + multiset(s.unroutable)[u]
  }

  /** How often the task u is found, over all the places a task can be in. */
  function Places(s: State, u: nat): nat {
    Pending(s, u) + Occurs(Tasks(s.running), u) + Ended(s, u)
  }

  /** Every accepted task is in exactly one place, exactly once, and nothing else is anywhere. */
  ghost predicate Conserved(s: State) {
    && |s.limits| == |s.accepted|
    && (forall i | 0 <= i < |s.accepted| :: s.accepted[i] == i)
    && (forall u: nat :: Places(s, u) == if u < |s.accepted| then 1 else 0)
  }

  lemma {:induction false} OccursConcat(a: seq<Task>, b: seq<Task>, u: nat)
    ensures Occurs(a + b, u) == Occurs(a, u) + Occurs(b, u)
  {
    if a == [] {
      assert a + b == b;
    } else {
      assert (a + b)[1..] == a[1..] + b;
      OccursConcat(a[1..], b, u);
    }
  }

  lemma OccursAppend(ts: seq<Task>, t: Task, u: nat)
    ensures Occurs(ts + [t], u) == Occurs(ts, u) + Here(t, u)
  {
    OccursConcat(ts, [t], u);
  }

  lemma OccursWithout(jobs: seq<Job>, j: nat, u: nat)
    requires j < |jobs|
    ensures Occurs(Tasks(jobs), u) == Occurs(Tasks(Without(jobs, j)), u) + Here(jobs[j].task, u)
  {
    var a, b := Tasks(jobs[..j]), Tasks(jobs[j + 1..]);
    assert Tasks(jobs) == a + ([jobs[j].task] + b);
    assert Tasks(Without(jobs, j)) == a + b;
    OccursConcat(a, [jobs[j].task] + b, u);
    OccursConcat([jobs[j].task], b, u);
    OccursConcat(a, b, u);
  }

  /** What a handler leaves of its task: an end, or the next attempt in the queue. */
  lemma AfterHandlerPlacesTask(cfg: Config, s: State, t: Task, outcome: Outcome, u: nat)
    ensures var s' := AfterHandler(cfg, s, t, outcome);
            && s'.running == s.running && s'.dispatcher == s.dispatcher && s'.channel == s.channel && s'.watcher == s.watcher
            && Occurs(s'.queue, u) + Ended(s', u) == Occurs(s.queue, u) + Ended(s, u) + Here(t, u)
  {
    var s' := AfterHandler(cfg, s, t, outcome);
    if |s'.queue| > |s.queue| {
      OccursAppend(s.queue, s'.queue[|s.queue|], u);
    }
  }

  lemma FinishMovesTask(cfg: Config, s: State, j: nat, outcome: Outcome, u: nat)
    requires Enabled(cfg, s, Finish(j, outcome))
    ensures Places(Apply(cfg, s, Finish(j, outcome)), u) == Places(s, u)
  {
    var job := s.running[j];
    OccursWithout(s.running, j, u);
    AfterHandlerPlacesTask(cfg, s.(running := Without(s.running, j), leaving := s.leaving + [job.group]), job.task, outcome, u);
  }

  lemma EnqueueAddsTask(cfg: Config, s: State, l: Label, u: nat)
    requires l.Enqueue?
    ensures Places(Apply(cfg, s, l), u) == Places(s, u) + if u == |s.accepted| then 1 else 0
  {
    OccursAppend(s.queue, Apply(cfg, s, l).queue[|s.queue|], u);
  }

  lemma DispatcherMovesTask(cfg: Config, s: State, l: Label, u: nat)
    requires Enabled(cfg, s, l) && (l.Rotate? || l.Send?)
    ensures Places(Apply(cfg, s, l), u) == Places(s, u)
  {
    if l.Rotate? {
      OccursAppend(s.queue, Apply(cfg, s, l).queue[|s.queue|], u);
    } else {
      OccursAppend(s.channel, s.dispatcher.task, u);
    }
  }

  lemma SubmitMovesTask(cfg: Config, s: State, u: nat)
    requires Enabled(cfg, s, Submit)
    ensures Places(Apply(cfg, s, Submit), u) == Places(s, u)
  {
    assert Tasks(Apply(cfg, s, Submit).running) == Tasks(s.running) + [s.watcher.task];
    OccursAppend(Tasks(s.running), s.watcher.task, u);
  }

  lemma TakingMovesTask(cfg: Config, s: State, l: Label, u: nat)
    requires Enabled(cfg, s, l) && (l.Dequeue? || l.Receive?)
    ensures Places(Apply(cfg, s, l), u) == Places(s, u)
  {
  }

  lemma RouteMovesTask(cfg: Config, s: State, u: nat)
    requires Enabled(cfg, s, Route)
    ensures Places(Apply(cfg, s, Route), u) == Places(s, u)
  {
  }

  /** A step moves tasks between places and loses or doubles none; only a producer adds one. */
  lemma StepMovesTasks(cfg: Config, s: State, l: Label, u: nat)
    requires Enabled(cfg, s, l)
    ensures Places(Apply(cfg, s, l), u) == Places(s, u) + if l.Enqueue? && u == |s.accepted| then 1 else 0
  {
    match l
    case Enqueue(_, _, _, _) => EnqueueAddsTask(cfg, s, l, u);
    case Dequeue => TakingMovesTask(cfg, s, l, u);
    case Receive => TakingMovesTask(cfg, s, l, u);
    case Route => RouteMovesTask(cfg, s, u);
    case Rotate => DispatcherMovesTask(cfg, s, l, u);
    case Send => DispatcherMovesTask(cfg, s, l, u);
    case Submit => SubmitMovesTask(cfg, s, u);
    case Finish(j, outcome) => FinishMovesTask(cfg, s, j, outcome, u);
    case _ =>
  }

  lemma StepConserves(cfg: Config, s: State, l: Label)
    requires Conserved(s) && Enabled(cfg, s, l)
    ensures Conserved(Apply(cfg, s, l))
  {
    forall u: nat { StepMovesTasks(cfg, s, l, u); }
  }

  /** Conservation, in every state of every run. */
  lemma {:induction false} RunConserves(cfg: Config, s: State, ls: seq<Label>)
    requires Conserved(s) && CanRun(cfg, s, ls)
    ensures Conserved(End(cfg, s, ls))
    decreases |ls|
  {
    if ls != [] {
      StepConserves(cfg, s, ls[0]);
      RunConserves(cfg, Apply(cfg, s, ls[0]), ls[1..]);
    }
  }
}
