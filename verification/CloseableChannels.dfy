/**
 The closeable channel (util/closeable.go) as a labelled transition system.

 Any number of threads run any of its operations; each operation is split at its flag checks,
 the two halves of its lock acquisition and its blocking send. The channel has a capacity, and
 receivers come when they like, or never. A writer that has announced itself keeps new readers
 out, as sync.RWMutex does; which of several waiting threads goes first is left open.
 */
module CloseableChannels {
  import opened Wrappers

  type Value = int

  type Thread = nat

  /** SendWithTimeout takes the read lock, every other operation the write lock. */
  datatype Op =
    | CloseOp
    | EnqueueOp(v: Value)
    | DequeueOp
    | LoopOp
    | SendOp(v: Value, timeout: int)

  datatype Pc =
    | Entered(op: Op)             // before the first check of the flag
    | WantLock(op: Op)            // the flag was clear
    | Announced(op: Op)           // a writer that waits for the readers inside to leave
    | HasLock(op: Op)             // before the second check
    | InBody(op: Op)              // the flag was still clear under the lock
    | Closing                     // flag set, channel not closed yet
    | Sending(op: Op, item: Value)
    | Unlocking(op: Op)

  datatype How = InFlight | Sent | TimedOut | HandedOut

  /** A value taken from the queue, and what became of it. */
  datatype Fate = Fate(v: Value, how: How)

  /** A value put on the channel, by the background loop or by a direct send. */
  datatype Delivery = Delivery(v: Value, fromQueue: bool)

  /** receivers: how many are blocked on the empty channel. The last line is history. */
  datatype State = State(
    capacity: nat,
    closed: bool,
    channelClosed: bool,
    closeCount: nat,
    lateSends: nat,
    announced: Option<Thread>,
    writer: Option<Thread>,
    readers: set<Thread>,
    queue: seq<Value>,
    buffer: seq<Value>,
    receivers: nat,
    pcs: map<Thread, Pc>,
    accepted: seq<Value>, removed: seq<Fate>, delivered: seq<Delivery>, received: seq<Value>)

  function Init(capacity: nat): State {
    State(capacity, false, false, 0, 0, None, None, {}, [], [], 0, map[], [], [], [], [])
  }

  datatype Label =
    | Begin(t: Thread, op: Op)
    | CheckFlag(t: Thread)
    | Announce(t: Thread)
    | Lock(t: Thread)
    | Recheck(t: Thread)
    | Body(t: Thread)
    | CloseChannel(t: Thread)
    | Send(t: Thread)
    | Timeout(t: Thread)
    | Unlock(t: Thread)
    | Receive

  /** Steps of threads under way; the others are a new call and a receiver that comes. */
  predicate Own(l: Label) {
    !l.Begin? && !l.Receive?
  }

  predicate Shared(op: Op) {
    op.SendOp?
  }

  /** A send goes through: there is room, or somebody waits for the value. */
  predicate HasRoom(s: State) {
    |s.buffer| < s.capacity || s.receivers > 0
  }

  /** The lock is free for a reader, or for a writer to announce itself. */
  predicate LockFree(s: State) {
    s.writer.None? && s.announced.None?
  }

  predicate CanLock(s: State, pc: Pc) {
    || (pc.WantLock? && Shared(pc.op) && LockFree(s))
    || (pc.Announced? && s.readers == {})
  }

  predicate Patient(op: Op) {
    op.SendOp? && op.timeout < 0
  }

  predicate Enabled(s: State, l: Label) {
    match l
    case Begin(t, _) => t !in s.pcs
    case CheckFlag(t) => t in s.pcs && s.pcs[t].Entered?
    case Announce(t) => t in s.pcs && s.pcs[t].WantLock? && !Shared(s.pcs[t].op) && LockFree(s)
    case Lock(t) => t in s.pcs && CanLock(s, s.pcs[t])
    case Recheck(t) => t in s.pcs && s.pcs[t].HasLock?
    case Body(t) => t in s.pcs && s.pcs[t].InBody?
    case CloseChannel(t) => t in s.pcs && s.pcs[t].Closing?
    case Send(t) => t in s.pcs && s.pcs[t].Sending? && (HasRoom(s) || s.channelClosed)
    case Timeout(t) => t in s.pcs && s.pcs[t].Sending? && !Patient(s.pcs[t].op)
    case Unlock(t) => t in s.pcs && s.pcs[t].Unlocking?
    case Receive => true
  }

  /** Records what became of the value taken last. */
  function Settled(removed: seq<Fate>, how: How): seq<Fate> {
    if removed == [] then []
    else removed[..|removed| - 1] + [removed[|removed| - 1].(how := how)]
  }

  function AfterBody(s: State, t: Thread, op: Op): State {
    match op
    case CloseOp => s.(closed := true, pcs := s.pcs[t := Closing])
    case EnqueueOp(v) =>
      s.(queue := s.queue + [v], accepted := s.accepted + [v], pcs := s.pcs[t := Unlocking(op)])
    case DequeueOp =>
      if s.queue == [] then s.(pcs := s.pcs[t := Unlocking(op)])
      else s.(queue := s.queue[1..], removed := s.removed + [Fate(s.queue[0], HandedOut)], pcs := s.pcs[t := Unlocking(op)])
    case LoopOp =>
      if s.queue == [] then s.(pcs := s.pcs[t := Unlocking(op)])
      else s.(queue := s.queue[1..], removed := s.removed + [Fate(s.queue[0], InFlight)], pcs := s.pcs[t := Sending(op, s.queue[0])])
    case SendOp(v, _) => s.(pcs := s.pcs[t := Sending(op, v)])
  }

  /** A value reaches a waiting receiver, or the buffer. */
  function Put(s: State, v: Value): State {
    if s.receivers > 0 then s.(receivers := s.receivers - 1, received := s.received + [v])
    else s.(buffer := s.buffer + [v])
  }

  /** A receiver takes the oldest value, waits for one, or finds the channel closed. */
  function Taken(s: State): State {
    if s.buffer != [] then s.(buffer := s.buffer[1..], received := s.received + [s.buffer[0]])
    else if s.channelClosed then s
    else s.(receivers := s.receivers + 1)
  }

  function Apply(s: State, l: Label): State
    requires Enabled(s, l)
  {
    match l
    case Begin(t, op) => s.(pcs := s.pcs[t := Entered(op)])
    case CheckFlag(t) =>
      if s.closed then s.(pcs := s.pcs - {t}) else s.(pcs := s.pcs[t := WantLock(s.pcs[t].op)])
    case Announce(t) => s.(announced := Some(t), pcs := s.pcs[t := Announced(s.pcs[t].op)])
    case Lock(t) =>
      var op := s.pcs[t].op;
      if Shared(op) then s.(readers := s.readers + {t}, pcs := s.pcs[t := HasLock(op)])
      else s.(announced := None, writer := Some(t), pcs := s.pcs[t := HasLock(op)])
    case Recheck(t) =>
      var op := s.pcs[t].op;
      s.(pcs := s.pcs[t := if s.closed then Unlocking(op) else InBody(op)])
    case Body(t) => AfterBody(s, t, s.pcs[t].op)
    case CloseChannel(t) =>
      s.(channelClosed := true, closeCount := s.closeCount + 1, receivers := 0, pcs := s.pcs[t := Unlocking(CloseOp)])
    case Send(t) =>
      var Sending(op, v) := s.pcs[t];
      Put(s, v).(delivered := s.delivered + [Delivery(v, op.LoopOp?)],
                 lateSends := if s.channelClosed then s.lateSends + 1 else s.lateSends,
                 removed := if op.LoopOp? then Settled(s.removed, Sent) else s.removed,
                 pcs := s.pcs[t := Unlocking(op)])
    case Timeout(t) =>
      var op := s.pcs[t].op;
      s.(removed := if op.LoopOp? then Settled(s.removed, TimedOut) else s.removed, pcs := s.pcs[t := Unlocking(op)])
    case Unlock(t) =>
      if Shared(s.pcs[t].op) then s.(readers := s.readers - {t}, pcs := s.pcs - {t})
      else s.(writer := None, pcs := s.pcs - {t})
    case Receive => Taken(s)
  }

  predicate CanRun(s: State, ls: seq<Label>)
    decreases |ls|
  {
    ls == [] || (Enabled(s, ls[0]) && CanRun(Apply(s, ls[0]), ls[1..]))
  }

  function End(s: State, ls: seq<Label>): State
    requires CanRun(s, ls)
    decreases |ls|
  {
    if ls == [] then s else End(Apply(s, ls[0]), ls[1..])
  }

  // ---------- The lock ----------

  predicate Holds(pc: Pc) {
    pc.HasLock? || pc.InBody? || pc.Closing? || pc.Sending? || pc.Unlocking?
  }

  predicate Exclusive(pc: Pc) {
    pc.Closing? || !Shared(pc.op)
  }

  /** The lock is held by exactly the threads that are past their acquisition, one writer or some readers. */
  ghost predicate Locked(s: State) {
    && (forall t | t in s.pcs :: Holds(s.pcs[t]) && Exclusive(s.pcs[t]) <==> s.writer == Some(t))
    && (forall t | t in s.pcs :: Holds(s.pcs[t]) && !Exclusive(s.pcs[t]) <==> t in s.readers)
    && (s.writer.Some? ==> s.writer.value in s.pcs && s.readers == {} && s.announced.None?)
    && (forall t | t in s.readers :: t in s.pcs)
    && (forall t | t in s.pcs :: s.pcs[t].Announced? <==> s.announced == Some(t))
    && (s.announced.Some? ==> s.announced.value in s.pcs)
    && (forall t | t in s.pcs && s.pcs[t].Announced? :: !Shared(s.pcs[t].op))
  }

  // ---------- Close safety ----------

  predicate Active(pc: Pc) {
    pc.InBody? || pc.Sending?
  }

  /**
   Once the flag is set nobody is inside an operation or a send; the channel is closed at most
   once, by the thread that set the flag, and no value is sent on it afterwards.
   */
  ghost predicate Safe(s: State) {
    && (s.closed ==> forall t | t in s.pcs :: !Active(s.pcs[t]))
    && (s.channelClosed ==> s.closed)
    && (forall t | t in s.pcs && s.pcs[t].Closing? :: s.closed && !s.channelClosed)
    && (forall t | t in s.pcs && s.pcs[t].InBody? && s.pcs[t].op.CloseOp? :: !s.closed)
    && s.closeCount == (if s.channelClosed then 1 else 0)
    && s.lateSends == 0
  }

  // ---------- The queue ----------

  function Values(fates: seq<Fate>): seq<Value> {
    seq(|fates|, i requires 0 <= i < |fates| => fates[i].v)
  }

  function Carried(ds: seq<Delivery>): seq<Value> {
    seq(|ds|, i requires 0 <= i < |ds| => ds[i].v)
  }

  /** What was put on the channel is what was received followed by what is buffered, within the capacity. */
  predicate Buffered(s: State) {
    && Carried(s.delivered) == s.received + s.buffer
    && |s.buffer| <= s.capacity
    && (s.receivers > 0 ==> s.buffer == [])
  }

  predicate LoopSending(pc: Pc) {
    pc.Sending? && pc.op.LoopOp?
  }

  /** What was accepted is what was removed followed by what is queued, in order. */
  predicate Ordered(s: State) {
    s.accepted == Values(s.removed) + s.queue
  }

  /** Only the value the loop is just sending has no fate yet, and it is the one removed last. */
  ghost predicate Fated(s: State) {
    && (forall t | t in s.pcs && LoopSending(s.pcs[t]) ::
          s.removed != [] && s.removed[|s.removed| - 1] == Fate(s.pcs[t].item, InFlight))
    && (forall i | 0 <= i < |s.removed| && s.removed[i].how == InFlight ::
          i == |s.removed| - 1 && s.writer.Some? && s.writer.value in s.pcs && LoopSending(s.pcs[s.writer.value]))
  }

  function SentOf(removed: seq<Fate>): seq<Value> {
    if removed == [] then []
    else
      var last := removed[|removed| - 1];
      SentOf(removed[..|removed| - 1]) + if last.how == Sent then [last.v] else []
  }

  function FromQueue(ds: seq<Delivery>): seq<Value> {
    if ds == [] then []
    else
      var last := ds[|ds| - 1];
      FromQueue(ds[..|ds| - 1]) + if last.fromQueue then [last.v] else []
  }

  /** The values recorded as sent are the ones the channel got from the queue, in that order. */
  predicate Delivered(s: State) {
    SentOf(s.removed) == FromQueue(s.delivered)
  }

  ghost predicate Good(s: State) {
    Locked(s) && Safe(s) && Ordered(s) && Fated(s) && Delivered(s) && Buffered(s)
  }

  // ---------- One step ----------

  lemma AcquireKeepsLock(s: State, t: Thread)
    requires Locked(s) && Enabled(s, Lock(t))
    ensures Locked(Apply(s, Lock(t)))
  {
  }

  lemma AnnounceKeepsLock(s: State, t: Thread)
    requires Locked(s) && Enabled(s, Announce(t))
    ensures Locked(Apply(s, Announce(t)))
  {
  }

  lemma ReleaseKeepsLock(s: State, t: Thread)
    requires Locked(s) && Enabled(s, Unlock(t))
    ensures Locked(Apply(s, Unlock(t)))
  {
  }

  /** A thread that moves without touching the lock holds after the move what it held before. */
  lemma MoveKeepsLock(s: State, s': State, t: Thread, pc: Pc)
    requires Locked(s) && s'.pcs == s.pcs[t := pc]
    requires s'.writer == s.writer && s'.readers == s.readers && s'.announced == s.announced
    requires !pc.Announced? && (t in s.pcs ==> !s.pcs[t].Announced?)
    requires if t in s.pcs && Holds(s.pcs[t]) then Holds(pc) && Exclusive(pc) == Exclusive(s.pcs[t]) else !Holds(pc)
    ensures Locked(s')
  {
  }

  /** Inside the lock a thread moves on, and keeps what it holds. */
  lemma HolderKeepsLock(s: State, l: Label)
    requires Locked(s) && Enabled(s, l) && (l.Recheck? || l.CloseChannel? || l.Send? || l.Timeout?)
    ensures Locked(Apply(s, l))
  {
    var s' := Apply(s, l);
    MoveKeepsLock(s, s', l.t, s'.pcs[l.t]);
  }

  lemma BodyKeepsLock(s: State, t: Thread)
    requires Locked(s) && Enabled(s, Body(t))
    ensures Locked(Apply(s, Body(t)))
  {
    var s' := Apply(s, Body(t));
    MoveKeepsLock(s, s', t, s'.pcs[t]);
  }

  /** Outside the lock a thread calls, or finds the flag clear or set. */
  lemma CallerKeepsLock(s: State, l: Label)
    requires Locked(s) && Enabled(s, l) && (l.Begin? || l.CheckFlag?)
    ensures Locked(Apply(s, l))
  {
    if l.Begin? {
      MoveKeepsLock(s, Apply(s, l), l.t, Entered(l.op));
    } else if !s.closed {
      MoveKeepsLock(s, Apply(s, l), l.t, WantLock(s.pcs[l.t].op));
    }
  }

  lemma StepKeepsLock(s: State, l: Label)
    requires Locked(s) && Enabled(s, l)
    ensures Locked(Apply(s, l))
  {
    match l
    case Announce(t) => AnnounceKeepsLock(s, t);
    case Lock(t) => AcquireKeepsLock(s, t);
    case Unlock(t) => ReleaseKeepsLock(s, t);
    case Begin(_, _) => CallerKeepsLock(s, l);
    case CheckFlag(_) => CallerKeepsLock(s, l);
    case Body(t) => BodyKeepsLock(s, t);
    case Receive =>
    case _ => HolderKeepsLock(s, l);
  }

  lemma BodyIsSafe(s: State, t: Thread)
    requires Locked(s) && Safe(s) && Enabled(s, Body(t))
    ensures Safe(Apply(s, Body(t)))
  {
  }

  lemma CloseChannelIsSafe(s: State, t: Thread)
    requires Locked(s) && Safe(s) && Enabled(s, CloseChannel(t))
    ensures Safe(Apply(s, CloseChannel(t)))
  {
  }

  /** A move that sets no flag, and leads into an operation only while the flag is clear. */
  lemma MoveIsSafe(s: State, s': State, t: Thread)
    requires Safe(s) && s'.closed == s.closed && s'.channelClosed == s.channelClosed
    requires s'.closeCount == s.closeCount && s'.lateSends == s.lateSends
    requires s'.pcs == s.pcs - {t} || (t in s'.pcs && s'.pcs == s.pcs[t := s'.pcs[t]])
    requires t in s'.pcs ==> !s'.pcs[t].Closing? && (Active(s'.pcs[t]) ==> !s.closed)
    ensures Safe(s')
  {
  }

  lemma StepIsSafe(s: State, l: Label)
    requires Locked(s) && Safe(s) && Enabled(s, l)
    ensures Safe(Apply(s, l))
  {
    match l
    case Body(t) => BodyIsSafe(s, t);
    case CloseChannel(t) => CloseChannelIsSafe(s, t);
    case Receive =>
    case _ => MoveIsSafe(s, Apply(s, l), l.t);
  }

  lemma SettledValues(removed: seq<Fate>, how: How)
    ensures Values(Settled(removed, how)) == Values(removed)
  {
  }

  lemma ValuesAppend(removed: seq<Fate>, f: Fate)
    ensures Values(removed + [f]) == Values(removed) + [f.v]
  {
  }

  lemma RemoveKeepsOrder(removed: seq<Fate>, queue: seq<Value>, how: How)
    requires queue != []
    ensures Values(removed) + queue == Values(removed + [Fate(queue[0], how)]) + queue[1..]
  {
    ValuesAppend(removed, Fate(queue[0], how));
    assert queue == [queue[0]] + queue[1..];
  }

  lemma BodyIsOrdered(s: State, t: Thread)
    requires Ordered(s) && Enabled(s, Body(t))
    ensures Ordered(Apply(s, Body(t)))
  {
    if s.queue != [] {
      RemoveKeepsOrder(s.removed, s.queue, HandedOut);
      RemoveKeepsOrder(s.removed, s.queue, InFlight);
    }
  }

  lemma StepIsOrdered(s: State, l: Label)
    requires Ordered(s) && Enabled(s, l)
    ensures Ordered(Apply(s, l))
  {
    match l
    case Body(t) => BodyIsOrdered(s, t);
    case Send(_) => SettledValues(s.removed, Sent);
    case Timeout(_) => SettledValues(s.removed, TimedOut);
    case _ =>
  }

  /** A move of a thread that is not a loop sending leaves every fate as it is. */
  lemma MoveIsFated(s: State, s': State, t: Thread)
    requires Fated(s) && s'.removed == s.removed && s'.writer == s.writer
    requires t in s.pcs ==> !LoopSending(s.pcs[t])
    requires s'.pcs == s.pcs - {t} || (t in s'.pcs && !LoopSending(s'.pcs[t]) && s'.pcs == s.pcs[t := s'.pcs[t]])
    ensures Fated(s')
  {
  }

  /** The value taken out has its fate at once, or is in flight in the writer's hands. */
  lemma TakenIsFated(s: State, t: Thread)
    requires Fated(s) && Enabled(s, Body(t)) && s.writer == Some(t) && s.queue != []
    requires s.pcs[t].op.DequeueOp? || s.pcs[t].op.LoopOp?
    requires forall u | u in s.pcs && u != t :: !LoopSending(s.pcs[u])
    ensures Fated(Apply(s, Body(t)))
  {
  }

  lemma BodyIsFated(s: State, t: Thread)
    requires Locked(s) && Fated(s) && Enabled(s, Body(t))
    ensures Fated(Apply(s, Body(t)))
  {
    var op := s.pcs[t].op;
    if (op.DequeueOp? || op.LoopOp?) && s.queue != [] {
      assert s.writer == Some(t);
      TakenIsFated(s, t);
    } else {
      MoveIsFated(s, Apply(s, Body(t)), t);
    }
  }

  lemma SendIsFated(s: State, l: Label)
    requires Locked(s) && Fated(s) && Enabled(s, l) && (l.Send? || l.Timeout?)
    ensures Fated(Apply(s, l))
  {
    if s.pcs[l.t].op.LoopOp? {
      assert s.writer == Some(l.t);
    }
  }

  lemma LockIsFated(s: State, l: Label)
    requires Locked(s) && Fated(s) && Enabled(s, l) && (l.Lock? || l.Unlock?)
    ensures Fated(Apply(s, l))
  {
  }

  lemma StepIsFated(s: State, l: Label)
    requires Locked(s) && Fated(s) && Enabled(s, l)
    ensures Fated(Apply(s, l))
  {
    match l
    case Body(t) => BodyIsFated(s, t);
    case Send(_) => SendIsFated(s, l);
    case Timeout(_) => SendIsFated(s, l);
    case Lock(_) => LockIsFated(s, l);
    case Unlock(_) => LockIsFated(s, l);
    case Receive =>
    case _ => MoveIsFated(s, Apply(s, l), l.t);
  }

  lemma SentOfAppend(removed: seq<Fate>, f: Fate)
    ensures SentOf(removed + [f]) == SentOf(removed) + if f.how == Sent then [f.v] else []
  {
    assert (removed + [f])[..|removed|] == removed;
  }

  lemma FromQueueAppend(ds: seq<Delivery>, d: Delivery)
    ensures FromQueue(ds + [d]) == FromQueue(ds) + if d.fromQueue then [d.v] else []
  {
    assert (ds + [d])[..|ds|] == ds;
  }

  lemma SettledShape(removed: seq<Fate>, v: Value, how: How) returns (front: seq<Fate>)
    requires removed != [] && removed[|removed| - 1] == Fate(v, InFlight)
    ensures removed == front + [Fate(v, InFlight)] && Settled(removed, how) == front + [Fate(v, how)]
  {
    front := removed[..|removed| - 1];
  }

  /** A value in flight is not among the sent ones until it is settled so. */
  lemma SettledSent(removed: seq<Fate>, v: Value, how: How)
    requires removed != [] && removed[|removed| - 1] == Fate(v, InFlight)
    ensures SentOf(Settled(removed, how)) == SentOf(removed) + if how == Sent then [v] else []
  {
    var front := SettledShape(removed, v, how);
    SentOfAppend(front, Fate(v, InFlight));
    SentOfAppend(front, Fate(v, how));
    assert SentOf(removed) == SentOf(front);
  }

  /** What an operation takes out of the queue is not sent yet. */
  lemma RemovedByBody(s: State, t: Thread, op: Op)
    ensures var s' := AfterBody(s, t, op);
            && s'.delivered == s.delivered
            && (s'.removed == s.removed || exists f: Fate :: f.how != Sent && s'.removed == s.removed + [f])
  {
    if s.queue != [] {
      var handed, flying := Fate(s.queue[0], HandedOut), Fate(s.queue[0], InFlight);
      assert handed.how != Sent && flying.how != Sent;
    }
  }

  lemma BodyKeepsDelivered(s: State, t: Thread)
    requires Delivered(s) && Enabled(s, Body(t))
    ensures Delivered(Apply(s, Body(t)))
  {
    var s' := AfterBody(s, t, s.pcs[t].op);
    RemovedByBody(s, t, s.pcs[t].op);
    if s'.removed != s.removed {
      var f: Fate :| f.how != Sent && s'.removed == s.removed + [f];
      SentOfAppend(s.removed, f);
    }
  }

  lemma SendKeepsDelivered(s: State, t: Thread)
    requires Fated(s) && Delivered(s) && Enabled(s, Send(t))
    ensures Delivered(Apply(s, Send(t)))
  {
    var Sending(op, v) := s.pcs[t];
    FromQueueAppend(s.delivered, Delivery(v, op.LoopOp?));
    if op.LoopOp? {
      SettledSent(s.removed, v, Sent);
    }
  }

  lemma TimeoutKeepsDelivered(s: State, t: Thread)
    requires Fated(s) && Delivered(s) && Enabled(s, Timeout(t))
    ensures Delivered(Apply(s, Timeout(t)))
  {
    if s.pcs[t].op.LoopOp? {
      SettledSent(s.removed, s.pcs[t].item, TimedOut);
    }
  }

  lemma SendIsBuffered(s: State, t: Thread)
    requires Safe(s) && Buffered(s) && Enabled(s, Send(t))
    ensures Buffered(Apply(s, Send(t)))
  {
    var v := s.pcs[t].item;
    assert Carried(s.delivered + [Delivery(v, s.pcs[t].op.LoopOp?)]) == Carried(s.delivered) + [v];
  }

  lemma StepIsBuffered(s: State, l: Label)
    requires Safe(s) && Buffered(s) && Enabled(s, l)
    ensures Buffered(Apply(s, l))
  {
    match l
    case Send(t) => SendIsBuffered(s, t);
    case Receive =>
      if s.buffer != [] {
        assert s.received + s.buffer == s.received + [s.buffer[0]] + s.buffer[1..];
      }
    case _ =>
  }

  lemma StepIsGood(s: State, l: Label)
    requires Good(s) && Enabled(s, l)
    ensures Good(Apply(s, l))
  {
    StepKeepsLock(s, l);
    StepIsSafe(s, l);
    StepIsOrdered(s, l);
    StepIsFated(s, l);
    StepIsBuffered(s, l);
    match l
    case Body(t) => BodyKeepsDelivered(s, t);
    case Send(t) => SendKeepsDelivered(s, t);
    case Timeout(t) => TimeoutKeepsDelivered(s, t);
    case _ =>
  }

  /** Once the flag is set, no step accepts, takes out or sends anything, or clears the flag. */
  lemma ClosedStaysQuiet(s: State, l: Label)
    requires Good(s) && s.closed && Enabled(s, l)
    ensures var s' := Apply(s, l);
            && s'.closed && s'.queue == s.queue && s'.accepted == s.accepted
            && s'.removed == s.removed && s'.delivered == s.delivered
  {
  }

  // ---------- Whole runs ----------

  lemma {:induction false} RunIsGood(s: State, ls: seq<Label>)
    requires Good(s) && CanRun(s, ls)
    ensures Good(End(s, ls))
    decreases |ls|
  {
    if ls != [] {
      StepIsGood(s, ls[0]);
      RunIsGood(Apply(s, ls[0]), ls[1..]);
    }
  }

  /**
   Close safety, for any number of threads and every interleaving: no send happens on a closed
   channel, none is even waiting when it is closed, and it is closed at most once.
   */
  lemma CloseIsSafe(capacity: nat, ls: seq<Label>)
    requires CanRun(Init(capacity), ls)
    ensures var s := End(Init(capacity), ls);
            && s.lateSends == 0 && s.closeCount <= 1
            && (s.channelClosed ==> forall t | t in s.pcs :: !s.pcs[t].Sending? && !s.pcs[t].Closing?)
  {
    RunIsGood(Init(capacity), ls);
  }

  /**
   FIFO: in every reachable state the removed values are a prefix of the accepted ones, each one
   is sent, handed out or timed out unless it is being sent right now, the channel carries the
   sent ones in queue order, and receivers get what the channel carries in that order.
   */
  lemma QueueIsFifo(capacity: nat, ls: seq<Label>)
    requires CanRun(Init(capacity), ls)
    ensures var s := End(Init(capacity), ls);
            && Values(s.removed) <= s.accepted
            && s.queue == s.accepted[|s.removed|..]
            && FromQueue(s.delivered) == SentOf(s.removed)
            && s.received <= Carried(s.delivered)
            && forall i | 0 <= i < |s.removed| && s.removed[i].how == InFlight ::
                 i == |s.removed| - 1 && exists t :: t in s.pcs && LoopSending(s.pcs[t])
  {
    RunIsGood(Init(capacity), ls);
    var s := End(Init(capacity), ls);
    assert |Values(s.removed)| == |s.removed|;
  }

  // ---------- Progress ----------

  /** A send that waits without a timeout on a channel with no room. */
  predicate StuckSender(s: State, t: Thread) {
    t in s.pcs && s.pcs[t].Sending? && Patient(s.pcs[t].op) && !HasRoom(s)
  }

  /** A thread that waits for the lock while an announced writer keeps it from everybody. */
  predicate WaitsForLock(s: State, t: Thread) {
    t in s.pcs && (s.pcs[t].Announced? || (s.pcs[t].WantLock? && s.announced.Some?))
  }

  /** Some sender waits without a timeout on a full channel, and everybody else is one, too, or waits for the lock behind them. */
  ghost predicate Jammed(s: State) {
    && (exists t :: StuckSender(s, t))
    && (forall t | t in s.pcs :: StuckSender(s, t) || WaitsForLock(s, t))
  }

  /** The step a thread takes next, when nothing outside holds it up. */
  function NextStep(s: State, t: Thread): Label
    requires t in s.pcs
  {
    match s.pcs[t]
    case Entered(_) => CheckFlag(t)
    case WantLock(op) => if Shared(op) then Lock(t) else Announce(t)
    case Announced(_) => Lock(t)
    case HasLock(_) => Recheck(t)
    case InBody(_) => Body(t)
    case Closing => CloseChannel(t)
    case Sending(op, _) => if Patient(op) then Send(t) else Timeout(t)
    case Unlocking(_) => Unlock(t)
  }

  /** Whoever holds the lock can step, unless it is a stuck sender; and if nobody holds it, an announced writer or anybody can. */
  lemma SomebodySteps(s: State) returns (t: Thread)
    requires Good(s) && s.pcs != map[]
    ensures t in s.pcs && (Enabled(s, NextStep(s, t)) || StuckSender(s, t))
  {
    if s.writer.Some? {
      t := s.writer.value;
    } else if s.readers != {} {
      t :| t in s.readers;
    } else if s.announced.Some? {
      t := s.announced.value;
    } else {
      t :| t in s.pcs;
    }
  }

  /** A thread that is neither a stuck sender nor waits behind one can step, as long as the writers are kept out by a stuck sender. */
  lemma OthersStep(s: State, t: Thread)
    requires Good(s) && s.writer.None? && t in s.pcs && !StuckSender(s, t) && !WaitsForLock(s, t)
    ensures Enabled(s, NextStep(s, t))
  {
  }

  /**
   Without a receiver that comes, and without new calls, threads under way get no further if and
   only if the channel is jammed by a send that has a negative timeout.
   */
  lemma StuckIffJammed(s: State)
    requires Good(s) && s.pcs != map[]
    ensures (forall l | Own(l) :: !Enabled(s, l)) <==> Jammed(s)
  {
    if Jammed(s) {
      JammedCannotStep(s);
    } else {
      var t := SomebodySteps(s);
      if StuckSender(s, t) {
        var u :| u in s.pcs && !StuckSender(s, u) && !WaitsForLock(s, u);
        assert t in s.readers;
        OthersStep(s, u);
        assert Own(NextStep(s, u));
      } else {
        assert Own(NextStep(s, t));
      }
    }
  }

  lemma JammedCannotStep(s: State)
    requires Good(s) && Jammed(s)
    ensures forall l | Own(l) :: !Enabled(s, l)
  {
    var t :| StuckSender(s, t);
    assert t in s.readers && !s.closed;
    forall l | Own(l) ensures !Enabled(s, l) {
      if l.t in s.pcs {
        assert StuckSender(s, l.t) || WaitsForLock(s, l.t);
      }
    }
  }

  /** No call in progress has a negative timeout. */
  ghost predicate NonePatient(s: State) {
    forall t | t in s.pcs && !s.pcs[t].Closing? :: !Patient(s.pcs[t].op)
  }

  predicate NeverPatient(ls: seq<Label>) {
    forall i | 0 <= i < |ls| && ls[i].Begin? :: !Patient(ls[i].op)
  }

  lemma {:induction false} RunStaysImpatient(s: State, ls: seq<Label>)
    requires NonePatient(s) && CanRun(s, ls) && NeverPatient(ls)
    ensures NonePatient(End(s, ls))
    decreases |ls|
  {
    if ls != [] {
      assert NeverPatient(ls[1..]);
      RunStaysImpatient(Apply(s, ls[0]), ls[1..]);
    }
  }

  /** If no send is given a negative timeout, no run ever gets stuck: for every capacity and all behaviour of receivers. */
  lemma NeverStuck(capacity: nat, ls: seq<Label>)
    requires CanRun(Init(capacity), ls) && NeverPatient(ls) && End(Init(capacity), ls).pcs != map[]
    ensures exists l :: Own(l) && Enabled(End(Init(capacity), ls), l)
  {
    var s := End(Init(capacity), ls);
    RunIsGood(Init(capacity), ls);
    RunStaysImpatient(Init(capacity), ls);
    StuckIffJammed(s);
  }

  // ---------- A jam ----------

  /** While nobody receives, a stuck sender stays stuck, keeps the read lock, and so the channel is never closed. */
  lemma {:induction false} StuckUntilReceived(s: State, ls: seq<Label>, t: Thread)
    requires Good(s) && StuckSender(s, t) && CanRun(s, ls) && Receive !in ls
    ensures StuckSender(End(s, ls), t) && !End(s, ls).closed && !End(s, ls).channelClosed
    decreases |ls|
  {
    assert t in s.readers && !s.closed;
    if ls != [] {
      StepKeepsStuck(s, ls[0], t);
      StepIsGood(s, ls[0]);
      StuckUntilReceived(Apply(s, ls[0]), ls[1..], t);
    }
  }

  lemma StepKeepsStuck(s: State, l: Label, t: Thread)
    requires Good(s) && StuckSender(s, t) && Enabled(s, l) && !l.Receive?
    ensures StuckSender(Apply(s, l), t)
  {
    assert t in s.readers && !s.closed;
  }

  lemma {:induction false} AppendStep(s: State, ls: seq<Label>, l: Label)
    requires CanRun(s, ls) && Enabled(End(s, ls), l)
    ensures CanRun(s, ls + [l]) && End(s, ls + [l]) == Apply(End(s, ls), l)
    decreases |ls|
  {
    if ls == [] {
      assert ls + [l] == [l] && [l][1..] == [];
    } else {
      AppendStep(Apply(s, ls[0]), ls[1..], l);
      assert (ls + [l])[0] == ls[0] && (ls + [l])[1..] == ls[1..] + [l];
    }
  }

  /** Nobody is under way, and n values wait in the buffer. */
  predicate Calm(s: State, n: nat) {
    && s.pcs == map[] && !s.closed && !s.channelClosed && LockFree(s) && s.readers == {}
    && |s.buffer| == n && s.receivers == 0
  }

  const PATIENT: Op := SendOp(7, -1)

  /** A thread calls SendWithTimeout with a negative timeout and gets the read lock. */
  lemma PatientSendLocks(capacity: nat, before: seq<Label>, n: nat) returns (ls: seq<Label>)
    requires CanRun(Init(capacity), before) && Calm(End(Init(capacity), before), n) && Receive !in before
    ensures CanRun(Init(capacity), ls) && Receive !in ls
    ensures End(Init(capacity), ls) == End(Init(capacity), before).(readers := {0}, pcs := map[0 := HasLock(PATIENT)])
  {
    var s0 := Init(capacity);
    AppendStep(s0, before, Begin(0, PATIENT));
    ls := before + [Begin(0, PATIENT)];
    AppendStep(s0, ls, CheckFlag(0));
    ls := ls + [CheckFlag(0)];
    AppendStep(s0, ls, Lock(0));
    ls := ls + [Lock(0)];
  }

  /** It gets as far as the send. */
  lemma PatientSendArrives(capacity: nat, before: seq<Label>, n: nat) returns (ls: seq<Label>)
    requires CanRun(Init(capacity), before) && Calm(End(Init(capacity), before), n) && Receive !in before
    ensures CanRun(Init(capacity), ls) && Receive !in ls
    ensures End(Init(capacity), ls) == End(Init(capacity), before).(readers := {0}, pcs := map[0 := Sending(PATIENT, 7)])
  {
    ls := PatientSendLocks(capacity, before, n);
    AppendStep(Init(capacity), ls, Recheck(0));
    ls := ls + [Recheck(0)];
    AppendStep(Init(capacity), ls, Body(0));
    ls := ls + [Body(0)];
  }

  /** The buffer fills up while nobody receives. */
  lemma {:induction false} Fill(capacity: nat, n: nat) returns (ls: seq<Label>)
    requires n <= capacity
    ensures CanRun(Init(capacity), ls) && Receive !in ls && End(Init(capacity), ls).capacity == capacity
    ensures Calm(End(Init(capacity), ls), n)
  {
    if n == 0 {
      ls := [];
    } else {
      var before := Fill(capacity, n - 1);
      ls := PatientSendArrives(capacity, before, n - 1);
      AppendStep(Init(capacity), ls, Send(0));
      ls := ls + [Send(0)];
      AppendStep(Init(capacity), ls, Unlock(0));
      ls := ls + [Unlock(0)];
    }
  }

  /**
   For every capacity some run jams: SendWithTimeout with a negative timeout on a channel that is
   full and that nobody reads. Close has been called and waits behind it.
   */
  lemma JamReachable(capacity: nat) returns (ls: seq<Label>)
    ensures CanRun(Init(capacity), ls) && Receive !in ls
    ensures var s := End(Init(capacity), ls);
            Jammed(s) && StuckSender(s, 0) && 1 in s.pcs && s.pcs[1] == Announced(CloseOp)
  {
    var s0 := Init(capacity);
    var full := Fill(capacity, capacity);
    ls := PatientSendArrives(capacity, full, capacity);
    AppendStep(s0, ls, Begin(1, CloseOp));
    ls := ls + [Begin(1, CloseOp)];
    AppendStep(s0, ls, CheckFlag(1));
    ls := ls + [CheckFlag(1)];
    AppendStep(s0, ls, Announce(1));
    ls := ls + [Announce(1)];
    var s := End(s0, ls);
    assert s.pcs == map[0 := Sending(PATIENT, 7), 1 := Announced(CloseOp)];
    assert StuckSender(s, 0) && WaitsForLock(s, 1);
  }
}
