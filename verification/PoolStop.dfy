/// Stop waits for all tasks, but the scheduler leaves as soon as it sees the shutdown, and a batch
/// goes on being counted. This tells exactly when the wait can end, what makes it hang, and which
/// tasks it misses.

module PoolStop {
  import opened Tasks
  import opened TaskHeap
  import opened PoolProtocol
  import opened PoolLiveness

  // ---------- what leaves a task behind ----------

  /** No counted task waits in a queue, on its way into one, or for a retry. */
  ghost predicate NothingQueued(s: Pool) {
    && s.pushing == multiset{} && s.taskQueue == [] && s.retryQueue == []
    && forall w :: 0 <= w < |s.workers| ==> !s.workers[w].phase.Requeueing?
  }

  lemma {:induction false} RequeueingHasTickets(ws: seq<Worker>, w: nat)
    requires w < |ws| && ws[w].phase.Requeueing?
    ensures Tickets(ws) > 0
  {
    if w == 0 {
    } else {
      RequeueingHasTickets(ws[1..], w - 1);
    }
  }

  lemma QueuedMeansTickets(s: Pool)
    requires TicketsCounted(s) && !NothingQueued(s)
    ensures s.stats.wg > 0
  {
    if w :| 0 <= w < |s.workers| && s.workers[w].phase.Requeueing? {
      RequeueingHasTickets(s.workers, w);
    }
  }

  /** Without the scheduler nothing leaves the queues. */
  lemma StaysQueued(s: Pool, e: Event)
    requires s.scheduler.Exited? && !NothingQueued(s) && Enabled(s, e)
    ensures Next(s, e).scheduler.Exited? && !NothingQueued(Next(s, e))
  {
    hide SiftUp, RecordsAfter, StatsAfter, HistoryAfter;
    match e
    case Submit(t) => assert t in Next(s, e).pushing;
    case Count(t) => assert t in Next(s, e).pushing;
    case Push(t) => assert Next(s, e).taskQueue != [];
    case Work(w, m) => WorkerLeavesQueued(s, w, m);
    case _ =>
  }

  lemma WorkerLeavesQueued(s: Pool, w: nat, m: WorkerMove)
    requires !NothingQueued(s) && WorkerEnabled(s, w, m)
    ensures !NothingQueued(WorkerNext(s, w, m)) && WorkerNext(s, w, m).scheduler == s.scheduler
  {
    hide SiftUp, RecordsAfter, StatsAfter, HistoryAfter;
    if m.Requeue? {
      assert WorkerNext(s, w, m).retryQueue != [];
    } else if v :| 0 <= v < |s.workers| && s.workers[v].phase.Requeueing? {
      assert WorkerNext(s, w, m).workers[v].phase.Requeueing?;
    }
  }

  lemma {:induction false} NeverStops(s: Pool, es: seq<Event>, s': Pool)
    requires Inv(s) && s.scheduler.Exited? && !s.stopped && !NothingQueued(s) && Run(s, es, s')
    ensures !s'.stopped
    decreases |es|
  {
    if es == [] {
    } else {
      StaysQueued(s, es[0]);
      StepKeepsInv(s, es[0]);
      QueuedMeansTickets(s);
      StepKeepsLate(s, es[0], Task(0, 0, 0, 0));
      hide Next, Inv, NothingQueued;
      NeverStops(Next(s, es[0]), es[1..], s');
    }
  }

  // ---------- runs that get past the wait ----------

  /** Stop gets past its wait in some continuation. */
  ghost predicate CanReturn(s: Pool) {
    exists es, s' :: Run(s, es, s') && s'.stopped
  }

  /** A worker's move that is no failure queues nothing. */
  lemma StaysUnqueued(s: Pool, e: Event)
    requires NothingQueued(s) && Enabled(s, e) && e.Work? && e.move != Fail
    ensures NothingQueued(Next(s, e))
  {
    hide SiftUp, RecordsAfter, StatsAfter, HistoryAfter;
  }

  /** A step, perhaps after a few of the scan, that brings the end nearer, counts no task, and
      does not make the scheduler leave. */
  lemma NearerStep(s: Pool) returns (es: seq<Event>, s': Pool, e: Event)
    requires Inv(s) && !Empty(s) && (s.scheduler.Exited? ==> NothingQueued(s))
    ensures Run(s, es, s') && s' == s.(scheduler := s'.scheduler) && Inv(s') && Measure(s') == Measure(s)
    ensures Enabled(s', e) && Internal(e) && Productive(e) && !e.Count?
    ensures Next(s', e).scheduler.Exited? ==> NothingQueued(Next(s', e))
  {
    if s.scheduler.Exited? {
      var w :| 0 <= w < |s.workers| && s.workers[w] != Worker(Idle, []);
      e := BusyWorkerMove(s, w);
      es, s' := [], s;
      StaysUnqueued(s, e);
    } else {
      es, s', e := ProductiveStepAhead(s);
      ProductiveStays(s', e);
    }
  }

  lemma ProductiveStays(s: Pool, e: Event)
    requires Enabled(s, e) && Productive(e) && !s.scheduler.Exited?
    ensures !Next(s, e).scheduler.Exited?
  {
    hide Popped, Pushed, WorkerAfter, RecordsAfter, StatsAfter, HistoryAfter;
  }

  lemma UncountingStep(s: Pool, e: Event)
    requires Enabled(s, e) && Internal(e) && !e.Count?
    ensures Next(s, e).promised == s.promised && Next(s, e).shutdown == s.shutdown && Next(s, e).stopped == s.stopped
  {
    hide WorkerNext, SchedulerNext, WorkerEnabled, SchedulerEnabled;
    match e
    case Work(w, m) => WorkerKeepsFlags(s, w, m);
    case Schedule(m) => SchedulerKeepsBooks(s, m);
    case _ =>
  }

  /** Unless the scheduler has left tasks behind, the wait can end before any promised task is
      counted. */
  lemma {:induction false} Finishes(s: Pool) returns (es: seq<Event>, s': Pool)
    requires Inv(s) && s.shutdown && (s.scheduler.Exited? ==> NothingQueued(s))
    ensures Run(s, es, s') && s'.stopped && s'.promised == s.promised
    decreases Measure(s)
  {
    if s.stopped {
      es, s' := [], s;
    } else if Empty(s) {
      ZeroMeansEmpty(s);
      es, s' := [WaitReturns], Next(s, WaitReturns);
      assert es[1..] == [] && Run(s', [], s');
    } else {
      var scan, s1, e := NearerStep(s);
      StepKeepsInv(s1, e);
      HasShape(s1);
      StepCosts(s1, e);
      UncountingStep(s1, e);
      hide Next, Enabled, Inv, NothingQueued, Measure, Empty, Shape;
      var rest;
      rest, s' := Finishes(Next(s1, e));
      RunExtends(s1, e, rest, s');
      RunAppends(s, scan, s1, [e] + rest, s');
      es := scan + ([e] + rest);
    }
  }

  /** After Stop is called its wait can still end exactly when it has ended, or the scheduler is
      still there, or it left nothing queued. */
  lemma CanReturnIff(s: Pool)
    requires Inv(s) && s.shutdown
    ensures CanReturn(s) <==> s.stopped || !s.scheduler.Exited? || NothingQueued(s)
  {
    if s.stopped {
      assert Run(s, [], s);
    } else if !s.scheduler.Exited? || NothingQueued(s) {
      var es, s' := Finishes(s);
    } else {
      hide Inv, NothingQueued;
      forall es, s' | Run(s, es, s') ensures !s'.stopped {
        NeverStops(s, es, s');
      }
    }
  }

  // ---------- tasks that can come back ----------

  /** A failure of `t` would not be retried. */
  predicate UsedUp(s: Pool, t: Task) {
    t in s.records.retryCount && s.records.retryCount[t] >= t.maxRetries
  }

  predicate UsedUpAt(s: Pool, w: Worker) {
    && (forall t :: t in w.inbox ==> UsedUp(s, t))
    && (w.phase.Received? || w.phase.Running? ==> UsedUp(s, w.phase.task))
  }

  /** Every task in hand, in an inbox, received or running has no retries left. */
  ghost predicate AllUsedUp(s: Pool) {
    && (s.scheduler.Holding? ==> UsedUp(s, s.scheduler.task))
    && forall w :: 0 <= w < |s.workers| ==> UsedUpAt(s, s.workers[w])
  }

  /** No batch is being counted, nothing is queued, and nothing can come back into a queue. */
  ghost predicate NothingComesBack(s: Pool) {
    s.promised == {} && NothingQueued(s) && AllUsedUp(s)
  }

  /** A worker is given a task that has retries left. */
  predicate HasRetryAt(s: Pool, w: Worker) {
    && (w.phase.Received? || w.phase.Running? ==> w.phase.task in s.records.retryCount)
    && (forall t :: t in w.inbox ==> t in s.records.retryCount)
    && !UsedUpAt(s, w)
  }

  /** That worker can be driven until it fails the task and owes its retry. */
  lemma {:induction false} FailsOnce(s: Pool, w: nat) returns (es: seq<Event>, s': Pool)
    requires Inv(s) && s.scheduler.Exited? && s.shutdown && !s.stopped && w < |s.workers| && HasRetryAt(s, s.workers[w])
    ensures Run(s, es, s') && Inv(s') && s'.scheduler.Exited? && s'.shutdown && !s'.stopped && !NothingQueued(s')
    decreases Measure(s)
  {
    var p := s.workers[w].phase;
    if p.Requeueing? {
      es, s' := [], s;
    } else if p.Running? && !UsedUp(s, p.task) {
      s' := FailStep(s, w);
      es := [Work(w, Fail)];
      assert es[1..] == [] && Run(s', [], s');
    } else {
      var e := BusyWorkerMove(s, w);
      KeepsRetryAt(s, e);
      StepKeepsInv(s, e);
      HasShape(s);
      StepCosts(s, e);
      WorkerKeepsFlags(s, w, e.move);
      hide Next, Enabled, Inv, HasRetryAt, Measure, Shape;
      var rest;
      rest, s' := FailsOnce(Next(s, e), w);
      RunExtends(s, e, rest, s');
      es := [e] + rest;
    }
  }

  lemma FailQueues(s: Pool, w: nat)
    requires WorkerEnabled(s, w, Fail) && Retries(s, s.workers[w].phase.task, Fail)
    ensures !NothingQueued(WorkerNext(s, w, Fail))
  {
    hide RecordsAfter, StatsAfter, HistoryAfter;
    assert WorkerNext(s, w, Fail).workers[w].phase.Requeueing?;
  }

  lemma FailStep(s: Pool, w: nat) returns (s': Pool)
    requires Inv(s) && s.scheduler.Exited? && s.shutdown && !s.stopped && w < |s.workers|
    requires s.workers[w].phase.Running? && s.workers[w].phase.task in s.records.retryCount
    requires !UsedUp(s, s.workers[w].phase.task)
    ensures Enabled(s, Work(w, Fail)) && s' == Next(s, Work(w, Fail))
    ensures Inv(s') && s'.scheduler.Exited? && s'.shutdown && !s'.stopped && !NothingQueued(s')
  {
    hide Inv, WorkerNext, NothingQueued;
    s' := Next(s, Work(w, Fail));
    WorkerKeepsFlags(s, w, Fail);
    FailQueues(s, w);
    StepKeepsInv(s, Work(w, Fail));
  }

  lemma KeepsRetryAt(s: Pool, e: Event)
    requires Enabled(s, e) && e.Work? && e.move != Fail && HasRetryAt(s, s.workers[e.w])
    requires !(s.workers[e.w].phase.Running? && !UsedUp(s, s.workers[e.w].phase.task))
    ensures e.w < |Next(s, e).workers| && HasRetryAt(Next(s, e), Next(s, e).workers[e.w])
  {
    var w, s' := s.workers[e.w], Next(s, e);
    assert s'.records.retryCount == s.records.retryCount;
    assert s'.workers[e.w] == WorkerAfter(s, e.w, e.move);
    hide StatsAfter, HistoryAfter, RecordsAfter, SiftUp, WorkerNext;
    assert e.move.Receive? ==> w.inbox == [w.inbox[0]] + w.inbox[1..];
    assert forall t :: UsedUp(s', t) == UsedUp(s, t);
  }

  /** Whatever happens, Stop can still get past its wait. */
  ghost predicate AlwaysCanReturn(s: Pool) {
    forall es, s' :: Run(s, es, s') ==> CanReturn(s')
  }

  lemma TasksKnown(s: Pool, w: nat)
    requires Inv(s) && w < |s.workers| && !UsedUpAt(s, s.workers[w])
    ensures HasRetryAt(s, s.workers[w])
  {
    var x := s.workers[w];
    if x.phase.Received? || x.phase.Running? {
      WorkerTaskKnown(s, w);
    }
    forall t | t in x.inbox ensures t in s.records.retryCount {
      AtWorker(s, w, t);
    }
  }

  /** A run that leaves a task behind, once the scheduler has left. */
  lemma LeavesBehind(s: Pool) returns (es: seq<Event>, s': Pool)
    requires Inv(s) && s.scheduler.Exited? && s.shutdown && !s.stopped && !NothingComesBack(s)
    ensures Run(s, es, s') && !CanReturn(s') && Inv(s') && s'.scheduler.Exited?
  {
    if !NothingQueued(s) {
      es, s' := [], s;
      CanReturnIff(s);
    } else if t :| t in s.promised {
      s' := Next(s, Count(t));
      es := [Count(t)];
      assert es[1..] == [] && Run(s', [], s');
      StepKeepsInv(s, Count(t));
      assert t in s'.pushing;
      CanReturnIff(s');
    } else {
      var w :| 0 <= w < |s.workers| && !UsedUpAt(s, s.workers[w]);
      TasksKnown(s, w);
      es, s' := FailsOnce(s, w);
      CanReturnIff(s');
    }
  }

  /** That happens in runs that start from a new pool: a task is submitted, Stop is called,
      and the scheduler sees the shutdown before the task. */
  lemma StopCanHang(workerCount: nat, t: Task)
    requires workerCount > 0
    ensures exists s :: Run(Initial(workerCount), [Submit(t), Push(t), Stop, Schedule(Exit)], s) && !CanReturn(s)
  {
    var s0 := Initial(workerCount);
    var s1 := Next(s0, Submit(t));
    assert t in s1.pushing;
    var s2 := Next(s1, Push(t));
    var s3 := Next(s2, Stop);
    var s := Next(s3, Schedule(Exit));
    assert |Pushed([], t)| == 1;
    assert s.taskQueue != [];
    var es := [Submit(t), Push(t), Stop, Schedule(Exit)];
    FourSteps(s0, es, s1, s2, s3, s);
    InitialInv(workerCount);
    hide Next, Enabled, Initial;
    RunKeepsInv(s0, es, s);
    CanReturnIff(s);
    hide Run, CanReturn;
  }

  lemma FourSteps(s0: Pool, es: seq<Event>, s1: Pool, s2: Pool, s3: Pool, s: Pool)
    requires |es| == 4
    requires Enabled(s0, es[0]) && s1 == Next(s0, es[0]) && Enabled(s1, es[1]) && s2 == Next(s1, es[1])
    requires Enabled(s2, es[2]) && s3 == Next(s2, es[2]) && Enabled(s3, es[3]) && s == Next(s3, es[3])
    ensures Run(s0, es, s)
  {
    hide Next, Enabled;
    RunExtends(s3, es[3], [], s);
    RunExtends(s2, es[2], [es[3]], s);
    RunExtends(s1, es[1], [es[2], es[3]], s);
    RunExtends(s0, es[0], [es[1], es[2], es[3]], s);
    assert [es[3]] + [] == [es[3]] && [es[2]] + [es[3]] == [es[2], es[3]];
    assert [es[1]] + [es[2], es[3]] == [es[1], es[2], es[3]];
    assert [es[0]] + [es[1], es[2], es[3]] == es;
  }

  // ---------- batches that Stop cuts off ----------

  /** After Stop no call promises a task any more. */
  lemma StepShrinksPromises(s: Pool, e: Event)
    requires s.shutdown && Enabled(s, e)
    ensures Next(s, e).shutdown && Next(s, e).promised <= s.promised
  {
    hide WorkerNext, SchedulerNext, WorkerEnabled, SchedulerEnabled;
    match e
    case Work(w, m) => WorkerKeepsFlags(s, w, m);
    case Schedule(m) => SchedulerKeepsBooks(s, m);
    case _ =>
  }

  lemma {:induction false} PromisesShrink(s: Pool, es: seq<Event>, s': Pool)
    requires s.shutdown && Run(s, es, s')
    ensures s'.promised <= s.promised
    decreases |es|
  {
    if es == [] {
    } else {
      StepShrinksPromises(s, es[0]);
      hide Next, Enabled;
      PromisesShrink(Next(s, es[0]), es[1..], s');
    }
  }

  /** After Stop is called, a task of a batch can still be uncounted when Stop gets past its wait
      exactly when it is uncounted now and the wait can end at all. */
  lemma CutOffIff(s: Pool, t: Task)
    requires Inv(s) && s.shutdown && !s.stopped
    ensures (exists es, s' :: Run(s, es, s') && s'.stopped && t in s'.promised)
            <==> t in s.promised && (!s.scheduler.Exited? || NothingQueued(s))
  {
    if t in s.promised && (!s.scheduler.Exited? || NothingQueued(s)) {
      var es, s' := Finishes(s);
    } else {
      CanReturnIff(s);
      hide Inv, NothingQueued;
      forall es, s' | Run(s, es, s') && s'.stopped ensures t !in s'.promised {
        assert CanReturn(s);
        PromisesShrink(s, es, s');
      }
    }
  }

  /** A task that was promised, or waits for its first start. */
  predicate NotStarted(s: Pool, t: Task) {
    t in s.promised || t in s.pushing || t in s.taskQueue
  }

  lemma StaysNotStarted(s: Pool, e: Event, t: Task)
    requires Heaps(s) && s.scheduler.Exited? && NotStarted(s, t) && Enabled(s, e)
    ensures Next(s, e).scheduler.Exited? && NotStarted(Next(s, e), t)
  {
    hide IsHeap, Pushed, WorkerNext, WorkerEnabled;
    match e
    case Work(w, m) => WorkerKeepsFlags(s, w, m);
    case Push(p) =>
      PushKeepsHeap(s.taskQueue, p);
      assert t in multiset(s.taskQueue) ==> t in multiset(Pushed(s.taskQueue, p));
      assert p in multiset(Pushed(s.taskQueue, p));
    case _ =>
  }

  lemma NotStartedIsUndecided(s: Pool, t: Task)
    requires Inv(s) && NotStarted(s, t)
    ensures !Decided(s, t)
  {
    hide Waits, Runs, Heaps, TicketsCounted, StatsExact, AttemptsBounded, StopWaited;
    assert Places(s, t) == if t in s.records.status then 1 else 0;
    assert t in s.taskQueue ==> t in multiset(s.taskQueue);
  }

  /** A task that is not started when the scheduler has left is never decided, although its call
      was answered with success. */
  lemma {:induction false} LeftBehindForGood(s: Pool, es: seq<Event>, s': Pool, t: Task)
    requires Inv(s) && s.scheduler.Exited? && NotStarted(s, t) && Run(s, es, s')
    ensures !Decided(s', t)
    decreases |es|
  {
    if es == [] {
      NotStartedIsUndecided(s, t);
    } else {
      StaysNotStarted(s, es[0], t);
      StepKeepsInv(s, es[0]);
      hide Next, Enabled, Inv, NotStarted;
      LeftBehindForGood(Next(s, es[0]), es[1..], s', t);
    }
  }
}
