/// The worker pool as a program: each method is one atomic step of a submitter, the scheduler or
/// a worker, on the pool's own queues and fields, and takes the step of the same name in
/// PoolProtocol.dfy.

module WorkerPool {
  import opened Options
  import opened Tasks
  import opened TaskHeap
  import opened PoolProtocol
  import opened PoolLiveness

  /** How the function of a task ends. */
  datatype Outcome = ReturnsNil | ReturnsError | RunsTooLong

  class Pool {
    const taskQueue: PriorityQueue
    const retryQueue: PriorityQueue
    var workers: seq<Worker>
    var scheduler: Scheduler
    var promised: set<Task>
    var pushing: multiset<Task>
    var records: Records
    var stats: Stats
    var isShutdown: bool
    var stopped: bool
    ghost var history: History

    ghost predicate Valid()
      reads this, taskQueue, retryQueue, taskQueue.Repr, retryQueue.Repr
    {
      && taskQueue.Valid() && retryQueue.Valid()
      && taskQueue.Repr !! retryQueue.Repr
      && this !in taskQueue.Repr && this !in retryQueue.Repr
    }

    ghost function View(): PoolProtocol.Pool
      reads this, taskQueue, retryQueue, taskQueue.Repr, retryQueue.Repr
      requires Valid()
    {
      PoolProtocol.Pool(workers, scheduler, promised, pushing, taskQueue.Contents(), retryQueue.Contents(),
                        records, stats, isShutdown, stopped, history)
    }

    constructor (workerCount: nat)
      ensures Valid() && fresh(taskQueue.Repr) && fresh(retryQueue.Repr)
      ensures View() == Initial(workerCount)
    {
      taskQueue := new PriorityQueue();
      retryQueue := new PriorityQueue();
      workers := seq(workerCount, _ => Worker(Idle, []));
      scheduler, promised, pushing := Waiting, {}, multiset{};
      records, stats := Records(map[], map[]), Stats(0, 0, 0, 0, 0);
      isShutdown, stopped := false, false;
      history := History(multiset{}, multiset{}, map[], {});
    }

    // ---------- submitters ----------

    /** The total and the ticket of one task; a new one comes with its fields. */
    method AddTicket(task: Task)
      requires Valid()
      modifies `pushing, `records, `stats, `history
      ensures Valid() && View() == CountNext(old(View()), task)
    {
      hide PriorityQueue.Contents, PriorityQueue.Valid;
      stats := stats.(total := stats.total + 1);
      stats := stats.(wg := stats.wg + 1);
      if task !in records.status {
        records := Records(records.status[task := Pending], records.retryCount[task := 0]);
        history := history.(runs := history.runs[task := 0]);
      }
      pushing := pushing + multiset{task};
      history := history.(late := if stopped then history.late + {task} else history.late);
    }

    /** The shutdown check of Submit and the counting. */
    method Accept(task: Task) returns (ok: bool)
      requires Valid()
      modifies this
      ensures Valid() && ok == !old(isShutdown)
      ensures View() == if ok then CountNext(old(View()), task) else old(View())
      ensures ok && Fresh(old(View()), task) ==>
        Enabled(old(View()), Event.Submit(task)) && View() == Next(old(View()), Event.Submit(task))
    {
      if isShutdown {
        return false;
      }
      AddTicket(task);
      hide CountNext;
      return true;
    }

    /** The shutdown check of SubmitBatch. */
    method AcceptBatch(tasks: set<Task>) returns (ok: bool)
      requires Valid()
      modifies `promised
      ensures Valid() && ok == !old(isShutdown)
      ensures View() == if ok then old(View()).(promised := old(promised) + tasks) else old(View())
      ensures ok && (forall t :: t in tasks ==> Fresh(old(View()), t)) ==>
        Enabled(old(View()), Event.Promise(tasks)) && View() == Next(old(View()), Event.Promise(tasks))
    {
      if isShutdown {
        return false;
      }
      promised := promised + tasks;
      return true;
    }

    /** The counting in one round of a batch. */
    method Count(task: Task)
      requires Valid()
      modifies this
      ensures Valid() && View() == CountNext(old(View()).(promised := old(promised) - {task}), task)
      ensures task in old(promised) ==> View() == Next(old(View()), Event.Count(task))
    {
      hide CountNext;
      promised := promised - {task};
      AddTicket(task);
    }

    /** One PushTask of a submitter. */
    method Push(task: Task)
      requires Valid() && task in pushing
      modifies this`pushing, taskQueue.Repr
      ensures Valid() && fresh(taskQueue.Repr - old(taskQueue.Repr))
      ensures View() == Next(old(View()), Event.Push(task))
    {
      hide Pushed, IsHeap;
      pushing := pushing - multiset{task};
      taskQueue.PushTask(task);
    }

    /** A call of Submit that nothing interrupts; for a new task these are steps of the protocol. */
    method Submit(task: Task) returns (ok: bool)
      requires Valid()
      modifies this, taskQueue.Repr
      ensures Valid() && fresh(taskQueue.Repr - old(taskQueue.Repr)) && ok == !old(isShutdown)
      ensures View() == if ok then Submitted(old(View()), task) else old(View())
      ensures Fresh(old(View()), task) ==>
        Run(old(View()), if ok then [Event.Submit(task), Event.Push(task)] else [], View())
    {
      ok := Accept(task);
      if ok {
        ghost var counted := View();
        CountedIsPushing(old(View()), task);
        Push(task);
        hide Next, Enabled, CountNext;
        if Fresh(old(View()), task) {
          TwoSteps(old(View()), Event.Submit(task), counted, Event.Push(task), View());
        }
      }
    }

    /** A call of SubmitBatch that nothing interrupts: the check, and one round for each task. For
        new and distinct tasks these are steps of the protocol. */
    method SubmitBatch(tasks: seq<Task>) returns (ok: bool)
      requires Valid()
      modifies this, taskQueue.Repr
      ensures Valid() && fresh(taskQueue.Repr - old(taskQueue.Repr)) && ok == !old(isShutdown)
      ensures ok ==> Unpromised(View()) == AllSubmitted(Unpromised(old(View())), tasks)
      ensures !ok ==> View() == old(View())
      ensures AllNew(old(View()), tasks) ==>
        Run(old(View()), if ok then [Event.Promise(Elements(tasks))] + Rounds(tasks) else [], View())
    {
      ghost var s := View();
      ok := AcceptBatch(Elements(tasks));
      if !ok {
        return;
      }
      hide Next, Enabled, Rounds, AllSubmitted, Unpromised, CountNext, PriorityQueue.Contents;
      PromisedBatch(s, View(), tasks);
      CountBatch(tasks);
      if AllNew(s, tasks) {
        RunExtends(s, Event.Promise(Elements(tasks)), Rounds(tasks), View());
      }
    }

    /** The loop of SubmitBatch. */
    method CountBatch(tasks: seq<Task>)
      requires Valid()
      modifies this, taskQueue.Repr
      ensures Valid() && fresh(taskQueue.Repr - old(taskQueue.Repr))
      ensures Unpromised(View()) == AllSubmitted(Unpromised(old(View())), tasks)
      ensures AllPromised(old(promised), tasks) ==> Run(old(View()), Rounds(tasks), View())
    {
      hide Run, Rounds, AllSubmitted, Submitted, Unpromised, PriorityQueue.Contents;
      ghost var s := View();
      NothingSubmitted(s);
      assert tasks[..0] == [];
      for i := 0 to |tasks|
        invariant Valid() && fresh(taskQueue.Repr - old(taskQueue.Repr))
        invariant Unpromised(View()) == AllSubmitted(Unpromised(s), tasks[..i])
        invariant AllPromised(s.promised, tasks) ==>
          Run(s, Rounds(tasks[..i]), View()) && forall j :: i <= j < |tasks| ==> tasks[j] in promised
      {
        ghost var before := View();
        OneOfBatch(tasks[i]);
        MoreSubmitted(Unpromised(s), tasks, i);
        if AllPromised(s.promised, tasks) {
          OneRound(s, tasks, i, before, View());
        }
      }
      assert tasks[..|tasks|] == tasks;
    }

    /** One round of the batch's loop. */
    method OneOfBatch(task: Task)
      requires Valid()
      modifies this, taskQueue.Repr
      ensures Valid() && fresh(taskQueue.Repr - old(taskQueue.Repr)) && promised == old(promised) - {task}
      ensures Unpromised(View()) == Submitted(Unpromised(old(View())), task)
      ensures task in old(promised) ==> Run(old(View()), [Event.Count(task), Event.Push(task)], View())
    {
      ghost var before := View();
      Count(task);
      ghost var counted := View();
      CountedIsPushing(before.(promised := before.promised - {task}), task);
      Push(task);
      hide Next, Enabled, Submitted, Unpromised, CountNext;
      RoundSubmits(before, counted, View(), task);
      if task in before.promised {
        CountedOfPromised(before, task);
        TwoSteps(before, Event.Count(task), counted, Event.Push(task), View());
      }
    }

    // ---------- Stop ----------

    method Stop() returns (first: bool)
      requires Valid()
      modifies `isShutdown
      ensures Valid() && first == !old(isShutdown) && isShutdown
      ensures View() == if first then Next(old(View()), Event.Stop) else old(View())
    {
      if isShutdown {
        return false;
      }
      isShutdown := true;
      return true;
    }

    method WaitReturns() returns (done: bool)
      requires Valid()
      modifies `stopped
      ensures Valid() && done == Enabled(old(View()), Event.WaitReturns)
      ensures done <==> isShutdown && !old(stopped) && stats.wg == 0
      ensures View() == if done then Next(old(View()), Event.WaitReturns) else old(View())
    {
      if !isShutdown || stopped || stats.wg != 0 {
        return false;
      }
      stopped := true;
      return true;
    }

    // ---------- the scheduler ----------

    /** The next step of the scheduler and of dispatchTasks, if it is not blocked. `leave` says
        which ready branch its `select` takes after shutdown. */
    method SchedulerStep(leave: bool) returns (move: Option<SchedulerMove>)
      requires Valid()
      modifies this, taskQueue.Repr, retryQueue.Repr
      ensures Valid() && fresh(taskQueue.Repr - old(taskQueue.Repr)) && fresh(retryQueue.Repr - old(retryQueue.Repr))
      ensures move.Some? ==>
        SchedulerEnabled(old(View()), move.value) && View() == SchedulerNext(old(View()), move.value)
      ensures move.None? ==> View() == old(View()) && forall m :: !SchedulerEnabled(old(View()), m)
    {
      hide Popped, IsHeap;
      match scheduler
      case Waiting =>
        if isShutdown && leave {
          scheduler := Exited;
          return Some(Exit);
        }
        scheduler := Scanning(0);
        return Some(Wake);
      case Scanning(i) =>
        if i >= |workers| {
          scheduler := Waiting;
          return Some(EndOfScan);
        }
        if workers[i].phase.Busy() {
          scheduler := Scanning(i + 1);
          return Some(SkipBusy);
        }
        scheduler := Free(i);
        return Some(SeeFree);
      case Free(i) =>
        var m := LookForRetry(i);
        return Some(m);
      case RetryEmpty(i) =>
        var m := LookForTask(i);
        return Some(m);
      case Holding(i, task) =>
        if i >= |workers| || workers[i].inbox != [] {
          return None;
        }
        SendTask(i, task);
        return Some(Send);
      case Exited =>
        return None;
    }

    /** A task goes into the channel of a worker. */
    method SendTask(i: nat, task: Task)
      requires Valid() && scheduler == Holding(i, task) && i < |workers| && workers[i].inbox == []
      modifies `workers, `scheduler
      ensures Valid() && View() == SchedulerNext(old(View()), Send)
    {
      hide PriorityQueue.Contents, PriorityQueue.Valid;
      workers := workers[i := workers[i].(inbox := [task])];
      scheduler := Scanning(i + 1);
    }

    /** Retries go before new tasks. */
    method LookForRetry(i: nat) returns (move: SchedulerMove)
      requires Valid() && scheduler == Free(i)
      modifies this`scheduler, retryQueue.Repr
      ensures Valid() && fresh(retryQueue.Repr - old(retryQueue.Repr))
      ensures SchedulerEnabled(old(View()), move) && View() == SchedulerNext(old(View()), move)
    {
      hide Popped, IsHeap;
      var task := retryQueue.PopTask();
      if task.Some? {
        scheduler := Holding(i, task.value);
        return PopRetry;
      }
      scheduler := RetryEmpty(i);
      return RetryMiss;
    }

    method LookForTask(i: nat) returns (move: SchedulerMove)
      requires Valid() && scheduler == RetryEmpty(i)
      modifies this`scheduler, taskQueue.Repr
      ensures Valid() && fresh(taskQueue.Repr - old(taskQueue.Repr))
      ensures SchedulerEnabled(old(View()), move) && View() == SchedulerNext(old(View()), move)
    {
      hide Popped, IsHeap;
      var task := taskQueue.PopTask();
      if task.Some? {
        scheduler := Holding(i, task.value);
        return PopTask;
      }
      scheduler := Waiting;
      return TaskMiss;
    }

    // ---------- a worker ----------

    /** The next step of worker `w`'s loop and of execute, if it is not blocked. `outcome` says how
        the task's function ends, when it does. */
    method WorkerStep(w: nat, outcome: Outcome) returns (move: Option<WorkerMove>)
      requires Valid() && w < |workers|
      requires workers[w].phase.Received? || workers[w].phase.Running? ==>
        workers[w].phase.task in records.retryCount && workers[w].phase.task in history.runs
      modifies this, retryQueue.Repr
      ensures Valid() && fresh(retryQueue.Repr - old(retryQueue.Repr))
      ensures move.Some? ==>
        WorkerEnabled(old(View()), w, move.value) && View() == WorkerNext(old(View()), w, move.value)
      ensures move.None? ==> View() == old(View()) && forall m :: !WorkerEnabled(old(View()), w, m)
      ensures old(workers)[w].phase.Running? ==>
        EndsAs(outcome, old(workers)[w].phase.task, w, old(View()), View())
      ensures !old(workers)[w].phase.Running? ==> GoesOn(w, old(View()), View())
    {
      hide EndsAs, GoesOn, PriorityQueue.Contents, PriorityQueue.Valid;
      if workers[w].phase.Running? {
        move := Decide(w, workers[w].phase.task, outcome);
      } else {
        move := NextStep(w);
      }
    }

    /** The steps of a worker between the ends of the functions it runs. */
    method NextStep(w: nat) returns (move: Option<WorkerMove>)
      requires Valid() && w < |workers| && !workers[w].phase.Running?
      requires workers[w].phase.Received? ==> workers[w].phase.task in history.runs
      modifies this, retryQueue.Repr
      ensures Valid() && fresh(retryQueue.Repr - old(retryQueue.Repr))
      ensures move.Some? ==>
        WorkerEnabled(old(View()), w, move.value) && View() == WorkerNext(old(View()), w, move.value)
      ensures move.None? ==> View() == old(View()) && forall m :: !WorkerEnabled(old(View()), w, m)
      ensures GoesOn(w, old(View()), View())
    {
      hide GoesOn, PriorityQueue.Contents, PriorityQueue.Valid;
      var worker := workers[w];
      match worker.phase
      case Idle =>
        IdleGoesOn(View(), w);
        if worker.inbox == [] {
          return None;
        }
        workers := workers[w := Worker(Received(worker.inbox[0]), worker.inbox[1..])];
        return Some(Receive);
      case Received(task) =>
        Start(w, task);
        StartGoesOn(old(View()), w);
        return Some(Begin);
      case Requeueing(task) =>
        PutBack(w, task);
        RetryGoesOn(old(View()), w);
        return Some(Requeue);
      case Settled =>
        workers := workers[w := worker.(phase := Released)];
        FlagGoesOn(old(View()), w);
        return Some(Release);
      case Released =>
        stats := stats.(wg := stats.wg - 1);
        workers := workers[w := worker.(phase := Idle)];
        FlagGoesOn(old(View()), w);
        return Some(Done);
    }

    /** The start of execute: busy flag, current task and status. */
    method Start(w: nat, task: Task)
      requires Valid() && w < |workers| && workers[w].phase == Received(task) && task in history.runs
      modifies `workers, `records, `history
      ensures Valid() && View() == WorkerNext(old(View()), w, Begin)
    {
      hide PriorityQueue.Contents, PriorityQueue.Valid;
      workers := workers[w := workers[w].(phase := Phase.Running(task))];
      records := records.(status := records.status[task := Status.Running]);
      history := history.(runs := history.runs[task := history.runs[task] + 1]);
    }

    method PutBack(w: nat, task: Task)
      requires Valid() && w < |workers| && workers[w].phase == Requeueing(task)
      modifies this`workers, retryQueue.Repr
      ensures Valid() && fresh(retryQueue.Repr - old(retryQueue.Repr))
      ensures View() == WorkerNext(old(View()), w, Requeue)
    {
      hide Pushed, IsHeap;
      retryQueue.PushTask(task);
      workers := workers[w := workers[w].(phase := Settled)];
    }

    /** The branches of execute once the function ended or the deadline passed. */
    method Decide(w: nat, task: Task, outcome: Outcome) returns (move: Option<WorkerMove>)
      requires Valid() && w < |workers| && workers[w].phase == Phase.Running(task)
      requires task in records.retryCount
      modifies this
      ensures Valid()
      ensures move.Some? && WorkerEnabled(old(View()), w, move.value)
      ensures View() == WorkerNext(old(View()), w, move.value)
      ensures EndsAs(outcome, task, w, old(View()), View())
    {
      hide WorkerNext, EndsAs, PriorityQueue.Contents, PriorityQueue.Valid;
      match outcome
      case ReturnsNil =>
        Success(w, task);
        SuccessEnds(old(View()), w);
        return Some(Succeed);
      case ReturnsError =>
        Failure(w, task);
        FailureEnds(old(View()), w);
        return Some(Fail);
      case RunsTooLong =>
        Timeout(w, task);
        TimeoutEnds(old(View()), w);
        return Some(TimeOut);
    }

    method Success(w: nat, task: Task)
      requires Valid() && w < |workers| && workers[w].phase == Phase.Running(task)
      modifies `workers, `records, `stats, `history
      ensures Valid() && View() == WorkerNext(old(View()), w, Succeed)
    {
      hide PriorityQueue.Contents, PriorityQueue.Valid;
      records := records.(status := records.status[task := Succeeded]);
      stats := stats.(succeeded := stats.succeeded + 1);
      history := history.(won := history.won + multiset{task});
      workers := workers[w := workers[w].(phase := Settled)];
    }

    /** A failure is retried while the budget lasts, with a new ticket. */
    method Failure(w: nat, task: Task)
      requires Valid() && w < |workers| && workers[w].phase == Phase.Running(task) && task in records.retryCount
      modifies this
      ensures Valid() && View() == WorkerNext(old(View()), w, Fail)
    {
      hide WorkerNext, PriorityQueue.Contents, PriorityQueue.Valid;
      if records.retryCount[task] < task.maxRetries {
        RetryLater(w, task);
      } else {
        GiveUp(w, task);
      }
    }

    method RetryLater(w: nat, task: Task)
      requires Valid() && w < |workers| && workers[w].phase == Phase.Running(task)
      requires task in records.retryCount && records.retryCount[task] < task.maxRetries
      modifies `workers, `records, `stats
      ensures Valid() && View() == WorkerNext(old(View()), w, Fail)
    {
      hide PriorityQueue.Contents, PriorityQueue.Valid;
      records := records.(status := records.status[task := Failed]);
      records := records.(retryCount := records.retryCount[task := records.retryCount[task] + 1]);
      stats := stats.(retries := stats.retries + 1);
      stats := stats.(wg := stats.wg + 1);
      workers := workers[w := workers[w].(phase := Requeueing(task))];
    }

    method GiveUp(w: nat, task: Task)
      requires Valid() && w < |workers| && workers[w].phase == Phase.Running(task)
      requires task in records.retryCount && records.retryCount[task] >= task.maxRetries
      modifies `workers, `records, `stats, `history
      ensures Valid() && View() == WorkerNext(old(View()), w, Fail)
    {
      hide PriorityQueue.Contents, PriorityQueue.Valid;
      records := records.(status := records.status[task := Failed]);
      stats := stats.(failed := stats.failed + 1);
      history := history.(lost := history.lost + multiset{task});
      workers := workers[w := workers[w].(phase := Settled)];
    }

    method Timeout(w: nat, task: Task)
      requires Valid() && w < |workers| && workers[w].phase == Phase.Running(task)
      modifies `workers, `records, `stats, `history
      ensures Valid() && View() == WorkerNext(old(View()), w, TimeOut)
    {
      hide PriorityQueue.Contents, PriorityQueue.Valid;
      records := records.(status := records.status[task := Failed]);
      stats := stats.(failed := stats.failed + 1);
      history := history.(lost := history.lost + multiset{task});
      workers := workers[w := workers[w].(phase := Settled)];
    }
  }

  /** What the end of a task's function does to the worker, the task and the counters: nil is a
      success; an error is retried exactly while the task has retries left, and otherwise final; a
      deadline passed is final in any case. */
  ghost predicate EndsAs(outcome: Outcome, t: Task, w: nat, s: PoolProtocol.Pool, s': PoolProtocol.Pool)
    requires w < |s.workers| && t in s.records.retryCount
  {
    var n := s.records.retryCount[t];
    var retried := outcome.ReturnsError? && n < t.maxRetries;
    && s'.workers == s.workers[w := Worker(if retried then Requeueing(t) else Settled, s.workers[w].inbox)]
    && s'.records.status == s.records.status[t := if outcome.ReturnsNil? then Succeeded else Failed]
    && s'.records.retryCount == (if retried then s.records.retryCount[t := n + 1] else s.records.retryCount)
    && s'.stats.total == s.stats.total
    && s'.stats.wg == s.stats.wg + (if retried then 1 else 0)
    && s'.stats.retries == s.stats.retries + (if retried then 1 else 0)
    && s'.stats.succeeded == s.stats.succeeded + (if outcome.ReturnsNil? then 1 else 0)
    && s'.stats.failed == s.stats.failed + (if outcome.ReturnsNil? || retried then 0 else 1)
  }

  /** What the other steps of a worker do: it takes the task from its channel, marks it as running,
      puts a retry on the retry queue, lowers its busy flag and gives back its ticket. */
  ghost predicate GoesOn(w: nat, s: PoolProtocol.Pool, s': PoolProtocol.Pool)
    requires w < |s.workers| && |s'.workers| == |s.workers|
  {
    var x, y := s.workers[w], s'.workers[w];
    && (forall v :: 0 <= v < |s.workers| && v != w ==> s'.workers[v] == s.workers[v])
    && s'.records.retryCount == s.records.retryCount
    && s'.stats == s.stats.(wg := s.stats.wg - if x.phase.Released? then 1 else 0)
    && (!x.phase.Received? ==> s'.records.status == s.records.status)
    && (!x.phase.Requeueing? ==> s'.retryQueue == s.retryQueue)
    && match x.phase
       case Idle => if x.inbox == [] then y == x else y == Worker(Received(x.inbox[0]), x.inbox[1..])
       case Received(t) =>
         y == Worker(Phase.Running(t), x.inbox) && s'.records.status == s.records.status[t := Status.Running]
       case Requeueing(t) =>
         && y == Worker(Settled, x.inbox)
         && (IsHeap(s.retryQueue) ==>
               IsHeap(s'.retryQueue) && multiset(s'.retryQueue) == multiset(s.retryQueue) + multiset{t})
       case Settled => y == Worker(Released, x.inbox)
       case Released => y == Worker(Idle, x.inbox)
       case Running(_) => true
  }

  lemma SuccessEnds(s: PoolProtocol.Pool, w: nat)
    requires WorkerEnabled(s, w, Succeed) && s.workers[w].phase.task in s.records.retryCount
    ensures EndsAs(ReturnsNil, s.workers[w].phase.task, w, s, WorkerNext(s, w, Succeed))
  {}

  lemma FailureEnds(s: PoolProtocol.Pool, w: nat)
    requires WorkerEnabled(s, w, Fail)
    ensures EndsAs(ReturnsError, s.workers[w].phase.task, w, s, WorkerNext(s, w, Fail))
  {}

  lemma TimeoutEnds(s: PoolProtocol.Pool, w: nat)
    requires WorkerEnabled(s, w, TimeOut) && s.workers[w].phase.task in s.records.retryCount
    ensures EndsAs(RunsTooLong, s.workers[w].phase.task, w, s, WorkerNext(s, w, TimeOut))
  {}

  lemma IdleGoesOn(s: PoolProtocol.Pool, w: nat)
    requires w < |s.workers| && s.workers[w].phase.Idle?
    ensures if s.workers[w].inbox == [] then GoesOn(w, s, s) else GoesOn(w, s, WorkerNext(s, w, Receive))
  {}

  lemma StartGoesOn(s: PoolProtocol.Pool, w: nat)
    requires WorkerEnabled(s, w, Begin)
    ensures GoesOn(w, s, WorkerNext(s, w, Begin))
  {}

  lemma RetryGoesOn(s: PoolProtocol.Pool, w: nat)
    requires WorkerEnabled(s, w, Requeue)
    ensures GoesOn(w, s, WorkerNext(s, w, Requeue))
  {
    hide IsHeap, Pushed;
    if IsHeap(s.retryQueue) {
      PushKeepsHeap(s.retryQueue, s.workers[w].phase.task);
    }
  }

  lemma FlagGoesOn(s: PoolProtocol.Pool, w: nat)
    ensures WorkerEnabled(s, w, Release) ==> GoesOn(w, s, WorkerNext(s, w, Release))
    ensures WorkerEnabled(s, w, Done) ==> GoesOn(w, s, WorkerNext(s, w, Done))
  {}

  function Elements(tasks: seq<Task>): set<Task> {
    set t | t in tasks
  }

  /** One task counted and pushed. */
  function Submitted(s: PoolProtocol.Pool, t: Task): PoolProtocol.Pool {
    var counted := CountNext(s, t);
    counted.(pushing := counted.pushing - multiset{t}, taskQueue := Pushed(counted.taskQueue, t))
  }

  function AllSubmitted(s: PoolProtocol.Pool, tasks: seq<Task>): PoolProtocol.Pool {
    if tasks == [] then s else Submitted(AllSubmitted(s, tasks[..|tasks| - 1]), tasks[|tasks| - 1])
  }

  /** The state without the note of which tasks of batches are still to be counted. */
  function Unpromised(s: PoolProtocol.Pool): PoolProtocol.Pool {
    s.(promised := {})
  }

  ghost predicate AllNew(s: PoolProtocol.Pool, tasks: seq<Task>) {
    && (forall t :: t in tasks ==> Fresh(s, t))
    && (forall i, j :: 0 <= i < j < |tasks| ==> tasks[i] != tasks[j])
  }

  lemma CountedIsPushing(s: PoolProtocol.Pool, t: Task)
    ensures t in CountNext(s, t).pushing && Enabled(CountNext(s, t), Event.Push(t))
    ensures Next(CountNext(s, t), Event.Push(t)) == Submitted(s, t)
  {
    hide Pushed;
  }

  ghost predicate AllPromised(promised: set<Task>, tasks: seq<Task>) {
    && (forall t :: t in tasks ==> t in promised)
    && (forall i, j :: 0 <= i < j < |tasks| ==> tasks[i] != tasks[j])
  }

  lemma NothingSubmitted(s: PoolProtocol.Pool)
    ensures AllSubmitted(Unpromised(s), []) == Unpromised(s) && Run(s, Rounds([]), s)
  {}

  lemma PromisedBatch(s: PoolProtocol.Pool, s': PoolProtocol.Pool, tasks: seq<Task>)
    requires s' == s.(promised := s.promised + Elements(tasks))
    ensures Unpromised(s') == Unpromised(s)
    ensures AllNew(s, tasks) ==> AllPromised(s'.promised, tasks)
  {}

  lemma MoreSubmitted(s: PoolProtocol.Pool, tasks: seq<Task>, i: nat)
    requires i < |tasks|
    ensures AllSubmitted(s, tasks[..i + 1]) == Submitted(AllSubmitted(s, tasks[..i]), tasks[i])
  {
    assert tasks[..i + 1][..i] == tasks[..i];
  }

  lemma RoundSubmits(s: PoolProtocol.Pool, counted: PoolProtocol.Pool, s': PoolProtocol.Pool, t: Task)
    requires counted == CountNext(s.(promised := s.promised - {t}), t) && Enabled(counted, Event.Push(t))
    requires s' == Next(counted, Event.Push(t))
    ensures Unpromised(s') == Submitted(Unpromised(s), t) && s'.promised == s.promised - {t}
  {
    hide Pushed;
  }

  /** The steps of a batch's loop: each task is counted and then pushed. */
  function Rounds(tasks: seq<Task>): seq<Event> {
    if tasks == [] then []
    else Rounds(tasks[..|tasks| - 1]) + [Event.Count(tasks[|tasks| - 1]), Event.Push(tasks[|tasks| - 1])]
  }

  lemma OneRound(s: PoolProtocol.Pool, tasks: seq<Task>, i: nat, s1: PoolProtocol.Pool, s2: PoolProtocol.Pool)
    requires i < |tasks| && Run(s, Rounds(tasks[..i]), s1)
    requires Run(s1, [Event.Count(tasks[i]), Event.Push(tasks[i])], s2)
    ensures Run(s, Rounds(tasks[..i + 1]), s2)
  {
    RunAppends(s, Rounds(tasks[..i]), s1, [Event.Count(tasks[i]), Event.Push(tasks[i])], s2);
    assert tasks[..i + 1][..i] == tasks[..i];
    hide Run;
  }

  lemma TwoSteps(s: PoolProtocol.Pool, e: Event, s1: PoolProtocol.Pool, f: Event, s2: PoolProtocol.Pool)
    requires Enabled(s, e) && s1 == Next(s, e) && Enabled(s1, f) && s2 == Next(s1, f)
    ensures Run(s, [e, f], s2)
  {
    hide Next, Enabled;
    RunExtends(s1, f, [], s2);
    RunExtends(s, e, [f], s2);
    assert [f] + [] == [f] && [e] + [f] == [e, f];
  }

  lemma CountedOfPromised(s: PoolProtocol.Pool, t: Task)
    requires t in s.promised
    ensures Enabled(s, Event.Count(t)) && t in Next(s, Event.Count(t)).pushing
    ensures Enabled(Next(s, Event.Count(t)), Event.Push(t))
    ensures Next(s, Event.Count(t)).promised == s.promised - {t}
  {}
}
