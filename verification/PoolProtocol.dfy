/// The worker pool as a state machine: submitters, one scheduler and the workers move one
/// atomic step at a time, in any order.

module PoolProtocol {
  import opened Tasks
  import opened TaskHeap
  import opened Sums

  // ---------- state ----------

  /** Where a worker goroutine stands. `Received` lies between taking a task from the inbox and
      raising the busy flag; `Requeueing` between the two halves of a retry; `Settled` and
      `Released` before and after the deferred function lowers the busy flag. */
  datatype Phase =
    | Idle
    | Received(task: Task)
    | Running(task: Task)
    | Requeueing(task: Task)
    | Settled
    | Released
  {
    predicate Busy() { Running? || Requeueing? || Settled? }
  }

  /** A worker and its task channel, which holds at most one task. */
  datatype Worker = Worker(phase: Phase, inbox: seq<Task>)

  /** Where the scheduler goroutine stands. `Free` is reached once worker `i` was found not busy,
      `RetryEmpty` once the retry queue was found empty for it; `Holding` while a popped task
      waits to be sent to it. */
  datatype Scheduler =
    | Waiting
    | Scanning(i: nat)
    | Free(i: nat)
    | RetryEmpty(i: nat)
    | Holding(i: nat, task: Task)
    | Exited

  /** The fields of the tasks themselves that workers write. */
  datatype Records = Records(status: map<Task, Status>, retryCount: map<Task, nat>)

  /** The counters of the pool, its WaitGroup first. */
  datatype Stats = Stats(wg: int, total: int, succeeded: int, failed: int, retries: int)

  /** What happened so far: the tasks decided a success, those decided a final failure, how often
      each task was started, and which were counted after Stop got past its wait. The code keeps
      none of this. */
  datatype History = History(won: multiset<Task>, lost: multiset<Task>, runs: map<Task, nat>, late: set<Task>)

  /** `promised` are the tasks of batches that passed the shutdown check and that the loop of
      SubmitBatch has not counted yet; `pushing` are counted tasks that their submitter has not
      put into the heap yet. `shutdown` says that Stop was called and `stopped` that it got past
      its wait. */
  datatype Pool = Pool(
    workers: seq<Worker>,
    scheduler: Scheduler,
    promised: set<Task>,
    pushing: multiset<Task>,
    taskQueue: seq<Task>,
    retryQueue: seq<Task>,
    records: Records,
    stats: Stats,
    shutdown: bool,
    stopped: bool,
    history: History)

  datatype SchedulerMove =
    | Wake | Exit | SkipBusy | SeeFree | EndOfScan | PopRetry | RetryMiss | PopTask | TaskMiss | Send

  datatype WorkerMove = Receive | Begin | Succeed | Fail | TimeOut | Requeue | Release | Done

  /** `Submit` is the shutdown check and the counting of Submit; `Promise` the shutdown check of
      SubmitBatch and `Count` the counting in one round of its loop; `Push` one PushTask. */
  datatype Event =
    | Submit(task: Task)
    | Promise(tasks: set<Task>)
    | Count(task: Task)
    | Push(task: Task)
    | Stop
    | WaitReturns
    | Schedule(turn: SchedulerMove)
    | Work(w: nat, move: WorkerMove)

  function Initial(workerCount: nat): Pool {
    Pool(seq(workerCount, _ => Worker(Idle, [])), Waiting, {}, multiset{}, [], [], Records(map[], map[]),
         Stats(0, 0, 0, 0, 0), false, false, History(multiset{}, multiset{}, map[], {}))
  }

  // ---------- steps ----------

  predicate SchedulerEnabled(s: Pool, m: SchedulerMove) {
    match m
    case Wake => s.scheduler.Waiting?
    case Exit => s.scheduler.Waiting? && s.shutdown
    case SkipBusy => s.scheduler.Scanning? && s.scheduler.i < |s.workers| && s.workers[s.scheduler.i].phase.Busy()
    case SeeFree => s.scheduler.Scanning? && s.scheduler.i < |s.workers| && !s.workers[s.scheduler.i].phase.Busy()
    case EndOfScan => s.scheduler.Scanning? && s.scheduler.i >= |s.workers|
    case PopRetry => s.scheduler.Free? && s.retryQueue != []
    case RetryMiss => s.scheduler.Free? && s.retryQueue == []
    case PopTask => s.scheduler.RetryEmpty? && s.taskQueue != []
    case TaskMiss => s.scheduler.RetryEmpty? && s.taskQueue == []
    case Send => s.scheduler.Holding? && s.scheduler.i < |s.workers| && s.workers[s.scheduler.i].inbox == []
  }

  function SchedulerNext(s: Pool, m: SchedulerMove): Pool
    requires SchedulerEnabled(s, m)
  {
    match m
    case Wake => s.(scheduler := Scanning(0))
    case Exit => s.(scheduler := Exited)
    case SkipBusy => s.(scheduler := Scanning(s.scheduler.i + 1))
    case SeeFree => s.(scheduler := Free(s.scheduler.i))
    case EndOfScan => s.(scheduler := Waiting)
    case PopRetry =>
      s.(scheduler := Holding(s.scheduler.i, s.retryQueue[0]), retryQueue := Popped(s.retryQueue))
    case RetryMiss => s.(scheduler := RetryEmpty(s.scheduler.i))
    case PopTask =>
      s.(scheduler := Holding(s.scheduler.i, s.taskQueue[0]), taskQueue := Popped(s.taskQueue))
    case TaskMiss => s.(scheduler := Waiting)
    case Send =>
      var i := s.scheduler.i;
      s.(workers := s.workers[i := s.workers[i].(inbox := [s.scheduler.task])], scheduler := Scanning(i + 1))
  }

  predicate WorkerEnabled(s: Pool, w: nat, m: WorkerMove) {
    && w < |s.workers|
    && var p := s.workers[w].phase;
       match m
       case Receive => p.Idle? && s.workers[w].inbox != []
       case Begin => p.Received? && p.task in s.history.runs
       case Succeed => p.Running?
       case Fail => p.Running? && p.task in s.records.retryCount
       case TimeOut => p.Running?
       case Requeue => p.Requeueing?
       case Release => p.Settled?
       case Done => p.Released?
  }

  /** Whether a failure is retried. */
  predicate Retries(s: Pool, t: Task, m: WorkerMove) {
    m.Fail? && t in s.records.retryCount && s.records.retryCount[t] < t.maxRetries
  }

  /** The worker itself after its move. */
  function WorkerAfter(s: Pool, w: nat, m: WorkerMove): Worker
    requires WorkerEnabled(s, w, m)
  {
    var Worker(p, inbox) := s.workers[w];
    match m
    case Receive => Worker(Received(inbox[0]), inbox[1..])
    case Begin => Worker(Phase.Running(p.task), inbox)
    case Requeue => Worker(Settled, inbox)
    case Release => Worker(Released, inbox)
    case Done => Worker(Idle, inbox)
    case _ => Worker(if Retries(s, p.task, m) then Requeueing(p.task) else Settled, inbox)
  }

  function RecordsAfter(s: Pool, w: nat, m: WorkerMove): Records
    requires WorkerEnabled(s, w, m)
  {
    var p := s.workers[w].phase;
    match m
    case Begin => s.records.(status := s.records.status[p.task := Status.Running])
    case Succeed => s.records.(status := s.records.status[p.task := Succeeded])
    case Fail =>
      var n := s.records.retryCount[p.task];
      Records(s.records.status[p.task := Failed],
              if Retries(s, p.task, m) then s.records.retryCount[p.task := n + 1] else s.records.retryCount)
    case TimeOut => s.records.(status := s.records.status[p.task := Failed])
    case _ => s.records
  }

  function StatsAfter(s: Pool, w: nat, m: WorkerMove): Stats
    requires WorkerEnabled(s, w, m)
  {
    match m
    case Succeed => s.stats.(succeeded := s.stats.succeeded + 1)
    case Fail =>
      if Retries(s, s.workers[w].phase.task, m) then s.stats.(retries := s.stats.retries + 1, wg := s.stats.wg + 1)
      else s.stats.(failed := s.stats.failed + 1)
    case TimeOut => s.stats.(failed := s.stats.failed + 1)
    case Done => s.stats.(wg := s.stats.wg - 1)
    case _ => s.stats
  }

  function HistoryAfter(s: Pool, w: nat, m: WorkerMove): History
    requires WorkerEnabled(s, w, m)
  {
    var p := s.workers[w].phase;
    match m
    case Begin => s.history.(runs := s.history.runs[p.task := s.history.runs[p.task] + 1])
    case Succeed => s.history.(won := s.history.won + multiset{p.task})
    case Fail => if Retries(s, p.task, m) then s.history else s.history.(lost := s.history.lost + multiset{p.task})
    case TimeOut => s.history.(lost := s.history.lost + multiset{p.task})
    case _ => s.history
  }

  function WorkerNext(s: Pool, w: nat, m: WorkerMove): Pool
    requires WorkerEnabled(s, w, m)
  {
    s.(workers := s.workers[w := WorkerAfter(s, w, m)],
       retryQueue := if m.Requeue? then Pushed(s.retryQueue, s.workers[w].phase.task) else s.retryQueue,
       records := RecordsAfter(s, w, m),
       stats := StatsAfter(s, w, m),
       history := HistoryAfter(s, w, m))
  }

  /** A task is counted: the total and a ticket of the WaitGroup. A new task has the fields it was
      created with; one that was submitted before keeps its own. */
  function CountNext(s: Pool, t: Task): Pool {
    s.(pushing := s.pushing + multiset{t},
       records := if t in s.records.status then s.records
                  else Records(s.records.status[t := Pending], s.records.retryCount[t := 0]),
       stats := s.stats.(total := s.stats.total + 1, wg := s.stats.wg + 1),
       history := s.history.(runs := if t in s.records.status then s.history.runs else s.history.runs[t := 0],
                             late := if s.stopped then s.history.late + {t} else s.history.late))
  }

  /** The protocol is that of tasks that are each submitted at most once. */
  predicate Fresh(s: Pool, t: Task) {
    t !in s.records.status && t !in s.promised
  }

  predicate Enabled(s: Pool, e: Event) {
    match e
    case Submit(t) => !s.shutdown && Fresh(s, t)
    case Promise(ts) => !s.shutdown && forall t :: t in ts ==> Fresh(s, t)
    case Count(t) => t in s.promised
    case Push(t) => t in s.pushing
    case Stop => !s.shutdown
    case WaitReturns => s.shutdown && !s.stopped && s.stats.wg == 0
    case Schedule(m) => SchedulerEnabled(s, m)
    case Work(w, m) => WorkerEnabled(s, w, m)
  }

  function Next(s: Pool, e: Event): Pool
    requires Enabled(s, e)
  {
    match e
    case Submit(t) => CountNext(s, t)
    case Promise(ts) => s.(promised := s.promised + ts)
    case Count(t) => CountNext(s.(promised := s.promised - {t}), t)
    case Push(t) => s.(pushing := s.pushing - multiset{t}, taskQueue := Pushed(s.taskQueue, t))
    case Stop => s.(shutdown := true)
    case WaitReturns => s.(stopped := true)
    case Schedule(m) => SchedulerNext(s, m)
    case Work(w, m) => WorkerNext(s, w, m)
  }

  // ---------- where the tasks are ----------

  /** How often `t` waits at one worker for its next start. */
  function WaitingAt(w: Worker, t: Task): nat {
    multiset(w.inbox)[t] + if (w.phase.Received? || w.phase.Requeueing?) && w.phase.task == t then 1 else 0
  }

  function RunningAt(w: Worker, t: Task): nat {
    if w.phase.Running? && w.phase.task == t then 1 else 0
  }

  /** How many WaitGroup tickets one worker accounts for: one for each task in its inbox, one
      for the Done it owes, and one more for a retry it has counted but not yet queued. */
  function TicketsAt(w: Worker): nat {
    |w.inbox| + if w.phase.Idle? then 0 else if w.phase.Requeueing? then 2 else 1
  }

  function Waits(ws: seq<Worker>, t: Task): nat {
    if ws == [] then 0 else WaitingAt(ws[0], t) + Waits(ws[1..], t)
  }

  function Runs(ws: seq<Worker>, t: Task): nat {
    if ws == [] then 0 else RunningAt(ws[0], t) + Runs(ws[1..], t)
  }

  function Tickets(ws: seq<Worker>): nat {
    if ws == [] then 0 else TicketsAt(ws[0]) + Tickets(ws[1..])
  }

  lemma {:induction false} ReplaceWorker(ws: seq<Worker>, w: nat, x: Worker, t: Task)
    requires w < |ws|
    ensures Waits(ws[w := x], t) == Waits(ws, t) - WaitingAt(ws[w], t) + WaitingAt(x, t)
    ensures Runs(ws[w := x], t) == Runs(ws, t) - RunningAt(ws[w], t) + RunningAt(x, t)
  {
    hide WaitingAt, RunningAt;
    if w == 0 {
      assert ws[w := x][1..] == ws[1..];
    } else {
      ReplaceWorker(ws[1..], w - 1, x, t);
      assert ws[w := x][1..] == ws[1..][w - 1 := x];
    }
  }

  lemma {:induction false} ReplaceTickets(ws: seq<Worker>, w: nat, x: Worker)
    requires w < |ws|
    ensures Tickets(ws[w := x]) == Tickets(ws) - TicketsAt(ws[w]) + TicketsAt(x)
  {
    hide TicketsAt;
    if w == 0 {
      assert ws[w := x][1..] == ws[1..];
    } else {
      ReplaceTickets(ws[1..], w - 1, x);
      assert ws[w := x][1..] == ws[1..][w - 1 := x];
    }
  }

  function InHand(s: Pool, t: Task): nat {
    if s.scheduler.Holding? && s.scheduler.task == t then 1 else 0
  }

  /** How often `t` waits for its next start away from the workers. */
  function Queued(s: Pool, t: Task): nat {
    s.pushing[t] + multiset(s.taskQueue)[t] + multiset(s.retryQueue)[t] + InHand(s, t)
  }

  /** How often `t` waits for its next start anywhere. */
  function Awaiting(s: Pool, t: Task): nat {
    Queued(s, t) + Waits(s.workers, t)
  }

  /** In how many places `t` is: waiting for a start, running, or decided. */
  function Places(s: Pool, t: Task): nat {
    Awaiting(s, t) + Runs(s.workers, t) + s.history.won[t] + s.history.lost[t]
  }

  // ---------- the invariant ----------

  ghost predicate Shape(s: Pool) {
    && |s.workers| > 0
    && (forall w :: 0 <= w < |s.workers| ==> |s.workers[w].inbox| <= 1)
    && (s.scheduler.Scanning? ==> s.scheduler.i <= |s.workers|)
    && (s.scheduler.Free? || s.scheduler.RetryEmpty? || s.scheduler.Holding? ==> s.scheduler.i < |s.workers|)
    && (s.scheduler.Exited? ==> s.shutdown)
    && s.records.status.Keys == s.records.retryCount.Keys == s.history.runs.Keys
    && (forall t :: t in s.promised ==> t !in s.records.status)
  }

  /** Both queues are heaps, so that every pop takes a task none queued precedes. */
  ghost predicate Heaps(s: Pool) {
    IsHeap(s.taskQueue) && IsHeap(s.retryQueue)
  }

  /** Every counted task is in exactly one place, and no other task is in any. */
  ghost predicate OnePlaceEach(s: Pool) {
    forall t :: Places(s, t) == if t in s.records.status then 1 else 0
  }

  /** The WaitGroup counts what is queued, in hand, in inboxes, and owed by workers. */
  ghost predicate TicketsCounted(s: Pool) {
    s.stats.wg == |s.pushing| + |s.taskQueue| + |s.retryQueue|
                  + (if s.scheduler.Holding? then 1 else 0) + Tickets(s.workers)
  }

  ghost predicate StatsExact(s: Pool) {
    && s.stats.total == |s.records.status.Keys|
    && s.stats.succeeded == |s.history.won|
    && s.stats.failed == |s.history.lost|
    && s.stats.retries == Sum(s.records.retryCount)
  }

  /** `t` was started `extra` times more often than it was retried, and has a status in `st`. */
  predicate Tried(s: Pool, t: Task, extra: nat, st: set<Status>) {
    && t in s.records.status && t in s.records.retryCount && t in s.history.runs
    && s.history.runs[t] == s.records.retryCount[t] + extra
    && s.records.status[t] in st
    && s.records.retryCount[t] <= t.maxRetries
  }

  /** How often `t` was started, against its retry count, by where it is. */
  ghost predicate Attempted(s: Pool, t: Task) {
    && (Awaiting(s, t) > 0 ==> Tried(s, t, 0, {Status.Pending, Failed}))
    && (Runs(s.workers, t) > 0 ==> Tried(s, t, 1, {Status.Running}))
    && (t in s.history.won ==> Tried(s, t, 1, {Succeeded}))
    && (t in s.history.lost ==> Tried(s, t, 1, {Failed}))
  }

  ghost predicate AttemptsBounded(s: Pool) {
    forall t :: Attempted(s, t)
  }

  /** A task is decided once it was counted a success or a final failure. */
  ghost predicate Decided(s: Pool, t: Task) {
    t in s.history.won || t in s.history.lost
  }

  /** Once Stop got past its wait, only tasks counted since can be undecided. */
  ghost predicate StopWaited(s: Pool) {
    s.stopped ==> s.shutdown && forall t :: t in s.records.status ==> Decided(s, t) || t in s.history.late
  }

  ghost predicate Inv(s: Pool) {
    && Shape(s)
    && Heaps(s)
    && OnePlaceEach(s)
    && TicketsCounted(s)
    && StatsExact(s)
    && AttemptsBounded(s)
    && StopWaited(s)
  }

  lemma {:induction false} IdleWorkers(n: nat, t: Task)
    ensures var ws := seq(n, _ => Worker(Idle, []));
      Waits(ws, t) == 0 && Runs(ws, t) == 0 && Tickets(ws) == 0
  {
    if n == 0 {
    } else {
      IdleWorkers(n - 1, t);
      assert seq(n, _ => Worker(Idle, []))[1..] == seq(n - 1, _ => Worker(Idle, []));
    }
  }

  lemma InitialInv(workerCount: nat)
    requires workerCount > 0
    ensures Inv(Initial(workerCount))
  {
    IdleWorkers(workerCount, Task(0, 0, 0, 0));
    forall t ensures Places(Initial(workerCount), t) == 0 {
      IdleWorkers(workerCount, t);
    }
  }

  // ---------- what a step leaves alone ----------

  lemma SchedulerKeepsBooks(s: Pool, m: SchedulerMove)
    requires SchedulerEnabled(s, m)
    ensures var s' := SchedulerNext(s, m);
      && s'.records == s.records && s'.stats == s.stats && s'.history == s.history
      && s'.promised == s.promised && s'.pushing == s.pushing
      && s'.shutdown == s.shutdown && s'.stopped == s.stopped
  {
    hide Popped;
  }

  lemma WorkerKeepsFlags(s: Pool, w: nat, m: WorkerMove)
    requires WorkerEnabled(s, w, m)
    ensures var s' := WorkerNext(s, w, m);
      && s'.scheduler == s.scheduler && s'.promised == s.promised && s'.pushing == s.pushing
      && s'.taskQueue == s.taskQueue && s'.shutdown == s.shutdown && s'.stopped == s.stopped
      && s'.history.late == s.history.late && s'.history.won >= s.history.won && s'.history.lost >= s.history.lost
  {
    hide WorkerAfter, RecordsAfter, StatsAfter, Pushed;
  }

  // ---------- conservation of tasks ----------

  /** Whether a worker's move puts its task into a queue, or decides it. */
  predicate Hands(s: Pool, w: nat, m: WorkerMove)
    requires WorkerEnabled(s, w, m)
  {
    m.Requeue? || m.Succeed? || m.TimeOut? || (m.Fail? && !Retries(s, s.workers[w].phase.task, m))
  }

  function Handed(s: Pool, w: nat, m: WorkerMove, t: Task): nat
    requires WorkerEnabled(s, w, m)
  {
    if Hands(s, w, m) && s.workers[w].phase.task == t then 1 else 0
  }

  lemma WorkerGives(s: Pool, w: nat, m: WorkerMove, t: Task)
    requires WorkerEnabled(s, w, m)
    ensures var x, y := s.workers[w], WorkerAfter(s, w, m);
      WaitingAt(x, t) + RunningAt(x, t) == WaitingAt(y, t) + RunningAt(y, t) + Handed(s, w, m, t)
  {
    if m.Receive? {
      assert s.workers[w].inbox == [s.workers[w].inbox[0]] + s.workers[w].inbox[1..];
    }
  }

  lemma OthersTake(s: Pool, w: nat, m: WorkerMove, t: Task)
    requires Heaps(s) && WorkerEnabled(s, w, m)
    ensures var s', n := WorkerNext(s, w, m), Handed(s, w, m, t);
      && Queued(s', t) == Queued(s, t) + (if m.Requeue? then n else 0)
      && s'.history.won[t] == s.history.won[t] + (if m.Succeed? then n else 0)
      && s'.history.lost[t] == s.history.lost[t] + (if m.Fail? || m.TimeOut? then n else 0)
  {
    hide Waits, Runs, Tickets, IsHeap, Popped, Pushed, WorkerAfter, RecordsAfter, StatsAfter;
    if m.Requeue? {
      PushKeepsHeap(s.retryQueue, s.workers[w].phase.task);
    }
  }

  lemma WorkerMoveKeepsPlaces(s: Pool, w: nat, m: WorkerMove, t: Task)
    requires Heaps(s) && WorkerEnabled(s, w, m)
    ensures Places(WorkerNext(s, w, m), t) == Places(s, t)
  {
    var x, y := s.workers[w], WorkerAfter(s, w, m);
    assert WorkerNext(s, w, m).workers == s.workers[w := y];
    var s' := WorkerNext(s, w, m);
    assert Places(s, t)
           == Queued(s, t) + Waits(s.workers, t) + Runs(s.workers, t) + s.history.won[t] + s.history.lost[t];
    assert Places(s', t)
           == Queued(s', t) + Waits(s'.workers, t) + Runs(s'.workers, t) + s'.history.won[t] + s'.history.lost[t];
    hide *;
    ReplaceWorker(s.workers, w, y, t);
    WorkerGives(s, w, m, t);
    OthersTake(s, w, m, t);
  }

  lemma PopCounts(q: seq<Task>, t: Task)
    requires IsHeap(q) && q != []
    ensures multiset(q)[t] == multiset(Popped(q))[t] + if q[0] == t then 1 else 0
  {
    hide IsHeap, Popped;
    PopKeepsHeap(q);
  }

  lemma SendKeepsPlaces(s: Pool, t: Task)
    requires SchedulerEnabled(s, Send)
    ensures Places(SchedulerNext(s, Send), t) == Places(s, t)
  {
    hide Waits, Runs, Tickets;
    var i := s.scheduler.i;
    ReplaceWorker(s.workers, i, s.workers[i].(inbox := [s.scheduler.task]), t);
  }

  lemma SchedulerMoveKeepsPlaces(s: Pool, m: SchedulerMove, t: Task)
    requires Heaps(s) && SchedulerEnabled(s, m)
    ensures Places(SchedulerNext(s, m), t) == Places(s, t)
  {
    hide Waits, Runs, Tickets, IsHeap, Popped;
    if m.Send? {
      SendKeepsPlaces(s, t);
    } else if m.PopRetry? {
      PopCounts(s.retryQueue, t);
    } else if m.PopTask? {
      PopCounts(s.taskQueue, t);
    }
  }

  /** Whether the event counts `t`. */
  predicate Counts(e: Event, t: Task) {
    (e.Submit? || e.Count?) && e.task == t
  }

  lemma CountKeepsPlaces(s: Pool, u: Task, t: Task)
    ensures Places(CountNext(s, u), t) == Places(s, t) + if t == u then 1 else 0
  {
    hide Waits, Runs;
  }

  lemma PushKeepsPlaces(s: Pool, p: Task, t: Task)
    requires Heaps(s) && p in s.pushing
    ensures Places(Next(s, Push(p)), t) == Places(s, t)
  {
    hide Waits, Runs, IsHeap, Pushed;
    PushKeepsHeap(s.taskQueue, p);
  }

  /** Promises, Stop and its wait touch no place of a task. */
  lemma QuietStepKeepsPlaces(s: Pool, e: Event, t: Task)
    requires Enabled(s, e) && (e.Promise? || e.Stop? || e.WaitReturns?)
    ensures Places(Next(s, e), t) == Places(s, t)
  {
    hide Waits, Runs;
  }

  /** No step loses or copies a task, and only counting brings one in. */
  lemma StepKeepsPlaces(s: Pool, e: Event, t: Task)
    requires Heaps(s) && Enabled(s, e)
    ensures Places(Next(s, e), t) == Places(s, t) + if Counts(e, t) then 1 else 0
  {
    hide Heaps, WorkerNext, SchedulerNext, CountNext, WorkerEnabled, SchedulerEnabled, Waits, Runs;
    match e
    case Submit(u) => CountKeepsPlaces(s, u, t); hide Places;
    case Count(u) => CountKeepsPlaces(s.(promised := s.promised - {u}), u, t);
    case Push(p) => PushKeepsPlaces(s, p, t); hide Places;
    case Schedule(m) => SchedulerMoveKeepsPlaces(s, m, t); hide Places;
    case Work(w, m) => WorkerMoveKeepsPlaces(s, w, m, t); hide Places;
    case _ => QuietStepKeepsPlaces(s, e, t); hide Places;
  }

  lemma StepKeepsOnePlace(s: Pool, e: Event)
    requires Shape(s) && Heaps(s) && OnePlaceEach(s) && Enabled(s, e)
    ensures OnePlaceEach(Next(s, e))
  {
    forall t ensures Places(Next(s, e), t) == if t in Next(s, e).records.status then 1 else 0 {
      StepKeepsPlaces(s, e, t);
      StatusKeys(s, e, t);
    }
  }

  /** A task at a worker is a counted one, and is nowhere else. */
  lemma AtWorker(s: Pool, w: nat, t: Task)
    requires OnePlaceEach(s) && w < |s.workers|
    requires WaitingAt(s.workers[w], t) + RunningAt(s.workers[w], t) > 0
    ensures t in s.records.status
    ensures WaitingAt(s.workers[w], t) == Waits(s.workers, t) && RunningAt(s.workers[w], t) == Runs(s.workers, t)
    ensures Waits(s.workers, t) + Runs(s.workers, t) == 1
    ensures Queued(s, t) == 0 && s.history.won[t] == 0 && s.history.lost[t] == 0
  {
    ReplaceWorker(s.workers, w, Worker(Idle, []), t);
    assert Places(s, t) <= 1;
  }

  lemma WorkerTaskKnown(s: Pool, w: nat)
    requires OnePlaceEach(s) && w < |s.workers| && (s.workers[w].phase.Running? || s.workers[w].phase.Received?)
    ensures s.workers[w].phase.task in s.records.status
  {
    AtWorker(s, w, s.workers[w].phase.task);
  }

  /** A worker's move counts no task. */
  lemma WorkerMoveKeepsKeys(s: Pool, w: nat, m: WorkerMove)
    requires Shape(s) && OnePlaceEach(s) && WorkerEnabled(s, w, m)
    ensures RecordsAfter(s, w, m).status.Keys == s.records.status.Keys
    ensures RecordsAfter(s, w, m).retryCount.Keys == s.records.retryCount.Keys
    ensures HistoryAfter(s, w, m).runs.Keys == s.history.runs.Keys
  {
    hide Waits, Runs, Tickets, IsHeap, Places, WorkerAfter, StatsAfter;
    if s.workers[w].phase.Running? || s.workers[w].phase.Received? {
      WorkerTaskKnown(s, w);
    }
  }

  lemma StatusKeys(s: Pool, e: Event, t: Task)
    requires Shape(s) && OnePlaceEach(s) && Enabled(s, e)
    ensures t in Next(s, e).records.status <==> t in s.records.status || Counts(e, t)
  {
    hide Waits, Runs, Tickets, IsHeap, Popped, Pushed, Places, WorkerAfter, StatsAfter, RecordsAfter, HistoryAfter;
    if e.Work? {
      WorkerMoveKeepsKeys(s, e.w, e.move);
    }
  }

  lemma WorkerMoveKeepsShape(s: Pool, w: nat, m: WorkerMove)
    requires Shape(s) && OnePlaceEach(s) && WorkerEnabled(s, w, m)
    ensures Shape(WorkerNext(s, w, m))
  {
    WorkerMoveKeepsKeys(s, w, m);
    hide OnePlaceEach, Pushed, StatsAfter, RecordsAfter, HistoryAfter;
  }

  lemma SchedulerMoveKeepsShape(s: Pool, m: SchedulerMove)
    requires Shape(s) && SchedulerEnabled(s, m)
    ensures Shape(SchedulerNext(s, m))
  {
    hide Popped;
  }

  lemma CountKeepsShape(s: Pool, t: Task)
    requires Shape(s) && t !in s.promised
    ensures Shape(CountNext(s, t))
  {}

  lemma StepKeepsShape(s: Pool, e: Event)
    requires Shape(s) && OnePlaceEach(s) && Enabled(s, e)
    ensures Shape(Next(s, e))
  {
    hide OnePlaceEach, Pushed, WorkerNext, SchedulerNext, WorkerEnabled, SchedulerEnabled, CountNext;
    match e
    case Work(w, m) => WorkerMoveKeepsShape(s, w, m); hide Shape;
    case Schedule(m) => SchedulerMoveKeepsShape(s, m); hide Shape;
    case Submit(t) => CountKeepsShape(s, t); hide Shape;
    case Count(t) => CountKeepsShape(s.(promised := s.promised - {t}), t);
    case _ =>
  }

  lemma WorkerMoveKeepsHeaps(s: Pool, w: nat, m: WorkerMove)
    requires Heaps(s) && WorkerEnabled(s, w, m)
    ensures Heaps(WorkerNext(s, w, m))
  {
    hide IsHeap, Pushed, WorkerAfter, StatsAfter, RecordsAfter, HistoryAfter;
    if m.Requeue? {
      PushKeepsHeap(s.retryQueue, s.workers[w].phase.task);
    }
  }

  lemma SchedulerMoveKeepsHeaps(s: Pool, m: SchedulerMove)
    requires Heaps(s) && SchedulerEnabled(s, m)
    ensures Heaps(SchedulerNext(s, m))
  {
    hide IsHeap, SiftDown;
    if m.PopRetry? {
      PopKeepsHeap(s.retryQueue);
    } else if m.PopTask? {
      PopKeepsHeap(s.taskQueue);
    }
  }

  lemma StepKeepsHeaps(s: Pool, e: Event)
    requires Heaps(s) && Enabled(s, e)
    ensures Heaps(Next(s, e))
  {
    hide IsHeap, Pushed, WorkerNext, SchedulerNext;
    match e
    case Push(t) => PushKeepsHeap(s.taskQueue, t);
    case Schedule(m) => SchedulerMoveKeepsHeaps(s, m);
    case Work(w, m) => WorkerMoveKeepsHeaps(s, w, m);
    case _ =>
  }

  lemma WorkerMoveKeepsTickets(s: Pool, w: nat, m: WorkerMove)
    requires TicketsCounted(s) && WorkerEnabled(s, w, m)
    ensures TicketsCounted(WorkerNext(s, w, m))
  {
    hide Tickets, IsHeap, SiftUp, RecordsAfter, HistoryAfter;
    ReplaceTickets(s.workers, w, WorkerAfter(s, w, m));
  }

  lemma SchedulerMoveKeepsTickets(s: Pool, m: SchedulerMove)
    requires TicketsCounted(s) && SchedulerEnabled(s, m)
    ensures TicketsCounted(SchedulerNext(s, m))
  {
    hide Tickets, IsHeap, SiftDown;
    if m.Send? {
      var i := s.scheduler.i;
      ReplaceTickets(s.workers, i, s.workers[i].(inbox := [s.scheduler.task]));
    }
  }

  lemma StepKeepsTickets(s: Pool, e: Event)
    requires TicketsCounted(s) && Enabled(s, e)
    ensures TicketsCounted(Next(s, e))
  {
    hide Tickets, IsHeap, SiftUp, WorkerNext, SchedulerNext;
    match e
    case Schedule(m) => SchedulerMoveKeepsTickets(s, m);
    case Work(w, m) => WorkerMoveKeepsTickets(s, w, m);
    case _ =>
  }

  lemma WorkerMoveCountsRetries(s: Pool, w: nat, m: WorkerMove)
    requires s.stats.retries == Sum(s.records.retryCount) && WorkerEnabled(s, w, m)
    ensures StatsAfter(s, w, m).retries == Sum(RecordsAfter(s, w, m).retryCount)
  {
    hide Sum;
    if m.Fail? {
      var t := s.workers[w].phase.task;
      SumUpdate(s.records.retryCount, t, s.records.retryCount[t] + 1);
    }
  }

  lemma WorkerMoveCountsDecided(s: Pool, w: nat, m: WorkerMove)
    requires s.stats.succeeded == |s.history.won| && s.stats.failed == |s.history.lost| && WorkerEnabled(s, w, m)
    ensures StatsAfter(s, w, m).total == s.stats.total
    ensures StatsAfter(s, w, m).succeeded == |HistoryAfter(s, w, m).won|
    ensures StatsAfter(s, w, m).failed == |HistoryAfter(s, w, m).lost|
  {}

  lemma WorkerMoveKeepsStats(s: Pool, w: nat, m: WorkerMove)
    requires Shape(s) && OnePlaceEach(s) && StatsExact(s) && WorkerEnabled(s, w, m)
    ensures StatsExact(WorkerNext(s, w, m))
  {
    hide Shape, OnePlaceEach, WorkerEnabled, WorkerAfter, RecordsAfter, StatsAfter, HistoryAfter, Pushed, Sum;
    WorkerMoveKeepsKeys(s, w, m);
    WorkerMoveCountsRetries(s, w, m);
    WorkerMoveCountsDecided(s, w, m);
  }

  lemma CountKeepsStats(s: Pool, t: Task)
    requires Shape(s) && StatsExact(s) && t !in s.records.status
    ensures StatsExact(CountNext(s, t))
  {
    hide Sum;
    SumUpdate(s.records.retryCount, t, 0);
    assert CountNext(s, t).records.status.Keys == s.records.status.Keys + {t};
  }

  lemma SameBooksKeepStats(s: Pool, s': Pool)
    requires StatsExact(s) && s'.records == s.records && s'.stats == s.stats && s'.history == s.history
    ensures StatsExact(s')
  {}

  lemma StepKeepsStats(s: Pool, e: Event)
    requires Shape(s) && OnePlaceEach(s) && StatsExact(s) && Enabled(s, e)
    ensures StatsExact(Next(s, e))
  {
    assert e.Count? ==> e.task !in s.records.status;
    hide StatsExact, OnePlaceEach, Pushed, WorkerNext, SchedulerNext, WorkerEnabled, SchedulerEnabled, CountNext;
    match e
    case Submit(t) => CountKeepsStats(s, t);
    case Count(t) => ForgetKeepsStats(s, t); CountKeepsStats(s.(promised := s.promised - {t}), t);
    case Work(w, m) => WorkerMoveKeepsStats(s, w, m);
    case Schedule(m) => SchedulerKeepsBooks(s, m); SameBooksKeepStats(s, Next(s, e));
    case _ => SameBooksKeepStats(s, Next(s, e));
  }

  lemma ForgetKeepsStats(s: Pool, t: Task)
    requires Shape(s) && StatsExact(s)
    ensures var s' := s.(promised := s.promised - {t}); Shape(s') && StatsExact(s')
  {}

  // ---------- attempts ----------

  /** The task a worker's move writes to, if it writes to one. */
  predicate Writes(s: Pool, w: nat, m: WorkerMove, t: Task)
    requires WorkerEnabled(s, w, m)
  {
    (m.Begin? || m.Succeed? || m.Fail? || m.TimeOut?) && s.workers[w].phase.task == t
  }

  lemma WorkerMoveLeavesOthers(s: Pool, w: nat, m: WorkerMove, t: Task)
    requires Heaps(s) && WorkerEnabled(s, w, m) && !Writes(s, w, m, t)
    ensures var s' := WorkerNext(s, w, m);
      && Awaiting(s', t) == Awaiting(s, t) && Runs(s'.workers, t) == Runs(s.workers, t)
      && s'.history.won[t] == s.history.won[t] && s'.history.lost[t] == s.history.lost[t]
  {
    var y := WorkerAfter(s, w, m);
    assert RunningAt(y, t) == RunningAt(s.workers[w], t);
    hide Waits, Runs, Tickets, IsHeap, Pushed, Queued, StatsAfter, RecordsAfter, HistoryAfter, WorkerAfter,
         WaitingAt, RunningAt;
    WorkerGives(s, w, m, t);
    OthersTake(s, w, m, t);
    ReplaceWorker(s.workers, w, y, t);
  }

  lemma WorkerMoveKeepsOtherAttempts(s: Pool, w: nat, m: WorkerMove, t: Task)
    requires Heaps(s) && WorkerEnabled(s, w, m) && !Writes(s, w, m, t) && Attempted(s, t)
    ensures Attempted(WorkerNext(s, w, m), t)
  {
    hide Waits, Runs, Tickets, IsHeap, Heaps, Pushed, Queued, Awaiting, StatsAfter, WorkerAfter;
    WorkerMoveLeavesOthers(s, w, m, t);
  }

  lemma WorkerMoveKeepsWrittenAttempts(s: Pool, w: nat, m: WorkerMove, t: Task)
    requires Shape(s) && Heaps(s) && OnePlaceEach(s) && WorkerEnabled(s, w, m) && Writes(s, w, m, t) && Attempted(s, t)
    ensures Attempted(WorkerNext(s, w, m), t)
  {
    hide Waits, Runs, Tickets, IsHeap, Pushed, Queued, Places, StatsAfter;
    AtWorker(s, w, t);
    OthersTake(s, w, m, t);
    ReplaceWorker(s.workers, w, WorkerAfter(s, w, m), t);
  }

  lemma CountKeepsAttempts(s: Pool, t: Task, u: Task)
    requires OnePlaceEach(s) && t !in s.records.status && Attempted(s, u)
    ensures Attempted(CountNext(s, t), u)
  {
    hide Waits, Runs, Tickets;
    assert Places(s, t) == 0;
    assert Places(s, u) == if u in s.records.status then 1 else 0;
  }

  lemma SchedulerMoveKeepsRuns(s: Pool, m: SchedulerMove, t: Task)
    requires SchedulerEnabled(s, m)
    ensures Runs(SchedulerNext(s, m).workers, t) == Runs(s.workers, t)
  {
    hide Runs, Popped;
    if m.Send? {
      ReplaceWorker(s.workers, s.scheduler.i, SchedulerNext(s, m).workers[s.scheduler.i], t);
    }
  }

  lemma SchedulerMoveKeepsAttempts(s: Pool, m: SchedulerMove, t: Task)
    requires Heaps(s) && SchedulerEnabled(s, m) && Attempted(s, t)
    ensures Attempted(SchedulerNext(s, m), t)
  {
    hide Waits, Runs, Tickets, IsHeap, Popped, Queued;
    SchedulerMoveKeepsPlaces(s, m, t);
    SchedulerMoveKeepsRuns(s, m, t);
    assert Awaiting(SchedulerNext(s, m), t) == Awaiting(s, t);
  }

  lemma PushKeepsAttempts(s: Pool, p: Task, t: Task)
    requires Heaps(s) && p in s.pushing && Attempted(s, t)
    ensures Attempted(Next(s, Push(p)), t)
  {
    hide Waits, Runs, IsHeap, Pushed;
    PushKeepsHeap(s.taskQueue, p);
    assert Awaiting(Next(s, Push(p)), t) == Awaiting(s, t);
  }

  lemma WorkerMoveKeepsAttempts(s: Pool, w: nat, m: WorkerMove, t: Task)
    requires Shape(s) && Heaps(s) && OnePlaceEach(s) && WorkerEnabled(s, w, m) && Attempted(s, t)
    ensures Attempted(WorkerNext(s, w, m), t)
  {
    hide Shape, Heaps, OnePlaceEach, Attempted, WorkerNext, WorkerEnabled;
    if Writes(s, w, m, t) {
      WorkerMoveKeepsWrittenAttempts(s, w, m, t);
    } else {
      WorkerMoveKeepsOtherAttempts(s, w, m, t);
    }
  }

  lemma QuietStepKeepsAttempts(s: Pool, e: Event, t: Task)
    requires Attempted(s, t) && Enabled(s, e) && (e.Promise? || e.Stop? || e.WaitReturns?)
    ensures Attempted(Next(s, e), t)
  {
    hide Waits, Runs;
  }

  lemma StepKeepsAttempted(s: Pool, e: Event, t: Task)
    requires Shape(s) && Heaps(s) && OnePlaceEach(s) && Attempted(s, t) && Enabled(s, e)
    ensures Attempted(Next(s, e), t)
  {
    assert e.Count? ==> e.task !in s.records.status;
    hide Shape, Heaps, Attempted, WorkerNext, SchedulerNext, CountNext, WorkerEnabled, SchedulerEnabled;
    match e
    case Submit(u) => CountKeepsAttempts(s, u, t);
    case Count(u) => ForgetPromise(s, u, t); CountKeepsAttempts(s.(promised := s.promised - {u}), u, t);
    case Push(p) => PushKeepsAttempts(s, p, t);
    case Schedule(m) => SchedulerMoveKeepsAttempts(s, m, t);
    case Work(w, m) => WorkerMoveKeepsAttempts(s, w, m, t);
    case _ => QuietStepKeepsAttempts(s, e, t);
  }

  lemma ForgetPromise(s: Pool, u: Task, t: Task)
    requires OnePlaceEach(s) && Attempted(s, t)
    ensures var s' := s.(promised := s.promised - {u}); OnePlaceEach(s') && Attempted(s', t)
  {
    hide Waits, Runs;
    var s' := s.(promised := s.promised - {u});
    forall x ensures Places(s', x) == if x in s'.records.status then 1 else 0 {
      assert Places(s, x) == if x in s.records.status then 1 else 0;
    }
  }

  lemma StepKeepsAttempts(s: Pool, e: Event)
    requires Shape(s) && Heaps(s) && OnePlaceEach(s) && AttemptsBounded(s) && Enabled(s, e)
    ensures AttemptsBounded(Next(s, e))
  {
    hide Shape, Heaps, OnePlaceEach, Attempted, Next, Enabled;
    forall t ensures Attempted(Next(s, e), t) {
      assert Attempted(s, t);
      StepKeepsAttempted(s, e, t);
    }
  }

  // ---------- what a WaitGroup at zero means ----------

  lemma {:induction false} NoTickets(ws: seq<Worker>)
    requires Tickets(ws) == 0
    ensures forall w :: 0 <= w < |ws| ==> ws[w] == Worker(Idle, [])
  {
    if ws == [] {
    } else {
      NoTickets(ws[1..]);
      assert ws[0].inbox == [] && ws[0].phase.Idle?;
      forall w | 0 <= w < |ws| ensures ws[w] == Worker(Idle, []) {
        if w > 0 {
          assert ws[w] == ws[1..][w - 1];
        }
      }
    }
  }

  lemma {:induction false} NoTicketsNoTask(ws: seq<Worker>, t: Task)
    requires Tickets(ws) == 0
    ensures Waits(ws, t) == 0 && Runs(ws, t) == 0
  {
    if ws == [] {
    } else {
      assert ws[0].inbox == [] && ws[0].phase.Idle?;
      NoTicketsNoTask(ws[1..], t);
    }
  }

  /** Nothing is left to do: every queue, hand, inbox and worker is empty. */
  ghost predicate Empty(s: Pool) {
    && s.pushing == multiset{} && s.taskQueue == [] && s.retryQueue == [] && !s.scheduler.Holding?
    && forall w :: 0 <= w < |s.workers| ==> s.workers[w] == Worker(Idle, [])
  }

  /** The WaitGroup is never negative, and is zero exactly when nothing is left to do. */
  lemma ZeroMeansEmpty(s: Pool)
    requires TicketsCounted(s)
    ensures s.stats.wg >= 0
    ensures s.stats.wg == 0 <==> Empty(s)
  {
    if s.stats.wg == 0 {
      NoTickets(s.workers);
    } else if Empty(s) && Tickets(s.workers) > 0 {
      var w := AnyTicket(s.workers);
      assert false;
    }
  }

  lemma {:induction false} AnyTicket(ws: seq<Worker>) returns (w: nat)
    requires Tickets(ws) > 0
    ensures w < |ws| && ws[w] != Worker(Idle, [])
  {
    if TicketsAt(ws[0]) > 0 {
      w := 0;
    } else {
      w := AnyTicket(ws[1..]);
      w := w + 1;
    }
  }

  lemma PartCounts<T>(a: multiset<T>, b: multiset<T>, c: set<T>, all: set<T>)
    requires forall t :: a[t] + b[t] + (if t in c then 1 else 0) == if t in all then 1 else 0
    ensures |a| + |b| + |c| == |all|
  {
    assert a + b + multiset(c) == multiset(all);
    assert |multiset(c)| == |c| && |multiset(all)| == |all|;
  }

  /** Total = Success + Failed + the counted tasks not decided yet. */
  lemma UndecidedCount(s: Pool)
    requires OnePlaceEach(s) && StatsExact(s)
    ensures s.stats.total == s.stats.succeeded + s.stats.failed + |set t | t in s.records.status && !Decided(s, t)|
  {
    var undecided := set t | t in s.records.status && !Decided(s, t);
    forall t ensures s.history.won[t] + s.history.lost[t] + (if t in undecided then 1 else 0)
                     == if t in s.records.status.Keys then 1 else 0 {
      assert Places(s, t) == if t in s.records.status then 1 else 0;
    }
    PartCounts(s.history.won, s.history.lost, undecided, s.records.status.Keys);
  }

  /** With the WaitGroup at zero every counted task is decided, and Total = Success + Failed. */
  lemma ZeroMeansDecided(s: Pool)
    requires OnePlaceEach(s) && TicketsCounted(s) && StatsExact(s) && s.stats.wg == 0
    ensures forall t :: t in s.records.status ==> Decided(s, t)
    ensures s.stats.total == s.stats.succeeded + s.stats.failed
  {
    ZeroMeansEmpty(s);
    forall t | t in s.records.status ensures Decided(s, t) {
      NoTicketsNoTask(s.workers, t);
      assert Places(s, t) == 1;
    }
    UndecidedCount(s);
    assert (set t | t in s.records.status && !Decided(s, t)) == {};
  }

  lemma StepKeepsDecided(s: Pool, e: Event, t: Task)
    requires Enabled(s, e)
    ensures Decided(s, t) ==> Decided(Next(s, e), t)
  {
    hide WorkerNext, SchedulerNext, WorkerEnabled, SchedulerEnabled, Pushed;
    match e
    case Work(w, m) => WorkerKeepsFlags(s, w, m);
    case Schedule(m) => SchedulerKeepsBooks(s, m);
    case _ =>
  }

  lemma StepKeepsLate(s: Pool, e: Event, t: Task)
    requires Enabled(s, e)
    ensures t in Next(s, e).history.late <==> t in s.history.late || (s.stopped && Counts(e, t))
    ensures Next(s, e).stopped == (s.stopped || e.WaitReturns?) && (s.shutdown ==> Next(s, e).shutdown)
  {
    hide WorkerNext, SchedulerNext, WorkerEnabled, SchedulerEnabled, Pushed;
    match e
    case Work(w, m) => WorkerKeepsFlags(s, w, m);
    case Schedule(m) => SchedulerKeepsBooks(s, m);
    case _ =>
  }

  lemma StepKeepsStopWaited(s: Pool, e: Event)
    requires Shape(s) && OnePlaceEach(s) && TicketsCounted(s) && StatsExact(s) && StopWaited(s) && Enabled(s, e)
    ensures StopWaited(Next(s, e))
  {
    if e.WaitReturns? {
      ZeroMeansDecided(s);
    }
    var s' := Next(s, e);
    hide Shape, OnePlaceEach, TicketsCounted, StatsExact, Next;
    if s'.stopped {
      StepKeepsLate(s, e, Task(0, 0, 0, 0));
      forall t | t in s'.records.status ensures Decided(s', t) || t in s'.history.late {
        StatusKeys(s, e, t);
        StepKeepsDecided(s, e, t);
        StepKeepsLate(s, e, t);
      }
    }
  }

  // ---------- every run ----------

  lemma StepKeepsInv(s: Pool, e: Event)
    requires Inv(s) && Enabled(s, e)
    ensures Inv(Next(s, e))
  {
    hide Shape, Heaps, OnePlaceEach, TicketsCounted, StatsExact, AttemptsBounded, StopWaited, Next, Enabled;
    StepKeepsShape(s, e);
    StepKeepsHeaps(s, e);
    StepKeepsOnePlace(s, e);
    StepKeepsTickets(s, e);
    StepKeepsStats(s, e);
    StepKeepsAttempts(s, e);
    StepKeepsStopWaited(s, e);
  }

  /** `s'` is reached from `s` by the events `es`, in this order. */
  ghost predicate Run(s: Pool, es: seq<Event>, s': Pool)
    decreases |es|
  {
    if es == [] then s == s' else Enabled(s, es[0]) && Run(Next(s, es[0]), es[1..], s')
  }

  /** The invariant holds in every state of every interleaving. */
  lemma {:induction false} RunKeepsInv(s: Pool, es: seq<Event>, s': Pool)
    requires Inv(s) && Run(s, es, s')
    ensures Inv(s')
    decreases |es|
  {
    if es == [] {
    } else {
      StepKeepsInv(s, es[0]);
      RunKeepsInv(Next(s, es[0]), es[1..], s');
    }
  }

  /** In every interleaving a counted task is in exactly one place, was started at most once more
      than its retry budget allows, and the counters add up. Stop can get past its wait only when
      every counted task is decided and no worker holds anything, and then only tasks that a
      batch counts later can be undecided. */
  lemma EveryRun(workerCount: nat, es: seq<Event>, s: Pool)
    requires workerCount > 0 && Run(Initial(workerCount), es, s)
    ensures forall t :: t in s.records.status ==>
      Places(s, t) == 1 && t in s.history.runs && s.history.runs[t] <= 1 + t.maxRetries
    ensures forall t :: t !in s.records.status ==> Places(s, t) == 0
    ensures s.stats.retries == Sum(s.records.retryCount)
    ensures s.stats.total == s.stats.succeeded + s.stats.failed + |set t | t in s.records.status && !Decided(s, t)|
    ensures Enabled(s, WaitReturns) ==> Empty(s) && forall t :: t in s.records.status ==> Decided(s, t)
    ensures s.stopped ==> forall t :: t in s.records.status ==> Decided(s, t) || t in s.history.late
  {
    hide Run, Initial, Inv, Enabled, Places, Empty, Decided;
    InitialInv(workerCount);
    RunKeepsInv(Initial(workerCount), es, s);
    forall t
      ensures Places(s, t) == if t in s.records.status then 1 else 0
      ensures t in s.records.status ==> t in s.history.runs && s.history.runs[t] <= 1 + t.maxRetries
    {
      InvPlaces(s, t);
    }
    InvCounts(s);
  }

  lemma InvPlaces(s: Pool, t: Task)
    requires Inv(s)
    ensures Places(s, t) == if t in s.records.status then 1 else 0
    ensures t in s.records.status ==> t in s.history.runs && s.history.runs[t] <= 1 + t.maxRetries
  {
    hide OnePlaceEach, AttemptsBounded, Places;
    PlacedAndAttempted(s, t);
  }

  lemma InvCounts(s: Pool)
    requires Inv(s)
    ensures s.stats.retries == Sum(s.records.retryCount)
    ensures s.stats.total == s.stats.succeeded + s.stats.failed + |set t | t in s.records.status && !Decided(s, t)|
    ensures Enabled(s, WaitReturns) ==> Empty(s) && forall t :: t in s.records.status ==> Decided(s, t)
    ensures s.stopped ==> forall t :: t in s.records.status ==> Decided(s, t) || t in s.history.late
  {
    hide OnePlaceEach, AttemptsBounded, TicketsCounted, Shape, Heaps, Empty, Decided;
    UndecidedCount(s);
    if Enabled(s, WaitReturns) {
      ZeroMeansEmpty(s);
      ZeroMeansDecided(s);
    }
  }

  lemma PlacedAndAttempted(s: Pool, t: Task)
    requires OnePlaceEach(s) && AttemptsBounded(s)
    ensures Places(s, t) == if t in s.records.status then 1 else 0
    ensures t in s.records.status ==> t in s.history.runs && s.history.runs[t] <= 1 + t.maxRetries
  {
    assert Attempted(s, t);
    hide Waits, Runs, Queued;
  }

  // ---------- the order of the dispatch ----------

  /** Which worker and which task the scheduler picks, told by where it comes from: it turns to a
      worker only when it saw that worker idle, or between its channel and its busy flag; it asks
      the task queue only after it found the retry queue empty for this worker; it takes a task
      that no task in that queue precedes; it goes on to the next worker past a busy one or after a
      send; and it ends the scan after the last worker or with both queues found empty. */
  lemma DispatchOrder(s: Pool, m: SchedulerMove)
    requires Heaps(s) && SchedulerEnabled(s, m)
    ensures var next := SchedulerNext(s, m).scheduler;
      match s.scheduler
      case Waiting => next == Scanning(0) || (next.Exited? && s.shutdown)
      case Scanning(i) =>
        if i >= |s.workers| then next.Waiting?
        else if s.workers[i].phase.Running? || s.workers[i].phase.Requeueing? || s.workers[i].phase.Settled? then
          next == Scanning(i + 1)
        else next == Free(i)
      case Free(i) =>
        if s.retryQueue == [] then next == RetryEmpty(i)
        else next.Holding? && next.i == i && FirstOf(s.retryQueue, next.task)
      case RetryEmpty(i) =>
        if s.taskQueue == [] then next.Waiting?
        else next.Holding? && next.i == i && FirstOf(s.taskQueue, next.task)
      case Holding(i, t) => next == Scanning(i + 1) && SchedulerNext(s, m).workers[i].inbox == [t]
      case Exited => false
  {
    hide IsHeap, Popped;
    if m.PopRetry? {
      FrontIsFirstOf(s.retryQueue);
    } else if m.PopTask? {
      FrontIsFirstOf(s.taskQueue);
    }
  }

  /** A queued task that has no lower priority than any, and is no younger than any of its own. */
  predicate FirstOf(q: seq<Task>, t: Task) {
    t in q && forall u :: u in q ==>
      u.priority <= t.priority && (u.priority == t.priority ==> t.createdAt <= u.createdAt)
  }

  lemma FrontIsFirstOf(q: seq<Task>)
    requires IsHeap(q) && q != []
    ensures FirstOf(q, q[0])
  {
    hide IsHeap;
    forall u | u in q
      ensures u.priority <= q[0].priority && (u.priority == q[0].priority ==> q[0].createdAt <= u.createdAt)
    {
      FrontIsFirstOfAll(q, u);
    }
  }
}
