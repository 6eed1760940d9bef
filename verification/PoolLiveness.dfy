/// The worker pool finishes its work: with no further Submit and no Stop, every run takes only
/// so many productive steps, never blocks while work remains, and, if every goroutine that can
/// move eventually does, reaches a state with nothing left to do.

module PoolLiveness {
  import opened Tasks
  import opened TaskHeap
  import opened Sums
  import opened PoolProtocol

  // ---------- the measure ----------

  /** Steps a worker still has to take for what it holds, until its task is first decided. */
  function LoadAt(w: Worker): nat {
    5 * |w.inbox|
    + match w.phase
      case Idle => 0
      case Received(_) => 4
      case Running(_) => 3
      case Requeueing(_) => 10
      case Settled => 2
      case Released => 1
  }

  function Load(ws: seq<Worker>): nat {
    if ws == [] then 0 else LoadAt(ws[0]) + Load(ws[1..])
  }

  /** The retries a counted task has left. */
  function Left(s: Pool, t: Task): nat
    requires t in s.records.retryCount
  {
    if s.records.retryCount[t] <= t.maxRetries then t.maxRetries - s.records.retryCount[t] else 0
  }

  /** The retries each counted or promised task has left. */
  function RetriesLeft(s: Pool): map<Task, nat> {
    map t | t in s.records.retryCount.Keys + s.promised ::
      if t in s.records.retryCount then Left(s, t) else t.maxRetries
  }

  /** What the places of the tasks still cost, not counting retries to come. */
  function PlaceCost(s: Pool): nat {
    9 * |s.promised| + 8 * |s.pushing| + 7 * (|s.taskQueue| + |s.retryQueue|)
    + (if s.scheduler.Holding? then 6 else 0) + Load(s.workers)
  }

  /** A retry costs eight steps: one step back in the queue and seven to the next decision. */
  ghost function Measure(s: Pool): nat {
    8 * Sum(RetriesLeft(s)) + PlaceCost(s)
  }

  /** Steps of the pool and of calls under way, as opposed to new calls of Submit and Stop. */
  predicate Internal(e: Event) {
    e.Count? || e.Push? || e.Schedule? || e.Work?
  }

  /** Steps that bring a task nearer to its decision or a worker nearer to being idle. The
      other internal steps only move the scheduler's scan. */
  predicate Productive(e: Event) {
    e.Count? || e.Push? || e.Work? || (e.Schedule? && (e.turn.PopRetry? || e.turn.PopTask? || e.turn.Send?))
  }

  lemma {:induction false} ReplaceLoad(ws: seq<Worker>, w: nat, x: Worker)
    requires w < |ws|
    ensures Load(ws[w := x]) == Load(ws) - LoadAt(ws[w]) + LoadAt(x)
  {
    hide LoadAt;
    if w == 0 {
      assert ws[w := x][1..] == ws[1..];
    } else {
      ReplaceLoad(ws[1..], w - 1, x);
      assert ws[w := x][1..] == ws[1..][w - 1 := x];
    }
  }

  lemma RetryUsesBudget(s: Pool, w: nat, m: WorkerMove)
    requires WorkerEnabled(s, w, m)
    ensures Sum(RetriesLeft(WorkerNext(s, w, m)))
            == Sum(RetriesLeft(s)) - if m.Fail? && Retries(s, s.workers[w].phase.task, m) then 1 else 0
  {
    hide Sum, Pushed, WorkerAfter, StatsAfter, HistoryAfter;
    var left, left' := RetriesLeft(s), RetriesLeft(WorkerNext(s, w, m));
    if m.Fail? && Retries(s, s.workers[w].phase.task, m) {
      var t := s.workers[w].phase.task;
      assert t in left && left' == left[t := left[t] - 1];
      SumUpdate(left, t, left[t] - 1);
    } else {
      assert left' == left;
    }
  }

  lemma WorkerMoveCosts(s: Pool, w: nat, m: WorkerMove)
    requires WorkerEnabled(s, w, m)
    ensures PlaceCost(WorkerNext(s, w, m))
            == PlaceCost(s) + (if m.Fail? && Retries(s, s.workers[w].phase.task, m) then 8 else 0) - 1
  {
    hide Load, SiftUp, RecordsAfter, StatsAfter, HistoryAfter;
    ReplaceLoad(s.workers, w, WorkerAfter(s, w, m));
  }

  lemma SchedulerMoveCosts(s: Pool, m: SchedulerMove)
    requires SchedulerEnabled(s, m)
    ensures PlaceCost(SchedulerNext(s, m)) == PlaceCost(s) - if Productive(Schedule(m)) then 1 else 0
  {
    hide Load, SiftDown;
    if m.Send? {
      ReplaceLoad(s.workers, s.scheduler.i, SchedulerNext(s, m).workers[s.scheduler.i]);
    }
  }

  lemma CountCosts(s: Pool, t: Task)
    requires t in s.promised
    ensures PlaceCost(Next(s, Count(t))) == PlaceCost(s) - 1
  {
    hide Load;
    assert |s.promised - {t}| == |s.promised| - 1;
    var more := s.pushing + multiset{t};
    assert |more| == |s.pushing| + 1;
  }

  lemma CountKeepsRetriesLeft(s: Pool, t: Task)
    requires t in s.promised && t !in s.records.status && t !in s.records.retryCount
    ensures RetriesLeft(Next(s, Count(t))) == RetriesLeft(s)
  {
    var s' := Next(s, Count(t));
    assert s'.records.retryCount == s.records.retryCount[t := 0];
    assert s'.records.retryCount.Keys + s'.promised == s.records.retryCount.Keys + s.promised;
  }

  lemma PushCosts(s: Pool, t: Task)
    requires t in s.pushing
    ensures PlaceCost(Next(s, Push(t))) == PlaceCost(s) - 1
  {
    hide Load, SiftUp;
    assert |s.pushing - multiset{t}| == |s.pushing| - 1;
  }

  /** Every productive step takes exactly one off the measure, every scan step nothing. */
  lemma StepCosts(s: Pool, e: Event)
    requires Shape(s) && Enabled(s, e) && Internal(e)
    ensures Measure(Next(s, e)) == Measure(s) - if Productive(e) then 1 else 0
  {
    hide Sum, PlaceCost, RetriesLeft, WorkerNext, SchedulerNext, WorkerEnabled, SchedulerEnabled, Shape, CountNext;
    match e
    case Count(t) =>
      PromisedIsNew(s, t);
      CountCosts(s, t);
      CountKeepsRetriesLeft(s, t);
    case Push(t) =>
      PushCosts(s, t);
      SameRetriesLeft(s, Next(s, e));
    case Schedule(m) =>
      SchedulerMoveCosts(s, m);
      SchedulerKeepsBooks(s, m);
      SameRetriesLeft(s, SchedulerNext(s, m));
    case Work(w, m) =>
      WorkerMoveCosts(s, w, m);
      RetryUsesBudget(s, w, m);
  }

  lemma PromisedIsNew(s: Pool, t: Task)
    requires Shape(s) && t in s.promised
    ensures t !in s.records.status && t !in s.records.retryCount
  {}

  lemma SameRetriesLeft(s: Pool, s': Pool)
    requires s'.records == s.records && s'.promised == s.promised
    ensures RetriesLeft(s') == RetriesLeft(s)
  {}

  // ---------- finite runs ----------

  function ProductiveSteps(es: seq<Event>): nat {
    if es == [] then 0 else (if Productive(es[0]) then 1 else 0) + ProductiveSteps(es[1..])
  }

  /** A run of internal steps is as long as the measure it uses up, scan steps aside. */
  lemma {:induction false} RunIsBounded(s: Pool, es: seq<Event>, s': Pool)
    requires Inv(s) && Run(s, es, s') && forall e :: e in es ==> Internal(e)
    ensures ProductiveSteps(es) == Measure(s) - Measure(s')
    decreases |es|
  {
    if es == [] {
    } else {
      StepCosts(s, es[0]);
      StepKeepsInv(s, es[0]);
      hide Inv, Measure, Next, Enabled;
      RunIsBounded(Next(s, es[0]), es[1..], s');
    }
  }

  lemma BusyWorkerMove(s: Pool, w: nat) returns (e: Event)
    requires Inv(s) && w < |s.workers| && s.workers[w] != Worker(Idle, [])
    ensures e.Work? && e.w == w && Enabled(s, e) && e.move != Fail
  {
    hide Waits, Runs, Tickets, IsHeap, Heaps, TicketsCounted, StatsExact, AttemptsBounded;
    var p := s.workers[w].phase;
    var m := match p
      case Idle => Receive
      case Received(_) => Begin
      case Running(_) => Succeed
      case Requeueing(_) => Requeue
      case Settled => Release
      case Released => Done;
    if p.Received? {
      WorkerTaskKnown(s, w);
    }
    e := Work(w, m);
  }

  lemma {:induction false} RunAppends(s: Pool, es: seq<Event>, s': Pool, more: seq<Event>, s'': Pool)
    requires Run(s, es, s') && Run(s', more, s'')
    ensures Run(s, es + more, s'')
    decreases |es|
  {
    hide Next, Enabled;
    if es == [] {
      assert es + more == more;
    } else {
      RunAppends(Next(s, es[0]), es[1..], s', more, s'');
      assert (es + more)[1..] == es[1..] + more;
    }
  }

  lemma RunExtends(s: Pool, e: Event, es: seq<Event>, s': Pool)
    requires Enabled(s, e) && Run(Next(s, e), es, s')
    ensures Run(s, [e] + es, s')
  {
    assert ([e] + es)[1..] == es;
  }

  /** Nothing is left to do, and no batch is still being counted. */
  ghost predicate AllDone(s: Pool) {
    Empty(s) && s.promised == {}
  }

  /** Only the scheduler's scan can go on. */
  ghost predicate OnlyScanLeft(s: Pool) {
    && s.pushing == multiset{} && !s.scheduler.Holding?
    && forall w :: 0 <= w < |s.workers| ==> s.workers[w] == Worker(Idle, [])
  }

  lemma ReadyMove(s: Pool) returns (e: Event)
    requires Inv(s) && !OnlyScanLeft(s)
    ensures Enabled(s, e) && Internal(e) && Productive(e) && !e.Count?
  {
    HasShape(s);
    hide Inv, WorkerEnabled;
    if t :| t in s.pushing {
      e := Push(t);
    } else if w :| 0 <= w < |s.workers| && s.workers[w] != Worker(Idle, []) {
      hide Shape;
      e := BusyWorkerMove(s, w);
    } else {
      e := Schedule(Send);
    }
  }

  /** The scheduler's move when tasks are queued. */
  lemma ScanMove(s: Pool) returns (m: SchedulerMove)
    requires OnlyScanLeft(s) && !s.scheduler.Exited? && !Empty(s)
    ensures SchedulerEnabled(s, m) && Enabled(s, Schedule(m)) && !m.Exit? && !m.Send?
    ensures s.taskQueue != [] || s.retryQueue != []
  {
    m := match s.scheduler
      case Waiting => Wake
      case Scanning(i) => if i >= |s.workers| then EndOfScan else SeeFree
      case Free(_) => if s.retryQueue != [] then PopRetry else RetryMiss
      case _ => if s.taskQueue != [] then PopTask else TaskMiss;
  }

  lemma LeavesOnlyByExit(s: Pool, m: SchedulerMove)
    requires SchedulerEnabled(s, m)
    ensures SchedulerNext(s, m).scheduler.Exited? <==> m.Exit?
  {
    hide Popped;
  }

  /** The pool never blocks: while counted tasks remain, a productive step that counts no other
      task is enabled or at most four steps of the scheduler's scan away, unless the scheduler
      has left. */
  lemma {:induction false} ProductiveStepAhead(s: Pool) returns (es: seq<Event>, s': Pool, e: Event)
    requires Inv(s) && !s.scheduler.Exited? && !Empty(s)
    ensures |es| <= ScanRank(s) <= 4
    ensures Run(s, es, s') && forall x :: x in es ==> Internal(x) && !Productive(x)
    ensures s' == s.(scheduler := s'.scheduler) && !s'.scheduler.Exited? && Inv(s') && Measure(s') == Measure(s)
    ensures Enabled(s', e) && Internal(e) && Productive(e) && !e.Count?
    decreases ScanRank(s)
  {
    hide Inv, Next, Enabled, SchedulerEnabled, ScanRank, Measure, OnlyScanLeft, Empty;
    es, s' := [], s;
    if !OnlyScanLeft(s) {
      hide Internal, Productive;
      e := ReadyMove(s);
    } else {
      var m := ScanMove(s);
      e := Schedule(m);
      if !Productive(e) {
        ScanMoveKeeps(s, m);
        hide Productive;
        es, s', e := ProductiveStepAhead(Next(s, Schedule(m)));
        RunExtends(s, Schedule(m), es, s');
        es := [Schedule(m)] + es;
      }
    }
  }

  lemma ScanMoveKeeps(s: Pool, m: SchedulerMove)
    requires Inv(s) && OnlyScanLeft(s) && SchedulerEnabled(s, m) && !Productive(Schedule(m)) && !m.Exit?
    requires s.taskQueue != [] || s.retryQueue != []
    ensures var s' := Next(s, Schedule(m));
      && Inv(s') && s' == s.(scheduler := s'.scheduler) && !s'.scheduler.Exited? && Measure(s') == Measure(s)
      && ScanRank(s') < ScanRank(s) && !Empty(s')
  {
    var e := Schedule(m);
    HasShape(s);
    StepKeepsInv(s, e);
    StepCosts(s, e);
    hide Inv, Shape, Measure;
    ScanStep(s, e);
    ScanRankDrops(s, e);
    LeavesOnlyByExit(s, m);
    hide Next, SchedulerEnabled, ScanRank;
  }

  // ---------- infinite runs ----------

  datatype Actor = Submitters | TheScheduler | OneWorker(w: nat)

  function ActorOf(e: Event): Actor {
    match e
    case Schedule(_) => TheScheduler
    case Work(w, _) => OneWorker(w)
    case _ => Submitters
  }

  /** Some internal step of `a` is enabled. */
  ghost predicate CanMove(s: Pool, a: Actor) {
    exists e :: Internal(e) && ActorOf(e) == a && Enabled(s, e)
  }

  /** An infinite run of internal steps. */
  ghost predicate InfiniteRun(run: nat -> Pool, moves: nat -> Event) {
    forall k: nat :: StepAt(run, moves, k)
  }

  ghost predicate StepAt(run: nat -> Pool, moves: nat -> Event, k: nat) {
    Internal(moves(k)) && Enabled(run(k), moves(k)) && run(k + 1) == Next(run(k), moves(k))
  }

  /** Weak fairness: from any point on, each goroutine moves or is found unable to. */
  ghost predicate Fair(run: nat -> Pool, moves: nat -> Event) {
    forall a: Actor, k: nat :: MovesOrCannot(run, moves, a, k)
  }

  ghost predicate MovesOrCannot(run: nat -> Pool, moves: nat -> Event, a: Actor, k: nat) {
    exists j: nat :: k <= j && (ActorOf(moves(j)) == a || !CanMove(run(j), a))
  }

  lemma InternalKeepsOpen(s: Pool, e: Event)
    requires Enabled(s, e) && Internal(e)
    ensures Next(s, e).shutdown == s.shutdown
  {
    hide WorkerAfter, RecordsAfter, StatsAfter, HistoryAfter, Pushed, SchedulerNext;
    if e.Schedule? {
      SchedulerKeepsBooks(s, e.turn);
    }
  }

  lemma {:induction false} AlongRun(run: nat -> Pool, moves: nat -> Event, k: nat)
    requires InfiniteRun(run, moves) && Inv(run(0)) && !run(0).shutdown
    ensures Inv(run(k)) && !run(k).shutdown
  {
    hide Inv, Next, Enabled;
    if k == 0 {
    } else {
      AlongRun(run, moves, k - 1);
      assert StepAt(run, moves, k - 1);
      StepKeepsInv(run(k - 1), moves(k - 1));
      InternalKeepsOpen(run(k - 1), moves(k - 1));
    }
  }

  /** A scan step changes nothing but where the scheduler stands. */
  lemma ScanStep(s: Pool, e: Event)
    requires Enabled(s, e) && Internal(e) && !Productive(e)
    ensures Next(s, e) == s.(scheduler := Next(s, e).scheduler)
    ensures !s.scheduler.Holding? && !Next(s, e).scheduler.Holding?
  {
    hide WorkerNext, Popped;
  }

  /** From `k` on the run only scans. */
  ghost predicate OnlyScans(moves: nat -> Event, k: nat) {
    forall j: nat {:trigger moves(j)} :: k <= j ==> !Productive(moves(j))
  }

  lemma {:induction false} ScanningIsIdle(run: nat -> Pool, moves: nat -> Event, k: nat, j: nat)
    requires InfiniteRun(run, moves) && OnlyScans(moves, k) && k <= j
    ensures run(j) == run(k).(scheduler := run(j).scheduler)
    ensures !run(k).scheduler.Holding?
    decreases j
  {
    hide Next, Enabled;
    if j == k {
      assert !Productive(moves(k)) && StepAt(run, moves, k);
      ScanStep(run(k), moves(k));
    } else {
      ScanningIsIdle(run, moves, k, j - 1);
      assert !Productive(moves(j - 1)) && StepAt(run, moves, j - 1);
      ScanStep(run(j - 1), moves(j - 1));
    }
  }

  /** How many scan steps the scheduler may take before it pops, given that it can. */
  function ScanRank(s: Pool): (r: nat)
    ensures r <= 4
  {
    match s.scheduler
    case Scanning(i) => if i >= |s.workers| then 4 else if s.retryQueue != [] then 1 else 2
    case Free(_) => if s.retryQueue != [] then 0 else 1
    case Waiting => 3
    case RetryEmpty(_) => if s.taskQueue != [] then 0 else 4
    case _ => 0
  }

  lemma ScanRankDrops(s: Pool, e: Event)
    requires Enabled(s, e) && Internal(e) && !Productive(e) && (!s.shutdown || e != Schedule(Exit)) && |s.workers| > 0
    requires s.taskQueue != [] || s.retryQueue != []
    requires forall w :: 0 <= w < |s.workers| ==> s.workers[w].phase.Idle?
    ensures ScanRank(Next(s, e)) < ScanRank(s)
  {
    hide WorkerNext, Popped;
  }

  lemma {:induction false} CannotScanForever(run: nat -> Pool, moves: nat -> Event, k: nat)
    requires InfiniteRun(run, moves) && OnlyScans(moves, k) && !run(k).shutdown && |run(k).workers| > 0
    requires run(k).taskQueue != [] || run(k).retryQueue != []
    requires forall w :: 0 <= w < |run(k).workers| ==> run(k).workers[w].phase.Idle?
    ensures false
    decreases ScanRank(run(k))
  {
    hide Next, Enabled, ScanRank;
    assert !Productive(moves(k)) && StepAt(run, moves, k);
    ScanStep(run(k), moves(k));
    ScanRankDrops(run(k), moves(k));
    CannotScanForever(run, moves, k + 1);
  }

  lemma BusyWorkerCanMove(s: Pool, w: nat)
    requires Inv(s) && w < |s.workers| && s.workers[w] != Worker(Idle, [])
    ensures CanMove(s, OneWorker(w))
  {
    hide Inv;
    var e := BusyWorkerMove(s, w);
    assert Internal(e) && ActorOf(e) == OneWorker(w);
  }

  /** A fair run that only scans has nothing left to do. */
  lemma ScanningMeansEmpty(run: nat -> Pool, moves: nat -> Event, k: nat)
    requires InfiniteRun(run, moves) && Fair(run, moves) && OnlyScans(moves, k)
    requires Inv(run(0)) && !run(0).shutdown
    ensures AllDone(run(k))
  {
    hide Next, Enabled, Inv, CanMove;
    AlongRun(run, moves, k);
    ScanningIsIdle(run, moves, k, k);
    if w :| 0 <= w < |run(k).workers| && run(k).workers[w] != Worker(Idle, []) {
      SomeoneMoves(run, moves, k, OneWorker(w));
    }
    if run(k).pushing != multiset{} || run(k).promised != {} {
      SomeoneMoves(run, moves, k, Submitters);
    }
    if run(k).taskQueue != [] || run(k).retryQueue != [] {
      assert |run(k).workers| > 0 by { HasShape(run(k)); }
      CannotScanForever(run, moves, k);
    }
  }

  lemma HasShape(s: Pool)
    requires Inv(s)
    ensures Shape(s) && |s.workers| > 0
  {}

  /** A goroutine that keeps a productive step enabled is not passed over forever. */
  lemma SomeoneMoves(run: nat -> Pool, moves: nat -> Event, k: nat, a: Actor)
    requires InfiniteRun(run, moves) && Fair(run, moves)
    requires Inv(run(0)) && !run(0).shutdown
    requires (a == Submitters && (run(k).pushing != multiset{} || run(k).promised != {}))
             || (a.OneWorker? && a.w < |run(k).workers| && run(k).workers[a.w] != Worker(Idle, []))
    ensures !OnlyScans(moves, k)
  {
    hide Next, Inv, CanMove;
    if OnlyScans(moves, k) {
      assert MovesOrCannot(run, moves, a, k);
      var j: nat :| k <= j && (ActorOf(moves(j)) == a || !CanMove(run(j), a));
      assert StepAt(run, moves, j);
      ScanningIsIdle(run, moves, k, j);
      AlongRun(run, moves, j);
      if a == Submitters {
        PendingPushCanMove(run(j));
      } else {
        BusyWorkerCanMove(run(j), a.w);
      }
    }
  }

  lemma PendingPushCanMove(s: Pool)
    requires s.pushing != multiset{} || s.promised != {}
    ensures CanMove(s, Submitters)
  {
    if t :| t in s.promised {
      assert Enabled(s, Count(t)) && ActorOf(Count(t)) == Submitters;
    } else {
      var t :| t in s.pushing;
      assert Enabled(s, Push(t)) && ActorOf(Push(t)) == Submitters;
    }
  }

  lemma {:induction false} MeasureNeverGrows(run: nat -> Pool, moves: nat -> Event, k: nat, j: nat)
    requires InfiniteRun(run, moves) && Inv(run(0)) && !run(0).shutdown && k <= j
    ensures Measure(run(j)) <= Measure(run(k))
    decreases j
  {
    hide Next, Enabled, Measure, Inv, Shape;
    if k >= j {
    } else {
      MeasureNeverGrows(run, moves, k, j - 1);
      assert StepAt(run, moves, j - 1);
      AlongRun(run, moves, j - 1);
      HasShape(run(j - 1));
      StepCosts(run(j - 1), moves(j - 1));
    }
  }

  lemma {:induction false} EventuallyEmpty(run: nat -> Pool, moves: nat -> Event, k: nat) returns (n: nat)
    requires InfiniteRun(run, moves) && Fair(run, moves) && Inv(run(0)) && !run(0).shutdown
    ensures k <= n && AllDone(run(n))
    decreases Measure(run(k))
  {
    hide Next, Enabled, Inv, Measure, Fair, Shape;
    if OnlyScans(moves, k) {
      ScanningMeansEmpty(run, moves, k);
      n := k;
    } else {
      var j: nat :| k <= j && Productive(moves(j));
      MeasureNeverGrows(run, moves, k, j);
      assert StepAt(run, moves, j);
      AlongRun(run, moves, j);
      HasShape(run(j));
      StepCosts(run(j), moves(j));
      n := EventuallyEmpty(run, moves, j + 1);
    }
  }

  /** With no new Submit and no Stop, every fair run of every reachable pool ends with every batch
      counted, all queues and channels empty, the WaitGroup at zero and Total = Success + Failed. */
  lemma EveryFairRunFinishes(run: nat -> Pool, moves: nat -> Event) returns (n: nat)
    requires InfiniteRun(run, moves) && Fair(run, moves) && Inv(run(0)) && !run(0).shutdown
    ensures AllDone(run(n)) && run(n).stats.wg == 0
    ensures run(n).stats.total == run(n).stats.succeeded + run(n).stats.failed
    ensures forall t :: t in run(n).records.status ==> Decided(run(n), t)
  {
    n := EventuallyEmpty(run, moves, 0);
    AlongRun(run, moves, n);
    ZeroMeansEmpty(run(n));
    ZeroMeansDecided(run(n));
  }
}
