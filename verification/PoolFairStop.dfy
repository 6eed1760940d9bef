/// Stop in fair runs: every run in which each goroutine, Stop's own included, goes on if it can
/// gets past the wait exactly when Stop is sure to return.

module PoolFairStop {
  import opened Options
  import opened Tasks
  import opened TaskHeap
  import opened PoolProtocol
  import opened PoolLiveness
  import opened PoolStop
  import opened PoolReturn

  // ---------- fair runs ----------

  /** An infinite run; at some moments nobody moves. */
  ghost predicate EndlessRun(run: nat -> Pool, moves: nat -> Option<Event>) {
    forall k: nat :: StepOrPause(run, moves, k)
  }

  ghost predicate StepOrPause(run: nat -> Pool, moves: nat -> Option<Event>, k: nat) {
    match moves(k)
    case None => run(k + 1) == run(k)
    case Some(e) => Enabled(run(k), e) && run(k + 1) == Next(run(k), e)
  }

  lemma MomentOf(run: nat -> Pool, moves: nat -> Option<Event>, k: nat)
    requires EndlessRun(run, moves)
    ensures moves(k).None? ==> run(k + 1) == run(k)
    ensures moves(k).Some? ==> Enabled(run(k), moves(k).value) && run(k + 1) == Next(run(k), moves(k).value)
  {
    hide Next, Enabled;
    assert StepOrPause(run, moves, k);
  }

  ghost predicate MovesAt(moves: nat -> Option<Event>, a: Actor, k: nat) {
    moves(k).Some? && Internal(moves(k).value) && ActorOf(moves(k).value) == a
  }

  /** From `k` on, `a` moves or is found unable to. */
  ghost predicate FairTo(run: nat -> Pool, moves: nat -> Option<Event>, a: Actor, k: nat) {
    exists j: nat :: k <= j && (MovesAt(moves, a, j) || !CanMove(run(j), a))
  }

  /** From `k` on, Stop gets past its wait or is found unable to. */
  ghost predicate FairToStop(run: nat -> Pool, moves: nat -> Option<Event>, k: nat) {
    exists j: nat :: k <= j && (moves(j) == Some(WaitReturns) || !Enabled(run(j), WaitReturns))
  }

  ghost predicate FairToAll(run: nat -> Pool, moves: nat -> Option<Event>) {
    && (forall a: Actor, k: nat :: FairTo(run, moves, a, k))
    && (forall k: nat :: FairToStop(run, moves, k))
  }

  // ---------- what holds along the run ----------

  ghost predicate Stopping(s: Pool) {
    Inv(s) && s.shutdown && SureToEnd(s)
  }

  lemma StepKeepsStopping(s: Pool, e: Event)
    requires Stopping(s) && Enabled(s, e)
    ensures Stopping(Next(s, e))
  {
    hide Inv, SureToEnd, Next, Enabled;
    StepKeepsSure(s, e);
    StepKeepsInv(s, e);
  }

  lemma {:induction false} AlongEndlessRun(run: nat -> Pool, moves: nat -> Option<Event>, k: nat, j: nat)
    requires EndlessRun(run, moves) && Stopping(run(k)) && k <= j
    ensures Stopping(run(j)) && Measure(run(j)) <= Measure(run(k))
    decreases j
  {
    hide Stopping, Next, Enabled, Measure;
    if k >= j {
    } else {
      AlongEndlessRun(run, moves, k, j - 1);
      MomentOf(run, moves, j - 1);
      if moves(j - 1).Some? {
        StepKeepsStopping(run(j - 1), moves(j - 1).value);
        StoppingStepCosts(run(j - 1), moves(j - 1).value);
      }
    }
  }

  lemma StoppingStepCosts(s: Pool, e: Event)
    requires Stopping(s) && Enabled(s, e)
    ensures e.WaitReturns? || Internal(e)
    ensures Measure(Next(s, e)) == Measure(s) - if Productive(e) then 1 else 0
  {
    HasShape(s);
    hide Inv, SureToEnd, Shape, RetriesLeft, PlaceCost, WorkerNext, SchedulerNext, WorkerEnabled, SchedulerEnabled;
    if Internal(e) {
      StepCosts(s, e);
    } else {
      assert e.WaitReturns?;
      SameCosts(s, Next(s, e));
    }
  }

  lemma SameCosts(s: Pool, s': Pool)
    requires s' == s.(stopped := s'.stopped)
    ensures RetriesLeft(s') == RetriesLeft(s) && PlaceCost(s') == PlaceCost(s)
  {
    assert RetriesLeft(s') == RetriesLeft(s);
  }

  // ---------- nothing left to do ----------

  lemma EmptyStays(s: Pool, e: Event)
    requires s.shutdown && s.promised == {} && Empty(s) && Enabled(s, e)
    ensures Empty(Next(s, e))
  {
    hide WorkerNext, Popped, Pushed;
  }

  lemma NoPromises(s: Pool)
    requires Stopping(s)
    ensures s.shutdown && s.promised == {} && Inv(s)
  {}

  lemma {:induction false} EmptyAlong(run: nat -> Pool, moves: nat -> Option<Event>, k: nat, j: nat)
    requires EndlessRun(run, moves) && Stopping(run(k)) && Empty(run(k)) && k <= j
    ensures Empty(run(j))
    decreases j
  {
    hide Stopping, Next, Enabled, Empty, EndlessRun, Inv, Measure;
    if k >= j {
    } else {
      EmptyAlong(run, moves, k, j - 1);
      AlongEndlessRun(run, moves, k, j - 1);
      NoPromises(run(j - 1));
      MomentOf(run, moves, j - 1);
      if moves(j - 1).Some? {
        EmptyStays(run(j - 1), moves(j - 1).value);
      }
    }
  }

  lemma StopPasses(s: Pool)
    ensures Enabled(s, WaitReturns) ==> Next(s, WaitReturns).stopped
    ensures Stopping(s) && Empty(s) && !Enabled(s, WaitReturns) ==> s.stopped
  {
    hide SureToEnd, Inv, Empty;
    if Stopping(s) {
      EmptyHasNoTickets(s);
    }
  }

  /** With the WaitGroup at zero for good, Stop gets past its wait. */
  lemma EmptyReturns(run: nat -> Pool, moves: nat -> Option<Event>, k: nat) returns (n: nat)
    requires EndlessRun(run, moves) && FairToAll(run, moves) && Stopping(run(k)) && Empty(run(k))
    ensures run(n).stopped
  {
    hide Stopping, Empty, Next, Enabled, EndlessRun, Measure;
    assert FairToStop(run, moves, k);
    var j: nat :| k <= j && (moves(j) == Some(WaitReturns) || !Enabled(run(j), WaitReturns));
    MomentOf(run, moves, j);
    StopPasses(run(j));
    AlongEndlessRun(run, moves, k, j);
    EmptyAlong(run, moves, k, j);
    n := if moves(j) == Some(WaitReturns) then j + 1 else j;
  }

  lemma EmptyHasNoTickets(s: Pool)
    requires Inv(s)
    ensures s.stats.wg == 0 <==> Empty(s)
  {
    ZeroMeansEmpty(s);
  }

  // ---------- something left to do ----------

  /** From `k` on nobody gets a task nearer to its decision. */
  ghost predicate QuietFrom(moves: nat -> Option<Event>, k: nat) {
    forall j: nat {:trigger moves(j)} :: k <= j ==> moves(j).None? || !Productive(moves(j).value)
  }

  lemma QuietStep(s: Pool, e: Event)
    requires Stopping(s) && !Empty(s) && Enabled(s, e) && !Productive(e)
    ensures e.Schedule? && Internal(e) && Next(s, e) == s.(scheduler := Next(s, e).scheduler)
    ensures !s.scheduler.Holding? && !Next(s, e).scheduler.Holding?
  {
    EmptyHasNoTickets(s);
    StoppingStepCosts(s, e);
    hide Inv, SureToEnd, Empty, WorkerNext, SchedulerNext, WorkerEnabled, SchedulerEnabled, Measure;
    ScanStep(s, e);
  }

  lemma OnlySchedulerMoved(s: Pool, s': Pool)
    requires Inv(s) && Inv(s') && s' == s.(scheduler := s'.scheduler)
    ensures Empty(s') <==> Empty(s)
  {
    EmptyHasNoTickets(s);
    EmptyHasNoTickets(s');
  }

  lemma {:induction false} QuietAlong(run: nat -> Pool, moves: nat -> Option<Event>, k: nat, j: nat)
    requires EndlessRun(run, moves) && QuietFrom(moves, k) && Stopping(run(k)) && !Empty(run(k)) && k <= j
    ensures Stopping(run(j)) && !Empty(run(j)) && run(j) == run(k).(scheduler := run(j).scheduler)
    ensures run(k).scheduler.Holding? ==> run(j) == run(k) && (k < j ==> moves(j - 1).None?)
    decreases j
  {
    hide Stopping, Next, Enabled, Empty, Measure, Inv;
    if k >= j {
    } else {
      QuietAlong(run, moves, k, j - 1);
      AlongEndlessRun(run, moves, k, j);
      NoPromises(run(j - 1));
      NoPromises(run(j));
      MomentOf(run, moves, j - 1);
      assert moves(j - 1).None? || !Productive(moves(j - 1).value);
      if moves(j - 1).Some? {
        QuietStep(run(j - 1), moves(j - 1).value);
        OnlySchedulerMoved(run(j - 1), run(j));
      }
    }
  }

  /** A goroutine that can move at all times is not passed over. */
  lemma WorkerMovesOn(run: nat -> Pool, moves: nat -> Option<Event>, k: nat, w: nat)
    requires EndlessRun(run, moves) && FairToAll(run, moves) && Stopping(run(k)) && !Empty(run(k))
    requires w < |run(k).workers| && run(k).workers[w] != Worker(Idle, [])
    ensures !QuietFrom(moves, k)
  {
    hide Inv, SureToEnd, Next, Enabled, Empty, CanMove, EndlessRun;
    if QuietFrom(moves, k) {
      assert FairTo(run, moves, OneWorker(w), k);
      var j: nat :| k <= j && (MovesAt(moves, OneWorker(w), j) || !CanMove(run(j), OneWorker(w)));
      QuietAlong(run, moves, k, j);
      BusyWorkerCanMove(run(j), w);
    }
  }

  ghost predicate WorkersIdle(s: Pool) {
    forall w :: 0 <= w < |s.workers| ==> s.workers[w] == Worker(Idle, [])
  }

  lemma SureNotWaiting(s: Pool)
    requires SureToEnd(s) && (Backlog(s) > 0 || s.scheduler.Holding?)
    ensures !s.scheduler.Waiting? && !s.scheduler.Exited?
  {
    hide Fit, Returning;
  }

  /** While tasks wait, the scheduler is on its way to take one. */
  lemma SchedulerCanMove(s: Pool)
    requires Shape(s) && WorkersIdle(s) && !s.scheduler.Waiting? && !s.scheduler.Exited?
    ensures CanMove(s, TheScheduler)
  {
    var m := match s.scheduler
      case Scanning(i) => if i >= |s.workers| then EndOfScan else SeeFree
      case Free(_) => if s.retryQueue != [] then PopRetry else RetryMiss
      case RetryEmpty(_) => if s.taskQueue != [] then PopTask else TaskMiss
      case _ => Send;
    assert Enabled(s, Schedule(m)) && Internal(Schedule(m)) && ActorOf(Schedule(m)) == TheScheduler;
  }

  /** A fair run gets to the scheduler's next move. */
  lemma SchedulerMovesOn(run: nat -> Pool, moves: nat -> Option<Event>, k: nat) returns (j: nat)
    requires EndlessRun(run, moves) && FairToAll(run, moves) && QuietFrom(moves, k)
    requires Stopping(run(k)) && !Empty(run(k)) && WorkersIdle(run(k))
    requires Backlog(run(k)) > 0 || run(k).scheduler.Holding?
    ensures k <= j && MovesAt(moves, TheScheduler, j)
  {
    hide Inv, SureToEnd, Next, Enabled, Empty, CanMove, EndlessRun, MovesAt, Shape;
    assert FairTo(run, moves, TheScheduler, k);
    j :| k <= j && (MovesAt(moves, TheScheduler, j) || !CanMove(run(j), TheScheduler));
    QuietAlong(run, moves, k, j);
    HasShape(run(j));
    SureNotWaiting(run(j));
    SchedulerCanMove(run(j));
  }

  lemma HoldingMovesOn(run: nat -> Pool, moves: nat -> Option<Event>, k: nat)
    requires EndlessRun(run, moves) && FairToAll(run, moves)
    requires Stopping(run(k)) && !Empty(run(k)) && WorkersIdle(run(k)) && run(k).scheduler.Holding?
    ensures !QuietFrom(moves, k)
  {
    hide Stopping, Empty, Next, Enabled, WorkersIdle, FairToAll, EndlessRun;
    if QuietFrom(moves, k) {
      var j := SchedulerMovesOn(run, moves, k);
      QuietAlong(run, moves, k, j + 1);
    }
  }

  /** The scan cannot go on forever: `j` is the scheduler's next move. */
  lemma {:induction false} ScanEnds(run: nat -> Pool, moves: nat -> Option<Event>, k: nat, j: nat)
    requires EndlessRun(run, moves) && FairToAll(run, moves) && QuietFrom(moves, k)
    requires Stopping(run(k)) && !Empty(run(k)) && WorkersIdle(run(k)) && Backlog(run(k)) > 0
    requires k <= j && MovesAt(moves, TheScheduler, j)
    ensures false
    decreases ScanRank(run(k)), j - k
  {
    hide Inv, SureToEnd, Next, Enabled, Empty, CanMove, EndlessRun, FairToAll, ScanRank, Shape;
    QuietAlong(run, moves, k, k + 1);
    MomentOf(run, moves, k);
    if moves(k).None? {
      ScanEnds(run, moves, k + 1, j);
    } else {
      ScanRankFalls(run(k), moves(k).value);
      var next := SchedulerMovesOn(run, moves, k + 1);
      ScanEnds(run, moves, k + 1, next);
    }
  }

  lemma ScanRankFalls(s: Pool, e: Event)
    requires Stopping(s) && !Empty(s) && WorkersIdle(s) && Backlog(s) > 0 && Enabled(s, e) && !Productive(e)
    ensures ScanRank(Next(s, e)) < ScanRank(s)
  {
    HasShape(s);
    QuietStep(s, e);
    SureNotWaiting(s);
    hide Inv, SureToEnd, Shape, Empty, WorkerNext, SchedulerNext, ScanRank;
    ScanRankDrops(s, e);
  }

  /** While something is left to do, someone does it. */
  lemma NotQuiet(run: nat -> Pool, moves: nat -> Option<Event>, k: nat)
    requires EndlessRun(run, moves) && FairToAll(run, moves) && Stopping(run(k)) && !Empty(run(k))
    ensures !QuietFrom(moves, k)
  {
    assert run(k).pushing == multiset{};
    hide Stopping, Inv, SureToEnd, FairToAll, EndlessRun, QuietFrom;
    if w :| 0 <= w < |run(k).workers| && run(k).workers[w] != Worker(Idle, []) {
      WorkerMovesOn(run, moves, k, w);
    } else if run(k).scheduler.Holding? {
      HoldingMovesOn(run, moves, k);
    } else if QuietFrom(moves, k) {
      var j := SchedulerMovesOn(run, moves, k);
      ScanEnds(run, moves, k, j);
    }
  }

  /** From a state in which Stop is sure to return, every fair run gets past the wait. */
  lemma {:induction false} EveryFairRunReturns(run: nat -> Pool, moves: nat -> Option<Event>, k: nat) returns (n: nat)
    requires EndlessRun(run, moves) && FairToAll(run, moves)
    requires Inv(run(k)) && run(k).shutdown && SureToEnd(run(k))
    ensures run(n).stopped
    decreases Measure(run(k))
  {
    hide Inv, SureToEnd, Next, Enabled, Empty, FairToAll, Measure, EndlessRun;
    if Empty(run(k)) {
      n := EmptyReturns(run, moves, k);
    } else {
      NotQuiet(run, moves, k);
      var j: nat :| k <= j && moves(j).Some? && Productive(moves(j).value);
      AlongEndlessRun(run, moves, k, j);
      AlongEndlessRun(run, moves, k, j + 1);
      ProductiveAt(run, moves, j);
      n := EveryFairRunReturns(run, moves, j + 1);
    }
  }

  lemma ProductiveAt(run: nat -> Pool, moves: nat -> Option<Event>, j: nat)
    requires EndlessRun(run, moves) && Stopping(run(j)) && moves(j).Some? && Productive(moves(j).value)
    ensures Measure(run(j + 1)) < Measure(run(j))
  {
    MomentOf(run, moves, j);
    hide Stopping, Next, Enabled, Measure;
    StoppingStepCosts(run(j), moves(j).value);
  }

  // ---------- a fair run that hangs ----------

  ghost function StateAt(s: Pool, es: seq<Event>, n: nat): Pool
    decreases n
  {
    if n == 0 || es == [] || !Enabled(s, es[0]) then s else StateAt(Next(s, es[0]), es[1..], n - 1)
  }

  lemma {:induction false} StateAtIs(s: Pool, es: seq<Event>, s': Pool, n: nat)
    requires Run(s, es, s')
    ensures n < |es| ==> Enabled(StateAt(s, es, n), es[n]) && StateAt(s, es, n + 1) == Next(StateAt(s, es, n), es[n])
    ensures n >= |es| ==> StateAt(s, es, n) == s'
    ensures StateAt(s, es, n).stopped ==> s'.stopped
    decreases |es|
  {
    hide Next, Enabled;
    if es == [] {
    } else if n == 0 {
      assert StateAt(s, es, 1) == StateAt(Next(s, es[0]), es[1..], 0);
      if s.stopped {
        StoppedStays(s, es, s');
      }
    } else {
      StateAtIs(Next(s, es[0]), es[1..], s', n - 1);
    }
  }

  lemma {:induction false} StoppedStays(s: Pool, es: seq<Event>, s': Pool)
    requires Run(s, es, s') && s.stopped
    ensures s'.stopped
    decreases |es|
  {
    if es == [] {
    } else {
      StepKeepsLate(s, es[0], Task(0, 0, 0, 0));
      hide Next, Enabled;
      StoppedStays(Next(s, es[0]), es[1..], s');
    }
  }

  /** Nothing moves but perhaps Stop itself. */
  ghost predicate Still(s: Pool) {
    s.scheduler.Exited? && OnlyScanLeft(s) && s.promised == {}
  }

  /** Without the scheduler, everyone else runs out of work. */
  lemma {:induction false} RunsDry(s: Pool) returns (es: seq<Event>, s': Pool)
    requires Inv(s) && s.scheduler.Exited?
    ensures Run(s, es, s') && Still(s')
    decreases Measure(s)
  {
    if Still(s) {
      es, s' := [], s;
    } else {
      var e;
      if t :| t in s.promised {
        e := Count(t);
      } else {
        e := ReadyMove(s);
      }
      HasShape(s);
      StaysExited(s, e);
      StepCosts(s, e);
      StepKeepsInv(s, e);
      hide Next, Enabled, Inv, Shape, Measure, Still;
      var rest;
      rest, s' := RunsDry(Next(s, e));
      RunExtends(s, e, rest, s');
      es := [e] + rest;
    }
  }

  lemma StaysExited(s: Pool, e: Event)
    requires s.scheduler.Exited? && Enabled(s, e)
    ensures Next(s, e).scheduler.Exited?
  {
    hide WorkerAfter, RecordsAfter, StatsAfter, HistoryAfter, Pushed;
  }

  lemma StillCannotMove(s: Pool, a: Actor)
    requires Still(s)
    ensures !CanMove(s, a)
  {
  }

  lemma EndsInStill(s: Pool, es: seq<Event>, last: Pool, run: nat -> Pool, moves: nat -> Option<Event>)
    requires Still(last) && !Enabled(last, WaitReturns) && forall k: nat :: k >= |es| ==> run(k) == last
    ensures FairToAll(run, moves)
  {
    hide Still, Enabled, CanMove;
    forall a: Actor, k: nat ensures FairTo(run, moves, a, k) {
      var j: nat := if k < |es| then |es| else k;
      StillCannotMove(last, a);
      assert k <= j && !CanMove(run(j), a);
    }
    forall k: nat ensures FairToStop(run, moves, k) {
      var j: nat := if k < |es| then |es| else k;
      assert k <= j && !Enabled(run(j), WaitReturns);
    }
  }

  /** If Stop is not sure to return, there is a fair run in which it never does. */
  lemma FairRunHangs(s: Pool) returns (run: nat -> Pool, moves: nat -> Option<Event>)
    requires Inv(s) && s.shutdown && !s.stopped && !SureToEnd(s)
    ensures run(0) == s && EndlessRun(run, moves) && FairToAll(run, moves)
    ensures forall n: nat :: !run(n).stopped
  {
    hide Inv, SureToEnd, Run, Still, Enabled, Next, FairToAll;
    var es, last := HangsStill(s);
    run := (n: nat) => StateAt(s, es, n);
    moves := (n: nat) => if n < |es| then Some(es[n]) else None;
    forall k: nat ensures StepOrPause(run, moves, k) && !run(k).stopped && (k >= |es| ==> run(k) == last) {
      StateAtIs(s, es, last, k);
      StateAtIs(s, es, last, k + 1);
    }
    EndsInStill(s, es, last, run, moves);
  }

  lemma HangsStill(s: Pool) returns (es: seq<Event>, s': Pool)
    requires Inv(s) && s.shutdown && !s.stopped && !SureToEnd(s)
    ensures Run(s, es, s') && Still(s') && !s'.stopped && !Enabled(s', WaitReturns)
  {
    hide Inv, SureToEnd, NothingComesBack, Still;
    var early, s1 := LeavesTooEarly(s);
    var more, s2 := LeavesBehind(s1);
    RunAppends(s, early, s1, more, s2);
    var dry;
    dry, s' := RunsDry(s2);
    RunAppends(s, early + more, s2, dry, s');
    es := (early + more) + dry;
    NeverReturned(s2, dry, s');
  }

  lemma NeverReturned(s: Pool, es: seq<Event>, s': Pool)
    requires !CanReturn(s) && Run(s, es, s')
    ensures !s'.stopped && !Enabled(s', WaitReturns)
  {
    if Enabled(s', WaitReturns) {
      RunExtends(s', WaitReturns, [], Next(s', WaitReturns));
      RunAppends(s, es, s', [WaitReturns] + [], Next(s', WaitReturns));
    }
  }

  /** After Stop is called, every fair run gets past its wait exactly when it is sure to. */
  lemma FairStopIff(s: Pool)
    requires Inv(s) && s.shutdown && !s.stopped
    ensures (forall run: nat -> Pool, moves: nat -> Option<Event> ::
               run(0) == s && EndlessRun(run, moves) && FairToAll(run, moves) ==> exists n: nat :: run(n).stopped)
            <==> SureToEnd(s)
  {
    hide Inv, SureToEnd, EndlessRun, FairToAll;
    if SureToEnd(s) {
      forall run: nat -> Pool, moves: nat -> Option<Event>
        | run(0) == s && EndlessRun(run, moves) && FairToAll(run, moves)
        ensures exists n: nat :: run(n).stopped
      {
        var n := EveryFairRunReturns(run, moves, 0);
      }
    } else {
      var run, moves := FairRunHangs(s);
    }
  }
}
