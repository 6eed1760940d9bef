/// When Stop is sure to return, wherever the scheduler stands: exactly when the tasks that are queued,
/// or come back, are no more than the workers still to be scanned that are certain to be free.

module PoolReturn {
  import opened Tasks
  import opened TaskHeap
  import opened PoolProtocol
  import opened PoolLiveness
  import opened PoolStop

  // ---------- the condition ----------

  /** Nothing is at the worker or comes to it but from the scheduler. */
  predicate CertainlyFree(x: Worker) {
    (x.phase.Idle? || x.phase.Released?) && x.inbox == []
  }

  /** How many of the workers from `i` on are certain to be free when the scan gets to them. */
  function FreeFrom(ws: seq<Worker>, i: nat): nat
    decreases |ws| - i
  {
    if i >= |ws| then 0 else (if CertainlyFree(ws[i]) then 1 else 0) + FreeFrom(ws, i + 1)
  }

  /** How many queued tasks the scheduler is certain to take before it waits again. */
  function Room(s: Pool): nat {
    match s.scheduler
    case Scanning(i) => FreeFrom(s.workers, i)
    case Free(i) => 1 + FreeFrom(s.workers, i + 1)
    case RetryEmpty(i) => if s.taskQueue == [] then 0 else 1 + FreeFrom(s.workers, i + 1)
    case Holding(i, _) => FreeFrom(s.workers, i + 1)
    case _ => 0
  }

  function Backlog(s: Pool): nat {
    |s.taskQueue| + |s.retryQueue|
  }

  /** The scheduler has a task for worker `i`, or is certain to pop one for it. */
  predicate SendsTo(s: Pool, i: nat) {
    match s.scheduler
    case Free(j) => i == j && Backlog(s) > 0
    case RetryEmpty(j) => i == j && s.taskQueue != []
    case Holding(j, _) => i == j
    case _ => false
  }

  /** The scheduler has to wait until worker `i` is through with its present task. */
  predicate Blocked(s: Pool, i: nat) {
    SendsTo(s, i) && i < |s.workers| && s.workers[i].inbox != []
  }

  /** At most one retry is left of `t`. */
  predicate NearlyUsedUp(s: Pool, t: Task) {
    t in s.records.retryCount && s.records.retryCount[t] + 1 >= t.maxRetries
  }

  /** Nothing at the worker can stay undecided once the scheduler has left. A worker that blocks
      the scheduler may retry its present task once more. */
  predicate Fit(s: Pool, x: Worker, blocked: bool) {
    && (forall t :: t in x.inbox ==> UsedUp(s, t))
    && match x.phase
       case Received(t) => UsedUp(s, t) || (blocked && NearlyUsedUp(s, t))
       case Running(t) => UsedUp(s, t) || (blocked && NearlyUsedUp(s, t))
       case Requeueing(t) => blocked && UsedUp(s, t)
       case _ => true
  }

  /** The retry that a worker can still put into the queue. */
  function Coming(s: Pool, x: Worker): nat {
    match x.phase
    case Received(t) => if UsedUp(s, t) then 0 else 1
    case Running(t) => if UsedUp(s, t) then 0 else 1
    case Requeueing(_) => 1
    case _ => 0
  }

  function Position(s: Pool): nat {
    match s.scheduler
    case Free(i) => i
    case RetryEmpty(i) => i
    case Holding(i, _) => i
    case _ => 0
  }

  /** The retries that come back before the scheduler goes on. */
  function Returning(s: Pool): nat {
    if Blocked(s, Position(s)) then Coming(s, s.workers[Position(s)]) else 0
  }

  ghost predicate WaitingUsedUp(s: Pool) {
    && (forall t :: t in s.taskQueue ==> UsedUp(s, t))
    && (forall t :: t in s.retryQueue ==> UsedUp(s, t))
    && (s.scheduler.Holding? ==> UsedUp(s, s.scheduler.task))
  }

  ghost predicate AllFit(s: Pool) {
    forall w :: 0 <= w < |s.workers| ==> Fit(s, s.workers[w], Blocked(s, w))
  }

  /** No batch is being counted and no task pushed, no task has retries left but one that blocks
      the scheduler, and the scheduler is certain to take all tasks that are or come into a queue. */
  ghost predicate SureToEnd(s: Pool) {
    && s.promised == {} && s.pushing == multiset{}
    && WaitingUsedUp(s) && AllFit(s)
    && Backlog(s) + Returning(s) <= Room(s)
  }

  /** While the scheduler waits or has left, this says that nothing can come back. */
  lemma SureWhileWaiting(s: Pool)
    requires s.scheduler.Waiting? || s.scheduler.Exited?
    ensures SureToEnd(s) <==> NothingComesBack(s)
  {
    assert forall w :: !Blocked(s, w);
    if NothingComesBack(s) {
      assert s.taskQueue == [] && s.retryQueue == [];
      forall w | 0 <= w < |s.workers| ensures Fit(s, s.workers[w], Blocked(s, w)) {
        assert UsedUpAt(s, s.workers[w]);
      }
    }
    if SureToEnd(s) {
      forall w | 0 <= w < |s.workers| ensures UsedUpAt(s, s.workers[w]) && !s.workers[w].phase.Requeueing? {
        assert Fit(s, s.workers[w], Blocked(s, w));
      }
    }
  }

  // ---------- steps of the workers ----------

  lemma {:induction false} FreeFromGrows(ws: seq<Worker>, w: nat, x: Worker, i: nat)
    requires w < |ws|
    ensures (CertainlyFree(ws[w]) ==> CertainlyFree(x)) ==> FreeFrom(ws, i) <= FreeFrom(ws[w := x], i)
    ensures (CertainlyFree(ws[w]) <==> CertainlyFree(x)) || w < i ==> FreeFrom(ws[w := x], i) == FreeFrom(ws, i)
    decreases |ws| - i
  {
    hide CertainlyFree;
    if i >= |ws| {
    } else {
      FreeFromGrows(ws, w, x, i + 1);
    }
  }

  function Owed(s: Pool, x: Worker, blocked: bool): nat {
    if blocked then Coming(s, x) else 0
  }

  function Queues(m: WorkerMove): nat {
    if m.Requeue? then 1 else 0
  }

  /** What a move does to the worker that moves, and what it puts into the queue. */
  lemma MoverStaysFit(s: Pool, w: nat, m: WorkerMove, blocked: bool)
    requires WorkerEnabled(s, w, m) && |s.workers[w].inbox| <= 1 && Fit(s, s.workers[w], blocked)
    requires blocked ==> s.workers[w].inbox != []
    ensures var s', x' := WorkerNext(s, w, m), WorkerAfter(s, w, m);
      && Fit(s', x', blocked && x'.inbox != [])
      && (m.Requeue? ==> blocked && UsedUp(s', s.workers[w].phase.task))
      && Queues(m) + Owed(s', x', blocked && x'.inbox != []) <= Owed(s, s.workers[w], blocked)
  {
    var x := s.workers[w];
    assert WorkerNext(s, w, m).records == RecordsAfter(s, w, m);
    hide StatsAfter, HistoryAfter, Pushed, WorkerNext;
    if m.Receive? {
      assert x.inbox == [x.inbox[0]] && x.inbox[0] in x.inbox;
    }
  }

  /** The moves by which a worker gets busy before the scan sees it, or, if it blocks the
      scheduler, through with its task while all retries are used. */
  predicate Driven(s: Pool, w: nat, m: WorkerMove, blocked: bool)
    requires w < |s.workers|
  {
    var x := s.workers[w];
    if blocked then
      && (m.Succeed? ==> x.phase.Running? && UsedUp(s, x.phase.task))
      && (m.Fail? ==> x.phase.Running? && !UsedUp(s, x.phase.task))
      && !m.TimeOut?
    else m.Receive? || m.Begin? || (m.Done? && x.inbox != [])
  }

  lemma MoverWasFit(s: Pool, w: nat, m: WorkerMove, blocked: bool)
    requires WorkerEnabled(s, w, m) && |s.workers[w].inbox| <= 1 && Driven(s, w, m, blocked)
    requires blocked ==> s.workers[w].inbox != []
    requires m.Fail? ==> s.workers[w].phase.task !in s.workers[w].inbox
    requires Fit(WorkerNext(s, w, m), WorkerAfter(s, w, m), blocked && WorkerAfter(s, w, m).inbox != [])
    requires m.Requeue? ==> UsedUp(WorkerNext(s, w, m), s.workers[w].phase.task)
    ensures var s', x' := WorkerNext(s, w, m), WorkerAfter(s, w, m);
      && Fit(s, s.workers[w], blocked)
      && Queues(m) + Owed(s', x', blocked && x'.inbox != []) >= Owed(s, s.workers[w], blocked)
      && (blocked || !CertainlyFree(x'))
  {
    var x := s.workers[w];
    assert WorkerNext(s, w, m).records == RecordsAfter(s, w, m);
    hide StatsAfter, HistoryAfter, Pushed, WorkerNext;
    if m.Receive? {
      assert x.inbox == [x.inbox[0]];
    }
  }

  /** A move changes no count but that of the task it fails. */
  lemma OtherCounts(s: Pool, w: nat, m: WorkerMove, t: Task)
    requires WorkerEnabled(s, w, m)
    ensures UsedUp(s, t) ==> UsedUp(WorkerNext(s, w, m), t)
    ensures !m.Fail? || t != s.workers[w].phase.task ==> (UsedUp(WorkerNext(s, w, m), t) <==> UsedUp(s, t))
    ensures NearlyUsedUp(s, t) ==> NearlyUsedUp(WorkerNext(s, w, m), t)
    ensures !m.Fail? || t != s.workers[w].phase.task ==> (NearlyUsedUp(WorkerNext(s, w, m), t) <==> NearlyUsedUp(s, t))
  {
    hide StatsAfter, HistoryAfter, Pushed, WorkerAfter;
  }

  /** A move of a worker, with what its effects on the condition depend on. */
  lemma WorkerBooks(s: Pool, w: nat, m: WorkerMove)
    requires WorkerEnabled(s, w, m) && IsHeap(s.retryQueue)
    ensures var s' := WorkerNext(s, w, m);
      && s'.workers == s.workers[w := WorkerAfter(s, w, m)]
      && Backlog(s') == Backlog(s) + Queues(m)
      && (m.Requeue? ==> forall t :: t in s'.retryQueue <==> t in s.retryQueue || t == s.workers[w].phase.task)
      && (!m.Requeue? ==> s'.retryQueue == s.retryQueue)
  {
    var s' := WorkerNext(s, w, m);
    if m.Requeue? {
      var t := s.workers[w].phase.task;
      PushKeepsHeap(s.retryQueue, t);
      assert |multiset(s'.retryQueue)| == |multiset(s.retryQueue)| + 1;
      forall u ensures u in s'.retryQueue <==> u in s.retryQueue || u == t {
        assert u in s'.retryQueue <==> u in multiset(s'.retryQueue);
        assert u in s.retryQueue <==> u in multiset(s.retryQueue);
      }
    }
    hide WorkerAfter, RecordsAfter, StatsAfter, HistoryAfter, IsHeap, Pushed;
  }

  /** Whether worker `v` blocks the scheduler after a move of worker `w`. */
  lemma BlockedAfter(s: Pool, w: nat, m: WorkerMove, v: nat)
    requires WorkerEnabled(s, w, m) && IsHeap(s.retryQueue) && (m.Requeue? ==> Backlog(s) > 0 || !s.scheduler.Free?)
    ensures var s' := WorkerNext(s, w, m);
      Blocked(s', v) <==> Blocked(s, v) && (v == w ==> WorkerAfter(s, w, m).inbox != [])
  {
    WorkerBooks(s, w, m);
    WorkerKeepsFlags(s, w, m);
    assert WorkerAfter(s, w, m).inbox != [] ==> s.workers[w].inbox != [];
    hide WorkerNext, WorkerAfter;
  }

  lemma FitKeeps(s: Pool, s': Pool, x: Worker, blocked: bool)
    requires Fit(s, x, blocked)
    requires forall t :: UsedUp(s, t) ==> UsedUp(s', t)
    requires forall t :: NearlyUsedUp(s, t) ==> NearlyUsedUp(s', t)
    ensures Fit(s', x, blocked) && Owed(s', x, blocked) <= Owed(s, x, blocked)
  {
    hide UsedUp, NearlyUsedUp;
  }

  lemma CountsGrow(s: Pool, w: nat, m: WorkerMove)
    requires WorkerEnabled(s, w, m)
    ensures forall t :: UsedUp(s, t) ==> UsedUp(WorkerNext(s, w, m), t)
    ensures forall t :: NearlyUsedUp(s, t) ==> NearlyUsedUp(WorkerNext(s, w, m), t)
  {
    hide WorkerNext, UsedUp, NearlyUsedUp;
    forall t
      ensures UsedUp(s, t) ==> UsedUp(WorkerNext(s, w, m), t)
      ensures NearlyUsedUp(s, t) ==> NearlyUsedUp(WorkerNext(s, w, m), t)
    {
      OtherCounts(s, w, m, t);
    }
  }

  lemma RequeueIsExpected(s: Pool, w: nat)
    requires Blocked(s, w)
    ensures Backlog(s) > 0 || !s.scheduler.Free?
    ensures Position(s) == w
  {}

  lemma SureUnpacked(s: Pool, w: nat)
    requires SureToEnd(s) && w < |s.workers|
    ensures Fit(s, s.workers[w], Blocked(s, w))
  {}

  lemma RoomGrows(s: Pool, w: nat, m: WorkerMove)
    requires WorkerEnabled(s, w, m) && (CertainlyFree(s.workers[w]) ==> CertainlyFree(WorkerAfter(s, w, m)))
    ensures Room(s) <= Room(WorkerNext(s, w, m))
  {
    var x := WorkerAfter(s, w, m);
    WorkerKeepsFlags(s, w, m);
    assert WorkerNext(s, w, m).workers == s.workers[w := x];
    hide WorkerNext, WorkerAfter, FreeFrom, CertainlyFree;
    match s.scheduler
    case Scanning(i) => FreeFromGrows(s.workers, w, x, i);
    case Free(i) => FreeFromGrows(s.workers, w, x, i + 1);
    case RetryEmpty(i) => FreeFromGrows(s.workers, w, x, i + 1);
    case Holding(i, _) => FreeFromGrows(s.workers, w, x, i + 1);
    case _ =>
  }

  lemma FitAfter(s: Pool, w: nat, m: WorkerMove, v: nat)
    requires WorkerEnabled(s, w, m) && IsHeap(s.retryQueue) && |s.workers[w].inbox| <= 1 && SureToEnd(s)
    requires v < |s.workers|
    ensures var s' := WorkerNext(s, w, m);
      v < |s'.workers| && Fit(s', s'.workers[v], Blocked(s', v))
  {
    hide WorkerNext, WorkerAfter, Fit, CertainlyFree, Room, SendsTo, Pushed, UsedUp, NearlyUsedUp, Coming;
    SureUnpacked(s, w);
    SureUnpacked(s, v);
    MoverStaysFit(s, w, m, Blocked(s, w));
    if Blocked(s, w) {
      RequeueIsExpected(s, w);
    }
    WorkerBooks(s, w, m);
    BlockedAfter(s, w, m, v);
    hide Blocked, SureToEnd;
    if v != w {
      CountsGrow(s, w, m);
      FitKeeps(s, WorkerNext(s, w, m), s.workers[v], Blocked(s, v));
    }
  }

  lemma WaitingAfter(s: Pool, w: nat, m: WorkerMove)
    requires WorkerEnabled(s, w, m) && IsHeap(s.retryQueue) && |s.workers[w].inbox| <= 1 && SureToEnd(s)
    ensures WaitingUsedUp(WorkerNext(s, w, m))
  {
    hide WorkerNext, WorkerAfter, Fit, CertainlyFree, Room, SendsTo, Pushed, UsedUp, NearlyUsedUp, Coming, Returning;
    SureUnpacked(s, w);
    MoverStaysFit(s, w, m, Blocked(s, w));
    WorkerBooks(s, w, m);
    WorkerKeepsFlags(s, w, m);
    CountsGrow(s, w, m);
  }

  lemma AllFitAfter(s: Pool, w: nat, m: WorkerMove)
    requires WorkerEnabled(s, w, m) && IsHeap(s.retryQueue) && |s.workers[w].inbox| <= 1 && SureToEnd(s)
    ensures AllFit(WorkerNext(s, w, m))
  {
    var s' := WorkerNext(s, w, m);
    WorkerBooks(s, w, m);
    hide WorkerNext, WorkerAfter, WorkerEnabled, SureToEnd, Fit, Blocked, IsHeap, Backlog;
    forall v | 0 <= v < |s'.workers| ensures Fit(s', s'.workers[v], Blocked(s', v)) {
      FitAfter(s, w, m, v);
    }
  }

  lemma ReturningAfter(s: Pool, w: nat, m: WorkerMove)
    requires WorkerEnabled(s, w, m) && IsHeap(s.retryQueue) && |s.workers[w].inbox| <= 1 && SureToEnd(s)
    ensures Returning(WorkerNext(s, w, m)) + Queues(m) <= Returning(s)
  {
    hide WorkerNext, WorkerAfter, Fit, CertainlyFree, Room, SendsTo, Pushed, UsedUp, NearlyUsedUp, Coming;
    SureUnpacked(s, w);
    MoverStaysFit(s, w, m, Blocked(s, w));
    if Blocked(s, w) {
      RequeueIsExpected(s, w);
    }
    WorkerBooks(s, w, m);
    WorkerKeepsFlags(s, w, m);
    BlockedAfter(s, w, m, Position(s));
    if Position(s) != w && Blocked(s, Position(s)) {
      CountsGrow(s, w, m);
      SureUnpacked(s, Position(s));
      FitKeeps(s, WorkerNext(s, w, m), s.workers[Position(s)], true);
    }
  }

  lemma MoverStaysFree(s: Pool, w: nat, m: WorkerMove)
    requires WorkerEnabled(s, w, m) && CertainlyFree(s.workers[w])
    ensures CertainlyFree(WorkerAfter(s, w, m))
  {}

  lemma WorkerKeepsSure(s: Pool, w: nat, m: WorkerMove)
    requires Inv(s) && SureToEnd(s) && WorkerEnabled(s, w, m)
    ensures SureToEnd(WorkerNext(s, w, m))
  {
    assert IsHeap(s.retryQueue) && |s.workers[w].inbox| <= 1;
    hide Inv, WorkerNext, WorkerAfter, WorkerEnabled, WaitingUsedUp, AllFit, Returning, Backlog, CertainlyFree, Room;
    if CertainlyFree(s.workers[w]) {
      MoverStaysFree(s, w, m);
    }
    RoomGrows(s, w, m);
    ReturningAfter(s, w, m);
    WaitingAfter(s, w, m);
    AllFitAfter(s, w, m);
    WorkerBooks(s, w, m);
    WorkerKeepsFlags(s, w, m);
  }

  // ---------- moves that keep Stop from being sure ----------

  /** A task that runs is nowhere else. */
  lemma RunsHereOnly(s: Pool, w: nat, v: nat)
    requires Inv(s) && w < |s.workers| && s.workers[w].phase.Running? && v < |s.workers|
    ensures var t := s.workers[w].phase.task;
      && t !in s.taskQueue && t !in s.retryQueue && (s.scheduler.Holding? ==> s.scheduler.task != t)
      && t !in s.workers[v].inbox
      && (v != w && (s.workers[v].phase.Received? || s.workers[v].phase.Running? || s.workers[v].phase.Requeueing?) ==>
            s.workers[v].phase.task != t)
  {
    var t := s.workers[w].phase.task;
    AtWorker(s, w, t);
    hide Inv, Waits, Runs;
    assert t !in multiset(s.taskQueue) && t !in multiset(s.retryQueue);
    if v == w {
      assert t !in multiset(s.workers[w].inbox);
    } else {
      var rest := s.workers[w := Worker(Idle, [])];
      ReplaceWorker(s.workers, w, Worker(Idle, []), t);
      ReplaceWorker(rest, v, Worker(Idle, []), t);
      assert rest[v] == s.workers[v];
      assert t !in multiset(s.workers[v].inbox);
    }
  }

  /** The moves of workers that bring the scheduler to its exit without helping Stop. */
  predicate Delaying(s: Pool, w: nat, m: WorkerMove) {
    && WorkerEnabled(s, w, m) && Driven(s, w, m, Blocked(s, w))
    && (Blocked(s, w) || (s.scheduler.Scanning? && !CertainlyFree(s.workers[w])))
  }

  /** A task elsewhere has the counts it had before the move. */
  lemma FitBefore(s: Pool, w: nat, m: WorkerMove, v: nat, blocked: bool)
    requires Inv(s) && WorkerEnabled(s, w, m) && v < |s.workers| && v != w
    requires Fit(WorkerNext(s, w, m), s.workers[v], blocked)
    ensures Fit(s, s.workers[v], blocked)
  {
    hide Inv, WorkerNext, UsedUp, NearlyUsedUp;
    if m.Fail? {
      RunsHereOnly(s, w, v);
    }
    var x := s.workers[v];
    forall t | t in x.inbox ensures UsedUp(s, t) {
      OtherCounts(s, w, m, t);
    }
    if x.phase.Received? || x.phase.Running? || x.phase.Requeueing? {
      OtherCounts(s, w, m, x.phase.task);
    }
  }

  lemma WaitingBefore(s: Pool, w: nat, m: WorkerMove)
    requires Inv(s) && WorkerEnabled(s, w, m) && WaitingUsedUp(WorkerNext(s, w, m))
    ensures WaitingUsedUp(s)
    ensures m.Requeue? ==> UsedUp(WorkerNext(s, w, m), s.workers[w].phase.task)
  {
    assert IsHeap(s.retryQueue);
    hide Inv, WorkerNext, WorkerAfter, UsedUp, NearlyUsedUp;
    WorkerBooks(s, w, m);
    WorkerKeepsFlags(s, w, m);
    if m.Fail? {
      RunsHereOnly(s, w, w);
    }
    forall t | t in s.taskQueue || t in s.retryQueue || (s.scheduler.Holding? && s.scheduler.task == t)
      ensures UsedUp(s, t)
    {
      OtherCounts(s, w, m, t);
    }
  }

  lemma RoomBefore(s: Pool, w: nat, m: WorkerMove)
    requires Delaying(s, w, m) && (Blocked(s, w) || !CertainlyFree(WorkerAfter(s, w, m)))
    ensures Room(WorkerNext(s, w, m)) == Room(s)
  {
    var x := WorkerAfter(s, w, m);
    WorkerKeepsFlags(s, w, m);
    assert WorkerNext(s, w, m).workers == s.workers[w := x];
    hide WorkerNext, WorkerAfter, FreeFrom, CertainlyFree;
    match s.scheduler
    case Scanning(i) => FreeFromGrows(s.workers, w, x, i);
    case Free(i) => FreeFromGrows(s.workers, w, x, i + 1);
    case RetryEmpty(i) => FreeFromGrows(s.workers, w, x, i + 1);
    case Holding(i, _) => FreeFromGrows(s.workers, w, x, i + 1);
    case _ =>
  }

  lemma MoverBefore(s: Pool, w: nat, m: WorkerMove)
    requires Inv(s) && Delaying(s, w, m) && SureToEnd(WorkerNext(s, w, m))
    ensures Fit(s, s.workers[w], Blocked(s, w)) && Room(WorkerNext(s, w, m)) == Room(s)
    ensures Returning(WorkerNext(s, w, m)) + Queues(m) >= Returning(s)
  {
    assert IsHeap(s.retryQueue) && |s.workers[w].inbox| <= 1;
    var s' := WorkerNext(s, w, m);
    hide Inv, WorkerNext, WorkerAfter, Backlog, Fit, CertainlyFree, Room, SendsTo, Pushed, Coming;
    if m.Fail? {
      RunsHereOnly(s, w, w);
    }
    if Blocked(s, w) {
      RequeueIsExpected(s, w);
    }
    WaitingBefore(s, w, m);
    hide WaitingUsedUp;
    WorkerBooks(s, w, m);
    WorkerKeepsFlags(s, w, m);
    BlockedAfter(s, w, m, w);
    SureUnpacked(s', w);
    hide SureToEnd;
    MoverWasFit(s, w, m, Blocked(s, w));
    RoomBefore(s, w, m);
  }

  lemma AllFitBefore(s: Pool, w: nat, m: WorkerMove)
    requires Inv(s) && Delaying(s, w, m) && AllFit(WorkerNext(s, w, m)) && Fit(s, s.workers[w], Blocked(s, w))
    ensures AllFit(s)
  {
    assert IsHeap(s.retryQueue);
    var s' := WorkerNext(s, w, m);
    WorkerBooks(s, w, m);
    hide Inv, WorkerNext, WorkerAfter, Fit, CertainlyFree, SendsTo, Coming;
    if Blocked(s, w) {
      RequeueIsExpected(s, w);
    }
    forall v | 0 <= v < |s.workers| && v != w ensures Fit(s, s.workers[v], Blocked(s, v)) {
      BlockedAfter(s, w, m, v);
      assert Fit(s', s'.workers[v], Blocked(s', v));
      FitBefore(s, w, m, v, Blocked(s, v));
    }
  }

  lemma DelayingKeepsUnsure(s: Pool, w: nat, m: WorkerMove)
    requires Inv(s) && Delaying(s, w, m) && SureToEnd(WorkerNext(s, w, m))
    ensures SureToEnd(s)
  {
    assert IsHeap(s.retryQueue);
    hide Inv, WorkerNext, WorkerAfter, WaitingUsedUp, Backlog, Fit, Room, Blocked, Returning, AllFit;
    WorkerBooks(s, w, m);
    WorkerKeepsFlags(s, w, m);
    WaitingBefore(s, w, m);
    MoverBefore(s, w, m);
    AllFitBefore(s, w, m);
  }

  // ---------- steps of the scheduler ----------

  lemma SameFitness(s: Pool, s': Pool, x: Worker, blocked: bool)
    requires s'.records == s.records
    ensures Fit(s', x, blocked) <==> Fit(s, x, blocked)
    ensures Coming(s', x) == Coming(s, x)
    ensures Fit(s, x, false) ==> Fit(s, x, true) && Coming(s, x) == 0
  {
    assert forall t :: UsedUp(s', t) == UsedUp(s, t) && NearlyUsedUp(s', t) == NearlyUsedUp(s, t);
    hide UsedUp, NearlyUsedUp;
  }

  /** The scheduler's moves on its way out; what they do to the condition they do both ways. */
  predicate Leaving(s: Pool, m: SchedulerMove) {
    && SchedulerEnabled(s, m) && !m.Wake?
    && (m.SeeFree? ==> CertainlyFree(s.workers[s.scheduler.i]))
  }

  lemma QuietBlocks(s: Pool, m: SchedulerMove, v: nat)
    requires SchedulerEnabled(s, m) && !m.PopRetry? && !m.PopTask? && !m.Send?
    ensures Blocked(s, v) ==> Blocked(SchedulerNext(s, m), v)
    ensures Leaving(s, m) ==> (Blocked(SchedulerNext(s, m), v) <==> Blocked(s, v))
    ensures !m.SeeFree? ==> (Blocked(SchedulerNext(s, m), v) <==> Blocked(s, v))
  {
    hide Popped;
  }

  lemma QuietRoom(s: Pool, m: SchedulerMove)
    requires SchedulerEnabled(s, m) && !m.PopRetry? && !m.PopTask? && !m.Send? && Shape(s)
    ensures Backlog(s) <= Room(s) ==> Backlog(s) <= Room(SchedulerNext(s, m))
    ensures Leaving(s, m) && Backlog(s) <= Room(SchedulerNext(s, m)) ==> Backlog(s) <= Room(s)
    ensures m.RetryMiss? && Backlog(s) > 0 ==> Room(SchedulerNext(s, m)) == Room(s)
  {
    hide Popped;
  }

  lemma QuietReturning(s: Pool, m: SchedulerMove)
    requires SchedulerEnabled(s, m) && !m.PopRetry? && !m.PopTask? && !m.Send?
    ensures Leaving(s, m) || !m.SeeFree? ==> Returning(SchedulerNext(s, m)) == Returning(s)
    ensures Returning(s) > 0 ==> m.RetryMiss? && Backlog(s) > 0
    ensures AllFit(s) && m.SeeFree? ==> Returning(SchedulerNext(s, m)) == 0
  {
    var s' := SchedulerNext(s, m);
    QuietBlocks(s, m, Position(s));
    QuietBlocks(s, m, Position(s'));
    hide Popped, Coming, Fit, CertainlyFree;
    if Position(s) < |s.workers| {
      SameFitness(s, s', s.workers[Position(s)], true);
    }
    if AllFit(s) && m.SeeFree? && Blocked(s', Position(s')) {
      assert Fit(s, s.workers[Position(s')], Blocked(s, Position(s')));
      SameFitness(s, s', s.workers[Position(s')], true);
    }
  }

  lemma QuietFits(s: Pool, m: SchedulerMove)
    requires SchedulerEnabled(s, m) && !m.PopRetry? && !m.PopTask? && !m.Send?
    ensures AllFit(s) ==> AllFit(SchedulerNext(s, m))
    ensures Leaving(s, m) && AllFit(SchedulerNext(s, m)) ==> AllFit(s)
  {
    var s' := SchedulerNext(s, m);
    assert s'.workers == s.workers && s'.records == s.records;
    hide SchedulerNext, SchedulerEnabled, Fit, Coming, Blocked, Leaving;
    forall w | 0 <= w < |s.workers|
      ensures Fit(s, s.workers[w], Blocked(s, w)) ==> Fit(s', s.workers[w], Blocked(s', w))
      ensures Leaving(s, m) && Fit(s', s.workers[w], Blocked(s', w)) ==> Fit(s, s.workers[w], Blocked(s, w))
    {
      QuietBlocks(s, m, w);
      SameFitness(s, s', s.workers[w], Blocked(s, w));
      SameFitness(s, s', s.workers[w], Blocked(s', w));
    }
  }

  lemma QuietWaiting(s: Pool, m: SchedulerMove)
    requires SchedulerEnabled(s, m) && !m.PopRetry? && !m.PopTask? && !m.Send?
    ensures var s' := SchedulerNext(s, m);
      (WaitingUsedUp(s') <==> WaitingUsedUp(s)) && Backlog(s') == Backlog(s)
  {
    var s' := SchedulerNext(s, m);
    assert s' == s.(scheduler := s'.scheduler) && !s.scheduler.Holding? && !s'.scheduler.Holding?;
    hide SchedulerNext;
    assert forall t :: UsedUp(s', t) == UsedUp(s, t);
  }

  lemma QuietMove(s: Pool, m: SchedulerMove)
    requires Shape(s) && SchedulerEnabled(s, m) && !m.PopRetry? && !m.PopTask? && !m.Send?
    ensures SureToEnd(s) ==> SureToEnd(SchedulerNext(s, m))
    ensures Leaving(s, m) && SureToEnd(SchedulerNext(s, m)) ==> SureToEnd(s)
  {
    SchedulerKeepsBooks(s, m);
    hide Shape, SchedulerNext, SchedulerEnabled, WaitingUsedUp, AllFit, Room, Backlog, Returning, Leaving;
    QuietWaiting(s, m);
    QuietFits(s, m);
    QuietRoom(s, m);
    QuietReturning(s, m);
  }

  // ---------- pops and sends ----------

  lemma PoppedIs(q: seq<Task>)
    requires IsHeap(q) && q != []
    ensures forall t :: t in q <==> t in Popped(q) || t == q[0]
  {
    PopKeepsHeap(q);
    hide IsHeap, Popped;
    forall t ensures t in q <==> t in Popped(q) || t == q[0] {
      assert t in q <==> t in multiset(q);
      assert t in Popped(q) <==> t in multiset(Popped(q));
    }
  }

  lemma PopBlocks(s: Pool, m: SchedulerMove, v: nat)
    requires SchedulerEnabled(s, m) && (m.PopRetry? || m.PopTask?)
    ensures var s' := SchedulerNext(s, m);
      && (Blocked(s', v) <==> Blocked(s, v)) && Position(s') == Position(s)
      && Backlog(s') == Backlog(s) - 1 && Room(s') == Room(s) - 1
      && s'.workers == s.workers && s'.records == s.records
  {
    hide Popped, FreeFrom;
  }

  lemma PopFits(s: Pool, m: SchedulerMove)
    requires SchedulerEnabled(s, m) && (m.PopRetry? || m.PopTask?)
    ensures AllFit(SchedulerNext(s, m)) <==> AllFit(s)
    ensures Returning(SchedulerNext(s, m)) == Returning(s)
  {
    var s' := SchedulerNext(s, m);
    PopBlocks(s, m, Position(s));
    hide SchedulerNext, SchedulerEnabled, Fit, Coming, SendsTo, Position, Backlog, Room;
    forall w | 0 <= w < |s.workers|
      ensures Fit(s', s.workers[w], Blocked(s', w)) <==> Fit(s, s.workers[w], Blocked(s, w))
    {
      PopBlocks(s, m, w);
      SameFitness(s, s', s.workers[w], Blocked(s, w));
    }
    if Position(s) < |s.workers| {
      SameFitness(s, s', s.workers[Position(s)], true);
    }
  }

  lemma PopWaiting(s: Pool, m: SchedulerMove)
    requires Heaps(s) && SchedulerEnabled(s, m) && (m.PopRetry? || m.PopTask?)
    ensures WaitingUsedUp(SchedulerNext(s, m)) <==> WaitingUsedUp(s)
  {
    var s' := SchedulerNext(s, m);
    if m.PopRetry? {
      PoppedIs(s.retryQueue);
    } else {
      PoppedIs(s.taskQueue);
    }
    assert forall t :: UsedUp(s', t) == UsedUp(s, t);
    hide Heaps, Popped, UsedUp;
  }

  lemma PopMove(s: Pool, m: SchedulerMove)
    requires Heaps(s) && SchedulerEnabled(s, m) && (m.PopRetry? || m.PopTask?)
    ensures SureToEnd(SchedulerNext(s, m)) <==> SureToEnd(s)
  {
    SchedulerKeepsBooks(s, m);
    hide Heaps, SchedulerNext, SchedulerEnabled, WaitingUsedUp, AllFit, Room, Backlog, Returning;
    PopBlocks(s, m, 0);
    PopFits(s, m);
    PopWaiting(s, m);
  }

  lemma SendRoom(s: Pool)
    requires SchedulerEnabled(s, Send)
    ensures var s' := SchedulerNext(s, Send);
      && Room(s') == Room(s) && Returning(s') == 0 == Returning(s)
      && forall w :: !Blocked(s, w) && !Blocked(s', w)
  {
    var i, s' := s.scheduler.i, SchedulerNext(s, Send);
    FreeFromGrows(s.workers, i, s'.workers[i], i + 1);
    hide FreeFrom, CertainlyFree, Coming;
  }

  lemma SendFits(s: Pool)
    requires SchedulerEnabled(s, Send)
    ensures WaitingUsedUp(SchedulerNext(s, Send)) && AllFit(SchedulerNext(s, Send)) <==> WaitingUsedUp(s) && AllFit(s)
  {
    var i, s' := s.scheduler.i, SchedulerNext(s, Send);
    var x := s'.workers[i];
    assert s'.workers == s.workers[i := x] && s'.records == s.records;
    assert forall t :: UsedUp(s', t) == UsedUp(s, t);
    assert Fit(s', x, false) <==> Fit(s, s.workers[i], false) && UsedUp(s, s.scheduler.task);
    assert WaitingUsedUp(s) <==> WaitingUsedUp(s') && UsedUp(s, s.scheduler.task);
    SendRoom(s);
    hide SchedulerNext, SchedulerEnabled, WaitingUsedUp, Fit, UsedUp, Blocked, Room, Returning;
    forall w | 0 <= w < |s.workers| && w != i ensures Fit(s', s'.workers[w], false) <==> Fit(s, s.workers[w], false) {
      SameFitness(s, s', s.workers[w], false);
    }
    if AllFit(s') {
      assert Fit(s', s'.workers[i], Blocked(s', i));
      forall w | 0 <= w < |s.workers| ensures Fit(s, s.workers[w], Blocked(s, w)) {
        assert Fit(s', s'.workers[w], Blocked(s', w));
      }
    }
    if AllFit(s) && UsedUp(s, s.scheduler.task) {
      forall w | 0 <= w < |s'.workers| ensures Fit(s', s'.workers[w], Blocked(s', w)) {
        assert Fit(s, s.workers[w], Blocked(s, w));
      }
    }
  }

  lemma SendMove(s: Pool)
    requires SchedulerEnabled(s, Send)
    ensures SureToEnd(SchedulerNext(s, Send)) <==> SureToEnd(s)
  {
    SchedulerKeepsBooks(s, Send);
    assert Backlog(SchedulerNext(s, Send)) == Backlog(s);
    hide SchedulerNext, SchedulerEnabled, WaitingUsedUp, AllFit, Room, Backlog, Returning, Blocked;
    SendRoom(s);
    SendFits(s);
  }

  lemma SchedulerMoveSure(s: Pool, m: SchedulerMove)
    requires Shape(s) && Heaps(s) && SchedulerEnabled(s, m)
    ensures SureToEnd(s) ==> SureToEnd(SchedulerNext(s, m))
    ensures Leaving(s, m) && SureToEnd(SchedulerNext(s, m)) ==> SureToEnd(s)
  {
    hide SchedulerNext, SchedulerEnabled, SureToEnd, Shape, Heaps, Leaving;
    match m
    case PopRetry => PopMove(s, m);
    case PopTask => PopMove(s, m);
    case Send => SendMove(s);
    case _ => QuietMove(s, m);
  }

  // ---------- when Stop is sure to return ----------

  lemma FlagsDoNotMatter(s: Pool, s': Pool)
    requires s' == s.(shutdown := s'.shutdown, stopped := s'.stopped)
    ensures SureToEnd(s') <==> SureToEnd(s)
  {
    hide Fit, Coming;
    assert forall t :: UsedUp(s', t) == UsedUp(s, t);
    forall w | 0 <= w < |s.workers|
      ensures Fit(s', s.workers[w], Blocked(s', w)) <==> Fit(s, s.workers[w], Blocked(s, w))
    {
      SameFitness(s, s', s.workers[w], Blocked(s, w));
    }
    if Position(s) < |s.workers| {
      SameFitness(s, s', s.workers[Position(s)], true);
    }
  }

  /** After Stop is called, no step of anyone makes it less sure to return. */
  lemma StepKeepsSure(s: Pool, e: Event)
    requires Inv(s) && s.shutdown && SureToEnd(s) && Enabled(s, e)
    ensures Next(s, e).shutdown && SureToEnd(Next(s, e))
  {
    StepKeepsLate(s, e, Task(0, 0, 0, 0));
    HasShape(s);
    assert Heaps(s) && s.promised == {} && s.pushing == multiset{};
    hide Inv, Shape, Heaps, SureToEnd, WorkerNext, SchedulerNext, WorkerEnabled, SchedulerEnabled;
    match e
    case Work(w, m) => WorkerKeepsSure(s, w, m);
    case Schedule(m) => SchedulerMoveSure(s, m);
    case WaitReturns => FlagsDoNotMatter(s, Next(s, e));
    case _ =>
  }

  lemma {:induction false} RunKeepsSure(s: Pool, es: seq<Event>, s': Pool)
    requires Inv(s) && s.shutdown && SureToEnd(s) && Run(s, es, s')
    ensures Inv(s') && s'.shutdown && SureToEnd(s')
    decreases |es|
  {
    hide Inv, SureToEnd, Next, Enabled;
    if es == [] {
    } else {
      StepKeepsSure(s, es[0]);
      StepKeepsInv(s, es[0]);
      RunKeepsSure(Next(s, es[0]), es[1..], s');
    }
  }

  /** How far the scheduler is from its exit, given that it takes no task. */
  function ExitRank(s: Pool): nat {
    match s.scheduler
    case Waiting => 1
    case RetryEmpty(_) => 2
    case Free(_) => 3
    case Scanning(i) => 4 + if i < |s.workers| then |s.workers| - i else 0
    case _ => 0
  }

  /** A step on the scheduler's way out that does not help Stop. */
  predicate Hindering(s: Pool, e: Event) {
    match e
    case Work(w, m) => Delaying(s, w, m)
    case Schedule(m) => Leaving(s, m)
    case _ => false
  }

  lemma HinderingKeepsUnsure(s: Pool, e: Event)
    requires Inv(s) && s.shutdown && Enabled(s, e) && Hindering(s, e) && !SureToEnd(s)
    ensures !SureToEnd(Next(s, e)) && Next(s, e).shutdown && Next(s, e).stopped == s.stopped
  {
    StepKeepsLate(s, e, Task(0, 0, 0, 0));
    HasShape(s);
    assert Heaps(s);
    hide Inv, Shape, Heaps, SureToEnd, WorkerNext, SchedulerNext, Delaying, Leaving;
    match e
    case Work(w, m) =>
      if SureToEnd(WorkerNext(s, w, m)) {
        DelayingKeepsUnsure(s, w, m);
      }
    case Schedule(m) => SchedulerMoveSure(s, m);
  }

  lemma TaskHasRecords(s: Pool, w: nat)
    requires Inv(s) && w < |s.workers|
    ensures var p := s.workers[w].phase;
      p.Received? || p.Running? ==> p.task in s.history.runs && p.task in s.records.retryCount
  {
    HasShape(s);
    if s.workers[w].phase.Received? || s.workers[w].phase.Running? {
      WorkerTaskKnown(s, w);
    }
  }

  lemma BlockedHasTask(s: Pool, w: nat)
    ensures Blocked(s, w) ==> w < |s.workers| && s.workers[w].inbox != []
    ensures s.scheduler.Scanning? ==> !Blocked(s, w)
  {}

  /** The next move of a worker that the scheduler waits for. */
  lemma BlockingMove(s: Pool, w: nat) returns (m: WorkerMove)
    requires Inv(s) && Blocked(s, w)
    ensures Delaying(s, w, m)
  {
    hide Inv, Blocked, CertainlyFree;
    BlockedHasTask(s, w);
    TaskHasRecords(s, w);
    var p := s.workers[w].phase;
    if p.Idle? {
      m := Receive;
    } else if p.Received? {
      m := Begin;
    } else if p.Running? {
      m := if UsedUp(s, p.task) then Succeed else Fail;
    } else {
      m := if p.Requeueing? then Requeue else if p.Settled? then Release else Done;
    }
  }

  /** The next move of a worker that the scan would find free although it has a task. */
  lemma SeenMove(s: Pool, w: nat) returns (m: WorkerMove)
    requires Inv(s) && w < |s.workers| && s.scheduler == Scanning(w)
    requires !s.workers[w].phase.Busy() && !CertainlyFree(s.workers[w])
    ensures Delaying(s, w, m)
  {
    hide Inv, Blocked;
    BlockedHasTask(s, w);
    TaskHasRecords(s, w);
    var p := s.workers[w].phase;
    m := if p.Idle? then Receive else if p.Received? then Begin else Done;
  }

  lemma HinderingStep(s: Pool) returns (e: Event)
    requires Inv(s) && s.shutdown && !s.scheduler.Exited?
    ensures Enabled(s, e) && Internal(e) && Hindering(s, e)
    ensures !Productive(e) ==> ExitRank(Next(s, e)) < ExitRank(s)
  {
    HasShape(s);
    hide Inv, Delaying, WorkerNext, Popped;
    match s.scheduler
    case Waiting => e := Schedule(Exit);
    case Scanning(i) =>
      if i >= |s.workers| {
        e := Schedule(EndOfScan);
      } else if s.workers[i].phase.Busy() {
        e := Schedule(SkipBusy);
      } else if CertainlyFree(s.workers[i]) {
        e := Schedule(SeeFree);
      } else {
        var m := SeenMove(s, i);
        e := Work(i, m);
        DelayingEnabled(s, i, m);
      }
    case Free(_) => e := Schedule(if s.retryQueue != [] then PopRetry else RetryMiss);
    case RetryEmpty(_) => e := Schedule(if s.taskQueue != [] then PopTask else TaskMiss);
    case Holding(i, _) =>
      if s.workers[i].inbox == [] {
        e := Schedule(Send);
      } else {
        var m := BlockingMove(s, i);
        e := Work(i, m);
        DelayingEnabled(s, i, m);
      }
  }

  lemma DelayingEnabled(s: Pool, w: nat, m: WorkerMove)
    requires Delaying(s, w, m)
    ensures WorkerEnabled(s, w, m)
  {}

  /** If Stop is not sure to return, the scheduler can leave while something can still come back. */
  lemma {:induction false} LeavesTooEarly(s: Pool) returns (es: seq<Event>, s': Pool)
    requires Inv(s) && s.shutdown && !s.stopped && !SureToEnd(s)
    ensures Run(s, es, s') && Inv(s') && s'.shutdown && !s'.stopped && s'.scheduler.Exited? && !NothingComesBack(s')
    decreases Measure(s), ExitRank(s)
  {
    hide Next, Enabled, Inv, Measure, ExitRank, Shape, SureToEnd, Hindering, NothingComesBack, Productive;
    if s.scheduler.Exited? {
      es, s' := [], s;
      SureWhileWaiting(s);
    } else {
      var e := HinderingStep(s);
      HinderingKeepsUnsure(s, e);
      StepKeepsInv(s, e);
      HasShape(s);
      StepCosts(s, e);
      var rest;
      rest, s' := LeavesTooEarly(Next(s, e));
      RunExtends(s, e, rest, s');
      es := [e] + rest;
    }
  }

  /** After Stop is called, wherever the scheduler stands, the wait can end in every continuation
      of every run exactly when the pool is sure to end. */
  lemma StopReturnsIff(s: Pool)
    requires Inv(s) && s.shutdown && !s.stopped
    ensures AlwaysCanReturn(s) <==> SureToEnd(s)
  {
    hide Run, Inv, CanReturn, NothingComesBack, SureToEnd;
    if SureToEnd(s) {
      forall es, s' | Run(s, es, s') ensures CanReturn(s') {
        RunKeepsSure(s, es, s');
        SureCanReturn(s');
      }
    } else {
      var es, s' := LeavesTooEarly(s);
      var more, s'' := LeavesBehind(s');
      RunAppends(s, es, s', more, s'');
    }
  }

  lemma SureCanReturn(s: Pool)
    requires Inv(s) && s.shutdown && SureToEnd(s)
    ensures CanReturn(s)
  {
    hide Inv, CanReturn, SureToEnd;
    CanReturnIff(s);
    if s.scheduler.Exited? {
      SureWhileWaiting(s);
    }
  }

  /** The same at the call of Stop: what a caller would have to see for Stop to be sure to return. */
  lemma StopCallReturnsIff(s: Pool)
    requires Inv(s) && !s.shutdown && !s.stopped
    ensures AlwaysCanReturn(Next(s, Stop)) <==> SureToEnd(s)
  {
    hide Inv, AlwaysCanReturn, SureToEnd;
    StepKeepsInv(s, Stop);
    FlagsDoNotMatter(s, Next(s, Stop));
    StopReturnsIff(Next(s, Stop));
  }
}
