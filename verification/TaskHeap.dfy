/// The priority queue of the task pool: a binary heap kept in place in a growable array.
///
/// The source hands its slice to Go's `container/heap`; the sift loops of that package are
/// written out here over the repository's own `Less` and `Swap`.

module Tasks {
  datatype Status = Pending | Running | Succeeded | Failed

  /** The part of a submitted task that never changes: its identity, its ordering key and its
      retry budget. The fields that workers write are kept with the pool. */
  datatype Task = Task(id: nat, priority: int, createdAt: int, maxRetries: nat)

  /** Higher priority first; within one priority, the older task first. */
  predicate Less(a: Task, b: Task) {
    if a.priority == b.priority then a.createdAt < b.createdAt else a.priority > b.priority
  }
}

module TaskHeap {
  import opened Options
  import opened Tasks

  // ---------- the algorithm on sequences ----------

  function Swapped(s: seq<Task>, i: nat, j: nat): (r: seq<Task>)
    requires i < |s| && j < |s|
    ensures |r| == |s|
  {
    s[i := s[j]][j := s[i]]
  }

  /** The index a heap keeps above `k`; the root is its own parent. */
  function Parent(k: nat): (p: nat)
    ensures k > 0 ==> p < k
  {
    if k == 0 then 0 else (k - 1) / 2
  }

  /** Move the task at `j` towards the root while it precedes its parent. */
  function SiftUp(s: seq<Task>, j: nat): (r: seq<Task>)
    requires j < |s|
    ensures |r| == |s|
    decreases j
  {
    if j == 0 || !Less(s[j], s[Parent(j)]) then s
    else SiftUp(Swapped(s, Parent(j), j), Parent(j))
  }

  /** The child of `i` that comes first, for an `i` that has a child. */
  function FirstChild(s: seq<Task>, i: nat): (j: nat)
    requires 2 * i + 1 < |s|
    ensures j < |s| && Parent(j) == i && i < j
  {
    var left := 2 * i + 1;
    if left + 1 < |s| && Less(s[left + 1], s[left]) then left + 1 else left
  }

  /** Move the task at `i` away from the root while one of its children precedes it. */
  function SiftDown(s: seq<Task>, i: nat): (r: seq<Task>)
    requires i < |s|
    ensures |r| == |s|
    decreases |s| - i
  {
    if 2 * i + 1 >= |s| then s
    else
      var j := FirstChild(s, i);
      if !Less(s[j], s[i]) then s else SiftDown(Swapped(s, i, j), j)
  }

  function Pushed(s: seq<Task>, t: Task): seq<Task> {
    SiftUp(s + [t], |s|)
  }

  function Popped(s: seq<Task>): (r: seq<Task>)
    requires |s| > 0
    ensures |r| == |s| - 1
  {
    if |s| == 1 then [] else SiftDown(s[..|s| - 1][0 := s[|s| - 1]], 0)
  }

  /** Everything a queue yields when it is popped until it is empty. */
  function Drained(s: seq<Task>): seq<Task>
    decreases |s|
  {
    if s == [] then [] else [s[0]] + Drained(Popped(s))
  }

  // ---------- what it keeps ----------

  /** No task precedes its parent. */
  ghost predicate IsHeap(s: seq<Task>) {
    forall k {:trigger Parent(k)} :: 0 < k < |s| ==> !Less(s[k], s[Parent(k)])
  }

  /** A heap but for `j`, which may precede its parent. */
  ghost predicate HeapExceptUp(s: seq<Task>, j: nat)
    requires j < |s|
  {
    && (forall k {:trigger Parent(k)} :: 0 < k < |s| && k != j ==> !Less(s[k], s[Parent(k)]))
    && (j > 0 ==> forall k {:trigger Parent(k)} :: 0 < k < |s| && Parent(k) == j ==> !Less(s[k], s[Parent(j)]))
  }

  /** A heap but for `i`, which its children may precede. */
  ghost predicate HeapExceptDown(s: seq<Task>, i: nat)
    requires i < |s|
  {
    && (forall k {:trigger Parent(k)} :: 0 < k < |s| && Parent(k) != i ==> !Less(s[k], s[Parent(k)]))
    && (i > 0 ==> forall k {:trigger Parent(k)} :: 0 < k < |s| && Parent(k) == i ==> !Less(s[k], s[Parent(i)]))
  }

  lemma SwapKeepsTasks(s: seq<Task>, i: nat, j: nat)
    requires i < |s| && j < |s|
    ensures multiset(Swapped(s, i, j)) == multiset(s)
  {}

  lemma SiftUpStep(s: seq<Task>, j: nat)
    requires 0 < j < |s| && HeapExceptUp(s, j) && Less(s[j], s[Parent(j)])
    ensures HeapExceptUp(Swapped(s, Parent(j), j), Parent(j))
  {
    var i, s' := Parent(j), Swapped(s, Parent(j), j);
    forall k {:trigger Parent(k)} | 0 < k < |s|
      ensures k != i ==> !Less(s'[k], s'[Parent(k)])
      ensures i > 0 && Parent(k) == i ==> !Less(s'[k], s[Parent(i)])
    {
    }
  }

  lemma SiftDownStep(s: seq<Task>, i: nat)
    requires 2 * i + 1 < |s| && HeapExceptDown(s, i) && Less(s[FirstChild(s, i)], s[i])
    ensures HeapExceptDown(Swapped(s, i, FirstChild(s, i)), FirstChild(s, i))
  {
    var j := FirstChild(s, i);
    var s' := Swapped(s, i, j);
    forall k {:trigger Parent(k)} | 0 < k < |s|
      ensures Parent(k) != j ==> !Less(s'[k], s'[Parent(k)])
      ensures Parent(k) == j ==> !Less(s'[k], s'[Parent(j)])
    {
      if Parent(k) == i {
        assert k == 2 * i + 1 || k == 2 * i + 2;
      }
    }
  }

  lemma {:induction false} SiftUpRestores(s: seq<Task>, j: nat)
    requires j < |s| && HeapExceptUp(s, j)
    ensures IsHeap(SiftUp(s, j)) && multiset(SiftUp(s, j)) == multiset(s)
    decreases j
  {
    if j > 0 && Less(s[j], s[Parent(j)]) {
      var i := Parent(j);
      var s' := Swapped(s, i, j);
      SwapKeepsTasks(s, i, j);
      SiftUpStep(s, j);
      SiftUpRestores(s', i);
    }
  }

  lemma {:induction false} SiftDownRestores(s: seq<Task>, i: nat)
    requires i < |s| && HeapExceptDown(s, i)
    ensures IsHeap(SiftDown(s, i)) && multiset(SiftDown(s, i)) == multiset(s)
    decreases |s| - i
  {
    if 2 * i + 1 < |s| {
      var j := FirstChild(s, i);
      if Less(s[j], s[i]) {
        SwapKeepsTasks(s, i, j);
        SiftDownStep(s, i);
        SiftDownRestores(Swapped(s, i, j), j);
      } else {
        assert forall k {:trigger Parent(k)} :: 0 < k < |s| && Parent(k) == i ==> k == 2 * i + 1 || k == 2 * i + 2;
      }
    }
  }

  /** Pushing keeps the heap order and adds exactly the pushed task. */
  lemma PushKeepsHeap(s: seq<Task>, t: Task)
    requires IsHeap(s)
    ensures IsHeap(Pushed(s, t)) && multiset(Pushed(s, t)) == multiset(s) + multiset{t}
  {
    var u := s + [t];
    assert forall k {:trigger u[k]} :: 0 <= k < |s| ==> u[k] == s[k];
    SiftUpRestores(u, |s|);
  }

  /** Popping keeps the heap order and removes exactly the task at the front. */
  lemma PopKeepsHeap(s: seq<Task>)
    requires IsHeap(s) && |s| > 0
    ensures IsHeap(Popped(s)) && multiset(s) == multiset(Popped(s)) + multiset{s[0]}
  {
    var n := |s| - 1;
    assert s == s[..n] + [s[n]];
    if n > 0 {
      var u := s[..n][0 := s[n]];
      assert s[..n] == [s[0]] + s[1..n];
      assert u == [s[n]] + s[1..n];
      SiftDownRestores(u, 0);
    }
  }

  /** How `container/heap` pops: swap the ends, cut off the last, sift the new front down. */
  lemma PopInPlace(s: seq<Task>)
    requires |s| > 0
    ensures var n, u := |s| - 1, Swapped(s, 0, |s| - 1);
      u[n] == s[0] && Popped(s) == if n == 0 then u[..n] else SiftDown(u[..n], 0)
  {
    var n := |s| - 1;
    if n > 0 {
      assert Swapped(s, 0, n)[..n] == s[..n][0 := s[n]];
    }
  }

  /** No task of a heap precedes its front. */
  lemma {:induction false} FrontIsFirst(s: seq<Task>, k: nat)
    requires IsHeap(s) && k < |s|
    ensures !Less(s[k], s[0])
  {
    if k == 0 {
    } else {
      FrontIsFirst(s, Parent(k));
    }
  }

  lemma FrontIsFirstOfAll(s: seq<Task>, t: Task)
    requires IsHeap(s) && t in multiset(s)
    ensures !Less(t, s[0])
  {
    var k :| 0 <= k < |s| && s[k] == t;
    FrontIsFirst(s, k);
  }

  /** By descending priority and, within one priority, by ascending creation time. */
  ghost predicate Sorted(s: seq<Task>) {
    forall i, j :: 0 <= i < j < |s| ==>
      s[i].priority > s[j].priority || (s[i].priority == s[j].priority && s[i].createdAt <= s[j].createdAt)
  }

  lemma SortedCons(t: Task, rest: seq<Task>)
    requires Sorted(rest) && forall u :: u in multiset(rest) ==> !Less(u, t)
    ensures Sorted([t] + rest)
  {
    forall j | 0 <= j < |rest| ensures !Less(rest[j], t) {
      assert rest[j] in multiset(rest);
    }
  }

  /** Draining a heap yields all of its tasks, in sorted order. */
  lemma {:induction false} DrainSorts(s: seq<Task>)
    requires IsHeap(s)
    ensures multiset(Drained(s)) == multiset(s) && Sorted(Drained(s))
    decreases |s|
  {
    if s == [] {
    } else {
      PopKeepsHeap(s);
      DrainSorts(Popped(s));
      forall u | u in multiset(Drained(Popped(s))) ensures !Less(u, s[0]) {
        FrontIsFirstOfAll(s, u);
      }
      SortedCons(s[0], Drained(Popped(s)));
    }
  }

  // ---------- the algorithm in place ----------

  class PriorityQueue {
    var tasks: array<Task>
    var size: nat
    ghost var Repr: set<object>

    ghost predicate Valid()
      reads this, Repr
    {
      && this in Repr && tasks in Repr
      && size <= tasks.Length
      && IsHeap(tasks[..size])
    }

    function Contents(): seq<Task>
      reads this, tasks
      requires size <= tasks.Length
    {
      tasks[..size]
    }

    constructor ()
      ensures Valid() && fresh(Repr) && Contents() == []
    {
      tasks, size := new Task[0], 0;
      new;
      Repr := {this, tasks};
    }

    /** Append, moving to a larger array when the current one is full. */
    method Append(task: Task)
      requires Valid()
      modifies Repr
      ensures this in Repr && tasks in Repr && fresh(Repr - old(Repr))
      ensures size == old(size) + 1 <= tasks.Length
      ensures tasks[..size] == old(tasks[..size]) + [task]
    {
      if size == tasks.Length {
        var larger := new Task[2 * size + 1];
        for i := 0 to size
          invariant unchanged(this) && unchanged(tasks)
          invariant fresh(larger) && larger.Length == 2 * size + 1
          invariant larger[..i] == tasks[..i]
        {
          larger[i] := tasks[i];
        }
        tasks := larger;
        Repr := Repr + {larger};
      }
      tasks[size] := task;
      size := size + 1;
    }

    /** Swap two of the first `n` tasks. */
    method Swap(i: nat, j: nat, ghost n: nat)
      requires i < n <= tasks.Length && j < n
      modifies tasks
      ensures tasks[..n] == Swapped(old(tasks[..n]), i, j)
      ensures forall k :: n <= k < tasks.Length ==> tasks[k] == old(tasks[k])
    {
      tasks[i], tasks[j] := tasks[j], tasks[i];
    }

    method Up(start: nat)
      requires start < size <= tasks.Length
      modifies tasks
      ensures tasks[..size] == SiftUp(old(tasks[..size]), start)
    {
      var j := start;
      while true
        invariant 0 <= j < size <= tasks.Length
        invariant SiftUp(tasks[..size], j) == SiftUp(old(tasks[..size]), start)
        decreases j
      {
        var i := Parent(j);
        if i == j || !Less(tasks[j], tasks[i]) {
          break;
        }
        Swap(i, j, size);
        j := i;
      }
    }

    method Down(start: nat, n: nat)
      requires start < n <= tasks.Length
      modifies tasks
      ensures tasks[..n] == SiftDown(old(tasks[..n]), start)
      ensures forall k :: n <= k < tasks.Length ==> tasks[k] == old(tasks[k])
    {
      hide IsHeap;
      var i := start;
      while true
        invariant 0 <= i < n <= tasks.Length
        invariant SiftDown(tasks[..n], i) == SiftDown(old(tasks[..n]), start)
        invariant forall k :: n <= k < tasks.Length ==> tasks[k] == old(tasks[k])
        decreases n - i
      {
        var left := 2 * i + 1;
        if left >= n {
          break;
        }
        var j := left;
        if left + 1 < n && Less(tasks[left + 1], tasks[left]) {
          j := left + 1;
        }
        assert j == FirstChild(tasks[..n], i);
        if !Less(tasks[j], tasks[i]) {
          break;
        }
        Swap(i, j, n);
        i := j;
      }
    }

    method PushTask(task: Task)
      requires Valid()
      modifies Repr
      ensures Valid() && fresh(Repr - old(Repr))
      ensures Contents() == Pushed(old(Contents()), task)
    {
      hide IsHeap, SiftUp;
      PushKeepsHeap(tasks[..size], task);
      Append(task);
      Up(size - 1);
    }

    /** `heap.Pop`: swap the ends, sift the new front down among the others, cut off the last. */
    method HeapPop() returns (task: Task)
      requires 0 < size <= tasks.Length
      modifies this`size, tasks
      ensures size == old(size) - 1
      ensures task == old(tasks[0]) && tasks[..size] == Popped(old(tasks[..size]))
    {
      PopInPlace(tasks[..size]);
      hide SiftDown, Swapped, Popped;
      var n := size - 1;
      Swap(0, n, size);
      assert tasks[n] == tasks[..size][n];
      assert tasks[..n] == tasks[..size][..n];
      if n > 0 {
        Down(0, n);
      }
      task := tasks[n];
      size := n;
    }

    method PopTask() returns (task: Option<Task>)
      requires Valid()
      modifies Repr
      ensures Valid() && fresh(Repr - old(Repr))
      ensures old(Contents()) == [] ==> task == None && Contents() == []
      ensures old(Contents()) != [] ==> task == Some(old(Contents())[0]) && Contents() == Popped(old(Contents()))
    {
      hide IsHeap, Popped;
      if size == 0 {
        return None;
      }
      PopKeepsHeap(tasks[..size]);
      var first := HeapPop();
      task := Some(first);
    }

    /** Pop returns what Peek shows, and nothing queued precedes it. */
    method PeekTask() returns (task: Option<Task>)
      requires Valid()
      ensures task == if Contents() == [] then None else Some(Contents()[0])
      ensures forall t :: t in Contents() ==> task.Some? && !Less(t, task.value)
    {
      if size == 0 {
        return None;
      }
      task := Some(tasks[0]);
      forall t | t in Contents() ensures !Less(t, task.value) {
        FrontIsFirstOfAll(tasks[..size], t);
      }
    }
  }
}
