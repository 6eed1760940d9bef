# Verification of ley

A Dafny model of the parts of ley that are protocols or keep derived data: the task worker pool, the
category tree, the article store with its caches and counters, the per-IP rate limiter, hot delivery
of the remote configuration, and refresh token rotation. `dafny verify dfyconfig.toml` verifies all of
it with Dafny 4.11.

Code that changes things step by step is written as classes and loops, each method proved against a
function from state to state; whatever holds over whole runs is then proved of those functions. Code
in which goroutines interleave is a state machine whose steps are the atomic actions of the code, and
its laws hold for every order of the steps.

## The components

**Task worker pool.** `TaskHeap.dfy` has the two priority queues: the sift loops of Go's
`container/heap` written out over the repository's own order and swap, in place on an array.
`PoolProtocol.dfy` is the concurrent protocol of submitters, scheduler and workers, with the invariant
of every interleaving. `PoolLiveness.dfy` shows that the pool finishes its work, under weak fairness,
and `PoolStop.dfy` when Stop can return and which tasks it misses: the scheduler leaves as soon as it
sees the shutdown (`pkg/task/worker_pool.go:214`), so Stop can wait forever for tasks still queued, and
a batch goes on being counted after its shutdown check (`pkg/task/worker_pool.go:195-199`), so Stop can
return in between. `PoolReturn.dfy` gives the exact condition on the state, wherever the scheduler
stands, for Stop to be sure to return, and `PoolFairStop.dfy` shows that the same condition decides
whether every fair run gets past the wait. `WorkerPool.dfy` has the steps as a program on the heaps and
fields of the pool.

**Categories.** `Ancestry.dfy` treats ancestor chains and the depth-bounded climb that guards
re-parenting, `CategoryTree.dfy` the pass that links nodes by pointers. The climb takes an absent
parent for a safe one, so a parent id that is issued later can close a cycle; the model keeps that and
states exactly when a re-parenting stays safe.

**Article store.** `Blog.dfy` has the use cases of articles and categories as functions, `BlogStore.dfy`
as programs. `BlogInvariants.dfy` shows what each keeps and `BlogRuns.dfy` what follows for every
serialized run, with cache entries lost at any point between requests; `BlogLaws.dfy` tells who gets
which answer, what each request changes, and who can change an article at all. Ids are issued in order
and never reused, deleting only marks a row, and counter writes succeed. `Slugs.dfy` is slug generation,
`Search.dfy` the escaping of keywords under LIKE as section 8.5 of ISO/IEC 9075-2 defines it, with exact
comparison of characters, and `Likes.dfy` likes and their count. `ViewCounts.dfy` has views and the
flusher interleaved, with one flusher, and accounts for each article for every view that was counted.

**Rate limiter.** `RateLimit.dfy` compares the limiter that sweeps idle buckets with one that never
does, with the textbook token bucket over reals and one reading of the clock for each request.

**Remote configuration.** `RemoteConfig.dfy` interleaves the watch loop and the receiving loop over a
channel of capacity one. Decoding is a given: a change either carries a decoded configuration or none.

**Tokens.** `Tokens.dfy` is a timed state machine with a clock in milliseconds, serialized requests that
take no time, working cache calls and fresh token ids. A token is valid strictly before its expiry, the
exp claim of section 4.1.4 of RFC 7519, which the code cuts to a whole second; the cache cuts the
lifetime of a blacklist entry to whole seconds too, but not below one (`pkg/cache/redis.go:112`, as its
client library formats the time of SETEX). So an entry can end within the last second of its token, and
the token is accepted once more; a later logout of the same token writes its entry again and can shorten
it (`app/auth/internal/biz/auth.go:255-261`). The model keeps both and states exactly when a spent token
is refused for good. `TokenLaws.dfy` tells each request's answers and effects field by field, and where
every token of every run comes from.

`Collections.dfy` has an option type and sums over maps.

## Where code and comments differ

The model follows the code.

- The comment on deleting an article speaks of GREATEST on the category count; the code adds a
  negative delta without a clamp (`app/blog/internal/data/tag.go:241-247`). The counts need none.
- The comment on publishing says the first publication time is recorded; the code sets it each time
  (`app/blog/internal/biz/article.go:652-656`). The time is not part of this model.
- The comment on inserting an article names ErrArticleNotFound for a slug conflict; the code returns
  ErrSlugAlreadyExists (`app/blog/internal/data/article.go:83-94`).
- The pinyin table is described as matched index by index; the code looks a character up by its byte
  offset (`app/blog/internal/biz/article.go:1368-1374`), and so does the model.
- The title limit is described in characters and checked in bytes
  (`app/blog/internal/biz/article.go:1190-1193`).
- A like after an unlike is described as idempotent insertion; the soft-deleted row still holds the
  unique index, so it has no effect (`app/blog/internal/data/article.go:52-57`).

## Model

| member | source | states |
|---|---|---|
| `TaskHeap.PushKeepsHeap` | pkg/task/worker_pool.go:45-49 | pushing a task onto a heap gives a heap that holds the same tasks and the new one |
| `TaskHeap.PopKeepsHeap` | pkg/task/worker_pool.go:52-59 | popping takes out the front and leaves a heap of the other tasks |
| `TaskHeap.FrontIsFirstOfAll` | pkg/task/worker_pool.go:62-69 | no queued task comes before the front, by priority and then by age |
| `TaskHeap.DrainSorts` | pkg/task/worker_pool.go:20-59 | emptying any queue yields all its tasks in order of descending priority and then ascending creation time |
| `TaskHeap.PriorityQueue.Append` | pkg/task/worker_pool.go:29-31 | the slice grows by the task at its end, moving to a larger array when full |
| `TaskHeap.PriorityQueue.Swap` | pkg/task/worker_pool.go:27 | two tasks change places in the array and no others move |
| `TaskHeap.PriorityQueue.Up` | pkg/task/worker_pool.go:45-49 | the loop that sifts a task up in the array is the recursive sift |
| `TaskHeap.PriorityQueue.Down` | pkg/task/worker_pool.go:52-59 | the loop that sifts a task down among the first n is the recursive sift |
| `TaskHeap.PriorityQueue.HeapPop` | pkg/task/worker_pool.go:33-42 | the heap package's pop, in place: the front leaves, the last task sifts down from the root |
| `TaskHeap.PriorityQueue.PushTask` | pkg/task/worker_pool.go:45-49 | the array holds the pushed heap, and stays a heap |
| `TaskHeap.PriorityQueue.PopTask` | pkg/task/worker_pool.go:52-59 | nil exactly on an empty queue; otherwise the front, and the array holds the popped heap |
| `TaskHeap.PriorityQueue.PeekTask` | pkg/task/worker_pool.go:62-69 | shows what a pop would return, before which no queued task comes |
| `PoolProtocol.StepKeepsOnePlace` | pkg/task/worker_pool.go:171-262 | every step of a submitter, the scheduler or a worker keeps each counted task in exactly one place, and brings in only the task it counts |
| `PoolProtocol.StepKeepsTickets` | pkg/task/worker_pool.go:171-262 | the WaitGroup stays the number of tasks queued, in hand and in channels plus the Dones that workers owe, also while a retry is queued before its old worker is done |
| `PoolProtocol.StepKeepsStats` | pkg/task/worker_pool.go:247-298 | the counters stay exact: total counted, successes, final failures, and retries as the sum of all retry counts |
| `PoolProtocol.StepKeepsAttempts` | pkg/task/worker.go:57-118 | a waiting task was started as often as it was retried, a running or decided one once more, and never beyond its retry budget |
| `PoolProtocol.StepKeepsInv` | pkg/task/worker_pool.go:151-262 | the whole invariant of the pool is kept by every step |
| `PoolProtocol.UndecidedCount` | pkg/task/worker_pool.go:265-298 | total is successes plus failures plus the counted tasks not decided |
| `PoolProtocol.ZeroMeansDecided` | pkg/task/worker_pool.go:151-168 | with the WaitGroup at zero every counted task is decided |
| `PoolProtocol.EveryRun` | pkg/task/worker_pool.go:151-298 | in every interleaving, batches counted round by round included: one place for each counted task, at most 1 + MaxRetries starts, exact counters; Stop passes its wait only when every counted task is decided, and then only tasks that a batch counts later can be undecided |
| `PoolProtocol.DispatchOrder` | pkg/task/worker_pool.go:211-244 | the scheduler turns only to a worker it saw not busy, looks at the task queue only after it found the retry queue empty for that worker, takes a task that none in its queue precedes, sends it to that worker, and ends the scan after the last worker or with both queues found empty |
| `PoolLiveness.StepCosts` | pkg/task/worker_pool.go:211-262 | every productive step takes exactly one off an explicit measure of attempts left and places, and scan steps take nothing |
| `PoolLiveness.RunIsBounded` | pkg/task/worker_pool.go:211-262 | a run of the pool has as many productive steps as the measure it used up |
| `PoolLiveness.ProductiveStepAhead` | pkg/task/worker_pool.go:226-244 | while counted tasks remain and the scheduler has not left, a productive step is enabled or at most four scan steps away: nothing deadlocks |
| `PoolLiveness.EveryFairRunFinishes` | pkg/task/worker_pool.go:211-262 | without a new Submit and without Stop every fair run ends with every batch counted, queues and channels empty, the WaitGroup at zero, every task decided and Total = Success + Failed |
| `PoolStop.CanReturnIff` | pkg/task/worker_pool.go:151-168 | after Stop is called, in any state, its wait can still end in some continuation exactly when it has ended, the scheduler is still there, or the scheduler left nothing queued |
| `PoolStop.CutOffIff` | pkg/task/worker_pool.go:190-208 | a task of a batch can still be uncounted when Stop gets past its wait exactly when it is uncounted now and the wait can end at all |
| `PoolStop.LeftBehindForGood` | pkg/task/worker_pool.go:211-223 | a task not started when the scheduler has left is never decided, although its call was answered with success |
| `PoolStop.StopCanHang` | pkg/task/worker_pool.go:211-223 | a run in which Stop never returns: a task is submitted and the scheduler leaves before it looks |
| `PoolReturn.StopReturnsIff` | pkg/task/worker_pool.go:151-244 | after Stop is called, wherever the scheduler stands, the wait can end in every continuation of every run exactly when no batch is being counted or task pushed, no task has retries left (but for one last retry of the task the scheduler has to wait for), and the tasks that are queued or come back are no more than the workers still to be scanned that are certain to be free |
| `PoolReturn.StopCallReturnsIff` | pkg/task/worker_pool.go:151-244 | the same condition, seen before the call of Stop |
| `PoolReturn.SureWhileWaiting` | pkg/task/worker_pool.go:211-223 | while the scheduler waits or has left, the condition says that nothing is queued and every task at a worker has no retries left |
| `PoolReturn.StepKeepsSure` | pkg/task/worker_pool.go:151-262 | after Stop is called no step of anyone makes Stop less sure to return |
| `PoolReturn.LeavesTooEarly` | pkg/task/worker_pool.go:211-244 | if the condition fails, a run leads to a scheduler that has left while something is queued or can come back |
| `PoolFairStop.EveryFairRunReturns` | pkg/task/worker_pool.go:151-262 | from a state that meets the condition every fair run, the stopper being one of the goroutines, gets past the wait |
| `PoolFairStop.FairRunHangs` | pkg/task/worker_pool.go:151-262 | from a state that does not, a fair run in which Stop never returns |
| `PoolFairStop.FairStopIff` | pkg/task/worker_pool.go:151-262 | after Stop is called every fair run gets past the wait exactly when the condition holds |
| `WorkerPool.Pool.constructor` | pkg/task/worker_pool.go:113-135 | a new pool is the initial state: idle workers with empty channels and two empty queues |
| `WorkerPool.Pool.AddTicket` | pkg/task/worker_pool.go:176-177 | counting one task: total, ticket and, for a new task, the fields it was created with |
| `WorkerPool.Pool.Accept` | pkg/task/worker_pool.go:171-177 | refused exactly after shutdown; otherwise any task is counted, and for one not submitted before this is the step that checks and counts the task of a Submit |
| `WorkerPool.Pool.AcceptBatch` | pkg/task/worker_pool.go:190-193 | refused exactly after shutdown; otherwise the batch may be counted, and for tasks not submitted before this is the step of the protocol |
| `WorkerPool.Pool.Count` | pkg/task/worker_pool.go:196-197 | one round of the batch loop counts one task |
| `WorkerPool.Pool.Push` | pkg/task/worker_pool.go:178 | one PushTask of a submitter is the protocol's push step |
| `WorkerPool.Pool.Submit` | pkg/task/worker_pool.go:171-187 | an uninterrupted Submit of any task counts and pushes it, or does nothing after shutdown; for a new task these are the two steps of the protocol |
| `WorkerPool.Pool.SubmitBatch` | pkg/task/worker_pool.go:190-208 | an uninterrupted SubmitBatch counts and pushes each task in turn, repeated ones again, or does nothing after shutdown; for new and distinct tasks these are the steps of the protocol |
| `WorkerPool.Pool.CountBatch` | pkg/task/worker_pool.go:195-199 | the loop of a batch counts and pushes each task in turn |
| `WorkerPool.Pool.Stop` | pkg/task/worker_pool.go:151-158 | only the first call raises the shutdown flag |
| `WorkerPool.Pool.WaitReturns` | pkg/task/worker_pool.go:160-161 | the wait ends only at zero |
| `WorkerPool.Pool.SchedulerStep` | pkg/task/worker_pool.go:211-244 | each step of the scheduler and the dispatch loop is the protocol's, and it is blocked exactly when no step is enabled |
| `WorkerPool.Pool.LookForRetry` | pkg/task/worker_pool.go:226-244 | the retry queue is asked first |
| `WorkerPool.Pool.LookForTask` | pkg/task/worker_pool.go:226-244 | the task queue is asked when no retry waits, and an empty one ends the dispatch |
| `WorkerPool.Pool.SendTask` | pkg/task/worker_pool.go:242 | the popped task goes into the empty channel of the worker |
| `WorkerPool.Pool.WorkerStep` | pkg/task/worker.go:32-118 | each step of a worker's loop is the protocol's, and it is blocked exactly when no step is enabled; the worker, task and counter fields change as its phase and the end of the task's function say |
| `WorkerPool.Pool.NextStep` | pkg/task/worker.go:32-70 | between the ends of functions: the task leaves the channel, is marked as running, a retry goes onto the retry queue, the busy flag falls, and the ticket is given back |
| `WorkerPool.Pool.Start` | pkg/task/worker.go:57-70 | raising the busy flag and marking the task as running is the begin step |
| `WorkerPool.Pool.Decide` | pkg/task/worker.go:88-117 | nil is a success; an error is retried, with a higher retry count, a new ticket and a push owed, exactly while the task has retries left, and otherwise final; a deadline passed is final with the retry count as it was; told on the fields, the status and each counter included |
| `WorkerPool.Pool.Success` | pkg/task/worker.go:105-109 | a success settles the task and counts it |
| `WorkerPool.Pool.Failure` | pkg/task/worker.go:90-104 | a failure is retried exactly while the budget lasts, with a new ticket, and otherwise final |
| `WorkerPool.Pool.RetryLater` | pkg/task/worker.go:96-100 | a retried failure raises the retry count, the statistics and the WaitGroup, and owes its push |
| `WorkerPool.Pool.GiveUp` | pkg/task/worker.go:101-104 | a failure without retries left is final |
| `WorkerPool.Pool.Timeout` | pkg/task/worker.go:111-116 | a timeout is final |
| `WorkerPool.Pool.PutBack` | pkg/task/worker_pool.go:247-249 | a retried task goes into the retry heap |
| `Ancestry.AcyclicMeansNoCycle` | app/blog/internal/biz/tag.go:478-504 | every ancestor chain ends exactly when no category is its own ancestor |
| `Ancestry.ClimbFinds` | app/blog/internal/biz/tag.go:486-504 | the climb answers "circular" exactly when the category is among the first n of the chain, and "too deep" exactly when it is not and the chain is longer |
| `Ancestry.SafeMeansNotAncestor` | app/blog/internal/biz/tag.go:486-504 | a climb that finds nothing means the category is nowhere on the new parent's chain |
| `Ancestry.LinkKeepsAcyclic` | app/blog/internal/biz/tag.go:334-395 | giving a category a parent whose chain it is not on closes no cycle |
| `Ancestry.RemovalKeepsAcyclic` | app/blog/internal/biz/tag.go:406-456 | removing a category closes no cycle |
| `CategoryTree.ForestIsUnique` | app/blog/internal/data/tag.go:211-239 | the recursive forest over given rows is unique |
| `CategoryTree.RootForest` | app/blog/internal/data/tag.go:211-239 | it exists for all rows with distinct ids, even with parent cycles |
| `CategoryTree.ForestShowsAllRows` | app/blog/internal/data/tag.go:211-239 | the flattened forest is a permutation of the rows exactly when no row is on a cycle |
| `CategoryTree.ForestKeepsOrder` | app/blog/internal/data/tag.go:211-239 | siblings keep (sort_order, id) order |
| `CategoryTree.MakeNodes` | app/blog/internal/data/tag.go:222-225 | the first loop makes one node for each row |
| `CategoryTree.AppendToParent` | app/blog/internal/data/tag.go:229-234 | a node goes to its parent's children exactly when the parent id is set, not zero and present |
| `CategoryTree.LinkNode` | app/blog/internal/data/tag.go:227-236 | one round of the second loop links the rows seen so far |
| `CategoryTree.LinkNodes` | app/blog/internal/data/tag.go:226-236 | after the loop every node has exactly its children, in row order, and the roots are the rows with no parent among them |
| `CategoryTree.ListTree` | app/blog/internal/data/tag.go:211-239 | the pointer-linking pass yields the recursive forest: siblings in order, and all rows exactly once precisely when no row is on a cycle |
| `Decimals.ParseOfDecimal` | app/blog/internal/biz/article.go:1275-1276 | a printed number parses back |
| `Slugs.HalveCollapses` | app/blog/internal/biz/article.go:1239-1241 | one replacement round keeps what the string collapses to, and shortens it while a double hyphen is left |
| `Slugs.CollapseHyphens` | app/blog/internal/biz/article.go:1239-1241 | the loop ends and equals collapsing every run of hyphens once |
| `Slugs.GenerateSlug` | app/blog/internal/biz/article.go:1211-1257 | the program of loops is the function whose laws follow |
| `Slugs.SlugIs` | app/blog/internal/biz/article.go:1211-1257 | a slug is the letters, without case, and the digits of its title and the table's initials, in their order, with one hyphen where other characters separate them; "article" if there are none; cut after 200 |
| `Slugs.ShortTitleGivesCleanSlug` | app/blog/internal/biz/article.go:1191-1196 | for every title within the limit nothing is cut, and the slug is non-empty over [a-z0-9-] with no leading, trailing or doubled hyphen |
| `Slugs.CleanIsFixed` | app/blog/internal/biz/article.go:1211-1257 | a clean slug is its own slug |
| `Slugs.GenerateTwice` | app/blog/internal/biz/article.go:1211-1257 | generating twice changes nothing exactly when the first slug is not cut right after a hyphen, that is, unless the uncut slug has more than 200 bytes and a hyphen as its 200th; so always for titles within the limit |
| `Slugs.CutSlugIsNotFixed` | app/blog/internal/biz/article.go:1252-1254 | an over-long title whose slug is cut after a hyphen, so that generating again changes it |
| `BlogInvariants.LookupCorrect` | app/blog/internal/data/article.go:202-243 | through the cache a slug finds no article with another slug and always the live published one that has it; a live article is missed exactly behind a null entry |
| `BlogInvariants.LookupKeepsAnswers` | app/blog/internal/data/article.go:202-243 | a lookup changes the answer of no lookup |
| `BlogInvariants.CandidatesDistinct` | app/blog/internal/biz/article.go:1270-1277 | the candidates slug, slug-2, slug-3, ... are pairwise distinct |
| `BlogInvariants.UniqueFromIs` | app/blog/internal/biz/article.go:1270-1282 | the first candidate that is not found is chosen, and the error comes exactly when all hundred are found |
| `BlogInvariants.ChosenSlugIsFree` | app/blog/internal/biz/article.go:1270-1282 | no live published article holds the chosen slug |
| `BlogInvariants.CreateKeepsInv` | app/blog/internal/biz/article.go:247-373 | creating a draft keeps cache, counts, unique slugs and acyclic categories, whatever category id it names |
| `BlogInvariants.UpdateKeepsInv` | app/blog/internal/biz/article.go:391-550 | updating keeps them, also when a published article moves between categories, issued or not, or changes its slug |
| `BlogInvariants.PublishKeepsInv` | app/blog/internal/biz/article.go:634-703 | publishing keeps them |
| `BlogInvariants.ArchiveKeepsInv` | app/blog/internal/biz/article.go:719-770 | archiving keeps them |
| `BlogInvariants.DeleteKeepsInv` | app/blog/internal/biz/article.go:565-617 | deleting keeps them |
| `BlogInvariants.NewCategoryKeepsInv` | app/blog/internal/biz/tag.go:262-323 | creating a category keeps them while every live article's category id was issued before |
| `BlogInvariants.StepKeepsIssued` | app/blog/internal/biz/article.go:391-550 | requests that name only issued category ids leave only issued ones in live articles |
| `BlogInvariants.ChangeCategoryKeepsInv` | app/blog/internal/biz/tag.go:334-395 | updating a category, with re-parenting, keeps them |
| `BlogInvariants.RemoveCategoryKeepsInv` | app/blog/internal/biz/tag.go:406-456 | deleting a category keeps them |
| `BlogRuns.EveryRun` | app/blog/internal/biz/article.go:247-770 | after every run with cache entries lost at will: slug lookups are right, every live category's article_count is the number of live published articles in it, no category is its own ancestor, and the cached tree is the live one |
| `BlogRuns.EveryTreeIsWhole` | app/blog/internal/data/tag.go:211-239 | after every run the tree built from the live categories shows each of them exactly once |
| `BlogRuns.DeleteRefusesUsedCategories` | app/blog/internal/biz/tag.go:406-456 | a childless live category is refused exactly when a live published article is in it |
| `BlogRuns.ReparentAnswers` | app/blog/internal/biz/tag.go:334-395 | which re-parentings are accepted, circular or too deep, told by the new parent's chain alone |
| `BlogRuns.ReparentSafeIffIssued` | app/blog/internal/biz/tag.go:486-504 | an accepted re-parenting is safe in all runs to come exactly when the parent id was already issued |
| `BlogRuns.UnissuedParentClosesCycle` | app/blog/internal/biz/tag.go:493-496 | the run in which a parent id issued later closes a cycle |
| `BlogRuns.CountsExactIffIssued` | app/blog/internal/data/tag.go:241-247 | the counts stay exact in all runs to come exactly when every live article's category id was already issued |
| `BlogRuns.CreateKeepsExactIff` | app/blog/internal/biz/article.go:328-340 | so an accepted create keeps them exact for good exactly when the id it names was issued |
| `BlogRuns.UpdateKeepsExactIff` | app/blog/internal/biz/article.go:468-514 | and so an accepted update |
| `BlogRuns.UnissuedCategoryMiscounts` | app/blog/internal/biz/article.go:634-674 | the run in which a category issued later misses a live article |
| `BlogLaws.WhoIsRefused` | app/blog/internal/biz/article.go:1112-1140 | an update, publishing, archiving or deletion is refused as not authenticated, not found or not the owner exactly to those who are not the author of the live article nor an admin, and then changes nothing |
| `BlogLaws.StepChangesRows` | app/blog/internal/biz/article.go:247-770 | whatever the request, an article's row changes only by a request on it of its author or an admin, and then as that request says; a new row is a draft of whoever asked for it |
| `BlogLaws.OthersChangeNothing` | app/blog/internal/biz/article.go:391-770 | in every run without such a request an article stays what it is, and a deleted one in every run |
| `BlogLaws.EveryArticleHasAuthor` | app/blog/internal/biz/article.go:247-373 | in every run each article was asked for by the user who is its author |
| `BlogLaws.CandidatesCount` | app/blog/internal/biz/article.go:1270-1282 | the candidates after the first are the slug, a hyphen and the numbers from two on |
| `BlogLaws.ByteLengthIs` | app/blog/internal/biz/article.go:1191-1196 | the length checked is the number of bytes of the title in UTF-8 |
| `BlogLaws.CreateAnswers` | app/blog/internal/biz/article.go:247-373 | an accepted create leaves a live draft of the user under the first candidate of the title that the lookup does not find; each error has its exact condition, the slug error that a live unpublished article holds that candidate |
| `BlogLaws.UpdateAnswers` | app/blog/internal/biz/article.go:391-550 | an update keeps the slug without a new title and otherwise writes the first candidate not found; each error has its exact condition |
| `BlogLaws.StatusAnswers` | app/blog/internal/biz/article.go:565-770 | who may touch a live article publishes it unless it is published, and archives and deletes it in any case: the unique index never stands in the way, and only the status or the mark changes |
| `BlogLaws.FoundAndNotFound` | app/blog/internal/data/article.go:202-243 | an article just published is what its slug finds, and the slug of one just deleted finds nothing |
| `BlogLaws.AnswersAreCached` | app/blog/internal/data/article.go:202-243 | after a lookup the cache gives the same answer, and after a listing it has the tree |
| `BlogLaws.CreateCategoryAnswers` | app/blog/internal/biz/tag.go:262-323 | each answer of a category create has its exact condition, and the row is what was asked for |
| `BlogLaws.UpdateCategoryAnswers` | app/blog/internal/biz/tag.go:334-395 | each answer of a category update has its exact condition, and just the name, slug, parent and order change |
| `BlogLaws.DeleteCategoryAnswers` | app/blog/internal/biz/tag.go:406-456 | a category is deleted exactly by an admin while it is live, has no live child and no live published article in it; each refusal has its exact condition |
| `BlogStore.Repository.FindBySlug` | app/blog/internal/data/article.go:202-243 | the lookup's answer and what it writes to the cache |
| `BlogStore.Repository.CreateRow` | app/blog/internal/data/article.go:84-104 | the insert, refused exactly on a slug conflict, clears no cache entry |
| `BlogStore.Repository.UpdateRow` | app/blog/internal/data/article.go:111-146 | the update clears the entries of the old and the new slug |
| `BlogStore.Repository.DeleteRow` | app/blog/internal/data/article.go:152-174 | the soft deletion clears the entry of its slug |
| `BlogStore.Repository.InvalidateCache` | app/blog/internal/data/article.go:467-472 | an empty slug clears nothing |
| `BlogStore.Repository.IncrementArticleCount` | app/blog/internal/data/tag.go:241-247 | only a live category's count moves, and the cached tree goes in any case |
| `BlogStore.Repository.CheckCircularRef` | app/blog/internal/biz/tag.go:486-504 | the loop of a hundred rounds is the climb |
| `BlogStore.Repository.EnsureUniqueSlug` | app/blog/internal/biz/article.go:1270-1282 | the loop of a hundred lookups chooses as specified, cache writes included |
| `BlogStore.Repository.AuthorizeArticle` | app/blog/internal/biz/article.go:1112-1140 | nobody but the author of a live article and admins gets through, and each of the three errors has its exact condition |
| `BlogStore.Repository.CreateArticle` | app/blog/internal/biz/article.go:247-373 | the use case, step by step, is the function whose answers and runs are proved about |
| `BlogStore.Repository.ReplaceSlug` | app/blog/internal/biz/article.go:412-429 | a new title asks for a new unique slug |
| `BlogStore.Repository.AdjustCounts` | app/blog/internal/biz/article.go:508-514 | the loop makes the pending adjustments one after the other |
| `BlogStore.Repository.StoreUpdate` | app/blog/internal/biz/article.go:453-514 | the write, and the adjustments after it when a published article changes its category |
| `BlogStore.Repository.UpdateArticle` | app/blog/internal/biz/article.go:391-550 | likewise |
| `BlogStore.Repository.PublishArticle` | app/blog/internal/biz/article.go:634-703 | likewise |
| `BlogStore.Repository.ArchiveArticle` | app/blog/internal/biz/article.go:719-770 | likewise |
| `BlogStore.Repository.DeleteArticle` | app/blog/internal/biz/article.go:565-617 | likewise |
| `BlogStore.Repository.CreateCategory` | app/blog/internal/biz/tag.go:262-323 | likewise |
| `BlogStore.Repository.UpdateCategory` | app/blog/internal/biz/tag.go:334-395 | likewise |
| `BlogStore.Repository.DeleteCategory` | app/blog/internal/biz/tag.go:406-456 | likewise |
| `Search.PatternFindsKeyword` | app/blog/internal/data/article.go:335-342 | a text matches the pattern built from a keyword, under LIKE with an escape character, exactly when it contains the keyword |
| `Search.EscapingNeeded` | app/blog/internal/data/article.go:335-336 | without the escaping that holds for exactly the keywords with no backslash, percent sign or underscore |
| `Likes.StepKeepsInv` | app/blog/internal/data/article.go:423-453 | every like, unlike and change of an article keeps the counts equal to the live rows |
| `Likes.EveryRun` | app/blog/internal/data/article.go:423-453 | after every run like_count is the number of live rows, and the clamp of the next unlike changes nothing |
| `Likes.WhoIsRefused` | app/blog/internal/biz/article.go:926-1016 | each answer of a like and an unlike has its exact condition; a refusal changes nothing, and otherwise only the user's own row and this article's count do |
| `Likes.RepeatingChangesNothing` | app/blog/internal/biz/article.go:926-1016 | repeating a like or an unlike gives the same answer and changes nothing |
| `Likes.UnlikeUndoesLike` | app/blog/internal/data/article.go:423-453 | an unlike takes back a first like: counts and likers are as before |
| `Likes.UnlikedForGood` | app/blog/internal/data/article.go:439-453 | a soft-deleted row stays soft-deleted in every run |
| `Likes.LikeTakesEffectIff` | app/blog/internal/data/article.go:423-436 | a like that succeeds leaves the article liked exactly when the user has not unliked it before |
| `Likes.SecondLikeIsLost` | app/blog/internal/data/article.go:423-436 | like, unlike, like: all succeed and no like is left |
| `LikeStore.Repository.InsertLike` | app/blog/internal/data/article.go:423-436 | the transaction of a like |
| `LikeStore.Repository.DeleteLike` | app/blog/internal/data/article.go:439-453 | the transaction of an unlike |
| `LikeStore.Repository.LikeArticle` | app/blog/internal/biz/article.go:926-977 | the checks before a like, in order |
| `LikeStore.Repository.UnlikeArticle` | app/blog/internal/biz/article.go:990-1016 | the checks before an unlike, in order |
| `ViewKeys.ViewKeyReadsBack` | app/blog/internal/data/data.go:118-127 | a view key prints and parses back to the same article id |
| `ViewKeys.DeltaReads` | app/blog/internal/data/data.go:128-132 | a printed counter is applied exactly from one up to the largest 64-bit number |
| `ViewKeys.DedupKeyIsUnique` | app/blog/internal/biz/article.go:1065 | the key that stops repeated views names one article and one visitor |
| `ViewCounts.ReadIs` | app/blog/internal/data/data.go:110-134 | what a flush reads are the buffered counts of exactly the ids whose keys it scanned and found |
| `ViewCounts.StepBalances` | app/blog/internal/data/data.go:97-163 | every step of a view, an expiry or the flusher keeps every article's balance |
| `ViewCounts.EveryRun` | app/blog/internal/data/data.go:97-163 | in every interleaving db + dropped + buffered + carried + lost = counted + pending + stale + repeated for each article, where stale is in the row and still in the cache and repeated in the row twice; the row never exceeds what was counted while deletions work |
| `ViewCounts.NothingRepeated` | app/blog/internal/data/data.go:153-156 | while deletions work nothing is flushed twice, and nothing in the cache would be |
| `ViewCounts.FailedDeletionOvercounts` | app/blog/internal/data/data.go:153-156 | a failed deletion followed by another flush leaves the row above what was counted |
| `ViewCounts.FlushLosesLaterViews` | app/blog/internal/data/data.go:97-163 | the deletion of a key that was read loses exactly the views counted in the cache since the read |
| `ViewCounts.CountedOncePerVisitor` | app/blog/internal/biz/article.go:1064-1079 | a visitor whose view was counted through a working cache is not counted again in any run until the key that remembers the visit expires |
| `ViewCounts.ViewAnswers` | app/blog/internal/biz/article.go:1056-1102 | a view counts unless its id is zero or the visit is remembered, in the cache while that works and the counter has room, and otherwise, also when the check for repeats fails, in the row of a live article |
| `ViewStore.ParseCounts` | app/blog/internal/data/data.go:116-134 | the parsing loop keeps exactly the keys with an id and a positive number |
| `ViewStore.Repository.IncrementView` | app/blog/internal/biz/article.go:1025-1042 | the fallback adds one to a live row |
| `ViewStore.Repository.ViewArticle` | app/blog/internal/biz/article.go:1056-1102 | the branches of a view: refused id, repeated visit, failing cache, counter |
| `ViewStore.Repository.ApplyCounts` | app/blog/internal/data/data.go:140-148 | the transaction's loop adds every number to its live row once |
| `ViewStore.Repository.DeleteKeys` | app/blog/internal/data/data.go:153-156 | the deletion loop removes exactly the scanned keys |
| `ViewStore.Repository.FlushViewCounts` | app/blog/internal/data/data.go:97-163 | an uninterrupted flush moves each scanned counter to its row; a failure before the deletion changes nothing |
| `RateLimit.StepSimulates` | app/entry/internal/router/middleware/ratelimit.go:60-99 | one request gets the same decision from the evicting limiter and one that keeps all buckets, and leaves them alike |
| `RateLimit.EvictionIsInvisible` | app/entry/internal/router/middleware/ratelimit.go:60-99 | on every trace with monotone time all decisions are the same while the burst refills within the idle timeout |
| `RateLimit.EvictionShows` | app/entry/internal/router/middleware/ratelimit.go:92-99 | otherwise a trace of ten thousand addresses on which they differ |
| `RateLimit.EvictionInvisibleIff` | app/entry/internal/router/middleware/ratelimit.go:49-99 | eviction is invisible exactly when there is no limit or burst <= limit x 600 s |
| `RateLimit.KeySetsEqual` | app/entry/internal/router/middleware/ratelimit.go:73-99 | the two maps always have the same keys |
| `RateLimit.WindowSpends` | app/entry/internal/router/middleware/ratelimit.go:60-65 | the admissions in a window are paid from the tokens at its start and the refill since |
| `RateLimit.WindowBound` | app/entry/internal/router/middleware/ratelimit.go:60-99 | while the burst refills within the idle timeout, no address passes more than burst + limit x T times in a window of length T |
| `RateLimit.WindowBoundIff` | app/entry/internal/router/middleware/ratelimit.go:60-99 | with a limit, that bound holds on all traces exactly when burst <= limit x 600 s |
| `RateLimit.RefusalHasReason` | app/entry/internal/router/middleware/ratelimit.go:60-65 | with a limit and a burst, a request is refused only when admitting it would break the bound of some window, however the burst refills |
| `RateLimit.DecisionIff` | app/entry/internal/router/middleware/ratelimit.go:49-99 | while the burst refills within the idle timeout, a request passes exactly when no window that ends with it would exceed burst + limit x T; every request passes without a limit, and none with a limit and no burst |
| `RateLimit.WhoIsDropped` | app/entry/internal/router/middleware/ratelimit.go:73-99 | an address loses its bucket exactly when a newcomer finds ten thousand and it has been idle for more than ten minutes |
| `RateLimit.BucketsBounded` | app/entry/internal/router/middleware/ratelimit.go:73-99 | on every trace the map holds at most ten thousand addresses, or only ones that were active in the ten minutes before the last newcomer |
| `RateLimitStore.IpRateLimiter.SweepIdle` | app/entry/internal/router/middleware/ratelimit.go:92-99 | the loop drops exactly the addresses idle for more than the timeout, from both maps |
| `RateLimitStore.IpRateLimiter.BucketFor` | app/entry/internal/router/middleware/ratelimit.go:73-89 | looks up or creates the bucket, sweeping first when the map is full, and refreshes the last activity |
| `RateLimitStore.IpRateLimiter.Serve` | app/entry/internal/router/middleware/ratelimit.go:49-68 | the decision and the new buckets of one request |
| `RemoteConfig.StepKeepsInv` | app/entry/conf/remote.go:184-227 | every step of the watch loop and the consumer keeps the invariant of the channel |
| `RemoteConfig.EveryRun` | app/entry/conf/remote.go:184-227 | in every interleaving the final send never blocks, the consumer receives an in-order subsequence of what was delivered, and a drained channel leaves the last delivery in the holder |
| `RemoteConfig.FinishedHolder` | app/entry/conf/remote.go:245-292 | when the consumer has finished, the holder has the last decodable value the watch reported, else the first one read, else the loaded one |
| `RemoteConfig.BadChangesAreInvisible` | app/entry/conf/remote.go:190-202 | every run reaches the state it would reach without its deletions and undecodable values |
| `RemoteConfig.RunsComeToRest` | app/entry/conf/remote.go:217-227 | from any reachable state, without another change there are only so many steps, and when neither a delivery nor the consumer can go on the holder has the last configuration delivered |
| `RemoteConfigStore.Channel.Deliver` | app/entry/conf/remote.go:217-227 | the latest configuration wins |
| `RemoteConfigStore.Channel.HandleChanges` | app/entry/conf/remote.go:190-204 | after the loop the channel has the last decodable change |
| `Tokens.AcceptedIff` | app/auth/internal/biz/auth.go:179-232 | a refresh token is accepted exactly when it was issued, is not expired, its user is active, and it was never refreshed or logged out or the blacklist entry made then is over; a spent token only in its last second, and only once |
| `Tokens.StepKeepsInv` | app/auth/internal/biz/auth.go:140-265 | every request and every passing of time keeps the blacklist entry of a spent token up to its last second, at most two acceptances, and one unspent token for each login that was never replayed |
| `Tokens.SpentForGood` | app/auth/internal/biz/auth.go:179-265 | a token once spent counts as spent in every later state |
| `Tokens.Spending` | app/auth/internal/biz/auth.go:179-222 | refreshing spends the token, and the new pair continues its login with a refresh token that is usable exactly when its expiry, cut to a whole second, is still ahead |
| `Tokens.LogoutSpends` | app/auth/internal/biz/auth.go:240-265 | a token that is logged out before it expires is spent |
| `Tokens.EveryRun` | app/auth/internal/biz/auth.go:179-265 | in every run a spent token is refused in every later state but for its last second, no token is accepted three times, and of the refresh tokens of a login at most one is usable for a second or longer unless one was accepted after it was spent |
| `Tokens.EntryLivesAsLong` | pkg/cache/redis.go:93-113 | a token blacklisted while it parses stays listed as long as it would parse exactly when a whole number of seconds or less than one is left of its life; otherwise it parses unlisted for the odd milliseconds at the end |
| `Tokens.RefusedForGoodIff` | app/auth/internal/biz/auth.go:179-265 | a spent token is refused in all later states, another logout of it aside, exactly when its entry lives as long as it does; and whatever happens exactly when also at most a second is left |
| `Tokens.SpentWellIff` | app/auth/internal/biz/auth.go:179-265 | a token that is refreshed or logged out is refused for good, another logout of it aside, exactly when a whole number of seconds or less than one was left of its life |
| `Tokens.SpentTokenReplayed` | app/auth/internal/biz/auth.go:179-222 | a run: a token spent 5.9 seconds before its end is accepted again half a second before it |
| `Tokens.TimelyStepIff` | app/auth/internal/biz/auth.go:179-265 | while every entry outlives its token, a request keeps it so exactly when it spends no token with odd milliseconds left |
| `Tokens.TimelyRunIff` | app/auth/internal/biz/auth.go:179-265 | at every moment of a run all spent tokens are refused for good exactly when each was spent with whole seconds or less than one left |
| `Tokens.EveryTimelyRun` | app/auth/internal/biz/auth.go:179-265 | in such a run no token is accepted twice, no spent token is usable, and each login has at most one usable refresh token |
| `Tokens.AcceptedOnceIff` | app/auth/internal/biz/auth.go:179-232 | tokens are accepted at most once in all runs exactly when refresh tokens are born expired, or the blacklist works and they live for a second at most |
| `Tokens.AcceptedTwiceIff` | app/auth/internal/biz/auth.go:179-232 | and at most twice exactly when they are born expired or the blacklist works |
| `TokenLaws.LoginAnswers` | app/auth/internal/biz/auth.go:140-171 | each answer of a login has its exact condition, and a pair is two fresh tokens for the user with the lifetimes configured, the refresh token the first of its chain |
| `TokenLaws.RefreshAnswers` | app/auth/internal/biz/auth.go:179-222 | each answer of a refresh has its exact condition; a pair is for the same user and login, and only the token is listed, for its remaining life in whole seconds |
| `TokenLaws.LogoutLists` | app/auth/internal/biz/auth.go:240-265 | a logout lists exactly the tokens of the right kind that are not expired, access token included, for their remaining lives in whole seconds, and changes nothing else |
| `TokenLaws.EveryTokenIsEntitled` | app/auth/internal/biz/auth.go:80-222 | in every run each token was issued by a registration, a login with the right password of an active account, or a refresh with an unexpired refresh token of the same active user |
| `TokenLaws.EveryChainHasLogin` | app/auth/internal/biz/auth.go:80-222 | in every run each refresh token goes back, refresh by refresh, to a registration or a login with the right password by its own user |
| `TokenStore.AuthUseCase.Parse` | pkg/jwt/jwt.go:194-236 | a token parses exactly when issued, of the right type and before its expiry |
| `TokenStore.AuthUseCase.IsTokenBlackListed` | pkg/jwt/jwt.go:53-64 | listed exactly while its entry lives |
| `TokenStore.AuthUseCase.GenerateTokenPair` | pkg/jwt/jwt.go:150-186 | two fresh tokens with expiries cut to whole seconds, the refresh token for seven access lifetimes when none is configured |
| `TokenStore.AuthUseCase.Login` | app/auth/internal/biz/auth.go:140-171 | a pair exactly for a registered and active user with the right password, both tokens issued to that user; a refused login changes nothing |
| `TokenStore.AuthUseCase.RefreshToken` | app/auth/internal/biz/auth.go:179-222 | the checks of a refresh, in order, its pair and its blacklist entry |
| `TokenStore.AuthUseCase.Logout` | app/auth/internal/biz/auth.go:240-265 | both tokens are blacklisted for the rest of their lives in whole seconds, if they parse, whether or not they are listed already |

## Left out

- Pool: the task-done notification channel; the scheduler's timer alone can wake it at any time, which covers both.
- Pool: the shutdown check and the counting of one Submit are one step; SubmitBatch is checked once and counts task by task, in any order of its tasks, each of which is then pushed.
- Pool: a worker writes the fields of its task and a statistics counter in one step with the ticket that goes with them (a retry's count, its statistic and its ticket, for one); between these no other goroutine acts on what they change, but the statistics are read as exact only between such steps.
- Pool: callbacks, cancellation, execution times, the queue-size statistics, worker stop signals after Stop's wait, and a worker count of zero or less, which the code replaces by the number of CPUs.
- PoolProtocol.EveryRun: is about tasks that are each submitted at most once (PoolProtocol.Fresh); a task object submitted again is accepted by the code, and by WorkerPool.Pool.Submit and WorkerPool.Pool.SubmitBatch, and is then in two places with one set of fields, which the protocol and the laws on it do not cover.
- WorkerPool.Pool.WorkerStep: needs the record of the worker's task, which every reachable state has; one call is one atomic step, not the whole goroutine.
- PriorityQueue: its mutex, since every operation is one step of the protocol.
- Column limits: the slug of an article holds 200 characters and that of a category 64 (`app/blog/internal/data/article.go:27`, `app/blog/internal/data/tag.go:33`); a candidate with a suffix after a slug of 200, or a longer slug of a category, is refused by the database and accepted here.
- Articles: content with its length check, excerpt, cover image, publication time, listing and paging, and the visibility of drafts.
- Tags and their article_count: replacing the tags of a published article does not adjust the counts, so they are not exact.
- Names and keywords are taken as already trimmed of white space.
- Text is a sequence of Unicode characters; invalid UTF-8 in titles and byte cuts within a character are not modelled (slugs are ASCII).
- Categories: descriptions; a failed database query other than a missing row; two requests at once.
- Cached category tree: the cache holds the live categories, from which the tree is built; its serialized form is not modelled.
- BlogRuns.EveryRun: assumes issued category ids in requests; BlogRuns.ReparentSafeIffIssued, BlogRuns.CountsExactIffIssued, BlogRuns.CreateKeepsExactIff and BlogRuns.UpdateKeepsExactIff state exactly what happens without.
- Requests on articles at the same time: the slug is checked and then written, with the unique index as the last guard.
- ViewCounts: a second flusher at the same time, which the flush on shutdown can start while a periodic one is still at work; the last flush and the ticker are taken as one flusher.
- ViewCounts: keys that a scan reports may be any with the view prefix; that a scan misses none is not needed and not modelled.
- View counts beyond 64 bits in the database column.
- Rate limiter: the floating-point arithmetic of golang.org/x/time/rate, the lock, and the time between the lookup of a bucket and its use; a bucket is a value in the map and not a shared object.
- Remote configuration: what YAML decodes to, etcd and its reconnects, and a change written between the first read and the start of the watch, which is never delivered.
- Tokens: signing and parsing of the token text, passwords, refreshes of one token at the same time, cache failures, fractions of a millisecond, and the time between the readings of the clock within one request.
- Tokens: requests that present an access token to other services, which do not consult the blacklist.
- File storage, notifications, events, metrics, tracing, logging, the RPC and HTTP layers and the web front end: forwarding or foreign code.
