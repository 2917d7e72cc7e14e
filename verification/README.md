# Verified models of the platform's stateful components

This project models, in Dafny, the parts of the platform whose correctness needs an argument
over whole runs: the workflow engine (graph, executor, durable worker), the gateway's rate
limiters, response cache, circuit breaker and room manager, the retrieval side's chunker, rank
fusion and cosine similarity, the migration runner, and the Cypher corrector against the Cypher
validator. `dafny verify dfyconfig.toml` checks all of it.

| file | component |
|---|---|
| `Graph.dfy`, `Executor.dfy` | workflow graph, topological sort, execution, dataflow meaning |
| `WorkflowSource.dfy` | the same in terms of the stored node and edge records |
| `Worker.dfy` | durable execution worker as a step relation |
| `Chunker.dfy` | text chunker |
| `RateLimit.dfy`, `RateLimitRedis.dfy` | sliding-window log and INCR/EXPIRE counter |
| `Cache.dfy`, `CircuitBreaker.dfy`, `Rooms.dfy` | gateway cache, breaker, WebSocket rooms |
| `RankFusion.dfy`, `Cosine.dfy` | rank fusion, cosine similarity |
| `Migrations.dfy` | migration runner |
| `Cypher.dfy` | Cypher corrector and validator |
| `Wrappers.dfy` | options and sequence vocabulary |

## Main results

- **Workflow graph.** For every finite graph, self-loops and parallel edges included, the sort
  raises exactly when a directed cycle exists, and names exactly the nodes reachable from some
  cycle; otherwise every node appears once, all its upstream nodes before it, and the order is the
  only one in which nodes leave in the order in which they became ready. The reported nodes
  are all on cycles if and only if no edge leads from a cycle to a node on none.
- **Workflow run.** Every recorded output and input is the recursive dataflow meaning of the
  workflow, which mentions no order; the run closes as a block of successes, at most one error, then
  skipped nodes; two uncancelled runs have the same result. All of it is also stated over the stored
  records and the texts in their fields: every stored edge between two nodes has its source first,
  every input is the recorded outputs of exactly the sources of such edges, in the order of the
  first edges that leave them, and every output is what the node's handler makes of that input.
- **Worker.** Over all interleavings of requests, worker steps, stops and crashes no pending or
  running execution is lost while the worker is up; the stored status of every execution is the last
  write that the history of events made to it; the n-th pop takes the n-th push; recovery requeues
  every stale execution; permits are conserved; every task writes in turn. Any schedule of worker
  steps drains the work, and after any crash a restart can finish everything.
- **Chunker.** The split is the only one that cuts the text at every first match of the separator.
  Greedy merging uses the fewest groups possible. The blocks join back to the text
  exactly when no part of the split is blank, and then every chunk's offsets slice the text to
  its block, each search finding its block no later than its true position. For every text a chunk
  starts at the first occurrence of its block from the search start on, or at the fallback.
- **Rate limiting.** The pruned, evicting log decides exactly as a log that keeps everything; no
  window holds more than `limit` accepted requests; whatever the Redis counter accepts the log
  accepts too. For one limit and one window the two take the same decision on every request of a
  client if and only if every request beyond the limit of its burst comes less than a window after
  the burst began. The counter never counts less than the fixed window it is described as, and
  equals it if and only if no burst outlasts a window.
- **Cache.** A lookup finds exactly the response that the history of all operations says is kept
  and fresh, that is, the latest put that nothing touched since; when it finds nothing, nothing was stored or it was invalidated, evicted or expired.
  The path index is always the partition of the keys by path; counts and capacity are exact.
- **Rooms.** The relation between room sets and tuples holds over every run with fresh ids. A
  broadcast is an exact interleaving of its disconnections with what others do, keeps the relation
  whenever they connect new ids only, and without interference removes exactly the dead.
- **Migrations.** After any calls, with any targets, failures and dry runs, the records are the
  prefix of the files that the calls determine; none is ever lost.
- **Circuit breaker.** Every change of mode by what the history says: it trips exactly on a failure
  that completes the threshold or finds it tripped, closes exactly with the success that completes
  the threshold, and rejects exactly while tripped and recently failed.
- **Cypher.** The validator's errors and warnings are exactly the problems of the names and keywords
  in the query, counted one by one; correction is idempotent, leaves no warning and never lowers the
  score.
- **Fusion and cosine.** See the table.

## Assumptions

- Floating-point numbers are exact reals. Clocks are arguments; where an order of times matters
  the statement says so.
- A node handler is a function of its input and parameters whose outcomes are an output, a
  timeout and an exception. The status callback swallows its own errors, so it has no effect.
- The md5 digest of a cache key is injective.
- The Cypher regular expressions are modelled on tokens: complete node and relationship patterns,
  patterns that go on after the colon, words, runs of semicolons, other punctuation.
- The worker runs in Redis mode, alone, with a workflow repository, and its repository and Redis
  calls succeed. Tasks of one process are gone before the next process starts.
- Whether Redis still serves a key at the very instant its time to live ends is a parameter.

Where the code and its own documentation differ, the model follows the code:

- `execute` documents a `ValueError` for a workflow without nodes but returns an ERROR result
  (core/workflow/executor.py:81, core/workflow/executor.py:91-95).
- The cycle error says "cycle involving nodes" but also lists nodes that are only downstream of a
  cycle: `WorkflowGraph.BystanderIsReported` (core/workflow/executor.py:305-308).
- The Redis limiter is described as fixed-window, but EXPIRE is renewed by every request
  (gateway/middleware/rate_limit.py:160, gateway/middleware/rate_limit.py:219-222). The counter is that of a
  fixed window if and only if every request comes within one window of the first arrival of its
  burst: `RedisRateLimit.FixedWindowIff`, with `RedisRateLimit.CounterIsNotFixedWindow` as an input
  where it is not.
- The breaker's HALF_OPEN comment speaks of one test request; any number is let through:
  `CircuitBreaking.TwoTestRequests` (gateway/middleware/circuit_breaker.py:58-59).
- The chunker promises chunks "covering the full document content"; blank parts are dropped:
  `TextChunking.BlankPartIsLost` (rag/documents/chunker.py:38-39, rag/documents/chunker.py:68).

## Model

| member | source | states |
|---|---|---|
| WorkflowGraph.TopologicalSort | core/workflow/executor.py:275-310 | raises exactly when the graph has a directed cycle; the reported nodes are, in node order, exactly those reachable from some cycle; otherwise each node once with every edge's source first, in the order of the queue |
| WorkflowGraph.InitialQueue | core/workflow/executor.py:289-292 | the queue starts with exactly the nodes that have no incoming edge, in node order |
| WorkflowGraph.Relax | core/workflow/executor.py:298-301 | after the inner loop in-degrees count the edges from unplaced nodes, parallel edges apart, exactly the nodes at zero are placed or queued, once, and the queue stands in the order in which they became ready |
| WorkflowGraph.QueueOrderIsUnique | core/workflow/executor.py:289-301 | a graph has one topological order only whose nodes stand in the order in which they became ready, ties by the place of the edge that made them so |
| WorkflowGraph.Unplaced | core/workflow/executor.py:303-308 | when nodes are missing from the order a cycle exists and the comprehension lists exactly its victims |
| WorkflowGraph.PlacedNodesAvoidCycles | core/workflow/executor.py:295-301 | no node reachable from a cycle is ever placed |
| WorkflowGraph.WalkUpstream | core/workflow/executor.py:303-308 | a set in which every node has an upstream node inside contains a cycle upstream of each of its nodes |
| WorkflowGraph.LeftoverIsDownstream | core/workflow/executor.py:303-308 | once the queue is empty, a node is unplaced if and only if it is reachable from a cycle |
| WorkflowGraph.NoCycleWhenAllPlaced | core/workflow/executor.py:303-310 | a complete order exists only for acyclic graphs |
| WorkflowGraph.ReportIsExactIff | core/workflow/executor.py:303-308 | the reported nodes are all on cycles if and only if every edge that leaves a node on a cycle ends on a node on a cycle |
| WorkflowGraph.BystanderIsReported | core/workflow/executor.py:303-308 | with edges a to b, b to a, b to c all three nodes are reported though c is on no cycle |
| WorkflowExecution.BuildNodeMap | core/workflow/executor.py:97-102 | node ids in order of first appearance, each with its last definition |
| WorkflowExecution.BuildAdjacency | core/workflow/executor.py:104-113 | stored edges with an unknown endpoint are ignored; of all others the adjacency lists hold the targets and the in-degrees the number, and the sources come in the order of the first edge that leaves them |
| WorkflowExecution.GatherInputs | core/workflow/executor.py:325-349 | the input is the concatenation over the distinct upstream nodes in adjacency order, or the initial data when there is none |
| WorkflowModel.InputMeans | core/workflow/executor.py:337-349 | in a topological order the gathered input is the dataflow meaning of the node's input |
| WorkflowModel.NextMeans | core/workflow/executor.py:170-201 | running the next node yields its meaning, or shows that it has none |
| WorkflowExecution.RunNode | core/workflow/executor.py:150-241 | one iteration either extends the successful prefix with the node's meaning or stops with the matching error |
| WorkflowExecution.WorkflowExecutor.Cancel | core/workflow/executor.py:59-61 | adds the execution id to the cancellation set |
| WorkflowExecution.WorkflowExecutor.TakeCancellation | core/workflow/executor.py:143-148 | sees a cancellation exactly when it was called by now, consumes only this execution's entry |
| WorkflowExecution.WorkflowExecutor.RunInOrder | core/workflow/executor.py:138-247 | runs a prefix of successes and stops at the first seen cancellation or failing node; cancelled exactly when a cancellation is seen at that check |
| WorkflowExecution.SkipIdle | core/workflow/executor.py:256-261 | exactly the idle nodes become skipped |
| WorkflowExecution.WorkflowExecutor.Execute | core/workflow/executor.py:63-273 | no nodes gives ERROR; a cycle of stored edges is raised, with the nodes it leads to, if and only if there is one; otherwise the run closes in SUCCESS, ERROR or CANCELLED with every recorded value equal to its dataflow meaning, in queue order, and faithful to the stored records |
| WorkflowSource.RunIsFaithful | core/workflow/executor.py:97-211 | over the stored records: every node once, every stored edge's source text before its target text; every input the recorded outputs of exactly the nodes with a stored edge into it, or the initial data; every output or failure what the handler of the stored type makes of that input and the stored parameters of the last record |
| WorkflowSource.OrderRespectsLinks | core/workflow/executor.py:104-113 | a topological order of the kept edges lists every stored node once and has the source of every stored edge between nodes before its target |
| WorkflowSource.UpstreamAreSources | core/workflow/executor.py:336-349 | the upstream nodes of a node are exactly those that a stored edge leads from, each once, in the order of the first stored edge that leaves them |
| WorkflowSource.CycleIsReported | core/workflow/executor.py:303-308 | the reported nodes are exactly the stored nodes that stored edges reach from a cycle of stored edges, in the order of their first records |
| WorkflowModel.MeaningIgnoresAvail | core/workflow/executor.py:325-349 | on a graph with a sources-first order a node's meaning depends on its upstream nodes only |
| WorkflowModel.InputsAreOutputs | core/workflow/executor.py:325-349 | the input recorded for every node that ran is the concatenation of the recorded outputs of its upstream nodes, or the initial data |
| WorkflowModel.ClosedStates | core/workflow/executor.py:141-273 | no node is left idle or running, at most one is in error, and the run is SUCCESS exactly when every node is and ERROR exactly when one is |
| WorkflowModel.SuccessIffAllMean | core/workflow/executor.py:138-247 | an uncancelled run succeeds exactly when every node has a dataflow meaning |
| WorkflowModel.OrderIrrelevant | core/workflow/executor.py:138-211 | two uncancelled runs of a workflow agree on the status whatever topological order each used, and on every node result when they succeed |
| WorkflowModel.RunIsDetermined | core/workflow/executor.py:138-247 | two uncancelled runs in the same order have the same result, statuses, inputs, outputs and failure alike |
| ExecutionWorker.StepKeepsInv | core/workflow/execution_worker.py:56-342 | every step keeps: active executions held by an unfinished holder, permits plus tasks constant, queue history in order |
| ExecutionWorker.RunKeepsInv | core/workflow/execution_worker.py:56-342 | the same over every run of events |
| ExecutionWorker.NoExecutionLost | core/workflow/execution_worker.py:124-190 | whenever the worker is up, every execution stored as pending or running is between create and enqueue, queued, popped, or in a task that has not persisted its result |
| ExecutionWorker.RecoveryRequeuesAll | core/workflow/execution_worker.py:303-342 | when recovery ends, every execution it found stale is in the queue, and so is every other active one not about to be enqueued |
| ExecutionWorker.StaleAreActive | core/workflow/execution_worker.py:322-342 | recovery can find a list of executions if and only if it is exactly those stored as pending or running |
| ExecutionWorker.StoredStatusIsHistory | core/workflow/execution_worker.py:222-301 | over every run, the stored status of an execution is what the events say: pending when created, running, error or the result when a task of that id writes it, absent when deleted, the last write winning |
| ExecutionWorker.RunFollowsHistory | core/workflow/execution_worker.py:147-176 | over every run, the queue holds what requests and recoveries pushed, the n-th pop takes the n-th push, and every live task works on the execution popped for it |
| ExecutionWorker.TasksWriteInTurn | core/workflow/execution_worker.py:192-301 | over every run, tasks marked running or without a workflow never outnumber those spawned, nor results those marked running, nor exits the results and errors |
| ExecutionWorker.RestartsAfterCrash | core/workflow/execution_worker.py:56-93 | a worker that is down can come up again with the stored statuses unchanged, pushing exactly the active executions |
| ExecutionWorker.RestartFinishesAll | core/workflow/execution_worker.py:303-319 | after any crash there is a run that leaves no execution pending or running |
| ExecutionWorker.RequestCanFinish | core/workflow/execution_worker.py:124-301 | a request to an idle worker can end with any final status and leaves everything else as it was |
| ExecutionWorker.WorkerCanStop | core/workflow/execution_worker.py:95-122 | a worker can be stopped whatever it runs; all permits come back, and what is stored and queued stays |
| ExecutionWorker.ConcurrencyBounded | core/workflow/execution_worker.py:154-190 | free permits plus live tasks equal max_workers in every reachable state, so tasks never exceed it |
| ExecutionWorker.QueueIsFifo | core/workflow/execution_worker.py:147-164 | what was popped is a prefix of what was pushed and nothing is dropped, across restarts |
| ExecutionWorker.InternalStepsShrinkWork | core/workflow/execution_worker.py:154-301 | each pop, spawn, status write and exit decreases the remaining work |
| ExecutionWorker.WorkIsEnabled | core/workflow/execution_worker.py:154-190 | with at least one permit, a worker that holds work can always take a step |
| ExecutionWorker.EveryScheduleDrains | core/workflow/execution_worker.py:154-301 | any schedule of worker steps is finite and can continue until nothing is queued, popped or running and every execution still active is one whose request has yet to enqueue it |
| TextChunking.FindsFirst | rag/documents/chunker.py:121 | the search returns the first match at or after the start, and nothing only when there is none |
| TextChunking.SplitJoin | rag/documents/chunker.py:66-67 | joining a split with its separator gives the text back |
| TextChunking.SplitCuts | rag/documents/chunker.py:66-67 | for every separator that is not empty, every part ends at the first match from where it begins, and nothing matches in the last |
| TextChunking.SplitIsUnique | rag/documents/chunker.py:66-67 | a text has one such split only |
| TextChunking.PartsAreFree | rag/documents/chunker.py:66-68 | no part contains the separator |
| TextChunking.NonBlank | rag/documents/chunker.py:68 | keeps no blank part, and everything when no part is blank |
| TextChunking.NonBlankConcat | rag/documents/chunker.py:68 | parts are dropped one by one, and the order is kept |
| TextChunking.NonBlankOne | rag/documents/chunker.py:68 | a part is kept exactly when it has a character outside Python's white space |
| TextChunking.SegmentsRoundTrip | rag/documents/chunker.py:64-68 | the kept segments join to a non-empty text if and only if no part of its split is blank |
| TextChunking.MergeSegments | rag/documents/chunker.py:70-94 | the blocks are a grouping of the segments into single or fitting groups, no group could have taken the next segment, and no grouping has fewer groups |
| TextChunking.AheadWhenExtending | rag/documents/chunker.py:84-88 | extending the current group keeps greedy ahead of every other grouping |
| TextChunking.AheadWhenStarting | rag/documents/chunker.py:89-91 | so does starting a new group when the segment does not fit |
| TextChunking.BlocksJoin | rag/documents/chunker.py:70-94 | joining the merged blocks is joining the segments |
| TextChunking.StartIsFirstOccurrence | rag/documents/chunker.py:120-127 | for every text and every chunk: the start is the first occurrence of the block from chunk_overlap before the previous end on, or the previous end when there is none, and for a non-negative overlap the slice is the block exactly when there is one |
| TextChunking.BuildChunks | rag/documents/chunker.py:96-142 | every chunk follows from its predecessors by the overlap and search rules |
| TextChunking.OffsetsExact | rag/documents/chunker.py:120-127 | when the blocks join to the text and the overlap is no less than minus the separator length, every block is found, never after its true position, and its offsets slice the text to it |
| TextChunking.ContentKeepsBlock | rag/documents/chunker.py:114-118 | a chunk's content ends with its block and is the block itself or within chunk_size |
| TextChunking.ContentOverlaps | rag/documents/chunker.py:113-140 | a content is its block, after the last chunk_overlap characters of the previous content exactly when there are some and both fit |
| TextChunking.BlankPartIsLost | rag/documents/chunker.py:64-68 | a text with two adjacent separators has a blank part, and its kept segments join to another text |
| TextChunking.MergedBlockIsNotFound | rag/documents/chunker.py:120-124 | the merged block of that text does not occur in it and its fallback offsets slice the text to something else |
| TextChunking.ChunkText | rag/documents/chunker.py:43-58 | the parts are the text cut at every separator and free of it; the blocks are the fewest groups of the parts that are not blank, none of several parts above chunk_size and none with room for the next part; every chunk has its content and place; the blocks join to the text if and only if no part is blank, and then every chunk's slice is its block; an empty separator raises |
| RateLimitReference.WindowBound | gateway/middleware/rate_limit.py:100-124 | no interval (x - w, x] holds more than `limit` accepted requests of a key, for every run |
| RateLimitReference.AdmittedIff | gateway/middleware/rate_limit.py:103-119 | the reference admits a request if and only if fewer than `limit` admitted requests of its key came after the start of its window |
| InMemoryRateLimit.InMemoryRateLimitBackend.CheckRateLimit | gateway/middleware/rate_limit.py:84-124 | while the window start only moves forward, decision and remaining equal those of a reference that never prunes or evicts |
| InMemoryRateLimit.InMemoryRateLimitBackend.PruneAndRecord | gateway/middleware/rate_limit.py:106-124 | prunes the key's list, admits while fewer than `limit` remain, appends exactly the admitted time |
| InMemoryRateLimit.InMemoryRateLimitBackend.MaybeCleanup | gateway/middleware/rate_limit.py:126-147 | once a minute drops exactly the keys whose window is empty |
| InMemoryRateLimit.CleanupKeeps | gateway/middleware/rate_limit.py:138-145 | cleanup loses nothing a later window can see |
| InMemoryRateLimit.RecordKeeps | gateway/middleware/rate_limit.py:106-119 | pruning and appending keep the lists indistinguishable from the full log |
| RedisRateLimit.RedisRateLimitBackend.CheckRateLimit | gateway/middleware/rate_limit.py:213-231 | accepts exactly while the arrivals since the last pause of a whole window are within the limit; a window that truncates to zero raises; the reset time is the next multiple of the window |
| RedisRateLimit.RedisRateLimitBackend.Increment | gateway/middleware/rate_limit.py:219-222 | INCR on a live or expired key, then a renewed time to live |
| RedisRateLimit.PauseOfOneWindow | gateway/middleware/rate_limit.py:219-222 | a pause of exactly one window restarts the counter unless the server still serves the key at that instant |
| RedisRateLimit.CounterIsStricter | gateway/middleware/rate_limit.py:213-231 | on the same arrivals with a fixed integer window, every request the counter accepts is accepted by the sliding-window log |
| RedisRateLimit.CounterWindowBound | gateway/middleware/rate_limit.py:213-231 | the counter obeys the same window bound |
| RedisRateLimit.BackendsAgreeIff | gateway/middleware/rate_limit.py:213-231 | for one limit and one integer window, counter and log take the same decision on every request of a client if and only if the limit is below one or every request beyond the limit of its burst comes less than a window after the first arrival of the burst |
| RedisRateLimit.NextAgreesIffTimely | gateway/middleware/rate_limit.py:219-225 | a request that meets that condition is decided alike whatever came before, and after decisions that agree only such a request is |
| RedisRateLimit.SteadyClientIsNeverForgiven | gateway/middleware/rate_limit.py:219-225 | the counter of a client is the number of all its requests so far if and only if none of them finds it expired |
| RedisRateLimit.CounterExceedsFixed | gateway/middleware/rate_limit.py:219-222 | the counter is never below that of a window whose expiry only its first request sets, and its bursts begin no later |
| RedisRateLimit.FixedWindowIff | gateway/middleware/rate_limit.py:219-222 | the two counters agree after every request of a client if and only if every such request comes within one window of the first arrival of its burst |
| RedisRateLimit.CounterIsNotFixedWindow | gateway/middleware/rate_limit.py:219-222 | with window 2 and arrivals at 0, 1.5 and 3 the counter is three where a fixed window counts one |
| RedisRateLimit.CounterIsNotTheLog | gateway/middleware/rate_limit.py:219-225 | a concrete run in which the log accepts and the counter rejects |
| ResponseCaching.KeysDiffer | gateway/middleware/cache.py:33-35 | requests with '?'-free paths share a key only when they are equal |
| ResponseCaching.KeysCollide | gateway/middleware/cache.py:33-35 | with a '?' in the path two different requests share a key |
| ResponseCaching.CollidesIff | gateway/middleware/cache.py:33-35 | a request shares its key with a different '?'-free request if and only if its path has a '?' and something follows it, in the path or as a query |
| ResponseCaching.LookupIsFresh | gateway/middleware/cache.py:37-46 | the entry under a request's key, unless expired, is exactly what the history of puts, invalidations, evictions and expiries says is kept and fresh; when there is none, the history says why |
| ResponseCaching.KeptIffLatest | gateway/middleware/cache.py:37-107 | a response is kept if and only if it was put for the request and no later put, covering invalidation, eviction or expiry concerns the request |
| ResponseCaching.ResponseCache.Get | gateway/middleware/cache.py:37-46 | a hit is exactly the latest put that nothing touched since, if no older than ttl; a miss means that nothing is stored, or that it was invalidated, evicted or expired; an expired entry is removed |
| ResponseCaching.ResponseCache.Put | gateway/middleware/cache.py:48-70 | stores only successful responses, a known key keeping its place; evicts the first entry of least creation time exactly when full and the key is new; raises when there is nothing to evict; keeps coherence, completeness, partition and capacity |
| ResponseCaching.ResponseCache.OldestKey | gateway/middleware/cache.py:57 | the first key, in insertion order, of least creation time |
| ResponseCaching.ResponseCache.RemoveFromIndex | gateway/middleware/cache.py:72-80 | the key is in no class and no class is left empty because of it |
| ResponseCaching.ResponseCache.Invalidate | gateway/middleware/cache.py:82-103 | removes everything, or exactly the entries whose path begins with the prefix, and returns exactly the number removed |
| ResponseCaching.ResponseCache.CleanupExpired | gateway/middleware/cache.py:109-115 | removes exactly the expired entries, in insertion order, and counts them |
| ResponseCaching.StoreIsSound | gateway/middleware/cache.py:61-70 | inserting keeps what is cached current, everything that should be kept cached, the partition by path and the capacity |
| ResponseCaching.RemoveIsSound | gateway/middleware/cache.py:43-44 | so does evicting a key or dropping an expired one |
| ResponseCaching.InvalidateIsSound | gateway/middleware/cache.py:90-103 | so does prefix invalidation, whose scan of the index finds exactly the covered keys |
| CircuitBreaking.ClosedCountsFailures | gateway/middleware/circuit_breaker.py:62-87 | in CLOSED the failure count is the trailing run of failures and below the threshold, for every history |
| CircuitBreaking.ClosedBelowThreshold | gateway/middleware/circuit_breaker.py:49-87 | a breaker that never saw failure_threshold failures in a row is CLOSED and lets the next request pass |
| CircuitBreaking.OpensIff | gateway/middleware/circuit_breaker.py:76-87 | a failure leaves the breaker OPEN if and only if it found it OPEN or HALF_OPEN or completes failure_threshold failures in a row; otherwise CLOSED |
| CircuitBreaking.ProbesIff | gateway/middleware/circuit_breaker.py:40-47 | reading the state changes nothing but an OPEN breaker whose latest failure is recovery_timeout old, which becomes HALF_OPEN |
| CircuitBreaking.ClosesIff | gateway/middleware/circuit_breaker.py:62-74 | a success closes a HALF_OPEN breaker if and only if it completes success_threshold successes since OPEN was left, and changes no other mode |
| CircuitBreaking.ResetCloses | gateway/middleware/circuit_breaker.py:89-93 | a reset closes the breaker whatever came before and forgets every failure |
| CircuitBreaking.HalfOpenCountsSuccesses | gateway/middleware/circuit_breaker.py:40-74 | in HALF_OPEN the success count is the number of successes since OPEN was left, with no failure among them, and too small to close |
| CircuitBreaking.ClosesOnlyAfterSuccesses | gateway/middleware/circuit_breaker.py:40-87 | without a reset, OPEN reaches CLOSED only through HALF_OPEN and exactly success_threshold successes with no failure among them |
| CircuitBreaking.ClosesWithLastSuccess | gateway/middleware/circuit_breaker.py:68-72 | conversely, HALF_OPEN closes with the success that completes the threshold and not before |
| CircuitBreaking.RejectedIffRecentlyFailed | gateway/middleware/circuit_breaker.py:40-60 | a request is rejected exactly when the circuit is tripped and less than recovery_timeout has passed since the latest recorded failure |
| CircuitBreaking.HalfOpenAdmitsAll | gateway/middleware/circuit_breaker.py:55-59 | any number of requests that arrive in HALF_OPEN before an outcome is recorded leave the breaker as it is, so all are let through |
| CircuitBreaking.TwoTestRequests | gateway/middleware/circuit_breaker.py:58-59 | a tripped breaker that finds two consecutive requests in HALF_OPEN |
| CircuitBreaking.CircuitBreaker.State | gateway/middleware/circuit_breaker.py:40-47 | reading the state is an event of the history that the fields reflect |
| CircuitBreaking.CircuitBreaker.AllowRequest | gateway/middleware/circuit_breaker.py:49-60 | rejects exactly when the breaker is tripped and failed recently, and never when it saw too few failures in a row |
| CircuitBreaking.CircuitBreaker.RecordSuccess | gateway/middleware/circuit_breaker.py:62-74 | closes exactly with the success that completes the threshold; the fields remain the outcome of the whole history |
| CircuitBreaking.CircuitBreaker.RecordFailure | gateway/middleware/circuit_breaker.py:76-87 | opens exactly when it was tripped already or the failures in a row reach the threshold; the fields remain the outcome of the whole history |
| CircuitBreaking.CircuitBreaker.ResetAll | gateway/middleware/circuit_breaker.py:89-93 | closes the breaker; the fields remain the outcome of the whole history |
| RoomManagement.RunKeepsRelation | gateway/ws/manager.py:56-214 | under any interleaving with fresh ids: member of a room exactly when the room is in the tuple, members live, no empty room, no repeated room |
| RoomManagement.EffectOf | gateway/ws/manager.py:56-214 | after any operation everybody is connected and in rooms as before, except as the operation says |
| RoomManagement.RecordAfter | gateway/ws/manager.py:56-214 | a live connection keeps the socket and user of its connect; a join appends the room to its tuple once, a leave takes it out, and nothing else changes it |
| RoomManagement.OrderAfter | gateway/ws/manager.py:75-94 | live connections stay in the order in which they were made |
| RoomManagement.ConnectKeepsIff | gateway/ws/manager.py:75-79 | connect keeps the relation if and only if the id is in no room already |
| RoomManagement.ConnectionManager.Connect | gateway/ws/manager.py:56-85 | registers the connection with an empty tuple and touches no room; a known id keeps its place in the order |
| RoomManagement.ConnectionManager.Disconnect | gateway/ws/manager.py:87-106 | removes the connection everywhere and every room it leaves empty; unknown ids are ignored |
| RoomManagement.ConnectionManager.JoinRoom | gateway/ws/manager.py:156-185 | adds to the room and, once, to the tuple; unknown ids are ignored |
| RoomManagement.ConnectionManager.LeaveRoom | gateway/ws/manager.py:187-214 | removes from the room and from the tuple and drops an empty room |
| RoomManagement.NewIdsAreFresh | gateway/ws/manager.py:56-85 | when every id that a run connects is new and connected once, no id is reused while it is in a room |
| RoomManagement.BroadcastKeepsRelation | gateway/ws/manager.py:265-287 | a broadcast during which others connect new ids only, and join, leave and disconnect as they like, keeps the room relation |
| RoomManagement.QuietBroadcast | gateway/ws/manager.py:265-287 | without interference a broadcast leaves everybody but the dead as they were and drops exactly the rooms left empty |
| RoomManagement.DeadAreUnreachable | gateway/ws/manager.py:271-281 | the dead are exactly the targets that cannot be reached |
| RoomManagement.DeadInConcat | gateway/ws/manager.py:271-281 | the dead come in the order of the targets |
| RoomManagement.ConnectionManager.SendToAll | gateway/ws/manager.py:265-287 | every target is served or dead; the dead are the unreachable ones in the order of the targets; the final state is that of the exact interleaving: what others do before each send, then before each disconnection; the relation survives new ids, and without interference exactly the dead are gone |
| RoomManagement.ConnectionManager.BroadcastToRoom | gateway/ws/manager.py:289-333 | the same for the members at the snapshot, in the order of connection: sent plus dead are all of them |
| RoomManagement.ConnectionManager.PingAll | gateway/ws/manager.py:125-150 | the same for all connections, in order, returning the number of dead ones |
| RankFusion.ReciprocalRankFusion | rag/engines/orchestrator.py:140-174 | for every k: raises exactly when some rank makes the denominator zero; otherwise as many distinct chunks as the slice of all ids listed has, in descending order of their exact score, ties by first occurrence, each in its best version and with its score rounded to six digits, nothing omitted outscores anything kept |
| RankFusion.Contribution | rag/engines/orchestrator.py:155-159 | every occurrence of an id adds exactly one over k + rank + 1 to its score, an occurrence of another nothing |
| RankFusion.ReportDescends | rag/engines/orchestrator.py:164-174 | the reported, rounded scores never increase down the list |
| RankFusion.AddList | rag/engines/orchestrator.py:155-162 | after each list the scores are the exact sums and the kept version is the highest-scored, first on ties; stops exactly when the denominator becomes zero |
| RankFusion.SortByScore | rag/engines/orchestrator.py:164-165 | a stable descending sort of the same ids |
| RankFusion.Dominance | rag/engines/orchestrator.py:148-159 | for duplicate-free lists and k at least -1, a chunk ahead of another wherever the other occurs scores strictly more |
| RankFusion.DominanceIff | rag/engines/orchestrator.py:148-159 | that holds of all lists that can be scored if and only if k is at least -1; below, a chunk listed alone falls behind one that is not listed |
| RankFusion.DominatorComesFirst | rag/engines/orchestrator.py:140-174 | in the output such a chunk is always present and earlier |
| CosineSimilarity.CauchySchwarz | rag/engines/retriever.py:225-232 | dot squared is at most the product of the squared norms, with equality exactly for proportional vectors |
| CosineSimilarity.SumOfProducts | rag/engines/retriever.py:225-227 | the summation loop computes the product |
| CosineSimilarity.Cosine | rag/engines/retriever.py:203-232 | in [-1, 1] for all vectors; zero for unequal, empty or null ones; times the two magnitudes it is the dot product; of absolute value one exactly for proportional vectors that are not null |
| Migrations.VersionOrder | infra/migrations/runner.py:96-110 | string order of versions is the numeric order |
| Migrations.VersionReads | infra/migrations/runner.py:96-110 | a version is a V and the three decimal digits of its number |
| Migrations.PendingIsStretch | infra/migrations/runner.py:192-195 | from a recorded prefix, what is pending for any target is one contiguous stretch |
| Migrations.MigrationRunner.Apply | infra/migrations/runner.py:112-165 | a migration is recorded once or not at all; a dry run records nothing |
| Migrations.FindMismatch | infra/migrations/runner.py:201-210 | finds the first file whose recorded checksum differs, or shows that none does |
| Migrations.MigrationRunner.ApplyAll | infra/migrations/runner.py:212-217 | records the pending migrations in order up to the first failure, and fails at none before it |
| Migrations.MigrationRunner.RunPending | infra/migrations/runner.py:167-217 | whatever the target and the failures, the recorded migrations stay a prefix of the sorted files; success records exactly those up to the target; a mismatch is raised exactly when something is pending and some recorded checksum differs, never from a prefix; a dry run records nothing and counts the files up to the target |
| Migrations.TargetIsNumeric | infra/migrations/runner.py:194-195 | a version as target reaches exactly the files numbered up to it |
| Migrations.NoTargetReachesAll | infra/migrations/runner.py:194-195 | without a target, or with an empty one, every file is reached |
| Migrations.RerunAppliesNothing | infra/migrations/runner.py:189-199 | after a full success everything is recorded and a rerun applies nothing |
| Migrations.RunAll | infra/migrations/runner.py:167-217 | after any sequence of calls the records are a prefix of the files, as long as the targets and first failures of the calls determine |
| Migrations.CallsOnlyAdd | infra/migrations/runner.py:167-217 | no sequence of calls loses a record, and a last call without target or failure leaves every file recorded |
| Cypher.FixLabelCase | core/kg/cypher_corrector.py:159-188 | every label that some valid label folds like becomes the canonical one, every other label and token stays; the report is, in order, one entry per changed token with both spellings |
| Cypher.FixRelTypeCase | core/kg/cypher_corrector.py:190-220 | the same for relationship types |
| Cypher.AddReturnClause | core/kg/cypher_corrector.py:222-254 | when MATCH occurs and RETURN does not, the query without a final run of semicolons returns its first alias, or * when it has none; otherwise it stays |
| Cypher.Correct | core/kg/cypher_corrector.py:111-153 | the three rules in order; the report is the changes of each rule in turn; modified exactly when some correction was applied |
| Cypher.CorrectIsIdempotent | core/kg/cypher_corrector.py:111-153 | correcting twice is correcting once |
| Cypher.CheckLabels | core/kg/cypher_validator.py:286-321 | a label is among the errors if and only if the query uses it, it is not "Node" and no valid label folds like it; among the warnings if and only if it is not valid but one does, which is named |
| Cypher.CheckRelationships | core/kg/cypher_validator.py:323-356 | the same for relationship types, none of which is skipped |
| Cypher.Validate | core/kg/cypher_validator.py:157-216 | the errors and warnings are, in the order of the checks, exactly the problems that the query has: one error for every bad name and for a missing MATCH or RETURN, one warning for every misspelt name; the score follows from their numbers; valid exactly without errors |
| Cypher.ReportsFind | core/kg/cypher_validator.py:267-356 | an error or warning about a name is reported if and only if the query uses the name and it is unknown or misspelt; a missing keyword if and only if no word of the query is it |
| Cypher.ReportsCounted | core/kg/cypher_validator.py:286-356 | as many errors as patterns with a bad name and missing keywords, as many warnings as patterns with a misspelt name |
| Cypher.Tenths | core/kg/cypher_validator.py:472-492 | a score between 0 and 10 tenths, at least one tenth without errors |
| Cypher.ScoreFalls | core/kg/cypher_validator.py:472-492 | a query without problems scores ten; every error costs three and every warning one, down to zero, or to one without errors |
| Cypher.NameProblemsAfterCorrection | core/kg/cypher_corrector.py:159-220 | the corrected query has no wrong-case warning and the same unknown-name errors |
| Cypher.CorrectionHelps | core/kg/cypher_validator.py:131-151 | no warning, no missing RETURN when MATCH is present, no more errors, and a score never lower |

## Left out

- ExecutionWorker.StepKeepsInv: the worker is a step relation over values rather than an object, because its properties are about interleavings; `_active_tasks` and `active_count`, which duplicates make inexact, and the in-process mode without Redis are not modelled.
- Re-enqueued payloads: recovery drops `initial_data`, so only the execution id travels through the queue.
- Cancellation of the executor's own coroutine, start and finish times, durations and message texts of results.
- Chunk ids and document ids of chunks; validation of the chunking configuration, since the results hold for every configuration.
- The Redis limiter's fallback to the in-memory backend, the rate-limit middleware, its headers and excluded paths.
- Reading migration directories, parsing file names and statements, sorting the files and the `status` and `validate` reports; files with equal version numbers.
- Validator checks that need an ontology (properties, directions), dangerous-query patterns, and white space inside queries.
- Freshness of cached responses against the upstream service: the gateway invalidates before it forwards a change.
- BM25 scoring and vector stores, which hand their rankings to the fusion modelled here; schedulers, webhooks, authentication, the agent runtime, parsers, the user interface and configuration, which mostly pass calls on to services outside the repository.
