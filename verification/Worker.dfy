/**
 `ExecutionWorker` of core/workflow/execution_worker.py, as a step relation.

 Every event is one stretch of code between two awaits. The repository and the Redis
 list survive a crash; the popped item, the live tasks, the semaphore and the API calls
 that sit between `create` and `enqueue` do not. Repository and Redis calls succeed,
 a workflow repository is configured and there is one worker process.
 */
module ExecutionWorker {
  import opened Wrappers
  import opened Sequences

  datatype ExecId = ExecId(text: string)

  datatype Status = Pending | Running | Success | Error | Cancelled {
    /** The statuses that `_get_stale_executions` selects. */
    predicate Active() {
      Pending? || Running?
    }
  }

  /** Where a task is inside `_execute_task`. */
  datatype Stage = Loading | Executing | Persisted

  datatype Task = Task(id: ExecId, stage: Stage)

  datatype Phase =
    | Down
    | Starting
    | Recovering(stale: seq<ExecId>, next: nat)
    | Up
    | Stopping

  datatype State = State(
    repo: map<ExecId, Status>, queue: seq<ExecId>,
    phase: Phase, creating: multiset<ExecId>, popped: Option<ExecId>, tasks: seq<Task>, permits: nat,
    pushed: seq<ExecId>, taken: seq<ExecId>)
  {
    function Update(id: ExecId, status: Status): State {
      this.(repo := if id in repo then repo[id := status] else repo)
    }

    /** LPUSH. `pushed` is the history of all pushes. */
    function Push(id: ExecId): State {
      this.(queue := [id] + queue, pushed := pushed + [id])
    }

    function WithoutTask(i: nat): State
      requires i < |tasks|
    {
      this.(tasks := tasks[..i] + tasks[i + 1..], permits := permits + 1)
    }
  }

  datatype Event =
    | Create(id: ExecId)
    | Enqueue(id: ExecId)
    | Delete(id: ExecId)
    | Start
    | ReadStale(stale: seq<ExecId>)
    | Requeue
    | EndRecovery
    | Pop
    | Spawn
    | MarkRunning(task: nat)
    | WorkflowMissing(task: nat)
    | Persist(task: nat, status: Status)
    | Exit(task: nat)
    | Stop
    | CancelTask(task: nat)
    | Crash
  {
    /** Steps the worker takes on its own once it is up. */
    predicate Internal() {
      Pop? || Spawn? || MarkRunning? || WorkflowMissing? || Persist? || Exit?
    }
  }

  const INIT := State(map[], [], Down, multiset{}, None, [], 0, [], [])

  predicate AtStage(s: State, i: nat, stage: Stage) {
    i < |s.tasks| && s.tasks[i].stage == stage
  }

  /** What `_get_stale_executions` may return: the active executions, in any order. */
  predicate IsStaleList(repo: map<ExecId, Status>, stale: seq<ExecId>) {
    && (forall id :: id in stale ==> id in repo && repo[id].Active())
    && (forall id :: id in repo && repo[id].Active() ==> id in stale)
  }

  /** The state after an event, or None when the event cannot happen in `s`. */
  function Step(max: nat, s: State, e: Event): Option<State> {
    match e
    case Create(id) =>
      if s.phase.Down? || id in s.repo then None
      else Some(s.(repo := s.repo[id := Pending], creating := s.creating + multiset{id}))
    case Enqueue(id) =>
      if s.phase.Down? || id !in s.creating then None
      else Some(s.(creating := s.creating - multiset{id}).Push(id))
    case Delete(id) =>
      Some(s.(repo := map x | x in s.repo && x != id :: s.repo[x]))
    case Start =>
      if !s.phase.Down? then None else Some(s.(phase := Starting, permits := max))
    case ReadStale(stale) =>
      if !s.phase.Starting? || !IsStaleList(s.repo, stale) then None
      else Some(s.(phase := Recovering(stale, 0)))
    case Requeue =>
      if !s.phase.Recovering? || s.phase.next >= |s.phase.stale| then None
      else Some(s.(phase := s.phase.(next := s.phase.next + 1)).Push(s.phase.stale[s.phase.next]))
    case EndRecovery =>
      if !s.phase.Recovering? || s.phase.next < |s.phase.stale| then None
      else Some(s.(phase := Up))
    case Pop =>
      if !s.phase.Up? || s.popped.Some? || s.queue == [] then None
      else
        var id := s.queue[|s.queue| - 1];
        Some(s.(queue := s.queue[..|s.queue| - 1], popped := Some(id), taken := s.taken + [id]))
    case Spawn =>
      if !s.phase.Up? || s.popped.None? || s.permits == 0 then None
      else Some(s.(popped := None, permits := s.permits - 1, tasks := s.tasks + [Task(s.popped.value, Loading)]))
    case WorkflowMissing(i) =>
      if !AtStage(s, i, Loading) then None
      else Some(s.(tasks := s.tasks[i := s.tasks[i].(stage := Persisted)]).Update(s.tasks[i].id, Error))
    case MarkRunning(i) =>
      if !AtStage(s, i, Loading) then None
      else Some(s.(tasks := s.tasks[i := s.tasks[i].(stage := Executing)]).Update(s.tasks[i].id, Running))
    case Persist(i, status) =>
      if !AtStage(s, i, Executing) || status.Active() then None
      else Some(s.(tasks := s.tasks[i := s.tasks[i].(stage := Persisted)]).Update(s.tasks[i].id, status))
    case Exit(i) =>
      if !AtStage(s, i, Persisted) then None else Some(s.WithoutTask(i))
    case Stop =>
      if !s.phase.Up? then None else Some(s.(phase := Stopping, popped := None))
    case CancelTask(i) =>
      if !s.phase.Stopping? || i >= |s.tasks| then None else Some(s.WithoutTask(i))
    case Crash =>
      Some(s.(phase := Down, creating := multiset{}, popped := None, tasks := [], permits := 0))
  }

  function Run(max: nat, s: State, events: seq<Event>): Option<State> {
    if events == [] then Some(s)
    else
      match Run(max, s, events[..|events| - 1])
      case None => None
      case Some(t) => Step(max, t, events[|events| - 1])
  }

  // ---------------------------------------------------------------------------
  // The invariant
  // ---------------------------------------------------------------------------

  ghost predicate InUnfinishedTask(s: State, id: ExecId) {
    Task(id, Loading) in s.tasks || Task(id, Executing) in s.tasks
  }

  /** Somebody who has not finished with `id` still holds it. */
  ghost predicate Held(s: State, id: ExecId) {
    || id in s.creating
    || id in s.queue
    || s.popped == Some(id)
    || InUnfinishedTask(s, id)
    || (s.phase.Recovering? && id in s.phase.stale[Min(s.phase.next, |s.phase.stale|)..])
  }

  ghost predicate NoneLost(s: State) {
    s.phase.Up? || s.phase.Recovering? ==> forall id :: id in s.repo && s.repo[id].Active() ==> Held(s, id)
  }

  /** In a fresh process nothing is popped and nothing runs until recovery has ended. */
  ghost predicate FreshUntilUp(s: State) {
    && (s.phase.Starting? || s.phase.Recovering? ==> s.popped.None? && s.tasks == [])
    && (s.phase.Stopping? ==> s.popped.None?)
    && (s.phase.Down? ==> s.popped.None? && s.tasks == [] && s.creating == multiset{})
    && (s.phase.Recovering? ==>
          && s.phase.next <= |s.phase.stale|
          && forall i :: 0 <= i < s.phase.next ==> s.phase.stale[i] in s.queue)
  }

  ghost predicate PermitsConserved(max: nat, s: State) {
    !s.phase.Down? ==> s.permits + |s.tasks| == max
  }

  ghost predicate FirstInFirstOut(s: State) {
    s.pushed == s.taken + Reverse(s.queue)
  }

  ghost function Reverse(q: seq<ExecId>): seq<ExecId> {
    seq(|q|, i requires 0 <= i < |q| => q[|q| - 1 - i])
  }

  ghost predicate Inv(max: nat, s: State) {
    NoneLost(s) && FreshUntilUp(s) && PermitsConserved(max, s) && FirstInFirstOut(s)
  }

  /** Moving an unfinished task keeps every other execution where it was. */
  lemma TaskMoves(s: State, t: State, i: nat, id: ExecId)
    requires i < |s.tasks| && InUnfinishedTask(s, id)
    requires |t.tasks| == |s.tasks| && forall j :: 0 <= j < |s.tasks| && j != i ==> t.tasks[j] == s.tasks[j]
    ensures id == s.tasks[i].id || InUnfinishedTask(t, id)
  {
  }

  lemma TaskStepKeepsHeld(max: nat, s: State, e: Event)
    requires NoneLost(s) && (e.MarkRunning? || e.WorkflowMissing? || e.Persist?) && Step(max, s, e).Some?
    ensures NoneLost(Step(max, s, e).value)
  {
    var t := Step(max, s, e).value;
    var i := e.task;
    if t.phase.Up? || t.phase.Recovering? {
      forall id | id in t.repo && t.repo[id].Active() ensures Held(t, id) {
        if id == s.tasks[i].id {
          assert e.MarkRunning?;
          assert t.tasks[i] == Task(id, Executing);
        } else {
          assert Held(s, id);
          if InUnfinishedTask(s, id) {
            TaskMoves(s, t, i, id);
          }
        }
      }
    }
  }

  lemma ExitKeepsHeld(max: nat, s: State, i: nat)
    requires NoneLost(s) && AtStage(s, i, Persisted)
    ensures NoneLost(s.WithoutTask(i))
  {
  }

  lemma PushKeepsHeld(max: nat, s: State, e: Event, id: ExecId)
    requires Inv(max, s) && Held(s, id) && (e.Enqueue? || e.Requeue?) && Step(max, s, e).Some?
    ensures Held(Step(max, s, e).value, id)
  {
  }

  lemma PopKeepsHeld(max: nat, s: State, id: ExecId)
    requires Held(s, id) && Step(max, s, Pop).Some?
    ensures Held(Step(max, s, Pop).value, id)
  {
  }

  lemma SpawnKeepsHeld(max: nat, s: State, id: ExecId)
    requires Held(s, id) && Step(max, s, Spawn).Some?
    ensures Held(Step(max, s, Spawn).value, id)
  {
  }

  lemma ReadStaleHolds(max: nat, s: State, stale: seq<ExecId>)
    requires Step(max, s, ReadStale(stale)).Some?
    ensures NoneLost(Step(max, s, ReadStale(stale)).value)
  {
  }

  lemma QueueStepKeepsHeld(max: nat, s: State, e: Event)
    requires Inv(max, s) && !(e.MarkRunning? || e.WorkflowMissing? || e.Persist? || e.Exit?) && Step(max, s, e).Some?
    ensures NoneLost(Step(max, s, e).value)
  {
    var t := Step(max, s, e).value;
    if e.ReadStale? {
      ReadStaleHolds(max, s, e.stale);
    } else if t.phase.Up? || t.phase.Recovering? {
      forall id | id in t.repo && t.repo[id].Active() ensures Held(t, id) {
        if e.Create? && e.id == id {
          assert id in t.creating;
        } else {
          assert Held(s, id);
          if e.Enqueue? || e.Requeue? {
            PushKeepsHeld(max, s, e, id);
          } else if e.Pop? {
            PopKeepsHeld(max, s, id);
          } else if e.Spawn? {
            SpawnKeepsHeld(max, s, id);
          }
        }
      }
    }
  }

  lemma StepKeepsRest(max: nat, s: State, e: Event)
    requires Inv(max, s) && Step(max, s, e).Some?
    ensures
      var t := Step(max, s, e).value;
      FreshUntilUp(t) && PermitsConserved(max, t)
  {
  }

  lemma StepKeepsOrder(max: nat, s: State, e: Event)
    requires FirstInFirstOut(s) && Step(max, s, e).Some?
    ensures FirstInFirstOut(Step(max, s, e).value)
  {
  }

  lemma StepKeepsInv(max: nat, s: State, e: Event)
    requires Inv(max, s) && Step(max, s, e).Some?
    ensures Inv(max, Step(max, s, e).value)
  {
    if e.MarkRunning? || e.WorkflowMissing? || e.Persist? {
      TaskStepKeepsHeld(max, s, e);
    } else if e.Exit? {
      ExitKeepsHeld(max, s, e.task);
    } else {
      QueueStepKeepsHeld(max, s, e);
    }
    StepKeepsRest(max, s, e);
    StepKeepsOrder(max, s, e);
  }

  lemma {:induction false} RunKeepsInv(max: nat, s: State, events: seq<Event>)
    requires Inv(max, s) && Run(max, s, events).Some?
    ensures Inv(max, Run(max, s, events).value)
  {
    if events != [] {
      var front := events[..|events| - 1];
      RunKeepsInv(max, s, front);
      StepKeepsInv(max, Run(max, s, front).value, events[|events| - 1]);
    }
  }

  // ---------------------------------------------------------------------------
  // The promises
  // ---------------------------------------------------------------------------

  /** No execution is lost, over every interleaving of requests, worker steps, stops and crashes. */
  lemma NoExecutionLost(max: nat, events: seq<Event>, id: ExecId)
    requires Run(max, INIT, events).Some?
    ensures
      var s := Run(max, INIT, events).value;
      s.phase.Up? && id in s.repo && (s.repo[id] == Pending || s.repo[id] == Running) ==>
        || id in s.creating || id in s.queue || s.popped == Some(id)
        || Task(id, Loading) in s.tasks || Task(id, Executing) in s.tasks
  {
    RunKeepsInv(max, INIT, events);
  }

  /** A starting worker finds exactly the executions stored as pending or running, in any order. */
  lemma StaleAreActive(max: nat, s: State, stale: seq<ExecId>)
    requires s.phase.Starting?
    ensures Step(max, s, ReadStale(stale)).Some? <==>
            forall id :: id in stale <==> id in s.repo && (s.repo[id] == Pending || s.repo[id] == Running)
  {
  }

  /** When recovery ends, every execution it found stale is in the queue, and so is every other
      active one that no request is still about to enqueue. */
  lemma RecoveryRequeuesAll(max: nat, events: seq<Event>)
    requires Run(max, INIT, events).Some? && Step(max, Run(max, INIT, events).value, EndRecovery).Some?
    ensures
      var s := Run(max, INIT, events).value;
      && (forall id :: id in s.phase.stale ==> id in s.queue)
      && (forall id :: id in s.repo && (s.repo[id] == Pending || s.repo[id] == Running) ==>
            id in s.queue || id in s.creating)
  {
    RunKeepsInv(max, INIT, events);
  }

  /** Free permits and live tasks always add up, so concurrency never exceeds `max`. */
  lemma ConcurrencyBounded(max: nat, events: seq<Event>)
    requires Run(max, INIT, events).Some?
    ensures
      var s := Run(max, INIT, events).value;
      (!s.phase.Down? ==> s.permits + |s.tasks| == max) && |s.tasks| <= max
  {
    RunKeepsInv(max, INIT, events);
  }

  /** Executions leave the queue in the order in which they entered it, across restarts. */
  lemma QueueIsFifo(max: nat, events: seq<Event>)
    requires Run(max, INIT, events).Some?
    ensures
      var s := Run(max, INIT, events).value;
      s.taken <= s.pushed && |s.pushed| == |s.taken| + |s.queue|
  {
    RunKeepsInv(max, INIT, events);
  }

  // ---------------------------------------------------------------------------
  // What the event history says, with no mention of the worker's state
  // ---------------------------------------------------------------------------

  /** What a recovery that has begun has yet to requeue. */
  ghost function StillStale(events: seq<Event>): seq<ExecId> {
    if events == [] then []
    else
      var before := StillStale(events[..|events| - 1]);
      match events[|events| - 1]
      case ReadStale(stale) => stale
      case Requeue => if before == [] then [] else before[1..]
      case _ => before
  }

  /** Every execution that was put into the queue, by a request or by recovery, in order. */
  ghost function Pushes(events: seq<Event>): seq<ExecId> {
    if events == [] then []
    else
      var front := events[..|events| - 1];
      match events[|events| - 1]
      case Enqueue(id) => Pushes(front) + [id]
      case Requeue => Pushes(front) + if StillStale(front) == [] then [] else [StillStale(front)[0]]
      case _ => Pushes(front)
  }

  ghost function Pops(events: seq<Event>): nat {
    if events == [] then 0
    else Pops(events[..|events| - 1]) + if events[|events| - 1].Pop? then 1 else 0
  }

  /** The n-th pop takes the n-th push. */
  ghost function LatestPop(events: seq<Event>): seq<ExecId> {
    if 0 < Pops(events) <= |Pushes(events)| then [Pushes(events)[Pops(events) - 1]] else []
  }

  ghost function Dropped<T>(s: seq<T>, i: nat): seq<T> {
    if i < |s| then s[..i] + s[i + 1..] else s
  }

  /** The executions of the live tasks: each spawn starts the latest pop. */
  ghost function TaskIds(events: seq<Event>): seq<ExecId> {
    if events == [] then []
    else
      var front := events[..|events| - 1];
      match events[|events| - 1]
      case Spawn => TaskIds(front) + LatestPop(front)
      case Exit(i) => Dropped(TaskIds(front), i)
      case CancelTask(i) => Dropped(TaskIds(front), i)
      case Crash => []
      case _ => TaskIds(front)
  }

  /** The i-th live task works on `id`. */
  ghost predicate WorksOn(events: seq<Event>, i: nat, id: ExecId) {
    i < |TaskIds(events)| && TaskIds(events)[i] == id
  }

  /**
   The stored status of `id`, if it is stored: the last of the writes to it. What is not stored
   cannot be written, and events about other executions do not matter.
   */
  ghost function StatusOf(events: seq<Event>, id: ExecId): Option<Status> {
    if events == [] then None
    else
      var front := events[..|events| - 1];
      var before := StatusOf(front, id);
      match events[|events| - 1]
      case Create(x) => if x == id then Some(Pending) else before
      case Delete(x) => if x == id then None else before
      case MarkRunning(i) => if before.Some? && WorksOn(front, i, id) then Some(Running) else before
      case WorkflowMissing(i) => if before.Some? && WorksOn(front, i, id) then Some(Error) else before
      case Persist(i, status) => if before.Some? && WorksOn(front, i, id) then Some(status) else before
      case _ => before
  }

  ghost function IdsOf(tasks: seq<Task>): seq<ExecId> {
    seq(|tasks|, i requires 0 <= i < |tasks| => tasks[i].id)
  }

  function Lookup(repo: map<ExecId, Status>, id: ExecId): Option<Status> {
    if id in repo then Some(repo[id]) else None
  }

  /** The state's queue, pops and tasks are those of the history. */
  ghost predicate FollowsHistory(s: State, events: seq<Event>) {
    && s.pushed == Pushes(events)
    && |s.taken| == Pops(events) <= |s.pushed|
    && (s.popped.Some? ==> LatestPop(events) == [s.popped.value])
    && IdsOf(s.tasks) == TaskIds(events)
    && (s.phase.Recovering? ==>
          s.phase.next <= |s.phase.stale| && s.phase.stale[s.phase.next..] == StillStale(events))
  }

  lemma HistorySnoc(events: seq<Event>, e: Event)
    ensures (events + [e])[..|events|] == events && (events + [e])[|events + [e]| - 1] == e
  {
  }

  lemma PopFollows(max: nat, s: State, events: seq<Event>)
    requires FollowsHistory(s, events) && FirstInFirstOut(s) && Step(max, s, Pop).Some?
    ensures FollowsHistory(Step(max, s, Pop).value, events + [Pop])
  {
    HistorySnoc(events, Pop);
    var id := s.queue[|s.queue| - 1];
    assert s.pushed[|s.taken|] == Reverse(s.queue)[0] == id;
    assert Pushes(events + [Pop]) == Pushes(events) && TaskIds(events + [Pop]) == TaskIds(events);
  }

  lemma DroppedIds(tasks: seq<Task>, i: nat)
    requires i < |tasks|
    ensures IdsOf(tasks[..i] + tasks[i + 1..]) == Dropped(IdsOf(tasks), i)
  {
  }

  lemma TaskStepFollows(max: nat, s: State, events: seq<Event>, e: Event)
    requires FollowsHistory(s, events) && Step(max, s, e).Some?
    requires e.MarkRunning? || e.WorkflowMissing? || e.Persist? || e.Exit? || e.CancelTask? || e.Spawn?
    ensures FollowsHistory(Step(max, s, e).value, events + [e])
  {
    var t := Step(max, s, e).value;
    HistorySnoc(events, e);
    if e.Spawn? {
      assert IdsOf(t.tasks) == IdsOf(s.tasks) + [s.popped.value];
    } else if e.Exit? || e.CancelTask? {
      DroppedIds(s.tasks, e.task);
    } else {
      assert IdsOf(t.tasks) == IdsOf(s.tasks);
    }
  }

  lemma RecoveryStepFollows(max: nat, s: State, events: seq<Event>, e: Event)
    requires FollowsHistory(s, events) && Step(max, s, e).Some?
    requires e.ReadStale? || e.Requeue? || e.EndRecovery? || e.Start?
    ensures FollowsHistory(Step(max, s, e).value, events + [e])
  {
    HistorySnoc(events, e);
    if e.ReadStale? {
      assert e.stale[0..] == e.stale;
    } else if e.Requeue? {
      assert s.phase.stale[s.phase.next..][0] == s.phase.stale[s.phase.next];
      assert s.phase.stale[s.phase.next..][1..] == s.phase.stale[s.phase.next + 1..];
    }
  }

  lemma OtherStepFollows(max: nat, s: State, events: seq<Event>, e: Event)
    requires FollowsHistory(s, events) && Step(max, s, e).Some?
    requires e.Create? || e.Enqueue? || e.Delete? || e.Stop? || e.Crash?
    ensures FollowsHistory(Step(max, s, e).value, events + [e])
  {
    HistorySnoc(events, e);
  }

  lemma StepFollows(max: nat, s: State, events: seq<Event>, e: Event)
    requires FollowsHistory(s, events) && FirstInFirstOut(s) && Step(max, s, e).Some?
    ensures FollowsHistory(Step(max, s, e).value, events + [e])
  {
    if e.Pop? {
      PopFollows(max, s, events);
    } else if e.Create? || e.Enqueue? || e.Delete? || e.Stop? || e.Crash? {
      OtherStepFollows(max, s, events, e);
    } else if e.ReadStale? || e.Requeue? || e.EndRecovery? || e.Start? {
      RecoveryStepFollows(max, s, events, e);
    } else {
      TaskStepFollows(max, s, events, e);
    }
  }

  lemma StepStores(max: nat, s: State, events: seq<Event>, e: Event, id: ExecId)
    requires FollowsHistory(s, events) && Lookup(s.repo, id) == StatusOf(events, id) && Step(max, s, e).Some?
    ensures Lookup(Step(max, s, e).value.repo, id) == StatusOf(events + [e], id)
  {
    HistorySnoc(events, e);
    if e.MarkRunning? || e.WorkflowMissing? || e.Persist? {
      assert IdsOf(s.tasks)[e.task] == s.tasks[e.task].id;
      assert WorksOn(events, e.task, id) <==> s.tasks[e.task].id == id;
    }
  }

  /** The queue is a queue of what the history pushed, and a task works on what the history popped for it. */
  lemma {:induction false} RunFollowsHistory(max: nat, events: seq<Event>)
    requires Run(max, INIT, events).Some?
    ensures FollowsHistory(Run(max, INIT, events).value, events)
  {
    if events != [] {
      var front, e := events[..|events| - 1], events[|events| - 1];
      RunFollowsHistory(max, front);
      RunKeepsInv(max, INIT, front);
      StepFollows(max, Run(max, INIT, front).value, front, e);
      assert events == front + [e];
    }
  }

  /** The stored status of every execution is what the history of events says. */
  lemma {:induction false} StoredStatusIsHistory(max: nat, events: seq<Event>, id: ExecId)
    requires Run(max, INIT, events).Some?
    ensures Lookup(Run(max, INIT, events).value.repo, id) == StatusOf(events, id)
  {
    if events != [] {
      var front, e := events[..|events| - 1], events[|events| - 1];
      StoredStatusIsHistory(max, front, id);
      RunFollowsHistory(max, front);
      StepStores(max, Run(max, INIT, front).value, front, e, id);
      assert events == front + [e];
    }
  }

  // ---------------------------------------------------------------------------
  // How often a task writes
  // ---------------------------------------------------------------------------

  /** How many events of each kind a history holds. */
  datatype Tally = Tally(spawned: nat, marked: nat, missing: nat, persisted: nat, exited: nat)

  ghost function TallyOf(events: seq<Event>): Tally {
    if events == [] then Tally(0, 0, 0, 0, 0)
    else
      var c := TallyOf(events[..|events| - 1]);
      match events[|events| - 1]
      case Spawn => c.(spawned := c.spawned + 1)
      case MarkRunning(_) => c.(marked := c.marked + 1)
      case WorkflowMissing(_) => c.(missing := c.missing + 1)
      case Persist(_, _) => c.(persisted := c.persisted + 1)
      case Exit(_) => c.(exited := c.exited + 1)
      case _ => c
  }

  ghost function InStage(tasks: seq<Task>, stage: Stage): nat {
    if tasks == [] then 0
    else InStage(tasks[..|tasks| - 1], stage) + if tasks[|tasks| - 1].stage == stage then 1 else 0
  }

  /** Every task is marked running or fails to find its workflow at most once, then stores at most one result, then exits. */
  ghost predicate WritesInTurn(tasks: seq<Task>, c: Tally) {
    && c.marked + c.missing + InStage(tasks, Loading) <= c.spawned
    && c.persisted + InStage(tasks, Executing) <= c.marked
    && c.exited + InStage(tasks, Persisted) <= c.missing + c.persisted
  }

  lemma {:induction false} InStageSplits(a: seq<Task>, b: seq<Task>, stage: Stage)
    ensures InStage(a + b, stage) == InStage(a, stage) + InStage(b, stage)
  {
    if b == [] {
      assert a + b == a;
    } else {
      InStageSplits(a, b[..|b| - 1], stage);
      assert (a + b)[..|a + b| - 1] == a + b[..|b| - 1];
    }
  }

  lemma InStageOne(t: Task, stage: Stage)
    ensures InStage([t], stage) == if t.stage == stage then 1 else 0
  {
    assert [t][..0] == [];
  }

  lemma InStageAt(tasks: seq<Task>, i: nat, stage: Stage)
    requires i < |tasks|
    ensures InStage(tasks, stage) ==
            InStage(tasks[..i], stage) + (if tasks[i].stage == stage then 1 else 0) + InStage(tasks[i + 1..], stage)
  {
    assert tasks == (tasks[..i] + [tasks[i]]) + tasks[i + 1..];
    InStageSplits(tasks[..i] + [tasks[i]], tasks[i + 1..], stage);
    InStageSplits(tasks[..i], [tasks[i]], stage);
    InStageOne(tasks[i], stage);
  }

  lemma StageMoves(tasks: seq<Task>, i: nat, next: Task, stage: Stage)
    requires i < |tasks|
    ensures InStage(tasks[i := next], stage) + (if tasks[i].stage == stage then 1 else 0) ==
            InStage(tasks, stage) + if next.stage == stage then 1 else 0
  {
    InStageAt(tasks, i, stage);
    InStageAt(tasks[i := next], i, stage);
    assert tasks[i := next][..i] == tasks[..i] && tasks[i := next][i + 1..] == tasks[i + 1..];
  }

  lemma StageLeaves(tasks: seq<Task>, i: nat, stage: Stage)
    requires i < |tasks|
    ensures InStage(tasks[..i] + tasks[i + 1..], stage) + (if tasks[i].stage == stage then 1 else 0) == InStage(tasks, stage)
  {
    InStageAt(tasks, i, stage);
    InStageSplits(tasks[..i], tasks[i + 1..], stage);
  }

  lemma TallySnoc(events: seq<Event>, e: Event)
    ensures
      var c := TallyOf(events);
      TallyOf(events + [e]) ==
        match e
        case Spawn => c.(spawned := c.spawned + 1)
        case MarkRunning(_) => c.(marked := c.marked + 1)
        case WorkflowMissing(_) => c.(missing := c.missing + 1)
        case Persist(_, _) => c.(persisted := c.persisted + 1)
        case Exit(_) => c.(exited := c.exited + 1)
        case _ => c
  {
    HistorySnoc(events, e);
  }

  lemma StepMovesStage(max: nat, s: State, e: Event, stage: Stage)
    requires Step(max, s, e).Some?
    ensures
      var before, after := InStage(s.tasks, stage), InStage(Step(max, s, e).value.tasks, stage);
      match e
      case Spawn => after == before + if stage == Loading then 1 else 0
      case MarkRunning(_) => after + (if stage == Loading then 1 else 0) == before + if stage == Executing then 1 else 0
      case WorkflowMissing(_) => after + (if stage == Loading then 1 else 0) == before + if stage == Persisted then 1 else 0
      case Persist(_, _) => after + (if stage == Executing then 1 else 0) == before + if stage == Persisted then 1 else 0
      case Exit(_) => after + (if stage == Persisted then 1 else 0) == before
      case _ => after <= before
  {
    var t := Step(max, s, e).value;
    if e.Spawn? {
      InStageSplits(s.tasks, [Task(s.popped.value, Loading)], stage);
      InStageOne(Task(s.popped.value, Loading), stage);
    } else if e.MarkRunning? || e.WorkflowMissing? || e.Persist? {
      StageMoves(s.tasks, e.task, t.tasks[e.task], stage);
    } else if e.Exit? || e.CancelTask? {
      StageLeaves(s.tasks, e.task, stage);
    }
  }

  lemma StepWritesInTurn(max: nat, s: State, events: seq<Event>, e: Event, t: State)
    requires WritesInTurn(s.tasks, TallyOf(events)) && Step(max, s, e) == Some(t)
    ensures WritesInTurn(t.tasks, TallyOf(events + [e]))
  {
    TallySnoc(events, e);
    StepMovesStage(max, s, e, Loading);
    StepMovesStage(max, s, e, Executing);
    StepMovesStage(max, s, e, Persisted);
  }

  /** Over every run, results stored never outnumber the tasks marked running, nor those the tasks spawned. */
  lemma {:induction false} TasksWriteInTurn(max: nat, events: seq<Event>)
    requires Run(max, INIT, events).Some?
    ensures WritesInTurn(Run(max, INIT, events).value.tasks, TallyOf(events))
  {
    if events != [] {
      var front, e := events[..|events| - 1], events[|events| - 1];
      TasksWriteInTurn(max, front);
      StepWritesInTurn(max, Run(max, INIT, front).value, front, e, Run(max, INIT, events).value);
      assert events == front + [e];
    }
  }

  // ---------------------------------------------------------------------------
  // Progress
  // ---------------------------------------------------------------------------

  ghost function TaskWork(tasks: seq<Task>): nat {
    if tasks == [] then 0
    else
      TaskWork(tasks[..|tasks| - 1]) + StageWork(tasks[|tasks| - 1].stage)
  }

  /** How many internal steps the worker can still take. */
  ghost function Work(s: State): nat {
    5 * |s.queue| + (if s.popped.Some? then 4 else 0) + TaskWork(s.tasks)
  }

  lemma {:induction false} TaskWorkSplits(a: seq<Task>, b: seq<Task>)
    ensures TaskWork(a + b) == TaskWork(a) + TaskWork(b)
  {
    if b == [] {
      assert a + b == a;
    } else {
      TaskWorkSplits(a, b[..|b| - 1]);
      assert (a + b)[..|a + b| - 1] == a + b[..|b| - 1];
    }
  }

  lemma TaskWorkAt(tasks: seq<Task>, i: nat)
    requires i < |tasks|
    ensures TaskWork(tasks) == TaskWork(tasks[..i]) + TaskWork([tasks[i]]) + TaskWork(tasks[i + 1..])
  {
    assert tasks == (tasks[..i] + [tasks[i]]) + tasks[i + 1..];
    TaskWorkSplits(tasks[..i] + [tasks[i]], tasks[i + 1..]);
    TaskWorkSplits(tasks[..i], [tasks[i]]);
  }

  ghost function StageWork(stage: Stage): nat {
    match stage
    case Loading => 3
    case Executing => 2
    case Persisted => 1
  }

  lemma TaskAdvances(tasks: seq<Task>, i: nat, next: Task)
    requires i < |tasks|
    ensures TaskWork(tasks[i := next]) + StageWork(tasks[i].stage) == TaskWork(tasks) + StageWork(next.stage)
  {
    var after := tasks[i := next];
    TaskWorkAt(tasks, i);
    TaskWorkAt(after, i);
    assert after[..i] == tasks[..i] && after[i + 1..] == tasks[i + 1..];
    TaskWorkOne(tasks[i]);
    TaskWorkOne(next);
  }

  lemma TaskWorkOne(t: Task)
    ensures TaskWork([t]) == StageWork(t.stage)
  {
    assert [t][..0] == [];
  }

  lemma TaskLeaves(tasks: seq<Task>, i: nat)
    requires i < |tasks|
    ensures TaskWork(tasks[..i] + tasks[i + 1..]) < TaskWork(tasks)
  {
    TaskWorkAt(tasks, i);
    TaskWorkOne(tasks[i]);
    TaskWorkSplits(tasks[..i], tasks[i + 1..]);
  }

  lemma InternalStepsShrinkWork(max: nat, s: State, e: Event)
    requires e.Internal() && Step(max, s, e).Some?
    ensures Work(Step(max, s, e).value) < Work(s)
  {
    if e.Spawn? {
      TaskWorkSplits(s.tasks, [Task(s.popped.value, Loading)]);
      TaskWorkOne(Task(s.popped.value, Loading));
    } else if e.Exit? {
      TaskLeaves(s.tasks, e.task);
    } else if !e.Pop? {
      TaskAdvances(s.tasks, e.task, Step(max, s, e).value.tasks[e.task]);
    }
  }

  /** The worker never gets stuck: while it holds work, one of its own steps is enabled. */
  lemma WorkIsEnabled(max: nat, s: State) returns (e: Event)
    requires max > 0 && s.phase.Up? && PermitsConserved(max, s) && Work(s) > 0
    ensures e.Internal() && Step(max, s, e).Some?
  {
    if s.tasks != [] {
      match s.tasks[0].stage
      case Loading => e := MarkRunning(0);
      case Executing => e := Persist(0, Success);
      case Persisted => e := Exit(0);
    } else if s.popped.Some? {
      e := Spawn;
    } else {
      e := Pop;
    }
  }

  /** Internal steps leave the phase alone, and the worker can take only so many of them. */
  lemma {:induction false} InternalRunsShrinkWork(max: nat, s: State, events: seq<Event>)
    requires Run(max, s, events).Some? && forall e :: e in events ==> e.Internal()
    ensures |events| + Work(Run(max, s, events).value) <= Work(s)
    ensures Run(max, s, events).value.phase == s.phase && Run(max, s, events).value.creating == s.creating
  {
    if events != [] {
      var front, e := events[..|events| - 1], events[|events| - 1];
      InternalRunsShrinkWork(max, s, front);
      assert e in events;
      InternalStepsShrinkWork(max, Run(max, s, front).value, e);
    }
  }

  /**
   Left alone, a worker that is up finishes everything it was handed, whatever the schedule:
   a run of internal steps has at most `Work(s)` steps, can be continued unless nothing is
   queued, popped or running, and then every execution still active is one whose request
   has yet to enqueue it.
   */
  lemma EveryScheduleDrains(max: nat, s: State, events: seq<Event>)
    requires max > 0 && Inv(max, s) && s.phase.Up?
    requires Run(max, s, events).Some? && forall e :: e in events ==> e.Internal()
    ensures |events| <= Work(s)
    ensures
      var t := Run(max, s, events).value;
      || (exists e: Event :: e.Internal() && Step(max, t, e).Some?)
      || (&& t.queue == [] && t.popped.None? && t.tasks == []
          && forall id :: id in t.repo && (t.repo[id] == Pending || t.repo[id] == Running) ==> id in t.creating)
  {
    var t := Run(max, s, events).value;
    InternalRunsShrinkWork(max, s, events);
    RunKeepsInv(max, s, events);
    if Work(t) > 0 {
      var e := WorkIsEnabled(max, t);
    }
  }

  // ---------------------------------------------------------------------------
  // Life after a crash
  // ---------------------------------------------------------------------------

  lemma RunSnoc(max: nat, s: State, events: seq<Event>, e: Event)
    requires Run(max, s, events).Some?
    ensures Run(max, s, events + [e]) == Step(max, Run(max, s, events).value, e)
  {
    HistorySnoc(events, e);
  }

  lemma {:induction false} RunConcat(max: nat, s: State, a: seq<Event>, b: seq<Event>)
    requires Run(max, s, a).Some?
    ensures Run(max, s, a + b) == Run(max, Run(max, s, a).value, b)
  {
    if b == [] {
      assert a + b == a;
    } else {
      RunConcat(max, s, a, b[..|b| - 1]);
      assert (a + b)[..|a + b| - 1] == a + b[..|b| - 1];
    }
  }

  lemma RunOne(max: nat, s: State, e: Event)
    ensures Run(max, s, [e]) == Step(max, s, e)
  {
    assert [e][..0] == [];
  }

  /** One run after another. */
  lemma Chained(max: nat, s: State, a: seq<Event>, t: State, b: seq<Event>, u: State)
    requires Run(max, s, a) == Some(t) && Run(max, t, b) == Some(u)
    ensures Run(max, s, a + b) == Some(u)
  {
    RunConcat(max, s, a, b);
  }

  lemma ListOf(ids: set<ExecId>) returns (list: seq<ExecId>)
    ensures forall id :: id in list <==> id in ids
  {
    list := [];
    var todo := ids;
    while todo != {}
      invariant forall id :: id in list || id in todo <==> id in ids
    {
      var id :| id in todo;
      list := list + [id];
      todo := todo - {id};
    }
  }

  /** `n` steps of a recovery that still has `n` executions to go. */
  lemma RequeueOne(max: nat, s: State) returns (t: State)
    requires s.phase.Recovering? && s.phase.next < |s.phase.stale|
    ensures Run(max, s, [Requeue]) == Some(t)
    ensures t.phase == s.phase.(next := s.phase.next + 1)
    ensures t.pushed == s.pushed + [s.phase.stale[s.phase.next]]
    ensures t.repo == s.repo && t.creating == s.creating && t.tasks == s.tasks && t.popped == s.popped
  {
    RunOne(max, s, Requeue);
    t := Step(max, s, Requeue).value;
  }

  lemma {:induction false} RequeueRest(max: nat, s: State) returns (events: seq<Event>)
    requires s.phase.Recovering? && s.phase.next <= |s.phase.stale|
    ensures Run(max, s, events).Some?
    ensures
      var t := Run(max, s, events).value;
      && t.phase == Recovering(s.phase.stale, |s.phase.stale|)
      && t.pushed == s.pushed + s.phase.stale[s.phase.next..]
      && t.repo == s.repo && t.creating == s.creating && t.tasks == s.tasks && t.popped == s.popped
    decreases |s.phase.stale| - s.phase.next
  {
    if s.phase.next == |s.phase.stale| {
      events := [];
    } else {
      var t := RequeueOne(max, s);
      var rest := RequeueRest(max, t);
      events := [Requeue] + rest;
      Chained(max, s, [Requeue], t, rest, Run(max, t, rest).value);
      assert s.phase.stale[s.phase.next..] == [s.phase.stale[s.phase.next]] + s.phase.stale[s.phase.next + 1..];
    }
  }

  /** A worker that is down can come up again; what it pushes on the way are the active executions and nothing else. */
  lemma RestartsAfterCrash(max: nat, s: State) returns (events: seq<Event>, stale: seq<ExecId>)
    requires Inv(max, s) && s.phase.Down?
    ensures Run(max, s, events).Some?
    ensures forall id :: id in stale <==> id in s.repo && (s.repo[id] == Pending || s.repo[id] == Running)
    ensures
      var t := Run(max, s, events).value;
      t.phase.Up? && t.repo == s.repo && t.creating == multiset{} && t.pushed == s.pushed + stale
  {
    stale := ListOf(set id | id in s.repo && s.repo[id].Active());
    var begin := [Start, ReadStale(stale)];
    assert begin == [] + [Start] + [ReadStale(stale)];
    RunSnoc(max, s, [], Start);
    RunSnoc(max, s, [] + [Start], ReadStale(stale));
    var recovering := Run(max, s, begin).value;
    var middle := RequeueRest(max, recovering);
    RunConcat(max, s, begin, middle);
    RunSnoc(max, s, begin + middle, EndRecovery);
    events := begin + middle + [EndRecovery];
    assert stale[0..] == stale;
  }

  lemma {:induction false} DrainsSomehow(max: nat, s: State) returns (events: seq<Event>)
    requires max > 0 && Inv(max, s) && s.phase.Up?
    ensures Run(max, s, events).Some? && forall e :: e in events ==> e.Internal()
    ensures Work(Run(max, s, events).value) == 0
    decreases Work(s)
  {
    events := [];
    if Work(s) > 0 {
      var e := WorkIsEnabled(max, s);
      InternalStepsShrinkWork(max, s, e);
      StepKeepsInv(max, s, e);
      var t := Step(max, s, e).value;
      var rest := DrainsSomehow(max, t);
      RunOne(max, s, e);
      Chained(max, s, [e], t, rest, Run(max, t, rest).value);
      events := [e] + rest;
    }
  }

  /** Whatever a crash interrupted can still finish: after a restart there is a run that leaves no execution active. */
  lemma RestartFinishesAll(max: nat, s: State) returns (events: seq<Event>)
    requires max > 0 && Inv(max, s) && s.phase.Down?
    ensures Run(max, s, events).Some?
    ensures
      var t := Run(max, s, events).value;
      && t.phase.Up? && t.queue == [] && t.popped.None? && t.tasks == []
      && t.repo.Keys == s.repo.Keys && forall id :: id in t.repo ==> t.repo[id] != Pending && t.repo[id] != Running
  {
    var restart, stale := RestartsAfterCrash(max, s);
    var up := Run(max, s, restart).value;
    RunKeepsInv(max, s, restart);
    var drain := DrainsSomehow(max, up);
    RunConcat(max, s, restart, drain);
    InternalRunsShrinkWork(max, up, drain);
    InternalRunsKeepKeys(max, up, drain);
    RunKeepsInv(max, up, drain);
    DrainedIsEmpty(max, Run(max, up, drain).value);
    events := restart + drain;
  }

  lemma DrainedIsEmpty(max: nat, t: State)
    requires Inv(max, t) && t.phase.Up? && Work(t) == 0
    ensures t.queue == [] && t.popped.None? && t.tasks == []
    ensures forall id :: id in t.repo && t.repo[id].Active() ==> id in t.creating
  {
  }

  lemma {:induction false} InternalRunsKeepKeys(max: nat, s: State, events: seq<Event>)
    requires Run(max, s, events).Some? && forall e :: e in events ==> e.Internal()
    ensures Run(max, s, events).value.repo.Keys == s.repo.Keys
  {
    if events != [] {
      var front, e := events[..|events| - 1], events[|events| - 1];
      InternalRunsKeepKeys(max, s, front);
      assert e in events;
    }
  }

  lemma RunTwo(max: nat, s: State, e: Event, f: Event)
    requires Step(max, s, e).Some?
    ensures Run(max, s, [e, f]) == Step(max, Step(max, s, e).value, f)
  {
    assert [] + [e] == [e] && [e] + [f] == [e, f];
    RunSnoc(max, s, [], e);
    if Step(max, Step(max, s, e).value, f).Some? {
      RunSnoc(max, s, [e], f);
    }
  }

  lemma RequestArrives(max: nat, s: State, id: ExecId) returns (events: seq<Event>, t: State)
    requires s.phase.Up? && s.queue == [] && id !in s.repo
    ensures Run(max, s, events) == Some(t)
    ensures t == s.(repo := s.repo[id := Pending], queue := [id], pushed := s.pushed + [id])
  {
    events := [Create(id), Enqueue(id)];
    RunTwo(max, s, Create(id), Enqueue(id));
    assert s.creating + multiset{id} - multiset{id} == s.creating;
    assert [id] + s.queue == [id];
    t := s.(repo := s.repo[id := Pending], queue := [id], pushed := s.pushed + [id]);
  }

  lemma RequestStarts(max: nat, s: State, id: ExecId) returns (events: seq<Event>, t: State)
    requires s.phase.Up? && s.queue == [id] && s.popped.None? && s.permits > 0
    ensures Run(max, s, events) == Some(t)
    ensures t == s.(queue := [], taken := s.taken + [id], permits := s.permits - 1, tasks := s.tasks + [Task(id, Loading)])
  {
    events := [Pop, Spawn];
    RunTwo(max, s, Pop, Spawn);
    t := Run(max, s, events).value;
  }

  /** The last task runs and ends with `status`. */
  lemma RequestRuns(max: nat, s: State, tasks: seq<Task>, id: ExecId, status: Status) returns (events: seq<Event>, t: State)
    requires s.tasks == tasks + [Task(id, Loading)] && id in s.repo && !status.Active()
    ensures Run(max, s, events) == Some(t)
    ensures t == s.(repo := s.repo[id := status], tasks := tasks + [Task(id, Persisted)])
  {
    var i := |tasks|;
    events := [MarkRunning(i), Persist(i, status)];
    RunTwo(max, s, MarkRunning(i), Persist(i, status));
    assert s.tasks[i := Task(id, Executing)] == tasks + [Task(id, Executing)];
    assert (tasks + [Task(id, Executing)])[i := Task(id, Persisted)] == tasks + [Task(id, Persisted)];
    assert s.repo[id := Running][id := status] == s.repo[id := status];
    t := s.(repo := s.repo[id := status], tasks := tasks + [Task(id, Persisted)]);
  }

  lemma RequestLeaves(max: nat, s: State, tasks: seq<Task>, id: ExecId) returns (events: seq<Event>, t: State)
    requires s.tasks == tasks + [Task(id, Persisted)]
    ensures Run(max, s, events) == Some(t) && t == s.(tasks := tasks, permits := s.permits + 1)
  {
    events := [Exit(|tasks|)];
    RunOne(max, s, Exit(|tasks|));
    assert s.tasks[..|tasks|] + s.tasks[|tasks| + 1..] == tasks;
    t := s.(tasks := tasks, permits := s.permits + 1);
  }

  lemma RequestPasses(max: nat, s: State, id: ExecId, status: Status)
    returns (a: seq<Event>, t: State, b: seq<Event>, u: State, c: seq<Event>, v: State, d: seq<Event>, w: State)
    requires s.phase.Up? && s.queue == [] && s.popped.None? && s.permits > 0
    requires id !in s.repo && !status.Active()
    ensures Run(max, s, a) == Some(t) && Run(max, t, b) == Some(u) && Run(max, u, c) == Some(v) && Run(max, v, d) == Some(w)
    ensures w == s.(repo := w.repo, pushed := s.pushed + [id], taken := s.taken + [id])
    ensures w.repo == s.repo[id := status]
  {
    a, t := RequestArrives(max, s, id);
    b, u := RequestStarts(max, t, id);
    c, v := RequestRuns(max, u, s.tasks, id, status);
    d, w := RequestLeaves(max, v, s.tasks, id);
    assert s.repo[id := Pending][id := status] == s.repo[id := status];
  }

  /** A new request on an idle worker can end with any final status, and leaves everything else as it was. */
  lemma RequestCanFinish(max: nat, s: State, id: ExecId, status: Status) returns (events: seq<Event>, w: State)
    requires s.phase.Up? && s.queue == [] && s.popped.None? && s.permits > 0
    requires id !in s.repo && status != Pending && status != Running
    ensures Run(max, s, events) == Some(w)
    ensures w.repo == s.repo[id := status] && w == s.(repo := w.repo, pushed := s.pushed + [id], taken := s.taken + [id])
  {
    var a, t, b, u, c, v, d, w' := RequestPasses(max, s, id, status);
    Chained(max, s, a, t, b, u);
    Chained(max, s, a + b, u, c, v);
    Chained(max, s, a + b + c, v, d, w');
    events, w := a + b + c + d, w';
  }

  lemma {:induction false} StoppingEnds(max: nat, s: State) returns (events: seq<Event>, t: State)
    requires s.phase.Stopping?
    ensures Run(max, s, events) == Some(t)
    ensures t == s.(tasks := [], permits := s.permits + |s.tasks|)
    decreases |s.tasks|
  {
    events, t := [], s;
    if s.tasks != [] {
      var e := CancelTask(0);
      var next := Step(max, s, e).value;
      var rest, last := StoppingEnds(max, next);
      RunOne(max, s, e);
      Chained(max, s, [e], next, rest, last);
      events, t := [e] + rest, last;
    }
  }

  /** A worker can be stopped, whatever it runs; its tasks give all permits back, and what is stored and queued stays. */
  lemma WorkerCanStop(max: nat, s: State) returns (events: seq<Event>, t: State)
    requires s.phase.Up? && PermitsConserved(max, s)
    ensures Run(max, s, events) == Some(t)
    ensures t.tasks == [] && t.popped.None? && t.permits == max && t.repo == s.repo && t.queue == s.queue
  {
    var stopped := s.(phase := Stopping, popped := None);
    RunOne(max, s, Stop);
    var rest, last := StoppingEnds(max, stopped);
    Chained(max, s, [Stop], stopped, rest, last);
    events, t := [Stop] + rest, last;
  }
}
