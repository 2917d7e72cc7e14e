/**
 `WorkflowExecutor` of core/workflow/executor.py: building the graph, running the nodes
 in topological order, cancellation, and the closing state of a run.

 Node handlers are functions of their input and parameters; a timeout is one of their
 outcomes. Calls of `cancel` made by other coroutines while a run awaits are the
 argument `arrivals`: the execution ids added just before the i-th cancellation check.
 */
module WorkflowModel {
  import opened Wrappers
  import opened Sequences
  import opened WorkflowGraph

  type Item = string
  type Params = map<string, string>

  datatype Outcome = Output(items: seq<Item>) | TimedOut | Raised(message: string)

  type Registry = map<string, (seq<Item>, Params) -> Outcome>

  /** A node as the editor stores it; every field may be missing. */
  datatype NodeDef = NodeDef(id: Option<string>, outerType: Option<string>, dataType: Option<string>,
                             dataParams: Option<Params>)
  {
    function Id(): NodeId {
      NodeId(id.UnwrapOr(""))
    }
    function Type(): string {
      dataType.UnwrapOr(outerType.UnwrapOr("unknown"))
    }
    function Params(): Params {
      dataParams.UnwrapOr(map[])
    }
  }

  datatype RawEdge = RawEdge(source: Option<string>, target: Option<string>) {
    function ToEdge(): Edge {
      Edge(NodeId(source.UnwrapOr("")), NodeId(target.UnwrapOr("")))
    }
  }

  datatype Workflow = Workflow(nodes: seq<NodeDef>, edges: seq<RawEdge>)

  // ---------------------------------------------------------------------------
  // The graph a workflow denotes
  // ---------------------------------------------------------------------------

  function Ids(nodes: seq<NodeDef>): seq<NodeId> {
    seq(|nodes|, i requires 0 <= i < |nodes| => nodes[i].Id())
  }

  ghost function DefsOf(nodes: seq<NodeDef>): map<NodeId, NodeDef> {
    if nodes == [] then map[]
    else
      var last := nodes[|nodes| - 1];
      DefsOf(nodes[..|nodes| - 1])[last.Id() := last]
  }

  /** Edges with an unknown endpoint are ignored. */
  ghost function KeptEdges(raw: seq<RawEdge>, ids: seq<NodeId>): seq<Edge> {
    if raw == [] then []
    else
      var rest, e := KeptEdges(raw[..|raw| - 1], ids), raw[|raw| - 1].ToEdge();
      if e.source in ids && e.target in ids then rest + [e] else rest
  }

  ghost function Sources(edges: seq<Edge>): seq<NodeId> {
    seq(|edges|, i requires 0 <= i < |edges| => edges[i].source)
  }

  /** The distinct upstream nodes of `n`, in the order in which their first edge appears. */
  ghost function Upstream(edges: seq<Edge>, n: NodeId): seq<NodeId> {
    Feeds(Dedup(Sources(edges)), edges, n)
  }

  ghost function Feeds(candidates: seq<NodeId>, edges: seq<Edge>, n: NodeId): seq<NodeId> {
    if candidates == [] then []
    else
      var rest, u := Feeds(candidates[..|candidates| - 1], edges, n), candidates[|candidates| - 1];
      if Edge(u, n) in edges then rest + [u] else rest
  }

  lemma {:induction false} FeedsAreEdges(candidates: seq<NodeId>, edges: seq<Edge>, n: NodeId)
    ensures forall u :: u in Feeds(candidates, edges, n) <==> u in candidates && Edge(u, n) in edges
  {
    if candidates != [] {
      var front := candidates[..|candidates| - 1];
      FeedsAreEdges(front, edges, n);
      assert candidates == front + [candidates[|candidates| - 1]];
    }
  }

  // ---------------------------------------------------------------------------
  // The dataflow meaning of a workflow, with no mention of an order
  // ---------------------------------------------------------------------------

  datatype Plan = Plan(nodes: seq<NodeId>, defs: map<NodeId, NodeDef>, edges: seq<Edge>,
                       registry: Registry, initial: Option<seq<Item>>)
  {
    ghost predicate Valid() {
      && Distinct(nodes)
      && defs.Keys == ToSet(nodes)
      && (forall e :: e in edges ==> e.source in nodes && e.target in nodes)
    }
  }

  ghost function PlanOf(w: Workflow, registry: Registry, initial: Option<seq<Item>>): Plan {
    var nodes := Dedup(Ids(w.nodes));
    Plan(nodes, DefsOf(w.nodes), KeptEdges(w.edges, nodes), registry, initial)
  }

  /**
   What node `n` outputs, or None when it or a node upstream of it cannot finish.
   `avail` shrinks along every upstream step, which makes the recursion total on cyclic
   graphs too; on an acyclic graph the answer does not depend on it (`MeaningIgnoresAvail`).
   */
  ghost function Meaning(p: Plan, n: NodeId, avail: set<NodeId>): Option<seq<Item>>
    decreases avail, 0
  {
    if n !in avail || n !in p.defs || p.defs[n].Type() !in p.registry then None
    else
      match MeaningOfInput(p, n, avail - {n})
      case None => None
      case Some(input) =>
        match p.registry[p.defs[n].Type()](input, p.defs[n].Params())
        case Output(items) => Some(items)
        case _ => None
  }

  ghost function MeaningOfInput(p: Plan, n: NodeId, avail: set<NodeId>): Option<seq<Item>>
    decreases avail, |Upstream(p.edges, n)| + 2
  {
    var upstream := Upstream(p.edges, n);
    if upstream == [] then Some(p.initial.UnwrapOr([])) else MeaningOfAll(p, upstream, avail)
  }

  ghost function MeaningOfAll(p: Plan, us: seq<NodeId>, avail: set<NodeId>): Option<seq<Item>>
    decreases avail, |us| + 1
  {
    if us == [] then Some([])
    else
      match (MeaningOfAll(p, us[..|us| - 1], avail), Meaning(p, us[|us| - 1], avail))
      case (Some(front), Some(last)) => Some(front + last)
      case _ => None
  }

  function Concat(outputs: map<NodeId, seq<Item>>, us: seq<NodeId>): seq<Item> {
    if us == [] then []
    else
      var u := us[|us| - 1];
      Concat(outputs, us[..|us| - 1]) + if u in outputs then outputs[u] else []
  }

  ghost function InputOf(p: Plan, n: NodeId, outputs: map<NodeId, seq<Item>>): seq<Item> {
    var upstream := Upstream(p.edges, n);
    if upstream == [] then p.initial.UnwrapOr([]) else Concat(outputs, upstream)
  }

  /** The outputs recorded for the first `k` nodes are their meanings, whatever else is available. */
  ghost predicate OutputsMean(p: Plan, order: seq<NodeId>, k: nat, outputs: map<NodeId, seq<Item>>)
    requires k <= |order|
  {
    && outputs.Keys == ToSet(order[..k])
    && (forall j, avail {:trigger Meaning(p, order[j], avail)} :: 0 <= j < k && ToSet(order[..j + 1]) <= avail ==>
          Meaning(p, order[j], avail) == Some(outputs[order[j]]))
  }

  lemma {:induction false} AllMean(p: Plan, order: seq<NodeId>, k: nat, outputs: map<NodeId, seq<Item>>,
                                   us: seq<NodeId>, avail: set<NodeId>)
    requires k <= |order| && OutputsMean(p, order, k, outputs)
    requires ToSet(order[..k]) <= avail
    requires forall u :: u in us ==> u in order[..k]
    ensures MeaningOfAll(p, us, avail) == Some(Concat(outputs, us))
  {
    if us != [] {
      var u := us[|us| - 1];
      AllMean(p, order, k, outputs, us[..|us| - 1], avail);
      assert u in order[..k];
      var j :| 0 <= j < k && order[j] == u;
      assert ToSet(order[..j + 1]) <= ToSet(order[..k]);
      assert Meaning(p, order[j], avail) == Some(outputs[u]);
    }
  }

  /** The gathered input of the next node in a topological order is the meaning of its input. */
  lemma InputMeans(p: Plan, order: seq<NodeId>, k: nat, outputs: map<NodeId, seq<Item>>, avail: set<NodeId>)
    requires k < |order| && OutputsMean(p, order, k, outputs)
    requires SourcesFirst(order, p.edges) && ToSet(order[..k]) <= avail
    ensures MeaningOfInput(p, order[k], avail) == Some(InputOf(p, order[k], outputs))
  {
    UpstreamComesFirst(p, order, k);
    AllMean(p, order, k, outputs, Upstream(p.edges, order[k]), avail);
  }

  /** Running the next node yields its meaning, or shows that it has none. */
  lemma NextMeans(p: Plan, order: seq<NodeId>, k: nat, outputs: map<NodeId, seq<Item>>, avail: set<NodeId>)
    requires k < |order| && OutputsMean(p, order, k, outputs)
    requires Distinct(order) && SourcesFirst(order, p.edges) && order[k] in p.defs
    requires ToSet(order[..k + 1]) <= avail
    ensures MeaningOfInput(p, order[k], avail - {order[k]}) == Some(InputOf(p, order[k], outputs))
    ensures Meaning(p, order[k], avail) == Attempt(p, order[k], InputOf(p, order[k], outputs))
  {
    assert order[k] in order[..k + 1];
    assert order[k] in ToSet(order[..k + 1]);
    assert ToSet(order[..k]) <= avail - {order[k]};
    InputMeans(p, order, k, outputs, avail - {order[k]});
  }

  ghost function Attempt(p: Plan, n: NodeId, input: seq<Item>): Option<seq<Item>>
    requires n in p.defs
  {
    var def := p.defs[n];
    if def.Type() !in p.registry then None
    else
      match p.registry[def.Type()](input, def.Params())
      case Output(items) => Some(items)
      case _ => None
  }

  lemma OutputsGrow(p: Plan, order: seq<NodeId>, k: nat, outputs: map<NodeId, seq<Item>>, items: seq<Item>)
    requires k < |order| && OutputsMean(p, order, k, outputs)
    requires Distinct(order) && SourcesFirst(order, p.edges) && order[k] in p.defs
    requires Attempt(p, order[k], InputOf(p, order[k], outputs)) == Some(items)
    ensures OutputsMean(p, order, k + 1, outputs[order[k] := items])
  {
    var grown := outputs[order[k] := items];
    assert order[..k + 1] == order[..k] + [order[k]];
    assert grown.Keys == ToSet(order[..k + 1]);
    forall j, avail | 0 <= j < k + 1 && ToSet(order[..j + 1]) <= avail
      ensures Meaning(p, order[j], avail) == Some(grown[order[j]])
    {
      if j < k {
        assert order[j] in order[..k];
      } else {
        NextMeans(p, order, k, outputs, avail);
      }
    }
  }

  // ---------------------------------------------------------------------------
  // Results of a run
  // ---------------------------------------------------------------------------

  datatype NodeStatus = Idle | Running | Success | Error | Skipped

  datatype RunStatus = RunPending | RunRunning | RunSuccess | RunError | RunCancelled

  datatype Failure =
    | NoFailure
    | NoNodes
    | CancelledByUser
    | UnknownType(node: NodeId, nodeType: string)
    | NodeTimedOut(node: NodeId)
    | NodeFailed(node: NodeId, message: string)

  datatype NodeResult = NodeResult(nodeType: string, status: NodeStatus, input: seq<Item>, output: seq<Item>)

  datatype RunResult = RunResult(status: RunStatus, nodeResults: map<NodeId, NodeResult>, failure: Failure)

  ghost function IdleResult(p: Plan, n: NodeId): NodeResult
    requires n in p.defs
  {
    NodeResult(p.defs[n].Type(), Idle, [], [])
  }

  /**
   The closing state of a run that executed `order` and stopped after `k` nodes:
   a block of successes, at most one error, then only skipped nodes.
   */
  ghost predicate Closed(r: RunResult, order: seq<NodeId>, k: nat) {
    && k <= |order|
    && r.nodeResults.Keys == ToSet(order)
    && (forall j :: 0 <= j < k ==> r.nodeResults[order[j]].status == Success)
    && (r.status == RunSuccess || r.status == RunError || r.status == RunCancelled)
    && (r.status == RunSuccess <==> k == |order|)
    && (r.status == RunError ==> r.nodeResults[order[k]].status == Error)
    && (r.status == RunCancelled ==> r.nodeResults[order[k]].status == Skipped)
    && (r.status == RunSuccess ==> r.failure == NoFailure)
    && (r.status == RunCancelled ==> r.failure == CancelledByUser)
    && (forall j :: k < j < |order| ==> r.nodeResults[order[j]].status == Skipped)
  }

  /** No node is left idle or running, at most one is in error, and the run is a success exactly when all nodes are. */
  lemma ClosedStates(r: RunResult, order: seq<NodeId>, k: nat)
    requires Closed(r, order, k) && Distinct(order)
    ensures forall n :: n in r.nodeResults ==> !r.nodeResults[n].status.Idle? && !r.nodeResults[n].status.Running?
    ensures forall m, n :: InError(r, m) && InError(r, n) ==> m == n
    ensures r.status == RunSuccess <==> forall n :: n in r.nodeResults ==> r.nodeResults[n].status == Success
    ensures r.status == RunError <==> exists n :: InError(r, n)
  {
    forall n | n in r.nodeResults ensures exists j :: 0 <= j < |order| && order[j] == n {
      assert n in ToSet(order);
    }
    if k < |order| {
      assert order[k] in ToSet(order);
      assert r.status == RunError ==> InError(r, order[k]);
    }
  }

  ghost predicate InError(r: RunResult, n: NodeId) {
    n in r.nodeResults && r.nodeResults[n].status == Error
  }

  /** Every recorded value is what the dataflow meaning of the workflow says. */
  ghost predicate Meant(p: Plan, r: RunResult) {
    forall n :: n in r.nodeResults ==> NodeMeant(p, n, r.nodeResults[n], r.failure)
  }

  ghost predicate NodeMeant(p: Plan, n: NodeId, nr: NodeResult, failure: Failure) {
    var all := ToSet(p.nodes);
    && n in p.defs
    && nr.nodeType == p.defs[n].Type()
    && match nr.status
       case Success =>
         && Meaning(p, n, all) == Some(nr.output)
         && MeaningOfInput(p, n, all - {n}) == Some(nr.input)
       case Error =>
         && Meaning(p, n, all) == None && nr.output == []
         && MeaningOfInput(p, n, all - {n}).Some?
         && failure == FailureOf(p, n, MeaningOfInput(p, n, all - {n}).value)
         && nr.input == if nr.nodeType in p.registry then MeaningOfInput(p, n, all - {n}).value else []
       case Skipped => nr.input == [] && nr.output == []
       case _ => false
  }

  ghost function FailureOf(p: Plan, n: NodeId, input: seq<Item>): Failure
    requires n in p.defs
  {
    var def := p.defs[n];
    if def.Type() !in p.registry then UnknownType(n, def.Type())
    else
      match p.registry[def.Type()](input, def.Params())
      case Output(_) => NoFailure
      case TimedOut => NodeTimedOut(n)
      case Raised(message) => NodeFailed(n, message)
  }

  /** A run that was not cancelled succeeds exactly when every node has a meaning. */
  lemma SuccessIffAllMean(p: Plan, r: RunResult, order: seq<NodeId>, k: nat)
    requires Closed(r, order, k) && Meant(p, r) && ToSet(order) == ToSet(p.nodes)
    requires r.status != RunCancelled
    ensures r.status == RunSuccess <==> forall n :: n in p.nodes ==> Meaning(p, n, ToSet(p.nodes)).Some?
  {
    if r.status == RunSuccess {
      forall n | n in p.nodes ensures Meaning(p, n, ToSet(p.nodes)).Some? {
        assert n in ToSet(order);
      }
    } else {
      assert order[k] in ToSet(order);
      assert NodeMeant(p, order[k], r.nodeResults[order[k]], r.failure);
    }
  }

  /**
   The result does not depend on the topological order: two uncancelled runs of the same
   plan agree on the status, and on every node result when they succeed.
   */
  lemma OrderIrrelevant(p: Plan, r1: RunResult, order1: seq<NodeId>, k1: nat, r2: RunResult, order2: seq<NodeId>, k2: nat)
    requires Closed(r1, order1, k1) && Meant(p, r1) && ToSet(order1) == ToSet(p.nodes)
    requires Closed(r2, order2, k2) && Meant(p, r2) && ToSet(order2) == ToSet(p.nodes)
    requires r1.status != RunCancelled && r2.status != RunCancelled
    ensures r1.status == r2.status
    ensures r1.status == RunSuccess ==> r1.nodeResults == r2.nodeResults
  {
    SuccessIffAllMean(p, r1, order1, k1);
    SuccessIffAllMean(p, r2, order2, k2);
    if r1.status == RunSuccess {
      forall n | n in r1.nodeResults ensures r1.nodeResults[n] == r2.nodeResults[n] {
        assert n in order1 && n in order2;
        assert NodeMeant(p, n, r1.nodeResults[n], r1.failure) && NodeMeant(p, n, r2.nodeResults[n], r2.failure);
      }
    }
  }

  /** The nodes before the stop have a meaning, the node at the stop has none. */
  lemma MeantAt(p: Plan, order: seq<NodeId>, r: RunResult, k: nat, j: nat)
    requires Closed(r, order, k) && Meant(p, r) && r.status != RunCancelled && j < |order|
    ensures j < k ==> Meaning(p, order[j], ToSet(p.nodes)).Some?
    ensures j == k ==> Meaning(p, order[j], ToSet(p.nodes)).None?
  {
    assert order[j] in ToSet(order);
    assert NodeMeant(p, order[j], r.nodeResults[order[j]], r.failure);
  }

  lemma StopsAlike(p: Plan, order: seq<NodeId>, r1: RunResult, k1: nat, r2: RunResult, k2: nat)
    requires Closed(r1, order, k1) && Meant(p, r1) && Closed(r2, order, k2) && Meant(p, r2)
    requires r1.status != RunCancelled && r2.status != RunCancelled
    ensures k1 <= k2
  {
    if k2 < |order| {
      MeantAt(p, order, r1, k1, k2);
      MeantAt(p, order, r2, k2, k2);
    }
  }

  lemma SameAt(p: Plan, order: seq<NodeId>, r1: RunResult, r2: RunResult, k: nat, j: nat)
    requires Closed(r1, order, k) && Meant(p, r1) && Closed(r2, order, k) && Meant(p, r2)
    requires r1.status != RunCancelled && r2.status != RunCancelled && j < |order|
    ensures r1.nodeResults[order[j]] == r2.nodeResults[order[j]]
    ensures j == k ==> r1.failure == r2.failure
  {
    assert order[j] in ToSet(order);
    assert NodeMeant(p, order[j], r1.nodeResults[order[j]], r1.failure);
    assert NodeMeant(p, order[j], r2.nodeResults[order[j]], r2.failure);
  }

  /** Uncancelled runs in the same order, such as the order of the queue, have the same result, failures included. */
  lemma RunIsDetermined(p: Plan, order: seq<NodeId>, r1: RunResult, k1: nat, r2: RunResult, k2: nat)
    requires Closed(r1, order, k1) && Meant(p, r1) && Closed(r2, order, k2) && Meant(p, r2)
    requires r1.status != RunCancelled && r2.status != RunCancelled
    ensures r1 == r2
  {
    StopsAlike(p, order, r1, k1, r2, k2);
    StopsAlike(p, order, r2, k2, r1, k1);
    forall n | n in r1.nodeResults ensures r1.nodeResults[n] == r2.nodeResults[n] {
      assert n in ToSet(order);
      var j :| 0 <= j < |order| && order[j] == n;
      SameAt(p, order, r1, r2, k1, j);
    }
    if k1 < |order| {
      SameAt(p, order, r1, r2, k1, k1);
    }
  }

  // ---------------------------------------------------------------------------
  // Recorded values and each other
  // ---------------------------------------------------------------------------

  lemma UpstreamComesFirst(p: Plan, order: seq<NodeId>, j: nat)
    requires j < |order| && SourcesFirst(order, p.edges)
    ensures forall u :: u in Upstream(p.edges, order[j]) ==> u in order[..j]
  {
    var n := order[j];
    FeedsAreEdges(Dedup(Sources(p.edges)), p.edges, n);
    forall u | u in Upstream(p.edges, n) ensures u in order[..j] {
      var e := Edge(u, n);
      assert e in p.edges && e.target == order[j];
    }
  }

  lemma EarlierFits(order: seq<NodeId>, i: nat, j: nat, avail: set<NodeId>)
    requires i < j <= |order| && ToSet(order[..j]) <= avail
    ensures ToSet(order[..i + 1]) <= avail
  {
    forall x | x in ToSet(order[..i + 1]) ensures x in avail {
      assert x in order[..j];
    }
  }

  lemma ShrinksAround(order: seq<NodeId>, j: nat, avail: set<NodeId>)
    requires j < |order| && Distinct(order) && ToSet(order[..j + 1]) <= avail
    ensures order[j] in avail && ToSet(order[..j]) <= avail - {order[j]}
  {
    assert order[..j + 1] == order[..j] + [order[j]];
    assert order[j] in ToSet(order[..j + 1]);
    forall x | x in ToSet(order[..j]) ensures x in avail - {order[j]} {
      assert x in ToSet(order[..j + 1]);
    }
  }

  /** On a graph that has a sources-first order, a meaning does not depend on what else is available. */
  lemma {:induction false} MeaningIgnoresAvail(p: Plan, order: seq<NodeId>, j: nat, a: set<NodeId>, b: set<NodeId>)
    requires j < |order| && Distinct(order) && SourcesFirst(order, p.edges)
    requires ToSet(order[..j + 1]) <= a && ToSet(order[..j + 1]) <= b
    ensures Meaning(p, order[j], a) == Meaning(p, order[j], b)
    decreases 2 * j + 1, 0
  {
    var n := order[j];
    ShrinksAround(order, j, a);
    ShrinksAround(order, j, b);
    UpstreamComesFirst(p, order, j);
    MeaningsIgnoreAvail(p, order, j, Upstream(p.edges, n), a - {n}, b - {n});
  }

  lemma {:induction false} MeaningsIgnoreAvail(p: Plan, order: seq<NodeId>, k: nat, us: seq<NodeId>,
                                               a: set<NodeId>, b: set<NodeId>)
    requires k <= |order| && Distinct(order) && SourcesFirst(order, p.edges)
    requires forall u :: u in us ==> u in order[..k]
    requires ToSet(order[..k]) <= a && ToSet(order[..k]) <= b
    ensures MeaningOfAll(p, us, a) == MeaningOfAll(p, us, b)
    decreases 2 * k, |us|
  {
    if us != [] {
      var u := us[|us| - 1];
      MeaningsIgnoreAvail(p, order, k, us[..|us| - 1], a, b);
      assert u in order[..k];
      var i :| 0 <= i < k && order[i] == u;
      EarlierFits(order, i, k, a);
      EarlierFits(order, i, k, b);
      MeaningIgnoresAvail(p, order, i, a, b);
    }
  }

  /** What the successful nodes of a run put out. */
  ghost function Outputs(r: RunResult): map<NodeId, seq<Item>> {
    map n | n in r.nodeResults && r.nodeResults[n].status == Success :: r.nodeResults[n].output
  }

  /** Every node that received an input received the recorded outputs of its upstream nodes, or the initial data. */
  ghost predicate InputsFlow(p: Plan, r: RunResult) {
    forall n :: n in r.nodeResults ==> InputFlows(p, r, n, r.nodeResults[n])
  }

  ghost predicate InputFlows(p: Plan, r: RunResult, n: NodeId, nr: NodeResult) {
    nr.status == Success || (nr.status == Error && nr.nodeType in p.registry) ==> nr.input == InputOf(p, n, Outputs(r))
  }

  lemma {:induction false} RecordedMean(p: Plan, r: RunResult, order: seq<NodeId>, k: nat, j: nat, us: seq<NodeId>,
                                        avail: set<NodeId>)
    requires Closed(r, order, k) && Meant(p, r) && IsTopologicalOrder(order, p.nodes, p.edges)
    requires j <= k && ToSet(order[..j]) <= avail <= ToSet(p.nodes)
    requires forall u :: u in us ==> u in order[..j]
    ensures MeaningOfAll(p, us, avail) == Some(Concat(Outputs(r), us))
  {
    if us != [] {
      var u := us[|us| - 1];
      RecordedMean(p, r, order, k, j, us[..|us| - 1], avail);
      assert u in order[..j];
      var i :| 0 <= i < j && order[i] == u;
      EarlierFits(order, i, j, avail);
      assert u in ToSet(order);
      assert NodeMeant(p, u, r.nodeResults[u], r.failure);
      MeaningIgnoresAvail(p, order, i, avail, ToSet(p.nodes));
    }
  }

  /** The recorded values fit together: inputs are the concatenated recorded outputs. */
  lemma InputsAreOutputs(p: Plan, r: RunResult, order: seq<NodeId>, k: nat)
    requires Closed(r, order, k) && Meant(p, r) && IsTopologicalOrder(order, p.nodes, p.edges)
    ensures InputsFlow(p, r)
  {
    var all := ToSet(p.nodes);
    forall n | n in r.nodeResults ensures InputFlows(p, r, n, r.nodeResults[n]) {
      assert n in ToSet(order);
      var j :| 0 <= j < |order| && order[j] == n;
      if j <= k {
        EarlierFits(order, j, |order|, all);
        ShrinksAround(order, j, all);
        UpstreamComesFirst(p, order, j);
        RecordedMean(p, r, order, k, j, Upstream(p.edges, n), all - {n});
        assert NodeMeant(p, n, r.nodeResults[n], r.failure);
      }
    }
  }
}

module WorkflowExecution {
  import opened Wrappers
  import opened Sequences
  import opened WorkflowGraph
  import opened WorkflowModel
  import opened WorkflowSource

  // ---------------------------------------------------------------------------
  // Building the dictionaries
  // ---------------------------------------------------------------------------

  method BuildNodeMap(raw: seq<NodeDef>) returns (nodes: seq<NodeId>, defs: map<NodeId, NodeDef>)
    ensures nodes == Dedup(Ids(raw)) && defs == DefsOf(raw)
    ensures defs.Keys == ToSet(nodes)
  {
    nodes, defs := [], map[];
    for i := 0 to |raw|
      invariant nodes == Dedup(Ids(raw[..i])) && defs == DefsOf(raw[..i])
      invariant defs.Keys == ToSet(nodes)
    {
      var nid := raw[i].Id();
      assert raw[..i + 1][..i] == raw[..i];
      assert Ids(raw[..i + 1])[..i] == Ids(raw[..i]);
      if nid !in defs {
        nodes := nodes + [nid];
      }
      defs := defs[nid := raw[i]];
    }
    assert raw[..|raw|] == raw;
  }

  lemma AddToAdjacency(edges: seq<Edge>, e: Edge, adjacency: map<NodeId, seq<NodeId>>)
    requires HoldsTargets(edges, adjacency)
    ensures HoldsTargets(edges + [e], adjacency[e.source := Adjacent(adjacency, e.source) + [e.target]])
  {
    var grown := edges + [e];
    assert grown[..|grown| - 1] == edges && grown[|grown| - 1] == e;
    var adjacency' := adjacency[e.source := Adjacent(adjacency, e.source) + [e.target]];
    forall u ensures Adjacent(adjacency', u) == Targets(grown, u) {
      assert Adjacent(adjacency, u) == Targets(edges, u);
    }
  }

  lemma AddToDegrees(nodes: seq<NodeId>, edges: seq<Edge>, e: Edge, inDegree: map<NodeId, int>)
    requires HoldsDegrees(nodes, edges, inDegree) && e.target in inDegree
    ensures HoldsDegrees(nodes, edges + [e], inDegree[e.target := inDegree[e.target] + 1])
  {
  }

  lemma AddSource(edges: seq<Edge>, e: Edge, sources: seq<NodeId>)
    requires sources == Dedup(Sources(edges))
    ensures Dedup(Sources(edges + [e])) == if e.source in sources then sources else sources + [e.source]
  {
    assert Sources(edges + [e]) == Sources(edges) + [e.source];
    DedupSnoc(Sources(edges), e.source);
  }

  lemma NoEdges(nodes: seq<NodeId>, inDegree: map<NodeId, int>)
    requires inDegree.Keys == ToSet(nodes) && forall nid :: nid in inDegree ==> inDegree[nid] == 0
    ensures HoldsTargets([], map[]) && HoldsDegrees(nodes, [], inDegree) && Dedup(Sources([])) == []
  {
  }

  /** Edges with an unknown endpoint are ignored; the dictionaries hold all others, in the order of the stored edges. */
  method BuildAdjacency(w: Workflow, nodes: seq<NodeId>, defs: map<NodeId, NodeDef>)
    returns (sources: seq<NodeId>, adjacency: map<NodeId, seq<NodeId>>, inDegree: map<NodeId, int>)
    requires nodes == Dedup(Ids(w.nodes)) && defs.Keys == ToSet(nodes)
    ensures HoldsLinks(w, sources, adjacency, inDegree)
    ensures Represents(nodes, KeptEdges(w.edges, nodes), adjacency, inDegree)
    ensures sources == Dedup(Sources(KeptEdges(w.edges, nodes)))
  {
    DedupIsSet(Ids(w.nodes));
    sources, adjacency, inDegree := LoadEdges(nodes, defs, w.edges);
    DictionariesHoldLinks(w, sources, adjacency, inDegree);
  }

  method LoadEdges(nodes: seq<NodeId>, defs: map<NodeId, NodeDef>, raw: seq<RawEdge>)
    returns (sources: seq<NodeId>, adjacency: map<NodeId, seq<NodeId>>, inDegree: map<NodeId, int>)
    requires Distinct(nodes) && defs.Keys == ToSet(nodes)
    ensures Represents(nodes, KeptEdges(raw, nodes), adjacency, inDegree)
    ensures sources == Dedup(Sources(KeptEdges(raw, nodes)))
  {
    sources, adjacency := [], map[];
    inDegree := map nid | nid in defs.Keys :: 0;
    ghost var kept: seq<Edge> := [];
    NoEdges(nodes, inDegree);
    for i := 0 to |raw|
      invariant kept == KeptEdges(raw[..i], nodes)
      invariant forall e :: e in kept ==> e.source in nodes && e.target in nodes
      invariant HoldsTargets(kept, adjacency) && HoldsDegrees(nodes, kept, inDegree)
      invariant sources == Dedup(Sources(kept))
      invariant forall u :: u in adjacency <==> u in sources
    {
      var e := raw[i].ToEdge();
      assert raw[..i + 1][..i] == raw[..i];
      if e.source in defs && e.target in defs {
        AddToAdjacency(kept, e, adjacency);
        AddToDegrees(nodes, kept, e, inDegree);
        AddSource(kept, e, sources);
        kept := kept + [e];
        if e.source !in adjacency {
          sources := sources + [e.source];
        }
        adjacency := adjacency[e.source := Adjacent(adjacency, e.source) + [e.target]];
        inDegree := inDegree[e.target := inDegree[e.target] + 1];
      }
    }
    assert raw[..|raw|] == raw;
  }

  /** The comprehension over the adjacency dictionary that finds a node's upstream nodes. */
  method FindUpstream(ghost edges: seq<Edge>, n: NodeId, sources: seq<NodeId>, adjacency: map<NodeId, seq<NodeId>>)
    returns (upstream: seq<NodeId>)
    requires HoldsTargets(edges, adjacency)
    ensures upstream == Feeds(sources, edges, n)
  {
    upstream := [];
    for i := 0 to |sources|
      invariant upstream == Feeds(sources[..i], edges, n)
    {
      assert sources[..i + 1][..i] == sources[..i];
      TargetsAreEdges(edges, sources[i]);
      if n in Adjacent(adjacency, sources[i]) {
        upstream := upstream + [sources[i]];
      }
    }
    assert sources[..|sources|] == sources;
  }

  method ConcatOutputs(outputs: map<NodeId, seq<Item>>, upstream: seq<NodeId>) returns (input: seq<Item>)
    ensures input == Concat(outputs, upstream)
  {
    input := [];
    for i := 0 to |upstream|
      invariant input == Concat(outputs, upstream[..i])
    {
      assert upstream[..i + 1][..i] == upstream[..i];
      var u := upstream[i];
      input := input + if u in outputs then outputs[u] else [];
    }
    assert upstream[..|upstream|] == upstream;
  }

  /** `_gather_inputs`. */
  method GatherInputs(ghost p: Plan, n: NodeId, sources: seq<NodeId>, adjacency: map<NodeId, seq<NodeId>>,
                      outputs: map<NodeId, seq<Item>>, initial: Option<seq<Item>>)
    returns (input: seq<Item>)
    requires initial == p.initial
    requires sources == Dedup(Sources(p.edges))
    requires HoldsTargets(p.edges, adjacency)
    ensures input == InputOf(p, n, outputs)
  {
    var upstream := FindUpstream(p.edges, n, sources, adjacency);
    if upstream == [] {
      return initial.UnwrapOr([]);
    }
    input := ConcatOutputs(outputs, upstream);
  }

  // ---------------------------------------------------------------------------
  // The run
  // ---------------------------------------------------------------------------

  datatype ExecuteOutcome =
    | CycleError(cycleNodes: seq<NodeId>)
    | Finished(result: RunResult)

  /** `cancel(id)` had been called by the time of the i-th check, counted from zero. */
  ghost predicate CancelSeen(cancelled: set<string>, arrivals: nat -> set<string>, id: string, i: nat) {
    CalledBefore(cancelled, arrivals, id, i + 1)
  }

  ghost predicate CalledBefore(cancelled: set<string>, arrivals: nat -> set<string>, id: string, i: nat) {
    id in cancelled || exists j: nat :: j < i && id in arrivals(j)
  }

  lemma CalledByNow(cancelled: set<string>, arrivals: nat -> set<string>, i: nat)
    ensures forall id :: CalledBefore(cancelled, arrivals, id, i + 1) <==>
                         CalledBefore(cancelled, arrivals, id, i) || id in arrivals(i)
  {
  }

  /** The state of a run after its first `k` nodes succeeded. */
  ghost predicate Ran(p: Plan, order: seq<NodeId>, k: nat, results: map<NodeId, NodeResult>, outputs: map<NodeId, seq<Item>>)
    requires k <= |order|
  {
    && p.defs.Keys == results.Keys == ToSet(order)
    && OutputsMean(p, order, k, outputs)
    && (forall j :: 0 <= j < k ==>
          var nr := results[order[j]];
          nr.status == Success && NodeMeant(p, order[j], nr, NoFailure))
    && (forall j :: k <= j < |order| ==> results[order[j]] == IdleResult(p, order[j]))
  }

  lemma StartsIdle(p: Plan, order: seq<NodeId>, results: map<NodeId, NodeResult>)
    requires p.Valid() && IsTopologicalOrder(order, p.nodes, p.edges)
    requires results == map n | n in p.defs :: IdleResult(p, n)
    ensures Ran(p, order, 0, results, map[])
    ensures forall j :: 0 <= j < |order| ==> order[j] in p.defs
  {
    assert ToSet(order[..0]) == {};
    assert forall j :: 0 <= j < |order| ==> order[j] in ToSet(order);
  }

  lemma NodeSucceeds(p: Plan, order: seq<NodeId>, k: nat, results: map<NodeId, NodeResult>,
                     outputs: map<NodeId, seq<Item>>, items: seq<Item>)
    requires k < |order| && Ran(p, order, k, results, outputs) && IsTopologicalOrder(order, p.nodes, p.edges)
    requires Attempt(p, order[k], InputOf(p, order[k], outputs)) == Some(items)
    ensures
      var n := order[k];
      var nr := NodeResult(p.defs[n].Type(), Success, InputOf(p, n, outputs), items);
      Ran(p, order, k + 1, results[n := nr], outputs[n := items])
  {
    var n := order[k];
    var nr := NodeResult(p.defs[n].Type(), Success, InputOf(p, n, outputs), items);
    assert n in ToSet(order);
    NextMeans(p, order, k, outputs, ToSet(order));
    OutputsGrow(p, order, k, outputs, items);
    assert NodeMeant(p, n, nr, NoFailure);
    var results' := results[n := nr];
    assert results'.Keys == results.Keys;
    forall j | 0 <= j < |order| && j != k ensures results'[order[j]] == results[order[j]] {
      assert order[j] != n;
    }
  }

  /** What the loop leaves behind, before the idle nodes are marked. */
  ghost predicate Stopped(p: Plan, order: seq<NodeId>, k: nat, status: RunStatus, failure: Failure,
                          results: map<NodeId, NodeResult>)
  {
    && k <= |order|
    && p.defs.Keys == results.Keys == ToSet(order)
    && (forall j :: 0 <= j < k ==>
          results[order[j]].status == Success && NodeMeant(p, order[j], results[order[j]], failure))
    && (forall j :: k < j < |order| ==> results[order[j]] == IdleResult(p, order[j]))
    && match status
       case RunSuccess => k == |order| && failure == NoFailure
       case RunError =>
         k < |order| && results[order[k]].status == Error && NodeMeant(p, order[k], results[order[k]], failure)
       case RunCancelled =>
         k < |order| && failure == CancelledByUser && results[order[k]] == IdleResult(p, order[k])
       case _ => false
  }

  lemma NodeFails(p: Plan, order: seq<NodeId>, k: nat, results: map<NodeId, NodeResult>, outputs: map<NodeId, seq<Item>>,
                  nr: NodeResult, failure: Failure)
    requires k < |order| && Ran(p, order, k, results, outputs) && IsTopologicalOrder(order, p.nodes, p.edges)
    requires Attempt(p, order[k], InputOf(p, order[k], outputs)) == None
    requires failure == FailureOf(p, order[k], InputOf(p, order[k], outputs))
    requires nr.status == Error && nr.output == [] && nr.nodeType == p.defs[order[k]].Type()
    requires nr.input == if nr.nodeType in p.registry then InputOf(p, order[k], outputs) else []
    ensures Stopped(p, order, k, RunError, failure, results[order[k] := nr])
  {
    var n := order[k];
    assert n in ToSet(order);
    NextMeans(p, order, k, outputs, ToSet(order));
    assert NodeMeant(p, n, nr, failure);
    assert results[n := nr].Keys == results.Keys;
  }

  /** One iteration of the execution loop, past the cancellation check. */
  method RunNode(ghost p: Plan, ghost order: seq<NodeId>, ghost i: nat, n: NodeId, def: NodeDef,
                 registry: Registry, initial: Option<seq<Item>>,
                 sources: seq<NodeId>, adjacency: map<NodeId, seq<NodeId>>,
                 results0: map<NodeId, NodeResult>, outputs0: map<NodeId, seq<Item>>)
    returns (failure: Failure, results: map<NodeId, NodeResult>, outputs: map<NodeId, seq<Item>>)
    requires i < |order| && order[i] == n && n in p.defs && p.defs[n] == def
    requires p.registry == registry && p.initial == initial
    requires Ran(p, order, i, results0, outputs0) && IsTopologicalOrder(order, p.nodes, p.edges)
    requires sources == Dedup(Sources(p.edges))
    requires HoldsTargets(p.edges, adjacency)
    ensures failure == NoFailure ==> Ran(p, order, i + 1, results, outputs)
    ensures failure != NoFailure ==> Stopped(p, order, i, RunError, failure, results)
  {
    if def.Type() !in registry {
      var nr := results0[n].(status := Error);
      NodeFails(p, order, i, results0, outputs0, nr, UnknownType(n, def.Type()));
      return UnknownType(n, def.Type()), results0[n := nr], outputs0;
    }
    var input := GatherInputs(p, n, sources, adjacency, outputs0, initial);
    var running := results0[n].(input := input, status := Running);
    match registry[def.Type()](input, def.Params()) {
      case Output(items) =>
        NodeSucceeds(p, order, i, results0, outputs0, items);
        failure := NoFailure;
        results := results0[n := running.(output := items, status := Success)];
        outputs := outputs0[n := items];
      case TimedOut =>
        var nr := running.(status := Error);
        NodeFails(p, order, i, results0, outputs0, nr, NodeTimedOut(n));
        return NodeTimedOut(n), results0[n := nr], outputs0;
      case Raised(message) =>
        var nr := running.(status := Error);
        NodeFails(p, order, i, results0, outputs0, nr, NodeFailed(n, message));
        return NodeFailed(n, message), results0[n := nr], outputs0;
    }
  }

  /** The `finally` block: nodes still idle become skipped. */
  method SkipIdle(results0: map<NodeId, NodeResult>) returns (results: map<NodeId, NodeResult>)
    ensures SkippedFrom(results0, results)
  {
    results := results0;
    var todo := results0.Keys;
    while todo != {}
      invariant todo <= results0.Keys == results.Keys
      invariant forall n :: n in results0 ==>
                  results[n] == if results0[n].status == Idle && n !in todo then results0[n].(status := Skipped) else results0[n]
    {
      var n :| n in todo;
      todo := todo - {n};
      if results[n].status == Idle {
        results := results[n := results[n].(status := Skipped)];
      }
    }
  }

  ghost predicate SkippedFrom(stopped: map<NodeId, NodeResult>, results: map<NodeId, NodeResult>) {
    && results.Keys == stopped.Keys
    && (forall n :: n in stopped ==>
          results[n] == if stopped[n].status == Idle then stopped[n].(status := Skipped) else stopped[n])
  }

  lemma ClosesRun(p: Plan, order: seq<NodeId>, k: nat, status: RunStatus, failure: Failure,
                  stopped: map<NodeId, NodeResult>, results: map<NodeId, NodeResult>)
    requires Stopped(p, order, k, status, failure, stopped) && SkippedFrom(stopped, results)
    ensures Closed(RunResult(status, results, failure), order, k)
  {
  }

  lemma RunMeant(p: Plan, order: seq<NodeId>, k: nat, status: RunStatus, failure: Failure,
                 stopped: map<NodeId, NodeResult>, results: map<NodeId, NodeResult>)
    requires Stopped(p, order, k, status, failure, stopped) && SkippedFrom(stopped, results)
    ensures Meant(p, RunResult(status, results, failure))
  {
  }

  class WorkflowExecutor {
    var cancelled: set<string>

    constructor ()
      ensures cancelled == {}
    {
      cancelled := {};
    }

    method Cancel(id: string)
      modifies this
      ensures cancelled == old(cancelled) + {id}
    {
      cancelled := cancelled + {id};
    }

    /** The check at the head of the i-th iteration. */
    method TakeCancellation(id: string, arrivals: nat -> set<string>, i: nat, ghost initially: set<string>)
      returns (seen: bool)
      requires forall x :: x in cancelled <==> CalledBefore(initially, arrivals, x, i)
      modifies this
      ensures seen <==> CancelSeen(initially, arrivals, id, i)
      ensures forall x :: x in cancelled <==> CalledBefore(initially, arrivals, x, i + 1) && !(seen && x == id)
    {
      CalledByNow(initially, arrivals, i);
      cancelled := cancelled + arrivals(i);
      seen := id in cancelled;
      if seen {
        cancelled := cancelled - {id};
      }
    }

    /** The execution loop: stops at the first cancellation seen or the first node that cannot finish. */
    method RunInOrder(ghost p: Plan, defs: map<NodeId, NodeDef>, registry: Registry, initial: Option<seq<Item>>,
                      id: string, arrivals: nat -> set<string>,
                      order: seq<NodeId>, sources: seq<NodeId>, adjacency: map<NodeId, seq<NodeId>>)
      returns (status: RunStatus, failure: Failure, results: map<NodeId, NodeResult>, ghost k: nat)
      requires p.Valid() && p.defs == defs && p.registry == registry && p.initial == initial
      requires IsTopologicalOrder(order, p.nodes, p.edges)
      requires sources == Dedup(Sources(p.edges))
      requires HoldsTargets(p.edges, adjacency)
      modifies this
      ensures Stopped(p, order, k, status, failure, results)
      ensures forall i :: 0 <= i < k ==> !CancelSeen(old(cancelled), arrivals, id, i)
      ensures status == RunCancelled <==> k < |order| && CancelSeen(old(cancelled), arrivals, id, k)
      ensures status == RunCancelled ==> id !in cancelled
      ensures forall other :: other != id ==>
                (other in cancelled <==> CalledBefore(old(cancelled), arrivals, other, if k < |order| then k + 1 else k))
    {
      results := map n | n in defs.Keys :: NodeResult(defs[n].Type(), Idle, [], []);
      var outputs: map<NodeId, seq<Item>> := map[];
      StartsIdle(p, order, results);
      for i := 0 to |order|
        invariant Ran(p, order, i, results, outputs)
        invariant forall j :: 0 <= j < i ==> !CancelSeen(old(cancelled), arrivals, id, j)
        invariant forall x :: x in cancelled <==> CalledBefore(old(cancelled), arrivals, x, i)
      {
        k := i;
        var seen := TakeCancellation(id, arrivals, i, old(cancelled));
        if seen {
          return RunCancelled, CancelledByUser, results, i;
        }
        var n := order[i];
        failure, results, outputs :=
          RunNode(p, order, i, n, defs[n], registry, initial, sources, adjacency, results, outputs);
        if failure != NoFailure {
          return RunError, failure, results, i;
        }
      }
      return RunSuccess, NoFailure, results, |order|;
    }

    /**
     `execute`. A cycle of stored edges is reported before anything runs; otherwise the run closes
     in one of three final states, every recorded value is the workflow's dataflow meaning, and the
     whole result is `Faithful` to the stored records.
     */
    method Execute(w: Workflow, registry: Registry, initial: Option<seq<Item>>, id: string, arrivals: nat -> set<string>)
      returns (r: ExecuteOutcome, ghost order: seq<NodeId>, ghost k: nat)
      modifies this
      ensures w.nodes == [] ==> r == Finished(RunResult(RunError, map[], NoNodes)) && cancelled == old(cancelled)
      ensures w.nodes != [] ==>
                && (r.CycleError? <==> exists c :: LinkCycle(w, c))
                && (r.CycleError? ==> ReportsCycles(w, r.cycleNodes))
                && (r.Finished? ==> Faithful(w, registry, initial, order, r.result))
      ensures w.nodes != [] ==>
                var p := PlanOf(w, registry, initial);
                && (r.CycleError? <==> HasCycle(p.edges))
                && (r.CycleError? ==>
                      && r.cycleNodes == Restrict(p.nodes, CycleVictims(p.nodes, p.edges))
                      && cancelled == old(cancelled))
                && (r.Finished? ==>
                      && IsTopologicalOrder(order, p.nodes, p.edges) && IsQueueOrder(p.nodes, p.edges, order)
                      && Closed(r.result, order, k)
                      && Meant(p, r.result) && InputsFlow(p, r.result)
                      && (r.result.status == RunCancelled <==>
                            k < |order| && CancelSeen(old(cancelled), arrivals, id, k))
                      && (forall i :: 0 <= i < k ==> !CancelSeen(old(cancelled), arrivals, id, i))
                      && (forall other :: other in old(cancelled) && other != id ==> other in cancelled))
    {
      order, k := [], 0;
      if w.nodes == [] {
        return Finished(RunResult(RunError, map[], NoNodes)), [], 0;
      }
      var nodes, defs := BuildNodeMap(w.nodes);
      DedupIsSet(Ids(w.nodes));
      var sources, adjacency, inDegree := BuildAdjacency(w, nodes, defs);
      ghost var edges := KeptEdges(w.edges, nodes);
      var sorted := TopologicalSort(nodes, adjacency, inDegree, edges);
      CyclesAreStored(w);
      match sorted {
        case CycleDetected(cycleNodes) =>
          CycleIsReported(w, registry, initial, cycleNodes);
          r := CycleError(cycleNodes);
        case Sorted(sortedIds) =>
          order := sortedIds;
          ghost var p := Plan(nodes, defs, edges, registry, initial);
          var status, failure, stopped, stop :=
            RunInOrder(p, defs, registry, initial, id, arrivals, sortedIds, sources, adjacency);
          k := stop;
          var results := SkipIdle(stopped);
          ClosesRun(p, sortedIds, stop, status, failure, stopped, results);
          RunMeant(p, sortedIds, stop, status, failure, stopped, results);
          InputsAreOutputs(p, RunResult(status, results, failure), sortedIds, stop);
          RunIsFaithful(w, p, sortedIds, stop, RunResult(status, results, failure));
          r := Finished(RunResult(status, results, failure));
      }
    }
  }
}
