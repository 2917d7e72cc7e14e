/**
 A run of `WorkflowExecutor` in terms of the stored workflow: its node and edge records and
 the texts in their fields, with no mention of the dictionaries built from them.
 */
module WorkflowSource {
  import opened Wrappers
  import opened Sequences
  import opened WorkflowGraph
  import opened WorkflowModel

  // ---------------------------------------------------------------------------
  // What the fields say
  // ---------------------------------------------------------------------------

  /** The field names `n`; a missing field reads as the empty text. */
  ghost predicate Names(field: Option<string>, n: NodeId) {
    match field
    case Some(text) => n.text == text
    case None => n.text == ""
  }

  ghost predicate IsNode(w: Workflow, n: NodeId) {
    exists i: nat :: i < |w.nodes| && Names(w.nodes[i].id, n)
  }

  /** The i-th stored edge leads from the node `u` to the node `n`. */
  ghost predicate LinksAt(w: Workflow, i: nat, u: NodeId, n: NodeId) {
    && i < |w.edges|
    && Names(w.edges[i].source, u) && Names(w.edges[i].target, n)
    && IsNode(w, u) && IsNode(w, n)
  }

  ghost predicate Linked(w: Workflow, u: NodeId, n: NodeId) {
    exists i: nat :: LinksAt(w, i, u, n)
  }

  /** The i-th stored edge is the first that leads from `u` to any node. */
  ghost predicate FirstFrom(w: Workflow, i: nat, u: NodeId) {
    (exists n :: LinksAt(w, i, u, n)) && forall j: nat, n :: j < i ==> !LinksAt(w, j, u, n)
  }

  ghost predicate EarlierLink(w: Workflow, u: NodeId, v: NodeId) {
    forall i, j :: FirstFrom(w, i, u) && FirstFrom(w, j, v) ==> i < j
  }

  /** The i-th stored node record is the last one of the node `n`. */
  ghost predicate DefinedAt(w: Workflow, i: nat, n: NodeId) {
    i < |w.nodes| && Names(w.nodes[i].id, n) && forall j :: i < j < |w.nodes| ==> !Names(w.nodes[j].id, n)
  }

  /** The type in the record's data, else the outer one, else "unknown". */
  ghost predicate HasType(def: NodeDef, nodeType: string) {
    match (def.dataType, def.outerType)
    case (Some(inner), _) => nodeType == inner
    case (None, Some(outer)) => nodeType == outer
    case (None, None) => nodeType == "unknown"
  }

  ghost predicate HasParams(def: NodeDef, params: Params) {
    match def.dataParams
    case Some(stored) => params == stored
    case None => params == map[]
  }

  // ---------------------------------------------------------------------------
  // Paths
  // ---------------------------------------------------------------------------

  ghost predicate LinkPath(w: Workflow, p: seq<NodeId>) {
    |p| > 0 && forall i :: 0 < i < |p| ==> Linked(w, p[i - 1], p[i])
  }

  ghost predicate LinkCycle(w: Workflow, c: seq<NodeId>) {
    |c| > 1 && LinkPath(w, c) && c[0] == c[|c| - 1]
  }

  /** `t` leads along stored edges from a node of the cycle `c` to `n`. */
  ghost predicate LeadsOn(w: Workflow, c: seq<NodeId>, t: seq<NodeId>, n: NodeId) {
    LinkCycle(w, c) && LinkPath(w, t) && t[0] == c[0] && t[|t| - 1] == n
  }

  // ---------------------------------------------------------------------------
  // What a run promises
  // ---------------------------------------------------------------------------

  /** The nodes of the workflow, each once. */
  ghost predicate ListsNodes(w: Workflow, nodes: seq<NodeId>) {
    Distinct(nodes) && forall n :: n in nodes <==> IsNode(w, n)
  }

  /** Every stored edge between two nodes has its source before its target. */
  ghost predicate RespectsLinks(w: Workflow, order: seq<NodeId>) {
    forall u, n :: Linked(w, u, n) ==> Before(order, u, n)
  }

  /** `us` are exactly the nodes with a stored edge into `n`, each once, by the first stored edge that leaves them. */
  ghost predicate AreSources(w: Workflow, n: NodeId, us: seq<NodeId>) {
    && Distinct(us)
    && (forall u :: u in us <==> Linked(w, u, n))
    && (forall u, v :: Before(us, u, v) ==> EarlierLink(w, u, v))
  }

  /** What the nodes `us` put out, one after the other; all of them have been successful. */
  ghost predicate Gathered(r: RunResult, us: seq<NodeId>, input: seq<Item>) {
    if us == [] then input == []
    else
      var k := |us| - 1;
      && us[k] in r.nodeResults && r.nodeResults[us[k]].status == Success
      && exists front :: input == front + r.nodeResults[us[k]].output && Gathered(r, us[..k], front)
  }

  /** The input of `n`: the gathered outputs of its sources, or the initial data when it has none. */
  ghost predicate Receives(w: Workflow, initial: Option<seq<Item>>, r: RunResult, n: NodeId, input: seq<Item>) {
    exists us :: AreSources(w, n, us) &&
      if us == [] then input == (match initial case Some(items) => items case None => []) else Gathered(r, us, input)
  }

  /** What the record of `n` says happened to it is what its handler does with the recorded input. */
  ghost predicate Recounts(w: Workflow, registry: Registry, initial: Option<seq<Item>>, r: RunResult, n: NodeId) {
    && n in r.nodeResults
    && exists i: nat, params ::
         && DefinedAt(w, i, n)
         && HasType(w.nodes[i], r.nodeResults[n].nodeType)
         && HasParams(w.nodes[i], params)
         && HandledAs(w, registry, initial, r, n, r.nodeResults[n], params)
  }

  ghost predicate HandledAs(w: Workflow, registry: Registry, initial: Option<seq<Item>>, r: RunResult, n: NodeId,
                            nr: NodeResult, params: Params)
  {
    match nr.status
    case Success =>
      && nr.nodeType in registry && Receives(w, initial, r, n, nr.input)
      && registry[nr.nodeType](nr.input, params) == Output(nr.output)
    case Error =>
      && nr.output == []
      && if nr.nodeType !in registry then nr.input == [] && r.failure == UnknownType(n, nr.nodeType)
         else
           && Receives(w, initial, r, n, nr.input)
           && FailsAs(registry[nr.nodeType](nr.input, params), n, r.failure)
    case Skipped => nr.input == [] && nr.output == []
    case _ => false
  }

  ghost predicate FailsAs(outcome: Outcome, n: NodeId, failure: Failure) {
    match outcome
    case Output(_) => false
    case TimedOut => failure == NodeTimedOut(n)
    case Raised(message) => failure == NodeFailed(n, message)
  }

  /** All that a finished run promises about the stored workflow. */
  ghost predicate Faithful(w: Workflow, registry: Registry, initial: Option<seq<Item>>, order: seq<NodeId>, r: RunResult) {
    && ListsNodes(w, order) && RespectsLinks(w, order)
    && (forall n :: n in r.nodeResults <==> IsNode(w, n))
    && (forall n :: IsNode(w, n) ==> Recounts(w, registry, initial, r, n))
  }

  /** The reported nodes are those that stored edges reach from a cycle, in the order of their first records. */
  ghost predicate ReportsCycles(w: Workflow, cycleNodes: seq<NodeId>) {
    && (exists c :: LinkCycle(w, c))
    && Distinct(cycleNodes)
    && (forall n :: n in cycleNodes <==> IsNode(w, n) && exists c, t :: LeadsOn(w, c, t, n))
    && (forall m, n :: Before(cycleNodes, m, n) ==> EarlierRecord(w, m, n))
  }

  ghost predicate EarlierRecord(w: Workflow, m: NodeId, n: NodeId) {
    forall i, j :: FirstRecord(w, i, m) && FirstRecord(w, j, n) ==> i < j
  }

  ghost predicate FirstRecord(w: Workflow, i: nat, n: NodeId) {
    i < |w.nodes| && Names(w.nodes[i].id, n) && forall j :: 0 <= j < i ==> !Names(w.nodes[j].id, n)
  }

  // ---------------------------------------------------------------------------
  // The dictionaries hold the stored records
  // ---------------------------------------------------------------------------

  lemma NodesAreListed(w: Workflow)
    ensures ListsNodes(w, Dedup(Ids(w.nodes)))
  {
    var ids := Ids(w.nodes);
    DedupIsSet(ids);
    forall n ensures n in ids <==> IsNode(w, n) {
      if i: nat :| i < |w.nodes| && Names(w.nodes[i].id, n) {
        assert ids[i] == n;
      }
      if n in ids {
        var i: nat :| i < |ids| && ids[i] == n;
        assert Names(w.nodes[i].id, n);
      }
    }
  }

  /** The kept edges of a list are those it had before, and the last one if both its ends are nodes. */
  lemma KeptSnoc(raw: seq<RawEdge>, e: RawEdge, ids: seq<NodeId>, u: NodeId, n: NodeId)
    requires Names(e.source, u) && Names(e.target, n)
    ensures KeptEdges(raw + [e], ids) == KeptEdges(raw, ids) + if u in ids && n in ids then [Edge(u, n)] else []
  {
    assert (raw + [e])[..|raw|] == raw;
    assert e.ToEdge() == Edge(u, n);
  }

  lemma NamesSome(field: Option<string>) returns (n: NodeId)
    ensures Names(field, n) && forall m :: Names(field, m) ==> m == n
  {
    n := NodeId(match field case Some(text) => text case None => "");
  }

  ghost predicate LinkedBefore(w: Workflow, k: nat, u: NodeId, n: NodeId) {
    exists i: nat :: i < k && LinksAt(w, i, u, n)
  }

  lemma LinkedSnoc(w: Workflow, k: nat, u: NodeId, n: NodeId)
    ensures LinkedBefore(w, k + 1, u, n) <==> LinkedBefore(w, k, u, n) || LinksAt(w, k, u, n)
  {
  }

  lemma {:induction false} KeptAreLinks(w: Workflow, ids: seq<NodeId>, k: nat, u: NodeId, n: NodeId)
    requires ListsNodes(w, ids) && k <= |w.edges|
    ensures Edge(u, n) in KeptEdges(w.edges[..k], ids) <==> LinkedBefore(w, k, u, n)
  {
    if k > 0 {
      var e := w.edges[k - 1];
      KeptAreLinks(w, ids, k - 1, u, n);
      LinkedSnoc(w, k - 1, u, n);
      assert w.edges[..k] == w.edges[..k - 1] + [e];
      var s := NamesSome(e.source);
      var t := NamesSome(e.target);
      KeptSnoc(w.edges[..k - 1], e, ids, s, t);
      assert LinksAt(w, k - 1, u, n) <==> s in ids && t in ids && s == u && t == n;
    }
  }

  lemma EdgesAreLinks(w: Workflow)
    ensures forall u, n :: Edge(u, n) in KeptEdges(w.edges, Dedup(Ids(w.nodes))) <==> Linked(w, u, n)
  {
    var ids := Dedup(Ids(w.nodes));
    NodesAreListed(w);
    assert w.edges[..|w.edges|] == w.edges;
    forall u, n ensures Edge(u, n) in KeptEdges(w.edges, ids) <==> Linked(w, u, n) {
      KeptAreLinks(w, ids, |w.edges|, u, n);
      assert LinkedBefore(w, |w.edges|, u, n) <==> Linked(w, u, n);
    }
  }

  // ---------------------------------------------------------------------------
  // Cycles
  // ---------------------------------------------------------------------------

  lemma NodeOrder(w: Workflow, m: NodeId, n: NodeId)
    requires Before(Dedup(Ids(w.nodes)), m, n)
    ensures EarlierRecord(w, m, n)
  {
    var ids := Ids(w.nodes);
    forall i, j | FirstRecord(w, i, m) && FirstRecord(w, j, n) ensures i < j {
      assert FirstAt(ids, i, m) && FirstAt(ids, j, n);
      DedupByFirst(ids, m, n, i, j);
    }
  }

  lemma CycleIsReported(w: Workflow, registry: Registry, initial: Option<seq<Item>>, cycleNodes: seq<NodeId>)
    requires
      var p := PlanOf(w, registry, initial);
      HasCycle(p.edges) && cycleNodes == Restrict(p.nodes, CycleVictims(p.nodes, p.edges))
    ensures ReportsCycles(w, cycleNodes)
  {
    var p := PlanOf(w, registry, initial);
    var victims := CycleVictims(p.nodes, p.edges);
    NodesAreListed(w);
    EdgesAreLinks(w);
    RestrictIsSet(p.nodes, victims);
    var c :| IsCycle(p.edges, c);
    assert LinkCycle(w, c);
    forall n ensures n in cycleNodes <==> IsNode(w, n) && exists c, t :: LeadsOn(w, c, t, n) {
      assert n in cycleNodes <==> n in ToSet(cycleNodes);
      SameReach(w, p.edges, n);
    }
    forall m, n | Before(cycleNodes, m, n) ensures EarlierRecord(w, m, n) {
      RestrictKeepsBefore(p.nodes, victims, m, n);
      NodeOrder(w, m, n);
    }
  }

  lemma SameReach(w: Workflow, edges: seq<Edge>, n: NodeId)
    requires forall u, v :: Edge(u, v) in edges <==> Linked(w, u, v)
    ensures DownstreamOfCycle(edges, n) <==> exists c, t :: LeadsOn(w, c, t, n)
  {
    if c, t :| LeadsFromCycle(edges, c, t, n) {
      assert LeadsOn(w, c, t, n);
    }
    if c, t :| LeadsOn(w, c, t, n) {
      assert LeadsFromCycle(edges, c, t, n);
    }
  }

  lemma CyclesAreStored(w: Workflow)
    ensures HasCycle(KeptEdges(w.edges, Dedup(Ids(w.nodes)))) <==> exists c :: LinkCycle(w, c)
  {
    EdgesAreLinks(w);
    var edges := KeptEdges(w.edges, Dedup(Ids(w.nodes)));
    if c :| IsCycle(edges, c) {
      assert LinkCycle(w, c);
    }
    if c :| LinkCycle(w, c) {
      assert IsCycle(edges, c);
    }
  }

  // ---------------------------------------------------------------------------
  // The order
  // ---------------------------------------------------------------------------

  lemma OrderRespectsLinks(w: Workflow, order: seq<NodeId>)
    requires IsTopologicalOrder(order, Dedup(Ids(w.nodes)), KeptEdges(w.edges, Dedup(Ids(w.nodes))))
    ensures ListsNodes(w, order) && RespectsLinks(w, order)
  {
    var ids := Dedup(Ids(w.nodes));
    NodesAreListed(w);
    EdgesAreLinks(w);
    forall n ensures n in order <==> IsNode(w, n) {
      assert n in ToSet(order) <==> n in ToSet(ids);
    }
    forall u, n | Linked(w, u, n) ensures Before(order, u, n) {
      var e := Edge(u, n);
      assert e in KeptEdges(w.edges, ids) && n in order;
      var b: nat :| b < |order| && order[b] == n;
      assert e.source in order[..b];
      var a: nat :| a < b && order[..b][a] == u;
      assert order[a] == u;
    }
  }

  // ---------------------------------------------------------------------------
  // The sources of a node
  // ---------------------------------------------------------------------------

  lemma SourceSnoc(edges: seq<Edge>, e: Edge)
    ensures Dedup(Sources(edges + [e])) ==
            if e.source in Dedup(Sources(edges)) then Dedup(Sources(edges)) else Dedup(Sources(edges)) + [e.source]
  {
    assert Sources(edges + [e]) == Sources(edges) + [e.source];
    DedupSnoc(Sources(edges), e.source);
    DedupIsSet(Sources(edges));
  }

  lemma SourceHasLink(w: Workflow, ids: seq<NodeId>, k: nat, u: NodeId)
    requires ListsNodes(w, ids) && k <= |w.edges|
    ensures u in Dedup(Sources(KeptEdges(w.edges[..k], ids))) <==> exists n :: LinkedBefore(w, k, u, n)
  {
    var kept := KeptEdges(w.edges[..k], ids);
    DedupIsSet(Sources(kept));
    if u in Sources(kept) {
      var a: nat :| a < |kept| && Sources(kept)[a] == u;
      assert kept[a] == Edge(u, kept[a].target);
      KeptAreLinks(w, ids, k, u, kept[a].target);
    }
    if n :| LinkedBefore(w, k, u, n) {
      KeptAreLinks(w, ids, k, u, n);
      var a: nat :| a < |kept| && kept[a] == Edge(u, n);
      assert Sources(kept)[a] == u;
    }
  }

  /** The keys of the adjacency dictionary come in the order of the first edges that leave them. */
  lemma {:induction false} SourcesByFirstLink(w: Workflow, ids: seq<NodeId>, k: nat, u: NodeId, v: NodeId)
    requires ListsNodes(w, ids) && k <= |w.edges|
    requires Before(Dedup(Sources(KeptEdges(w.edges[..k], ids))), u, v)
    ensures EarlierLink(w, u, v)
  {
    var front := KeptEdges(w.edges[..k - 1], ids);
    var e := w.edges[k - 1];
    assert w.edges[..k] == w.edges[..k - 1] + [e];
    var s := NamesSome(e.source);
    var t := NamesSome(e.target);
    KeptSnoc(w.edges[..k - 1], e, ids, s, t);
    var sources := Dedup(Sources(front));
    if s in ids && t in ids {
      SourceSnoc(front, Edge(s, t));
      BeforeSnoc(sources, s, u, v);
    }
    if Before(sources, u, v) {
      SourcesByFirstLink(w, ids, k - 1, u, v);
    } else {
      LinksEarlier(w, ids, k - 1, u, v);
    }
  }

  lemma LinksEarlier(w: Workflow, ids: seq<NodeId>, k: nat, u: NodeId, v: NodeId)
    requires ListsNodes(w, ids) && k <= |w.edges|
    requires u in Dedup(Sources(KeptEdges(w.edges[..k], ids))) && v !in Dedup(Sources(KeptEdges(w.edges[..k], ids)))
    ensures EarlierLink(w, u, v)
  {
    SourceHasLink(w, ids, k, u);
    SourceHasLink(w, ids, k, v);
    var n :| LinkedBefore(w, k, u, n);
    var m: nat :| m < k && LinksAt(w, m, u, n);
    forall i: nat, j: nat | FirstFrom(w, i, u) && FirstFrom(w, j, v) ensures i < j {
      assert i <= m;
      var t :| LinksAt(w, j, v, t);
      assert j < k ==> LinkedBefore(w, k, v, t);
    }
  }

  lemma {:induction false} FeedsKeepOrder(candidates: seq<NodeId>, edges: seq<Edge>, n: NodeId, u: NodeId, v: NodeId)
    requires Before(Feeds(candidates, edges, n), u, v)
    ensures Before(candidates, u, v)
  {
    var front, last := candidates[..|candidates| - 1], candidates[|candidates| - 1];
    assert candidates == front + [last];
    var rest := Feeds(front, edges, n);
    FeedsAreEdges(front, edges, n);
    BeforeSnoc(front, last, u, v);
    BeforeSnoc(rest, last, u, v);
    if Before(rest, u, v) {
      FeedsKeepOrder(front, edges, n, u, v);
    }
  }

  lemma {:induction false} FeedsAreDistinct(candidates: seq<NodeId>, edges: seq<Edge>, n: NodeId)
    requires Distinct(candidates)
    ensures Distinct(Feeds(candidates, edges, n))
  {
    if candidates != [] {
      var front, last := candidates[..|candidates| - 1], candidates[|candidates| - 1];
      assert candidates == front + [last];
      FeedsAreDistinct(front, edges, n);
      FeedsAreEdges(front, edges, n);
    }
  }

  /** The upstream list that the executor gathers from is the list of the sources named by the stored edges. */
  lemma UpstreamAreSources(w: Workflow, n: NodeId)
    ensures AreSources(w, n, Upstream(KeptEdges(w.edges, Dedup(Ids(w.nodes))), n))
  {
    var ids := Dedup(Ids(w.nodes));
    var edges := KeptEdges(w.edges, ids);
    var candidates := Dedup(Sources(edges));
    var us := Upstream(edges, n);
    NodesAreListed(w);
    EdgesAreLinks(w);
    DedupIsSet(Sources(edges));
    FeedsAreEdges(candidates, edges, n);
    FeedsAreDistinct(candidates, edges, n);
    forall u ensures u in us <==> Linked(w, u, n) {
      if Edge(u, n) in edges {
        var a: nat :| a < |edges| && edges[a] == Edge(u, n);
        assert Sources(edges)[a] == u;
      }
    }
    assert w.edges[..|w.edges|] == w.edges;
    forall u, v | Before(us, u, v) ensures EarlierLink(w, u, v) {
      FeedsKeepOrder(candidates, edges, n, u, v);
      SourcesByFirstLink(w, ids, |w.edges|, u, v);
    }
  }

  // ---------------------------------------------------------------------------
  // What the adjacency and in-degree dictionaries say
  // ---------------------------------------------------------------------------

  /** The places among the first `k` stored edges of those that lead to `n`. */
  ghost function PlacesInto(w: Workflow, k: nat, n: NodeId): set<nat> {
    set i: nat | i < k && i < |w.edges| && LeadsTo(w, i, n)
  }

  ghost predicate LeadsTo(w: Workflow, i: nat, n: NodeId) {
    exists u :: LinksAt(w, i, u, n)
  }

  lemma PlacesSnoc(w: Workflow, k: nat, n: NodeId)
    requires k < |w.edges|
    ensures |PlacesInto(w, k + 1, n)| == |PlacesInto(w, k, n)| + if LeadsTo(w, k, n) then 1 else 0
  {
    assert PlacesInto(w, k + 1, n) == PlacesInto(w, k, n) + if LeadsTo(w, k, n) then {k} else {};
  }

  lemma PendingSnoc(edges: seq<Edge>, e: Edge, n: NodeId)
    ensures Pending(edges + [e], n, []) == Pending(edges, n, []) + if e.target == n then 1 else 0
  {
    assert (edges + [e])[..|edges|] == edges;
  }

  /** One more stored edge is one more kept edge into `n`, if it leads there. */
  lemma KeptOneMore(w: Workflow, ids: seq<NodeId>, k: nat, n: NodeId)
    requires ListsNodes(w, ids) && k < |w.edges|
    ensures Pending(KeptEdges(w.edges[..k + 1], ids), n, []) ==
            Pending(KeptEdges(w.edges[..k], ids), n, []) + if LeadsTo(w, k, n) then 1 else 0
  {
    var s := NamesSome(w.edges[k].source);
    var t := NamesSome(w.edges[k].target);
    assert w.edges[..k + 1] == w.edges[..k] + [w.edges[k]];
    KeptSnoc(w.edges[..k], w.edges[k], ids, s, t);
    PendingSnoc(KeptEdges(w.edges[..k], ids), Edge(s, t), n);
    assert LeadsTo(w, k, n) <==> LinksAt(w, k, s, n);
  }

  lemma {:induction false} PendingIsPlaces(w: Workflow, ids: seq<NodeId>, k: nat, n: NodeId)
    requires ListsNodes(w, ids) && k <= |w.edges|
    ensures Pending(KeptEdges(w.edges[..k], ids), n, []) == |PlacesInto(w, k, n)|
  {
    if k == 0 {
      assert PlacesInto(w, 0, n) == {};
    } else {
      PendingIsPlaces(w, ids, k - 1, n);
      PlacesSnoc(w, k - 1, n);
      KeptOneMore(w, ids, k - 1, n);
    }
  }

  /** The dictionaries hold, for every node, its targets and the number of stored edges into it. */
  ghost predicate HoldsLinks(w: Workflow, sources: seq<NodeId>, adjacency: map<NodeId, seq<NodeId>>, inDegree: map<NodeId, int>) {
    && (forall u, n :: n in Adjacent(adjacency, u) <==> Linked(w, u, n))
    && (forall n :: n in inDegree <==> IsNode(w, n))
    && (forall n :: n in inDegree ==> inDegree[n] == |PlacesInto(w, |w.edges|, n)|)
    && (forall u :: u in sources <==> exists n :: Linked(w, u, n))
    && (forall u, v :: Before(sources, u, v) ==> EarlierLink(w, u, v))
  }

  lemma DictionariesHoldLinks(w: Workflow, sources: seq<NodeId>, adjacency: map<NodeId, seq<NodeId>>, inDegree: map<NodeId, int>)
    requires
      var ids := Dedup(Ids(w.nodes));
      var edges := KeptEdges(w.edges, ids);
      Represents(ids, edges, adjacency, inDegree) && sources == Dedup(Sources(edges))
    ensures HoldsLinks(w, sources, adjacency, inDegree)
  {
    var ids := Dedup(Ids(w.nodes));
    var edges := KeptEdges(w.edges, ids);
    NodesAreListed(w);
    EdgesAreLinks(w);
    assert w.edges[..|w.edges|] == w.edges;
    forall u, n ensures n in Adjacent(adjacency, u) <==> Linked(w, u, n) {
      TargetsAreEdges(edges, u);
    }
    forall n | n in inDegree ensures inDegree[n] == |PlacesInto(w, |w.edges|, n)| {
      PendingIsPlaces(w, ids, |w.edges|, n);
    }
    forall u ensures u in sources <==> exists n :: Linked(w, u, n) {
      SourceHasLink(w, ids, |w.edges|, u);
      assert forall n :: LinkedBefore(w, |w.edges|, u, n) <==> Linked(w, u, n);
    }
    forall u, v | Before(sources, u, v) ensures EarlierLink(w, u, v) {
      SourcesByFirstLink(w, ids, |w.edges|, u, v);
    }
  }

  // ---------------------------------------------------------------------------
  // The recorded values
  // ---------------------------------------------------------------------------

  /** The node map holds the last record of every node. */
  lemma {:induction false} LastRecordCounts(w: Workflow, k: nat, n: NodeId) returns (i: nat)
    requires k <= |w.nodes| && n in DefsOf(w.nodes[..k])
    ensures i < k && Names(w.nodes[i].id, n) && DefsOf(w.nodes[..k])[n] == w.nodes[i]
    ensures forall j :: i < j < k ==> !Names(w.nodes[j].id, n)
  {
    var last := w.nodes[k - 1];
    assert w.nodes[..k][..k - 1] == w.nodes[..k - 1];
    if last.Id() == n {
      i := k - 1;
    } else {
      i := LastRecordCounts(w, k - 1, n);
    }
  }

  lemma {:induction false} ConcatIsGathered(r: RunResult, us: seq<NodeId>)
    requires forall u :: u in us ==> u in r.nodeResults && r.nodeResults[u].status == Success
    ensures Gathered(r, us, Concat(Outputs(r), us))
  {
    if us != [] {
      var k := |us| - 1;
      ConcatIsGathered(r, us[..k]);
      assert us[k] in us && us[k] in Outputs(r);
    }
  }

  lemma InputIsReceived(w: Workflow, p: Plan, order: seq<NodeId>, k: nat, r: RunResult, j: nat)
    requires p == PlanOf(w, p.registry, p.initial)
    requires IsTopologicalOrder(order, p.nodes, p.edges) && Closed(r, order, k) && j < |order| && j <= k
    ensures Receives(w, p.initial, r, order[j], InputOf(p, order[j], Outputs(r)))
  {
    var us := Upstream(p.edges, order[j]);
    UpstreamAreSources(w, order[j]);
    UpstreamComesFirst(p, order, j);
    forall u | u in us ensures u in r.nodeResults && r.nodeResults[u].status == Success {
      assert u in order[..j];
      var a: nat :| a < j && order[a] == u;
      assert u in ToSet(order);
    }
    ConcatIsGathered(r, us);
  }

  lemma RecordIsFaithful(w: Workflow, p: Plan, order: seq<NodeId>, k: nat, r: RunResult, j: nat)
    requires p == PlanOf(w, p.registry, p.initial)
    requires IsTopologicalOrder(order, p.nodes, p.edges) && Closed(r, order, k) && Meant(p, r) && InputsFlow(p, r)
    requires j < |order|
    ensures Recounts(w, p.registry, p.initial, r, order[j])
  {
    var n := order[j];
    assert n in ToSet(order);
    var nr := r.nodeResults[n];
    assert NodeMeant(p, n, nr, r.failure) && InputFlows(p, r, n, nr);
    assert w.nodes[..|w.nodes|] == w.nodes;
    var i := LastRecordCounts(w, |w.nodes|, n);
    assert DefinedAt(w, i, n) && HasType(w.nodes[i], nr.nodeType) && HasParams(w.nodes[i], w.nodes[i].Params());
    if j <= k {
      InputIsReceived(w, p, order, k, r, j);
    }
    assert HandledAs(w, p.registry, p.initial, r, n, nr, w.nodes[i].Params());
  }

  /** Everything a finished run records is what the stored workflow says. */
  lemma RunIsFaithful(w: Workflow, p: Plan, order: seq<NodeId>, k: nat, r: RunResult)
    requires p == PlanOf(w, p.registry, p.initial)
    requires IsTopologicalOrder(order, p.nodes, p.edges) && Closed(r, order, k) && Meant(p, r) && InputsFlow(p, r)
    ensures Faithful(w, p.registry, p.initial, order, r)
  {
    OrderRespectsLinks(w, order);
    forall n ensures n in r.nodeResults <==> IsNode(w, n) {
      assert n in ToSet(order) <==> n in order;
    }
    forall n | IsNode(w, n) ensures Recounts(w, p.registry, p.initial, r, n) {
      assert n in order;
      var j: nat :| j < |order| && order[j] == n;
      RecordIsFaithful(w, p, order, k, r, j);
    }
  }
}
