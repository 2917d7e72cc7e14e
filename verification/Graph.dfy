/**
 The workflow graph of core/workflow/executor.py and its topological sort.

 The Python dictionaries are insertion ordered, and that order is observable: it
 decides the queue's first contents, the order of the reported cycle nodes and the
 order in which upstream outputs are concatenated. A dictionary is therefore a key
 sequence together with a map.
 */
module WorkflowGraph {
  import opened Sequences

  datatype NodeId = NodeId(text: string)

  datatype Edge = Edge(source: NodeId, target: NodeId)

  // ---------------------------------------------------------------------------
  // Paths and cycles: the vocabulary of the specification
  // ---------------------------------------------------------------------------

  ghost predicate IsPath(edges: seq<Edge>, p: seq<NodeId>) {
    |p| > 0 && forall i :: 0 < i < |p| ==> Edge(p[i - 1], p[i]) in edges
  }

  ghost predicate IsCycle(edges: seq<Edge>, c: seq<NodeId>) {
    |c| > 1 && IsPath(edges, c) && c[0] == c[|c| - 1]
  }

  ghost predicate HasCycle(edges: seq<Edge>) {
    exists c :: IsCycle(edges, c)
  }

  /** `t` leads from a node of the cycle `c` to `n`. */
  ghost predicate LeadsFromCycle(edges: seq<Edge>, c: seq<NodeId>, t: seq<NodeId>, n: NodeId) {
    IsCycle(edges, c) && IsPath(edges, t) && t[0] == c[0] && t[|t| - 1] == n
  }

  ghost predicate DownstreamOfCycle(edges: seq<Edge>, n: NodeId) {
    exists c, t :: LeadsFromCycle(edges, c, t, n)
  }

  ghost predicate IsTopologicalOrder(order: seq<NodeId>, nodes: seq<NodeId>, edges: seq<Edge>) {
    && Distinct(order)
    && ToSet(order) == ToSet(nodes)
    && SourcesFirst(order, edges)
  }

  /** Every node of `order` has all its upstream nodes before it. */
  ghost predicate SourcesFirst(order: seq<NodeId>, edges: seq<Edge>) {
    forall e, j :: e in edges && 0 <= j < |order| && order[j] == e.target ==> e.source in order[..j]
  }

  // ---------------------------------------------------------------------------
  // What the adjacency and in-degree dictionaries hold
  // ---------------------------------------------------------------------------

  function Targets(edges: seq<Edge>, u: NodeId): seq<NodeId> {
    if edges == [] then []
    else
      var rest, e := Targets(edges[..|edges| - 1], u), edges[|edges| - 1];
      if e.source == u then rest + [e.target] else rest
  }

  /** The number of edges into `v`, parallel edges counted apart, whose source is not in `done`. */
  ghost function Pending(edges: seq<Edge>, v: NodeId, done: seq<NodeId>): nat {
    if edges == [] then 0
    else
      var e := edges[|edges| - 1];
      Pending(edges[..|edges| - 1], v, done) + if e.target == v && e.source !in done then 1 else 0
  }

  function Adjacent(adjacency: map<NodeId, seq<NodeId>>, u: NodeId): seq<NodeId> {
    if u in adjacency then adjacency[u] else []
  }

  ghost predicate Represents(nodes: seq<NodeId>, edges: seq<Edge>,
                             adjacency: map<NodeId, seq<NodeId>>, inDegree: map<NodeId, int>)
  {
    && Distinct(nodes)
    && (forall e :: e in edges ==> e.source in nodes && e.target in nodes)
    && HoldsTargets(edges, adjacency)
    && HoldsDegrees(nodes, edges, inDegree)
  }

  ghost predicate HoldsTargets(edges: seq<Edge>, adjacency: map<NodeId, seq<NodeId>>) {
    forall u :: Adjacent(adjacency, u) == Targets(edges, u)
  }

  ghost predicate HoldsDegrees(nodes: seq<NodeId>, edges: seq<Edge>, inDegree: map<NodeId, int>) {
    && inDegree.Keys == ToSet(nodes)
    && (forall v :: v in inDegree ==> inDegree[v] == Pending(edges, v, []))
  }

  lemma {:induction false} TargetsAreEdges(edges: seq<Edge>, u: NodeId)
    ensures forall v :: v in Targets(edges, u) <==> Edge(u, v) in edges
  {
    if edges != [] {
      var front := edges[..|edges| - 1];
      TargetsAreEdges(front, u);
      assert edges == front + [edges[|edges| - 1]];
    }
  }

  /** Finishing `n` removes from `v`'s pending edges exactly those that leave `n`. */
  lemma {:induction false} PendingAfter(edges: seq<Edge>, v: NodeId, done: seq<NodeId>, n: NodeId)
    requires n !in done
    ensures Pending(edges, v, done) == Pending(edges, v, done + [n]) + Count(Targets(edges, n), v)
  {
    if edges != [] {
      var front, e := edges[..|edges| - 1], edges[|edges| - 1];
      PendingAfter(front, v, done, n);
      if e.source == n {
        assert Targets(edges, n)[..|Targets(front, n)|] == Targets(front, n);
      }
    }
  }

  lemma {:induction false} PendingZero(edges: seq<Edge>, v: NodeId, done: seq<NodeId>)
    ensures Pending(edges, v, done) == 0 <==> forall e :: e in edges && e.target == v ==> e.source in done
  {
    if edges != [] {
      var front, e := edges[..|edges| - 1], edges[|edges| - 1];
      PendingZero(front, v, done);
      assert edges == front + [e];
      if e.target == v && e.source !in done {
        assert e in edges;
      }
    }
  }

  // ---------------------------------------------------------------------------
  // The two halves of the cycle characterisation
  // ---------------------------------------------------------------------------

  /** A path that ends inside a sources-first order lies in it, strictly forward. */
  lemma {:induction false} PathRunsForward(edges: seq<Edge>, order: seq<NodeId>, p: seq<NodeId>, j: nat) returns (i: nat)
    requires SourcesFirst(order, edges) && IsPath(edges, p)
    requires j < |order| && order[j] == p[|p| - 1]
    ensures i + |p| - 1 <= j && order[i] == p[0]
    decreases |p|
  {
    if |p| == 1 {
      i := j;
    } else {
      var e := Edge(p[|p| - 2], p[|p| - 1]);
      assert e in edges && e.source in order[..j];
      var k :| 0 <= k < j && order[k] == e.source;
      i := PathRunsForward(edges, order, p[..|p| - 1], k);
    }
  }

  /** No node downstream of a cycle can ever be placed. */
  lemma PlacedNodesAvoidCycles(edges: seq<Edge>, order: seq<NodeId>, n: NodeId)
    requires Distinct(order) && SourcesFirst(order, edges) && n in order
    ensures !DownstreamOfCycle(edges, n)
  {
    if DownstreamOfCycle(edges, n) {
      var c, t :| LeadsFromCycle(edges, c, t, n);
      var j :| 0 <= j < |order| && order[j] == n;
      var i := PathRunsForward(edges, order, t, j);
      var k := PathRunsForward(edges, order, c, i);
      assert false;
    }
  }

  lemma ClosesCycle(edges: seq<Edge>, p: seq<NodeId>, j: nat)
    requires IsPath(edges, p) && j < |p| && Edge(p[j], p[0]) in edges
    ensures DownstreamOfCycle(edges, p[|p| - 1])
  {
    var c, t := [p[j]] + p[..j + 1], p[j..];
    forall i | 0 < i < |c| ensures Edge(c[i - 1], c[i]) in edges {
      if i > 1 {
        assert c[i - 1] == p[i - 2] && c[i] == p[i - 1];
      }
    }
    forall i | 0 < i < |t| ensures Edge(t[i - 1], t[i]) in edges {
      assert t[i - 1] == p[j + i - 1] && t[i] == p[j + i];
    }
    assert LeadsFromCycle(edges, c, t, p[|p| - 1]);
  }

  /** A duplicate-free path that stays inside `left`. */
  ghost predicate SimplePath(edges: seq<Edge>, left: set<NodeId>, p: seq<NodeId>) {
    IsPath(edges, p) && Distinct(p) && ToSet(p) <= left
  }

  lemma ExtendsPath(edges: seq<Edge>, left: set<NodeId>, u: NodeId, p: seq<NodeId>)
    requires SimplePath(edges, left, p) && Edge(u, p[0]) in edges && u in left && u !in p
    ensures SimplePath(edges, left, [u] + p)
    ensures |p| < |left|
  {
    var q := [u] + p;
    forall i | 0 < i < |q| ensures Edge(q[i - 1], q[i]) in edges {
      if i > 1 {
        assert q[i - 1] == p[i - 2] && q[i] == p[i - 1];
      }
    }
    assert ToSet(q) == ToSet(p) + {u};
    DistinctSize(q);
    SubsetSize(ToSet(q), left);
  }

  lemma UpstreamInside(edges: seq<Edge>, left: set<NodeId>, p: seq<NodeId>) returns (u: NodeId)
    requires forall v :: v in left ==> HasUpstreamIn(edges, left, v)
    requires SimplePath(edges, left, p)
    ensures u in left && Edge(u, p[0]) in edges
  {
    assert p[0] in ToSet(p);
    u :| u in left && Edge(u, p[0]) in edges;
  }

  /** Walking upstream inside a set where everyone has an upstream node must close a cycle. */
  lemma {:induction false} WalkUpstream(edges: seq<Edge>, left: set<NodeId>, p: seq<NodeId>)
    requires forall v :: v in left ==> HasUpstreamIn(edges, left, v)
    requires SimplePath(edges, left, p)
    ensures DownstreamOfCycle(edges, p[|p| - 1])
    decreases |left| - |p|
  {
    var u := UpstreamInside(edges, left, p);
    if u in p {
      var j :| 0 <= j < |p| && p[j] == u;
      ClosesCycle(edges, p, j);
    } else {
      ExtendsPath(edges, left, u, p);
      WalkUpstream(edges, left, [u] + p);
    }
  }

  ghost predicate HasUpstreamIn(edges: seq<Edge>, left: set<NodeId>, v: NodeId) {
    exists u :: u in left && Edge(u, v) in edges
  }

  // ---------------------------------------------------------------------------
  // Kahn's algorithm
  // ---------------------------------------------------------------------------

  datatype SortResult =
    | Sorted(order: seq<NodeId>)
    | CycleDetected(cycleNodes: seq<NodeId>)

  ghost predicate KahnInvariant(nodes: seq<NodeId>, edges: seq<Edge>,
                                order: seq<NodeId>, queue: seq<NodeId>, inDegree: map<NodeId, int>)
  {
    && Distinct(order + queue)
    && ToSet(order + queue) <= ToSet(nodes)
    && inDegree.Keys == ToSet(nodes)
    && SourcesFirst(order, edges)
    && (forall v :: v in nodes ==> inDegree[v] == Pending(edges, v, order))
    && (forall v :: v in nodes ==> (inDegree[v] == 0 <==> v in order + queue))
  }

  /** The inner loop: `n` is placed and the first `k` of its downstream nodes are relaxed. */
  ghost predicate RelaxInvariant(nodes: seq<NodeId>, edges: seq<Edge>, before: seq<NodeId>, n: NodeId,
                                 queue: seq<NodeId>, inDegree: map<NodeId, int>, k: nat)
    requires k <= |Targets(edges, n)|
  {
    && Distinct(before + [n] + queue)
    && ToSet(before + [n] + queue) <= ToSet(nodes)
    && inDegree.Keys == ToSet(nodes)
    && (forall v :: v in nodes ==> inDegree[v] == Pending(edges, v, before) - Count(Targets(edges, n)[..k], v))
    && (forall v :: v in nodes ==> (inDegree[v] == 0 <==> v in before + [n] + queue))
  }

  /** Placing `n`, whose in-degree has reached zero, keeps every upstream node in front. */
  lemma PlaceNode(nodes: seq<NodeId>, edges: seq<Edge>, order: seq<NodeId>, queue: seq<NodeId>, inDegree: map<NodeId, int>)
    requires KahnInvariant(nodes, edges, order, queue, inDegree) && queue != []
    ensures queue[0] in nodes && queue[0] !in order
    ensures SourcesFirst(order + [queue[0]], edges)
    ensures RelaxInvariant(nodes, edges, order, queue[0], queue[1..], inDegree, 0)
  {
    var n := queue[0];
    var both := order + queue;
    assert both[|order|] == n;
    assert n in both && n in ToSet(both);
    forall i | 0 <= i < |order| ensures order[i] != n {
      assert both[i] == order[i];
    }
    PendingZero(edges, n, order);
    var next := order + [n];
    forall e, j | e in edges && 0 <= j < |next| && next[j] == e.target
      ensures e.source in next[..j]
    {
      if j < |order| {
        assert next[..j] == order[..j];
      } else {
        assert next[..j] == order;
      }
    }
    assert next + queue[1..] == both;
  }

  /** One decrement of the inner loop, with the node queued when it reaches zero. */
  lemma RelaxStep(nodes: seq<NodeId>, edges: seq<Edge>, before: seq<NodeId>, n: NodeId,
                  queue: seq<NodeId>, inDegree: map<NodeId, int>, k: nat)
    requires k < |Targets(edges, n)| && Targets(edges, n)[k] in nodes && n !in before
    requires RelaxInvariant(nodes, edges, before, n, queue, inDegree, k)
    ensures
      var v := Targets(edges, n)[k];
      var relaxed := inDegree[v := inDegree[v] - 1];
      var queue' := if relaxed[v] == 0 then queue + [v] else queue;
      RelaxInvariant(nodes, edges, before, n, queue', relaxed, k + 1)
  {
    var targets := Targets(edges, n);
    var v := targets[k];
    var relaxed := inDegree[v := inDegree[v] - 1];
    var placed := before + [n] + queue;
    assert inDegree[v] > 0 by {
      CountPositive(targets, k);
      PendingAfter(edges, v, before, n);
    }
    assert v !in placed;
    forall w ensures Count(targets[..k + 1], w) == Count(targets[..k], w) + if w == v then 1 else 0 {
      assert targets[..k + 1][..k] == targets[..k];
    }
    assert relaxed.Keys == ToSet(nodes);
    if relaxed[v] == 0 {
      assert before + [n] + (queue + [v]) == placed + [v];
      DistinctSnoc(placed, v);
    }
  }

  /** After the last decrement the in-degrees count the edges that leave unplaced nodes. */
  lemma RelaxDone(nodes: seq<NodeId>, edges: seq<Edge>, before: seq<NodeId>, n: NodeId,
                  queue: seq<NodeId>, inDegree: map<NodeId, int>)
    requires n !in before && SourcesFirst(before + [n], edges)
    requires RelaxInvariant(nodes, edges, before, n, queue, inDegree, |Targets(edges, n)|)
    ensures KahnInvariant(nodes, edges, before + [n], queue, inDegree)
  {
    var targets := Targets(edges, n);
    assert targets[..|targets|] == targets;
    forall v | v in nodes ensures inDegree[v] == Pending(edges, v, before + [n]) {
      PendingAfter(edges, v, before, n);
    }
  }

  // ---------------------------------------------------------------------------
  // First in, first out: which of the topological orders is produced
  // ---------------------------------------------------------------------------

  /** When a node became ready: after how many placed nodes, and at which place among those that became ready with it. */
  datatype Rank = Rank(time: nat, place: nat)

  predicate Earlier(a: Rank, b: Rank) {
    a.time < b.time || (a.time == b.time && a.place < b.place)
  }

  ghost predicate LastIn(s: seq<NodeId>, i: nat, x: NodeId) {
    i < |s| && s[i] == x && forall j :: i < j < |s| ==> s[j] != x
  }

  /**
   All upstream nodes of `x` are among the first `r.time` of the order. At time zero the place is
   that in the node list; later the node placed last leads to `x`, and the place is that of the
   last such edge among its edges.
   */
  ghost predicate HasRank(nodes: seq<NodeId>, edges: seq<Edge>, order: seq<NodeId>, x: NodeId, r: Rank) {
    && r.time <= |order|
    && (forall e :: e in edges && e.target == x ==> e.source in order[..r.time])
    && if r.time == 0 then r.place < |nodes| && nodes[r.place] == x
       else Edge(order[r.time - 1], x) in edges && LastIn(Targets(edges, order[r.time - 1]), r.place, x)
  }

  /** The nodes of `all` stand in the order in which they became ready. */
  ghost predicate ByRank(nodes: seq<NodeId>, edges: seq<Edge>, order: seq<NodeId>, all: seq<NodeId>, ranks: seq<Rank>) {
    && |ranks| == |all|
    && (forall i :: 0 <= i < |all| ==> HasRank(nodes, edges, order, all[i], ranks[i]))
    && (forall i, j :: 0 <= i < j < |all| ==> Earlier(ranks[i], ranks[j]))
  }

  /** While `n`'s targets are relaxed, everything queued before the k-th of them ranks before it. */
  ghost predicate RankedTo(nodes: seq<NodeId>, edges: seq<Edge>, before: seq<NodeId>, n: NodeId,
                           queue: seq<NodeId>, ranks: seq<Rank>, k: nat)
  {
    && ByRank(nodes, edges, before + [n], before + [n] + queue, ranks)
    && (forall i :: 0 <= i < |ranks| ==> Earlier(ranks[i], Rank(|before| + 1, k)))
  }

  ghost predicate IsQueueOrder(nodes: seq<NodeId>, edges: seq<Edge>, order: seq<NodeId>) {
    exists ranks :: ByRank(nodes, edges, order, order, ranks)
  }

  lemma RankStays(nodes: seq<NodeId>, edges: seq<Edge>, order: seq<NodeId>, n: NodeId, all: seq<NodeId>, ranks: seq<Rank>)
    requires ByRank(nodes, edges, order, all, ranks)
    ensures ByRank(nodes, edges, order + [n], all, ranks)
  {
    forall i | 0 <= i < |all| ensures HasRank(nodes, edges, order + [n], all[i], ranks[i]) {
      assert (order + [n])[..ranks[i].time] == order[..ranks[i].time];
    }
  }

  lemma RankSnoc(nodes: seq<NodeId>, edges: seq<Edge>, order: seq<NodeId>, all: seq<NodeId>, ranks: seq<Rank>,
                 x: NodeId, r: Rank)
    requires ByRank(nodes, edges, order, all, ranks) && HasRank(nodes, edges, order, x, r)
    requires forall i :: 0 <= i < |ranks| ==> Earlier(ranks[i], r)
    ensures ByRank(nodes, edges, order, all + [x], ranks + [r])
  {
  }

  lemma NoneLeft(targets: seq<NodeId>, k: nat, v: NodeId, m: nat)
    requires k < |targets| && targets[k] == v && Count(targets[..k + 1], v) == m + Count(targets, v)
    ensures m == 0 && LastIn(targets, k, v)
  {
    var rest := targets[k + 1..];
    assert targets == targets[..k + 1] + rest;
    CountSplits(targets[..k + 1], rest, v);
    CountZero(rest, v);
    forall j | k < j < |targets| ensures targets[j] != v {
      assert targets[j] == rest[j - k - 1];
    }
  }

  /** A node whose in-degree reaches zero at the k-th decrement becomes ready there. */
  lemma RankOfRelaxed(nodes: seq<NodeId>, edges: seq<Edge>, before: seq<NodeId>, n: NodeId, k: nat, v: NodeId)
    requires k < |Targets(edges, n)| && Targets(edges, n)[k] == v && n !in before
    requires Pending(edges, v, before) == Count(Targets(edges, n)[..k + 1], v)
    ensures HasRank(nodes, edges, before + [n], v, Rank(|before| + 1, k))
  {
    PendingAfter(edges, v, before, n);
    NoneLeft(Targets(edges, n), k, v, Pending(edges, v, before + [n]));
    PendingZero(edges, v, before + [n]);
    assert (before + [n])[..|before| + 1] == before + [n];
    TargetsAreEdges(edges, n);
    assert v in Targets(edges, n);
  }

  lemma {:induction false} RankIsUnique(nodes: seq<NodeId>, edges: seq<Edge>, order: seq<NodeId>, x: NodeId, r: Rank, s: Rank)
    requires Distinct(nodes) && Distinct(order)
    requires HasRank(nodes, edges, order, x, r) && HasRank(nodes, edges, order, x, s)
    ensures r == s
  {
    TimeIsLeast(nodes, edges, order, x, r, s.time);
    TimeIsLeast(nodes, edges, order, x, s, r.time);
  }

  /** No shorter prefix of the order holds all upstream nodes. */
  lemma TimeIsLeast(nodes: seq<NodeId>, edges: seq<Edge>, order: seq<NodeId>, x: NodeId, r: Rank, t: nat)
    requires Distinct(order) && HasRank(nodes, edges, order, x, r) && t <= |order|
    requires forall e :: e in edges && e.target == x ==> e.source in order[..t]
    ensures r.time <= t
  {
    if r.time > 0 {
      var e := Edge(order[r.time - 1], x);
      assert e in edges && e.source in order[..t];
      var i :| 0 <= i < t && order[..t][i] == e.source;
      assert order[i] == order[r.time - 1];
    }
  }

  /** In a topological order a node is ready before its turn. */
  lemma ReadyInTime(nodes: seq<NodeId>, edges: seq<Edge>, order: seq<NodeId>, i: nat, r: Rank)
    requires Distinct(order) && SourcesFirst(order, edges) && i < |order|
    requires HasRank(nodes, edges, order, order[i], r)
    ensures r.time <= i
  {
    TimeIsLeast(nodes, edges, order, order[i], r, i);
  }

  lemma RankInPrefix(nodes: seq<NodeId>, edges: seq<Edge>, a: seq<NodeId>, b: seq<NodeId>, k: nat, x: NodeId, r: Rank)
    requires k <= |a| && k <= |b| && a[..k] == b[..k] && r.time <= k && HasRank(nodes, edges, a, x, r)
    ensures HasRank(nodes, edges, b, x, r)
  {
    assert a[..r.time] == a[..k][..r.time] == b[..k][..r.time] == b[..r.time];
    assert r.time > 0 ==> a[r.time - 1] == a[..k][r.time - 1] == b[r.time - 1];
  }

  /** The rank of the node at `k` in one order is its rank in any order that agrees so far. */
  lemma RankCarriesOver(nodes: seq<NodeId>, edges: seq<Edge>, a: seq<NodeId>, ra: seq<Rank>,
                        b: seq<NodeId>, rb: seq<Rank>, k: nat, i: nat)
    requires Distinct(nodes) && Distinct(a) && Distinct(b) && SourcesFirst(a, edges)
    requires ByRank(nodes, edges, a, a, ra) && ByRank(nodes, edges, b, b, rb)
    requires k < |a| && k <= |b| && a[..k] == b[..k] && i < |b| && b[i] == a[k]
    ensures rb[i] == ra[k]
  {
    ReadyInTime(nodes, edges, a, k, ra[k]);
    RankInPrefix(nodes, edges, a, b, k, a[k], ra[k]);
    RankIsUnique(nodes, edges, b, a[k], ra[k], rb[i]);
  }

  /** At the first place where two queue orders differ, neither node could have come first. */
  lemma NoFirstDifference(nodes: seq<NodeId>, edges: seq<Edge>, a: seq<NodeId>, ra: seq<Rank>,
                          b: seq<NodeId>, rb: seq<Rank>, k: nat)
    requires Distinct(nodes)
    requires IsTopologicalOrder(a, nodes, edges) && ByRank(nodes, edges, a, a, ra)
    requires IsTopologicalOrder(b, nodes, edges) && ByRank(nodes, edges, b, b, rb)
    requires k < |a| && k < |b| && a[..k] == b[..k]
    ensures a[k] == b[k]
  {
    if a[k] != b[k] {
      var i := FoundLater(a, b, k);
      var j := FoundLater(b, a, k);
      RankCarriesOver(nodes, edges, a, ra, b, rb, k, i);
      RankCarriesOver(nodes, edges, b, rb, a, ra, k, j);
      assert false;
    }
  }

  lemma FoundLater(a: seq<NodeId>, b: seq<NodeId>, k: nat) returns (i: nat)
    requires k < |a| && k < |b| && a[..k] == b[..k] && a[k] != b[k]
    requires Distinct(a) && ToSet(a) == ToSet(b)
    ensures k < i < |b| && b[i] == a[k]
  {
    forall m | 0 <= m < k ensures b[m] == a[m] {
      assert a[..k][m] == b[..k][m];
    }
    assert a[k] in ToSet(b);
    i :| 0 <= i < |b| && b[i] == a[k];
  }

  lemma PrefixSnoc(a: seq<NodeId>, b: seq<NodeId>, k: nat)
    requires k < |a| && k < |b| && a[..k] == b[..k] && a[k] == b[k]
    ensures a[..k + 1] == b[..k + 1]
  {
    assert a[..k + 1] == a[..k] + [a[k]] && b[..k + 1] == b[..k] + [b[k]];
  }

  /** Sequences that never differ for the first time agree. */
  lemma {:induction false} SamePrefix(a: seq<NodeId>, b: seq<NodeId>, k: nat)
    requires forall i :: 0 <= i < |a| && i < |b| && a[..i] == b[..i] ==> a[i] == b[i]
    requires k <= |a| && k <= |b|
    ensures a[..k] == b[..k]
  {
    if k > 0 {
      SamePrefix(a, b, k - 1);
      PrefixSnoc(a, b, k - 1);
    }
  }

  /** A graph has one queue order only, so the executor's order is determined by the stored workflow. */
  lemma QueueOrderIsUnique(nodes: seq<NodeId>, edges: seq<Edge>, a: seq<NodeId>, b: seq<NodeId>)
    requires Distinct(nodes)
    requires IsTopologicalOrder(a, nodes, edges) && IsQueueOrder(nodes, edges, a)
    requires IsTopologicalOrder(b, nodes, edges) && IsQueueOrder(nodes, edges, b)
    ensures a == b
  {
    var ra :| ByRank(nodes, edges, a, a, ra);
    var rb :| ByRank(nodes, edges, b, b, rb);
    DistinctSize(a);
    DistinctSize(b);
    forall i | 0 <= i < |a| && i < |b| && a[..i] == b[..i] ensures a[i] == b[i] {
      NoFirstDifference(nodes, edges, a, ra, b, rb, i);
    }
    SamePrefix(a, b, |a|);
    assert a[..|a|] == a && b[..|b|] == b;
  }

  /** When the queue is empty, the unplaced nodes are exactly those downstream of a cycle. */
  lemma LeftoverIsDownstream(nodes: seq<NodeId>, edges: seq<Edge>, order: seq<NodeId>, inDegree: map<NodeId, int>)
    requires forall e :: e in edges ==> e.source in nodes && e.target in nodes
    requires KahnInvariant(nodes, edges, order, [], inDegree)
    ensures forall n :: n in nodes ==> (n !in order <==> DownstreamOfCycle(edges, n))
  {
    assert order + [] == order;
    var left := ToSet(nodes) - ToSet(order);
    forall v | v in left ensures HasUpstreamIn(edges, left, v) {
      assert inDegree[v] != 0;
      PendingZero(edges, v, order);
      var e :| e in edges && e.target == v && e.source !in order;
      assert e == Edge(e.source, v) && e.source in left;
    }
    forall n | n in nodes ensures n !in order <==> DownstreamOfCycle(edges, n) {
      if n in order {
        PlacedNodesAvoidCycles(edges, order, n);
      } else {
        WalkUpstream(edges, left, [n]);
      }
    }
  }

  /** A cycle's nodes are graph nodes, and they are downstream of it. */
  lemma CycleNodesAreDownstream(nodes: seq<NodeId>, edges: seq<Edge>, c: seq<NodeId>)
    requires forall e :: e in edges ==> e.source in nodes && e.target in nodes
    requires IsCycle(edges, c)
    ensures c[0] in nodes && DownstreamOfCycle(edges, c[0])
  {
    assert Edge(c[0], c[1]) in edges;
    assert LeadsFromCycle(edges, c, [c[0]], c[0]);
  }

  /**
   `_topological_sort`: raises exactly when a directed cycle exists, reporting in node
   order exactly the nodes reachable from some cycle; otherwise every node once, upstream first.
   */
  method TopologicalSort(nodes: seq<NodeId>, adjacency: map<NodeId, seq<NodeId>>, inDegree0: map<NodeId, int>,
                         ghost edges: seq<Edge>)
    returns (r: SortResult)
    requires Represents(nodes, edges, adjacency, inDegree0)
    ensures r.CycleDetected? <==> HasCycle(edges)
    ensures r.CycleDetected? ==> r.cycleNodes == Restrict(nodes, CycleVictims(nodes, edges))
    ensures r.Sorted? ==> IsTopologicalOrder(r.order, nodes, edges) && IsQueueOrder(nodes, edges, r.order)
  {
    var inDegree := inDegree0;
    ghost var ranks: seq<Rank>;
    var queue;
    queue, ranks := InitialQueue(nodes, edges, inDegree);
    var order: seq<NodeId> := [];
    while queue != []
      invariant KahnInvariant(nodes, edges, order, queue, inDegree)
      invariant ByRank(nodes, edges, order, order + queue, ranks)
      decreases |nodes| - |order|
    {
      PlaceNode(nodes, edges, order, queue, inDegree);
      var n := queue[0];
      RanksWhenPlaced(nodes, edges, order, queue, ranks);
      queue, inDegree, ranks := Relax(nodes, edges, order, n, Adjacent(adjacency, n), queue[1..], inDegree, ranks);
      order := order + [n];
      PlacedFits(order, queue, nodes);
    }
    LeftoverIsDownstream(nodes, edges, order, inDegree);
    PlacedFits(order, [], nodes);
    assert order + [] == order;
    if |order| != |nodes| {
      var cycleNodes := Unplaced(nodes, order, edges);
      r := CycleDetected(cycleNodes);
    } else {
      NoCycleWhenAllPlaced(nodes, edges, order);
      r := Sorted(order);
    }
  }

  ghost function CycleVictims(nodes: seq<NodeId>, edges: seq<Edge>): set<NodeId> {
    set n | n in nodes && DownstreamOfCycle(edges, n)
  }

  // ---------------------------------------------------------------------------
  // Which of the reported nodes lie on a cycle
  // ---------------------------------------------------------------------------

  ghost predicate OnCycle(edges: seq<Edge>, n: NodeId) {
    exists c :: IsCycle(edges, c) && n in c
  }

  /** A cycle can start at any of its nodes. */
  lemma RotateCycle(edges: seq<Edge>, n: NodeId) returns (r: seq<NodeId>)
    requires OnCycle(edges, n)
    ensures IsCycle(edges, r) && r[0] == n
  {
    var c :| IsCycle(edges, c) && n in c;
    var i :| 0 <= i < |c| && c[i] == n;
    r := c[i..] + c[1..i + 1];
    var cut := |c| - i;
    forall k | 0 < k < |r| ensures Edge(r[k - 1], r[k]) in edges {
      if k < cut {
        assert r[k - 1] == c[i + k - 1] && r[k] == c[i + k];
      } else {
        assert r[k] == c[k - cut + 1];
        assert k == cut ==> r[k - 1] == c[|c| - 1] == c[0];
        assert k > cut ==> r[k - 1] == c[k - cut];
      }
    }
  }

  lemma CycleGoesOn(edges: seq<Edge>, n: NodeId)
    requires OnCycle(edges, n)
    ensures exists e :: e in edges && e.source == n
  {
    var r := RotateCycle(edges, n);
    var e := Edge(r[0], r[1]);
    assert e in edges;
  }

  lemma {:induction false} CyclesCarryOn(edges: seq<Edge>, t: seq<NodeId>)
    requires forall e :: e in edges && OnCycle(edges, e.source) ==> OnCycle(edges, e.target)
    requires IsPath(edges, t) && OnCycle(edges, t[0])
    ensures OnCycle(edges, t[|t| - 1])
  {
    if |t| > 1 {
      CyclesCarryOn(edges, t[..|t| - 1]);
      var e := Edge(t[|t| - 2], t[|t| - 1]);
      assert e in edges && OnCycle(edges, e.source);
    }
  }

  /** The reported nodes are all on cycles exactly when no edge leads from a cycle to a node on none. */
  lemma ReportIsExactIff(nodes: seq<NodeId>, edges: seq<Edge>)
    requires forall e :: e in edges ==> e.source in nodes && e.target in nodes
    ensures (forall n :: n in CycleVictims(nodes, edges) ==> OnCycle(edges, n)) <==>
            (forall e :: e in edges && OnCycle(edges, e.source) ==> OnCycle(edges, e.target))
  {
    if forall n :: n in CycleVictims(nodes, edges) ==> OnCycle(edges, n) {
      forall e | e in edges && OnCycle(edges, e.source) ensures OnCycle(edges, e.target) {
        var c := RotateCycle(edges, e.source);
        assert LeadsFromCycle(edges, c, [e.source, e.target], e.target);
        assert e.target in CycleVictims(nodes, edges);
      }
    }
    if forall e :: e in edges && OnCycle(edges, e.source) ==> OnCycle(edges, e.target) {
      forall n | n in CycleVictims(nodes, edges) ensures OnCycle(edges, n) {
        var c, t :| LeadsFromCycle(edges, c, t, n);
        assert t[0] in c;
        CyclesCarryOn(edges, t);
      }
    }
  }

  /** a and b form a cycle; c is reported with them though it lies on none. */
  lemma BystanderIsReported()
    ensures
      var a, b, c := NodeId("a"), NodeId("b"), NodeId("c");
      var edges := [Edge(a, b), Edge(b, a), Edge(b, c)];
      CycleVictims([a, b, c], edges) == {a, b, c} && !OnCycle(edges, c)
  {
    var a, b, c := NodeId("a"), NodeId("b"), NodeId("c");
    var edges := [Edge(a, b), Edge(b, a), Edge(b, c)];
    assert edges[0] == Edge(a, b) && edges[1] == Edge(b, a) && edges[2] == Edge(b, c);
    assert IsCycle(edges, [b, a, b]);
    assert LeadsFromCycle(edges, [b, a, b], [b, a], a);
    assert LeadsFromCycle(edges, [b, a, b], [b], b);
    assert LeadsFromCycle(edges, [b, a, b], [b, c], c);
    assert forall e :: e in edges ==> e.source != c;
    if OnCycle(edges, c) {
      CycleGoesOn(edges, c);
    }
  }

  lemma DegreeAtZero(nodes: seq<NodeId>, edges: seq<Edge>, before: seq<NodeId>, n: NodeId,
                     queue: seq<NodeId>, inDegree: map<NodeId, int>, k: nat, v: NodeId)
    requires k < |Targets(edges, n)| && Targets(edges, n)[k] == v && v in nodes
    requires RelaxInvariant(nodes, edges, before, n, queue, inDegree, k) && inDegree[v] == 1
    ensures Pending(edges, v, before) == Count(Targets(edges, n)[..k + 1], v)
  {
    var targets := Targets(edges, n);
    assert targets[..k + 1][..k] == targets[..k];
  }

  /** A node queued by the k-th decrement comes after all others in rank. */
  lemma RelaxedRank(nodes: seq<NodeId>, edges: seq<Edge>, before: seq<NodeId>, n: NodeId,
                    queue: seq<NodeId>, k: nat, v: NodeId, ranks: seq<Rank>)
    requires RankedTo(nodes, edges, before, n, queue, ranks, k)
    requires HasRank(nodes, edges, before + [n], v, Rank(|before| + 1, k))
    ensures RankedTo(nodes, edges, before, n, queue + [v], ranks + [Rank(|before| + 1, k)], k + 1)
  {
    RankSnoc(nodes, edges, before + [n], before + [n] + queue, ranks, v, Rank(|before| + 1, k));
    assert before + [n] + (queue + [v]) == before + [n] + queue + [v];
  }

  lemma RankedNext(nodes: seq<NodeId>, edges: seq<Edge>, before: seq<NodeId>, n: NodeId,
                   queue: seq<NodeId>, inDegree: map<NodeId, int>, k: nat, ranks: seq<Rank>)
    requires k < |Targets(edges, n)| && Targets(edges, n)[k] in nodes && n !in before
    requires RelaxInvariant(nodes, edges, before, n, queue, inDegree, k)
    requires RankedTo(nodes, edges, before, n, queue, ranks, k)
    ensures
      var v := Targets(edges, n)[k];
      var queued := inDegree[v] == 1;
      RankedTo(nodes, edges, before, n, if queued then queue + [v] else queue,
               if queued then ranks + [Rank(|before| + 1, k)] else ranks, k + 1)
  {
    var v := Targets(edges, n)[k];
    if inDegree[v] == 1 {
      DegreeAtZero(nodes, edges, before, n, queue, inDegree, k, v);
      RankOfRelaxed(nodes, edges, before, n, k, v);
      RelaxedRank(nodes, edges, before, n, queue, k, v, ranks);
    }
  }

  /** Taking the head of the queue keeps the ranks, none of which is later than now. */
  lemma RanksWhenPlaced(nodes: seq<NodeId>, edges: seq<Edge>, order: seq<NodeId>, queue: seq<NodeId>, ranks: seq<Rank>)
    requires queue != [] && ByRank(nodes, edges, order, order + queue, ranks)
    ensures RankedTo(nodes, edges, order, queue[0], queue[1..], ranks, 0)
  {
    RankStays(nodes, edges, order, queue[0], order + queue, ranks);
    assert order + queue == order + [queue[0]] + queue[1..];
    forall i | 0 <= i < |ranks| ensures Earlier(ranks[i], Rank(|order| + 1, 0)) {
      assert HasRank(nodes, edges, order, (order + queue)[i], ranks[i]);
    }
  }

  /** The inner loop over `n`'s downstream nodes. */
  method Relax(nodes: seq<NodeId>, ghost edges: seq<Edge>, ghost before: seq<NodeId>, n: NodeId, downstream: seq<NodeId>,
               queue0: seq<NodeId>, inDegree0: map<NodeId, int>, ghost ranks0: seq<Rank>)
    returns (queue: seq<NodeId>, inDegree: map<NodeId, int>, ghost ranks: seq<Rank>)
    requires forall e :: e in edges ==> e.source in nodes && e.target in nodes
    requires downstream == Targets(edges, n) && n !in before && SourcesFirst(before + [n], edges)
    requires RelaxInvariant(nodes, edges, before, n, queue0, inDegree0, 0)
    requires RankedTo(nodes, edges, before, n, queue0, ranks0, 0)
    ensures KahnInvariant(nodes, edges, before + [n], queue, inDegree)
    ensures ByRank(nodes, edges, before + [n], before + [n] + queue, ranks)
  {
    queue, inDegree, ranks := queue0, inDegree0, ranks0;
    TargetsAreEdges(edges, n);
    for k := 0 to |downstream|
      invariant RelaxInvariant(nodes, edges, before, n, queue, inDegree, k)
      invariant RankedTo(nodes, edges, before, n, queue, ranks, k)
    {
      var v := downstream[k];
      assert v in Targets(edges, n) && Edge(n, v) in edges;
      RelaxStep(nodes, edges, before, n, queue, inDegree, k);
      RankedNext(nodes, edges, before, n, queue, inDegree, k, ranks);
      inDegree := inDegree[v := inDegree[v] - 1];
      if inDegree[v] == 0 {
        queue := queue + [v];
        ranks := ranks + [Rank(|before| + 1, k)];
      }
    }
    RelaxDone(nodes, edges, before, n, queue, inDegree);
  }

  /** The comprehension that names the cycle participants. */
  method Unplaced(nodes: seq<NodeId>, order: seq<NodeId>, ghost edges: seq<Edge>) returns (cycleNodes: seq<NodeId>)
    requires Distinct(nodes) && Distinct(order) && |order| != |nodes| && ToSet(order) <= ToSet(nodes)
    requires forall n :: n in nodes ==> (n !in order <==> DownstreamOfCycle(edges, n))
    ensures cycleNodes == Restrict(nodes, CycleVictims(nodes, edges))
    ensures HasCycle(edges)
  {
    cycleNodes := [];
    for i := 0 to |nodes|
      invariant cycleNodes == Restrict(nodes[..i], CycleVictims(nodes, edges))
    {
      assert nodes[..i + 1][..i] == nodes[..i];
      if nodes[i] !in order {
        cycleNodes := cycleNodes + [nodes[i]];
      }
    }
    assert nodes[..|nodes|] == nodes;
    if forall n :: n in nodes ==> n in order {
      assert ToSet(nodes) == ToSet(order);
      DistinctSize(nodes);
      DistinctSize(order);
      assert false;
    }
    ghost var n :| n in nodes && n !in order;
    ghost var c, t :| LeadsFromCycle(edges, c, t, n);
  }

  lemma NoCycleWhenAllPlaced(nodes: seq<NodeId>, edges: seq<Edge>, order: seq<NodeId>)
    requires forall e :: e in edges ==> e.source in nodes && e.target in nodes
    requires Distinct(order) && SourcesFirst(order, edges) && ToSet(order) == ToSet(nodes)
    ensures !HasCycle(edges)
  {
    if HasCycle(edges) {
      var c :| IsCycle(edges, c);
      CycleNodesAreDownstream(nodes, edges, c);
      assert c[0] in ToSet(nodes);
      PlacedNodesAvoidCycles(edges, order, c[0]);
    }
  }

  method InitialQueue(nodes: seq<NodeId>, ghost edges: seq<Edge>, inDegree: map<NodeId, int>)
    returns (queue: seq<NodeId>, ghost ranks: seq<Rank>)
    requires Distinct(nodes) && HoldsDegrees(nodes, edges, inDegree)
    ensures KahnInvariant(nodes, edges, [], queue, inDegree)
    ensures ByRank(nodes, edges, [], [] + queue, ranks)
  {
    queue, ranks := [], [];
    for i := 0 to |nodes|
      invariant Distinct(queue)
      invariant ByRank(nodes, edges, [], queue, ranks)
      invariant forall j :: 0 <= j < |ranks| ==> Earlier(ranks[j], Rank(0, i))
      invariant forall v :: v in queue <==> v in nodes[..i] && inDegree[v] == 0
    {
      assert nodes[i] !in nodes[..i];
      assert nodes[..i + 1] == nodes[..i] + [nodes[i]];
      if inDegree[nodes[i]] == 0 {
        DistinctSnoc(queue, nodes[i]);
        PendingZero(edges, nodes[i], []);
        RankSnoc(nodes, edges, [], queue, ranks, nodes[i], Rank(0, i));
        queue := queue + [nodes[i]];
        ranks := ranks + [Rank(0, i)];
      }
    }
    assert nodes[..|nodes|] == nodes;
    assert [] + queue == queue;
  }

  lemma PlacedFits(order: seq<NodeId>, queue: seq<NodeId>, nodes: seq<NodeId>)
    requires Distinct(order + queue) && Distinct(nodes)
    requires ToSet(order + queue) <= ToSet(nodes)
    ensures |order| <= |nodes|
    ensures queue == [] && |order| == |nodes| ==> ToSet(order) == ToSet(nodes)
  {
    DistinctSize(order + queue);
    DistinctSize(nodes);
    SubsetSize(ToSet(order + queue), ToSet(nodes));
    if queue == [] {
      assert order + queue == order;
    }
  }
}
