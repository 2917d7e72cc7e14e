/**
 `_reciprocal_rank_fusion` of rag/engines/orchestrator.py. Scores are exact reals. The
 dictionary `scores` is a map with its insertion order, which Python's stable sort observes.
 */
module RankFusion {
  import opened Sequences

  datatype ChunkId = ChunkId(text: string)

  /** A retrieved chunk with the score its retriever gave it. */
  datatype Hit = Hit(id: ChunkId, score: real, content: string)

  /** A fused chunk with its reported score, which is rounded. */
  datatype Fused = Fused(hit: Hit, score: real)

  // ---------------------------------------------------------------------------
  // The scoring formula
  // ---------------------------------------------------------------------------

  /** A list in which some rank makes the denominator zero; Python raises there. */
  predicate DividesByZero(list: seq<Hit>, k: int) {
    0 <= -(k + 1) < |list|
  }

  /** One over the denominator; what it is for a zero denominator does not matter. */
  function Reciprocal(k: int, rank: nat): real {
    if k + rank + 1 == 0 then 0.0 else 1.0 / (k + rank + 1) as real
  }

  ghost function ListScore(list: seq<Hit>, k: int, id: ChunkId): real {
    if list == [] then 0.0
    else
      var rank := |list| - 1;
      ListScore(list[..rank], k, id) + if list[rank].id == id then Reciprocal(k, rank) else 0.0
  }

  /** The sum of 1 / (k + rank + 1) over every occurrence of `id` in every list. */
  ghost function Score(lists: seq<seq<Hit>>, k: int, id: ChunkId): real {
    if lists == [] then 0.0 else Score(lists[..|lists| - 1], k, id) + ListScore(lists[|lists| - 1], k, id)
  }

  /** All hits, in the order in which the loops visit them. */
  ghost function Visited(lists: seq<seq<Hit>>): seq<Hit> {
    if lists == [] then [] else Visited(lists[..|lists| - 1]) + lists[|lists| - 1]
  }

  ghost function IdsOf(hits: seq<Hit>): seq<ChunkId> {
    seq(|hits|, i requires 0 <= i < |hits| => hits[i].id)
  }

  /** `hit` is the highest-scored version of its id among `hits`, the first such one on a tie. */
  ghost predicate BestVersion(hits: seq<Hit>, hit: Hit) {
    exists i :: 0 <= i < |hits| && IsBestAt(hits, hit, i)
  }

  ghost predicate IsBestAt(hits: seq<Hit>, hit: Hit, i: nat)
    requires i < |hits|
  {
    && hits[i] == hit
    && (forall j :: 0 <= j < |hits| && hits[j].id == hit.id ==> hits[j].score <= hit.score)
    && (forall j :: 0 <= j < i && hits[j].id == hit.id ==> hits[j].score < hit.score)
  }

  // ---------------------------------------------------------------------------
  // The accumulating loops
  // ---------------------------------------------------------------------------

  /** The keys of `scores`, in insertion order, after `hits` have been visited. */
  ghost predicate HoldsIds(hits: seq<Hit>, order: seq<ChunkId>, scores: map<ChunkId, real>) {
    order == Dedup(IdsOf(hits)) && forall id :: id in scores <==> id in order
  }

  /** `chunk_map` after `hits` have been visited. */
  ghost predicate HoldsBest(hits: seq<Hit>, best: map<ChunkId, Hit>) {
    && (forall i :: 0 <= i < |hits| ==> hits[i].id in best)
    && (forall id :: id in best ==> best[id].id == id && BestVersion(hits, best[id]))
  }

  function Tally(scores: map<ChunkId, real>, id: ChunkId): real {
    if id in scores then scores[id] else 0.0
  }

  /** `scores` after all of `lists` and the first hits of one more. */
  ghost predicate HoldsScores(lists: seq<seq<Hit>>, started: seq<Hit>, k: int, scores: map<ChunkId, real>) {
    forall id :: Tally(scores, id) == Score(lists, k, id) + ListScore(started, k, id)
  }

  lemma ScoreOne(lists: seq<seq<Hit>>, started: seq<Hit>, hit: Hit, k: int, scores: map<ChunkId, real>)
    requires HoldsScores(lists, started, k, scores)
    ensures HoldsScores(lists, started + [hit], k, scores[hit.id := Tally(scores, hit.id) + Reciprocal(k, |started|)])
  {
  }

  lemma ScoreList(lists: seq<seq<Hit>>, list: seq<Hit>, k: int, scores: map<ChunkId, real>)
    requires HoldsScores(lists, list, k, scores)
    ensures HoldsScores(lists + [list], [], k, scores)
  {
  }

  lemma BestSnoc(hits: seq<Hit>, hit: Hit, version: Hit)
    requires BestVersion(hits, version)
    ensures version.id != hit.id || hit.score <= version.score ==> BestVersion(hits + [hit], version)
    ensures version.id == hit.id && hit.score > version.score ==> BestVersion(hits + [hit], hit)
  {
    var i :| 0 <= i < |hits| && IsBestAt(hits, version, i);
    var longer := hits + [hit];
    if version.id != hit.id || hit.score <= version.score {
      assert IsBestAt(longer, version, i);
    } else {
      assert IsBestAt(longer, hit, |hits|);
    }
  }

  lemma BestFirst(hits: seq<Hit>, hit: Hit)
    requires forall j :: 0 <= j < |hits| ==> hits[j].id != hit.id
    ensures BestVersion(hits + [hit], hit)
  {
    assert IsBestAt(hits + [hit], hit, |hits|);
  }

  lemma AddId(hits: seq<Hit>, hit: Hit, order: seq<ChunkId>, scores: map<ChunkId, real>, s: real)
    requires HoldsIds(hits, order, scores)
    ensures HoldsIds(hits + [hit], if hit.id in scores then order else order + [hit.id], scores[hit.id := s])
  {
    assert IdsOf(hits + [hit]) == IdsOf(hits) + [hit.id];
    DedupSnoc(IdsOf(hits), hit.id);
  }

  function Better(best: map<ChunkId, Hit>, hit: Hit): map<ChunkId, Hit> {
    if hit.id !in best || hit.score > best[hit.id].score then best[hit.id := hit] else best
  }

  lemma AddBest(hits: seq<Hit>, hit: Hit, best: map<ChunkId, Hit>)
    requires HoldsBest(hits, best)
    ensures HoldsBest(hits + [hit], Better(best, hit))
  {
    var best' := Better(best, hit);
    forall id | id in best' ensures best'[id].id == id && BestVersion(hits + [hit], best'[id]) {
      if id in best {
        BestSnoc(hits, hit, best[id]);
      } else {
        BestFirst(hits, hit);
      }
    }
  }

  /** The state after `rank` hits of `list`, with `hits` visited and `lists` scored before it. */
  ghost predicate Midway(lists: seq<seq<Hit>>, hits: seq<Hit>, list: seq<Hit>, rank: nat, k: int,
                         order: seq<ChunkId>, scores: map<ChunkId, real>, best: map<ChunkId, Hit>)
    requires rank <= |list|
  {
    && HoldsIds(hits + list[..rank], order, scores)
    && HoldsBest(hits + list[..rank], best)
    && HoldsScores(lists, list[..rank], k, scores)
  }

  /** The body of the inner loop. */
  method AddHit(ghost lists: seq<seq<Hit>>, ghost hits: seq<Hit>, list: seq<Hit>, rank: nat, k: int,
                order0: seq<ChunkId>, scores0: map<ChunkId, real>, best0: map<ChunkId, Hit>)
    returns (order: seq<ChunkId>, scores: map<ChunkId, real>, best: map<ChunkId, Hit>)
    requires rank < |list| && Midway(lists, hits, list, rank, k, order0, scores0, best0)
    ensures Midway(lists, hits, list, rank + 1, k, order, scores, best)
  {
    var hit := list[rank];
    var s := Tally(scores0, hit.id) + Reciprocal(k, rank);
    MidwayIds(hits, list, rank, order0, scores0, s);
    MidwayBest(hits, list, rank, best0);
    MidwayScores(lists, list, rank, k, scores0);
    order := if hit.id in scores0 then order0 else order0 + [hit.id];
    scores := scores0[hit.id := s];
    best := Better(best0, hit);
  }

  lemma OneMore(hits: seq<Hit>, list: seq<Hit>, rank: nat)
    requires rank < |list|
    ensures list[..rank + 1] == list[..rank] + [list[rank]]
    ensures hits + list[..rank + 1] == hits + list[..rank] + [list[rank]]
  {
  }

  lemma MidwayIds(hits: seq<Hit>, list: seq<Hit>, rank: nat, order: seq<ChunkId>, scores: map<ChunkId, real>, s: real)
    requires rank < |list| && HoldsIds(hits + list[..rank], order, scores)
    ensures
      var id := list[rank].id;
      HoldsIds(hits + list[..rank + 1], if id in scores then order else order + [id], scores[id := s])
  {
    OneMore(hits, list, rank);
    AddId(hits + list[..rank], list[rank], order, scores, s);
  }

  lemma MidwayBest(hits: seq<Hit>, list: seq<Hit>, rank: nat, best: map<ChunkId, Hit>)
    requires rank < |list| && HoldsBest(hits + list[..rank], best)
    ensures HoldsBest(hits + list[..rank + 1], Better(best, list[rank]))
  {
    OneMore(hits, list, rank);
    AddBest(hits + list[..rank], list[rank], best);
  }

  lemma MidwayScores(lists: seq<seq<Hit>>, list: seq<Hit>, rank: nat, k: int, scores: map<ChunkId, real>)
    requires rank < |list| && HoldsScores(lists, list[..rank], k, scores)
    ensures
      var id := list[rank].id;
      HoldsScores(lists, list[..rank + 1], k, scores[id := Tally(scores, id) + Reciprocal(k, rank)])
  {
    OneMore([], list, rank);
    ScoreOne(lists, list[..rank], list[rank], k, scores);
  }

  /** One inner loop: the ranks of one list, up to a division by zero. */
  method AddList(list: seq<Hit>, k: int, ghost lists: seq<seq<Hit>>, ghost hits: seq<Hit>,
                 order0: seq<ChunkId>, scores0: map<ChunkId, real>, best0: map<ChunkId, Hit>)
    returns (ok: bool, order: seq<ChunkId>, scores: map<ChunkId, real>, best: map<ChunkId, Hit>)
    requires HoldsIds(hits, order0, scores0) && HoldsBest(hits, best0) && HoldsScores(lists, [], k, scores0)
    ensures ok <==> !DividesByZero(list, k)
    ensures ok ==> HoldsIds(hits + list, order, scores) && HoldsBest(hits + list, best)
    ensures ok ==> HoldsScores(lists + [list], [], k, scores)
  {
    order, scores, best := order0, scores0, best0;
    assert list[..0] == [] && hits + list[..0] == hits;
    for rank := 0 to |list|
      invariant !DividesByZero(list[..rank], k)
      invariant Midway(lists, hits, list, rank, k, order, scores, best)
    {
      if k + rank + 1 == 0 {
        return false, order, scores, best;
      }
      order, scores, best := AddHit(lists, hits, list, rank, k, order, scores, best);
    }
    assert list[..|list|] == list;
    ScoreList(lists, list, k, scores);
    ok := true;
  }

  // ---------------------------------------------------------------------------
  // The stable sort
  // ---------------------------------------------------------------------------

  /** Higher score first; equal scores keep the dictionary order. */
  ghost predicate Outranks(scores: map<ChunkId, real>, order: seq<ChunkId>, a: ChunkId, b: ChunkId)
    requires a in scores && b in scores
  {
    scores[a] > scores[b] || (scores[a] == scores[b] && Before(order, a, b))
  }

  ghost predicate SortedBy(scores: map<ChunkId, real>, order: seq<ChunkId>, s: seq<ChunkId>) {
    && (forall i :: 0 <= i < |s| ==> s[i] in scores)
    && (forall i, j :: 0 <= i < j < |s| ==> Outranks(scores, order, s[i], s[j]))
  }

  lemma InsertKeepsSorted(scores: map<ChunkId, real>, order: seq<ChunkId>, s: seq<ChunkId>, p: nat, n: nat)
    requires SortedBy(scores, order, s) && p <= |s| && n < |order| && order[n] in scores
    requires forall x :: x in s ==> x in order[..n]
    requires forall q :: p <= q < |s| ==> scores[s[q]] < scores[order[n]]
    requires p > 0 ==> scores[s[p - 1]] >= scores[order[n]]
    ensures SortedBy(scores, order, s[..p] + [order[n]] + s[p..])
  {
    var c := order[n];
    var t := s[..p] + [c] + s[p..];
    forall q | 0 <= q < p ensures Outranks(scores, order, s[q], c) {
      assert q < p - 1 ==> Outranks(scores, order, s[q], s[p - 1]);
      assert s[q] in order[..n];
      var a :| 0 <= a < n && order[a] == s[q];
      assert Before(order, s[q], c);
    }
    forall i, j | 0 <= i < j < |t| ensures Outranks(scores, order, t[i], t[j]) {
      if j < p {
        assert t[i] == s[i] && t[j] == s[j];
      } else if j == p {
        assert t[i] == s[i];
      } else if i == p {
        assert t[j] == s[j - 1];
      } else {
        assert t[j] == s[j - 1] && t[i] == s[if i < p then i else i - 1];
      }
    }
  }

  lemma InsertAdds(order: seq<ChunkId>, s: seq<ChunkId>, p: nat, n: nat)
    requires p <= |s| && n < |order| && forall id :: id in s <==> id in order[..n]
    ensures forall id :: id in s[..p] + [order[n]] + s[p..] <==> id in order[..n + 1]
  {
    assert order[..n + 1] == order[..n] + [order[n]];
    assert s == s[..p] + s[p..];
  }

  /** `sorted(scores, key=..., reverse=True)`, by insertion. */
  method SortByScore(order: seq<ChunkId>, scores: map<ChunkId, real>) returns (sorted: seq<ChunkId>)
    requires forall id :: id in order ==> id in scores
    ensures SortedBy(scores, order, sorted)
    ensures |sorted| == |order| && forall id :: id in sorted <==> id in order
  {
    sorted := [];
    for n := 0 to |order|
      invariant SortedBy(scores, order, sorted) && |sorted| == n
      invariant forall id :: id in sorted <==> id in order[..n]
    {
      var p := |sorted|;
      while p > 0 && scores[sorted[p - 1]] < scores[order[n]]
        invariant 0 <= p <= |sorted|
        invariant forall q :: p <= q < |sorted| ==> scores[sorted[q]] < scores[order[n]]
      {
        p := p - 1;
      }
      InsertKeepsSorted(scores, order, sorted, p, n);
      InsertAdds(order, sorted, p, n);
      sorted := sorted[..p] + [order[n]] + sorted[p..];
    }
    assert order[..|order|] == order;
  }

  // ---------------------------------------------------------------------------
  // Dominance
  // ---------------------------------------------------------------------------

  ghost predicate DuplicateFree(list: seq<Hit>) {
    forall i, j :: 0 <= i < j < |list| ==> list[i].id != list[j].id
  }

  /** Wherever `y` is listed, `x` is listed ahead of it. */
  ghost predicate Precedes(list: seq<Hit>, x: ChunkId, y: ChunkId) {
    forall j :: 0 <= j < |list| && list[j].id == y ==> exists i :: 0 <= i < j && list[i].id == x
  }

  ghost predicate Lists(list: seq<Hit>, id: ChunkId) {
    exists i :: 0 <= i < |list| && list[i].id == id
  }

  lemma {:induction false} ListScoreAbsent(list: seq<Hit>, k: int, id: ChunkId)
    requires !Lists(list, id)
    ensures ListScore(list, k, id) == 0.0
  {
    if list != [] {
      var front := list[..|list| - 1];
      assert forall i :: 0 <= i < |front| ==> list[i] == front[i];
      ListScoreAbsent(front, k, id);
    }
  }

  lemma {:induction false} ListScoreAt(list: seq<Hit>, k: int, r: nat)
    requires DuplicateFree(list) && r < |list|
    ensures ListScore(list, k, list[r].id) == Reciprocal(k, r)
  {
    var front := list[..|list| - 1];
    if r < |front| {
      ListScoreAt(front, k, r);
    } else {
      ListScoreAbsent(front, k, list[r].id);
    }
  }

  /** Every occurrence counts one over k + rank + 1, rank counted from zero; occurrences in other lists are added. */
  lemma Contribution(lists: seq<seq<Hit>>, list: seq<Hit>, hit: Hit, k: int, id: ChunkId)
    requires k + |list| + 1 != 0
    ensures Score([], k, id) == 0.0 && Score(lists + [[]], k, id) == Score(lists, k, id)
    ensures
      var gained := Score(lists + [list + [hit]], k, id) - Score(lists + [list], k, id);
      if hit.id == id then gained * (k + |list| + 1) as real == 1.0 else gained == 0.0
  {
    var longer := list + [hit];
    assert (lists + [longer])[..|lists|] == lists && (lists + [list])[..|lists|] == lists && (lists + [[]])[..|lists|] == lists;
    assert longer[..|list|] == list;
    Inverts(k, |list|);
  }

  lemma Inverts(k: int, rank: nat)
    requires k + rank + 1 != 0
    ensures Reciprocal(k, rank) * (k + rank + 1) as real == 1.0
  {
  }

  lemma {:induction false} ListScoreNonNegative(list: seq<Hit>, k: int, id: ChunkId)
    requires k >= 0
    ensures ListScore(list, k, id) >= 0.0
  {
    if list != [] {
      ListScoreNonNegative(list[..|list| - 1], k, id);
    }
  }

  lemma ReciprocalFalls(k: int, i: nat, j: nat)
    requires k >= 0 && i < j
    ensures Reciprocal(k, i) > Reciprocal(k, j)
  {
    InverseFalls((k + i + 1) as real, (k + j + 1) as real);
  }

  lemma InverseFalls(a: real, b: real)
    requires 0.0 < a < b
    ensures 1.0 / a > 1.0 / b > 0.0
  {
    var u, v := 1.0 / a, 1.0 / b;
    Cancels(a, u);
    Cancels(b, v);
    if v <= 0.0 {
      ProductLe(v, 0.0, b);
    }
    Positive(v, b - a);
    assert v * b == v * a + v * (b - a);
    if u <= v {
      ProductLe(u, v, a);
    }
  }

  lemma Cancels(a: real, u: real)
    requires a > 0.0 && u == 1.0 / a
    ensures u * a == 1.0
  {
  }

  lemma ProductLe(x: real, y: real, c: real)
    requires x <= y && c > 0.0
    ensures x * c <= y * c
  {
  }

  lemma Positive(x: real, y: real)
    requires x > 0.0 && y > 0.0
    ensures x * y > 0.0
  {
  }

  lemma ListDominates(list: seq<Hit>, k: int, x: ChunkId, y: ChunkId)
    requires k >= 0 && DuplicateFree(list) && Precedes(list, x, y)
    ensures ListScore(list, k, x) >= ListScore(list, k, y)
    ensures Lists(list, y) ==> ListScore(list, k, x) > ListScore(list, k, y)
  {
    if Lists(list, y) {
      var j :| 0 <= j < |list| && list[j].id == y;
      var i :| 0 <= i < j && list[i].id == x;
      ListScoreAt(list, k, i);
      ListScoreAt(list, k, j);
      ReciprocalFalls(k, i, j);
    } else {
      ListScoreAbsent(list, k, y);
      ListScoreNonNegative(list, k, x);
    }
  }

  /** In duplicate-free lists, `x` is ahead of `y` wherever `y` is listed. */
  ghost predicate Ahead(lists: seq<seq<Hit>>, x: ChunkId, y: ChunkId) {
    forall i :: 0 <= i < |lists| ==> DuplicateFree(lists[i]) && Precedes(lists[i], x, y)
  }

  ghost predicate Listed(lists: seq<seq<Hit>>, id: ChunkId) {
    exists i :: 0 <= i < |lists| && Lists(lists[i], id)
  }

  /** No rank of any list makes the denominator zero. */
  ghost predicate Defined(lists: seq<seq<Hit>>, k: int) {
    forall i :: 0 <= i < |lists| ==> !DividesByZero(lists[i], k)
  }

  /** `x` scores no less than `y`, and strictly more if `y` is listed. */
  ghost predicate Dominates(lists: seq<seq<Hit>>, k: int, x: ChunkId, y: ChunkId) {
    && Score(lists, k, x) >= Score(lists, k, y)
    && (Listed(lists, y) ==> Score(lists, k, x) > Score(lists, k, y))
  }

  /** A chunk ahead of another wherever the other occurs dominates it. */
  lemma {:induction false} Dominance(lists: seq<seq<Hit>>, k: int, x: ChunkId, y: ChunkId)
    requires k >= -1 && Defined(lists, k) && Ahead(lists, x, y)
    ensures Dominates(lists, k, x, y)
  {
    if lists != [] {
      var front, last := lists[..|lists| - 1], lists[|lists| - 1];
      Dominance(front, k, x, y);
      if k >= 0 {
        ListDominates(last, k, x, y);
      } else {
        assert !DividesByZero(last, k);
      }
      if i :| 0 <= i < |lists| && Lists(lists[i], y) {
        assert i < |front| ==> Lists(front[i], y);
      }
    }
  }

  /** Below minus one, being listed costs score: a chunk that is listed alone falls behind one that is not listed. */
  lemma NegativeScores(k: int, x: ChunkId, y: ChunkId)
    requires k < -1 && x != y
    ensures
      var lists := [[Hit(x, 0.0, "")]];
      Defined(lists, k) && Ahead(lists, x, y) && !Dominates(lists, k, x, y)
  {
    var list := [Hit(x, 0.0, "")];
    ListScoreAt(list, k, 0);
    ListScoreAbsent(list, k, y);
    ScoreOfOne(list, k, x);
    ScoreOfOne(list, k, y);
    InverseFalls(-(k + 1) as real, -(k + 1) as real + 1.0);
    assert Reciprocal(k, 0) == -(1.0 / -(k + 1) as real);
  }

  lemma ScoreOfOne(list: seq<Hit>, k: int, id: ChunkId)
    ensures Score([list], k, id) == ListScore(list, k, id)
  {
    assert [list][..0] == [];
  }

  /** Fusion respects dominance in all lists that it can score if and only if `k` is at least minus one. */
  lemma DominanceIff(k: int)
    ensures (forall lists, x, y :: Defined(lists, k) && Ahead(lists, x, y) ==> Dominates(lists, k, x, y)) <==> k >= -1
  {
    if k >= -1 {
      forall lists, x, y | Defined(lists, k) && Ahead(lists, x, y) ensures Dominates(lists, k, x, y) {
        Dominance(lists, k, x, y);
      }
    } else {
      NegativeScores(k, ChunkId("x"), ChunkId("y"));
    }
  }

  // ---------------------------------------------------------------------------
  // The fusion
  // ---------------------------------------------------------------------------

  /** The length of `s[:n]` for a sequence of length `len`. */
  function SliceLength(len: nat, n: int): nat {
    if n >= len then len else if n >= 0 then n else if len + n >= 0 then len + n else 0
  }

  /** `n` is the integer nearest to `y`, the even one when two are equally near. */
  ghost predicate IsNearest(y: real, n: int) {
    && y - 0.5 <= n as real <= y + 0.5
    && (y == n as real + 0.5 || y == n as real - 0.5 ==> n % 2 == 0)
  }

  /** `r` is the n-th multiple of one millionth, the one nearest to `x`. */
  ghost predicate RoundsTo(x: real, r: real, n: int) {
    r * 1000000.0 == n as real && IsNearest(x * 1000000.0, n)
  }

  /** `round(x, 6)`: a multiple of one millionth, and the nearest one. */
  function Round6(x: real): (r: real)
    ensures exists n :: RoundsTo(x, r, n)
  {
    var n := Nearest(x * 1000000.0);
    assert RoundsTo(x, n as real / 1000000.0, n);
    n as real / 1000000.0
  }

  function Nearest(y: real): (n: int)
    ensures IsNearest(y, n)
  {
    var low := y.Floor;
    var above := y - low as real;
    if above < 0.5 || (above == 0.5 && low % 2 == 0) then low else low + 1
  }

  lemma RoundingIsMonotone(x: real, y: real)
    requires x <= y
    ensures Round6(x) <= Round6(y)
  {
    NearestIsMonotone(x * 1000000.0, y * 1000000.0);
  }

  lemma NearestIsMonotone(x: real, y: real)
    requires x <= y
    ensures Nearest(x) <= Nearest(y)
  {
  }

  /** `fused` holds the first chunks of the ranking, each in its best version and with its score, rounded. */
  ghost predicate Exact(lists: seq<seq<Hit>>, k: int, fused: seq<Fused>) {
    forall i :: 0 <= i < |fused| ==>
      BestVersion(Visited(lists), fused[i].hit) && fused[i].score == Round6(Score(lists, k, fused[i].hit.id))
  }

  /** Distinct chunks in descending order of their unrounded scores, ties in order of first occurrence. */
  ghost predicate Descending(lists: seq<seq<Hit>>, k: int, fused: seq<Fused>) {
    forall i, j :: 0 <= i < j < |fused| ==> RanksAbove(lists, k, fused[i].hit.id, fused[j].hit.id)
  }

  ghost predicate RanksAbove(lists: seq<seq<Hit>>, k: int, x: ChunkId, y: ChunkId) {
    && x != y
    && (|| Score(lists, k, x) > Score(lists, k, y)
        || (Score(lists, k, x) == Score(lists, k, y) && Before(FirstSeen(lists), x, y)))
  }

  /** The reported scores never increase down the list. */
  lemma ReportDescends(lists: seq<seq<Hit>>, k: int, fused: seq<Fused>, i: nat, j: nat)
    requires Exact(lists, k, fused) && Descending(lists, k, fused) && i < j < |fused|
    ensures fused[i].score >= fused[j].score
  {
    assert RanksAbove(lists, k, fused[i].hit.id, fused[j].hit.id);
    RoundingIsMonotone(Score(lists, k, fused[j].hit.id), Score(lists, k, fused[i].hit.id));
  }

  ghost function FirstSeen(lists: seq<seq<Hit>>): seq<ChunkId> {
    Dedup(IdsOf(Visited(lists)))
  }

  ghost predicate NothingBetterOmitted(lists: seq<seq<Hit>>, k: int, fused: seq<Fused>) {
    forall id, i :: Listed(lists, id) && 0 <= i < |fused| && Omitted(fused, id) ==>
      Score(lists, k, id) <= Score(lists, k, fused[i].hit.id)
  }

  datatype FusionResult = DivisionByZero | Ranking(fused: seq<Fused>)

  method ReciprocalRankFusion(lists: seq<seq<Hit>>, k: int, topK: int) returns (r: FusionResult)
    ensures r.DivisionByZero? <==> !Defined(lists, k)
    ensures r.Ranking? ==>
              && |r.fused| == (if topK >= 0 then Min(topK, |Candidates(lists)|)
                               else if |Candidates(lists)| + topK > 0 then |Candidates(lists)| + topK else 0)
              && Exact(lists, k, r.fused) && Descending(lists, k, r.fused) && NothingBetterOmitted(lists, k, r.fused)
  {
    var ok, order, scores, best := Accumulate(lists, k);
    if !ok {
      return DivisionByZero;
    }
    IdsAreVisited(Visited(lists), order, scores, best);
    SeenAreCandidates(lists);
    var sorted := SortByScore(order, scores);
    var n := SliceLength(|sorted|, topK);
    var fused := seq(n, i requires 0 <= i < n => Fused(best[sorted[i]], Round6(scores[sorted[i]])));
    TakesTop(lists, k, order, scores, best, sorted, fused);
    r := Ranking(fused);
  }

  /** The ids that occur in the lists. */
  ghost function Candidates(lists: seq<seq<Hit>>): set<ChunkId> {
    set l, i | 0 <= l < |lists| && 0 <= i < |lists[l]| :: lists[l][i].id
  }

  lemma SeenIffListed(lists: seq<seq<Hit>>, id: ChunkId)
    ensures id in FirstSeen(lists) <==> Listed(lists, id)
  {
    var visited := Visited(lists);
    DedupIsSet(IdsOf(visited));
    if Listed(lists, id) {
      var l :| 0 <= l < |lists| && Lists(lists[l], id);
      var i :| 0 <= i < |lists[l]| && lists[l][i].id == id;
      var v := ListedIsVisited(lists, l, i);
      assert IdsOf(visited)[v] == id;
    }
    if id in IdsOf(visited) {
      var v: nat :| v < |visited| && IdsOf(visited)[v] == id;
      VisitedIsListed(lists, v);
    }
  }

  lemma SeenAreCandidates(lists: seq<seq<Hit>>)
    ensures |FirstSeen(lists)| == |Candidates(lists)|
  {
    DedupIsSet(IdsOf(Visited(lists)));
    DistinctSize(FirstSeen(lists));
    forall id ensures id in ToSet(FirstSeen(lists)) <==> id in Candidates(lists) {
      SeenIffListed(lists, id);
      if Listed(lists, id) {
        var l :| 0 <= l < |lists| && Lists(lists[l], id);
        var i :| 0 <= i < |lists[l]| && lists[l][i].id == id;
        assert lists[l][i].id in Candidates(lists);
      }
    }
    assert ToSet(FirstSeen(lists)) == Candidates(lists);
  }

  lemma IdsAreVisited(hits: seq<Hit>, order: seq<ChunkId>, scores: map<ChunkId, real>, best: map<ChunkId, Hit>)
    requires HoldsIds(hits, order, scores) && HoldsBest(hits, best)
    ensures forall id :: id in order ==> id in scores && id in best
  {
    DedupIsSet(IdsOf(hits));
    forall id | id in order ensures id in best {
      assert id in IdsOf(hits);
      var i :| 0 <= i < |hits| && IdsOf(hits)[i] == id;
      assert hits[i].id in best;
    }
  }

  lemma SortedIsDistinct(scores: map<ChunkId, real>, order: seq<ChunkId>, sorted: seq<ChunkId>)
    requires SortedBy(scores, order, sorted) && Distinct(order)
    ensures Distinct(sorted)
  {
  }

  lemma {:induction false} TakesTop(lists: seq<seq<Hit>>, k: int, order: seq<ChunkId>, scores: map<ChunkId, real>, best: map<ChunkId, Hit>,
                 sorted: seq<ChunkId>, fused: seq<Fused>)
    requires HoldsIds(Visited(lists), order, scores) && HoldsBest(Visited(lists), best)
    requires HoldsScores(lists, [], k, scores) && SortedBy(scores, order, sorted)
    requires forall id :: id in sorted <==> id in order
    requires |fused| <= |sorted| && forall id :: id in order ==> id in best
    requires forall i :: 0 <= i < |fused| ==> fused[i] == Fused(best[sorted[i]], Round6(scores[sorted[i]]))
    ensures Exact(lists, k, fused) && Descending(lists, k, fused) && NothingBetterOmitted(lists, k, fused)
  {
    DedupIsSet(IdsOf(Visited(lists)));
    SortedIsDistinct(scores, order, sorted);
    assert forall id :: Tally(scores, id) == Score(lists, k, id) by {
      assert forall id :: ListScore([], k, id) == 0.0;
    }
    forall i | 0 <= i < |fused| ensures fused[i].hit.id == sorted[i] && scores[sorted[i]] == Score(lists, k, sorted[i]) {
      assert Tally(scores, sorted[i]) == scores[sorted[i]];
    }
    forall i, j | 0 <= i < j < |fused|
      ensures RanksAbove(lists, k, fused[i].hit.id, fused[j].hit.id)
    {
      assert Outranks(scores, order, sorted[i], sorted[j]);
    }
    forall id, i | Listed(lists, id) && 0 <= i < |fused| && Omitted(fused, id)
      ensures Score(lists, k, id) <= Score(lists, k, fused[i].hit.id)
    {
      SeenIffListed(lists, id);
      assert id in order;
      assert id in sorted;
      var j :| 0 <= j < |sorted| && sorted[j] == id;
      assert j >= |fused|;
      assert Outranks(scores, order, sorted[i], sorted[j]);
      assert Tally(scores, id) == scores[id];
    }
  }

  /** In the output, a dominated chunk never appears without its dominator ahead of it. */
  lemma DominatorComesFirst(lists: seq<seq<Hit>>, k: int, fused: seq<Fused>, x: ChunkId, j: nat) returns (i: nat)
    requires Exact(lists, k, fused) && Descending(lists, k, fused) && NothingBetterOmitted(lists, k, fused)
    requires j < |fused| && k >= -1 && Defined(lists, k) && Ahead(lists, x, fused[j].hit.id)
    ensures i < j && fused[i].hit.id == x
  {
    var y := fused[j].hit.id;
    VersionIsListed(lists, fused[j].hit);
    Dominance(lists, k, x, y);
    DominatorIsListed(lists, x, y);
    if Omitted(fused, x) {
      assert false;
    }
    i :| 0 <= i < |fused| && fused[i].hit.id == x;
  }

  lemma DominatorIsListed(lists: seq<seq<Hit>>, x: ChunkId, y: ChunkId)
    requires Listed(lists, y) && Ahead(lists, x, y)
    ensures Listed(lists, x)
  {
    var l :| 0 <= l < |lists| && Lists(lists[l], y);
    var j :| 0 <= j < |lists[l]| && lists[l][j].id == y;
    assert Precedes(lists[l], x, y);
    assert Lists(lists[l], x);
  }

  lemma {:induction false} ListedIsVisited(lists: seq<seq<Hit>>, l: nat, i: nat) returns (v: nat)
    requires l < |lists| && i < |lists[l]|
    ensures v < |Visited(lists)| && Visited(lists)[v] == lists[l][i]
  {
    var front := lists[..|lists| - 1];
    if l < |front| {
      v := ListedIsVisited(front, l, i);
    } else {
      v := |Visited(front)| + i;
    }
  }

  lemma VersionIsListed(lists: seq<seq<Hit>>, hit: Hit)
    requires BestVersion(Visited(lists), hit)
    ensures Listed(lists, hit.id)
  {
    var i :| 0 <= i < |Visited(lists)| && IsBestAt(Visited(lists), hit, i);
    VisitedIsListed(lists, i);
  }

  lemma {:induction false} VisitedIsListed(lists: seq<seq<Hit>>, i: nat)
    requires i < |Visited(lists)|
    ensures exists l :: 0 <= l < |lists| && Lists(lists[l], Visited(lists)[i].id)
  {
    var front, last := lists[..|lists| - 1], lists[|lists| - 1];
    if i < |Visited(front)| {
      VisitedIsListed(front, i);
      var l :| 0 <= l < |front| && Lists(front[l], Visited(front)[i].id);
      assert lists[l] == front[l];
    } else {
      assert last[i - |Visited(front)|] == Visited(lists)[i];
      assert Lists(lists[|lists| - 1], Visited(lists)[i].id);
    }
  }

  ghost predicate Omitted(fused: seq<Fused>, id: ChunkId) {
    forall i :: 0 <= i < |fused| ==> fused[i].hit.id != id
  }

  /** The outer loop over the lists. */
  method Accumulate(lists: seq<seq<Hit>>, k: int)
    returns (ok: bool, order: seq<ChunkId>, scores: map<ChunkId, real>, best: map<ChunkId, Hit>)
    ensures ok <==> Defined(lists, k)
    ensures ok ==> HoldsIds(Visited(lists), order, scores) && HoldsBest(Visited(lists), best)
    ensures ok ==> HoldsScores(lists, [], k, scores)
  {
    order, scores, best := [], map[], map[];
    ghost var done: seq<seq<Hit>> := [];
    for i := 0 to |lists|
      invariant done == lists[..i] && Defined(done, k)
      invariant HoldsIds(Visited(done), order, scores) && HoldsBest(Visited(done), best)
      invariant HoldsScores(done, [], k, scores)
    {
      ok, order, scores, best := AddList(lists[i], k, done, Visited(done), order, scores, best);
      if !ok {
        return;
      }
      assert (done + [lists[i]])[..|done|] == done;
      done := done + [lists[i]];
    }
    assert done == lists;
    ok := true;
  }
}
