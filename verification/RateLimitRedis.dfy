/**
 `RedisRateLimitBackend.check_rate_limit`: INCR and EXPIRE in one pipeline. EXPIRE runs on
 every request, so the counter restarts only after a pause of a whole window.
 */
module RedisRateLimit {
  import opened Wrappers
  import opened RateLimitReference

  datatype Counter = Counter(count: nat, expiresAt: real)

  /** Whether the server still serves a key at the very instant its time to live ends. */
  datatype Server = Server(servesAtDeadline: bool) {
    predicate Alive(expiresAt: real, now: real) {
      now < expiresAt || (servesAtDeadline && now == expiresAt)
    }
  }

  datatype Answer = DivisionByZero | Answer(allowed: bool, remaining: int, resetTs: int)

  // ---------------------------------------------------------------------------
  // The specification: bursts of arrivals
  // ---------------------------------------------------------------------------

  ghost function LastArrival(arrivals: seq<Request>, key: Key): Option<real> {
    if arrivals == [] then None
    else
      var r := arrivals[|arrivals| - 1];
      if r.key == key then Some(r.now) else LastArrival(arrivals[..|arrivals| - 1], key)
  }

  /** The arrivals of `key` since the last pause of a whole window, accepted or not. */
  ghost function Burst(server: Server, w: int, arrivals: seq<Request>, key: Key): nat {
    if arrivals == [] then 0
    else
      var front, r := arrivals[..|arrivals| - 1], arrivals[|arrivals| - 1];
      if r.key != key then Burst(server, w, front, key)
      else
        match LastArrival(front, key)
        case Some(t) => if server.Alive(t + w as real, r.now) then Burst(server, w, front, key) + 1 else 1
        case None => 1
  }

  ghost predicate CounterAccepts(server: Server, w: int, arrivals: seq<Request>, r: Request) {
    Burst(server, w, arrivals + [r], r.key) <= r.limit
  }

  ghost function CounterAccepted(server: Server, w: int, arrivals: seq<Request>): seq<Request> {
    if arrivals == [] then []
    else
      var front, r := arrivals[..|arrivals| - 1], arrivals[|arrivals| - 1];
      var log := CounterAccepted(server, w, front);
      if CounterAccepts(server, w, front, r) then log + [r] else log
  }

  /** Every request uses the window `w` and the clock does not run backwards. */
  ghost predicate FixedWindow(w: int, arrivals: seq<Request>) {
    && (forall i :: 0 <= i < |arrivals| ==> arrivals[i].window == w as real)
    && (forall i, j :: 0 <= i < j < |arrivals| ==> arrivals[i].now <= arrivals[j].now)
  }

  lemma FixedWindowFront(w: int, arrivals: seq<Request>)
    requires FixedWindow(w, arrivals) && arrivals != []
    ensures FixedWindow(w, arrivals[..|arrivals| - 1])
    ensures forall r :: r in arrivals ==> r.now <= arrivals[|arrivals| - 1].now
  {
  }

  lemma {:induction false} LastArrivalIsLatest(w: int, arrivals: seq<Request>, key: Key)
    requires FixedWindow(w, arrivals)
    ensures LastArrival(arrivals, key).Some? ==>
              (exists r :: r in arrivals && r.key == key && r.now == LastArrival(arrivals, key).value)
    ensures forall r :: r in arrivals && r.key == key ==>
              LastArrival(arrivals, key).Some? && r.now <= LastArrival(arrivals, key).value
  {
    if arrivals != [] {
      var front, last := arrivals[..|arrivals| - 1], arrivals[|arrivals| - 1];
      FixedWindowFront(w, arrivals);
      LastArrivalIsLatest(w, front, key);
      assert arrivals == front + [last];
      assert last in arrivals;
    }
  }

  lemma LastArrivalInOrder(w: int, arrivals: seq<Request>, key: Key)
    requires FixedWindow(w, arrivals) && arrivals != []
    ensures
      var last := LastArrival(arrivals[..|arrivals| - 1], key);
      last.Some? ==> last.value <= arrivals[|arrivals| - 1].now
  {
    var front := arrivals[..|arrivals| - 1];
    FixedWindowFront(w, arrivals);
    LastArrivalIsLatest(w, front, key);
    if LastArrival(front, key).Some? {
      var q :| q in front && q.key == key && q.now == LastArrival(front, key).value;
      assert q in arrivals;
    }
  }

  lemma {:induction false} AcceptedArrived(arrivals: seq<Request>)
    ensures forall r :: r in Accepted(arrivals) ==> r in arrivals
  {
    if arrivals != [] {
      AcceptedArrived(arrivals[..|arrivals| - 1]);
    }
  }

  lemma {:induction false} NoneAfter(log: seq<Request>, key: Key, start: real)
    requires forall r :: r in log && r.key == key ==> r.now <= start
    ensures CountAfter(log, key, start) == 0
  {
    if log != [] {
      var front := log[..|log| - 1];
      assert log[|log| - 1] in log;
      NoneAfter(front, key, start);
    }
  }

  /** In any window that begins no earlier than `w` before the last arrival, the log holds at most one burst. */
  lemma {:induction false} LogWithinBurst(server: Server, w: int, arrivals: seq<Request>, key: Key, start: real)
    requires w >= 1 && FixedWindow(w, arrivals)
    requires LastArrival(arrivals, key).Some? ==> LastArrival(arrivals, key).value - w as real <= start
    ensures CountAfter(Accepted(arrivals), key, start) <= Burst(server, w, arrivals, key)
  {
    if arrivals != [] {
      var front, r := arrivals[..|arrivals| - 1], arrivals[|arrivals| - 1];
      FixedWindowFront(w, arrivals);
      assert arrivals == front + [r];
      AcceptedSnoc(front, r);
      CountSnoc(Accepted(front), r, key, start);
      if r.key != key {
        LogWithinBurst(server, w, front, key, start);
      } else {
        LastArrivalIsLatest(w, front, key);
        match LastArrival(front, key)
        case Some(t) =>
          if server.Alive(t + w as real, r.now) {
            LogWithinBurst(server, w, front, key, start);
          } else {
            PauseEmptiesWindow(w, front, key, start);
          }
        case None =>
          PauseEmptiesWindow(w, front, key, start);
      }
    }
  }

  lemma PauseEmptiesWindow(w: int, arrivals: seq<Request>, key: Key, start: real)
    requires FixedWindow(w, arrivals)
    requires LastArrival(arrivals, key).Some? ==> LastArrival(arrivals, key).value <= start
    ensures CountAfter(Accepted(arrivals), key, start) == 0
  {
    AcceptedArrived(arrivals);
    LastArrivalIsLatest(w, arrivals, key);
    NoneAfter(Accepted(arrivals), key, start);
  }

  /** Every request that the counter accepts is accepted by the sliding-window log as well. */
  lemma CounterIsStricter(server: Server, w: int, arrivals: seq<Request>, r: Request)
    requires w >= 1 && FixedWindow(w, arrivals + [r])
    requires CounterAccepts(server, w, arrivals, r)
    ensures Admits(Accepted(arrivals), r)
  {
    var all := arrivals + [r];
    FixedWindowFront(w, all);
    assert all[..|all| - 1] == arrivals && all[|all| - 1] == r;
    LastArrivalIsLatest(w, arrivals, r.key);
    match LastArrival(arrivals, r.key)
    case Some(t) =>
      if server.Alive(t + w as real, r.now) {
        assert exists q :: q in arrivals && q.now == t;
        assert forall q :: q in arrivals ==> q in all;
        LogWithinBurst(server, w, arrivals, r.key, r.Start());
      } else {
        PauseEmptiesWindow(w, arrivals, r.key, r.Start());
      }
    case None =>
      PauseEmptiesWindow(w, arrivals, r.key, r.Start());
  }

  lemma {:induction false} CounterAcceptsFewer(server: Server, w: int, arrivals: seq<Request>, key: Key, lo: real, hi: real)
    requires w >= 1 && FixedWindow(w, arrivals)
    ensures CountWithin(CounterAccepted(server, w, arrivals), key, lo, hi) <= CountWithin(Accepted(arrivals), key, lo, hi)
  {
    if arrivals != [] {
      var front, r := arrivals[..|arrivals| - 1], arrivals[|arrivals| - 1];
      FixedWindowFront(w, arrivals);
      CounterAcceptsFewer(server, w, front, key, lo, hi);
      assert arrivals == front + [r];
      if CounterAccepts(server, w, front, r) {
        CounterIsStricter(server, w, front, r);
      }
      WithinSnoc(Accepted(front), r, key, lo, hi);
      WithinSnoc(CounterAccepted(server, w, front), r, key, lo, hi);
    }
  }

  /** So the Redis form obeys the same window bound. */
  lemma CounterWindowBound(server: Server, w: int, arrivals: seq<Request>, key: Key, limit: nat, x: real)
    requires w >= 1 && FixedWindow(w, arrivals)
    requires forall r :: r in arrivals && r.key == key ==> r.limit <= limit
    ensures |PlacesWithin(CounterAccepted(server, w, arrivals), key, x - w as real, x)| <= limit
  {
    CountWithinIsSize(CounterAccepted(server, w, arrivals), key, x - w as real, x);
    CounterAcceptsFewer(server, w, arrivals, key, x - w as real, x);
    assert forall r :: r in arrivals ==> r.window == w as real;
    CountBound(arrivals, key, limit, w as real, x);
  }

  // ---------------------------------------------------------------------------
  // Judging every request of a run by what came before it
  // ---------------------------------------------------------------------------

  type Judgement = (seq<Request>, Request) -> bool

  ghost predicate Each(p: Judgement, arrivals: seq<Request>) {
    if arrivals == [] then true
    else
      var front, r := arrivals[..|arrivals| - 1], arrivals[|arrivals| - 1];
      Each(p, front) && p(front, r)
  }

  lemma {:induction false} EachMeansAll(p: Judgement, arrivals: seq<Request>)
    ensures Each(p, arrivals) <==> forall i :: 0 <= i < |arrivals| ==> p(arrivals[..i], arrivals[i])
  {
    if arrivals != [] {
      var front := arrivals[..|arrivals| - 1];
      EachMeansAll(p, front);
      assert forall i :: 0 <= i < |front| ==> arrivals[i] == front[i] && arrivals[..i] == front[..i];
    }
  }

  // ---------------------------------------------------------------------------
  // Bursts
  // ---------------------------------------------------------------------------

  /** The arrival with which the current burst of `key` began. */
  ghost function BurstStart(server: Server, w: int, arrivals: seq<Request>, key: Key): real {
    if arrivals == [] then 0.0
    else
      var front, r := arrivals[..|arrivals| - 1], arrivals[|arrivals| - 1];
      if r.key != key || Continues(server, w, front, r) then BurstStart(server, w, front, key) else r.now
  }

  /** `r` comes before the counter of its key has expired. */
  ghost predicate Continues(server: Server, w: int, arrivals: seq<Request>, r: Request) {
    LastArrival(arrivals, r.key).Some? && server.Alive(LastArrival(arrivals, r.key).value + w as real, r.now)
  }

  lemma BurstSnoc(server: Server, w: int, arrivals: seq<Request>, r: Request)
    ensures Burst(server, w, arrivals + [r], r.key) ==
            if Continues(server, w, arrivals, r) then Burst(server, w, arrivals, r.key) + 1 else 1
    ensures BurstStart(server, w, arrivals + [r], r.key) ==
            if Continues(server, w, arrivals, r) then BurstStart(server, w, arrivals, r.key) else r.now
    ensures LastArrival(arrivals + [r], r.key) == Some(r.now)
  {
    assert (arrivals + [r])[..|arrivals|] == arrivals;
  }

  lemma {:induction false} BurstBegan(server: Server, w: int, arrivals: seq<Request>, key: Key)
    requires FixedWindow(w, arrivals)
    ensures LastArrival(arrivals, key).Some? <==> Burst(server, w, arrivals, key) >= 1
    ensures LastArrival(arrivals, key).Some? ==>
              BurstStart(server, w, arrivals, key) <= LastArrival(arrivals, key).value
  {
    if arrivals != [] {
      FixedWindowFront(w, arrivals);
      BurstBegan(server, w, arrivals[..|arrivals| - 1], key);
      LastArrivalInOrder(w, arrivals, key);
    }
  }

  ghost function Arrived(arrivals: seq<Request>, key: Key): nat {
    if arrivals == [] then 0
    else Arrived(arrivals[..|arrivals| - 1], key) + if arrivals[|arrivals| - 1].key == key then 1 else 0
  }

  /** `r` is its client's first request or comes before the counter has expired. */
  ghost predicate NoPause(server: Server, w: int, arrivals: seq<Request>, r: Request) {
    LastArrival(arrivals, r.key).Some? ==> Continues(server, w, arrivals, r)
  }

  ghost function NoPauseFor(server: Server, w: int, key: Key): Judgement {
    (front: seq<Request>, r: Request) => r.key == key ==> NoPause(server, w, front, r)
  }

  lemma {:induction false} BurstIsAllIff(server: Server, w: int, arrivals: seq<Request>, key: Key)
    ensures LastArrival(arrivals, key).None? <==> Arrived(arrivals, key) == 0
    ensures Burst(server, w, arrivals, key) <= Arrived(arrivals, key)
    ensures Burst(server, w, arrivals, key) == Arrived(arrivals, key) <==> Each(NoPauseFor(server, w, key), arrivals)
  {
    if arrivals != [] {
      BurstIsAllIff(server, w, arrivals[..|arrivals| - 1], key);
    }
  }

  /** A client's counter is the number of all its requests so far, so that everything past the first `limit`
      of them is rejected for ever, if and only if the client never lets the counter expire. */
  lemma SteadyClientIsNeverForgiven(server: Server, w: int, arrivals: seq<Request>, key: Key)
    ensures Burst(server, w, arrivals, key) == Arrived(arrivals, key) <==>
            forall i :: 0 <= i < |arrivals| && arrivals[i].key == key ==> NoPause(server, w, arrivals[..i], arrivals[i])
  {
    BurstIsAllIff(server, w, arrivals, key);
    EachMeansAll(NoPauseFor(server, w, key), arrivals);
  }

  // ---------------------------------------------------------------------------
  // The fixed window that the documentation describes: EXPIRE on a window's first request only
  // ---------------------------------------------------------------------------

  /** The arrival with which the current fixed window of `key` began. */
  ghost function FixedStart(server: Server, w: int, arrivals: seq<Request>, key: Key): real
    decreases |arrivals|, 0
  {
    if arrivals == [] then 0.0
    else
      var front, r := arrivals[..|arrivals| - 1], arrivals[|arrivals| - 1];
      if r.key != key || InFixedWindow(server, w, front, r) then FixedStart(server, w, front, key) else r.now
  }

  /** `r` comes before the window of its key has ended. */
  ghost predicate InFixedWindow(server: Server, w: int, arrivals: seq<Request>, r: Request)
    decreases |arrivals|, 1
  {
    LastArrival(arrivals, r.key).Some? && server.Alive(FixedStart(server, w, arrivals, r.key) + w as real, r.now)
  }

  ghost function FixedCount(server: Server, w: int, arrivals: seq<Request>, key: Key): nat {
    if arrivals == [] then 0
    else
      var front, r := arrivals[..|arrivals| - 1], arrivals[|arrivals| - 1];
      if r.key != key then FixedCount(server, w, front, key)
      else if InFixedWindow(server, w, front, r) then FixedCount(server, w, front, key) + 1
      else 1
  }

  lemma FixedSnoc(server: Server, w: int, arrivals: seq<Request>, r: Request)
    ensures FixedCount(server, w, arrivals + [r], r.key) ==
            if InFixedWindow(server, w, arrivals, r) then FixedCount(server, w, arrivals, r.key) + 1 else 1
    ensures FixedStart(server, w, arrivals + [r], r.key) ==
            if InFixedWindow(server, w, arrivals, r) then FixedStart(server, w, arrivals, r.key) else r.now
  {
    assert (arrivals + [r])[..|arrivals|] == arrivals;
  }

  /** The code never counts less than a fixed window would, and its bursts begin no later. */
  lemma {:induction false} CounterExceedsFixed(server: Server, w: int, arrivals: seq<Request>, key: Key)
    requires w >= 1 && FixedWindow(w, arrivals)
    ensures FixedCount(server, w, arrivals, key) <= Burst(server, w, arrivals, key)
    ensures LastArrival(arrivals, key).Some? ==>
              && BurstStart(server, w, arrivals, key) <= FixedStart(server, w, arrivals, key) <= LastArrival(arrivals, key).value
              && FixedCount(server, w, arrivals, key) >= 1
  {
    if arrivals != [] {
      var front, r := arrivals[..|arrivals| - 1], arrivals[|arrivals| - 1];
      FixedWindowFront(w, arrivals);
      CounterExceedsFixed(server, w, front, key);
      LastArrivalInOrder(w, arrivals, key);
      assert arrivals == front + [r];
      if r.key == key {
        BurstSnoc(server, w, front, r);
        FixedSnoc(server, w, front, r);
      }
    }
  }

  ghost predicate CountsAlike(server: Server, w: int, arrivals: seq<Request>, r: Request) {
    Burst(server, w, arrivals + [r], r.key) == FixedCount(server, w, arrivals + [r], r.key)
  }

  ghost function AlikeFor(server: Server, w: int, key: Key): Judgement {
    (front: seq<Request>, r: Request) => r.key == key ==> CountsAlike(server, w, front, r)
  }

  /** `r` comes within one window of the first arrival of its burst. */
  ghost predicate NearStart(server: Server, w: int, arrivals: seq<Request>, r: Request) {
    server.Alive(BurstStart(server, w, arrivals + [r], r.key) + w as real, r.now)
  }

  ghost function NearStartFor(server: Server, w: int, key: Key): Judgement {
    (front: seq<Request>, r: Request) => r.key == key ==> NearStart(server, w, front, r)
  }

  /** Once the earlier counts agree, so do the starts, and the next count does exactly when `r` is near the start. */
  lemma NextCountsAlike(server: Server, w: int, arrivals: seq<Request>, r: Request)
    requires w >= 1 && FixedWindow(w, arrivals + [r])
    requires Burst(server, w, arrivals, r.key) == FixedCount(server, w, arrivals, r.key)
    requires LastArrival(arrivals, r.key).Some? ==>
               BurstStart(server, w, arrivals, r.key) == FixedStart(server, w, arrivals, r.key)
    ensures CountsAlike(server, w, arrivals, r) <==> NearStart(server, w, arrivals, r)
    ensures CountsAlike(server, w, arrivals, r) ==>
              BurstStart(server, w, arrivals + [r], r.key) == FixedStart(server, w, arrivals + [r], r.key)
  {
    var all := arrivals + [r];
    assert all[..|all| - 1] == arrivals;
    FixedWindowFront(w, all);
    BurstSnoc(server, w, arrivals, r);
    FixedSnoc(server, w, arrivals, r);
    BurstBegan(server, w, arrivals, r.key);
  }

  lemma {:induction false} AlikeIffNearStart(server: Server, w: int, arrivals: seq<Request>, key: Key)
    requires w >= 1 && FixedWindow(w, arrivals)
    ensures Each(AlikeFor(server, w, key), arrivals) <==> Each(NearStartFor(server, w, key), arrivals)
    ensures Each(AlikeFor(server, w, key), arrivals) ==>
              && Burst(server, w, arrivals, key) == FixedCount(server, w, arrivals, key)
              && (LastArrival(arrivals, key).Some? ==>
                    BurstStart(server, w, arrivals, key) == FixedStart(server, w, arrivals, key))
  {
    if arrivals != [] {
      var front, r := arrivals[..|arrivals| - 1], arrivals[|arrivals| - 1];
      FixedWindowFront(w, arrivals);
      assert arrivals == front + [r];
      AlikeIffNearStart(server, w, front, key);
      if r.key == key && Each(AlikeFor(server, w, key), front) {
        NextCountsAlike(server, w, front, r);
      }
    }
  }

  /** The exact condition: the counter is that of a fixed window after every request of a client if and only if
      each of them comes within one window of the first arrival of its burst. */
  lemma FixedWindowIff(server: Server, w: int, arrivals: seq<Request>, key: Key)
    requires w >= 1 && FixedWindow(w, arrivals)
    ensures (forall i :: 0 <= i < |arrivals| && arrivals[i].key == key ==> CountsAlike(server, w, arrivals[..i], arrivals[i]))
            <==>
            (forall i :: 0 <= i < |arrivals| && arrivals[i].key == key ==> NearStart(server, w, arrivals[..i], arrivals[i]))
  {
    EachMeansAll(AlikeFor(server, w, key), arrivals);
    EachMeansAll(NearStartFor(server, w, key), arrivals);
    AlikeIffNearStart(server, w, arrivals, key);
  }

  /** With window 2 and arrivals at 0, 1.5 and 3 a fixed window starts again at 3; the counter stands at three. */
  lemma CounterIsNotFixedWindow(server: Server)
    ensures
      var k := Key("client");
      var a, b, c := Request(k, 0.0, 1, 2.0), Request(k, 1.5, 1, 2.0), Request(k, 3.0, 1, 2.0);
      Burst(server, 2, [a, b, c], k) == 3 && FixedCount(server, 2, [a, b, c], k) == 1
  {
    var k := Key("client");
    var a, b, c := Request(k, 0.0, 1, 2.0), Request(k, 1.5, 1, 2.0), Request(k, 3.0, 1, 2.0);
    assert [] + [a] == [a] && [a] + [b] == [a, b] && [a, b] + [c] == [a, b, c];
    BurstSnoc(server, 2, [], a);
    FixedSnoc(server, 2, [], a);
    BurstSnoc(server, 2, [a], b);
    FixedSnoc(server, 2, [a], b);
    BurstSnoc(server, 2, [a, b], c);
    FixedSnoc(server, 2, [a, b], c);
  }

  /** A pause of exactly one window restarts the counter unless the server serves the key at that instant. */
  lemma PauseOfOneWindow(server: Server, w: int, arrivals: seq<Request>, r: Request)
    requires LastArrival(arrivals, r.key) == Some(r.now - w as real)
    ensures Burst(server, w, arrivals + [r], r.key) ==
            if server.servesAtDeadline then Burst(server, w, arrivals, r.key) + 1 else 1
  {
    BurstSnoc(server, w, arrivals, r);
  }

  /** One client limit for the whole run. */
  ghost predicate FixedLimit(limit: int, arrivals: seq<Request>, key: Key) {
    forall i :: 0 <= i < |arrivals| && arrivals[i].key == key ==> arrivals[i].limit == limit
  }

  ghost predicate SameDecision(server: Server, w: int, arrivals: seq<Request>, r: Request) {
    CounterAccepts(server, w, arrivals, r) <==> Admits(Accepted(arrivals), r)
  }

  /** `r` is within the limit of its burst, or less than a window after the burst began. */
  ghost predicate Timely(server: Server, w: int, arrivals: seq<Request>, r: Request) {
    Burst(server, w, arrivals + [r], r.key) > r.limit ==>
      BurstStart(server, w, arrivals + [r], r.key) > r.now - w as real
  }

  /** The log accepts the first `limit` requests of every burst. */
  lemma {:induction false} BurstFillsLog(server: Server, w: int, limit: int, arrivals: seq<Request>, key: Key, start: real)
    requires w >= 1 && FixedWindow(w, arrivals) && FixedLimit(limit, arrivals, key) && limit >= 1
    requires start < BurstStart(server, w, arrivals, key)
    ensures Burst(server, w, arrivals, key) <= limit ==> CountAfter(Accepted(arrivals), key, start) >= Burst(server, w, arrivals, key)
    ensures Burst(server, w, arrivals, key) >= limit ==> CountAfter(Accepted(arrivals), key, start) >= limit
  {
    if arrivals != [] {
      var front, r := arrivals[..|arrivals| - 1], arrivals[|arrivals| - 1];
      FixedWindowFront(w, arrivals);
      assert arrivals == front + [r];
      AcceptedSnoc(front, r);
      CountSnoc(Accepted(front), r, key, start);
      if r.key != key {
        BurstFillsLog(server, w, limit, front, key, start);
      } else {
        BurstSnoc(server, w, front, r);
        BurstBegan(server, w, arrivals, key);
        if Continues(server, w, front, r) {
          BurstFillsLog(server, w, limit, front, key, start);
        }
        if CounterAccepts(server, w, front, r) {
          CounterIsStricter(server, w, front, r);
        }
      }
    }
  }

  // ---------------------------------------------------------------------------
  // When the counter and the log agree
  // ---------------------------------------------------------------------------

  /** The two backends took the same decision on every request of `key` so far. */
  ghost predicate AllSame(server: Server, w: int, arrivals: seq<Request>, key: Key) {
    Each(SameFor(server, w, key), arrivals)
  }

  ghost function SameFor(server: Server, w: int, key: Key): Judgement {
    (front: seq<Request>, r: Request) => r.key == key ==> SameDecision(server, w, front, r)
  }

  ghost predicate AllTimely(server: Server, w: int, arrivals: seq<Request>, key: Key) {
    Each(TimelyFor(server, w, key), arrivals)
  }

  ghost function TimelyFor(server: Server, w: int, key: Key): Judgement {
    (front: seq<Request>, r: Request) => r.key == key ==> Timely(server, w, front, r)
  }

  /** While the decisions agree, a window that begins at the burst or later misses its first request
      and holds at most `limit - 1` others. */
  lemma {:induction false} BurstLeavesRoom(server: Server, w: int, limit: int, arrivals: seq<Request>, key: Key, start: real)
    requires w >= 1 && FixedWindow(w, arrivals) && FixedLimit(limit, arrivals, key) && limit >= 1
    requires AllSame(server, w, arrivals, key)
    requires LastArrival(arrivals, key).Some? && BurstStart(server, w, arrivals, key) <= start
    ensures CountAfter(Accepted(arrivals), key, start) < limit
    ensures CountAfter(Accepted(arrivals), key, start) < Burst(server, w, arrivals, key)
  {
    var front, r := arrivals[..|arrivals| - 1], arrivals[|arrivals| - 1];
    FixedWindowFront(w, arrivals);
    assert arrivals == front + [r];
    if r.key != key {
      AcceptedSnoc(front, r);
      CountSnoc(Accepted(front), r, key, start);
      BurstLeavesRoom(server, w, limit, front, key, start);
    } else {
      BurstSnoc(server, w, front, r);
      if Continues(server, w, front, r) {
        BurstLeavesRoom(server, w, limit, front, key, start);
      }
      RoomAfter(server, w, front, r, start);
    }
  }

  lemma RoomAfter(server: Server, w: int, front: seq<Request>, r: Request, start: real)
    requires w >= 1 && FixedWindow(w, front) && r.limit >= 1 && SameDecision(server, w, front, r)
    requires BurstStart(server, w, front + [r], r.key) <= start
    requires Continues(server, w, front, r) ==>
               && CountAfter(Accepted(front), r.key, start) < r.limit
               && CountAfter(Accepted(front), r.key, start) < Burst(server, w, front, r.key)
    ensures CountAfter(Accepted(front + [r]), r.key, start) < r.limit
    ensures CountAfter(Accepted(front + [r]), r.key, start) < Burst(server, w, front + [r], r.key)
  {
    BurstSnoc(server, w, front, r);
    AcceptedSnoc(front, r);
    CountSnoc(Accepted(front), r, r.key, start);
    if !Continues(server, w, front, r) {
      PauseEmptiesWindow(w, front, r.key, start);
    }
  }

  /** Once the earlier decisions agree, the next one does exactly when the request is timely. */
  lemma NextAgreesIffTimely(server: Server, w: int, arrivals: seq<Request>, r: Request)
    requires w >= 1 && FixedWindow(w, arrivals + [r]) && FixedLimit(r.limit, arrivals, r.key) && r.limit >= 1
    ensures Timely(server, w, arrivals, r) ==> SameDecision(server, w, arrivals, r)
    ensures AllSame(server, w, arrivals, r.key) && SameDecision(server, w, arrivals, r) ==> Timely(server, w, arrivals, r)
  {
    var all := arrivals + [r];
    FixedWindowFront(w, all);
    assert all[..|all| - 1] == arrivals && all[|all| - 1] == r;
    BurstSnoc(server, w, arrivals, r);
    if CounterAccepts(server, w, arrivals, r) {
      CounterIsStricter(server, w, arrivals, r);
    } else if Timely(server, w, arrivals, r) {
      BurstFillsLog(server, w, r.limit, arrivals, r.key, r.Start());
    } else if AllSame(server, w, arrivals, r.key) {
      BurstLeavesRoom(server, w, r.limit, arrivals, r.key, r.Start());
    }
  }

  lemma {:induction false} AllSameIffAllTimely(server: Server, w: int, limit: int, arrivals: seq<Request>, key: Key)
    requires w >= 1 && FixedWindow(w, arrivals) && FixedLimit(limit, arrivals, key) && limit >= 1
    ensures AllSame(server, w, arrivals, key) <==> AllTimely(server, w, arrivals, key)
  {
    if arrivals != [] {
      var front, r := arrivals[..|arrivals| - 1], arrivals[|arrivals| - 1];
      FixedWindowFront(w, arrivals);
      assert arrivals == front + [r];
      AllSameIffAllTimely(server, w, limit, front, key);
      if r.key == key {
        NextAgreesIffTimely(server, w, front, r);
      }
    }
  }

  lemma BothReject(server: Server, w: int, arrivals: seq<Request>, r: Request)
    requires r.limit < 1
    ensures !CounterAccepts(server, w, arrivals, r) && !Admits(Accepted(arrivals), r)
  {
    BurstSnoc(server, w, arrivals, r);
  }

  /**
   The exact condition: with one limit and one window, the two backends take the same decision
   on every request of a client if and only if every request beyond the limit of its burst comes
   less than a window after the burst began. A limit below one makes both reject everything.
   */
  lemma BackendsAgreeIff(server: Server, w: int, limit: int, arrivals: seq<Request>, key: Key)
    requires w >= 1 && FixedWindow(w, arrivals) && FixedLimit(limit, arrivals, key)
    ensures (forall i :: 0 <= i < |arrivals| && arrivals[i].key == key ==> SameDecision(server, w, arrivals[..i], arrivals[i]))
            <==>
            limit < 1 ||
            (forall i :: 0 <= i < |arrivals| && arrivals[i].key == key ==> Timely(server, w, arrivals[..i], arrivals[i]))
  {
    if limit < 1 {
      forall i | 0 <= i < |arrivals| && arrivals[i].key == key ensures SameDecision(server, w, arrivals[..i], arrivals[i]) {
        BothReject(server, w, arrivals[..i], arrivals[i]);
      }
    } else {
      EachMeansAll(SameFor(server, w, key), arrivals);
      EachMeansAll(TimelyFor(server, w, key), arrivals);
      AllSameIffAllTimely(server, w, limit, arrivals, key);
    }
  }

  /** The converse of `CounterIsStricter` fails: limit 1, window 2, arrivals at 0, 1.5 and 3. */
  lemma CounterIsNotTheLog(server: Server)
    ensures
      var k := Key("client");
      var a, b, c := Request(k, 0.0, 1, 2.0), Request(k, 1.5, 1, 2.0), Request(k, 3.0, 1, 2.0);
      Admits(Accepted([a, b]), c) && !CounterAccepts(server, 2, [a, b], c)
  {
    var k := Key("client");
    var a, b, c := Request(k, 0.0, 1, 2.0), Request(k, 1.5, 1, 2.0), Request(k, 3.0, 1, 2.0);
    AcceptedSnoc([], a);
    assert [] + [a] == [a];
    CountSnoc([], a, k, -0.5);
    AcceptedSnoc([a], b);
    assert [a] + [b] == [a, b];
    CountSnoc([], a, k, 1.0);
    assert Accepted([a, b]) == [a];
    assert [a, b][..1] == [a] && ([a, b] + [c])[..2] == [a, b] && [a][..0] == [];
    assert LastArrival([a], k) == Some(0.0) && LastArrival([a, b], k) == Some(1.5);
    assert Burst(server, 2, [a], k) == 1;
    assert Burst(server, 2, [a, b], k) == 2;
  }

  // ---------------------------------------------------------------------------
  // The backend
  // ---------------------------------------------------------------------------

  /** Python's floor division. */
  function FloorDiv(a: int, b: int): (q: int)
    requires b != 0
    ensures b > 0 ==> q * b <= a < q * b + b
    ensures b < 0 ==> q * b + b < a <= q * b
  {
    if b > 0 then a / b else (-a) / (-b)
  }

  class RedisRateLimitBackend {
    const server: Server
    /** The Redis keys, with their time to live. */
    var counters: map<Key, Counter>
    ghost var arrivals: seq<Request>

    /** The stored counters are the bursts of a run that used the window `w` throughout. */
    ghost predicate Counts(w: int)
      reads this
    {
      forall key :: CounterOf(counters, key) ==
                    match LastArrival(arrivals, key)
                    case None => None
                    case Some(t) => Some(Counter(Burst(server, w, arrivals, key), t + w as real))
    }

    constructor (server: Server)
      ensures this.server == server && arrivals == [] && counters == map[]
      ensures forall w :: Counts(w)
    {
      this.server := server;
      counters, arrivals := map[], [];
    }

    /** `check_rate_limit`: accepts exactly while the current burst is within the limit. */
    method CheckRateLimit(key: Key, limit: int, window: real, now: real) returns (answer: Answer)
      modifies this
      ensures answer.DivisionByZero? <==> Trunc(window) == 0
      ensures answer.DivisionByZero? ==> counters == old(counters) && arrivals == old(arrivals)
      ensures answer.Answer? ==>
                && arrivals == old(arrivals) + [Request(key, now, limit, window)]
                && (answer.allowed ==> 0 <= answer.remaining < limit)
                && (!answer.allowed ==> answer.remaining == 0)
      ensures Trunc(window) >= 1 && old(Counts(Trunc(window))) ==>
                && Counts(Trunc(window))
                && (answer.allowed <==>
                      CounterAccepts(server, Trunc(window), old(arrivals), Request(key, now, limit, window)))
                && CounterAccepted(server, Trunc(window), arrivals) ==
                   old(CounterAccepted(server, Trunc(window), arrivals))
                   + (if answer.allowed then [Request(key, now, limit, window)] else [])
                && (answer.allowed ==>
                      answer.remaining == limit - Burst(server, Trunc(window), arrivals, key))
                && Trunc(now) < answer.resetTs <= Trunc(now) + Trunc(window)
                && IsMultipleOf(answer.resetTs, Trunc(window))
    {
      var windowInt := Trunc(window);
      if windowInt == 0 {
        return DivisionByZero;
      }
      var resetTs := FloorDiv(Trunc(now), windowInt) * windowInt + windowInt;
      var count := Increment(key, now, windowInt);
      ghost var r := Request(key, now, limit, window);
      assert (arrivals + [r])[..|arrivals|] == arrivals;
      arrivals := arrivals + [r];
      answer := Answer(count <= limit, if limit - count > 0 then limit - count else 0, resetTs);
      if windowInt >= 1 {
        ResetIsNextMultiple(Trunc(now), windowInt);
      }
    }

    /** INCR then EXPIRE; a non-positive time to live deletes the key. */
    method Increment(key: Key, now: real, ttl: int) returns (count: nat)
      modifies this`counters
      ensures count >= 1
      ensures count == if key in old(counters) && server.Alive(old(counters)[key].expiresAt, now)
                       then old(counters)[key].count + 1 else 1
      ensures counters == if ttl >= 1 then old(counters)[key := Counter(count, now + ttl as real)]
                          else old(counters) - {key}
    {
      count := 1;
      if key in counters && server.Alive(counters[key].expiresAt, now) {
        count := counters[key].count + 1;
      }
      counters := counters[key := Counter(count, now + ttl as real)];
      if ttl < 1 {
        counters := counters - {key};
      }
    }
  }

  function CounterOf(counters: map<Key, Counter>, key: Key): Option<Counter> {
    if key in counters then Some(counters[key]) else None
  }

  ghost predicate Times(x: int, m: int, w: int) {
    x == m * w
  }

  ghost predicate IsMultipleOf(x: int, w: int) {
    exists m :: Times(x, m, w)
  }

  lemma ResetIsNextMultiple(t: int, w: int)
    requires w >= 1
    ensures t < FloorDiv(t, w) * w + w <= t + w
    ensures IsMultipleOf(FloorDiv(t, w) * w + w, w)
  {
    assert Times(t / w * w + w, t / w + 1, w);
  }
}
