/**
 The two backends of gateway/middleware/rate_limit.py. Time is an exact real that every
 call receives.
 */
module RateLimitReference {
  datatype Key = Key(text: string)

  datatype Request = Request(key: Key, now: real, limit: int, window: real) {
    function Start(): real {
      now - window
    }
  }

  /** Python's `int`. */
  function Trunc(x: real): (i: int)
    ensures x >= 0.0 ==> i as real <= x < i as real + 1.0
    ensures x < 0.0 ==> i as real - 1.0 < x <= i as real
  {
    if x >= 0.0 then x.Floor else -((-x).Floor)
  }

  /** How many of `log`'s requests of `key` came after `start`. */
  ghost function CountAfter(log: seq<Request>, key: Key, start: real): nat {
    if log == [] then 0
    else
      var last := log[|log| - 1];
      CountAfter(log[..|log| - 1], key, start) + if last.key == key && last.now > start then 1 else 0
  }

  /** The places in the log of the requests of `key` after `start`. */
  ghost function PlacesAfter(log: seq<Request>, key: Key, start: real): set<nat> {
    set i: nat | i < |log| && log[i].key == key && start < log[i].now
  }

  lemma {:induction false} CountAfterIsSize(log: seq<Request>, key: Key, start: real)
    ensures CountAfter(log, key, start) == |PlacesAfter(log, key, start)|
  {
    if log != [] {
      var k: nat := |log| - 1;
      CountAfterIsSize(log[..k], key, start);
      assert PlacesAfter(log, key, start) ==
             PlacesAfter(log[..k], key, start) + if log[k].key == key && start < log[k].now then {k} else {};
    }
  }

  /** The reference decision: fewer than `limit` accepted requests lie in the window. */
  ghost predicate Admits(accepted: seq<Request>, r: Request) {
    CountAfter(accepted, r.key, r.Start()) < r.limit
  }

  /** The reference log: every accepted request, kept for ever. */
  ghost function Accepted(arrivals: seq<Request>): seq<Request> {
    if arrivals == [] then []
    else
      var log, r := Accepted(arrivals[..|arrivals| - 1]), arrivals[|arrivals| - 1];
      if Admits(log, r) then log + [r] else log
  }

  lemma AcceptedSnoc(arrivals: seq<Request>, r: Request)
    ensures Accepted(arrivals + [r]) ==
            if Admits(Accepted(arrivals), r) then Accepted(arrivals) + [r] else Accepted(arrivals)
  {
  }

  /** The reference admits a request exactly when fewer than `limit` admitted requests of its key lie in its window. */
  lemma AdmittedIff(arrivals: seq<Request>, r: Request)
    ensures
      var log := Accepted(arrivals);
      Accepted(arrivals + [r]) == if |PlacesAfter(log, r.key, r.now - r.window)| < r.limit then log + [r] else log
  {
    AcceptedSnoc(arrivals, r);
    CountAfterIsSize(Accepted(arrivals), r.key, r.now - r.window);
  }

  lemma CountSnoc(log: seq<Request>, r: Request, key: Key, start: real)
    ensures CountAfter(log + [r], key, start) ==
            CountAfter(log, key, start) + if r.key == key && r.now > start then 1 else 0
  {
  }

  /** Requests of `key` in the half-open interval (lo, hi]. */
  ghost function CountWithin(log: seq<Request>, key: Key, lo: real, hi: real): nat {
    if log == [] then 0
    else
      var last := log[|log| - 1];
      CountWithin(log[..|log| - 1], key, lo, hi) + if last.key == key && lo < last.now <= hi then 1 else 0
  }

  ghost function PlacesWithin(log: seq<Request>, key: Key, lo: real, hi: real): set<nat> {
    set i: nat | i < |log| && log[i].key == key && lo < log[i].now <= hi
  }

  lemma {:induction false} CountWithinIsSize(log: seq<Request>, key: Key, lo: real, hi: real)
    ensures CountWithin(log, key, lo, hi) == |PlacesWithin(log, key, lo, hi)|
  {
    if log != [] {
      var k: nat := |log| - 1;
      CountWithinIsSize(log[..k], key, lo, hi);
      assert PlacesWithin(log, key, lo, hi) ==
             PlacesWithin(log[..k], key, lo, hi) + if log[k].key == key && lo < log[k].now <= hi then {k} else {};
    }
  }

  lemma WithinSnoc(log: seq<Request>, r: Request, key: Key, lo: real, hi: real)
    ensures CountWithin(log + [r], key, lo, hi) ==
            CountWithin(log, key, lo, hi) + if r.key == key && lo < r.now <= hi then 1 else 0
  {
    assert (log + [r])[..|log|] == log;
  }

  lemma {:induction false} WithinLeAfter(log: seq<Request>, key: Key, lo: real, hi: real, start: real)
    requires start <= lo
    ensures CountWithin(log, key, lo, hi) <= CountAfter(log, key, start)
  {
    if log != [] {
      WithinLeAfter(log[..|log| - 1], key, lo, hi, start);
    }
  }

  lemma {:induction false} CountBound(arrivals: seq<Request>, key: Key, limit: nat, w: real, x: real)
    requires forall r :: r in arrivals && r.key == key ==> r.limit <= limit && r.window >= w
    ensures CountWithin(Accepted(arrivals), key, x - w, x) <= limit
  {
    if arrivals != [] {
      var front, r := arrivals[..|arrivals| - 1], arrivals[|arrivals| - 1];
      CountBound(front, key, limit, w, x);
      assert r in arrivals;
      var log := Accepted(front);
      if Admits(log, r) {
        WithinSnoc(log, r, key, x - w, x);
        if r.key == key && r.now <= x {
          WithinLeAfter(log, key, x - w, x, r.Start());
        }
      }
    }
  }

  /** Sliding-window safety: no interval (x - w, x] holds more than `limit` accepted requests of a key. */
  lemma {:induction false} WindowBound(arrivals: seq<Request>, key: Key, limit: nat, w: real, x: real)
    requires forall r :: r in arrivals && r.key == key ==> r.limit <= limit && r.window >= w
    ensures |PlacesWithin(Accepted(arrivals), key, x - w, x)| <= limit
  {
    CountBound(arrivals, key, limit, w, x);
    CountWithinIsSize(Accepted(arrivals), key, x - w, x);
  }
}

module InMemoryRateLimit {
  import opened RateLimitReference

  const CLEANUP_INTERVAL := 60.0

  /** `[t for t in timestamps if t > start]`. */
  function After(timestamps: seq<real>, start: real): seq<real> {
    if timestamps == [] then []
    else
      var rest, t := After(timestamps[..|timestamps| - 1], start), timestamps[|timestamps| - 1];
      if t > start then rest + [t] else rest
  }

  ghost function TimesAfter(log: seq<Request>, key: Key, start: real): seq<real> {
    if log == [] then []
    else
      var rest, r := TimesAfter(log[..|log| - 1], key, start), log[|log| - 1];
      if r.key == key && r.now > start then rest + [r.now] else rest
  }

  lemma {:induction false} AfterTwice(timestamps: seq<real>, start: real, later: real)
    requires start <= later
    ensures After(After(timestamps, start), later) == After(timestamps, later)
  {
    if timestamps != [] {
      var front, t := timestamps[..|timestamps| - 1], timestamps[|timestamps| - 1];
      AfterTwice(front, start, later);
      var kept := After(front, start);
      if t > start {
        assert (kept + [t])[..|kept|] == kept;
      }
    }
  }

  lemma {:induction false} TimesCount(log: seq<Request>, key: Key, start: real)
    ensures |TimesAfter(log, key, start)| == CountAfter(log, key, start)
  {
    if log != [] {
      TimesCount(log[..|log| - 1], key, start);
    }
  }

  lemma TimesSnoc(log: seq<Request>, r: Request, key: Key, start: real)
    ensures TimesAfter(log + [r], key, start) ==
            TimesAfter(log, key, start) + if r.key == key && r.now > start then [r.now] else []
  {
  }

  lemma AfterSnoc(timestamps: seq<real>, t: real, start: real)
    ensures After(timestamps + [t], start) == After(timestamps, start) + if t > start then [t] else []
  {
  }

  function Stored(windows: map<Key, seq<real>>, key: Key): seq<real> {
    if key in windows then windows[key] else []
  }

  /** From `start` on, the pruned lists cannot be told from the log that keeps everything. */
  ghost predicate Agrees(windows: map<Key, seq<real>>, log: seq<Request>, start: real) {
    forall key, s :: s >= start ==> SameTimes(windows, log, key, s)
  }

  ghost predicate SameTimes(windows: map<Key, seq<real>>, log: seq<Request>, key: Key, s: real) {
    After(Stored(windows, key), s) == TimesAfter(log, key, s)
  }

  class InMemoryRateLimitBackend {
    var windows: map<Key, seq<real>>
    var lastCleanup: real
    /** All calls so far, and the window start of the last one. */
    ghost var arrivals: seq<Request>
    ghost var floor: real

    ghost predicate Valid()
      reads this
    {
      Agrees(windows, Accepted(arrivals), floor)
    }

    constructor (now: real, ghost start: real)
      ensures Valid() && arrivals == [] && floor == start
    {
      windows, lastCleanup := map[], now;
      arrivals, floor := [], start;
    }

    /** `_maybe_cleanup` drops, once a minute, the keys whose window is empty. */
    method MaybeCleanup(now: real, window: real)
      modifies this`windows, this`lastCleanup
      ensures forall k :: k in windows ==> k in old(windows) && windows[k] == old(windows)[k]
      ensures forall k :: k in old(windows) && k !in windows ==> After(old(windows)[k], now - window) == []
      ensures now - old(lastCleanup) < CLEANUP_INTERVAL ==> windows == old(windows) && lastCleanup == old(lastCleanup)
      ensures now - old(lastCleanup) >= CLEANUP_INTERVAL ==>
                lastCleanup == now && forall k :: k in windows ==> After(windows[k], now - window) != []
    {
      if now - lastCleanup < CLEANUP_INTERVAL {
        return;
      }
      var start := now - window;
      var stale := set k | k in windows.Keys && After(windows[k], start) == [];
      windows := windows - stale;
      lastCleanup := now;
    }

    /** Prunes the key's list in place and appends the request if it is admitted. */
    method PruneAndRecord(key: Key, limit: int, window: real, now: real) returns (allowed: bool, remaining: int)
      modifies this`windows
      ensures allowed <==> |After(old(Stored(windows, key)), now - window)| < limit
      ensures windows == Recorded(old(windows), key, now - window, if allowed then [now] else [])
      ensures remaining == if allowed then limit - 1 - |After(old(Stored(windows, key)), now - window)| else 0
    {
      var timestamps := After(Stored(windows, key), now - window);
      windows := windows[key := timestamps];
      if |timestamps| >= limit {
        assert timestamps + [] == timestamps;
        return false, 0;
      }
      windows := windows[key := timestamps + [now]];
      remaining := if limit - (|timestamps| + 1) > 0 then limit - (|timestamps| + 1) else 0;
      allowed := true;
    }

    /**
     `check_rate_limit`. As long as the window start only moves forward between calls, as it
     does for a fixed window, decision and `remaining` are those of the reference that never
     forgets an accepted request.
     */
    method CheckRateLimit(key: Key, limit: int, window: real, now: real)
      returns (allowed: bool, remaining: int, resetTs: int)
      modifies this
      ensures arrivals == old(arrivals) + [Request(key, now, limit, window)]
      ensures allowed <==> |After(old(Stored(windows, key)), now - window)| < limit
      ensures remaining == if allowed then limit - 1 - |After(old(Stored(windows, key)), now - window)| else 0
      ensures old(Valid()) && old(floor) <= now - window ==>
                && Valid() && floor == now - window
                && DecidesLike(old(Accepted(arrivals)), Request(key, now, limit, window), allowed, remaining)
                && Accepted(arrivals) == old(Accepted(arrivals)) + (if allowed then [Request(key, now, limit, window)] else [])
                && (allowed <==> |PlacesAfter(old(Accepted(arrivals)), key, now - window)| < limit)
      ensures now >= 0.0 ==> now < resetTs as real <= now + 1.0
    {
      ghost var r, before := Request(key, now, limit, window), windows;
      MaybeCleanup(now, window);
      ghost var cleaned := windows;
      resetTs := Trunc(now - window + window) + 1;
      allowed, remaining := PruneAndRecord(key, limit, window, now);
      CallAgrees(before, cleaned, windows, arrivals, floor, r, allowed, remaining);
      AcceptedSnoc(arrivals, r);
      CountAfterIsSize(Accepted(arrivals), key, now - window);
      arrivals, floor := arrivals + [r], now - window;
    }
  }

  /** The answer is the one that a log of all accepted requests gives. */
  ghost predicate DecidesLike(log: seq<Request>, r: Request, allowed: bool, remaining: int) {
    && (allowed <==> Admits(log, r))
    && (allowed ==> remaining == r.limit - 1 - CountAfter(log, r.key, r.Start()))
  }

  /** The effect of one call, on values: what it decides, and that agreement with the full log survives. */
  lemma CallAgrees(before: map<Key, seq<real>>, cleaned: map<Key, seq<real>>, after: map<Key, seq<real>>,
                   arrivals: seq<Request>, floor: real, r: Request, allowed: bool, remaining: int)
    requires forall k :: k in cleaned ==> k in before && cleaned[k] == before[k]
    requires forall k :: k in before && k !in cleaned ==> After(before[k], r.Start()) == []
    requires allowed <==> |After(Stored(cleaned, r.key), r.Start())| < r.limit
    requires after == Recorded(cleaned, r.key, r.Start(), if allowed then [r.now] else [])
    requires allowed ==> remaining == r.limit - 1 - |After(Stored(cleaned, r.key), r.Start())|
    ensures After(Stored(cleaned, r.key), r.Start()) == After(Stored(before, r.key), r.Start())
    ensures Agrees(before, Accepted(arrivals), floor) && floor <= r.Start() ==>
              && Agrees(after, Accepted(arrivals + [r]), r.Start())
              && DecidesLike(Accepted(arrivals), r, allowed, remaining)
  {
    var start, log := r.Start(), Accepted(arrivals);
    CleanupInvisible(before, cleaned, r.key, start);
    if Agrees(before, log, floor) && floor <= start {
      CleanupKeeps(before, cleaned, log, start);
      RecordKeeps(cleaned, log, r, allowed);
      AcceptedSnoc(arrivals, r);
    }
  }

  function Recorded(windows: map<Key, seq<real>>, key: Key, start: real, added: seq<real>): map<Key, seq<real>> {
    windows[key := After(Stored(windows, key), start) + added]
  }

  lemma CleanupInvisible(before: map<Key, seq<real>>, windows: map<Key, seq<real>>, key: Key, start: real)
    requires forall k :: k in windows ==> k in before && windows[k] == before[k]
    requires forall k :: k in before && k !in windows ==> After(before[k], start) == []
    ensures After(Stored(windows, key), start) == After(Stored(before, key), start)
  {
  }

  /** Cleanup forgets nothing that a later window can see. */
  lemma CleanupKeeps(before: map<Key, seq<real>>, windows: map<Key, seq<real>>, log: seq<Request>, start: real)
    requires Agrees(before, log, start)
    requires forall k :: k in windows ==> k in before && windows[k] == before[k]
    requires forall k :: k in before && k !in windows ==> After(before[k], start) == []
    ensures Agrees(windows, log, start)
  {
    forall k, s | s >= start ensures SameTimes(windows, log, k, s) {
      assert SameTimes(before, log, k, s);
      AfterTwice(Stored(before, k), start, s);
    }
  }

  lemma RecordKeeps(windows: map<Key, seq<real>>, log: seq<Request>, r: Request, allowed: bool)
    requires Agrees(windows, log, r.Start())
    requires allowed <==> |After(Stored(windows, r.key), r.Start())| < r.limit
    ensures |After(Stored(windows, r.key), r.Start())| == CountAfter(log, r.key, r.Start())
    ensures Agrees(Recorded(windows, r.key, r.Start(), if allowed then [r.now] else []),
                   if allowed then log + [r] else log, r.Start())
  {
    var start := r.Start();
    assert SameTimes(windows, log, r.key, start);
    TimesCount(log, r.key, start);
    var pruned := After(Stored(windows, r.key), start);
    PruneKeeps(windows, log, r.key, start);
    if allowed {
      AppendKeeps(windows[r.key := pruned], log, r, start);
      assert windows[r.key := pruned][r.key := pruned + [r.now]] == windows[r.key := pruned + [r.now]];
    } else {
      assert pruned + [] == pruned;
    }
  }

  lemma PruneKeeps(windows: map<Key, seq<real>>, log: seq<Request>, key: Key, start: real)
    requires Agrees(windows, log, start)
    ensures Agrees(windows[key := After(Stored(windows, key), start)], log, start)
  {
    var pruned := windows[key := After(Stored(windows, key), start)];
    forall k, s | s >= start ensures SameTimes(pruned, log, k, s) {
      assert SameTimes(windows, log, k, s);
      AfterTwice(Stored(windows, key), start, s);
    }
  }

  lemma AppendKeeps(windows: map<Key, seq<real>>, log: seq<Request>, r: Request, start: real)
    requires Agrees(windows, log, start) && r.key in windows
    ensures Agrees(windows[r.key := windows[r.key] + [r.now]], log + [r], start)
  {
    var grown := windows[r.key := windows[r.key] + [r.now]];
    forall k, s | s >= start ensures SameTimes(grown, log + [r], k, s) {
      assert SameTimes(windows, log, k, s);
      AfterSnoc(windows[r.key], r.now, s);
      TimesSnoc(log, r, k, s);
    }
  }
}
