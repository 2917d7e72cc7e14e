/** `CircuitBreaker` of gateway/middleware/circuit_breaker.py. The monotonic clock is an argument. */
module CircuitBreaking {
  datatype Mode = Closed | Open | HalfOpen

  datatype Config = Config(failureThreshold: int, recoveryTimeout: real, successThreshold: int)

  /** Everything that can happen to a breaker; reading `state` is an event because it may change it. */
  datatype Event = Poll(now: real) | Success | Failure(now: real) | Reset

  datatype Breaker = Breaker(mode: Mode, failures: int, successes: int, lastFailure: real)

  const INIT := Breaker(Closed, 0, 0, 0.0)

  ghost function Step(cfg: Config, b: Breaker, e: Event): Breaker {
    match e
    case Poll(now) =>
      if b.mode == Open && now - b.lastFailure >= cfg.recoveryTimeout then b.(mode := HalfOpen, successes := 0) else b
    case Success =>
      if b.mode != HalfOpen then b.(failures := 0)
      else if b.successes + 1 >= cfg.successThreshold then b.(mode := Closed, failures := 0, successes := b.successes + 1)
      else b.(successes := b.successes + 1)
    case Failure(now) =>
      var mode := if b.failures + 1 >= cfg.failureThreshold || b.mode == HalfOpen then Open else b.mode;
      b.(mode := mode, failures := b.failures + 1, lastFailure := now)
    case Reset =>
      b.(mode := Closed, failures := 0, successes := 0)
  }

  ghost function Run(cfg: Config, events: seq<Event>): Breaker {
    if events == [] then INIT else Step(cfg, Run(cfg, events[..|events| - 1]), events[|events| - 1])
  }

  // ---------------------------------------------------------------------------
  // What a history says, with no mention of the breaker's fields
  // ---------------------------------------------------------------------------

  ghost function TrailingFailures(events: seq<Event>): nat {
    if events == [] then 0
    else
      match events[|events| - 1]
      case Failure(_) => TrailingFailures(events[..|events| - 1]) + 1
      case Poll(_) => TrailingFailures(events[..|events| - 1])
      case _ => 0
  }

  ghost predicate EverFailed(events: seq<Event>) {
    exists i :: 0 <= i < |events| && events[i].Failure?
  }

  ghost function LatestFailure(events: seq<Event>): real
    requires EverFailed(events)
  {
    if events[|events| - 1].Failure? then events[|events| - 1].now
    else
      assert EverFailed(events[..|events| - 1]) by {
        var i :| 0 <= i < |events| && events[i].Failure?;
        assert events[..|events| - 1][i].Failure?;
      }
      LatestFailure(events[..|events| - 1])
  }

  ghost function Successes(events: seq<Event>): nat {
    if events == [] then 0
    else Successes(events[..|events| - 1]) + if events[|events| - 1].Success? then 1 else 0
  }

  ghost predicate Timed(e: Event) {
    e.Poll? || e.Failure?
  }

  /** The clock never runs backwards. */
  ghost predicate ClockOrdered(events: seq<Event>) {
    forall i, j :: 0 <= i < j < |events| && Timed(events[i]) && Timed(events[j]) ==> events[i].now <= events[j].now
  }

  // ---------------------------------------------------------------------------
  // CLOSED
  // ---------------------------------------------------------------------------

  /** In CLOSED the failure count is the trailing run of failures, and it is below the threshold. */
  lemma {:induction false} ClosedCountsFailures(cfg: Config, events: seq<Event>)
    requires cfg.failureThreshold >= 1
    ensures Run(cfg, events).mode == Closed ==>
              Run(cfg, events).failures == TrailingFailures(events) < cfg.failureThreshold
  {
    if events != [] {
      ClosedCountsFailures(cfg, events[..|events| - 1]);
    }
  }

  // ---------------------------------------------------------------------------
  // Recovery
  // ---------------------------------------------------------------------------

  /** Nothing but successes and polls, the successes `n` in number. */
  ghost predicate CleanStretch(events: seq<Event>, n: int) {
    && (forall i :: 0 <= i < |events| ==> events[i].Success? || events[i].Poll?)
    && Successes(events) == n
  }

  lemma CleanSnoc(events: seq<Event>, e: Event, n: int)
    requires CleanStretch(events, n) && (e.Success? || e.Poll?)
    ensures CleanStretch(events + [e], if e.Success? then n + 1 else n)
  {
  }

  /** `i` is when the present HALF_OPEN spell began: in OPEN just before, then only successes and polls. */
  ghost predicate HalfOpenSince(cfg: Config, events: seq<Event>, i: nat) {
    && 0 < i <= |events|
    && Run(cfg, events[..i - 1]).mode == Open
    && (forall j :: i <= j <= |events| ==> Run(cfg, events[..j]).mode == HalfOpen)
    && CleanStretch(events[i..], Run(cfg, events).successes)
  }

  /** A HALF_OPEN breaker has counted exactly the successes since it left OPEN, too few to close. */
  lemma {:induction false} HalfOpenCountsSuccesses(cfg: Config, events: seq<Event>) returns (i: nat)
    requires cfg.successThreshold >= 1 && Run(cfg, events).mode == HalfOpen
    ensures HalfOpenSince(cfg, events, i) && Run(cfg, events).successes < cfg.successThreshold
  {
    var front, e := events[..|events| - 1], events[|events| - 1];
    assert events[..|events|] == events;
    if Run(cfg, front).mode == HalfOpen {
      i := HalfOpenCountsSuccesses(cfg, front);
      assert events[i..] == front[i..] + [e];
      CleanSnoc(front[i..], e, Run(cfg, front).successes);
      assert front[..i - 1] == events[..i - 1];
      forall j | i <= j <= |events| ensures Run(cfg, events[..j]).mode == HalfOpen {
        if j <= |front| {
          assert front[..j] == events[..j];
        }
      }
    } else {
      i := |events|;
      assert events[i..] == [];
    }
  }

  /** OPEN until `i`, HALF_OPEN from `i` on, CLOSED at `j`, with `successThreshold` successes and no failure between. */
  ghost predicate ClosesBetween(cfg: Config, events: seq<Event>, i: nat, j: nat) {
    && 0 < i < j <= |events|
    && Run(cfg, events[..i - 1]).mode == Open
    && (forall k :: i <= k < j ==> Run(cfg, events[..k]).mode == HalfOpen)
    && Run(cfg, events[..j]).mode == Closed
    && CleanStretch(events[i..j], cfg.successThreshold)
  }

  lemma ClosedEarlier(cfg: Config, events: seq<Event>, front: seq<Event>, i: nat, j: nat)
    requires front <= events && ClosesBetween(cfg, front, i, j)
    ensures ClosesBetween(cfg, events, i, j)
  {
    assert front[i..j] == events[i..j] && front[..j] == events[..j] && front[..i - 1] == events[..i - 1];
    forall k | i <= k < j ensures Run(cfg, events[..k]).mode == HalfOpen {
      assert front[..k] == events[..k];
    }
  }

  lemma ClosesNow(cfg: Config, front: seq<Event>, i: nat)
    requires HalfOpenSince(cfg, front, i) && Run(cfg, front).successes < cfg.successThreshold
    requires Run(cfg, front + [Success]).mode == Closed
    ensures ClosesBetween(cfg, front + [Success], i, |front| + 1)
  {
    var events := front + [Success];
    assert events[..|front|] == front && events[..|front| + 1] == events;
    assert events[i..|front| + 1] == front[i..] + [Success];
    CleanSnoc(front[i..], Success, Run(cfg, front).successes);
    assert front[..i - 1] == events[..i - 1];
    forall k | i <= k < |front| + 1 ensures Run(cfg, events[..k]).mode == HalfOpen {
      assert front[..k] == events[..k];
    }
  }

  /**
   Without a reset, an OPEN breaker reaches CLOSED only through HALF_OPEN and exactly
   `successThreshold` successes with no failure among them.
   */
  lemma {:induction false} ClosesOnlyAfterSuccesses(cfg: Config, events: seq<Event>, openAt: nat) returns (i: nat, j: nat)
    requires cfg.successThreshold >= 1 && openAt <= |events|
    requires Run(cfg, events[..openAt]).mode == Open && Run(cfg, events).mode == Closed
    requires forall k :: openAt <= k < |events| ==> !events[k].Reset?
    ensures openAt < i && ClosesBetween(cfg, events, i, j)
    decreases |events|
  {
    assert events[..|events|] == events;
    var front, e := events[..|events| - 1], events[|events| - 1];
    assert front[..openAt] == events[..openAt];
    if Run(cfg, front).mode == Closed {
      i, j := ClosesOnlyAfterSuccesses(cfg, front, openAt);
      ClosedEarlier(cfg, events, front, i, j);
    } else {
      ClosedBySuccess(cfg, events);
      i := ClosesAtLast(cfg, front, openAt);
      j := |events|;
    }
  }

  lemma ClosesAtLast(cfg: Config, front: seq<Event>, openAt: nat) returns (i: nat)
    requires cfg.successThreshold >= 1 && openAt <= |front| && Run(cfg, front[..openAt]).mode == Open
    requires Run(cfg, front).mode == HalfOpen && Run(cfg, front + [Success]).mode == Closed
    ensures openAt < i && ClosesBetween(cfg, front + [Success], i, |front| + 1)
  {
    i := HalfOpenCountsSuccesses(cfg, front);
    ClosesNow(cfg, front, i);
  }

  lemma ClosedBySuccess(cfg: Config, events: seq<Event>)
    requires events != [] && !events[|events| - 1].Reset?
    requires Run(cfg, events).mode == Closed && Run(cfg, events[..|events| - 1]).mode != Closed
    ensures Run(cfg, events[..|events| - 1]).mode == HalfOpen && events == events[..|events| - 1] + [Success]
  {
  }

  ghost function SuccessesInARow(n: nat): seq<Event> {
    seq(n, _ => Success)
  }

  /** Conversely, a HALF_OPEN breaker closes with the success that completes the threshold, and not before. */
  lemma {:induction false} ClosesWithLastSuccess(cfg: Config, events: seq<Event>, n: nat)
    requires cfg.successThreshold >= 1 && Run(cfg, events).mode == HalfOpen
    ensures
      var b := Run(cfg, events + SuccessesInARow(n));
      if Run(cfg, events).successes + n < cfg.successThreshold
      then b.mode == HalfOpen && b.successes == Run(cfg, events).successes + n
      else b.mode == Closed && b.failures == 0
  {
    var all := events + SuccessesInARow(n);
    if n == 0 {
      assert all == events;
      var i := HalfOpenCountsSuccesses(cfg, events);
    } else {
      ClosesWithLastSuccess(cfg, events, n - 1);
      assert all[..|all| - 1] == events + SuccessesInARow(n - 1);
    }
  }

  // ---------------------------------------------------------------------------
  // Requests in HALF_OPEN
  // ---------------------------------------------------------------------------

  /** However many requests arrive in HALF_OPEN before an outcome is recorded, all find it HALF_OPEN. */
  lemma {:induction false} HalfOpenAdmitsAll(cfg: Config, events: seq<Event>, requests: seq<Event>)
    requires Run(cfg, events).mode == HalfOpen && forall e :: e in requests ==> e.Poll?
    ensures Run(cfg, events + requests) == Run(cfg, events)
  {
    var all := events + requests;
    if requests == [] {
      assert all == events;
    } else {
      HalfOpenAdmitsAll(cfg, events, requests[..|requests| - 1]);
      assert all[..|all| - 1] == events + requests[..|requests| - 1];
    }
  }

  /** Two test requests in a row, where the comment in the source announces one. */
  lemma TwoTestRequests()
    ensures
      var cfg, tripped := Config(1, 10.0, 2), [Failure(0.0)];
      && Run(cfg, tripped).mode == Open
      && Run(cfg, tripped + [Poll(10.0)]).mode == HalfOpen
      && Run(cfg, tripped + [Poll(10.0), Poll(11.0)]).mode == HalfOpen
  {
    var cfg, tripped := Config(1, 10.0, 2), [Failure(0.0)];
    assert tripped[..0] == [];
    var first, second := tripped + [Poll(10.0)], tripped + [Poll(10.0), Poll(11.0)];
    assert first[..1] == tripped && second[..2] == first;
  }

  // ---------------------------------------------------------------------------
  // Rejection
  // ---------------------------------------------------------------------------

  lemma EverFailedSnoc(events: seq<Event>)
    requires events != []
    ensures EverFailed(events) <==> EverFailed(events[..|events| - 1]) || events[|events| - 1].Failure?
  {
  }

  lemma {:induction false} TrippedHasFailed(cfg: Config, events: seq<Event>)
    ensures EverFailed(events) ==> Run(cfg, events).lastFailure == LatestFailure(events)
    ensures Run(cfg, events).mode != Closed ==> EverFailed(events)
  {
    if events != [] {
      EverFailedSnoc(events);
      TrippedHasFailed(cfg, events[..|events| - 1]);
    }
  }

  /** HALF_OPEN is entered by a poll at least `recoveryTimeout` after the latest failure. */
  lemma {:induction false} HalfOpenIsLate(cfg: Config, events: seq<Event>) returns (i: nat)
    requires Run(cfg, events).mode == HalfOpen
    ensures i < |events| && events[i].Poll? && events[i].now - Run(cfg, events).lastFailure >= cfg.recoveryTimeout
  {
    var front := events[..|events| - 1];
    if Run(cfg, front).mode == HalfOpen {
      i := HalfOpenIsLate(cfg, front);
    } else {
      i := |events| - 1;
    }
  }

  /** A request is rejected exactly when the circuit is tripped and less than `recoveryTimeout`
      has passed since the latest recorded failure. */
  lemma RejectedIffRecentlyFailed(cfg: Config, events: seq<Event>, now: real)
    requires ClockOrdered(events + [Poll(now)])
    ensures Run(cfg, events + [Poll(now)]).mode == Open <==>
              Run(cfg, events).mode != Closed && EverFailed(events) && now - LatestFailure(events) < cfg.recoveryTimeout
  {
    var all := events + [Poll(now)];
    assert all[..|events|] == events;
    TrippedHasFailed(cfg, events);
    if Run(cfg, events).mode == HalfOpen {
      var i := HalfOpenIsLate(cfg, events);
      assert Timed(all[i]) && Timed(all[|events|]);
    }
  }

  // ---------------------------------------------------------------------------
  // Every transition, by what the history says
  // ---------------------------------------------------------------------------

  /** At no moment of the history had there been `n` failures in a row. */
  ghost predicate NeverInARow(events: seq<Event>, n: int) {
    forall k :: 0 <= k <= |events| ==> TrailingFailures(events[..k]) < n
  }

  /** A breaker that never saw `failureThreshold` failures in a row is CLOSED, and the next request passes. */
  lemma {:induction false} ClosedBelowThreshold(cfg: Config, events: seq<Event>, now: real)
    requires cfg.failureThreshold >= 1 && NeverInARow(events, cfg.failureThreshold)
    ensures Run(cfg, events).mode == Closed && Run(cfg, events + [Poll(now)]).mode == Closed
  {
    assert (events + [Poll(now)])[..|events|] == events;
    assert events[..|events|] == events;
    if events != [] {
      var front, e := events[..|events| - 1], events[|events| - 1];
      forall k | 0 <= k <= |front| ensures TrailingFailures(front[..k]) < cfg.failureThreshold {
        assert front[..k] == events[..k];
      }
      ClosedBelowThreshold(cfg, front, now);
      ClosedCountsFailures(cfg, front);
    }
  }

  /** A failure opens a CLOSED breaker exactly when it completes the threshold; otherwise it leaves or makes it OPEN. */
  lemma OpensIff(cfg: Config, events: seq<Event>, now: real)
    requires cfg.failureThreshold >= 1
    ensures
      var after := Run(cfg, events + [Failure(now)]).mode;
      && after != HalfOpen
      && (after == Open <==>
            Run(cfg, events).mode != Closed || TrailingFailures(events + [Failure(now)]) >= cfg.failureThreshold)
  {
    assert (events + [Failure(now)])[..|events|] == events;
    ClosedCountsFailures(cfg, events);
  }

  /** A poll changes nothing but an OPEN breaker whose latest failure is `recoveryTimeout` old: that becomes HALF_OPEN. */
  lemma ProbesIff(cfg: Config, events: seq<Event>, now: real)
    ensures Run(cfg, events).mode == Open ==> EverFailed(events)
    ensures Run(cfg, events + [Poll(now)]).mode ==
            if Run(cfg, events).mode == Open && EverFailed(events) && now - LatestFailure(events) >= cfg.recoveryTimeout
            then HalfOpen else Run(cfg, events).mode
  {
    assert (events + [Poll(now)])[..|events|] == events;
    TrippedHasFailed(cfg, events);
  }

  /** A success closes a HALF_OPEN breaker exactly when it completes the threshold, and changes no other mode. */
  lemma ClosesIff(cfg: Config, events: seq<Event>) returns (i: nat)
    requires cfg.successThreshold >= 1
    ensures Run(cfg, events).mode != HalfOpen ==> Run(cfg, events + [Success]).mode == Run(cfg, events).mode
    ensures Run(cfg, events).mode == HalfOpen ==>
              && HalfOpenSince(cfg, events, i)
              && Run(cfg, events + [Success]).mode ==
                 if Successes(events[i..]) + 1 == cfg.successThreshold then Closed else HalfOpen
  {
    assert (events + [Success])[..|events|] == events;
    i := 0;
    if Run(cfg, events).mode == HalfOpen {
      i := HalfOpenCountsSuccesses(cfg, events);
    }
  }

  /** A reset closes the breaker whatever came before, and forgets every failure. */
  lemma ResetCloses(cfg: Config, events: seq<Event>)
    ensures Run(cfg, events + [Reset]).mode == Closed && Run(cfg, events + [Reset]).failures == 0
    ensures TrailingFailures(events + [Reset]) == 0
  {
    assert (events + [Reset])[..|events|] == events;
  }

  // ---------------------------------------------------------------------------
  // The object
  // ---------------------------------------------------------------------------

  class CircuitBreaker {
    const cfg: Config
    var mode: Mode
    var failureCount: int
    var successCount: int
    var lastFailureTime: real
    ghost var history: seq<Event>

    /** The fields are the outcome of everything that was ever called. */
    ghost predicate Valid()
      reads this
    {
      Breaker(mode, failureCount, successCount, lastFailureTime) == Run(cfg, history)
    }

    constructor (cfg: Config)
      ensures Valid() && history == [] && this.cfg == cfg
    {
      this.cfg := cfg;
      mode, failureCount, successCount, lastFailureTime, history := Closed, 0, 0, 0.0, [];
    }

    /** The `state` property. */
    method State(now: real) returns (m: Mode)
      requires Valid()
      modifies this
      ensures Valid() && history == old(history) + [Poll(now)] && m == mode
      ensures m == if old(mode) == Open && EverFailed(old(history)) && now - LatestFailure(old(history)) >= cfg.recoveryTimeout
                   then HalfOpen else old(mode)
    {
      ProbesIff(cfg, history, now);
      assert (history + [Poll(now)])[..|history|] == history;
      if mode == Open && now - lastFailureTime >= cfg.recoveryTimeout {
        mode := HalfOpen;
        successCount := 0;
      }
      m := mode;
      history := history + [Poll(now)];
    }

    method AllowRequest(now: real) returns (allowed: bool)
      requires Valid()
      modifies this
      ensures Valid() && history == old(history) + [Poll(now)]
      ensures allowed <==> Run(cfg, history).mode != Open
      ensures ClockOrdered(history) ==>
                (!allowed <==>
                   && Run(cfg, old(history)).mode != Closed && EverFailed(old(history))
                   && now - LatestFailure(old(history)) < cfg.recoveryTimeout)
      ensures cfg.failureThreshold >= 1 && NeverInARow(old(history), cfg.failureThreshold) ==> allowed
    {
      if cfg.failureThreshold >= 1 && NeverInARow(history, cfg.failureThreshold) {
        ClosedBelowThreshold(cfg, history, now);
      }
      var m := State(now);
      if ClockOrdered(history) {
        RejectedIffRecentlyFailed(cfg, old(history), now);
      }
      if m == Closed {
        return true;
      }
      if m == HalfOpen {
        return true;
      }
      allowed := false;
    }

    method RecordSuccess()
      requires Valid()
      modifies this
      ensures Valid() && history == old(history) + [Success]
      ensures old(mode) != HalfOpen ==> mode == old(mode)
      ensures old(mode) == HalfOpen && cfg.successThreshold >= 1 ==>
                exists i: nat :: HalfOpenSince(cfg, old(history), i) &&
                  mode == if Successes(old(history)[i..]) + 1 == cfg.successThreshold then Closed else HalfOpen
    {
      if cfg.successThreshold >= 1 {
        ghost var i := ClosesIff(cfg, history);
      }
      assert (history + [Success])[..|history|] == history;
      if mode == HalfOpen {
        successCount := successCount + 1;
        if successCount >= cfg.successThreshold {
          mode := Closed;
          failureCount := 0;
        }
      } else {
        failureCount := 0;
      }
      history := history + [Success];
    }

    method RecordFailure(now: real)
      requires Valid()
      modifies this
      ensures Valid() && history == old(history) + [Failure(now)]
      ensures cfg.failureThreshold >= 1 ==>
                && mode != HalfOpen
                && (mode == Open <==> old(mode) != Closed || TrailingFailures(history) >= cfg.failureThreshold)
    {
      if cfg.failureThreshold >= 1 {
        OpensIff(cfg, history, now);
      }
      assert (history + [Failure(now)])[..|history|] == history;
      failureCount := failureCount + 1;
      lastFailureTime := now;
      if failureCount >= cfg.failureThreshold {
        mode := Open;
      } else if mode == HalfOpen {
        mode := Open;
      }
      history := history + [Failure(now)];
    }

    method ResetAll()
      requires Valid()
      modifies this
      ensures Valid() && history == old(history) + [Reset] && mode == Closed && TrailingFailures(history) == 0
    {
      assert (history + [Reset])[..|history|] == history;
      mode := Closed;
      failureCount := 0;
      successCount := 0;
      history := history + [Reset];
    }
  }
}
