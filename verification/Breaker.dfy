/**
  The one circuit breaker both live paths implement: the market controller with a counter it updates
  in place, the refresh pre-flight by reading back rows. Both are measured against the full history.
 */
module Breaker {
  import opened Prelude
  import opened Timestamps
  import opened Wire
  import opened MarketWorker

  /** One finished attempt: when it started and whether it failed upstream. */
  datatype Attempt = Attempt(at: int, upstream: bool)

  /** The length of the unbroken run of upstream failures a history ends with. */
  function TrailingFailures(h: seq<Attempt>): nat {
    if h == [] || !h[|h| - 1].upstream then 0 else 1 + TrailingFailures(h[..|h| - 1])
  }

  /** The specification: the last `n` attempts all failed upstream and the newest is within the cooldown. */
  predicate Tripped(h: seq<Attempt>, n: nat, cooldown: int, now: int) {
    n > 0 && TrailingFailures(h) >= n && now - h[|h| - 1].at < cooldown
  }

  /** Every attempt was let through by an untripped breaker. */
  predicate Guarded(h: seq<Attempt>, n: nat, cooldown: int) {
    forall i :: 0 <= i < |h| ==> !Tripped(h[..i], n, cooldown, h[i].at)
  }

  lemma {:induction false} TrailingAreUpstream(h: seq<Attempt>)
    ensures TrailingFailures(h) <= |h|
    ensures forall i :: |h| - TrailingFailures(h) <= i < |h| ==> h[i].upstream
    ensures TrailingFailures(h) < |h| ==> !h[|h| - TrailingFailures(h) - 1].upstream
  {
    if h == [] {
    } else if h[|h| - 1].upstream {
      TrailingAreUpstream(h[..|h| - 1]);
    }
  }

  lemma {:induction false} UpstreamRunIsTrailing(h: seq<Attempt>, k: nat)
    requires k <= |h| && forall i :: |h| - k <= i < |h| ==> h[i].upstream
    ensures TrailingFailures(h) >= k
  {
    if k == 0 {
    } else {
      UpstreamRunIsTrailing(h[..|h| - 1], k - 1);
    }
  }

  /**
    The next probe of a failing run starts at least the cooldown after the failure before it, whatever
    the clock did.
   */
  lemma ProbeWaitsOutTheCooldown(h: seq<Attempt>, n: nat, cooldown: int, first: nat, j: nat)
    requires Guarded(h, n, cooldown) && n > 0
    requires first + n <= j < |h| && forall k :: first <= k < j ==> h[k].upstream
    ensures h[j].at - h[j - 1].at >= cooldown
  {
    UpstreamRunIsTrailing(h[..j], j - first);
    assert !Tripped(h[..j], n, cooldown, h[j].at);
    assert h[..j][j - 1] == h[j - 1];
  }

  lemma OneMore(cooldown: int, k: int)
    ensures cooldown * k == cooldown * (k - 1) + cooldown
  {
  }

  /**
    Inside one unbroken run of upstream failures, from the n-th failure on, the attempts are a cooldown
    apart one by one. Nothing is asked of the clock: it may have jumped back at any point before.
   */
  lemma {:induction false} FailingRunIsThrottled(h: seq<Attempt>, n: nat, cooldown: int, first: nat, i: nat, j: nat)
    requires Guarded(h, n, cooldown) && n > 0
    requires first + n <= i + 1 && i <= j < |h|
    requires forall k :: first <= k < j ==> h[k].upstream
    ensures h[j].at - h[i].at >= cooldown * (j - i)
    decreases j
  {
    hide Guarded;
    if i == j {
    } else {
      FailingRunIsThrottled(h, n, cooldown, first, i, j - 1);
      ProbeWaitsOutTheCooldown(h, n, cooldown, first, j);
      OneMore(cooldown, j - i);
    }
  }

  /**
    While the breaker may trip, waiting it out clears an earlier failure of the run exactly when that
    failure is no later than the newest one, which a clock that jumped back can break.
   */
  lemma {:induction false} EarlyFailureIsClearedIff(h: seq<Attempt>, n: nat, cooldown: int, i: nat)
    requires n > 0 && TrailingFailures(h) >= n && i < |h|
    ensures (forall now :: !Tripped(h, n, cooldown, now) ==> now - h[i].at >= cooldown) <==> h[i].at <= h[|h| - 1].at
  {
    TrailingAreUpstream(h);
    assert !Tripped(h, n, cooldown, h[|h| - 1].at + cooldown);
  }

  /** So the first n - 1 failures of a run are cleared as well, each that is no later than the newest one. */
  lemma EarlyFailuresAreCleared(h: seq<Attempt>, n: nat, cooldown: int, first: nat, i: nat, j: nat)
    requires Guarded(h, n, cooldown) && n > 0
    requires first <= i && first + n <= j && i < j < |h| && h[i].at <= h[j - 1].at
    requires forall k :: first <= k < j ==> h[k].upstream
    ensures h[j].at - h[i].at >= cooldown
  {
    ProbeWaitsOutTheCooldown(h, n, cooldown, first, j);
  }

  /* ---- the market controller's counter ---- */

  const MARKET_FAILURES := 3
  const MARKET_COOLDOWN := 600
  const U32_MAX := 0xffff_ffff

  predicate IsMarketUpstreamFailure(code: Code) {
    code in {MarketUpstreamFailure, FinecoTimeout, FinecoUpstreamError}
  }

  /**
    A login refused on the market path reaches the controller's breaker as an upstream failure exactly when
    it was a timeout or a retryable upstream status: never for a 429, an auth failure or a step-up. Mapping
    it a second time, as the retry wrapper does, changes nothing.
   */
  lemma LoginFailureCountsIff(e: SafeError)
    requires LoginCanFailWith(e.code)
    ensures var seen := CrossSocket(MarketLoginError(e).code);
            && (IsMarketUpstreamFailure(seen) <==>
                  e.code == FinecoTimeout || (e.code == FinecoUpstreamError && e.retryable))
            && (seen == MarketAuthRequired <==> e.code == AuthRequired)
            && (seen == MarketStepUpRequired <==> e.code == StepUpRequired)
            && (seen == MarketRateLimited <==> e.code == RateLimited)
            && (seen == MarketUnexpectedResponse <==>
                  e.code == NotFound || (e.code == FinecoUpstreamError && !e.retryable))
            && (e.code in {InvalidRequest, Internal} ==> seen == e.code)
    ensures e.code !in {InvalidRequest, Internal} ==>
              (MarketLoginError(e).retryable <==>
                 e.code in {RateLimited, FinecoTimeout} || (e.code == FinecoUpstreamError && e.retryable))
    ensures e.code in {InvalidRequest, Internal} ==> MarketLoginError(e) == e
    ensures MarketLoginError(MarketLoginError(e)) == MarketLoginError(e)
  {
  }

  datatype Circuit = Circuit(failures: nat, newest: Option<int>)

  function CheckClosed(c: Circuit, nowIso: string): Result<(), Code> {
    if c.failures < MARKET_FAILURES then Ok(())
    else if c.newest.None? then Ok(())
    else
      match ParseIso(nowIso)
      case None => Err(Internal)
      case Some(now) => if SatSub(now, c.newest.value) < MARKET_COOLDOWN then Err(MarketCircuitOpen) else Ok(())
  }

  function Record(c: Circuit, now: int, error: Option<Code>): Circuit {
    if error.Some? && IsMarketUpstreamFailure(error.value) then
      Circuit(if c.failures == U32_MAX then U32_MAX else c.failures + 1, Some(now))
    else Circuit(0, None)
  }

  class MarketCircuitState {
    var consecutiveUpstreamFailures: nat
    var newestFailureEpoch: Option<int>

    ghost function State(): Circuit
      reads this
    {
      Circuit(consecutiveUpstreamFailures, newestFailureEpoch)
    }

    constructor ()
      ensures State() == Circuit(0, None)
    {
      consecutiveUpstreamFailures, newestFailureEpoch := 0, None;
    }

    method Check(nowIso: string) returns (res: Result<(), Code>)
      ensures res == CheckClosed(State(), nowIso)
    {
      if consecutiveUpstreamFailures < MARKET_FAILURES || newestFailureEpoch.None? {
        return Ok(());
      }
      var parsed := ParseIso(nowIso);
      if parsed.None? {
        return Err(Internal);
      }
      if SatSub(parsed.value, newestFailureEpoch.value) < MARKET_COOLDOWN {
        return Err(MarketCircuitOpen);
      }
      res := Ok(());
    }

    method RecordOutcome(nowIso: string, error: Option<Code>) returns (res: Result<(), Code>)
      requires consecutiveUpstreamFailures <= U32_MAX
      modifies this
      ensures match ParseIso(nowIso)
              case Some(now) => State() == Record(old(State()), now, error) && res == Ok(())
              case None =>
                if error.Some? && IsMarketUpstreamFailure(error.value)
                then State() == old(State()) && res == Err(Internal)
                else State() == Circuit(0, None) && res == Ok(())
    {
      if error.Some? && IsMarketUpstreamFailure(error.value) {
        var parsed := ParseIso(nowIso);
        if parsed.None? {
          return Err(Internal);
        }
        if consecutiveUpstreamFailures < U32_MAX {
          consecutiveUpstreamFailures := consecutiveUpstreamFailures + 1;
        }
        newestFailureEpoch := parsed;
      } else {
        consecutiveUpstreamFailures, newestFailureEpoch := 0, None;
      }
      res := Ok(());
    }
  }

  /** One market read that ran to its outcome, at the instant its timestamp names. */
  datatype Outcome = Outcome(now: int, error: Option<Code>)

  function AttemptOf(o: Outcome): Attempt {
    Attempt(o.now, o.error.Some? && IsMarketUpstreamFailure(o.error.value))
  }

  function AttemptsOf(os: seq<Outcome>): seq<Attempt> {
    seq(|os|, i requires 0 <= i < |os| => AttemptOf(os[i]))
  }

  function RecordAll(os: seq<Outcome>): Circuit {
    if os == [] then Circuit(0, None)
    else var o := os[|os| - 1]; Record(RecordAll(os[..|os| - 1]), o.now, o.error)
  }

  function AtMost(x: int, bound: int): int {
    if x < bound then x else bound
  }

  lemma {:induction false} CounterIsTrailingRun(os: seq<Outcome>)
    ensures var c, h := RecordAll(os), AttemptsOf(os);
            && c.failures == AtMost(TrailingFailures(h), U32_MAX)
            && c.newest == (if TrailingFailures(h) == 0 then None else Some(h[|h| - 1].at))
  {
    if os == [] {
    } else {
      CounterIsTrailingRun(os[..|os| - 1]);
      assert AttemptsOf(os)[..|os| - 1] == AttemptsOf(os[..|os| - 1]);
    }
  }

  /** The counter refuses a read exactly when the full history says the breaker is tripped. */
  lemma {:induction false} MarketCircuitIsTheBreaker(os: seq<Outcome>, now: int)
    requires InRange(now) && forall i :: 0 <= i < |os| ==> InRange(os[i].now)
    ensures CheckClosed(RecordAll(os), EpochToIso(now)).Ok?
       <==> !Tripped(AttemptsOf(os), MARKET_FAILURES, MARKET_COOLDOWN, now)
    ensures CheckClosed(RecordAll(os), EpochToIso(now)) in {Ok(()), Err(MarketCircuitOpen)}
  {
    hide EpochToIso, ParseIso;
    CounterIsTrailingRun(os);
    ClockStringsParse(now);
  }

  /** Spelled out: the circuit is open when the last three reads all failed upstream, the last within 600 s. */
  lemma {:induction false} CircuitOpenIff(os: seq<Outcome>, now: int)
    requires InRange(now) && forall i :: 0 <= i < |os| ==> InRange(os[i].now)
    ensures CheckClosed(RecordAll(os), EpochToIso(now)) == Err(MarketCircuitOpen)
       <==> && |os| >= 3 && now - os[|os| - 1].now < 600
            && forall i :: |os| - 3 <= i < |os| ==>
                 os[i].error in {Some(MarketUpstreamFailure), Some(FinecoTimeout), Some(FinecoUpstreamError)}
  {
    hide EpochToIso, CheckClosed, RecordAll, InRange;
    var h := AttemptsOf(os);
    MarketCircuitIsTheBreaker(os, now);
    TrailingAreUpstream(h);
    assert forall i :: 0 <= i < |os| ==>
      (h[i].upstream <==>
         os[i].error in {Some(MarketUpstreamFailure), Some(FinecoTimeout), Some(FinecoUpstreamError)});
    hide AttemptsOf, IsMarketUpstreamFailure;
    if |os| >= 3 && forall i :: |os| - 3 <= i < |os| ==> h[i].upstream {
      UpstreamRunIsTrailing(h, 3);
    }
  }

  /** A time that cannot be read is refused, but only once there is a cooldown to measure. */
  lemma CircuitNeedsATime(c: Circuit, nowIso: string)
    requires ParseIso(nowIso) == None
    ensures CheckClosed(c, nowIso) == if c.failures >= 3 && c.newest.Some? then Err(Internal) else Ok(())
  {
    hide ParseIso;
  }

  /** Every read of the sequence got past the circuit as it stood before it. */
  predicate LetThrough(os: seq<Outcome>) {
    forall i :: 0 <= i < |os| ==> CheckClosed(RecordAll(os[..i]), EpochToIso(os[i].now)).Ok?
  }

  lemma LetThroughIsGuarded(os: seq<Outcome>)
    requires LetThrough(os) && forall k :: 0 <= k < |os| ==> InRange(os[k].now)
    ensures Guarded(AttemptsOf(os), MARKET_FAILURES, MARKET_COOLDOWN)
  {
    hide EpochToIso, CheckClosed, RecordAll, InRange;
    var h := AttemptsOf(os);
    forall m | 0 <= m < |h|
      ensures !Tripped(h[..m], MARKET_FAILURES, MARKET_COOLDOWN, h[m].at)
    {
      assert AttemptsOf(os[..m]) == h[..m];
      MarketCircuitIsTheBreaker(os[..m], os[m].now);
    }
  }

  /**
    Market reads, under any wall clock: inside an unbroken run of upstream failures, from the third failure
    on, each read starts at least 600 s after the one before it.
   */
  lemma MarketProbesAreThrottled(os: seq<Outcome>, first: nat, i: nat, j: nat)
    requires LetThrough(os) && forall k :: 0 <= k < |os| ==> InRange(os[k].now)
    requires first + MARKET_FAILURES <= i + 1 && i <= j < |os|
    requires forall k :: first <= k < j ==> AttemptOf(os[k]).upstream
    ensures os[j].now - os[i].now >= MARKET_COOLDOWN * (j - i)
  {
    hide EpochToIso, CheckClosed, RecordAll, InRange, Guarded;
    LetThroughIsGuarded(os);
    FailingRunIsThrottled(AttemptsOf(os), MARKET_FAILURES, MARKET_COOLDOWN, first, i, j);
  }

  /** Each later read starts 600 s after every earlier failure of the run that is no later than the newest one. */
  lemma MarketBurstsAreShort(os: seq<Outcome>, first: nat, i: nat, j: nat)
    requires LetThrough(os) && forall k :: 0 <= k < |os| ==> InRange(os[k].now)
    requires first <= i < j < |os| && first + MARKET_FAILURES <= j && os[i].now <= os[j - 1].now
    requires forall k :: first <= k < j ==> AttemptOf(os[k]).upstream
    ensures os[j].now - os[i].now >= MARKET_COOLDOWN
  {
    hide EpochToIso, CheckClosed, RecordAll, InRange, Guarded;
    LetThroughIsGuarded(os);
    EarlyFailuresAreCleared(AttemptsOf(os), MARKET_FAILURES, MARKET_COOLDOWN, first, i, j);
  }

  /**
    At the counter: every read it lets through starts 600 s after an earlier failure exactly when that
    failure is no later than the newest one, or the cooldown outlasts the clock's last year.
   */
  lemma {:induction false} CounterClearsIff(os: seq<Outcome>, i: nat)
    requires forall k :: 0 <= k < |os| ==> InRange(os[k].now)
    requires TrailingFailures(AttemptsOf(os)) >= MARKET_FAILURES && i < |os|
    ensures (forall now :: InRange(now) && CheckClosed(RecordAll(os), EpochToIso(now)).Ok? ==>
               now - os[i].now >= MARKET_COOLDOWN)
       <==> os[i].now <= os[|os| - 1].now || os[|os| - 1].now + MARKET_COOLDOWN > LAST_EPOCH
  {
    hide EpochToIso, CheckClosed, RecordAll;
    var h, next := AttemptsOf(os), os[|os| - 1].now + MARKET_COOLDOWN;
    forall now | InRange(now)
      ensures CheckClosed(RecordAll(os), EpochToIso(now)).Ok? <==> now >= next
    {
      MarketCircuitIsTheBreaker(os, now);
      TrailingAreUpstream(h);
    }
    assert next <= LAST_EPOCH ==> InRange(next);
  }

  const TIMEOUT := Some(FinecoTimeout)

  /** Three failures at 1000, 0 and 0 and a read 400 s before the first of them, let through by the counter. */
  lemma EarlyFailuresNeedTheOrder()
    ensures var os := [Outcome(1_000, TIMEOUT), Outcome(0, TIMEOUT), Outcome(0, TIMEOUT), Outcome(600, None)];
            && LetThrough(os) && (forall k :: 0 <= k < 4 ==> InRange(os[k].now))
            && (forall k :: 0 <= k < 3 ==> AttemptOf(os[k]).upstream)
            && os[3].now - os[0].now < MARKET_COOLDOWN
  {
    var os := [Outcome(1_000, TIMEOUT), Outcome(0, TIMEOUT), Outcome(0, TIMEOUT), Outcome(600, None)];
    hide EpochToIso, CheckClosed, RecordAll;
    forall m | 0 <= m < |os|
      ensures CheckClosed(RecordAll(os[..m]), EpochToIso(os[m].now)).Ok?
    {
      TrailingAreUpstream(AttemptsOf(os[..m]));
      MarketCircuitIsTheBreaker(os[..m], os[m].now);
    }
  }
}
