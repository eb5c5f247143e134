/**
  When the controller must say yes: over every run of the two processes, the exact condition for a read and
  for a refresh to be admitted, and what each refusal answers.
 */
module Admission {
  import opened Prelude
  import opened Timestamps
  import opened Wire
  import opened MarketWorker
  import opened LoginLedger
  import opened Governor

  /** The predicted window is open at `stamp`: a read then is expected to need no login. */
  predicate WindowOpen(s: State, stamp: int) {
    s.ledger.validUntil.Some? && stamp < s.ledger.validUntil.value
  }

  /** No debit is less than 60 s old. */
  predicate CooledDown(s: State, stamp: int) {
    forall i :: 0 <= i < |s.debits| ==> stamp - s.debits[i] >= 60
  }

  /** The indices of the debits less than an hour old. */
  function LastHour(s: State, stamp: int): set<int> {
    set i | 0 <= i < |s.debits| && stamp - s.debits[i] < 3_600
  }

  /**
    With the permit free, a read is admitted exactly when its timestamp can be read, the window is open or
    the last debit is 60 s old, and fewer than 12 debits of the last hour are on the books. Inside the
    window the cooldown does not count. The answer says whether a reuse is expected.
   */
  lemma {:induction false} ReadIsAdmittedIff(ttl: Option<nat>, clock: int, es: seq<Event>, stamp: int)
    ensures var s := Run(Init(ttl, clock), es);
            s.flight.Idle? && s.lastStamp <= stamp <= s.clock ==>
              var admitted :=
                InRange(stamp) && (WindowOpen(s, stamp) || CooledDown(s, stamp)) && |LastHour(s, stamp)| < 12;
              && (AdmitRead(s, stamp).flight.MarketAdmitted? <==> admitted)
              && AdmitMarketAt(s.ledger, EpochToIso(stamp)).1
                 == if !InRange(stamp) then Err(Internal)
                    else if admitted then Ok(WindowOpen(s, stamp)) else Err(MarketRateLimited)
  {
    hide Run, EpochToIso, ParseIso, PruneFront, Recent, Agreement, QueueOk;
    var s := Run(Init(ttl, clock), es);
    EveryRunKeepsInvariant(ttl, clock, es);
    if s.flight.Idle? && s.lastStamp <= stamp <= s.clock {
      ClockStringsParse(stamp);
      if InRange(stamp) {
        PrunedDequeIsLastHour(s, stamp);
        RecentCounts(s.debits, stamp);
        CooldownIsTheNewest(s, stamp);
      }
    }
  }

  /** The one recorded login decides for all debits. */
  lemma CooldownIsTheNewest(s: State, stamp: int)
    requires History(s) && InRange(stamp)
    ensures CoolingDown(s.ledger, stamp) <==> !CooledDown(s, stamp)
  {
    if s.debits != [] {
      var newest := s.debits[|s.debits| - 1];
      assert InRange(newest) && s.ledger.lastLogin == Some(newest);
      assert SatSub(stamp, newest) == stamp - newest;
      hide InRange;
    }
  }

  /** While an operation holds the permit every other one is refused, and the ledger is left as it is. */
  lemma {:induction false} BusyPermitRefuses(ttl: Option<nat>, clock: int, es: seq<Event>, stamp: int)
    ensures var s := Run(Init(ttl, clock), es);
            !s.flight.Idle? && InRange(stamp) ==>
              && AdmitMarketAt(s.ledger, EpochToIso(stamp)) == (s.ledger, Err(MarketRateLimited))
              && AdmitRefresh(s.ledger) == Err(AlreadyRefreshing)
  {
    hide Run, EpochToIso, ParseIso, Agreement, History, QueueOk;
    EveryRunKeepsInvariant(ttl, clock, es);
    ClockStringsParse(stamp);
  }

  /** A refresh is admitted exactly when nothing is in flight; it closes the window and touches no debit. */
  lemma {:induction false} RefreshIsAdmittedIff(ttl: Option<nat>, clock: int, es: seq<Event>)
    ensures var s := Run(Init(ttl, clock), es);
            var s' := AdmitRun(s);
            && (AdmitRefresh(s.ledger).Ok? <==> s.flight.Idle?)
            && (s.flight.Idle? ==>
                  && s'.flight == RefreshRunning(None) && s'.ledger.inFlight && s'.ledger.validUntil == None
                  && s'.ledger.attempts == s.ledger.attempts && s'.ledger.lastLogin == s.ledger.lastLogin)
            && (!s.flight.Idle? ==> s' == s)
  {
    hide Run, Agreement, History, QueueOk;
    EveryRunKeepsInvariant(ttl, clock, es);
  }

  /**
    Over every run whatever holds the permit can end and free it: a read not yet sent by a failed write, which
    debits nothing, a sent one by a lost reply, which is debited, a served one by its reply, and a refresh by
    finishing, which debits nothing.
   */
  lemma {:induction false} PermitComesFree(ttl: Option<nat>, clock: int, es: seq<Event>)
    ensures var s := Run(Init(ttl, clock), es);
            var failed, lost, told, done :=
              Next(s, FailTransport), Next(s, LoseReply), Next(s, DeliverReply), Next(s, FinishRefresh);
            && (s.flight.MarketAdmitted? ==> Free(failed) && failed.debits == s.debits)
            && (s.flight.MarketSent? ==> Free(lost) && lost.debits == s.debits + [s.flight.stamp])
            && (s.flight.MarketReplied? ==> Free(told))
            && (s.flight.RefreshRunning? ==>
                  Free(done) && done.debits == s.debits && done.ledger.attempts == s.ledger.attempts)
  {
    hide Run;
  }

  predicate Free(s: State) {
    s.flight.Idle? && !s.ledger.inFlight && s.ledger.pendingEpoch == None
  }

  /** The worker can always get on with its queue, by refusing a request at the least. */
  lemma QueueMovesOn(s: State, code: Code)
    requires s.queue != [] && (code == InvalidRequest || code == Internal)
    ensures Next(s, RefuseNext(code)).queue == s.queue[1..] && Next(s, RefuseNext(code)).worker == s.worker
    ensures forall bank, until :: Plausible(bank, s.clock, until) ==>
              Next(s, ServeNext(bank, until)).queue == s.queue[1..] && Next(s, ServeNext(bank, until)).clock == until
  {
    hide MarketRead, RefreshLogin;
  }
}
