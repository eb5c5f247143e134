/**
  The hourly login cap by the clock. The ledger counts a login under the timestamp of its read, which is
  taken before the request waits in the worker's queue; here the same logins are counted at the time the
  bank sees them.
 */
module LoginTimes {
  import opened Prelude
  import opened Timestamps
  import opened MarketWorker
  import opened LoginLedger
  import opened Governor

  /* ---- a login is never before its read's timestamp ---- */

  predicate Timed(s: State) {
    && |s.loginTimes| == |s.logins|
    && (forall i :: 0 <= i < |s.logins| ==> s.logins[i] <= s.loginTimes[i])
    && (forall i :: 0 <= i < |s.queue| && s.queue[i].MarketRequest? ==> s.queue[i].stamp <= s.clock)
  }

  lemma ServeKeepsTimed(s: State, bank: Bank, until: int)
    requires Timed(s) && s.queue != [] && Plausible(bank, s.clock, until)
    ensures Timed(Serve(s, bank, until))
  {
    hide MarketRead, PossibleBank;
    assert forall i :: 0 <= i < |s.queue| - 1 ==> s.queue[1..][i] == s.queue[i + 1];
  }

  lemma TimedKept(s: State, e: Event)
    requires Shape(s) && Timed(s)
    ensures Timed(Next(s, e))
  {
    hide Serve, QueueOk, HoldsNewest, AdmitMarketAt, MarketRead, FinishRead, Finish, Seen, PerformedLogin;
    match e {
      case ServeNext(bank, until) =>
        if s.queue != [] && Plausible(bank, s.clock, until) {
          ServeKeepsTimed(s, bank, until);
        }
      case _ =>
    }
  }

  lemma {:induction false} EveryRunIsTimed(ttl: Option<nat>, clock: int, es: seq<Event>)
    ensures Timed(Run(Init(ttl, clock), es))
  {
    hide Next, Timed, Shape, Agreement, History;
    if es == [] {
      NothingTimedAtFirst(ttl, clock);
    } else {
      var front, e := es[..|es| - 1], es[|es| - 1];
      EveryRunIsTimed(ttl, clock, front);
      EveryRunKeepsInvariant(ttl, clock, front);
      TimedKept(Run(Init(ttl, clock), front), e);
    }
  }

  lemma NothingTimedAtFirst(ttl: Option<nat>, clock: int)
    ensures Timed(Init(ttl, clock))
  {
  }

  /* ---- the cap ---- */

  /** No login came later than `wait` seconds after its read's timestamp. */
  predicate WaitedAtMost(s: State, wait: int) {
    forall i :: 0 <= i < |s.logins| && i < |s.loginTimes| ==> s.loginTimes[i] - s.logins[i] <= wait
  }

  lemma {:induction false} CountByTime(stamps: seq<int>, times: seq<int>, wait: int, lo: int, hi: int)
    requires |stamps| == |times|
    requires forall i :: 0 <= i < |times| ==> 0 <= times[i] - stamps[i] <= wait
    ensures CountIn(times, lo, hi) <= CountIn(stamps, lo - wait, hi)
  {
    if stamps == [] {
    } else {
      var n := |stamps| - 1;
      CountByTime(stamps[..n], times[..n], wait, lo, hi);
    }
  }

  /**
    Over every run in which no login came more than `wait` seconds after its read's timestamp, any stretch
    of the clock of at most 3600 - wait seconds holds at most 12 market logins, plus the drops.
   */
  lemma {:induction false} LoginTimesAreCapped(ttl: Option<nat>, clock: int, es: seq<Event>,
                                               wait: int, lo: int, hi: int)
    ensures var s := Run(Init(ttl, clock), es);
            WaitedAtMost(s, wait) && hi - lo + wait <= BUDGET_WINDOW ==>
              CountIn(s.loginTimes, lo, hi) <= LOGIN_BUDGET + CountIn(s.drops, lo - wait, lo - wait + BUDGET_WINDOW)
  {
    hide Run, CountIn;
    var s := Run(Init(ttl, clock), es);
    if WaitedAtMost(s, wait) && hi - lo + wait <= BUDGET_WINDOW {
      EveryRunIsTimed(ttl, clock, es);
      CountByTime(s.logins, s.loginTimes, wait, lo, hi);
      CountGrows(s.logins, lo - wait, hi, lo - wait, lo - wait + BUDGET_WINDOW);
      MarketLoginsAreCapped(ttl, clock, es, lo - wait);
    }
  }

  /* ---- the bound is the best one: a run of thirteen reads, five minutes apart ---- */

  const TTL := Some(180)

  function Stamps(n: nat): (s: seq<int>)
    ensures |s| == n
  {
    seq(n, i => 300 * i)
  }

  /** The first read is held up until `wait`; no read logs in before its own timestamp. */
  function LoginTime(i: int, wait: int): int {
    if 300 * i < wait then wait else 300 * i
  }

  function Times(n: nat, wait: int): (s: seq<int>)
    ensures |s| == n
  {
    seq(n, i => LoginTime(i, wait))
  }

  function Requests(n: nat): (s: seq<Request>)
    ensures |s| == n
  {
    seq(n, i requires 0 <= i => MarketRequest(i, 300 * i))
  }

  function LedgerAfter(sent: nat): Ledger {
    if sent == 0 then EMPTY
    else Ledger(false, None, Some(300 * (sent - 1)), if sent <= 12 then Stamps(sent) else Stamps(sent)[1..], None)
  }

  function WorkerAfter(served: nat): WorkerState {
    if served == 0 then WorkerState(None, 0, None)
    else WorkerState(Some(Held(served, 300 * (served - 1) + 180)), served, Some(served))
  }

  /** `sent` reads were sent and their replies given up on; the worker has served the first `served` of them. */
  function Backlog(sent: nat, served: nat, clock: int, wait: int): State
    requires served <= sent
  {
    State(TTL, clock, if sent == 0 then 0 else 300 * (sent - 1), LedgerAfter(sent), Idle,
          Requests(sent)[served..], sent,
          WorkerAfter(served), None, false, Stamps(sent), Stamps(served), Times(served, wait), [])
  }

  /** One more read: admitted at its timestamp, sent, and given up on. */
  function SendEvents(sent: nat): seq<Event> {
    [Advance(300 * sent), AdmitMarketRead(300 * sent), SendRequest, LoseReply]
  }

  function ServeEvent(served: nat, wait: int): Event {
    ServeNext(Bank(LoggedIn, ReadOk, LoggedIn, ReadOk, None, None, LoginTime(served, wait)), LoginTime(served, wait))
  }

  lemma {:induction false} RunFour(s: State, es: seq<Event>, e1: Event, e2: Event, e3: Event, e4: Event)
    ensures Run(s, es + [e1, e2, e3, e4]) == Next(Next(Next(Next(Run(s, es), e1), e2), e3), e4)
  {
    hide Next, Run;
    RunStep(s, es, e1);
    RunStep(s, es + [e1], e2);
    RunStep(s, es + [e1] + [e2], e3);
    RunStep(s, es + [e1] + [e2] + [e3], e4);
    assert es + [e1, e2, e3, e4] == es + [e1] + [e2] + [e3] + [e4];
  }

  lemma AdmitsNext(sent: nat)
    requires sent < 13
    ensures AdmitMarketAt(LedgerAfter(sent), EpochToIso(300 * sent))
         == (LedgerAfter(sent).(inFlight := true, pendingEpoch := Some(300 * sent),
                                attempts := if sent < 12 then Stamps(sent) else Stamps(12)[1..]),
             Ok(false))
  {
    hide EpochToIso, ParseIso;
    ClockStringsParse(300 * sent);
    var xs := Stamps(sent);
    if sent > 0 {
      assert xs[0] == 0;
      if sent == 12 {
        assert xs[1..][0] == 300;
      }
    }
  }

  /** The controller's part of the state once the next read is admitted. */
  function Admitted(s: State, sent: nat): State {
    s.(clock := 300 * sent, lastStamp := 300 * sent, flight := MarketAdmitted(300 * sent, false),
       ledger := LedgerAfter(sent).(inFlight := true, pendingEpoch := Some(300 * sent),
                                    attempts := if sent < 12 then Stamps(sent) else Stamps(12)[1..]))
  }

  lemma AdmitStep(s: State, sent: nat)
    requires sent < 13 && s.ledger == LedgerAfter(sent) && s.flight.Idle?
    requires s.clock <= 300 * sent && s.lastStamp <= 300 * sent
    ensures Next(Next(s, Advance(300 * sent)), AdmitMarketRead(300 * sent)) == Admitted(s, sent)
  {
    hide EpochToIso, ParseIso, AdmitMarketAt, LedgerAfter, Stamps;
    AdmitsNext(sent);
  }

  lemma GiveUpStep(s: State, sent: nat)
    requires sent < 13 && s.nextId == sent && s.debits == Stamps(sent)
    ensures Next(Next(Admitted(s, sent), SendRequest), LoseReply)
         == s.(clock := 300 * sent, lastStamp := 300 * sent, flight := Idle,
               ledger := LedgerAfter(sent + 1), nextId := sent + 1,
               queue := s.queue + [MarketRequest(sent, 300 * sent)], debits := Stamps(sent + 1))
  {
    StampsNext(sent);
    hide Stamps;
  }

  lemma StampsNext(sent: nat)
    ensures Stamps(sent + 1) == Stamps(sent) + [300 * sent]
    ensures sent == 12 ==> Stamps(sent + 1)[1..] == Stamps(12)[1..] + [300 * sent]
  {
  }

  lemma SendsNext(sent: nat, served: nat, clock: int, wait: int)
    requires served <= sent < 13 && clock <= 300 * sent
    ensures var s := Backlog(sent, served, clock, wait);
            Next(Next(Next(Next(s, Advance(300 * sent)), AdmitMarketRead(300 * sent)), SendRequest), LoseReply)
            == Backlog(sent + 1, served, 300 * sent, wait)
  {
    hide Next, Times, WorkerAfter, LedgerAfter, Admitted, Stamps;
    var s := Backlog(sent, served, clock, wait);
    AdmitStep(s, sent);
    GiveUpStep(s, sent);
    assert Requests(sent + 1)[served..] == Requests(sent)[served..] + [MarketRequest(sent, 300 * sent)];
  }

  lemma ServesNext(sent: nat, served: nat, clock: int, wait: int)
    requires served < sent <= 13 && clock <= LoginTime(served, wait)
    ensures Next(Backlog(sent, served, clock, wait), ServeEvent(served, wait))
         == Backlog(sent, served + 1, LoginTime(served, wait), wait)
  {
    hide LedgerAfter;
    assert Requests(sent)[served..][0] == MarketRequest(served, 300 * served);
    assert Requests(sent)[served..][1..] == Requests(sent)[served + 1..];
    assert Stamps(served + 1) == Stamps(served) + [300 * served];
    assert Times(served + 1, wait) == Times(served, wait) + [LoginTime(served, wait)];
  }

  /** Each read is sent at its timestamp and served as soon as the worker is free of the hold-up. */
  lemma {:induction false} PlayOut(es: seq<Event>, sent: nat, served: nat, clock: int, wait: int)
    returns (all: seq<Event>)
    requires served <= sent <= 13 && 0 <= wait <= 3_600 && RestartWorker !in es
    requires Run(Init(TTL, 0), es) == Backlog(sent, served, clock, wait)
    requires clock <= 300 * sent && (served < sent ==> clock <= LoginTime(served, wait))
    ensures exists last :: Run(Init(TTL, 0), all) == Backlog(13, 13, last, wait)
    ensures RestartWorker !in all
    decreases 26 - sent - served
  {
    hide Run, Next, Backlog;
    if served == 13 {
      all := es;
    } else if served < sent && (sent == 13 || wait <= 300 * sent) {
      var e := ServeEvent(served, wait);
      RunStep(Init(TTL, 0), es, e);
      ServesNext(sent, served, clock, wait);
      all := PlayOut(es + [e], sent, served + 1, LoginTime(served, wait), wait);
    } else {
      var four := SendEvents(sent);
      RunFour(Init(TTL, 0), es, four[0], four[1], four[2], four[3]);
      SendsNext(sent, served, clock, wait);
      all := PlayOut(es + four, sent + 1, served, 300 * sent, wait);
    }
  }

  /**
    For every hold-up of up to an hour there is a run, without a drop or a restart, in which no login is
    later than that, and thirteen logins fall between the end of the hold-up and one hour of the clock.
   */
  lemma ThirteenLogins(wait: nat) returns (es: seq<Event>)
    requires wait <= 3_600
    ensures var s := Run(Init(TTL, 0), es);
            && RestartWorker !in es && s.drops == [] && WaitedAtMost(s, wait)
            && |s.loginTimes| == 13 && forall i :: 0 <= i < 13 ==> wait <= s.loginTimes[i] <= 3_600
  {
    hide Run;
    assert Run(Init(TTL, 0), []) == Backlog(0, 0, 0, wait) by {
      StartsEmpty(wait);
    }
    es := PlayOut([], 0, 0, 0, wait);
  }

  lemma StartsEmpty(wait: nat)
    ensures Run(Init(TTL, 0), []) == Backlog(0, 0, 0, wait)
  {
    assert Requests(0)[0..] == [];
  }

  /** With an hour's hold-up all thirteen fall into one second: the cap is not one on the clock. */
  lemma ThirteenInOneSecond() returns (es: seq<Event>)
    ensures var s := Run(Init(TTL, 0), es);
            && RestartWorker !in es && s.drops == [] && CountIn(s.loginTimes, 3_600, 3_601) == 13
  {
    hide Run;
    es := ThirteenLogins(3_600);
    CountWhole(Run(Init(TTL, 0), es).loginTimes, 3_600, 3_601);
  }

  /** At most 12 logins in any `span` seconds, if none was dropped and none came more than `wait` late. */
  ghost predicate Capped(s: State, wait: nat, span: nat) {
    s.drops == [] && WaitedAtMost(s, wait) ==>
      forall lo, hi :: hi - lo <= span ==> CountIn(s.loginTimes, lo, hi) <= LOGIN_BUDGET
  }

  ghost predicate EveryRunIsCapped(wait: nat, span: nat) {
    forall ttl, clock, es :: Capped(Run(Init(ttl, clock), es), wait, span)
  }

  /** Exactly when: the span and the wait together fit into the hour. */
  lemma EveryRunIsCappedIff(wait: nat, span: nat)
    ensures EveryRunIsCapped(wait, span) <==> wait + span <= BUDGET_WINDOW || span == 0
  {
    hide Run, Capped;
    if wait + span <= BUDGET_WINDOW || span == 0 {
      forall ttl, clock, es
        ensures Capped(Run(Init(ttl, clock), es), wait, span)
      {
        RunIsCapped(ttl, clock, es, wait, span);
      }
    } else {
      var es := UncappedRun(wait, span);
    }
  }

  lemma {:induction false} RunIsCapped(ttl: Option<nat>, clock: int, es: seq<Event>, wait: nat, span: nat)
    requires wait + span <= BUDGET_WINDOW || span == 0
    ensures Capped(Run(Init(ttl, clock), es), wait, span)
  {
    hide Run, CountIn, WaitedAtMost;
    var s := Run(Init(ttl, clock), es);
    if s.drops == [] && WaitedAtMost(s, wait) {
      forall lo, hi | hi - lo <= span
        ensures CountIn(s.loginTimes, lo, hi) <= LOGIN_BUDGET
      {
        if hi <= lo {
          CountInNothing(s.loginTimes, lo, hi);
        }
        CountWhole(s.drops, lo - wait, lo - wait + BUDGET_WINDOW);
        LoginTimesAreCapped(ttl, clock, es, wait, lo, hi);
      }
    }
  }

  lemma UncappedRun(wait: nat, span: nat) returns (es: seq<Event>)
    requires wait + span > BUDGET_WINDOW && span > 0
    ensures !Capped(Run(Init(TTL, 0), es), wait, span)
  {
    hide Run, CountIn;
    var d := if wait <= 3_600 then wait else 3_600;
    es := ThirteenLogins(d);
    var s := Run(Init(TTL, 0), es);
    CountWhole(s.loginTimes, d, d + span);
  }

  lemma {:induction false} CountInNothing(xs: seq<int>, lo: int, hi: int)
    requires hi <= lo
    ensures CountIn(xs, lo, hi) == 0
  {
    if xs == [] {
    } else {
      CountInNothing(xs[..|xs| - 1], lo, hi);
    }
  }
}
