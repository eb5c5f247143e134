/**
  The refresh pre-flight gate and every run of it over the job table: whatever the wall clock does,
  whichever jobs crash, finish late or never finish.
 */
module Refresh {
  import opened Prelude
  import opened Calendar
  import opened Text
  import opened Timestamps
  import opened Wire
  import opened Breaker
  import opened JobRuns

  const STALE_REFRESH_SECS := 900

  datatype Limits = Limits(cooldown: int, dailyBudget: nat, failures: nat, circuitCooldown: int)

  type LimitsByArea = string -> Limits

  /** `RefreshLimitsByArea::defaults`, an unknown area falling back to the portfolio's. */
  function DefaultLimits(area: string): Limits {
    if area == "orders" then Limits(600, 6, 3, 600)
    else if area == "tax" then Limits(1_800, 6, 3, 600)
    else if area == "movements" then Limits(900, 6, 3, 600)
    else Limits(1_800, 4, 3, 600)
  }

  predicate IsUpstreamFailure(code: Option<string>) {
    code == Some("fineco_timeout") || code == Some("fineco_upstream_error")
  }

  predicate CircuitIsOpen(rows: seq<JobRow>, area: string, limits: Limits, now: int) {
    limits.failures != 0 && OpenOn(RecentJobOutcomes(rows, area, limits.failures), limits, now)
  }

  /** The decision on the newest terminal rows; an unreadable newest timestamp keeps the circuit open. */
  predicate OpenOn(recent: seq<JobRow>, limits: Limits, now: int)
    requires limits.failures != 0
  {
    && |recent| >= limits.failures
    && (forall i :: 0 <= i < |recent| ==> recent[i].status.Failed? && IsUpstreamFailure(recent[i].code))
    && match ParseIso(recent[0].startedAt)
       case Some(newest) => SatSub(now, newest) < limits.circuitCooldown
       case None => true
  }

  function Preflight(rows: seq<JobRow>, area: string, limits: Limits, nowIso: string): Result<(), Code> {
    match ParseIso(nowIso)
    case None => Err(Internal)
    case Some(now) =>
      match LatestAllows(LatestJobRun(rows, area), limits, now)
      case Err(e) => Err(e)
      case Ok(_) =>
        if CountOnDate(AreaRows(rows, area), DatePrefix(nowIso)) >= limits.dailyBudget then Err(RefreshBudgetExhausted)
        else if CircuitIsOpen(rows, area, limits, now) then Err(RefreshCircuitOpen)
        else Ok(())
  }

  /** The in-flight check and the cooldown, both keyed on the latest row; a stale running row is exempt from each. */
  function LatestAllows(latest: Option<JobRow>, limits: Limits, now: int): Result<(), Code> {
    match latest
    case None => Ok(())
    case Some(row) =>
      match ParseIso(row.startedAt)
      case None => Err(Internal)
      case Some(started) =>
        var age := SatSub(now, started);
        var staleRunning := row.status.Running? && age > STALE_REFRESH_SECS;
        if row.status.Running? && !staleRunning then Err(AlreadyRefreshing)
        else if !staleRunning && limits.cooldown > 0 && age < limits.cooldown then Err(RefreshCooldown)
        else Ok(())
  }

  /* ---- runs ---- */

  /**
    `Begin` is one refresh under the store mutex: pre-flight, the live-login permit (which another
    operation may hold), then the lock. A crash is a job that is never finished; a late or repeated
    finish is just another `Finish`.
   */
  datatype Event =
    | Begin(area: string, clock: int, permit: bool, authId: string)
    | Finish(id: int, clock: int, completed: bool, code: Option<string>)

  function Next(rows: seq<JobRow>, limits: LimitsByArea, e: Event): seq<JobRow> {
    match e
    case Begin(area, clock, permit, authId) =>
      var now := EpochToIso(clock);
      if Preflight(rows, area, limits(area), now).Ok? && permit
      then TryBegin(rows, authId, area, now, STALE_REFRESH_SECS).0
      else rows
    case Finish(id, clock, completed, code) =>
      FinishJob(rows, Change(id, EpochToIso(clock), if completed then Status.Completed else Status.Failed, code)).0
  }

  function Run(limits: LimitsByArea, es: seq<Event>): seq<JobRow> {
    if es == [] then [] else Next(Run(limits, es[..|es| - 1]), limits, es[|es| - 1])
  }

  /* ---- what every run keeps, for one data area ---- */

  predicate Stamped(a: seq<JobRow>) {
    forall i :: 0 <= i < |a| ==>
      ParseIso(a[i].startedAt).Some? && a[i].startedAt == EpochToIso(ParseIso(a[i].startedAt).value)
  }

  function StartOr0(r: JobRow): int {
    if ParseIso(r.startedAt).Some? then ParseIso(r.startedAt).value else 0
  }

  predicate OnlyLastRuns(a: seq<JobRow>) {
    forall i :: 0 <= i < |a| - 1 ==> !a[i].status.Running?
  }

  predicate StrictlyLater(a: seq<JobRow>) {
    forall i, j :: 0 <= i < j < |a| ==> StartOr0(a[i]) < StartOr0(a[j]) && a[i].id < a[j].id
  }

  predicate Spaced(a: seq<JobRow>, gap: int) {
    forall i :: 0 < i < |a| ==> StartOr0(a[i]) - StartOr0(a[i - 1]) >= gap
  }

  ghost predicate WithinBudget(a: seq<JobRow>, budget: nat) {
    forall date :: CountOnDate(a, date) <= budget
  }

  function AttemptOfRow(r: JobRow): Attempt {
    Attempt(StartOr0(r), r.status.Failed? && IsUpstreamFailure(r.code))
  }

  function AttemptsOfRows(a: seq<JobRow>): seq<Attempt> {
    seq(|a|, i requires 0 <= i < |a| => AttemptOfRow(a[i]))
  }

  function MinGap(cooldown: int): int {
    if cooldown < STALE_REFRESH_SECS + 1 then cooldown else STALE_REFRESH_SECS + 1
  }

  /** One area's rows: ordered, at most the last one running, spaced, budgeted, and let through by the breaker. */
  ghost predicate AreaOk(a: seq<JobRow>, limits: Limits) {
    && Stamped(a) && OnlyLastRuns(a) && StrictlyLater(a)
    && Spaced(a, MinGap(limits.cooldown)) && WithinBudget(a, limits.dailyBudget)
    && Guarded(AttemptsOfRows(a), limits.failures, limits.circuitCooldown)
  }

  predicate IdsOk(rows: seq<JobRow>) {
    forall i :: 0 <= i < |rows| ==> rows[i].id == i + 1
  }

  /* ---- the queries on an ordered area ---- */

  lemma StartOrder(r: JobRow, s: JobRow)
    requires Stamped([r, s])
    ensures Before(r.startedAt, s.startedAt) <==> StartOr0(r) < StartOr0(s)
  {
    hide EpochToIso, ParseIso, Before;
    assert [r, s][0] == r && [r, s][1] == s;
    ClockStringsParse(StartOr0(r));
    ClockStringsParse(StartOr0(s));
    TimestampOrder(StartOr0(r), StartOr0(s));
  }

  lemma {:induction false} OrderedIsReversed(a: seq<JobRow>)
    requires Stamped(a) && StrictlyLater(a)
    ensures |NewestFirst(a)| == |a|
    ensures forall k :: 0 <= k < |a| ==> NewestFirst(a)[k] == a[|a| - 1 - k]
  {
    hide EpochToIso, ParseIso, InsertByAge, Newer;
    if a == [] {
    } else {
      var front, last := a[..|a| - 1], a[|a| - 1];
      OrderedIsReversed(front);
      LaterGoesFirst(a, NewestFirst(front));
      hide Stamped, StrictlyLater;
      var sorted := NewestFirst(front);
      assert NewestFirst(a) == [last] + sorted;
      forall k | 0 <= k < |a|
        ensures NewestFirst(a)[k] == a[|a| - 1 - k]
      {
        if k > 0 {
          assert ([last] + sorted)[k] == sorted[k - 1] == front[|front| - k];
        }
      }
    }
  }

  lemma {:induction false} LaterGoesFirst(a: seq<JobRow>, sorted: seq<JobRow>)
    requires Stamped(a) && StrictlyLater(a) && a != [] && |sorted| == |a| - 1
    requires sorted != [] ==> sorted[0] == a[|a| - 2]
    ensures InsertByAge(a[|a| - 1], sorted) == [a[|a| - 1]] + sorted
  {
    hide EpochToIso, ParseIso, Before;
    if sorted != [] {
      StartOrder(a[|a| - 2], a[|a| - 1]);
    }
  }

  lemma {:induction false} TerminalOfTerminal(a: seq<JobRow>)
    requires forall i :: 0 <= i < |a| ==> !a[i].status.Running?
    ensures TerminalRows(a) == a && RunningRows(a) == []
  {
    if a == [] {
    } else {
      var front, last := a[..|a| - 1], a[|a| - 1];
      TerminalOfTerminal(front);
      assert TerminalRows(a) == front + [last] && RunningRows(a) == [] + [];
      hide TerminalRows, RunningRows;
      assert a == front + [last];
    }
  }

  lemma {:induction false} RunningLast(a: seq<JobRow>)
    requires OnlyLastRuns(a) && a != [] && a[|a| - 1].status.Running?
    ensures RunningRows(a) == [a[|a| - 1]] && TerminalRows(a) == a[..|a| - 1]
  {
    TerminalOfTerminal(a[..|a| - 1]);
  }

  /** The terminal rows of an ordered area, oldest first. */
  function Terminal(a: seq<JobRow>): seq<JobRow> {
    if a != [] && a[|a| - 1].status.Running? then a[..|a| - 1] else a
  }

  /** The breaker read back from the newest rows is the breaker over the whole terminal history. */
  lemma {:induction false} CircuitIsTheBreaker(rows: seq<JobRow>, area: string, limits: Limits, now: int)
    requires Stamped(AreaRows(rows, area)) && StrictlyLater(AreaRows(rows, area)) && OnlyLastRuns(AreaRows(rows, area))
    requires InRange(now)
    ensures CircuitIsOpen(rows, area, limits, now)
       <==> Tripped(AttemptsOfRows(Terminal(AreaRows(rows, area))), limits.failures, limits.circuitCooldown, now)
  {
    hide *;
    var a := AreaRows(rows, area);
    TerminalRowsOf(a);
    RecentAreNewest(rows, area, limits.failures);
    if limits.failures != 0 {
      RecentMatchesHistory(RecentJobOutcomes(rows, area, limits.failures), Terminal(a), limits, now);
      CircuitReadsRows(rows, area, limits, now);
    } else {
      NoBreaker(rows, area, AttemptsOfRows(Terminal(a)), limits, now);
    }
  }

  lemma {:induction false} TerminalRowsOf(a: seq<JobRow>)
    requires Stamped(a) && StrictlyLater(a) && OnlyLastRuns(a)
    ensures TerminalRows(a) == Terminal(a) && Stamped(Terminal(a)) && StrictlyLater(Terminal(a))
  {
    hide EpochToIso, ParseIso, TerminalRows;
    if a != [] && a[|a| - 1].status.Running? {
      RunningLast(a);
    } else {
      TerminalOfTerminal(a);
    }
  }

  lemma {:induction false} RecentAreNewest(rows: seq<JobRow>, area: string, limit: nat)
    requires var t := TerminalRows(AreaRows(rows, area)); Stamped(t) && StrictlyLater(t)
    ensures var t, recent := TerminalRows(AreaRows(rows, area)), RecentJobOutcomes(rows, area, limit);
            && |recent| == (if |t| <= limit then |t| else limit)
            && forall k :: 0 <= k < |recent| ==> recent[k] == t[|t| - 1 - k]
  {
    hide Stamped, StrictlyLater, AreaRows, TerminalRows, NewestFirst;
    OrderedIsReversed(TerminalRows(AreaRows(rows, area)));
  }

  lemma CircuitReadsRows(rows: seq<JobRow>, area: string, limits: Limits, now: int)
    requires limits.failures != 0
    ensures CircuitIsOpen(rows, area, limits, now)
         == OpenOn(RecentJobOutcomes(rows, area, limits.failures), limits, now)
  {
  }

  lemma NoBreaker(rows: seq<JobRow>, area: string, h: seq<Attempt>, limits: Limits, now: int)
    requires limits.failures == 0
    ensures !CircuitIsOpen(rows, area, limits, now) && !Tripped(h, limits.failures, limits.circuitCooldown, now)
  {
  }

  lemma RecentMatchesHistory(recent: seq<JobRow>, t: seq<JobRow>, limits: Limits, now: int)
    requires Stamped(t) && InRange(now) && limits.failures != 0
    requires |recent| == if |t| <= limits.failures then |t| else limits.failures
    requires forall k :: 0 <= k < |recent| ==> recent[k] == t[|t| - 1 - k]
    ensures OpenOn(recent, limits, now) <==> Tripped(AttemptsOfRows(t), limits.failures, limits.circuitCooldown, now)
  {
    hide EpochToIso, ParseIso, IsUpstreamFailure;
    var h, n := AttemptsOfRows(t), limits.failures;
    TrailingAreUpstream(h);
    if |t| >= n {
      ClockStringsParse(StartOr0(t[|t| - 1]));
      assert recent[0] == t[|t| - 1];
      if forall i :: 0 <= i < n ==> recent[i].status.Failed? && IsUpstreamFailure(recent[i].code) {
        assert forall i :: |h| - n <= i < |h| ==> t[i] == recent[|t| - 1 - i] && h[i].upstream;
        UpstreamRunIsTrailing(h, n);
      }
      if TrailingFailures(h) >= n {
        assert forall i :: 0 <= i < n ==> recent[i] == t[|t| - 1 - i] && h[|t| - 1 - i].upstream;
      }
    }
  }

  /* ---- updates and insertions, seen from one area ---- */

  lemma {:induction false} AreaOfUpdate(rows: seq<JobRow>, c: Change, area: string)
    ensures AreaRows(Update(rows, c), area) == Update(AreaRows(rows, area), c)
  {
    if rows == [] {
    } else {
      var front, last := rows[..|rows| - 1], rows[|rows| - 1];
      AreaOfUpdate(front, c, area);
      assert Update(rows, c)[..|rows| - 1] == Update(front, c);
    }
  }

  lemma {:induction false} AreaOfAppend(rows: seq<JobRow>, r: JobRow, area: string)
    ensures AreaRows(rows + [r], area) == AreaRows(rows, area) + if r.area == area then [r] else []
  {
    assert (rows + [r])[..|rows|] == rows;
  }

  lemma {:induction false} AreaMember(rows: seq<JobRow>, area: string, i: nat) returns (j: nat)
    requires i < |AreaRows(rows, area)|
    ensures j < |rows| && rows[j] == AreaRows(rows, area)[i]
  {
    var front := rows[..|rows| - 1];
    if i < |AreaRows(front, area)| {
      j := AreaMember(front, area, i);
    } else {
      j := |rows| - 1;
    }
  }

  lemma {:induction false} CountOfUpdate(a: seq<JobRow>, c: Change, date: string)
    ensures CountOnDate(Update(a, c), date) == CountOnDate(a, date)
  {
    if a == [] {
    } else {
      CountOfUpdate(a[..|a| - 1], c, date);
      assert Update(a, c)[..|a| - 1] == Update(a[..|a| - 1], c);
    }
  }

  lemma UpdateKeepsGuard(a: seq<JobRow>, c: Change, n: nat, cooldown: int)
    requires OnlyLastRuns(a) && Guarded(AttemptsOfRows(a), n, cooldown)
    ensures Guarded(AttemptsOfRows(Update(a, c)), n, cooldown)
  {
    var h, h' := AttemptsOfRows(a), AttemptsOfRows(Update(a, c));
    assert forall i :: 0 <= i < |a| - 1 ==> Update(a, c)[i] == a[i];
    forall m | 0 <= m < |h'|
      ensures !Tripped(h'[..m], n, cooldown, h'[m].at)
    {
      assert h'[..m] == h[..m];
      assert h'[m].at == h[m].at;
      assert !Tripped(h[..m], n, cooldown, h[m].at);
    }
  }

  lemma UpdateKeepsArea(a: seq<JobRow>, c: Change, limits: Limits)
    requires AreaOk(a, limits) && !c.status.Running?
    ensures AreaOk(Update(a, c), limits)
  {
    hide EpochToIso, ParseIso;
    UpdateKeepsGuard(a, c, limits.failures, limits.circuitCooldown);
    forall date
      ensures CountOnDate(Update(a, c), date) <= limits.dailyBudget
    {
      CountOfUpdate(a, c, date);
    }
    hide Guarded;
  }

  /* ---- pre-flight and the lock ---- */

  /** The area with a dead job's row closed the way reclaiming closes it. */
  function Settled(a: seq<JobRow>, nowIso: string): seq<JobRow> {
    if a != [] && a[|a| - 1].status.Running? then Update(a, Change(a[|a| - 1].id, nowIso, Status.Failed, Some("stale")))
    else a
  }

  predicate OldEnough(last: JobRow, limits: Limits, now: int) {
    var age := now - StartOr0(last);
    if last.status.Running? then age > STALE_REFRESH_SECS else limits.cooldown > 0 ==> age >= limits.cooldown
  }

  lemma LatestAllowsExactly(row: JobRow, limits: Limits, now: int)
    requires Stamped([row]) && InRange(now)
    ensures LatestAllows(Some(row), limits, now).Ok? <==> OldEnough(row, limits, now)
  {
    hide EpochToIso, ParseIso;
    assert [row][0] == row;
    ClockStringsParse(StartOr0(row));
  }

  /** What the pre-flight demands of an ordered area, in one line per clause. */
  predicate Allowed(a: seq<JobRow>, limits: Limits, now: int) {
    && (a != [] ==> OldEnough(a[|a| - 1], limits, now))
    && CountOnDate(a, DatePrefix(EpochToIso(now))) < limits.dailyBudget
    && !Tripped(AttemptsOfRows(Terminal(a)), limits.failures, limits.circuitCooldown, now)
  }

  lemma {:induction false} LatestIsLast(rows: seq<JobRow>, area: string)
    requires Stamped(AreaRows(rows, area)) && StrictlyLater(AreaRows(rows, area))
    ensures var a := AreaRows(rows, area);
            LatestJobRun(rows, area) == if a == [] then None else Some(a[|a| - 1])
  {
    OrderedIsReversed(AreaRows(rows, area));
  }

  lemma {:induction false} CircuitUnderAreaOk(rows: seq<JobRow>, area: string, limits: Limits, now: int)
    requires AreaOk(AreaRows(rows, area), limits)
    ensures InRange(now) ==>
              (CircuitIsOpen(rows, area, limits, now)
               <==> Tripped(AttemptsOfRows(Terminal(AreaRows(rows, area))),
                            limits.failures, limits.circuitCooldown, now))
    ensures var a := AreaRows(rows, area); a != [] ==> Stamped([a[|a| - 1]])
  {
    hide EpochToIso, ParseIso, Tripped, CircuitIsOpen, Spaced, Guarded, WithinBudget, StrictlyLater, AttemptsOfRows;
    if InRange(now) {
      CircuitIsTheBreaker(rows, area, limits, now);
    }
  }

  lemma NothingToWaitFor(limits: Limits, now: int)
    ensures LatestAllows(None, limits, now).Ok?
  {
  }

  /** On an ordered area the pre-flight says yes exactly when every clause holds. */
  lemma {:induction false} PreflightExactly(rows: seq<JobRow>, area: string, limits: Limits, now: int)
    requires AreaOk(AreaRows(rows, area), limits)
    ensures Preflight(rows, area, limits, EpochToIso(now)).Ok?
       <==> InRange(now) && Allowed(AreaRows(rows, area), limits, now)
  {
    var a := AreaRows(rows, area);
    LatestIsLast(rows, area);
    CircuitUnderAreaOk(rows, area, limits, now);
    hide EpochToIso, ParseIso, DatePrefix, CountOnDate, AreaOk, LatestAllows, OldEnough;
    hide Tripped, CircuitIsOpen, LatestJobRun, AttemptsOfRows;
    ClockStringsParse(now);
    if InRange(now) && a != [] {
      LatestAllowsExactly(a[|a| - 1], limits, now);
    }
    assert LatestAllows(None, limits, now).Ok? by {
      NothingToWaitFor(limits, now);
    }
  }

  lemma {:induction false} BeginOverDeadJob(rows: seq<JobRow>, area: string, now: int, authId: string)
    requires var a := AreaRows(rows, area);
             && Stamped(a) && OnlyLastRuns(a) && a != [] && a[|a| - 1].status.Running?
             && now - StartOr0(a[|a| - 1]) > STALE_REFRESH_SECS
    requires InRange(now)
    ensures var a, nowIso := AreaRows(rows, area), EpochToIso(now);
            var c := Change(a[|a| - 1].id, nowIso, Status.Failed, Some("stale"));
            TryBegin(rows, authId, area, nowIso, STALE_REFRESH_SECS)
            == (Update(rows, c) + [JobRow(|rows| + 1, authId, area, nowIso, None, Running, None)], Some(|rows| + 1))
  {
    hide EpochToIso, ParseIso, Stamped, OnlyLastRuns, AreaRows, RunningRows, Update, ReclaimStale;
    var a, nowIso := AreaRows(rows, area), EpochToIso(now);
    RunningLast(a);
    ReclaimTakesLast(rows, area, now);
    NothingRunsAfterwards(rows, Change(a[|a| - 1].id, nowIso, Status.Failed, Some("stale")), area);
  }

  lemma {:induction false} ReclaimTakesLast(rows: seq<JobRow>, area: string, now: int)
    requires var a := AreaRows(rows, area);
             && Stamped(a) && OnlyLastRuns(a) && a != [] && a[|a| - 1].status.Running?
             && now - StartOr0(a[|a| - 1]) > STALE_REFRESH_SECS
    requires InRange(now)
    ensures var a, nowIso := AreaRows(rows, area), EpochToIso(now);
            var c := Change(a[|a| - 1].id, nowIso, Status.Failed, Some("stale"));
            ReclaimStale(rows, area, nowIso, STALE_REFRESH_SECS) == (Update(rows, c), true)
  {
    hide EpochToIso, ParseIso, AreaRows, RunningRows, Update;
    var a, nowIso := AreaRows(rows, area), EpochToIso(now);
    var last := a[|a| - 1];
    ClockStringsParse(now);
    ClockStringsParse(StartOr0(last));
    RunningLast(a);
    var j := AreaMember(rows, area, |a| - 1);
    assert Hits(rows, Change(last.id, nowIso, Status.Failed, Some("stale")));
  }

  lemma {:induction false} NothingRunsAfterwards(rows: seq<JobRow>, c: Change, area: string)
    requires var a := AreaRows(rows, area);
             OnlyLastRuns(a) && a != [] && c.id == a[|a| - 1].id && !c.status.Running?
    ensures RunningRows(AreaRows(Update(rows, c), area)) == []
  {
    hide AreaRows, RunningRows;
    AreaOfUpdate(rows, c, area);
    TerminalOfTerminal(Update(AreaRows(rows, area), c));
  }

  /** An update that touches nothing: ids start at 1. */
  const NO_CHANGE := Change(0, "", Status.Failed, None)

  lemma NoChange(rows: seq<JobRow>)
    requires IdsOk(rows)
    ensures Update(rows, NO_CHANGE) == rows
  {
  }

  /** When the pre-flight allows it, beginning appends one running row to the settled area and returns its id. */
  lemma BeginAppends(rows: seq<JobRow>, area: string, limits: Limits, now: int, authId: string) returns (c: Change)
    requires IdsOk(rows) && AreaOk(AreaRows(rows, area), limits)
    requires InRange(now) && Allowed(AreaRows(rows, area), limits, now)
    ensures var (rows', id) := TryBegin(rows, authId, area, EpochToIso(now), STALE_REFRESH_SECS);
            var r := JobRow(|rows| + 1, authId, area, EpochToIso(now), None, Running, None);
            && id == Some(|rows| + 1) && rows' == Update(rows, c) + [r] && !c.status.Running?
            && AreaRows(rows', area) == Settled(AreaRows(rows, area), EpochToIso(now)) + [r]
  {
    hide EpochToIso, ParseIso, DatePrefix, CountOnDate, Spaced, Guarded, WithinBudget;
    hide NewestFirst, AttemptsOfRows, Tripped, StrictlyLater, ReclaimStale;
    var a, nowIso := AreaRows(rows, area), EpochToIso(now);
    var r := JobRow(|rows| + 1, authId, area, nowIso, None, Running, None);
    if a != [] && a[|a| - 1].status.Running? {
      c := Change(a[|a| - 1].id, nowIso, Status.Failed, Some("stale"));
      BeginOverDeadJob(rows, area, now, authId);
      hide TryBegin, RunningRows;
      AreaOfUpdate(rows, c, area);
      AreaOfAppend(Update(rows, c), r, area);
    } else {
      c := NO_CHANGE;
      TerminalOfTerminal(a);
      NoChange(rows);
      AreaOfAppend(rows, r, area);
    }
  }

  /* ---- every run ---- */

  lemma {:induction false} SettledIsClosed(a: seq<JobRow>, nowIso: string, limits: Limits)
    requires AreaOk(a, limits)
    ensures var b := Settled(a, nowIso);
            && AreaOk(b, limits) && |b| == |a|
            && (forall i :: 0 <= i < |b| ==>
                  !b[i].status.Running? && b[i].startedAt == a[i].startedAt && b[i].id == a[i].id)
            && (forall date :: CountOnDate(b, date) == CountOnDate(a, date))
  {
    hide EpochToIso, ParseIso, Spaced, Guarded, WithinBudget, StrictlyLater, CountOnDate;
    if a != [] && a[|a| - 1].status.Running? {
      var c := Change(a[|a| - 1].id, nowIso, Status.Failed, Some("stale"));
      UpdateKeepsArea(a, c, limits);
      forall date
        ensures CountOnDate(Update(a, c), date) == CountOnDate(a, date)
      {
        CountOfUpdate(a, c, date);
      }
    }
  }

  lemma SettledIsNotTripped(a: seq<JobRow>, limits: Limits, now: int, nowIso: string)
    requires AreaOk(a, limits) && Allowed(a, limits, now)
    ensures !Tripped(AttemptsOfRows(Settled(a, nowIso)), limits.failures, limits.circuitCooldown, now)
  {
    hide EpochToIso, ParseIso, Spaced, Guarded, WithinBudget, StrictlyLater, CountOnDate;
  }

  lemma AppendKeepsGuard(b: seq<JobRow>, r: JobRow, n: nat, cooldown: int)
    requires Guarded(AttemptsOfRows(b), n, cooldown)
    requires !Tripped(AttemptsOfRows(b), n, cooldown, StartOr0(r))
    ensures Guarded(AttemptsOfRows(b + [r]), n, cooldown)
  {
    var h, h' := AttemptsOfRows(b), AttemptsOfRows(b + [r]);
    hide AttemptOfRow;
    assert h' == h + [AttemptOfRow(r)];
    forall m | 0 <= m < |h'|
      ensures !Tripped(h'[..m], n, cooldown, h'[m].at)
    {
      assert h'[..m] == h[..m];
      if m == |h| {
        assert h[..m] == h;
        StartIsAttempt(r);
      }
    }
  }

  lemma StartIsAttempt(r: JobRow)
    ensures AttemptOfRow(r).at == StartOr0(r)
  {
  }

  lemma {:induction false} AppendKeepsBudget(b: seq<JobRow>, r: JobRow, budget: nat)
    requires WithinBudget(b, budget) && CountOnDate(b, DatePrefix(r.startedAt)) < budget
    ensures WithinBudget(b + [r], budget)
  {
    hide DatePrefix;
    forall date
      ensures CountOnDate(b + [r], date) <= budget
    {
      assert (b + [r])[..|b|] == b;
    }
  }

  lemma {:induction false} BeginKeepsArea(rows: seq<JobRow>, area: string, limits: Limits, now: int, authId: string)
    requires IdsOk(rows) && AreaOk(AreaRows(rows, area), limits) && limits.cooldown > 0
    requires InRange(now) && Allowed(AreaRows(rows, area), limits, now)
    ensures AreaOk(AreaRows(TryBegin(rows, authId, area, EpochToIso(now), STALE_REFRESH_SECS).0, area), limits)
  {
    var a, nowIso := AreaRows(rows, area), EpochToIso(now);
    var b := Settled(a, nowIso);
    var r := JobRow(|rows| + 1, authId, area, nowIso, None, Running, None);
    var c := BeginAppends(rows, area, limits, now, authId);
    SettledIsClosed(a, nowIso, limits);
    SettledIsNotTripped(a, limits, now, nowIso);
    NewStart(r, now);
    IdsInArea(rows, area);
    hide TryBegin, EpochToIso, Tripped, Settled, AreaRows;
    AppendKeepsGuard(b, r, limits.failures, limits.circuitCooldown);
    AppendKeepsBudget(b, r, limits.dailyBudget);
    AppendKeepsOrder(a, b, r, limits, now);
  }

  lemma NewStart(r: JobRow, now: int)
    requires InRange(now) && r.startedAt == EpochToIso(now)
    ensures StartOr0(r) == now && Stamped([r])
  {
    hide EpochToIso, ParseIso;
    ClockStringsParse(now);
  }

  lemma {:induction false} IdsInArea(rows: seq<JobRow>, area: string)
    requires IdsOk(rows)
    ensures forall i :: 0 <= i < |AreaRows(rows, area)| ==> 1 <= AreaRows(rows, area)[i].id <= |rows|
  {
    forall i | 0 <= i < |AreaRows(rows, area)|
      ensures 1 <= AreaRows(rows, area)[i].id <= |rows|
    {
      var j := AreaMember(rows, area, i);
    }
  }

  lemma AppendKeepsOrder(a: seq<JobRow>, b: seq<JobRow>, r: JobRow, limits: Limits, now: int)
    requires Stamped(b) && StrictlyLater(b) && Spaced(b, MinGap(limits.cooldown))
    requires |a| == |b| && forall i :: 0 <= i < |b| ==> !b[i].status.Running? && b[i].startedAt == a[i].startedAt
    requires a != [] ==> OldEnough(a[|a| - 1], limits, now)
    requires limits.cooldown > 0 && StartOr0(r) == now && Stamped([r])
    requires forall i :: 0 <= i < |b| ==> b[i].id < r.id
    ensures Stamped(b + [r]) && OnlyLastRuns(b + [r]) && StrictlyLater(b + [r])
    ensures Spaced(b + [r], MinGap(limits.cooldown))
  {
    hide EpochToIso, ParseIso;
    assert [r][0] == r;
    if b != [] {
      assert now - StartOr0(b[|b| - 1]) >= MinGap(limits.cooldown);
    }
  }

  ghost predicate Good(rows: seq<JobRow>, limits: LimitsByArea, area: string) {
    IdsOk(rows) && AreaOk(AreaRows(rows, area), limits(area))
  }

  lemma UpdateKeepsGood(rows: seq<JobRow>, limits: LimitsByArea, c: Change, area: string)
    requires Good(rows, limits, area) && !c.status.Running?
    ensures Good(Update(rows, c), limits, area)
  {
    hide AreaOk;
    AreaOfUpdate(rows, c, area);
    UpdateKeepsArea(AreaRows(rows, area), c, limits(area));
  }

  lemma AppendElsewhere(rows: seq<JobRow>, limits: LimitsByArea, r: JobRow, area: string)
    requires Good(rows, limits, area) && r.id == |rows| + 1 && r.area != area
    ensures Good(rows + [r], limits, area)
  {
    hide AreaOk;
    AreaOfAppend(rows, r, area);
    assert AreaRows(rows, area) + [] == AreaRows(rows, area);
  }

  /** Whatever `try_begin_job` does, it closes at most one running row and appends at most one new one. */
  lemma TryBeginShape(rows: seq<JobRow>, authId: string, area: string, nowIso: string, staleAfter: int)
    returns (c: Change, r: JobRow)
    requires IdsOk(rows)
    ensures !c.status.Running? && r == JobRow(|rows| + 1, authId, area, nowIso, None, Running, None)
    ensures var (rows', id) := TryBegin(rows, authId, area, nowIso, staleAfter);
            if id.None? then rows' == Update(rows, c)
            else rows' == Update(rows, c) + [r] && RunningRows(AreaRows(Update(rows, c), area)) == []
  {
    hide EpochToIso, ParseIso, AreaRows, RunningRows;
    NoChange(rows);
    c := NO_CHANGE;
    r := JobRow(|rows| + 1, authId, area, nowIso, None, Running, None);
    var (rows2, reclaimed) := ReclaimStale(rows, area, nowIso, staleAfter);
    if InsertRunning(rows, authId, area, nowIso).1.None? && reclaimed {
      var running := RunningRows(AreaRows(rows, area));
      c := Change(running[|running| - 1].id, nowIso, Status.Failed, Some("stale"));
    }
  }

  lemma BeginElsewhere(rows: seq<JobRow>, limits: LimitsByArea, other: string,
                       nowIso: string, authId: string, area: string)
    requires Good(rows, limits, area) && other != area
    ensures Good(TryBegin(rows, authId, other, nowIso, STALE_REFRESH_SECS).0, limits, area)
  {
    hide AreaOk, TryBegin;
    var c, r := TryBeginShape(rows, authId, other, nowIso, STALE_REFRESH_SECS);
    UpdateKeepsGood(rows, limits, c, area);
    AppendElsewhere(Update(rows, c), limits, r, area);
  }

  lemma BeginHere(rows: seq<JobRow>, limits: LimitsByArea, now: int, authId: string, area: string)
    requires Good(rows, limits, area) && limits(area).cooldown > 0
    requires Preflight(rows, area, limits(area), EpochToIso(now)).Ok?
    ensures Good(TryBegin(rows, authId, area, EpochToIso(now), STALE_REFRESH_SECS).0, limits, area)
  {
    hide AreaOk, Preflight, EpochToIso, TryBegin, Allowed;
    PreflightExactly(rows, area, limits(area), now);
    var c := BeginAppends(rows, area, limits(area), now, authId);
    BeginKeepsArea(rows, area, limits(area), now, authId);
  }

  /** The invariant of every area with a positive cooldown, whatever the clock, the crashes and the late finishes. */
  lemma {:induction false} EveryRunKeepsAreas(limits: LimitsByArea, es: seq<Event>, area: string)
    requires limits(area).cooldown > 0
    ensures Good(Run(limits, es), limits, area)
  {
    hide AreaOk, Preflight, EpochToIso, TryBegin;
    if es == [] {
      NoRowsYet(limits(area));
    } else {
      var front, e := es[..|es| - 1], es[|es| - 1];
      var rows := Run(limits, front);
      EveryRunKeepsAreas(limits, front, area);
      match e {
        case Begin(other, clock, permit, authId) =>
          if other != area {
            BeginElsewhere(rows, limits, other, EpochToIso(clock), authId, area);
          } else if Preflight(rows, area, limits(area), EpochToIso(clock)).Ok? && permit {
            BeginHere(rows, limits, clock, authId, area);
          }
        case Finish(id, clock, completed, code) =>
          var status := if completed then Status.Completed else Status.Failed;
          UpdateKeepsGood(rows, limits, Change(id, EpochToIso(clock), status, code), area);
      }
    }
  }

  lemma NoRowsYet(limits: Limits)
    ensures AreaOk([], limits)
  {
  }

  lemma DefaultsAreCooling(area: string)
    ensures DefaultLimits(area).cooldown > 0 && DefaultLimits(area).failures > 0
    ensures DefaultLimits("portfolio") == Limits(1_800, 4, 3, 600) && DefaultLimits("orders") == Limits(600, 6, 3, 600)
    ensures DefaultLimits("tax") == Limits(1_800, 6, 3, 600) && DefaultLimits("movements") == Limits(900, 6, 3, 600)
  {
  }

  /** The two staleness tests agree: whatever the pre-flight lets through, the lock accepts at the same instant. */
  lemma {:induction false} PreflightOpensTheLock(limits: LimitsByArea, es: seq<Event>,
                                                 area: string, clock: int, authId: string)
    requires limits(area).cooldown > 0
    ensures var rows := Run(limits, es);
            Preflight(rows, area, limits(area), EpochToIso(clock)).Ok? ==>
              TryBegin(rows, authId, area, EpochToIso(clock), STALE_REFRESH_SECS).1 == Some(|rows| + 1)
  {
    hide Run, EpochToIso, AreaOk, Preflight, TryBegin, Allowed;
    EveryRunKeepsAreas(limits, es, area);
    var rows := Run(limits, es);
    PreflightExactly(rows, area, limits(area), clock);
    if Preflight(rows, area, limits(area), EpochToIso(clock)).Ok? {
      var c := BeginAppends(rows, area, limits(area), clock, authId);
    }
  }

  /** A crashed job blocks its area only until it is stale: after that only the budget and the breaker can refuse. */
  lemma {:induction false} CrashedJobReleasesTheArea(limits: LimitsByArea, es: seq<Event>, area: string, clock: int)
    requires limits(area).cooldown > 0 && InRange(clock)
    ensures var rows := Run(limits, es);
            var a := AreaRows(rows, area);
            a != [] && a[|a| - 1].status.Running? ==>
              (Preflight(rows, area, limits(area), EpochToIso(clock)).Ok? <==>
                 && clock - StartOr0(a[|a| - 1]) > STALE_REFRESH_SECS
                 && CountOnDate(a, DatePrefix(EpochToIso(clock))) < limits(area).dailyBudget
                 && !Tripped(AttemptsOfRows(Terminal(a)), limits(area).failures, limits(area).circuitCooldown, clock))
  {
    hide Run, EpochToIso, AreaOk, Preflight, CountOnDate, Tripped, DatePrefix, AttemptsOfRows, Terminal;
    EveryRunKeepsAreas(limits, es, area);
    PreflightExactly(Run(limits, es), area, limits(area), clock);
  }

  /** Rows `first` up to `j` of an area are one unbroken run of upstream failures. */
  predicate FailingRun(a: seq<JobRow>, first: nat, j: nat) {
    j < |a| && forall k :: first <= k < j ==> AttemptOfRow(a[k]).upstream
  }

  /**
    Refresh probes, like market probes, are throttled while the upstream keeps failing: from the n-th
    failure on one cooldown apart one by one, and one cooldown after the failures before that.
   */
  lemma {:induction false} RefreshProbesAreThrottled(limits: LimitsByArea, es: seq<Event>,
                                                     area: string, first: nat, i: nat, j: nat)
    requires limits(area).cooldown > 0 && limits(area).failures > 0
    ensures var a, n := AreaRows(Run(limits, es), area), limits(area).failures;
            FailingRun(a, first, j) ==>
              && (first + n <= i + 1 && i <= j ==>
                    StartOr0(a[j]) - StartOr0(a[i]) >= limits(area).circuitCooldown * (j - i))
              && (first <= i < j && first + n <= j ==>
                    StartOr0(a[j]) - StartOr0(a[i]) >= limits(area).circuitCooldown)
  {
    hide Run, EpochToIso, ParseIso, Guarded, TrailingFailures, Spaced, AreaRows;
    EveryRunKeepsAreas(limits, es, area);
    var a, n, wait := AreaRows(Run(limits, es), area), limits(area).failures, limits(area).circuitCooldown;
    if FailingRun(a, first, j) {
      var h := AttemptsOfRows(a);
      hide WithinBudget;
      if first + n <= i + 1 && i <= j {
        FailingRunIsThrottled(h, n, wait, first, i, j);
      }
      if first <= i < j && first + n <= j {
        assert h[i].at <= h[j - 1].at;
        EarlyFailuresAreCleared(h, n, wait, first, i, j);
      }
    }
  }

  /* ---- terminal rows are final ---- */

  lemma StepKeepsTerminal(rows: seq<JobRow>, limits: LimitsByArea, e: Event, i: nat)
    requires IdsOk(rows) && i < |rows| && !rows[i].status.Running?
    ensures var rows' := Next(rows, limits, e);
            IdsOk(rows') && i < |rows'| && rows'[i] == rows[i]
  {
    hide Preflight, EpochToIso, TryBegin;
    match e {
      case Begin(area, clock, permit, authId) =>
        var c, r := TryBeginShape(rows, authId, area, EpochToIso(clock), STALE_REFRESH_SECS);
      case Finish(_, _, _, _) =>
    }
  }

  lemma StepKeepsIds(rows: seq<JobRow>, limits: LimitsByArea, e: Event)
    requires IdsOk(rows)
    ensures IdsOk(Next(rows, limits, e))
  {
    hide Preflight, EpochToIso, TryBegin;
    match e {
      case Begin(area, clock, permit, authId) =>
        var c, r := TryBeginShape(rows, authId, area, EpochToIso(clock), STALE_REFRESH_SECS);
      case Finish(_, _, _, _) =>
    }
  }

  lemma {:induction false} RunKeepsIds(limits: LimitsByArea, es: seq<Event>)
    ensures IdsOk(Run(limits, es))
  {
    if es == [] {
    } else {
      hide Next;
      RunKeepsIds(limits, es[..|es| - 1]);
      StepKeepsIds(Run(limits, es[..|es| - 1]), limits, es[|es| - 1]);
    }
  }

  /* ---- under any limits: the budget and the one running row ---- */

  /** What the budget and the unique index keep of an area, however its rows are ordered. */
  ghost predicate Limited(rows: seq<JobRow>, area: string, budget: nat) {
    WithinBudget(AreaRows(rows, area), budget) && |RunningRows(AreaRows(rows, area))| <= 1
  }

  lemma {:induction false} RunningOfUpdate(a: seq<JobRow>, c: Change)
    requires !c.status.Running?
    ensures |RunningRows(Update(a, c))| <= |RunningRows(a)|
  {
    if a == [] {
    } else {
      RunningOfUpdate(a[..|a| - 1], c);
      assert Update(a, c)[..|a| - 1] == Update(a[..|a| - 1], c);
    }
  }

  lemma UpdateKeepsLimited(rows: seq<JobRow>, c: Change, area: string, budget: nat)
    requires Limited(rows, area, budget) && !c.status.Running?
    ensures Limited(Update(rows, c), area, budget)
  {
    hide AreaRows, RunningRows, Update, CountOnDate;
    var a := AreaRows(rows, area);
    AreaOfUpdate(rows, c, area);
    RunningOfUpdate(a, c);
    forall date
      ensures CountOnDate(Update(a, c), date) <= budget
    {
      CountOfUpdate(a, c, date);
    }
  }

  lemma {:induction false} BeginKeepsLimited(rows: seq<JobRow>, limits: Limits, other: string,
                          nowIso: string, authId: string, area: string)
    requires IdsOk(rows) && Limited(rows, area, limits.dailyBudget)
    requires other == area ==> CountOnDate(AreaRows(rows, area), DatePrefix(nowIso)) < limits.dailyBudget
    ensures Limited(TryBegin(rows, authId, other, nowIso, STALE_REFRESH_SECS).0, area, limits.dailyBudget)
  {
    hide Limited, TryBegin, CountOnDate, DatePrefix, AreaRows, RunningRows, Update;
    var c, r := TryBeginShape(rows, authId, other, nowIso, STALE_REFRESH_SECS);
    UpdateKeepsLimited(rows, c, area, limits.dailyBudget);
    if TryBegin(rows, authId, other, nowIso, STALE_REFRESH_SECS).1.Some? {
      AreaOfUpdate(rows, c, area);
      CountOfUpdate(AreaRows(rows, area), c, DatePrefix(nowIso));
      AppendKeepsLimited(Update(rows, c), r, area, limits.dailyBudget);
    }
  }

  lemma {:induction false} AppendKeepsLimited(rows: seq<JobRow>, r: JobRow, area: string, budget: nat)
    requires Limited(rows, area, budget)
    requires r.area == area ==>
               && CountOnDate(AreaRows(rows, area), DatePrefix(r.startedAt)) < budget
               && RunningRows(AreaRows(rows, area)) == []
    ensures Limited(rows + [r], area, budget)
  {
    hide WithinBudget, CountOnDate, DatePrefix, AreaRows, RunningRows;
    var a := AreaRows(rows, area);
    AreaOfAppend(rows, r, area);
    if r.area == area {
      AppendKeepsBudget(a, r, budget);
      RunningOfAppend(a, r);
    } else {
      assert a + [] == a;
    }
  }

  lemma {:induction false} RunningOfAppend(a: seq<JobRow>, r: JobRow)
    ensures |RunningRows(a + [r])| <= |RunningRows(a)| + 1
  {
    assert (a + [r])[..|a|] == a;
  }

  /** The pre-flight counts the rows of the date whatever the other limits are. */
  lemma {:induction false} PreflightLeavesBudget(rows: seq<JobRow>, area: string, limits: Limits, nowIso: string)
    requires Preflight(rows, area, limits, nowIso).Ok?
    ensures CountOnDate(AreaRows(rows, area), DatePrefix(nowIso)) < limits.dailyBudget
  {
  }

  /**
    Over every run, under any limits and any clock: no UTC date holds more of an area's rows than its daily
    budget, and at most one of them is running. This needs no cooldown and no order of the start times.
   */
  lemma {:induction false} EveryRunIsLimited(limits: LimitsByArea, es: seq<Event>, area: string)
    ensures Limited(Run(limits, es), area, limits(area).dailyBudget)
  {
    hide Limited, Preflight, EpochToIso, TryBegin, CountOnDate, DatePrefix;
    if es == [] {
      NothingYet(area, limits(area).dailyBudget);
    } else {
      var front, e := es[..|es| - 1], es[|es| - 1];
      var rows := Run(limits, front);
      EveryRunIsLimited(limits, front, area);
      RunKeepsIds(limits, front);
      match e {
        case Begin(other, clock, permit, authId) =>
          var nowIso := EpochToIso(clock);
          if Preflight(rows, other, limits(other), nowIso).Ok? && permit {
            PreflightLeavesBudget(rows, other, limits(other), nowIso);
            BeginKeepsLimited(rows, limits(area), other, nowIso, authId, area);
          }
        case Finish(id, clock, completed, code) =>
          var status := if completed then Status.Completed else Status.Failed;
          UpdateKeepsLimited(rows, Change(id, EpochToIso(clock), status, code), area, limits(area).dailyBudget);
      }
    }
  }

  lemma NothingYet(area: string, budget: nat)
    ensures Limited([], area, budget)
  {
  }

  lemma {:induction false} RunsAreOrdered(limits: LimitsByArea, es: seq<Event>, area: string, i: nat, j: nat)
    requires limits(area).cooldown > 0
    ensures var a := AreaRows(Run(limits, es), area);
            && (i < j < |a| ==>
                  && Before(a[i].startedAt, a[j].startedAt)
                  && StartOr0(a[j]) - StartOr0(a[i]) >= MinGap(limits(area).cooldown)
                  && !a[i].status.Running?)
            && LatestJobRun(Run(limits, es), area) == if a == [] then None else Some(a[|a| - 1])
  {
    hide Run, EpochToIso, ParseIso;
    EveryRunKeepsAreas(limits, es, area);
    var a := AreaRows(Run(limits, es), area);
    LatestIsLast(Run(limits, es), area);
    hide NewestFirst, LatestJobRun, Guarded, AttemptsOfRows;
    if i < j < |a| {
      assert StartOr0(a[i + 1]) - StartOr0(a[i]) >= MinGap(limits(area).cooldown);
      assert [a[i], a[j]][0] == a[i] && [a[i], a[j]][1] == a[j];
      StartOrder(a[i], a[j]);
    }
  }

  /** An area without a budget never gets a row. */
  lemma {:induction false} NoBudgetNoRows(limits: LimitsByArea, es: seq<Event>, area: string)
    requires limits(area).dailyBudget == 0
    ensures AreaRows(Run(limits, es), area) == []
  {
    hide Run, AreaRows, DatePrefix;
    EveryRunIsLimited(limits, es, area);
    CountOfLast(AreaRows(Run(limits, es), area));
  }

  lemma {:induction false} CountOfLast(a: seq<JobRow>)
    ensures a != [] ==> CountOnDate(a, DatePrefix(a[|a| - 1].startedAt)) >= 1
  {
  }

  /**
    Once a job is finished, failed or reclaimed its row never changes again, and a late finish by its
    owner reports false and changes no row, under any limits.
   */
  lemma {:induction false} LateFinishIsRefused(limits: LimitsByArea, es: seq<Event>, more: seq<Event>,
                                               i: nat, late: Change)
    requires i < |Run(limits, es)| && !Run(limits, es)[i].status.Running? && late.id == i + 1
    ensures var rows := Run(limits, es + more);
            i < |rows| && rows[i] == Run(limits, es)[i] && FinishJob(rows, late) == (rows, false)
    decreases |more|
  {
    hide Next;
    RunKeepsIds(limits, es + more);
    if more == [] {
      assert es + more == es;
    } else {
      var front, e := more[..|more| - 1], more[|more| - 1];
      LateFinishIsRefused(limits, es, front, i, late);
      RunKeepsIds(limits, es + front);
      assert (es + more)[..|es + more| - 1] == es + front;
      StepKeepsTerminal(Run(limits, es + front), limits, e, i);
    }
    NothingToFinish(Run(limits, es + more), i, late);
  }

  lemma NothingToFinish(rows: seq<JobRow>, i: nat, late: Change)
    requires IdsOk(rows) && i < |rows| && !rows[i].status.Running? && late.id == i + 1
    ensures FinishJob(rows, late) == (rows, false)
  {
    assert Update(rows, late) == rows;
  }

  /* ---- without a cooldown the lock and the pre-flight disagree ---- */

  lemma DatePrefixIsDay(a: int, b: int)
    requires InRange(a) && InRange(b)
    ensures DatePrefix(EpochToIso(a)) == DatePrefix(EpochToIso(b)) <==> a / 86_400 == b / 86_400
  {
    hide *;
    PrefixIsDate(a);
    PrefixIsDate(b);
    DayOfDate(a / 86_400, b / 86_400);
  }

  lemma PrefixIsDate(e: int)
    requires InRange(e)
    ensures FourDigitYear(CivilFromDays(e / 86_400))
    ensures DatePrefix(EpochToIso(e)) == IsoDate(CivilFromDays(e / 86_400))
  {
    hide EpochToIso, IsoDate, IsoClock, CivilFromDays;
    IsoShape(e);
  }

  lemma DayOfDate(x: int, y: int)
    requires FourDigitYear(CivilFromDays(x)) && FourDigitYear(CivilFromDays(y))
    ensures IsoDate(CivilFromDays(x)) == IsoDate(CivilFromDays(y)) <==> x == y
  {
    hide CivilFromDays, DaysFromCivil, IsoDate;
    IsoDateOrder(CivilFromDays(x), CivilFromDays(y));
    DaysRoundTrip(x);
    DaysRoundTrip(y);
  }

  /** A job two days ahead of the clock, then one just before midnight that is still running. */
  function BackwardsRun(area: string): seq<Event> {
    [Begin(area, 200_000, true, "owner"), Finish(1, 200_000, true, None), Begin(area, 86_399, true, "owner")]
  }

  function FirstJob(area: string): JobRow {
    JobRow(1, "owner", area, EpochToIso(200_000), Some(EpochToIso(200_000)), Completed, None)
  }

  function SecondJob(area: string): JobRow {
    JobRow(2, "owner", area, EpochToIso(86_399), None, Running, None)
  }

  lemma {:induction false} OneJob(limits: Limits, area: string)
    requires limits.dailyBudget > 0
    ensures AreaOk([], limits) && AreaOk([FirstJob(area)], limits)
    ensures AreaRows([FirstJob(area)], area) == [FirstJob(area)] && StartOr0(FirstJob(area)) == 200_000
    ensures forall date ::
              CountOnDate([FirstJob(area)], date) == if DatePrefix(EpochToIso(200_000)) == date then 1 else 0
  {
    hide EpochToIso, ParseIso, DatePrefix;
    ClockStringsParse(200_000);
    var r := FirstJob(area);
    assert [r][..0] == [];
    NoRowsYet(limits);
    assert Guarded(AttemptsOfRows([r]), limits.failures, limits.circuitCooldown) by {
      assert AttemptsOfRows([r])[..0] == [];
    }
    forall date
      ensures CountOnDate([r], date) == if DatePrefix(EpochToIso(200_000)) == date then 1 else 0
    {
    }
    assert WithinBudget([r], limits.dailyBudget);
  }

  lemma FirstBegin(limits: LimitsByArea, area: string)
    requires limits(area).dailyBudget > 0
    ensures Next([], limits, BackwardsRun(area)[0]) == [FirstJob(area).(finishedAt := None, status := Running)]
  {
    hide EpochToIso, ParseIso, DatePrefix, Preflight, AreaOk, TryBegin;
    OneJob(limits(area), area);
    assert AreaRows([], area) == [];
    assert Allowed([], limits(area), 200_000);
    PreflightExactly([], area, limits(area), 200_000);
    var c := BeginAppends([], area, limits(area), 200_000, "owner");
    assert Update([], c) == [];
  }

  lemma FirstFinish(limits: LimitsByArea, area: string)
    ensures Next([FirstJob(area).(finishedAt := None, status := Running)], limits, BackwardsRun(area)[1])
         == [FirstJob(area)]
  {
    hide EpochToIso, ParseIso;
    var r := FirstJob(area).(finishedAt := None, status := Running);
    assert Update([r], Change(1, EpochToIso(200_000), Status.Completed, None)) == [FirstJob(area)];
  }

  lemma FirstTwo(limits: LimitsByArea, area: string)
    requires limits(area).dailyBudget > 0
    ensures Run(limits, BackwardsRun(area)[..2]) == [FirstJob(area)]
  {
    hide Next, EpochToIso;
    var es := BackwardsRun(area);
    FirstBegin(limits, area);
    FirstFinish(limits, area);
    assert es[..2][..1] == es[..1] && es[..1][..0] == [];
    assert Run(limits, es[..1]) == Next([], limits, es[0]);
  }

  lemma SecondBegin(limits: LimitsByArea, area: string)
    requires limits(area).dailyBudget > 0 && limits(area).cooldown <= 0
    ensures Run(limits, BackwardsRun(area)) == [FirstJob(area), SecondJob(area)]
  {
    hide EpochToIso, ParseIso, DatePrefix, Preflight, AreaOk, TryBegin, AreaRows;
    var es, rows := BackwardsRun(area), [FirstJob(area)];
    FirstTwo(limits, area);
    OneJob(limits(area), area);
    DatePrefixIsDay(200_000, 86_399);
    assert es[..|es| - 1] == es[..2];
    assert TrailingFailures(AttemptsOfRows(rows)) == 0;
    assert Allowed(rows, limits(area), 86_399);
    PreflightExactly(rows, area, limits(area), 86_399);
    var c := BeginAppends(rows, area, limits(area), 86_399, "owner");
    assert Update(rows, c) == rows;
  }

  lemma {:induction false} BackwardsRows(area: string)
    ensures var a, b := FirstJob(area), SecondJob(area);
            && AreaRows([a, b], area) == [a, b] && TerminalRows([a, b]) == [a] && RunningRows([a, b]) == [b]
            && NewestFirst([a, b]) == [a, b] && NewestFirst([a]) == [a]
            && CountOnDate([a, b], DatePrefix(EpochToIso(86_409))) == 0
  {
    hide EpochToIso, ParseIso, DatePrefix, Before;
    var a, b := FirstJob(area), SecondJob(area);
    assert [a, b][..1] == [a] && [a][..0] == [];
    DatePrefixIsDay(86_409, 86_399);
    DatePrefixIsDay(86_409, 200_000);
    TimestampOrder(200_000, 86_399);
    assert AreaRows([a], area) == [a] && TerminalRows([a]) == [a] && RunningRows([a]) == [];
    var none: seq<JobRow> := [];
    assert InsertByAge(a, none) == [a] && InsertByAge(b, none) == [b] && NewestFirst(none) == none;
    assert NewestFirst([a]) == [a];
    assert [a][1..] == none && InsertByAge(b, [a]) == [a] + [b];
    assert CountOnDate([a], DatePrefix(EpochToIso(86_409))) == 0;
  }

  /**
    Ten seconds later: the pre-flight sees only the completed job with the later start, the lock sees the
    running one.
   */
  lemma BackwardsRunDisagrees(limits: LimitsByArea, area: string)
    requires limits(area).dailyBudget > 0 && limits(area).cooldown <= 0
    ensures var rows := Run(limits, BackwardsRun(area));
            && Preflight(rows, area, limits(area), EpochToIso(86_409)).Ok?
            && TryBegin(rows, "owner", area, EpochToIso(86_409), STALE_REFRESH_SECS).1 == None
  {
    hide EpochToIso, ParseIso, DatePrefix, AreaRows, TerminalRows, RunningRows, NewestFirst, CountOnDate, Run;
    SecondBegin(limits, area);
    BackwardsRows(area);
    ClockStringsParse(200_000);
    ClockStringsParse(86_399);
    ClockStringsParse(86_409);
  }

  /** Over all runs the lock accepts whatever the pre-flight lets through. */
  ghost predicate LockFollowsPreflight(limits: LimitsByArea, area: string) {
    forall es, clock, authId ::
      Preflight(Run(limits, es), area, limits(area), EpochToIso(clock)).Ok? ==>
        TryBegin(Run(limits, es), authId, area, EpochToIso(clock), STALE_REFRESH_SECS).1.Some?
  }

  lemma NothingWithoutBudget(area: string, limits: Limits)
    requires limits.dailyBudget == 0
    ensures forall rows, now :: Preflight(rows, area, limits, now).Err?
  {
  }

  /** Exactly when: the area has a positive cooldown, or a daily budget of zero that lets nothing through at all. */
  lemma LockFollowsPreflightIff(limits: LimitsByArea, area: string)
    ensures LockFollowsPreflight(limits, area) <==> limits(area).cooldown > 0 || limits(area).dailyBudget == 0
  {
    hide Run, Preflight, TryBegin, EpochToIso, BackwardsRun;
    if limits(area).cooldown > 0 {
      forall es, clock, authId
        ensures Preflight(Run(limits, es), area, limits(area), EpochToIso(clock)).Ok? ==>
                  TryBegin(Run(limits, es), authId, area, EpochToIso(clock), STALE_REFRESH_SECS).1.Some?
      {
        PreflightOpensTheLock(limits, es, area, clock, authId);
      }
    } else if limits(area).dailyBudget > 0 {
      BackwardsRunDisagrees(limits, area);
    } else {
      NothingWithoutBudget(area, limits(area));
    }
  }

  /** Every running row of the area is the one the pre-flight looks at. */
  predicate RunningIsLatest(rows: seq<JobRow>, area: string) {
    var a := AreaRows(rows, area);
    forall i :: 0 <= i < |a| && a[i].status.Running? ==> LatestJobRun(rows, area) == Some(a[i])
  }

  /** In the backwards run the second job is running and the first one, completed, counts as the latest. */
  lemma BackwardsRunHidesTheRunningRow(limits: LimitsByArea, area: string)
    requires limits(area).dailyBudget > 0 && limits(area).cooldown <= 0
    ensures var rows := Run(limits, BackwardsRun(area));
            !RunningIsLatest(rows, area) && LatestJobRun(rows, area) == Some(FirstJob(area))
  {
    hide EpochToIso, ParseIso, AreaRows, NewestFirst, Run;
    SecondBegin(limits, area);
    BackwardsRows(area);
    var a := AreaRows(Run(limits, BackwardsRun(area)), area);
    assert a[1] == SecondJob(area);
  }

  lemma {:induction false} OrderedRunningIsLatest(limits: LimitsByArea, es: seq<Event>, area: string)
    requires limits(area).cooldown > 0
    ensures RunningIsLatest(Run(limits, es), area)
  {
    hide Run, EpochToIso, ParseIso, AreaRows, LatestJobRun, Guarded, WithinBudget, Spaced;
    EveryRunKeepsAreas(limits, es, area);
    LatestIsLast(Run(limits, es), area);
  }

  ghost predicate EveryRunShowsTheRunningRow(limits: LimitsByArea, area: string) {
    forall es :: RunningIsLatest(Run(limits, es), area)
  }

  /** Over all runs a running row is the area's latest row exactly under the condition the lock needs too. */
  lemma RunningIsLatestIff(limits: LimitsByArea, area: string)
    ensures EveryRunShowsTheRunningRow(limits, area) <==> limits(area).cooldown > 0 || limits(area).dailyBudget == 0
  {
    hide Run, RunningIsLatest, BackwardsRun;
    if limits(area).cooldown > 0 {
      forall es
        ensures RunningIsLatest(Run(limits, es), area)
      {
        OrderedRunningIsLatest(limits, es, area);
      }
    } else if limits(area).dailyBudget > 0 {
      BackwardsRunHidesTheRunningRow(limits, area);
    } else {
      forall es
        ensures RunningIsLatest(Run(limits, es), area)
      {
        NoBudgetNoRows(limits, es, area);
        NoRowNoRunning(Run(limits, es), area);
      }
    }
  }

  lemma {:induction false} NoRowNoRunning(rows: seq<JobRow>, area: string)
    requires AreaRows(rows, area) == []
    ensures RunningIsLatest(rows, area)
  {
  }
}
