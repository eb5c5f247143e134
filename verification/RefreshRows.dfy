/**
  What the refresh runs promise, said of the rows of the table themselves: which rows start on a day, which
  one is running, what a begin, a finish and the pre-flight do to them and answer.
 */
module RefreshRows {
  import opened Prelude
  import opened Calendar
  import opened Text
  import opened Timestamps
  import opened Wire
  import opened Breaker
  import opened JobRuns
  import opened Refresh

  /* ---- rows and area rows ---- */

  /** The indices of an area's rows whose start string has this date. */
  function StartedOn(rows: seq<JobRow>, area: string, date: string): set<int> {
    set k | 0 <= k < |rows| && rows[k].area == area && DatePrefix(rows[k].startedAt) == date
  }

  /** The count the pre-flight compares with the budget is the number of those rows. */
  lemma {:induction false} CountIsOfRows(rows: seq<JobRow>, area: string, date: string)
    ensures CountOnDate(AreaRows(rows, area), date) == |StartedOn(rows, area, date)|
  {
    hide DatePrefix, StartedOn, CountOnDate, AreaRows;
    if rows == [] {
      NothingStarted(area, date);
    } else {
      var front, r := rows[..|rows| - 1], rows[|rows| - 1];
      assert rows == front + [r];
      CountIsOfRows(front, area, date);
      OneMoreStart(front, r, area, date);
      AreaOfAppend(front, r, area);
      if r.area == area {
        CountOfAppend(AreaRows(front, area), r, date);
      } else {
        assert AreaRows(front, area) + [] == AreaRows(front, area);
      }
    }
  }

  lemma {:induction false} NothingStarted(area: string, date: string)
    ensures CountOnDate(AreaRows([], area), date) == 0 && StartedOn([], area, date) == {}
  {
  }

  lemma OneMoreStart(rows: seq<JobRow>, r: JobRow, area: string, date: string)
    ensures |StartedOn(rows + [r], area, date)|
         == |StartedOn(rows, area, date)| + if r.area == area && DatePrefix(r.startedAt) == date then 1 else 0
  {
    hide DatePrefix;
    var hit := r.area == area && DatePrefix(r.startedAt) == date;
    assert StartedOn(rows + [r], area, date) == StartedOn(rows, area, date) + if hit then {|rows|} else {};
  }

  lemma {:induction false} CountOfAppend(a: seq<JobRow>, r: JobRow, date: string)
    ensures CountOnDate(a + [r], date) == CountOnDate(a, date) + if DatePrefix(r.startedAt) == date then 1 else 0
  {
    hide DatePrefix;
    assert (a + [r])[..|a|] == a;
  }

  /** Where a row of the table stands among its area's rows. */
  function Place(rows: seq<JobRow>, i: nat): nat
    requires i <= |rows|
  {
    if i == |rows| then 0 else |AreaRows(rows[..i], rows[i].area)|
  }

  lemma {:induction false} PlaceHolds(rows: seq<JobRow>, i: nat)
    requires i < |rows|
    ensures var a := AreaRows(rows, rows[i].area);
            Place(rows, i) < |a| && a[Place(rows, i)] == rows[i]
  {
    var n := |rows| - 1;
    if i == n {
    } else {
      PlaceHolds(rows[..n], i);
      assert rows[..n][..i] == rows[..i];
    }
  }

  lemma {:induction false} AreaGrows(rows: seq<JobRow>, area: string, i: nat)
    requires i <= |rows|
    ensures |AreaRows(rows[..i], area)| <= |AreaRows(rows, area)|
  {
    if i == |rows| {
      assert rows[..i] == rows;
    } else {
      AreaGrows(rows[..|rows| - 1], area, i);
      assert rows[..|rows| - 1][..i] == rows[..i];
    }
  }

  /** Rows of one area keep their order there. */
  lemma PlacesAreOrdered(rows: seq<JobRow>, i: nat, j: nat)
    requires i < j < |rows| && rows[i].area == rows[j].area
    ensures Place(rows, i) < Place(rows, j)
  {
    hide AreaRows;
    var area := rows[i].area;
    AreaOfAppend(rows[..i], rows[i], area);
    assert rows[..i] + [rows[i]] == rows[..j][..i + 1];
    AreaGrows(rows[..j], area, i + 1);
  }

  lemma {:induction false} TwoRunning(a: seq<JobRow>, p: nat, q: nat)
    requires p < q < |a| && a[p].status.Running? && a[q].status.Running?
    ensures |RunningRows(a)| >= 2
  {
    var n := |a| - 1;
    if q == n {
      SomeRunning(a[..n], p);
    } else {
      TwoRunning(a[..n], p, q);
    }
  }

  lemma {:induction false} SomeRunning(a: seq<JobRow>, p: nat)
    requires p < |a| && a[p].status.Running?
    ensures |RunningRows(a)| >= 1
  {
    if p == |a| - 1 {
    } else {
      SomeRunning(a[..|a| - 1], p);
    }
  }

  lemma {:induction false} RunningAreRows(a: seq<JobRow>)
    ensures forall k :: 0 <= k < |RunningRows(a)| ==> RunningRows(a)[k] in a && RunningRows(a)[k].status.Running?
  {
    if a == [] {
    } else {
      RunningAreRows(a[..|a| - 1]);
      assert forall r :: r in a[..|a| - 1] ==> r in a;
    }
  }

  /* ---- every run, under any limits and any clock ---- */

  /** Start strings are the clock's own, so a date prefix is a UTC day. */
  predicate StampedByClock(rows: seq<JobRow>) {
    forall k :: 0 <= k < |rows| ==> InRange(StartOr0(rows[k])) && rows[k].startedAt == EpochToIso(StartOr0(rows[k]))
  }

  lemma UpdateKeepsStamps(rows: seq<JobRow>, c: Change)
    requires StampedByClock(rows)
    ensures StampedByClock(Update(rows, c))
  {
    hide EpochToIso, ParseIso, InRange;
    assert forall k :: 0 <= k < |rows| ==> Update(rows, c)[k].startedAt == rows[k].startedAt;
  }

  lemma {:induction false} EveryRunIsStamped(limits: LimitsByArea, es: seq<Event>)
    ensures StampedByClock(Run(limits, es))
  {
    hide Preflight, EpochToIso, ParseIso, TryBegin, StampedByClock, InRange, FinishJob;
    if es == [] {
      NoStamps();
    } else {
      var front, e := es[..|es| - 1], es[|es| - 1];
      var rows := Run(limits, front);
      EveryRunIsStamped(limits, front);
      RunKeepsIds(limits, front);
      match e {
        case Begin(area, clock, permit, authId) =>
          if Preflight(rows, area, limits(area), EpochToIso(clock)).Ok? && permit {
            PreflightReadsTheClock(rows, area, limits(area), clock);
            BeginKeepsStamps(rows, area, clock, authId);
          }
        case Finish(id, clock, completed, code) =>
          var status := if completed then Status.Completed else Status.Failed;
          FinishKeepsStamps(rows, Change(id, EpochToIso(clock), status, code));
      }
    }
  }

  lemma NoStamps()
    ensures StampedByClock([])
  {
  }

  lemma FinishKeepsStamps(rows: seq<JobRow>, c: Change)
    requires StampedByClock(rows)
    ensures StampedByClock(FinishJob(rows, c).0)
  {
    hide StampedByClock;
    UpdateKeepsStamps(rows, c);
  }

  lemma PreflightReadsTheClock(rows: seq<JobRow>, area: string, limits: Limits, clock: int)
    requires Preflight(rows, area, limits, EpochToIso(clock)).Ok?
    ensures InRange(clock)
  {
    hide EpochToIso, ParseIso, CircuitIsOpen, LatestAllows, CountOnDate;
    ClockStringsParse(clock);
  }

  lemma BeginKeepsStamps(rows: seq<JobRow>, area: string, clock: int, authId: string)
    requires IdsOk(rows) && StampedByClock(rows) && InRange(clock)
    ensures StampedByClock(TryBegin(rows, authId, area, EpochToIso(clock), STALE_REFRESH_SECS).0)
  {
    hide EpochToIso, ParseIso, InRange, TryBegin, AreaRows, RunningRows;
    var c, r := TryBeginShape(rows, authId, area, EpochToIso(clock), STALE_REFRESH_SECS);
    UpdateKeepsStamps(rows, c);
    ClockStringsParse(clock);
  }

  /** The rows of an area that start on a UTC day. */
  function StartedOnDay(rows: seq<JobRow>, area: string, day: int): set<int> {
    set k | 0 <= k < |rows| && rows[k].area == area && StartOr0(rows[k]) / 86_400 == day
  }

  lemma DaysAreDates(rows: seq<JobRow>, area: string, now: int)
    requires StampedByClock(rows) && InRange(now)
    ensures StartedOn(rows, area, DatePrefix(EpochToIso(now))) == StartedOnDay(rows, area, now / 86_400)
  {
    hide EpochToIso, ParseIso, DatePrefix, InRange;
    forall k | 0 <= k < |rows|
      ensures DatePrefix(rows[k].startedAt) == DatePrefix(EpochToIso(now))
         <==> StartOr0(rows[k]) / 86_400 == now / 86_400
    {
      DatePrefixIsDay(StartOr0(rows[k]), now);
    }
  }

  /**
    Over every run, whatever the limits and the clock: of an area, no UTC day sees more starts than the daily
    budget, and no two rows are running.
   */
  lemma {:induction false} RunsAreBudgeted(limits: LimitsByArea, es: seq<Event>, area: string, day: int, i: nat, j: nat)
    ensures var rows := Run(limits, es);
            && |StartedOnDay(rows, area, day)| <= limits(area).dailyBudget
            && (i < j < |rows| && rows[i].area == rows[j].area == area && rows[i].status.Running? ==>
                  !rows[j].status.Running?)
  {
    hide Run, EpochToIso, ParseIso, CountOnDate, DatePrefix, RunningRows, AreaRows;
    var rows := Run(limits, es);
    EveryRunIsLimited(limits, es, area);
    EveryRunIsStamped(limits, es);
    if k :| k in StartedOnDay(rows, area, day) {
      var now := StartOr0(rows[k]);
      DaysAreDates(rows, area, now);
      CountIsOfRows(rows, area, DatePrefix(EpochToIso(now)));
    } else {
      assert StartedOnDay(rows, area, day) == {};
    }
    if i < j < |rows| && rows[i].area == rows[j].area == area && rows[i].status.Running? && rows[j].status.Running? {
      PlaceHolds(rows, i);
      PlaceHolds(rows, j);
      PlacesAreOrdered(rows, i, j);
      TwoRunning(AreaRows(rows, area), Place(rows, i), Place(rows, j));
      assert false;
    }
  }

  /**
    With a positive cooldown, of any two rows of an area the later one starts later, by at least the cooldown
    or 901 s, the earlier one is finished, and the last one is the latest.
   */
  lemma {:induction false} RunsAreOrderedAndBudgeted(limits: LimitsByArea, es: seq<Event>,
                                                     area: string, day: int, i: nat, j: nat)
    ensures var rows := Run(limits, es);
            && |StartedOnDay(rows, area, day)| <= limits(area).dailyBudget
            && (i < j < |rows| && rows[i].area == rows[j].area == area ==>
                  && !(rows[i].status.Running? && rows[j].status.Running?)
                  && (limits(area).cooldown > 0 ==>
                        && Before(rows[i].startedAt, rows[j].startedAt)
                        && StartOr0(rows[j]) - StartOr0(rows[i])
                           >= (if limits(area).cooldown < 901 then limits(area).cooldown else 901)
                        && !rows[i].status.Running? && LatestJobRun(rows, area) != Some(rows[i])))
  {
    hide Run, EpochToIso, ParseIso, DatePrefix, RunningRows, AreaRows, LatestJobRun;
    var rows := Run(limits, es);
    RunsAreBudgeted(limits, es, area, day, i, j);
    if limits(area).cooldown > 0 && i < j < |rows| && rows[i].area == rows[j].area == area {
      PlaceHolds(rows, i);
      PlaceHolds(rows, j);
      PlacesAreOrdered(rows, i, j);
      RunsAreOrdered(limits, es, area, Place(rows, i), Place(rows, j));
      var a := AreaRows(rows, area);
      if Place(rows, j) < |a| - 1 {
        RunsAreOrdered(limits, es, area, Place(rows, i), |a| - 1);
      }
      BeforeIsStrict(rows[i].startedAt);
    }
  }

  /** The shipped limits, in numbers. */
  lemma {:induction false} ShippedLimitsHold(es: seq<Event>, area: string, day: int, i: nat, j: nat)
    ensures var rows := Run(DefaultLimits, es);
            var budget := if area in {"orders", "tax", "movements"} then 6 else 4;
            var gap := if area == "orders" then 600 else if area == "movements" then 900 else 901;
            && |StartedOnDay(rows, area, day)| <= budget
            && (i < j < |rows| && rows[i].area == rows[j].area == area ==> StartOr0(rows[j]) - StartOr0(rows[i]) >= gap)
  {
    hide Run, StartedOnDay, StartOr0;
    RunsAreOrderedAndBudgeted(DefaultLimits, es, area, day, i, j);
  }

  /* ---- the lock and the finish, on any store a run can reach ---- */

  /**
    Over every run, under any limits and any clock: a begin with no running row of its area appends one; over
    a running row it closes that row as failed and stale when it is over 900 s old, and appends one; otherwise
    it changes nothing and returns no id.
   */
  lemma {:induction false} BeginDecides(limits: LimitsByArea, es: seq<Event>,
                                        area: string, authId: string, now: int, j: nat)
    requires InRange(now)
    ensures var rows, nowIso := Run(limits, es), EpochToIso(now);
            var (rows', id) := TryBegin(rows, authId, area, nowIso, STALE_REFRESH_SECS);
            var begun := JobRow(|rows| + 1, authId, area, nowIso, None, Running, None);
            && ((forall k :: 0 <= k < |rows| && rows[k].area == area ==> !rows[k].status.Running?) ==>
                  rows' == rows + [begun] && id == Some(|rows| + 1))
            && (j < |rows| && rows[j].area == area && rows[j].status.Running? ==>
                  var closed := rows[j].(finishedAt := Some(nowIso), status := Status.Failed, code := Some("stale"));
                  if now - StartOr0(rows[j]) > 900 then
                    && rows' == rows[j := closed] + [begun]
                    && id == Some(|rows| + 1)
                  else rows' == rows && id == None)
  {
    hide *;
    var rows := Run(limits, es);
    RunKeepsIds(limits, es);
    RunIsStamped(limits, es, j);
    OneAtMost(limits, es, area);
    if forall k :: 0 <= k < |rows| && rows[k].area == area ==> !rows[k].status.Running? {
      NothingRuns(rows, area);
      BeginsFree(rows, area, authId, EpochToIso(now));
    }
    if j < |rows| && rows[j].area == area && rows[j].status.Running? {
      OneRuns(rows, area, j);
      BeginsBusy(rows, area, authId, now, j);
    }
  }

  lemma {:induction false} RunIsStamped(limits: LimitsByArea, es: seq<Event>, j: nat)
    ensures var rows := Run(limits, es);
            j < |rows| ==> InRange(StartOr0(rows[j])) && rows[j].startedAt == EpochToIso(StartOr0(rows[j]))
  {
    hide Run, EpochToIso, ParseIso;
    EveryRunIsStamped(limits, es);
  }

  lemma {:induction false} OneAtMost(limits: LimitsByArea, es: seq<Event>, area: string)
    ensures |RunningRows(AreaRows(Run(limits, es), area))| <= 1
  {
    hide Run, AreaRows, RunningRows;
    EveryRunIsLimited(limits, es, area);
  }

  lemma {:induction false} BeginsFree(rows: seq<JobRow>, area: string, authId: string, nowIso: string)
    requires RunningRows(AreaRows(rows, area)) == []
    ensures TryBegin(rows, authId, area, nowIso, STALE_REFRESH_SECS)
         == (rows + [JobRow(|rows| + 1, authId, area, nowIso, None, Running, None)], Some(|rows| + 1))
  {
    hide AreaRows, RunningRows, ReclaimStale;
  }

  lemma {:induction false} BeginsBusy(rows: seq<JobRow>, area: string, authId: string, now: int, j: nat)
    requires IdsOk(rows) && InRange(now) && j < |rows| && rows[j].area == area && rows[j].status.Running?
    requires RunningRows(AreaRows(rows, area)) == [rows[j]]
    requires InRange(StartOr0(rows[j])) && rows[j].startedAt == EpochToIso(StartOr0(rows[j]))
    ensures var nowIso := EpochToIso(now);
            var closed := rows[j].(finishedAt := Some(nowIso), status := Status.Failed, code := Some("stale"));
            TryBegin(rows, authId, area, nowIso, STALE_REFRESH_SECS)
            == if now - StartOr0(rows[j]) > 900
               then
                 (rows[j := closed] + [JobRow(|rows| + 1, authId, area, nowIso, None, Running, None)],
                  Some(|rows| + 1))
               else (rows, None)
  {
    hide EpochToIso, ParseIso, AreaRows, RunningRows, Update, Hits, IdsOk;
    var c := Change(rows[j].id, EpochToIso(now), Status.Failed, Some("stale"));
    ClockStringsParse(now);
    ClockStringsParse(StartOr0(rows[j]));
    ReclaimsAt(rows, c, j);
    NothingRunsElse(rows, c, area, j);
  }

  lemma {:induction false} AreaRowsAreRows(rows: seq<JobRow>, area: string)
    ensures forall r :: r in AreaRows(rows, area) ==> r in rows && r.area == area
  {
    if rows == [] {
    } else {
      AreaRowsAreRows(rows[..|rows| - 1], area);
    }
  }

  lemma {:induction false} NothingRuns(rows: seq<JobRow>, area: string)
    requires forall k :: 0 <= k < |rows| && rows[k].area == area ==> !rows[k].status.Running?
    ensures RunningRows(AreaRows(rows, area)) == []
  {
    AreaRowsAreRows(rows, area);
    TerminalOfTerminal(AreaRows(rows, area));
  }

  lemma {:induction false} OneRuns(rows: seq<JobRow>, area: string, j: nat)
    requires j < |rows| && rows[j].area == area && rows[j].status.Running? && |RunningRows(AreaRows(rows, area))| <= 1
    ensures RunningRows(AreaRows(rows, area)) == [rows[j]]
  {
    hide AreaRows, RunningRows;
    var a := AreaRows(rows, area);
    PlaceHolds(rows, j);
    SomeRunning(a, Place(rows, j));
    RunningAreRows(a);
    var r := RunningRows(a)[0];
    var p :| 0 <= p < |a| && a[p] == r;
    if p < Place(rows, j) {
      TwoRunning(a, p, Place(rows, j));
    } else if p > Place(rows, j) {
      TwoRunning(a, Place(rows, j), p);
    }
  }

  lemma ReclaimsAt(rows: seq<JobRow>, c: Change, j: nat)
    requires IdsOk(rows) && j < |rows| && rows[j].status.Running? && c.id == rows[j].id
    ensures Hits(rows, c)
    ensures Update(rows, c) == rows[j := rows[j].(finishedAt := Some(c.finishedAt), status := c.status, code := c.code)]
  {
  }

  lemma {:induction false} NothingRunsElse(rows: seq<JobRow>, c: Change, area: string, j: nat)
    requires IdsOk(rows) && j < |rows| && c.id == rows[j].id && !c.status.Running?
    requires RunningRows(AreaRows(rows, area)) == [rows[j]] && rows[j].area == area && rows[j].status.Running?
    ensures RunningRows(AreaRows(Update(rows, c), area)) == []
  {
    hide AreaRows, RunningRows;
    ReclaimsAt(rows, c, j);
    forall k | 0 <= k < |rows| && Update(rows, c)[k].area == area
      ensures !Update(rows, c)[k].status.Running?
    {
      if k != j && rows[k].status.Running? {
        PlaceHolds(rows, k);
        PlaceHolds(rows, j);
        if k < j {
          PlacesAreOrdered(rows, k, j);
          TwoRunning(AreaRows(rows, area), Place(rows, k), Place(rows, j));
        } else {
          PlacesAreOrdered(rows, j, k);
          TwoRunning(AreaRows(rows, area), Place(rows, j), Place(rows, k));
        }
      }
    }
    NothingRuns(Update(rows, c), area);
  }

  /* ---- what the pre-flight answers ---- */

  /** The last `n` of these rows failed with one of the two upstream codes. */
  predicate FailedUpstream(t: seq<JobRow>, n: nat) {
    && 0 < n <= |t|
    && forall k :: |t| - n <= k < |t| ==>
         t[k].status.Failed? && t[k].code in {Some("fineco_timeout"), Some("fineco_upstream_error")}
  }

  lemma {:induction false} TrippedIsFailedUpstream(t: seq<JobRow>, n: nat, cooldown: int, now: int)
    ensures Tripped(AttemptsOfRows(t), n, cooldown, now)
       <==> FailedUpstream(t, n) && now - StartOr0(t[|t| - 1]) < cooldown
  {
    hide StartOr0;
    var h := AttemptsOfRows(t);
    TrailingAreUpstream(h);
    assert forall k :: 0 <= k < |t| ==>
      (h[k].upstream <==>
         t[k].status.Failed? && t[k].code in {Some("fineco_timeout"), Some("fineco_upstream_error")});
    hide AttemptsOfRows, AttemptOfRow;
    if FailedUpstream(t, n) {
      UpstreamRunIsTrailing(h, n);
    }
  }

  /** The pre-flight's answer on an ordered area, clause by clause and in this order. */
  function Answer(rows: seq<JobRow>, area: string, l: Limits, now: int): Result<(), Code> {
    var a := AreaRows(rows, area);
    var t := if a != [] && a[|a| - 1].status.Running? then a[..|a| - 1] else a;
    if !InRange(now) then Err(Internal)
    else if a != [] && a[|a| - 1].status.Running? && now - StartOr0(a[|a| - 1]) <= 900 then Err(AlreadyRefreshing)
    else if a != [] && !a[|a| - 1].status.Running? && now - StartOr0(a[|a| - 1]) < l.cooldown then Err(RefreshCooldown)
    else if |StartedOnDay(rows, area, now / 86_400)| >= l.dailyBudget then Err(RefreshBudgetExhausted)
    else if FailedUpstream(t, l.failures) && now - StartOr0(t[|t| - 1]) < l.circuitCooldown then Err(RefreshCircuitOpen)
    else Ok(())
  }

  /** Over every run of an area with a positive cooldown the pre-flight gives exactly that answer. */
  lemma {:induction false} PreflightAnswers(limits: LimitsByArea, es: seq<Event>, area: string, now: int)
    requires limits(area).cooldown > 0
    ensures var rows := Run(limits, es);
            Preflight(rows, area, limits(area), EpochToIso(now)) == Answer(rows, area, limits(area), now)
  {
    hide Run, EpochToIso, ParseIso, AreaRows, AreaOk, CircuitIsOpen, CountOnDate, DatePrefix;
    hide LatestAllows, LatestJobRun, StartedOnDay, FailedUpstream, InRange, StartOr0;
    var rows, l := Run(limits, es), limits(area);
    EveryRunKeepsAreas(limits, es, area);
    EveryRunIsStamped(limits, es);
    ClockStringsParse(now);
    if InRange(now) {
      LatestAnswers(rows, area, l, now);
      CountIsOfRows(rows, area, DatePrefix(EpochToIso(now)));
      DaysAreDates(rows, area, now);
      CircuitAnswers(rows, area, l, now);
    }
  }

  lemma {:induction false} LatestAnswers(rows: seq<JobRow>, area: string, l: Limits, now: int)
    requires AreaOk(AreaRows(rows, area), l) && InRange(now) && l.cooldown > 0
    ensures var a := AreaRows(rows, area);
            LatestAllows(LatestJobRun(rows, area), l, now)
            == if a == [] then Ok(())
               else if a[|a| - 1].status.Running? then
                 (if now - StartOr0(a[|a| - 1]) <= 900 then Err(AlreadyRefreshing) else Ok(()))
               else if now - StartOr0(a[|a| - 1]) < l.cooldown then Err(RefreshCooldown) else Ok(())
  {
    hide EpochToIso, ParseIso, AreaRows, LatestJobRun, WithinBudget, Guarded;
    var a := AreaRows(rows, area);
    LatestIsLast(rows, area);
    if a != [] {
      ClockStringsParse(StartOr0(a[|a| - 1]));
    }
  }

  lemma {:induction false} CircuitAnswers(rows: seq<JobRow>, area: string, l: Limits, now: int)
    requires AreaOk(AreaRows(rows, area), l) && InRange(now)
    ensures var a := AreaRows(rows, area);
            var t := if a != [] && a[|a| - 1].status.Running? then a[..|a| - 1] else a;
            CircuitIsOpen(rows, area, l, now)
            <==> FailedUpstream(t, l.failures) && now - StartOr0(t[|t| - 1]) < l.circuitCooldown
  {
    hide EpochToIso, ParseIso, AreaRows, CircuitIsOpen, FailedUpstream, WithinBudget, Guarded, Tripped, AttemptsOfRows;
    var a := AreaRows(rows, area);
    CircuitIsTheBreaker(rows, area, l, now);
    TrippedIsFailedUpstream(Terminal(a), l.failures, l.circuitCooldown, now);
  }

  /** A stored time that cannot be read never lets a refresh through: it is an error, or it keeps the circuit open. */
  lemma UnreadableTimesStopTheRefresh(row: JobRow, recent: seq<JobRow>, l: Limits, now: int)
    ensures ParseIso(row.startedAt).None? ==> LatestAllows(Some(row), l, now) == Err(Internal)
    ensures 0 < l.failures == |recent| && FailedUpstream(recent, |recent|) && ParseIso(recent[0].startedAt).None? ==>
              OpenOn(recent, l, now)
  {
    hide ParseIso;
  }

  /* ---- finishing ---- */

  /** Over every run: a finish of a running row leaves exactly its status, time and code there, and nothing else. */
  lemma {:induction false} FinishStoresOutcome(limits: LimitsByArea, es: seq<Event>,
                                               i: nat, clock: int, completed: bool, code: Option<string>)
    ensures var rows := Run(limits, es);
            i < |rows| && rows[i].status.Running? ==>
              var status := if completed then Status.Completed else Status.Failed;
              var (rows', hit) := FinishJob(rows, Change(rows[i].id, EpochToIso(clock), status, code));
              && hit
              && rows' == rows[i := JobRow(i + 1, rows[i].authId, rows[i].area, rows[i].startedAt,
                                           Some(EpochToIso(clock)), status, code)]
              && rows' == Run(limits, es + [Finish(i + 1, clock, completed, code)])
  {
    hide EpochToIso, AreaRows, RunningRows, Preflight, TryBegin;
    RunKeepsIds(limits, es);
    var rows, e := Run(limits, es), Finish(i + 1, clock, completed, code);
    assert (es + [e])[..|es|] == es;
    if i < |rows| && rows[i].status.Running? {
      var status := if completed then Status.Completed else Status.Failed;
      ReclaimsAt(rows, Change(rows[i].id, EpochToIso(clock), status, code), i);
    }
  }
}
