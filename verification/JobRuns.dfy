/**
  The `job_runs` table: a growing sequence of rows, inserted with status running and later updated in
  place. The partial unique index refuses a second running row for one data area.
 */
module JobRuns {
  import opened Prelude
  import opened Text
  import opened Timestamps

  datatype Status = Running | Completed | Failed

  datatype JobRow = JobRow(
    id: int,
    authId: string,
    area: string,
    startedAt: string,
    finishedAt: Option<string>,
    status: Status,
    code: Option<string>)

  /** An update of the row with this id, applied only while it is running. */
  datatype Change = Change(id: int, finishedAt: string, status: Status, code: Option<string>)

  function ApplyTo(r: JobRow, c: Change): JobRow {
    if r.id == c.id && r.status.Running? then r.(finishedAt := Some(c.finishedAt), status := c.status, code := c.code)
    else r
  }

  function Update(rows: seq<JobRow>, c: Change): (updated: seq<JobRow>)
    ensures |updated| == |rows|
    ensures forall i :: 0 <= i < |rows| ==> updated[i] == ApplyTo(rows[i], c)
  {
    seq(|rows|, i requires 0 <= i < |rows| => ApplyTo(rows[i], c))
  }

  predicate Hits(rows: seq<JobRow>, c: Change) {
    exists i :: 0 <= i < |rows| && rows[i].id == c.id && rows[i].status.Running?
  }

  /** The rows of one data area, oldest insertion first. */
  function AreaRows(rows: seq<JobRow>, area: string): seq<JobRow> {
    if rows == [] then []
    else
      var last := rows[|rows| - 1];
      AreaRows(rows[..|rows| - 1], area) + if last.area == area then [last] else []
  }

  function RunningRows(rows: seq<JobRow>): seq<JobRow> {
    if rows == [] then []
    else
      var last := rows[|rows| - 1];
      RunningRows(rows[..|rows| - 1]) + if last.status.Running? then [last] else []
  }

  function TerminalRows(rows: seq<JobRow>): seq<JobRow> {
    if rows == [] then []
    else
      var last := rows[|rows| - 1];
      TerminalRows(rows[..|rows| - 1]) + if last.status.Running? then [] else [last]
  }

  /** `ORDER BY started_at DESC, id DESC`: does `a` come before `b`? */
  predicate Newer(a: JobRow, b: JobRow) {
    Before(b.startedAt, a.startedAt) || (a.startedAt == b.startedAt && a.id > b.id)
  }

  function InsertByAge(r: JobRow, sorted: seq<JobRow>): seq<JobRow> {
    if sorted == [] || Newer(r, sorted[0]) then [r] + sorted
    else [sorted[0]] + InsertByAge(r, sorted[1..])
  }

  function NewestFirst(rows: seq<JobRow>): seq<JobRow> {
    if rows == [] then [] else InsertByAge(rows[|rows| - 1], NewestFirst(rows[..|rows| - 1]))
  }

  /** `b` may stand after `a`: it started earlier, or at the same time under no larger id. */
  predicate NotNewer(b: JobRow, a: JobRow) {
    Before(b.startedAt, a.startedAt) || (b.startedAt == a.startedAt && b.id <= a.id)
  }

  predicate SortedByAge(rows: seq<JobRow>) {
    forall i, j :: 0 <= i < j < |rows| ==> NotNewer(rows[j], rows[i])
  }

  lemma AgeOrder(a: JobRow, b: JobRow, c: JobRow)
    ensures Newer(a, b) || NotNewer(a, b)
    ensures Newer(a, b) ==> NotNewer(b, a)
    ensures NotNewer(b, a) && NotNewer(c, b) ==> NotNewer(c, a)
  {
    hide Before;
    BeforeIsTotal(a.startedAt, b.startedAt);
    if Before(b.startedAt, a.startedAt) && Before(c.startedAt, b.startedAt) {
      BeforeIsTransitive(c.startedAt, b.startedAt, a.startedAt);
    }
  }

  lemma {:induction false} InsertionSorts(r: JobRow, sorted: seq<JobRow>)
    requires SortedByAge(sorted)
    ensures SortedByAge(InsertByAge(r, sorted)) && multiset(InsertByAge(r, sorted)) == multiset(sorted) + multiset{r}
  {
    hide Newer, NotNewer, SortedByAge;
    if sorted == [] {
      NothingLater();
      FrontSorted(r, []);
    } else {
      var first, others := sorted[0], sorted[1..];
      assert sorted == [first] + others;
      AgeOrder(r, first, first);
      TailSorted(sorted);
      if Newer(r, first) {
        forall x | x in sorted
          ensures NotNewer(x, r)
        {
          AgeOrder(r, first, x);
        }
        FrontSorted(r, sorted);
      } else {
        InsertionSorts(r, others);
        var later := InsertByAge(r, others);
        forall x | x in later
          ensures NotNewer(x, first)
        {
          assert x in multiset(later);
        }
        FrontSorted(first, later);
      }
    }
  }

  lemma NothingLater()
    ensures SortedByAge([])
  {
  }

  lemma TailSorted(sorted: seq<JobRow>)
    requires SortedByAge(sorted) && sorted != []
    ensures SortedByAge(sorted[1..]) && forall x :: x in sorted[1..] ==> NotNewer(x, sorted[0])
  {
    hide NotNewer;
    assert forall j :: 0 <= j < |sorted[1..]| ==> sorted[1..][j] == sorted[j + 1];
  }

  lemma FrontSorted(r: JobRow, sorted: seq<JobRow>)
    requires SortedByAge(sorted) && forall x :: x in sorted ==> NotNewer(x, r)
    ensures SortedByAge([r] + sorted)
  {
    hide NotNewer;
  }

  /** The query's order is what it says: all rows, latest start first, the larger id first among equal starts. */
  lemma {:induction false} NewestFirstSorts(rows: seq<JobRow>)
    ensures SortedByAge(NewestFirst(rows)) && multiset(NewestFirst(rows)) == multiset(rows)
  {
    hide NotNewer, InsertByAge;
    if rows == [] {
    } else {
      var front, last := rows[..|rows| - 1], rows[|rows| - 1];
      NewestFirstSorts(front);
      InsertionSorts(last, NewestFirst(front));
      assert rows == front + [last];
    }
  }

  /* ---- queries ---- */

  function LatestJobRun(rows: seq<JobRow>, area: string): Option<JobRow> {
    var sorted := NewestFirst(AreaRows(rows, area));
    if sorted == [] then None else Some(sorted[0])
  }

  function RecentJobOutcomes(rows: seq<JobRow>, area: string, limit: nat): seq<JobRow> {
    var sorted := NewestFirst(TerminalRows(AreaRows(rows, area)));
    if |sorted| <= limit then sorted else sorted[..limit]
  }

  /** `substr(started_at, 1, 10)`. */
  function DatePrefix(s: string): string {
    if |s| < 10 then s else s[..10]
  }

  function CountOnDate(rows: seq<JobRow>, date: string): nat {
    if rows == [] then 0
    else CountOnDate(rows[..|rows| - 1], date) + if DatePrefix(rows[|rows| - 1].startedAt) == date then 1 else 0
  }

  /* ---- the lock ---- */

  function InsertRunning(rows: seq<JobRow>, authId: string, area: string, startedAt: string)
    : (seq<JobRow>, Option<int>)
  {
    if RunningRows(AreaRows(rows, area)) != [] then (rows, None)
    else
      var id := |rows| + 1;
      (rows + [JobRow(id, authId, area, startedAt, None, Running, None)], Some(id))
  }

  function ReclaimStale(rows: seq<JobRow>, area: string, nowIso: string, staleAfter: int): (seq<JobRow>, bool) {
    var running := RunningRows(AreaRows(rows, area));
    if running == [] then (rows, false)
    else
      var job := running[|running| - 1];
      match (ParseIso(nowIso), ParseIso(job.startedAt))
      case (Some(now), Some(then_)) =>
        if SatSub(now, then_) <= staleAfter then (rows, false)
        else
          var c := Change(job.id, nowIso, Failed, Some("stale"));
          (Update(rows, c), Hits(rows, c))
      case _ => (rows, false)
  }

  function TryBegin(rows: seq<JobRow>, authId: string, area: string, startedAt: string, staleAfter: int)
    : (seq<JobRow>, Option<int>)
  {
    var (rows1, id) := InsertRunning(rows, authId, area, startedAt);
    if id.Some? then (rows1, id)
    else
      var (rows2, reclaimed) := ReclaimStale(rows1, area, startedAt, staleAfter);
      if reclaimed then InsertRunning(rows2, authId, area, startedAt) else (rows2, None)
  }

  function FinishJob(rows: seq<JobRow>, c: Change): (seq<JobRow>, bool) {
    (Update(rows, c), Hits(rows, c))
  }

  /* ---- the store as it is written ---- */

  class JobStore {
    var rows: seq<JobRow>

    constructor ()
      ensures rows == []
    {
      rows := [];
    }

    method InsertRunningJob(authId: string, area: string, startedAt: string) returns (id: Option<int>)
      modifies this
      ensures (rows, id) == InsertRunning(old(rows), authId, area, startedAt)
    {
      if RunningRows(AreaRows(rows, area)) != [] {
        return None;
      }
      id := Some(|rows| + 1);
      rows := rows + [JobRow(|rows| + 1, authId, area, startedAt, None, Running, None)];
    }

    method ReclaimStaleRunning(area: string, nowIso: string, staleAfter: int) returns (reclaimed: bool)
      modifies this
      ensures (rows, reclaimed) == ReclaimStale(old(rows), area, nowIso, staleAfter)
    {
      var running := RunningRows(AreaRows(rows, area));
      if running == [] {
        return false;
      }
      var job := running[|running| - 1];
      var now, started := ParseIso(nowIso), ParseIso(job.startedAt);
      if now.None? || started.None? {
        return false;
      }
      if SatSub(now.value, started.value) <= staleAfter {
        return false;
      }
      reclaimed := UpdateRunning(Change(job.id, nowIso, Failed, Some("stale")));
    }

    /** `UPDATE … WHERE id = ? AND status = 'running'`; says whether a row was changed. */
    method UpdateRunning(c: Change) returns (updated: bool)
      modifies this
      ensures rows == Update(old(rows), c) && updated == Hits(old(rows), c)
    {
      updated := Hits(rows, c);
      rows := Update(rows, c);
    }

    method TryBeginJob(authId: string, area: string, startedAt: string, staleAfter: int) returns (id: Option<int>)
      modifies this
      ensures (rows, id) == TryBegin(old(rows), authId, area, startedAt, staleAfter)
    {
      id := InsertRunningJob(authId, area, startedAt);
      if id.Some? {
        return;
      }
      var reclaimed := ReclaimStaleRunning(area, startedAt, staleAfter);
      if reclaimed {
        id := InsertRunningJob(authId, area, startedAt);
      }
    }

    method RecordJobFinish(id: int, finishedAt: string, status: Status, code: Option<string>) returns (updated: bool)
      modifies this
      ensures (rows, updated) == FinishJob(old(rows), Change(id, finishedAt, status, code))
    {
      updated := UpdateRunning(Change(id, finishedAt, status, code));
    }
  }
}
