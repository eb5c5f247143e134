/**
  The proleptic Gregorian day count of fineco-core and the second copy the worker keeps.
  The reference is independent of both: `NextDay` walks the calendar one day at a time.
 */
module Calendar {
  import opened Prelude

  datatype Date = Date(year: int, month: int, day: int)

  // `year % 4 == 0` does not depend on which sign convention `%` follows.
  predicate IsLeap(year: int) {
    (year % 4 == 0 && year % 100 != 0) || year % 400 == 0
  }

  function DaysInMonth(year: int, month: int): int {
    if month in {1, 3, 5, 7, 8, 10, 12} then 31
    else if month in {4, 6, 9, 11} then 30
    else if month == 2 then (if IsLeap(year) then 29 else 28)
    else 0
  }

  predicate ValidDate(c: Date) {
    1 <= c.month <= 12 && 1 <= c.day <= DaysInMonth(c.year, c.month)
  }

  function DaysFromCivil(c: Date): int {
    var year := if c.month <= 2 then c.year - 1 else c.year;
    var era := TruncDiv(if year >= 0 then year else year - 399, 400);
    var yearOfEra := year - era * 400;
    var monthIndex := if c.month > 2 then c.month - 3 else c.month + 9;
    var dayOfYear := TruncDiv(153 * monthIndex + 2, 5) + c.day - 1;
    var dayOfEra := yearOfEra * 365 + TruncDiv(yearOfEra, 4) - TruncDiv(yearOfEra, 100) + dayOfYear;
    era * 146_097 + dayOfEra - 719_468
  }

  function CivilFromDays(days: int): Date {
    var z := days + 719_468;
    var era := TruncDiv(if z >= 0 then z else z - 146_096, 146_097);
    CivilFromDayOfEra(era, z - era * 146_097)
  }

  function CivilFromDayOfEra(era: int, dayOfEra: int): Date {
    var yearOfEra := TruncDiv(
      dayOfEra - TruncDiv(dayOfEra, 1_460) + TruncDiv(dayOfEra, 36_524) - TruncDiv(dayOfEra, 146_096), 365);
    CivilFromDayOfYear(
      yearOfEra + era * 400,
      dayOfEra - (365 * yearOfEra + TruncDiv(yearOfEra, 4) - TruncDiv(yearOfEra, 100)))
  }

  /** The month and day of a day counted from 1 March of `year`. */
  function CivilFromDayOfYear(year: int, dayOfYear: int): Date {
    var monthIndex := TruncDiv(5 * dayOfYear + 2, 153);
    var day := dayOfYear - TruncDiv(153 * monthIndex + 2, 5) + 1;
    var month := if monthIndex < 10 then monthIndex + 3 else monthIndex - 9;
    Date(if month <= 2 then year + 1 else year, month, day)
  }

  /** The calendar, one day at a time: the reference both conversions are judged against. */
  function NextDay(c: Date): Date {
    if c.day < DaysInMonth(c.year, c.month) then c.(day := c.day + 1)
    else if c.month < 12 then Date(c.year, c.month + 1, 1)
    else Date(c.year + 1, 1, 1)
  }

  predicate Earlier(a: Date, b: Date) {
    a.year < b.year || (a.year == b.year && (a.month < b.month || (a.month == b.month && a.day < b.day)))
  }

  /* ---- the March-based year both formulas are built on ---- */

  /** Days before 1 March of `y`, counted from 1 March of year 0; `/` rounds down. */
  function YearStart(y: int): int {
    365 * y + y / 4 - y / 100 + y / 400
  }

  function MarchYear(c: Date): int {
    if c.month <= 2 then c.year - 1 else c.year
  }

  function MonthIndex(month: int): int {
    if month > 2 then month - 3 else month + 9
  }

  function MonthStart(monthIndex: int): int {
    (153 * monthIndex + 2) / 5
  }

  function DayOfYear(c: Date): int {
    MonthStart(MonthIndex(c.month)) + c.day - 1
  }

  /** A quotient is pinned down by its two bounds; keeps the solver away from `/`. */
  lemma DivIs(x: int, n: int, q: int)
    requires n > 0 && q * n <= x < q * n + n
    ensures x / n == q
  {
    var p := x / n;
    assert p * n <= x < p * n + n;
    assert (p - q) * n == p * n - q * n;
    if p > q {
      MulAtLeast(p - q, n);
    } else if p < q {
      MulAtLeast(q - p, n);
    }
  }

  lemma MulAtLeast(k: int, n: int)
    requires k >= 1 && n > 0
    ensures k * n >= n
  {
  }

  /** The adjusted truncating quotient the code takes is the quotient rounded down. */
  lemma EraIsFloor(y: int, n: int)
    requires n > 0
    ensures TruncDiv(if y >= 0 then y else y - (n - 1), n) == y / n
  {
    if y < 0 {
      var q := y / n;
      assert q * n <= y < q * n + n;
      assert (-q) * n == -(q * n);
      DivIs(n - 1 - y, n, -q);
    }
  }

  lemma YearStartByEra(era: int, r: int)
    requires 0 <= r < 400
    ensures YearStart(era * 400 + r) == era * 146_097 + 365 * r + r / 4 - r / 100
  {
    var y := era * 400 + r;
    var q, c := r / 4, r / 100;
    DivIs(y, 4, era * 100 + q);
    DivIs(y, 100, era * 4 + c);
    DivIs(y, 400, era);
  }

  lemma DaysFromCivilClosed(c: Date)
    requires 1 <= c.month <= 12
    ensures DaysFromCivil(c) == YearStart(MarchYear(c)) + DayOfYear(c) - 719_468
  {
    var y := MarchYear(c);
    EraIsFloor(y, 400);
    var era := y / 400;
    YearStartByEra(era, y - era * 400);
  }

  lemma YearLength(y: int)
    ensures YearStart(y + 1) - YearStart(y) == if IsLeap(y + 1) then 366 else 365
  {
    StepDiv(y, 4);
    StepDiv(y, 100);
    StepDiv(y, 400);
    var c, e := (y + 1) / 100, (y + 1) / 400;
    if (y + 1) % 100 == 0 {
      DivIs(y + 1, 4, c * 25);
    }
    if (y + 1) % 400 == 0 {
      DivIs(y + 1, 100, e * 4);
    }
  }

  lemma StepDiv(y: int, n: int)
    requires n > 1
    ensures (y + 1) / n == y / n + if (y + 1) % n == 0 then 1 else 0
  {
    var q := (y + 1) / n;
    assert y + 1 == q * n + (y + 1) % n;
    if (y + 1) % n == 0 {
      assert (q - 1) * n == q * n - n;
      DivIs(y, n, q - 1);
    } else {
      DivIs(y, n, q);
    }
  }

  /** Every valid date lies inside its March-based year. */
  lemma DayOfYearFits(c: Date)
    requires ValidDate(c)
    ensures 0 <= DayOfYear(c) < YearStart(MarchYear(c) + 1) - YearStart(MarchYear(c))
  {
    YearLength(MarchYear(c));
  }

  lemma {:induction false} YearStartGrows(a: int, b: int)
    requires a < b
    ensures YearStart(a + 1) <= YearStart(b)
    decreases b - a
  {
    if a + 1 == b {
    } else {
      YearStartGrows(a, b - 1);
      YearLength(b - 1);
    }
  }

  lemma DayOfYearOrder(a: Date, b: Date)
    requires ValidDate(a) && ValidDate(b) && MarchYear(a) == MarchYear(b)
    ensures Earlier(a, b) <==> DayOfYear(a) < DayOfYear(b)
  {
    MonthStarts();
  }

  lemma MonthStarts()
    ensures MonthStart(0) == 0 && MonthStart(1) == 31 && MonthStart(2) == 61 && MonthStart(3) == 92
    ensures MonthStart(4) == 122 && MonthStart(5) == 153 && MonthStart(6) == 184 && MonthStart(7) == 214
    ensures MonthStart(8) == 245 && MonthStart(9) == 275 && MonthStart(10) == 306 && MonthStart(11) == 337
  {
  }

  lemma MarchYearOrder(a: Date, b: Date)
    requires ValidDate(a) && ValidDate(b) && MarchYear(a) < MarchYear(b)
    ensures Earlier(a, b) && !Earlier(b, a)
  {
  }

  /** The day count orders dates exactly as the calendar does, for every year. */
  lemma DayCountOrdersDates(a: Date, b: Date)
    requires ValidDate(a) && ValidDate(b)
    ensures Earlier(a, b) <==> DaysFromCivil(a) < DaysFromCivil(b)
  {
    hide DaysFromCivil, YearStart, DayOfYear, Earlier, MarchYear, DaysInMonth;
    DaysFromCivilClosed(a);
    DaysFromCivilClosed(b);
    DayOfYearFits(a);
    DayOfYearFits(b);
    if MarchYear(a) < MarchYear(b) {
      YearStartGrows(MarchYear(a), MarchYear(b));
      MarchYearOrder(a, b);
    } else if MarchYear(b) < MarchYear(a) {
      YearStartGrows(MarchYear(b), MarchYear(a));
      MarchYearOrder(b, a);
    } else {
      DayOfYearOrder(a, b);
    }
  }

  /* ---- from day counts back to dates ---- */

  /** The year formula of `CivilFromDays`, as a function of the day within the 400-year era. */
  function YearOfEra(dayOfEra: int): int {
    (dayOfEra - dayOfEra / 1_460 + dayOfEra / 36_524 - dayOfEra / 146_096) / 365
  }

  lemma YearOfEraBrackets(d: int)
    requires 0 <= d < 146_097
    ensures 0 <= YearOfEra(d) < 400
    ensures YearStart(YearOfEra(d)) <= d < YearStart(YearOfEra(d) + 1)
  {
    if d == 146_096 {
      LastDayOfEra();
    } else {
      hide *;
      var c, q, d2, k := EraDigits(d);
      YearOfEraDigits(d, c, q, d2, k);
      YearStartDigits(c, q, k);
      NextYearStartDigits(c, q, k);
    }
  }

  lemma LastDayOfEra()
    ensures YearOfEra(146_096) == 399
    ensures YearStart(399) <= 146_096 < YearStart(400)
  {
  }

  lemma EraDigits(d: int) returns (c: int, q: int, d2: int, k: int)
    requires 0 <= d < 146_096
    ensures 0 <= c <= 3 && 0 <= q <= 24 && 0 <= d2 <= 1_460
    ensures d == 36_524 * c + 1_461 * q + d2 && 1_461 * q + d2 < 36_524
    ensures 0 <= k <= 3 && 365 * k <= d2 && (k < 3 ==> d2 < 365 * k + 365)
  {
    c := d / 36_524;
    var d1 := d - 36_524 * c;
    q := d1 / 1_461;
    d2 := d1 - 1_461 * q;
    k := if d2 < 365 then 0 else if d2 < 730 then 1 else if d2 < 1_095 then 2 else 3;
  }

  /** `c` centuries, `q` four-year cycles, `k` years and the remaining days name the year. */
  lemma YearOfEraDigits(d: int, c: int, q: int, d2: int, k: int)
    requires 0 <= c <= 3 && 0 <= q <= 24 && 0 <= d2 <= 1_460 && 1_461 * q + d2 <= 36_524
    requires d == 36_524 * c + 1_461 * q + d2 && d < 36_524 * (c + 1)
    requires 0 <= k <= 3 && 365 * k <= d2 && (k < 3 ==> d2 < 365 * k + 365)
    ensures YearOfEra(d) == 100 * c + 4 * q + k
  {
    var t := if 24 * c + q + d2 >= 1_460 then 1 else 0;
    DivIs(d, 1_460, 25 * c + q + t);
    DivIs(d, 36_524, c);
    DivIs(d, 146_096, 0);
    DivIs(d - (25 * c + q + t) + c, 365, 100 * c + 4 * q + k);
  }

  lemma YearStartDigits(c: int, q: int, k: int)
    requires 0 <= c <= 3 && 0 <= q <= 24 && 0 <= k <= 3
    ensures YearStart(100 * c + 4 * q + k) == 36_524 * c + 1_461 * q + 365 * k
  {
    var y := 100 * c + 4 * q + k;
    DivIs(y, 4, 25 * c + q);
    DivIs(y, 100, c);
    DivIs(y, 400, 0);
  }

  lemma NextYearStartDigits(c: int, q: int, k: int)
    requires 0 <= c <= 3 && 0 <= q <= 24 && 0 <= k <= 3
    ensures YearStart(100 * c + 4 * q + k + 1)
         == 36_524 * c + 1_461 * q + 365 * (k + 1) + if k == 3 && (q < 24 || c == 3) then 1 else 0
  {
    if k < 3 {
      YearStartDigits(c, q, k + 1);
    } else if q < 24 {
      YearStartDigits(c, q + 1, 0);
    } else if c < 3 {
      YearStartDigits(c + 1, 0, 0);
    }
  }

  lemma MonthOfDay(doy: int)
    requires 0 <= doy < 366
    ensures 0 <= (5 * doy + 2) / 153 <= 11
    ensures MonthStart((5 * doy + 2) / 153) <= doy
    ensures (5 * doy + 2) / 153 < 11 ==> doy < MonthStart((5 * doy + 2) / 153 + 1)
  {
    MonthStarts();
    var m := (5 * doy + 2) / 153;
    assert 153 * m <= 5 * doy + 2 < 153 * m + 153;
    assert 5 * MonthStart(m) <= 153 * m + 2 < 5 * MonthStart(m) + 5;
    assert 5 * MonthStart(m + 1) <= 153 * m + 155 < 5 * MonthStart(m + 1) + 5;
  }

  /** Every day count is the day count of the date it is converted to, and that date exists. */
  lemma DaysRoundTrip(days: int)
    ensures ValidDate(CivilFromDays(days))
    ensures DaysFromCivil(CivilFromDays(days)) == days
  {
    hide *;
    var era := (days + 719_468) / 146_097;
    var d := days + 719_468 - era * 146_097;
    var r := YearOfEra(d);
    var doy := d - YearStart(r);
    var y, m := r + era * 400, (5 * doy + 2) / 153;
    YearOfEraBrackets(d);
    YearStartByEra(0, r);
    YearLengthByEra(era, r);
    YearLength(y);
    CivilFromDaysClosed(days, era, d, r, doy);
    MonthOfDay(doy);
    var c := CivilFromDays(days);
    MonthLengths(c, m, doy);
    DaysFromCivilClosed(c);
    YearStartByEra(era, r);
    assert MarchYear(c) == y && DayOfYear(c) == doy by { MonthPlace(c, m, y, doy); }
  }

  lemma CivilFromDaysClosed(days: int, era: int, d: int, r: int, doy: int)
    requires era == (days + 719_468) / 146_097 && d == days + 719_468 - era * 146_097
    requires 0 <= d < 146_097 && r == YearOfEra(d) && 0 <= r < 400
    requires doy == d - (365 * r + r / 4 - r / 100) && 0 <= doy < 366
    ensures var m := (5 * doy + 2) / 153;
            CivilFromDays(days) == Date(if m < 10 then r + era * 400 else r + era * 400 + 1,
                                        if m < 10 then m + 3 else m - 9, doy - MonthStart(m) + 1)
  {
    hide YearOfEra, CivilFromDayOfYear, CivilFromDays, MonthStart;
    CivilFromDaysOpened(days, era, d);
    YearOfEraTruncates(d);
    MonthAndDay(r + era * 400, doy);
  }

  lemma CivilFromDaysOpened(days: int, era: int, d: int)
    requires era == (days + 719_468) / 146_097 && d == days + 719_468 - era * 146_097
    ensures CivilFromDays(days) == CivilFromDayOfEra(era, d)
  {
    hide CivilFromDayOfEra;
    EraIsFloor(days + 719_468, 146_097);
    hide TruncDiv;
  }

  lemma MonthAndDay(year: int, doy: int)
    requires 0 <= doy < 366
    ensures var m := (5 * doy + 2) / 153;
            CivilFromDayOfYear(year, doy) == Date(if m < 10 then year else year + 1,
                                                  if m < 10 then m + 3 else m - 9, doy - MonthStart(m) + 1)
  {
    var m := (5 * doy + 2) / 153;
    assert m >= 0;
  }

  lemma YearOfEraTruncates(d: int)
    requires 0 <= d < 146_097
    ensures TruncDiv(d - TruncDiv(d, 1_460) + TruncDiv(d, 36_524) - TruncDiv(d, 146_096), 365) == YearOfEra(d)
  {
    assert d - d / 1_460 + d / 36_524 - d / 146_096 >= 0;
  }

  lemma MonthPlace(c: Date, m: int, y: int, doy: int)
    requires 0 <= m <= 11
    requires c == Date(if m < 10 then y else y + 1, if m < 10 then m + 3 else m - 9, doy - MonthStart(m) + 1)
    ensures MarchYear(c) == y && DayOfYear(c) == doy
  {
  }

  lemma YearLengthByEra(era: int, r: int)
    requires 0 <= r < 400
    ensures YearStart(era * 400 + r + 1) - YearStart(era * 400 + r) == YearStart(r + 1) - YearStart(r)
  {
    YearStartByEra(era, r);
    YearStartByEra(0, r);
    if r < 399 {
      YearStartByEra(era, r + 1);
      YearStartByEra(0, r + 1);
    } else {
      YearStartByEra(era + 1, 0);
    }
  }

  lemma MonthLengths(c: Date, m: int, doy: int)
    requires 0 <= m <= 11 && c.month == (if m < 10 then m + 3 else m - 9)
    requires c.day == doy - MonthStart(m) + 1
    requires MonthStart(m) <= doy && (m < 11 ==> doy < MonthStart(m + 1))
    requires m == 11 ==> doy < if IsLeap(c.year) then 366 else 365
    ensures ValidDate(c)
  {
    MonthStarts();
  }

  /** Every valid date, in any year, comes back from its day count. */
  lemma DateRoundTrip(c: Date)
    requires ValidDate(c)
    ensures CivilFromDays(DaysFromCivil(c)) == c
  {
    var b := CivilFromDays(DaysFromCivil(c));
    DaysRoundTrip(DaysFromCivil(c));
    DayCountOrdersDates(b, c);
    DayCountOrdersDates(c, b);
  }

  lemma NextDayCounts(c: Date)
    requires ValidDate(c)
    ensures ValidDate(NextDay(c)) && DaysFromCivil(NextDay(c)) == DaysFromCivil(c) + 1
  {
    hide DaysFromCivil, YearStart;
    NextDayIsValid(c);
    var n := NextDay(c);
    DaysFromCivilClosed(c);
    DaysFromCivilClosed(n);
    YearLength(MarchYear(c));
    NextDayOfYear(c);
  }

  lemma NextDayIsValid(c: Date)
    requires ValidDate(c)
    ensures ValidDate(NextDay(c))
  {
  }

  /** The next day is the next of the March-based year, or the first of the following one. */
  lemma NextDayOfYear(c: Date)
    requires ValidDate(c)
    ensures var n := NextDay(c);
            (MarchYear(n) == MarchYear(c) && DayOfYear(n) == DayOfYear(c) + 1)
            || (MarchYear(n) == MarchYear(c) + 1 && DayOfYear(n) == 0
                && DayOfYear(c) == if IsLeap(MarchYear(c) + 1) then 365 else 364)
  {
    hide IsLeap;
    MonthStarts();
  }

  /** One more day is the next calendar day: leap years, month ends and year ends included. */
  lemma NextDayCount(days: int)
    ensures CivilFromDays(days + 1) == NextDay(CivilFromDays(days))
  {
    hide *;
    var c := CivilFromDays(days);
    DaysRoundTrip(days);
    NextDayCounts(c);
    DateRoundTrip(NextDay(c));
  }

  lemma EpochIsDayZero()
    ensures CivilFromDays(0) == Date(1970, 1, 1)
  {
  }

  /* ---- the worker's own copy, behind its range check ---- */

  function CheckedI64(x: int): Option<int> {
    if I64_MIN <= x <= I64_MAX then Some(x) else None
  }

  function WorkerDaysFromCivil(c: Date): Option<int> {
    var year := c.year - (if c.month <= 2 then 1 else 0);
    var era := TruncDiv(if year >= 0 then year else year - 399, 400);
    var yearOfEra := year - era * 400;
    var dayOfYear := TruncDiv(153 * (c.month + (if c.month > 2 then -3 else 9)) + 2, 5) + c.day - 1;
    var dayOfEra := yearOfEra * 365 + TruncDiv(yearOfEra, 4) - TruncDiv(yearOfEra, 100) + dayOfYear;
    CheckedDays(era, dayOfEra)
  }

  function CheckedDays(era: int, dayOfEra: int): Option<int> {
    match CheckedI64(era * 146_097)
    case None => None
    case Some(eraDays) =>
      match CheckedI64(eraDays + dayOfEra)
      case None => None
      case Some(shifted) => CheckedI64(shifted - 719_468)
  }

  predicate IsU32(x: int) {
    0 <= x < 0x1_0000_0000
  }

  /** A cookie expiry as epoch seconds, or None for a date the worker refuses. */
  function UnixSecsFromYmdhms(c: Date, hour: int, minute: int, second: int): Option<int> {
    if !(1970 <= c.year <= 9999) || !(1 <= c.month <= 12) then None
    else if c.day == 0 || c.day > DaysInMonth(c.year, c.month) then None
    else
      match WorkerDaysFromCivil(c)
      case None => None
      case Some(days) =>
        match CheckedI64(days * 86_400)
        case None => None
        case Some(midnight) =>
          match CheckedI64(midnight + (hour * 3_600 + minute * 60 + second))
          case None => None
          case Some(seconds) => if seconds < 0 then None else Some(seconds)
  }

  lemma DayCountBounds(c: Date)
    requires ValidDate(c) && 1970 <= c.year <= 9999
    ensures 0 <= DaysFromCivil(c) <= 2_932_896
  {
    assert DaysFromCivil(Date(1970, 1, 1)) == 0;
    assert DaysFromCivil(Date(9999, 12, 31)) == 2_932_896;
    hide DaysFromCivil;
    DayCountOrdersDates(c, Date(1970, 1, 1));
    DayCountOrdersDates(Date(9999, 12, 31), c);
  }

  /** The two copies agree wherever the worker accepts, and it accepts exactly the real dates of 1970..9999. */
  lemma WorkerCopyAgrees(c: Date, hour: int, minute: int, second: int)
    requires IsU32(c.month) && IsU32(c.day) && IsU32(hour) && IsU32(minute) && IsU32(second)
    ensures UnixSecsFromYmdhms(c, hour, minute, second)
         == if ValidDate(c) && 1970 <= c.year <= 9999
            then Some(DaysFromCivil(c) * 86_400 + hour * 3_600 + minute * 60 + second)
            else None
  {
    if ValidDate(c) && 1970 <= c.year <= 9999 {
      DayCountBounds(c);
      WorkerDaysAgree(c);
    }
  }

  lemma WorkerDaysAgree(c: Date)
    requires ValidDate(c) && 1970 <= c.year <= 9999
    ensures WorkerDaysFromCivil(c) == Some(DaysFromCivil(c))
  {
    hide TruncDiv, CheckedDays, DaysInMonth;
    var y := MarchYear(c);
    var era := TruncDiv(y, 400);
    var r := y - era * 400;
    var doy := TruncDiv(153 * MonthIndex(c.month) + 2, 5) + c.day - 1;
    var doe := r * 365 + TruncDiv(r, 4) - TruncDiv(r, 100) + doy;
    assert DaysFromCivil(c) == era * 146_097 + doe - 719_468;
    assert WorkerDaysFromCivil(c) == CheckedDays(era, doe);
    DayOfEraBounds(y, c.month, c.day);
    CheckedDaysInRange(era, doe);
  }

  lemma DayOfEraBounds(y: int, month: int, day: int)
    requires 0 <= y <= 9_999 && 1 <= month <= 12 && 1 <= day <= DaysInMonth(if month <= 2 then y + 1 else y, month)
    ensures var era := TruncDiv(y, 400);
            var r := y - era * 400;
            && 0 <= era <= 24
            && 0 <= r * 365 + TruncDiv(r, 4) - TruncDiv(r, 100) + TruncDiv(153 * MonthIndex(month) + 2, 5) + day - 1
                 < 200_000
  {
  }

  lemma CheckedDaysInRange(era: int, dayOfEra: int)
    requires 0 <= era <= 24 && 0 <= dayOfEra < 200_000
    ensures CheckedDays(era, dayOfEra) == Some(era * 146_097 + dayOfEra - 719_468)
  {
  }
}
