/**
  fineco-core's ISO-8601 timestamps. The parser tests bytes and the model characters: a field that is not
  all ASCII digits is refused, so the two agree.
 */
module Timestamps {
  import opened Prelude
  import opened Calendar
  import opened Text

  /** The first second of year 0000 and the last of year 9999. */
  const FIRST_EPOCH := -719_528 * 86_400
  const LAST_EPOCH := 2_932_897 * 86_400 - 1

  predicate InRange(epoch: int) {
    FIRST_EPOCH <= epoch <= LAST_EPOCH
  }

  /* ---- printing ---- */

  // `div_euclid` and `rem_euclid` are Dafny's own `/` and `%`.
  function EpochToIso(epoch: int): (s: string)
    ensures |s| >= 20
  {
    var seconds := epoch % 86_400;
    var c := CivilFromDays(epoch / 86_400);
    Padded(c.year, 4) + "-" + Padded(c.month, 2) + "-" + Padded(c.day, 2) + "T"
    + Padded(seconds / 3_600, 2) + ":" + Padded(seconds % 3_600 / 60, 2) + ":" + Padded(seconds % 60, 2) + "Z"
  }

  /* ---- parsing ---- */

  function SplitOnce(s: string, c: char): Option<(string, string)> {
    var i := IndexOf(s, c);
    if i == |s| then None else Some((s[..i], s[i + 1..]))
  }

  /** Three numbers cut out of a fixed-width field at the given offsets, or None. */
  function ThreeFields(a: string, b: string, c: string): Option<(int, int, int)> {
    match (Digits(a), Digits(b), Digits(c))
    case (Some(x), Some(y), Some(z)) => Some((x, y, z))
    case _ => None
  }

  function ParseDate(date: string): Option<(int, int, int)> {
    if |date| != 10 || date[4] != '-' || date[7] != '-' then None
    else ThreeFields(date[..4], date[5..7], date[8..])
  }

  function ParseHms(hms: string): Option<(int, int, int)> {
    if |hms| != 8 || hms[2] != ':' || hms[5] != ':' then None
    else ThreeFields(hms[..2], hms[3..5], hms[6..])
  }

  function ParseTime(time: string): Option<(int, int, int)> {
    match SplitOnce(time, '.')
    case Some((hms, fraction)) => if fraction != "" && AllDigits(fraction) then ParseHms(hms) else None
    case None => ParseHms(time)
  }

  function ParseIso(s: string): Option<int> {
    match SplitOnce(s, 'T')
    case None => None
    case Some((date, rest)) =>
      if rest == "" || rest[|rest| - 1] != 'Z' then None
      else
        match (ParseDate(date), ParseTime(rest[..|rest| - 1]))
        case (Some((year, month, day)), Some((hour, minute, second))) =>
          if !ValidDate(Date(year, month, day)) || hour > 23 || minute > 59 || second > 59 then None
          else Some(DaysFromCivil(Date(year, month, day)) * 86_400 + hour * 3_600 + minute * 60 + second)
        case _ => None
  }

  /* ---- the fixed-width shape of an in-range timestamp ---- */

  predicate FourDigitYear(c: Date) {
    ValidDate(c) && 0 <= c.year <= 9_999
  }

  function IsoDate(c: Date): string
    requires FourDigitYear(c)
  {
    Four(c.year) + "-" + Two(c.month) + "-" + Two(c.day)
  }

  function IsoClock(seconds: int): string
    requires 0 <= seconds < 86_400
  {
    Two(seconds / 3_600) + ":" + Two(seconds % 3_600 / 60) + ":" + Two(seconds % 60)
  }

  lemma RangeIsFourDigitYears(days: int)
    ensures -719_528 <= days <= 2_932_896 <==> 0 <= CivilFromDays(days).year <= 9_999
    ensures ValidDate(CivilFromDays(days))
  {
    assert DaysFromCivil(Date(0, 1, 1)) == -719_528;
    assert DaysFromCivil(Date(9_999, 12, 31)) == 2_932_896;
    hide DaysFromCivil, CivilFromDays;
    var c := CivilFromDays(days);
    DaysRoundTrip(days);
    DayCountOrdersDates(c, Date(0, 1, 1));
    DayCountOrdersDates(Date(9_999, 12, 31), c);
  }

  lemma IsoShape(epoch: int)
    requires InRange(epoch)
    ensures FourDigitYear(CivilFromDays(epoch / 86_400))
    ensures EpochToIso(epoch) == IsoDate(CivilFromDays(epoch / 86_400)) + "T" + IsoClock(epoch % 86_400) + "Z"
    ensures |IsoDate(CivilFromDays(epoch / 86_400))| == 10 && |IsoClock(epoch % 86_400)| == 8
  {
    hide CivilFromDays, Padded, Four, Two;
    RangeIsFourDigitYears(epoch / 86_400);
    var c, s := CivilFromDays(epoch / 86_400), epoch % 86_400;
    PaddedFour(c.year);
    ValueOfFour(c.year);
    PaddedTwo(c.month);
    PaddedTwo(c.day);
    PaddedTwo(s / 3_600);
    PaddedTwo(s % 3_600 / 60);
    PaddedTwo(s % 60);
    TwoLengths(c.month, c.day);
    TwoLengths(s / 3_600, s % 3_600 / 60);
    TwoLengths(s % 60, 0);
    var h, m, z := Two(s / 3_600), Two(s % 3_600 / 60), Two(s % 60);
    var d := Four(c.year) + "-" + Two(c.month) + "-" + Two(c.day) + "T";
    assert d + h + ":" + m + ":" + z + "Z" == d + (h + ":" + m + ":" + z) + "Z";
  }

  lemma TwoLengths(m: int, n: int)
    requires 0 <= m < 100 && 0 <= n < 100
    ensures |Two(m)| == 2 && |Two(n)| == 2
  {
  }

  /** Character by character: year, month, day, hour, minute and second, each in its place between its marks. */
  lemma PrintedFields(epoch: int)
    requires InRange(epoch)
    ensures var s, c, secs := EpochToIso(epoch), CivilFromDays(epoch / 86_400), epoch % 86_400;
            && |s| == 20 && s[4] == '-' && s[7] == '-' && s[10] == 'T' && s[13] == ':' && s[16] == ':' && s[19] == 'Z'
            && Digits(s[..4]) == Some(c.year) && Digits(s[5..7]) == Some(c.month) && Digits(s[8..10]) == Some(c.day)
            && Digits(s[11..13]) == Some(secs / 3_600) && Digits(s[14..16]) == Some(secs / 60 % 60)
            && Digits(s[17..19]) == Some(secs % 60)
  {
    hide EpochToIso, CivilFromDays, Digits, IsoDate, IsoClock;
    IsoShape(epoch);
    var c, secs := CivilFromDays(epoch / 86_400), epoch % 86_400;
    var d, k, s := IsoDate(c), IsoClock(secs), EpochToIso(epoch);
    DateFields(c);
    ClockDigits(secs);
    assert s == d + "T" + k + "Z";
    assert s[..4] == d[..4] && s[5..7] == d[5..7] && s[8..10] == d[8..] && s[4] == d[4] && s[7] == d[7];
    assert s[11..13] == k[..2] && s[14..16] == k[3..5] && s[17..19] == k[6..] && s[13] == k[2] && s[16] == k[5];
  }

  lemma DateFields(c: Date)
    requires FourDigitYear(c)
    ensures var d := IsoDate(c);
            && |d| == 10 && d[4] == '-' && d[7] == '-'
            && Digits(d[..4]) == Some(c.year) && Digits(d[5..7]) == Some(c.month) && Digits(d[8..]) == Some(c.day)
  {
    hide Four, Two, Digits;
    ValueOfFour(c.year);
    ValueOfTwo(c.month);
    ValueOfTwo(c.day);
    var d := IsoDate(c);
    assert d[..4] == Four(c.year) && d[5..7] == Two(c.month) && d[8..] == Two(c.day);
  }

  lemma ClockDigits(secs: int)
    requires 0 <= secs < 86_400
    ensures var k := IsoClock(secs);
            && |k| == 8 && k[2] == ':' && k[5] == ':' && Digits(k[..2]) == Some(secs / 3_600)
            && Digits(k[3..5]) == Some(secs / 60 % 60) && Digits(k[6..]) == Some(secs % 60)
  {
    hide Two, Digits;
    assert secs % 3_600 / 60 == secs / 60 % 60;
    ValueOfTwo(secs / 3_600);
    ValueOfTwo(secs % 3_600 / 60);
    ValueOfTwo(secs % 60);
    var k := IsoClock(secs);
    assert k[..2] == Two(secs / 3_600) && k[3..5] == Two(secs % 3_600 / 60) && k[6..] == Two(secs % 60);
  }

  /* ---- order ---- */

  lemma IsoDateOrder(a: Date, b: Date)
    requires FourDigitYear(a) && FourDigitYear(b)
    ensures |IsoDate(a)| == |IsoDate(b)|
    ensures Before(IsoDate(a), IsoDate(b)) <==> Earlier(a, b)
    ensures IsoDate(a) == IsoDate(b) <==> a == b
  {
    hide Four, Two, Before;
    ValueOfFour(a.year);
    ValueOfFour(b.year);
    FourOrder(a.year, b.year);
    FieldsOrder(a.month, a.day, b.month, b.day, "-");
    var ta, tb := Two(a.month) + "-" + Two(a.day), Two(b.month) + "-" + Two(b.day);
    SepOrder(Four(a.year), Four(b.year), "-", ta, tb);
    assert IsoDate(a) == Four(a.year) + "-" + ta && IsoDate(b) == Four(b.year) + "-" + tb;
  }

  lemma {:induction false} SepOrder(a: string, b: string, sep: string, x: string, y: string)
    requires |a| == |b| && |x| == |y|
    ensures |a + sep + x| == |b + sep + y|
    ensures Before(a + sep + x, b + sep + y) <==> Before(a, b) || (a == b && Before(x, y))
    ensures a + sep + x == b + sep + y <==> a == b && x == y
  {
    hide Before;
    assert a + sep + x == a + (sep + x) && b + sep + y == b + (sep + y);
    BeforeAppend(a, b, sep + x, sep + y);
    BeforeAppend(sep, sep, x, y);
    BeforeIsStrict(sep);
    SameParts(a, b, sep, x, y);
  }

  lemma SameParts(a: string, b: string, sep: string, x: string, y: string)
    requires |a| == |b|
    ensures a + sep + x == b + sep + y <==> a == b && x == y
  {
    var s, t := a + sep + x, b + sep + y;
    if s == t {
      assert s[..|a|] == a && t[..|b|] == b && s[|a| + |sep|..] == x && t[|b| + |sep|..] == y;
    }
  }

  lemma FieldsOrder(m: int, n: int, p: int, q: int, sep: string)
    requires 0 <= m < 100 && 0 <= n < 100 && 0 <= p < 100 && 0 <= q < 100
    ensures var x, y := Two(m) + sep + Two(n), Two(p) + sep + Two(q);
            |x| == |y| && (Before(x, y) <==> m < p || (m == p && n < q)) && (x == y <==> m == p && n == q)
  {
    TwoOrder(m, p);
    TwoOrder(n, q);
    SepOrder(Two(m), Two(p), sep, Two(n), Two(q));
  }

  lemma IsoClockOrder(s: int, t: int)
    requires 0 <= s < 86_400 && 0 <= t < 86_400
    ensures |IsoClock(s)| == |IsoClock(t)|
    ensures (Before(IsoClock(s), IsoClock(t)) <==> s < t) && (IsoClock(s) == IsoClock(t) <==> s == t)
  {
    hide Two, Before;
    var h, m, z := s / 3_600, s % 3_600 / 60, s % 60;
    var h', m', z' := t / 3_600, t % 3_600 / 60, t % 60;
    ClockFields(s);
    ClockFields(t);
    TwoOrder(h, h');
    FieldsOrder(m, z, m', z', ":");
    SepOrder(Two(h), Two(h'), ":", Two(m) + ":" + Two(z), Two(m') + ":" + Two(z'));
    assert IsoClock(s) == Two(h) + ":" + (Two(m) + ":" + Two(z));
    assert IsoClock(t) == Two(h') + ":" + (Two(m') + ":" + Two(z'));
  }

  lemma ClockFields(s: int)
    requires 0 <= s < 86_400
    ensures 0 <= s / 3_600 < 24 && 0 <= s % 3_600 / 60 < 60 && 0 <= s % 60 < 60
    ensures s == s / 3_600 * 3_600 + s % 3_600 / 60 * 60 + s % 60
  {
  }

  /** Sorting the stored strings sorts the instants: what `ORDER BY started_at` and `MAX(captured_at)` rely on. */
  lemma TimestampOrder(a: int, b: int)
    requires InRange(a) && InRange(b)
    ensures a < b <==> Before(EpochToIso(a), EpochToIso(b))
    ensures a == b <==> EpochToIso(a) == EpochToIso(b)
  {
    hide EpochToIso, IsoDate, IsoClock, Before, CivilFromDays, DaysFromCivil, ValidDate;
    IsoShape(a);
    IsoShape(b);
    var ca, cb := CivilFromDays(a / 86_400), CivilFromDays(b / 86_400);
    DaysRoundTrip(a / 86_400);
    DaysRoundTrip(b / 86_400);
    DayCountOrdersDates(ca, cb);
    DayCountOrdersDates(cb, ca);
    IsoDateOrder(ca, cb);
    IsoClockOrder(a % 86_400, b % 86_400);
    var x, y := IsoDate(ca) + "T" + IsoClock(a % 86_400), IsoDate(cb) + "T" + IsoClock(b % 86_400);
    SepOrder(IsoDate(ca), IsoDate(cb), "T", IsoClock(a % 86_400), IsoClock(b % 86_400));
    BeforeAppend(x, y, "Z", "Z");
    BeforeIsStrict("Z");
    assert x + "Z" == y + "Z" ==> x == (x + "Z")[..|x|] == y;
  }

  /* ---- round trips ---- */

  /** What may stand between the seconds and the `Z`. */
  predicate IsFraction(s: string) {
    s == "" || (|s| > 1 && s[0] == '.' && AllDigits(s[1..]))
  }

  lemma IndexOfAt(a: string, c: char, b: string)
    requires c !in a
    ensures SplitOnce(a + [c] + b, c) == Some((a, b))
  {
    var s := a + [c] + b;
    assert s[|a|] == c;
    assert forall k :: 0 <= k < |a| ==> s[k] == a[k];
    assert s[..|a|] == a && s[|a| + 1..] == b;
  }

  lemma ParseDateOfIso(c: Date)
    requires FourDigitYear(c)
    ensures ParseDate(IsoDate(c)) == Some((c.year, c.month, c.day)) && 'T' !in IsoDate(c)
  {
    hide Four, Two, Digits, DaysFromCivil;
    ValueOfFour(c.year);
    ValueOfTwo(c.month);
    ValueOfTwo(c.day);
    var s := IsoDate(c);
    assert s[..4] == Four(c.year) && s[5..7] == Two(c.month) && s[8..] == Two(c.day);
  }

  lemma ParseHmsOfClock(s: int)
    requires 0 <= s < 86_400
    ensures ParseHms(IsoClock(s)) == Some((s / 3_600, s % 3_600 / 60, s % 60)) && '.' !in IsoClock(s)
  {
    hide Four, Two, Digits;
    ClockFields(s);
    var h, m, z := s / 3_600, s % 3_600 / 60, s % 60;
    ValueOfTwo(h);
    ValueOfTwo(m);
    ValueOfTwo(z);
    var t := IsoClock(s);
    assert t == Two(h) + ":" + Two(m) + ":" + Two(z);
    assert t[..2] == Two(h) && t[3..5] == Two(m) && t[6..] == Two(z);
  }

  lemma ParseTimeOfClock(s: int, fraction: string)
    requires 0 <= s < 86_400 && IsFraction(fraction)
    ensures ParseTime(IsoClock(s) + fraction) == Some((s / 3_600, s % 3_600 / 60, s % 60))
  {
    hide IsoClock, ParseHms;
    ParseHmsOfClock(s);
    if fraction == "" {
      assert IsoClock(s) + fraction == IsoClock(s);
    } else {
      IndexOfAt(IsoClock(s), '.', fraction[1..]);
      assert IsoClock(s) + fraction == IsoClock(s) + ['.'] + fraction[1..];
    }
  }

  /** A printed instant, with or without a fraction of a second, parses back to that instant. */
  lemma ParseOfPrinted(epoch: int, fraction: string)
    requires InRange(epoch) && IsFraction(fraction)
    ensures |EpochToIso(epoch)| == 20
    ensures ParseIso(EpochToIso(epoch)[..19] + fraction + "Z") == Some(epoch)
  {
    hide EpochToIso, IsoDate, IsoClock, CivilFromDays, DaysFromCivil, ParseDate, ParseTime;
    IsoShape(epoch);
    var c, s := CivilFromDays(epoch / 86_400), epoch % 86_400;
    DaysRoundTrip(epoch / 86_400);
    ClockFields(s);
    ParseDateOfIso(c);
    ParseTimeOfClock(s, fraction);
    var rest := IsoClock(s) + fraction + "Z";
    IndexOfAt(IsoDate(c), 'T', rest);
    assert rest[..|rest| - 1] == IsoClock(s) + fraction;
    assert EpochToIso(epoch)[..19] + fraction + "Z" == IsoDate(c) + ['T'] + rest;
  }

  lemma IsoDateOfParse(date: string)
    requires ParseDate(date).Some?
    ensures var (y, m, d) := ParseDate(date).value;
            ValidDate(Date(y, m, d)) ==> FourDigitYear(Date(y, m, d)) && IsoDate(Date(y, m, d)) == date
  {
    hide Four, Two, Value;
    FourValue(date[..4]);
    TwoValue(date[5..7]);
    TwoValue(date[8..]);
    assert date == date[..4] + "-" + date[5..7] + "-" + date[8..];
  }

  lemma ClockOfParse(hms: string)
    requires ParseHms(hms).Some?
    ensures var (h, m, s) := ParseHms(hms).value;
            0 <= h && 0 <= m && 0 <= s
            && (h <= 23 && m <= 59 && s <= 59 ==> IsoClock(h * 3_600 + m * 60 + s) == hms)
  {
    hide Four, Two, Value;
    TwoValue(hms[..2]);
    TwoValue(hms[3..5]);
    TwoValue(hms[6..]);
    var (h, m, s) := ParseHms(hms).value;
    assert hms == hms[..2] + ":" + hms[3..5] + ":" + hms[6..];
    if h <= 23 && m <= 59 && s <= 59 {
      var t := h * 3_600 + m * 60 + s;
      DivIs(t, 3_600, h);
      DivIs(t - h * 3_600, 60, m);
      assert t % 3_600 == m * 60 + s;
      DivIs(t, 60, h * 60 + m);
    }
  }

  lemma FractionOfParse(time: string) returns (hms: string, fraction: string)
    requires ParseTime(time).Some?
    ensures IsFraction(fraction) && time == hms + fraction && ParseHms(hms) == ParseTime(time)
  {
    match SplitOnce(time, '.') {
      case Some((a, b)) =>
        hms, fraction := a, ['.'] + b;
        assert time == a + ['.'] + b;
        assert fraction[1..] == b;
      case None =>
        hms, fraction := time, "";
    }
  }

  lemma SplitRejoins(s: string, c: char)
    requires SplitOnce(s, c).Some?
    ensures s == SplitOnce(s, c).value.0 + [c] + SplitOnce(s, c).value.1
  {
  }

  lemma PrintedOfDate(c: Date, seconds: int)
    requires FourDigitYear(c) && 0 <= seconds < 86_400
    ensures var e := DaysFromCivil(c) * 86_400 + seconds;
            InRange(e) && EpochToIso(e) == IsoDate(c) + "T" + IsoClock(seconds) + "Z"
    ensures |IsoDate(c)| == 10 && |IsoClock(seconds)| == 8
  {
    hide EpochToIso, IsoDate, IsoClock, CivilFromDays, DaysFromCivil;
    var days := DaysFromCivil(c);
    var e := days * 86_400 + seconds;
    DivIs(e, 86_400, days);
    DateRoundTrip(c);
    RangeIsFourDigitYears(days);
    IsoShape(e);
  }

  lemma GluedTimestamp(s: string, date: string, rest: string, hms: string, fraction: string)
    requires s == date + ['T'] + rest && |date| == 10 && |hms| == 8
    requires rest != "" && rest[|rest| - 1] == 'Z' && rest[..|rest| - 1] == hms + fraction
    ensures |s| >= 20 && s[|s| - 1] == 'Z' && s[19..|s| - 1] == fraction && s[..19] == date + "T" + hms
  {
    assert rest == hms + fraction + "Z";
    assert s == (date + "T" + hms) + (fraction + "Z");
  }

  lemma PartsOfParse(s: string) returns (c: Date, hms: string, fraction: string, seconds: int)
    requires ParseIso(s).Some?
    ensures FourDigitYear(c) && 0 <= seconds < 86_400 && IsFraction(fraction)
    ensures hms == IsoClock(seconds) && |IsoDate(c)| == 10 && |hms| == 8
    ensures |s| >= 20 && s[|s| - 1] == 'Z' && s[19..|s| - 1] == fraction && s[..19] == IsoDate(c) + "T" + hms
    ensures ParseIso(s) == Some(DaysFromCivil(c) * 86_400 + seconds)
  {
    hide IsoDate, IsoClock, DaysFromCivil, ParseDate, ParseTime, ParseHms, SplitOnce, ValidDate;
    SplitRejoins(s, 'T');
    var (date, rest) := SplitOnce(s, 'T').value;
    var (y, m, d) := ParseDate(date).value;
    var (h, mi, sec) := ParseTime(rest[..|rest| - 1]).value;
    c, seconds := Date(y, m, d), h * 3_600 + mi * 60 + sec;
    IsoDateOfParse(date);
    hms, fraction := FractionOfParse(rest[..|rest| - 1]);
    ClockOfParse(hms);
    assert 0 <= seconds < 86_400;
    PrintedLengths(c, seconds);
    GluedTimestamp(s, date, rest, hms, fraction);
  }

  lemma PrintedLengths(c: Date, seconds: int)
    requires FourDigitYear(c) && 0 <= seconds < 86_400
    ensures |IsoDate(c)| == 10 && |IsoClock(seconds)| == 8
  {
    hide DaysFromCivil;
    PrintedOfDate(c, seconds);
  }

  /** Everything the parser accepts is a printed instant with an optional fraction before the `Z`. */
  lemma PrintedOfParse(s: string)
    requires ParseIso(s).Some?
    ensures InRange(ParseIso(s).value)
    ensures |s| >= 20 && s[|s| - 1] == 'Z' && IsFraction(s[19..|s| - 1])
    ensures s[..19] == EpochToIso(ParseIso(s).value)[..19]
  {
    hide *;
    var c, hms, fraction, seconds := PartsOfParse(s);
    PrintedOfDate(c, seconds);
    var t := IsoDate(c) + "T" + hms;
    assert |t| == 19 && (t + "Z")[..19] == t;
  }

  /** For strings without a fraction, printing and parsing are inverse in both directions. */
  lemma RoundTripBothWays(s: string, epoch: int)
    requires '.' !in s
    ensures ParseIso(s) == Some(epoch) <==> InRange(epoch) && s == EpochToIso(epoch)
  {
    hide EpochToIso, ParseIso;
    if ParseIso(s) == Some(epoch) {
      PrintedOfParse(s);
      var f := s[19..|s| - 1];
      ParseOfPrinted(epoch, "");
      IsoShape(epoch);
      assert s == s[..19] + "Z";
      var t := EpochToIso(epoch);
      assert t == t[..19] + "Z";
    }
    if InRange(epoch) && s == EpochToIso(epoch) {
      ParseOfPrinted(epoch, "");
      IsoShape(epoch);
      assert s[..19] + "" + "Z" == s;
    }
  }

  lemma OutOfRangeYear(epoch: int)
    requires !InRange(epoch)
    ensures CivilFromDays(epoch / 86_400).year < 0 || CivilFromDays(epoch / 86_400).year >= 10_000
  {
    hide CivilFromDays;
    RangeIsFourDigitYears(epoch / 86_400);
  }

  lemma PrintedShape(epoch: int)
    ensures '.' !in EpochToIso(epoch)
    ensures !InRange(epoch) ==> |EpochToIso(epoch)| > 20 || EpochToIso(epoch)[0] == '-'
  {
    hide CivilFromDays, Padded;
    var seconds, c := epoch % 86_400, CivilFromDays(epoch / 86_400);
    PaddedShape(c.year, 4);
    PaddedShape(c.month, 2);
    PaddedShape(c.day, 2);
    PaddedShape(seconds / 3_600, 2);
    PaddedShape(seconds % 3_600 / 60, 2);
    PaddedShape(seconds % 60, 2);
    if !InRange(epoch) {
      OutOfRangeYear(epoch);
      assert c.year < 0 ==> Padded(c.year, 4)[0] == Padded(c.year, 4)[..1][0];
    }
  }

  lemma InRangeShape(epoch: int)
    requires InRange(epoch)
    ensures |EpochToIso(epoch)| == 20 && EpochToIso(epoch)[0] != '-'
  {
    hide EpochToIso, CivilFromDays;
    IsoShape(epoch);
    ValueOfFour(CivilFromDays(epoch / 86_400).year);
  }

  /** The clock's own strings: parsed back exactly, and refused outside years 0000..9999. */
  lemma ClockStringsParse(epoch: int)
    ensures ParseIso(EpochToIso(epoch)) == if InRange(epoch) then Some(epoch) else None
  {
    hide EpochToIso, ParseIso;
    var s := EpochToIso(epoch);
    PrintedShape(epoch);
    if InRange(epoch) {
      RoundTripBothWays(s, epoch);
    } else if ParseIso(s).Some? {
      var e := ParseIso(s).value;
      RoundTripBothWays(s, e);
      InRangeShape(e);
    }
  }
}
