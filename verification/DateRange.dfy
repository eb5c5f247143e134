/** The movements look-back window: computed by the controller, checked again by the worker. */
module DateRange {
  import opened Prelude
  import opened Calendar
  import opened Text
  import opened Timestamps

  const MAX_MOVEMENTS_DAYS := 90

  function DaysToDateRange(nowIso: string, days: nat): Option<(string, string)> {
    match ParseIso(nowIso)
    case None => None
    case Some(now) =>
      var from := SatSub(now, days * 86_400);
      Some((EpochToIso(from)[..10], EpochToIso(now)[..10]))
  }

  datatype RangeError = BadDate | Reversed | TooWide

  function ParseIsoDate(date: string): Result<int, RangeError> {
    if |date| != 10 then Err(BadDate)
    else
      match ParseIso(date + "T00:00:00Z")
      case Some(epoch) => Ok(epoch)
      case None => Err(BadDate)
  }

  function ValidateMovementsRange(dateFrom: string, dateTo: string): Result<(), RangeError> {
    match ParseIsoDate(dateFrom)
    case Err(e) => Err(e)
    case Ok(from) =>
      match ParseIsoDate(dateTo)
      case Err(e) => Err(e)
      case Ok(to) =>
        if from > to then Err(Reversed)
        else if TruncDiv(to - from, 86_400) > MAX_MOVEMENTS_DAYS then Err(TooWide)
        else Ok(())
  }

  /** The date prefix of an in-range instant is the midnight that opens its day. */
  lemma DatePrefixIsMidnight(epoch: int)
    requires InRange(epoch)
    ensures ParseIsoDate(EpochToIso(epoch)[..10]) == Ok(epoch / 86_400 * 86_400)
  {
    hide EpochToIso, IsoDate, IsoClock, CivilFromDays, ParseIso;
    var midnight := epoch / 86_400 * 86_400;
    DivIs(midnight, 86_400, epoch / 86_400);
    IsoShape(epoch);
    IsoShape(midnight);
    MidnightClock();
    ParseOfPrinted(midnight, "");
    var d := IsoDate(CivilFromDays(epoch / 86_400));
    var m := EpochToIso(midnight);
    assert midnight % 86_400 == 0;
    assert m == d + "T" + "00:00:00" + "Z";
    assert m[..19] + "" + "Z" == m;
    assert EpochToIso(epoch)[..10] == d;
    assert d + "T00:00:00Z" == m;
  }

  lemma MidnightClock()
    ensures IsoClock(0) == "00:00:00"
  {
  }

  lemma BeforeYearZeroSign(epoch: int)
    requires epoch < FIRST_EPOCH
    ensures EpochToIso(epoch)[0] == '-'
  {
    var c := CivilFromDays(epoch / 86_400);
    assert c.year < 0 by {
      hide CivilFromDays;
      DayBeforeYearZero(epoch / 86_400);
    }
    hide CivilFromDays, Padded;
    PaddedShape(c.year, 4);
    assert Padded(c.year, 4)[0] == Padded(c.year, 4)[..1][0];
  }

  lemma DayBeforeYearZero(days: int)
    requires days < -719_528
    ensures CivilFromDays(days).year < 0
  {
    assert DaysFromCivil(Date(0, 1, 1)) == -719_528;
    hide DaysFromCivil, CivilFromDays;
    DaysRoundTrip(days);
    DayCountOrdersDates(CivilFromDays(days), Date(0, 1, 1));
  }

  lemma BeforeYearZeroRefused(epoch: int)
    requires epoch < FIRST_EPOCH
    ensures ParseIsoDate(EpochToIso(epoch)[..10]).Err?
  {
    hide EpochToIso, ParseIso;
    BeforeYearZeroSign(epoch);
    var s := EpochToIso(epoch)[..10] + "T00:00:00Z";
    if ParseIso(s).Some? {
      PrintedOfParse(s);
      var e := ParseIso(s).value;
      InRangeShape(e);
    }
  }

  /**
    For every timestamp the parser takes: the window ends on that timestamp's own date and spans exactly
    `days` calendar days, and the worker's second check accepts it exactly when `days` is within the cap
    and the window does not start before year 0000.
   */
  lemma WindowSpansDays(nowIso: string, days: nat)
    requires ParseIso(nowIso).Some? && IsU32(days)
    ensures DaysToDateRange(nowIso, days).Some?
    ensures var now := ParseIso(nowIso).value;
            var (dateFrom, dateTo) := DaysToDateRange(nowIso, days).value;
            && |nowIso| >= 10 && dateTo == nowIso[..10]
            && (ValidateMovementsRange(dateFrom, dateTo).Ok? <==>
                days <= MAX_MOVEMENTS_DAYS && InRange(now - days * 86_400))
            && (InRange(now - days * 86_400) ==>
                && ParseIsoDate(dateFrom).Ok? && ParseIsoDate(dateTo).Ok?
                && ParseIsoDate(dateTo).value - ParseIsoDate(dateFrom).value == days * 86_400)
  {
    hide EpochToIso, ParseIso, ParseIsoDate;
    var now := ParseIso(nowIso).value;
    PrintedOfParse(nowIso);
    assert nowIso[..10] == nowIso[..19][..10];
    assert EpochToIso(now)[..19][..10] == EpochToIso(now)[..10];
    var from := now - days * 86_400;
    assert SatSub(now, days * 86_400) == from;
    DatePrefixIsMidnight(now);
    if InRange(from) {
      DatePrefixIsMidnight(from);
      DivIs(from, 86_400, now / 86_400 - days);
      DivIs(days * 86_400, 86_400, days);
    } else {
      BeforeYearZeroRefused(from);
    }
  }

  /** A date is taken exactly when it is the first ten characters of a midnight's print, which is its value. */
  lemma DateIsADay(date: string, days: int)
    ensures ParseIsoDate(date) == Ok(days * 86_400)
       <==> InRange(days * 86_400) && date == EpochToIso(days * 86_400)[..10]
  {
    hide EpochToIso, ParseIso;
    var midnight := days * 86_400;
    if InRange(midnight) {
      DivIs(midnight, 86_400, days);
      DatePrefixIsMidnight(midnight);
    }
    if ParseIsoDate(date) == Ok(midnight) {
      var s := date + "T00:00:00Z";
      PrintedOfParse(s);
      assert s[..19][..10] == date;
      assert EpochToIso(midnight)[..19][..10] == EpochToIso(midnight)[..10];
    }
  }

  /**
    For any two strings: the range is accepted exactly when both are dates, not reversed and at most 90 days
    apart; otherwise the first of the three tests that fails is the answer.
   */
  lemma RangeIsAcceptedIff(dateFrom: string, dateTo: string)
    ensures ValidateMovementsRange(dateFrom, dateTo)
         == match (ParseIsoDate(dateFrom), ParseIsoDate(dateTo))
            case (Ok(from), Ok(to)) =>
              if to < from then Err(Reversed) else if to / 86_400 - from / 86_400 > 90 then Err(TooWide) else Ok(())
            case _ => Err(BadDate)
    ensures ParseIsoDate(dateFrom).Err? ==> ParseIsoDate(dateFrom).error == BadDate
  {
    hide ParseIsoDate;
    DatesAreMidnights(dateFrom);
    DatesAreMidnights(dateTo);
  }

  /** What is taken is always a midnight, so the distance of two dates is a whole number of days. */
  lemma DatesAreMidnights(date: string)
    ensures match ParseIsoDate(date)
            case Ok(epoch) => epoch == epoch / 86_400 * 86_400
            case Err(e) => e == BadDate
  {
    hide EpochToIso, ParseIso;
    if ParseIsoDate(date).Ok? {
      var s, epoch := date + "T00:00:00Z", ParseIsoDate(date).value;
      PrintedOfParse(s);
      InRangeShape(epoch);
      assert s[..19][..10] == date;
      DatePrefixIsMidnight(epoch);
      assert EpochToIso(epoch)[..19][..10] == EpochToIso(epoch)[..10];
    }
  }
}
