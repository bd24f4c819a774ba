/** The NYSE session calendar and the times the prospective shadow runner derives from it.

    Days are proleptic Gregorian ordinals (day 1 is 1 January of year 1, a Monday). Instants are
    microseconds on the same UTC axis. Queries outside the ratified years fail closed. */
module NyseCalendar {

  type Day = d: int | 1 <= d witness 1

  const MINUTE: int := 60_000_000
  const DAY: int := 1440 * MINUTE

  // ----- Gregorian years of day ordinals -----

  /** Days before 1 January of year y. */
  function DaysBefore(y: int): int
    requires 1 <= y
  {
    365 * (y - 1) + (y - 1) / 4 - (y - 1) / 100 + (y - 1) / 400
  }

  function YearFrom(d: Day, y: int): (r: int)
    requires 1 <= y && DaysBefore(y) < d
    ensures y <= r && DaysBefore(r) < d <= DaysBefore(r + 1)
    decreases d - DaysBefore(y)
  {
    if d <= DaysBefore(y + 1) then y else YearFrom(d, y + 1)
  }

  function Year(d: Day): (y: int)
    ensures 1 <= y && DaysBefore(y) < d <= DaysBefore(y + 1)
  {
    YearFrom(d, 1)
  }

  /** A year has at least 365 days: a century that drops its leap day is also a multiple of four. */
  lemma YearHas365Days(y: int)
    requires 1 <= y
    ensures DaysBefore(y) + 365 <= DaysBefore(y + 1)
  {
    var century, rest := (y - 1) / 100, (y - 1) % 100;
    assert (y - 1) / 4 == 25 * century + rest / 4;
    if rest == 99 {
      assert y == 100 * (century + 1);
      assert y / 4 == 25 * century + 25 && y / 100 == century + 1;
    } else {
      assert y == 100 * century + (rest + 1);
      assert y / 100 == century;
    }
    assert (y - 1) / 400 <= y / 400;
  }

  predicate Leap(y: int) {
    y % 4 == 0 && (y % 100 != 0 || y % 400 == 0)
  }

  /** Quotients grow exactly at the multiples. */
  lemma NextQuotients(y: int)
    requires 1 <= y
    ensures y / 4 == (y - 1) / 4 + if y % 4 == 0 then 1 else 0
    ensures y / 100 == (y - 1) / 100 + if y % 100 == 0 then 1 else 0
    ensures y / 400 == (y - 1) / 400 + if y % 400 == 0 then 1 else 0
  {
  }

  lemma Multiples(y: int)
    ensures y % 400 == 0 ==> y % 100 == 0
    ensures y % 100 == 0 ==> y % 4 == 0
  {
  }

  /** The years are Gregorian: day 1 opens year 1, and a year has 366 days exactly when it is a leap year. */
  lemma YearLength(y: int)
    requires 1 <= y
    ensures DaysBefore(1) == 0
    ensures DaysBefore(y + 1) - DaysBefore(y) == if Leap(y) then 366 else 365
  {
    NextQuotients(y);
    Multiples(y);
  }

  lemma {:induction false} DaysBeforeGrows(y: int, z: int)
    requires 1 <= y <= z
    ensures DaysBefore(y) + 365 * (z - y) <= DaysBefore(z)
    decreases z - y
  {
    if y < z {
      DaysBeforeGrows(y, z - 1);
      YearHas365Days(z - 1);
    }
  }

  /** The year of a day is the only year whose days contain it. */
  lemma YearIsUnique(d: Day, y: int)
    requires 1 <= y && DaysBefore(y) < d <= DaysBefore(y + 1)
    ensures Year(d) == y
  {
    if y < Year(d) {
      DaysBeforeGrows(y + 1, Year(d));
    } else if Year(d) < y {
      DaysBeforeGrows(Year(d) + 1, y);
    }
  }

  /** Years never decrease, and a step of less than a year moves by at most one year. */
  lemma YearStep(d: Day, e: Day)
    requires d <= e
    ensures Year(d) <= Year(e)
    ensures e - d <= 365 ==> Year(e) <= Year(d) + 1
  {
    if Year(e) < Year(d) {
      DaysBeforeGrows(Year(e) + 1, Year(d));
    }
    if e - d <= 365 && Year(d) + 1 < Year(e) {
      DaysBeforeGrows(Year(d) + 2, Year(e));
      DaysBeforeGrows(Year(d) + 1, Year(d) + 2);
    }
  }

  // ----- Sessions -----

  /** The pinned tables: full holidays, 13:00 early closes, days on daylight-saving time and the
      covered years. */
  datatype Calendar = Calendar(
    holidays: set<Day>, earlyCloses: set<Day>, daylight: set<Day>, minYear: int, maxYear: int)

  predicate InRange(c: Calendar, d: Day) {
    c.minYear <= Year(d) <= c.maxYear
  }

  /** Monday is weekday 0; Saturday and Sunday never trade. */
  predicate Trades(c: Calendar, d: Day) {
    (d + 6) % 7 < 5 && d !in c.holidays
  }

  predicate IsSession(c: Calendar, d: Day) {
    InRange(c, d) && Trades(c, d)
  }

  /** Counting days from Monday, 28 September 2026, what trades are the non-holidays among the first five
      of every seven. */
  lemma TradingDays(c: Calendar, d: Day)
    ensures DaysBefore(2026) + 271 == 739887
    ensures Trades(c, d) <==> d !in c.holidays && (d - 739887) % 7 in {0, 1, 2, 3, 4}
  {
  }

  /** Outcome of a forward search that asks the calendar about one day at a time. */
  datatype Search = Found(day: Day) | OutOfRange | Exhausted

  /** First trading session on or after `cursor` among at most `tries` days. */
  function FirstSession(c: Calendar, cursor: Day, tries: nat): (r: Search)
    ensures r.Found? ==> cursor <= r.day < cursor + tries && IsSession(c, r.day)
    ensures r.Found? ==> forall d: Day :: cursor <= d < r.day ==> !IsSession(c, d)
    decreases tries
  {
    if tries == 0 then Exhausted
    else if !InRange(c, cursor) then OutOfRange
    else if Trades(c, cursor) then Found(cursor)
    else FirstSession(c, cursor + 1, tries - 1)
  }

  /** A longer search finds the same day as a shorter successful one. */
  lemma {:induction false} LongerSearchAgrees(c: Calendar, cursor: Day, few: nat, many: nat)
    requires few <= many
    requires FirstSession(c, cursor, few).Found?
    ensures FirstSession(c, cursor, many) == FirstSession(c, cursor, few)
    decreases few
  {
    if !Trades(c, cursor) {
      LongerSearchAgrees(c, cursor + 1, few - 1, many - 1);
    }
  }

  /** The covered years are an interval of days. */
  lemma RangeIsConvex(c: Calendar, d: Day, e: Day, f: Day)
    requires d <= e <= f && InRange(c, d) && InRange(c, f)
    ensures InRange(c, e)
  {
    YearStep(d, e);
    YearStep(e, f);
  }

  /** Some session is among the `tries` days from the cursor. */
  ghost predicate SessionAmong(c: Calendar, cursor: Day, tries: nat) {
    exists d: Day :: cursor <= d < cursor + tries && IsSession(c, d)
  }

  /** Exactly which answer a search gives: a session is found if and only if the first day asked about is
      covered and some searched day is a session; the search is exhausted if and only if every searched day
      is covered and none trades. */
  lemma {:induction false} SearchExactly(c: Calendar, cursor: Day, tries: nat)
    ensures var r := FirstSession(c, cursor, tries);
      && (r.Found? <==> InRange(c, cursor) && SessionAmong(c, cursor, tries))
      && (r.Exhausted? <==> forall d: Day :: cursor <= d < cursor + tries ==> InRange(c, d) && !Trades(c, d))
    decreases tries
  {
    if tries > 0 && InRange(c, cursor) {
      if Trades(c, cursor) {
        assert IsSession(c, cursor);
      } else {
        SearchExactly(c, cursor + 1, tries - 1);
        SearchMoves(c, cursor, tries);
      }
    }
  }

  /** What a day that is covered and does not trade leaves to be searched. */
  lemma SearchMoves(c: Calendar, cursor: Day, tries: nat)
    requires tries > 0 && InRange(c, cursor) && !Trades(c, cursor)
    ensures SessionAmong(c, cursor, tries) <==> InRange(c, cursor + 1) && SessionAmong(c, cursor + 1, tries - 1)
    ensures (forall d: Day :: cursor <= d < cursor + tries ==> InRange(c, d) && !Trades(c, d))
       <==> (forall d: Day :: cursor + 1 <= d < cursor + tries ==> InRange(c, d) && !Trades(c, d))
  {
    if d: Day :| cursor <= d < cursor + tries && IsSession(c, d) {
      assert d != cursor;
      RangeIsConvex(c, cursor, cursor + 1, d);
    }
  }

  /** Searching the days after a session finds the nearest one, if and only if there is one. */
  lemma NextExactly(c: Calendar, last: Day, tries: nat)
    requires IsSession(c, last)
    ensures FirstSession(c, last + 1, tries).Found? <==> SessionAmong(c, last + 1, tries)
  {
    SearchExactly(c, last + 1, tries);
    if SessionAmong(c, last + 1, tries) {
      CoveredAfter(c, last, tries);
    }
  }

  lemma CoveredAfter(c: Calendar, last: Day, tries: nat)
    requires InRange(c, last) && SessionAmong(c, last + 1, tries)
    ensures InRange(c, last + 1)
  {
    var d: Day :| last + 1 <= d < last + 1 + tries && IsSession(c, d);
    RangeIsConvex(c, last, last + 1, d);
  }

  // ----- Instants -----

  /** 09:30 in New York, four or five hours behind UTC. */
  function Open(c: Calendar, d: Day): int {
    d * DAY + 570 * MINUTE + (if d in c.daylight then 240 else 300) * MINUTE
  }

  function Close(c: Calendar, d: Day): int {
    Open(c, d) + (if d in c.earlyCloses then 210 else 390) * MINUTE
  }

  /** The delayed feed may be asked only strictly after fifteen minutes past the close. */
  function EligibleAfter(c: Calendar, d: Day): int {
    Close(c, d) + 15 * MINUTE
  }

  /** Wall-clock time in New York on the microsecond axis: UTC less four hours on daylight days, less
      five otherwise. */
  function NewYork(c: Calendar, d: Day, instant: int): int {
    instant - (if d in c.daylight then 4 * 60 else 5 * 60) * MINUTE
  }

  /** The day of a local time, and the minutes since its midnight. */
  predicate LocalTime(local: int, d: Day, hour: int, minute: int) {
    local / DAY == d && local % DAY == (hour * 60 + minute) * MINUTE
  }

  /** In New York the session opens at 09:30 and closes at 16:00, or 13:00 on early closes, of its own day;
      the data become accessible fifteen minutes later. */
  lemma LocalHours(c: Calendar, d: Day)
    ensures LocalTime(NewYork(c, d, Open(c, d)), d, 9, 30)
    ensures var hour := if d in c.earlyCloses then 13 else 16;
      && LocalTime(NewYork(c, d, Close(c, d)), d, hour, 0)
      && LocalTime(NewYork(c, d, EligibleAfter(c, d)), d, hour, 15)
  {
  }

  /** A session becomes eligible strictly before any later session opens. */
  lemma WindowsAreOrdered(c: Calendar, d: Day, e: Day)
    requires d < e
    ensures Open(c, d) < Close(c, d) < EligibleAfter(c, d) < Open(c, e)
  {
    assert (d + 1) * DAY <= e * DAY;
  }
}
