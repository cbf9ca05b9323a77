/** The proleptic Gregorian calendar that buckets timestamps (`lib/src/aggregate.rs`): day numbers to
    dates and back, over all integers. */
module Calendar {
  import opened Basics

  datatype Date = Date(year: int, month: int, day: int)

  // ---- What a calendar date is --------------------------------------------------------------

  predicate IsLeap(year: int) {
    year % 4 == 0 && (year % 100 != 0 || year % 400 == 0)
  }

  function DaysInMonth(year: int, month: int): nat
    requires 1 <= month <= 12
  {
    if month == 2 then (if IsLeap(year) then 29 else 28)
    else if month == 4 || month == 6 || month == 9 || month == 11 then 30
    else 31
  }

  predicate ValidDate(d: Date) {
    1 <= d.month <= 12 && 1 <= d.day <= DaysInMonth(d.year, d.month)
  }

  /** The next calendar day. */
  function NextDay(d: Date): Date
    requires ValidDate(d)
  {
    if d.day < DaysInMonth(d.year, d.month) then Date(d.year, d.month, d.day + 1)
    else if d.month < 12 then Date(d.year, d.month + 1, 1)
    else Date(d.year + 1, 1, 1)
  }

  // ---- The two conversions ------------------------------------------------------------------

  /** Division that rounds toward zero, as the source language divides. */
  function Quotient(a: int, b: int): int
    requires b > 0
  {
    if a >= 0 then a / b else -((-a) / b)
  }

  /** The year of the 400-year era a day of the era falls in, counting years from 1 March. */
  function YearOfEra(doe: int): int {
    (doe - doe / 1460 + doe / 36524 - doe / 146096) / 365
  }

  /** Days of the era before a year of it starts. */
  function YearStart(yoe: int): int {
    365 * yoe + yoe / 4 - yoe / 100
  }

  /** Days of the year (from 1 March) before a month of it starts; month 0 is March. */
  function MonthStart(mp: int): int {
    (153 * mp + 2) / 5
  }

  function MonthOf(mp: int): int { if mp < 10 then mp + 3 else mp - 9 }

  function CivilFromDays(days: int): Date {
    var z := days + 719468;
    var era := Quotient(if z >= 0 then z else z - 146096, 146097);
    var doe := z - era * 146097;
    var yoe := YearOfEra(doe);
    var y := yoe + era * 400;
    var doy := doe - YearStart(yoe);
    var mp := (5 * doy + 2) / 153;
    var m := MonthOf(mp);
    Date(if m <= 2 then y + 1 else y, m, doy - MonthStart(mp) + 1)
  }

  function DaysFromCivil(year: int, month: int, day: int): int {
    var y := if month <= 2 then year - 1 else year;
    var era := Quotient(if y >= 0 then y else y - 399, 400);
    var yoe := y - era * 400;
    var mp := if month > 2 then month - 3 else month + 9;
    var doy := MonthStart(mp) + day - 1;
    var doe := yoe * 365 + yoe / 4 - yoe / 100 + doy;
    era * 146097 + doe - 719468
  }

  // ---- The arithmetic behind them -----------------------------------------------------------

  /** The adjusted truncating division is division rounding down. */
  lemma FloorQuotient(z: int, n: int)
    requires n == 146097 || n == 400
    ensures Quotient(if z >= 0 then z else z - (n - 1), n) == z / n
  {
  }

  /** Length of the year of an era that starts on 1 March: a day longer when it ends in a leap February. */
  function YearLength(yoe: int): int {
    if (yoe + 1) % 4 == 0 && ((yoe + 1) % 100 != 0 || yoe == 399) then 366 else 365
  }

  lemma YearStartStep(yoe: int)
    requires 0 <= yoe < 400
    ensures YearStart(yoe) + YearLength(yoe) == if yoe == 399 then 146097 else YearStart(yoe + 1)
  {
  }

  /** Splitting a day of the era by centuries gives its year's century, except on the era's last day. */
  lemma CenturyOf(yoe: int, doy: int)
    requires 0 <= yoe < 400 && 0 <= doy < YearLength(yoe)
    ensures var doe := YearStart(yoe) + doy;
            doe / 36524 - doe / 146096 == yoe / 100
  {
    var c, n := yoe / 100, yoe % 100;
    var doe := YearStart(yoe) + doy;
    assert yoe == 100 * c + n && yoe / 4 == 25 * c + n / 4;
    assert doe == 36524 * c + (365 * n + n / 4 + doy);
  }

  /** The formula recovers the year of every day of every year of the era. */
  lemma YearOfEraAt(yoe: int, doy: int)
    requires 0 <= yoe < 400 && 0 <= doy < YearLength(yoe)
    ensures YearOfEra(YearStart(yoe) + doy) == yoe
  {
    var doe := YearStart(yoe) + doy;
    CenturyOf(yoe, doy);
    var q, r, c := yoe / 4, yoe % 4, yoe / 100;
    var t := 365 * r + (q - c) + doy;
    assert 0 <= c <= q <= 99 && c <= 3;
    assert doe == 1460 * q + t;
    assert doe / 1460 == q + t / 1460;
    assert t / 1460 == if t < 1460 then 0 else 1;
    assert doy == 365 ==> r == 3;
    assert 0 <= doy - t / 1460 < 365;
    assert doe - doe / 1460 + doe / 36524 - doe / 146096 == 365 * yoe + (doy - t / 1460);
  }

  /** Every day of the era lies in one of its years. */
  lemma YearOfEraBounds(doe: int)
    requires 0 <= doe < 146097
    ensures var yoe := YearOfEra(doe);
            0 <= yoe < 400 && YearStart(yoe) <= doe < YearStart(yoe) + YearLength(yoe)
  {
    var yoe := 0;
    while doe >= YearStart(yoe) + YearLength(yoe)
      invariant 0 <= yoe < 400 && YearStart(yoe) <= doe
      decreases 400 - yoe
    {
      YearStartStep(yoe);
      yoe := yoe + 1;
    }
    YearOfEraAt(yoe, doe - YearStart(yoe));
  }

  /** The month formula cuts the year into its months. */
  lemma MonthOfYear(doy: int)
    requires 0 <= doy < 366
    ensures var mp := (5 * doy + 2) / 153;
            0 <= mp < 12 && MonthStart(mp) <= doy < MonthStart(mp + 1)
  {
  }

  lemma LeapByRemainder(year: int)
    ensures IsLeap(year) <==> IsLeap(year % 400)
  {
    var k, r := year / 400, year % 400;
    assert year == 4 * (100 * k) + r && year == 100 * (4 * k) + r;
    assert year % 4 == r % 4;
    assert year % 100 == r % 100;
  }

  // ---- Dates counted from March -------------------------------------------------------------

  /** A date as era, year of the era, month from March and day from zero. */
  datatype MarchDate = MarchDate(era: int, yoe: int, mp: int, dd: int)

  function MonthLength(yoe: int, mp: int): int {
    if mp < 11 then MonthStart(mp + 1) - MonthStart(mp) else YearLength(yoe) - MonthStart(11)
  }

  predicate ValidMarch(m: MarchDate) {
    0 <= m.yoe < 400 && 0 <= m.mp < 12 && 0 <= m.dd < MonthLength(m.yoe, m.mp)
  }

  function Number(m: MarchDate): int {
    m.era * 146097 + YearStart(m.yoe) + MonthStart(m.mp) + m.dd - 719468
  }

  function ToMarch(d: Date): MarchDate {
    var y := if d.month <= 2 then d.year - 1 else d.year;
    MarchDate(y / 400, y % 400, if d.month > 2 then d.month - 3 else d.month + 9, d.day - 1)
  }

  function FromMarch(m: MarchDate): Date {
    var y := m.yoe + m.era * 400;
    Date(if MonthOf(m.mp) <= 2 then y + 1 else y, MonthOf(m.mp), m.dd + 1)
  }

  function Split(days: int): MarchDate {
    var z := days + 719468;
    var doe := z % 146097;
    var yoe := YearOfEra(doe);
    var doy := doe - YearStart(yoe);
    var mp := (5 * doy + 2) / 153;
    MarchDate(z / 146097, yoe, mp, doy - MonthStart(mp))
  }

  lemma CivilIsSplit(days: int)
    ensures CivilFromDays(days) == FromMarch(Split(days))
  {
    hide YearOfEra, YearStart, MonthStart;
    FloorQuotient(days + 719468, 146097);
  }

  lemma DaysIsNumber(d: Date)
    ensures DaysFromCivil(d.year, d.month, d.day) == Number(ToMarch(d))
  {
    FloorQuotient(if d.month <= 2 then d.year - 1 else d.year, 400);
  }

  /** Months counted from March have their calendar length; February has what the leap rule gives it. */
  lemma MonthLengthIsCalendar(d: Date)
    requires 1 <= d.month <= 12
    ensures var m := ToMarch(d); MonthLength(m.yoe, m.mp) == DaysInMonth(d.year, d.month)
  {
    hide Quotient;
    var m := ToMarch(d);
    if d.month == 2 {
      LeapByRemainder(d.year);
      var r := d.year % 400;
      assert m.yoe == if r == 0 then 399 else r - 1;
    }
  }

  lemma MarchRoundTrip(d: Date)
    requires 1 <= d.month <= 12
    ensures FromMarch(ToMarch(d)) == d
    ensures ValidDate(d) <==> ValidMarch(ToMarch(d))
  {
    MonthLengthIsCalendar(d);
    hide MonthLength, DaysInMonth;
  }

  lemma MarchOfFrom(m: MarchDate)
    requires ValidMarch(m)
    ensures ToMarch(FromMarch(m)) == m && ValidDate(FromMarch(m))
  {
    var y := m.yoe + m.era * 400;
    assert y / 400 == m.era && y % 400 == m.yoe;
    assert ToMarch(FromMarch(m)) == m by { hide MonthLength; }
    MonthLengthIsCalendar(FromMarch(m));
    hide MonthLength, DaysInMonth;
  }

  lemma SplitIsNumber(days: int)
    ensures ValidMarch(Split(days)) && Number(Split(days)) == days
  {
    var z := days + 719468;
    var doe := z % 146097;
    YearOfEraBounds(doe);
    var yoe := YearOfEra(doe);
    var doy := doe - YearStart(yoe);
    hide YearOfEra, YearStart;
    MonthOfYear(doy);
  }

  lemma NumberSplits(m: MarchDate)
    requires ValidMarch(m)
    ensures Split(Number(m)) == m
  {
    var doy := MonthStart(m.mp) + m.dd;
    assert 0 <= doy < YearLength(m.yoe);
    assert (5 * doy + 2) / 153 == m.mp;
    var doe := YearStart(m.yoe) + doy;
    YearOfEraAt(m.yoe, doy);
    assert 0 <= doe < 146097 by { EraHolds(m.yoe, doy); }
    hide YearOfEra, YearStart, MonthStart, YearLength;
    var z := m.era * 146097 + doe;
    assert z / 146097 == m.era && z % 146097 == doe;
    assert Number(m) + 719468 == z;
  }

  lemma EraHolds(yoe: int, doy: int)
    requires 0 <= yoe < 400 && 0 <= doy < YearLength(yoe)
    ensures 0 <= YearStart(yoe) + doy < 146097
  {
  }

  // ---- The conversions are inverse ----------------------------------------------------------

  /** Converting a day number gives a real date, and converting that back gives the day number. */
  lemma CivilThenDays(days: int)
    ensures var d := CivilFromDays(days);
            ValidDate(d) && DaysFromCivil(d.year, d.month, d.day) == days
  {
    hide CivilFromDays, DaysFromCivil, Split, Number, ToMarch, FromMarch, ValidMarch, ValidDate;
    CivilIsSplit(days);
    SplitIsNumber(days);
    MarchOfFrom(Split(days));
    DaysIsNumber(FromMarch(Split(days)));
  }

  /** Converting a real date to its day number and back gives the date. */
  lemma DaysThenCivil(d: Date)
    requires ValidDate(d)
    ensures CivilFromDays(DaysFromCivil(d.year, d.month, d.day)) == d
  {
    hide CivilFromDays, DaysFromCivil, Split, Number, ToMarch, FromMarch, ValidMarch, DaysInMonth;
    DaysIsNumber(d);
    MarchRoundTrip(d);
    NumberSplits(ToMarch(d));
    CivilIsSplit(Number(ToMarch(d)));
  }

  /** Two real dates with the same day number are the same date. */
  lemma DayNumberInjective(d: Date, e: Date)
    requires ValidDate(d) && ValidDate(e)
    requires DaysFromCivil(d.year, d.month, d.day) == DaysFromCivil(e.year, e.month, e.day)
    ensures d == e
  {
    hide CivilFromDays, DaysFromCivil, ValidDate;
    DaysThenCivil(d);
    DaysThenCivil(e);
  }

  function NextMarch(m: MarchDate): MarchDate {
    if m.dd + 1 < MonthLength(m.yoe, m.mp) then m.(dd := m.dd + 1)
    else if m.mp < 11 then m.(mp := m.mp + 1, dd := 0)
    else if m.yoe < 399 then MarchDate(m.era, m.yoe + 1, 0, 0)
    else MarchDate(m.era + 1, 0, 0, 0)
  }

  lemma NextMarchNumber(m: MarchDate)
    requires ValidMarch(m)
    ensures Number(NextMarch(m)) == Number(m) + 1
  {
    YearStartStep(m.yoe);
    hide YearLength;
  }

  lemma NextDayIsNextMarch(d: Date)
    requires ValidDate(d)
    ensures ToMarch(NextDay(d)) == NextMarch(ToMarch(d)) && ValidDate(NextDay(d))
  {
    MonthLengthIsCalendar(d);
    hide MonthLength;
    if d.month == 2 && d.day == DaysInMonth(d.year, 2) {
      var y := d.year - 1;
      assert (y + 1) % 400 == if y % 400 < 399 then y % 400 + 1 else 0;
      assert (y + 1) / 400 == if y % 400 < 399 then y / 400 else y / 400 + 1;
    }
  }

  /** The calendar successor of a date has the next day number. */
  lemma NextDayIsNextNumber(d: Date)
    requires ValidDate(d)
    ensures ValidDate(NextDay(d))
    ensures var n := NextDay(d);
            DaysFromCivil(n.year, n.month, n.day) == DaysFromCivil(d.year, d.month, d.day) + 1
  {
    hide CivilFromDays, DaysFromCivil, Number, NextMarch, ToMarch, ValidMarch, NextDay, DaysInMonth;
    NextDayIsNextMarch(d);
    MarchRoundTrip(d);
    NextMarchNumber(ToMarch(d));
    DaysIsNumber(d);
    DaysIsNumber(NextDay(d));
  }

  /** Day number n + 1 is the calendar day after day n, for every integer n. */
  lemma SuccessorDay(days: int)
    ensures ValidDate(CivilFromDays(days))
    ensures CivilFromDays(days + 1) == NextDay(CivilFromDays(days))
  {
    hide CivilFromDays, DaysFromCivil, NextDay, ValidDate;
    var d := CivilFromDays(days);
    CivilThenDays(days);
    NextDayIsNextNumber(d);
    DaysThenCivil(NextDay(d));
  }

  /** The epoch is 1 January 1970. */
  lemma Epoch()
    ensures CivilFromDays(0) == Date(1970, 1, 1)
  {
  }
}
