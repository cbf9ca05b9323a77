/** Day and month keys of timestamps (`lib/src/aggregate.rs`): printing a bucket, parsing a date, and
    what equality and order of keys mean. */
module DayBuckets {
  import opened Basics
  import opened Text
  import opened Calendar

  datatype Granularity = Exact | Day | Month

  const MILLIS_PER_DAY: int := 86400000

  // ---- Printing -----------------------------------------------------------------------------

  function Zeros(n: nat): string { seq(n, _ => '0') }

  /** A natural number zero-padded to at least `width` characters. */
  function Pad(n: nat, width: nat): string {
    var s := NatToString(n);
    if |s| >= width then s else Zeros(width - |s|) + s
  }

  /** `{:04}`: the sign counts towards the width. */
  function FormatYear(year: int): string {
    if year >= 0 then Pad(year, 4) else "-" + Pad(-year, 3)
  }

  function MonthKey(d: Date): string
    requires ValidDate(d)
  {
    FormatYear(d.year) + "-" + Pad(d.month, 2)
  }

  function DayKey(d: Date): string
    requires ValidDate(d)
  {
    MonthKey(d) + "-" + Pad(d.day, 2)
  }

  function IntToString(n: int): string {
    if n >= 0 then NatToString(n) else "-" + NatToString(-n)
  }

  /** The caller's local day of an instant, rounding down. */
  function LocalDay(millis: int, tzOffsetMinutes: int): (day: int)
    ensures day * MILLIS_PER_DAY <= millis + tzOffsetMinutes * 60000 < (day + 1) * MILLIS_PER_DAY
  {
    (millis + tzOffsetMinutes * 60000) / MILLIS_PER_DAY
  }

  function LocalDate(millis: int, tzOffsetMinutes: int): (d: Date)
    ensures ValidDate(d)
  {
    CivilThenDays(LocalDay(millis, tzOffsetMinutes));
    CivilFromDays(LocalDay(millis, tzOffsetMinutes))
  }

  /** `bucket_instant`. */
  function BucketInstant(millis: int, granularity: Granularity, tzOffsetMinutes: int): string {
    match granularity
    case Exact => IntToString(millis)
    case Month => MonthKey(LocalDate(millis, tzOffsetMinutes))
    case Day => DayKey(LocalDate(millis, tzOffsetMinutes))
  }

  // ---- Parsing ------------------------------------------------------------------------------

  /** An optionally signed decimal number. */
  function ParseI64(s: string): Option<int> {
    if s == "" then None
    else if s[0] == '+' || s[0] == '-' then
      (if |s| == 1 then None
       else match DigitsValue(s[1..])
         case None => None
         case Some(n) => Some(if s[0] == '-' then 0 - n as int else n as int))
    else match DigitsValue(s)
      case None => None
      case Some(n) => Some(n)
  }

  /** Length of the text before the first dash. */
  function DashAt(s: string): (n: nat)
    ensures n <= |s|
  {
    if s == "" || s[0] == '-' then 0 else 1 + DashAt(s[1..])
  }

  /** The first three dash-separated parts. */
  function Parts(s: string): Option<(string, string, string)> {
    var i := DashAt(s);
    if i == |s| then None
    else
      var rest := s[i + 1..];
      var j := DashAt(rest);
      if j == |rest| then None
      else
        var last := rest[j + 1..];
        Some((s[..i], rest[..j], last[..DashAt(last)]))
  }

  /** `days_from_iso_date`. */
  function DaysFromIsoDate(s: string): Option<int> {
    match Parts(s)
    case None => None
    case Some(p) =>
      var (year, month, day) := (ParseI64(p.0), ParseI64(p.1), ParseI64(if |p.2| >= 2 then p.2[..2] else ""));
      if year.None? || month.None? || day.None? then None
      else if !(1 <= month.value <= 12) || !(1 <= day.value <= 31) then None
      else Some(DaysFromCivil(year.value, month.value, day.value))
  }

  // ---- Padded numbers -----------------------------------------------------------------------

  lemma {:induction false} ZerosAddNothing(k: nat, s: string)
    ensures DigitsValue(Zeros(k) + s) == DigitsValue(s)
    decreases |s| + k
  {
    var all := Zeros(k) + s;
    if s != [] {
      assert all[..|all| - 1] == Zeros(k) + s[..|s| - 1];
      ZerosAddNothing(k, s[..|s| - 1]);
    } else if k > 0 {
      assert all[..|all| - 1] == Zeros(k - 1) + [];
      ZerosAddNothing(k - 1, []);
    }
  }

  lemma PadParses(n: nat, width: nat)
    ensures ParseI64(Pad(n, width)) == Some(n) && '-' !in Pad(n, width) && Pad(n, width) != ""
    ensures |Pad(n, width)| >= width
  {
    DigitsRoundTrip(n);
    var s := NatToString(n);
    if |s| < width { ZerosAddNothing(width - |s|, s); }
    assert forall c :: c in Pad(n, width) ==> '0' <= c <= '9';
    assert Pad(n, width)[0] in Pad(n, width);
  }

  lemma {:induction false} DashAfter(head: string, rest: string)
    requires '-' !in head && (rest == "" || rest[0] == '-')
    ensures DashAt(head + rest) == |head|
  {
    if head == "" {
      assert head + rest == rest;
    } else {
      assert (head + rest)[1..] == head[1..] + rest;
      DashAfter(head[1..], rest);
    }
  }

  lemma PartsOf(year: string, month: string, day: string)
    requires '-' !in year && '-' !in month && '-' !in day
    ensures Parts(year + "-" + month + "-" + day) == Some((year, month, day))
  {
    var s := year + "-" + month + "-" + day;
    var rest := month + "-" + day;
    assert s == year + ("-" + rest);
    DashAfter(year, "-" + rest);
    assert s[|year| + 1..] == rest && s[..|year|] == year;
    assert rest == month + ("-" + day);
    DashAfter(month, "-" + day);
    assert rest[|month| + 1..] == day && rest[..|month|] == month;
    assert day + "" == day;
    DashAfter(day, "");
  }

  lemma TwoDigits(n: nat)
    requires 1 <= n <= 31
    ensures |Pad(n, 2)| == 2
  {
    if n >= 10 { assert NatToString(n) == NatToString(n / 10) + [DigitChar(n % 10)]; }
  }

  // ---- What a key says ----------------------------------------------------------------------

  /** Three dash-separated numbers are a day exactly when month and day are in their ranges, and then it is the
      day of that date, whether or not the month is so long. */
  lemma IsoDateParses(year: nat, month: nat, day: nat)
    requires |Pad(day, 2)| == 2
    ensures DaysFromIsoDate(Pad(year, 4) + "-" + Pad(month, 2) + "-" + Pad(day, 2)) ==
            if 1 <= month <= 12 && 1 <= day <= 31 then Some(DaysFromCivil(year, month, day)) else None
  {
    hide Pad, DaysFromCivil;
    PadParses(year, 4);
    PadParses(month, 2);
    PadParses(day, 2);
    PartsOf(Pad(year, 4), Pad(month, 2), Pad(day, 2));
  }

  /** A printed day reads back as its day number exactly when its year is not negative. */
  lemma DayKeyParses(d: Date)
    requires ValidDate(d)
    ensures DaysFromIsoDate(DayKey(d)) == if d.year >= 0 then Some(DaysFromCivil(d.year, d.month, d.day)) else None
  {
    hide Pad, DaysFromCivil;
    TwoDigits(d.day);
    if d.year >= 0 {
      IsoDateParses(d.year, d.month, d.day);
    } else {
      assert DayKey(d)[0] == '-';
      assert DashAt(DayKey(d)) == 0;
    }
  }

  /** For every instant and time zone: parsing a day bucket gives back the local day, when the year is
      not negative, and otherwise fails. */
  lemma DayBucketParses(millis: int, tzOffsetMinutes: int)
    ensures DaysFromIsoDate(BucketInstant(millis, Day, tzOffsetMinutes)) ==
            if LocalDate(millis, tzOffsetMinutes).year >= 0 then Some(LocalDay(millis, tzOffsetMinutes)) else None
  {
    hide DayKey, DaysFromCivil, CivilFromDays, DaysFromIsoDate, ValidDate;
    DayKeyParses(LocalDate(millis, tzOffsetMinutes));
    CivilThenDays(LocalDay(millis, tzOffsetMinutes));
  }

  /** Day keys identify dates, on both sides of year 0. */
  lemma DayKeyInjective(d: Date, e: Date)
    requires ValidDate(d) && ValidDate(e) && DayKey(d) == DayKey(e)
    ensures d == e
  {
    hide Pad, DaysFromCivil;
    KeyParts(d);
    KeyParts(e);
    var dy, ey := if d.year >= 0 then d.year else -d.year, if e.year >= 0 then e.year else -e.year;
    PadParses(dy, if d.year >= 0 then 4 else 3);
    PadParses(ey, if e.year >= 0 then 4 else 3);
    PadParses(d.month, 2);
    PadParses(e.month, 2);
    PadParses(d.day, 2);
    PadParses(e.day, 2);
  }

  /** The parts of a key, after its sign. */
  lemma KeyParts(d: Date)
    requires ValidDate(d)
    ensures var key := DayKey(d);
            && key != "" && (d.year < 0 <==> key[0] == '-')
            && Parts(if d.year < 0 then key[1..] else key) ==
               Some((if d.year < 0 then Pad(-d.year, 3) else Pad(d.year, 4), Pad(d.month, 2), Pad(d.day, 2)))
  {
    hide Pad, DaysInMonth, Parts;
    var year := if d.year < 0 then Pad(-d.year, 3) else Pad(d.year, 4);
    PadParses(if d.year < 0 then -d.year else d.year, if d.year < 0 then 3 else 4);
    PadParses(d.month, 2);
    PadParses(d.day, 2);
    PartsOf(year, Pad(d.month, 2), Pad(d.day, 2));
    var body := year + "-" + Pad(d.month, 2) + "-" + Pad(d.day, 2);
    if d.year < 0 {
      assert DayKey(d) == "-" + body;
      assert DayKey(d)[1..] == body;
    } else {
      assert DayKey(d) == body;
      assert body[0] == year[0] && year[0] in year;
    }
  }

  /** Two instants share a day bucket exactly when they fall on the same local day. */
  lemma SameBucketIff(a: int, b: int, tz: int)
    ensures BucketInstant(a, Day, tz) == BucketInstant(b, Day, tz) <==> LocalDay(a, tz) == LocalDay(b, tz)
  {
    hide DayKey, DaysFromCivil, CivilFromDays, ValidDate;
    if BucketInstant(a, Day, tz) == BucketInstant(b, Day, tz) {
      DayKeyInjective(LocalDate(a, tz), LocalDate(b, tz));
      CivilThenDays(LocalDay(a, tz));
      CivilThenDays(LocalDay(b, tz));
    }
  }

  // ---- Order --------------------------------------------------------------------------------

  /** Calendar order of dates. */
  predicate Earlier(d: Date, e: Date) {
    d.year < e.year || (d.year == e.year && (d.month < e.month || (d.month == e.month && d.day < e.day)))
  }

  lemma {:induction false} DayOrder(a: int, b: int)
    requires a < b
    ensures Earlier(CivilFromDays(a), CivilFromDays(b))
    decreases b - a
  {
    hide CivilFromDays, ValidDate;
    SuccessorDay(b - 1);
    LaterNextDay(CivilFromDays(b - 1));
    if a < b - 1 { DayOrder(a, b - 1); }
  }

  lemma LaterNextDay(d: Date)
    requires ValidDate(d)
    ensures Earlier(d, NextDay(d))
  {
  }

  function Pow10(w: nat): nat { if w == 0 then 1 else 10 * Pow10(w - 1) }

  /** The last `w` decimal digits of a number. */
  function Fixed(n: nat, w: nat): (s: string)
    ensures |s| == w
  {
    if w == 0 then "" else Fixed(n / 10, w - 1) + [DigitChar(n % 10)]
  }

  lemma {:induction false} DigitCount(n: nat, w: nat)
    requires w > 0
    ensures |NatToString(n)| <= w <==> n < Pow10(w)
  {
    if w == 1 {
      assert Pow10(1) == 10 * Pow10(0);
    } else if n >= 10 {
      DigitCount(n / 10, w - 1);
      assert n / 10 < Pow10(w - 1) <==> n < 10 * Pow10(w - 1);
    } else {
      Pow10AtLeast(w);
    }
  }

  lemma {:induction false} Pow10AtLeast(w: nat)
    requires w > 0
    ensures Pow10(w) >= 10
  {
    if w > 1 { Pow10AtLeast(w - 1); }
  }

  lemma {:induction false} FixedOfZero(w: nat)
    ensures Fixed(0, w) == Zeros(w)
  {
    if w > 0 {
      FixedOfZero(w - 1);
      assert Zeros(w) == Zeros(w - 1) + ['0'];
    }
  }

  lemma {:induction false} PadIsFixed(n: nat, w: nat)
    requires w > 0 && n < Pow10(w)
    ensures Pad(n, w) == Fixed(n, w)
  {
    DigitCount(n, w);
    assert Pow10(1) == 10 * Pow10(0);
    if n < 10 {
      FixedOfZero(w - 1);
    } else if w > 1 {
      assert n / 10 < Pow10(w - 1);
      PadIsFixed(n / 10, w - 1);
      DigitCount(n / 10, w - 1);
      var s := NatToString(n / 10);
      assert NatToString(n) == s + [DigitChar(n % 10)];
      if |s| < w - 1 { assert Pad(n, w) == Zeros(w - 1 - |s|) + s + [DigitChar(n % 10)]; }
    }
  }

  /** Fixed-width numerals, each followed by some text, order as the numbers and then as the texts. */
  lemma {:induction false} FixedOrder(a: nat, b: nat, w: nat, s: string, t: string)
    requires a < Pow10(w) && b < Pow10(w)
    ensures Before(Fixed(a, w) + s, Fixed(b, w) + t) <==> a < b || (a == b && Before(s, t))
    decreases w
  {
    if w == 0 {
      assert Fixed(a, 0) + s == s && Fixed(b, 0) + t == t;
    } else {
      var x, y := [DigitChar(a % 10)] + s, [DigitChar(b % 10)] + t;
      assert a / 10 < Pow10(w - 1) && b / 10 < Pow10(w - 1);
      FixedOrder(a / 10, b / 10, w - 1, x, y);
      assert Fixed(a, w) + s == Fixed(a / 10, w - 1) + x && Fixed(b, w) + t == Fixed(b / 10, w - 1) + y;
      assert x[1..] == s && y[1..] == t;
    }
  }

  /** Within years 0 to 9999, day keys order as text exactly as their dates order in time. */
  lemma DayKeyOrder(d: Date, e: Date)
    requires ValidDate(d) && ValidDate(e) && 0 <= d.year <= 9999 && 0 <= e.year <= 9999
    ensures Before(DayKey(d), DayKey(e)) <==> Earlier(d, e)
  {
    hide Fixed, Pad, Before;
    assert Pow10(2) == 100 && Pow10(4) == 10000;
    PadIsFixed(d.year, 4); PadIsFixed(d.month, 2); PadIsFixed(d.day, 2);
    PadIsFixed(e.year, 4); PadIsFixed(e.month, 2); PadIsFixed(e.day, 2);
    var dd, ed := Fixed(d.day, 2), Fixed(e.day, 2);
    var dm, em := Fixed(d.month, 2) + ("-" + dd), Fixed(e.month, 2) + ("-" + ed);
    FixedOrder(d.day, e.day, 2, "", "");
    assert dd + "" == dd && ed + "" == ed;
    DashOrder(dd, ed);
    FixedOrder(d.month, e.month, 2, "-" + dd, "-" + ed);
    DashOrder(dm, em);
    FixedOrder(d.year, e.year, 4, "-" + dm, "-" + em);
    assert DayKey(d) == Fixed(d.year, 4) + ("-" + dm) && DayKey(e) == Fixed(e.year, 4) + ("-" + em);
    assert !Before("", "") by { NotBothBefore("", ""); }
  }

  lemma DashOrder(s: string, t: string)
    ensures Before("-" + s, "-" + t) <==> Before(s, t)
  {
    assert ("-" + s)[1..] == s && ("-" + t)[1..] == t;
  }

  /** So sorting day buckets as text sorts them in time. */
  lemma DayBucketsSortChronologically(a: int, b: int, tz: int)
    requires 0 <= LocalDate(a, tz).year <= 9999 && 0 <= LocalDate(b, tz).year <= 9999
    ensures Before(BucketInstant(a, Day, tz), BucketInstant(b, Day, tz)) <==> LocalDay(a, tz) < LocalDay(b, tz)
  {
    hide DayKey, DaysFromCivil, CivilFromDays, ValidDate, Before;
    DayKeyOrder(LocalDate(a, tz), LocalDate(b, tz));
    if LocalDay(a, tz) < LocalDay(b, tz) { DayOrder(LocalDay(a, tz), LocalDay(b, tz)); }
    if LocalDay(b, tz) < LocalDay(a, tz) { DayOrder(LocalDay(b, tz), LocalDay(a, tz)); }
  }

  /** A month key is the first seven characters of the day key exactly for years -999 to 9999. */
  lemma MonthKeyIsPrefixIff(d: Date)
    requires ValidDate(d)
    ensures |DayKey(d)| >= 7
    ensures MonthKey(d) == DayKey(d)[..7] <==> -999 <= d.year <= 9999
  {
    assert Pow10(3) == 1000 && Pow10(4) == 10 * Pow10(3);
    TwoDigits(d.month);
    TwoDigits(d.day);
    if d.year >= 0 { DigitCount(d.year, 4); } else { DigitCount(-d.year, 3); }
    hide NatToString;
    assert |FormatYear(d.year)| >= 4;
    assert |FormatYear(d.year)| == 4 <==> -999 <= d.year <= 9999;
    assert DayKey(d)[..|MonthKey(d)|] == MonthKey(d);
  }

  // ---- Months and exact instants --------------------------------------------------------------

  /** A month key identifies a year and a month, on both sides of year 0. */
  lemma MonthKeyInjective(d: Date, e: Date)
    requires ValidDate(d) && ValidDate(e)
    ensures MonthKey(d) == MonthKey(e) <==> d.year == e.year && d.month == e.month
  {
    hide Pad, FormatYear;
    if MonthKey(d) == MonthKey(e) {
      var first, other := Date(d.year, d.month, 1), Date(e.year, e.month, 1);
      assert DayKey(first) == DayKey(other);
      DayKeyInjective(first, other);
    }
  }

  /** Two instants share a month bucket exactly when their local dates have the same year and month. */
  lemma SameMonthIff(a: int, b: int, tz: int)
    ensures BucketInstant(a, Month, tz) == BucketInstant(b, Month, tz) <==>
            LocalDate(a, tz).year == LocalDate(b, tz).year && LocalDate(a, tz).month == LocalDate(b, tz).month
  {
    hide MonthKey, ValidDate, CivilFromDays;
    MonthKeyInjective(LocalDate(a, tz), LocalDate(b, tz));
  }

  /** A day bucket is the month bucket of the same instant, a dash and two digits; the month bucket is its
      first seven characters exactly in years -999 to 9999. */
  lemma MonthBucketIsPrefix(millis: int, tz: int)
    ensures var day, month := BucketInstant(millis, Day, tz), BucketInstant(millis, Month, tz);
            && month + "-" <= day && |day| == |month| + 3 && |day| >= 7
            && (month == day[..7] <==> -999 <= LocalDate(millis, tz).year <= 9999)
  {
    hide FormatYear, CivilFromDays, Pad;
    var d := LocalDate(millis, tz);
    TwoDigits(d.day);
    MonthKeyIsPrefixIff(d);
  }

  /** An exact bucket is the instant itself, in decimal; so equal buckets are equal instants. */
  lemma ExactBucketParses(millis: int, tz: int)
    ensures ParseI64(BucketInstant(millis, Exact, tz)) == Some(millis)
    ensures BucketInstant(millis, Exact, tz)[0] == '-' <==> millis < 0
  {
    hide NatToString;
    var n := if millis >= 0 then millis else -millis;
    DigitsRoundTrip(n);
    if millis < 0 {
      assert ("-" + NatToString(n))[1..] == NatToString(n);
      assert NatToString(n) != "";
    } else {
      assert NatToString(n)[0] in NatToString(n);
    }
  }

  lemma SameInstantIff(a: int, b: int, tz: int)
    ensures BucketInstant(a, Exact, tz) == BucketInstant(b, Exact, tz) <==> a == b
  {
    hide BucketInstant;
    ExactBucketParses(a, tz);
    ExactBucketParses(b, tz);
  }
}
