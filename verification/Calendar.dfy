/**
 Calendar arithmetic of the timestamp formatter, against the Gregorian calendar as
 RFC 3339 restates it: the leap-year rule of its Appendix C and the month lengths of
 its section 5.7.
 */
module Calendar {

  datatype Date = Date(year: nat, month: nat, day: nat)

  /** The date of a number of days since 1970-01-01, by the shifted-year algorithm. */
  function DaysToYmd(daysSinceEpoch: nat): Date {
    var days := daysSinceEpoch + 719468;
    var era := days / 146097;
    var doe := days % 146097;
    var yoe := YearOfEra(doe);
    YearOfEraIsRight(doe);
    ShiftedDate(yoe + era * 400, doe - (365 * yoe + yoe / 4 - yoe / 100))
  }

  /** The date of day `doy` in the year that starts in March of year `y`. */
  function ShiftedDate(y: nat, doy: nat): Date
    requires doy < 366
  {
    var mp := (5 * doy + 2) / 153;
    var d := doy - (153 * mp + 2) / 5 + 1;
    var m := if mp < 10 then mp + 3 else mp - 9;
    MonthIsRight(doy);
    Date(if m <= 2 then y + 1 else y, m, d)
  }

  function YearOfEra(doe: nat): nat
    requires doe < 146097
  {
    (doe - doe / 1460 + doe / 36524 - doe / 146096) / 365
  }

  // ----- The reference calendar -----

  predicate IsLeap(year: nat) {
    year % 4 == 0 && (year % 100 != 0 || year % 400 == 0)
  }

  function DaysInMonth(year: nat, month: nat): nat {
    if month == 2 then (if IsLeap(year) then 29 else 28)
    else if month in {4, 6, 9, 11} then 30
    else 31
  }

  predicate ValidDate(d: Date) {
    1 <= d.month <= 12 && 1 <= d.day <= DaysInMonth(d.year, d.month)
  }

  /** The next day on the calendar. */
  function Successor(d: Date): Date {
    if d.day < DaysInMonth(d.year, d.month) then d.(day := d.day + 1)
    else if d.month < 12 then Date(d.year, d.month + 1, 1)
    else Date(d.year + 1, 1, 1)
  }

  function DaysBeforeYear(year: nat): nat
    requires year >= 1970
  {
    if year == 1970 then 0
    else DaysBeforeYear(year - 1) + (if IsLeap(year - 1) then 366 else 365)
  }

  function DaysBeforeMonth(year: nat, month: nat): nat
    requires 1 <= month
  {
    if month == 1 then 0 else DaysBeforeMonth(year, month - 1) + DaysInMonth(year, month - 1)
  }

  /** Days since 1970-01-01, counted year by year and month by month. */
  function DayNumber(d: Date): nat
    requires ValidDate(d) && d.year >= 1970
  {
    DaysBeforeYear(d.year) + DaysBeforeMonth(d.year, d.month) + d.day - 1
  }

  // ----- The shifted year -----

  /** First day within its era of a year that starts in March. */
  function StartOfYear(yoe: nat): nat {
    365 * yoe + yoe / 4 - yoe / 100
  }

  function ShiftedYearLength(yoe: nat): nat {
    if (yoe + 1) % 4 == 0 && ((yoe + 1) % 100 != 0 || (yoe + 1) % 400 == 0) then 366 else 365
  }

  /** A day of the era as century, four-year cycle and day of the cycle. */
  lemma SplitEra(doe: nat) returns (c: nat, q: nat, u: nat)
    requires doe < 146097
    ensures c < 4 && q < 25 && u <= 1460
    ensures doe == 36524 * c + 1461 * q + u
    ensures u == 1460 && q == 24 ==> c == 3
  {
    c := if doe == 146096 then 3 else doe / 36524;
    var t := doe - 36524 * c;
    q := t / 1461;
    u := t % 1461;
  }

  /** The corrections for leap days leave 365 days a year. */
  lemma YearOfEraOfSplit(doe: nat, c: nat, q: nat, u: nat)
    requires c < 4 && q < 25 && u <= 1460 && (u == 1460 && q == 24 ==> c == 3)
    requires doe == 36524 * c + 1461 * q + u && doe < 146097
    ensures YearOfEra(doe) == 100 * c + 4 * q + (if u == 1460 then 3 else u / 365)
  {
    var e := if 24 * c + q + u >= 1460 then 1 else 0;
    assert doe == 1460 * (25 * c + q + e) + (24 * c + q + u - 1460 * e);
    assert doe / 1460 == 25 * c + q + e;
    assert doe / 36524 - doe / 146096 == c;
    assert doe - doe / 1460 + doe / 36524 - doe / 146096 == 365 * (100 * c + 4 * q) + (u - e);
    assert (u - e) / 365 == if u == 1460 then 3 else u / 365;
  }

  lemma YearOfEraIsRight(doe: nat)
    requires doe < 146097
    ensures var yoe := YearOfEra(doe);
            yoe < 400 && StartOfYear(yoe) <= doe < StartOfYear(yoe) + ShiftedYearLength(yoe)
  {
    var c, q, u := SplitEra(doe);
    YearOfEraOfSplit(doe, c, q, u);
    var r := if u == 1460 then 3 else u / 365;
    var yoe := 100 * c + 4 * q + r;
    assert yoe / 100 == c && yoe / 4 == 25 * c + q;
    assert StartOfYear(yoe) == 36524 * c + 1461 * q + 365 * r;
    if u == 1460 {
      assert (yoe + 1) == 100 * c + 4 * (q + 1);
      assert (yoe + 1) % 4 == 0;
      assert q < 24 ==> (yoe + 1) % 100 == 4 * (q + 1);
    }
  }

  /** First day within a year that starts in March of the month `mp` after March. */
  function StartOfMonth(mp: nat): nat {
    (153 * mp + 2) / 5
  }

  lemma MonthIsRight(doy: nat)
    requires doy < 366
    ensures var mp := (5 * doy + 2) / 153;
            mp < 12 && StartOfMonth(mp) <= doy < StartOfMonth(mp + 1)
  {
  }

  // ----- Day by day -----

  lemma StartOfNextYear(yoe: nat)
    requires yoe < 400
    ensures StartOfYear(yoe) + ShiftedYearLength(yoe) == (if yoe == 399 then 146097 else StartOfYear(yoe + 1))
  {
  }

  lemma StartsIncrease(y1: nat, y2: nat)
    requires y1 <= y2
    ensures StartOfYear(y1) <= StartOfYear(y2)
  {
    if y1 < y2 {
      StartsIncrease(y1, y2 - 1);
    }
  }

  /** The year of an era is determined by the days it spans. */
  lemma YearOfEraIs(doe: nat, yoe: nat)
    requires yoe < 400 && doe < 146097
    requires StartOfYear(yoe) <= doe < StartOfYear(yoe) + ShiftedYearLength(yoe)
    ensures YearOfEra(doe) == yoe
  {
    YearOfEraIsRight(doe);
    var y := YearOfEra(doe);
    StartOfNextYear(yoe);
    StartOfNextYear(y);
    if y < yoe { StartsIncrease(y + 1, yoe); }
    if yoe < y { StartsIncrease(yoe + 1, y); }
  }

  lemma EraMod4(y: nat, era: nat)
    ensures (y + 400 * era) % 4 == y % 4
  {
  }

  lemma EraMod100(y: nat, era: nat)
    ensures (y + 400 * era) % 100 == y % 100
  {
  }

  lemma EraMod400(y: nat, era: nat)
    ensures (y + 400 * era) % 400 == y % 400
  {
  }

  lemma ShiftedLeap(era: nat, yoe: nat)
    ensures IsLeap(yoe + 400 * era + 1) <==> ShiftedYearLength(yoe) == 366
  {
    EraMod4(yoe + 1, era);
    EraMod100(yoe + 1, era);
    EraMod400(yoe + 1, era);
  }

  /** Within a shifted year the next day of the year is the next day of the calendar. */
  lemma NextInYear(y: nat, doy: nat)
    requires doy < (if IsLeap(y + 1) then 366 else 365)
    ensures ValidDate(ShiftedDate(y, doy))
    ensures doy + 1 < (if IsLeap(y + 1) then 366 else 365) ==>
              ShiftedDate(y, doy + 1) == Successor(ShiftedDate(y, doy))
    ensures doy + 1 == (if IsLeap(y + 1) then 366 else 365) ==>
              ShiftedDate(y + 1, 0) == Successor(ShiftedDate(y, doy))
  {
    MonthIsRight(doy);
    var mp := (5 * doy + 2) / 153;
    MonthLength(y, mp);
    if doy + 1 < 366 {
      MonthIsRight(doy + 1);
      var mp' := (5 * (doy + 1) + 2) / 153;
      assert mp' == mp || (mp' == mp + 1 && doy + 1 == StartOfMonth(mp'));
    }
  }

  lemma MonthLength(y: nat, mp: nat)
    requires mp < 12
    ensures var m := if mp < 10 then mp + 3 else mp - 9;
            mp < 11 ==> StartOfMonth(mp + 1) - StartOfMonth(mp) == DaysInMonth(if m <= 2 then y + 1 else y, m)
    ensures StartOfMonth(11) == 337
  {
    if mp < 6 {
      assert mp in {0, 1, 2, 3, 4, 5};
    } else {
      assert mp in {6, 7, 8, 9, 10, 11};
    }
  }

  /** Day count `n` is day `doy` of the shifted year `yoe` of era `era`. */
  ghost predicate Splits(n: nat, era: nat, yoe: nat, doy: nat) {
    && yoe < 400 && doy < ShiftedYearLength(yoe)
    && n + 719468 == 146097 * era + StartOfYear(yoe) + doy
  }

  lemma DaysToYmdOf(n: nat, era: nat, yoe: nat, doy: nat)
    requires Splits(n, era, yoe, doy)
    ensures DaysToYmd(n) == ShiftedDate(yoe + era * 400, doy)
  {
    var doe := StartOfYear(yoe) + doy;
    StartOfNextYear(yoe);
    if yoe < 399 { StartsIncrease(yoe + 1, 399); }
    assert (n + 719468) / 146097 == era && (n + 719468) % 146097 == doe;
    YearOfEraIs(doe, yoe);
  }

  lemma NextSplit(n: nat, era: nat, yoe: nat, doy: nat) returns (era': nat, yoe': nat, doy': nat)
    requires Splits(n, era, yoe, doy)
    ensures Splits(n + 1, era', yoe', doy')
    ensures if doy + 1 < ShiftedYearLength(yoe) then era' == era && yoe' == yoe && doy' == doy + 1
            else yoe' + era' * 400 == yoe + era * 400 + 1 && doy' == 0
  {
    StartOfNextYear(yoe);
    if doy + 1 < ShiftedYearLength(yoe) {
      era', yoe', doy' := era, yoe, doy + 1;
    } else if yoe < 399 {
      era', yoe', doy' := era, yoe + 1, 0;
    } else {
      era', yoe', doy' := era + 1, 0, 0;
    }
  }

  lemma NextShifted(era: nat, yoe: nat, doy: nat)
    requires doy < ShiftedYearLength(yoe)
    ensures var y := yoe + era * 400;
            Successor(ShiftedDate(y, doy))
            == if doy + 1 < ShiftedYearLength(yoe) then ShiftedDate(y, doy + 1) else ShiftedDate(y + 1, 0)
  {
    ShiftedLeap(era, yoe);
    NextInYear(yoe + era * 400, doy);
  }

  lemma NextSplitDate(n: nat, era: nat, yoe: nat, doy: nat) returns (era': nat, yoe': nat, doy': nat)
    requires Splits(n, era, yoe, doy)
    ensures Splits(n + 1, era', yoe', doy')
    ensures ShiftedDate(yoe' + era' * 400, doy') == Successor(ShiftedDate(yoe + era * 400, doy))
  {
    NextShifted(era, yoe, doy);
    era', yoe', doy' := NextSplit(n, era, yoe, doy);
  }

  /** The calendar counted off one day at a time from 1970-01-01. */
  function NthDay(n: nat): Date {
    if n == 0 then Date(1970, 1, 1) else Successor(NthDay(n - 1))
  }

  lemma {:induction false} NthDaySplit(n: nat) returns (era: nat, yoe: nat, doy: nat)
    ensures Splits(n, era, yoe, doy) && NthDay(n) == ShiftedDate(yoe + era * 400, doy)
  {
    if n == 0 {
      era, yoe, doy := 4, 369, 306;
    } else {
      era, yoe, doy := NthDaySplit(n - 1);
      era, yoe, doy := NextSplitDate(n - 1, era, yoe, doy);
    }
  }

  /** For every day count the arithmetic gives the day that counting off the calendar reaches. */
  lemma YmdIsNthDay(n: nat)
    ensures DaysToYmd(n) == NthDay(n)
  {
    var era, yoe, doy := NthDaySplit(n);
    DaysToYmdOf(n, era, yoe, doy);
  }

  /** The next day count gives the next day on the calendar. */
  lemma NextDay(n: nat)
    ensures DaysToYmd(n + 1) == Successor(DaysToYmd(n))
  {
    YmdIsNthDay(n);
    YmdIsNthDay(n + 1);
  }

  /** Moving to the next day adds one to the day number. */
  lemma SuccessorCounts(d: Date)
    requires ValidDate(d) && d.year >= 1970
    ensures ValidDate(Successor(d)) && DayNumber(Successor(d)) == DayNumber(d) + 1
  {
    if d.month == 12 {
      YearHasTwelveMonths(d.year);
    }
  }

  lemma YearHasTwelveMonths(year: nat)
    ensures DaysBeforeMonth(year, 12) == if IsLeap(year) then 335 else 334
  {
    var leap := if IsLeap(year) then 1 else 0;
    assert DaysBeforeMonth(year, 2) == 31;
    assert DaysBeforeMonth(year, 3) == 59 + leap;
    assert DaysBeforeMonth(year, 5) == 120 + leap;
    assert DaysBeforeMonth(year, 7) == 181 + leap;
    assert DaysBeforeMonth(year, 9) == 243 + leap;
    assert DaysBeforeMonth(year, 11) == 304 + leap;
  }

  lemma {:induction false} NthDayHasNumber(n: nat)
    ensures ValidDate(NthDay(n)) && NthDay(n).year >= 1970 && DayNumber(NthDay(n)) == n
  {
    if n > 0 {
      NthDayHasNumber(n - 1);
      SuccessorCounts(NthDay(n - 1));
    }
  }

  /** Every day count gives a valid date, and that date's own day count is the same. */
  lemma YmdHasDayNumber(n: nat)
    ensures ValidDate(DaysToYmd(n)) && DaysToYmd(n).year >= 1970
    ensures DayNumber(DaysToYmd(n)) == n
  {
    YmdIsNthDay(n);
    NthDayHasNumber(n);
  }

  // ----- Order -----

  predicate Before(a: Date, b: Date) {
    || a.year < b.year
    || (a.year == b.year && a.month < b.month)
    || (a.year == b.year && a.month == b.month && a.day < b.day)
  }

  lemma {:induction false} DaysInOrder(m: nat, n: nat)
    requires m < n
    ensures Before(NthDay(m), NthDay(n))
    decreases n - m
  {
    NthDayHasNumber(n - 1);
    if m < n - 1 {
      DaysInOrder(m, n - 1);
    }
  }

  /** Later dates have larger day numbers. */
  lemma DayNumberInOrder(a: Date, b: Date)
    requires ValidDate(a) && ValidDate(b) && a.year >= 1970 && Before(a, b)
    ensures DayNumber(a) < DayNumber(b)
  {
    MonthsAddUp(a.year, a.month, if a.year == b.year then b.month else 12);
    if a.year < b.year {
      YearHasTwelveMonths(a.year);
      YearsAddUp(a.year + 1, b.year);
    }
  }

  lemma {:induction false} MonthsAddUp(year: nat, m: nat, n: nat)
    requires 1 <= m <= n
    ensures m < n ==> DaysBeforeMonth(year, m) + DaysInMonth(year, m) <= DaysBeforeMonth(year, n)
    decreases n - m
  {
    if m < n {
      MonthsAddUp(year, m, n - 1);
    }
  }

  lemma {:induction false} YearsAddUp(m: nat, n: nat)
    requires 1970 <= m <= n
    ensures DaysBeforeYear(m) <= DaysBeforeYear(n)
    decreases n - m
  {
    if m < n {
      YearsAddUp(m, n - 1);
    }
  }

  /** And the other way round: the number of every date from 1970 on gives that date back. */
  lemma YmdInvertsDayNumber(d: Date)
    requires ValidDate(d) && d.year >= 1970
    ensures DaysToYmd(DayNumber(d)) == d
  {
    var n := DayNumber(d);
    YmdIsNthDay(n);
    NthDayHasNumber(n);
    var e := NthDay(n);
    if Before(d, e) {
      DayNumberInOrder(d, e);
    } else if Before(e, d) {
      DayNumberInOrder(e, d);
    }
  }

  // ----- Formatting -----

  function Digit(n: nat): char
    requires n < 10
  {
    ['0', '1', '2', '3', '4', '5', '6', '7', '8', '9'][n]
  }

  /** Decimal digits, filled up with zeros to at least `width`. */
  function Padded(n: nat, width: nat): string {
    if n < 10 && width <= 1 then [Digit(n)]
    else Padded(n / 10, if width == 0 then 0 else width - 1) + [Digit(n % 10)]
  }

  /**
   The UTC breakdown of a number of seconds since the epoch into year, month, day, hours,
   minutes and seconds; earlier times count as the epoch.
   */
  function BreakDown(secsSinceEpoch: int): seq<nat> {
    var secs := if secsSinceEpoch < 0 then 0 else secsSinceEpoch;
    var date := DaysToYmd(secs / 86400);
    [date.year, date.month, date.day] + TimeOfDay(secs % 86400)
  }

  function TimeOfDay(timeSecs: nat): seq<nat> {
    [timeSecs / 3600, (timeSecs % 3600) / 60, timeSecs % 60]
  }

  /** Each value padded to its width and followed by its separator. */
  function Render(values: seq<nat>, widths: seq<nat>, separators: string): string
    requires |values| == |widths| == |separators|
  {
    if values == [] then ""
    else Padded(values[0], widths[0]) + [separators[0]] + Render(values[1..], widths[1..], separators[1..])
  }

  function FormatSystemTime(secsSinceEpoch: int): string {
    Render(BreakDown(secsSinceEpoch), [4, 2, 2, 2, 2, 2], "--T::Z")
  }

  function Pow10(n: nat): nat {
    if n == 0 then 1 else 10 * Pow10(n - 1)
  }

  /** The order of two strings at the first place where they differ. */
  ghost predicate LexLess(a: string, b: string) {
    exists k :: 0 <= k < |a| && k < |b| && a[..k] == b[..k] && a[k] < b[k]
  }

  lemma {:induction false} PaddedLength(n: nat, width: nat)
    requires width >= 1 && n < Pow10(width)
    ensures |Padded(n, width)| == width
  {
    if width > 1 {
      PaddedLength(n / 10, width - 1);
    }
  }

  lemma {:induction false} PaddedInOrder(m: nat, n: nat, width: nat)
    requires width >= 1 && m < n < Pow10(width)
    ensures LexLess(Padded(m, width), Padded(n, width))
  {
    PaddedLength(m, width);
    PaddedLength(n, width);
    var a, b := Padded(m, width), Padded(n, width);
    if width == 1 {
      assert a[..0] == b[..0];
    } else if m / 10 < n / 10 {
      PaddedInOrder(m / 10, n / 10, width - 1);
      LexLessExtends(Padded(m / 10, width - 1), Padded(n / 10, width - 1), [Digit(m % 10)], [Digit(n % 10)]);
    } else {
      assert a[..width - 1] == b[..width - 1];
    }
  }

  lemma LexLessExtends(a: string, b: string, x: string, y: string)
    requires LexLess(a, b)
    ensures LexLess(a + x, b + y)
  {
    var k :| 0 <= k < |a| && k < |b| && a[..k] == b[..k] && a[k] < b[k];
    assert (a + x)[..k] == (b + y)[..k];
  }

  lemma LexLessPrefixed(p: string, a: string, b: string)
    requires LexLess(a, b)
    ensures LexLess(p + a, p + b)
  {
    var k :| 0 <= k < |a| && k < |b| && a[..k] == b[..k] && a[k] < b[k];
    assert (p + a)[..|p| + k] == p + a[..k];
    assert (p + b)[..|p| + k] == p + b[..k];
    assert (p + a)[|p| + k] < (p + b)[|p| + k];
  }

  /** The order of two lists of numbers at the first place where they differ. */
  ghost predicate ValuesLess(a: seq<nat>, b: seq<nat>) {
    exists k :: 0 <= k < |a| && k < |b| && a[..k] == b[..k] && a[k] < b[k]
  }

  ghost predicate Fit(values: seq<nat>, widths: seq<nat>) {
    |values| == |widths| && forall i | 0 <= i < |values| :: widths[i] >= 1 && values[i] < Pow10(widths[i])
  }

  /** The first values decide, or else the rest. */
  lemma FirstOrRest(a: seq<nat>, b: seq<nat>)
    requires ValuesLess(a, b)
    ensures a != [] && b != [] && (a[0] < b[0] || (a[0] == b[0] && ValuesLess(a[1..], b[1..])))
  {
    var k :| 0 <= k < |a| && k < |b| && a[..k] == b[..k] && a[k] < b[k];
    if k > 0 {
      assert a[0] == a[..k][0] == b[..k][0] == b[0];
      assert a[1..][..k - 1] == a[..k][1..] && b[1..][..k - 1] == b[..k][1..];
      assert a[1..][k - 1] < b[1..][k - 1];
    }
  }

  lemma {:induction false} RenderInOrder(a: seq<nat>, b: seq<nat>, widths: seq<nat>, separators: string)
    requires Fit(a, widths) && Fit(b, widths) && |separators| == |widths| && ValuesLess(a, b)
    ensures LexLess(Render(a, widths, separators), Render(b, widths, separators))
  {
    FirstOrRest(a, b);
    var c, p, q := [separators[0]], Padded(a[0], widths[0]), Padded(b[0], widths[0]);
    var x, y := Render(a[1..], widths[1..], separators[1..]), Render(b[1..], widths[1..], separators[1..]);
    if a[0] < b[0] {
      PaddedInOrder(a[0], b[0], widths[0]);
      LexLessExtends(p, q, c, c);
      LexLessExtends(p + c, q + c, x, y);
    } else {
      RenderInOrder(a[1..], b[1..], widths[1..], separators[1..]);
      LexLessPrefixed(p + c, x, y);
    }
  }

  lemma TimeInOrder(s: nat, t: nat)
    requires s < t < 86400
    ensures ValuesLess(TimeOfDay(s), TimeOfDay(t))
  {
    var a, b := TimeOfDay(s), TimeOfDay(t);
    assert s == 3600 * a[0] + 60 * a[1] + a[2] && a[1] < 60 && a[2] < 60;
    assert t == 3600 * b[0] + 60 * b[1] + b[2] && b[1] < 60 && b[2] < 60;
    assert a[..0] == b[..0] && (a[0] == b[0] ==> a[..1] == b[..1]);
    assert a[0] == b[0] && a[1] == b[1] ==> a[..2] == b[..2];
    var k := if a[0] != b[0] then 0 else if a[1] != b[1] then 1 else 2;
    assert a[k] < b[k];
  }

  lemma DateInOrder(d: Date, e: Date, x: seq<nat>, y: seq<nat>)
    requires Before(d, e)
    ensures ValuesLess([d.year, d.month, d.day] + x, [e.year, e.month, e.day] + y)
  {
    var a, b := [d.year, d.month, d.day] + x, [e.year, e.month, e.day] + y;
    assert a[..0] == b[..0] && (a[0] == b[0] ==> a[..1] == b[..1]);
    assert a[0] == b[0] && a[1] == b[1] ==> a[..2] == b[..2];
    var k := if a[0] != b[0] then 0 else if a[1] != b[1] then 1 else 2;
    assert a[k] < b[k];
  }

  /** The breakdown with the date counted off the calendar. */
  function Counted(s: nat): seq<nat> {
    var date := NthDay(s / 86400);
    [date.year, date.month, date.day] + TimeOfDay(s % 86400)
  }

  lemma FormatsCounted(s: nat)
    ensures FormatSystemTime(s) == Render(Counted(s), [4, 2, 2, 2, 2, 2], "--T::Z")
  {
    YmdIsNthDay(s / 86400);
  }

  lemma CountedInOrder(s: nat, t: nat)
    requires s < t
    ensures ValuesLess(Counted(s), Counted(t))
  {
    var d, e := s / 86400, t / 86400;
    var a, b := TimeOfDay(s % 86400), TimeOfDay(t % 86400);
    if d < e {
      DaysInOrder(d, e);
      DateInOrder(NthDay(d), NthDay(e), a, b);
    } else {
      TimeInOrder(s % 86400, t % 86400);
      ValuesLessPrefixed([NthDay(d).year, NthDay(d).month, NthDay(d).day], a, b);
    }
  }

  lemma ValuesLessPrefixed(p: seq<nat>, a: seq<nat>, b: seq<nat>)
    requires ValuesLess(a, b)
    ensures ValuesLess(p + a, p + b)
  {
    var k :| 0 <= k < |a| && k < |b| && a[..k] == b[..k] && a[k] < b[k];
    assert (p + a)[..|p| + k] == p + a[..k] && (p + b)[..|p| + k] == p + b[..k];
    assert (p + a)[|p| + k] < (p + b)[|p| + k];
  }

  lemma CountedFits(s: nat)
    requires NthDay(s / 86400).year < 10000
    ensures Fit(Counted(s), [4, 2, 2, 2, 2, 2])
  {
    NthDayHasNumber(s / 86400);
    assert Pow10(2) == 100 && Pow10(4) == 10000;
  }

  lemma CountedRendersInOrder(s: nat, t: nat)
    requires s < t && NthDay(t / 86400).year < 10000
    ensures LexLess(Render(Counted(s), [4, 2, 2, 2, 2, 2], "--T::Z"),
                    Render(Counted(t), [4, 2, 2, 2, 2, 2], "--T::Z"))
  {
    if s / 86400 < t / 86400 { DaysInOrder(s / 86400, t / 86400); }
    CountedFits(s);
    CountedFits(t);
    CountedInOrder(s, t);
    RenderInOrder(Counted(s), Counted(t), [4, 2, 2, 2, 2, 2], "--T::Z");
  }

  /** Later times sort later as text, as long as years have four digits. */
  lemma FormattedInOrder(s: nat, t: nat)
    requires s < t && DaysToYmd(t / 86400).year < 10000
    ensures LexLess(FormatSystemTime(s), FormatSystemTime(t))
  {
    YmdIsNthDay(t / 86400);
    CountedRendersInOrder(s, t);
    FormatsCounted(s);
    FormatsCounted(t);
  }

  // ----- Reading the text back -----

  predicate AreDigits(s: string) {
    forall i | 0 <= i < |s| :: '0' <= s[i] <= '9'
  }

  /** The number that decimal digits denote. */
  function NumberOf(digits: string): nat
    requires AreDigits(digits)
  {
    if digits == "" then 0
    else 10 * NumberOf(digits[..|digits| - 1]) + (digits[|digits| - 1] - '0') as nat
  }

  /** One more digit. */
  lemma DigitIsRead(digits: string, n: nat)
    requires AreDigits(digits) && n < 10
    ensures AreDigits(digits + [Digit(n)]) && NumberOf(digits + [Digit(n)]) == 10 * NumberOf(digits) + n
  {
    var more := digits + [Digit(n)];
    assert more[..|more| - 1] == digits && more[|more| - 1] == Digit(n);
  }

  lemma {:induction false} PaddedReadsBack(n: nat, width: nat)
    ensures |Padded(n, width)| >= width && AreDigits(Padded(n, width)) && NumberOf(Padded(n, width)) == n
    decreases n + width
  {
    if n < 10 && width <= 1 {
      DigitIsRead("", n);
      assert "" + [Digit(n)] == [Digit(n)];
    } else {
      var less := if width == 0 then 0 else width - 1;
      PaddedReadsBack(n / 10, less);
      DigitIsRead(Padded(n / 10, less), n % 10);
    }
  }

  /** The fields of an RFC 3339 timestamp in UTC, as text. */
  datatype Fields = Fields(year: string, month: string, day: string, hours: string, minutes: string, seconds: string)

  function TextOf(f: Fields): string {
    f.year + "-" + f.month + "-" + f.day + "T" + f.hours + ":" + f.minutes + ":" + f.seconds + "Z"
  }

  /** Digits as section 5.6 of RFC 3339 has them; only a year after 9999 is longer. */
  predicate WellFormed(f: Fields) {
    && AreDigits(f.year) && AreDigits(f.month) && AreDigits(f.day)
    && AreDigits(f.hours) && AreDigits(f.minutes) && AreDigits(f.seconds)
    && |f.year| >= 4 && (NumberOf(f.year) < 10000 ==> |f.year| == 4)
    && |f.month| == |f.day| == |f.hours| == |f.minutes| == |f.seconds| == 2
  }

  /** The instant that a timestamp denotes, by counting years, months and days. */
  ghost predicate Denotes(f: Fields, secs: nat) {
    && WellFormed(f)
    && var d := Date(NumberOf(f.year), NumberOf(f.month), NumberOf(f.day));
    && ValidDate(d) && d.year >= 1970
    && NumberOf(f.hours) < 24 && NumberOf(f.minutes) < 60 && NumberOf(f.seconds) < 60
    && secs == 86400 * DayNumber(d) + 3600 * NumberOf(f.hours) + 60 * NumberOf(f.minutes) + NumberOf(f.seconds)
  }

  /** A value, its separator and the rest. */
  lemma RenderNext(n: nat, values: seq<nat>, width: nat, widths: seq<nat>, separator: char, separators: string)
    requires |values| == |widths| == |separators|
    ensures Render([n] + values, [width] + widths, [separator] + separators)
            == Padded(n, width) + [separator] + Render(values, widths, separators)
  {
  }

  lemma LastIsRendered(n: nat, width: nat, separator: char)
    ensures Render([n], [width], [separator]) == Padded(n, width) + [separator]
  {
    RenderNext(n, [], width, [], separator, "");
    assert [n] + [] == [n] && [width] + [] == [width] && [separator] + "" == [separator];
  }

  lemma TimeIsRendered(h: nat, m: nat, s: nat)
    ensures Render([h, m, s], [2, 2, 2], "::Z") == Padded(h, 2) + ":" + (Padded(m, 2) + ":" + (Padded(s, 2) + "Z"))
  {
    LastIsRendered(s, 2, 'Z');
    RenderNext(m, [s], 2, [2], ':', "Z");
    RenderNext(h, [m, s], 2, [2, 2], ':', ":Z");
    assert [m] + [s] == [m, s] && [h] + [m, s] == [h, m, s] && [2] + [2] == [2, 2] && [2] + [2, 2] == [2, 2, 2];
    assert [':'] + "Z" == ":Z" && [':'] + ":Z" == "::Z";
  }

  lemma DateIsRendered(d: Date, time: seq<nat>, widths: seq<nat>, separators: string)
    requires |time| == |widths| == |separators|
    ensures Render([d.year, d.month, d.day] + time, [4, 2, 2] + widths, "--T" + separators)
            == Padded(d.year, 4) + "-"
               + (Padded(d.month, 2) + "-" + (Padded(d.day, 2) + "T" + Render(time, widths, separators)))
  {
    RenderNext(d.day, time, 2, widths, 'T', separators);
    RenderNext(d.month, [d.day] + time, 2, [2] + widths, '-', ['T'] + separators);
    RenderNext(d.year, [d.month] + ([d.day] + time), 4, [2] + ([2] + widths), '-', ['-'] + (['T'] + separators));
    assert [d.year] + ([d.month] + ([d.day] + time)) == [d.year, d.month, d.day] + time;
    assert [4] + ([2] + ([2] + widths)) == [4, 2, 2] + widths;
    assert ['-'] + (['-'] + (['T'] + separators)) == "--T" + separators;
  }

  lemma Flatten(a: string, b: string, c: string, d: string, e: string, f: string)
    ensures a + "-" + (b + "-" + (c + "T" + (d + ":" + (e + ":" + (f + "Z")))))
            == a + "-" + b + "-" + c + "T" + d + ":" + e + ":" + f + "Z"
  {
    Regroup(a + "-", b + "-", c + "T" + (d + ":" + (e + ":" + (f + "Z"))));
    Regroup(a + "-" + (b + "-"), c + "T", d + ":" + (e + ":" + (f + "Z")));
    Regroup(a + "-" + (b + "-") + (c + "T"), d + ":", e + ":" + (f + "Z"));
    Regroup(a + "-" + (b + "-") + (c + "T") + (d + ":"), e + ":", f + "Z");
    Regroup(a + "-", b, "-");
    Regroup(a + "-" + b + "-", c, "T");
    Regroup(a + "-" + b + "-" + c + "T", d, ":");
    Regroup(a + "-" + b + "-" + c + "T" + d + ":", e, ":");
    Regroup(a + "-" + b + "-" + c + "T" + d + ":" + e + ":", f, "Z");
  }

  lemma Regroup(a: string, b: string, c: string)
    ensures a + (b + c) == a + b + c
  {
  }

  lemma BreakDownIsRendered(d: Date, h: nat, m: nat, s: nat)
    ensures Render([d.year, d.month, d.day] + [h, m, s], [4, 2, 2, 2, 2, 2], "--T::Z")
            == TextOf(Fields(Padded(d.year, 4), Padded(d.month, 2), Padded(d.day, 2),
                             Padded(h, 2), Padded(m, 2), Padded(s, 2)))
  {
    TimeIsRendered(h, m, s);
    DateIsRendered(d, [h, m, s], [2, 2, 2], "::Z");
    assert [4, 2, 2] + [2, 2, 2] == [4, 2, 2, 2, 2, 2] && "--T" + "::Z" == "--T::Z";
    Flatten(Padded(d.year, 4), Padded(d.month, 2), Padded(d.day, 2), Padded(h, 2), Padded(m, 2), Padded(s, 2));
  }

  /**
   The formatted text is a timestamp that denotes the very instant formatted, whatever it is; an
   instant before the epoch is formatted as the epoch.
   */
  lemma FormattedReadsBack(secsSinceEpoch: int) returns (f: Fields)
    ensures FormatSystemTime(secsSinceEpoch) == TextOf(f)
    ensures Denotes(f, if secsSinceEpoch < 0 then 0 else secsSinceEpoch)
  {
    var secs := if secsSinceEpoch < 0 then 0 else secsSinceEpoch;
    var d, t := DaysToYmd(secs / 86400), secs % 86400;
    var h, m, s := t / 3600, t % 3600 / 60, t % 60;
    YmdHasDayNumber(secs / 86400);
    f := Fields(Padded(d.year, 4), Padded(d.month, 2), Padded(d.day, 2), Padded(h, 2), Padded(m, 2), Padded(s, 2));
    BreakDownIsRendered(d, h, m, s);
    DateIsPadded(d, f);
    TimeAddsUp(t);
    TimeIsPadded(h, m, s, f);
  }

  lemma DateIsPadded(d: Date, f: Fields)
    requires ValidDate(d)
    requires f.year == Padded(d.year, 4) && f.month == Padded(d.month, 2) && f.day == Padded(d.day, 2)
    ensures AreDigits(f.year) && NumberOf(f.year) == d.year && |f.year| >= 4 && (d.year < 10000 ==> |f.year| == 4)
    ensures AreDigits(f.month) && NumberOf(f.month) == d.month && |f.month| == 2
    ensures AreDigits(f.day) && NumberOf(f.day) == d.day && |f.day| == 2
  {
    assert Pow10(4) == 10000;
    PaddedReadsBack(d.year, 4);
    if d.year < 10000 { PaddedLength(d.year, 4); }
    TwoDigits(d.month);
    TwoDigits(d.day);
  }

  lemma TimeIsPadded(h: nat, m: nat, s: nat, f: Fields)
    requires h < 24 && m < 60 && s < 60
    requires f.hours == Padded(h, 2) && f.minutes == Padded(m, 2) && f.seconds == Padded(s, 2)
    ensures AreDigits(f.hours) && |f.hours| == 2 && NumberOf(f.hours) == h
    ensures AreDigits(f.minutes) && |f.minutes| == 2 && NumberOf(f.minutes) == m
    ensures AreDigits(f.seconds) && |f.seconds| == 2 && NumberOf(f.seconds) == s
  {
    TwoDigits(h);
    TwoDigits(m);
    TwoDigits(s);
  }

  lemma TimeAddsUp(t: nat)
    requires t < 86400
    ensures t / 3600 < 24 && t % 3600 / 60 < 60 && t == 3600 * (t / 3600) + 60 * (t % 3600 / 60) + t % 60
  {
  }

  lemma TwoDigits(n: nat)
    requires n < 100
    ensures AreDigits(Padded(n, 2)) && NumberOf(Padded(n, 2)) == n && |Padded(n, 2)| == 2
  {
    assert Pow10(2) == 100;
    PaddedReadsBack(n, 2);
    PaddedLength(n, 2);
  }
}
