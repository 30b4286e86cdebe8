/** Calendar dates from seconds since 1970 (src/warp/register.rs, `civil_from_unix`). */
module CivilTime {
  datatype Date = Date(y: int, m: int, d: int)

  datatype Civil = Civil(date: Date, h: int, mi: int, s: int)

  // ---------------------------------------------------------------- the calendar

  predicate IsLeap(y: int) {
    y % 4 == 0 && (y % 100 != 0 || y % 400 == 0)
  }

  function DaysInMonth(y: int, m: int): int {
    if m == 2 then (if IsLeap(y) then 29 else 28)
    else if m == 4 || m == 6 || m == 9 || m == 11 then 30
    else 31
  }

  predicate IsDate(t: Date) {
    1 <= t.m <= 12 && 1 <= t.d <= DaysInMonth(t.y, t.m)
  }

  function NextDay(t: Date): Date {
    if t.d < DaysInMonth(t.y, t.m) then Date(t.y, t.m, t.d + 1)
    else if t.m < 12 then Date(t.y, t.m + 1, 1)
    else Date(t.y + 1, 1, 1)
  }

  function DaysBeforeMonth(y: int, m: nat): int {
    if m <= 1 then 0 else DaysBeforeMonth(y, m - 1) + DaysInMonth(y, m - 1)
  }

  /** The days before the first of January, counted from the first day of year one. */
  function DaysBeforeYear(y: int): int {
    365 * (y - 1) + (y - 1) / 4 - (y - 1) / 100 + (y - 1) / 400
  }

  /** Days since the first of January 1970, in the proleptic Gregorian calendar. */
  function DayCount(t: Date): int
    requires 1 <= t.m <= 12
  {
    DaysBeforeYear(t.y) + DaysBeforeMonth(t.y, t.m) + t.d - 1 - 719162
  }

  /** The count is that of the calendar: it is zero on the first of January 1970 and one more on each next day. */
  lemma {:induction false} DayCountSteps(t: Date)
    requires IsDate(t)
    ensures IsDate(NextDay(t)) && DayCount(NextDay(t)) == DayCount(t) + 1
    ensures DayCount(Date(1970, 1, 1)) == 0
  {
    YearLength(t.y);
  }

  lemma {:induction false} MonthStarts(y: int)
    ensures var leap := if IsLeap(y) then 1 else 0;
      && DaysBeforeMonth(y, 1) == 0 && DaysBeforeMonth(y, 2) == 31 && DaysBeforeMonth(y, 3) == 59 + leap
      && DaysBeforeMonth(y, 4) == 90 + leap && DaysBeforeMonth(y, 5) == 120 + leap && DaysBeforeMonth(y, 6) == 151 + leap
      && DaysBeforeMonth(y, 7) == 181 + leap && DaysBeforeMonth(y, 8) == 212 + leap && DaysBeforeMonth(y, 9) == 243 + leap
      && DaysBeforeMonth(y, 10) == 273 + leap && DaysBeforeMonth(y, 11) == 304 + leap && DaysBeforeMonth(y, 12) == 334 + leap
  {
    assert DaysBeforeMonth(y, 2) == DaysBeforeMonth(y, 1) + 31;
    assert DaysBeforeMonth(y, 3) == DaysBeforeMonth(y, 2) + DaysInMonth(y, 2);
    assert DaysBeforeMonth(y, 4) == DaysBeforeMonth(y, 3) + 31;
    assert DaysBeforeMonth(y, 5) == DaysBeforeMonth(y, 4) + 30;
    assert DaysBeforeMonth(y, 6) == DaysBeforeMonth(y, 5) + 31;
    assert DaysBeforeMonth(y, 7) == DaysBeforeMonth(y, 6) + 30;
    assert DaysBeforeMonth(y, 8) == DaysBeforeMonth(y, 7) + 31;
    assert DaysBeforeMonth(y, 9) == DaysBeforeMonth(y, 8) + 31;
    assert DaysBeforeMonth(y, 10) == DaysBeforeMonth(y, 9) + 30;
    assert DaysBeforeMonth(y, 11) == DaysBeforeMonth(y, 10) + 31;
    assert DaysBeforeMonth(y, 12) == DaysBeforeMonth(y, 11) + 30;
  }

  lemma {:induction false} YearLength(y: int)
    ensures DaysBeforeYear(y + 1) == DaysBeforeYear(y) + DaysBeforeMonth(y, 12) + 31
    ensures DaysBeforeMonth(y, 12) + 31 == if IsLeap(y) then 366 else 365
  {
    MonthStarts(y);
    LeapCount(y);
  }

  /** A leap year is where the number of multiples of 4, not of 100, but of 400 goes up. */
  lemma {:induction false} LeapCount(y: int)
    ensures (y / 4 - y / 100 + y / 400) - ((y - 1) / 4 - (y - 1) / 100 + (y - 1) / 400) == if IsLeap(y) then 1 else 0
  {
    Fourth(y);
    Hundredth(y);
    FourHundredth(y);
  }

  lemma {:induction false} Fourth(y: int)
    ensures y / 4 - (y - 1) / 4 == if y % 4 == 0 then 1 else 0
  {}

  lemma {:induction false} Hundredth(y: int)
    ensures y / 100 - (y - 1) / 100 == if y % 100 == 0 then 1 else 0
    ensures y % 100 == 0 ==> y % 4 == 0
  {
    var q := y / 100;
    HundredthBefore(q, y % 100);
    MultipleOfHundred(q);
  }

  lemma {:induction false} HundredthBefore(q: int, r: int)
    requires 0 <= r < 100
    ensures (100 * q + r - 1) / 100 == if r == 0 then q - 1 else q
  {}

  lemma {:induction false} MultipleOfHundred(q: int)
    ensures (100 * q) % 4 == 0
  {
    assert 100 * q == 4 * (25 * q);
  }

  lemma {:induction false} FourHundredth(y: int)
    ensures y / 400 - (y - 1) / 400 == if y % 400 == 0 then 1 else 0
    ensures y % 400 == 0 ==> y % 100 == 0
  {
    var q := y / 400;
    FourHundredthBefore(q, y % 400);
    MultipleOfFourHundred(q);
  }

  lemma {:induction false} FourHundredthBefore(q: int, r: int)
    requires 0 <= r < 400
    ensures (400 * q + r - 1) / 400 == if r == 0 then q - 1 else q
  {}

  lemma {:induction false} MultipleOfFourHundred(q: int)
    ensures (400 * q) % 100 == 0
  {
    assert 400 * q == 100 * (4 * q);
  }

  // ---------------------------------------------------------------- the algorithm

  /** The year of a 400-year era that begins on the first of March, from the day of the era. */
  function YearOfEra(doe: int): int {
    (doe - doe / 1460 + doe / 36524 - doe / 146096) / 365
  }

  function CivilDate(days: int): Date {
    var z := days + 719468;
    var era := z / 146097;
    var doe := z % 146097;
    var yoe := YearOfEra(doe);
    var y := yoe + era * 400;
    DateOfDay(y, doe - (365 * yoe + yoe / 4 - yoe / 100))
  }

  /** The date of a day of the year that begins in March of year `y`. */
  function DateOfDay(y: int, doy: int): Date {
    var mp := (5 * doy + 2) / 153;
    var d := doy - (153 * mp + 2) / 5 + 1;
    var m := if mp < 10 then mp + 3 else mp - 9;
    Date(if m <= 2 then y + 1 else y, m, d)
  }

  function CivilFromUnix(secs: int): Civil {
    var rem := secs % 86400;
    Civil(CivilDate(secs / 86400), rem / 3600, (rem % 3600) / 60, rem % 60)
  }

  /** Days of the era before its year `y`. */
  function EraYearStart(y: int): int {
    365 * y + y / 4 - y / 100
  }

  /** The place of a day in its era: century, four-year cycle, year of the cycle and day of the year. The last day of a cycle, and the last
      of the era, fall on the last year of their own. */
  ghost predicate Placed(doe: int, a: int, b: int, e: int, doy: int) {
    && 0 <= a <= 3 && 0 <= b <= 24 && 0 <= e <= 3 && 0 <= doy
    && doy <= (if e == 3 && (b < 24 || a == 3) then 365 else 364)
    && doe == 36524 * a + 1461 * b + 365 * e + doy
  }

  lemma {:induction false} PlaceOf(doe: int) returns (a: int, b: int, e: int, doy: int)
    requires 0 <= doe < 146097
    ensures Placed(doe, a, b, e, doy)
  {
    a := if doe / 36524 < 3 then doe / 36524 else 3;
    var r := doe - 36524 * a;
    b := r / 1461;
    var t := r - 1461 * b;
    e := if t / 365 < 3 then t / 365 else 3;
    doy := t - 365 * e;
  }

  /** The correction for leap days brings every day of a year to the same year. */
  lemma {:induction false} YearOfPlace(doe: int, a: int, b: int, e: int, doy: int)
    requires Placed(doe, a, b, e, doy)
    ensures YearOfEra(doe) == 100 * a + 4 * b + e
  {
    var over := 24 * a + b + 365 * e + doy;
    var k := if over >= 1460 then 1 else 0;
    assert doe / 1460 == 25 * a + b + k;
    var last := if 1461 * b + 365 * e + doy >= 36524 then 1 else 0;
    assert doe / 36524 == a + last;
    assert doe / 146096 == if a == 3 && last == 1 then 1 else 0;
    assert (doe - doe / 1460 + doe / 36524 - doe / 146096) / 365 == 100 * a + 4 * b + e;
  }

  /** The last day of a year of the era, which ends in February. */
  function LastDay(y: int): int {
    if (y + 1) % 4 == 0 && ((y + 1) % 100 != 0 || y + 1 == 400) then 365 else 364
  }

  lemma {:induction false} StartOfPlace(a: int, b: int, e: int)
    requires 0 <= a <= 3 && 0 <= b <= 24 && 0 <= e <= 3
    ensures EraYearStart(100 * a + 4 * b + e) == 36524 * a + 1461 * b + 365 * e
  {
    var y := 100 * a + 4 * b + e;
    assert y / 4 == 25 * a + b;
    assert y / 100 == a;
  }

  lemma {:induction false} LastDayOfPlace(a: int, b: int, e: int)
    requires 0 <= a <= 3 && 0 <= b <= 24 && 0 <= e <= 3
    ensures LastDay(100 * a + 4 * b + e) == if e == 3 && (b < 24 || a == 3) then 365 else 364
  {
    var y := 100 * a + 4 * b + e + 1;
    assert y % 4 == (e + 1) % 4;
    assert y % 100 == (4 * b + e + 1) % 100;
  }

  /** The year found is the one the day falls in. */
  lemma {:induction false} YearOfEraIs(doe: int)
    requires 0 <= doe < 146097
    ensures var y := YearOfEra(doe);
      && 0 <= y < 400 && EraYearStart(y) <= doe
      && doe - EraYearStart(y) <= LastDay(y)
  {
    var a, b, e, doy := PlaceOf(doe);
    YearOfPlace(doe, a, b, e, doy);
    StartOfPlace(a, b, e);
    LastDayOfPlace(a, b, e);
  }

  /** Months of thirty and thirty-one days, from March on. */
  lemma {:induction false} MonthOfYear(doy: int)
    requires 0 <= doy <= 365
    ensures var mp := (5 * doy + 2) / 153; var start := (153 * mp + 2) / 5;
      && 0 <= mp <= 11 && start <= doy
      && start == (match mp case 0 => 0 case 1 => 31 case 2 => 61 case 3 => 92 case 4 => 122 case 5 => 153
                   case 6 => 184 case 7 => 214 case 8 => 245 case 9 => 275 case 10 => 306 case _ => 337)
      && doy - start < (match mp case 0 => 31 case 1 => 30 case 2 => 31 case 3 => 30 case 4 => 31 case 5 => 31
                        case 6 => 30 case 7 => 31 case 8 => 30 case 9 => 31 case 10 => 31 case _ => 29)
  {}

  // ---------------------------------------------------------------- the two agree

  /** Days before the first of March of year `y`, counted from the first of March of year zero. */
  function MarchStart(y: int): int {
    365 * y + y / 4 - y / 100 + y / 400
  }

  lemma {:induction false} MarchOfEra(yoe: int, era: int)
    requires 0 <= yoe < 400
    ensures MarchStart(yoe + era * 400) == 146097 * era + EraYearStart(yoe)
  {
    var y := yoe + era * 400;
    assert y / 4 == yoe / 4 + 100 * era;
    assert y / 100 == yoe / 100 + 4 * era;
    assert y / 400 == era;
  }

  lemma {:induction false} MarchCount(y: int)
    ensures DaysBeforeYear(y) + DaysBeforeMonth(y, 3) == MarchStart(y) - 306
    ensures DaysBeforeYear(y + 1) == MarchStart(y)
  {
    MonthStarts(y);
    LeapCount(y);
  }

  lemma {:induction false} LeapOfEra(yoe: int, era: int)
    requires 0 <= yoe < 400
    ensures LastDay(yoe) <= if IsLeap(yoe + era * 400 + 1) then 365 else 364
  {
    var y := yoe + 1 + era * 400;
    assert y / 4 == (yoe + 1) / 4 + 100 * era;
    assert y / 100 == (yoe + 1) / 100 + 4 * era;
    if yoe + 1 == 400 {
      assert y / 400 == era + 1;
    }
  }

  /** A date of the calendar and its day number. */
  ghost predicate Counts(t: Date, n: int) {
    IsDate(t) && DayCount(t) == n
  }

  /** A day of the year that begins in March, as month and day. */
  lemma {:induction false} DateInYear(y: int, doy: int)
    requires 0 <= doy <= (if IsLeap(y + 1) then 365 else 364)
    ensures Counts(DateOfDay(y, doy), MarchStart(y) + doy - 719468)
  {
    MonthOfYear(doy);
    MonthStarts(y);
    MonthStarts(y + 1);
    MarchCount(y);
  }

  lemma {:induction false} DateInEra(era: int, doe: int, yoe: int)
    requires 0 <= yoe < 400 && EraYearStart(yoe) <= doe
    requires doe - EraYearStart(yoe) <= LastDay(yoe)
    ensures Counts(DateOfDay(yoe + era * 400, doe - EraYearStart(yoe)), 146097 * era + doe - 719468)
  {
    MarchOfEra(yoe, era);
    LeapOfEra(yoe, era);
    DateInYear(yoe + era * 400, doe - EraYearStart(yoe));
  }

  /** The algorithm finds era, year and day of the year. */
  lemma {:induction false} CivilDateParts(days: int, era: int, doe: int)
    requires era == (days + 719468) / 146097 && doe == (days + 719468) % 146097
    ensures CivilDate(days) == DateOfDay(YearOfEra(doe) + era * 400, doe - EraYearStart(YearOfEra(doe)))
    ensures 0 <= doe < 146097 && 146097 * era + doe - 719468 == days
  {}

  /** Every day number has a date of the calendar, and the count of that date is the number. */
  lemma {:induction false} CivilDateCounts(days: int)
    ensures Counts(CivilDate(days), days)
  {
    var era, doe := (days + 719468) / 146097, (days + 719468) % 146097;
    CivilDateParts(days, era, doe);
    YearOfEraIs(doe);
    var t := DateOfDay(YearOfEra(doe) + era * 400, doe - EraYearStart(YearOfEra(doe)));
    DateInEra(era, doe, YearOfEra(doe));
    assert Counts(t, days);
  }

  lemma {:induction false} TimeOfDay(rem: int)
    requires 0 <= rem < 86400
    ensures 0 <= rem / 3600 < 24 && 0 <= (rem % 3600) / 60 < 60
    ensures (rem / 3600) * 3600 + ((rem % 3600) / 60) * 60 + rem % 60 == rem
  {
    var h, r := rem / 3600, rem % 3600;
    var mi, s := r / 60, r % 60;
    assert rem == 60 * (60 * h + mi) + s;
    assert rem % 60 == s;
  }

  /** The fields are those of a calendar date and a time of day, and together they are the seconds they came from; this holds for every
      integer, so for every 64-bit one. */
  lemma {:induction false} CivilRoundTrip(secs: int)
    ensures var c := CivilFromUnix(secs);
      && IsDate(c.date) && 0 <= c.h < 24 && 0 <= c.mi < 60 && 0 <= c.s < 60
      && DayCount(c.date) * 86400 + c.h * 3600 + c.mi * 60 + c.s == secs
  {
    var days, rem := secs / 86400, secs % 86400;
    TimeOfDay(rem);
    CivilDateCounts(days);
    assert DayCount(CivilDate(days)) == days;
    assert secs == days * 86400 + rem;
  }

  // ---------------------------------------------------------------- and only they do

  lemma {:induction false} WithinYear(t: Date)
    requires IsDate(t)
    ensures DaysBeforeYear(t.y) <= DayCount(t) + 719162 < DaysBeforeYear(t.y + 1)
  {
    YearLength(t.y);
    MonthStarts(t.y);
  }

  lemma {:induction false} YearsGrow(a: int, b: int)
    requires a <= b
    ensures DaysBeforeYear(a) <= DaysBeforeYear(b)
    decreases b - a
  {
    if a < b {
      YearsGrow(a, b - 1);
      YearLength(b - 1);
    }
  }

  lemma {:induction false} MonthsGrow(y: int, a: nat, b: nat)
    requires 1 <= a <= b
    ensures a < b ==> DaysBeforeMonth(y, a) + DaysInMonth(y, a) <= DaysBeforeMonth(y, b)
    decreases b
  {
    if a + 1 < b {
      MonthsGrow(y, a, b - 1);
    }
  }

  /** Two dates with the same count are the same date. */
  lemma {:induction false} DayCountInjective(t: Date, u: Date)
    requires IsDate(t) && IsDate(u) && DayCount(t) == DayCount(u)
    ensures t == u
  {
    WithinYear(t);
    WithinYear(u);
    if t.y < u.y {
      YearsGrow(t.y + 1, u.y);
    } else if u.y < t.y {
      YearsGrow(u.y + 1, t.y);
    } else if t.m < u.m {
      MonthsGrow(t.y, t.m, u.m);
    } else if u.m < t.m {
      MonthsGrow(t.y, u.m, t.m);
    }
  }

  /** The other way round: every date of the calendar is the one found for its day number; and the date found for the next day number
      is the next day. */
  lemma {:induction false} CivilDateOf(t: Date)
    requires IsDate(t)
    ensures CivilDate(DayCount(t)) == t && CivilDate(DayCount(t) + 1) == NextDay(t)
  {
    CivilDateCounts(DayCount(t));
    DayCountInjective(t, CivilDate(DayCount(t)));
    DayCountSteps(t);
    CivilDateCounts(DayCount(t) + 1);
    DayCountInjective(NextDay(t), CivilDate(DayCount(t) + 1));
  }
}
