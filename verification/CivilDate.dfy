/** Days since the Unix epoch as Gregorian dates: the era-based algorithm against the calendar
    itself (month lengths and leap years of RFC 3339, section 5.7 and Appendix C). */
module CivilDate {

  datatype Date = Date(year: nat, month: nat, day: nat)

  // ---------------------------------------------------------------- the calendar

  predicate IsLeap(y: nat) {
    y % 4 == 0 && (y % 100 != 0 || y % 400 == 0)
  }

  function DaysInMonth(y: nat, m: nat): nat {
    if m == 2 then (if IsLeap(y) then 29 else 28)
    else if m == 4 || m == 6 || m == 9 || m == 11 then 30
    else 31
  }

  predicate ValidDate(d: Date) {
    1 <= d.month <= 12 && 1 <= d.day <= DaysInMonth(d.year, d.month)
  }

  /** The calendar day after `d`. */
  function NextDay(d: Date): Date {
    if d.day < DaysInMonth(d.year, d.month) then d.(day := d.day + 1)
    else if d.month < 12 then Date(d.year, d.month + 1, 1)
    else Date(d.year + 1, 1, 1)
  }

  /** Chronological order: year, then month, then day. */
  predicate Before(a: Date, b: Date) {
    || a.year < b.year
    || (a.year == b.year && (a.month < b.month || (a.month == b.month && a.day < b.day)))
  }

  function DaysInYear(y: nat): nat {
    if IsLeap(y) then 366 else 365
  }

  /** Days in the years before `y`. */
  function DaysBeforeYear(y: nat): nat {
    if y == 0 then 0 else DaysBeforeYear(y - 1) + DaysInYear(y - 1)
  }

  /** Days in the months of year `y` before month `m`. */
  function DaysBeforeMonth(y: nat, m: nat): nat {
    if m <= 1 then 0 else DaysBeforeMonth(y, m - 1) + DaysInMonth(y, m - 1)
  }

  /** Days from 0000-01-01 to `d`, counted year by year and month by month. */
  function Ordinal(d: Date): nat {
    DaysBeforeYear(d.year) + DaysBeforeMonth(d.year, d.month) + (if d.day == 0 then 0 else d.day - 1)
  }

  const EPOCH := Date(1970, 1, 1)

  // ---------------------------------------------------------------- counting days

  lemma {:induction false} MonthsFillYear(y: nat)
    ensures DaysBeforeMonth(y, 12) + 31 == DaysInYear(y)
  {
    MonthTable(y);
  }

  /** The month offsets, written out. */
  lemma {:induction false} MonthTable(y: nat)
    ensures var f := if IsLeap(y) then 29 else 28;
            && DaysBeforeMonth(y, 1) == 0 && DaysBeforeMonth(y, 2) == 31 && DaysBeforeMonth(y, 3) == 31 + f
            && DaysBeforeMonth(y, 4) == 62 + f && DaysBeforeMonth(y, 5) == 92 + f && DaysBeforeMonth(y, 6) == 123 + f
            && DaysBeforeMonth(y, 7) == 153 + f && DaysBeforeMonth(y, 8) == 184 + f && DaysBeforeMonth(y, 9) == 215 + f
            && DaysBeforeMonth(y, 10) == 245 + f && DaysBeforeMonth(y, 11) == 276 + f
            && DaysBeforeMonth(y, 12) == 306 + f
  {
    assert DaysBeforeMonth(y, 2) == 31;
    assert DaysBeforeMonth(y, 4) == DaysBeforeMonth(y, 3) + 31;
    assert DaysBeforeMonth(y, 6) == DaysBeforeMonth(y, 5) + 31;
    assert DaysBeforeMonth(y, 8) == DaysBeforeMonth(y, 7) + 31;
    assert DaysBeforeMonth(y, 10) == DaysBeforeMonth(y, 9) + 30;
    assert DaysBeforeMonth(y, 12) == DaysBeforeMonth(y, 11) + 30;
  }

  lemma {:induction false} ScaledGap(k: nat, p: nat, q: nat)
    requires p < q
    ensures k * p + k <= k * q
    decreases q
  {
    if p + 1 < q {
      ScaledGap(k, p, q - 1);
      assert k * q == k * (q - 1) + k;
    }
  }

  /** Quotient and remainder are the only pair that divides. */
  lemma {:induction false} DivisionUnique(z: nat, k: nat, q: nat, r: nat)
    requires k > 0 && z == k * q + r && r < k
    ensures z / k == q && z % k == r
  {
    var p := z / k;
    assert z == k * p + z % k;
    if p < q {
      ScaledGap(k, p, q);
    } else if q < p {
      ScaledGap(k, q, p);
    }
  }

  /** How the three leap-year quotients move from one year to the next. */
  lemma {:induction false} LeapQuotients(x: nat)
    ensures (x + 1) / 4 - x / 4 == if (x + 1) % 4 == 0 then 1 else 0
    ensures (x + 1) / 100 - x / 100 == if (x + 1) % 100 == 0 then 1 else 0
    ensures (x + 1) / 400 - x / 400 == if (x + 1) % 400 == 0 then 1 else 0
  {
  }

  /** Leap years nest: a multiple of 400 is one of 100, and of 4. */
  lemma {:induction false} LeapNesting(y: nat)
    ensures y % 400 == 0 ==> y % 100 == 0
    ensures y % 100 == 0 ==> y % 4 == 0
  {
    if y % 400 == 0 {
      DivisionUnique(y, 100, 4 * (y / 400), 0);
    }
    if y % 100 == 0 {
      DivisionUnique(y, 4, 25 * (y / 100), 0);
    }
  }

  lemma {:induction false} YearsClosedForm(y: nat)
    ensures DaysBeforeYear(y + 1) == 366 + 365 * y + y / 4 - y / 100 + y / 400
  {
    if y > 0 {
      YearsClosedForm(y - 1);
      LeapQuotients(y - 1);
      LeapNesting(y);
    }
  }

  /** Consecutive days have consecutive ordinals. */
  lemma {:induction false} OrdinalOfNextDay(d: Date)
    requires ValidDate(d)
    ensures ValidDate(NextDay(d)) && Ordinal(NextDay(d)) == Ordinal(d) + 1
  {
    if d.day == DaysInMonth(d.year, d.month) && d.month == 12 {
      MonthsFillYear(d.year);
      assert DaysBeforeYear(d.year + 1) == DaysBeforeYear(d.year) + DaysInYear(d.year);
    }
  }

  lemma {:induction false} DayInYear(d: Date)
    requires ValidDate(d)
    ensures DaysBeforeMonth(d.year, d.month) + d.day <= DaysInYear(d.year)
  {
    MonthTable(d.year);
  }

  lemma {:induction false} YearsMonotone(a: nat, b: nat)
    requires a < b
    ensures DaysBeforeYear(a) + DaysInYear(a) <= DaysBeforeYear(b)
  {
    if a + 1 < b {
      YearsMonotone(a, b - 1);
    }
  }

  lemma {:induction false} MonthsMonotone(y: nat, a: nat, b: nat)
    requires 1 <= a < b <= 12
    ensures DaysBeforeMonth(y, a) + DaysInMonth(y, a) <= DaysBeforeMonth(y, b)
  {
    MonthTable(y);
  }

  /** Ordinals order valid dates chronologically. */
  lemma {:induction false} OrdinalOrders(a: Date, b: Date)
    requires ValidDate(a) && ValidDate(b)
    ensures Before(a, b) <==> Ordinal(a) < Ordinal(b)
    ensures a == b <==> Ordinal(a) == Ordinal(b)
  {
    if Before(a, b) {
      OrdinalIncreases(a, b);
    } else if Before(b, a) {
      OrdinalIncreases(b, a);
    }
  }

  lemma {:induction false} OrdinalIncreases(a: Date, b: Date)
    requires ValidDate(a) && ValidDate(b) && Before(a, b)
    ensures Ordinal(a) < Ordinal(b)
  {
    if a.year < b.year {
      DayInYear(a);
      YearsMonotone(a.year, b.year);
    } else if a.month < b.month {
      MonthsMonotone(a.year, a.month, b.month);
    }
  }

  // ---------------------------------------------------------------- the algorithm

  /** The year of a 400-year era that holds day `doe` of the era; years start on 1 March. */
  function YearOfEra(doe: nat): (yoe: nat)
    requires doe < 146_097
    ensures yoe < 400
    ensures 365 * yoe + yoe / 4 - yoe / 100 <= doe
  {
    EraYearFits(doe);
    (doe - doe / 1460 + doe / 36524 - doe / 146_096) / 365
  }

  /** Month and day of day `doy` of the March-based year `y`. */
  function FromDayOfYear(y: nat, doy: nat): Date
    requires doy <= 365
  {
    var mp := (5 * doy + 2) / 153;
    var d := doy - (153 * mp + 2) / 5 + 1;
    var m := if mp < 10 then mp + 3 else mp - 9;
    Date(if m <= 2 then y + 1 else y, m, d)
  }

  /** Day `doe` of era `era`. */
  function FromDayOfEra(era: nat, doe: nat): Date
    requires doe < 146_097
  {
    var yoe := YearOfEra(doe);
    EraYearFits(doe);
    FromDayOfYear(yoe + era * 400, doe - (365 * yoe + yoe / 4 - yoe / 100))
  }

  /** The date `days` days after 1970-01-01. */
  function CivilFromDays(days: nat): Date {
    var z := days + 719_468;
    var era := z / 146_097;
    FromDayOfEra(era, z - era * 146_097)
  }

  /** The day of the era, split into centuries, four-year cycles, years and days. */
  lemma {:induction false} YearFromParts(c: nat, q: nat, r: nat, doy: nat)
    requires c <= 3 && q <= 24 && r <= 3 && doy <= 365
    requires doy == 365 ==> r == 3 && (q == 24 ==> c == 3)
    ensures var doe := 36_524 * c + 1461 * q + 365 * r + doy;
            (doe - doe / 1460 + doe / 36524 - doe / 146_096) / 365 == 100 * c + 4 * q + r
  {
    var doe := 36_524 * c + 1461 * q + 365 * r + doy;
    if doe < 146_096 {
      assert doe / 36524 == c;
      assert doe / 146_096 == 0;
      var over := 24 * c + q + 365 * r + doy;
      assert doe == 1460 * (25 * c + q) + over;
      var e := if over < 1460 then 0 else 1;
      assert doe / 1460 == 25 * c + q + e;
      assert doe - doe / 1460 + c == 365 * (100 * c + 4 * q + r) + (doy - e);
    }
  }

  /** Days in the first 100c + 4q + r years of an era. */
  lemma {:induction false} DaysFromParts(c: nat, q: nat, r: nat)
    requires c <= 3 && q <= 24 && r <= 3
    ensures var yoe := 100 * c + 4 * q + r;
            365 * yoe + yoe / 4 - yoe / 100 == 36_524 * c + 1461 * q + 365 * r
  {
    var yoe := 100 * c + 4 * q + r;
    assert yoe / 4 == 25 * c + q;
    assert yoe / 100 == c;
  }

  lemma {:induction false} LeapFromParts(c: nat, q: nat)
    requires c <= 3 && q <= 24 && (q == 24 ==> c == 3)
    ensures IsLeap(100 * c + 4 * q + 4)
  {
    var y := 100 * c + 4 * q + 4;
    assert y == 4 * (25 * c + q + 1);
    if q < 24 {
      assert y % 100 == 4 * q + 4;
    }
  }

  /** The year of the era, and the bounds that keep every subtraction non-negative. */
  lemma {:induction false} EraYearFits(doe: nat)
    requires doe < 146_097
    ensures var yoe := (doe - doe / 1460 + doe / 36524 - doe / 146_096) / 365;
            && yoe < 400
            && 365 * yoe + yoe / 4 - yoe / 100 <= doe
            && var doy := doe - (365 * yoe + yoe / 4 - yoe / 100);
               doy <= 365 && (doy == 365 ==> IsLeap(yoe + 1))
  {
    var c := if doe == 146_096 then 3 else doe / 36_524;
    var inCentury := doe - 36_524 * c;
    var q := inCentury / 1461;
    var inCycle := inCentury - 1461 * q;
    var r := if inCycle == 1460 then 3 else inCycle / 365;
    var doy := inCycle - 365 * r;
    YearFromParts(c, q, r, doy);
    DaysFromParts(c, q, r);
    if doy == 365 {
      LeapFromParts(c, q);
    }
  }

  // ---------------------------------------------------------------- against the calendar

  /** Days before the March-based year `y`. */
  function MarchDays(y: nat): int {
    365 * y + y / 4 - y / 100 + y / 400
  }

  /** Day `doy` of the March-based year `y` is a calendar date; only 29 February needs a leap year. */
  lemma {:induction false} DayOfYearValid(y: nat, doy: nat)
    requires doy <= 365 && (doy == 365 ==> IsLeap(y + 1))
    ensures ValidDate(FromDayOfYear(y, doy))
  {
  }

  lemma {:induction false} DayOfYearOrdinal(y: nat, doy: nat)
    requires doy <= 365
    ensures Ordinal(FromDayOfYear(y, doy)) == 60 + MarchDays(y) + doy
  {
    YearsClosedForm(y);
    assert DaysBeforeYear(y + 1) == DaysBeforeYear(y) + DaysInYear(y);
    MonthTable(y);
    MonthTable(y + 1);
  }

  /** Eras are 146097 days long and repeat the leap rule. */
  lemma {:induction false} EraShift(era: nat, yoe: nat)
    requires yoe < 400
    ensures MarchDays(yoe + era * 400) == 146_097 * era + (365 * yoe + yoe / 4 - yoe / 100)
  {
    var y := yoe + era * 400;
    DivisionUnique(y, 4, yoe / 4 + 100 * era, yoe % 4);
    DivisionUnique(y, 100, yoe / 100 + 4 * era, yoe % 100);
    DivisionUnique(y, 400, era, yoe);
  }

  lemma {:induction false} EraLeap(era: nat, y: nat)
    requires IsLeap(y)
    ensures IsLeap(y + era * 400)
  {
    var z := y + era * 400;
    DivisionUnique(z, 4, y / 4 + 100 * era, y % 4);
    DivisionUnique(z, 100, y / 100 + 4 * era, y % 100);
    DivisionUnique(z, 400, y / 400 + era, y % 400);
  }

  lemma {:induction false} DayOfEraValid(era: nat, doe: nat)
    requires doe < 146_097
    ensures ValidDate(FromDayOfEra(era, doe))
  {
    EraYearFits(doe);
    var yoe := YearOfEra(doe);
    var doy := doe - (365 * yoe + yoe / 4 - yoe / 100);
    if doy == 365 {
      EraLeap(era, yoe + 1);
    }
    DayOfYearValid(yoe + era * 400, doy);
  }

  lemma {:induction false} DayOfEraOrdinal(era: nat, doe: nat)
    requires doe < 146_097
    ensures Ordinal(FromDayOfEra(era, doe)) == 60 + 146_097 * era + doe
  {
    EraYearFits(doe);
    var yoe := YearOfEra(doe);
    EraShift(era, yoe);
    DayOfYearOrdinal(yoe + era * 400, doe - (365 * yoe + yoe / 4 - yoe / 100));
  }

  /** Every day number is a real calendar date, and it is that many days after 1970-01-01. */
  lemma {:induction false} CivilIsCalendar(n: nat)
    ensures ValidDate(CivilFromDays(n))
    ensures Ordinal(CivilFromDays(n)) == Ordinal(EPOCH) + n
  {
    var z := n + 719_468;
    var era, doe := z / 146_097, z - z / 146_097 * 146_097;
    assert CivilFromDays(n) == FromDayOfEra(era, doe);
    DayOfEraValid(era, doe);
    DayOfEraOrdinal(era, doe);
    EpochOrdinal();
  }

  lemma {:induction false} EpochOrdinal()
    ensures Ordinal(EPOCH) == 719_528
  {
    YearsClosedForm(1969);
  }

  /** The conversion is the only one: each date from the epoch on comes from exactly its own day number. */
  lemma {:induction false} CivilInverts(d: Date)
    requires ValidDate(d) && !Before(d, EPOCH)
    ensures Ordinal(d) >= Ordinal(EPOCH)
    ensures CivilFromDays(Ordinal(d) - Ordinal(EPOCH)) == d
  {
    OrdinalOrders(d, EPOCH);
    var n := Ordinal(d) - Ordinal(EPOCH);
    CivilIsCalendar(n);
    OrdinalOrders(CivilFromDays(n), d);
  }

  /** The epoch is day 0, and one day more is the next calendar day. */
  lemma {:induction false} CivilSteps(n: nat)
    ensures CivilFromDays(0) == EPOCH
    ensures CivilFromDays(n + 1) == NextDay(CivilFromDays(n))
  {
    CivilInverts(EPOCH);
    CivilIsCalendar(n);
    CivilIsCalendar(n + 1);
    OrdinalOfNextDay(CivilFromDays(n));
    OrdinalOrders(CivilFromDays(n + 1), NextDay(CivilFromDays(n)));
  }

  /** Later days have later dates. */
  lemma {:induction false} CivilOrders(a: nat, b: nat)
    ensures a < b <==> Before(CivilFromDays(a), CivilFromDays(b))
    ensures a == b <==> CivilFromDays(a) == CivilFromDays(b)
  {
    CivilIsCalendar(a);
    CivilIsCalendar(b);
    OrdinalOrders(CivilFromDays(a), CivilFromDays(b));
  }
}
