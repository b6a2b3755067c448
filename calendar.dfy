/** Proleptic Gregorian calendar dates and day arithmetic, the part of Go's
    time package that `AddDate(0, 0, -7)` and date validation rely on. */
module Calendar {

  /** A calendar date; `Valid` says when it names a real day. */
  datatype Date = Date(year: int, month: int, day: int)

  /** The Gregorian leap rule (section 5.7 of RFC 3339). Go uses truncated
      `%`, Dafny Euclidean `%`; both are zero for the same years. */
  predicate IsLeapYear(y: int) {
    y % 4 == 0 && (y % 100 != 0 || y % 400 == 0)
  }

  function DaysIn(y: int, m: int): (n: int)
    requires 1 <= m <= 12
    ensures 28 <= n <= 31
    ensures n == 29 <==> m == 2 && IsLeapYear(y)
  {
    if m == 2 then (if IsLeapYear(y) then 29 else 28)
    else if m == 4 || m == 6 || m == 9 || m == 11 then 30
    else 31
  }

  predicate Valid(d: Date) {
    1 <= d.month <= 12 && 1 <= d.day <= DaysIn(d.year, d.month)
  }

  function YearLength(y: int): int {
    if IsLeapYear(y) then 366 else 365
  }

  /** Days from 0001-01-01 to the first of January of year y (negative
      before year 1; Euclidean division floors, as the proleptic count needs). */
  function DaysBeforeYear(y: int): int {
    var a := y - 1;
    365 * a + a / 4 - a / 100 + a / 400
  }

  /** Days in year y before the first of month m (m == 13 gives the year). */
  function DaysBeforeMonth(y: int, m: int): int
    requires 1 <= m <= 13
  {
    var leap := if m > 2 && IsLeapYear(y) then 1 else 0;
    leap + (match m
      case 1 => 0    case 2 => 31   case 3 => 59   case 4 => 90
      case 5 => 120  case 6 => 151  case 7 => 181  case 8 => 212
      case 9 => 243  case 10 => 273 case 11 => 304 case 12 => 334
      case _ => 365)
  }

  /** The day number of a date: consecutive days have consecutive numbers. */
  function Ordinal(d: Date): int
    requires 1 <= d.month <= 12
  {
    DaysBeforeYear(d.year) + DaysBeforeMonth(d.year, d.month) + d.day - 1
  }

  lemma FloorStep(a: int, k: int)
    requires k == 4 || k == 100 || k == 400
    ensures (a + 1) / k - a / k == if (a + 1) % k == 0 then 1 else 0
  {
  }

  /** A multiple of 400 is a multiple of 100. */
  lemma MultipleOf400(y: int)
    requires y % 400 == 0
    ensures y % 100 == 0
  {
    var q := y / 400;
    assert y == 100 * (4 * q) + 0;
  }

  /** A multiple of 100 is a multiple of 4. */
  lemma MultipleOf100(y: int)
    requires y % 100 == 0
    ensures y % 4 == 0
  {
    var q := y / 100;
    assert y == 4 * (25 * q) + 0;
  }

  /** Consecutive years are YearLength apart in the day count. */
  lemma {:induction false} DaysBeforeNextYear(y: int)
    ensures DaysBeforeYear(y + 1) == DaysBeforeYear(y) + YearLength(y)
  {
    var a := y - 1;
    FloorStep(a, 4);
    FloorStep(a, 100);
    FloorStep(a, 400);
    var b4 := if y % 4 == 0 then 1 else 0;
    var b100 := if y % 100 == 0 then 1 else 0;
    var b400 := if y % 400 == 0 then 1 else 0;
    assert DaysBeforeYear(y + 1) - DaysBeforeYear(y) == 365 + b4 - b100 + b400;
    if y % 400 == 0 {
      MultipleOf400(y);
    }
    if y % 100 == 0 {
      MultipleOf100(y);
    }
  }

  lemma MonthStep(y: int, m: int)
    requires 1 <= m <= 12
    ensures DaysBeforeMonth(y, m + 1) == DaysBeforeMonth(y, m) + DaysIn(y, m)
  {
  }

  lemma {:induction false} DaysBeforeYearMonotone(a: int, b: int)
    requires a <= b
    ensures DaysBeforeYear(a) <= DaysBeforeYear(b)
    decreases b - a
  {
    if a < b {
      DaysBeforeNextYear(a);
      DaysBeforeYearMonotone(a + 1, b);
    }
  }

  lemma DaysBeforeMonthMonotone(y: int, a: int, b: int)
    requires 1 <= a <= b <= 13
    ensures DaysBeforeMonth(y, a) <= DaysBeforeMonth(y, b)
  {
  }

  /** A valid date's number lies in its month's and its year's span. */
  lemma {:induction false} OrdinalBounds(d: Date)
    requires Valid(d)
    ensures DaysBeforeYear(d.year) + DaysBeforeMonth(d.year, d.month) <= Ordinal(d)
    ensures Ordinal(d) < DaysBeforeYear(d.year) + DaysBeforeMonth(d.year, d.month + 1)
    ensures DaysBeforeYear(d.year) <= Ordinal(d) < DaysBeforeYear(d.year + 1)
  {
    MonthStep(d.year, d.month);
    DaysBeforeMonthMonotone(d.year, d.month + 1, 13);
    DaysBeforeNextYear(d.year);
  }

  /** Every day of an earlier year comes before every day of a later one. */
  lemma {:induction false} EarlierYearFirst(a: Date, b: Date)
    requires Valid(a) && Valid(b) && a.year < b.year
    ensures Ordinal(a) < Ordinal(b)
  {
    OrdinalBounds(a);
    OrdinalBounds(b);
    DaysBeforeYearMonotone(a.year + 1, b.year);
  }

  /** Valid dates with the same day number lie in the same year. */
  lemma SameOrdinalSameYear(a: Date, b: Date)
    requires Valid(a) && Valid(b) && Ordinal(a) == Ordinal(b)
    ensures a.year == b.year
  {
    if a.year < b.year {
      EarlierYearFirst(a, b);
    } else if b.year < a.year {
      EarlierYearFirst(b, a);
    }
  }

  /** Distinct valid dates have distinct day numbers. */
  lemma {:induction false} OrdinalInjective(a: Date, b: Date)
    requires Valid(a) && Valid(b) && Ordinal(a) == Ordinal(b)
    ensures a == b
  {
    SameOrdinalSameYear(a, b);
    MonthStep(a.year, a.month);
    MonthStep(b.year, b.month);
    if a.month < b.month {
      DaysBeforeMonthMonotone(a.year, a.month + 1, b.month);
      assert false;
    } else if b.month < a.month {
      DaysBeforeMonthMonotone(a.year, b.month + 1, a.month);
      assert false;
    }
  }

  /** The last day of a month is one day before the first of the next. */
  lemma LastOfMonth(y: int, m: int)
    requires 2 <= m <= 12
    ensures Valid(Date(y, m - 1, DaysIn(y, m - 1)))
    ensures Ordinal(Date(y, m - 1, DaysIn(y, m - 1))) == Ordinal(Date(y, m, 1)) - 1
  {
    MonthStep(y, m - 1);
  }

  /** New Year's Eve is one day before the next New Year's Day. */
  lemma LastOfYear(y: int)
    ensures Ordinal(Date(y - 1, 12, 31)) == Ordinal(Date(y, 1, 1)) - 1
  {
    DaysBeforeNextYear(y - 1);
  }

  /** The day before a valid date, rolling back across month, year and
      leap-day boundaries. */
  function PrevDay(d: Date): (r: Date)
    requires Valid(d)
    ensures Valid(r) && Ordinal(r) == Ordinal(d) - 1
  {
    if d.day > 1 then Date(d.year, d.month, d.day - 1)
    else if d.month > 1 then
      LastOfMonth(d.year, d.month);
      Date(d.year, d.month - 1, DaysIn(d.year, d.month - 1))
    else
      LastOfYear(d.year);
      Date(d.year - 1, 12, 31)
  }

  /** Go's `t.AddDate(0, 0, -n)` on the date part: n days earlier. */
  function MinusDays(d: Date, n: nat): (r: Date)
    requires Valid(d)
    ensures Valid(r) && Ordinal(r) == Ordinal(d) - n
    decreases n
  {
    if n == 0 then d else MinusDays(PrevDay(d), n - 1)
  }

  /** A day two or more years earlier is more than 365 days earlier. */
  lemma {:induction false} TwoYearsEarlier(r: Date, d: Date)
    requires Valid(r) && Valid(d) && r.year < d.year - 1
    ensures Ordinal(r) + 365 < Ordinal(d)
  {
    OrdinalBounds(r);
    DaysBeforeYearMonotone(r.year + 1, d.year - 1);
    DaysBeforeNextYear(d.year - 1);
    assert d.year - 1 + 1 == d.year;
    OrdinalBounds(d);
  }

  /** Going back at most 365 days lands in the same year or the one before. */
  lemma MinusDaysYearRange(d: Date, n: nat)
    requires Valid(d) && n <= 365
    ensures d.year - 1 <= MinusDays(d, n).year <= d.year
  {
    var r := MinusDays(d, n);
    if r.year > d.year {
      EarlierYearFirst(d, r);
    } else if r.year < d.year - 1 {
      TwoYearsEarlier(r, d);
    }
  }

  /** `MinusDays(d, n)` is the one valid date whose number is n less. */
  lemma MinusDaysIsUnique(d: Date, n: nat, x: Date)
    requires Valid(d) && Valid(x)
    ensures Ordinal(x) == Ordinal(d) - n <==> x == MinusDays(d, n)
  {
    if Ordinal(x) == Ordinal(d) - n {
      OrdinalInjective(x, MinusDays(d, n));
    }
  }
}
