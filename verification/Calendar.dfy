/** `days_from_civil` of `main.rs`: the closed-form day number of a Gregorian date, proved equal
    to counting days one by one from 1970-01-01, for every year. */
module Calendar {
  import opened Basics

  datatype Date = Date(year: int, month: int, day: int)

  // ---------------------------------------------------------------- the calendar

  predicate Leap(y: int) { y % 4 == 0 && (y % 100 != 0 || y % 400 == 0) }

  function DaysInMonth(y: int, m: int): int {
    if m == 2 then if Leap(y) then 29 else 28
    else if m == 4 || m == 6 || m == 9 || m == 11 then 30 else 31
  }

  predicate Valid(x: Date) {
    1 <= x.month <= 12 && 1 <= x.day <= DaysInMonth(x.year, x.month)
  }

  const EPOCH := Date(1970, 1, 1)

  function Next(x: Date): (n: Date)
    requires Valid(x)
    ensures Valid(n)
  {
    if x.day < DaysInMonth(x.year, x.month) then x.(day := x.day + 1)
    else if x.month < 12 then Date(x.year, x.month + 1, 1)
    else Date(x.year + 1, 1, 1)
  }

  function Previous(x: Date): (p: Date)
    requires Valid(x)
    ensures Valid(p) && Next(p) == x
  {
    if x.day > 1 then x.(day := x.day - 1)
    else if x.month > 1 then Date(x.year, x.month - 1, DaysInMonth(x.year, x.month - 1))
    else Date(x.year - 1, 12, 31)
  }

  // ---------------------------------------------------------------- the closed form

  /** Division rounding toward zero. */
  function Quot(a: int, b: int): int
    requires b > 0
  {
    if a >= 0 then a / b else -((-a) / b)
  }

  /** Remainder of `Quot`, with the sign of the dividend. */
  function Rem(a: int, b: int): int
    requires b > 0
  {
    a - Quot(a, b) * b
  }

  function DaysFromCivil(year: int, m: int, d: int): int {
    var y := if m <= 2 then year - 1 else year;
    var era := Quot(if y >= 0 then y else y - 399, 400);
    var yoe := y - era * 400;
    var mp := Rem(m + 9, 12);
    var doy := Quot(153 * mp + 2, 5) + d - 1;
    var doe := yoe * 365 + Quot(yoe, 4) - Quot(yoe, 100) + doy;
    era * 146097 + doe - 719468
  }

  function DayNumber(x: Date): int { DaysFromCivil(x.year, x.month, x.day) }

  // ---------------------------------------------------------------- one day is one day

  /** Days before the first of March of year `y`, counted from the first of March of year 0. */
  function YearStart(y: int): int { 365 * y + y / 4 - y / 100 + y / 400 }

  /** Days from the first of March to the first of the month. */
  function MonthStart(m: int): int
    requires 1 <= m <= 12
  {
    (153 * ((m + 9) % 12) + 2) / 5
  }

  function MarchYear(y: int, m: int): int { if m <= 2 then y - 1 else y }

  /** The truncating divisions, era by era, amount to flooring ones over all years. */
  lemma ClosedForm(y: int, m: int, d: int)
    requires 1 <= m <= 12
    ensures DaysFromCivil(y, m, d) == YearStart(MarchYear(y, m)) + MonthStart(m) + d - 1 - 719468
  {
    var z := MarchYear(y, m);
    var era := z / 400;
    var yoe := z - era * 400;
    assert Quot(if z >= 0 then z else z - 399, 400) == era;
    assert z / 4 == era * 100 + yoe / 4;
    assert z / 100 == era * 4 + yoe / 100;
  }

  lemma QuotientStep(y: int, k: int)
    requires k == 4 || k == 100 || k == 400
    ensures y / k - (y - 1) / k == if y % k == 0 then 1 else 0
  {
  }

  lemma LeapTests(y: int)
    ensures y % 400 == 0 ==> y % 100 == 0
    ensures y % 100 == 0 ==> y % 4 == 0
  {
    assert y % 100 == 0 ==> y == 4 * (25 * (y / 100));
    assert y % 400 == 0 ==> y == 100 * (4 * (y / 400));
  }

  /** From one March to the next there are 366 days if a leap day falls between, else 365. */
  lemma YearStep(y: int)
    ensures YearStart(y) - YearStart(y - 1) == if Leap(y) then 366 else 365
  {
    QuotientStep(y, 4);
    QuotientStep(y, 100);
    QuotientStep(y, 400);
    LeapTests(y);
  }

  /** Consecutive months of a March year start a month's length apart. */
  lemma MonthStep(y: int, m: int)
    requires 1 <= m <= 12
    ensures m == 2 ==> MonthStart(m) + 28 == 365 && MonthStart(m + 1) == 0
    ensures m != 2 && m < 12 ==> MonthStart(m + 1) == MonthStart(m) + DaysInMonth(y, m)
    ensures m == 12 ==> MonthStart(1) == MonthStart(m) + 31
  {
    var steps := [306, 337, 0, 31, 61, 92, 122, 153, 184, 214, 245, 275];
    assert m == 1 || m == 2 || m == 3 || m == 4 || m == 5 || m == 6
        || m == 7 || m == 8 || m == 9 || m == 10 || m == 11 || m == 12;
    assert MonthStart(m) == steps[m - 1];
  }

  /** Each day's number is one more than the day before's, in every month of every year. */
  lemma DayStep(x: Date)
    requires Valid(x)
    ensures DayNumber(Next(x)) == DayNumber(x) + 1
  {
    ClosedForm(x.year, x.month, x.day);
    ClosedForm(Next(x).year, Next(x).month, Next(x).day);
    if x.day == DaysInMonth(x.year, x.month) {
      MonthStep(x.year, x.month);
      if x.month == 2 { YearStep(x.year); }
    }
  }

  // ---------------------------------------------------------------- counting days

  /** The date `n` days after the epoch (before it, if negative), found by walking there. */
  function CivilFromDays(n: int): (x: Date)
    ensures Valid(x)
    decreases Abs(n)
  {
    if n == 0 then EPOCH else if n > 0 then Next(CivilFromDays(n - 1)) else Previous(CivilFromDays(n + 1))
  }

  /** The closed form counts days: walking `n` days from 1970-01-01 leads to the date whose
      number is `n`. */
  lemma {:induction false} CountsDays(n: int)
    ensures var x := CivilFromDays(n); DayNumber(x) == n
    decreases Abs(n)
  {
    if n > 0 {
      CountsDays(n - 1);
      DayStep(CivilFromDays(n - 1));
    } else if n < 0 {
      CountsDays(n + 1);
      DayStep(Previous(CivilFromDays(n + 1)));
    }
  }

  predicate Before(x: Date, y: Date) {
    x.year < y.year || (x.year == y.year && (x.month < y.month || (x.month == y.month && x.day < y.day)))
  }

  /** Calendar order is the order of day numbers. */
  lemma {:induction false} StrictlyMonotone(x: Date, y: Date)
    requires Valid(x) && Valid(y) && Before(x, y)
    ensures DayNumber(x) < DayNumber(y)
    decreases ((y.year - x.year) * 12 + y.month - x.month) * 31 + y.day - x.day
  {
    var p := Previous(y);
    DayStep(p);
    if p != x {
      StrictlyMonotone(x, p);
    }
  }

  /** The day number determines the date, so walking inverts the closed form both ways. */
  lemma RoundTrip(x: Date)
    requires Valid(x)
    ensures CivilFromDays(DayNumber(x)) == x
  {
    var y := CivilFromDays(DayNumber(x));
    CountsDays(DayNumber(x));
    if Before(x, y) {
      StrictlyMonotone(x, y);
    } else if Before(y, x) {
      StrictlyMonotone(y, x);
    }
  }

  /** The ranges that the program's comments give for the intermediate values hold of every
      valid date, so the only quantities that grow with the year are linear in it. */
  lemma IntermediateRanges(x: Date)
    requires Valid(x)
    ensures var y := MarchYear(x.year, x.month);
            var yoe := y - Quot(if y >= 0 then y else y - 399, 400) * 400;
            var mp := Rem(x.month + 9, 12);
            var doy := Quot(153 * mp + 2, 5) + x.day - 1;
            0 <= yoe <= 399 && 0 <= mp <= 11 && 0 <= doy <= 365
            && 0 <= yoe * 365 + Quot(yoe, 4) - Quot(yoe, 100) + doy <= 146096
  {
    MonthStep(x.year, x.month);
    var y := MarchYear(x.year, x.month);
    assert Quot(if y >= 0 then y else y - 399, 400) == y / 400;
  }

  /** For any four-digit year the day number stays far inside 64 bits, whatever two-digit day
      the text holds. */
  lemma NoOverflow(y: int, m: int, d: int)
    requires 0 <= y <= 9999 && 1 <= m <= 12 && 0 <= d <= 99
    ensures -1_000_000 <= DaysFromCivil(y, m, d) <= 4_000_000
  {
    ClosedForm(y, m, d);
  }
}
