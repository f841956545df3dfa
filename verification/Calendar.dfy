/**
 `days_from_civil` of `agent_usage.rs`, against a day-by-day count on the proleptic Gregorian
 calendar. Years are any integer, negative ones included.
 */
module Calendar {

  /** Rust's integer division, which rounds toward zero, by a positive divisor. */
  function TruncDiv(a: int, b: int): int
    requires b > 0
  {
    if a >= 0 then a / b else -(-a / b)
  }

  function TruncMod(a: int, b: int): int
    requires b > 0
  {
    a - TruncDiv(a, b) * b
  }

  function DaysFromCivil(year: int, m: int, d: int): int {
    var y := if m <= 2 then year - 1 else year;
    var era := TruncDiv(if y >= 0 then y else y - 399, 400);
    var yoe := y - era * 400;
    var mp := TruncMod(m + 9, 12);
    var doy := TruncDiv(153 * mp + 2, 5) + d - 1;
    var doe := yoe * 365 + TruncDiv(yoe, 4) - TruncDiv(yoe, 100) + doy;
    era * 146097 + doe - 719468
  }

  // ---- The calendar, by its rules ----

  datatype Date = Date(y: int, m: int, d: int)

  predicate Leap(y: int) {
    y % 4 == 0 && (y % 100 != 0 || y % 400 == 0)
  }

  function DaysInMonth(y: int, m: int): int {
    if m == 2 then (if Leap(y) then 29 else 28)
    else if m == 4 || m == 6 || m == 9 || m == 11 then 30
    else 31
  }

  predicate Valid(date: Date) {
    1 <= date.m <= 12 && 1 <= date.d <= DaysInMonth(date.y, date.m)
  }

  function Next(date: Date): Date
    requires Valid(date)
  {
    if date.d < DaysInMonth(date.y, date.m) then Date(date.y, date.m, date.d + 1)
    else if date.m < 12 then Date(date.y, date.m + 1, 1)
    else Date(date.y + 1, 1, 1)
  }

  function Previous(date: Date): Date
    requires Valid(date)
  {
    if date.d > 1 then Date(date.y, date.m, date.d - 1)
    else if date.m > 1 then Date(date.y, date.m - 1, DaysInMonth(date.y, date.m - 1))
    else Date(date.y - 1, 12, 31)
  }

  predicate Before(a: Date, b: Date) {
    a.y < b.y || (a.y == b.y && (a.m < b.m || (a.m == b.m && a.d < b.d)))
  }

  function Number(date: Date): int {
    DaysFromCivil(date.y, date.m, date.d)
  }

  /** The date `n` days after the epoch, found one day at a time. */
  function Count(n: int): (date: Date)
    ensures Valid(date)
    decreases if n >= 0 then n else -n
  {
    if n == 0 then Date(1970, 1, 1)
    else if n > 0 then Next(Count(n - 1))
    else Previous(Count(n + 1))
  }

  // ---- The formula, split into years and days of the year ----

  /** Days before the first of March of year `y`, counted from 0000-03-01. */
  function MarchStart(y: int): int {
    365 * y + y / 4 - y / 100 + y / 400
  }

  lemma EraSplits(y: int)
    ensures var era := TruncDiv(if y >= 0 then y else y - 399, 400); var yoe := y - era * 400;
            && era == y / 400 && 0 <= yoe < 400
            && era * 146097 + yoe * 365 + yoe / 4 - yoe / 100 == MarchStart(y)
  {
    var era := y / 400;
    var yoe := y % 400;
    assert y == era * 400 + yoe;
    assert y / 4 == era * 100 + yoe / 4;
    assert y / 100 == era * 4 + yoe / 100;
  }

  /** Days from the first of March to the first of month `m`. */
  function MarchOffset(m: int): int {
    if m == 3 then 0 else if m == 4 then 31 else if m == 5 then 61 else if m == 6 then 92
    else if m == 7 then 122 else if m == 8 then 153 else if m == 9 then 184 else if m == 10 then 214
    else if m == 11 then 245 else if m == 12 then 275 else if m == 1 then 306 else 337
  }

  lemma ByMarch(y: int, m: int, d: int)
    requires 1 <= m <= 12
    ensures DaysFromCivil(y, m, d) == MarchStart(if m <= 2 then y - 1 else y) + MarchOffset(m) + d - 719469
  {
    EraSplits(if m <= 2 then y - 1 else y);
    assert (153 * (if m > 2 then m - 3 else m + 9) + 2) / 5 == MarchOffset(m);
  }

  lemma MarchYearLength(y: int)
    ensures MarchStart(y) - MarchStart(y - 1) == if Leap(y) then 366 else 365
  {
    assert y / 4 - (y - 1) / 4 == if y % 4 == 0 then 1 else 0;
    assert y / 100 - (y - 1) / 100 == if y % 100 == 0 then 1 else 0;
    assert y / 400 - (y - 1) / 400 == if y % 400 == 0 then 1 else 0;
  }

  /** The first day of a month follows the last day of the month before it. */
  lemma MonthFollows(y: int, m: int)
    requires 1 <= m < 12
    ensures DaysFromCivil(y, m + 1, 1) == DaysFromCivil(y, m, 1) + DaysInMonth(y, m)
  {
    hide DaysFromCivil;
    ByMarch(y, m, 1);
    ByMarch(y, m + 1, 1);
    MarchYearLength(y);
  }

  lemma YearFollows(y: int)
    ensures DaysFromCivil(y + 1, 1, 1) == DaysFromCivil(y, 12, 1) + 31
  {
    ByMarch(y, 12, 1);
    ByMarch(y + 1, 1, 1);
  }

  lemma DayInMonth(y: int, m: int, d: int)
    requires 1 <= m <= 12
    ensures DaysFromCivil(y, m, d) == DaysFromCivil(y, m, 1) + d - 1
  {
    ByMarch(y, m, d);
    ByMarch(y, m, 1);
  }

  /** Stepping to the next valid date adds exactly one. */
  lemma NextAddsOne(date: Date)
    requires Valid(date)
    ensures Valid(Next(date)) && Number(Next(date)) == Number(date) + 1
  {
    DayInMonth(date.y, date.m, date.d);
    if date.d < DaysInMonth(date.y, date.m) {
      DayInMonth(date.y, date.m, date.d + 1);
    } else if date.m < 12 {
      MonthFollows(date.y, date.m);
    } else {
      YearFollows(date.y);
    }
  }

  lemma PreviousUndoesNext(date: Date)
    requires Valid(date)
    ensures Valid(Previous(date)) && Next(Previous(date)) == date
  {
  }

  lemma EpochIsZero()
    ensures DaysFromCivil(1970, 1, 1) == 0
  {
  }

  /** The formula is the day-by-day count, in both directions from the epoch. */
  lemma {:induction false} NumberOfCount(n: int)
    ensures Number(Count(n)) == n
    decreases if n >= 0 then n else -n
  {
    hide DaysFromCivil;
    if n > 0 {
      NumberOfCount(n - 1);
      NextAddsOne(Count(n - 1));
    } else if n < 0 {
      NumberOfCount(n + 1);
      PreviousUndoesNext(Count(n + 1));
      NextAddsOne(Previous(Count(n + 1)));
    } else {
      EpochIsZero();
    }
  }

  lemma {:induction false} MonthsInOrder(y: int, m: int, n: int)
    requires 1 <= m < n <= 12
    ensures DaysFromCivil(y, m, DaysInMonth(y, m)) < DaysFromCivil(y, n, 1)
    decreases n
  {
    DayInMonth(y, m, DaysInMonth(y, m));
    MonthFollows(y, n - 1);
    if m < n - 1 {
      MonthsInOrder(y, m, n - 1);
    }
  }

  lemma {:induction false} YearsInOrder(y: int, z: int)
    requires y < z
    ensures DaysFromCivil(y, 12, 31) < DaysFromCivil(z, 1, 1)
    decreases z - y
  {
    YearFollows(z - 1);
    DayInMonth(z - 1, 12, 31);
    if y < z - 1 {
      YearsInOrder(y, z - 1);
      MonthsInOrder(z - 1, 1, 12);
      DayInMonth(z - 1, 1, 31);
    }
  }

  /** Later dates have larger numbers, so no two valid dates share one. */
  lemma NumberIsMonotone(a: Date, b: Date)
    requires Valid(a) && Valid(b)
    ensures Before(a, b) <==> Number(a) < Number(b)
    ensures Number(a) == Number(b) ==> a == b
  {
    if Before(a, b) {
      NumberIncreases(a, b);
    } else if Before(b, a) {
      NumberIncreases(b, a);
    }
  }

  lemma NumberIncreases(a: Date, b: Date)
    requires Valid(a) && Valid(b) && Before(a, b)
    ensures Number(a) < Number(b)
  {
    hide DaysFromCivil;
    DayInMonth(a.y, a.m, a.d);
    DayInMonth(b.y, b.m, b.d);
    DayInMonth(a.y, a.m, DaysInMonth(a.y, a.m));
    if a.y < b.y {
      YearsInOrder(a.y, b.y);
      DayInMonth(a.y, 12, 31);
      DayInMonth(b.y, 1, 31);
      if a.m < 12 {
        MonthsInOrder(a.y, a.m, 12);
      }
      if b.m > 1 {
        MonthsInOrder(b.y, 1, b.m);
      }
    } else if a.m < b.m {
      MonthsInOrder(a.y, a.m, b.m);
    }
  }

  /** Every day number is the number of exactly one valid date: the one counting reaches. */
  lemma CountOfNumber(date: Date)
    requires Valid(date)
    ensures Count(Number(date)) == date
  {
    NumberOfCount(Number(date));
    NumberIsMonotone(Count(Number(date)), date);
  }
}
