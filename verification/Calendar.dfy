/**
 Calendar dates and their day numbers, counted from 1970-01-01.
 */
module Calendar {

  datatype Date = Date(year: int, month: int, day: int)

  // Division that rounds toward zero.
  function Quotient(a: int, b: int): int
    requires b > 0
  {
    if a >= 0 then a / b else -((-a) / b)
  }

  predicate Leap(year: int) {
    year % 4 == 0 && (year % 100 != 0 || year % 400 == 0)
  }

  function DaysInMonth(year: int, month: int): int
    requires 1 <= month <= 12
  {
    [31, if Leap(year) then 29 else 28, 31, 30, 31, 30, 31, 31, 30, 31, 30, 31][month - 1]
  }

  predicate Valid(d: Date) {
    1 <= d.month <= 12 && 1 <= d.day <= DaysInMonth(d.year, d.month)
  }

  function DayNumber(d: Date): int
    requires Valid(d)
  {
    var adjusted := d.year - if d.month <= 2 then 1 else 0;
    var era := Quotient(if adjusted >= 0 then adjusted else adjusted - 399, 400);
    var yearOfEra := adjusted - era * 400;
    var shifted := d.month + if d.month > 2 then -3 else 9;
    var dayOfYear := (153 * shifted + 2) / 5 + d.day - 1;
    var dayOfEra := yearOfEra * 365 + yearOfEra / 4 - yearOfEra / 100 + dayOfYear;
    era * 146097 + dayOfEra - 719468
  }

  // ----- The next day -----

  function Next(d: Date): Date
    requires Valid(d)
  {
    if d.day < DaysInMonth(d.year, d.month) then d.(day := d.day + 1)
    else if d.month < 12 then Date(d.year, d.month + 1, 1)
    else Date(d.year + 1, 1, 1)
  }

  // ----- Years that start in March -----

  // The day number of March 1, up to a constant.
  function YearStart(year: int): int {
    var era, y := year / 400, year % 400;
    era * 146097 + y * 365 + y / 4 - y / 100
  }

  lemma EraRoundsDown(year: int)
    ensures Quotient(if year >= 0 then year else year - 399, 400) == year / 400
  {
  }

  lemma SplitYear(year: int)
    ensures year == year / 400 * 400 + year % 400
    ensures (year + 1) / 400 == (if year % 400 == 399 then year / 400 + 1 else year / 400)
    ensures (year + 1) % 400 == (if year % 400 == 399 then 0 else year % 400 + 1)
  {
  }

  lemma Mod4(e: int, y: int)
    ensures (400 * e + y) % 4 == y % 4
  {
    assert 400 * e + y == 4 * (100 * e + y / 4) + y % 4;
  }

  lemma Mod100(e: int, y: int)
    ensures (400 * e + y) % 100 == y % 100
  {
    assert 400 * e + y == 100 * (4 * e + y / 100) + y % 100;
  }

  lemma LeapInEra(year: int)
    ensures Leap(year) <==> Leap(year % 400)
  {
    Mod4(year / 400, year % 400);
    Mod100(year / 400, year % 400);
  }

  // From one March to the next there are 365 days, and one more around a leap day.
  lemma YearLength(year: int)
    ensures YearStart(year + 1) == YearStart(year) + if Leap(year + 1) then 366 else 365
  {
    SplitYear(year);
    LeapInEra(year + 1);
    var y := year % 400;
    if y < 399 {
      Quarters(y);
    }
  }

  lemma Quarters(y: int)
    requires 0 <= y < 399
    ensures (y + 1) / 4 == y / 4 + if (y + 1) % 4 == 0 then 1 else 0
    ensures (y + 1) / 100 == y / 100 + if (y + 1) % 100 == 0 then 1 else 0
    ensures (y + 1) % 400 != 0
    ensures (y + 1) % 100 == 0 ==> (y + 1) % 4 == 0
  {
  }

  // Days from March 1 to the first of the month `s` months later.
  function Offset(s: int): int {
    (153 * s + 2) / 5
  }

  lemma OffsetStep(s: int)
    requires 0 <= s < 11
    ensures Offset(s + 1) == Offset(s) + [31, 30, 31, 30, 31, 31, 30, 31, 30, 31, 31][s]
    ensures Offset(0) == 0 && Offset(11) == 337
  {
  }

  function MarchYear(year: int, month: int): int {
    if month <= 2 then year - 1 else year
  }

  function Shifted(month: int): int {
    if month <= 2 then month + 9 else month - 3
  }

  lemma DayNumberFrom(d: Date)
    requires Valid(d)
    ensures DayNumber(d) == YearStart(MarchYear(d.year, d.month)) + Offset(Shifted(d.month)) + d.day - 719469
  {
    var adjusted := d.year - if d.month <= 2 then 1 else 0;
    EraRoundsDown(adjusted);
    SplitYear(adjusted);
  }

  // ----- One month after another -----

  // The number of the day before a month begins.
  function MonthStart(year: int, month: int): int {
    YearStart(MarchYear(year, month)) + Offset(Shifted(month)) - 719469
  }

  // The next month begins where this one ends.
  predicate Follows(start: (int, int) -> int, y: int, m: int)
    requires 1 <= m <= 12
  {
    start(y, m) + DaysInMonth(y, m) == if m < 12 then start(y, m + 1) else start(y + 1, 1)
  }

  ghost predicate Consecutive(start: (int, int) -> int) {
    forall y, m :: 1 <= m <= 12 ==> Follows(start, y, m)
  }

  lemma FebruaryEnd(year: int)
    ensures MonthStart(year, 2) + DaysInMonth(year, 2) == MonthStart(year, 3)
  {
    OffsetStep(10);
    YearLength(year - 1);
  }

  lemma MonthEnd(year: int, month: int)
    requires 1 <= month <= 12
    ensures MonthStart(year, month) + DaysInMonth(year, month)
            == if month < 12 then MonthStart(year, month + 1) else MonthStart(year + 1, 1)
  {
    if month == 2 {
      FebruaryEnd(year);
    } else {
      OffsetStep(Shifted(month));
    }
  }

  lemma MonthsConsecutive()
    ensures Consecutive(MonthStart)
  {
    forall y, m | 1 <= m <= 12 ensures Follows(MonthStart, y, m) { MonthEnd(y, m); }
  }

  lemma NextAfter(start: (int, int) -> int, d: Date)
    requires Consecutive(start) && Valid(d)
    ensures Valid(Next(d)) && start(Next(d).year, Next(d).month) + Next(d).day == start(d.year, d.month) + d.day + 1
  {
    assert Follows(start, d.year, d.month);
  }

  // Later months begin after the end of earlier ones.
  lemma {:induction false} MonthsApart(start: (int, int) -> int, y: int, m: int, y': int, m': int)
    requires Consecutive(start) && 1 <= m <= 12 && 1 <= m' <= 12
    requires y < y' || (y == y' && m < m')
    ensures start(y, m) + DaysInMonth(y, m) <= start(y', m')
    decreases 12 * (y' - y) + m' - m
  {
    var ny, nm := if m < 12 then y else y + 1, if m < 12 then m + 1 else 1;
    assert Follows(start, y, m);
    if ny != y' || nm != m' { MonthsApart(start, ny, nm, y', m'); }
  }

  lemma DayNumberIs(d: Date)
    requires Valid(d)
    ensures DayNumber(d) == MonthStart(d.year, d.month) + d.day
  {
    DayNumberFrom(d);
  }

  // ----- Main results -----

  lemma NextIsOneLater(d: Date)
    requires Valid(d)
    ensures Valid(Next(d)) && DayNumber(Next(d)) == DayNumber(d) + 1
  {
    MonthsConsecutive();
    NextAfter(MonthStart, d);
    DayNumberIs(d);
    DayNumberIs(Next(d));
  }

  lemma EpochIsZero()
    ensures DayNumber(Date(1970, 1, 1)) == 0
  {
  }

  // Year first, then month, then day.
  predicate Before(a: Date, b: Date) {
    a.year < b.year || (a.year == b.year && (a.month < b.month || (a.month == b.month && a.day < b.day)))
  }

  lemma BeforeIsSmaller(a: Date, b: Date)
    requires Valid(a) && Valid(b) && Before(a, b)
    ensures DayNumber(a) < DayNumber(b)
  {
    DayNumberIs(a);
    DayNumberIs(b);
    if a.year != b.year || a.month != b.month {
      MonthsConsecutive();
      MonthsApart(MonthStart, a.year, a.month, b.year, b.month);
    }
  }

  // The order of day numbers is the order of the calendar.
  lemma CalendarOrder(a: Date, b: Date)
    requires Valid(a) && Valid(b)
    ensures DayNumber(a) < DayNumber(b) <==> Before(a, b)
    ensures DayNumber(a) == DayNumber(b) <==> a == b
  {
    if Before(a, b) {
      BeforeIsSmaller(a, b);
    } else if a != b {
      BeforeIsSmaller(b, a);
    }
  }
}
