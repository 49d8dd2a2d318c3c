/** Instants and civil time: floor division, the proleptic Gregorian calendar, and the two
    directions of `to_civil`. */
module Calendar {
  import opened Arithmetic

  const NS: int := 1_000_000_000

  // ---- division -----------------------------------------------------------------------

  /** The language's own division, which rounds toward zero. */
  function TruncDiv(a: int, b: int): int
    requires b != 0
  {
    if a >= 0 then (if b > 0 then a / b else -(a / -b)) else (if b > 0 then -(-a / b) else -a / -b)
  }

  function TruncMod(a: int, b: int): int
    requires b != 0
  {
    a - TruncDiv(a, b) * b
  }

  function FloorDiv(a: int, b: int): int
    requires b != 0
  {
    var q := TruncDiv(a, b);
    if TruncMod(a, b) != 0 && (a < 0) != (b < 0) then q - 1 else q
  }

  function FloorMod(a: int, b: int): int
    requires b != 0
  {
    a - FloorDiv(a, b) * b
  }

  /** Rounding down: the remainder is never negative, before the epoch as after it. */
  lemma FloorDivIs(a: int, b: int)
    requires b > 0
    ensures FloorDiv(a, b) == a / b && FloorMod(a, b) == a % b
  {
    if a < 0 {
      var q, r := -a / b, -a % b;
      assert -a == b * q + r;
      if r == 0 {
        assert b * -q == -(b * q);
        DivModUnique(a, b, -q, 0);
      } else {
        assert b * (-q - 1) == -(b * q) - b;
        DivModUnique(a, b, -q - 1, b - r);
      }
    }
  }

  // ---- the Gregorian calendar ---------------------------------------------------------

  predicate Leap(y: int) { y % 4 == 0 && (y % 100 != 0 || y % 400 == 0) }

  function YearDays(y: int): int { if Leap(y) then 366 else 365 }

  /** Days from 1970-01-01 to the first of January of `y`. */
  function YearStart(y: int): int {
    365 * (y - 1970) + (y - 1) / 4 - (y - 1) / 100 + (y - 1) / 400 - 477
  }

  lemma NextQuotient(x: int, m: int)
    requires m > 0
    ensures (x + 1) / m == x / m + if (x + 1) % m == 0 then 1 else 0
  {
    var q, r := x / m, x % m;
    assert x == m * q + r;
    if r + 1 == m {
      assert m * (q + 1) == m * q + m;
      DivModUnique(x + 1, m, q + 1, 0);
    } else {
      DivModUnique(x + 1, m, q, r + 1);
    }
  }

  lemma YearLength(y: int)
    ensures YearStart(y + 1) == YearStart(y) + YearDays(y)
  {
    NextQuotient(y - 1, 4);
    NextQuotient(y - 1, 100);
    NextQuotient(y - 1, 400);
    DivDiv(y, 4, 25);
    DivDiv(y, 100, 4);
  }

  function MonthDays(y: int, m: int): int {
    if m == 2 then (if Leap(y) then 29 else 28) else if m in {4, 6, 9, 11} then 30 else 31
  }

  /** Days of the year before month `m`. */
  function MonthStart(y: int, m: int): int
    requires 1 <= m <= 13
  {
    if m == 1 then 0 else MonthStart(y, m - 1) + MonthDays(y, m - 1)
  }

  lemma MonthStarts(y: int)
    ensures MonthStart(y, 13) == YearDays(y)
  {
    assert MonthStart(y, 2) == 31;
    assert MonthStart(y, 3) == 59 + if Leap(y) then 1 else 0;
    assert MonthStart(y, 5) == MonthStart(y, 3) + 61;
    assert MonthStart(y, 7) == MonthStart(y, 5) + 61;
    assert MonthStart(y, 9) == MonthStart(y, 7) + 62;
    assert MonthStart(y, 11) == MonthStart(y, 9) + 61;
  }

  datatype Date = Date(year: int, month: int, day: int)
  {
    predicate Valid() { 1 <= month <= 12 && 1 <= day <= MonthDays(year, month) }
  }

  /** Days since 1970-01-01; the day of the month may lie outside the month. */
  function DayNumber(y: int, m: int, d: int): int
    requires 1 <= m <= 12
  {
    YearStart(y) + MonthStart(y, m) + d - 1
  }

  function YearOf(days: int, y: int): int
    decreases if days < YearStart(y) then 1 + YearStart(y) - days
              else if days >= YearStart(y + 1) then 1 + days - YearStart(y) else 0
  {
    YearLength(y);
    YearLength(y - 1);
    if days < YearStart(y) then YearOf(days, y - 1)
    else if days >= YearStart(y + 1) then YearOf(days, y + 1)
    else y
  }

  function MonthOf(y: int, yday: int, m: int): (r: int)
    requires 1 <= m <= 12
    ensures m <= r <= 12
    decreases 12 - m
  {
    if m == 12 || yday < MonthStart(y, m + 1) then m else MonthOf(y, yday, m + 1)
  }

  /** `year_month_day` of a day count. */
  function DateOf(days: int): Date {
    var y := YearOf(days, 1970);
    var yday := days - YearStart(y);
    var m := MonthOf(y, yday, 1);
    Date(y, m, yday - MonthStart(y, m) + 1)
  }

  lemma {:induction false} YearOfHolds(days: int, y: int)
    ensures var r := YearOf(days, y); YearStart(r) <= days < YearStart(r + 1)
    decreases if days < YearStart(y) then 1 + YearStart(y) - days
              else if days >= YearStart(y + 1) then 1 + days - YearStart(y) else 0
  {
    hide YearStart, Leap;
    YearLength(y);
    YearLength(y - 1);
    if days < YearStart(y) {
      YearOfHolds(days, y - 1);
    } else if days >= YearStart(y + 1) {
      YearOfHolds(days, y + 1);
    }
  }

  lemma {:induction false} MonthOfHolds(y: int, yday: int, m: int)
    requires 1 <= m <= 12 && MonthStart(y, m) <= yday < YearDays(y)
    ensures var r := MonthOf(y, yday, m); MonthStart(y, r) <= yday < MonthStart(y, r + 1)
    decreases 12 - m
  {
    MonthStarts(y);
    if m < 12 && yday >= MonthStart(y, m + 1) { MonthOfHolds(y, yday, m + 1); }
  }

  /** Every day count is a date, and that date's day count. */
  lemma DateOfHolds(days: int)
    ensures var t := DateOf(days); t.Valid() && DayNumber(t.year, t.month, t.day) == days
  {
    YearOfHolds(days, 1970);
    var y := YearOf(days, 1970);
    YearLength(y);
    MonthOfHolds(y, days - YearStart(y), 1);
    var m := MonthOf(y, days - YearStart(y), 1);
    assert MonthStart(y, m + 1) == MonthStart(y, m) + MonthDays(y, m);
  }

  lemma {:induction false} YearStartsGrow(a: int, b: int)
    requires a <= b
    ensures YearStart(a) + 365 * (b - a) <= YearStart(b)
    decreases b - a
  {
    if a < b {
      YearStartsGrow(a, b - 1);
      YearLength(b - 1);
    }
  }

  lemma {:induction false} MonthStartsGrow(y: int, a: int, b: int)
    requires 1 <= a <= b <= 13
    ensures MonthStart(y, a) + 28 * (b - a) <= MonthStart(y, b)
    decreases b - a
  {
    if a < b { MonthStartsGrow(y, a, b - 1); }
  }

  /** A day count belongs to one date only. */
  lemma DateUnique(s: Date, t: Date)
    requires s.Valid() && t.Valid() && DayNumber(s.year, s.month, s.day) == DayNumber(t.year, t.month, t.day)
    ensures s == t
  {
    WithinYear(s);
    WithinYear(t);
    if s.year < t.year { YearStartsGrow(s.year + 1, t.year); }
    if t.year < s.year { YearStartsGrow(t.year + 1, s.year); }
    if s.month < t.month { MonthStartsGrow(s.year, s.month + 1, t.month); }
    if t.month < s.month { MonthStartsGrow(s.year, t.month + 1, s.month); }
  }

  lemma WithinYear(t: Date)
    requires t.Valid()
    ensures YearStart(t.year) <= DayNumber(t.year, t.month, t.day) < YearStart(t.year + 1)
  {
    YearLength(t.year);
    MonthStarts(t.year);
    MonthStartsGrow(t.year, 1, t.month);
    MonthStartsGrow(t.year, t.month + 1, 13);
    assert MonthStart(t.year, t.month + 1) == MonthStart(t.year, t.month) + MonthDays(t.year, t.month);
  }

  /** Days before the month in a year that begins with March. */
  function FromMarch(m: int): int {
    (153 * (if m > 2 then m - 3 else m + 9) + 2) / 5
  }

  lemma MarchTable(m: int)
    requires 1 <= m <= 12
    ensures FromMarch(m) == if m == 3 then 0 else if m == 4 then 31 else if m == 5 then 61 else if m == 6 then 92
                            else if m == 7 then 122 else if m == 8 then 153 else if m == 9 then 184 else if m == 10 then 214
                            else if m == 11 then 245 else if m == 12 then 275 else if m == 1 then 306 else 337
  {
  }

  lemma JanuaryTable(y: int, m: int)
    requires 3 <= m <= 12
    ensures MonthStart(y, m) == 59 + (if Leap(y) then 1 else 0) + FromMarch(m)
  {
    MarchTable(m);
    assert MonthStart(y, 2) == 31;
    assert MonthStart(y, 3) == 59 + if Leap(y) then 1 else 0;
    assert MonthStart(y, 5) == MonthStart(y, 3) + 61;
    assert MonthStart(y, 7) == MonthStart(y, 5) + 61;
    assert MonthStart(y, 9) == MonthStart(y, 7) + 62;
    assert MonthStart(y, 11) == MonthStart(y, 9) + 61;
  }

  /** The day count in closed form, as days since March 1 of the year 0: no table of months. */
  lemma ClosedForm(t: Date)
    requires 1 <= t.month <= 12
    ensures var y := if t.month > 2 then t.year else t.year - 1;
            DayNumber(t.year, t.month, t.day) == 365 * y + y / 4 - y / 100 + y / 400 + FromMarch(t.month) + t.day - 719469
  {
    hide MonthStart, FromMarch;
    MarchTable(t.month);
    if t.month > 2 {
      JanuaryTable(t.year, t.month);
      LeapQuotients(t.year);
    } else {
      FirstMonths(t.year);
    }
  }

  lemma FirstMonths(y: int)
    ensures MonthStart(y, 1) == 0 && MonthStart(y, 2) == 31
  {
  }

  lemma LeapQuotients(y: int)
    ensures y / 4 - y / 100 + y / 400 == (y - 1) / 4 - (y - 1) / 100 + (y - 1) / 400 + if Leap(y) then 1 else 0
  {
    hide YearStart, Leap;
    YearLength(y);
    YearStartIs(y);
    YearStartIs(y + 1);
    YearDaysIs(y);
  }

  lemma YearStartIs(y: int)
    ensures YearStart(y) == 365 * (y - 1970) + (y - 1) / 4 - (y - 1) / 100 + (y - 1) / 400 - 477
  {
  }

  lemma YearDaysIs(y: int)
    ensures YearDays(y) == 365 + if Leap(y) then 1 else 0
  {
    hide Leap;
  }

  function Successor(t: Date): Date {
    if t.day < MonthDays(t.year, t.month) then t.(day := t.day + 1)
    else if t.month < 12 then Date(t.year, t.month + 1, 1)
    else Date(t.year + 1, 1, 1)
  }

  lemma SuccessorNumber(t: Date)
    requires t.Valid()
    ensures var u := Successor(t); u.Valid() && DayNumber(u.year, u.month, u.day) == DayNumber(t.year, t.month, t.day) + 1
  {
    assert MonthStart(t.year, t.month + 1) == MonthStart(t.year, t.month) + MonthDays(t.year, t.month);
    if t.day == MonthDays(t.year, t.month) && t.month == 12 {
      MonthStarts(t.year);
      YearLength(t.year);
    }
  }

  lemma DayZero()
    ensures DateOf(0) == Date(1970, 1, 1)
  {
    hide DateOf;
    DateOfHolds(0);
    assert YearStart(1970) == 0;
    DateUnique(DateOf(0), Date(1970, 1, 1));
  }

  /** The calendar is pinned down by where it starts and by what follows each day. */
  lemma NextDay(days: int)
    ensures DateOf(0) == Date(1970, 1, 1)
    ensures DateOf(days + 1) == Successor(DateOf(days))
  {
    hide DateOf, DayNumber, Successor;
    DayZero();
    DateOfHolds(days);
    DateOfHolds(days + 1);
    SuccessorNumber(DateOf(days));
    DateUnique(DateOf(days + 1), Successor(DateOf(days)));
  }

  // ---- instants -----------------------------------------------------------------------

  datatype Civil = Civil(year: int, month: int, day: int, hour: int, minute: int, second: int,
                         nano: int, yday: int, wday: int)
  {
    predicate Valid() {
      && Date(year, month, day).Valid()
      && 0 <= hour < 24 && 0 <= minute < 60 && 0 <= second < 60 && 0 <= nano < NS
      && yday == DayNumber(year, month, day) - YearStart(year) + 1
      && wday == (DayNumber(year, month, day) + 4) % 7
    }
  }

  /** `to_civil`, on instants whose local time does not overflow. */
  function ToCivil(nanos: int, offset: int): Civil {
    var local := nanos + offset * NS;
    var secs := FloorDiv(local, NS);
    var days := FloorDiv(secs, 86400);
    var sod := FloorMod(secs, 86400);
    var t := DateOf(days);
    Civil(t.year, t.month, t.day, sod / 3600, sod / 60 % 60, sod % 60,
          FloorMod(local, NS), days - YearStart(t.year) + 1, FloorMod(days + 4, 7))
  }

  /** `from_civil_secs`: months out of range roll into other years, days into other months. */
  function FromCivilSecs(year: int, month: int, day: int, hour: int, minute: int, second: int, offset: int): int {
    var m0 := month - 1;
    FloorDivIs(m0, 12);
    DayNumber(year + FloorDiv(m0, 12), FloorMod(m0, 12) + 1, day) * 86400
    + hour * 3600 + minute * 60 + second - offset
  }

  lemma ClockParts(sod: int)
    requires 0 <= sod < 86400
    ensures 0 <= sod / 3600 < 24 && sod == sod / 3600 * 3600 + sod / 60 % 60 * 60 + sod % 60
  {
    DivDiv(sod, 60, 60);
  }

  /** `from_civil_secs` of a month inside the year. */
  lemma InYear(year: int, month: int, day: int, hour: int, minute: int, second: int, offset: int)
    requires 1 <= month <= 12
    ensures FromCivilSecs(year, month, day, hour, minute, second, offset)
         == DayNumber(year, month, day) * 86400 + hour * 3600 + minute * 60 + second - offset
  {
    FloorDivIs(month - 1, 12);
    DivModUnique(month - 1, 12, 0, month - 1);
  }

  /** `to_civil` without the rounding detours. */
  lemma CivilOf(nanos: int, offset: int, secs: int)
    requires secs == nanos / NS + offset
    ensures var c := ToCivil(nanos, offset); var sod := secs % 86400;
            && Date(c.year, c.month, c.day) == DateOf(secs / 86400)
            && c.hour == sod / 3600 && c.minute == sod / 60 % 60 && c.second == sod % 60
            && c.nano == nanos % NS
            && c.yday == secs / 86400 - YearStart(c.year) + 1 && c.wday == (secs / 86400 + 4) % 7
  {
    hide DateOf, YearStart;
    var local := nanos + offset * NS;
    FloorDivIs(local, NS);
    DivModUnique(local, NS, secs, nanos % NS);
    FloorDivIs(secs, 86400);
    FloorDivIs(secs / 86400 + 4, 7);
  }

  /** Splitting an instant and putting it together again changes nothing. */
  lemma FromToCivil(nanos: int, offset: int)
    ensures var c := ToCivil(nanos, offset);
            c.Valid() &&
            FromCivilSecs(c.year, c.month, c.day, c.hour, c.minute, c.second, offset) == nanos / NS &&
            c.nano == nanos % NS
  {
    hide ToCivil, FromCivilSecs, DateOf, DayNumber, YearStart;
    var secs := nanos / NS + offset;
    CivilOf(nanos, offset, secs);
    var c := ToCivil(nanos, offset);
    DateOfHolds(secs / 86400);
    ClockParts(secs % 86400);
    InYear(c.year, c.month, c.day, c.hour, c.minute, c.second, offset);
  }

  /** Putting a civil time together and splitting it again gives it back. */
  lemma ToFromCivil(c: Civil, offset: int)
    requires c.Valid()
    ensures ToCivil(FromCivilSecs(c.year, c.month, c.day, c.hour, c.minute, c.second, offset) * NS + c.nano, offset) == c
  {
    hide ToCivil, FromCivilSecs, DateOf, DayNumber, YearStart;
    InYear(c.year, c.month, c.day, c.hour, c.minute, c.second, offset);
    var days := DayNumber(c.year, c.month, c.day);
    var sod := c.hour * 3600 + c.minute * 60 + c.second;
    var secs := days * 86400 + sod;
    var nanos := (secs - offset) * NS + c.nano;
    DivModUnique(nanos, NS, secs - offset, c.nano);
    CivilOf(nanos, offset, secs);
    DivModUnique(secs, 86400, days, sod);
    DateOfHolds(days);
    DateUnique(DateOf(days), Date(c.year, c.month, c.day));
    DivModUnique(sod, 3600, c.hour, c.minute * 60 + c.second);
    DivModUnique(sod, 60, c.hour * 60 + c.minute, c.second);
    DivModUnique(c.hour * 60 + c.minute, 60, c.hour, c.minute);
  }

  /** Twelve months more are a year more, from any month. */
  lemma MonthsRoll(year: int, month: int, day: int, hour: int, minute: int, second: int, offset: int, k: int)
    ensures FromCivilSecs(year, month + 12 * k, day, hour, minute, second, offset)
         == FromCivilSecs(year + k, month, day, hour, minute, second, offset)
  {
    FloorDivIs(month - 1, 12);
    FloorDivIs(month + 12 * k - 1, 12);
    DivModUnique(month + 12 * k - 1, 12, (month - 1) / 12 + k, (month - 1) % 12);
  }
}
