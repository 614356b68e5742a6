/** Day numbers and dates of the proleptic Gregorian calendar.  The source divides
    truncating toward zero; the year runs from March so that the leap day is last. */
module Calendar {
  import opened Wrappers

  datatype Date = Date(year: int, month: int, day: int)

  /** Division toward zero. */
  function TruncatedDiv(a: int, b: int): int
    requires b > 0
  {
    if a >= 0 then a / b else -(-a / b)
  }

  function TruncatedRem(a: int, b: int): int
    requires b > 0
  {
    a - b * TruncatedDiv(a, b)
  }

  predicate IsLeapYear(year: int) {
    TruncatedRem(year, 4) == 0 && (TruncatedRem(year, 100) != 0 || TruncatedRem(year, 400) == 0)
  }

  function DaysInMonth(year: int, month: int): int {
    if month in {1, 3, 5, 7, 8, 10, 12} then 31
    else if month in {4, 6, 9, 11} then 30
    else if month == 2 then (if IsLeapYear(year) then 29 else 28)
    else 0
  }

  predicate IsDate(d: Date) {
    1 <= d.month <= 12 && 1 <= d.day <= DaysInMonth(d.year, d.month)
  }

  function DaysFromCivil(d: Date): int {
    var year := d.year - (if d.month <= 2 then 1 else 0);
    var era := TruncatedDiv(if year >= 0 then year else year - 399, 400);
    var yearOfEra := year - era * 400;
    var dayOfYear := TruncatedDiv(153 * (d.month + (if d.month > 2 then -3 else 9)) + 2, 5) + d.day - 1;
    var dayOfEra := yearOfEra * 365 + TruncatedDiv(yearOfEra, 4) - TruncatedDiv(yearOfEra, 100) + dayOfYear;
    era * 146097 + dayOfEra - 719468
  }

  function CivilFromDays(days: int): Date {
    var z := days + 719468;
    var era := TruncatedDiv(if z >= 0 then z else z - 146096, 146097);
    CivilOfEra(era, z - era * 146097)
  }

  function CivilOfEra(era: int, doe: int): Date {
    var yoe := YearOfEra(doe);
    var doy := doe - (365 * yoe + TruncatedDiv(yoe, 4) - TruncatedDiv(yoe, 100));
    CivilOfYear(yoe + era * 400, doy)
  }

  function CivilOfYear(year: int, doy: int): Date {
    var mp := TruncatedDiv(5 * doy + 2, 153);
    var day := doy - TruncatedDiv(153 * mp + 2, 5) + 1;
    var month := mp + (if mp < 10 then 3 else -9);
    Date(year + (if month <= 2 then 1 else 0), month, day)
  }

  function YearOfEra(doe: int): int {
    TruncatedDiv(
      doe - TruncatedDiv(doe, 1460) + TruncatedDiv(doe, 36524) - TruncatedDiv(doe, 146096), 365)
  }

  // ---- the reference: what a calendar is ------------------------------------

  function NextDate(d: Date): Date {
    if d.day < DaysInMonth(d.year, d.month) then d.(day := d.day + 1)
    else if d.month < 12 then Date(d.year, d.month + 1, 1)
    else Date(d.year + 1, 1, 1)
  }

  predicate Earlier(d: Date, e: Date) {
    d.year < e.year || (d.year == e.year && (d.month < e.month || (d.month == e.month && d.day < e.day)))
  }

  // ---- truncation is harmless -----------------------------------------------

  /** The shifted truncating division of the source is floor division. */
  lemma ShiftedTruncation(a: int, b: int)
    requires b > 0
    ensures TruncatedDiv(if a >= 0 then a else a - (b - 1), b) == a / b
  {
    if a < 0 {
      var q := a / b;
      assert a == b * q + a % b;
      assert -(a - (b - 1)) == b * (-q) + (b - 1 - a % b);
      DivisionUnique(-(a - (b - 1)), b, -q);
    }
  }

  lemma DivisionUnique(a: int, b: int, q: int)
    requires b > 0 && b * q <= a < b * q + b
    ensures a / b == q
  {
    var p := a / b;
    assert b * p <= a < b * p + b;
    MultiplyStep(b, p, q);
    MultiplyStep(b, q, p);
  }

  lemma {:induction false} MultiplyStep(b: int, x: int, y: int)
    requires b > 0
    ensures x < y ==> b * x + b <= b * y
    decreases y - x
  {
    if x < y {
      assert b * y == b * (y - 1) + b;
      MultiplyStep(b, x, y - 1);
    }
  }

  lemma MultipleHasNoRemainder(x: int, b: int, k: int)
    requires b > 0 && x == b * k
    ensures x % b == 0
  {
    DivisionUnique(x, b, k);
  }

  lemma NegatedRemainder(n: int, b: int)
    requires b > 0 && n % b == 0
    ensures -n % b == 0
  {
    var k := n / b;
    assert n == b * k && -n == b * -k;
    MultipleHasNoRemainder(-n, b, -k);
  }

  /** Whether a remainder is zero does not depend on how division rounds. */
  lemma RemainderZero(year: int, b: int)
    requires b > 0
    ensures TruncatedRem(year, b) == 0 <==> year % b == 0
  {
    if year < 0 {
      var n := -year;
      assert TruncatedRem(year, b) == -(n % b);
      if n % b == 0 {
        NegatedRemainder(n, b);
      }
      if year % b == 0 {
        NegatedRemainder(year, b);
      }
    }
  }

  // ---- the 400-year cycle ----------------------------------------------------

  /** A March-based year of the cycle, split by century, four-year group and rest. */
  predicate InCycle(c: int, q: int, r: int, doy: int) {
    && 0 <= c <= 3 && 0 <= q <= 24 && 0 <= r <= 3 && 0 <= doy <= 365
    && (doy == 365 ==> r == 3 && (q < 24 || c == 3))
  }

  function DayOfEra(c: int, q: int, r: int, doy: int): int {
    36524 * c + 1461 * q + 365 * r + doy
  }

  /** The four-term formula inverts the layout of the cycle. */
  lemma YearOfEraCorrect(c: int, q: int, r: int, doy: int)
    requires InCycle(c, q, r, doy)
    ensures 0 <= DayOfEra(c, q, r, doy) < 146097
    ensures YearOfEra(DayOfEra(c, q, r, doy)) == 100 * c + 4 * q + r
  {
    var doe := DayOfEra(c, q, r, doy);
    var inGroup := 365 * r + doy;
    var spill, last := Spill(c, q, inGroup), if doe == 146096 then 1 else 0;
    GroupQuotient(c, q, r, doy);
    CenturyQuotients(c, q, r, doy);
    DivisionUnique(365 * (100 * c + 4 * q) + inGroup - spill, 365, 100 * c + 4 * q + r);
    assert doe - doe / 1460 + doe / 36524 - doe / 146096 == 365 * (100 * c + 4 * q) + inGroup - spill;
  }

  /** Whether the day lies past the last full 1460 days its group is counted by. */
  function Spill(c: int, q: int, inGroup: int): int {
    if 24 * c + q + inGroup >= 1460 then 1 else 0
  }

  lemma GroupQuotient(c: int, q: int, r: int, doy: int)
    requires InCycle(c, q, r, doy)
    ensures DayOfEra(c, q, r, doy) / 1460 == 25 * c + q + Spill(c, q, 365 * r + doy)
  {
    DivisionUnique(DayOfEra(c, q, r, doy), 1460, 25 * c + q + Spill(c, q, 365 * r + doy));
  }

  lemma CenturyQuotients(c: int, q: int, r: int, doy: int)
    requires InCycle(c, q, r, doy)
    ensures var doe := DayOfEra(c, q, r, doy);
      var last := if doe == 146096 then 1 else 0;
      0 <= doe < 146097 && doe / 36524 == c + last && doe / 146096 == last
  {
    var doe := DayOfEra(c, q, r, doy);
    var last := if doe == 146096 then 1 else 0;
    DivisionUnique(doe, 36524, c + last);
    DivisionUnique(doe, 146096, last);
  }

  lemma SplitOfYear(yoe: int) returns (c: int, q: int, r: int)
    requires 0 <= yoe < 400
    ensures 0 <= c <= 3 && 0 <= q <= 24 && 0 <= r <= 3 && yoe == 100 * c + 4 * q + r
    ensures yoe / 100 == c && yoe / 4 == 25 * c + q
  {
    c := yoe / 100;
    q := (yoe - 100 * c) / 4;
    r := yoe - 100 * c - 4 * q;
    DivisionUnique(yoe, 4, 25 * c + q);
  }

  lemma SplitOfDay(doe: int) returns (c: int, q: int, r: int, doy: int)
    requires 0 <= doe < 146097
    ensures InCycle(c, q, r, doy) && doe == DayOfEra(c, q, r, doy)
  {
    c := if doe == 146096 then 3 else doe / 36524;
    var inCentury := doe - 36524 * c;
    q := inCentury / 1461;
    var inGroup := inCentury - 1461 * q;
    r := if inGroup == 1460 then 3 else inGroup / 365;
    doy := inGroup - 365 * r;
  }

  /** Whether the March-based year of the cycle ends with a leap day. */
  lemma LeapDay(year: int, era: int, c: int, q: int, r: int)
    requires 0 <= c <= 3 && 0 <= q <= 24 && 0 <= r <= 3 && year == 400 * era + 100 * c + 4 * q + r + 1
    ensures IsLeapYear(year) <==> r == 3 && (q < 24 || c == 3)
  {
    RemainderZero(year, 4);
    RemainderZero(year, 100);
    RemainderZero(year, 400);
    var n := 100 * c + 4 * q + r + 1;
    DivisionUnique(year, 4, 100 * era + 25 * c + q + (if r == 3 then 1 else 0));
    DivisionUnique(year, 100, 4 * era + c + (if 4 * q + r == 99 then 1 else 0));
    DivisionUnique(year, 400, era + (if n == 400 then 1 else 0));
  }

  // ---- months ----------------------------------------------------------------

  /** Days before the March-based month `mp`. */
  function BeforeMonth(mp: int): int {
    (153 * mp + 2) / 5
  }

  lemma MonthTable()
    ensures BeforeMonth(0) == 0 && BeforeMonth(1) == 31 && BeforeMonth(2) == 61 && BeforeMonth(3) == 92
    ensures BeforeMonth(4) == 122 && BeforeMonth(5) == 153 && BeforeMonth(6) == 184 && BeforeMonth(7) == 214
    ensures BeforeMonth(8) == 245 && BeforeMonth(9) == 275 && BeforeMonth(10) == 306 && BeforeMonth(11) == 337
  {
  }

  function MarchMonth(month: int): int {
    if month > 2 then month - 3 else month + 9
  }

  // ---- the two directions ----------------------------------------------------

  /** A date's day number in terms of the cycle. */
  lemma DayNumberOfDate(d: Date) returns (era: int, c: int, q: int, r: int, doy: int)
    requires IsDate(d)
    ensures InCycle(c, q, r, doy)
    ensures d.year == 400 * era + 100 * c + 4 * q + r + (if d.month <= 2 then 1 else 0)
    ensures doy == BeforeMonth(MarchMonth(d.month)) + d.day - 1
    ensures DaysFromCivil(d) == 146097 * era + DayOfEra(c, q, r, doy) - 719468
  {
    var year := d.year - (if d.month <= 2 then 1 else 0);
    era := year / 400;
    c, q, r := SplitOfYear(year - 400 * era);
    doy := BeforeMonth(MarchMonth(d.month)) + d.day - 1;
    DayInCycle(d, era, c, q, r);
    hide IsDate, InCycle, DaysFromCivil;
    DaysOfParts(d, year, era, c, q, r);
  }

  lemma DaysOfParts(d: Date, year: int, era: int, c: int, q: int, r: int)
    requires 1 <= d.month <= 12 && year == d.year - (if d.month <= 2 then 1 else 0) && era == year / 400
    requires var yoe := year - 400 * era; yoe == 100 * c + 4 * q + r && yoe / 100 == c && yoe / 4 == 25 * c + q
    ensures DaysFromCivil(d) ==
      146097 * era + DayOfEra(c, q, r, BeforeMonth(MarchMonth(d.month)) + d.day - 1) - 719468
  {
    ShiftedTruncation(year, 400);
    hide IsLeapYear;
    assert TruncatedDiv(if year >= 0 then year else year - 399, 400) == era;
    hide TruncatedRem;
  }

  lemma DayInCycle(d: Date, era: int, c: int, q: int, r: int)
    requires IsDate(d) && 0 <= c <= 3 && 0 <= q <= 24 && 0 <= r <= 3
    requires d.year == 400 * era + 100 * c + 4 * q + r + (if d.month <= 2 then 1 else 0)
    ensures InCycle(c, q, r, BeforeMonth(MarchMonth(d.month)) + d.day - 1)
  {
    MonthTable();
    if d.month == 2 {
      LeapDay(d.year, era, c, q, r);
    }
    hide IsLeapYear;
  }

  lemma EraOfDays(era: int, doe: int)
    requires 0 <= doe < 146097
    ensures CivilFromDays(146097 * era + doe - 719468) == CivilOfEra(era, doe)
  {
    hide CivilOfEra;
    ShiftedTruncation(146097 * era + doe, 146097);
    DivisionUnique(146097 * era + doe, 146097, era);
  }

  lemma YearOfDay(era: int, c: int, q: int, r: int, doy: int)
    requires InCycle(c, q, r, doy)
    ensures CivilOfEra(era, DayOfEra(c, q, r, doy)) == CivilOfYear(400 * era + 100 * c + 4 * q + r, doy)
  {
    hide CivilOfYear, YearOfEra;
    YearOfEraCorrect(c, q, r, doy);
    var yoe := 100 * c + 4 * q + r;
    DivisionUnique(yoe, 4, 25 * c + q);
    DivisionUnique(yoe, 100, c);
  }

  /** A day number's date in terms of the cycle. */
  lemma DateOfDayNumber(era: int, c: int, q: int, r: int, doy: int, days: int)
    requires InCycle(c, q, r, doy) && days == 146097 * era + DayOfEra(c, q, r, doy) - 719468
    ensures CivilFromDays(days) == CivilOfYear(400 * era + 100 * c + 4 * q + r, doy)
  {
    hide CivilFromDays, CivilOfEra, CivilOfYear, YearOfEra;
    YearOfEraCorrect(c, q, r, doy);
    EraOfDays(era, DayOfEra(c, q, r, doy));
    YearOfDay(era, c, q, r, doy);
  }

  lemma MonthAndDay(year: int, doy: int)
    requires 0 <= doy <= 365
    ensures var d := CivilOfYear(year, doy);
      && 1 <= d.month <= 12 && d.year == year + (if d.month <= 2 then 1 else 0)
      && d.day == doy - BeforeMonth(MarchMonth(d.month)) + 1 >= 1
      && (d.month != 2 ==> d.day <= DaysInMonth(d.year, d.month))
      && (d.month == 2 ==> d.day <= (if doy == 365 then 29 else 28))
  {
  }

  /** Every date survives the way through its day number. */
  lemma CivilOfDays(d: Date)
    requires IsDate(d)
    ensures CivilFromDays(DaysFromCivil(d)) == d
  {
    hide CivilFromDays, DaysFromCivil, CivilOfYear;
    var era, c, q, r, doy := DayNumberOfDate(d);
    DateOfDayNumber(era, c, q, r, doy, DaysFromCivil(d));
    MonthRecovered(d, doy);
  }

  lemma MonthRecovered(d: Date, doy: int)
    requires IsDate(d) && doy == BeforeMonth(MarchMonth(d.month)) + d.day - 1 && 0 <= doy <= 365
    ensures CivilOfYear(d.year - (if d.month <= 2 then 1 else 0), doy) == d
  {
  }

  /** Every day number is the day number of a real date. */
  lemma DaysOfCivil(days: int)
    ensures IsDate(CivilFromDays(days))
    ensures DaysFromCivil(CivilFromDays(days)) == days
  {
    hide CivilFromDays, DaysFromCivil, CivilOfYear;
    var era := (days + 719468) / 146097;
    var c, q, r, doy := SplitOfDay(days + 719468 - 146097 * era);
    DateOfDayNumber(era, c, q, r, doy, days);
    MonthAndDay(400 * era + 100 * c + 4 * q + r, doy);
    var d := CivilFromDays(days);
    if d.month == 2 {
      LeapDay(d.year, era, c, q, r);
    }
    var era', c', q', r', doy' := DayNumberOfDate(d);
    SplitUnique(era, c, q, r, era', c', q', r');
  }

  lemma SplitUnique(era: int, c: int, q: int, r: int, era': int, c': int, q': int, r': int)
    requires 0 <= c <= 3 && 0 <= q <= 24 && 0 <= r <= 3 && 0 <= c' <= 3 && 0 <= q' <= 24 && 0 <= r' <= 3
    requires 400 * era + 100 * c + 4 * q + r == 400 * era' + 100 * c' + 4 * q' + r'
    ensures era == era' && c == c' && q == q' && r == r'
  {
  }

  // ---- consecutive days --------------------------------------------------------

  lemma NextIsDate(d: Date)
    requires IsDate(d)
    ensures IsDate(NextDate(d)) && Earlier(d, NextDate(d))
  {
  }

  /** The next day number is the next calendar date. */
  lemma NextDay(d: Date)
    requires IsDate(d)
    ensures DaysFromCivil(NextDate(d)) == DaysFromCivil(d) + 1
  {
    hide DaysFromCivil;
    NextIsDate(d);
    MonthTable();
    var e := NextDate(d);
    var era, c, q, r, doy := DayNumberOfDate(d);
    var era', c', q', r', doy' := DayNumberOfDate(e);
    if d.month == 2 && e.month == 3 {
      LeapDay(d.year, era, c, q, r);
      var carry, c1, q1, r1 := NextYearOfCycle(c, q, r);
      SplitUnique(era + carry, c1, q1, r1, era', c', q', r');
    } else {
      SplitUnique(era, c, q, r, era', c', q', r');
    }
  }

  /** The March-based year after the given one, whether it starts a new cycle, and
      how many days separate the two. */
  lemma NextYearOfCycle(c: int, q: int, r: int) returns (carry: int, c': int, q': int, r': int)
    requires 0 <= c <= 3 && 0 <= q <= 24 && 0 <= r <= 3
    ensures 0 <= c' <= 3 && 0 <= q' <= 24 && 0 <= r' <= 3
    ensures 100 * c + 4 * q + r + 1 == 400 * carry + 100 * c' + 4 * q' + r'
    ensures 146097 * carry + 36524 * c' + 1461 * q' + 365 * r' ==
      36524 * c + 1461 * q + 365 * r + (if r == 3 && (q < 24 || c == 3) then 366 else 365)
  {
    if r < 3 {
      carry, c', q', r' := 0, c, q, r + 1;
    } else if q < 24 {
      carry, c', q', r' := 0, c, q + 1, 0;
    } else if c < 3 {
      carry, c', q', r' := 0, c + 1, 0, 0;
    } else {
      carry, c', q', r' := 1, 0, 0, 0;
    }
  }

  /** Counting up from a day number visits strictly later dates. */
  lemma {:induction false} LaterDaysLaterDates(m: int, n: int)
    requires m < n
    ensures Earlier(CivilFromDays(m), CivilFromDays(n))
    decreases n - m
  {
    hide CivilFromDays, DaysFromCivil, NextDate;
    var d := CivilFromDays(n - 1);
    DaysOfCivil(n - 1);
    NextDay(d);
    NextIsDate(d);
    CivilOfDays(NextDate(d));
    assert CivilFromDays(n) == NextDate(d);
    if m < n - 1 {
      LaterDaysLaterDates(m, n - 1);
      EarlierTransitive(CivilFromDays(m), d, NextDate(d));
    }
  }

  lemma EarlierTransitive(d: Date, e: Date, f: Date)
    requires Earlier(d, e) && Earlier(e, f)
    ensures Earlier(d, f)
  {
  }

  /** Day numbers order dates exactly as the calendar does. */
  lemma DayNumbersOrderDates(d: Date, e: Date)
    requires IsDate(d) && IsDate(e)
    ensures DaysFromCivil(d) < DaysFromCivil(e) <==> Earlier(d, e)
    ensures DaysFromCivil(d) == DaysFromCivil(e) <==> d == e
  {
    hide CivilFromDays, DaysFromCivil;
    var m, n := DaysFromCivil(d), DaysFromCivil(e);
    CivilOfDays(d);
    CivilOfDays(e);
    if m < n {
      LaterDaysLaterDates(m, n);
    } else if n < m {
      LaterDaysLaterDates(n, m);
    }
  }

  // ---- machine arithmetic ------------------------------------------------------

  /** The one step of `civil_from_days` that can overflow is the shift of the day
      number; every other intermediate value stays in range. */
  lemma CivilArithmeticFits(days: int)
    requires FitsI64(days) && FitsI64(days + 719468)
    ensures var z := days + 719468;
      var era := TruncatedDiv(if z >= 0 then z else z - 146096, 146097);
      && (z < 0 ==> FitsI64(z - 146096)) && FitsI64(era * 146097) && 0 <= z - era * 146097 < 146097
      && FitsI64(CivilFromDays(days).year) && FitsI64(era * 400)
  {
  }
}
