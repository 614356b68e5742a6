/** Canonical text of temporal values, its parsers, and instants with offsets. */
module Temporal {
  import opened Wrappers
  import opened Texts
  import opened Calendar

  const MAX_YEAR := 999999999
  const NANOS_PER_SECOND := 1000000000
  const NANOS_PER_DAY := 86400 * NANOS_PER_SECOND
  const MAX_OFFSET := 18 * 3600

  datatype DateValue = DateValue(text: string, days: int)
  datatype LocalTimeValue = LocalTimeValue(text: string, nanoseconds: int)
  datatype TimeValue = TimeValue(text: string, nanoseconds: int, offset: int)
  datatype LocalDateTimeValue = LocalDateTimeValue(text: string, days: int, nanoseconds: int)
  datatype ZonedDateTimeValue = ZonedDateTimeValue(text: string, zone: string, instant: int, offset: int)

  // ---- numbers in text ---------------------------------------------------------

  /** At least `width` digits. */
  function Padded(n: nat, width: nat): string {
    if n < Power10(width) then Fixed(n, width) else Digits(n)
  }

  function SignedDigits(n: int): string {
    if n < 0 then ['-'] + Digits(-n) else Digits(n)
  }

  function ParseTwoDigits(text: string): Option<int> {
    if |text| == 2 && AllDigits(text) then Some(Numeral(text)) else None
  }

  lemma {:induction false} TwoDigits(n: nat)
    requires n < 100
    ensures Padded(n, 2) == Fixed(n, 2) && ParseTwoDigits(Padded(n, 2)) == Some(n)
  {
    Powers();
    NumeralOfFixed(n, 2);
  }

  // ---- dates ---------------------------------------------------------------------

  function ParseYear(text: string): Option<int> {
    var signed := text != [] && (text[0] == '+' || text[0] == '-');
    var digits := if signed then text[1..] else text;
    if |digits| < 4 || !AllDigits(digits) then None
    else
      var year := if signed && text[0] == '-' then -(Numeral(digits) as int) else Numeral(digits);
      if -MAX_YEAR <= year <= MAX_YEAR then Some(year) else None
  }

  function ParseDate(text: string): Option<Date> {
    match SplitOnceLast(text, '-')
    case None => None
    case Some((yearMonth, day)) =>
      match SplitOnceLast(yearMonth, '-')
      case None => None
      case Some((year, month)) =>
        match (ParseYear(year), ParseTwoDigits(month), ParseTwoDigits(day))
        case (Some(y), Some(m), Some(d)) => if IsDate(Date(y, m, d)) then Some(Date(y, m, d)) else None
        case _ => None
  }

  function YearText(year: int): string {
    if 0 <= year <= 9999 then Padded(year, 4)
    else if -9999 <= year < 0 then ['-'] + Padded(-year, 4)
    else if year > 9999 then ['+'] + Digits(year)
    else SignedDigits(year)
  }

  /** `format_date_from_days` pads only years 0 to 9999. */
  function PlainYearText(year: int): string {
    if 0 <= year <= 9999 then Padded(year, 4) else SignedDigits(year)
  }

  /** Two digits of an unsigned number. */
  function TwoDigitText(n: int): string {
    Padded(if n < 0 then 0 else n, 2)
  }

  function MonthDayText(d: Date): string {
    ['-'] + TwoDigitText(d.month) + ['-'] + TwoDigitText(d.day)
  }

  function FormatDate(d: Date): string {
    YearText(d.year) + MonthDayText(d)
  }

  function FormatDateFromDays(days: int): string {
    PlainYearText(CivilFromDays(days).year) + MonthDayText(CivilFromDays(days))
  }

  function DateParse(text: string): Option<DateValue> {
    match ParseDate(text)
    case None => None
    case Some(d) => Some(DateValue(FormatDate(d), DaysFromCivil(d)))
  }

  function DateFromDays(days: int): Option<DateValue> {
    DateParse(FormatDateFromDays(days))
  }

  /** Years whose dates survive the way through a day number. */
  predicate Rebuildable(year: int) {
    -MAX_YEAR <= year <= MAX_YEAR && !(-999 <= year <= -1)
  }

  predicate SupportedDate(d: Date) {
    IsDate(d) && -MAX_YEAR <= d.year <= MAX_YEAR
  }

  lemma {:induction false} ParseSignedNumeral(sign: string, digits: string)
    requires sign == [] || sign == ['+'] || sign == ['-']
    requires AllDigits(digits) && |digits| > 0
    ensures ParseYear(sign + digits) ==
      if |digits| < 4 then None
      else
        var year := if sign == ['-'] then -(Numeral(digits) as int) else Numeral(digits);
        if -MAX_YEAR <= year <= MAX_YEAR then Some(year) else None
  {
    var text := sign + digits;
    if sign == [] {
      assert text == digits && IsDigit(text[0]);
    } else {
      assert text[0] == sign[0] && text[1..] == digits;
    }
  }

  /** Four digits hold every number below ten thousand. */
  lemma FourDigits(n: nat)
    requires n < 10000
    ensures |Padded(n, 4)| == 4 && AllDigits(Padded(n, 4)) && Numeral(Padded(n, 4)) == n
  {
    Powers();
    NumeralOfFixed(n, 4);
  }

  lemma {:induction false} NumeralSize(n: nat)
    ensures Numeral(Digits(n)) == n && (|Digits(n)| >= 4 <==> n >= 1000)
  {
    Powers();
    NumeralOfDigits(n);
    DigitsLength(n, 3);
  }

  lemma ParseYearText(year: int)
    requires -MAX_YEAR <= year <= MAX_YEAR
    ensures ParseYear(YearText(year)) == Some(year)
  {
    hide Fixed, Digits, Numeral, Padded, Power10;
    if 0 <= year <= 9999 {
      FourDigits(year);
      Unsigned(Padded(year, 4));
    } else if -9999 <= year < 0 {
      FourDigits(-year);
      ParseSignedNumeral(['-'], Padded(-year, 4));
    } else if year > 9999 {
      NumeralSize(year);
      ParseSignedNumeral(['+'], Digits(year));
    } else {
      NumeralSize(-year);
      ParseSignedNumeral(['-'], Digits(-year));
    }
  }

  lemma {:induction false} Unsigned(digits: string)
    requires AllDigits(digits) && |digits| > 0
    ensures ParseYear(digits) ==
      if |digits| < 4 then None else if Numeral(digits) <= MAX_YEAR then Some(Numeral(digits)) else None
  {
  }

  /** The unpadded form is read back exactly outside the years -999 to -1. */
  lemma ParsePlainYearText(year: int)
    ensures ParseYear(PlainYearText(year)) ==
      if Rebuildable(year) then Some(year) else None
  {
    hide Fixed, Digits, Numeral, Padded, Power10;
    if 0 <= year <= 9999 {
      FourDigits(year);
      Unsigned(Padded(year, 4));
    } else if year > 9999 {
      NumeralSize(year);
      Unsigned(Digits(year));
    } else {
      NumeralSize(-year);
      ParseSignedNumeral(['-'], Digits(-year));
    }
  }

  /** Reading any year text followed by a real month and day. */
  lemma ParseDateText(yearText: string, d: Date)
    requires IsDate(d) && (ParseYear(yearText) == Some(d.year) || ParseYear(yearText) == None)
    ensures ParseDate(yearText + MonthDayText(d)) == if ParseYear(yearText).Some? then Some(d) else None
  {
    TwoDigits(d.month);
    TwoDigits(d.day);
    var month, day := Fixed(d.month, 2), Fixed(d.day, 2);
    var yearMonth := yearText + ['-'] + month;
    assert yearText + MonthDayText(d) == yearMonth + ['-'] + day;
    assert '-' !in month && '-' !in day;
    SplitOnceLastJoined(yearMonth, '-', day);
    SplitOnceLastJoined(yearText, '-', month);
  }

  /** Printing a date and reading it back. */
  lemma DateRoundTrip(d: Date)
    requires SupportedDate(d)
    ensures ParseDate(FormatDate(d)) == Some(d)
    ensures DateParse(FormatDate(d)) == Some(DateValue(FormatDate(d), DaysFromCivil(d)))
  {
    ParseYearText(d.year);
    ParseDateText(YearText(d.year), d);
  }

  /** The text a parsed date carries is a fixed point of the parser. */
  lemma DateCanonical(text: string)
    requires DateParse(text).Some?
    ensures DateParse(DateParse(text).value.text) == DateParse(text)
    ensures SupportedDate(ParseDate(text).value)
  {
    ParseDateInRange(text);
    DateRoundTrip(ParseDate(text).value);
  }

  lemma ParseDateInRange(text: string)
    requires ParseDate(text).Some?
    ensures SupportedDate(ParseDate(text).value)
  {
  }

  /** A date is rebuilt from its day number exactly when its year is supported and
      not one of -999 to -1, which the unpadded form cannot carry. */
  lemma DateFromDaysIff(days: int)
    ensures DateFromDays(days).Some? <==> Rebuildable(CivilFromDays(days).year)
    ensures DateFromDays(days).Some? ==>
      DateFromDays(days).value == DateValue(FormatDate(CivilFromDays(days)), days)
  {
    hide CivilFromDays, DaysFromCivil, PlainYearText, MonthDayText, ParseYear, ParseDate, YearText, IsDate;
    var d := CivilFromDays(days);
    DaysOfCivil(days);
    ParsePlainYearText(d.year);
    ParseDateText(PlainYearText(d.year), d);
  }

  /** The gap is real: the first day of the year -1 prints, parses, and is not rebuilt. */
  lemma DateFromDaysGap()
    ensures var d := Date(-1, 1, 1);
      && DateParse(FormatDate(d)).Some?
      && DateFromDays(DateParse(FormatDate(d)).value.days) == None
  {
    var d := Date(-1, 1, 1);
    DateRoundTrip(d);
    CivilOfDays(d);
    DateFromDaysIff(DaysFromCivil(d));
  }

  // ---- times of day ----------------------------------------------------------------

  function ParseFraction(text: string): Option<int> {
    if 1 <= |text| <= 9 && AllDigits(text) then Some(Numeral(text) * Power10(9 - |text|)) else None
  }

  function ParseSecond(text: string): Option<(int, int)> {
    match SplitOnce(text, '.')
    case None => (match ParseTwoDigits(text) case None => None case Some(s) => Some((s, 0)))
    case Some((second, fraction)) =>
      match (ParseTwoDigits(second), ParseFraction(fraction))
      case (Some(s), Some(n)) => Some((s, n))
      case _ => None
  }

  function FractionText(nano: nat): string {
    if nano == 0 then [] else ['.'] + TrimZeros(Padded(nano, 9))
  }

  function ClockText(hour: nat, minute: nat, second: nat, nano: nat): string {
    Padded(hour, 2) + [':'] + Padded(minute, 2) + [':'] + (Padded(second, 2) + FractionText(nano))
  }

  function ParseLocalTime(text: string): Option<(int, string)> {
    var parts := Split(text, ':');
    if |parts| != 3 then None
    else
      match (ParseTwoDigits(parts[0]), ParseTwoDigits(parts[1]), ParseSecond(parts[2]))
      case (Some(h), Some(m), Some((s, n))) =>
        if 0 <= h <= 23 && 0 <= m <= 59 && 0 <= s <= 59 && 0 <= n
        then Some(((h * 3600 + m * 60 + s) * NANOS_PER_SECOND + n, ClockText(h, m, s, n))) else None
      case _ => None
  }

  function FormatLocalTime(nanoseconds: nat): string {
    ClockText(
      nanoseconds / 3600000000000, nanoseconds / 60000000000 % 60,
      nanoseconds / NANOS_PER_SECOND % 60, nanoseconds % NANOS_PER_SECOND)
  }

  function LocalTimeParse(text: string): Option<LocalTimeValue> {
    match ParseLocalTime(text)
    case None => None
    case Some((n, canonical)) => Some(LocalTimeValue(canonical, n))
  }

  lemma FractionRoundTrip(nano: nat)
    requires 0 < nano < NANOS_PER_SECOND
    ensures var f := TrimZeros(Padded(nano, 9)); 1 <= |f| <= 9 && AllDigits(f) && ParseFraction(f) == Some(nano)
  {
    Powers();
    var full := Fixed(nano, 9);
    NumeralOfFixed(nano, 9);
    TrimmedNumeral(full);
    assert TrimZeros(full) != [] by {
      assert Numeral([]) == 0;
    }
  }

  lemma SecondRoundTrip(second: nat, nano: nat)
    requires second < 100 && nano < NANOS_PER_SECOND
    ensures ParseSecond(Padded(second, 2) + FractionText(nano)) == Some((second, nano))
    ensures ':' !in Padded(second, 2) + FractionText(nano)
  {
    TwoDigits(second);
    var digits := Fixed(second, 2);
    if nano == 0 {
      assert digits + [] == digits;
      assert IndexOf(digits, '.') == 2;
    } else {
      FractionRoundTrip(nano);
      var fraction := TrimZeros(Padded(nano, 9));
      assert digits + (['.'] + fraction) == digits + ['.'] + fraction;
      SplitOnceJoined(digits, '.', fraction);
    }
  }

  lemma ClockRoundTrip(hour: nat, minute: nat, second: nat, nano: nat)
    requires hour <= 23 && minute <= 59 && second <= 59 && nano < NANOS_PER_SECOND
    ensures ParseLocalTime(ClockText(hour, minute, second, nano)) ==
      Some(((hour * 3600 + minute * 60 + second) * NANOS_PER_SECOND + nano, ClockText(hour, minute, second, nano)))
  {
    hide Fixed, Digits, Numeral, Padded, Power10, FractionText, ParseSecond;
    TwoDigits(hour);
    TwoDigits(minute);
    SecondRoundTrip(second, nano);
    var h, m, s := Fixed(hour, 2), Fixed(minute, 2), Padded(second, 2) + FractionText(nano);
    assert ClockText(hour, minute, second, nano) == h + [':'] + (m + [':'] + s);
    SplitJoined(h, ':', m + [':'] + s);
    SplitJoined(m, ':', s);
    SplitAlone(s, ':');
    assert Split(ClockText(hour, minute, second, nano), ':') == [h, m, s];
  }

  /** Clock components and nanoseconds of the day determine each other. */
  lemma ClockOfNanoseconds(nanoseconds: nat)
    requires nanoseconds < NANOS_PER_DAY
    ensures var h, m, s, n := nanoseconds / 3600000000000, nanoseconds / 60000000000 % 60,
        nanoseconds / NANOS_PER_SECOND % 60, nanoseconds % NANOS_PER_SECOND;
      && 0 <= h <= 23 && 0 <= m <= 59 && 0 <= s <= 59 && 0 <= n < NANOS_PER_SECOND
      && (h * 3600 + m * 60 + s) * NANOS_PER_SECOND + n == nanoseconds
  {
    var seconds := nanoseconds / NANOS_PER_SECOND;
    DivisionUnique(nanoseconds, 60000000000, seconds / 60);
    DivisionUnique(nanoseconds, 3600000000000, seconds / 60 / 60);
  }

  lemma NanosecondsOfClock(h: nat, m: nat, s: nat, n: nat)
    requires h <= 23 && m <= 59 && s <= 59 && n < NANOS_PER_SECOND
    ensures FormatLocalTime((h * 3600 + m * 60 + s) * NANOS_PER_SECOND + n) == ClockText(h, m, s, n)
  {
    hide ClockText;
    var nanoseconds := (h * 3600 + m * 60 + s) * NANOS_PER_SECOND + n;
    DivisionUnique(nanoseconds, NANOS_PER_SECOND, h * 3600 + m * 60 + s);
    DivisionUnique(nanoseconds, 60000000000, h * 60 + m);
    DivisionUnique(nanoseconds, 3600000000000, h);
  }

  /** Printing a time of day and reading it back. */
  lemma LocalTimeRoundTrip(nanoseconds: nat)
    requires nanoseconds < NANOS_PER_DAY
    ensures ParseLocalTime(FormatLocalTime(nanoseconds)) == Some((nanoseconds, FormatLocalTime(nanoseconds)))
  {
    hide ClockText, ParseLocalTime;
    ClockOfNanoseconds(nanoseconds);
    ClockRoundTrip(nanoseconds / 3600000000000, nanoseconds / 60000000000 % 60,
      nanoseconds / NANOS_PER_SECOND % 60, nanoseconds % NANOS_PER_SECOND);
  }

  /** A count of a day or more prints an hour that no clock text may have. */
  lemma LocalTimePastMidnight(nanoseconds: nat)
    requires nanoseconds >= NANOS_PER_DAY
    ensures ParseLocalTime(FormatLocalTime(nanoseconds)) == None
  {
    hide Digits, Numeral, Padded, Power10, FractionText, ParseSecond, ParseTwoDigits;
    var hour, minute := nanoseconds / 3600000000000, nanoseconds / 60000000000 % 60;
    var second, nano := nanoseconds / NANOS_PER_SECOND % 60, nanoseconds % NANOS_PER_SECOND;
    assert hour >= 24;
    LateHour(hour);
    SecondRoundTrip(second, nano);
    TwoDigits(minute);
    var h, m, s := Padded(hour, 2), Padded(minute, 2), Padded(second, 2) + FractionText(nano);
    assert FormatLocalTime(nanoseconds) == h + [':'] + (m + [':'] + s);
    SplitJoined(h, ':', m + [':'] + s);
  }

  lemma LateHour(hour: nat)
    requires hour >= 24
    ensures ':' !in Padded(hour, 2)
    ensures ParseTwoDigits(Padded(hour, 2)) == None || ParseTwoDigits(Padded(hour, 2)) == Some(hour)
  {
    Powers();
    if hour < 100 {
      TwoDigits(hour);
    } else {
      DigitsLength(hour, 2);
    }
  }

  /** Whatever was parsed, the canonical text is the printed one. */
  lemma LocalTimeCanonical(text: string)
    requires ParseLocalTime(text).Some?
    ensures var (n, canonical) := ParseLocalTime(text).value;
      0 <= n < NANOS_PER_DAY && canonical == FormatLocalTime(n) && ParseLocalTime(canonical) == Some((n, canonical))
  {
    hide ClockText, FormatLocalTime, Split, ParseTwoDigits;
    var parts := Split(text, ':');
    var h, m := ParseTwoDigits(parts[0]).value, ParseTwoDigits(parts[1]).value;
    var (s, n) := ParseSecond(parts[2]).value;
    ParsedSecondInRange(parts[2]);
    NanosecondsOfClock(h, m, s, n);
    LocalTimeRoundTrip((h * 3600 + m * 60 + s) * NANOS_PER_SECOND + n);
  }

  lemma ParsedSecondInRange(text: string)
    requires ParseSecond(text).Some?
    ensures 0 <= ParseSecond(text).value.1 < NANOS_PER_SECOND
  {
    hide Power10, Numeral, IndexOf;
    match SplitOnce(text, '.')
    case None =>
    case Some((_, fraction)) => ParsedFractionInRange(fraction);
  }

  lemma ParsedFractionInRange(fraction: string)
    requires ParseFraction(fraction).Some?
    ensures 0 <= ParseFraction(fraction).value < NANOS_PER_SECOND
  {
    hide Numeral, Power10;
    FixedOfNumeral(fraction);
    PowerSum(|fraction|, 9 - |fraction|);
    PowerPositive(9 - |fraction|);
    Powers();
    ScaledBelow(Numeral(fraction), Power10(|fraction|), Power10(9 - |fraction|), NANOS_PER_SECOND);
  }

  lemma ScaledBelow(n: nat, bound: nat, scale: nat, total: nat)
    requires n < bound && scale > 0 && bound * scale == total
    ensures 0 <= n * scale < total
  {
  }

  lemma {:induction false} PowerSum(a: nat, b: nat)
    ensures Power10(a) * Power10(b) == Power10(a + b)
  {
    if a > 0 {
      PowerSum(a - 1, b);
      assert 10 * Power10(a - 1) * Power10(b) == 10 * (Power10(a - 1) * Power10(b));
    }
  }

  lemma {:induction false} PowerPositive(a: nat)
    ensures Power10(a) > 0
  {
    if a > 0 { PowerPositive(a - 1); }
  }

  // ---- offsets -----------------------------------------------------------------------

  function OffsetFields(digits: string): Option<(int, int, int)> {
    if ':' in digits then
      var parts := Split(digits, ':');
      if |parts| == 2 then
        match (ParseTwoDigits(parts[0]), ParseTwoDigits(parts[1]))
        case (Some(h), Some(m)) => Some((h, m, 0))
        case _ => None
      else if |parts| == 3 then
        match (ParseTwoDigits(parts[0]), ParseTwoDigits(parts[1]), ParseTwoDigits(parts[2]))
        case (Some(h), Some(m), Some(s)) => Some((h, m, s))
        case _ => None
      else None
    else if |digits| == 2 then
      match ParseTwoDigits(digits) case Some(h) => Some((h, 0, 0)) case None => None
    else if |digits| == 4 then
      match (ParseTwoDigits(digits[..2]), ParseTwoDigits(digits[2..]))
      case (Some(h), Some(m)) => Some((h, m, 0))
      case _ => None
    else if |digits| == 6 then
      match (ParseTwoDigits(digits[..2]), ParseTwoDigits(digits[2..4]), ParseTwoDigits(digits[4..]))
      case (Some(h), Some(m), Some(s)) => Some((h, m, s))
      case _ => None
    else None
  }

  function ParseOffset(text: string): Option<int> {
    if |text| > 9 then None
    else if text == ['Z'] then Some(0)
    else if text == [] || (text[0] != '+' && text[0] != '-') then None
    else
      match OffsetFields(text[1..])
      case None => None
      case Some((h, m, s)) =>
        if h > 18 || m > 59 || s > 59 || (h == 18 && (m != 0 || s != 0)) then None
        else Some((if text[0] == '+' then 1 else -1) * (h * 3600 + m * 60 + s))
  }

  function OffsetDigits(magnitude: nat): string {
    var hour, minute, second := magnitude / 3600, magnitude % 3600 / 60, magnitude % 60;
    Padded(hour, 2) + [':'] + Padded(minute, 2) + (if second == 0 then [] else [':'] + Padded(second, 2))
  }

  function FormatOffset(offset: int): string {
    if offset == 0 then ['Z']
    else if offset < 0 then ['-'] + OffsetDigits(-offset)
    else ['+'] + OffsetDigits(offset)
  }

  lemma OffsetDigitsRoundTrip(magnitude: nat)
    requires magnitude <= MAX_OFFSET
    ensures |OffsetDigits(magnitude)| <= 8 && '+' !in OffsetDigits(magnitude) && '-' !in OffsetDigits(magnitude)
    ensures OffsetFields(OffsetDigits(magnitude)) ==
      Some((magnitude / 3600, magnitude % 3600 / 60, magnitude % 60))
    ensures OffsetDigits(magnitude) != [] && IsDigit(OffsetDigits(magnitude)[|OffsetDigits(magnitude)| - 1])
  {
    hide Fixed, Digits, Numeral, Power10;
    var hour, minute, second := magnitude / 3600, magnitude % 3600 / 60, magnitude % 60;
    TwoDigits(hour);
    TwoDigits(minute);
    TwoDigits(second);
    OffsetFieldsOf(Fixed(hour, 2), Fixed(minute, 2), Fixed(second, 2));
  }

  /** The colon form with two or three fields. */
  lemma {:induction false} OffsetFieldsOf(h: string, m: string, s: string)
    requires AllDigits(h) && AllDigits(m) && AllDigits(s) && |h| == |m| == |s| == 2
    ensures OffsetFields(h + [':'] + m + []) == Some((Numeral(h), Numeral(m), 0))
    ensures OffsetFields(h + [':'] + m + ([':'] + s)) == Some((Numeral(h), Numeral(m), Numeral(s)))
    ensures ':' in h + [':'] + m + []
  {
    hide Numeral;
    assert h + [':'] + m + [] == h + [':'] + m;
    assert h + [':'] + m + ([':'] + s) == h + [':'] + (m + [':'] + s);
    assert (h + [':'] + m)[2] == ':' && (h + [':'] + m + ([':'] + s))[2] == ':';
    SplitJoined(h, ':', m);
    SplitAlone(m, ':');
    SplitJoined(h, ':', m + [':'] + s);
    SplitJoined(m, ':', s);
    SplitAlone(s, ':');
  }

  /** Printing an offset and reading it back. */
  lemma OffsetRoundTrip(offset: int)
    requires -MAX_OFFSET <= offset <= MAX_OFFSET
    ensures ParseOffset(FormatOffset(offset)) == Some(offset)
  {
    hide OffsetDigits, OffsetFields;
    if offset != 0 {
      var magnitude: nat := if offset < 0 then -offset else offset;
      OffsetDigitsRoundTrip(magnitude);
      assert FormatOffset(offset)[1..] == OffsetDigits(magnitude);
    }
  }

  lemma ParsedOffsetInRange(text: string)
    requires ParseOffset(text).Some?
    ensures -MAX_OFFSET <= ParseOffset(text).value <= MAX_OFFSET
  {
  }

  // ---- times with an offset --------------------------------------------------------------

  function LastSign(text: string): int {
    if LastIndexOf(text, '+') >= LastIndexOf(text, '-') then LastIndexOf(text, '+') else LastIndexOf(text, '-')
  }

  function SplitTimeOffset(text: string): Option<(string, string)> {
    if text != [] && text[|text| - 1] == 'Z' then Some((text[..|text| - 1], ['Z']))
    else if LastSign(text) <= 0 then None
    else Some((text[..LastSign(text)], text[LastSign(text)..]))
  }

  function TimeParse(text: string): Option<TimeValue> {
    if |text| > 27 then None
    else
      match SplitTimeOffset(text)
      case None => None
      case Some((local, offset)) =>
        match (ParseLocalTime(local), ParseOffset(offset))
        case (Some((n, canonical)), Some(o)) => Some(TimeValue(canonical + FormatOffset(o), n, o))
        case _ => None
  }

  function FormatTime(nanoseconds: nat, offset: int): string {
    FormatLocalTime(nanoseconds) + FormatOffset(offset)
  }

  lemma LocalTimeText(nanoseconds: nat)
    requires nanoseconds < NANOS_PER_DAY
    ensures var t := FormatLocalTime(nanoseconds);
      0 < |t| <= 18 && '+' !in t && '-' !in t && 'T' !in t && 'Z' !in t
  {
    hide ClockText;
    ClockOfNanoseconds(nanoseconds);
    ClockCharacters(
      nanoseconds / 3600000000000, nanoseconds / 60000000000 % 60,
      nanoseconds / NANOS_PER_SECOND % 60, nanoseconds % NANOS_PER_SECOND);
  }

  lemma ClockCharacters(h: nat, m: nat, s: nat, n: nat)
    requires h < 100 && m < 100 && s < 100 && n < NANOS_PER_SECOND
    ensures var t := ClockText(h, m, s, n);
      0 < |t| <= 18 && '+' !in t && '-' !in t && 'T' !in t && 'Z' !in t
  {
    hide Fixed, Digits, Power10, TrimZeros;
    TwoDigits(h);
    TwoDigits(m);
    TwoDigits(s);
    if n != 0 {
      FractionRoundTrip(n);
    }
  }

  lemma SplitTimeOffsetOf(local: string, offset: int)
    requires local != [] && '+' !in local && '-' !in local && -MAX_OFFSET <= offset <= MAX_OFFSET
    ensures SplitTimeOffset(local + FormatOffset(offset)) == Some((local, FormatOffset(offset)))
    ensures |FormatOffset(offset)| <= 9
  {
    hide OffsetDigits, LastIndexOf;
    var text := local + FormatOffset(offset);
    if offset != 0 {
      var digits := OffsetDigits(if offset < 0 then -offset else offset);
      OffsetDigitsRoundTrip(if offset < 0 then -offset else offset);
      assert text[|text| - 1] == digits[|digits| - 1];
      assert text[|local|] == FormatOffset(offset)[0];
      SignPosition(local, FormatOffset(offset)[0], digits);
      assert FormatOffset(offset) == [FormatOffset(offset)[0]] + digits;
    }
    assert text[..|local|] == local && text[|local|..] == FormatOffset(offset);
  }

  lemma SignPosition(local: string, sign: char, digits: string)
    requires '+' !in local && '-' !in local && '+' !in digits && '-' !in digits && (sign == '+' || sign == '-')
    ensures LastSign(local + ([sign] + digits)) == |local|
  {
    var text := local + ([sign] + digits);
    assert forall k :: 0 <= k < |local| ==> text[k] == local[k];
    assert text[|local|] == sign;
    forall k | |local| < k < |text| ensures text[k] != '+' && text[k] != '-' {
      assert text[k] == digits[k - |local| - 1];
    }
  }

  /** Printing a time with its offset and reading it back. */
  lemma TimeRoundTrip(nanoseconds: nat, offset: int)
    requires nanoseconds < NANOS_PER_DAY && -MAX_OFFSET <= offset <= MAX_OFFSET
    ensures TimeParse(FormatTime(nanoseconds, offset))
         == Some(TimeValue(FormatTime(nanoseconds, offset), nanoseconds, offset))
  {
    hide FormatLocalTime, ParseLocalTime, FormatOffset, ParseOffset, SplitTimeOffset;
    LocalTimeText(nanoseconds);
    LocalTimeRoundTrip(nanoseconds);
    OffsetRoundTrip(offset);
    SplitTimeOffsetOf(FormatLocalTime(nanoseconds), offset);
  }

  lemma TimeCanonical(text: string)
    requires TimeParse(text).Some?
    ensures var v := TimeParse(text).value;
      && 0 <= v.nanoseconds < NANOS_PER_DAY && -MAX_OFFSET <= v.offset <= MAX_OFFSET
      && v.text == FormatTime(v.nanoseconds, v.offset) && TimeParse(v.text) == Some(v)
  {
    hide FormatLocalTime, ParseLocalTime, FormatOffset, ParseOffset, SplitTimeOffset;
    var (local, offset) := SplitTimeOffset(text).value;
    LocalTimeCanonical(local);
    ParsedOffsetInRange(offset);
    TimeRoundTrip(ParseLocalTime(local).value.0, ParseOffset(offset).value);
  }

  // ---- local date-times ------------------------------------------------------------------

  function LocalDateTimeParse(text: string): Option<LocalDateTimeValue> {
    match SplitOnce(text, 'T')
    case None => None
    case Some((date, time)) =>
      match (DateParse(date), LocalTimeParse(time))
      case (Some(d), Some(t)) => Some(LocalDateTimeValue(d.text + ['T'] + t.text, d.days, t.nanoseconds))
      case _ => None
  }

  /** `LocalDateTimeValue::from_components`, which prints the unpadded year. */
  function LocalDateTimeFromComponents(days: int, nanoseconds: nat): Option<LocalDateTimeValue> {
    LocalDateTimeParse(FormatDateFromDays(days) + ['T'] + FormatLocalTime(nanoseconds))
  }

  lemma DateTextHasNoT(d: Date)
    ensures 'T' !in FormatDate(d) && 'T' !in PlainYearText(d.year) + MonthDayText(d)
  {
  }

  lemma LocalDateTimeOfParts(date: string, time: string)
    requires 'T' !in date
    ensures LocalDateTimeParse(date + ['T'] + time) ==
      match (DateParse(date), LocalTimeParse(time))
      case (Some(d), Some(t)) => Some(LocalDateTimeValue(d.text + ['T'] + t.text, d.days, t.nanoseconds))
      case _ => None
  {
    hide DateParse, LocalTimeParse, SplitOnce;
    SplitOnceJoined(date, 'T', time);
  }

  /** Printing a local date-time and reading it back. */
  lemma LocalDateTimeRoundTrip(d: Date, nanoseconds: nat)
    requires SupportedDate(d) && nanoseconds < NANOS_PER_DAY
    ensures var text := FormatDate(d) + ['T'] + FormatLocalTime(nanoseconds);
      LocalDateTimeParse(text) == Some(LocalDateTimeValue(text, DaysFromCivil(d), nanoseconds))
  {
    hide FormatDate, DateParse, ParseLocalTime, FormatLocalTime, LocalDateTimeParse, DaysFromCivil;
    DateTextHasNoT(d);
    DateRoundTrip(d);
    LocalTimeRoundTrip(nanoseconds);
    LocalDateTimeOfParts(FormatDate(d), FormatLocalTime(nanoseconds));
  }

  lemma LocalDateTimeCanonical(text: string)
    requires LocalDateTimeParse(text).Some?
    ensures LocalDateTimeParse(LocalDateTimeParse(text).value.text) == LocalDateTimeParse(text)
  {
    hide ParseDate, ParseLocalTime, FormatDate, FormatLocalTime, DaysFromCivil, SplitOnce;
    var (date, time) := SplitOnce(text, 'T').value;
    DateCanonical(date);
    LocalTimeCanonical(time);
    LocalDateTimeRoundTrip(ParseDate(date).value, ParseLocalTime(time).value.0);
  }

  /** A local date-time is rebuilt from its components exactly where its date is and
      the time lies within a day. */
  lemma LocalDateTimeFromComponentsIff(days: int, nanoseconds: nat)
    ensures LocalDateTimeFromComponents(days, nanoseconds).Some? <==>
      Rebuildable(CivilFromDays(days).year) && nanoseconds < NANOS_PER_DAY
    ensures LocalDateTimeFromComponents(days, nanoseconds).Some? ==>
      var v := LocalDateTimeFromComponents(days, nanoseconds).value;
      && v.days == days && v.nanoseconds == nanoseconds
      && v.text == FormatDate(CivilFromDays(days)) + ['T'] + FormatLocalTime(nanoseconds)
  {
    hide DateParse, ParseLocalTime, FormatLocalTime, LocalDateTimeParse, CivilFromDays, PlainYearText, MonthDayText,
      YearText;
    DateTextHasNoT(CivilFromDays(days));
    DateFromDaysIff(days);
    if nanoseconds < NANOS_PER_DAY {
      LocalTimeRoundTrip(nanoseconds);
    } else {
      LocalTimePastMidnight(nanoseconds);
    }
    LocalDateTimeOfParts(FormatDateFromDays(days), FormatLocalTime(nanoseconds));
  }

  // ---- zoned date-times -------------------------------------------------------------------

  /** The time zone database, which this model does not contain: the offset of a
      named zone at an instant, if the name is known. */
  type ZoneTable = (string, int) -> Option<int>

  predicate IsFixedZone(zone: string) {
    || zone == "Z" || (zone != [] && (zone[0] == '+' || zone[0] == '-'))
    || zone == "UTC" || zone == "GMT" || zone == "GMT0"
  }

  /** The offset a zone prescribes at an instant. */
  function OffsetAt(table: ZoneTable, zone: string, instant: int): Option<int> {
    if zone == "Z" then Some(0)
    else if zone != [] && (zone[0] == '+' || zone[0] == '-') then ParseOffset(zone)
    else if zone == "UTC" || zone == "GMT" || zone == "GMT0" then Some(0)
    else table(zone, instant)
  }

  function InstantOf(days: int, nanoseconds: int, offset: int): int {
    days * NANOS_PER_DAY + (nanoseconds - offset * NANOS_PER_SECOND)
  }

  function ZonedParse(table: ZoneTable, text: string, zone: string): Option<ZonedDateTimeValue> {
    match SplitOnce(text, 'T')
    case None => None
    case Some((date, time)) =>
      match (DateParse(date), TimeParse(time))
      case (Some(d), Some(t)) =>
        var instant := InstantOf(d.days, t.nanoseconds, t.offset);
        if OffsetAt(table, zone, instant) == Some(t.offset)
        then Some(ZonedDateTimeValue(d.text + ['T'] + t.text, zone, instant, t.offset)) else None
      case _ => None
  }

  function LocalComponents(instant: int, offset: int): Option<(int, nat)> {
    var local := instant + offset * NANOS_PER_SECOND;
    if FitsI64(local / NANOS_PER_DAY) then Some((local / NANOS_PER_DAY, local % NANOS_PER_DAY)) else None
  }

  function ZonedFromInstant(table: ZoneTable, instant: int, zone: string): Option<ZonedDateTimeValue> {
    match OffsetAt(table, zone, instant)
    case None => None
    case Some(offset) =>
      match LocalComponents(instant, offset)
      case None => None
      case Some((days, nanoseconds)) =>
        ZonedParse(table, FormatDateFromDays(days) + ['T'] + FormatTime(nanoseconds, offset), zone)
  }

  /** What the database says about a local time: a zone it does not know or a year
      out of its range, a gap, one offset, or two where the clock was set back. */
  datatype LocalResult = Unknown | Gap | Unique(offset: int) | Twice(first: int, second: int)

  /** The database read by local time, in nanoseconds. */
  type LocalTable = (string, int) -> LocalResult

  function Candidates(r: LocalResult): set<int> {
    match r
    case Unique(offset) => {offset}
    case Twice(first, second) => {first, second}
    case _ => {}
  }

  /** The two readings of the database agree: an offset offered for a local time is
      the offset of the instant it makes. */
  ghost predicate Consistent(table: ZoneTable, locals: LocalTable) {
    forall zone: string, local: int, offset: int :: offset in Candidates(locals(zone, local)) ==>
      table(zone, local - offset * NANOS_PER_SECOND) == Some(offset) && -MAX_OFFSET <= offset <= MAX_OFFSET
  }

  /** The offset `from_local` settles on; a preference counts only between two. */
  function ChosenOffset(
    table: ZoneTable, locals: LocalTable, days: int, nanoseconds: nat, zone: string,
    preferred: Option<int>): Option<int>
  {
    if IsFixedZone(zone) then OffsetAt(table, zone, 0)
    else
      match locals(zone, days * NANOS_PER_DAY + nanoseconds)
      case Unique(offset) => Some(offset)
      case Twice(first, second) => Some(if preferred == Some(second) then second else first)
      case _ => None
  }

  function ZonedFromLocal(
    table: ZoneTable, locals: LocalTable, days: int, nanoseconds: nat, zone: string, preferred: Option<int>)
    : Option<ZonedDateTimeValue>
  {
    if nanoseconds >= NANOS_PER_DAY then None
    else
      match ChosenOffset(table, locals, days, nanoseconds, zone, preferred)
      case None => None
      case Some(offset) => ZonedFromInstant(table, InstantOf(days, nanoseconds, offset), zone)
  }

  /** Whole seconds and the nanoseconds after them, as stored. */
  function StorageComponents(v: ZonedDateTimeValue): Option<(int, nat, string)> {
    if FitsI64(v.instant / NANOS_PER_SECOND)
    then Some((v.instant / NANOS_PER_SECOND, v.instant % NANOS_PER_SECOND, v.zone)) else None
  }

  lemma LocalOfInstant(days: int, nanoseconds: nat, offset: int)
    requires nanoseconds < NANOS_PER_DAY
    ensures var local := InstantOf(days, nanoseconds, offset) + offset * NANOS_PER_SECOND;
      local / NANOS_PER_DAY == days && local % NANOS_PER_DAY == nanoseconds
  {
  }

  /** Supported dates keep every quantity far inside 64 bits. */
  lemma SupportedDaysSmall(d: Date)
    requires SupportedDate(d)
    ensures -400000000000 < DaysFromCivil(d) < 400000000000
  {
  }

  lemma RebuildableDaysSmall(days: int)
    requires Rebuildable(CivilFromDays(days).year)
    ensures -400000000000 < days < 400000000000
  {
    hide CivilFromDays, DaysFromCivil;
    DaysOfCivil(days);
    SupportedDaysSmall(CivilFromDays(days));
  }

  lemma ZonedOfParts(table: ZoneTable, date: string, time: string, zone: string)
    requires 'T' !in date
    ensures ZonedParse(table, date + ['T'] + time, zone) ==
      match (DateParse(date), TimeParse(time))
      case (Some(d), Some(t)) =>
        (var instant := InstantOf(d.days, t.nanoseconds, t.offset);
         if OffsetAt(table, zone, instant) == Some(t.offset)
         then Some(ZonedDateTimeValue(d.text + ['T'] + t.text, zone, instant, t.offset)) else None)
      case _ => None
  {
    hide DateParse, TimeParse, SplitOnce, OffsetAt, InstantOf;
    SplitOnceJoined(date, 'T', time);
  }

  /** Instants survive: a zoned value built from an instant exists exactly when its
      local date can be rebuilt, and then carries that instant, offset and local time. */
  lemma ZonedFromInstantIff(table: ZoneTable, instant: int, zone: string, offset: int)
    requires OffsetAt(table, zone, instant) == Some(offset) && -MAX_OFFSET <= offset <= MAX_OFFSET
    ensures var days := (instant + offset * NANOS_PER_SECOND) / NANOS_PER_DAY;
      ZonedFromInstant(table, instant, zone).Some? <==> Rebuildable(CivilFromDays(days).year)
    ensures ZonedFromInstant(table, instant, zone).Some? ==>
      var v := ZonedFromInstant(table, instant, zone).value;
      && v.instant == instant && v.offset == offset && v.zone == zone
      && ZonedParse(table, v.text, zone) == Some(v)
  {
    hide DateParse, TimeParse, FormatTime, OffsetAt, ZonedParse, CivilFromDays, PlainYearText, MonthDayText,
      YearText, FormatDate, DaysFromCivil, SplitOnce;
    var local := instant + offset * NANOS_PER_SECOND;
    var days, nanoseconds := local / NANOS_PER_DAY, local % NANOS_PER_DAY;
    var d := CivilFromDays(days);
    if Rebuildable(d.year) { RebuildableDaysSmall(days); }
    DateTextHasNoT(d);
    DateFromDaysIff(days);
    TimeRoundTrip(nanoseconds, offset);
    ZonedOfParts(table, FormatDateFromDays(days), FormatTime(nanoseconds, offset), zone);
    assert InstantOf(days, nanoseconds, offset) == instant;
    if Rebuildable(d.year) {
      DaysOfCivil(days);
      DateRoundTrip(d);
      ZonedOfParts(table, FormatDate(d), FormatTime(nanoseconds, offset), zone);
    }
  }

  lemma FixedZoneOffset(table: ZoneTable, zone: string, instant: int)
    requires IsFixedZone(zone) && OffsetAt(table, zone, 0).Some?
    ensures OffsetAt(table, zone, instant) == OffsetAt(table, zone, 0)
    ensures -MAX_OFFSET <= OffsetAt(table, zone, 0).value <= MAX_OFFSET
  {
  }

  /** In every zone, fixed or named, a local time becomes a zoned value exactly when
      the zone settles on an offset for it and its date can be rebuilt; it then keeps
      its local components, its zone and that offset. */
  lemma ZonedFromLocalKeeps(
    table: ZoneTable, locals: LocalTable, days: int, nanoseconds: nat, zone: string, preferred: Option<int>)
    requires Consistent(table, locals)
    ensures ZonedFromLocal(table, locals, days, nanoseconds, zone, preferred).Some? <==>
      && nanoseconds < NANOS_PER_DAY && ChosenOffset(table, locals, days, nanoseconds, zone, preferred).Some?
      && Rebuildable(CivilFromDays(days).year)
    ensures ZonedFromLocal(table, locals, days, nanoseconds, zone, preferred).Some? ==>
      var v := ZonedFromLocal(table, locals, days, nanoseconds, zone, preferred).value;
      && LocalComponents(v.instant, v.offset) == Some((days, nanoseconds)) && v.zone == zone
      && ChosenOffset(table, locals, days, nanoseconds, zone, preferred) == Some(v.offset)
  {
    hide ZonedFromInstant, CivilFromDays, OffsetAt, IsFixedZone, ZonedParse;
    var chosen := ChosenOffset(table, locals, days, nanoseconds, zone, preferred);
    if nanoseconds < NANOS_PER_DAY && chosen.Some? {
      var offset := chosen.value;
      var instant := InstantOf(days, nanoseconds, offset);
      ChosenOffsetHolds(table, locals, days, nanoseconds, zone, preferred);
      LocalOfInstant(days, nanoseconds, offset);
      ZonedFromInstantIff(table, instant, zone, offset);
      if Rebuildable(CivilFromDays(days).year) { RebuildableDaysSmall(days); }
    }
  }

  /** The chosen offset is the zone's offset at the instant it makes. */
  lemma ChosenOffsetHolds(
    table: ZoneTable, locals: LocalTable, days: int, nanoseconds: nat, zone: string, preferred: Option<int>)
    requires Consistent(table, locals) && ChosenOffset(table, locals, days, nanoseconds, zone, preferred).Some?
    ensures var offset := ChosenOffset(table, locals, days, nanoseconds, zone, preferred).value;
      && OffsetAt(table, zone, InstantOf(days, nanoseconds, offset)) == Some(offset)
      && -MAX_OFFSET <= offset <= MAX_OFFSET
  {
    var offset := ChosenOffset(table, locals, days, nanoseconds, zone, preferred).value;
    if IsFixedZone(zone) {
      FixedZoneOffset(table, zone, InstantOf(days, nanoseconds, offset));
    } else {
      hide ParseOffset;
      var local := days * NANOS_PER_DAY + nanoseconds;
      assert offset in Candidates(locals(zone, local));
      assert InstantOf(days, nanoseconds, offset) == local - offset * NANOS_PER_SECOND;
    }
  }

  /** Where the clock was set back, either reading can be asked for. */
  lemma PreferredOffsetWins(
    table: ZoneTable, locals: LocalTable, days: int, nanoseconds: nat, zone: string, first: int, second: int)
    requires Consistent(table, locals) && !IsFixedZone(zone) && nanoseconds < NANOS_PER_DAY
    requires locals(zone, days * NANOS_PER_DAY + nanoseconds) == Twice(first, second)
    requires Rebuildable(CivilFromDays(days).year)
    ensures forall offset :: offset == first || offset == second ==>
      var v := ZonedFromLocal(table, locals, days, nanoseconds, zone, Some(offset));
      v.Some? && v.value.offset == offset && LocalComponents(v.value.instant, offset) == Some((days, nanoseconds))
  {
    hide ZonedFromLocal, IsFixedZone, CivilFromDays;
    forall offset | offset == first || offset == second
      ensures var v := ZonedFromLocal(table, locals, days, nanoseconds, zone, Some(offset));
        v.Some? && v.value.offset == offset && LocalComponents(v.value.instant, offset) == Some((days, nanoseconds))
    {
      ZonedFromLocalKeeps(table, locals, days, nanoseconds, zone, Some(offset));
    }
  }

  /** A parsed zoned value is canonical, always storable, and its stored components
      determine its instant. */
  lemma ZonedCanonical(table: ZoneTable, text: string, zone: string)
    requires ZonedParse(table, text, zone).Some?
    ensures var v := ZonedParse(table, text, zone).value;
      && ZonedParse(table, v.text, v.zone) == Some(v)
      && StorageComponents(v).Some?
      && StorageComponents(v).value.0 * NANOS_PER_SECOND + StorageComponents(v).value.1 == v.instant
  {
    hide ParseDate, TimeParse, FormatDate, FormatTime, DaysFromCivil, SplitOnce, OffsetAt;
    var v := ZonedParse(table, text, zone).value;
    var (date, time) := SplitOnce(text, 'T').value;
    DateCanonical(date);
    TimeCanonical(time);
    SupportedDaysSmall(ParseDate(date).value);
    DateTextHasNoT(ParseDate(date).value);
    ZonedOfParts(table, DateParse(date).value.text, TimeParse(time).value.text, zone);
  }
}
