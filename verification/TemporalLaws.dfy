/** What temporal texts denote, digit by digit, and where the time line starts.  The
    round trips say that printing and parsing undo each other; these laws say what it
    is that they read and write. */
module TemporalLaws {
  import opened Wrappers
  import opened Texts
  import opened Calendar
  import opened Temporal

  /** The two-digit number of two characters. */
  function Two(a: char, b: char): int
    requires IsDigit(a) && IsDigit(b)
  {
    10 * (a as int - 48) + (b as int - 48)
  }

  lemma TwoDenotes(a: char, b: char)
    ensures ParseTwoDigits([a, b]) == if IsDigit(a) && IsDigit(b) then Some(Two(a, b)) else None
  {
    if IsDigit(a) && IsDigit(b) {
      assert [a, b][..1] == [a] && [a][..0] == [];
      assert Numeral([a]) == DigitValue(a);
    } else {
      assert !IsDigit([a, b][0]) || !IsDigit([a, b][1]);
    }
  }

  lemma TwoPrinted(n: nat)
    requires n < 100
    ensures var t := Padded(n, 2); |t| == 2 && IsDigit(t[0]) && IsDigit(t[1]) && Two(t[0], t[1]) == n
  {
    TwoDigits(n);
    var t := Padded(n, 2);
    TwoDenotes(t[0], t[1]);
    assert t == [t[0], t[1]];
  }

  // ---- offsets --------------------------------------------------------------------------------

  function Seconds(sign: char, h: int, m: int, s: int): Option<int> {
    if m > 59 || s > 59 || 3600 * h + 60 * m + s > 64800 then None
    else if sign == '-' then Some(-3600 * h - 60 * m - s) else Some(3600 * h + 60 * m + s)
  }

  /** Every form of an offset, with and without colons.  East of Greenwich is positive. */
  lemma OffsetDenotes(sign: char, a: char, b: char, c: char, d: char, e: char, f: char)
    requires sign == '+' || sign == '-'
    requires IsDigit(a) && IsDigit(b) && IsDigit(c) && IsDigit(d) && IsDigit(e) && IsDigit(f)
    ensures ParseOffset(['Z']) == Some(0)
    ensures ParseOffset([sign, a, b]) == Seconds(sign, Two(a, b), 0, 0)
    ensures ParseOffset([sign, a, b, ':', c, d]) == Seconds(sign, Two(a, b), Two(c, d), 0)
    ensures ParseOffset([sign, a, b, c, d]) == Seconds(sign, Two(a, b), Two(c, d), 0)
    ensures ParseOffset([sign, a, b, ':', c, d, ':', e, f]) == Seconds(sign, Two(a, b), Two(c, d), Two(e, f))
    ensures ParseOffset([sign, a, b, c, d, e, f]) == Seconds(sign, Two(a, b), Two(c, d), Two(e, f))
  {
    hide OffsetFields, Two;
    CompactFields(a, b, c, d, e, f);
    ColonFields(a, b, c, d, e, f);
    TwoBounds(a, b);
    TwoBounds(c, d);
    TwoBounds(e, f);
    SignedFields(sign, [a, b], Two(a, b), 0, 0);
    SignedFields(sign, [a, b, ':', c, d], Two(a, b), Two(c, d), 0);
    SignedFields(sign, [a, b, c, d], Two(a, b), Two(c, d), 0);
    SignedFields(sign, [a, b, ':', c, d, ':', e, f], Two(a, b), Two(c, d), Two(e, f));
    SignedFields(sign, [a, b, c, d, e, f], Two(a, b), Two(c, d), Two(e, f));
    assert [sign] + [a, b] == [sign, a, b] && [sign] + [a, b, c, d] == [sign, a, b, c, d];
    assert [sign] + [a, b, ':', c, d] == [sign, a, b, ':', c, d];
    assert [sign] + [a, b, ':', c, d, ':', e, f] == [sign, a, b, ':', c, d, ':', e, f];
    assert [sign] + [a, b, c, d, e, f] == [sign, a, b, c, d, e, f];
  }

  lemma TwoBounds(a: char, b: char)
    requires IsDigit(a) && IsDigit(b)
    ensures 0 <= Two(a, b) <= 99
  {
  }

  lemma SignedFields(sign: char, digits: string, h: int, m: int, s: int)
    requires sign == '+' || sign == '-'
    requires digits != [] && |digits| <= 8 && OffsetFields(digits) == Some((h, m, s)) && h >= 0 && m >= 0 && s >= 0
    ensures ParseOffset([sign] + digits) == Seconds(sign, h, m, s)
  {
    hide OffsetFields;
    assert ([sign] + digits)[1..] == digits;
  }

  lemma CompactFields(a: char, b: char, c: char, d: char, e: char, f: char)
    requires IsDigit(a) && IsDigit(b) && IsDigit(c) && IsDigit(d) && IsDigit(e) && IsDigit(f)
    ensures OffsetFields([a, b]) == Some((Two(a, b), 0, 0))
    ensures OffsetFields([a, b, c, d]) == Some((Two(a, b), Two(c, d), 0))
    ensures OffsetFields([a, b, c, d, e, f]) == Some((Two(a, b), Two(c, d), Two(e, f)))
  {
    hide Two, ParseTwoDigits;
    TwoDenotes(a, b);
    TwoDenotes(c, d);
    TwoDenotes(e, f);
    assert [a, b, c, d][..2] == [a, b] && [a, b, c, d][2..] == [c, d];
    var six := [a, b, c, d, e, f];
    assert six[..2] == [a, b] && six[2..4] == [c, d] && six[4..] == [e, f];
  }

  lemma ColonFields(a: char, b: char, c: char, d: char, e: char, f: char)
    requires IsDigit(a) && IsDigit(b) && IsDigit(c) && IsDigit(d) && IsDigit(e) && IsDigit(f)
    ensures OffsetFields([a, b, ':', c, d]) == Some((Two(a, b), Two(c, d), 0))
    ensures OffsetFields([a, b, ':', c, d, ':', e, f]) == Some((Two(a, b), Two(c, d), Two(e, f)))
  {
    TwoDenotes(a, b);
    TwoDenotes(c, d);
    TwoDenotes(e, f);
    hide Two, ParseTwoDigits, Split;
    SplitAtColons([a, b], [c, d], [e, f]);
    assert [a, b] + [':'] + [c, d] == [a, b, ':', c, d];
    assert [a, b] + [':'] + ([c, d] + [':'] + [e, f]) == [a, b, ':', c, d, ':', e, f];
    assert [a, b, ':', c, d][2] == ':' && [a, b, ':', c, d, ':', e, f][2] == ':';
  }

  lemma {:induction false} SplitAtColons(x: string, y: string, z: string)
    requires ':' !in x && ':' !in y && ':' !in z
    ensures Split(x + [':'] + y, ':') == [x, y]
    ensures Split(x + [':'] + (y + [':'] + z), ':') == [x, y, z]
  {
    SplitJoined(x, ':', y);
    SplitAlone(y, ':');
    SplitJoined(x, ':', y + [':'] + z);
    SplitJoined(y, ':', z);
    SplitAlone(z, ':');
  }

  /** How an offset is printed: Z, or a sign and two or three fields between colons. */
  lemma OffsetPrinted(offset: int)
    requires -64800 <= offset <= 64800
    ensures var t := FormatOffset(offset);
      if offset == 0 then t == "Z"
      else
        && |t| == (if offset % 60 == 0 then 6 else 9) && (t[0] == '-' <==> offset < 0) && (t[0] == '+' <==> offset > 0)
        && t[3] == ':' && (|t| == 9 ==> t[6] == ':')
  {
    hide Fixed, Digits, Power10;
    if offset != 0 {
      var magnitude: nat := if offset < 0 then -offset else offset;
      TwoPrinted(magnitude / 3600);
      TwoPrinted(magnitude % 3600 / 60);
      TwoPrinted(magnitude % 60);
    }
  }

  // ---- clocks -----------------------------------------------------------------------------------

  /** Three parts between colons, the last perhaps with a fraction. */
  lemma ClockOfParts(a: char, b: char, c: char, d: char, second: string)
    requires IsDigit(a) && IsDigit(b) && IsDigit(c) && IsDigit(d) && ':' !in second
    ensures var r := ParseLocalTime([a, b, ':', c, d, ':'] + second);
      if ParseSecond(second).None? then r == None
      else
        var (s, n) := ParseSecond(second).value;
        if Two(a, b) < 24 && Two(c, d) < 60 && 0 <= s < 60 && 0 <= n
        then r.Some? && r.value.0 == 1000000000 * (3600 * Two(a, b) + 60 * Two(c, d) + s) + n else r == None
  {
    TwoDenotes(a, b);
    TwoDenotes(c, d);
    TwoBounds(a, b);
    TwoBounds(c, d);
    hide Two, ParseTwoDigits, ParseSecond, ClockText;
    SplitAtColons([a, b], [c, d], second);
    assert [a, b] + [':'] + ([c, d] + [':'] + second) == [a, b, ':', c, d, ':'] + second;
  }

  lemma {:induction false} SecondDenotes(e: char, f: char, fraction: string)
    requires IsDigit(e) && IsDigit(f) && 1 <= |fraction| <= 9 && AllDigits(fraction)
    ensures ParseSecond([e, f]) == Some((Two(e, f), 0)) && 0 <= Two(e, f)
    ensures ParseSecond([e, f] + ['.'] + fraction).Some?
    ensures var (s, n) := ParseSecond([e, f] + ['.'] + fraction).value;
      s == Two(e, f) && n >= 0 && n * Power10(|fraction|) == Numeral(fraction) * 1000000000
  {
    TwoDenotes(e, f);
    TwoBounds(e, f);
    hide Two, ParseTwoDigits, ParseFraction, Numeral, Power10;
    SplitOnceJoined([e, f], '.', fraction);
    assert '.' !in [e, f];
    FractionScaled(fraction);
  }

  lemma {:induction false} FractionScaled(fraction: string)
    requires 1 <= |fraction| <= 9 && AllDigits(fraction)
    ensures ParseFraction(fraction).Some? && ParseFraction(fraction).value >= 0
    ensures ParseFraction(fraction).value * Power10(|fraction|) == Numeral(fraction) * 1000000000
  {
    hide Numeral, Power10;
    PowersMultiply(|fraction|);
    Scaled(Numeral(fraction), Power10(9 - |fraction|), Power10(|fraction|));
    PowerPositive(9 - |fraction|);
    Positive(Numeral(fraction), Power10(9 - |fraction|));
  }

  lemma Positive(n: nat, p: nat)
    ensures n * p >= 0
  {
  }

  /** Hours, minutes and seconds, and a decimal fraction of a second. */
  lemma {:induction false} ClockDenotes(a: char, b: char, c: char, d: char, e: char, f: char, fraction: string)
    requires IsDigit(a) && IsDigit(b) && IsDigit(c) && IsDigit(d) && IsDigit(e) && IsDigit(f)
    requires 1 <= |fraction| <= 9 && AllDigits(fraction)
    ensures var h, m, s := Two(a, b), Two(c, d), Two(e, f);
      var whole := ParseLocalTime([a, b, ':', c, d, ':'] + [e, f]);
      var r := ParseLocalTime([a, b, ':', c, d, ':'] + ([e, f] + ['.'] + fraction));
      if h < 24 && m < 60 && s < 60 then
        && whole.Some? && whole.value.0 == 1000000000 * (3600 * h + 60 * m + s)
        && r.Some? && (r.value.0 - whole.value.0) * Power10(|fraction|) == Numeral(fraction) * 1000000000
      else whole == None && r == None
  {
    hide Two, ParseSecond, Numeral, ParseLocalTime, Power10;
    SecondDenotes(e, f, fraction);
    ClockOfParts(a, b, c, d, [e, f]);
    assert ':' !in [e, f] + ['.'] + fraction;
    ClockOfParts(a, b, c, d, [e, f] + ['.'] + fraction);
  }

  lemma Scaled(n: nat, p: nat, q: nat)
    requires p * q == 1000000000
    ensures n * p * q == n * 1000000000
  {
  }

  lemma PowersMultiply(k: nat)
    requires k <= 9
    ensures Power10(9 - k) * Power10(k) == 1000000000
    decreases 9 - k
  {
    if k < 9 {
      PowersMultiply(k + 1);
      assert Power10(k + 1) == 10 * Power10(k);
      assert Power10(9 - k) == 10 * Power10(9 - (k + 1));
      Regroup(Power10(9 - (k + 1)), Power10(k));
    } else {
      assert Power10(9) == 1000000000;
    }
  }

  lemma Regroup(p: nat, q: nat)
    ensures (10 * p) * q == p * (10 * q)
  {
  }

  /** How a time of day is printed. */
  lemma ClockPrinted(nanoseconds: nat)
    requires nanoseconds < 86400000000000
    ensures var t := FormatLocalTime(nanoseconds);
      && |t| >= 8 && t[2] == ':' && t[5] == ':'
      && IsDigit(t[0]) && IsDigit(t[1]) && Two(t[0], t[1]) == nanoseconds / 3600000000000
      && IsDigit(t[3]) && IsDigit(t[4]) && Two(t[3], t[4]) == nanoseconds / 60000000000 % 60
      && IsDigit(t[6]) && IsDigit(t[7]) && Two(t[6], t[7]) == nanoseconds / 1000000000 % 60
      && (if nanoseconds % 1000000000 == 0 then |t| == 8 else |t| > 9 && t[8] == '.' && t[|t| - 1] != '0')
  {
    hide Two, Fixed, Digits, Power10, TrimZeros;
    var h, m, s := nanoseconds / 3600000000000, nanoseconds / 60000000000 % 60, nanoseconds / 1000000000 % 60;
    var nano := nanoseconds % 1000000000;
    TwoPrinted(h);
    TwoPrinted(m);
    TwoPrinted(s);
    if nano != 0 {
      FractionRoundTrip(nano);
      NoTrailingZero(Padded(nano, 9));
      hide Padded;
      var t := FormatLocalTime(nanoseconds);
      var digits := TrimZeros(Padded(nano, 9));
      assert t == Padded(h, 2) + [':'] + Padded(m, 2) + [':'] + (Padded(s, 2) + (['.'] + digits));
      assert t[|t| - 1] == digits[|digits| - 1];
    }
  }

  lemma {:induction false} NoTrailingZero(s: string)
    ensures var t := TrimZeros(s); t != [] ==> t[|t| - 1] != '0'
  {
    if s != [] {
      NoTrailingZero(s[..|s| - 1]);
    }
  }

  // ---- dates --------------------------------------------------------------------------------------

  /** Year, month and day, in this order. */
  lemma {:induction false} DateDenotes(
    w: char, x: char, y: char, z: char, a: char, b: char, c: char, d: char)
    requires IsDigit(w) && IsDigit(x) && IsDigit(y) && IsDigit(z)
    requires IsDigit(a) && IsDigit(b) && IsDigit(c) && IsDigit(d)
    ensures var date := Date(100 * Two(w, x) + Two(y, z), Two(a, b), Two(c, d));
      ParseDate([w, x, y, z, '-', a, b, '-', c, d]) == if IsDate(date) then Some(date) else None
  {
    var text := [w, x, y, z, '-', a, b, '-', c, d];
    var year := [w, x, y, z];
    TwoDenotes(a, b);
    TwoDenotes(c, d);
    FourDenote(w, x, y, z);
    hide Two, ParseTwoDigits, IsDate, Numeral;
    assert text == year + ['-'] + [a, b] + ['-'] + [c, d];
    assert '-' !in [a, b] && '-' !in [c, d];
    SplitOnceLastJoined(year + ['-'] + [a, b], '-', [c, d]);
    SplitOnceLastJoined(year, '-', [a, b]);
    Unsigned(year);
  }

  lemma {:induction false} FourDenote(w: char, x: char, y: char, z: char)
    requires IsDigit(w) && IsDigit(x) && IsDigit(y) && IsDigit(z)
    ensures Numeral([w, x, y, z]) == 100 * Two(w, x) + Two(y, z) <= 9999
  {
    assert [w, x, y, z][..3] == [w, x, y] && [w, x, y][..2] == [w, x] && [w, x][..1] == [w] && [w][..0] == [];
    assert Numeral([w]) == DigitValue(w) && Numeral([w, x]) == 10 * Numeral([w]) + DigitValue(x);
    assert Numeral([w, x, y]) == 10 * Numeral([w, x]) + DigitValue(y);
  }

  /** A sign makes longer years possible, up to nine digits' worth, and negative ones. */
  lemma {:induction false} YearDenotes(digits: string)
    requires |digits| >= 4 && AllDigits(digits)
    ensures ParseYear(['+'] + digits) == if Numeral(digits) <= 999999999 then Some(Numeral(digits)) else None
    ensures ParseYear(['-'] + digits) == if Numeral(digits) <= 999999999 then Some(0 - Numeral(digits)) else None
    ensures ParseYear(digits) == if Numeral(digits) <= 999999999 then Some(Numeral(digits)) else None
  {
    ParseSignedNumeral(['+'], digits);
    ParseSignedNumeral(['-'], digits);
    ParseSignedNumeral([], digits);
    assert [] + digits == digits;
  }

  /** How a date is printed: four digits of year at least, a sign outside 0 to 9999. */
  lemma DatePrinted(d: Date)
    requires SupportedDate(d)
    ensures var t := FormatDate(d); var n := |t|;
      && n >= 10 && t[n - 6] == '-' && t[n - 3] == '-'
      && IsDigit(t[n - 5]) && IsDigit(t[n - 4]) && Two(t[n - 5], t[n - 4]) == d.month
      && IsDigit(t[n - 2]) && IsDigit(t[n - 1]) && Two(t[n - 2], t[n - 1]) == d.day
      && (n == 10 <==> 0 <= d.year <= 9999)
      && (t[0] == '-' <==> d.year < 0) && (t[0] == '+' <==> d.year > 9999)
      && ParseYear(t[..n - 6]) == Some(d.year)
  {
    TwoPrinted(d.month);
    TwoPrinted(d.day);
    ParseYearText(d.year);
    YearPrinted(d.year);
    hide Two, Fixed, Digits, Power10, YearText, Padded, ParseYear;
    var t := FormatDate(d);
    assert t == YearText(d.year) + (['-'] + Padded(d.month, 2) + ['-'] + Padded(d.day, 2));
    assert t[..|t| - 6] == YearText(d.year);
  }

  lemma YearPrinted(year: int)
    requires -MAX_YEAR <= year <= MAX_YEAR
    ensures var t := YearText(year);
      && |t| >= 4 && (|t| == 4 <==> 0 <= year <= 9999)
      && (t[0] == '-' <==> year < 0) && (t[0] == '+' <==> year > 9999)
  {
    hide Fixed, Digits, Numeral, Padded, Power10;
    if 0 <= year <= 9999 {
      FourDigits(year);
    } else if -9999 <= year < 0 {
      FourDigits(-year);
    } else {
      NumeralSize(if year < 0 then -year else year);
    }
  }

  // ---- the time line ------------------------------------------------------------------------------

  /** Day 0 is the first of January 1970; from there `Calendar.NextDay` counts. */
  lemma Epoch()
    ensures CivilFromDays(0) == Date(1970, 1, 1) && DaysFromCivil(Date(1970, 1, 1)) == 0
  {
    hide CivilFromDays;
    CivilOfDays(Date(1970, 1, 1));
  }

  /** An instant is the local time minus the offset, in nanoseconds since the epoch. */
  lemma InstantsAreUtc(
    table: ZoneTable, locals: LocalTable, days: int, nanoseconds: nat, zone: string, preferred: Option<int>)
    requires Consistent(table, locals)
    ensures var r := ZonedFromLocal(table, locals, days, nanoseconds, zone, preferred);
      r.Some? ==>
        && r.value.instant == days * 86400000000000 + nanoseconds - r.value.offset * 1000000000
        && (StorageComponents(r.value).Some? ==>
              var (seconds, rest, stored) := StorageComponents(r.value).value;
              r.value.instant == seconds * 1000000000 + rest && rest < 1000000000 && stored == zone)
  {
    hide ZonedFromInstant, CivilFromDays, OffsetAt, IsFixedZone, ZonedParse;
    ZonedFromLocalKeeps(table, locals, days, nanoseconds, zone, preferred);
    var chosen := ChosenOffset(table, locals, days, nanoseconds, zone, preferred);
    if nanoseconds < NANOS_PER_DAY && chosen.Some? {
      ChosenOffsetHolds(table, locals, days, nanoseconds, zone, preferred);
      ZonedFromInstantIff(table, InstantOf(days, nanoseconds, chosen.value), zone, chosen.value);
    }
  }

  lemma ParsedInstantIsUtc(table: ZoneTable, date: string, time: string, zone: string)
    requires 'T' !in date
    ensures var r := ZonedParse(table, date + ['T'] + time, zone);
      r.Some? ==>
        && DateParse(date).Some? && TimeParse(time).Some?
        && r.value.offset == TimeParse(time).value.offset && r.value.zone == zone
        && r.value.instant ==
           DateParse(date).value.days * 86400000000000 + TimeParse(time).value.nanoseconds
           - r.value.offset * 1000000000
  {
    ZonedOfParts(table, date, time, zone);
  }

  /** The zones without a database entry. */
  lemma FixedZones(table: ZoneTable, zone: string, instant: int)
    ensures zone in {"Z", "UTC", "GMT", "GMT0"} ==> OffsetAt(table, zone, instant) == Some(0)
    ensures zone != [] && zone[0] in {'+', '-'} ==> OffsetAt(table, zone, instant) == ParseOffset(zone)
    ensures zone !in {"Z", "UTC", "GMT", "GMT0"} && (zone == [] || zone[0] !in {'+', '-'}) ==>
      OffsetAt(table, zone, instant) == table(zone, instant)
  {
  }
}
