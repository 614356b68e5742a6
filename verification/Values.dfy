/** Cypher runtime values and the constructors that keep them well formed. */
module Values {
  import opened Wrappers
  import opened Calendar
  import opened Texts
  import opened Temporal

  /** A 64-bit float by its meaning.  All NaN payloads are one value. */
  datatype Float = Finite(value: real, negativeZero: bool) | NaN | Infinity | NegInfinity

  datatype CoordinateType = I8 | I16 | I32 | I64 | F32 | F64

  /** One entry of an ordered map; a map is the list of its entries in key order. */
  datatype Entry = Entry(key: string, value: Value)

  datatype Value =
    | Null
    | Boolean(truth: bool)
    | Integer(n: int)
    | Real(f: Float)
    | Str(s: string)
    | List(items: seq<Value>)
    | Map(entries: seq<Entry>)
    | Node(elementId: string, labels: seq<string>, properties: seq<Entry>)
    | Relationship(elementId: string, relationshipType: string, start: string, end: string, properties: seq<Entry>)
    | Path(nodes: seq<Value>, relationships: seq<Value>)
    | CalendarDate(date: DateValue)
    | LocalTime(localTime: LocalTimeValue)
    | Time(time: TimeValue)
    | LocalDateTime(localDateTime: LocalDateTimeValue)
    | ZonedDateTime(zoned: ZonedDateTimeValue)
    | Duration(text: string)
    | Point(point: PointValue)
    | Vector(coordinateType: CoordinateType, coordinates: seq<Value>)
    | Uuid(bytes: Bytes16)

  type Bytes16 = bytes: seq<Byte> | |bytes| == 16 witness seq(16, _ => 0)

  datatype PointValue = PointValue(crs: string, srid: nat, position: seq<Float>)

  /** What lies outside this model: the zone database, the conversions between
      number formats, and the duration parser with the checkpoints it passes. */
  datatype Env = Env(
    zones: ZoneTable,
    toFloat: int -> Float,
    narrow: Float -> Float,
    wrapLongitude: Float -> Float,
    parseDuration: string -> (Option<string>, seq<nat>))

  // ---- integers as text -----------------------------------------------------------

  /** `str::parse::<i64>`. */
  function ParseI64(text: string): Option<int> {
    var negative := text != [] && text[0] == '-';
    var digits := if text != [] && (text[0] == '-' || text[0] == '+') then text[1..] else text;
    if digits == [] || !AllDigits(digits) then None else
    var n: int := if negative then 0 - Numeral(digits) else Numeral(digits);
    if FitsI64(n) then Some(n) else None
  }

  lemma IntegerText(n: int)
    requires FitsI64(n)
    ensures ParseI64(SignedDigits(n)) == Some(n)
  {
    hide Digits, Numeral;
    NumeralOfDigits(if n < 0 then -n else n);
  }

  // ---- points -----------------------------------------------------------------------

  function Lower(s: string): (t: string)
    ensures |t| == |s|
  {
    seq(|s|, i requires 0 <= i < |s| => if 'A' <= s[i] <= 'Z' then s[i] - 'A' + 'a' else s[i])
  }

  /** The canonical name, identifier, dimension and kind of a reference system. */
  function ReferenceSystem(crs: string): Option<(string, nat, nat, bool)> {
    var name := Lower(crs);
    if name == "wgs-84" then Some(("wgs-84", 4326, 2, true))
    else if name == "wgs-84-3d" then Some(("wgs-84-3d", 4979, 3, true))
    else if name == "cartesian" then Some(("cartesian", 7203, 2, false))
    else if name == "cartesian-3d" then Some(("cartesian-3d", 9157, 3, false))
    else None
  }

  predicate Within(f: Float, bound: real) {
    f.Finite? && -bound <= f.value <= bound
  }

  function NewPoint(env: Env, crs: string, position: seq<Float>): Option<PointValue> {
    match ReferenceSystem(crs)
    case None => None
    case Some((name, srid, dimension, geographic)) =>
      if |position| != dimension then None
      else if exists i :: 0 <= i < |position| && !position[i].Finite? then None
      else if geographic && |position| > 1 && !Within(position[1], 90.0) then None
      else if geographic && |position| > 0 && !Within(position[0], 180.0)
      then Some(PointValue(name, srid, position[0 := env.wrapLongitude(position[0])]))
      else Some(PointValue(name, srid, position))
  }

  /** Every constructed point is a fixed point of the constructor, if wrapping a
      finite longitude brings it into range. */
  lemma PointCanonical(env: Env, crs: string, position: seq<Float>)
    requires forall f: Float :: f.Finite? ==> Within(env.wrapLongitude(f), 180.0)
    requires NewPoint(env, crs, position).Some?
    ensures var p := NewPoint(env, crs, position).value; NewPoint(env, p.crs, p.position) == Some(p)
  {
  }

  /** What is accepted as a point: a known system, as many finite coordinates as it has,
      and a latitude on the globe. */
  lemma NewPointIff(env: Env, crs: string, position: seq<Float>)
    ensures NewPoint(env, crs, position).Some? <==>
      && Lower(crs) in {"wgs-84", "wgs-84-3d", "cartesian", "cartesian-3d"}
      && |position| == (if Lower(crs) in {"wgs-84", "cartesian"} then 2 else 3)
      && (forall i :: 0 <= i < |position| ==> position[i].Finite?)
      && (Lower(crs) in {"wgs-84", "wgs-84-3d"} ==> -90.0 <= position[1].value <= 90.0)
    ensures NewPoint(env, crs, position).Some? ==>
      var p := NewPoint(env, crs, position).value;
      && p.crs == Lower(crs) && |p.position| == |position| && p.position[1..] == position[1..]
      && p.srid == (match p.crs case "wgs-84" => 4326 case "wgs-84-3d" => 4979 case "cartesian" => 7203 case _ => 9157)
      && p.position[0] ==
         if p.crs in {"wgs-84", "wgs-84-3d"} && !(-180.0 <= position[0].value <= 180.0)
         then env.wrapLongitude(position[0]) else position[0]
  {
  }

  // ---- vectors ------------------------------------------------------------------------

  const MAX_DIMENSION := 4096

  function CoordinateTypeName(c: CoordinateType): string {
    match c
    case I8 => "I8" case I16 => "I16" case I32 => "I32" case I64 => "I64" case F32 => "F32" case F64 => "F64"
  }

  function Upper(s: string): (t: string)
    ensures |t| == |s|
  {
    seq(|s|, i requires 0 <= i < |s| => if 'a' <= s[i] <= 'z' then s[i] - 'a' + 'A' else s[i])
  }

  function ParseCoordinateType(text: string): Option<CoordinateType> {
    var t := Upper(text);
    if t == "I8" || t == "INTEGER8" then Some(I8)
    else if t == "I16" || t == "INTEGER16" then Some(I16)
    else if t == "I32" || t == "INTEGER32" then Some(I32)
    else if t == "I64" || t == "INTEGER" || t == "INTEGER64" then Some(I64)
    else if t == "F32" || t == "FLOAT32" then Some(F32)
    else if t == "F64" || t == "FLOAT" || t == "FLOAT64" then Some(F64)
    else None
  }

  /** The names of coordinate types, in any case. */
  lemma CoordinateTypeAliases(text: string)
    ensures var t := Upper(text);
      ParseCoordinateType(text) ==
      if t in {"I8", "INTEGER8"} then Some(I8) else if t in {"I16", "INTEGER16"} then Some(I16)
      else if t in {"I32", "INTEGER32"} then Some(I32) else if t in {"I64", "INTEGER64", "INTEGER"} then Some(I64)
      else if t in {"F32", "FLOAT32"} then Some(F32) else if t in {"F64", "FLOAT64", "FLOAT"} then Some(F64)
      else None
    ensures ParseCoordinateType(Lower(text)) == ParseCoordinateType(text)
  {
    CaseFolds(text);
  }

  /** Case is that of ASCII letters, and either direction forgets it. */
  lemma CaseFolds(s: string)
    ensures Upper(Lower(s)) == Upper(s) && Lower(Upper(s)) == Lower(s)
    ensures forall i :: 0 <= i < |s| && !('a' <= s[i] <= 'z') ==> Upper(s)[i] == s[i]
    ensures forall i :: 0 <= i < |s| && !('A' <= s[i] <= 'Z') ==> Lower(s)[i] == s[i]
    ensures forall i :: 0 <= i < |s| && 'a' <= s[i] <= 'z' ==> Upper(s)[i] as int == s[i] as int - 32
  {
  }

  lemma CoordinateTypeNames(c: CoordinateType)
    ensures ParseCoordinateType(CoordinateTypeName(c)) == Some(c)
  {
    var name := CoordinateTypeName(c);
    assert Upper(name) == name;
  }

  predicate FitsSigned(n: int, bound: nat) {
    0 - bound <= n < bound
  }

  /** Reading one decoded value as a coordinate. */
  function AsCoordinate(env: Env, c: CoordinateType, v: Value): Option<Value> {
    match c
    case I8 => if v.Integer? && FitsSigned(v.n, 0x80) then Some(v) else None
    case I16 => if v.Integer? && FitsSigned(v.n, 0x8000) then Some(v) else None
    case I32 => if v.Integer? && FitsSigned(v.n, 0x8000_0000) then Some(v) else None
    case I64 => if v.Integer? then Some(v) else None
    case F32 =>
      if !(v.Integer? || v.Real?) then None else
      var f := env.narrow(if v.Integer? then env.toFloat(v.n) else v.f);
      if f.Finite? then Some(Real(f)) else None
    case F64 =>
      if !(v.Integer? || v.Real?) then None else
      var f := if v.Integer? then env.toFloat(v.n) else v.f;
      if f.Finite? then Some(Real(f)) else None
  }

  /** The integers each coordinate type takes. */
  lemma CoordinateRanges(env: Env, n: int)
    ensures AsCoordinate(env, I8, Integer(n)).Some? <==> -128 <= n <= 127
    ensures AsCoordinate(env, I16, Integer(n)).Some? <==> -32768 <= n <= 32767
    ensures AsCoordinate(env, I32, Integer(n)).Some? <==> -2147483648 <= n <= 2147483647
    ensures AsCoordinate(env, I64, Integer(n)) == Some(Integer(n))
    ensures forall c :: AsCoordinate(env, c, Integer(n)).Some? && !c.F32? && !c.F64? ==>
      AsCoordinate(env, c, Integer(n)) == Some(Integer(n))
  {
  }

  /** The floats: finite numbers as they are, narrowed for F32; integers are converted
      first; nothing else is a coordinate. */
  lemma FloatCoordinates(env: Env, v: Value, f: Float)
    requires (v.Real? && f == v.f) || (v.Integer? && f == env.toFloat(v.n))
    ensures AsCoordinate(env, F64, v) == if f.Finite? then Some(Real(f)) else None
    ensures AsCoordinate(env, F32, v) == if env.narrow(f).Finite? then Some(Real(env.narrow(f))) else None
  {
  }

  lemma OnlyNumbers(env: Env, c: CoordinateType, v: Value)
    ensures !v.Integer? && !v.Real? ==> AsCoordinate(env, c, v) == None
    ensures v.Real? && !c.F32? && !c.F64? ==> AsCoordinate(env, c, v) == None
  {
  }

  // ---- UUIDs ----------------------------------------------------------------------------

  function HexDigit(d: nat): (c: char)
    requires d < 16
    ensures c != '-'
  {
    if d < 10 then '0' + d as char else 'a' + (d - 10) as char
  }

  function HexValue(c: char): Option<nat> {
    if '0' <= c <= '9' then Some((c - '0') as nat)
    else if 'a' <= c <= 'f' then Some((c - 'a') as nat + 10)
    else if 'A' <= c <= 'F' then Some((c - 'A') as nat + 10)
    else None
  }

  function HexText(bytes: seq<Byte>): (s: string)
    ensures |s| == 2 * |bytes| && '-' !in s
  {
    if bytes == [] then [] else [HexDigit(bytes[0] / 16), HexDigit(bytes[0] % 16)] + HexText(bytes[1..])
  }

  function UuidText(bytes: Bytes16): string {
    HexText(bytes[..4]) + "-" + HexText(bytes[4..6]) + "-" + HexText(bytes[6..8]) + "-"
    + HexText(bytes[8..10]) + "-" + HexText(bytes[10..])
  }

  function WithoutHyphens(s: string): string {
    if s == [] then [] else (if s[0] == '-' then [] else [s[0]]) + WithoutHyphens(s[1..])
  }

  function UnhexAll(digits: string): (bytes: Option<seq<Byte>>)
    requires |digits| % 2 == 0
    ensures bytes.Some? ==> |bytes.value| == |digits| / 2
  {
    if digits == [] then Some([]) else
    match (HexValue(digits[0]), HexValue(digits[1]), UnhexAll(digits[2..]))
    case (Some(high), Some(low), Some(rest)) => Some([16 * high + low] + rest)
    case _ => None
  }

  function ParseUuid(text: string): Option<Bytes16> {
    if |text| != 36 || text[8] != '-' || text[13] != '-' || text[18] != '-' || text[23] != '-' then None else
    var compact := WithoutHyphens(text);
    if |compact| != 32 then None else UnhexAll(compact)
  }

  lemma {:induction false} WithoutHyphensOf(a: string, b: string)
    ensures WithoutHyphens(a + b) == WithoutHyphens(a) + WithoutHyphens(b)
  {
    if a == [] {
      assert a + b == b;
    } else {
      assert (a + b)[1..] == a[1..] + b;
      WithoutHyphensOf(a[1..], b);
    }
  }

  lemma {:induction false} NoHyphens(a: string)
    requires '-' !in a
    ensures WithoutHyphens(a) == a
  {
    if a != [] {
      NoHyphens(a[1..]);
    }
  }

  lemma HyphenAlone()
    ensures WithoutHyphens("-") == []
  {
  }

  lemma HexPair(b: Byte)
    ensures HexValue(HexDigit(b / 16)) == Some(b / 16) && HexValue(HexDigit(b % 16)) == Some(b % 16)
  {
  }

  lemma {:induction false} UnhexOfHex(bytes: seq<Byte>)
    ensures UnhexAll(HexText(bytes)) == Some(bytes)
  {
    if bytes != [] {
      HexPair(bytes[0]);
      UnhexOfHex(bytes[1..]);
      hide HexValue, HexDigit;
      var text, b := HexText(bytes), bytes[0];
      assert text[2..] == HexText(bytes[1..]);
      assert text[0] == HexDigit(b / 16) && text[1] == HexDigit(b % 16);
      assert [16 * (b / 16) + b % 16] + bytes[1..] == bytes;
    }
  }

  lemma {:induction false} HexTextOf(a: seq<Byte>, b: seq<Byte>)
    ensures HexText(a + b) == HexText(a) + HexText(b)
  {
    if a == [] {
      assert a + b == b;
    } else {
      assert (a + b)[1..] == a[1..] + b;
      HexTextOf(a[1..], b);
    }
  }

  const HEX := "0123456789abcdef"

  lemma {:induction false} HexDigits(bytes: seq<Byte>, i: nat)
    requires i < |bytes|
    ensures HexText(bytes)[2 * i] == HEX[bytes[i] / 16] && HexText(bytes)[2 * i + 1] == HEX[bytes[i] % 16]
  {
    if i > 0 {
      HexDigits(bytes[1..], i - 1);
    }
  }

  /** The canonical text: lower-case hexadecimal, in groups of 8, 4, 4, 4 and 12. */
  lemma UuidDigits(bytes: Bytes16, i: nat)
    requires i < 16
    ensures var text := UuidText(bytes);
      var at := 2 * i + (if i < 4 then 0 else if i < 6 then 1 else if i < 8 then 2 else if i < 10 then 3 else 4);
      && |text| == 36 && text[8] == '-' && text[13] == '-' && text[18] == '-' && text[23] == '-'
      && text[at] == HEX[bytes[i] / 16] && text[at + 1] == HEX[bytes[i] % 16]
  {
    hide HexText;
    if i < 4 { HexDigits(bytes[..4], i); }
    else if i < 6 { HexDigits(bytes[4..6], i - 4); }
    else if i < 8 { HexDigits(bytes[6..8], i - 6); }
    else if i < 10 { HexDigits(bytes[8..10], i - 8); }
    else { HexDigits(bytes[10..], i - 10); }
  }

  lemma UuidRoundTrip(bytes: Bytes16)
    ensures ParseUuid(UuidText(bytes)) == Some(bytes)
  {
    hide HexText, WithoutHyphens, UnhexAll;
    var a, b, c, d, e := HexText(bytes[..4]), HexText(bytes[4..6]), HexText(bytes[6..8]), HexText(bytes[8..10]),
      HexText(bytes[10..]);
    var text := a + "-" + b + "-" + c + "-" + d + "-" + e;
    HyphenAlone();
    NoHyphens(a);
    WithoutHyphensOf(a, "-");
    WithoutHyphensOf(a + "-", b);
    NoHyphens(b);
    WithoutHyphensOf(a + "-" + b, "-");
    WithoutHyphensOf(a + "-" + b + "-", c);
    NoHyphens(c);
    WithoutHyphensOf(a + "-" + b + "-" + c, "-");
    WithoutHyphensOf(a + "-" + b + "-" + c + "-", d);
    NoHyphens(d);
    WithoutHyphensOf(a + "-" + b + "-" + c + "-" + d, "-");
    WithoutHyphensOf(a + "-" + b + "-" + c + "-" + d + "-", e);
    NoHyphens(e);
    assert WithoutHyphens(text) == a + b + c + d + e;
    HexTextOf(bytes[..4], bytes[4..6]);
    HexTextOf(bytes[..4] + bytes[4..6], bytes[6..8]);
    HexTextOf(bytes[..4] + bytes[4..6] + bytes[6..8], bytes[8..10]);
    HexTextOf(bytes[..4] + bytes[4..6] + bytes[6..8] + bytes[8..10], bytes[10..]);
    assert bytes[..4] + bytes[4..6] + bytes[6..8] + bytes[8..10] + bytes[10..] == bytes;
    UnhexOfHex(bytes);
  }

  // ---- well-formed values -----------------------------------------------------------------

  const JS_SAFE_INTEGER := 9007199254740991

  /** A value the constructors can build, without durations. */
  ghost predicate WellFormed(env: Env, v: Value)
    decreases v, 1
  {
    match v
    case Integer(n) => FitsI64(n)
    case List(items) => AllWellFormed(env, items)
    case Map(entries) => EntriesWellFormed(env, entries)
    case Node(_, _, properties) => EntriesWellFormed(env, properties)
    case Relationship(_, _, _, _, properties) => EntriesWellFormed(env, properties)
    case Path(nodes, relationships) =>
      && |nodes| == |relationships| + 1
      && (forall n :: n in nodes ==> n.Node?) && AllWellFormed(env, nodes)
      && (forall r :: r in relationships ==> r.Relationship?) && AllWellFormed(env, relationships)
    case CalendarDate(date) => exists text :: DateParse(text) == Some(date)
    case LocalTime(t) => exists text :: LocalTimeParse(text) == Some(t)
    case Time(t) => exists text :: TimeParse(text) == Some(t)
    case LocalDateTime(t) => exists text :: LocalDateTimeParse(text) == Some(t)
    case ZonedDateTime(z) => exists text :: ZonedParse(env.zones, text, z.zone) == Some(z)
    case Duration(_) => false
    case Point(p) => NewPoint(env, p.crs, p.position) == Some(p)
    case Vector(c, coordinates) =>
      && 1 <= |coordinates| <= MAX_DIMENSION
      && (forall x :: x in coordinates ==> AsCoordinate(env, c, x) == Some(x))
      && AllWellFormed(env, coordinates)
    case _ => true
  }

  ghost predicate AllWellFormed(env: Env, vs: seq<Value>)
    decreases vs, 0
  {
    vs == [] || (WellFormed(env, vs[0]) && AllWellFormed(env, vs[1..]))
  }

  ghost predicate EntriesWellFormed(env: Env, es: seq<Entry>)
    decreases es, 0
  {
    es == [] || (WellFormed(env, es[0].value) && EntriesWellFormed(env, es[1..]))
  }
}
