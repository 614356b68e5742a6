/** The tagged JSON form of Cypher values: encoder, property filter and decoder. */
module Json {
  import opened Wrappers
  import opened Calendar
  import opened Texts
  import opened Temporal
  import opened Checkpoint
  import opened Values
  import Utf8

  /** A JSON tree.  An object is the list of its members in key order. */
  datatype Field = Field(key: string, value: Json)

  datatype Json =
    | JNull | JBool(truth: bool) | JInt(n: int) | JFloat(f: Float) | JString(s: string)
    | JArray(items: seq<Json>) | JObject(fields: seq<Field>)

  /** The member names the codec writes. */
  datatype Name =
    | KType | KValue | KEntries | KElementId | KLabels | KProperties | KEnd | KStart | KRelationshipType
    | KNodes | KRelationships | KZone | KCoordinates | KCrs | KCoordinateType | KDimension | KValues

  function Key(name: Name): string {
    match name
    case KType => "$type"
    case KValue => "value"
    case KEntries => "entries"
    case KElementId => "elementId"
    case KLabels => "labels"
    case KProperties => "properties"
    case KEnd => "end"
    case KStart => "start"
    case KRelationshipType => "type"
    case KNodes => "nodes"
    case KRelationships => "relationships"
    case KZone => "zone"
    case KCoordinates => "coordinates"
    case KCrs => "crs"
    case KCoordinateType => "coordinateType"
    case KDimension => "dimension"
    case KValues => "values"
  }

  // ---- encoding -----------------------------------------------------------------------

  type Allow = string -> bool

  const ALL: Allow := _ => true

  /** A member whose name the codec chose. */
  datatype Member = Member(name: Name, value: Json)

  function Fields(members: seq<Member>): (fields: seq<Field>)
    ensures |fields| == |members|
  {
    seq(|members|, i requires 0 <= i < |members| => Field(Key(members[i].name), members[i].value))
  }

  function TypeOf(tag: Tag): Member {
    Member(KType, JString(TagName(tag)))
  }

  // The members of each tagged object, in key order.

  function TextMembers(tag: Tag, text: string): seq<Member> {
    [TypeOf(tag), Member(KValue, JString(text))]
  }

  function MapMembers(plain: Json): seq<Member> {
    [TypeOf(TMap), Member(KEntries, plain)]
  }

  function NodeMembers(id: string, labels: seq<string>, properties: seq<Field>): seq<Member> {
    [TypeOf(TNode), Member(KElementId, JString(id)), Member(KLabels, JArray(Strings(labels))),
     Member(KProperties, JObject(properties))]
  }

  function RelationshipMembers(
    id: string, kind: string, start: string, end: string, properties: seq<Field>): seq<Member> {
    [TypeOf(TRelationship), Member(KElementId, JString(id)), Member(KEnd, JString(end)),
     Member(KProperties, JObject(properties)), Member(KStart, JString(start)), Member(KRelationshipType, JString(kind))]
  }

  function PathMembers(nodes: seq<Json>, relationships: seq<Json>): seq<Member> {
    [TypeOf(TPath), Member(KNodes, JArray(nodes)), Member(KRelationships, JArray(relationships))]
  }

  function ZonedMembers(z: ZonedDateTimeValue): seq<Member> {
    [TypeOf(TZonedDateTime), Member(KValue, JString(z.text)), Member(KZone, JString(z.zone))]
  }

  function PointMembers(p: PointValue): seq<Member> {
    [TypeOf(TPoint), Member(KCoordinates, JArray(Floats(p.position))), Member(KCrs, JString(p.crs))]
  }

  function VectorMembers(c: CoordinateType, values: seq<Json>): seq<Member> {
    [TypeOf(TVector), Member(KCoordinateType, JString(CoordinateTypeName(c))), Member(KDimension, JInt(|values|)),
     Member(KValues, JArray(values))]
  }

  function Tagged(tag: Tag, text: string): Json {
    JObject(Fields(TextMembers(tag, text)))
  }

  /** JSON has no form for the other floats; the numbers library writes null. */
  function FloatJson(f: Float): Json {
    if f.Finite? then JFloat(f) else JNull
  }

  function Floats(fs: seq<Float>): (items: seq<Json>) {
    if fs == [] then [] else [FloatJson(fs[0])] + Floats(fs[1..])
  }

  function Strings(texts: seq<string>): seq<Json> {
    if texts == [] then [] else [JString(texts[0])] + Strings(texts[1..])
  }

  predicate HasKey(es: seq<Entry>, key: string) {
    exists e :: e in es && e.key == key
  }

  function Encode(v: Value, allow: Allow): Json
    decreases v, 1
  {
    match v
    case Null => JNull
    case Boolean(truth) => JBool(truth)
    case Integer(n) => if -JS_SAFE_INTEGER <= n <= JS_SAFE_INTEGER then JInt(n) else Tagged(TInteger, SignedDigits(n))
    case Real(f) =>
      (match f
       case Finite(_, _) => JFloat(f)
       case NaN => Tagged(TFloat, "NaN")
       case Infinity => Tagged(TFloat, "Infinity")
       case NegInfinity => Tagged(TFloat, "-Infinity"))
    case Str(s) => JString(s)
    case List(items) => JArray(EncodeItems(items, allow))
    case Map(entries) =>
      var plain := JObject(EncodeEntries(entries, allow, false));
      if HasKey(entries, Key(KType)) then JObject(Fields(MapMembers(plain))) else plain
    case Node(id, labels, properties) =>
      JObject(Fields(NodeMembers(id, labels, EncodeEntries(properties, allow, true))))
    case Relationship(id, kind, start, end, properties) =>
      JObject(Fields(RelationshipMembers(id, kind, start, end, EncodeEntries(properties, allow, true))))
    case Path(nodes, relationships) =>
      JObject(Fields(PathMembers(EncodeItems(nodes, allow), EncodeItems(relationships, allow))))
    case CalendarDate(d) => Tagged(TDate, d.text)
    case LocalTime(t) => Tagged(TLocalTime, t.text)
    case Time(t) => Tagged(TTime, t.text)
    case LocalDateTime(t) => Tagged(TLocalDateTime, t.text)
    case ZonedDateTime(z) => JObject(Fields(ZonedMembers(z)))
    case Duration(text) => Tagged(TDuration, text)
    case Point(p) => JObject(Fields(PointMembers(p)))
    case Vector(c, coordinates) => JObject(Fields(VectorMembers(c, EncodeItems(coordinates, allow))))
    case Uuid(bytes) => Tagged(TUuid, UuidText(bytes))
  }

  function EncodeItems(vs: seq<Value>, allow: Allow): (items: seq<Json>)
    ensures |items| == |vs|
    decreases vs, 0
  {
    if vs == [] then [] else [Encode(vs[0], allow)] + EncodeItems(vs[1..], allow)
  }

  /** The members of a map, or of a graph element's properties when `filter` is set. */
  function EncodeEntries(es: seq<Entry>, allow: Allow, filter: bool): seq<Field>
    decreases es, 0
  {
    if es == [] then []
    else if filter && !allow(es[0].key) then EncodeEntries(es[1..], allow, filter)
    else [Field(es[0].key, Encode(es[0].value, allow))] + EncodeEntries(es[1..], allow, filter)
  }

  // ---- deleting denied properties ---------------------------------------------------------

  /** The value with every denied property deleted from every node and relationship. */
  function Stripped(v: Value, allow: Allow): Value
    decreases v, 1
  {
    match v
    case List(items) => List(StrippedItems(items, allow))
    case Map(entries) => Map(StrippedEntries(entries, allow, false))
    case Node(id, labels, properties) => Node(id, labels, StrippedEntries(properties, allow, true))
    case Relationship(id, kind, start, end, properties) =>
      Relationship(id, kind, start, end, StrippedEntries(properties, allow, true))
    case Path(nodes, relationships) => Path(StrippedItems(nodes, allow), StrippedItems(relationships, allow))
    case Vector(c, coordinates) => Vector(c, StrippedItems(coordinates, allow))
    case _ => v
  }

  function StrippedItems(vs: seq<Value>, allow: Allow): (r: seq<Value>)
    ensures |r| == |vs|
    decreases vs, 0
  {
    if vs == [] then [] else [Stripped(vs[0], allow)] + StrippedItems(vs[1..], allow)
  }

  function StrippedEntries(es: seq<Entry>, allow: Allow, filter: bool): seq<Entry>
    decreases es, 0
  {
    if es == [] then []
    else if filter && !allow(es[0].key) then StrippedEntries(es[1..], allow, filter)
    else [Entry(es[0].key, Stripped(es[0].value, allow))] + StrippedEntries(es[1..], allow, filter)
  }

  // ---- decoding --------------------------------------------------------------------------------

  function Find(fields: seq<Field>, key: string): (j: Option<Json>)
    ensures j.Some? ==> exists i :: 0 <= i < |fields| && fields[i].value == j.value
  {
    if fields == [] then None
    else if fields[0].key == key then Some(fields[0].value) else Find(fields[1..], key)
  }

  function Text(fields: seq<Field>, key: string): Option<string> {
    match Find(fields, key) case Some(JString(s)) => Some(s) case _ => None
  }

  predicate OnlyFields(fields: seq<Field>, allowed: seq<Name>) {
    forall f :: f in fields ==> IsOneOf(f.key, allowed)
  }

  predicate IsOneOf(key: string, allowed: seq<Name>) {
    exists i :: 0 <= i < |allowed| && Key(allowed[i]) == key
  }

  datatype Tag =
    | TInteger | TFloat | TMap | TNode | TRelationship | TPath | TDate | TLocalTime | TTime
    | TLocalDateTime | TZonedDateTime | TDuration | TPoint | TVector | TUuid

  function TagName(tag: Tag): string {
    match tag
    case TInteger => "Integer" case TFloat => "Float" case TMap => "Map"
    case TNode => "Node" case TRelationship => "Relationship" case TPath => "Path"
    case TDate => "Date" case TLocalTime => "LocalTime" case TTime => "Time"
    case TLocalDateTime => "LocalDateTime" case TZonedDateTime => "ZonedDateTime" case TDuration => "Duration"
    case TPoint => "Point" case TVector => "Vector" case TUuid => "UUID"
  }

  /** The source tries the tags in groups, by name. */
  function ParseTag(name: string): Option<Tag> {
    if name == "Integer" then Some(TInteger) else if name == "Float" then Some(TFloat)
    else if name == "Map" then Some(TMap)
    else if name == "Node" then Some(TNode) else if name == "Relationship" then Some(TRelationship)
    else if name == "Path" then Some(TPath)
    else if name == "Date" then Some(TDate) else if name == "LocalTime" then Some(TLocalTime)
    else if name == "Time" then Some(TTime)
    else if name == "LocalDateTime" then Some(TLocalDateTime) else if name == "ZonedDateTime" then Some(TZonedDateTime)
    else if name == "Duration" then Some(TDuration)
    else if name == "Point" then Some(TPoint) else if name == "Vector" then Some(TVector)
    else if name == "UUID" then Some(TUuid)
    else None
  }

  /** The member names each tag admits. */
  function FieldsOf(tag: Tag): seq<Name> {
    match tag
    case TMap => [KType, KEntries]
    case TNode => [KType, KElementId, KLabels, KProperties]
    case TRelationship => [KType, KElementId, KRelationshipType, KStart, KEnd, KProperties]
    case TPath => [KType, KNodes, KRelationships]
    case TZonedDateTime => [KType, KValue, KZone]
    case TPoint => [KType, KCrs, KCoordinates]
    case TVector => [KType, KCoordinateType, KDimension, KValues]
    case _ => [KType, KValue]
  }

  function Wrapped<T, U>(v: Option<T>, wrap: T -> U): Option<U> {
    if v.None? then None else Some(wrap(v.value))
  }

  /** The tags whose decoders call no checkpoint. */
  function DecodeText(env: Env, tag: Tag, text: string, zone: Option<string>): Option<Value> {
    match tag
    case TInteger => Wrapped(ParseI64(text), n => Integer(n))
    case TFloat =>
      if text == "NaN" then Some(Real(NaN))
      else if text == "Infinity" then Some(Real(Infinity))
      else if text == "-Infinity" then Some(Real(NegInfinity)) else None
    case TDate => Wrapped(DateParse(text), d => CalendarDate(d))
    case TLocalTime => Wrapped(LocalTimeParse(text), t => LocalTime(t))
    case TTime => Wrapped(TimeParse(text), t => Time(t))
    case TLocalDateTime => Wrapped(LocalDateTimeParse(text), t => LocalDateTime(t))
    case TZonedDateTime =>
      if zone.None? then None else Wrapped(ZonedParse(env.zones, text, zone.value), z => ZonedDateTime(z))
    case TUuid => Wrapped(ParseUuid(text), b => Uuid(b))
    case _ => None
  }

  /** What each element of an array has to be. */
  datatype Want = Any | Nodes | Relationships | Coordinates(coordinateType: CoordinateType)

  function Accept(env: Env, want: Want, v: Value): Option<Value> {
    match want
    case Any => Some(v)
    case Nodes => if v.Node? then Some(v) else None
    case Relationships => if v.Relationship? then Some(v) else None
    case Coordinates(c) => AsCoordinate(env, c, v)
  }

  /** The decoder's checkpoint takes one number: the bytes of a piece, else the work. */
  function DecodeUnits(work: nat, bytes: nat): nat {
    if bytes == 0 then work else bytes
  }

  type DecodeCallback = Callback<nat>
  type DecodeTrace = Trace<nat>
  type DecodeRun<+T> = Run<nat, T>

  const NEVER: DecodeCallback := Silent()

  /** `decode_owned_text`, which copies in announced pieces. */
  function OwnedText(callback: DecodeCallback, t: DecodeTrace, s: string): DecodeRun<string> {
    var checks := CheckAll(callback, t, Utf8.CopyCalls(Utf8.Encode(s), DecodeUnits));
    Run(if checks.value.Some? then Some(s) else None, checks.trace)
  }

  function DecodeNumber(env: Env, j: Json): Option<Value> {
    match j
    case JInt(n) => Some(if FitsI64(n) then Integer(n) else Real(env.toFloat(n)))
    case JFloat(f) => Some(Real(f))
    case _ => None
  }

  function Decode(env: Env, callback: DecodeCallback, t: DecodeTrace, j: Json): DecodeRun<Value>
    decreases j, 1
  {
    var start := Check(callback, t, 1);
    if start.value.None? then Run(None, start.trace) else
    match j
    case JNull => Run(Some(Null), start.trace)
    case JBool(truth) => Run(Some(Boolean(truth)), start.trace)
    case JInt(_) => Run(DecodeNumber(env, j), start.trace)
    case JFloat(_) => Run(DecodeNumber(env, j), start.trace)
    case JString(s) =>
      var text := OwnedText(callback, start.trace, s);
      if text.value.None? then Run(None, text.trace) else Run(Some(Str(text.value.value)), text.trace)
    case JArray(items) =>
      var each := DecodeEach(env, callback, start.trace, items, Any);
      if each.value.None? then Run(None, each.trace) else Run(Some(List(each.value.value)), each.trace)
    case JObject(fields) => DecodeObject(env, callback, start.trace, fields)
  }

  /** An array whose elements are decoded and accepted one by one. */
  function DecodeEach(
    env: Env, callback: DecodeCallback, t: DecodeTrace, items: seq<Json>, want: Want): (r: DecodeRun<seq<Value>>)
    decreases items, 0
  {
    if items == [] then Run(Some([]), t) else
    var first := Decode(env, callback, t, items[0]);
    if first.value.None? then Run(None, first.trace) else
    var accepted := Accept(env, want, first.value.value);
    if accepted.None? then Run(None, first.trace) else
    var rest := DecodeEach(env, callback, first.trace, items[1..], want);
    if rest.value.None? then Run(None, rest.trace) else Run(Some([accepted.value] + rest.value.value), rest.trace)
  }

  /** `decode_plain_map`. */
  function DecodeEntries(env: Env, callback: DecodeCallback, t: DecodeTrace, fields: seq<Field>): DecodeRun<seq<Entry>>
    decreases fields, 0
  {
    if fields == [] then Run(Some([]), t) else
    var key := OwnedText(callback, t, fields[0].key);
    if key.value.None? then Run(None, key.trace) else
    var first := Decode(env, callback, key.trace, fields[0].value);
    if first.value.None? then Run(None, first.trace) else
    var rest := DecodeEntries(env, callback, first.trace, fields[1..]);
    if rest.value.None? then Run(None, rest.trace)
    else Run(Some([Entry(key.value.value, first.value.value)] + rest.value.value), rest.trace)
  }

  function DecodeObject(env: Env, callback: DecodeCallback, t: DecodeTrace, fields: seq<Field>): DecodeRun<Value>
    decreases fields, 3
  {
    match Find(fields, Key(KType))
    case None => DecodeMap(env, callback, t, fields)
    case Some(JString(name)) =>
      var tag := ParseTag(name);
      if tag.None? || !OnlyFields(fields, FieldsOf(tag.value)) then Run(None, t)
      else DecodeTagged(env, callback, t, tag.value, fields)
    case Some(_) => Run(None, t)
  }

  function DecodeMap(env: Env, callback: DecodeCallback, t: DecodeTrace, fields: seq<Field>): DecodeRun<Value>
    decreases fields, 1
  {
    var entries := DecodeEntries(env, callback, t, fields);
    if entries.value.None? then Run(None, entries.trace) else Run(Some(Map(entries.value.value)), entries.trace)
  }

  function DecodeTagged(
    env: Env, callback: DecodeCallback, t: DecodeTrace, tag: Tag, fields: seq<Field>): DecodeRun<Value>
    decreases fields, 2
  {
    match tag
    case TMap =>
      (match Find(fields, Key(KEntries))
       case Some(JObject(entries)) => DecodeMap(env, callback, t, entries)
       case _ => Run(None, t))
    case TNode => DecodeNode(env, callback, t, fields)
    case TRelationship => DecodeRelationship(env, callback, t, fields)
    case TPath => DecodePath(env, callback, t, fields)
    case TPoint => DecodePoint(env, callback, t, fields)
    case TVector => DecodeVector(env, callback, t, fields)
    case TDuration =>
      (match Text(fields, Key(KValue))
       case None => Run(None, t)
       case Some(text) => DecodeDuration(env, callback, t, text))
    case _ =>
      match Text(fields, Key(KValue))
      case None => Run(None, t)
      case Some(text) => Run(DecodeText(env, tag, text, Text(fields, Key(KZone))), t)
  }

  function DecodeDuration(env: Env, callback: DecodeCallback, t: DecodeTrace, text: string): DecodeRun<Value> {
    var (duration, units) := env.parseDuration(text);
    var checks := CheckAll(callback, t, units);
    if checks.value.None? then Run(None, checks.trace) else Run(Wrapped(duration, d => Duration(d)), checks.trace)
  }

  function DecodeLabels(callback: DecodeCallback, t: DecodeTrace, items: seq<Json>): DecodeRun<seq<string>>
    decreases items
  {
    if items == [] then Run(Some([]), t) else
    var start := Check(callback, t, 1);
    if start.value.None? then Run(None, start.trace) else
    if !items[0].JString? then Run(None, start.trace) else
    var first := OwnedText(callback, start.trace, items[0].s);
    if first.value.None? then Run(None, first.trace) else
    var rest := DecodeLabels(callback, first.trace, items[1..]);
    if rest.value.None? then Run(None, rest.trace) else Run(Some([first.value.value] + rest.value.value), rest.trace)
  }

  /** `decode_map_field` for the properties of a graph element. */
  function DecodeProperties(
    env: Env, callback: DecodeCallback, t: DecodeTrace, fields: seq<Field>): DecodeRun<seq<Entry>>
    decreases fields, 0
  {
    match Find(fields, Key(KProperties))
    case Some(JObject(properties)) => DecodeEntries(env, callback, t, properties)
    case _ => Run(None, t)
  }

  /** The labels come first, then the properties, and the identifier is read last. */
  function DecodeNode(env: Env, callback: DecodeCallback, t: DecodeTrace, fields: seq<Field>): DecodeRun<Value>
    decreases fields, 1
  {
    match Find(fields, Key(KLabels))
    case Some(JArray(items)) =>
      var labels := DecodeLabels(callback, t, items);
      if labels.value.None? then Run(None, labels.trace) else
      var properties := DecodeProperties(env, callback, labels.trace, fields);
      if properties.value.None? then Run(None, properties.trace) else
      Run(Wrapped(Text(fields, Key(KElementId)), id => Node(id, labels.value.value, properties.value.value)),
        properties.trace)
    case _ => Run(None, t)
  }

  function DecodeRelationship(env: Env, callback: DecodeCallback, t: DecodeTrace, fields: seq<Field>): DecodeRun<Value>
    decreases fields, 1
  {
    match (Text(fields, Key(KElementId)), Text(fields, Key(KRelationshipType)), Text(fields, Key(KStart)),
      Text(fields, Key(KEnd)))
    case (Some(id), Some(kind), Some(start), Some(end)) =>
      var properties := DecodeProperties(env, callback, t, fields);
      if properties.value.None? then Run(None, properties.trace)
      else Run(Some(Relationship(id, kind, start, end, properties.value.value)), properties.trace)
    case _ => Run(None, t)
  }

  function DecodePath(env: Env, callback: DecodeCallback, t: DecodeTrace, fields: seq<Field>): DecodeRun<Value>
    decreases fields, 1
  {
    match Find(fields, Key(KNodes))
    case Some(JArray(nodeItems)) =>
      var nodes := DecodeEach(env, callback, t, nodeItems, Nodes);
      if nodes.value.None? then Run(None, nodes.trace) else
      DecodePathRest(env, callback, nodes.trace, fields, nodes.value.value)
    case _ => Run(None, t)
  }

  function DecodePathRest(
    env: Env, callback: DecodeCallback, t: DecodeTrace, fields: seq<Field>, nodes: seq<Value>): DecodeRun<Value>
    decreases fields, 0
  {
    match Find(fields, Key(KRelationships))
    case Some(JArray(items)) =>
      var relationships := DecodeEach(env, callback, t, items, Relationships);
      if relationships.value.None? then Run(None, relationships.trace) else
      Run(if |nodes| == |relationships.value.value| + 1 then Some(Path(nodes, relationships.value.value)) else None,
          relationships.trace)
    case _ => Run(None, t)
  }

  function DecodePosition(env: Env, callback: DecodeCallback, t: DecodeTrace, items: seq<Json>): DecodeRun<seq<Float>>
    decreases items
  {
    if items == [] then Run(Some([]), t) else
    var start := Check(callback, t, 1);
    if start.value.None? then Run(None, start.trace) else
    var f := if items[0].JFloat? then items[0].f else if items[0].JInt? then env.toFloat(items[0].n) else NaN;
    if !f.Finite? then Run(None, start.trace) else
    var rest := DecodePosition(env, callback, start.trace, items[1..]);
    if rest.value.None? then Run(None, rest.trace) else Run(Some([f] + rest.value.value), rest.trace)
  }

  function DecodePoint(env: Env, callback: DecodeCallback, t: DecodeTrace, fields: seq<Field>): DecodeRun<Value> {
    match Find(fields, Key(KCoordinates))
    case Some(JArray(items)) =>
      var position := DecodePosition(env, callback, t, items);
      if position.value.None? then Run(None, position.trace) else
      Run(match Text(fields, Key(KCrs))
          case None => None
          case Some(crs) => Wrapped(NewPoint(env, crs, position.value.value), p => Point(p)), position.trace)
    case _ => Run(None, t)
  }

  function DecodeVector(env: Env, callback: DecodeCallback, t: DecodeTrace, fields: seq<Field>): DecodeRun<Value>
    decreases fields, 1
  {
    var coordinateType := match Text(fields,
      Key(KCoordinateType)) case None => None case Some(name) => ParseCoordinateType(name);
    match (coordinateType, Find(fields, Key(KDimension)), Find(fields, Key(KValues)))
    case (Some(c), Some(JInt(dimension)), Some(JArray(items))) =>
      if dimension != |items| then Run(None, t) else
      var coordinates := DecodeEach(env, callback, t, items, Coordinates(c));
      if coordinates.value.None? then Run(None, coordinates.trace)
      else NewVector(callback, coordinates.trace, c, coordinates.value.value)
    case _ => Run(None, t)
  }

  /** `VectorValue::new_with_checkpoint`: the dimension, then one announced finite
      check for each floating coordinate. */
  function NewVector(
    callback: DecodeCallback, t: DecodeTrace, c: CoordinateType, coordinates: seq<Value>): DecodeRun<Value> {
    if !(1 <= |coordinates| <= MAX_DIMENSION) then Run(None, t) else
    var scan := if c.F32? || c.F64? then FiniteScan(callback, t, coordinates) else Run(Some(()), t);
    if scan.value.None? then Run(None, scan.trace) else Run(Some(Vector(c, coordinates)), scan.trace)
  }

  function FiniteScan(callback: DecodeCallback, t: DecodeTrace, coordinates: seq<Value>): DecodeRun<()>
    decreases coordinates
  {
    if coordinates == [] then Run(Some(()), t) else
    var start := Check(callback, t, 1);
    if start.value.None? || !(coordinates[0].Real? && coordinates[0].f.Finite?) then Run(None, start.trace)
    else FiniteScan(callback, start.trace, coordinates[1..])
  }

  // ---- parameters ----------------------------------------------------------------------------------

  /** `Value::is_parameter_value`. */
  predicate IsParameter(v: Value)
    decreases v, 1
  {
    match v
    case Node(_, _, _) => false
    case Relationship(_, _, _, _, _) => false
    case Path(_, _) => false
    case List(items) => AllParameters(items)
    case Map(entries) => EntriesAreParameters(entries)
    case _ => true
  }

  predicate AllParameters(vs: seq<Value>)
    decreases vs, 0
  {
    vs == [] || (IsParameter(vs[0]) && AllParameters(vs[1..]))
  }

  predicate EntriesAreParameters(es: seq<Entry>)
    decreases es, 0
  {
    es == [] || (IsParameter(es[0].value) && EntriesAreParameters(es[1..]))
  }

  /** `parameter_value_checked`: the same question, announced value by value. */
  function CheckedParameter(callback: DecodeCallback, t: DecodeTrace, v: Value): DecodeRun<bool>
    decreases v, 1
  {
    var start := Check(callback, t, 1);
    if start.value.None? then Run(None, start.trace) else
    match v
    case Node(_, _, _) => Run(Some(false), start.trace)
    case Relationship(_, _, _, _, _) => Run(Some(false), start.trace)
    case Path(_, _) => Run(Some(false), start.trace)
    case List(items) => CheckedParameters(callback, start.trace, items)
    case Map(entries) => CheckedEntries(callback, start.trace, entries)
    case _ => Run(Some(true), start.trace)
  }

  function CheckedParameters(callback: DecodeCallback, t: DecodeTrace, vs: seq<Value>): DecodeRun<bool>
    decreases vs, 0
  {
    if vs == [] then Run(Some(true), t) else
    var first := CheckedParameter(callback, t, vs[0]);
    if first.value.None? then Run(None, first.trace)
    else if !first.value.value then Run(Some(false), first.trace)
    else CheckedParameters(callback, first.trace, vs[1..])
  }

  function CheckedEntries(callback: DecodeCallback, t: DecodeTrace, es: seq<Entry>): DecodeRun<bool>
    decreases es, 0
  {
    if es == [] then Run(Some(true), t) else
    var first := CheckedParameter(callback, t, es[0].value);
    if first.value.None? then Run(None, first.trace)
    else if !first.value.value then Run(Some(false), first.trace)
    else CheckedEntries(callback, first.trace, es[1..])
  }

  function DecodeParameters(env: Env, callback: DecodeCallback, t: DecodeTrace, j: Json): DecodeRun<seq<Entry>> {
    var start := Check(callback, t, 0);
    if start.value.None? || !j.JObject? then Run(None, start.trace)
    else DecodeParameterFields(env, callback, start.trace, j.fields)
  }

  /** Each value is decoded, vetted, and only then is its name copied. */
  function DecodeParameterFields(
    env: Env, callback: DecodeCallback, t: DecodeTrace, fields: seq<Field>): DecodeRun<seq<Entry>>
    decreases fields
  {
    if fields == [] then Run(Some([]), t) else
    var first := DecodeParameter(env, callback, t, fields[0]);
    if first.value.None? then Run(None, first.trace) else
    var rest := DecodeParameterFields(env, callback, first.trace, fields[1..]);
    if rest.value.None? then Run(None, rest.trace) else Run(Some([first.value.value] + rest.value.value), rest.trace)
  }

  function DecodeParameter(env: Env, callback: DecodeCallback, t: DecodeTrace, field: Field): DecodeRun<Entry> {
    var value := Decode(env, callback, t, field.value);
    if value.value.None? then Run(None, value.trace) else
    var vetted := CheckedParameter(callback, value.trace, value.value.value);
    if vetted.value.None? || !vetted.value.value then Run(None, vetted.trace) else
    var name := OwnedText(callback, vetted.trace, field.key);
    if name.value.None? then Run(None, name.trace)
      else Run(Some(Entry(name.value.value, value.value.value)), name.trace)
  }
}
