/** The JSON on the wire, by its literal names: what each value is written as, and what
    a decoded object was read from. */
module JsonWire {
  import opened Wrappers
  import opened Texts
  import opened Temporal
  import opened Checkpoint
  import opened Values
  import opened Json
  import JsonLaws

  // ---- writing ------------------------------------------------------------------------------

  function Obj(members: seq<(string, Json)>): Json {
    JObject(seq(|members|, i requires 0 <= i < |members| => Field(members[i].0, members[i].1)))
  }

  /** A value that JSON has no form for, as its type and its text. */
  function Text(kind: string, text: string): Json {
    Obj([("$type", JString(kind)), ("value", JString(text))])
  }

  /** The names of the six coordinate types. */
  function TypeText(c: CoordinateType): string {
    match c
    case I8 => "I8" case I16 => "I16" case I32 => "I32" case I64 => "I64" case F32 => "F32" case F64 => "F64"
  }

  /** The wire form of every value.  Members are in key order. */
  function Wire(v: Value): Json
    decreases v, 1
  {
    match v
    case Null => JNull
    case Boolean(truth) => JBool(truth)
    case Integer(n) =>
      if n < -9007199254740991 || n > 9007199254740991 then Text("Integer", SignedDigits(n)) else JInt(n)
    case Real(f) =>
      if f == NaN then Text("Float", "NaN")
      else if f == Infinity then Text("Float", "Infinity")
      else if f == NegInfinity then Text("Float", "-Infinity") else JFloat(f)
    case Str(s) => JString(s)
    case List(items) => JArray(WireItems(items))
    case Map(entries) =>
      var plain := JObject(WireEntries(entries));
      if exists e :: e in entries && e.key == "$type" then Obj([("$type", JString("Map")), ("entries", plain)])
      else plain
    case Node(id, labels, properties) =>
      Obj([
        ("$type", JString("Node")), ("elementId", JString(id)), ("labels", JArray(Strings(labels))),
        ("properties", JObject(WireEntries(properties)))])
    case Relationship(id, kind, start, end, properties) =>
      Obj([
        ("$type", JString("Relationship")), ("elementId", JString(id)), ("end", JString(end)),
        ("properties", JObject(WireEntries(properties))), ("start", JString(start)), ("type", JString(kind))])
    case Path(nodes, relationships) =>
      Obj([
        ("$type", JString("Path")), ("nodes", JArray(WireItems(nodes))),
        ("relationships", JArray(WireItems(relationships)))])
    case CalendarDate(d) => Text("Date", d.text)
    case LocalTime(t) => Text("LocalTime", t.text)
    case Time(t) => Text("Time", t.text)
    case LocalDateTime(t) => Text("LocalDateTime", t.text)
    case ZonedDateTime(z) =>
      Obj([("$type", JString("ZonedDateTime")), ("value", JString(z.text)), ("zone", JString(z.zone))])
    case Duration(text) => Text("Duration", text)
    case Point(p) =>
      Obj([("$type", JString("Point")), ("coordinates", JArray(Floats(p.position))), ("crs", JString(p.crs))])
    case Vector(c, coordinates) =>
      Obj([
        ("$type", JString("Vector")), ("coordinateType", JString(TypeText(c))), ("dimension", JInt(|coordinates|)),
        ("values", JArray(WireItems(coordinates)))])
    case Uuid(bytes) => Text("UUID", UuidText(bytes))
  }

  function WireItems(vs: seq<Value>): (items: seq<Json>)
    ensures |items| == |vs|
    decreases vs, 0
  {
    if vs == [] then [] else [Wire(vs[0])] + WireItems(vs[1..])
  }

  function WireEntries(es: seq<Entry>): (fields: seq<Field>)
    ensures |fields| == |es|
    decreases es, 0
  {
    if es == [] then [] else [Field(es[0].key, Wire(es[0].value))] + WireEntries(es[1..])
  }

  lemma {:induction false} EncodeIsWire(v: Value)
    ensures Encode(v, ALL) == Wire(v)
    decreases v, 1
  {
    hide Encode, Wire;
    match v
    case List(items) => ItemsAreWire(items); EncodedList(v);
    case Map(entries) => EntriesAreWire(entries, false); EncodedMap(v);
    case Node(_, _, properties) => EntriesAreWire(properties, true); EncodedElement(v);
    case Relationship(_, _, _, _, properties) => EntriesAreWire(properties, true); EncodedElement(v);
    case Path(nodes, relationships) =>
      ItemsAreWire(nodes);
      ItemsAreWire(relationships);
      EncodedList(v);
    case Vector(_, coordinates) => ItemsAreWire(coordinates); EncodedList(v);
    case _ => EncodedScalar(v);
  }

  lemma {:induction false} EncodedList(v: Value)
    requires v.List? || v.Path? || v.Vector?
    requires v.List? ==> EncodeItems(v.items, ALL) == WireItems(v.items)
    requires v.Path? ==>
      EncodeItems(v.nodes, ALL) == WireItems(v.nodes) && EncodeItems(v.relationships, ALL) == WireItems(v.relationships)
    requires v.Vector? ==> EncodeItems(v.coordinates, ALL) == WireItems(v.coordinates)
    ensures Encode(v, ALL) == Wire(v)
  {
    hide EncodeItems, WireItems;
  }

  lemma {:induction false} EncodedMap(v: Value)
    requires v.Map? && EncodeEntries(v.entries, ALL, false) == WireEntries(v.entries)
    ensures Encode(v, ALL) == Wire(v)
  {
    hide EncodeEntries, WireEntries;
    assert HasKey(v.entries, Key(KType)) <==> exists e :: e in v.entries && e.key == "$type";
  }

  lemma {:induction false} EncodedElement(v: Value)
    requires v.Node? || v.Relationship?
    requires EncodeEntries(v.properties, ALL, true) == WireEntries(v.properties)
    ensures Encode(v, ALL) == Wire(v)
  {
    hide EncodeEntries, WireEntries;
  }

  lemma {:induction false} EncodedScalar(v: Value)
    requires !v.List? && !v.Map? && !v.Node? && !v.Relationship? && !v.Path? && !v.Vector?
    ensures Encode(v, ALL) == Wire(v)
  {
    hide Floats, UuidText, SignedDigits, Tagged, Text, Fields, Obj;
    match v
    case Integer(n) => TaggedIsText(TInteger, SignedDigits(n));
    case Real(f) =>
      TaggedIsText(TFloat, "NaN");
      TaggedIsText(TFloat, "Infinity");
      TaggedIsText(TFloat, "-Infinity");
    case CalendarDate(d) => TaggedIsText(TDate, d.text);
    case LocalTime(l) => TaggedIsText(TLocalTime, l.text);
    case Time(l) => TaggedIsText(TTime, l.text);
    case LocalDateTime(l) => TaggedIsText(TLocalDateTime, l.text);
    case ZonedDateTime(z) => ZonedIsWire(z);
    case Duration(text) => TaggedIsText(TDuration, text);
    case Point(p) => PointIsWire(p);
    case Uuid(bytes) => TaggedIsText(TUuid, UuidText(bytes));
    case _ =>
  }

  lemma {:induction false} TaggedIsText(tag: Tag, text: string)
    ensures Tagged(tag, text) == Text(NameOf(tag), text)
  {
  }

  lemma {:induction false} ZonedIsWire(z: ZonedDateTimeValue)
    ensures Encode(ZonedDateTime(z), ALL) == Wire(ZonedDateTime(z))
  {
  }

  lemma {:induction false} PointIsWire(p: PointValue)
    ensures Encode(Point(p), ALL) == Wire(Point(p))
  {
    hide Floats;
  }

  lemma {:induction false} ItemsAreWire(vs: seq<Value>)
    ensures EncodeItems(vs, ALL) == WireItems(vs)
    decreases vs, 0
  {
    hide Encode, Wire;
    if vs != [] {
      EncodeIsWire(vs[0]);
      ItemsAreWire(vs[1..]);
    }
  }

  lemma {:induction false} EntriesAreWire(es: seq<Entry>, filter: bool)
    ensures EncodeEntries(es, ALL, filter) == WireEntries(es)
    decreases es, 0
  {
    hide Encode, Wire;
    if es != [] {
      EncodeIsWire(es[0].value);
      EntriesAreWire(es[1..], filter);
    }
  }

  /** Under any filter, what is written is the wire form of what the filter leaves. */
  lemma {:induction false} FilteredWire(v: Value, allow: Allow)
    ensures Encode(v, allow) == Wire(Stripped(v, allow))
  {
    hide Encode, Wire, Stripped;
    JsonLaws.FilteredIsStripped(v, allow);
    EncodeIsWire(Stripped(v, allow));
  }

  /** And the wire form of every well-formed value is read back. */
  lemma {:induction false} WireDecodes(env: Env, t: DecodeTrace, v: Value)
    requires WellFormed(env, v)
    ensures Decode(env, NEVER, t, Wire(v)).value == Some(v)
  {
    hide Encode, Wire, Decode, WellFormed;
    JsonLaws.RoundTrip(env, t, v);
    EncodeIsWire(v);
  }

  // ---- reading --------------------------------------------------------------------------------

  predicate Has(fields: seq<Field>, name: string, text: string) {
    Find(fields, name) == Some(JString(text))
  }

  predicate HasArray(fields: seq<Field>, name: string, length: nat) {
    match Find(fields, name) case Some(JArray(items)) => |items| == length case _ => false
  }

  predicate HasObject(fields: seq<Field>, name: string, length: nat) {
    match Find(fields, name) case Some(JObject(members)) => |members| == length case _ => false
  }

  predicate Only(fields: seq<Field>, names: set<string>) {
    forall f :: f in fields ==> f.key in names
  }

  /** The value was read from the members of these names, and there are no others. */
  ghost predicate ReadByName(env: Env, fields: seq<Field>, v: Value) {
    match v
    case Node(id, labels, properties) =>
      && Has(fields, "$type", "Node") && Only(fields, {"$type", "elementId", "labels", "properties"})
      && Has(fields, "elementId", id) && HasArray(fields, "labels", |labels|)
      && HasObject(fields, "properties", |properties|)
    case Relationship(id, kind, start, end, properties) =>
      && Has(fields, "$type", "Relationship")
      && Only(fields, {"$type", "elementId", "type", "start", "end", "properties"})
      && Has(fields, "elementId", id) && Has(fields, "type", kind) && Has(fields, "start", start)
      && Has(fields, "end", end) && HasObject(fields, "properties", |properties|)
    case Path(nodes, relationships) =>
      && Has(fields, "$type", "Path") && Only(fields, {"$type", "nodes", "relationships"})
      && HasArray(fields, "nodes", |nodes|) && HasArray(fields, "relationships", |relationships|)
      && |nodes| == |relationships| + 1
      && (forall n :: n in nodes ==> n.Node?) && (forall r :: r in relationships ==> r.Relationship?)
    case Point(p) =>
      && Has(fields, "$type", "Point") && Only(fields, {"$type", "crs", "coordinates"})
      && HasArray(fields, "coordinates", |p.position|)
      && exists crs: string :: Has(fields, "crs", crs) && Lower(crs) == p.crs
    case Vector(c, coordinates) =>
      && Has(fields, "$type", "Vector") && Only(fields, {"$type", "coordinateType", "dimension", "values"})
      && HasArray(fields, "values", |coordinates|) && Find(fields, "dimension") == Some(JInt(|coordinates|))
      && 1 <= |coordinates| <= 4096
      && exists name: string :: Has(fields, "coordinateType", name) && ParseCoordinateType(name) == Some(c)
    case Map(entries) =>
      || (Find(fields, "$type") == None && |fields| == |entries|)
      || (Has(fields, "$type", "Map") && Only(fields, {"$type", "entries"})
          && HasObject(fields, "entries", |entries|))
    case _ => ReadText(env, fields, v)
  }

  /** A value read from the text under "value". */
  ghost predicate ReadText(env: Env, fields: seq<Field>, v: Value) {
    exists text: string ::
      && Has(fields, "value", text)
      && Only(fields, if v.ZonedDateTime? then {"$type", "value", "zone"} else {"$type", "value"})
      && match v
         case Integer(n) => Has(fields, "$type", "Integer") && ParseI64(text) == Some(n)
         case Real(f) =>
           && Has(fields, "$type", "Float")
           && text == (if f == NaN then "NaN" else if f == Infinity then "Infinity" else "-Infinity")
           && !f.Finite?
         case CalendarDate(d) => Has(fields, "$type", "Date") && DateParse(text) == Some(d)
         case LocalTime(l) => Has(fields, "$type", "LocalTime") && LocalTimeParse(text) == Some(l)
         case Time(l) => Has(fields, "$type", "Time") && TimeParse(text) == Some(l)
         case LocalDateTime(l) => Has(fields, "$type", "LocalDateTime") && LocalDateTimeParse(text) == Some(l)
         case ZonedDateTime(z) =>
           && Has(fields, "$type", "ZonedDateTime")
           && exists zone :: Has(fields, "zone", zone) && ZonedParse(env.zones, text, zone) == Some(z)
         case Duration(d) => Has(fields, "$type", "Duration") && env.parseDuration(text).0 == Some(d)
         case Uuid(bytes) => Has(fields, "$type", "UUID") && ParseUuid(text) == Some(bytes)
         case _ => false
  }

  /** Whatever the order of the members, the callback and the database: an object that
      is accepted was read by these names. */
  lemma {:induction false} DecodedByName(env: Env, callback: DecodeCallback, t: DecodeTrace, fields: seq<Field>)
    ensures var r := DecodeObject(env, callback, t, fields).value;
      r.Some? ==> ReadByName(env, fields, r.value)
  {
    hide DecodeTagged, DecodeMap, ParseTag, FieldsOf, OnlyFields, ReadByName;
    var r := DecodeObject(env, callback, t, fields).value;
    if r.Some? {
      match Find(fields, "$type")
      case None => PlainByName(env, callback, t, fields);
      case Some(JString(name)) =>
        var tag := ParseTag(name).value;
        TagByName(name);
        AllowedNames(fields, tag);
        TaggedByName(env, callback, t, tag, fields);
      case Some(_) =>
    }
  }

  /** The name of each tag. */
  function NameOf(tag: Tag): string {
    match tag
    case TInteger => "Integer" case TFloat => "Float" case TMap => "Map" case TNode => "Node"
    case TRelationship => "Relationship" case TPath => "Path" case TDate => "Date" case TLocalTime => "LocalTime"
    case TTime => "Time" case TLocalDateTime => "LocalDateTime" case TZonedDateTime => "ZonedDateTime"
    case TDuration => "Duration" case TPoint => "Point" case TVector => "Vector" case TUuid => "UUID"
  }

  function NamesOf(tag: Tag): set<string> {
    match tag
    case TMap => {"$type", "entries"}
    case TNode => {"$type", "elementId", "labels", "properties"}
    case TRelationship => {"$type", "elementId", "type", "start", "end", "properties"}
    case TPath => {"$type", "nodes", "relationships"}
    case TZonedDateTime => {"$type", "value", "zone"}
    case TPoint => {"$type", "crs", "coordinates"}
    case TVector => {"$type", "coordinateType", "dimension", "values"}
    case _ => {"$type", "value"}
  }

  lemma TagByName(name: string)
    ensures ParseTag(name).Some? ==> name == NameOf(ParseTag(name).value)
  {
  }

  lemma {:induction false} AllowedNames(fields: seq<Field>, tag: Tag)
    requires OnlyFields(fields, FieldsOf(tag))
    ensures Only(fields, NamesOf(tag))
  {
    forall f | f in fields ensures f.key in NamesOf(tag) {
      assert IsOneOf(f.key, FieldsOf(tag));
    }
  }

  lemma {:induction false} PlainByName(env: Env, callback: DecodeCallback, t: DecodeTrace, fields: seq<Field>)
    requires Find(fields, "$type") == None && DecodeMap(env, callback, t, fields).value.Some?
    ensures ReadByName(env, fields, DecodeMap(env, callback, t, fields).value.value)
  {
    hide DecodeEntries;
    EntriesCounted(env, callback, t, fields);
  }

  lemma {:induction false} EntriesCounted(env: Env, callback: DecodeCallback, t: DecodeTrace, fields: seq<Field>)
    ensures var r := DecodeEntries(env, callback, t, fields).value; r.Some? ==> |r.value| == |fields|
    decreases fields
  {
    if fields != [] {
      hide Decode, OwnedText;
      var key := OwnedText(callback, t, fields[0].key);
      var first := Decode(env, callback, key.trace, fields[0].value);
      EntriesCounted(env, callback, first.trace, fields[1..]);
    }
  }

  lemma {:induction false} EachCounted(
    env: Env, callback: DecodeCallback, t: DecodeTrace, items: seq<Json>, want: Want)
    ensures var r := DecodeEach(env, callback, t, items, want).value;
      r.Some? ==>
        && |r.value| == |items|
        && (want.Nodes? ==> forall v :: v in r.value ==> v.Node?)
        && (want.Relationships? ==> forall v :: v in r.value ==> v.Relationship?)
    decreases items
  {
    if items != [] {
      hide Decode;
      var first := Decode(env, callback, t, items[0]);
      EachCounted(env, callback, first.trace, items[1..], want);
    }
  }

  lemma {:induction false} LabelsCounted(callback: DecodeCallback, t: DecodeTrace, items: seq<Json>)
    ensures var r := DecodeLabels(callback, t, items).value; r.Some? ==> |r.value| == |items|
    decreases items
  {
    if items != [] && items[0].JString? {
      hide OwnedText;
      var start := Check(callback, t, 1);
      LabelsCounted(callback, OwnedText(callback, start.trace, items[0].s).trace, items[1..]);
    }
  }

  lemma {:induction false} PositionCounted(env: Env, callback: DecodeCallback, t: DecodeTrace, items: seq<Json>)
    ensures var r := DecodePosition(env, callback, t, items).value; r.Some? ==> |r.value| == |items|
    decreases items
  {
    if items != [] {
      PositionCounted(env, callback, Check(callback, t, 1).trace, items[1..]);
    }
  }

  lemma {:induction false} TaggedByName(
    env: Env, callback: DecodeCallback, t: DecodeTrace, tag: Tag, fields: seq<Field>)
    requires Has(fields, "$type", NameOf(tag)) && Only(fields, NamesOf(tag))
    requires DecodeTagged(env, callback, t, tag, fields).value.Some?
    ensures ReadByName(env, fields, DecodeTagged(env, callback, t, tag, fields).value.value)
  {
    match tag
    case TMap => MapByName(env, callback, t, fields);
    case TNode => NodeByName(env, callback, t, fields);
    case TRelationship => RelationshipByName(env, callback, t, fields);
    case TPath => PathByName(env, callback, t, fields);
    case TPoint => PointByName(env, callback, t, fields);
    case TVector => VectorByName(env, callback, t, fields);
    case TDuration => DurationByName(env, callback, t, fields);
    case TZonedDateTime => ZonedByName(env, callback, t, fields);
    case _ => TextByName(env, callback, t, tag, fields);
  }

  lemma {:induction false} MapByName(env: Env, callback: DecodeCallback, t: DecodeTrace, fields: seq<Field>)
    requires Has(fields, "$type", "Map") && Only(fields, NamesOf(TMap))
    requires DecodeTagged(env, callback, t, TMap, fields).value.Some?
    ensures ReadByName(env, fields, DecodeTagged(env, callback, t, TMap, fields).value.value)
  {
    hide DecodeEntries;
    EntriesCounted(env, callback, t, Find(fields, "entries").value.fields);
  }

  lemma {:induction false} NodeByName(env: Env, callback: DecodeCallback, t: DecodeTrace, fields: seq<Field>)
    requires Has(fields, "$type", "Node") && Only(fields, NamesOf(TNode))
    requires DecodeNode(env, callback, t, fields).value.Some?
    ensures ReadByName(env, fields, DecodeNode(env, callback, t, fields).value.value)
  {
    hide DecodeEntries, DecodeLabels, Find;
    var items := Find(fields, "labels").value.items;
    var labels := DecodeLabels(callback, t, items);
    LabelsCounted(callback, t, items);
    EntriesCounted(env, callback, labels.trace, Find(fields, "properties").value.fields);
  }

  lemma {:induction false} RelationshipByName(env: Env, callback: DecodeCallback, t: DecodeTrace, fields: seq<Field>)
    requires Has(fields, "$type", "Relationship") && Only(fields, NamesOf(TRelationship))
    requires DecodeRelationship(env, callback, t, fields).value.Some?
    ensures ReadByName(env, fields, DecodeRelationship(env, callback, t, fields).value.value)
  {
    hide DecodeEntries, Find;
    EntriesCounted(env, callback, t, Find(fields, "properties").value.fields);
  }

  lemma {:induction false} PathByName(env: Env, callback: DecodeCallback, t: DecodeTrace, fields: seq<Field>)
    requires Has(fields, "$type", "Path") && Only(fields, NamesOf(TPath))
    requires DecodePath(env, callback, t, fields).value.Some?
    ensures ReadByName(env, fields, DecodePath(env, callback, t, fields).value.value)
  {
    hide DecodeEach, Find;
    var items := Find(fields, "nodes").value.items;
    var nodes := DecodeEach(env, callback, t, items, Nodes);
    EachCounted(env, callback, t, items, Nodes);
    EachCounted(env, callback, nodes.trace, Find(fields, "relationships").value.items, Relationships);
  }

  lemma {:induction false} PointByName(env: Env, callback: DecodeCallback, t: DecodeTrace, fields: seq<Field>)
    requires Has(fields, "$type", "Point") && Only(fields, NamesOf(TPoint))
    requires DecodePoint(env, callback, t, fields).value.Some?
    ensures ReadByName(env, fields, DecodePoint(env, callback, t, fields).value.value)
  {
    hide DecodePosition, NewPoint, Lower, Find;
    var items := Find(fields, "coordinates").value.items;
    PositionCounted(env, callback, t, items);
    var position := DecodePosition(env, callback, t, items).value.value;
    var crs := Find(fields, "crs").value.s;
    PointNamed(env, crs, position);
    assert Has(fields, "crs", crs);
  }

  lemma PointNamed(env: Env, crs: string, position: seq<Float>)
    ensures NewPoint(env, crs, position).Some? ==>
      var p := NewPoint(env, crs, position).value; p.crs == Lower(crs) && |p.position| == |position|
  {
  }

  lemma {:induction false} VectorByName(env: Env, callback: DecodeCallback, t: DecodeTrace, fields: seq<Field>)
    requires Has(fields, "$type", "Vector") && Only(fields, NamesOf(TVector))
    requires DecodeVector(env, callback, t, fields).value.Some?
    ensures ReadByName(env, fields, DecodeVector(env, callback, t, fields).value.value)
  {
    hide DecodeEach, FiniteScan, ParseCoordinateType, Find;
    var name := Find(fields, "coordinateType").value.s;
    var items := Find(fields, "values").value.items;
    EachCounted(env, callback, t, items, Coordinates(ParseCoordinateType(name).value));
    assert Has(fields, "coordinateType", name);
  }

  lemma {:induction false} TextByName(env: Env, callback: DecodeCallback, t: DecodeTrace, tag: Tag, fields: seq<Field>)
    requires !tag.TMap? && !tag.TNode? && !tag.TRelationship? && !tag.TPath? && !tag.TPoint? && !tag.TVector?
    requires !tag.TDuration? && !tag.TZonedDateTime?
    requires Has(fields, "$type", NameOf(tag)) && Only(fields, NamesOf(tag))
    requires DecodeTagged(env, callback, t, tag, fields).value.Some?
    ensures ReadByName(env, fields, DecodeTagged(env, callback, t, tag, fields).value.value)
  {
    hide DateParse, LocalTimeParse, TimeParse, LocalDateTimeParse, ParseUuid, ParseI64, Find;
    var text := Find(fields, "value").value.s;
    assert Has(fields, "value", text);
  }

  lemma {:induction false} DurationByName(env: Env, callback: DecodeCallback, t: DecodeTrace, fields: seq<Field>)
    requires Has(fields, "$type", "Duration") && Only(fields, NamesOf(TDuration))
    requires DecodeTagged(env, callback, t, TDuration, fields).value.Some?
    ensures ReadByName(env, fields, DecodeTagged(env, callback, t, TDuration, fields).value.value)
  {
    hide CheckAll, Find;
    assert Has(fields, "value", Find(fields, "value").value.s);
  }

  lemma {:induction false} ZonedByName(env: Env, callback: DecodeCallback, t: DecodeTrace, fields: seq<Field>)
    requires Has(fields, "$type", "ZonedDateTime") && Only(fields, NamesOf(TZonedDateTime))
    requires DecodeTagged(env, callback, t, TZonedDateTime, fields).value.Some?
    ensures ReadByName(env, fields, DecodeTagged(env, callback, t, TZonedDateTime, fields).value.value)
  {
    hide ZonedParse, Find;
    assert Has(fields, "value", Find(fields, "value").value.s);
    assert Has(fields, "zone", Find(fields, "zone").value.s);
  }
}
