/** Decoding undoes encoding, and filtering while encoding is deleting first. */
module JsonLaws {
  import opened Wrappers
  import opened Calendar
  import opened Texts
  import opened Temporal
  import opened Checkpoint
  import opened Values
  import opened Json
  import Utf8

  // ---- the filter ----------------------------------------------------------------------

  lemma {:induction false} KeysKept(es: seq<Entry>, allow: Allow)
    ensures |StrippedEntries(es, allow, false)| == |es|
    ensures forall i :: 0 <= i < |es| ==> StrippedEntries(es, allow, false)[i].key == es[i].key
    ensures forall key :: HasKey(StrippedEntries(es, allow, false), key) <==> HasKey(es, key)
    decreases es
  {
    if es != [] {
      KeysKept(es[1..], allow);
      var stripped := StrippedEntries(es, allow, false);
      forall key ensures HasKey(stripped, key) <==> HasKey(es, key) {
        if HasKey(es, key) {
          var i :| 0 <= i < |es| && es[i].key == key;
          assert stripped[i] in stripped;
        }
        if HasKey(stripped, key) {
          var i :| 0 <= i < |stripped| && stripped[i].key == key;
          assert es[i] in es;
        }
      }
    }
  }

  /** Encoding with a filter is encoding what is left after deleting every denied
      property of every node and relationship; maps keep all their keys. */
  lemma {:induction false} FilteredIsStripped(v: Value, allow: Allow)
    ensures Encode(v, allow) == Encode(Stripped(v, allow), ALL)
    decreases v, 1
  {
    hide HasKey;
    match v
    case List(items) => FilteredItems(items, allow);
    case Map(entries) =>
      FilteredEntries(entries, allow, false);
      KeysKept(entries, allow);
    case Node(_, _, properties) => FilteredEntries(properties, allow, true);
    case Relationship(_, _, _, _, properties) => FilteredEntries(properties, allow, true);
    case Path(nodes, relationships) =>
      FilteredItems(nodes, allow);
      FilteredItems(relationships, allow);
    case Vector(_, coordinates) => FilteredItems(coordinates, allow);
    case _ =>
  }

  lemma {:induction false} FilteredItems(vs: seq<Value>, allow: Allow)
    ensures EncodeItems(vs, allow) == EncodeItems(StrippedItems(vs, allow), ALL)
    decreases vs, 0
  {
    hide Encode, Stripped;
    if vs != [] {
      FilteredIsStripped(vs[0], allow);
      FilteredItems(vs[1..], allow);
      assert StrippedItems(vs, allow)[1..] == StrippedItems(vs[1..], allow);
    }
  }

  lemma {:induction false} FilteredEntries(es: seq<Entry>, allow: Allow, filter: bool)
    ensures EncodeEntries(es, allow, filter) == EncodeEntries(StrippedEntries(es, allow, filter), ALL, filter)
    decreases es, 0
  {
    hide Encode, Stripped;
    if es != [] {
      FilteredIsStripped(es[0].value, allow);
      FilteredEntries(es[1..], allow, filter);
      if !filter || allow(es[0].key) {
        assert StrippedEntries(es, allow, filter)[1..] == StrippedEntries(es[1..], allow, filter);
      }
    }
  }

  /** No node or relationship of the value, at any depth, has a denied property. */
  predicate Clean(v: Value, allow: Allow)
    decreases v, 1
  {
    match v
    case List(items) => AllClean(items, allow)
    case Map(entries) => EntriesClean(entries, allow)
    case Node(_, _, properties) => (forall p :: p in properties ==> allow(p.key)) && EntriesClean(properties, allow)
    case Relationship(_, _, _, _, properties) =>
      (forall p :: p in properties ==> allow(p.key)) && EntriesClean(properties, allow)
    case Path(nodes, relationships) => AllClean(nodes, allow) && AllClean(relationships, allow)
    case Vector(_, coordinates) => AllClean(coordinates, allow)
    case _ => true
  }

  predicate AllClean(vs: seq<Value>, allow: Allow)
    decreases vs, 0
  {
    vs == [] || (Clean(vs[0], allow) && AllClean(vs[1..], allow))
  }

  predicate EntriesClean(es: seq<Entry>, allow: Allow)
    decreases es, 0
  {
    es == [] || (Clean(es[0].value, allow) && EntriesClean(es[1..], allow))
  }

  /** What is left is clean, and a clean value is left as it is. */
  lemma {:induction false} StrippedIsClean(v: Value, allow: Allow)
    ensures Clean(Stripped(v, allow), allow)
    ensures Clean(v, allow) ==> Stripped(v, allow) == v
    decreases v, 1
  {
    match v
    case List(items) => StrippedItemsClean(items, allow);
    case Map(entries) => StrippedEntriesClean(entries, allow, false);
    case Node(_, _, properties) => StrippedEntriesClean(properties, allow, true);
    case Relationship(_, _, _, _, properties) => StrippedEntriesClean(properties, allow, true);
    case Path(nodes, relationships) =>
      StrippedItemsClean(nodes, allow);
      StrippedItemsClean(relationships, allow);
    case Vector(_, coordinates) => StrippedItemsClean(coordinates, allow);
    case _ =>
  }

  lemma {:induction false} StrippedItemsClean(vs: seq<Value>, allow: Allow)
    ensures AllClean(StrippedItems(vs, allow), allow)
    ensures AllClean(vs, allow) ==> StrippedItems(vs, allow) == vs
    decreases vs, 0
  {
    hide Clean, Stripped;
    if vs != [] {
      StrippedIsClean(vs[0], allow);
      StrippedItemsClean(vs[1..], allow);
      assert StrippedItems(vs, allow)[1..] == StrippedItems(vs[1..], allow);
    }
  }

  lemma {:induction false} StrippedEntriesClean(es: seq<Entry>, allow: Allow, filter: bool)
    ensures EntriesClean(StrippedEntries(es, allow, filter), allow)
    ensures filter ==> forall p :: p in StrippedEntries(es, allow, filter) ==> allow(p.key)
    ensures EntriesClean(es, allow) && (filter ==> forall p :: p in es ==> allow(p.key)) ==>
      StrippedEntries(es, allow, filter) == es
    decreases es, 0
  {
    hide Clean, Stripped;
    if es != [] {
      var rest := StrippedEntries(es[1..], allow, filter);
      StrippedIsClean(es[0].value, allow);
      StrippedEntriesClean(es[1..], allow, filter);
      assert es[0] in es && forall p :: p in es[1..] ==> p in es;
      if !filter || allow(es[0].key) {
        assert StrippedEntries(es, allow, filter) == [Entry(es[0].key, Stripped(es[0].value, allow))] + rest;
      }
    }
  }

  /** Deleting properties keeps a value well formed. */
  lemma {:induction false} StrippedWellFormed(env: Env, v: Value, allow: Allow)
    requires WellFormed(env, v)
    ensures WellFormed(env, Stripped(v, allow))
    decreases v, 1
  {
    match v
    case List(items) => StrippedItemsWellFormed(env, items, allow);
    case Map(entries) => StrippedEntriesWellFormed(env, entries, allow, false);
    case Node(_, _, properties) => StrippedEntriesWellFormed(env, properties, allow, true);
    case Relationship(_, _, _, _, properties) => StrippedEntriesWellFormed(env, properties, allow, true);
    case Path(nodes, relationships) =>
      StrippedItemsWellFormed(env, nodes, allow);
      StrippedItemsWellFormed(env, relationships, allow);
    case Vector(_, coordinates) => StrippedCoordinates(coordinates, allow);
    case _ =>
  }

  lemma {:induction false} StrippedCoordinates(vs: seq<Value>, allow: Allow)
    requires forall x :: x in vs ==> x.Integer? || x.Real?
    ensures StrippedItems(vs, allow) == vs
    decreases vs
  {
    if vs != [] {
      StrippedCoordinates(vs[1..], allow);
    }
  }

  lemma {:induction false} StrippedItemsWellFormed(env: Env, vs: seq<Value>, allow: Allow)
    requires AllWellFormed(env, vs)
    ensures AllWellFormed(env, StrippedItems(vs, allow))
    ensures (forall v :: v in vs ==> v.Node?) ==> forall v :: v in StrippedItems(vs, allow) ==> v.Node?
    ensures (forall v :: v in vs ==> v.Relationship?) ==> forall v :: v in StrippedItems(vs, allow) ==> v.Relationship?
    decreases vs, 0
  {
    hide WellFormed;
    if vs != [] {
      StrippedWellFormed(env, vs[0], allow);
      StrippedItemsWellFormed(env, vs[1..], allow);
      assert StrippedItems(vs, allow)[1..] == StrippedItems(vs[1..], allow);
      assert vs[0] in vs && forall v :: v in vs[1..] ==> v in vs;
      assert StrippedItems(vs, allow) == [Stripped(vs[0], allow)] + StrippedItems(vs[1..], allow);
    }
  }

  lemma {:induction false} StrippedEntriesWellFormed(env: Env, es: seq<Entry>, allow: Allow, filter: bool)
    requires EntriesWellFormed(env, es)
    ensures EntriesWellFormed(env, StrippedEntries(es, allow, filter))
    decreases es, 0
  {
    hide WellFormed, Stripped;
    if es != [] {
      StrippedWellFormed(env, es[0].value, allow);
      StrippedEntriesWellFormed(env, es[1..], allow, filter);
      if !filter || allow(es[0].key) {
        assert StrippedEntries(es, allow, filter)[1..] == StrippedEntries(es[1..], allow, filter);
      }
    }
  }

  /** Two well-formed values encode alike under a filter exactly when they differ
      in denied properties of graph elements only. */
  lemma {:induction false} SameEncodingIff(env: Env, v: Value, w: Value, allow: Allow)
    requires WellFormed(env, v) && WellFormed(env, w)
    ensures Encode(v, allow) == Encode(w, allow) <==> Stripped(v, allow) == Stripped(w, allow)
  {
    hide Encode, Stripped, WellFormed, Decode;
    FilteredIsStripped(v, allow);
    FilteredIsStripped(w, allow);
    StrippedWellFormed(env, v, allow);
    StrippedWellFormed(env, w, allow);
    var t := Trace([], None);
    RoundTrip(env, t, Stripped(v, allow));
    RoundTrip(env, t, Stripped(w, allow));
  }

  // ---- the round trip --------------------------------------------------------------------

  lemma {:induction false} CheckAllNever(t: DecodeTrace, units: seq<nat>)
    ensures CheckAll(NEVER, t, units).value == Some(())
    decreases units
  {
    if units != [] {
      CheckAllNever(Check(NEVER, t, units[0]).trace, units[1..]);
    }
  }

  lemma OwnedTextNever(t: DecodeTrace, s: string)
    ensures OwnedText(NEVER, t, s).value == Some(s)
  {
    hide Utf8.CopyCalls, Utf8.Encode;
    CheckAllNever(t, Utf8.CopyCalls(Utf8.Encode(s), DecodeUnits));
  }

  lemma TagNames(tag: Tag)
    ensures ParseTag(TagName(tag)) == Some(tag)
  {
  }

  lemma KeysDistinct()
    ensures forall m: Name, n: Name :: Key(m) == Key(n) ==> m == n
  {
  }

  lemma {:induction false} FindAt(fields: seq<Field>, i: nat)
    requires i < |fields| && forall j :: 0 <= j < i ==> fields[j].key != fields[i].key
    ensures Find(fields, fields[i].key) == Some(fields[i].value)
  {
    if i > 0 {
      FindAt(fields[1..], i - 1);
    }
  }

  lemma {:induction false} FindNone(fields: seq<Field>, key: string)
    requires forall f :: f in fields ==> f.key != key
    ensures Find(fields, key) == None
  {
    if fields != [] {
      FindNone(fields[1..], key);
    }
  }

  /** Looking a member up in an object built from distinct members. */
  lemma FindMember(members: seq<Member>, i: nat)
    requires i < |members| && forall j :: 0 <= j < i ==> members[j].name != members[i].name
    ensures Find(Fields(members), Key(members[i].name)) == Some(members[i].value)
  {
    hide Find, Key;
    KeysDistinct();
    FindAt(Fields(members), i);
  }

  lemma NoMember(members: seq<Member>, name: Name)
    requires forall m :: m in members ==> m.name != name
    ensures Find(Fields(members), Key(name)) == None
  {
    hide Find, Key;
    KeysDistinct();
    var fields := Fields(members);
    forall f | f in fields ensures f.key != Key(name) {
      var i :| 0 <= i < |fields| && fields[i] == f;
      assert members[i] in members;
    }
    FindNone(fields, Key(name));
  }

  lemma OnlyMembers(members: seq<Member>, allowed: seq<Name>)
    requires forall m :: m in members ==> m.name in allowed
    ensures OnlyFields(Fields(members), allowed)
  {
  }

  /** An object that starts with its tag and has no stray member reaches the tag's decoder. */
  lemma {:induction false} Dispatch(env: Env, callback: DecodeCallback, t: DecodeTrace, tag: Tag, members: seq<Member>)
    requires members != [] && members[0] == TypeOf(tag)
    requires forall m :: m in members ==> m.name in FieldsOf(tag)
    ensures DecodeObject(env, callback, t, Fields(members)) == DecodeTagged(env, callback, t, tag, Fields(members))
  {
    hide ParseTag, TagName, Key, FieldsOf, OnlyFields, DecodeTagged, DecodeMap, Find;
    TagNames(tag);
    FindMember(members, 0);
    OnlyMembers(members, FieldsOf(tag));
  }

  predicate TextOnly(tag: Tag) {
    tag.TInteger? || tag.TFloat? || tag.TDate? || tag.TLocalTime? || tag.TTime? || tag.TLocalDateTime? || tag.TUuid?
  }

  /** A tagged object with one text member is read by the tag's text decoder. */
  lemma {:induction false} DecodeOfObject(env: Env, t: DecodeTrace, fields: seq<Field>)
    ensures Decode(env, NEVER, t, JObject(fields)) == DecodeObject(env, NEVER, Check(NEVER, t, 1).trace, fields)
  {
    hide DecodeObject;
  }

  lemma {:induction false} DecodeTaggedText(env: Env, t: DecodeTrace, tag: Tag, text: string)
    requires TextOnly(tag)
    ensures Decode(env, NEVER, t, Tagged(tag, text)).value == DecodeText(env, tag, text, None)
  {
    hide DecodeText, Decode, DecodeObject, TagName, Key, Find, Fields;
    var members := TextMembers(tag, text);
    DecodeOfObject(env, t, Fields(members));
    Dispatch(env, NEVER, Check(NEVER, t, 1).trace, tag, members);
    FindMember(members, 1);
    NoMember(members, KZone);
  }

  lemma {:induction false} RoundTripTemporal(env: Env, t: DecodeTrace, v: Value)
    requires WellFormed(env, v)
    requires v.CalendarDate? || v.LocalTime? || v.Time? || v.LocalDateTime?
    ensures Decode(env, NEVER, t, Encode(v, ALL)).value == Some(v)
  {
    hide DateParse, ParseLocalTime, TimeParse, LocalDateTimeParse, Decode, FormatLocalTime;
    match v
    case CalendarDate(d) =>
      var text :| DateParse(text) == Some(d);
      DateCanonical(text);
      DecodeTaggedText(env, t, TDate, d.text);
    case LocalTime(l) =>
      var text :| LocalTimeParse(text) == Some(l);
      LocalTimeCanonical(text);
      DecodeTaggedText(env, t, TLocalTime, l.text);
    case Time(l) =>
      var text :| TimeParse(text) == Some(l);
      TimeCanonical(text);
      DecodeTaggedText(env, t, TTime, l.text);
    case LocalDateTime(l) =>
      var text :| LocalDateTimeParse(text) == Some(l);
      LocalDateTimeCanonical(text);
      DecodeTaggedText(env, t, TLocalDateTime, l.text);
  }

  lemma {:induction false} RoundTripZoned(env: Env, t: DecodeTrace, z: ZonedDateTimeValue)
    requires WellFormed(env, ZonedDateTime(z))
    ensures Decode(env, NEVER, t, Encode(ZonedDateTime(z), ALL)).value == Some(ZonedDateTime(z))
  {
    hide ZonedParse, Decode, DecodeObject, TagName, Key, Find, Fields;
    var text :| ZonedParse(env.zones, text, z.zone) == Some(z);
    ZonedCanonical(env.zones, text, z.zone);
    var members := ZonedMembers(z);
    DecodeOfObject(env, t, Fields(members));
    Dispatch(env, NEVER, Check(NEVER, t, 1).trace, TZonedDateTime, members);
    FindMember(members, 1);
    FindMember(members, 2);
  }

  lemma {:induction false} RoundTripScalar(env: Env, t: DecodeTrace, v: Value)
    requires WellFormed(env, v)
    requires v.Integer? || v.Real? || v.Uuid?
    ensures Decode(env, NEVER, t, Encode(v, ALL)).value == Some(v)
  {
    hide UuidText, ParseUuid, ParseI64, SignedDigits, DecodeObject;
    match v
    case Integer(n) =>
      IntegerText(n);
      DecodeTaggedText(env, t, TInteger, SignedDigits(n));
    case Real(f) =>
      DecodeTaggedText(env, t, TFloat, "NaN");
      DecodeTaggedText(env, t, TFloat, "Infinity");
      DecodeTaggedText(env, t, TFloat, "-Infinity");
    case Uuid(bytes) =>
      UuidRoundTrip(bytes);
      DecodeTaggedText(env, t, TUuid, UuidText(bytes));
  }

  lemma {:induction false} PositionRoundTrip(env: Env, t: DecodeTrace, fs: seq<Float>)
    requires forall f :: f in fs ==> f.Finite?
    ensures DecodePosition(env, NEVER, t, Floats(fs)).value == Some(fs)
    decreases fs
  {
    if fs != [] {
      PositionRoundTrip(env, Check(NEVER, t, 1).trace, fs[1..]);
      assert Floats(fs)[1..] == Floats(fs[1..]);
      assert [fs[0]] + fs[1..] == fs;
    }
  }

  lemma {:induction false} LabelsRoundTrip(t: DecodeTrace, labels: seq<string>)
    ensures DecodeLabels(NEVER, t, Strings(labels)).value == Some(labels)
    decreases labels
  {
    if labels != [] {
      hide OwnedText;
      var start := Check(NEVER, t, 1).trace;
      OwnedTextNever(start, labels[0]);
      LabelsRoundTrip(OwnedText(NEVER, start, labels[0]).trace, labels[1..]);
      assert Strings(labels)[1..] == Strings(labels[1..]);
      assert [labels[0]] + labels[1..] == labels;
    }
  }

  lemma {:induction false} FiniteScanNever(t: DecodeTrace, coordinates: seq<Value>)
    requires forall x :: x in coordinates ==> x.Real? && x.f.Finite?
    ensures FiniteScan(NEVER, t, coordinates).value == Some(())
    decreases coordinates
  {
    if coordinates != [] {
      FiniteScanNever(Check(NEVER, t, 1).trace, coordinates[1..]);
    }
  }

  /** Decoding any well-formed value's encoding returns it: any nesting, a "$type"
      key in a map or among graph properties, integers of either form. */
  lemma {:induction false} RoundTrip(env: Env, t: DecodeTrace, v: Value)
    requires WellFormed(env, v)
    ensures Decode(env, NEVER, t, Encode(v, ALL)).value == Some(v)
    decreases v, 2
  {
    hide DecodeObject, DecodeEach, OwnedText;
    var start := Check(NEVER, t, 1).trace;
    match v
    case Null =>
    case Boolean(_) =>
    case Integer(_) => RoundTripScalar(env, t, v);
    case Real(_) => RoundTripScalar(env, t, v);
    case Str(s) => OwnedTextNever(start, s);
    case List(items) => EachRoundTrips(env, start, items, Any);
    case Uuid(_) => RoundTripScalar(env, t, v);
    case ZonedDateTime(z) => RoundTripZoned(env, t, z);
    case CalendarDate(_) => RoundTripTemporal(env, t, v);
    case LocalTime(_) => RoundTripTemporal(env, t, v);
    case Time(_) => RoundTripTemporal(env, t, v);
    case LocalDateTime(_) => RoundTripTemporal(env, t, v);
    case _ => RoundTripStructure(env, t, v);
  }

  lemma {:induction false} RoundTripStructure(env: Env, t: DecodeTrace, v: Value)
    requires WellFormed(env, v)
    requires v.Map? || v.Node? || v.Relationship? || v.Path? || v.Point? || v.Vector?
    ensures Decode(env, NEVER, t, Encode(v, ALL)).value == Some(v)
    decreases v, 1
  {
    hide DecodeObject, EncodeEntries, EncodeItems, Fields, HasKey;
    var start := Check(NEVER, t, 1).trace;
    match v
    case Map(entries) => MapRoundTrips(env, start, entries);
    case Node(_, _, _) => NodeRoundTrips(env, start, v);
    case Relationship(_, _, _, _, _) => RelationshipRoundTrips(env, start, v);
    case Path(_, _) => PathRoundTrips(env, start, v);
    case Point(p) => PointRoundTrips(env, start, p);
    case Vector(_, _) => VectorRoundTrips(env, start, v);
  }

  lemma {:induction false} EachRoundTrips(env: Env, t: DecodeTrace, vs: seq<Value>, want: Want)
    requires AllWellFormed(env, vs)
    requires forall v :: v in vs ==> Accept(env, want, v) == Some(v)
    ensures DecodeEach(env, NEVER, t, EncodeItems(vs, ALL), want).value == Some(vs)
    decreases vs, 0
  {
    hide WellFormed, Encode, Decode, Accept;
    if vs != [] {
      RoundTrip(env, t, vs[0]);
      var first := Decode(env, NEVER, t, Encode(vs[0], ALL));
      EachRoundTrips(env, first.trace, vs[1..], want);
      assert EncodeItems(vs, ALL)[1..] == EncodeItems(vs[1..], ALL);
      assert [vs[0]] + vs[1..] == vs;
    }
  }

  lemma {:induction false} EntriesRoundTrip(env: Env, t: DecodeTrace, es: seq<Entry>, filter: bool)
    requires EntriesWellFormed(env, es)
    ensures DecodeEntries(env, NEVER, t, EncodeEntries(es, ALL, filter)).value == Some(es)
    decreases es, 0
  {
    hide WellFormed, Encode, Decode, OwnedText;
    if es != [] {
      OwnedTextNever(t, es[0].key);
      var key := OwnedText(NEVER, t, es[0].key);
      RoundTrip(env, key.trace, es[0].value);
      var first := Decode(env, NEVER, key.trace, Encode(es[0].value, ALL));
      EntriesRoundTrip(env, first.trace, es[1..], filter);
      assert EncodeEntries(es, ALL, filter)[1..] == EncodeEntries(es[1..], ALL, filter);
      assert [Entry(es[0].key, es[0].value)] + es[1..] == es;
    }
  }

  /** A member name is present exactly when the map has the key. */
  lemma {:induction false} FindEncoded(es: seq<Entry>, key: string)
    ensures Find(EncodeEntries(es, ALL, false), key).Some? <==> HasKey(es, key)
    decreases es
  {
    hide Encode;
    if es != [] {
      FindEncoded(es[1..], key);
      assert EncodeEntries(es, ALL, false)[1..] == EncodeEntries(es[1..], ALL, false);
      assert HasKey(es, key) <==> es[0].key == key || HasKey(es[1..], key) by {
        assert es == [es[0]] + es[1..];
      }
    }
  }

  lemma {:induction false} MapRoundTrips(env: Env, t: DecodeTrace, es: seq<Entry>)
    requires EntriesWellFormed(env, es)
    ensures DecodeObject(env, NEVER, t, Encode(Map(es), ALL).fields).value == Some(Map(es))
    decreases es, 1
  {
    hide DecodeEntries, EncodeEntries, HasKey, EntriesWellFormed, DecodeTagged, TagName, Key, Fields, Find;
    EntriesRoundTrip(env, t, es, false);
    FindEncoded(es, Key(KType));
    if HasKey(es, Key(KType)) {
      WrappedMap(env, t, EncodeEntries(es, ALL, false));
    }
  }

  lemma {:induction false} WrappedMap(env: Env, t: DecodeTrace, plain: seq<Field>)
    ensures DecodeObject(env, NEVER, t, Fields(MapMembers(JObject(plain)))) == DecodeMap(env, NEVER, t, plain)
  {
    hide DecodeObject, DecodeMap, TagName, Key, Find, Fields;
    var members := MapMembers(JObject(plain));
    Dispatch(env, NEVER, t, TMap, members);
    FindMember(members, 1);
  }

  lemma {:induction false} NodeFound(env: Env, t: DecodeTrace, id: string, labels: seq<string>, properties: seq<Field>)
    ensures var fields := Fields(NodeMembers(id, labels, properties));
      && DecodeObject(env, NEVER, t, fields) == DecodeNode(env, NEVER, t, fields)
      && Find(fields, Key(KElementId)) == Some(JString(id))
      && Find(fields, Key(KLabels)) == Some(JArray(Strings(labels)))
      && Find(fields, Key(KProperties)) == Some(JObject(properties))
  {
    hide DecodeObject, DecodeNode, TagName, Key, Find, Fields, Strings;
    var members := NodeMembers(id, labels, properties);
    Dispatch(env, NEVER, t, TNode, members);
    FindMember(members, 1);
    FindMember(members, 2);
    FindMember(members, 3);
  }

  lemma {:induction false} NodeRoundTrips(env: Env, t: DecodeTrace, v: Value)
    requires v.Node? && WellFormed(env, v)
    ensures DecodeObject(env, NEVER, t, Encode(v, ALL).fields).value == Some(v)
    decreases v, 0
  {
    hide DecodeObject, TagName, Key, Find, Fields, NodeMembers, DecodeEntries, EncodeEntries, DecodeLabels, Strings,
      EntriesWellFormed;
    var properties := EncodeEntries(v.properties, ALL, true);
    var labels := DecodeLabels(NEVER, t, Strings(v.labels));
    LabelsRoundTrip(t, v.labels);
    EntriesRoundTrip(env, labels.trace, v.properties, true);
    NodeFound(env, t, v.elementId, v.labels, properties);
    var fields := Fields(NodeMembers(v.elementId, v.labels, properties));
    assert DecodeProperties(env, NEVER, labels.trace, fields) == DecodeEntries(env, NEVER, labels.trace, properties);
  }

  lemma {:induction false} RelationshipDispatch(
    env: Env, t: DecodeTrace, id: string, kind: string, start: string, end: string, properties: seq<Field>)
    ensures var fields := Fields(RelationshipMembers(id, kind, start, end, properties));
      DecodeObject(env, NEVER, t, fields) == DecodeRelationship(env, NEVER, t, fields)
  {
    hide DecodeObject, DecodeRelationship, TagName, Key, Find, Fields;
    Dispatch(env, NEVER, t, TRelationship, RelationshipMembers(id, kind, start, end, properties));
  }

  lemma {:induction false} RelationshipFound(
    env: Env, t: DecodeTrace, id: string, kind: string, start: string, end: string, properties: seq<Field>)
    ensures var fields := Fields(RelationshipMembers(id, kind, start, end, properties));
      && DecodeObject(env, NEVER, t, fields) == DecodeRelationship(env, NEVER, t, fields)
      && Find(fields, Key(KElementId)) == Some(JString(id))
      && Find(fields, Key(KRelationshipType)) == Some(JString(kind))
      && Find(fields, Key(KStart)) == Some(JString(start)) && Find(fields, Key(KEnd)) == Some(JString(end))
      && Find(fields, Key(KProperties)) == Some(JObject(properties))
  {
    hide DecodeObject, DecodeTagged, DecodeRelationship, TagName, Key, Find, Fields;
    RelationshipDispatch(env, t, id, kind, start, end, properties);
    var members := RelationshipMembers(id, kind, start, end, properties);
    FindMember(members, 1);
    FindMember(members, 2);
    FindMember(members, 3);
    FindMember(members, 4);
    FindMember(members, 5);
  }

  lemma {:induction false} RelationshipRoundTrips(env: Env, t: DecodeTrace, v: Value)
    requires v.Relationship? && WellFormed(env, v)
    ensures DecodeObject(env, NEVER, t, Encode(v, ALL).fields).value == Some(v)
    decreases v, 0
  {
    hide DecodeObject, TagName, Key, Find, Fields, RelationshipMembers, DecodeEntries, EncodeEntries, EntriesWellFormed;
    var properties := EncodeEntries(v.properties, ALL, true);
    EntriesRoundTrip(env, t, v.properties, true);
    RelationshipFound(env, t, v.elementId, v.relationshipType, v.start, v.end, properties);
  }

  lemma {:induction false} PathFound(env: Env, t: DecodeTrace, nodes: seq<Json>, relationships: seq<Json>)
    ensures var fields := Fields(PathMembers(nodes, relationships));
      && DecodeObject(env, NEVER, t, fields) == DecodePath(env, NEVER, t, fields)
      && Find(fields, Key(KNodes)) == Some(JArray(nodes))
      && Find(fields, Key(KRelationships)) == Some(JArray(relationships))
  {
    hide DecodeObject, DecodePath, TagName, Key, Find, Fields;
    var members := PathMembers(nodes, relationships);
    Dispatch(env, NEVER, t, TPath, members);
    FindMember(members, 1);
    FindMember(members, 2);
  }

  lemma {:induction false} PathRoundTrips(env: Env, t: DecodeTrace, v: Value)
    requires v.Path? && WellFormed(env, v)
    ensures DecodeObject(env, NEVER, t, Encode(v, ALL).fields).value == Some(v)
    decreases v, 0
  {
    hide DecodeObject, TagName, Key, Find, Fields, PathMembers, DecodeEach, EncodeItems, AllWellFormed;
    EachRoundTrips(env, t, v.nodes, Nodes);
    var nodes := DecodeEach(env, NEVER, t, EncodeItems(v.nodes, ALL), Nodes);
    EachRoundTrips(env, nodes.trace, v.relationships, Relationships);
    var members := PathMembers(EncodeItems(v.nodes, ALL), EncodeItems(v.relationships, ALL));
    PathFound(env, t, EncodeItems(v.nodes, ALL), EncodeItems(v.relationships, ALL));
    assert DecodePathRest(env, NEVER, nodes.trace, Fields(members), v.nodes).value == Some(v);
    assert DecodePath(env, NEVER, t, Fields(members)).value == Some(v);
  }

  lemma {:induction false} PointFound(env: Env, t: DecodeTrace, p: PointValue)
    ensures var fields := Fields(PointMembers(p));
      && DecodeObject(env, NEVER, t, fields) == DecodePoint(env, NEVER, t, fields)
      && Find(fields, Key(KCoordinates)) == Some(JArray(Floats(p.position)))
      && Find(fields, Key(KCrs)) == Some(JString(p.crs))
  {
    hide DecodeObject, DecodePoint, TagName, Key, Find, Fields, Floats;
    var members := PointMembers(p);
    Dispatch(env, NEVER, t, TPoint, members);
    FindMember(members, 1);
    FindMember(members, 2);
  }

  lemma {:induction false} PointRoundTrips(env: Env, t: DecodeTrace, p: PointValue)
    requires WellFormed(env, Point(p))
    ensures DecodeObject(env, NEVER, t, Encode(Point(p), ALL).fields).value == Some(Point(p))
  {
    hide DecodeObject, TagName, Key, Find, Fields, PointMembers, DecodePosition, Floats, NewPoint;
    PositionIsFinite(env, p);
    PositionRoundTrip(env, t, p.position);
    PointFound(env, t, p);
  }

  lemma PositionIsFinite(env: Env, p: PointValue)
    requires NewPoint(env, p.crs, p.position) == Some(p)
    ensures forall f :: f in p.position ==> f.Finite?
  {
  }

  lemma {:induction false} VectorFound(env: Env, t: DecodeTrace, c: CoordinateType, values: seq<Json>)
    ensures var fields := Fields(VectorMembers(c, values));
      && DecodeObject(env, NEVER, t, fields) == DecodeVector(env, NEVER, t, fields)
      && Find(fields, Key(KCoordinateType)) == Some(JString(CoordinateTypeName(c)))
      && Find(fields, Key(KDimension)) == Some(JInt(|values|)) && Find(fields, Key(KValues)) == Some(JArray(values))
  {
    hide DecodeObject, DecodeVector, TagName, Key, Find, Fields, CoordinateTypeName;
    var members := VectorMembers(c, values);
    Dispatch(env, NEVER, t, TVector, members);
    FindMember(members, 1);
    FindMember(members, 2);
    FindMember(members, 3);
  }

  lemma {:induction false} VectorRoundTrips(env: Env, t: DecodeTrace, v: Value)
    requires v.Vector? && WellFormed(env, v)
    ensures DecodeObject(env, NEVER, t, Encode(v, ALL).fields).value == Some(v)
    decreases v, 0
  {
    hide DecodeObject, TagName, Key, Find, Fields, VectorMembers, DecodeEach, EncodeItems, AllWellFormed,
      CoordinateTypeName, ParseCoordinateType, AsCoordinate, FiniteScan;
    CoordinateTypeNames(v.coordinateType);
    EachRoundTrips(env, t, v.coordinates, Coordinates(v.coordinateType));
    var decoded := DecodeEach(env, NEVER, t, EncodeItems(v.coordinates, ALL), Coordinates(v.coordinateType));
    if v.coordinateType.F32? || v.coordinateType.F64? {
      FloatingCoordinates(env, v.coordinateType, v.coordinates);
      FiniteScanNever(decoded.trace, v.coordinates);
    }
    VectorFound(env, t, v.coordinateType, EncodeItems(v.coordinates, ALL));
  }

  lemma FloatingCoordinates(env: Env, c: CoordinateType, coordinates: seq<Value>)
    requires c.F32? || c.F64?
    requires forall x :: x in coordinates ==> AsCoordinate(env, c, x) == Some(x)
    ensures forall x :: x in coordinates ==> x.Real? && x.f.Finite?
  {
  }

  // ---- parameters ----------------------------------------------------------------------

  lemma {:induction false} CheckedParameterNever(t: DecodeTrace, v: Value)
    ensures CheckedParameter(NEVER, t, v).value == Some(IsParameter(v))
    decreases v, 1
  {
    var start := Check(NEVER, t, 1).trace;
    match v
    case List(items) => CheckedParametersNever(start, items);
    case Map(entries) => CheckedEntriesNever(start, entries);
    case _ =>
  }

  lemma {:induction false} CheckedParametersNever(t: DecodeTrace, vs: seq<Value>)
    ensures CheckedParameters(NEVER, t, vs).value == Some(AllParameters(vs))
    decreases vs, 0
  {
    if vs != [] {
      CheckedParameterNever(t, vs[0]);
      CheckedParametersNever(CheckedParameter(NEVER, t, vs[0]).trace, vs[1..]);
    }
  }

  lemma {:induction false} CheckedEntriesNever(t: DecodeTrace, es: seq<Entry>)
    ensures CheckedEntries(NEVER, t, es).value == Some(EntriesAreParameters(es))
    decreases es, 0
  {
    if es != [] {
      CheckedParameterNever(t, es[0].value);
      CheckedEntriesNever(CheckedParameter(NEVER, t, es[0].value).trace, es[1..]);
    }
  }

  /** An encoded parameter object is accepted exactly when no value in it holds a
      node, relationship or path, and then it is returned unchanged. */
  lemma {:induction false} ParametersRoundTrip(env: Env, t: DecodeTrace, es: seq<Entry>)
    requires EntriesWellFormed(env, es)
    ensures DecodeParameters(env, NEVER, t, JObject(EncodeEntries(es, ALL, false))).value ==
      if EntriesAreParameters(es) then Some(es) else None
  {
    hide EncodeEntries, DecodeParameterFields;
    ParameterFieldsRoundTrip(env, Check(NEVER, t, 0).trace, es);
  }

  lemma {:induction false} ParameterFieldsRoundTrip(env: Env, t: DecodeTrace, es: seq<Entry>)
    requires EntriesWellFormed(env, es)
    ensures DecodeParameterFields(env, NEVER, t, EncodeEntries(es, ALL, false)).value ==
      if EntriesAreParameters(es) then Some(es) else None
    decreases es
  {
    hide Encode, Decode, WellFormed, IsParameter, CheckedParameter, OwnedText;
    if es != [] {
      var fields := EncodeEntries(es, ALL, false);
      RoundTrip(env, t, es[0].value);
      var value := Decode(env, NEVER, t, fields[0].value);
      CheckedParameterNever(value.trace, es[0].value);
      var vetted := CheckedParameter(NEVER, value.trace, es[0].value);
      OwnedTextNever(vetted.trace, es[0].key);
      var first := DecodeParameter(env, NEVER, t, fields[0]);
      assert fields[1..] == EncodeEntries(es[1..], ALL, false);
      assert first.value == if IsParameter(es[0].value) then Some(es[0]) else None;
      hide DecodeParameter;
      ParameterFieldsRoundTrip(env, first.trace, es[1..]);
      assert [es[0]] + es[1..] == es;
    }
  }
}
