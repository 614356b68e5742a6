/** The encoder with its callback: what it announces, and what interrupting it means. */
module JsonEncoding {
  import opened Wrappers
  import opened Calendar
  import opened Temporal
  import opened Checkpoint
  import opened Values
  import opened Json
  import Utf8

  /** One call of the encoder's callback. */
  datatype Call = Call(work: nat, bytes: nat)

  type EncodeCallback = Callback<Call>
  type EncodeTrace = Trace<Call>
  type EncodeRun<+T> = Run<Call, T>

  const ONE := Call(1, 0)

  function CallOf(work: nat, bytes: nat): Call {
    Call(work, bytes)
  }

  // ---- the encoder, step by step ---------------------------------------------------------

  function TextCalls(s: string): seq<Call> {
    Utf8.CopyCalls(Utf8.Encode(s), CallOf)
  }

  /** `checked_text`. */
  function CheckedText(callback: EncodeCallback, t: EncodeTrace, s: string): EncodeRun<string> {
    var checks := CheckAll(callback, t, TextCalls(s));
    Run(if checks.value.Some? then Some(s) else None, checks.trace)
  }

  function CheckedTagged(callback: EncodeCallback, t: EncodeTrace, tag: Tag, text: string): EncodeRun<Json> {
    var copied := CheckedText(callback, t, text);
    if copied.value.None? then Run(None, copied.trace) else Run(Some(Tagged(tag, copied.value.value)), copied.trace)
  }

  /** `encode_json_filtered_checked`: an announcement, then the value. */
  function CheckedEncode(callback: EncodeCallback, t: EncodeTrace, v: Value, allow: Allow): EncodeRun<Json>
    decreases v, 2
  {
    var start := Check(callback, t, ONE);
    if start.value.None? then Run(None, start.trace) else CheckedBody(callback, start.trace, v, allow)
  }

  /** The value itself; a path encodes its nodes and relationships by this alone. */
  function CheckedBody(callback: EncodeCallback, t: EncodeTrace, v: Value, allow: Allow): EncodeRun<Json>
    decreases v, 1
  {
    match v
    case Null => Run(Some(JNull), t)
    case Boolean(truth) => Run(Some(JBool(truth)), t)
    case Integer(n) =>
      if -JS_SAFE_INTEGER <= n <= JS_SAFE_INTEGER then Run(Some(JInt(n)), t)
      else CheckedTagged(callback, t, TInteger, SignedDigits(n))
    case Real(f) =>
      (match f
       case Finite(_, _) => Run(Some(JFloat(f)), t)
       case NaN => CheckedTagged(callback, t, TFloat, "NaN")
       case Infinity => CheckedTagged(callback, t, TFloat, "Infinity")
       case NegInfinity => CheckedTagged(callback, t, TFloat, "-Infinity"))
    case Str(s) =>
      var copied := CheckedText(callback, t, s);
      if copied.value.None? then Run(None, copied.trace) else Run(Some(JString(copied.value.value)), copied.trace)
    case List(items) =>
      var encoded := CheckedItems(callback, t, items, allow, false);
      if encoded.value.None? then Run(None, encoded.trace) else Run(Some(JArray(encoded.value.value)), encoded.trace)
    case Map(entries) =>
      var encoded := CheckedEntries(callback, t, entries, allow, false);
      if encoded.value.None? then Run(None, encoded.trace) else
      var plain := JObject(encoded.value.value);
      Run(Some(if HasKey(entries, Key(KType)) then JObject(Fields(MapMembers(plain))) else plain), encoded.trace)
    case Node(id, labels, properties) => CheckedNode(callback, t, id, labels, properties, allow)
    case Relationship(id, kind, start, end, properties) =>
      CheckedRelationship(callback, t, id, kind, start, end, properties, allow)
    case Path(nodes, relationships) =>
      var first := CheckedItems(callback, t, nodes, allow, true);
      if first.value.None? then Run(None, first.trace) else
      var second := CheckedItems(callback, first.trace, relationships, allow, true);
      if second.value.None? then Run(None, second.trace)
      else Run(Some(JObject(Fields(PathMembers(first.value.value, second.value.value)))), second.trace)
    case CalendarDate(d) => CheckedTagged(callback, t, TDate, d.text)
    case LocalTime(l) => CheckedTagged(callback, t, TLocalTime, l.text)
    case Time(l) => CheckedTagged(callback, t, TTime, l.text)
    case LocalDateTime(l) => CheckedTagged(callback, t, TLocalDateTime, l.text)
    case ZonedDateTime(z) =>
      var first := CheckedText(callback, t, z.text);
      if first.value.None? then Run(None, first.trace) else
      var second := CheckedText(callback, first.trace, z.zone);
      if second.value.None? then Run(None, second.trace) else Run(Some(JObject(Fields(ZonedMembers(z)))), second.trace)
    case Duration(text) => CheckedTagged(callback, t, TDuration, text)
    case Point(p) => Run(Some(JObject(Fields(PointMembers(p)))), t)
    case Vector(c, coordinates) =>
      var encoded := CheckedItems(callback, t, coordinates, allow, false);
      if encoded.value.None? then Run(None, encoded.trace)
      else Run(Some(JObject(Fields(VectorMembers(c, encoded.value.value)))), encoded.trace)
    case Uuid(bytes) => CheckedTagged(callback, t, TUuid, UuidText(bytes))
  }

  /** The elements of a list, or the bare graph elements of a path. */
  function CheckedItems(
    callback: EncodeCallback, t: EncodeTrace, vs: seq<Value>, allow: Allow, bare: bool): EncodeRun<seq<Json>>
    decreases vs, 0
  {
    if vs == [] then Run(Some([]), t) else
    var first := if bare then CheckedBody(callback, t, vs[0], allow) else CheckedEncode(callback, t, vs[0], allow);
    if first.value.None? then Run(None, first.trace) else
    var rest := CheckedItems(callback, first.trace, vs[1..], allow, bare);
    if rest.value.None? then Run(None, rest.trace) else Run(Some([first.value.value] + rest.value.value), rest.trace)
  }

  /** `map_json_checked`: every entry is announced, a denied one goes no further. */
  function CheckedEntries(
    callback: EncodeCallback, t: EncodeTrace, es: seq<Entry>, allow: Allow, filter: bool): EncodeRun<seq<Field>>
    decreases es, 0
  {
    if es == [] then Run(Some([]), t) else
    var start := Check(callback, t, ONE);
    if start.value.None? then Run(None, start.trace) else
    if filter && !allow(es[0].key) then CheckedEntries(callback, start.trace, es[1..], allow, filter) else
    var key := CheckedText(callback, start.trace, es[0].key);
    if key.value.None? then Run(None, key.trace) else
    var value := CheckedEncode(callback, key.trace, es[0].value, allow);
    if value.value.None? then Run(None, value.trace) else
    var rest := CheckedEntries(callback, value.trace, es[1..], allow, filter);
    if rest.value.None? then Run(None, rest.trace)
    else Run(Some([Field(key.value.value, value.value.value)] + rest.value.value), rest.trace)
  }

  function CheckedTexts(callback: EncodeCallback, t: EncodeTrace, texts: seq<string>): EncodeRun<seq<Json>>
    decreases texts
  {
    if texts == [] then Run(Some([]), t) else
    var first := CheckedText(callback, t, texts[0]);
    if first.value.None? then Run(None, first.trace) else
    var rest := CheckedTexts(callback, first.trace, texts[1..]);
    if rest.value.None? then Run(None, rest.trace)
      else Run(Some([JString(first.value.value)] + rest.value.value), rest.trace)
  }

  /** `graph_json_checked` up to the properties. */
  function CheckedGraph(
    callback: EncodeCallback, t: EncodeTrace, id: string, properties: seq<Entry>, allow: Allow): EncodeRun<seq<Field>>
    decreases properties, 1
  {
    var start := Check(callback, t, ONE);
    if start.value.None? then Run(None, start.trace) else
    var copied := CheckedText(callback, start.trace, id);
    if copied.value.None? then Run(None, copied.trace)
      else CheckedEntries(callback, copied.trace, properties, allow, true)
  }

  /** The labels come before the identifier and the properties. */
  function CheckedNode(
    callback: EncodeCallback, t: EncodeTrace, id: string, labels: seq<string>, properties: seq<Entry>,
      allow: Allow): EncodeRun<Json>
    decreases properties, 2
  {
    var texts := CheckedTexts(callback, t, labels);
    if texts.value.None? then Run(None, texts.trace) else
    var graph := CheckedGraph(callback, texts.trace, id, properties, allow);
    if graph.value.None? then Run(None, graph.trace)
    else Run(Some(JObject(Fields(NodeMembers(id, labels, graph.value.value)))), graph.trace)
  }

  function CheckedRelationship(
    callback: EncodeCallback, t: EncodeTrace, id: string, kind: string, start: string, end: string,
    properties: seq<Entry>, allow: Allow): EncodeRun<Json>
    decreases properties, 2
  {
    var texts := CheckedTexts(callback, t, [kind, start, end]);
    if texts.value.None? then Run(None, texts.trace) else
    var graph := CheckedGraph(callback, texts.trace, id, properties, allow);
    if graph.value.None? then Run(None, graph.trace)
    else Run(Some(JObject(Fields(RelationshipMembers(id, kind, start, end, graph.value.value)))), graph.trace)
  }

  // ---- what it announces -------------------------------------------------------------------

  function Calls(v: Value, allow: Allow): seq<Call>
    decreases v, 2
  {
    [ONE] + BodyCalls(v, allow)
  }

  function BodyCalls(v: Value, allow: Allow): seq<Call>
    decreases v, 1
  {
    match v
    case Integer(n) => if -JS_SAFE_INTEGER <= n <= JS_SAFE_INTEGER then [] else TextCalls(SignedDigits(n))
    case Real(f) =>
      (match f
       case Finite(_, _) => []
       case NaN => TextCalls("NaN")
       case Infinity => TextCalls("Infinity")
       case NegInfinity => TextCalls("-Infinity"))
    case Str(s) => TextCalls(s)
    case List(items) => ItemCalls(items, allow, false)
    case Map(entries) => EntryCalls(entries, allow, false)
    case Node(id, labels, properties) => LabelCalls(labels)
      + ([ONE] + (TextCalls(id) + EntryCalls(properties, allow, true)))
    case Relationship(id, kind, start, end, properties) =>
      LabelCalls([kind, start, end]) + ([ONE] + (TextCalls(id) + EntryCalls(properties, allow, true)))
    case Path(nodes, relationships) => ItemCalls(nodes, allow, true) + ItemCalls(relationships, allow, true)
    case CalendarDate(d) => TextCalls(d.text)
    case LocalTime(l) => TextCalls(l.text)
    case Time(l) => TextCalls(l.text)
    case LocalDateTime(l) => TextCalls(l.text)
    case ZonedDateTime(z) => TextCalls(z.text) + TextCalls(z.zone)
    case Duration(text) => TextCalls(text)
    case Vector(_, coordinates) => ItemCalls(coordinates, allow, false)
    case Uuid(bytes) => TextCalls(UuidText(bytes))
    case _ => []
  }

  function ItemCalls(vs: seq<Value>, allow: Allow, bare: bool): seq<Call>
    decreases vs, 0
  {
    if vs == [] then []
    else (if bare then BodyCalls(vs[0], allow) else Calls(vs[0], allow)) + ItemCalls(vs[1..], allow, bare)
  }

  function EntryCalls(es: seq<Entry>, allow: Allow, filter: bool): seq<Call>
    decreases es, 0
  {
    if es == [] then []
    else if filter && !allow(es[0].key) then [ONE] + EntryCalls(es[1..], allow, filter)
    else [ONE] + (TextCalls(es[0].key) + (Calls(es[0].value, allow) + EntryCalls(es[1..], allow, filter)))
  }

  function LabelCalls(texts: seq<string>): seq<Call> {
    if texts == [] then [] else TextCalls(texts[0]) + LabelCalls(texts[1..])
  }

  // ---- the two agree ---------------------------------------------------------------------------

  /** A result that is due once all the calls went through. */
  function Due<T>(callback: EncodeCallback, t: EncodeTrace, calls: seq<Call>, value: T): EncodeRun<T> {
    var checks := CheckAll(callback, t, calls);
    Run(if checks.value.Some? then Some(value) else None, checks.trace)
  }

  /** One due result after another. */
  lemma DueThen<T, U>(callback: EncodeCallback, t: EncodeTrace, a: seq<Call>, x: T, b: seq<Call>, y: U)
    ensures var first := Due(callback, t, a, x);
      Due(callback, t, a + b, y) == if first.value.None? then Run(None, first.trace)
        else Due(callback, first.trace, b, y)
    ensures Due(callback, t, a, x).value.Some? ==> Due(callback, t, a, x).value == Some(x)
  {
    hide CheckAll;
    Utf8.CheckAllAppend(callback, t, a, b);
  }

  lemma DueNow<T>(callback: EncodeCallback, t: EncodeTrace, value: T)
    ensures Due(callback, t, [], value) == Run(Some(value), t)
  {
  }

  lemma DueStart<T>(callback: EncodeCallback, t: EncodeTrace, calls: seq<Call>, value: T)
    ensures var start := Check(callback, t, ONE);
      Due(callback, t, [ONE] + calls, value) ==
        if start.value.None? then Run(None, start.trace) else Due(callback, start.trace, calls, value)
  {
    hide CheckAll, Check;
    Utf8.CheckAllOne(callback, t, ONE);
    DueThen(callback, t, [ONE], (), calls, value);
  }

  /** Every call the checked encoder makes is one of the announced ones, in order, and
      its result is the plain encoder's. */
  lemma {:induction false} EncodeIsDue(callback: EncodeCallback, t: EncodeTrace, v: Value, allow: Allow)
    ensures CheckedEncode(callback, t, v, allow) == Due(callback, t, Calls(v, allow), Encode(v, allow))
    decreases v, 2
  {
    hide CheckAll, Check, CheckedBody, BodyCalls, Encode;
    DueStart(callback, t, BodyCalls(v, allow), Encode(v, allow));
    var start := Check(callback, t, ONE);
    BodyIsDue(callback, start.trace, v, allow);
  }

  lemma {:induction false} BodyIsDue(callback: EncodeCallback, t: EncodeTrace, v: Value, allow: Allow)
    ensures CheckedBody(callback, t, v, allow) == Due(callback, t, BodyCalls(v, allow), Encode(v, allow))
    decreases v, 1
  {
    hide CheckAll, TextCalls, Fields, HasKey, CheckedNode, CheckedRelationship, CheckedEntries, CheckedItems;
    DueNow(callback, t, Encode(v, allow));
    match v
    case List(items) => ItemsAreDue(callback, t, items, allow, false);
    case Map(entries) => EntriesAreDue(callback, t, entries, allow, false);
    case Node(_, _, _) => NodeIsDue(callback, t, v, allow);
    case Relationship(_, _, _, _, _) => RelationshipIsDue(callback, t, v, allow);
    case Path(_, _) => PathIsDue(callback, t, v, allow);
    case ZonedDateTime(z) => DueThen(callback, t, TextCalls(z.text), z.text, TextCalls(z.zone), Encode(v, allow));
    case Vector(_, coordinates) => ItemsAreDue(callback, t, coordinates, allow, false);
    case _ =>
  }

  lemma {:induction false} PathIsDue(callback: EncodeCallback, t: EncodeTrace, v: Value, allow: Allow)
    requires v.Path?
    ensures CheckedBody(callback, t, v, allow) == Due(callback, t, BodyCalls(v, allow), Encode(v, allow))
    decreases v, 0
  {
    hide CheckAll, Fields, ItemCalls, EncodeItems, CheckedItems;
    ItemsAreDue(callback, t, v.nodes, allow, true);
    var first := CheckedItems(callback, t, v.nodes, allow, true);
    ItemsAreDue(callback, first.trace, v.relationships, allow, true);
    DueThen(callback, t, ItemCalls(v.nodes, allow, true), EncodeItems(v.nodes, allow),
      ItemCalls(v.relationships, allow, true), Encode(v, allow));
  }

  lemma {:induction false} ItemsAreDue(
    callback: EncodeCallback, t: EncodeTrace, vs: seq<Value>, allow: Allow, bare: bool)
    ensures CheckedItems(callback, t, vs, allow, bare) ==
      Due(callback, t, ItemCalls(vs, allow, bare), EncodeItems(vs, allow))
    decreases vs, 0
  {
    hide CheckAll, CheckedBody, CheckedEncode, Calls, BodyCalls, Encode;
    if vs == [] {
      DueNow(callback, t, EncodeItems(vs, allow));
    } else {
      var calls := if bare then BodyCalls(vs[0], allow) else Calls(vs[0], allow);
      if bare {
        BodyIsDue(callback, t, vs[0], allow);
      } else {
        EncodeIsDue(callback, t, vs[0], allow);
      }
      var first := Due(callback, t, calls, Encode(vs[0], allow));
      ItemsAreDue(callback, first.trace, vs[1..], allow, bare);
      DueThen(callback, t, calls, Encode(vs[0], allow), ItemCalls(vs[1..], allow, bare), EncodeItems(vs, allow));
    }
  }

  lemma {:induction false} EntriesAreDue(
    callback: EncodeCallback, t: EncodeTrace, es: seq<Entry>, allow: Allow, filter: bool)
    ensures CheckedEntries(callback, t, es, allow, filter) ==
      Due(callback, t, EntryCalls(es, allow, filter), EncodeEntries(es, allow, filter))
    decreases es, 0
  {
    hide CheckAll, Check, CheckedEncode, Calls, Encode, TextCalls;
    var all := EncodeEntries(es, allow, filter);
    if es == [] {
      DueNow(callback, t, all);
    } else {
      var start := Check(callback, t, ONE).trace;
      if filter && !allow(es[0].key) {
        EntriesAreDue(callback, start, es[1..], allow, filter);
        DueStart(callback, t, EntryCalls(es[1..], allow, filter), all);
      } else {
        EntryIsDue(callback, start, es, allow, filter);
        DueStart(callback, t, TextCalls(es[0].key) + (Calls(es[0].value, allow) + EntryCalls(es[1..], allow, filter)),
          all);
      }
    }
  }

  /** An entry that is kept, from its key on. */
  lemma {:induction false} EntryIsDue(
    callback: EncodeCallback, t: EncodeTrace, es: seq<Entry>, allow: Allow, filter: bool)
    requires es != [] && !(filter && !allow(es[0].key))
    ensures
      var key := CheckedText(callback, t, es[0].key);
      var value := CheckedEncode(callback, key.trace, es[0].value, allow);
      var rest := CheckedEntries(callback, value.trace, es[1..], allow, filter);
      Due(callback, t, TextCalls(es[0].key) + (Calls(es[0].value, allow) + EntryCalls(es[1..], allow, filter)),
        EncodeEntries(es, allow, filter)) ==
        if key.value.None? then Run(None, key.trace) else
        if value.value.None? then Run(None, value.trace) else
        if rest.value.None? then Run(None, rest.trace)
        else Run(Some([Field(key.value.value, value.value.value)] + rest.value.value), rest.trace)
    decreases es, -1
  {
    hide CheckAll, CheckedEncode, Calls, Encode, TextCalls, EntryCalls, CheckedEntries;
    var all := EncodeEntries(es, allow, filter);
    var value, others := Calls(es[0].value, allow), EntryCalls(es[1..], allow, filter);
    var key := CheckedText(callback, t, es[0].key);
    EncodeIsDue(callback, key.trace, es[0].value, allow);
    var encoded := CheckedEncode(callback, key.trace, es[0].value, allow);
    EntriesAreDue(callback, encoded.trace, es[1..], allow, filter);
    DueThen(callback, t, TextCalls(es[0].key), es[0].key, value + others, all);
    DueThen(callback, key.trace, value, Encode(es[0].value, allow), others, all);
  }

  lemma {:induction false} TextsAreDue(callback: EncodeCallback, t: EncodeTrace, texts: seq<string>)
    ensures CheckedTexts(callback, t, texts) == Due(callback, t, LabelCalls(texts), Strings(texts))
    decreases texts
  {
    hide CheckAll, TextCalls;
    if texts == [] {
      DueNow(callback, t, Strings(texts));
    } else {
      var first := CheckedText(callback, t, texts[0]);
      TextsAreDue(callback, first.trace, texts[1..]);
      DueThen(callback, t, TextCalls(texts[0]), texts[0], LabelCalls(texts[1..]), Strings(texts));
    }
  }

  lemma {:induction false} GraphIsDue(
    callback: EncodeCallback, t: EncodeTrace, id: string, properties: seq<Entry>, allow: Allow)
    ensures CheckedGraph(callback, t, id, properties, allow) ==
      Due(callback, t, [ONE] + (TextCalls(id) + EntryCalls(properties, allow, true)),
        EncodeEntries(properties, allow, true))
    decreases properties, 1
  {
    hide CheckAll, Check, TextCalls, EntryCalls, EncodeEntries, CheckedEntries;
    var all, calls := EncodeEntries(properties, allow, true), EntryCalls(properties, allow, true);
    var start := Check(callback, t, ONE).trace;
    DueStart(callback, t, TextCalls(id) + calls, all);
    DueThen(callback, start, TextCalls(id), id, calls, all);
    var copied := CheckedText(callback, start, id);
    EntriesAreDue(callback, copied.trace, properties, allow, true);
  }

  /** The texts of a graph element, then its identifier and properties. */
  lemma {:induction false} ElementIsDue(
    callback: EncodeCallback, t: EncodeTrace, texts: seq<string>, id: string, properties: seq<Entry>, allow: Allow,
      value: Json)
    ensures var first := CheckedTexts(callback, t, texts);
      var graph := CheckedGraph(callback, first.trace, id, properties, allow);
      && Due(callback, t, LabelCalls(texts) + ([ONE] + (TextCalls(id) + EntryCalls(properties, allow, true))), value) ==
        (if first.value.None? then Run(None, first.trace) else
         if graph.value.None? then Run(None, graph.trace) else Run(Some(value), graph.trace))
      && (graph.value.Some? ==> graph.value.value == EncodeEntries(properties, allow, true))
    decreases properties, 2
  {
    hide CheckAll, TextCalls, EntryCalls, EncodeEntries, CheckedGraph, CheckedTexts, LabelCalls;
    var calls := [ONE] + (TextCalls(id) + EntryCalls(properties, allow, true));
    TextsAreDue(callback, t, texts);
    var first := CheckedTexts(callback, t, texts);
    GraphIsDue(callback, first.trace, id, properties, allow);
    DueThen(callback, t, LabelCalls(texts), Strings(texts), calls, value);
  }

  lemma {:induction false} NodeIsDue(callback: EncodeCallback, t: EncodeTrace, v: Value, allow: Allow)
    requires v.Node?
    ensures CheckedBody(callback, t, v, allow) == Due(callback, t, BodyCalls(v, allow), Encode(v, allow))
    decreases v, 0
  {
    hide Due, CheckAll, TextCalls, EntryCalls, EncodeEntries, CheckedGraph, CheckedTexts, LabelCalls, Fields,
      NodeMembers;
    ElementIsDue(callback, t, v.labels, v.elementId, v.properties, allow, Encode(v, allow));
  }

  lemma {:induction false} RelationshipIsDue(callback: EncodeCallback, t: EncodeTrace, v: Value, allow: Allow)
    requires v.Relationship?
    ensures CheckedBody(callback, t, v, allow) == Due(callback, t, BodyCalls(v, allow), Encode(v, allow))
    decreases v, 0
  {
    hide Due, CheckAll, TextCalls, EntryCalls, EncodeEntries, CheckedGraph, CheckedTexts, LabelCalls, Fields,
      RelationshipMembers;
    ElementIsDue(callback, t, [v.relationshipType, v.start, v.end], v.elementId, v.properties, allow, Encode(v, allow));
  }

  // ---- what a caller sees ----------------------------------------------------------------------------

  const START: EncodeTrace := Trace([], None)

  /** `encode_json_filtered_checked`: with a callback that never fails, the plain
      encoding after exactly the announced calls; otherwise exactly its first error, and
      no call after it. */
  lemma {:induction false} EncodeChecked(callback: EncodeCallback, v: Value, allow: Allow)
    ensures var part, calls := CheckedEncode(callback, START, v, allow), Calls(v, allow);
      && ((forall n :: 0 < n <= |calls| ==> callback(calls[..n]).None?) ==>
        WithCheckpoint(part) == Done(Encode(v, allow)) && part.trace.calls == calls)
      && (forall n: nat :: FirstFailure(callback, calls, n) ==>
        WithCheckpoint(part) == Physical(callback(calls[..n]).value) && part.trace.calls == calls[..n])
  {
    hide CheckedEncode, Calls, Encode, Cut, CheckAll;
    var calls, value := Calls(v, allow), Encode(v, allow);
    EncodeIsDue(callback, START, v, allow);
    SilentCalls(START, calls);
    CutCheckAll(callback, START, calls);
    CutMap(callback, START, CheckAll(Silent(), START, calls), CheckAll(callback, START, calls),
      Run(Some(value), Trace(calls, None)), Due(callback, START, calls, value));
    CutOutcome(callback, Run(Some(value), Trace(calls, None)), Due(callback, START, calls, value));
  }

  lemma {:induction false} SilentCalls(t: EncodeTrace, calls: seq<Call>)
    ensures CheckAll(Silent(), t, calls) == Run(Some(()), Trace(t.calls + calls, t.physical))
    decreases calls
  {
    if calls == [] {
      assert t.calls + calls == t.calls;
    } else {
      var first := Check(Silent(), t, calls[0]);
      SilentCalls(first.trace, calls[1..]);
      assert t.calls + [calls[0]] + calls[1..] == t.calls + calls;
    }
  }

  /** The number of bytes announced for a text is its length, so an encoder interrupted
      by a byte budget has copied no more than that budget allows. */
  lemma {:induction false} TextBytes(s: string)
    ensures BytesOf(TextCalls(s)) == |Utf8.Encode(s)|
  {
    Utf8.EncodedIsChunky(s);
    var text := Utf8.Encode(s);
    Utf8.PiecesCoverText(text, 0);
    var sizes := Utf8.PieceSizes(text, 0);
    hide Utf8.PieceSizes, Utf8.Encode;
    AnnouncedBytes(sizes);
    var around := if |text| >= Utf8.PIECE then [CallOf(0, 0)] else [];
    BytesAppend([CallOf(1, 0)], around);
    BytesAppend([CallOf(1, 0)] + around, Utf8.Announced(sizes, CallOf));
    BytesAppend([CallOf(1, 0)] + around + Utf8.Announced(sizes, CallOf), around);
  }

  function BytesOf(calls: seq<Call>): nat {
    if calls == [] then 0 else calls[0].bytes + BytesOf(calls[1..])
  }

  lemma {:induction false} BytesAppend(a: seq<Call>, b: seq<Call>)
    ensures BytesOf(a + b) == BytesOf(a) + BytesOf(b)
  {
    if a == [] {
      assert a + b == b;
    } else {
      assert (a + b)[1..] == a[1..] + b;
      BytesAppend(a[1..], b);
    }
  }

  lemma {:induction false} AnnouncedBytes(sizes: seq<nat>)
    ensures BytesOf(Utf8.Announced(sizes, CallOf)) == Utf8.Total(sizes)
  {
    if sizes != [] {
      AnnouncedBytes(sizes[1..]);
      var calls := Utf8.Announced(sizes, CallOf);
      assert calls[1..] == Utf8.Announced(sizes[1..], CallOf);
    }
  }
}
