/** Interrupting the decoder: for every callback, checked decoding is plain decoding
    cut off at the callback's first error. */
module JsonChecked {
  import opened Wrappers
  import opened Checkpoint
  import opened Values
  import opened Json
  import Utf8
  import JsonLaws

  lemma CutText(callback: DecodeCallback, t: DecodeTrace, s: string)
    ensures Cut(callback, t, OwnedText(NEVER, t, s), OwnedText(callback, t, s))
  {
    hide Utf8.CopyCalls, Utf8.Encode, Cut, CheckAll;
    var units := Utf8.CopyCalls(Utf8.Encode(s), DecodeUnits);
    CutCheckAll(callback, t, units);
    CutMap(callback, t, CheckAll(NEVER, t, units), CheckAll(callback, t, units), OwnedText(NEVER, t, s),
      OwnedText(callback, t, s));
  }

  /** After a first announcement, which alone never fails a plain run. */
  lemma CutStart<T>(
    callback: DecodeCallback, t: DecodeTrace, units: nat, full: DecodeRun<T>, rest: DecodeRun<T>, part: DecodeRun<T>)
    requires Cut(callback, Check(NEVER, t, units).trace, full, rest)
    requires var start := Check(callback, t, units);
      if start.value.None? then part == Run(None, start.trace) else part == rest
    ensures Cut(callback, t, full, part)
  {
    hide Cut;
    CutCheck(callback, t, units);
    CutThen(callback, t, Check(NEVER, t, units), Check(callback, t, units), full, rest, part);
  }

  /** A trace the callback let through is the plain one. */
  lemma StartPassed(callback: DecodeCallback, t: DecodeTrace, units: nat)
    ensures Check(NEVER, t, units).value.Some?
    ensures Check(callback, t, units).value.Some? ==> Check(callback, t, units) == Check(NEVER, t, units)
  {
  }

  lemma {:induction false} CutDecode(env: Env, callback: DecodeCallback, t: DecodeTrace, j: Json)
    ensures Cut(callback, t, Decode(env, NEVER, t, j), Decode(env, callback, t, j))
    decreases j, 1
  {
    hide Cut, Check, DecodeObject, OwnedText, DecodeEach, DecodeNumber;
    StartPassed(callback, t, 1);
    var start := Check(NEVER, t, 1).trace;
    var full, part := Decode(env, NEVER, t, j), Decode(env, callback, t, j);
    match j
    case JString(s) =>
      CutText(callback, start, s);
      var text := OwnedText(callback, start, s);
      var rest := if text.value.None? then Run(None, text.trace) else Run(Some(Str(text.value.value)), text.trace);
      CutMap(callback, start, OwnedText(NEVER, start, s), text, full, rest);
      CutStart(callback, t, 1, full, rest, part);
    case JArray(items) =>
      CutEach(env, callback, start, items, Any);
      var each := DecodeEach(env, callback, start, items, Any);
      var rest := if each.value.None? then Run(None, each.trace) else Run(Some(List(each.value.value)), each.trace);
      CutMap(callback, start, DecodeEach(env, NEVER, start, items, Any), each, full, rest);
      CutStart(callback, t, 1, full, rest, part);
    case JObject(fields) =>
      CutObject(env, callback, start, fields);
      CutStart(callback, t, 1, full, DecodeObject(env, callback, start, fields), part);
    case _ =>
      CutPure(callback, start, full.value);
      CutStart(callback, t, 1, full, full, part);
  }

  lemma {:induction false} CutEach(env: Env, callback: DecodeCallback, t: DecodeTrace, items: seq<Json>, want: Want)
    ensures Cut(callback, t, DecodeEach(env, NEVER, t, items, want), DecodeEach(env, callback, t, items, want))
    decreases items, 0
  {
    hide Cut, Decode, Accept;
    var full, part := DecodeEach(env, NEVER, t, items, want), DecodeEach(env, callback, t, items, want);
    if items == [] {
      CutPure(callback, t, full.value);
    } else {
      CutDecode(env, callback, t, items[0]);
      var first, firstPart := Decode(env, NEVER, t, items[0]), Decode(env, callback, t, items[0]);
      CutCases(callback, t, first, firstPart);
      if first.value.None? || Accept(env, want, first.value.value).None? {
        CutMap(callback, t, first, firstPart, full, part);
      } else {
        var accepted := Accept(env, want, first.value.value).value;
        CutEach(env, callback, first.trace, items[1..], want);
        var rest := DecodeEach(env, callback, first.trace, items[1..], want);
        var tail := if rest.value.None? then Run(None, rest.trace)
          else Run(Some([accepted] + rest.value.value), rest.trace);
        CutMap(callback, first.trace, DecodeEach(env, NEVER, first.trace, items[1..], want), rest, full, tail);
        CutThen(callback, t, first, firstPart, full, tail, part);
      }
    }
  }

  lemma {:induction false} CutEntries(env: Env, callback: DecodeCallback, t: DecodeTrace, fields: seq<Field>)
    ensures Cut(callback, t, DecodeEntries(env, NEVER, t, fields), DecodeEntries(env, callback, t, fields))
    decreases fields, 0
  {
    hide Cut, Decode, OwnedText;
    var full, part := DecodeEntries(env, NEVER, t, fields), DecodeEntries(env, callback, t, fields);
    if fields == [] {
      CutPure(callback, t, full.value);
    } else {
      CutText(callback, t, fields[0].key);
      var key, keyPart := OwnedText(NEVER, t, fields[0].key), OwnedText(callback, t, fields[0].key);
      CutCases(callback, t, key, keyPart);
      if key.value.None? {
        CutMap(callback, t, key, keyPart, full, part);
      } else {
        var rest := EntriesAfterKey(env, callback, key.trace, key.value.value, fields);
        CutAfterKey(env, callback, key.trace, key.value.value, fields);
        CutThen(callback, t, key, keyPart, full, rest, part);
      }
    }
  }

  /** The decoding of a map from its first value on. */
  function EntriesAfterKey(
    env: Env, callback: DecodeCallback, t: DecodeTrace, key: string, fields: seq<Field>): DecodeRun<seq<Entry>>
    requires fields != []
  {
    var first := Decode(env, callback, t, fields[0].value);
    if first.value.None? then Run(None, first.trace) else
    var rest := DecodeEntries(env, callback, first.trace, fields[1..]);
    if rest.value.None? then Run(None, rest.trace)
    else Run(Some([Entry(key, first.value.value)] + rest.value.value), rest.trace)
  }

  lemma {:induction false} CutAfterKey(
    env: Env, callback: DecodeCallback, t: DecodeTrace, key: string, fields: seq<Field>)
    requires fields != []
    ensures Cut(callback, t, EntriesAfterKey(env, NEVER, t, key, fields),
      EntriesAfterKey(env, callback, t, key, fields))
    decreases fields, -1
  {
    hide Cut, Decode, DecodeEntries;
    var full, part := EntriesAfterKey(env, NEVER, t, key, fields), EntriesAfterKey(env, callback, t, key, fields);
    CutDecode(env, callback, t, fields[0].value);
    var first, firstPart := Decode(env, NEVER, t, fields[0].value), Decode(env, callback, t, fields[0].value);
    CutCases(callback, t, first, firstPart);
    if first.value.None? {
      CutMap(callback, t, first, firstPart, full, part);
    } else {
      CutEntries(env, callback, first.trace, fields[1..]);
      var rest := DecodeEntries(env, callback, first.trace, fields[1..]);
      var tail := if rest.value.None? then Run(None, rest.trace)
        else Run(Some([Entry(key, first.value.value)] + rest.value.value), rest.trace);
      CutMap(callback, first.trace, DecodeEntries(env, NEVER, first.trace, fields[1..]), rest, full, tail);
      CutThen(callback, t, first, firstPart, full, tail, part);
    }
  }

  lemma {:induction false} CutObject(env: Env, callback: DecodeCallback, t: DecodeTrace, fields: seq<Field>)
    ensures Cut(callback, t, DecodeObject(env, NEVER, t, fields), DecodeObject(env, callback, t, fields))
    decreases fields, 3
  {
    hide Cut, DecodeMap, DecodeTagged, ParseTag, Key, OnlyFields, FieldsOf;
    match Find(fields, Key(KType))
    case None => CutDecodeMap(env, callback, t, fields);
    case Some(JString(name)) =>
      if ParseTag(name).Some? {
        CutTagged(env, callback, t, ParseTag(name).value, fields);
      }
      CutPure<nat, Value>(callback, t, None);
    case Some(_) => CutPure<nat, Value>(callback, t, None);
  }

  lemma {:induction false} CutDecodeMap(env: Env, callback: DecodeCallback, t: DecodeTrace, fields: seq<Field>)
    ensures Cut(callback, t, DecodeMap(env, NEVER, t, fields), DecodeMap(env, callback, t, fields))
    decreases fields, 1
  {
    hide Cut, DecodeEntries;
    CutEntries(env, callback, t, fields);
    CutMap(callback, t, DecodeEntries(env, NEVER, t, fields), DecodeEntries(env, callback, t, fields),
      DecodeMap(env, NEVER, t, fields), DecodeMap(env, callback, t, fields));
  }

  lemma {:induction false} CutTagged(env: Env, callback: DecodeCallback, t: DecodeTrace, tag: Tag, fields: seq<Field>)
    ensures Cut(callback, t, DecodeTagged(env, NEVER, t, tag, fields), DecodeTagged(env, callback, t, tag, fields))
    decreases fields, 2
  {
    hide Cut, DecodeMap, DecodeNode, DecodeRelationship, DecodePath, DecodePoint, DecodeVector, DecodeDuration,
      DecodeText, Key;
    match tag
    case TMap =>
      match Find(fields, Key(KEntries)) {
        case Some(JObject(entries)) => CutDecodeMap(env, callback, t, entries);
        case _ => CutPure<nat, Value>(callback, t, None);
      }
    case TNode => CutNode(env, callback, t, fields);
    case TRelationship => CutRelationship(env, callback, t, fields);
    case TPath => CutPath(env, callback, t, fields);
    case TPoint => CutPoint(env, callback, t, fields);
    case TVector => CutVector(env, callback, t, fields);
    case TDuration =>
      if Text(fields, Key(KValue)).Some? { CutDuration(env, callback, t, Text(fields, Key(KValue)).value); }
      CutPure<nat, Value>(callback, t, None);
    case _ =>
      CutPure(callback, t, DecodeTagged(env, NEVER, t, tag, fields).value);
  }

  lemma CutDuration(env: Env, callback: DecodeCallback, t: DecodeTrace, text: string)
    ensures Cut(callback, t, DecodeDuration(env, NEVER, t, text), DecodeDuration(env, callback, t, text))
  {
    hide Cut, CheckAll;
    var units := env.parseDuration(text).1;
    CutCheckAll(callback, t, units);
    CutMap(callback, t, CheckAll(NEVER, t, units), CheckAll(callback, t, units),
      DecodeDuration(env, NEVER, t, text), DecodeDuration(env, callback, t, text));
  }

  lemma {:induction false} CutLabels(callback: DecodeCallback, t: DecodeTrace, items: seq<Json>)
    ensures Cut(callback, t, DecodeLabels(NEVER, t, items), DecodeLabels(callback, t, items))
    decreases items
  {
    hide Cut, Check, OwnedText;
    var full, part := DecodeLabels(NEVER, t, items), DecodeLabels(callback, t, items);
    if items == [] {
      CutPure(callback, t, full.value);
    } else {
      StartPassed(callback, t, 1);
      var start := Check(NEVER, t, 1).trace;
      if !items[0].JString? {
        CutPure(callback, start, full.value);
        CutStart(callback, t, 1, full, full, part);
      } else {
        var s := items[0].s;
        CutText(callback, start, s);
        var first, firstPart := OwnedText(NEVER, start, s), OwnedText(callback, start, s);
        CutCases(callback, start, first, firstPart);
        CutLabels(callback, first.trace, items[1..]);
        var rest := DecodeLabels(callback, first.trace, items[1..]);
        var tail := if rest.value.None? then Run(None, rest.trace) else Run(Some([s] + rest.value.value), rest.trace);
        var middle := if firstPart.value.None? then Run(None, firstPart.trace) else tail;
        JsonLaws.OwnedTextNever(start, s);
        CutMap(callback, first.trace, DecodeLabels(NEVER, first.trace, items[1..]), rest, full, tail);
        CutThen(callback, start, first, firstPart, full, tail, middle);
        CutStart(callback, t, 1, full, middle, part);
      }
    }
  }

  lemma {:induction false} CutProperties(env: Env, callback: DecodeCallback, t: DecodeTrace, fields: seq<Field>)
    ensures Cut(callback, t, DecodeProperties(env, NEVER, t, fields), DecodeProperties(env, callback, t, fields))
    decreases fields, 0
  {
    hide Cut, DecodeEntries, Key;
    match Find(fields, Key(KProperties))
    case Some(JObject(properties)) => CutEntries(env, callback, t, properties);
    case _ => CutPure<nat, seq<Entry>>(callback, t, None);
  }

  lemma {:induction false} CutNode(env: Env, callback: DecodeCallback, t: DecodeTrace, fields: seq<Field>)
    ensures Cut(callback, t, DecodeNode(env, NEVER, t, fields), DecodeNode(env, callback, t, fields))
    decreases fields, 1
  {
    hide Cut, DecodeLabels, DecodeProperties, Key;
    var full, part := DecodeNode(env, NEVER, t, fields), DecodeNode(env, callback, t, fields);
    match Find(fields, Key(KLabels))
    case Some(JArray(items)) =>
      CutLabels(callback, t, items);
      var labels, labelsPart := DecodeLabels(NEVER, t, items), DecodeLabels(callback, t, items);
      CutCases(callback, t, labels, labelsPart);
      CutProperties(env, callback, labels.trace, fields);
      var properties := DecodeProperties(env, callback, labels.trace, fields);
      if labels.value.None? {
        CutMap(callback, t, labels, labelsPart, full, part);
      } else {
        var rest := if properties.value.None? then Run(None, properties.trace)
          else Run(Wrapped(Text(fields, Key(KElementId)), id => Node(id, labels.value.value, properties.value.value)),
            properties.trace);
        CutMap(callback, labels.trace, DecodeProperties(env, NEVER, labels.trace, fields), properties, full, rest);
        CutThen(callback, t, labels, labelsPart, full, rest, part);
      }
    case _ => CutPure<nat, Value>(callback, t, None);
  }

  lemma {:induction false} CutRelationship(env: Env, callback: DecodeCallback, t: DecodeTrace, fields: seq<Field>)
    ensures Cut(callback, t, DecodeRelationship(env, NEVER, t, fields), DecodeRelationship(env, callback, t, fields))
    decreases fields, 1
  {
    hide Cut, DecodeProperties, Key, Text;
    CutPure<nat, Value>(callback, t, None);
    CutProperties(env, callback, t, fields);
    if DecodeRelationship(env, NEVER, t, fields) != Run(None, t) || DecodeRelationship(env, callback, t,
      fields) != Run(None, t) {
      CutMap(callback, t, DecodeProperties(env, NEVER, t, fields), DecodeProperties(env, callback, t, fields),
        DecodeRelationship(env, NEVER, t, fields), DecodeRelationship(env, callback, t, fields));
    }
  }

  lemma {:induction false} CutPath(env: Env, callback: DecodeCallback, t: DecodeTrace, fields: seq<Field>)
    ensures Cut(callback, t, DecodePath(env, NEVER, t, fields), DecodePath(env, callback, t, fields))
    decreases fields, 1
  {
    hide Cut, DecodeEach, DecodePathRest, Key;
    var full, part := DecodePath(env, NEVER, t, fields), DecodePath(env, callback, t, fields);
    match Find(fields, Key(KNodes))
    case Some(JArray(items)) =>
      CutEach(env, callback, t, items, Nodes);
      var nodes, nodesPart := DecodeEach(env, NEVER, t, items, Nodes), DecodeEach(env, callback, t, items, Nodes);
      CutCases(callback, t, nodes, nodesPart);
      if nodes.value.None? {
        CutMap(callback, t, nodes, nodesPart, full, part);
      } else {
        CutPathRest(env, callback, nodes.trace, fields, nodes.value.value);
        CutThen(callback, t, nodes, nodesPart, full,
          DecodePathRest(env, callback, nodes.trace, fields, nodes.value.value), part);
      }
    case _ => CutPure<nat, Value>(callback, t, None);
  }

  lemma {:induction false} CutPathRest(
    env: Env, callback: DecodeCallback, t: DecodeTrace, fields: seq<Field>, nodes: seq<Value>)
    ensures Cut(callback, t, DecodePathRest(env, NEVER, t, fields, nodes),
      DecodePathRest(env, callback, t, fields, nodes))
    decreases fields, 0
  {
    hide Cut, DecodeEach, Key;
    match Find(fields, Key(KRelationships))
    case Some(JArray(items)) =>
      CutEach(env, callback, t, items, Relationships);
      CutMap(callback, t, DecodeEach(env, NEVER, t, items, Relationships),
        DecodeEach(env, callback, t, items, Relationships),
        DecodePathRest(env, NEVER, t, fields, nodes), DecodePathRest(env, callback, t, fields, nodes));
    case _ => CutPure<nat, Value>(callback, t, None);
  }

  lemma {:induction false} CutPosition(env: Env, callback: DecodeCallback, t: DecodeTrace, items: seq<Json>)
    ensures Cut(callback, t, DecodePosition(env, NEVER, t, items), DecodePosition(env, callback, t, items))
    decreases items
  {
    hide Cut, Check;
    var full, part := DecodePosition(env, NEVER, t, items), DecodePosition(env, callback, t, items);
    if items == [] {
      CutPure(callback, t, full.value);
    } else {
      StartPassed(callback, t, 1);
      var start := Check(NEVER, t, 1).trace;
      CutPosition(env, callback, start, items[1..]);
      var f := if items[0].JFloat? then items[0].f else if items[0].JInt? then env.toFloat(items[0].n) else NaN;
      var others := DecodePosition(env, callback, start, items[1..]);
      var rest := if !f.Finite? then Run(None, start) else
        if others.value.None? then Run(None, others.trace) else Run(Some([f] + others.value.value), others.trace);
      if f.Finite? {
        CutMap(callback, start, DecodePosition(env, NEVER, start, items[1..]), others, full, rest);
      } else {
        CutPure(callback, start, full.value);
      }
      CutStart(callback, t, 1, full, rest, part);
    }
  }

  lemma CutPoint(env: Env, callback: DecodeCallback, t: DecodeTrace, fields: seq<Field>)
    ensures Cut(callback, t, DecodePoint(env, NEVER, t, fields), DecodePoint(env, callback, t, fields))
  {
    hide Cut, DecodePosition, Key, NewPoint;
    match Find(fields, Key(KCoordinates))
    case Some(JArray(items)) =>
      CutPosition(env, callback, t, items);
      CutMap(callback, t, DecodePosition(env, NEVER, t, items), DecodePosition(env, callback, t, items),
        DecodePoint(env, NEVER, t, fields), DecodePoint(env, callback, t, fields));
    case _ => CutPure<nat, Value>(callback, t, None);
  }

  lemma {:induction false} CutScan(callback: DecodeCallback, t: DecodeTrace, coordinates: seq<Value>)
    ensures Cut(callback, t, FiniteScan(NEVER, t, coordinates), FiniteScan(callback, t, coordinates))
    decreases coordinates
  {
    hide Cut, Check;
    var full, part := FiniteScan(NEVER, t, coordinates), FiniteScan(callback, t, coordinates);
    if coordinates == [] {
      CutPure(callback, t, full.value);
    } else {
      StartPassed(callback, t, 1);
      var start := Check(NEVER, t, 1).trace;
      if coordinates[0].Real? && coordinates[0].f.Finite? {
        CutScan(callback, start, coordinates[1..]);
        CutStart(callback, t, 1, full, FiniteScan(callback, start, coordinates[1..]), part);
      } else {
        CutPure(callback, start, full.value);
        CutStart(callback, t, 1, full, full, part);
      }
    }
  }

  lemma CutNewVector(callback: DecodeCallback, t: DecodeTrace, c: CoordinateType, coordinates: seq<Value>)
    ensures Cut(callback, t, NewVector(NEVER, t, c, coordinates), NewVector(callback, t, c, coordinates))
  {
    hide Cut, FiniteScan;
    CutPure(callback, t, NewVector(NEVER, t, c, coordinates).value);
    if c.F32? || c.F64? {
      CutScan(callback, t, coordinates);
      if 1 <= |coordinates| <= MAX_DIMENSION {
        CutMap(callback, t, FiniteScan(NEVER, t, coordinates), FiniteScan(callback, t, coordinates),
          NewVector(NEVER, t, c, coordinates), NewVector(callback, t, c, coordinates));
      }
    }
  }

  lemma {:induction false} CutVector(env: Env, callback: DecodeCallback, t: DecodeTrace, fields: seq<Field>)
    ensures Cut(callback, t, DecodeVector(env, NEVER, t, fields), DecodeVector(env, callback, t, fields))
    decreases fields, 1
  {
    hide Cut, DecodeEach, NewVector, Key, ParseCoordinateType, Text;
    var full, part := DecodeVector(env, NEVER, t, fields), DecodeVector(env, callback, t, fields);
    CutPure<nat, Value>(callback, t, None);
    var name := Text(fields, Key(KCoordinateType));
    if name.Some? && ParseCoordinateType(name.value).Some? {
      var c := ParseCoordinateType(name.value).value;
      match Find(fields, Key(KValues))
      case Some(JArray(items)) =>
        CutEach(env, callback, t, items, Coordinates(c));
        var each, eachPart := DecodeEach(env, NEVER, t, items, Coordinates(c)), DecodeEach(env, callback, t, items,
          Coordinates(c));
        CutCases(callback, t, each, eachPart);
        if Find(fields, Key(KDimension)) == Some(JInt(|items|)) {
          if each.value.None? {
            CutMap(callback, t, each, eachPart, full, part);
          } else {
            CutNewVector(callback, each.trace, c, each.value.value);
            CutThen(callback, t, each, eachPart, full, NewVector(callback, each.trace, c, each.value.value), part);
          }
        }
      case _ =>
    }
  }

  // ---- parameters -----------------------------------------------------------------------

  lemma {:induction false} CutParameter(callback: DecodeCallback, t: DecodeTrace, v: Value)
    ensures Cut(callback, t, CheckedParameter(NEVER, t, v), CheckedParameter(callback, t, v))
    decreases v, 1
  {
    hide Cut, Check, CheckedParameters, CheckedEntries;
    StartPassed(callback, t, 1);
    var start := Check(NEVER, t, 1).trace;
    var full, part := CheckedParameter(NEVER, t, v), CheckedParameter(callback, t, v);
    match v
    case List(items) =>
      CutParameters(callback, start, items);
      CutStart(callback, t, 1, full, CheckedParameters(callback, start, items), part);
    case Map(entries) =>
      CutEntryParameters(callback, start, entries);
      CutStart(callback, t, 1, full, CheckedEntries(callback, start, entries), part);
    case _ =>
      CutPure(callback, start, full.value);
      CutStart(callback, t, 1, full, full, part);
  }

  lemma {:induction false} CutParameters(callback: DecodeCallback, t: DecodeTrace, vs: seq<Value>)
    ensures Cut(callback, t, CheckedParameters(NEVER, t, vs), CheckedParameters(callback, t, vs))
    decreases vs, 0
  {
    hide Cut, CheckedParameter;
    var full, part := CheckedParameters(NEVER, t, vs), CheckedParameters(callback, t, vs);
    if vs == [] {
      CutPure(callback, t, full.value);
    } else {
      CutParameter(callback, t, vs[0]);
      var first, firstPart := CheckedParameter(NEVER, t, vs[0]), CheckedParameter(callback, t, vs[0]);
      CutCases(callback, t, first, firstPart);
      if first.value == Some(true) {
        CutParameters(callback, first.trace, vs[1..]);
        CutThen(callback, t, first, firstPart, full, CheckedParameters(callback, first.trace, vs[1..]), part);
      } else {
        CutMap(callback, t, first, firstPart, full, part);
      }
    }
  }

  lemma {:induction false} CutEntryParameters(callback: DecodeCallback, t: DecodeTrace, es: seq<Entry>)
    ensures Cut(callback, t, CheckedEntries(NEVER, t, es), CheckedEntries(callback, t, es))
    decreases es, 0
  {
    hide Cut, CheckedParameter;
    var full, part := CheckedEntries(NEVER, t, es), CheckedEntries(callback, t, es);
    if es == [] {
      CutPure(callback, t, full.value);
    } else {
      var v := es[0].value;
      CutParameter(callback, t, v);
      var first, firstPart := CheckedParameter(NEVER, t, v), CheckedParameter(callback, t, v);
      CutCases(callback, t, first, firstPart);
      if first.value == Some(true) {
        CutEntryParameters(callback, first.trace, es[1..]);
        CutThen(callback, t, first, firstPart, full, CheckedEntries(callback, first.trace, es[1..]), part);
      } else {
        CutMap(callback, t, first, firstPart, full, part);
      }
    }
  }

  /** One parameter from its vetting on. */
  function VettedParameter(callback: DecodeCallback, t: DecodeTrace, value: Value, key: string): DecodeRun<Entry> {
    var vetted := CheckedParameter(callback, t, value);
    if vetted.value.None? || !vetted.value.value then Run(None, vetted.trace) else
    var name := OwnedText(callback, vetted.trace, key);
    if name.value.None? then Run(None, name.trace) else Run(Some(Entry(name.value.value, value)), name.trace)
  }

  lemma CutVetted(callback: DecodeCallback, t: DecodeTrace, value: Value, key: string)
    ensures Cut(callback, t, VettedParameter(NEVER, t, value, key), VettedParameter(callback, t, value, key))
  {
    hide Cut, CheckedParameter, OwnedText;
    var full, part := VettedParameter(NEVER, t, value, key), VettedParameter(callback, t, value, key);
    CutParameter(callback, t, value);
    var vetted, vettedPart := CheckedParameter(NEVER, t, value), CheckedParameter(callback, t, value);
    CutCases(callback, t, vetted, vettedPart);
    if vetted.value == Some(true) {
      CutText(callback, vetted.trace, key);
      var name := OwnedText(callback, vetted.trace, key);
      var rest := if name.value.None? then Run(None, name.trace)
        else Run(Some(Entry(name.value.value, value)), name.trace);
      CutMap(callback, vetted.trace, OwnedText(NEVER, vetted.trace, key), name, full, rest);
      CutThen(callback, t, vetted, vettedPart, full, rest, part);
    } else {
      CutMap(callback, t, vetted, vettedPart, full, part);
    }
  }

  lemma CutOneParameter(env: Env, callback: DecodeCallback, t: DecodeTrace, field: Field)
    ensures Cut(callback, t, DecodeParameter(env, NEVER, t, field), DecodeParameter(env, callback, t, field))
  {
    hide Cut, Decode, CheckedParameter, OwnedText;
    var full, part := DecodeParameter(env, NEVER, t, field), DecodeParameter(env, callback, t, field);
    CutDecode(env, callback, t, field.value);
    var value, valuePart := Decode(env, NEVER, t, field.value), Decode(env, callback, t, field.value);
    CutCases(callback, t, value, valuePart);
    if value.value.None? {
      CutMap(callback, t, value, valuePart, full, part);
    } else {
      CutVetted(callback, value.trace, value.value.value, field.key);
      CutThen(callback, t, value, valuePart, full,
        VettedParameter(callback, value.trace, value.value.value, field.key), part);
    }
  }

  lemma {:induction false} CutParameterFields(env: Env, callback: DecodeCallback, t: DecodeTrace, fields: seq<Field>)
    ensures Cut(callback, t, DecodeParameterFields(env, NEVER, t, fields),
      DecodeParameterFields(env, callback, t, fields))
    decreases fields
  {
    hide Cut, DecodeParameter;
    var full, part := DecodeParameterFields(env, NEVER, t, fields), DecodeParameterFields(env, callback, t, fields);
    if fields == [] {
      CutPure(callback, t, full.value);
    } else {
      CutOneParameter(env, callback, t, fields[0]);
      var first, firstPart := DecodeParameter(env, NEVER, t, fields[0]), DecodeParameter(env, callback, t, fields[0]);
      CutCases(callback, t, first, firstPart);
      if first.value.None? {
        CutMap(callback, t, first, firstPart, full, part);
      } else {
        CutParameterFields(env, callback, first.trace, fields[1..]);
        var rest := DecodeParameterFields(env, callback, first.trace, fields[1..]);
        var tail := if rest.value.None? then Run(None,
          rest.trace) else Run(Some([first.value.value] + rest.value.value), rest.trace);
        CutMap(callback, first.trace, DecodeParameterFields(env, NEVER, first.trace, fields[1..]), rest, full, tail);
        CutThen(callback, t, first, firstPart, full, tail, part);
      }
    }
  }

  // ---- what a caller sees -------------------------------------------------------------------

  const START: DecodeTrace := Trace([], None)

  /** `decode_json_checked`: with a callback that never fails on the calls plain
      decoding makes, the plain outcome; otherwise exactly the first error, and no
      call after it. */
  lemma {:induction false} DecodeChecked(env: Env, callback: DecodeCallback, j: Json)
    ensures var full, part := Decode(env, NEVER, START, j), Decode(env, callback, START, j);
      && ((forall n :: 0 < n <= |full.trace.calls| ==> callback(full.trace.calls[..n]).None?) ==>
        WithCheckpoint(part) == WithCheckpoint(full) && part.trace.calls == full.trace.calls)
      && (forall n: nat :: FirstFailure(callback, full.trace.calls, n) ==>
        && WithCheckpoint(part) == Physical(callback(full.trace.calls[..n]).value)
        && part.trace.calls == full.trace.calls[..n])
  {
    hide Cut, Decode;
    CutDecode(env, callback, START, j);
    CutOutcome(callback, Decode(env, NEVER, START, j), Decode(env, callback, START, j));
  }

  /** `decode_parameters_checked`, likewise. */
  lemma DecodeParametersChecked(env: Env, callback: DecodeCallback, j: Json)
    ensures var full, part := DecodeParameters(env, NEVER, START, j), DecodeParameters(env, callback, START, j);
      && ((forall n :: 0 < n <= |full.trace.calls| ==> callback(full.trace.calls[..n]).None?) ==>
        WithCheckpoint(part) == WithCheckpoint(full) && part.trace.calls == full.trace.calls)
      && (forall n: nat :: FirstFailure(callback, full.trace.calls, n) ==>
        && WithCheckpoint(part) == Physical(callback(full.trace.calls[..n]).value)
        && part.trace.calls == full.trace.calls[..n])
  {
    hide Cut, DecodeParameterFields, Check;
    var full, part := DecodeParameters(env, NEVER, START, j), DecodeParameters(env, callback, START, j);
    StartPassed(callback, START, 0);
    var start := Check(NEVER, START, 0).trace;
    if j.JObject? {
      CutParameterFields(env, callback, start, j.fields);
      CutStart(callback, START, 0, full, DecodeParameterFields(env, callback, start, j.fields), part);
    } else {
      CutPure(callback, start, full.value);
      CutStart(callback, START, 0, full, full, part);
    }
    CutOutcome(callback, full, part);
  }
}
