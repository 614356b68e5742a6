/** The embeddings client: placing the items of one response by their index, retrying
    a request, and splitting an input into batches. */
module Http {
  import opened Wrappers

  /** A FLOAT32 is its bit pattern. */
  type Float32 = bits: nat | bits < 0x1_0000_0000

  /** UTF-8 text. */
  type Text = seq<Byte>

  type Vector = seq<Float32>

  const MAX_DIMENSIONS := 4096
  const MAX_OUTPUT_BYTES := 256 * 1024 * 1024

  datatype Failure = Invalid | Resource | Io | Internal | Cancelled

  /** One element of the response array, its coordinates already narrowed to FLOAT32. */
  datatype Item = Item(index: nat, vector: Vector)

  /** The exponent field is not all ones. */
  predicate IsFinite(x: Float32) {
    x / 0x80_0000 % 0x100 != 0xFF
  }

  /** Without its sign bit, a finite pattern lies below that of infinity. */
  lemma FinitePatterns(x: Float32)
    ensures IsFinite(x) <==> x % 0x8000_0000 < 0x7F80_0000
  {
    assert x == x / 0x80_0000 * 0x80_0000 + x % 0x80_0000;
    assert x / 0x80_0000 < 0x200;
  }

  predicate AllFinite(v: Vector) {
    forall i :: 0 <= i < |v| ==> IsFinite(v[i])
  }

  predicate Decodable(v: Vector, dimensions: nat) {
    |v| == dimensions && AllFinite(v)
  }

  function Concat(parts: seq<Vector>): Vector {
    if parts == [] then [] else parts[0] + Concat(parts[1..])
  }

  lemma {:induction false} ConcatAppend(parts: seq<Vector>, more: seq<Vector>)
    ensures Concat(parts + more) == Concat(parts) + Concat(more)
  {
    if parts == [] {
      assert parts + more == more;
    } else {
      ConcatAppend(parts[1..], more);
      assert (parts + more)[1..] == parts[1..] + more;
    }
  }

  /** What embedding each text on its own gives. */
  function EmbedAll(f: Text -> Vector, texts: seq<Text>): Vector {
    if texts == [] then [] else f(texts[0]) + EmbedAll(f, texts[1..])
  }

  lemma {:induction false} EmbedAllAppend(f: Text -> Vector, texts: seq<Text>, more: seq<Text>)
    ensures EmbedAll(f, texts + more) == EmbedAll(f, texts) + EmbedAll(f, more)
  {
    if texts == [] {
      assert texts + more == more;
    } else {
      var tail := texts[1..];
      EmbedAllAppend(f, tail, more);
      assert (texts + more)[1..] == tail + more && (texts + more)[0] == texts[0];
      assert EmbedAll(f, texts + more) == f(texts[0]) + EmbedAll(f, tail + more);
      assert EmbedAll(f, texts) == f(texts[0]) + EmbedAll(f, tail);
    }
  }

  lemma {:induction false} EmbedAllIsConcat(f: Text -> Vector, texts: seq<Text>, parts: seq<Vector>)
    requires |parts| == |texts| && forall i :: 0 <= i < |parts| ==> parts[i] == f(texts[i])
    ensures Concat(parts) == EmbedAll(f, texts)
  {
    if texts != [] {
      EmbedAllIsConcat(f, texts[1..], parts[1..]);
    }
  }

  /** Indexes in range, no index twice, every vector decodable. */
  ghost predicate Acceptable(items: seq<Item>, dimensions: nat) {
    && (forall i :: 0 <= i < |items| ==> items[i].index < |items| && Decodable(items[i].vector, dimensions))
    && forall i, j :: 0 <= i < j < |items| ==> items[i].index != items[j].index
  }

  /** `parts[i]` is the vector of the item with index `i`, wherever it arrived. */
  ghost predicate Placed(items: seq<Item>, parts: seq<Vector>) {
    && |parts| == |items|
    && forall i :: 0 <= i < |items| ==> items[i].index < |parts| && parts[items[i].index] == items[i].vector
  }

  ghost function IndexesOf(items: seq<Item>): set<nat> {
    set item | item in items :: item.index
  }

  lemma {:induction false} DistinctCount(items: seq<Item>)
    requires forall i, j :: 0 <= i < j < |items| ==> items[i].index != items[j].index
    ensures |IndexesOf(items)| == |items|
  {
    if items != [] {
      var front, last := items[..|items| - 1], items[|items| - 1];
      DistinctCount(front);
      assert items == front + [last];
      assert IndexesOf(items) == IndexesOf(front) + {last.index};
    }
  }

  lemma {:induction false} BoundedCount(indexes: set<nat>, n: nat)
    requires forall i :: i in indexes ==> i < n
    ensures |indexes| <= n
  {
    if n == 0 {
      assert indexes == {};
    } else {
      BoundedCount(indexes - {n - 1}, n - 1);
    }
  }

  /** A full set of indexes below `n` leaves none out. */
  lemma Pigeonhole(indexes: set<nat>, n: nat)
    requires |indexes| == n && forall i :: i in indexes ==> i < n
    ensures forall i :: 0 <= i < n ==> i in indexes
  {
    forall i | 0 <= i < n ensures i in indexes {
      BoundedCount(indexes + {i}, n);
    }
  }

  /** A response is accepted exactly when it has the expected count and no
      out-of-range, duplicate or undecodable item; no arrival order matters, and
      no slot can be left empty. */
  method DecodeResponse(items: seq<Item>, expected: nat, dimensions: nat) returns (r: Result<Vector, Failure>)
    ensures r.Ok? <==> |items| == expected && Acceptable(items, dimensions)
    ensures r.Ok? ==> exists parts :: Placed(items, parts) && r.value == Concat(parts)
  {
    hide Acceptable, IndexesOf;
    if |items| != expected { return Err(Internal); }
    var slots := new Option<Vector>[expected](_ => None);
    var placed := FillSlots(items, slots, dimensions);
    if !placed { return Err(Internal); }
    r := FlattenSlots(slots, dimensions);
    ghost var parts := seq(|items|,
      i requires 0 <= i < |items| reads slots => if slots[i].Some? then slots[i].value else []);
    assert Placed(items, parts);
  }

  /** Each item goes to the slot of its index, once. */
  method FillSlots(items: seq<Item>, slots: array<Option<Vector>>, dimensions: nat) returns (ok: bool)
    requires |items| == slots.Length && forall i :: 0 <= i < slots.Length ==> slots[i].None?
    modifies slots
    ensures ok <==> Acceptable(items, dimensions)
    ensures ok ==> forall i :: 0 <= i < slots.Length ==> slots[i].Some?
    ensures ok ==> forall i :: 0 <= i < |items| ==>
      items[i].index < slots.Length && slots[items[i].index] == Some(items[i].vector)
  {
    hide Decodable, IndexesOf;
    ghost var filled: set<nat> := {};
    var n := 0;
    while n < |items|
      invariant 0 <= n <= |items| == slots.Length
      invariant |filled| == n && forall i :: i in filled <==> 0 <= i < slots.Length && slots[i].Some?
      invariant forall i :: 0 <= i < n ==>
        && items[i].index < slots.Length && slots[items[i].index] == Some(items[i].vector)
        && Decodable(items[i].vector, dimensions)
      invariant forall i, j :: 0 <= i < j < n ==> items[i].index != items[j].index
    {
      var item := items[n];
      if item.index >= slots.Length { return false; }
      if slots[item.index].Some? {
        FilledByEarlier(slots[..], items, n, filled);
        return false;
      }
      if !Decodable(item.vector, dimensions) { return false; }
      slots[item.index] := Some(item.vector);
      filled := filled + {item.index};
      n := n + 1;
    }
    Pigeonhole(filled, slots.Length);
    return true;
  }

  /** While every filled slot was filled by an item, a filled slot betrays a duplicate index. */
  lemma FilledByEarlier(slots: seq<Option<Vector>>, items: seq<Item>, n: nat, filled: set<nat>)
    requires n < |items| == |slots| && items[n].index < |slots| && slots[items[n].index].Some?
    requires |filled| == n && forall i :: i in filled <==> 0 <= i < |slots| && slots[i].Some?
    requires forall i :: 0 <= i < n ==> items[i].index < |slots| && slots[items[i].index].Some?
    requires forall i, j :: 0 <= i < j < n ==> items[i].index != items[j].index
    ensures exists i :: 0 <= i < n && items[i].index == items[n].index
  {
    var seen := IndexesOf(items[..n]);
    DistinctCount(items[..n]);
    forall x | x in seen ensures x in filled {
      var item :| item in items[..n] && item.index == x;
    }
    assert |filled - seen| == |filled| - |seen|;
    assert items[n].index in seen;
    var item :| item in items[..n] && item.index == items[n].index;
  }

  method FlattenSlots(slots: array<Option<Vector>>, dimensions: nat) returns (r: Result<Vector, Failure>)
    ensures r.Ok? <==> forall i :: 0 <= i < slots.Length ==> slots[i].Some?
    ensures r.Ok? ==> r.value == Concat(seq(slots.Length, i requires 0 <= i < slots.Length reads slots =>
      if slots[i].Some? then slots[i].value else []))
  {
    var values: Vector := [];
    ghost var parts: seq<Vector> := [];
    for n := 0 to slots.Length
      invariant |parts| == n && forall i :: 0 <= i < n ==> slots[i].Some? && parts[i] == slots[i].value
      invariant values == Concat(parts)
    {
      if slots[n].None? { return Err(Internal); }
      ConcatAppend(parts, [slots[n].value]);
      assert Concat([slots[n].value]) == slots[n].value;
      parts := parts + [slots[n].value];
      values := values + slots[n].value;
    }
    assert parts == seq(slots.Length, i requires 0 <= i < slots.Length reads slots =>
      if slots[i].Some? then slots[i].value else []);
    return Ok(values);
  }

  // ---- requests -----------------------------------------------------------------------------

  /** What comes of one request: a body, readable or not; another status; or no
      response at all.  `waits` is how many slices of sleep precede a retry. */
  datatype Reply =
    | Success(body: Result<seq<Item>, Failure>)
    | Status(code: nat, waits: nat)
    | Unsent(error: Failure, waits: nat)

  /** The reply to the n-th request, counted from the first. */
  type Server = (nat, seq<Text>) -> Reply

  predicate Retryable(reply: Reply) {
    match reply
    case Success(_) => false
    case Status(code, _) => code == 408 || code == 429 || 500 <= code <= 599
    case Unsent(error, _) => error == Io
  }

  /** Retried are timeouts, rate limits, server errors, and requests that got no answer. */
  lemma RetriedReplies(reply: Reply)
    ensures Retryable(reply) <==>
      || (reply.Status? && (reply.code in {408, 429} || reply.code / 100 == 5))
      || (reply.Unsent? && reply.error == Io)
  {
  }

  /** What a reply that is not retried means. */
  function Body(reply: Reply): Result<seq<Item>, Failure> {
    match reply
    case Success(body) => body
    case Status(_, _) => Err(Io)
    case Unsent(error, _) => Err(error)
  }

  /** The request whose reply counts: the first that is not retryable, or the last
      that the retries allow. */
  function Decisive(server: Server, batch: seq<Text>, n: nat, retries: nat): (m: nat)
    ensures n <= m <= n + retries
    ensures forall k :: n <= k < m ==> Retryable(server(k, batch))
    ensures m < n + retries ==> !Retryable(server(m, batch))
    decreases retries
  {
    if retries > 0 && Retryable(server(n, batch)) then Decisive(server, batch, n + 1, retries - 1) else n
  }

  /** A server whose every answer carries, for each input it indexes, that input's own vector. */
  ghost predicate Pointwise(server: Server, f: Text -> Vector) {
    forall n: nat, batch: seq<Text> :: Body(server(n, batch)).Ok? ==>
      var items := Body(server(n, batch)).value;
      forall i :: 0 <= i < |items| && items[i].index < |batch| ==> items[i].vector == f(batch[items[i].index])
  }

  /** A server that, asked often enough, answers every batch acceptably. */
  ghost predicate Answering(server: Server, dimensions: nat, retries: nat) {
    forall n: nat, batch: seq<Text> :: batch != [] ==>
      var body := Body(server(Decisive(server, batch, n, retries), batch));
      body.Ok? && |body.value| == |batch| && Acceptable(body.value, dimensions)
  }

  /** Sleeping in slices, with a question to the caller before each and at the end. */
  method InterruptibleSleep(waits: nat, cancelled: nat -> bool, polls: nat) returns (ok: bool, polls': nat)
    ensures polls < polls'
    ensures ok <==> forall n :: polls <= n <= polls + waits ==> !cancelled(n)
    ensures !ok ==> exists n :: polls <= n < polls' && cancelled(n)
  {
    polls' := polls;
    for slept := 0 to waits
      invariant polls' == polls + slept && forall n :: polls <= n < polls' ==> !cancelled(n)
    {
      if cancelled(polls') { return false, polls' + 1; }
      polls' := polls' + 1;
    }
    return !cancelled(polls'), polls' + 1;
  }

  /** Whether `r` is what decoding a body for `expected` texts gives. */
  ghost predicate Decodes(
    body: Result<seq<Item>, Failure>, expected: nat, dimensions: nat, r: Result<Vector, Failure>)
  {
    if body.Err? then r == Err(body.error)
    else
      && (r.Ok? <==> |body.value| == expected && Acceptable(body.value, dimensions))
      && (r.Ok? ==> exists parts :: Placed(body.value, parts) && r.value == Concat(parts))
  }

  /** One batch: requests are repeated while the reply is retryable and retries are
      left.  Unless the caller cancels, the decisive reply decides. */
  method EmbedOneBatch(
    server: Server, batch: seq<Text>, dimensions: nat, retries: nat, cancelled: nat -> bool, requests: nat, polls: nat)
    returns (r: Result<Vector, Failure>, requests': nat, polls': nat)
    ensures
      || (r == Err(Cancelled) && exists n :: polls <= n < polls' && cancelled(n))
      || (&& requests' == Decisive(server, batch, requests, retries) + 1
          && Decodes(Body(server(requests' - 1, batch)), |batch|, dimensions, r))
    ensures cancelled(polls) ==> r == Err(Cancelled) && requests' == requests
  {
    requests', polls' := requests, polls;
    var attempt := 0;
    while true
      invariant attempt <= retries && polls <= polls' && requests' == requests + attempt
      invariant Decisive(server, batch, requests, retries) == Decisive(server, batch, requests', retries - attempt)
      invariant if attempt == 0 then polls' == polls else !cancelled(polls)
      decreases retries - attempt
    {
      polls' := polls' + 1;
      if cancelled(polls' - 1) { return Err(Cancelled), requests', polls'; }
      var reply := server(requests', batch);
      requests' := requests' + 1;
      if !reply.Unsent? {
        polls' := polls' + 1;
        if cancelled(polls' - 1) { return Err(Cancelled), requests', polls'; }
      }
      if !Retryable(reply) || attempt == retries {
        if Body(reply).Err? { return Err(Body(reply).error), requests', polls'; }
        r := DecodeResponse(Body(reply).value, |batch|, dimensions);
        return r, requests', polls';
      }
      attempt := attempt + 1;
      var rested, after := InterruptibleSleep(reply.waits, cancelled, polls');
      polls' := after;
      if !rested { return Err(Cancelled), requests', polls'; }
    }
  }

  predicate FitsLimits(texts: seq<Text>, dimensions: nat) {
    texts != [] && 1 <= dimensions <= MAX_DIMENSIONS && |texts| * dimensions * 4 <= MAX_OUTPUT_BYTES
  }

  /** For a pointwise server a successful embedding is the concatenation of the
      single embeddings, whatever the batch size, the statuses and the retries.
      `cancelled` is what the caller answers each time it is asked. */
  method Embed(
    server: Server, ghost f: Text -> Vector, texts: seq<Text>, dimensions: nat, batchSize: nat, retries: nat,
    cancelled: nat -> bool)
    returns (r: Result<Vector, Failure>)
    requires batchSize > 0
    ensures r.Ok? && Pointwise(server, f) ==> r.value == EmbedAll(f, texts)
    ensures r.Ok? ==> FitsLimits(texts, dimensions)
    ensures FitsLimits(texts, dimensions) && Answering(server, dimensions, retries) ==>
      (r.Err? ==> r == Err(Cancelled) && exists n :: cancelled(n))
    ensures FitsLimits(texts, dimensions) && cancelled(0) ==> r == Err(Cancelled)
  {
    hide Acceptable, Placed, Answering;
    if texts == [] || !(1 <= dimensions <= MAX_DIMENSIONS) { return Err(Invalid); }
    if |texts| * dimensions * 4 > MAX_OUTPUT_BYTES { return Err(Resource); }
    var values: Vector := [];
    var start, requests, polls := 0, 0, 0;
    while start < |texts|
      invariant 0 <= start <= |texts| && (start > 0 ==> !cancelled(0)) && (start == 0 ==> polls == 0)
      invariant Pointwise(server, f) ==> values == EmbedAll(f, texts[..start])
    {
      if cancelled(polls) { return Err(Cancelled); }
      var end := if start + batchSize < |texts| then start + batchSize else |texts|;
      var batch := texts[start..end];
      if Answering(server, dimensions, retries) {
        DecisiveAnswers(server, batch, dimensions, requests, retries);
      }
      var embedded;
      embedded, requests, polls :=
        EmbedOneBatch(server, batch, dimensions, retries, cancelled, requests, polls + 1);
      if embedded.Err? { return embedded; }
      if Pointwise(server, f) {
        BatchIsPointwise(server, f, requests - 1, batch, dimensions, embedded.value);
        EmbedAllAppend(f, texts[..start], batch);
        assert texts[..start] + batch == texts[..end];
      }
      values := values + embedded.value;
      start := end;
    }
    assert texts[..start] == texts;
    return Ok(values);
  }

  lemma {:induction false} DecisiveAnswers(server: Server, batch: seq<Text>, dimensions: nat, n: nat, retries: nat)
    requires Answering(server, dimensions, retries) && batch != []
    ensures var body := Body(server(Decisive(server, batch, n, retries), batch));
      body.Ok? && |body.value| == |batch| && Acceptable(body.value, dimensions)
  {
  }

  lemma {:induction false} BatchIsPointwise(
    server: Server, f: Text -> Vector, n: nat, batch: seq<Text>, dimensions: nat, values: Vector)
    requires Pointwise(server, f) && Decodes(Body(server(n, batch)), |batch|, dimensions, Ok(values))
    ensures values == EmbedAll(f, batch)
  {
    var items := Body(server(n, batch)).value;
    var parts :| Placed(items, parts) && values == Concat(parts);
    PlacedIsPointwise(items, parts, batch, f, dimensions);
    EmbedAllIsConcat(f, batch, parts);
  }

  lemma PlacedIsPointwise(items: seq<Item>, parts: seq<Vector>, batch: seq<Text>, f: Text -> Vector, dimensions: nat)
    requires Placed(items, parts) && Acceptable(items, dimensions) && |items| == |batch|
    requires forall i :: 0 <= i < |items| ==> items[i].vector == f(batch[items[i].index])
    ensures forall k :: 0 <= k < |parts| ==> parts[k] == f(batch[k])
  {
    DistinctCount(items);
    Pigeonhole(IndexesOf(items), |items|);
    forall k | 0 <= k < |parts| ensures parts[k] == f(batch[k]) {
      assert k in IndexesOf(items);
    }
  }
}
