/** One client of the cache: its transactions on the shared file, and the embed
    pipeline that must agree with calling the remote function directly. */
module EmbedPipeline {
  import opened Wrappers
  import opened Http
  import opened EmbeddingCache
  import opened CacheKey

  /** The function the endpoint computes for each cache space, and the digests
      under which its results are stored. */
  datatype Remote = Remote(
    hash: Text -> Digest, dimensions: Digest -> nat, vector: (Digest, Text) -> Vector)

  /** BLAKE3 does not collide, and the endpoint answers with finite vectors of the
      dimension that is part of the space. */
  ghost predicate IsRemote(o: Remote) {
    && (forall s: Text, t: Text :: o.hash(s) == o.hash(t) ==> s == t)
    && forall space: Digest, t: Text :: Decodable(o.vector(space, t), o.dimensions(space))
  }

  // ---- the stored form of a vector -----------------------------------------

  function Word(b: seq<Byte>): Float32
    requires |b| == 4
  {
    var b0: int, b1: int, b2: int, b3: int := b[0], b[1], b[2], b[3];
    b0 + 0x100 * (b1 + 0x100 * (b2 + 0x100 * b3))
  }

  lemma WordOfLittleEndian(x: Float32)
    ensures Word(LittleEndian(x)) == x
  {
  }

  lemma LittleEndianOfWord(b: seq<Byte>)
    requires |b| == 4
    ensures LittleEndian(Word(b)) == b
  {
    var b1: int, b2: int, b3: int := b[1], b[2], b[3];
    assert Word(b) / 0x100 == b1 + 0x100 * (b2 + 0x100 * b3);
    assert (b1 + 0x100 * (b2 + 0x100 * b3)) / 0x100 == b2 + 0x100 * b3;
  }

  lemma Associative(a: seq<Byte>, b: seq<Byte>, c: seq<Byte>)
    ensures (a + b) + c == a + (b + c)
  {
  }

  lemma {:induction false} EncodedAppend(v: Vector, w: Vector)
    ensures Encoded(v + w) == Encoded(v) + Encoded(w)
  {
    if v == [] {
      assert v + w == w;
    } else {
      var head := LittleEndian(v[0]);
      assert (v + w)[1..] == v[1..] + w;
      assert Encoded(v + w) == head + Encoded(v[1..] + w);
      EncodedAppend(v[1..], w);
      Associative(head, Encoded(v[1..]), Encoded(w));
    }
  }

  lemma {:induction false} EncodedLength(v: Vector)
    ensures |Encoded(v)| == 4 * |v|
  {
    if v != [] { EncodedLength(v[1..]); }
  }

  /** The i-th group of four bytes is the i-th coordinate. */
  lemma {:induction false} EncodedAt(v: Vector, i: nat)
    requires i < |v|
    ensures |Encoded(v)| == 4 * |v| && Encoded(v)[4 * i..4 * i + 4] == LittleEndian(v[i])
  {
    EncodedLength(v);
    EncodedLength(v[..i]);
    EncodedAppend(v[..i], [v[i]] + v[i + 1..]);
    EncodedAppend([v[i]], v[i + 1..]);
    assert v == v[..i] + ([v[i]] + v[i + 1..]);
    assert [v[i]][1..] == [];
    assert Encoded([v[i]]) == LittleEndian(v[i]) + [];
    var before, after := Encoded(v[..i]), Encoded(v[i + 1..]);
    hide LittleEndian, Encoded;
    MiddleBytes(before, LittleEndian(v[i]), after);
  }

  lemma MiddleBytes(a: seq<Byte>, b: seq<Byte>, c: seq<Byte>)
    ensures (a + (b + c))[|a|..|a| + |b|] == b
  {
  }

  lemma {:induction false} EncodedInjective(v: Vector, w: Vector)
    requires Encoded(v) == Encoded(w)
    ensures v == w
  {
    EncodedLength(v);
    EncodedLength(w);
    forall i | 0 <= i < |v| ensures v[i] == w[i] {
      EncodedAt(v, i);
      EncodedAt(w, i);
      WordOfLittleEndian(v[i]);
      WordOfLittleEndian(w[i]);
    }
  }

  method EncodeVector(v: Vector) returns (blob: seq<Byte>)
    ensures blob == Encoded(v)
  {
    blob := [];
    for i := 0 to |v|
      invariant blob == Encoded(v[..i])
    {
      assert v[..i + 1] == v[..i] + [v[i]];
      EncodedAppend(v[..i], [v[i]]);
      assert Encoded([v[i]]) == LittleEndian(v[i]);
      blob := blob + LittleEndian(v[i]);
    }
    assert v[..|v|] == v;
  }

  datatype Verdict = Valid(vector: Vector) | Recoverable | Structural

  /** The row is the stored form of exactly this vector for this text. */
  ghost predicate Stores(e: Entry, text: Text, dimensions: nat, v: Vector) {
    && e.textBytes == Integer(|text|) && e.dimension == Integer(dimensions)
    && e.payload == 4 * dimensions && e.vector == Blob(Encoded(v))
    && Decodable(v, dimensions)
  }

  /** Validation accepts a row exactly when it stores a vector, and returns that vector. */
  method ValidateEntry(text: Text, dimensions: nat, e: Entry) returns (r: Verdict)
    ensures r.Valid? ==> Stores(e, text, dimensions, r.vector)
    ensures !r.Valid? && |text| <= I64_MAX ==> forall v :: !Stores(e, text, dimensions, v)
    ensures r.Structural? <==> |text| > I64_MAX
  {
    if |text| > I64_MAX { return Structural; }
    if e.textBytes != Integer(|text|) { return Recoverable; }
    if e.dimension != Integer(dimensions) { return Recoverable; }
    if e.payload != 4 * dimensions { return Recoverable; }
    if !e.vector.Blob? { return Recoverable; }
    var blob := e.vector.bytes;
    if |blob| != 4 * dimensions {
      forall v | Decodable(v, dimensions) ensures Encoded(v) != blob { EncodedLength(v); }
      return Recoverable;
    }
    var vector: Vector := [];
    for i := 0 to dimensions
      invariant |vector| == i && AllFinite(vector)
      invariant Encoded(vector) == blob[..4 * i]
    {
      var word := blob[4 * i..4 * i + 4];
      var x := Word(word);
      LittleEndianOfWord(word);
      if !IsFinite(x) {
        forall v | Encoded(v) == blob && |v| == dimensions ensures !AllFinite(v) {
          EncodedAt(v, i);
          WordOfLittleEndian(v[i]);
        }
        return Recoverable;
      }
      EncodedAppend(vector, [x]);
      assert Encoded([x]) == word;
      assert blob[..4 * i] + word == blob[..4 * (i + 1)];
      vector := vector + [x];
    }
    assert blob[..4 * dimensions] == blob;
    return Valid(vector);
  }

  /** Keys are unique, so the row found is the only one with its key. */
  lemma OnlyRow(entries: seq<Entry>, space: Digest, digest: Digest, k: nat)
    requires k < |entries| && entries[k].space == space && entries[k].text == digest
    requires forall i, j :: 0 <= i < j < |entries| ==>
      entries[i].space != entries[j].space || entries[i].text != entries[j].text
    ensures forall i :: 0 <= i < |entries| && entries[i].space == space && entries[i].text == digest ==> i == k
  {
  }

  // ---- what the file promises ----------------------------------------------

  /** A row that passes validation for a text holds the endpoint's vector for it. */
  ghost predicate FaithfulEntry(o: Remote, e: Entry) {
    forall text: Text, v: Vector ::
      o.hash(text) == e.text && Stores(e, text, o.dimensions(e.space), v) ==> v == o.vector(e.space, text)
  }

  ghost predicate Faithful(o: Remote, entries: seq<Entry>) {
    forall i :: 0 <= i < |entries| ==> FaithfulEntry(o, entries[i])
  }

  ghost predicate Sound(o: Remote, f: File) {
    Accounted(f) && Faithful(o, f.entries)
  }

  ghost predicate OwnResults(o: Remote, space: Digest, generated: seq<Generated>) {
    forall i :: 0 <= i < |generated| ==>
      generated[i].digest == o.hash(generated[i].text) && generated[i].vector == o.vector(space, generated[i].text)
  }

  lemma FreshEntryFaithful(o: Remote, id: nat, space: Digest, text: Text)
    requires IsRemote(o)
    ensures FaithfulEntry(o, FreshEntry(id, space, o.hash(text), |text|, o.dimensions(space), o.vector(space, text)))
  {
    var e := FreshEntry(id, space, o.hash(text), |text|, o.dimensions(space), o.vector(space, text));
    forall t: Text, v: Vector | o.hash(t) == e.text && Stores(e, t, o.dimensions(space), v)
      ensures v == o.vector(space, t)
    {
      EncodedInjective(v, o.vector(space, text));
    }
  }

  lemma {:induction false} InsertedFaithful(o: Remote, f: File, space: Digest, generated: seq<Generated>, maxBytes: nat)
    requires IsRemote(o) && OwnResults(o, space, generated)
    requires Faithful(o, f.entries)
    ensures Faithful(o, Inserted(f, space, o.dimensions(space), generated, maxBytes).entries)
    decreases generated
  {
    if generated != [] {
      var f' := InsertOne(f, space, o.dimensions(space), generated[0], maxBytes);
      FreshEntryFaithful(o, f.nextId, space, generated[0].text);
      assert Faithful(o, f'.entries);
      InsertedFaithful(o, f', space, generated[1..], maxBytes);
    }
  }

  lemma PublishKeepsSound(
    o: Remote, f: File, space: Digest, generated: seq<Generated>, maxBytes: nat, ok: bool, f': File)
    requires IsRemote(o) && Sound(o, f) && OwnResults(o, space, generated)
    requires PublishPost(f, space, o.dimensions(space), generated, maxBytes, ok, f')
    ensures Sound(o, f') && Stable(f, f')
  {
    StepKeeps(f, Publish(space, o.dimensions(space), generated, maxBytes, ok), f');
    if ok {
      InsertedFaithful(o, f, space, generated, maxBytes);
      var g := Inserted(f, space, o.dimensions(space), generated, maxBytes);
      var k: nat :| IsShortestEviction(g.entries, maxBytes, k) && f'.entries == g.entries[k..];
      assert forall i :: 0 <= i < |f'.entries| ==> f'.entries[i] == g.entries[k + i];
    }
  }

  lemma DeleteKeepsSound(o: Remote, f: File, id: nat, payload: nat, ok: bool, f': File)
    requires Sound(o, f) && DeletePost(f, id, payload, ok, f')
    requires forall i :: 0 <= i < |f.entries| && f.entries[i].id == id ==> f.entries[i].payload == payload
    ensures Sound(o, f') && Stable(f, f')
  {
    DeleteKeeps(f, id, payload, ok, f');
    if f' != f {
      var k :| 0 <= k < |f.entries| && f'.entries == Without(f.entries, k);
      WithoutAt(f.entries, k);
    }
  }

  lemma EnforceKeepsSound(o: Remote, f: File, maxBytes: nat, ok: bool, f': File)
    requires Sound(o, f) && EnforcePost(f, maxBytes, ok, f')
    ensures Sound(o, f') && Stable(f, f')
  {
    StepKeeps(f, Enforce(maxBytes, ok), f');
  }

  /** What the other clients of the file may do between two of our transactions. */
  ghost predicate Rely(o: Remote, f: File, f': File) {
    Sound(o, f) ==> Sound(o, f') && Stable(f, f')
  }

  /** A transaction as clients of this provider make it, or damage that validation
      can detect: results are the client's own, a deletion's payload is not stale,
      and no damaged row passes for the vector of another text. */
  ghost predicate Honest(o: Remote, f: File, step: Step, f': File) {
    && StepPost(f, step, f')
    && match step
       case Publish(space, dimensions, generated, _, _) =>
         dimensions == o.dimensions(space) && OwnResults(o, space, generated)
       case DeleteDamaged(_, id, payload, _) =>
         forall i :: 0 <= i < |f.entries| && f.entries[i].id == id ==> f.entries[i].payload == payload
       case Damage => Faithful(o, f'.entries)
       case Enforce(_, _) => true
  }

  /** Every such transaction is within what the others rely on. */
  lemma HonestRelies(o: Remote, f: File, step: Step, f': File)
    requires IsRemote(o) && Honest(o, f, step, f')
    ensures Rely(o, f, f')
  {
    if Sound(o, f) {
      StepKeeps(f, step, f');
      match step
      case Publish(space, _, generated, maxBytes, ok) => PublishKeepsSound(o, f, space, generated, maxBytes, ok, f');
      case DeleteDamaged(_, id, payload, ok) => DeleteKeepsSound(o, f, id, payload, ok, f');
      case Enforce(maxBytes, ok) => EnforceKeepsSound(o, f, maxBytes, ok, f');
      case Damage =>
    }
  }

  /** Any interleaving of honest transactions of any number of clients, each deleting
      what it read at some earlier time. */
  ghost predicate HonestInterleaving(o: Remote, files: seq<File>, steps: seq<Step>) {
    && Interleaving(files, steps)
    && forall n :: 0 <= n < |steps| ==>
      match steps[n]
      case Publish(space, dimensions, generated, _, _) =>
        dimensions == o.dimensions(space) && OwnResults(o, space, generated)
      case Damage => Faithful(o, files[n + 1].entries)
      case _ => true
  }

  lemma StepOfInterleaving(o: Remote, files: seq<File>, steps: seq<Step>, n: nat)
    requires HonestInterleaving(o, files, steps) && n < |steps|
    ensures Honest(o, files[n], steps[n], files[n + 1])
  {
    var step := steps[n];
    if step.DeleteDamaged? {
      InterleavingKeeps(files, steps, n);
      InterleavingKeeps(files, steps, step.readAt);
      NotStale(files[step.readAt], files[n], step.id, step.payload);
    }
  }

  /** In every state of every interleaving, the counter is exact and every row that
      passes validation holds the endpoint's vector. */
  lemma {:induction false} InterleavingSound(o: Remote, files: seq<File>, steps: seq<Step>, n: nat)
    requires IsRemote(o) && HonestInterleaving(o, files, steps) && n < |files|
    ensures Sound(o, files[n])
  {
    if n == 0 {
      InterleavingKeeps(files, steps, 0);
    } else {
      InterleavingSound(o, files, steps, n - 1);
      StepOfInterleaving(o, files, steps, n - 1);
      HonestRelies(o, files[n - 1], steps[n - 1], files[n]);
    }
  }

  /** What any stretch of an interleaving does is within what a client relies on. */
  lemma StretchRelies(o: Remote, files: seq<File>, steps: seq<Step>, m: nat, n: nat)
    requires IsRemote(o) && HonestInterleaving(o, files, steps) && m <= n < |files|
    ensures Rely(o, files[m], files[n])
  {
    InterleavingSound(o, files, steps, n);
    InterleavingKeeps(files, steps, n);
  }

  lemma {:induction false} InsertedSnoc(
    f: File, space: Digest, dimensions: nat, generated: seq<Generated>, g: Generated, maxBytes: nat)
    ensures Inserted(f, space, dimensions, generated + [g], maxBytes)
         == InsertOne(Inserted(f, space, dimensions, generated, maxBytes), space, dimensions, g, maxBytes)
    decreases generated
  {
    if generated == [] {
      assert generated + [g] == [g];
      assert Inserted(f, space, dimensions, [g], maxBytes)
          == Inserted(InsertOne(f, space, dimensions, g, maxBytes), space, dimensions, [], maxBytes);
    } else {
      assert (generated + [g])[1..] == generated[1..] + [g];
      InsertedSnoc(InsertOne(f, space, dimensions, generated[0], maxBytes), space, dimensions, generated[1..], g,
        maxBytes);
    }
  }

  /** The file holds a valid row for the text. */
  ghost predicate Holds(entries: seq<Entry>, space: Digest, text: Text, digest: Digest, dimensions: nat) {
    exists i, v ::
      && 0 <= i < |entries| && entries[i].space == space && entries[i].text == digest
      && Stores(entries[i], text, dimensions, v)
  }

  // ---- what was published is found ------------------------------------------

  lemma InsertedIsHeld(f: File, space: Digest, dimensions: nat, g: Generated, maxBytes: nat)
    requires Inserts(f.entries, space, g.digest, dimensions, g.vector, maxBytes) && Decodable(g.vector, dimensions)
    ensures var f' := InsertOne(f, space, dimensions, g, maxBytes);
      && |f'.entries| == |f.entries| + 1 && f'.entries[..|f.entries|] == f.entries
      && var e := f'.entries[|f.entries|];
      e.space == space && e.text == g.digest && Stores(e, g.text, dimensions, g.vector)
  {
  }

  /** Every row of the space beyond the first `n` stores the endpoint's vector for the
      text whose digest it carries. */
  ghost predicate HeldBeyond(o: Remote, space: Digest, entries: seq<Entry>, n: nat) {
    forall i, t :: n <= i < |entries| && entries[i].space == space && entries[i].text == o.hash(t) ==>
      Stores(entries[i], t, o.dimensions(space), o.vector(space, t))
  }

  lemma {:induction false} InsertedAreHeld(
    o: Remote, f: File, space: Digest, generated: seq<Generated>, maxBytes: nat, n: nat)
    requires IsRemote(o) && OwnResults(o, space, generated) && n <= |f.entries| && HeldBeyond(o, space, f.entries, n)
    ensures var g := Inserted(f, space, o.dimensions(space), generated, maxBytes);
      f.entries <= g.entries && HeldBeyond(o, space, g.entries, n)
    decreases generated
  {
    if generated != [] {
      var dimensions := o.dimensions(space);
      var f' := InsertOne(f, space, dimensions, generated[0], maxBytes);
      if Inserts(f.entries, space, generated[0].digest, dimensions, generated[0].vector, maxBytes) {
        InsertedIsHeld(f, space, dimensions, generated[0], maxBytes);
      }
      InsertedAreHeld(o, f', space, generated[1..], maxBytes, n);
    }
  }

  /** A text that had no row before its vector was published, and has one after, is
      held: a following lookup is a hit. */
  lemma PublishedIsHeld(
    o: Remote, f: File, space: Digest, generated: seq<Generated>, maxBytes: nat, f': File, text: Text)
    requires IsRemote(o) && OwnResults(o, space, generated)
    requires PublishPost(f, space, o.dimensions(space), generated, maxBytes, true, f')
    requires !HasKey(f.entries, space, o.hash(text)) && HasKey(f'.entries, space, o.hash(text))
    ensures Holds(f'.entries, space, text, o.hash(text), o.dimensions(space))
  {
    hide Inserted, Holds, HeldBeyond, HasKey, Sum;
    var g := Inserted(f, space, o.dimensions(space), generated, maxBytes);
    NothingBeyond(o, space, f.entries);
    InsertedAreHeld(o, f, space, generated, maxBytes, |f.entries|);
    var k: nat :| IsShortestEviction(g.entries, maxBytes, k) && f'.entries == g.entries[k..];
    RestIsHeld(o, space, f.entries, g.entries, k, text);
  }

  lemma NothingBeyond(o: Remote, space: Digest, entries: seq<Entry>)
    ensures HeldBeyond(o, space, entries, |entries|)
  {
  }

  lemma RestIsHeld(o: Remote, space: Digest, before: seq<Entry>, entries: seq<Entry>, k: nat, text: Text)
    requires before <= entries && k <= |entries| && HeldBeyond(o, space, entries, |before|)
    requires !HasKey(before, space, o.hash(text)) && HasKey(entries[k..], space, o.hash(text))
    ensures Holds(entries[k..], space, text, o.hash(text), o.dimensions(space))
  {
    hide Stores;
    var kept := entries[k..];
    var i :| 0 <= i < |kept| && kept[i].space == space && kept[i].text == o.hash(text);
    assert entries[k + i] == kept[i];
    if k + i < |before| {
      assert false;
    }
    assert Stores(kept[i], text, o.dimensions(space), o.vector(space, text));
  }

  /** When all of it fits, publishing keeps what was there and adds every text. */
  lemma {:induction false} InsertedHasKeys(
    o: Remote, f: File, space: Digest, generated: seq<Generated>, maxBytes: nat)
    requires IsRemote(o) && OwnResults(o, space, generated)
    requires 1 <= o.dimensions(space) <= MAX_DIMENSIONS && 4 * o.dimensions(space) <= maxBytes
    ensures var g := Inserted(f, space, o.dimensions(space), generated, maxBytes);
      && f.entries <= g.entries
      && Sum(g.entries) <= Sum(f.entries) + |generated| * (4 * o.dimensions(space))
      && forall i :: 0 <= i < |generated| ==> HasKey(g.entries, space, generated[i].digest)
    decreases generated
  {
    if generated != [] {
      var dimensions := o.dimensions(space);
      var first := generated[0];
      var f' := InsertOne(f, space, dimensions, first, maxBytes);
      OneMore(f, space, dimensions, first, maxBytes);
      InsertedHasKeys(o, f', space, generated[1..], maxBytes);
      hide InsertOne, HasKey, Sum;
      KeysStay(f'.entries, Inserted(f', space, dimensions, generated[1..], maxBytes).entries, space, first.digest);
      assert |generated| * (4 * dimensions) == (|generated| - 1) * (4 * dimensions) + 4 * dimensions;
    }
  }

  lemma KeysStay(entries: seq<Entry>, more: seq<Entry>, space: Digest, text: Digest)
    requires entries <= more && HasKey(entries, space, text)
    ensures HasKey(more, space, text)
  {
    var i :| 0 <= i < |entries| && entries[i].space == space && entries[i].text == text;
    assert more[i] == entries[i];
  }

  lemma OneMore(f: File, space: Digest, dimensions: nat, g: Generated, maxBytes: nat)
    requires |g.vector| == dimensions && 1 <= dimensions <= MAX_DIMENSIONS && 4 * dimensions <= maxBytes
    ensures f.entries <= InsertOne(f, space, dimensions, g, maxBytes).entries
    ensures HasKey(InsertOne(f, space, dimensions, g, maxBytes).entries, space, g.digest)
    ensures Sum(InsertOne(f, space, dimensions, g, maxBytes).entries) <= Sum(f.entries) + 4 * dimensions
  {
    if Inserts(f.entries, space, g.digest, dimensions, g.vector, maxBytes) {
      var e := FreshEntry(f.nextId, space, g.digest, |g.text|, dimensions, g.vector);
      SumAppend(f.entries, [e]);
      assert (f.entries + [e])[|f.entries|].text == g.digest;
    }
  }

  lemma AllPublished(
    o: Remote, f: File, space: Digest, generated: seq<Generated>, maxBytes: nat, f': File)
    requires IsRemote(o) && OwnResults(o, space, generated)
    requires PublishPost(f, space, o.dimensions(space), generated, maxBytes, true, f')
    requires 1 <= o.dimensions(space) <= MAX_DIMENSIONS && 4 * o.dimensions(space) <= maxBytes
    requires Sum(f.entries) + |generated| * (4 * o.dimensions(space)) <= maxBytes
    ensures f.entries <= f'.entries
    ensures forall i :: 0 <= i < |generated| ==> HasKey(f'.entries, space, generated[i].digest)
  {
    InsertedHasKeys(o, f, space, generated, maxBytes);
    var g := Inserted(f, space, o.dimensions(space), generated, maxBytes);
    var k: nat :| IsShortestEviction(g.entries, maxBytes, k) && f'.entries == g.entries[k..];
    assert g.entries[0..] == g.entries;
    assert k == 0;
  }

  datatype StatementError = Broken | InvalidQuery

  /** A client's handle on the shared file.  Any statement may fail; `others` is
      what the other clients do whenever no transaction of ours is open. */
  class CacheFile {
    var entries: seq<Entry>
    var used: int
    var check: int
    var nextId: nat
    var clock: nat
    const others: (nat, File) -> File

    /** Something outside this client stood in the way: SQLite refused a statement, or
        the caller cancelled. */
    ghost var hindered: bool

    constructor (f: File, others: (nat, File) -> File)
      ensures Snapshot() == f && this.others == others
    {
      entries, used, check, nextId, clock := f.entries, f.used, f.check, f.nextId, 0;
      this.others, hindered := others, false;
    }

    function Snapshot(): File
      reads this
    {
      File(entries, used, check, nextId)
    }

    /** The file is sound for an endpoint, and other clients keep it so. */
    ghost predicate SoundlyShared(o: Remote)
      reads this
    {
      Sound(o, Snapshot()) && forall t: nat, f: File :: Rely(o, f, others(t, f))
    }

    ghost predicate Valid(o: Remote)
      reads this
    {
      IsRemote(o) && SoundlyShared(o)
    }

    /** ROLLBACK: the file is as it was at BEGIN. */
    method Restore(f: File)
      modifies this`entries, this`used, this`check, this`nextId
      ensures Snapshot() == f
    {
      entries, used, check, nextId := f.entries, f.used, f.check, f.nextId;
    }

    method OthersRun(ghost o: Remote)
      requires Valid(o)
      modifies this
      ensures Valid(o) && Stable(old(Snapshot()), Snapshot()) && hindered == old(hindered)
    {
      var f := others(clock, Snapshot());
      clock := clock + 1;
      assert Rely(o, Snapshot(), f);
      Restore(f);
    }

    /** Oldest-first eviction.  From an exact counter it neither runs dry nor
        underflows, and it stops at the first fit. */
    method EvictToBudget(start: nat, maxBytes: nat) returns (r: Result<nat, StatementError>)
      requires start == Sum(entries)
      modifies this`entries, this`hindered
      ensures r != Err(InvalidQuery) && hindered == (old(hindered) || r.Err?)
      ensures r.Ok? ==> EvictedTo(old(entries), maxBytes, entries) && r.value == Sum(entries)
    {
      var remaining := start;
      ghost var k := 0;
      ghost var all := entries;
      while remaining > maxBytes
        invariant k <= |all| && entries == all[k..] && remaining == Sum(entries)
        invariant forall j :: 0 <= j < k ==> Sum(all[j..]) > maxBytes
        invariant hindered == old(hindered)
        decreases |entries|
      {
        var broken: bool := *;
        hindered := hindered || broken;
        if broken { return Err(Broken); }
        if entries == [] { return Err(InvalidQuery); }
        var payload := entries[0].payload;
        if payload > remaining { return Err(InvalidQuery); }
        assert Sum(entries) == payload + Sum(entries[1..]) && all[k..][1..] == all[k + 1..];
        remaining := remaining - payload;
        entries := entries[1..];
        k := k + 1;
      }
      assert IsShortestEviction(all, maxBytes, k);
      return Ok(remaining);
    }

    method WriteCounter(value: nat) returns (ok: bool)
      modifies this`used, this`check, this`hindered
      ensures hindered == (old(hindered) || (!ok && value <= I64_MAX))
      ensures ok ==> value <= I64_MAX && used == value && check == Complement(value)
    {
      if value > I64_MAX { return false; }
      ok := *;
      hindered := hindered || !ok;
      if ok {
        used, check := value, Complement(value);
      }
    }

    method PublishEntries(space: Digest, dimensions: nat, generated: seq<Generated>, maxBytes: nat)
      returns (r: Result<nat, StatementError>)
      requires used == Sum(entries)
      modifies this`entries, this`nextId, this`hindered
      ensures hindered == (old(hindered) || r.Err?)
      ensures Snapshot() == old(Snapshot()).(entries := entries, nextId := nextId)
      ensures r.Ok? ==>
        Snapshot() == Inserted(old(Snapshot()), space, dimensions, generated, maxBytes) && r.value == Sum(entries)
    {
      var total := used;
      ghost var f := Snapshot();
      for n := 0 to |generated|
        invariant Snapshot() == Inserted(f, space, dimensions, generated[..n], maxBytes)
        invariant used == f.used && check == f.check && total == Sum(entries) && hindered == old(hindered)
      {
        var broken: bool := *;
        hindered := hindered || broken;
        if broken { return Err(Broken); }
        var g := generated[n];
        assert generated[..n + 1] == generated[..n] + [g];
        InsertedSnoc(f, space, dimensions, generated[..n], g, maxBytes);
        var payload := 4 * |g.vector|;
        if payload <= maxBytes {
          var blob := EncodeVector(g.vector);
          var duplicate := exists i :: 0 <= i < |entries| && entries[i].space == space && entries[i].text == g.digest;
          if !duplicate && 1 <= dimensions <= MAX_DIMENSIONS {
            var row := Entry(nextId, space, g.digest, Integer(|g.text|), Integer(dimensions), Blob(blob), payload);
            SumAppend(entries, [row]);
            entries := entries + [row];
            nextId := nextId + 1;
            total := total + payload;
          }
        }
      }
      assert generated[..|generated|] == generated;
      return Ok(total);
    }

    method Publish(space: Digest, dimensions: nat, generated: seq<Generated>, maxBytes: nat) returns (ok: bool)
      requires Accounted(Snapshot())
      modifies this`entries, this`used, this`check, this`nextId, this`hindered
      ensures !ok && maxBytes <= I64_MAX ==> hindered
      ensures old(hindered) ==> hindered
      ensures PublishPost(old(Snapshot()), space, dimensions, generated, maxBytes, ok, Snapshot())
    {
      var saved := Snapshot();
      if used < 0 || check != Complement(used) { return false; }
      var published := PublishEntries(space, dimensions, generated, maxBytes);
      if published.Err? {
        Restore(saved);
        return false;
      }
      var evicted := EvictToBudget(published.value, maxBytes);
      if evicted.Err? {
        Restore(saved);
        return false;
      }
      ok := WriteCounter(evicted.value);
      var committed: bool := *;
      hindered := hindered || !committed;
      ok := ok && committed;
      if !ok { Restore(saved); }
    }

    /** The eviction transaction of `enforce_budget`. */
    method EvictInTransaction(maxBytes: nat) returns (ok: bool)
      requires Accounted(Snapshot())
      modifies this`entries, this`used, this`check, this`nextId, this`hindered
      ensures !ok && maxBytes <= I64_MAX ==> hindered
      ensures old(hindered) ==> hindered
      ensures EnforcePost(old(Snapshot()), maxBytes, ok, Snapshot())
      ensures ok ==> used <= maxBytes
    {
      if used < 0 || check != Complement(used) { return false; }
      var saved := Snapshot();
      var evicted := EvictToBudget(used, maxBytes);
      if evicted.Err? {
        Restore(saved);
        return false;
      }
      ok := WriteCounter(evicted.value);
      var committed: bool := *;
      hindered := hindered || !committed;
      ok := ok && committed;
      if !ok { Restore(saved); }
    }

    /** The counter is first read outside a transaction; over budget, and only then,
        the file is rewritten, after whatever others did in between. */
    method EnforceBudget(ghost o: Remote, maxBytes: nat) returns (ok: bool)
      requires Valid(o)
      modifies this
      ensures Valid(o) && Stable(old(Snapshot()), Snapshot()) && (old(hindered) ==> hindered)
      ensures !ok && maxBytes <= I64_MAX ==> hindered
      ensures ok ==> used <= maxBytes
    {
      var broken: bool := *;
      hindered := hindered || broken;
      if broken || used < 0 || check != Complement(used) {
        StableSelf(Snapshot());
        return false;
      }
      if used <= maxBytes {
        StableSelf(Snapshot());
        return true;
      }
      ghost var start := Snapshot();
      OthersRun(o);
      ghost var f := Snapshot();
      ok := EvictInTransaction(maxBytes);
      EnforceKeepsSound(o, f, maxBytes, ok, Snapshot());
      StableTransitive(start, f, Snapshot());
    }

    /** Removes a damaged row that was read before this transaction began. */
    method DeleteDamagedEntry(id: nat, payload: nat) returns (ok: bool)
      requires Accounted(Snapshot())
      modifies this`entries, this`used, this`check, this`nextId, this`hindered
      ensures
        var rows := old(entries);
        !ok && (forall i :: 0 <= i < |rows| && rows[i].id == id ==> rows[i].payload == payload) ==> hindered
      ensures old(hindered) ==> hindered
      ensures DeletePost(old(Snapshot()), id, payload, ok, Snapshot())
    {
      var saved := Snapshot();
      if used < 0 || check != Complement(used) { return false; }
      if k :| 0 <= k < |entries| && entries[k].id == id {
        SumRemove(entries, k);
        entries := Without(entries, k);
        if payload > used {
          Restore(saved);
          return false;
        }
        ok := WriteCounter(used - payload);
        var committed: bool := *;
        hindered := hindered || !committed;
        ok := ok && committed;
        if !ok { Restore(saved); }
      } else {
        ok := true;
      }
    }

    /** A hit is the endpoint's vector, and there is one exactly when the file holds a
        valid row; a damaged row is removed and counts as a miss. */
    method Lookup(ghost o: Remote, space: Digest, text: Text, digest: Digest, dimensions: nat)
      returns (r: Result<Option<Vector>, Failure>)
      requires Valid(o) && digest == o.hash(text) && dimensions == o.dimensions(space)
      modifies this
      ensures Valid(o) && Stable(old(Snapshot()), Snapshot()) && (old(hindered) ==> hindered)
      ensures r.Err? && |text| <= I64_MAX ==> hindered
      ensures r.Ok? ==> (r.value.Some? <==> Holds(old(entries), space, text, digest, dimensions))
      ensures r.Ok? && r.value.Some? ==> r.value.value == o.vector(space, text)
    {
      StableSelf(Snapshot());
      var broken: bool := *;
      hindered := hindered || broken;
      if broken { return Err(Io); }
      if k :| 0 <= k < |entries| && entries[k].space == space && entries[k].text == digest {
        var row := entries[k];
        var verdict := ValidateEntry(text, dimensions, row);
        match verdict
        case Valid(vector) =>
          assert FaithfulEntry(o, row);
          return Ok(Some(vector));
        case Structural => return Err(Io);
        case Recoverable =>
          OnlyRow(entries, space, digest, k);
          r := DropRow(o, row);
      } else {
        return Ok(None);
      }
    }

    /** Removing a row found damaged, after whatever others did since it was read. */
    method DropRow(ghost o: Remote, row: Entry) returns (r: Result<Option<Vector>, Failure>)
      requires Valid(o) && row in entries
      modifies this
      ensures Valid(o) && Stable(old(Snapshot()), Snapshot()) && (old(hindered) ==> hindered)
      ensures r.Err? ==> hindered
      ensures r.Ok? ==> r.value == None
    {
      ghost var seen := Snapshot();
      assert ReadEarlier(seen, row.id, row.payload);
      OthersRun(o);
      NotStale(seen, Snapshot(), row.id, row.payload);
      ghost var f := Snapshot();
      var ok := DeleteDamagedEntry(row.id, row.payload);
      DeleteKeepsSound(o, f, row.id, row.payload, ok, Snapshot());
      StableTransitive(seen, f, Snapshot());
      return if ok then Ok(None) else Err(Io);
    }
  }

  // ---- the pipeline --------------------------------------------------------

  /** The hash function a client computes is the one rows are stored under. */
  ghost predicate Hashes(hash: Text -> Digest, o: Remote) {
    forall t :: hash(t) == o.hash(t)
  }

  ghost predicate Resolves(o: Remote, space: Digest, resolved: map<Text, Vector>) {
    forall t :: t in resolved ==> resolved[t] == o.vector(space, t)
  }

  /** Each text was looked up in some state of the file, and is resolved if that state
      held a valid row for it, else a miss. */
  ghost predicate SplitBySight(
    o: Remote, space: Digest, resolved: map<Text, Vector>, misses: seq<Text>, seen: map<Text, File>)
  {
    forall t :: t in resolved || t in misses ==>
      && t in seen
      && (t in resolved <==> Holds(seen[t].entries, space, t, o.hash(t), o.dimensions(space)))
      && (t in misses <==> !Holds(seen[t].entries, space, t, o.hash(t), o.dimensions(space)))
  }

  lemma NothingSeen(o: Remote, space: Digest)
    ensures SplitBySight(o, space, map[], [], map[])
  {
  }

  predicate AllShort(texts: seq<Text>) {
    forall t :: t in texts ==> |t| <= I64_MAX
  }

  /** One text, after whatever others did. */
  method LookupText(
    file: CacheFile, ghost o: Remote, hash: Text -> Digest, space: Digest, text: Text, dimensions: nat)
    returns (found: Result<Option<Vector>, Failure>, ghost sight: File)
    requires file.Valid(o) && Hashes(hash, o) && dimensions == o.dimensions(space)
    modifies file
    ensures file.Valid(o) && Stable(old(file.Snapshot()), file.Snapshot()) && (old(file.hindered) ==> file.hindered)
    ensures found.Err? && |text| <= I64_MAX ==> file.hindered
    ensures found.Ok? ==> (found.value.Some? <==> Holds(sight.entries, space, text, o.hash(text), dimensions))
    ensures found.Ok? && found.value.Some? ==> found.value.value == o.vector(space, text)
  {
    hide Holds, Stable;
    ghost var start := file.Snapshot();
    file.OthersRun(o);
    sight := file.Snapshot();
    found := file.Lookup(o, space, text, hash(text), dimensions);
    StableTransitive(start, sight, file.Snapshot());
  }

  lemma SightAdded(
    o: Remote, space: Digest, resolved: map<Text, Vector>, misses: seq<Text>, seen: map<Text, File>,
    text: Text, found: Option<Vector>, sight: File)
    requires SplitBySight(o, space, resolved, misses, seen) && text !in resolved && text !in misses
    requires found.Some? <==> Holds(sight.entries, space, text, o.hash(text), o.dimensions(space))
    ensures var seen' := seen[text := sight];
      if found.Some? then SplitBySight(o, space, resolved[text := found.value], misses, seen')
      else SplitBySight(o, space, resolved, misses + [text], seen')
  {
    hide Holds;
  }

  method LookupCachedTexts(
    file: CacheFile, ghost o: Remote, hash: Text -> Digest, space: Digest, texts: seq<Text>, dimensions: nat)
    returns (r: Result<(map<Text, Vector>, seq<Text>), Failure>, ghost seen: map<Text, File>)
    requires file.Valid(o) && Hashes(hash, o) && dimensions == o.dimensions(space)
    modifies file
    ensures file.Valid(o) && Stable(old(file.Snapshot()), file.Snapshot())
    ensures r.Ok? ==> Resolves(o, space, r.value.0)
    ensures r.Ok? ==> |r.value.1| <= |texts| && forall t :: t in texts ==> t in r.value.0 || t in r.value.1
    ensures r.Ok? ==> SplitBySight(o, space, r.value.0, r.value.1, seen)
    ensures (old(file.hindered) ==> file.hindered) && (r.Err? && AllShort(texts) ==> file.hindered)
  {
    var resolved: map<Text, Vector>, misses: seq<Text> := map[], [];
    hide Holds, Stable, SplitBySight;
    seen := map[];
    NothingSeen(o, space);
    ghost var start := file.Snapshot();
    StableSelf(start);
    for n := 0 to |texts|
      invariant |misses| <= n && SplitBySight(o, space, resolved, misses, seen)
      invariant old(file.hindered) ==> file.hindered
      invariant file.Valid(o) && Resolves(o, space, resolved) && Stable(start, file.Snapshot())
      invariant forall i :: 0 <= i < n ==> texts[i] in resolved || texts[i] in misses
    {
      var cancelled: bool := *;
      file.hindered := file.hindered || cancelled;
      if cancelled { return Err(Cancelled), seen; }
      var text := texts[n];
      if text in resolved || text in misses { continue; }
      ghost var before := file.Snapshot();
      ghost var sight;
      var found;
      found, sight := LookupText(file, o, hash, space, text, dimensions);
      StableTransitive(start, before, file.Snapshot());
      if found.Err? { return Err(found.error), seen; }
      SightAdded(o, space, resolved, misses, seen, text, found.value, sight);
      seen := seen[text := sight];
      if found.value.Some? {
        resolved := resolved[text := found.value.value];
      } else {
        misses := misses + [text];
      }
    }
    return Ok((resolved, misses)), seen;
  }

  /** Cutting the concatenation into groups of `dimensions` gives the single results back. */
  lemma {:induction false} ChunkOfEmbedAll(f: Text -> Vector, texts: seq<Text>, dimensions: nat, i: nat)
    requires i < |texts| && forall t :: |f(t)| == dimensions
    ensures |EmbedAll(f, texts)| == |texts| * dimensions
    ensures 0 <= i * dimensions <= (i + 1) * dimensions <= |texts| * dimensions
    ensures EmbedAll(f, texts)[i * dimensions..(i + 1) * dimensions] == f(texts[i])
  {
    EmbedAllLength(f, texts, dimensions);
    EmbedAllLength(f, texts[..i], dimensions);
    MultiplyMonotone(i + 1, |texts|, dimensions);
    assert i * dimensions + dimensions == (i + 1) * dimensions;
    EmbedAllSplit(f, texts, i);
    var before, after := EmbedAll(f, texts[..i]), EmbedAll(f, texts[i + 1..]);
    SliceOfMiddle(before, f(texts[i]), after);
  }

  lemma {:induction false} EmbedAllSplit(f: Text -> Vector, texts: seq<Text>, i: nat)
    requires i < |texts|
    ensures EmbedAll(f, texts) == EmbedAll(f, texts[..i]) + f(texts[i]) + EmbedAll(f, texts[i + 1..])
  {
    EmbedAllAppend(f, texts[..i], texts[i..]);
    assert texts == texts[..i] + texts[i..];
    assert texts[i..][1..] == texts[i + 1..];
  }

  lemma SliceOfMiddle(a: Vector, b: Vector, c: Vector)
    ensures (a + b + c)[|a|..|a| + |b|] == b
  {
  }

  lemma MultiplyMonotone(a: nat, b: nat, c: nat)
    requires a <= b
    ensures a * c <= b * c
  {
  }

  lemma {:induction false} EmbedAllLength(f: Text -> Vector, texts: seq<Text>, dimensions: nat)
    requires forall t :: |f(t)| == dimensions
    ensures |EmbedAll(f, texts)| == |texts| * dimensions
  {
    if texts != [] {
      EmbedAllLength(f, texts[1..], dimensions);
      assert (|texts| - 1) * dimensions + dimensions == |texts| * dimensions;
    }
  }

  method PairWithTexts(
    ghost o: Remote, hash: Text -> Digest, ghost space: Digest, misses: seq<Text>, values: Vector,
    resolved: map<Text, Vector>, dimensions: nat)
    returns (generated: seq<Generated>, merged: map<Text, Vector>)
    requires IsRemote(o) && Hashes(hash, o) && dimensions == o.dimensions(space) && Resolves(o, space, resolved)
    requires values == EmbedAll(t => o.vector(space, t), misses)
    ensures |generated| == |misses| && OwnResults(o, space, generated) && Resolves(o, space, merged)
    ensures forall i :: 0 <= i < |misses| ==> generated[i].text == misses[i]
    ensures forall t :: t in merged <==> t in resolved || t in misses
  {
    ghost var f := t => o.vector(space, t);
    generated, merged := [], resolved;
    for n := 0 to |misses|
      invariant |generated| == n && OwnResults(o, space, generated)
      invariant forall i :: 0 <= i < n ==> generated[i].text == misses[i]
      invariant Resolves(o, space, merged)
      invariant forall t :: t in merged <==> t in resolved || t in misses[..n]
    {
      ChunkOfEmbedAll(f, misses, dimensions, n);
      var vector := values[n * dimensions..(n + 1) * dimensions];
      generated := generated + [Generated(misses[n], hash(misses[n]), vector)];
      merged := merged[misses[n] := vector];
      assert misses[..n + 1] == misses[..n] + [misses[n]];
    }
    assert misses[..|misses|] == misses;
  }

  /** Every missed text that had no row and has one now is a hit from now on; and every
      missed text has one, beside all that was there, if the budget takes it all. */
  ghost predicate NowFound(o: Remote, space: Digest, before: File, misses: seq<Text>, maxBytes: nat, after: File) {
    var dimensions := o.dimensions(space);
    && (forall t ::
          t in misses && !HasKey(before.entries, space, o.hash(t)) && HasKey(after.entries, space, o.hash(t)) ==>
            Holds(after.entries, space, t, o.hash(t), dimensions))
    && (1 <= dimensions <= MAX_DIMENSIONS && 4 * dimensions <= maxBytes
        && Sum(before.entries) + |misses| * (4 * dimensions) <= maxBytes ==>
          before.entries <= after.entries && forall t :: t in misses ==> HasKey(after.entries, space, o.hash(t)))
  }

  lemma PublishedAreFound(
    o: Remote, before: File, space: Digest, misses: seq<Text>, generated: seq<Generated>, maxBytes: nat, after: File)
    requires IsRemote(o) && OwnResults(o, space, generated) && |generated| == |misses|
    requires forall i :: 0 <= i < |misses| ==> generated[i].text == misses[i]
    requires PublishPost(before, space, o.dimensions(space), generated, maxBytes, true, after)
    ensures NowFound(o, space, before, misses, maxBytes, after)
  {
    hide PublishPost, Holds, HasKey, Sum;
    var dimensions := o.dimensions(space);
    forall t | t in misses && !HasKey(before.entries, space, o.hash(t)) && HasKey(after.entries, space, o.hash(t))
      ensures Holds(after.entries, space, t, o.hash(t), dimensions)
    {
      PublishedIsHeld(o, before, space, generated, maxBytes, after, t);
    }
    if 1 <= dimensions <= MAX_DIMENSIONS && 4 * dimensions <= maxBytes
      && Sum(before.entries) + |misses| * (4 * dimensions) <= maxBytes
    {
      AllPublished(o, before, space, generated, maxBytes, after);
      forall t | t in misses ensures HasKey(after.entries, space, o.hash(t)) {
        var i :| 0 <= i < |misses| && misses[i] == t;
        assert generated[i].digest == o.hash(t);
      }
    }
  }

  method ResolveRemoteMisses(
    file: CacheFile, ghost o: Remote, hash: Text -> Digest, space: Digest,
    server: Server, misses: seq<Text>, resolved: map<Text, Vector>,
    dimensions: nat, batchSize: nat, retries: nat, maxBytes: nat, cancelled: nat -> bool)
    returns (r: Result<map<Text, Vector>, Failure>, ghost before: File)
    requires file.Valid(o) && Hashes(hash, o) && dimensions == o.dimensions(space) && batchSize > 0
    requires Pointwise(server, t => o.vector(space, t)) && Resolves(o, space, resolved)
    modifies file
    ensures file.Valid(o) && Stable(old(file.Snapshot()), file.Snapshot())
    ensures r.Ok? ==> Resolves(o, space, r.value)
    ensures r.Ok? ==> forall t :: t in r.value <==> t in resolved || t in misses
    ensures r.Ok? && misses != [] ==> NowFound(o, space, before, misses, maxBytes, file.Snapshot())
    ensures old(file.hindered) ==> file.hindered
    ensures r.Err? ==> misses != []
    ensures r.Err? && FitsLimits(misses, dimensions) && Answering(server, dimensions, retries) ==>
      file.hindered || (exists n :: cancelled(n)) || maxBytes > I64_MAX
  {
    ghost var start := file.Snapshot();
    before := start;
    StableSelf(start);
    if misses == [] { return Ok(resolved), before; }
    ghost var f := t => o.vector(space, t);
    var values := Http.Embed(server, f, misses, dimensions, batchSize, retries, cancelled);
    if values.Err? { return Err(values.error), before; }
    var generated, merged := PairWithTexts(o, hash, space, misses, values.value, resolved, dimensions);
    file.OthersRun(o);
    before := file.Snapshot();
    var ok := file.Publish(space, dimensions, generated, maxBytes);
    PublishKeepsSound(o, before, space, generated, maxBytes, ok, file.Snapshot());
    StableTransitive(start, before, file.Snapshot());
    if ok {
      PublishedAreFound(o, before, space, misses, generated, maxBytes, file.Snapshot());
    }
    return if ok then Ok(merged) else Err(Io), before;
  }

  method AssembleOutput(ghost o: Remote, ghost space: Digest, texts: seq<Text>, resolved: map<Text, Vector>)
    returns (r: Result<Vector, Failure>)
    requires Resolves(o, space, resolved)
    ensures r.Ok? <==> forall t :: t in texts ==> t in resolved
    ensures r.Ok? ==> r.value == EmbedAll(t => o.vector(space, t), texts)
  {
    ghost var f := t => o.vector(space, t);
    var output: Vector := [];
    for n := 0 to |texts|
      invariant forall i :: 0 <= i < n ==> texts[i] in resolved
      invariant output == EmbedAll(f, texts[..n])
    {
      if texts[n] !in resolved { return Err(Internal); }
      assert texts[..n + 1] == texts[..n] + [texts[n]];
      EmbedAllAppend(f, texts[..n], [texts[n]]);
      assert EmbedAll(f, [texts[n]]) == f(texts[n]) + EmbedAll(f, []);
      output := output + resolved[texts[n]];
    }
    assert texts[..|texts|] == texts;
    return Ok(output);
  }

  /** Cached embedding agrees with direct embedding: whatever is hit, missed,
      duplicated, damaged or changed by others in between, a successful result is
      the concatenation of the endpoint's vectors in input order.  The file keeps
      its promises, and all the call did is within what other clients rely on. */
  method EmbedCached(
    file: CacheFile, ghost o: Remote, hash: Text -> Digest, space: Digest,
    server: Server, texts: seq<Text>,
    dimensions: nat, batchSize: nat, retries: nat, maxBytes: nat, cancelled: nat -> bool)
    returns (r: Result<Vector, Failure>)
    requires file.Valid(o) && Hashes(hash, o) && dimensions == o.dimensions(space) && batchSize > 0
    requires Pointwise(server, t => o.vector(space, t))
    modifies file
    ensures file.Valid(o) && Rely(o, old(file.Snapshot()), file.Snapshot())
    ensures r.Ok? ==> r.value == EmbedAll(t => o.vector(space, t), texts)
    ensures r.Err? && FitsLimits(texts, dimensions) && Answering(server, dimensions, retries) ==>
      file.hindered || (exists n :: cancelled(n)) || !AllShort(texts) || maxBytes > I64_MAX
  {
    ghost var start := file.Snapshot();
    var within := file.EnforceBudget(o, maxBytes);
    if !within { return Err(Io); }
    ghost var enforced := file.Snapshot();
    var looked, seen := LookupCachedTexts(file, o, hash, space, texts, dimensions);
    StableTransitive(start, enforced, file.Snapshot());
    if looked.Err? { return Err(looked.error); }
    ghost var looking := file.Snapshot();
    MultiplyMonotone(|looked.value.1|, |texts|, dimensions);
    var resolved, before := ResolveRemoteMisses(file, o, hash, space, server, looked.value.1, looked.value.0,
      dimensions, batchSize, retries, maxBytes, cancelled);
    StableTransitive(start, looking, file.Snapshot());
    if resolved.Err? { return Err(resolved.error); }
    r := AssembleOutput(o, space, texts, resolved.value);
  }

  // ---- configurations ------------------------------------------------------

  /** An endpoint computes a vector for each configuration and text; spaces and texts
      are stored under the digests of their byte strings. */
  datatype Endpoint = Endpoint(
    version: Text, provider: Text, digest: Text -> Digest, vector: (SpaceKey, Text) -> Vector)

  ghost predicate IsEndpoint(e: Endpoint) {
    && Addressable(e.version) && Addressable(e.provider)
    && (forall s: Text, t: Text :: e.digest(s) == e.digest(t) ==> s == t)
    && forall k: SpaceKey, t: Text :: Representable(k) ==> Decodable(e.vector(k, t), k.dimensions)
  }

  /** `cache_space_hash`. */
  function SpaceOf(e: Endpoint, k: SpaceKey): Digest {
    e.digest(Preimage(e.version, e.provider, k))
  }

  ghost predicate Names(e: Endpoint, space: Digest, k: SpaceKey) {
    Representable(k) && SpaceOf(e, k) == space
  }

  /** The configuration a digest names, if it names any. */
  ghost function KeyOf(e: Endpoint, space: Digest): Option<SpaceKey> {
    if exists k :: Names(e, space, k) then var k :| Names(e, space, k); Some(k) else None
  }

  /** The endpoint as the cache sees it: by digests alone. */
  ghost function RemoteOf(e: Endpoint): Remote {
    Remote(e.digest,
      space => if KeyOf(e, space).Some? then KeyOf(e, space).value.dimensions else 0,
      (space, t) => if KeyOf(e, space).Some? then e.vector(KeyOf(e, space).value, t) else [])
  }

  /** A digest names one configuration only, since the framing is uniquely decodable. */
  lemma DigestNamesKey(e: Endpoint, k: SpaceKey)
    requires IsEndpoint(e) && Representable(k)
    ensures KeyOf(e, SpaceOf(e, k)) == Some(k)
  {
    hide Preimage, Representable;
    assert Names(e, SpaceOf(e, k), k);
    PreimageInjective(e.version, e.provider, k, KeyOf(e, SpaceOf(e, k)).value);
  }

  lemma EndpointIsRemote(e: Endpoint)
    requires IsEndpoint(e)
    ensures IsRemote(RemoteOf(e))
  {
    hide Preimage, Representable;
  }

  lemma {:induction false} EmbedAllCongruent(f: Text -> Vector, g: Text -> Vector, texts: seq<Text>)
    requires forall t :: f(t) == g(t)
    ensures EmbedAll(f, texts) == EmbedAll(g, texts)
  {
    if texts != [] {
      EmbedAllCongruent(f, g, texts[1..]);
    }
  }

  /** Two configurations never share vectors: cached embedding under a configuration
      is direct embedding under that same configuration. */
  method EmbedForKey(
    file: CacheFile, ghost e: Endpoint, digest: Text -> Digest, version: Text, provider: Text, k: SpaceKey,
    server: Server, texts: seq<Text>, batchSize: nat, retries: nat, maxBytes: nat,
    cancelled: nat -> bool)
    returns (r: Result<Vector, Failure>)
    requires IsEndpoint(e) && e.digest == digest && e.version == version && e.provider == provider && Representable(k)
    requires file.SoundlyShared(RemoteOf(e)) && batchSize > 0
    requires Pointwise(server, t => e.vector(k, t))
    modifies file
    ensures file.SoundlyShared(RemoteOf(e))
    ensures r.Ok? ==> r.value == EmbedAll(t => e.vector(k, t), texts)
  {
    hide Preimage, Representable;
    var space := digest(Preimage(version, provider, k));
    ghost var o := RemoteOf(e);
    DigestNamesKey(e, k);
    EndpointIsRemote(e);
    r := EmbedCached(file, o, digest, space, server, texts, k.dimensions, batchSize, retries, maxBytes, cancelled);
    EmbedAllCongruent(t => o.vector(space, t), t => e.vector(k, t), texts);
  }
}
