/** The persistent embedding cache: entries in insertion order, a redundant byte
    counter, repair of damaged rows and eviction to a budget, on one file that
    several processes share. */
module EmbeddingCache {
  import opened Wrappers
  import opened Http

  /** A column of a row that may have been damaged behind the provider's back. */
  datatype SqlValue = Null | Integer(value: int) | Real | Text | Blob(bytes: seq<Byte>)

  /** BLAKE3 digests, here only compared for equality. */
  type Digest = nat

  datatype Entry = Entry(
    id: nat, space: Digest, text: Digest, textBytes: SqlValue, dimension: SqlValue, vector: SqlValue, payload: nat)

  /** The committed content of the cache database. */
  datatype File = File(entries: seq<Entry>, used: int, check: int, nextId: nat)

  function Sum(entries: seq<Entry>): nat {
    if entries == [] then 0 else entries[0].payload + Sum(entries[1..])
  }

  /** Bitwise complement of a two's complement integer. */
  function Complement(x: int): int {
    -x - 1
  }

  /** Ids follow insertion order (AUTOINCREMENT never reuses one) and keys are unique. */
  ghost predicate Ordered(f: File) {
    && (forall i :: 0 <= i < |f.entries| ==> f.entries[i].id < f.nextId)
    && (forall i, j :: 0 <= i < j < |f.entries| ==> f.entries[i].id < f.entries[j].id)
    && (forall i, j :: 0 <= i < j < |f.entries| ==>
          f.entries[i].space != f.entries[j].space || f.entries[i].text != f.entries[j].text)
  }

  /** The counter is exact and carries its check word. */
  ghost predicate Accounted(f: File) {
    Ordered(f) && f.used == Sum(f.entries) && f.check == Complement(f.used) && f.used <= I64_MAX
  }

  lemma {:induction false} SumAppend(entries: seq<Entry>, more: seq<Entry>)
    ensures Sum(entries + more) == Sum(entries) + Sum(more)
  {
    if entries == [] {
      assert entries + more == more;
    } else {
      SumAppend(entries[1..], more);
      assert (entries + more)[1..] == entries[1..] + more;
    }
  }

  function Without(entries: seq<Entry>, k: nat): seq<Entry>
    requires k < |entries|
  {
    entries[..k] + entries[k + 1..]
  }

  lemma WithoutAt(entries: seq<Entry>, k: nat)
    requires k < |entries|
    ensures |Without(entries, k)| == |entries| - 1
    ensures forall j :: 0 <= j < |entries| - 1 ==> Without(entries, k)[j] == entries[if j < k then j else j + 1]
  {
  }

  lemma {:induction false} SumRemove(entries: seq<Entry>, k: nat)
    requires k < |entries|
    ensures Sum(Without(entries, k)) == Sum(entries) - entries[k].payload
  {
    assert entries == entries[..k] + ([entries[k]] + entries[k + 1..]);
    SumAppend(entries[..k], [entries[k]] + entries[k + 1..]);
    SumAppend(entries[..k], entries[k + 1..]);
    assert Sum([entries[k]] + entries[k + 1..]) == entries[k].payload + Sum(entries[k + 1..]) by {
      assert ([entries[k]] + entries[k + 1..])[1..] == entries[k + 1..];
    }
  }

  // ---- what each transaction does ------------------------------------------

  /** Oldest-first eviction drops the shortest prefix that reaches the budget. */
  ghost predicate IsShortestEviction(entries: seq<Entry>, maxBytes: nat, k: nat) {
    && k <= |entries| && Sum(entries[k..]) <= maxBytes
    && forall j :: 0 <= j < k ==> Sum(entries[j..]) > maxBytes
  }

  ghost predicate EvictedTo(entries: seq<Entry>, maxBytes: nat, entries': seq<Entry>) {
    exists k: nat :: IsShortestEviction(entries, maxBytes, k) && entries' == entries[k..]
  }

  predicate HasKey(entries: seq<Entry>, space: Digest, text: Digest) {
    exists i :: 0 <= i < |entries| && entries[i].space == space && entries[i].text == text
  }

  function LittleEndian(x: Float32): seq<Byte> {
    [x % 0x100, x / 0x100 % 0x100, x / 0x100 / 0x100 % 0x100, x / 0x100 / 0x100 / 0x100]
  }

  function Encoded(v: Vector): seq<Byte> {
    if v == [] then [] else LittleEndian(v[0]) + Encoded(v[1..])
  }

  function FreshEntry(id: nat, space: Digest, text: Digest, length: nat, dimensions: nat, v: Vector): Entry {
    Entry(id, space, text, Integer(length), Integer(dimensions), Blob(Encoded(v)), 4 * |v|)
  }

  /** One INSERT OR IGNORE: rows over the caller's budget are not tried, and an
      existing key or a violated CHECK keeps the row out. */
  predicate Inserts(entries: seq<Entry>, space: Digest, text: Digest, dimensions: nat, v: Vector, maxBytes: nat) {
    4 * |v| <= maxBytes && !HasKey(entries, space, text) && 1 <= dimensions <= MAX_DIMENSIONS
  }

  datatype Generated = Generated(text: Text, digest: Digest, vector: Vector)

  function InsertOne(f: File, space: Digest, dimensions: nat, g: Generated, maxBytes: nat): File {
    if Inserts(f.entries, space, g.digest, dimensions, g.vector, maxBytes)
    then f.(entries := f.entries + [FreshEntry(f.nextId, space, g.digest, |g.text|, dimensions, g.vector)],
            nextId := f.nextId + 1)
    else f
  }

  function Inserted(f: File, space: Digest, dimensions: nat, generated: seq<Generated>, maxBytes: nat): File
    decreases generated
  {
    if generated == [] then f
    else Inserted(InsertOne(f, space, dimensions, generated[0], maxBytes), space, dimensions, generated[1..], maxBytes)
  }

  /** A new counter with its check word. */
  ghost predicate Recounted(f: File, f': File) {
    f'.used == Sum(f'.entries) && f'.check == Complement(f'.used) && f'.used <= I64_MAX && f'.nextId == f.nextId
  }

  ghost predicate PublishPost(
    f: File, space: Digest, dimensions: nat, generated: seq<Generated>, maxBytes: nat, ok: bool, f': File)
  {
    if !ok then f' == f
    else
      var g := Inserted(f, space, dimensions, generated, maxBytes);
      EvictedTo(g.entries, maxBytes, f'.entries) && Recounted(g, f')
  }

  ghost predicate EnforcePost(f: File, maxBytes: nat, ok: bool, f': File) {
    if ok then EvictedTo(f.entries, maxBytes, f'.entries) && Recounted(f, f') else f' == f
  }

  ghost predicate DeletePost(f: File, id: nat, payload: nat, ok: bool, f': File) {
    if !ok || (forall i :: 0 <= i < |f.entries| ==> f.entries[i].id != id) then f' == f
    else exists k ::
      && 0 <= k < |f.entries| && f.entries[k].id == id && payload <= f.used
      && f' == f.(entries := Without(f.entries, k),
                  used := f.used - payload, check := Complement(f.used - payload))
  }

  /** Damage behind the provider's back: any column of a row except its id, its
      key and the accounting. */
  ghost predicate DamagePost(f: File, f': File) {
    && f'.used == f.used && f'.check == f.check && f'.nextId == f.nextId && |f'.entries| == |f.entries|
    && forall i :: 0 <= i < |f.entries| ==>
      f'.entries[i] == f.entries[i].(textBytes := f'.entries[i].textBytes, dimension := f'.entries[i].dimension,
                                     vector := f'.entries[i].vector)
  }

  // ---- whole runs of many clients ------------------------------------------

  datatype Step =
    | Publish(space: Digest, dimensions: nat, generated: seq<Generated>, maxBytes: nat, ok: bool)
    | Enforce(maxBytes: nat, ok: bool)
    | DeleteDamaged(readAt: nat, id: nat, payload: nat, ok: bool)
    | Damage

  /** The row was read in an earlier state of the file; anything may have happened since. */
  ghost predicate ReadEarlier(f: File, id: nat, payload: nat) {
    exists i :: 0 <= i < |f.entries| && f.entries[i].id == id && f.entries[i].payload == payload
  }

  ghost predicate StepPost(f: File, step: Step, f': File) {
    match step
    case Publish(space, dimensions, generated, maxBytes, ok) =>
      PublishPost(f, space, dimensions, generated, maxBytes, ok, f')
    case Enforce(maxBytes, ok) => EnforcePost(f, maxBytes, ok, f')
    case DeleteDamaged(_, id, payload, ok) => DeletePost(f, id, payload, ok, f')
    case Damage => DamagePost(f, f')
  }

  /** Any interleaving of the transactions of any number of clients. */
  ghost predicate Interleaving(files: seq<File>, steps: seq<Step>) {
    && |files| == |steps| + 1 && files[0] == File([], 0, -1, 0)
    && forall n :: 0 <= n < |steps| ==>
      && StepPost(files[n], steps[n], files[n + 1])
      && (steps[n].DeleteDamaged? ==>
            steps[n].readAt <= n && ReadEarlier(files[steps[n].readAt], steps[n].id, steps[n].payload))
  }

  /** What every transaction guarantees to a client that read a row before it:
      that row is gone, or still there with the same payload. */
  ghost predicate Stable(f: File, f': File) {
    && f.nextId <= f'.nextId
    && forall j :: 0 <= j < |f'.entries| && f'.entries[j].id < f.nextId ==>
      ReadEarlier(f, f'.entries[j].id, f'.entries[j].payload)
  }

  lemma StableTransitive(f: File, g: File, h: File)
    requires Stable(f, g) && Stable(g, h)
    ensures Stable(f, h)
  {
  }

  lemma InsertOneKeeps(f: File, space: Digest, dimensions: nat, g: Generated, maxBytes: nat)
    requires Ordered(f)
    ensures Ordered(InsertOne(f, space, dimensions, g, maxBytes))
    ensures Stable(f, InsertOne(f, space, dimensions, g, maxBytes))
  {
  }

  lemma {:induction false} InsertedKeeps(
    f: File, space: Digest, dimensions: nat, generated: seq<Generated>, maxBytes: nat)
    requires Ordered(f)
    ensures Ordered(Inserted(f, space, dimensions, generated, maxBytes))
    ensures Stable(f, Inserted(f, space, dimensions, generated, maxBytes))
    decreases generated
  {
    if generated == [] {
      StableSelf(f);
    } else {
      var f' := InsertOne(f, space, dimensions, generated[0], maxBytes);
      InsertOneKeeps(f, space, dimensions, generated[0], maxBytes);
      InsertedKeeps(f', space, dimensions, generated[1..], maxBytes);
      StableTransitive(f, f', Inserted(f', space, dimensions, generated[1..], maxBytes));
    }
  }

  lemma StableSelf(f: File)
    ensures Stable(f, f)
  {
  }

  lemma EvictedKeeps(f: File, maxBytes: nat, f': File)
    requires Ordered(f) && EvictedTo(f.entries, maxBytes, f'.entries) && Recounted(f, f')
    ensures Accounted(f') && Stable(f, f') && f'.used <= maxBytes
  {
  }

  lemma RemovalKeepsOrder(f: File, k: nat, f': File)
    requires Ordered(f) && k < |f.entries| && f'.entries == Without(f.entries, k) && f'.nextId == f.nextId
    ensures Ordered(f') && Stable(f, f')
  {
  }

  lemma DeleteKeeps(f: File, id: nat, payload: nat, ok: bool, f': File)
    requires Accounted(f) && DeletePost(f, id, payload, ok, f')
    requires forall i :: 0 <= i < |f.entries| && f.entries[i].id == id ==> f.entries[i].payload == payload
    ensures Accounted(f') && Stable(f, f')
  {
    if f' == f {
      StableSelf(f);
    } else {
      var k :| 0 <= k < |f.entries| && f.entries[k].id == id && f'.entries == Without(f.entries, k);
      SumRemove(f.entries, k);
      RemovalKeepsOrder(f, k, f');
    }
  }

  lemma {:induction false} DamageKeepsSum(entries: seq<Entry>, entries': seq<Entry>)
    requires |entries| == |entries'| && forall i :: 0 <= i < |entries| ==> entries'[i].payload == entries[i].payload
    ensures Sum(entries') == Sum(entries)
  {
    if entries != [] {
      DamageKeepsSum(entries[1..], entries'[1..]);
    }
  }

  /** One step of any client, provided the payload it subtracts is not stale. */
  lemma StepKeeps(f: File, step: Step, f': File)
    requires Accounted(f) && StepPost(f, step, f')
    requires step.DeleteDamaged? ==>
      forall i :: 0 <= i < |f.entries| && f.entries[i].id == step.id ==> f.entries[i].payload == step.payload
    ensures Accounted(f') && Stable(f, f')
  {
    match step
    case Publish(space, dimensions, generated, maxBytes, ok) =>
      if ok {
        var g := Inserted(f, space, dimensions, generated, maxBytes);
        InsertedKeeps(f, space, dimensions, generated, maxBytes);
        EvictedKeeps(g, maxBytes, f');
        StableTransitive(f, g, f');
      }
    case Enforce(maxBytes, ok) => if ok { EvictedKeeps(f, maxBytes, f'); }
    case DeleteDamaged(_, id, payload, ok) => DeleteKeeps(f, id, payload, ok, f');
    case Damage => DamageKeepsSum(f.entries, f'.entries);
  }

  lemma {:induction false} InterleavingKeeps(files: seq<File>, steps: seq<Step>, n: nat)
    requires Interleaving(files, steps) && n < |files|
    ensures Accounted(files[n])
    ensures forall m :: 0 <= m <= n ==> Stable(files[m], files[n])
  {
    hide Accounted, Stable, StepPost;
    if n == 0 {
      StartAccounted();
      StableSelf(files[0]);
    } else {
      InterleavingKeeps(files, steps, n - 1);
      var f, step := files[n - 1], steps[n - 1];
      if step.DeleteDamaged? {
        InterleavingKeeps(files, steps, step.readAt);
        AccountedOrdered(files[step.readAt]);
        NotStale(files[step.readAt], f, step.id, step.payload);
      }
      StepKeeps(f, step, files[n]);
      forall m | 0 <= m <= n ensures Stable(files[m], files[n]) {
        if m < n { StableTransitive(files[m], f, files[n]); } else { StableSelf(files[n]); }
      }
    }
  }

  lemma StartAccounted()
    ensures Accounted(File([], 0, -1, 0))
  {
  }

  lemma AccountedOrdered(f: File)
    requires Accounted(f)
    ensures Ordered(f)
  {
  }

  /** A payload read from `f` is still the payload of that row in `g`, if the row survives. */
  lemma NotStale(f: File, g: File, id: nat, payload: nat)
    requires Ordered(f) && Stable(f, g) && ReadEarlier(f, id, payload)
    ensures forall i :: 0 <= i < |g.entries| && g.entries[i].id == id ==> g.entries[i].payload == payload
  {
  }
}
