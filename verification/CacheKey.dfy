/** The byte string whose digest names a cache space: length-prefixed fields, so
    that two configurations share a space only if they agree in every field. */
module CacheKey {
  import opened Wrappers
  import opened Http

  const U64 := 0x1_0000_0000_0000_0000

  datatype SpaceKey = SpaceKey(
    url: Text, model: Text, dimensions: nat, sendDimensions: bool, encoding: Text,
    user: Option<Text>, semanticIdentity: Option<Text>, headers: seq<Header>)

  /** A lower-cased header name with the digest of its value. */
  datatype Header = Header(name: Text, digest: Text)

  predicate Addressable(t: Text) {
    |t| < U64
  }

  predicate AddressableOption(t: Option<Text>) {
    t.Some? ==> Addressable(t.value)
  }

  predicate Representable(k: SpaceKey) {
    && Addressable(k.url) && Addressable(k.model) && k.dimensions < U64 && Addressable(k.encoding)
    && AddressableOption(k.user) && AddressableOption(k.semanticIdentity)
    && forall h :: h in k.headers ==> Addressable(h.name) && Addressable(h.digest)
  }

  /** `n` as `size` little-endian bytes. */
  function LittleEndianBytes(n: nat, size: nat): (b: Text)
    ensures |b| == size
  {
    if size == 0 then [] else [n % 0x100] + LittleEndianBytes(n / 0x100, size - 1)
  }

  function Field(value: Text): Text {
    LittleEndianBytes(|value|, 8) + value
  }

  function OptionalField(value: Option<Text>): Text {
    if value.Some? then [1] + Field(value.value) else [0]
  }

  function HeaderFields(headers: seq<Header>): Text {
    if headers == [] then [] else Field(headers[0].name) + (Field(headers[0].digest) + HeaderFields(headers[1..]))
  }

  /** What is fed to the hasher, in order; `version` and `provider` are the two constant fields. */
  function Preimage(version: Text, provider: Text, k: SpaceKey): Text {
    Field(version) + (Field(provider) + (Field(k.url) + (Field(k.model)
    + (Field(LittleEndianBytes(k.dimensions, 8)) + (Field([if k.sendDimensions then 1 else 0])
    + (Field(k.encoding) + (OptionalField(k.user) + (OptionalField(k.semanticIdentity)
    + HeaderFields(k.headers)))))))))
  }

  function Power256(size: nat): nat {
    if size == 0 then 1 else 0x100 * Power256(size - 1)
  }

  lemma {:induction false} LittleEndianInjective(m: nat, n: nat, size: nat)
    requires LittleEndianBytes(m, size) == LittleEndianBytes(n, size) && m < Power256(size) && n < Power256(size)
    ensures m == n
  {
    if size > 0 {
      assert LittleEndianBytes(m, size)[0] == LittleEndianBytes(n, size)[0];
      assert LittleEndianBytes(m, size)[1..] == LittleEndianBytes(m / 0x100, size - 1);
      assert LittleEndianBytes(n, size)[1..] == LittleEndianBytes(n / 0x100, size - 1);
      LittleEndianInjective(m / 0x100, n / 0x100, size - 1);
    }
  }

  lemma EightBytes()
    ensures Power256(8) == U64
  {
  }

  /** A field delimits itself. */
  lemma FieldInjective(v: Text, w: Text, x: Text, y: Text)
    requires Addressable(v) && Addressable(w) && Field(v) + x == Field(w) + y
    ensures v == w && x == y
  {
    EightBytes();
    assert (Field(v) + x)[..8] == LittleEndianBytes(|v|, 8);
    assert (Field(w) + y)[..8] == LittleEndianBytes(|w|, 8);
    LittleEndianInjective(|v|, |w|, 8);
    assert v == (Field(v) + x)[8..8 + |v|];
    assert w == (Field(w) + y)[8..8 + |w|];
    assert x == (Field(v) + x)[8 + |v|..];
    assert y == (Field(w) + y)[8 + |w|..];
  }

  lemma OptionalFieldInjective(v: Option<Text>, w: Option<Text>, x: Text, y: Text)
    requires AddressableOption(v) && AddressableOption(w) && OptionalField(v) + x == OptionalField(w) + y
    ensures v == w && x == y
  {
    TagFirst(v, x);
    TagFirst(w, y);
    if v.Some? {
      FieldInjective(v.value, w.value, x, y);
    }
  }

  lemma TagFirst(v: Option<Text>, x: Text)
    ensures var b := OptionalField(v) + x;
      && b[0] == (if v.Some? then 1 else 0)
      && b[1..] == if v.Some? then Field(v.value) + x else x
  {
  }

  lemma {:induction false} HeaderFieldsInjective(g: seq<Header>, h: seq<Header>)
    requires HeaderFields(g) == HeaderFields(h)
    requires forall x :: x in g + h ==> Addressable(x.name) && Addressable(x.digest)
    ensures g == h
  {
    if g != [] && h != [] {
      assert g[0] in g + h && h[0] in g + h;
      FieldInjective(g[0].name, h[0].name,
        Field(g[0].digest) + HeaderFields(g[1..]), Field(h[0].digest) + HeaderFields(h[1..]));
      FieldInjective(g[0].digest, h[0].digest, HeaderFields(g[1..]), HeaderFields(h[1..]));
      assert forall x :: x in g[1..] + h[1..] ==> x in g + h;
      HeaderFieldsInjective(g[1..], h[1..]);
      assert g == [g[0]] + g[1..] && h == [h[0]] + h[1..];
    }
  }

  /** The framing is uniquely decodable: equal hash inputs mean equal configurations. */
  lemma PreimageInjective(version: Text, provider: Text, k: SpaceKey, l: SpaceKey)
    requires Addressable(version) && Addressable(provider) && Representable(k) && Representable(l)
    requires Preimage(version, provider, k) == Preimage(version, provider, l)
    ensures k == l
  {
    EightBytes();
    var headersK, headersL := HeaderFields(k.headers), HeaderFields(l.headers);
    var identityK, identityL := OptionalField(k.semanticIdentity) + headersK,
      OptionalField(l.semanticIdentity) + headersL;
    var userK, userL := OptionalField(k.user) + identityK, OptionalField(l.user) + identityL;
    var encodingK, encodingL := Field(k.encoding) + userK, Field(l.encoding) + userL;
    var sendK, sendL := [if k.sendDimensions then 1 else 0], [if l.sendDimensions then 1 else 0];
    var dimsK, dimsL := LittleEndianBytes(k.dimensions, 8), LittleEndianBytes(l.dimensions, 8);
    var afterModelK, afterModelL := Field(dimsK) + (Field(sendK) + encodingK),
      Field(dimsL) + (Field(sendL) + encodingL);
    var afterUrlK, afterUrlL := Field(k.model) + afterModelK, Field(l.model) + afterModelL;
    FieldInjective(version, version, Field(provider) + (Field(k.url) + afterUrlK),
      Field(provider) + (Field(l.url) + afterUrlL));
    FieldInjective(provider, provider, Field(k.url) + afterUrlK, Field(l.url) + afterUrlL);
    FieldInjective(k.url, l.url, afterUrlK, afterUrlL);
    FieldInjective(k.model, l.model, afterModelK, afterModelL);
    FieldInjective(dimsK, dimsL, Field(sendK) + encodingK, Field(sendL) + encodingL);
    LittleEndianInjective(k.dimensions, l.dimensions, 8);
    FieldInjective(sendK, sendL, encodingK, encodingL);
    assert sendK[0] == sendL[0];
    FieldInjective(k.encoding, l.encoding, userK, userL);
    OptionalFieldInjective(k.user, l.user, identityK, identityL);
    OptionalFieldInjective(k.semanticIdentity, l.semanticIdentity, headersK, headersL);
    HeaderFieldsInjective(k.headers, l.headers);
  }
}
