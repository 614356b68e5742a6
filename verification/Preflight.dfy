/** The lexical scan that prices a JSON text before anything of it is built. */
module Preflight {
  import opened Wrappers
  import Utf8

  const U64_MAX := 0xFFFF_FFFF_FFFF_FFFF

  const QUOTE: Byte := 0x22
  const BACKSLASH: Byte := 0x5C

  predicate IsSpace(b: Byte) {
    b == 0x20 || b == 0x09 || b == 0x0A || b == 0x0D
  }

  predicate IsOpen(b: Byte) {
    b == 0x7B || b == 0x5B
  }

  /** What ends a number or literal: a closing bracket, comma, colon or space. */
  predicate IsDelimiter(b: Byte) {
    b == 0x7D || b == 0x5D || b == 0x2C || b == 0x3A || IsSpace(b)
  }

  /** The sizes the scan prices with: one token, and one map entry. */
  datatype Prices = Prices(token: nat, entry: nat)

  // ---- the scan as a function ------------------------------------------------------------

  /** Bytes from inside a string to just after its closing quote.  An escape takes
      two, even when the text ends after the backslash. */
  function InsideLength(s: seq<Byte>): nat
    decreases |s|
  {
    if s == [] then 0
    else if s[0] == BACKSLASH then 2 + InsideLength(if |s| < 2 then [] else s[2..])
    else if s[0] == QUOTE then 1
    else 1 + InsideLength(s[1..])
  }

  function PrimitiveLength(s: seq<Byte>): (n: nat)
    ensures n <= |s|
  {
    if s == [] || IsDelimiter(s[0]) then 0 else 1 + PrimitiveLength(s[1..])
  }

  /** The next token's length and price. */
  function Token(p: Prices, s: seq<Byte>): (r: (nat, nat))
    requires s != []
    ensures r.0 > 0
  {
    if s[0] == QUOTE then
      var n := 1 + InsideLength(s[1..]);
      (n, p.token + 4 * n + p.entry)
    else if IsOpen(s[0]) then (1, p.token)
    else if IsDelimiter(s[0]) then (1, 0)
    else (1 + PrimitiveLength(s[1..]), p.token)
  }

  /** Bytes charged and bytes required for a whole text. */
  function Scan(p: Prices, s: seq<Byte>): (nat, nat)
    decreases |s|
  {
    if s == [] then (0, 0) else
    var (length, price) := Token(p, s);
    var (charged, required) := Scan(p, Drop(s, length));
    (length + charged, price + required)
  }

  // ---- the loops -----------------------------------------------------------------------------

  /** `ExecutionControl::bytes`: charges the caller and may be interrupted. */
  method Charge(charged: nat, n: nat) returns (total: nat, interrupted: bool)
    ensures total == charged + n
  {
    total := charged + n;
    interrupted := *;
  }

  /** The end of a string, and what the loop's own calls have charged for it. */
  method QuotedTokenEnd(text: seq<Byte>, start: nat, charged: nat) returns (end: nat, total: nat, interrupted: bool)
    requires start < |text|
    ensures !interrupted ==>
      var inside := InsideLength(text[start + 1..]);
      end == start + 1 + inside && total == charged + inside
  {
    end, total, interrupted := start + 1, charged, false;
    while end < |text|
      invariant start < end <= |text| + 1 && total == charged + (end - (start + 1))
      invariant start + 1 + InsideLength(text[start + 1..]) == end + InsideLength(Drop(text, end))
      decreases |text| + 2 - end
    {
      var current := text[end];
      var step := if current == BACKSLASH then 2 else 1;
      total, interrupted := Charge(total, step);
      if interrupted { return; }
      assert Drop(text, end)[1..] == text[end + 1..];
      end := end + step;
      if current == QUOTE { break; }
    }
  }

  method PrimitiveTokenEnd(text: seq<Byte>, start: nat, charged: nat) returns (end: nat, total: nat, interrupted: bool)
    requires start < |text|
    ensures !interrupted ==>
      var rest := PrimitiveLength(text[start + 1..]);
      end == start + 1 + rest && total == charged + rest
  {
    end, total, interrupted := start + 1, charged, false;
    while end < |text| && !IsDelimiter(text[end])
      invariant start < end <= |text| && total == charged + (end - (start + 1))
      invariant start + 1 + PrimitiveLength(text[start + 1..]) == end + PrimitiveLength(text[end..])
    {
      total, interrupted := Charge(total, 1);
      if interrupted { return; }
      assert text[end..][1..] == text[end + 1..];
      end := end + 1;
    }
  }

  function CheckedAdd(a: nat, b: nat): Option<nat> {
    if a + b <= U64_MAX then Some(a + b) else None
  }

  /** One token's price added to the total, with every sum kept in 64 bits. */
  method AddPrice(p: Prices, required: nat, length: nat, quoted: bool) returns (r: Option<nat>)
    ensures var price := if quoted then p.token + 4 * length + p.entry else p.token;
      r == if required + price <= U64_MAX then Some(required + price) else None
  {
    r := CheckedAdd(required, p.token);
    if r == None || !quoted { return; }
    if 4 * length > U64_MAX { return None; }
    r := CheckedAdd(r.value, 4 * length);
    if r == None { return; }
    r := CheckedAdd(r.value, p.entry);
  }

  /** One token after its first byte was charged: its end, the charges made for the
      rest of it, and the sum with its price. */
  method NextToken(p: Prices, text: seq<Byte>, index: nat, required: nat, charged: nat)
    returns (end: nat, sum: Option<nat>, total: nat, interrupted: bool)
    requires index < |text| && required <= U64_MAX
    ensures !interrupted ==>
      var price := Token(p, text[index..]).1;
      sum == if required + price <= U64_MAX then Some(required + price) else None
    ensures !interrupted && sum.Some? ==>
      var length := Token(p, text[index..]).0;
      end == index + length && total == charged + (length - 1)
  {
    hide InsideLength, PrimitiveLength;
    assert text[index..][1..] == text[index + 1..];
    var b := text[index];
    end, sum, total, interrupted := index + 1, Some(required), charged, false;
    if b == QUOTE {
      end, total, interrupted := QuotedTokenEnd(text, index, charged);
      if interrupted { return; }
      sum := AddPrice(p, required, end - index, true);
    } else if IsOpen(b) {
      sum := AddPrice(p, required, 1, false);
    } else if !IsDelimiter(b) {
      sum := AddPrice(p, required, 1, false);
      if sum == None { return; }
      end, total, interrupted := PrimitiveTokenEnd(text, index, charged);
    }
  }

  /** Unless interrupted, the scan succeeds exactly when the required bytes fit 64
      bits; its calls to the control object then add up to the scan's charge. */
  method PreflightBytes(p: Prices, text: seq<Byte>) returns (r: Option<nat>, charged: nat, interrupted: bool)
    ensures !interrupted ==> (r.Some? <==> Scan(p, text).1 <= U64_MAX)
    ensures !interrupted && r.Some? ==> r.value == Scan(p, text).1 && charged == Scan(p, text).0
  {
    hide Token;
    var index: nat, required: nat := 0, 0;
    charged, interrupted := 0, false;
    while index < |text|
      invariant required <= U64_MAX
      invariant Scan(p, text).0 == charged + Scan(p, Drop(text, index)).0
      invariant Scan(p, text).1 == required + Scan(p, Drop(text, index)).1
      decreases |text| - index
    {
      charged, interrupted := Charge(charged, 1);
      if interrupted { return None, charged, true; }
      var end, sum;
      end, sum, charged, interrupted := NextToken(p, text, index, required, charged);
      if interrupted { return None, charged, true; }
      if sum == None { return None, charged, false; }
      assert Drop(text[index..], end - index) == Drop(text, end);
      required, index := sum.value, end;
    }
    return Some(required), charged, false;
  }

  // ---- JSON texts ---------------------------------------------------------------------------

  /** One piece of a string as written: a byte standing for itself, a two-character
      escape, a four-digit escape of a character, or a surrogate pair of those. */
  datatype Piece =
    | Plain(b: Byte)
    | Escape(letter: Byte)
    | Unicode(digits: seq<Byte>, c: char)
    | Pair(high: seq<Byte>, low: seq<Byte>, c: char)

  predicate IsHex(b: Byte) {
    var c := b as char;
    '0' <= c <= '9' || 'A' <= c <= 'F' || 'a' <= c <= 'f'
  }

  predicate FourHex(digits: seq<Byte>) {
    |digits| == 4 && forall d :: d in digits ==> IsHex(d)
  }

  /** Which character an escape names does not matter to the scan, except that four
      digits name one below 0x10000. */
  predicate IsPiece(x: Piece) {
    match x
    case Plain(b) => b != QUOTE && b != BACKSLASH
    case Escape(letter) => letter != 0x75
    case Unicode(digits, c) => FourHex(digits) && c as int < 0x1_0000
    case Pair(high, low, _) => FourHex(high) && FourHex(low)
  }

  function PieceText(x: Piece): seq<Byte> {
    match x
    case Plain(b) => [b]
    case Escape(letter) => [BACKSLASH, letter]
    case Unicode(digits, _) => [BACKSLASH, 0x75] + digits
    case Pair(high, low, _) => [BACKSLASH, 0x75] + high + [BACKSLASH, 0x75] + low
  }

  /** How many bytes a piece decodes to. */
  function PieceDecoded(x: Piece): nat {
    match x
    case Plain(_) => 1
    case Escape(_) => 1
    case Unicode(_, c) => |Utf8.EncodeChar(c)|
    case Pair(_, _, c) => |Utf8.EncodeChar(c)|
  }

  function PiecesText(xs: seq<Piece>): seq<Byte> {
    if xs == [] then [] else PieceText(xs[0]) + PiecesText(xs[1..])
  }

  function Decoded(xs: seq<Piece>): nat {
    if xs == [] then 0 else PieceDecoded(xs[0]) + Decoded(xs[1..])
  }

  predicate Pieces(xs: seq<Piece>) {
    forall x :: x in xs ==> IsPiece(x)
  }

  function StringText(xs: seq<Piece>): seq<Byte> {
    [QUOTE] + PiecesText(xs) + [QUOTE]
  }

  /** A JSON text as a tree with its layout: the white space before and after every
      element, and inside an empty array or object. */
  datatype Doc =
    | Primitive(raw: seq<Byte>)
    | Text(pieces: seq<Piece>)
    | Array(gap: seq<Byte>, items: seq<Item>)
    | Object(gap: seq<Byte>, members: seq<Member>)

  datatype Item = Item(before: seq<Byte>, doc: Doc, after: seq<Byte>)

  datatype Member = Member(before: seq<Byte>, key: seq<Piece>, afterKey: seq<Byte>, value: Item)

  /** Space, tab, line feed and carriage return (section 2 of RFC 8259). */
  predicate Blank(s: seq<Byte>) {
    forall b :: b in s ==> b in {0x20, 0x09, 0x0A, 0x0D}
  }

  /** Numbers and literals: nothing that is white space, a bracket, comma or colon, and
      no quote or opening bracket at the start. */
  predicate IsPrimitive(raw: seq<Byte>) {
    && raw != [] && raw[0] !in {0x22, 0x5B, 0x7B}
    && forall b :: b in raw ==> b !in {0x20, 0x09, 0x0A, 0x0D, 0x7D, 0x5D, 0x2C, 0x3A}
  }

  predicate IsDoc(d: Doc)
    decreases d, 1
  {
    match d
    case Primitive(raw) => IsPrimitive(raw)
    case Text(pieces) => Pieces(pieces)
    case Array(gap, items) => Blank(gap) && AreItems(items)
    case Object(gap, members) => Blank(gap) && AreMembers(members)
  }

  predicate IsItem(x: Item)
    decreases x, 1
  {
    Blank(x.before) && IsDoc(x.doc) && Blank(x.after)
  }

  predicate AreItems(items: seq<Item>)
    decreases items, 0
  {
    items == [] || (IsItem(items[0]) && AreItems(items[1..]))
  }

  predicate IsMember(m: Member)
    decreases m, 1
  {
    Blank(m.before) && Pieces(m.key) && Blank(m.afterKey) && IsItem(m.value)
  }

  predicate AreMembers(members: seq<Member>)
    decreases members, 0
  {
    members == [] || (IsMember(members[0]) && AreMembers(members[1..]))
  }

  /** Elements follow one another after a comma. */
  function DocText(d: Doc): seq<Byte>
    decreases d, 1
  {
    match d
    case Primitive(raw) => raw
    case Text(pieces) => StringText(pieces)
    case Array(gap, items) => [0x5B] + gap + ItemsText(items) + [0x5D]
    case Object(gap, members) => [0x7B] + gap + MembersText(members) + [0x7D]
  }

  function ItemText(x: Item): seq<Byte>
    decreases x, 1
  {
    x.before + DocText(x.doc) + x.after
  }

  function ItemsText(items: seq<Item>): seq<Byte>
    decreases items, 0
  {
    if items == [] then [] else ItemText(items[0]) + (if |items| == 1 then [] else [0x2C]) + ItemsText(items[1..])
  }

  function MemberText(m: Member): seq<Byte>
    decreases m, 1
  {
    m.before + StringText(m.key) + m.afterKey + [0x3A] + ItemText(m.value)
  }

  function MembersText(members: seq<Member>): seq<Byte>
    decreases members, 0
  {
    if members == [] then []
    else MemberText(members[0]) + (if |members| == 1 then [] else [0x2C]) + MembersText(members[1..])
  }

  // ---- what the scan should find in a tree -----------------------------------------------------

  /** Tokens (values and keys), strings (keys included), their written bytes, and the
      bytes they decode to. */
  datatype Census = Census(tokens: nat, strings: nat, written: nat, decoded: nat)

  function Plus(a: Census, b: Census): Census {
    Census(a.tokens + b.tokens, a.strings + b.strings, a.written + b.written, a.decoded + b.decoded)
  }

  const NOTHING := Census(0, 0, 0, 0)
  const TOKEN := Census(1, 0, 0, 0)

  function StringCensus(xs: seq<Piece>): Census {
    Census(1, 1, |StringText(xs)|, Decoded(xs))
  }

  function DocCensus(d: Doc): Census
    decreases d, 1
  {
    match d
    case Primitive(_) => TOKEN
    case Text(pieces) => StringCensus(pieces)
    case Array(_, items) => Plus(TOKEN, ItemsCensus(items))
    case Object(_, members) => Plus(TOKEN, MembersCensus(members))
  }

  function ItemCensus(x: Item): Census
    decreases x, 1
  {
    DocCensus(x.doc)
  }

  function ItemsCensus(items: seq<Item>): Census
    decreases items, 0
  {
    if items == [] then NOTHING else Plus(ItemCensus(items[0]), ItemsCensus(items[1..]))
  }

  function MemberCensus(m: Member): Census
    decreases m, 1
  {
    Plus(StringCensus(m.key), ItemCensus(m.value))
  }

  function MembersCensus(members: seq<Member>): Census
    decreases members, 0
  {
    if members == [] then NOTHING else Plus(MemberCensus(members[0]), MembersCensus(members[1..]))
  }

  function Price(p: Prices, c: Census): nat {
    p.token * c.tokens + 4 * c.written + p.entry * c.strings
  }

  lemma PricePlus(p: Prices, a: Census, b: Census)
    ensures Price(p, Plus(a, b)) == Price(p, a) + Price(p, b)
  {
  }

  // ---- the scan of a tree ------------------------------------------------------------------------

  /** Scanning a text in front of another charges its bytes, prices it, and goes on. */
  ghost predicate Scans(p: Prices, text: seq<Byte>, price: nat, rest: seq<Byte>) {
    Scan(p, text + rest) == (|text| + Scan(p, rest).0, price + Scan(p, rest).1)
  }

  lemma ScansOne(p: Prices, text: seq<Byte>, price: nat, rest: seq<Byte>)
    requires text != [] && Token(p, text + rest) == (|text|, price)
    ensures Scans(p, text, price, rest)
  {
    hide Token;
    assert Drop(text + rest, |text|) == rest;
  }

  lemma ScansThen(p: Prices, a: seq<Byte>, priceA: nat, b: seq<Byte>, priceB: nat, rest: seq<Byte>)
    requires Scans(p, a, priceA, b + rest) && Scans(p, b, priceB, rest)
    ensures Scans(p, a + b, priceA + priceB, rest)
  {
    hide Scan;
    assert (a + b) + rest == a + (b + rest);
  }

  lemma ScansNothing(p: Prices, rest: seq<Byte>)
    ensures Scans(p, [], 0, rest)
  {
    assert [] + rest == rest;
  }

  lemma {:induction false} ScansBlank(p: Prices, gap: seq<Byte>, rest: seq<Byte>)
    requires Blank(gap)
    ensures Scans(p, gap, 0, rest)
  {
    hide Scan;
    if gap == [] {
      ScansNothing(p, rest);
    } else {
      assert gap[0] in gap;
      ScansByte(p, gap[0], gap[1..] + rest);
      assert gap[..1] == [gap[0]];
      assert forall b :: b in gap[1..] ==> b in gap;
      ScansBlank(p, gap[1..], rest);
      ScansThen(p, gap[..1], 0, gap[1..], 0, rest);
      assert gap == gap[..1] + gap[1..];
    }
  }

  lemma ScansPrimitive(p: Prices, raw: seq<Byte>, rest: seq<Byte>)
    requires IsPrimitive(raw) && Ends(rest)
    ensures Scans(p, raw, p.token, rest)
  {
    assert raw[0] in raw && forall b :: b in raw[1..] ==> b in raw;
    PrimitiveEnds(raw[1..], rest);
    assert (raw + rest)[1..] == raw[1..] + rest;
    ScansOne(p, raw, p.token, rest);
  }

  predicate Ends(rest: seq<Byte>) {
    rest == [] || IsDelimiter(rest[0])
  }

  lemma {:induction false} PrimitiveEnds(raw: seq<Byte>, rest: seq<Byte>)
    requires (forall b :: b in raw ==> !IsDelimiter(b)) && Ends(rest)
    ensures PrimitiveLength(raw + rest) == |raw|
  {
    if raw == [] {
      assert raw + rest == rest;
    } else {
      assert raw[0] in raw;
      PrimitiveEnds(raw[1..], rest);
      assert (raw + rest)[1..] == raw[1..] + rest;
    }
  }

  lemma {:induction false} HexInside(digits: seq<Byte>, rest: seq<Byte>)
    requires FourHex(digits)
    ensures InsideLength(digits + rest) == 4 + InsideLength(rest)
  {
    hide InsideLength;
    assert digits[0] in digits && digits[1] in digits && digits[2] in digits && digits[3] in digits;
    assert digits + rest == [digits[0]] + ([digits[1]] + ([digits[2]] + ([digits[3]] + rest)));
    PlainInside(digits[3], rest);
    PlainInside(digits[2], [digits[3]] + rest);
    PlainInside(digits[1], [digits[2]] + ([digits[3]] + rest));
    PlainInside(digits[0], [digits[1]] + ([digits[2]] + ([digits[3]] + rest)));
  }

  lemma {:induction false} EscapeInside(letter: Byte, rest: seq<Byte>)
    ensures InsideLength([BACKSLASH, letter] + rest) == 2 + InsideLength(rest)
  {
  }

  lemma {:induction false} PieceInside(x: Piece, rest: seq<Byte>)
    requires IsPiece(x)
    ensures InsideLength(PieceText(x) + rest) == |PieceText(x)| + InsideLength(rest)
    ensures PieceDecoded(x) <= |PieceText(x)|
  {
    hide InsideLength;
    match x
    case Plain(b) => PlainInside(b, rest);
    case Escape(letter) => EscapeInside(letter, rest);
    case Unicode(digits, c) =>
      assert PieceText(x) + rest == [BACKSLASH, 0x75] + (digits + rest);
      EscapeInside(0x75, digits + rest);
      HexInside(digits, rest);
    case Pair(high, low, _) =>
      assert PieceText(x) + rest == [BACKSLASH, 0x75] + (high + ([BACKSLASH, 0x75] + (low + rest)));
      EscapeInside(0x75, high + ([BACKSLASH, 0x75] + (low + rest)));
      HexInside(high, [BACKSLASH, 0x75] + (low + rest));
      EscapeInside(0x75, low + rest);
      HexInside(low, rest);
  }

  lemma {:induction false} PlainInside(b: Byte, rest: seq<Byte>)
    requires b != QUOTE && b != BACKSLASH
    ensures InsideLength([b] + rest) == 1 + InsideLength(rest)
  {
  }

  /** A string decodes to no more bytes than it is written with. */
  lemma {:induction false} PiecesInside(xs: seq<Piece>, rest: seq<Byte>)
    requires Pieces(xs)
    ensures InsideLength(PiecesText(xs) + [QUOTE] + rest) == |PiecesText(xs)| + 1
    ensures Decoded(xs) <= |PiecesText(xs)|
    decreases xs
  {
    if xs == [] {
      assert PiecesText(xs) + [QUOTE] + rest == [QUOTE] + rest;
    } else {
      hide InsideLength, PieceText, PieceDecoded, IsPiece;
      var tail := PiecesText(xs[1..]) + [QUOTE] + rest;
      assert PiecesText(xs) + [QUOTE] + rest == PieceText(xs[0]) + tail;
      PieceInside(xs[0], tail);
      PiecesInside(xs[1..], rest);
    }
  }

  lemma {:induction false} ScansString(p: Prices, xs: seq<Piece>, rest: seq<Byte>)
    requires Pieces(xs)
    ensures Scans(p, StringText(xs), Price(p, StringCensus(xs)), rest)
    ensures Decoded(xs) <= |StringText(xs)|
  {
    hide InsideLength, PiecesText, Scan;
    PiecesInside(xs, rest);
    var text := StringText(xs);
    assert (text + rest)[1..] == PiecesText(xs) + [QUOTE] + rest;
    ScansOne(p, text, p.token + 4 * |text| + p.entry, rest);
  }

  lemma ScansByte(p: Prices, b: Byte, rest: seq<Byte>)
    requires IsOpen(b) || IsDelimiter(b)
    ensures Scans(p, [b], if IsOpen(b) then p.token else 0, rest)
  {
  }

  /** An element, with the white space around it, in front of what must follow it. */
  lemma {:induction false} ScansItem(p: Prices, x: Item, rest: seq<Byte>)
    requires IsItem(x) && Ends(rest)
    ensures Scans(p, ItemText(x), Price(p, ItemCensus(x)), rest)
    decreases x, 1
  {
    hide Scans, DocText, DocCensus, Price, IsDoc;
    ScansBlank(p, x.after, rest);
    assert x.after != [] ==> x.after[0] in x.after;
    ScansDoc(p, x.doc, x.after + rest);
    ScansThen(p, DocText(x.doc), Price(p, DocCensus(x.doc)), x.after, 0, rest);
    assert DocText(x.doc) + x.after + rest == DocText(x.doc) + (x.after + rest);
    ScansBlank(p, x.before, DocText(x.doc) + x.after + rest);
    ScansThen(p, x.before, 0, DocText(x.doc) + x.after, Price(p, DocCensus(x.doc)), rest);
    assert x.before + (DocText(x.doc) + x.after) == ItemText(x);
  }

  lemma {:induction false} ScansDoc(p: Prices, d: Doc, rest: seq<Byte>)
    requires IsDoc(d) && Ends(rest)
    ensures Scans(p, DocText(d), Price(p, DocCensus(d)), rest)
    decreases d, 1
  {
    hide Scans, ItemsText, MembersText, StringText, IsPrimitive;
    match d
    case Primitive(raw) => ScansPrimitive(p, raw, rest);
    case Text(pieces) => ScansString(p, pieces, rest);
    case Array(gap, items) =>
      ScansItems(p, items, 0x5D, rest);
      Enclosed(p, 0x5B, gap, ItemsText(items), ItemsCensus(items), 0x5D, rest);
    case Object(gap, members) =>
      ScansMembers(p, members, 0x7D, rest);
      Enclosed(p, 0x7B, gap, MembersText(members), MembersCensus(members), 0x7D, rest);
  }

  lemma Enclosed(p: Prices, open: Byte, gap: seq<Byte>, inner: seq<Byte>, census: Census, close: Byte, rest: seq<Byte>)
    requires IsOpen(open) && Blank(gap) && (close == 0x5D || close == 0x7D)
    requires Scans(p, inner, Price(p, census), [close] + rest)
    ensures Scans(p, [open] + gap + inner + [close], Price(p, Plus(TOKEN, census)), rest)
  {
    hide Scans;
    PricePlus(p, TOKEN, census);
    var price := Price(p, census);
    assert Price(p, TOKEN) == p.token;
    hide Price;
    ScansByte(p, close, rest);
    ScansThen(p, inner, price, [close], 0, rest);
    ScansBlank(p, gap, inner + [close] + rest);
    assert inner + [close] + rest == (inner + [close]) + rest;
    ScansThen(p, gap, 0, inner + [close], price, rest);
    ScansByte(p, open, (gap + (inner + [close])) + rest);
    ScansThen(p, [open], p.token, gap + (inner + [close]), price, rest);
    assert [open] + (gap + (inner + [close])) == [open] + gap + inner + [close];
  }

  /** Elements up to the bracket that closes them. */
  lemma {:induction false} ScansItems(p: Prices, items: seq<Item>, close: Byte, rest: seq<Byte>)
    requires AreItems(items) && IsDelimiter(close)
    ensures Scans(p, ItemsText(items), Price(p, ItemsCensus(items)), [close] + rest)
    decreases items, 0
  {
    hide Scans, ItemText, ItemCensus, IsItem;
    if items == [] {
      ScansNothing(p, [close] + rest);
    } else {
      ScansItems(p, items[1..], close, rest);
      var comma := if |items| == 1 then [] else [0x2C];
      var tail := ItemsText(items[1..]) + ([close] + rest);
      Commas(p, comma, tail);
      assert |items| == 1 ==> ItemsText(items[1..]) == [];
      ScansItem(p, items[0], comma + tail);
      PricePlus(p, ItemCensus(items[0]), ItemsCensus(items[1..]));
      hide Price;
      Listed(p, ItemText(items[0]), Price(p, ItemCensus(items[0])), comma, ItemsText(items[1..]),
        Price(p, ItemsCensus(items[1..])), [close] + rest);
    }
  }

  lemma Commas(p: Prices, comma: seq<Byte>, tail: seq<Byte>)
    requires comma == [] || comma == [0x2C]
    ensures Scans(p, comma, 0, tail)
  {
    hide Scans;
    if comma == [] {
      ScansNothing(p, tail);
    } else {
      ScansByte(p, 0x2C, tail);
    }
  }

  /** An element, a separator or none, and the elements after it. */
  lemma Listed(
    p: Prices, first: seq<Byte>, price: nat, comma: seq<Byte>, others: seq<Byte>, prices: nat, rest: seq<Byte>)
    requires Scans(p, first, price, comma + (others + rest)) && Scans(p, comma, 0, others + rest)
      && Scans(p, others, prices, rest)
    ensures Scans(p, first + comma + others, price + prices, rest)
  {
    hide Scans;
    ScansThen(p, comma, 0, others, prices, rest);
    assert comma + (others + rest) == (comma + others) + rest;
    ScansThen(p, first, price, comma + others, prices, rest);
    assert first + (comma + others) == first + comma + others;
  }

  lemma {:induction false} ScansMember(p: Prices, m: Member, rest: seq<Byte>)
    requires IsMember(m) && Ends(rest)
    ensures Scans(p, MemberText(m), Price(p, MemberCensus(m)), rest)
    decreases m, 1
  {
    hide Scans, StringText, ItemText, ItemCensus, StringCensus, IsItem;
    PricePlus(p, StringCensus(m.key), ItemCensus(m.value));
    hide Price;
    var key, value := Price(p, StringCensus(m.key)), Price(p, ItemCensus(m.value));
    ScansItem(p, m.value, rest);
    var t1 := [0x3A] + ItemText(m.value);
    ScansByte(p, 0x3A, ItemText(m.value) + rest);
    ScansThen(p, [0x3A], 0, ItemText(m.value), value, rest);
    var t2 := m.afterKey + t1;
    ScansBlank(p, m.afterKey, t1 + rest);
    ScansThen(p, m.afterKey, 0, t1, value, rest);
    var t3 := StringText(m.key) + t2;
    ScansString(p, m.key, t2 + rest);
    ScansThen(p, StringText(m.key), key, t2, value, rest);
    ScansBlank(p, m.before, t3 + rest);
    ScansThen(p, m.before, 0, t3, key + value, rest);
    assert m.before + t3 == MemberText(m);
  }

  lemma {:induction false} ScansMembers(p: Prices, members: seq<Member>, close: Byte, rest: seq<Byte>)
    requires AreMembers(members) && IsDelimiter(close)
    ensures Scans(p, MembersText(members), Price(p, MembersCensus(members)), [close] + rest)
    decreases members, 0
  {
    hide Scans, MemberText, MemberCensus, IsMember;
    if members == [] {
      ScansNothing(p, [close] + rest);
    } else {
      ScansMembers(p, members[1..], close, rest);
      var comma := if |members| == 1 then [] else [0x2C];
      var tail := MembersText(members[1..]) + ([close] + rest);
      Commas(p, comma, tail);
      assert |members| == 1 ==> MembersText(members[1..]) == [];
      ScansMember(p, members[0], comma + tail);
      PricePlus(p, MemberCensus(members[0]), MembersCensus(members[1..]));
      hide Price;
      Listed(p, MemberText(members[0]), Price(p, MemberCensus(members[0])), comma, MembersText(members[1..]),
        Price(p, MembersCensus(members[1..])), [close] + rest);
    }
  }

  // ---- the main results ------------------------------------------------------------------------------

  /** No tree's strings decode to more bytes than they are written with. */
  lemma {:induction false} DecodedFits(d: Doc)
    requires IsDoc(d)
    ensures DocCensus(d).decoded <= DocCensus(d).written
    decreases d, 1
  {
    match d
    case Primitive(_) =>
    case Text(pieces) => PiecesInside(pieces, []);
    case Array(_, items) => ItemsDecodedFit(items);
    case Object(_, members) => MembersDecodedFit(members);
  }

  lemma {:induction false} ItemsDecodedFit(items: seq<Item>)
    requires AreItems(items)
    ensures ItemsCensus(items).decoded <= ItemsCensus(items).written
    decreases items, 0
  {
    if items != [] {
      ItemDecodedFits(items[0]);
      ItemsDecodedFit(items[1..]);
    }
  }

  lemma {:induction false} ItemDecodedFits(x: Item)
    requires IsItem(x)
    ensures ItemCensus(x).decoded <= ItemCensus(x).written
    decreases x, 1
  {
    DecodedFits(x.doc);
  }

  lemma {:induction false} MemberDecodedFits(m: Member)
    requires IsMember(m)
    ensures MemberCensus(m).decoded <= MemberCensus(m).written
    decreases m, 1
  {
    PiecesInside(m.key, []);
    ItemDecodedFits(m.value);
  }

  lemma {:induction false} MembersDecodedFit(members: seq<Member>)
    requires AreMembers(members)
    ensures MembersCensus(members).decoded <= MembersCensus(members).written
    decreases members, 0
  {
    if members != [] {
      MemberDecodedFits(members[0]);
      MembersDecodedFit(members[1..]);
    }
  }

  /** For every JSON tree and layout: each byte is charged once, one token is priced
      for each value and each key, one map entry for each string, and at least four
      times what the strings decode to. */
  lemma {:induction false} PreflightOfTree(p: Prices, text: Item)
    requires IsItem(text)
    ensures var c := ItemCensus(text);
      && Scan(p, ItemText(text)) == (|ItemText(text)|, p.token * c.tokens + 4 * c.written + p.entry * c.strings)
      && Scan(p, ItemText(text)).1 >= p.token * c.tokens + 4 * c.decoded + p.entry * c.strings
  {
    hide Token, ItemText, ItemCensus, IsItem;
    ScansItem(p, text, []);
    assert ItemText(text) + [] == ItemText(text);
    ItemDecodedFits(text);
  }

  /** Where a reader of the text stands after a byte: between tokens, in a number or
      literal, in a string, or just after a backslash in one. */
  datatype Position = Between | InPrimitive | InString | AfterBackslash

  function Move(at: Position, b: Byte): Position {
    match at
    case Between => if b == QUOTE then InString else if IsOpen(b) || IsDelimiter(b) then Between else InPrimitive
    case InPrimitive => if IsDelimiter(b) then Between else InPrimitive
    case InString => if b == BACKSLASH then AfterBackslash else if b == QUOTE then Between else InString
    case AfterBackslash => InString
  }

  function Reads(at: Position, s: seq<Byte>): Position
    decreases s
  {
    if s == [] then at else Reads(Move(at, s[0]), s[1..])
  }

  /** On any text at all, every byte is charged once, plus one byte past the end
      exactly when the text stops right after a backslash inside a string. */
  lemma {:induction false} ChargeOfAnyText(p: Prices, s: seq<Byte>)
    ensures Scan(p, s).0 == |s| + if Reads(Between, s) == AfterBackslash then 1 else 0
    decreases |s|
  {
    if s != [] {
      hide InsideLength, PrimitiveLength;
      ChargeOfAnyText(p, Drop(s, Token(p, s).0));
      StringReads(s[1..]);
      PrimitiveReads(s[1..]);
      DropFurther(s, InsideLength(s[1..]));
      DropFurther(s, PrimitiveLength(s[1..]));
      DropFurther(s, 0);
    }
  }

  lemma DropFurther(s: seq<Byte>, n: nat)
    requires s != []
    ensures Drop(s, 1 + n) == Drop(s[1..], n)
  {
  }

  lemma {:induction false} StringReads(s: seq<Byte>)
    ensures InsideLength(s) <= |s| + 1
    ensures Reads(InString, s) == AfterBackslash <==>
      InsideLength(s) == |s| + 1 || Reads(Between, Drop(s, InsideLength(s))) == AfterBackslash
    decreases |s|
  {
    if s != [] {
      if s[0] == BACKSLASH {
        if |s| > 1 {
          var rest := s[2..];
          StringReads(rest);
          assert s[1..][1..] == rest;
          assert Drop(s, 2 + InsideLength(rest)) == Drop(rest, InsideLength(rest));
        }
      } else if s[0] != QUOTE {
        StringReads(s[1..]);
        DropFurther(s, InsideLength(s[1..]));
      }
    }
  }

  lemma {:induction false} PrimitiveReads(s: seq<Byte>)
    ensures Reads(InPrimitive, s) == AfterBackslash <==> Reads(Between, Drop(s, PrimitiveLength(s))) == AfterBackslash
    decreases |s|
  {
    if s != [] && !IsDelimiter(s[0]) {
      PrimitiveReads(s[1..]);
      DropFurther(s, PrimitiveLength(s[1..]));
    }
  }

  /** The extra byte is real: a quote and a backslash are charged as three. */
  lemma {:induction false} LoneBackslashOvercharged(p: Prices)
    ensures Scan(p, [QUOTE, BACKSLASH]).0 == 3
    ensures Scan(p, [BACKSLASH]).0 == 1
  {
    ChargeOfAnyText(p, [QUOTE, BACKSLASH]);
    ChargeOfAnyText(p, [BACKSLASH]);
    assert [QUOTE, BACKSLASH][1..] == [BACKSLASH] && [BACKSLASH][1..] == [];
    assert Reads(InString, [BACKSLASH]) == Reads(AfterBackslash, []);
  }

  /** A JSON text never stops inside a string. */
  lemma {:induction false} TreesAreChargedExactly(p: Prices, text: Item)
    requires IsItem(text)
    ensures Reads(Between, ItemText(text)) != AfterBackslash
  {
    hide Scan, ItemText, IsItem;
    PreflightOfTree(p, text);
    ChargeOfAnyText(p, ItemText(text));
  }
}
