/** The scanner itself, which walks the UTF-8 bytes of the string: every position it
    slices at is a character boundary, and it finds what the characters say. */
module InterpolationBytes {
  import opened Wrappers
  import opened Interpolation
  import Utf8

  // ---- bytes seen as characters ------------------------------------------------------------

  /** Bytes, each as the character of that number. */
  function AsText(b: seq<Byte>): (s: string)
    ensures |s| == |b|
  {
    seq(|b|, i requires 0 <= i < |b| => b[i] as char)
  }

  function CharBytes(c: char): string {
    AsText(Utf8.EncodeChar(c))
  }

  /** The UTF-8 bytes of a text. */
  function Bytes(s: string): string {
    AsText(Utf8.Encode(s))
  }

  predicate IsAscii(c: char) {
    c < 128 as char
  }

  predicate AllHigh(s: string) {
    forall c :: c in s ==> !IsAscii(c)
  }

  lemma CharShape(c: char)
    ensures |CharBytes(c)| >= 1
    ensures IsAscii(c) ==> CharBytes(c) == [c]
    ensures !IsAscii(c) ==> AllHigh(CharBytes(c))
  {
    if IsAscii(c) {
      assert Utf8.EncodeChar(c) == [c as int];
    }
  }

  lemma {:induction false} BytesStep(s: string)
    ensures Bytes(s) == if s == [] then [] else CharBytes(s[0]) + Bytes(s[1..])
  {
    hide Utf8.EncodeChar;
  }

  lemma {:induction false} BytesOf(a: string, b: string)
    ensures Bytes(a + b) == Bytes(a) + Bytes(b)
  {
    hide Bytes, CharBytes;
    BytesStep(a);
    if a == [] {
      assert a + b == b;
    } else {
      assert (a + b)[1..] == a[1..] + b;
      BytesStep(a + b);
      BytesOf(a[1..], b);
    }
  }

  /** How many bytes come before the `i`-th character. */
  function ByteAt(s: string, i: int): nat {
    if 0 <= i <= |s| then |Bytes(s[..i])| else 0
  }

  lemma {:induction false} ByteAtSplit(s: string, i: nat, j: nat)
    requires i <= j <= |s|
    ensures ByteAt(s, j) == ByteAt(s, i) + |Bytes(s[i..j])| && ByteAt(s, j) <= |Bytes(s)|
    ensures Bytes(s)[ByteAt(s, i)..ByteAt(s, j)] == Bytes(s[i..j])
  {
    hide Bytes;
    BytesOf(s[..i], s[i..j]);
    BytesOf(s[..j], s[j..]);
    assert s[..i] + s[i..j] == s[..j] && s[..j] + s[j..] == s;
    Between(Bytes(s[..i]), Bytes(s[i..j]), Bytes(s[j..]));
  }

  lemma Between(a: string, b: string, c: string)
    ensures ((a + b) + c)[|a|..|a| + |b|] == b
  {
  }

  /** The rest of the bytes are the bytes of the rest. */
  lemma {:induction false} BytesFrom(s: string, i: nat)
    requires i <= |s|
    ensures ByteAt(s, i) <= |Bytes(s)| && Bytes(s)[ByteAt(s, i)..] == Bytes(s[i..])
  {
    ByteAtSplit(s, i, |s|);
    assert s[i..|s|] == s[i..] && s[..|s|] == s;
  }

  lemma OneChar(c: char)
    ensures Bytes([c]) == CharBytes(c)
  {
    hide Utf8.EncodeChar;
    assert [c][1..] == [];
    BytesStep([]);
    BytesStep([c]);
  }

  lemma {:induction false} ByteAtNext(s: string, i: nat)
    requires i < |s|
    ensures ByteAt(s, i + 1) == ByteAt(s, i) + |CharBytes(s[i])| && ByteAt(s, i) < |Bytes(s)|
  {
    hide CharBytes, Bytes;
    CharShape(s[i]);
    ByteAtSplit(s, i, i + 1);
    assert s[i..i + 1] == [s[i]];
    OneChar(s[i]);
  }

  /** Which character starts at a byte, if one does. */
  function CharAt(s: string, b: nat): Option<nat>
    decreases |s|
  {
    if b == 0 then Some(0)
    else if s == [] || b < |CharBytes(s[0])| then None
    else Shift(1, CharAt(s[1..], b - |CharBytes(s[0])|))
  }

  lemma {:induction false} CharAtBoundary(s: string, i: nat)
    requires i <= |s|
    ensures CharAt(s, ByteAt(s, i)) == Some(i)
    decreases i
  {
    hide CharBytes, Bytes;
    BytesStep(s[..i]);
    if i > 0 {
      CharShape(s[0]);
      CharAtBoundary(s[1..], i - 1);
      assert s[..i][1..] == s[1..][..i - 1];
    }
  }

  /** `&s[b..e]`, absent where the source would panic. */
  function Slice(s: string, b: nat, e: nat): Option<string> {
    match (CharAt(s, b), CharAt(s, e))
    case (Some(i), Some(j)) => if i <= j <= |s| then Some(s[i..j]) else None
    case _ => None
  }

  lemma SliceAtBoundaries(s: string, i: nat, j: nat)
    requires i <= j <= |s|
    ensures Slice(s, ByteAt(s, i), ByteAt(s, j)) == Some(s[i..j])
  {
    CharAtBoundary(s, i);
    CharAtBoundary(s, j);
  }

  // ---- where an expression closes -------------------------------------------------------------

  /** Bytes of a multi-byte character change nothing, in whatever state. */
  lemma {:induction false} HighPasses(high: string, rest: string, depth: nat, state: State)
    requires depth > 0 && AllHigh(high)
    ensures Close(high + rest, depth, state) == Shift(|high|, Close(rest, depth, state))
    decreases |high|
  {
    hide Close;
    if high == [] {
      assert high + rest == rest;
      assert Shift(0, Close(rest, depth, state)) == Close(rest, depth, state);
    } else {
      var text := high + rest;
      assert text[0] == high[0] && high[0] in high;
      CloseStep(text, depth, state);
      assert Drop(text, 1) == high[1..] + rest;
      HighPasses(high[1..], rest, depth, state);
      ShiftShift(1, |high| - 1, Close(rest, depth, state));
    }
  }

  /** A character position as a byte position. */
  function InBytes(s: string, close: Option<nat>): Option<nat> {
    if close == None then None else Some(ByteAt(s, close.value))
  }

  lemma InBytesLater(s: string, n: nat, close: Option<nat>)
    requires n <= |s| && (close.Some? ==> close.value <= |s| - n)
    ensures InBytes(s, Shift(n, close)) == Shift(ByteAt(s, n), InBytes(s[n..], close))
  {
    hide Bytes;
    if close.Some? {
      ByteAtSplit(s, n, n + close.value);
      assert s[n..n + close.value] == s[n..][..close.value];
    }
  }

  lemma {:induction false} FirstBytes(s: string)
    requires s != []
    ensures Bytes(s) == CharBytes(s[0]) + Bytes(s[1..]) && ByteAt(s, 1) == |CharBytes(s[0])|
  {
    hide Bytes, CharBytes;
    assert s[..1] == [s[0]];
    OneChar(s[0]);
    BytesStep(s);
  }

  /** Looking two characters ahead and looking two bytes ahead see the same, when the
      characters looked for are ASCII. */
  lemma {:induction false} SameStart(s: string, c: char, d: char)
    requires s != [] && IsAscii(s[0]) && IsAscii(d)
    ensures Starts(Bytes(s), c, d) <==> Starts(s, c, d)
    ensures Bytes(s) != [] && Bytes(s)[0] == s[0]
  {
    hide CharBytes, Bytes;
    CharShape(s[0]);
    FirstBytes(s);
    if |s| > 1 {
      CharShape(s[1]);
      FirstBytes(s[1..]);
      var second := CharBytes(s[1]);
      assert Bytes(s)[1] == second[0] && second[0] in second;
      assert s[1..][0] == s[1];
    } else {
      BytesStep(s[1..]);
    }
  }

  lemma {:induction false} SameQuotedStep(s: string, state: State)
    requires s != [] && IsAscii(s[0])
    ensures QuotedStep(Bytes(s), state) == QuotedStep(s, state)
  {
    hide Bytes, Starts;
    SameStart(s, '\'', '\'');
    SameStart(s, '`', '`');
    SameStart(s, '*', '/');
  }

  lemma {:induction false} SameNormalStep(s: string, depth: nat)
    requires s != [] && IsAscii(s[0]) && depth > 0 && !(s[0] == '}' && depth == 1)
    ensures Bytes(s) != [] && Bytes(s)[0] == s[0] && NormalStep(Bytes(s), depth) == NormalStep(s, depth)
  {
    hide Bytes, Starts;
    SameStart(s, '/', '/');
    SameStart(s, '/', '*');
  }

  /** Dropping the two bytes of an escape may stop inside a character; its other bytes
      are then passed over one by one. */
  lemma {:induction false} EscapePasses(s: string, depth: nat, state: State)
    requires s != [] && IsAscii(s[0]) && depth > 0
    ensures |s| == 1 ==> Drop(Bytes(s), 2) == [] && Drop(s, 2) == []
    ensures |s| > 1 ==>
      Shift(2, Close(Drop(Bytes(s), 2), depth, state)) == Shift(ByteAt(s, 2), Close(Bytes(s[2..]), depth, state))
  {
    hide CharBytes, Bytes, Close;
    CharShape(s[0]);
    FirstBytes(s);
    if |s| > 1 {
      var second, rest := CharBytes(s[1]), Bytes(s[2..]);
      CharShape(s[1]);
      FirstBytes(s[1..]);
      assert s[1..][1..] == s[2..];
      ByteAtNext(s, 1);
      assert Drop(Bytes(s), 2) == second[1..] + rest;
      if !IsAscii(s[1]) {
        assert forall c :: c in second[1..] ==> c in second;
      }
      HighPasses(second[1..], rest, depth, state);
      ShiftShift(2, |second| - 1, Close(rest, depth, state));
    } else {
      BytesStep(s[1..]);
    }
  }

  /** A pair of ASCII characters is a pair of bytes. */
  lemma {:induction false} PairDropped(s: string)
    requires |s| > 1 && IsAscii(s[0]) && IsAscii(s[1])
    ensures Drop(Bytes(s), 2) == Bytes(s[2..]) && ByteAt(s, 2) == 2
  {
    hide CharBytes, Bytes;
    CharShape(s[0]);
    CharShape(s[1]);
    FirstBytes(s);
    FirstBytes(s[1..]);
    assert s[1..][1..] == s[2..];
    ByteAtNext(s, 1);
  }

  /** The scan over bytes closes an expression at the byte of the character where the
      scan over characters closes it. */
  lemma {:induction false} CloseInBytes(s: string, depth: nat, state: State)
    requires depth > 0
    ensures Close(Bytes(s), depth, state) == InBytes(s, Close(s, depth, state))
    decreases |s|
  {
    if s == [] {
      assert Bytes(s) == [];
    } else if !IsAscii(s[0]) {
      HighCharInBytes(s, depth, state);
    } else if state != Normal {
      QuotedInBytes(s, depth, state);
    } else if s[0] == '}' && depth == 1 {
      hide CharBytes, Bytes;
      CharShape(s[0]);
      assert ByteAt(s, 0) == 0 by { assert s[..0] == []; }
    } else {
      NormalInBytes(s, depth);
    }
  }

  lemma {:induction false} HighCharInBytes(s: string, depth: nat, state: State)
    requires depth > 0 && s != [] && !IsAscii(s[0])
    ensures Close(Bytes(s), depth, state) == InBytes(s, Close(s, depth, state))
    decreases |s|, 0
  {
    hide CharBytes, Close, Bytes, ByteAt;
    CharShape(s[0]);
    FirstBytes(s);
    HighPasses(CharBytes(s[0]), Bytes(s[1..]), depth, state);
    CloseInBytes(s[1..], depth, state);
    CloseStep(s, depth, state);
    assert Drop(s, 1) == s[1..];
    InBytesLater(s, 1, Close(s[1..], depth, state));
  }

  lemma {:induction false} QuotedInBytes(s: string, depth: nat, state: State)
    requires depth > 0 && s != [] && IsAscii(s[0]) && state != Normal
    ensures Close(Bytes(s), depth, state) == InBytes(s, Close(s, depth, state))
    decreases |s|, 0
  {
    hide CharBytes, Close, Bytes, ByteAt;
    var (n, next) := QuotedStep(s, state);
    CharShape(s[0]);
    FirstBytes(s);
    SameQuotedStep(s, state);
    CloseStep(s, depth, state);
    CloseStep(Bytes(s), depth, state);
    if n == 1 {
      assert Drop(s, 1) == s[1..] && Drop(Bytes(s), 1) == Bytes(s[1..]);
      CloseInBytes(s[1..], depth, next);
      InBytesLater(s, 1, Close(s[1..], depth, next));
    } else {
      EscapePasses(s, depth, next);
      if |s| > 1 {
        assert Drop(s, 2) == s[2..];
        CloseInBytes(s[2..], depth, next);
        InBytesLater(s, 2, Close(s[2..], depth, next));
      } else {
        NothingCloses(depth, next);
      }
    }
  }

  lemma {:induction false} NothingCloses(depth: nat, state: State)
    requires depth > 0
    ensures Close([], depth, state) == None
  {
  }

  lemma {:induction false} NormalInBytes(s: string, depth: nat)
    requires depth > 0 && s != [] && IsAscii(s[0]) && !(s[0] == '}' && depth == 1)
    ensures Close(Bytes(s), depth, Normal) == InBytes(s, Close(s, depth, Normal))
    decreases |s|, 0
  {
    hide CharBytes, Close, Bytes, ByteAt;
    var (n, deeper, next) := NormalStep(s, depth);
    CharShape(s[0]);
    FirstBytes(s);
    SameNormalStep(s, depth);
    CloseStep(s, depth, Normal);
    CloseStep(Bytes(s), depth, Normal);
    if n == 1 {
      assert Drop(s, 1) == s[1..] && Drop(Bytes(s), 1) == Bytes(s[1..]);
    } else {
      PairDropped(s);
      assert Drop(s, 2) == s[2..];
    }
    CloseInBytes(s[n..], deeper, next);
    InBytesLater(s, n, Close(s[n..], deeper, next));
  }

  // ---- the fragments of a body ------------------------------------------------------------------

  /** `push_fragment` on the slice of an expression. */
  function ByteFragmentOf(raw: string, base: nat): Fragment
  {
    var leading := |Bytes(raw)| - |Bytes(TrimStart(raw))|;
    Fragment(Trim(raw), if leading < 0 then base else base + leading, base + |Bytes(raw)|)
  }

  /** What the scan over bytes finds from byte `at` of the body on, outside any
      expression; positions are counted from `offset`. */
  function ByteFragments(body: string, at: nat, offset: nat): Found
    decreases |Bytes(body)| - at
  {
    var bytes := Bytes(body);
    if at >= |bytes| then Ok([])
    else if bytes[at] == '\\' then ByteFragments(body, at + 2, offset)
    else if bytes[at] == '{' then
      var close := Close(bytes[at + 1..], 1, Normal);
      if close == None then Err(Unclosed) else
      var end := at + 1 + close.value;
      var raw := Slice(body, at + 1, end);
      if raw == None then Err(OffBoundary)
      else if Trim(raw.value) == [] then Err(Empty)
      else Prefixed([ByteFragmentOf(raw.value, offset + at + 1)], ByteFragments(body, end + 1, offset))
    else if bytes[at] == '}' then Err(Unmatched)
    else ByteFragments(body, at + 1, offset)
  }

  lemma {:induction false} ByteFragmentsStep(body: string, at: nat, offset: nat)
    requires at < |Bytes(body)|
    ensures var b := Bytes(body)[at];
      && (b == '\\' ==> ByteFragments(body, at, offset) == ByteFragments(body, at + 2, offset))
      && (b == '}' ==> ByteFragments(body, at, offset) == Err(Unmatched))
      && (b != '\\' && b != '{' && b != '}' ==> ByteFragments(body, at, offset) == ByteFragments(body, at + 1, offset))
  {
    hide Bytes, Close, Slice, Trim, ByteFragmentOf;
  }

  lemma {:induction false} ByteFragmentsOpen(body: string, at: nat, offset: nat)
    requires at < |Bytes(body)| && Bytes(body)[at] == '{'
    ensures var close := Close(Bytes(body)[at + 1..], 1, Normal);
      ByteFragments(body, at, offset) == if close == None then Err(Unclosed) else
        var end := at + 1 + close.value;
        var raw := Slice(body, at + 1, end);
        if raw == None then Err(OffBoundary)
        else if Trim(raw.value) == [] then Err(Empty)
        else Prefixed([ByteFragmentOf(raw.value, offset + at + 1)], ByteFragments(body, end + 1, offset))
  {
    hide Bytes, Close, Slice, Trim, ByteFragmentOf;
  }

  lemma {:induction false} ByteFragmentsEnd(body: string, at: nat, offset: nat)
    requires at >= |Bytes(body)|
    ensures ByteFragments(body, at, offset) == Ok([])
  {
    hide Bytes;
  }

  /** The bytes of a multi-byte character are outer text like any other. */
  lemma {:induction false} HighSkipped(body: string, at: nat, n: nat, offset: nat)
    requires at + n <= |Bytes(body)| && AllHigh(Bytes(body)[at..at + n])
    ensures ByteFragments(body, at, offset) == ByteFragments(body, at + n, offset)
    decreases n
  {
    hide Bytes, ByteFragments;
    if n > 0 {
      var high := Bytes(body)[at..at + n];
      assert high[0] in high && high[0] == Bytes(body)[at];
      ByteFragmentsStep(body, at, offset);
      HighTail(Bytes(body), at, at + n);
      HighSkipped(body, at + 1, n - 1, offset);
    }
  }

  /** A fragment found by characters of a body that starts at character `first`, with
      its positions in bytes. */
  function Located(body: string, first: nat, f: Fragment): Fragment {
    Fragment(f.text, first + ByteAt(body, f.offset - first), first + ByteAt(body, f.end - first))
  }

  function AllLocated(body: string, first: nat, fs: seq<Fragment>): seq<Fragment> {
    if fs == [] then [] else [Located(body, first, fs[0])] + AllLocated(body, first, fs[1..])
  }

  function FoundInBytes(body: string, first: nat, found: Found): Found {
    if found.Err? then found else Ok(AllLocated(body, first, found.value))
  }

  lemma LocatedFragment(body: string, first: nat, i: nat, j: nat)
    requires i <= j <= |body|
    ensures ByteFragmentOf(body[i..j], first + ByteAt(body, i)) ==
      Located(body, first, FragmentOf(body[i..j], first + i))
  {
    hide Bytes, Trim, IsWhite;
    var raw := body[i..j];
    TrimStartIs(raw);
    var lead := |raw| - |TrimStart(raw)|;
    hide TrimStart;
    ByteAtSplit(body, i, j);
    ByteAtSplit(body, i, i + lead);
    ByteAtSplit(raw, lead, |raw|);
    assert raw[lead..|raw|] == TrimStart(raw) && raw[..|raw|] == raw;
    assert body[i..i + lead] == raw[..lead];
    assert first + i + lead - first == i + lead && first + i + |raw| - first == j;
  }

  /** An expression closes at a closing brace. */
  lemma {:induction false} ClosesAtBrace(s: string, depth: nat, state: State)
    requires depth > 0 && Close(s, depth, state).Some?
    ensures s[Close(s, depth, state).value] == '}'
    decreases |s|
  {
    hide QuotedStep, NormalStep;
    if state != Normal {
      var (n, next) := QuotedStep(s, state);
      ClosesAtBrace(Drop(s, n), depth, next);
    } else if !(s[0] == '}' && depth == 1) {
      var (n, deeper, next) := NormalStep(s, depth);
      ClosesAtBrace(Drop(s, n), deeper, next);
    }
  }

  /** From every character boundary, the scan over bytes finds exactly what the scan
      over characters finds, and it never slices inside a character. */
  lemma {:induction false} SameFragments(body: string, i: nat, first: nat)
    requires i <= |body|
    ensures ByteFragments(body, ByteAt(body, i), first) == FoundInBytes(body, first, Fragments(body[i..], first + i))
    decreases |body| - i
  {
    hide Bytes, CharBytes, ByteFragments, Fragments, ByteAt;
    BytesFrom(body, i);
    var s, at := body[i..], ByteAt(body, i);
    if i == |body| {
      assert s == [] && Bytes(s) == [] by { NoBytes(); }
      ByteFragmentsEnd(body, at, first);
      NoText(first + i);
    } else if !IsAscii(body[i]) {
      HighOuter(body, i, first);
    } else {
      AsciiAt(body, i);
      ByteAtNext(body, i);
      if body[i] == '{' {
        SameExpression(body, i, first);
      } else {
        ByteFragmentsStep(body, at, first);
        FragmentsStep(s, first + i);
        if body[i] == '\\' {
          SameEscape(body, i, first);
        } else if body[i] != '}' {
          assert s[1..] == body[i + 1..];
          SameFragments(body, i + 1, first);
        }
      }
    }
  }

  lemma NoBytes()
    ensures Bytes([]) == []
  {
  }

  lemma {:induction false} AsciiAt(body: string, i: nat)
    requires i < |body| && IsAscii(body[i])
    ensures ByteAt(body, i) < |Bytes(body)| && Bytes(body)[ByteAt(body, i)] == body[i] && |CharBytes(body[i])| == 1
  {
    hide CharBytes, Bytes, ByteAt;
    CharShape(body[i]);
    BytesFrom(body, i);
    FirstBytes(body[i..]);
  }

  lemma {:induction false} HighAt(body: string, i: nat)
    requires i < |body| && !IsAscii(body[i])
    ensures ByteAt(body, i + 1) <= |Bytes(body)| && ByteAt(body, i) < ByteAt(body, i + 1)
    ensures AllHigh(Bytes(body)[ByteAt(body, i)..ByteAt(body, i + 1)])
  {
    hide CharBytes, Bytes, ByteAt;
    CharShape(body[i]);
    ByteAtNext(body, i);
    ByteAtSplit(body, i, i + 1);
    assert body[i..i + 1] == [body[i]];
    FirstBytes([body[i]]);
    assert [body[i]][1..] == [] && Bytes([]) == [];
  }

  lemma {:induction false} HighOuter(body: string, i: nat, first: nat)
    requires i < |body| && !IsAscii(body[i])
    ensures ByteFragments(body, ByteAt(body, i), first) == FoundInBytes(body, first, Fragments(body[i..], first + i))
    decreases |body| - i, 0
  {
    hide Bytes, CharBytes, ByteFragments, Fragments, ByteAt;
    HighAt(body, i);
    HighSkipped(body, ByteAt(body, i), ByteAt(body, i + 1) - ByteAt(body, i), first);
    SameFragments(body, i + 1, first);
    FragmentsStep(body[i..], first + i);
    assert body[i..][1..] == body[i + 1..];
  }

  lemma HighTail(bytes: string, start: nat, stop: nat)
    requires start < stop <= |bytes| && AllHigh(bytes[start..stop])
    ensures AllHigh(bytes[start + 1..stop])
  {
    assert bytes[start..stop][1..] == bytes[start + 1..stop];
  }

  /** After a backslash the scan may stand inside a character, and passes the rest. */
  lemma {:induction false} SameEscape(body: string, i: nat, first: nat)
    requires i < |body| && body[i] == '\\'
    ensures ByteFragments(body, ByteAt(body, i), first) == FoundInBytes(body, first, Fragments(body[i..], first + i))
    decreases |body| - i, 0
  {
    hide Bytes, CharBytes, ByteFragments, Fragments, ByteAt;
    var s, at := body[i..], ByteAt(body, i);
    AsciiAt(body, i);
    ByteAtNext(body, i);
    ByteFragmentsStep(body, at, first);
    FragmentsStep(s, first + i);
    if i + 1 == |body| {
      BytesFrom(body, |body|);
      assert body[|body|..] == [] && Drop(s, 2) == [];
      NoBytes();
      ByteFragmentsEnd(body, at + 2, first);
      NoText(first + i + 2);
    } else {
      assert Drop(s, 2) == body[i + 2..];
      SameFragments(body, i + 2, first);
      ByteAtNext(body, i + 1);
      if IsAscii(body[i + 1]) {
        AsciiAt(body, i + 1);
      } else {
        HighAt(body, i + 1);
        var start, stop := ByteAt(body, i + 1), ByteAt(body, i + 2);
        HighTail(Bytes(body), start, stop);
        HighSkipped(body, at + 2, stop - (at + 2), first);
      }
    }
  }

  lemma {:induction false} SameExpression(body: string, i: nat, first: nat)
    requires i < |body| && body[i] == '{'
    ensures ByteFragments(body, ByteAt(body, i), first) == FoundInBytes(body, first, Fragments(body[i..], first + i))
    decreases |body| - i, 0
  {
    hide Bytes, CharBytes, ByteFragments, Fragments, ByteAt, Close, Trim, FragmentOf, ByteFragmentOf, Slice, CharAt;
    var s, at := body[i..], ByteAt(body, i);
    AsciiAt(body, i);
    ByteAtNext(body, i);
    BytesFrom(body, i + 1);
    ByteFragmentsOpen(body, at, first);
    FragmentsOpen(s, first + i);
    assert s[1..] == body[i + 1..];
    CloseInBytes(s[1..], 1, Normal);
    var close := Close(s[1..], 1, Normal);
    if close.Some? {
      var n := close.value;
      ClosesAtBrace(s[1..], 1, Normal);
      ByteAtSplit(body, i + 1, i + 1 + n);
      WithinRest(body, i + 1, n);
      AsciiAt(body, i + 1 + n);
      ByteAtNext(body, i + 1 + n);
      SliceAtBoundaries(body, i + 1, i + 1 + n);
      LocatedFragment(body, first, i + 1, i + 1 + n);
      assert s[1..1 + n] == body[i + 1..i + 1 + n] && s[n + 2..] == body[i + n + 2..];
      SameFragments(body, i + n + 2, first);
      LocatedPrefix(body, first, FragmentOf(s[1..1 + n], first + i + 1), Fragments(s[n + 2..], first + i + n + 2));
    }
  }

  lemma WithinRest(body: string, i: nat, n: nat)
    requires i + n <= |body|
    ensures ByteAt(body[i..], n) == |Bytes(body[i..i + n])|
  {
    assert body[i..][..n] == body[i..i + n];
  }

  lemma LocatedPrefix(body: string, first: nat, f: Fragment, found: Found)
    ensures FoundInBytes(body, first, Prefixed([f], found)) ==
      Prefixed([Located(body, first, f)], FoundInBytes(body, first, found))
  {
    hide Located;
    if found.Ok? {
      assert ([f] + found.value)[1..] == found.value;
    }
  }

  // ---- the loop -----------------------------------------------------------------------------------

  /** The loop's variables: in outer text, or in an expression that began at `begin`. */
  datatype Scan = Scan(index: nat, begin: Option<nat>, depth: nat, state: State, output: seq<Fragment>)

  /** What the scan has left to find: in outer text the fragments from its index on; in
      an expression, first where it closes. */
  ghost predicate Remaining(body: string, offset: nat, l: Scan) {
    var bytes, whole := Bytes(body), ByteFragments(body, 0, offset);
    && (l.depth == 0 <==> l.begin == None)
    && (l.depth == 0 ==> l.state == Normal && whole == Prefixed(l.output, ByteFragments(body, l.index, offset)))
    && (l.depth > 0 ==>
      var b := l.begin.value;
      && 1 <= b <= l.index && b <= |bytes| && bytes[b - 1] == '{'
      && Close(bytes[b..], 1, Normal) == Shift(l.index - b, Close(Drop(bytes, l.index), l.depth, l.state))
      && whole == Prefixed(l.output, ByteFragments(body, b - 1, offset)))
  }

  /** `interpolation_fragments`: the loop over the bytes of the body returns what the
      characters of the text say, at byte positions, and never slices off a boundary. */
  method FindFragments(text: string) returns (r: Found)
    ensures r == match Body(text)
      case None => Err(NotInterpolated)
      case Some((body, first)) => FoundInBytes(body, first, InterpolationFragments(text))
  {
    var found := Body(text);
    if found == None { return Err(NotInterpolated); }
    var (body, first) := found.value;
    hide Bytes;
    BodyOffset(text);
    var offset := |Bytes(text)| - |Bytes(body)| - 1;
    r := ScanBody(body, offset);
    SameFragments(body, 0, first);
    assert body[0..] == body && ByteAt(body, 0) == 0 by { NoBytes(); assert body[..0] == []; }
  }

  /** All that precedes the body is ASCII, so its byte offset is its character offset. */
  lemma {:induction false} BodyOffset(text: string)
    requires Body(text).Some?
    ensures var (body, first) := Body(text).value; |Bytes(text)| == first + |Bytes(body)| + 1
    ensures var (body, first) := Body(text).value; first <= |text| && text[first..first + |body|] == body
    ensures var (body, first) := Body(text).value; first + |body| + 1 == |text| && Bytes(text[..first]) == text[..first]
  {
    BodyShape(text);
    hide Bytes, Body;
    var (body, first) := Body(text).value;
    var before := text[..first];
    BytesOf(before, body + ['"']);
    BytesOf(body, ['"']);
    AsciiBytes(['"']);
    AsciiBytes(before);
  }

  lemma BodyShape(text: string)
    requires Body(text).Some?
    ensures var (body, first) := Body(text).value;
      && first + |body| + 1 == |text| && text[first..first + |body|] == body
      && text == text[..first] + (body + ['"']) && forall i :: 0 <= i < first ==> IsAscii(text[i])
  {
    var start := if text[0] == 's' || text[0] == 'S' then 1 else 0;
    assert Body(text).value.0 == text[start + 1..|text| - 1];
  }

  lemma {:induction false} AsciiBytes(s: string)
    requires forall i :: 0 <= i < |s| ==> IsAscii(s[i])
    ensures Bytes(s) == s
  {
    hide CharBytes, Bytes;
    if s != [] {
      FirstBytes(s);
      hide Bytes;
      CharShape(s[0]);
      AsciiBytes(s[1..]);
      assert [s[0]] + s[1..] == s;
    } else {
      NoBytes();
    }
  }

  method ScanBody(body: string, offset: nat) returns (r: Found)
    ensures r == ByteFragments(body, 0, offset)
  {
    hide ByteFragments, Bytes, Close, QuotedStep, NormalStep, Remaining, Trim, ByteFragmentOf, Slice;
    var bytes := Bytes(body);
    var l := Scan(0, None, 0, Normal, []);
    StartRemaining(body, offset);
    while l.index < |bytes|
      invariant Remaining(body, offset, l)
      decreases |bytes| - l.index
    {
      RemainingBounds(body, offset, l);
      var b := bytes[l.index];
      if l.depth == 0 {
        OuterStep(body, offset, l);
        if b == '\\' {
          l := l.(index := l.index + 2);
        } else if b == '{' {
          l := l.(index := l.index + 1, begin := Some(l.index + 1), depth := 1);
        } else if b == '}' {
          return Err(Unmatched);
        } else {
          l := l.(index := l.index + 1);
        }
      } else if l.state != Normal {
        QuotedKeeps(body, offset, l);
        var step := QuotedStep(bytes[l.index..], l.state);
        l := l.(index := l.index + step.0, state := step.1);
      } else if b == '}' && l.depth == 1 {
        ClosedStep(body, offset, l);
        var begin := l.begin.value;
        var raw := Slice(body, begin, l.index);
        if raw == None { return Err(OffBoundary); }
        if Trim(raw.value) == [] { return Err(Empty); }
        l := Scan(l.index + 1, None, 0, Normal, l.output + [ByteFragmentOf(raw.value, offset + begin)]);
      } else {
        NormalKeeps(body, offset, l);
        var step := NormalStep(bytes[l.index..], l.depth);
        l := l.(index := l.index + step.0, depth := step.1, state := step.2);
      }
    }
    EndRemaining(body, offset, l);
    return if l.depth != 0 then Err(Unclosed) else Ok(l.output);
  }

  lemma StartRemaining(body: string, offset: nat)
    ensures Remaining(body, offset, Scan(0, None, 0, Normal, []))
  {
    hide ByteFragments;
    var all := ByteFragments(body, 0, offset);
    if all.Ok? { assert [] + all.value == all.value; }
  }

  lemma {:induction false} RemainingBounds(body: string, offset: nat, l: Scan)
    requires Remaining(body, offset, l)
    ensures l.depth == 0 ==> l.begin == None && l.state == Normal
    ensures l.depth > 0 ==> l.begin.Some? && l.begin.value <= l.index && l.begin.value <= |Bytes(body)|
  {
  }

  lemma {:induction false} OuterStep(body: string, offset: nat, l: Scan)
    requires l.depth == 0 && l.index < |Bytes(body)| && Remaining(body, offset, l)
    ensures var b := Bytes(body)[l.index];
      && (b == '}' ==> ByteFragments(body, 0, offset) == Err(Unmatched))
      && (b == '{' ==> Remaining(body, offset, l.(index := l.index + 1, begin := Some(l.index + 1), depth := 1)))
      && (b == '\\' ==> Remaining(body, offset, l.(index := l.index + 2)))
      && (b != '}' && b != '{' && b != '\\' ==> Remaining(body, offset, l.(index := l.index + 1)))
  {
    hide ByteFragments, Bytes, Close;
    ByteFragmentsStep(body, l.index, offset);
    var rest := Bytes(body)[l.index + 1..];
    assert Drop(Bytes(body), l.index + 1) == rest;
    assert Shift(0, Close(rest, 1, Normal)) == Close(rest, 1, Normal);
  }

  lemma DropFurther(bytes: string, index: nat, n: nat)
    requires index < |bytes|
    ensures Drop(Drop(bytes, index), n) == Drop(bytes, index + n) && Drop(bytes, index) == bytes[index..]
  {
  }

  lemma {:induction false} QuotedKeeps(body: string, offset: nat, l: Scan)
    requires l.depth > 0 && l.state != Normal && l.index < |Bytes(body)| && Remaining(body, offset, l)
    ensures var (n, next) := QuotedStep(Bytes(body)[l.index..], l.state);
      Remaining(body, offset, l.(index := l.index + n, state := next))
  {
    hide ByteFragments, Bytes, QuotedStep, Close, Drop, Shift;
    var bytes := Bytes(body);
    var (n, next) := QuotedStep(bytes[l.index..], l.state);
    DropFurther(bytes, l.index, n);
    CloseStep(bytes[l.index..], l.depth, l.state);
    ShiftShift(l.index - l.begin.value, n, Close(Drop(bytes, l.index + n), l.depth, next));
  }

  lemma {:induction false} NormalKeeps(body: string, offset: nat, l: Scan)
    requires l.depth > 0 && l.state == Normal && l.index < |Bytes(body)| && Remaining(body, offset, l)
    requires !(Bytes(body)[l.index] == '}' && l.depth == 1)
    ensures var (n, deeper, next) := NormalStep(Bytes(body)[l.index..], l.depth);
      Remaining(body, offset, l.(index := l.index + n, depth := deeper, state := next))
  {
    hide ByteFragments, Bytes, NormalStep, Close, Drop, Shift;
    var bytes := Bytes(body);
    var (n, deeper, next) := NormalStep(bytes[l.index..], l.depth);
    DropFurther(bytes, l.index, n);
    CloseStep(bytes[l.index..], l.depth, Normal);
    ShiftShift(l.index - l.begin.value, n, Close(Drop(bytes, l.index + n), deeper, next));
  }

  lemma {:induction false} ClosedStep(body: string, offset: nat, l: Scan)
    requires l.depth == 1 && l.state == Normal && l.index < |Bytes(body)| && Bytes(body)[l.index] == '}'
    requires Remaining(body, offset, l)
    ensures var b := l.begin.value;
      var raw := Slice(body, b, l.index);
      && (raw == None ==> ByteFragments(body, 0, offset) == Err(OffBoundary))
      && (raw.Some? && Trim(raw.value) == [] ==> ByteFragments(body, 0, offset) == Err(Empty))
      && (raw.Some? && Trim(raw.value) != [] ==> Remaining(body, offset,
            Scan(l.index + 1, None, 0, Normal, l.output + [ByteFragmentOf(raw.value, offset + b)])))
  {
    hide ByteFragments, Bytes, Close, Slice, Trim, ByteFragmentOf;
    var b, raw := l.begin.value, Slice(body, l.begin.value, l.index);
    DropFurther(Bytes(body), l.index, 0);
    CloseStep(Drop(Bytes(body), l.index), 1, Normal);
    assert Close(Bytes(body)[b..], 1, Normal) == Some(l.index - b);
    ByteFragmentsOpen(body, b - 1, offset);
    if raw.Some? {
      PrefixedMore(l.output, ByteFragmentOf(raw.value, offset + b), ByteFragments(body, l.index + 1, offset));
    }
  }

  lemma {:induction false} EndRemaining(body: string, offset: nat, l: Scan)
    requires l.index >= |Bytes(body)| && Remaining(body, offset, l)
    ensures ByteFragments(body, 0, offset) == if l.depth != 0 then Err(Unclosed) else Ok(l.output)
  {
    hide ByteFragments, Bytes, Close;
    if l.depth == 0 {
      ByteFragmentsEnd(body, l.index, offset);
      assert l.output + [] == l.output;
    } else {
      assert Drop(Bytes(body), l.index) == [];
      NothingCloses(l.depth, l.state);
      ByteFragmentsOpen(body, l.begin.value - 1, offset);
    }
  }

  // ---- what every result satisfies ------------------------------------------------------------------

  /** A fragment is the bytes of the text at its reported offset. */
  predicate IsByteSlice(text: string, f: Fragment) {
    && f.offset + |Bytes(f.text)| <= f.end <= |Bytes(text)|
    && Bytes(text)[f.offset..f.offset + |Bytes(f.text)|] == Bytes(f.text) && f.text != []
  }

  /** Positions in the body and in the text agree, byte for byte. */
  lemma PositionInText(text: string, o: nat)
    requires Body(text).Some?
    requires var (body, first) := Body(text).value; first <= o <= first + |body|
    ensures var (body, first) := Body(text).value; first + ByteAt(body, o - first) == ByteAt(text, o)
  {
    hide Bytes;
    BodyOffset(text);
    var (body, first) := Body(text).value;
    BytesOf(text[..first], body[..o - first]);
    assert text[..o] == text[..first] + body[..o - first];
  }

  lemma LocatedSlice(text: string, f: Fragment)
    requires Body(text).Some? && IsSlice(text, f)
    requires var (body, first) := Body(text).value; first <= f.offset && f.end <= first + |body|
    ensures var (body, first) := Body(text).value;
      var g := Located(body, first, f);
      IsByteSlice(text, g) && g.offset == ByteAt(text, f.offset) && g.end == ByteAt(text, f.end)
  {
    hide Bytes, Body;
    PositionInText(text, f.offset);
    PositionInText(text, f.end);
    ByteAtSplit(text, f.offset, f.offset + |f.text|);
    ByteAtSplit(text, f.offset + |f.text|, f.end);
  }

  lemma ByteAtGrows(s: string, i: nat, j: nat)
    requires i < j <= |s|
    ensures ByteAt(s, i) < ByteAt(s, j)
  {
    hide Bytes, ByteAt, CharBytes;
    CharShape(s[i]);
    ByteAtNext(s, i);
    ByteAtSplit(s, i + 1, j);
  }

  lemma {:induction false} LocatedAt(body: string, first: nat, fs: seq<Fragment>)
    ensures |AllLocated(body, first, fs)| == |fs|
    ensures forall i :: 0 <= i < |fs| ==> AllLocated(body, first, fs)[i] == Located(body, first, fs[i])
  {
    hide Located;
    if fs != [] {
      LocatedAt(body, first, fs[1..]);
    }
  }

  /** The fragments lie inside the body. */
  lemma FragmentsInBody(text: string)
    requires InterpolationFragments(text).Ok?
    ensures Body(text).Some?
    ensures var fs := InterpolationFragments(text).value;
      var (body, first) := Body(text).value;
      && InOrder(text, 0, fs)
      && forall i :: 0 <= i < |fs| ==> first <= fs[i].offset && fs[i].end <= first + |body|
  {
    hide Fragments, Bytes;
    FragmentsAreSlices(text);
    BodyOffset(text);
    var (body, first) := Body(text).value;
    var inner := text[..first + |body|];
    assert body == inner[first..first + |body|];
    FragmentsInOrder(inner, first, body);
  }

  /** What the scanner returns is made of the text's own byte slices, in order and
      disjoint. */
  lemma FragmentsAreByteSlices(text: string)
    requires InterpolationFragments(text).Ok?
    ensures var (body, first) := Body(text).value;
      var fs := AllLocated(body, first, InterpolationFragments(text).value);
      && (forall i :: 0 <= i < |fs| ==> IsByteSlice(text, fs[i]))
      && (forall i, j :: 0 <= i < j < |fs| ==> fs[i].end < fs[j].offset)
  {
    hide InterpolationFragments, Body, Bytes, IsByteSlice, Located, ByteAt, AllLocated, IsSlice;
    FragmentsInBody(text);
    var (body, first) := Body(text).value;
    var found := InterpolationFragments(text).value;
    LocatedAt(body, first, found);
    forall i | 0 <= i < |found|
      ensures var g := Located(body, first, found[i]);
        IsByteSlice(text, g) && g.offset == ByteAt(text, found[i].offset) && g.end == ByteAt(text, found[i].end)
    {
      LocatedSlice(text, found[i]);
    }
    forall i, j | 0 <= i < j < |found|
      ensures ByteAt(text, found[i].end) < ByteAt(text, found[j].offset)
    {
      SliceInside(text, found[j]);
      ByteAtGrows(text, found[i].end, found[j].offset);
    }
  }

  lemma SliceInside(text: string, f: Fragment)
    requires IsSlice(text, f)
    ensures f.offset <= f.end <= |text|
  {
  }

  /** What should be found in a text built from literals and expressions, with every
      position in bytes. */
  function ExpectedInBytes(ps: seq<Part>, base: nat): Found {
    if ps == [] then Ok([]) else
    var rest := ExpectedInBytes(ps[1..], base + |Bytes(PartText(ps[0]))|);
    if ps[0].Literal? then rest else
    var raw := LexemesText(ps[0].lexemes);
    if Trim(raw) == [] then Err(Empty) else Prefixed([ByteFragmentOf(raw, base + 1)], rest)
  }

  lemma {:induction false} ExpectedLocated(body: string, i: nat, ps: seq<Part>, first: nat)
    requires i <= |body| && body[i..] == PartsText(ps)
    ensures FoundInBytes(body, first, Expected(ps, first + i)) == ExpectedInBytes(ps, first + ByteAt(body, i))
    decreases ps
  {
    hide Bytes, ByteAt, Trim, ByteFragmentOf, FragmentOf, LexemesText, OuterText, Located;
    if ps != [] {
      var part := PartText(ps[0]);
      var next := i + |part|;
      PartSlices(body, i, part, PartsText(ps[1..]));
      ByteAtSplit(body, i, next);
      ExpectedLocated(body, next, ps[1..], first);
      if ps[0].Expression? {
        LocatedExpression(body, i, LexemesText(ps[0].lexemes), part, first, Expected(ps[1..], first + next));
      }
      hide FoundInBytes, Prefixed;
    }
  }

  lemma LocatedExpression(body: string, i: nat, raw: string, part: string, first: nat, found: Found)
    requires part == ['{'] + raw + ['}'] && i + |part| <= |body| && body[i..i + |part|] == part
    ensures FoundInBytes(body, first, if Trim(raw) == [] then Err(Empty)
      else Prefixed([FragmentOf(raw, first + i + 1)], found)) ==
      if Trim(raw) == [] then Err(Empty)
      else Prefixed([ByteFragmentOf(raw, first + ByteAt(body, i) + 1)], FoundInBytes(body, first, found))
  {
    hide Bytes, ByteAt, Trim, ByteFragmentOf, FragmentOf, Located, Prefixed;
    BracedPart(body, i, raw, part);
    LocatedFragment(body, first, i + 1, i + 1 + |raw|);
    LocatedPrefix(body, first, FragmentOf(raw, first + i + 1), found);
  }

  lemma PartSlices(body: string, i: nat, part: string, rest: string)
    requires i <= |body| && body[i..] == part + rest
    ensures i + |part| <= |body| && body[i + |part|..] == rest && body[i..i + |part|] == part
  {
    assert body[i..][|part|..] == body[i + |part|..] && body[i..][..|part|] == body[i..i + |part|];
  }

  lemma BracedPart(body: string, i: nat, raw: string, part: string)
    requires part == ['{'] + raw + ['}'] && i + |part| <= |body| && body[i..i + |part|] == part
    ensures body[i + 1..i + 1 + |raw|] == raw && ByteAt(body, i + 1) == ByteAt(body, i) + 1
  {
    hide Bytes, ByteAt;
    SliceOfSlice(body, i, i + |part|, 1, |raw|);
    assert part[1..1 + |raw|] == raw;
    assert body[i] == body[i..i + |part|][0];
    AsciiAt(body, i);
    ByteAtNext(body, i);
  }

  /** Scanning `s"..."` built from escaped literals and lexically closed expressions, of
      whatever characters, returns exactly the trimmed expressions at their byte
      positions, and refuses it only for a blank one. */
  lemma {:induction false} BytesRoundTrip(ps: seq<Part>, prefix: char)
    requires (forall p :: p in ps ==> IsPart(p)) && (prefix == 's' || prefix == 'S')
    ensures var text := [prefix, '"'] + PartsText(ps) + ['"'];
      && Body(text) == Some((PartsText(ps), 2))
      && FoundInBytes(PartsText(ps), 2, InterpolationFragments(text)) == ExpectedInBytes(ps, 2)
  {
    hide Fragments, PartsText, Expected, ExpectedInBytes, Bytes;
    var text := [prefix, '"'] + PartsText(ps) + ['"'];
    assert text[1..] == ['"'] + PartsText(ps) + ['"'];
    InterpolationRoundTrip(ps, prefix);
    assert PartsText(ps)[0..] == PartsText(ps);
    ExpectedLocated(PartsText(ps), 0, ps, 2);
    assert ByteAt(PartsText(ps), 0) == 0 by { NoBytes(); assert PartsText(ps)[..0] == []; }
  }
}
