/** The embedded expressions of an interpolated string, by its characters. */
module Interpolation {
  import opened Wrappers

  datatype Fragment = Fragment(text: string, offset: nat, end: nat)

  datatype State = Normal | SingleQuoted | Backtick | LineComment | BlockComment

  datatype Error = NotInterpolated | Unclosed | Unmatched | Empty | OffBoundary

  type Found = Result<seq<Fragment>, Error>

  // ---- white space ----------------------------------------------------------------------

  /** The Unicode property White_Space. */
  predicate IsWhite(c: char) {
    var n := c as int;
    || 0x09 <= n <= 0x0D || n == 0x20 || n == 0x85 || n == 0xA0 || n == 0x1680 || 0x2000 <= n <= 0x200A
    || n == 0x2028 || n == 0x2029 || n == 0x202F || n == 0x205F || n == 0x3000
  }

  /** Blank are the ASCII controls from tab to return and the spaces of Unicode. */
  lemma WhiteCharacters(c: char)
    ensures IsWhite(c) <==>
      || c in {'\t', '\n', '\r', ' '} || (c as int) in {0x0B, 0x0C, 0x85, 0xA0, 0x1680, 0x202F, 0x205F, 0x3000}
      || (c as int) in {0x2028, 0x2029}
      || (c as int) in {0x2000, 0x2001, 0x2002, 0x2003, 0x2004, 0x2005, 0x2006, 0x2007, 0x2008, 0x2009, 0x200A}
  {
  }

  function TrimStart(s: string): (t: string)
    ensures |t| <= |s|
  {
    if s != [] && IsWhite(s[0]) then TrimStart(s[1..]) else s
  }

  function TrimEnd(s: string): (t: string)
    ensures |t| <= |s|
  {
    if s != [] && IsWhite(s[|s| - 1]) then TrimEnd(s[..|s| - 1]) else s
  }

  function Trim(s: string): string {
    TrimEnd(TrimStart(s))
  }

  predicate AllWhite(s: string) {
    forall i :: 0 <= i < |s| ==> IsWhite(s[i])
  }

  /** Trimming removes white space at both ends, all of it and nothing else. */
  lemma {:induction false} TrimRemovesWhite(s: string) returns (before: string, after: string)
    ensures s == before + Trim(s) + after && AllWhite(before) && AllWhite(after)
    ensures Trim(s) != [] ==> !IsWhite(Trim(s)[0]) && !IsWhite(Trim(s)[|Trim(s)| - 1])
  {
    hide IsWhite;
    before := StartRemoved(s);
    after := EndRemoved(TrimStart(s));
  }

  lemma {:induction false} StartRemoved(s: string) returns (before: string)
    ensures s == before + TrimStart(s) && AllWhite(before)
    ensures TrimStart(s) != [] ==> !IsWhite(TrimStart(s)[0])
  {
    hide IsWhite;
    if s == [] || !IsWhite(s[0]) { return []; }
    var rest := StartRemoved(s[1..]);
    before := [s[0]] + rest;
  }

  lemma {:induction false} EndRemoved(s: string) returns (after: string)
    ensures s == TrimEnd(s) + after && AllWhite(after)
    ensures TrimEnd(s) != [] ==> !IsWhite(TrimEnd(s)[|TrimEnd(s)| - 1]) && TrimEnd(s)[0] == s[0]
  {
    hide IsWhite;
    if s == [] || !IsWhite(s[|s| - 1]) { return []; }
    var rest := EndRemoved(s[..|s| - 1]);
    after := rest + [s[|s| - 1]];
  }

  // ---- the scan as a function --------------------------------------------------------------

  predicate Starts(s: string, c: char, d: char) {
    |s| > 1 && s[0] == c && s[1] == d
  }

  /** One step inside a quotation or comment: characters passed, and the new state. */
  function QuotedStep(s: string, state: State): (r: (nat, State))
    requires s != []
    ensures r.0 > 0
  {
    match state
    case SingleQuoted =>
      if s[0] == '\\' then (2, state)
      else if Starts(s, '\'', '\'') then (2, state)
      else (1, if s[0] == '\'' then Normal else state)
    case Backtick => if Starts(s, '`', '`') then (2, state) else (1, if s[0] == '`' then Normal else state)
    case LineComment => (1, if s[0] == '\n' then Normal else state)
    case BlockComment => if Starts(s, '*', '/') then (2, Normal) else (1, state)
    case Normal => (1, state)
  }

  /** One step of an expression outside quotations and comments. */
  function NormalStep(s: string, depth: nat): (r: (nat, nat, State))
    requires s != [] && depth > 0 && !(s[0] == '}' && depth == 1)
    ensures r.0 > 0 && r.1 > 0
  {
    if s[0] == '\'' then (1, depth, SingleQuoted)
    else if s[0] == '`' then (1, depth, Backtick)
    else if Starts(s, '/', '/') then (2, depth, LineComment)
    else if Starts(s, '/', '*') then (2, depth, BlockComment)
    else if s[0] == '{' then (1, depth + 1, Normal)
    else if s[0] == '}' then (1, depth - 1, Normal)
    else (1, depth, Normal)
  }

  function Shift(n: nat, close: Option<nat>): Option<nat> {
    if close == None then None else Some(n + close.value)
  }

  /** Where the brace that ends an expression stands, counted from here. */
  function Close(s: string, depth: nat, state: State): (r: Option<nat>)
    requires depth > 0
    ensures r.Some? ==> r.value < |s|
    decreases |s|
  {
    if s == [] then None
    else if state != Normal then
      var (n, next) := QuotedStep(s, state);
      Shift(n, Close(Drop(s, n), depth, next))
    else if s[0] == '}' && depth == 1 then Some(0)
    else
      var (n, deeper, next) := NormalStep(s, depth);
      Shift(n, Close(Drop(s, n), deeper, next))
  }

  function Prefixed(first: seq<Fragment>, found: Found): Found {
    if found.Err? then found else Ok(first + found.value)
  }

  function FragmentOf(raw: string, base: nat): Fragment {
    Fragment(Trim(raw), base + (|raw| - |TrimStart(raw)|), base + |raw|)
  }

  /** The fragments of the text from `base` on, outside any expression. */
  function Fragments(s: string, base: nat): Found
    decreases |s|
  {
    if s == [] then Ok([])
    else if s[0] == '\\' then Fragments(Drop(s, 2), base + 2)
    else if s[0] == '{' then
      var close := Close(s[1..], 1, Normal);
      if close == None then Err(Unclosed) else
      var raw := s[1..1 + close.value];
      if Trim(raw) == [] then Err(Empty)
      else Prefixed([FragmentOf(raw, base + 1)], Fragments(s[close.value + 2..], base + close.value + 2))
    else if s[0] == '}' then Err(Unmatched)
    else Fragments(s[1..], base + 1)
  }

  /** `interpolation_body`: what stands between the quotes, and where. */
  function Body(text: string): Option<(string, nat)> {
    var body := if text != [] && (text[0] == 's' || text[0] == 'S') then text[1..] else text;
    if |body| < 2 || body[0] != '"' || body[|body| - 1] != '"' then None
    else Some((body[1..|body| - 1], |text| - |body| + 1))
  }

  function InterpolationFragments(text: string): Found {
    match Body(text)
    case None => Err(NotInterpolated)
    case Some((body, offset)) => Fragments(body, offset)
  }

  // ---- single steps ------------------------------------------------------------------------------

  lemma {:induction false} CloseStep(s: string, depth: nat, state: State)
    requires depth > 0 && s != []
    ensures state != Normal ==>
      Close(s, depth, state) ==
        Shift(QuotedStep(s, state).0, Close(Drop(s, QuotedStep(s, state).0), depth, QuotedStep(s, state).1))
    ensures state == Normal && s[0] == '}' && depth == 1 ==> Close(s, depth, state) == Some(0)
    ensures state == Normal && !(s[0] == '}' && depth == 1) ==>
      Close(s, depth, state) == var step := NormalStep(s, depth); Shift(step.0, Close(Drop(s, step.0), step.1, step.2))
  {
  }

  lemma {:induction false} FragmentsStep(s: string, base: nat)
    requires s != []
    ensures s[0] == '\\' ==> Fragments(s, base) == Fragments(Drop(s, 2), base + 2)
    ensures s[0] == '}' ==> Fragments(s, base) == Err(Unmatched)
    ensures s[0] != '\\' && s[0] != '{' && s[0] != '}' ==> Fragments(s, base) == Fragments(s[1..], base + 1)
  {
  }

  lemma {:induction false} FragmentsOpen(s: string, base: nat)
    requires s != [] && s[0] == '{'
    ensures var close := Close(s[1..], 1, Normal);
      Fragments(s, base) == if close == None then Err(Unclosed) else
        var raw := s[1..1 + close.value];
        if Trim(raw) == [] then Err(Empty)
        else Prefixed([FragmentOf(raw, base + 1)], Fragments(s[close.value + 2..], base + close.value + 2))
  {
    hide Close, FragmentOf, Trim;
  }

  lemma ShiftShift(m: nat, n: nat, close: Option<nat>)
    ensures Shift(m, Shift(n, close)) == Shift(m + n, close)
  {
  }

  lemma DropInside(s: string, n: nat)
    requires n <= |s|
    ensures Drop(s, n) == s[n..]
  {
  }

  lemma PrefixedMore(output: seq<Fragment>, f: Fragment, found: Found)
    ensures Prefixed(output, Prefixed([f], found)) == Prefixed(output + [f], found)
  {
    if found.Ok? { assert output + ([f] + found.value) == (output + [f]) + found.value; }
  }

  // ---- what every result satisfies ----------------------------------------------------------------

  /** A fragment is the text at its reported offset, trimmed and not blank. */
  predicate IsSlice(text: string, f: Fragment) {
    && f.offset + |f.text| <= f.end <= |text| && text[f.offset..f.offset + |f.text|] == f.text
    && f.text != [] && !IsWhite(f.text[0]) && !IsWhite(f.text[|f.text| - 1])
  }

  predicate InOrder(text: string, base: nat, fs: seq<Fragment>) {
    && (forall i :: 0 <= i < |fs| ==> IsSlice(text, fs[i]) && base < fs[i].offset)
    && (forall i, j :: 0 <= i < j < |fs| ==> fs[i].end < fs[j].offset)
  }

  lemma TrimmedSlice(text: string, begin: nat, end: nat)
    requires begin <= end <= |text| && Trim(text[begin..end]) != []
    ensures var f := FragmentOf(text[begin..end], begin); IsSlice(text, f) && begin <= f.offset && f.end == end
  {
    var raw := text[begin..end];
    TrimFacts(raw);
    hide Trim, TrimStart, IsWhite, IsSlice;
    var lead, t := |raw| - |TrimStart(raw)|, Trim(raw);
    SliceOfSlice(text, begin, end, lead, |t|);
    SliceFound(text, begin + lead, t, end);
  }

  lemma SliceOfSlice(text: string, begin: nat, end: nat, lead: nat, n: nat)
    requires begin <= end <= |text| && begin + lead + n <= end
    ensures text[begin..end][lead..lead + n] == text[begin + lead..begin + lead + n]
  {
    var a, b := text[begin..end][lead..lead + n], text[begin + lead..begin + lead + n];
    assert |a| == |b| == n;
    forall i | 0 <= i < n ensures a[i] == b[i] {
    }
  }

  lemma SliceFound(text: string, offset: nat, t: string, end: nat)
    requires offset + |t| <= end <= |text| && t == text[offset..offset + |t|]
    requires t != [] && !IsWhite(t[0]) && !IsWhite(t[|t| - 1])
    ensures IsSlice(text, Fragment(t, offset, end))
  {
  }

  lemma {:induction false} TrimFacts(raw: string)
    requires Trim(raw) != []
    ensures var lead, t := |raw| - |TrimStart(raw)|, Trim(raw);
      && 0 <= lead && lead + |t| <= |raw| && t == raw[lead..lead + |t|]
      && !IsWhite(t[0]) && !IsWhite(t[|t| - 1])
  {
    hide TrimEnd, TrimStart, IsWhite;
    TrimStartIs(raw);
    TrimEndIs(TrimStart(raw));
  }

  lemma {:induction false} TrimStartIs(s: string)
    ensures var t := TrimStart(s); t == s[|s| - |t|..] && (t != [] ==> !IsWhite(t[0]))
  {
    hide IsWhite;
    if s != [] && IsWhite(s[0]) {
      TrimStartIs(s[1..]);
    }
  }

  lemma {:induction false} TrimEndIs(s: string)
    ensures var t := TrimEnd(s); t == s[..|t|] && (t != [] ==> !IsWhite(t[|t| - 1]))
  {
    hide IsWhite;
    if s != [] && IsWhite(s[|s| - 1]) {
      TrimEndIs(s[..|s| - 1]);
    }
  }

  lemma {:induction false} FragmentsInOrder(text: string, base: nat, s: string)
    requires base + |s| <= |text| && s == text[base..base + |s|] && Fragments(s, base).Ok?
    ensures InOrder(text, base, Fragments(s, base).value)
    decreases |s|, 1
  {
    if s == [] {
    } else if s[0] == '{' {
      ExpressionInOrder(text, base, s);
    } else {
      hide Close, Fragments, InOrder;
      FragmentsStep(s, base);
      var m := if s[0] == '\\' then 2 else 1;
      if m <= |s| {
        DropInside(s, m);
        SuffixSlice(text, base, s, m);
        FragmentsInOrder(text, base + m, s[m..]);
        InOrderFrom(text, base, base + m, Fragments(s[m..], base + m).value);
      } else {
        assert Drop(s, m) == [];
        NoText(base + m);
        NoneInOrder(text, base);
      }
    }
  }

  lemma SuffixSlice(text: string, base: nat, s: string, m: nat)
    requires base + |s| <= |text| && s == text[base..base + |s|] && m <= |s|
    ensures s[m..] == text[base + m..base + m + |s[m..]|]
  {
  }

  lemma InOrderFrom(text: string, base: nat, after: nat, fs: seq<Fragment>)
    requires base <= after && InOrder(text, after, fs)
    ensures InOrder(text, base, fs)
  {
  }

  lemma NoneInOrder(text: string, base: nat)
    ensures InOrder(text, base, [])
  {
  }

  lemma {:induction false} ExpressionInOrder(text: string, base: nat, s: string)
    requires base + |s| <= |text| && s == text[base..base + |s|] && Fragments(s, base).Ok? && s != [] && s[0] == '{'
    ensures InOrder(text, base, Fragments(s, base).value)
    decreases |s|, 0
  {
    hide Close, Trim, FragmentOf, IsSlice, Fragments, InOrder;
    FragmentsOpen(s, base);
    var n := Close(s[1..], 1, Normal).value;
    SliceOfSlice(text, base, base + |s|, 1, n);
    TrimmedSlice(text, base + 1, base + 1 + n);
    SuffixSlice(text, base, s, n + 2);
    FragmentsInOrder(text, base + n + 2, s[n + 2..]);
    OneMore(text, base, FragmentOf(s[1..1 + n], base + 1), Fragments(s[n + 2..], base + n + 2).value, base + n + 2);
  }

  lemma OneMore(text: string, base: nat, f: Fragment, rest: seq<Fragment>, after: nat)
    requires IsSlice(text, f) && base < f.offset && f.end < after && InOrder(text, after, rest) && base <= after
    ensures InOrder(text, base, [f] + rest)
  {
  }

  lemma {:induction false} NoText(base: nat)
    ensures Fragments([], base) == Ok([])
  {
  }

  /** Fragments are the source's own slices, in order, disjoint and not blank. */
  lemma FragmentsAreSlices(text: string)
    requires InterpolationFragments(text).Ok?
    ensures InOrder(text, 0, InterpolationFragments(text).value)
  {
    hide Fragments;
    var (body, offset) := Body(text).value;
    assert body == text[offset..offset + |body|];
    FragmentsInOrder(text, offset, body);
  }

  // ---- texts built from literals and expressions -----------------------------------------------------

  /** One character of outer text, or an escaped one. */
  datatype Outer = Plain(c: char) | Escaped(c: char)

  /** Inside single quotes: a character, an escape, or a doubled quote. */
  datatype Inner = Char(c: char) | Escape(c: char) | Doubled

  /** An expression, as far as braces, quotations and comments go. */
  datatype Lexeme =
    | Other(c: char)
    | Quotation(inner: seq<Inner>)
    | Name(name: string)
    | Line(comment: string)
    | Block(comment: string)
    | Braced(lexemes: seq<Lexeme>)

  datatype Part = Literal(outer: seq<Outer>) | Expression(lexemes: seq<Lexeme>)

  function InnerText(inner: seq<Inner>): string {
    if inner == [] then []
    else
      var first := match inner[0] case Char(c) => [c] case Escape(c) => ['\\', c] case Doubled => ['\'', '\''];
      first + InnerText(inner[1..])
  }

  function NameText(name: string): string {
    if name == [] then [] else (if name[0] == '`' then ['`', '`'] else [name[0]]) + NameText(name[1..])
  }

  function LexemeText(l: Lexeme): (s: string)
    ensures s != [] && s[0] == FirstChar(l)
    decreases l, 1
  {
    match l
    case Other(c) => [c]
    case Quotation(inner) => ['\''] + InnerText(inner) + ['\'']
    case Name(name) => ['`'] + NameText(name) + ['`']
    case Line(comment) => ['/', '/'] + comment + ['\n']
    case Block(comment) => ['/', '*'] + comment + ['*', '/']
    case Braced(lexemes) => ['{'] + LexemesText(lexemes) + ['}']
  }

  function FirstChar(l: Lexeme): char {
    match l
    case Other(c) => c
    case Quotation(_) => '\''
    case Name(_) => '`'
    case Line(_) => '/'
    case Block(_) => '/'
    case Braced(_) => '{'
  }

  function LexemesText(ls: seq<Lexeme>): string
    decreases ls, 0
  {
    if ls == [] then [] else LexemeText(ls[0]) + LexemesText(ls[1..])
  }

  /** A lexeme that the next character does not extend. */
  predicate Before(l: Lexeme, next: char) {
    match l
    case Other(c) => c == '/' ==> next != '/' && next != '*'
    case Quotation(_) => next != '\''
    case Name(_) => next != '`'
    case _ => true
  }

  predicate IsLexeme(l: Lexeme)
    decreases l, 1
  {
    match l
    case Other(c) => c != '\'' && c != '`' && c != '{' && c != '}'
    case Quotation(inner) => forall x :: x in inner && x.Char? ==> x.c != '\'' && x.c != '\\'
    case Name(_) => true
    case Line(comment) => '\n' !in comment
    case Block(comment) => forall i :: 0 <= i < |comment| - 1 ==> !(comment[i] == '*' && comment[i + 1] == '/')
    case Braced(lexemes) => AreLexemes(lexemes)
  }

  predicate AreLexemes(ls: seq<Lexeme>)
    decreases ls, 0
  {
    ls == [] || (IsLexeme(ls[0]) && (|ls| > 1 ==> Before(ls[0], FirstChar(ls[1]))) && AreLexemes(ls[1..]))
  }

  function OuterText(outer: seq<Outer>): string {
    if outer == [] then []
    else (if outer[0].Plain? then [outer[0].c] else ['\\', outer[0].c]) + OuterText(outer[1..])
  }

  function PartText(p: Part): string {
    match p
    case Literal(outer) => OuterText(outer)
    case Expression(lexemes) => ['{'] + LexemesText(lexemes) + ['}']
  }

  function PartsText(ps: seq<Part>): string {
    if ps == [] then [] else PartText(ps[0]) + PartsText(ps[1..])
  }

  predicate IsPart(p: Part) {
    match p
    case Literal(outer) => forall x :: x in outer && x.Plain? ==> x.c != '\\' && x.c != '{' && x.c != '}'
    case Expression(lexemes) => AreLexemes(lexemes)
  }

  /** What should be found: every expression trimmed, none of them blank. */
  function Expected(ps: seq<Part>, base: nat): Found {
    if ps == [] then Ok([]) else
    var rest := Expected(ps[1..], base + |PartText(ps[0])|);
    if ps[0].Literal? then rest else
    var raw := LexemesText(ps[0].lexemes);
    if Trim(raw) == [] then Err(Empty) else Prefixed([FragmentOf(raw, base + 1)], rest)
  }

  /** Scanning a text in front of another passes over it. */
  ghost predicate Passes(text: string, depth: nat, state: State, rest: string, next: State)
    requires depth > 0
  {
    Close(text + rest, depth, state) == Shift(|text|, Close(rest, depth, next))
  }

  lemma PassesThen(a: string, b: string, depth: nat, rest: string, s0: State, s1: State, s2: State)
    requires depth > 0 && Passes(a, depth, s0, b + rest, s1) && Passes(b, depth, s1, rest, s2)
    ensures Passes(a + b, depth, s0, rest, s2)
  {
    hide Close;
    assert (a + b) + rest == a + (b + rest);
  }

  lemma PassesStep(text: string, depth: nat, state: State, rest: string, next: State)
    requires depth > 0 && text != [] && state != Normal && QuotedStep(text + rest, state) == (|text|, next)
    ensures Passes(text, depth, state, rest, next)
  {
  }

  lemma PassesNormal(text: string, depth: nat, rest: string, next: State)
    requires depth > 0 && text != [] && text[0] != '}' && NormalStep(text + rest, depth) == (|text|, depth, next)
    ensures Passes(text, depth, Normal, rest, next)
  {
  }

  lemma PassesNothing(depth: nat, rest: string, state: State)
    requires depth > 0
    ensures Passes([], depth, state, rest, state)
  {
    hide Close;
    assert [] + rest == rest;
  }

  lemma {:induction false} PassesInner(inner: seq<Inner>, depth: nat, rest: string)
    requires depth > 0 && forall x :: x in inner && x.Char? ==> x.c != '\'' && x.c != '\\'
    ensures Passes(InnerText(inner), depth, SingleQuoted, rest, SingleQuoted)
    decreases inner
  {
    hide Passes;
    if inner == [] {
      PassesNothing(depth, rest, SingleQuoted);
    } else {
      var first := match inner[0] case Char(c) => [c] case Escape(c) => ['\\', c] case Doubled => ['\'', '\''];
      PassesInner(inner[1..], depth, rest);
      PassesStep(first, depth, SingleQuoted, InnerText(inner[1..]) + rest, SingleQuoted);
      PassesThen(first, InnerText(inner[1..]), depth, rest, SingleQuoted, SingleQuoted, SingleQuoted);
    }
  }

  lemma {:induction false} PassesName(name: string, depth: nat, rest: string)
    requires depth > 0
    ensures Passes(NameText(name), depth, Backtick, rest, Backtick)
    decreases name
  {
    hide Passes;
    if name == [] {
      PassesNothing(depth, rest, Backtick);
    } else {
      var first := if name[0] == '`' then ['`', '`'] else [name[0]];
      PassesName(name[1..], depth, rest);
      PassesStep(first, depth, Backtick, NameText(name[1..]) + rest, Backtick);
      PassesThen(first, NameText(name[1..]), depth, rest, Backtick, Backtick, Backtick);
    }
  }

  lemma {:induction false} PassesLine(comment: string, depth: nat, rest: string)
    requires depth > 0 && '\n' !in comment
    ensures Passes(comment, depth, LineComment, rest, LineComment)
  {
    hide Passes;
    if comment == [] {
      PassesNothing(depth, rest, LineComment);
    } else {
      PassesLine(comment[1..], depth, rest);
      PassesStep(comment[..1], depth, LineComment, comment[1..] + rest, LineComment);
      PassesThen(comment[..1], comment[1..], depth, rest, LineComment, LineComment, LineComment);
      assert comment == comment[..1] + comment[1..];
    }
  }

  lemma {:induction false} PassesBlock(comment: string, depth: nat, rest: string)
    requires depth > 0 && rest != [] && rest[0] == '*'
    requires forall i :: 0 <= i < |comment| - 1 ==> !(comment[i] == '*' && comment[i + 1] == '/')
    ensures Passes(comment, depth, BlockComment, rest, BlockComment)
  {
    hide Passes;
    if comment == [] {
      PassesNothing(depth, rest, BlockComment);
    } else {
      PassesBlock(comment[1..], depth, rest);
      var tail := comment[1..] + rest;
      assert (comment[..1] + tail)[1] == if |comment| > 1 then comment[1] else '*';
      PassesStep(comment[..1], depth, BlockComment, tail, BlockComment);
      PassesThen(comment[..1], comment[1..], depth, rest, BlockComment, BlockComment, BlockComment);
      assert comment == comment[..1] + comment[1..];
    }
  }

  /** Opening, contents, closing. */
  lemma PassesQuotation(open: string, contents: string, close: string, depth: nat, rest: string, inside: State)
    requires depth > 0 && Passes(open, depth, Normal, contents + close + rest, inside)
    requires Passes(contents, depth, inside, close + rest, inside) && Passes(close, depth, inside, rest, Normal)
    ensures Passes(open + contents + close, depth, Normal, rest, Normal)
  {
    hide Passes;
    PassesThen(contents, close, depth, rest, inside, inside, Normal);
    assert contents + close + rest == (contents + close) + rest;
    PassesThen(open, contents + close, depth, rest, Normal, inside, Normal);
    assert open + (contents + close) == open + contents + close;
  }

  /** Every lexeme that the next character does not extend is passed over whole. */
  lemma {:induction false} PassesLexeme(l: Lexeme, depth: nat, rest: string)
    requires depth > 0 && IsLexeme(l) && rest != [] && Before(l, rest[0])
    ensures Passes(LexemeText(l), depth, Normal, rest, Normal)
    decreases l, 1
  {
    hide Passes, InnerText, NameText, LexemesText;
    match l
    case Other(c) => PassesNormal([c], depth, rest, Normal);
    case Quotation(inner) =>
      PassesInner(inner, depth, ['\''] + rest);
      PassesStep(['\''], depth, SingleQuoted, rest, Normal);
      PassesNormal(['\''], depth, InnerText(inner) + ['\''] + rest, SingleQuoted);
      PassesQuotation(['\''], InnerText(inner), ['\''], depth, rest, SingleQuoted);
    case Name(name) =>
      PassesName(name, depth, ['`'] + rest);
      PassesStep(['`'], depth, Backtick, rest, Normal);
      PassesNormal(['`'], depth, NameText(name) + ['`'] + rest, Backtick);
      PassesQuotation(['`'], NameText(name), ['`'], depth, rest, Backtick);
    case Line(comment) =>
      PassesLine(comment, depth, ['\n'] + rest);
      PassesStep(['\n'], depth, LineComment, rest, Normal);
      PassesNormal(['/', '/'], depth, comment + ['\n'] + rest, LineComment);
      PassesQuotation(['/', '/'], comment, ['\n'], depth, rest, LineComment);
    case Block(comment) =>
      PassesBlock(comment, depth, ['*', '/'] + rest);
      PassesStep(['*', '/'], depth, BlockComment, rest, Normal);
      PassesNormal(['/', '*'], depth, comment + ['*', '/'] + rest, BlockComment);
      PassesQuotation(['/', '*'], comment, ['*', '/'], depth, rest, BlockComment);
    case Braced(lexemes) =>
      PassesLexemes(lexemes, depth + 1, ['}'] + rest);
      PassesBraces(LexemesText(lexemes), depth, rest);
  }

  lemma PassesBraces(inside: string, depth: nat, rest: string)
    requires depth > 0 && Passes(inside, depth + 1, Normal, ['}'] + rest, Normal)
    ensures Passes(['{'] + inside + ['}'], depth, Normal, rest, Normal)
  {
    hide Close;
    var text := ['{'] + inside + ['}'];
    CloseStep(text + rest, depth, Normal);
    assert Drop(text + rest, 1) == inside + (['}'] + rest);
    CloseStep(['}'] + rest, depth + 1, Normal);
    assert Drop(['}'] + rest, 1) == rest;
    ShiftShift(|inside|, 1, Close(rest, depth, Normal));
    ShiftShift(1, |inside| + 1, Close(rest, depth, Normal));
  }

  lemma {:induction false} PassesLexemes(ls: seq<Lexeme>, depth: nat, rest: string)
    requires depth > 0 && AreLexemes(ls) && rest != [] && rest[0] == '}'
    ensures Passes(LexemesText(ls), depth, Normal, rest, Normal)
    decreases ls, 0
  {
    hide Passes, LexemeText, IsLexeme;
    if ls == [] {
      PassesNothing(depth, rest, Normal);
    } else {
      PassesLexemes(ls[1..], depth, rest);
      var tail := LexemesText(ls[1..]) + rest;
      assert tail[0] == if |ls| > 1 then FirstChar(ls[1]) else '}';
      PassesLexeme(ls[0], depth, tail);
      PassesThen(LexemeText(ls[0]), LexemesText(ls[1..]), depth, rest, Normal, Normal, Normal);
    }
  }

  lemma {:induction false} SkipsLiteral(outer: seq<Outer>, rest: string, base: nat)
    requires forall x :: x in outer && x.Plain? ==> x.c != '\\' && x.c != '{' && x.c != '}'
    ensures Fragments(OuterText(outer) + rest, base) == Fragments(rest, base + |OuterText(outer)|)
    decreases outer
  {
    hide Fragments;
    if outer == [] {
      assert OuterText(outer) + rest == rest;
    } else {
      var first := if outer[0].Plain? then [outer[0].c] else ['\\', outer[0].c];
      var tail := OuterText(outer[1..]) + rest;
      assert OuterText(outer) + rest == first + tail;
      FragmentsStep(first + tail, base);
      assert (first + tail)[|first|..] == tail;
      SkipsLiteral(outer[1..], rest, base + |first|);
    }
  }

  lemma {:induction false} FindsExpression(ls: seq<Lexeme>, rest: string, base: nat)
    requires AreLexemes(ls)
    ensures var raw := LexemesText(ls);
      Fragments(['{'] + raw + ['}'] + rest, base) ==
      if Trim(raw) == [] then Err(Empty) else Prefixed([FragmentOf(raw, base + 1)], Fragments(rest, base + |raw| + 2))
  {
    hide Fragments, LexemesText, AreLexemes, Close, Trim, FragmentOf;
    var raw := LexemesText(ls);
    var s := ['{'] + raw + ['}'] + rest;
    PassesLexemes(ls, 1, ['}'] + rest);
    CloseStep(['}'] + rest, 1, Normal);
    FragmentsOpen(s, base);
    assert s[1..] == raw + (['}'] + rest);
    assert s[1..1 + |raw|] == raw && s[|raw| + 2..] == rest;
  }

  /** Scanning a text built from literals and expressions finds exactly its trimmed
      expressions, and refuses it only for a blank one. */
  lemma {:induction false} PartsRoundTrip(ps: seq<Part>, base: nat)
    requires forall p :: p in ps ==> IsPart(p)
    ensures Fragments(PartsText(ps), base) == Expected(ps, base)
    decreases ps
  {
    hide Fragments, Trim, FragmentOf, AreLexemes, OuterText, LexemesText;
    if ps == [] {
      NoText(base);
    } else {
      assert ps[0] in ps && IsPart(ps[0]);
      var rest := PartsText(ps[1..]);
      PartsRoundTrip(ps[1..], base + |PartText(ps[0])|);
      match ps[0]
      case Literal(outer) => SkipsLiteral(outer, rest, base);
      case Expression(lexemes) => FindsExpression(lexemes, rest, base);
    }
  }

  /** The whole literal, with either prefix letter. */
  lemma {:induction false} InterpolationRoundTrip(ps: seq<Part>, prefix: char)
    requires (forall p :: p in ps ==> IsPart(p)) && (prefix == 's' || prefix == 'S')
    ensures InterpolationFragments([prefix, '"'] + PartsText(ps) + ['"']) == Expected(ps, 2)
  {
    hide Fragments, PartsText, Expected;
    var text := [prefix, '"'] + PartsText(ps) + ['"'];
    var body := text[1..];
    assert body == ['"'] + PartsText(ps) + ['"'];
    assert body[1..|body| - 1] == PartsText(ps);
    PartsRoundTrip(ps, 2);
  }
}
