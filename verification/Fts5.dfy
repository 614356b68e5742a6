/** Tokenizer specifications: the quoting printer and the argument parser, over the
    UTF-8 bytes of the text. */
module Fts5 {
  import opened Wrappers
  import Utf8

  const QUOTE: Byte := 0x27
  const SPACE: Byte := 0x20

  const INTERNAL_TOKENIZER := "lithograph_dual_v1"

  // ---- printing -----------------------------------------------------------------------

  function Doubled(s: string): string {
    if s == [] then [] else (if s[0] == '\'' then ['\'', '\''] else [s[0]]) + Doubled(s[1..])
  }

  function QuoteArgument(s: string): string {
    ['\''] + Doubled(s) + ['\'']
  }

  function DualTokenizerSpec(index: string, query: string, handle: string): string {
    INTERNAL_TOKENIZER + [' '] + QuoteArgument(index) + [' '] + QuoteArgument(query) + [' '] + QuoteArgument(handle)
  }

  // ---- parsing ------------------------------------------------------------------------

  predicate IsBareword(b: Byte) {
    b >= 0x80 || 0x30 <= b <= 0x39 || 0x41 <= b <= 0x5A || 0x61 <= b <= 0x7A || b == 0x5F || b == 0x1A
  }

  /** The bytes of the character a byte starts (section 3 of RFC 3629). */
  function Width(lead: Byte): (n: nat)
    ensures 1 <= n <= 4
  {
    if lead < 0x80 then 1 else if lead < 0xE0 then 2 else if lead < 0xF0 then 3 else 4
  }

  function CharWidth(text: seq<Byte>): (n: nat)
    requires text != []
    ensures 1 <= n <= |text|
  {
    if Width(text[0]) <= |text| then Width(text[0]) else |text|
  }

  /** From inside a quoted argument: its value, and the bytes up to and with the
      closing quote. */
  function Quoted(s: seq<Byte>): (r: Option<(seq<Byte>, nat)>)
    ensures r.Some? ==> 1 <= r.value.1 <= |s|
    decreases |s|
  {
    if s == [] then None
    else if s[0] == QUOTE && |s| > 1 && s[1] == QUOTE then Longer([QUOTE], 2, Quoted(s[2..]))
    else if s[0] == QUOTE then Some(([], 1))
    else Longer(s[..CharWidth(s)], CharWidth(s), Quoted(s[CharWidth(s)..]))
  }

  function Longer(prefix: seq<Byte>, n: nat, r: Option<(seq<Byte>, nat)>): Option<(seq<Byte>, nat)> {
    if r == None then None else Some((prefix + r.value.0, n + r.value.1))
  }

  lemma LongerNothing(r: Option<(seq<Byte>, nat)>)
    ensures Longer([], 0, r) == r
  {
    if r.Some? { assert [] + r.value.0 == r.value.0; }
  }

  function BareLength(s: seq<Byte>): (n: nat)
    ensures n <= |s|
  {
    if s == [] || !IsBareword(s[0]) then 0 else 1 + BareLength(s[1..])
  }

  /** The next argument and its length. */
  function Argument(s: seq<Byte>): (r: Option<(seq<Byte>, nat)>)
    requires s != []
    ensures r.Some? ==> 1 <= r.value.1 <= |s|
  {
    if s[0] == QUOTE then
      (match Quoted(s[1..])
       case None => None
       case Some((value, n)) => Some((value, n + 1)))
    else if BareLength(s) == 0 then None
    else Some((s[..BareLength(s)], BareLength(s)))
  }

  function Arguments(s: seq<Byte>): Option<seq<seq<Byte>>>
    decreases |s|
  {
    if s == [] then Some([])
    else if s[0] == SPACE then Arguments(s[1..])
    else
      match Argument(s)
      case None => None
      case Some((value, n)) =>
        match Arguments(s[n..])
        case None => None
        case Some(rest) => Some([value] + rest)
  }

  function Specification(s: seq<Byte>): Option<seq<seq<Byte>>> {
    if 0 in s then None
    else
      var arguments := Arguments(s);
      if arguments == Some([]) then None else arguments
  }

  lemma {:induction false} QuotedStep(s: seq<Byte>, value: seq<Byte>, n: nat)
    requires s != []
    ensures Longer(value, n, Quoted(s)) ==
      if s[0] == QUOTE && |s| > 1 && s[1] == QUOTE then Longer(value + [QUOTE], n + 2, Quoted(s[2..]))
      else if s[0] == QUOTE then Some((value, n + 1))
      else Longer(value + s[..CharWidth(s)], n + CharWidth(s), Quoted(s[CharWidth(s)..]))
  {
    hide CharWidth, Longer;
    if s[0] == QUOTE && |s| > 1 && s[1] == QUOTE {
      LongerLonger(value, n, [QUOTE], 2, Quoted(s[2..]));
    } else if s[0] == QUOTE {
      LongerClosed(value, n);
    } else {
      LongerLonger(value, n, s[..CharWidth(s)], CharWidth(s), Quoted(s[CharWidth(s)..]));
    }
  }

  lemma LongerClosed(value: seq<Byte>, n: nat)
    ensures Longer(value, n, Some(([], 1))) == Some((value, n + 1))
  {
    assert value + [] == value;
  }

  lemma LongerLonger(a: seq<Byte>, n: nat, b: seq<Byte>, m: nat, r: Option<(seq<Byte>, nat)>)
    ensures Longer(a, n, Longer(b, m, r)) == Longer(a + b, n + m, r)
  {
    if r.Some? { assert a + (b + r.value.0) == (a + b) + r.value.0; }
  }

  method ParseQuotedArgument(text: seq<Byte>, start: nat) returns (r: Option<(seq<Byte>, nat)>)
    requires start < |text|
    ensures var q := Quoted(text[start + 1..]);
      r == if q == None then None else Some((q.value.0, start + 1 + q.value.1))
  {
    hide CharWidth, Quoted;
    var offset := start + 1;
    var value: seq<Byte> := [];
    LongerNothing(Quoted(text[start + 1..]));
    while offset < |text|
      invariant start < offset <= |text|
      invariant Quoted(text[start + 1..]) == Longer(value, offset - (start + 1), Quoted(text[offset..]))
    {
      var rest := text[offset..];
      QuotedStep(rest, value, offset - (start + 1));
      if text[offset] == QUOTE {
        if offset + 1 < |text| && text[offset + 1] == QUOTE {
          assert rest[2..] == text[offset + 2..];
          value := value + [QUOTE];
          offset := offset + 2;
          continue;
        }
        return Some((value, offset + 1));
      }
      var width := CharWidth(rest);
      assert rest[width..] == text[offset + width..];
      value := value + rest[..width];
      offset := offset + width;
    }
    assert text[offset..] == [];
    QuotedEnds();
    return None;
  }

  lemma QuotedEnds()
    ensures Quoted([]) == None
  {
  }

  method ParseBareArgument(text: seq<Byte>, start: nat) returns (r: Option<(seq<Byte>, nat)>)
    requires start < |text|
    ensures var n := BareLength(text[start..]);
      r == if n == 0 then None else Some((text[start..start + n], start + n))
  {
    var offset := start;
    while offset < |text| && IsBareword(text[offset])
      invariant start <= offset <= |text|
      invariant BareLength(text[start..]) == offset - start + BareLength(text[offset..])
    {
      assert text[offset..][1..] == text[offset + 1..];
      offset := offset + 1;
    }
    if offset == start { return None; }
    return Some((text[start..offset], offset));
  }

  method ParseSpecification(text: seq<Byte>) returns (r: Option<seq<seq<Byte>>>)
    ensures r == Specification(text)
  {
    hide Argument, Arguments;
    if 0 in text { return None; }
    var offset := 0;
    var arguments: seq<seq<Byte>> := [];
    assert text[0..] == text;
    PrependedNothing(Arguments(text));
    while offset < |text|
      invariant 0 <= offset <= |text|
      invariant Arguments(text) == Prepended(arguments, Arguments(text[offset..]))
      decreases |text| - offset
    {
      ghost var before := offset;
      while offset < |text| && text[offset] == SPACE
        invariant before <= offset <= |text|
        invariant Arguments(text[before..]) == Arguments(text[offset..])
      {
        assert text[offset..][1..] == text[offset + 1..];
        ArgumentsStep(text[offset..]);
        offset := offset + 1;
      }
      if offset == |text| { break; }
      ArgumentsStep(text[offset..]);
      var argument := NextArgument(text, offset);
      if argument == None { return None; }
      var (value, next) := argument.value;
      assert text[offset..][next - offset..] == text[next..];
      PrependedMore(arguments, value, Arguments(text[next..]));
      arguments := arguments + [value];
      offset := next;
    }
    assert text[offset..] == [] && arguments + [] == arguments;
    NoArguments();
    return if arguments == [] then None else Some(arguments);
  }

  method NextArgument(text: seq<Byte>, offset: nat) returns (r: Option<(seq<Byte>, nat)>)
    requires offset < |text|
    ensures var a := Argument(text[offset..]);
      r == if a == None then None else Some((a.value.0, offset + a.value.1))
  {
    assert text[offset..][1..] == text[offset + 1..];
    ghost var n := BareLength(text[offset..]);
    assert text[offset..][..n] == text[offset..offset + n];
    if text[offset] == QUOTE {
      r := ParseQuotedArgument(text, offset);
    } else {
      r := ParseBareArgument(text, offset);
    }
  }

  lemma {:induction false} ArgumentsStep(s: seq<Byte>)
    requires s != []
    ensures Arguments(s) ==
      if s[0] == SPACE then Arguments(s[1..])
      else if Argument(s) == None then None
      else Prepended([Argument(s).value.0], Arguments(s[Argument(s).value.1..]))
  {
  }

  lemma NoArguments()
    ensures Arguments([]) == Some([])
  {
  }

  ghost function Prepended(arguments: seq<seq<Byte>>, rest: Option<seq<seq<Byte>>>): Option<seq<seq<Byte>>> {
    if rest == None then None else Some(arguments + rest.value)
  }

  lemma PrependedNothing(rest: Option<seq<seq<Byte>>>)
    ensures Prepended([], rest) == rest
  {
    if rest.Some? { assert [] + rest.value == rest.value; }
  }

  lemma PrependedMore(arguments: seq<seq<Byte>>, value: seq<Byte>, rest: Option<seq<seq<Byte>>>)
    ensures Prepended(arguments, Prepended([value], rest)) == Prepended(arguments + [value], rest)
  {
    if rest.Some? { assert arguments + ([value] + rest.value) == (arguments + [value]) + rest.value; }
  }

  // ---- parsing what was printed ---------------------------------------------------------

  lemma {:induction false} EncodeOf(a: string, b: string)
    ensures Utf8.Encode(a + b) == Utf8.Encode(a) + Utf8.Encode(b)
  {
    if a == [] {
      assert a + b == b;
    } else {
      assert (a + b)[1..] == a[1..] + b;
      EncodeOf(a[1..], b);
    }
  }

  lemma EncodeOne(c: char)
    ensures Utf8.Encode([c]) == Utf8.EncodeChar(c)
  {
  }

  lemma CharStart(c: char)
    ensures var b := Utf8.EncodeChar(c); |b| >= 1 && |b| == Width(b[0]) && (c != '\'' ==> b[0] != QUOTE)
  {
  }

  /** A quoted argument ends at its own closing quote, whatever it contains. */
  lemma {:induction false} QuotedOf(s: string, rest: seq<Byte>)
    requires rest == [] || rest[0] != QUOTE
    ensures var text := Utf8.Encode(Doubled(s)); Quoted(text + [QUOTE] + rest) == Some((Utf8.Encode(s), |text| + 1))
    decreases s
  {
    if s == [] {
      assert Utf8.Encode(Doubled(s)) + [QUOTE] + rest == [QUOTE] + rest;
    } else {
      DoubledStep(s);
      hide Quoted, Utf8.Encode, Utf8.EncodeChar, Doubled;
      QuotedOf(s[1..], rest);
      var first := Utf8.Encode(Doubled([s[0]]));
      var tail := Utf8.Encode(Doubled(s[1..])) + [QUOTE] + rest;
      QuotedChar(s[0], tail);
      Regroup(first, Utf8.Encode(Doubled(s[1..])), rest);
    }
  }

  lemma Regroup(first: seq<Byte>, others: seq<Byte>, rest: seq<Byte>)
    ensures (first + others) + [QUOTE] + rest == first + (others + [QUOTE] + rest)
  {
  }

  lemma {:induction false} DoubledStep(s: string)
    requires s != []
    ensures Utf8.Encode(Doubled(s)) == Utf8.Encode(Doubled([s[0]])) + Utf8.Encode(Doubled(s[1..]))
    ensures Utf8.Encode(s) == Utf8.EncodeChar(s[0]) + Utf8.Encode(s[1..])
  {
    hide Utf8.EncodeChar;
    var first: string := if s[0] == '\'' then ['\'', '\''] else [s[0]];
    assert Doubled([s[0]]) == first by { assert [s[0]][1..] == []; }
    EncodeOf(first, Doubled(s[1..]));
  }

  lemma {:induction false} QuotedChar(c: char, tail: seq<Byte>)
    ensures var first := Utf8.Encode(Doubled([c]));
      Quoted(first + tail) == Longer(Utf8.EncodeChar(c), |first|, Quoted(tail))
  {
    EncodeOne(c);
    assert [c][1..] == [];
    assert Doubled([c]) == if c == '\'' then ['\'', '\''] else [c];
    if c == '\'' {
      assert Utf8.EncodeChar(c) == [QUOTE];
      EncodeOf(['\''], ['\'']);
      assert ['\''] + ['\''] == ['\'', '\''];
      var text := [QUOTE, QUOTE] + tail;
      assert text[2..] == tail;
    } else {
      CharStart(c);
      hide Utf8.EncodeChar;
      var bytes := Utf8.EncodeChar(c);
      var text := bytes + tail;
      assert text[..|bytes|] == bytes && text[|bytes|..] == tail;
    }
  }

  /** An argument as it may be written: a bareword, or anything in quotes. */
  datatype Written = Bare(word: string) | InQuotes(s: string)

  function Value(w: Written): string {
    if w.Bare? then w.word else w.s
  }

  function WrittenText(w: Written): string {
    if w.Bare? then w.word else QuoteArgument(w.s)
  }

  predicate Writable(w: Written) {
    w.Bare? ==> w.word != [] && forall b :: b in Utf8.Encode(w.word) ==> IsBareword(b)
  }

  function Joined(ws: seq<Written>): string {
    if ws == [] then []
    else if |ws| == 1 then WrittenText(ws[0])
    else WrittenText(ws[0]) + [' '] + Joined(ws[1..])
  }

  function Values(ws: seq<Written>): seq<seq<Byte>> {
    if ws == [] then [] else [Utf8.Encode(Value(ws[0]))] + Values(ws[1..])
  }

  lemma {:induction false} BareLengthOf(word: seq<Byte>, rest: seq<Byte>)
    requires (forall b :: b in word ==> IsBareword(b)) && (rest == [] || !IsBareword(rest[0]))
    ensures BareLength(word + rest) == |word|
  {
    if word == [] {
      assert word + rest == rest;
    } else {
      BareLengthOf(word[1..], rest);
      assert (word + rest)[1..] == word[1..] + rest;
    }
  }

  lemma {:induction false} EncodeNonEmpty(s: string)
    requires s != []
    ensures Utf8.Encode(s) != []
  {
  }

  lemma ArgumentOf(w: Written, rest: seq<Byte>)
    requires Writable(w) && (rest == [] || rest[0] == SPACE)
    ensures var text := Utf8.Encode(WrittenText(w));
      text != [] && text[0] != SPACE && Argument(text + rest) == Some((Utf8.Encode(Value(w)), |text|))
  {
    hide Utf8.Encode, Quoted, BareLength;
    var text := Utf8.Encode(WrittenText(w));
    match w
    case Bare(word) =>
      EncodeNonEmpty(word);
      assert text[0] in text;
      BareLengthOf(text, rest);
      assert (text + rest)[..|text|] == text;
    case InQuotes(s) =>
      EncodeOf(['\''] + Doubled(s), ['\'']);
      EncodeOf(['\''], Doubled(s));
      EncodeOne('\'');
      QuotedOf(s, rest);
      assert (text + rest)[1..] == Utf8.Encode(Doubled(s)) + [QUOTE] + rest;
  }

  lemma {:induction false} ArgumentsOf(ws: seq<Written>)
    requires forall w :: w in ws ==> Writable(w)
    ensures Arguments(Utf8.Encode(Joined(ws))) == Some(Values(ws))
    decreases ws
  {
    if ws != [] {
      hide Utf8.Encode, Arguments, WrittenText, Value, Writable;
      ArgumentsOf(ws[1..]);
      if |ws| == 1 {
        ArgumentsLast(ws[0]);
        assert Values(ws[1..]) == [] && Values(ws) == [Utf8.Encode(Value(ws[0]))];
      } else {
        var others := Joined(ws[1..]);
        ArgumentsThen(ws[0], Utf8.Encode(others), Values(ws[1..]));
        EncodeOf(WrittenText(ws[0]) + [' '], others);
        EncodeOf(WrittenText(ws[0]), [' ']);
        EncodeOne(' ');
      }
    }
  }

  lemma ArgumentsLast(w: Written)
    requires Writable(w)
    ensures Arguments(Utf8.Encode(WrittenText(w))) == Some([Utf8.Encode(Value(w))])
  {
    hide Utf8.Encode, Argument, Arguments, WrittenText, Value, Writable;
    var text := Utf8.Encode(WrittenText(w));
    ArgumentOf(w, []);
    assert text + [] == text && text[|text|..] == [];
    ArgumentsStep(text);
    NoArguments();
    assert [Utf8.Encode(Value(w))] + [] == [Utf8.Encode(Value(w))];
  }

  lemma {:induction false} ArgumentsThen(w: Written, others: seq<Byte>, values: seq<seq<Byte>>)
    requires Writable(w) && Arguments(others) == Some(values)
    ensures Arguments(Utf8.Encode(WrittenText(w)) + [SPACE] + others) == Some([Utf8.Encode(Value(w))] + values)
  {
    hide Utf8.Encode, Argument, Arguments, WrittenText, Value, Writable;
    var text := Utf8.Encode(WrittenText(w));
    var all := text + [SPACE] + others;
    assert all == text + ([SPACE] + others);
    ArgumentOf(w, [SPACE] + others);
    ArgumentsStep(all);
    assert all[|text|..] == [SPACE] + others && ([SPACE] + others)[1..] == others;
    ArgumentsStep([SPACE] + others);
  }

  lemma {:induction false} NulFree(s: string)
    ensures 0 in Utf8.Encode(s) <==> 0 as char in s
  {
    if s != [] {
      NulFree(s[1..]);
      assert s == [s[0]] + s[1..];
      CharNul(s[0]);
    }
  }

  lemma CharNul(c: char)
    ensures 0 in Utf8.EncodeChar(c) <==> c == 0 as char
  {
  }

  /** Any list of arguments, each a bareword or quoted, joined by spaces, is parsed
      back exactly: embedded quotes, empty strings and multi-byte characters too. */
  lemma {:induction false} JoinedRoundTrip(ws: seq<Written>)
    requires ws != [] && (forall w :: w in ws ==> Writable(w)) && 0 as char !in Joined(ws)
    ensures Specification(Utf8.Encode(Joined(ws))) == Some(Values(ws))
  {
    hide Utf8.Encode, Arguments, Joined;
    NulFree(Joined(ws));
    ArgumentsOf(ws);
  }

  lemma {:induction false} DoubledNul(s: string)
    ensures 0 as char in Doubled(s) <==> 0 as char in s
  {
    if s != [] {
      DoubledNul(s[1..]);
      assert s == [s[0]] + s[1..];
    }
  }

  function DualArguments(index: string, query: string, handle: string): seq<Written> {
    [Bare(INTERNAL_TOKENIZER), InQuotes(index), InQuotes(query), InQuotes(handle)]
  }

  lemma {:induction false} DualIsJoined(index: string, query: string, handle: string)
    ensures Joined(DualArguments(index, query, handle)) == DualTokenizerSpec(index, query, handle)
    ensures Values(DualArguments(index, query, handle)) ==
      [Utf8.Encode(INTERNAL_TOKENIZER), Utf8.Encode(index), Utf8.Encode(query), Utf8.Encode(handle)]
  {
    hide Utf8.Encode, QuoteArgument, Joined, Values;
    var (w, x, y, z) := (Bare(INTERNAL_TOKENIZER), InQuotes(index), InQuotes(query), InQuotes(handle));
    assert DualArguments(index, query, handle) == [w] + ([x] + ([y] + [z]));
    JoinedCons(w, [x] + ([y] + [z]));
    JoinedCons(x, [y] + [z]);
    JoinedCons(y, [z]);
    JoinedOne(z);
  }

  lemma {:induction false} JoinedCons(w: Written, ws: seq<Written>)
    requires ws != []
    ensures Joined([w] + ws) == WrittenText(w) + [' '] + Joined(ws)
    ensures Values([w] + ws) == [Utf8.Encode(Value(w))] + Values(ws)
  {
  }

  lemma JoinedOne(w: Written)
    ensures Joined([w]) == WrittenText(w) && Values([w]) == [Utf8.Encode(Value(w))]
  {
  }

  predicate IsBareChar(c: char) {
    '0' <= c <= '9' || 'A' <= c <= 'Z' || 'a' <= c <= 'z' || c == '_' || c as int == 26 || c as int > 127
  }

  /** Barewords are letters, digits, underscores, SUB and everything beyond ASCII; a
      character is in one with all its bytes or with none. */
  lemma BareCharIff(c: char)
    ensures IsBareChar(c) <==> forall b :: b in Utf8.EncodeChar(c) ==> IsBareword(b)
    ensures !IsBareChar(c) ==> forall b :: b in Utf8.EncodeChar(c) ==> !IsBareword(b)
    ensures c as int > 127 ==> forall b :: b in Utf8.EncodeChar(c) ==> b > 127
  {
    assert Utf8.EncodeChar(c)[0] in Utf8.EncodeChar(c);
  }

  lemma {:induction false} BareBytes(word: string)
    requires forall i :: 0 <= i < |word| ==> IsBareChar(word[i])
    ensures forall b :: b in Utf8.Encode(word) ==> IsBareword(b)
  {
    if word != [] {
      hide IsBareChar, Utf8.EncodeChar;
      BareCharIff(word[0]);
      BareBytes(word[1..]);
    }
  }

  lemma InternalIsBare()
    ensures Writable(Bare(INTERNAL_TOKENIZER)) && 0 as char !in INTERNAL_TOKENIZER
  {
    BareBytes(INTERNAL_TOKENIZER);
  }

  lemma QuotedNul(s: string)
    ensures 0 as char in QuoteArgument(s) <==> 0 as char in s
  {
    DoubledNul(s);
  }

  /** The dual tokenizer's specification parses to its four arguments; a NUL in any
      of them is refused. */
  lemma {:induction false} DualRoundTrip(index: string, query: string, handle: string)
    ensures Specification(Utf8.Encode(DualTokenizerSpec(index, query, handle))) ==
      if 0 as char in index || 0 as char in query || 0 as char in handle then None
      else Some([Utf8.Encode(INTERNAL_TOKENIZER), Utf8.Encode(index), Utf8.Encode(query), Utf8.Encode(handle)])
  {
    hide Utf8.Encode, Arguments, Joined, QuoteArgument, Values;
    InternalIsBare();
    QuotedNul(index);
    QuotedNul(query);
    QuotedNul(handle);
    DualIsJoined(index, query, handle);
    NulFree(DualTokenizerSpec(index, query, handle));
    ArgumentsOf(DualArguments(index, query, handle));
  }
}
