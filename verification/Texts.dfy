/** Splitting text at a character, and decimal numerals. */
module Texts {
  import opened Wrappers

  // ---- searching and splitting ----------------------------------------------

  /** Position of the first occurrence of `c`, or the length of the text. */
  function IndexOf(s: string, c: char): (i: nat)
    ensures i <= |s| && (forall j :: 0 <= j < i ==> s[j] != c) && (i < |s| ==> s[i] == c)
  {
    if s == [] || s[0] == c then 0 else IndexOf(s[1..], c) + 1
  }

  /** Position of the last occurrence of `c`, or -1. */
  function LastIndexOf(s: string, c: char): (i: int)
    ensures -1 <= i < |s| && (forall j :: i < j < |s| ==> s[j] != c) && (i >= 0 ==> s[i] == c)
  {
    if s == [] then -1
    else if s[|s| - 1] == c then |s| - 1
    else LastIndexOf(s[..|s| - 1], c)
  }

  function SplitOnce(s: string, c: char): Option<(string, string)> {
    var i := IndexOf(s, c);
    if i == |s| then None else Some((s[..i], s[i + 1..]))
  }

  function SplitOnceLast(s: string, c: char): Option<(string, string)> {
    var i := LastIndexOf(s, c);
    if i < 0 then None else Some((s[..i], s[i + 1..]))
  }

  /** All pieces between occurrences of `c`; never empty. */
  function Split(s: string, c: char): (parts: seq<string>)
    ensures |parts| > 0
    decreases |s|
  {
    var i := IndexOf(s, c);
    if i == |s| then [s] else [s[..i]] + Split(s[i + 1..], c)
  }

  lemma SplitOnceJoined(a: string, c: char, b: string)
    requires c !in a
    ensures SplitOnce(a + [c] + b, c) == Some((a, b))
  {
    var s := a + [c] + b;
    var i := IndexOf(s, c);
    assert s[|a|] == c;
    forall k | 0 <= k < |a| ensures s[k] != c {
      assert s[k] == a[k];
    }
    assert i == |a|;
    assert s[..i] == a && s[i + 1..] == b;
  }

  lemma SplitOnceLastJoined(a: string, c: char, b: string)
    requires c !in b
    ensures SplitOnceLast(a + [c] + b, c) == Some((a, b))
  {
    var s := a + [c] + b;
    var i := LastIndexOf(s, c);
    assert s[|a|] == c;
    forall k | |a| < k < |s| ensures s[k] != c {
      assert s[k] == b[k - |a| - 1];
    }
    assert i == |a|;
    assert s[..i] == a && s[i + 1..] == b;
  }

  lemma {:induction false} SplitAlone(a: string, c: char)
    requires c !in a
    ensures Split(a, c) == [a]
  {
  }

  lemma {:induction false} SplitJoined(a: string, c: char, b: string)
    requires c !in a
    ensures Split(a + [c] + b, c) == [a] + Split(b, c)
  {
    SplitOnceJoined(a, c, b);
  }

  // ---- decimal numerals -------------------------------------------------------

  predicate IsDigit(c: char) {
    '0' <= c <= '9'
  }

  predicate AllDigits(s: string) {
    forall i :: 0 <= i < |s| ==> IsDigit(s[i])
  }

  function DigitChar(d: int): (c: char)
    requires 0 <= d <= 9
    ensures IsDigit(c) && DigitValue(c) == d
  {
    ['0', '1', '2', '3', '4', '5', '6', '7', '8', '9'][d]
  }

  function DigitValue(c: char): (d: int)
    requires IsDigit(c)
    ensures 0 <= d <= 9
  {
    c as int - '0' as int
  }

  /** The number a string of digits denotes. */
  function Numeral(s: string): nat
    requires AllDigits(s)
  {
    if s == [] then 0 else 10 * Numeral(s[..|s| - 1]) + DigitValue(s[|s| - 1])
  }

  function Power10(n: nat): nat {
    if n == 0 then 1 else 10 * Power10(n - 1)
  }

  /** Exactly `width` digits. */
  function Fixed(n: nat, width: nat): (s: string)
    ensures |s| == width && AllDigits(s)
  {
    if width == 0 then [] else Fixed(n / 10, width - 1) + [DigitChar(n % 10)]
  }

  lemma {:induction false} NumeralOfFixed(n: nat, width: nat)
    requires n < Power10(width)
    ensures Numeral(Fixed(n, width)) == n
  {
    if width > 0 {
      NumeralOfFixed(n / 10, width - 1);
      assert Fixed(n, width)[..width - 1] == Fixed(n / 10, width - 1);
    }
  }

  lemma {:induction false} FixedOfNumeral(s: string)
    requires AllDigits(s)
    ensures Numeral(s) < Power10(|s|) && Fixed(Numeral(s), |s|) == s
  {
    if s != [] {
      var front := s[..|s| - 1];
      FixedOfNumeral(front);
      assert Numeral(s) / 10 == Numeral(front) && Numeral(s) % 10 == DigitValue(s[|s| - 1]);
      assert s == front + [s[|s| - 1]];
    }
  }

  /** The shortest numeral. */
  function Digits(n: nat): (s: string)
    ensures |s| > 0 && AllDigits(s)
  {
    if n < 10 then [DigitChar(n)] else Digits(n / 10) + [DigitChar(n % 10)]
  }

  lemma {:induction false} NumeralOfDigits(n: nat)
    ensures Numeral(Digits(n)) == n
  {
    if n < 10 {
      assert Digits(n)[..0] == [];
    } else {
      NumeralOfDigits(n / 10);
      assert Digits(n)[..|Digits(n)| - 1] == Digits(n / 10);
    }
  }

  /** A number has at most `width` digits exactly when it is below the power. */
  lemma {:induction false} DigitsLength(n: nat, width: nat)
    requires width > 0
    ensures |Digits(n)| <= width <==> n < Power10(width)
  {
    if width == 1 {
      assert Power10(1) == 10;
      if n >= 10 { assert |Digits(n / 10)| > 0; }
    } else if n >= 10 {
      DigitsLength(n / 10, width - 1);
    } else {
      PowerAtLeast(width);
    }
  }

  lemma {:induction false} PowerAtLeast(width: nat)
    requires width > 0
    ensures Power10(width) >= 10
  {
    if width > 1 { PowerAtLeast(width - 1); }
  }

  lemma Powers()
    ensures Power10(2) == 100 && Power10(3) == 1000 && Power10(4) == 10000
    ensures Power10(9) == 1000000000
  {
  }

  /** Trailing zeros removed. */
  function TrimZeros(s: string): (t: string)
    ensures |t| <= |s| && t == s[..|t|] && (t != [] ==> t[|t| - 1] != '0')
    ensures forall i :: |t| <= i < |s| ==> s[i] == '0'
  {
    if s != [] && s[|s| - 1] == '0' then TrimZeros(s[..|s| - 1]) else s
  }

  lemma {:induction false} TrimmedNumeral(s: string)
    requires AllDigits(s)
    ensures Numeral(TrimZeros(s)) * Power10(|s| - |TrimZeros(s)|) == Numeral(s)
  {
    hide Fixed;
    if s != [] && s[|s| - 1] == '0' {
      var front := s[..|s| - 1];
      TrimmedNumeral(front);
      var k := |front| - |TrimZeros(front)|;
      assert Power10(k + 1) == 10 * Power10(k);
      assert Numeral(TrimZeros(front)) * (10 * Power10(k)) == 10 * (Numeral(TrimZeros(front)) * Power10(k));
    } else {
      assert Power10(0) == 1;
    }
  }
}
