/** UTF-8 text (section 3 of RFC 3629) and the copy loop that moves it in 64 KiB
    pieces, each ending on a character boundary and each announced to a callback. */
module Utf8 {
  import opened Wrappers
  import opened Checkpoint

  const PIECE := 64 * 1024

  function EncodeChar(c: char): seq<Byte> {
    var n := c as int;
    if n < 0x80 then [n]
    else if n < 0x800 then [0xC0 + n / 0x40, 0x80 + n % 0x40]
    else if n < 0x1_0000 then [0xE0 + n / 0x1000, 0x80 + n / 0x40 % 0x40, 0x80 + n % 0x40]
    else [0xF0 + n / 0x4_0000, 0x80 + n / 0x1000 % 0x40, 0x80 + n / 0x40 % 0x40, 0x80 + n % 0x40]
  }

  function Encode(s: string): seq<Byte> {
    if s == [] then [] else EncodeChar(s[0]) + Encode(s[1..])
  }

  /** The character number that one to four bytes carry. */
  function CodePoint(b: seq<Byte>): int {
    if b == [] then 0 else
    var lead: int := b[0];
    if |b| == 1 then lead
    else if |b| == 2 then Continued(lead - 192, b[1])
    else if |b| == 3 then Continued(Continued(lead - 224, b[1]), b[2])
    else Continued(Continued(Continued(lead - 240, b[1]), b[2]), b[3])
  }

  /** Six bits more. */
  function Continued(n: int, b: Byte): int {
    64 * n + (b as int - 128)
  }

  /** The bytes of a character carry its number, in the shortest form. */
  lemma EncodedCodePoint(c: char)
    ensures var b := EncodeChar(c); var n := c as int;
      && |b| == (if n < 128 then 1 else if n < 2048 then 2 else if n < 65536 then 3 else 4)
      && (if n < 128 then b[0] < 128
          else if n < 2048 then 192 <= b[0] < 224
          else if n < 65536 then 224 <= b[0] < 240 else 240 <= b[0] < 248)
      && CodePoint(b) == n
  {
    var n := c as int;
    SixBits(n);
    SixBits(n / 64);
    SixBits(n / 64 / 64);
    assert n / 0x1000 == n / 64 / 64 && n / 0x4_0000 == n / 64 / 64 / 64;
  }

  lemma SixBits(n: nat)
    ensures Continued(n / 64, 0x80 + n % 64) == n
  {
  }

  predicate IsContinuation(b: Byte) {
    0x80 <= b < 0xC0
  }

  predicate IsBoundary(text: seq<Byte>, i: nat) {
    i == 0 || i == |text| || (i < |text| && !IsContinuation(text[i]))
  }

  /** A character starts at one of the four bytes from `i`, if there are four. */
  predicate StartsWithin(text: seq<Byte>, i: nat) {
    i + 3 < |text| ==>
      || !IsContinuation(text[i]) || !IsContinuation(text[i + 1])
      || !IsContinuation(text[i + 2]) || !IsContinuation(text[i + 3])
  }

  /** Text starts with a character, and a character spans at most four bytes. */
  ghost predicate Chunky(text: seq<Byte>) {
    (text != [] ==> !IsContinuation(text[0])) && forall i: nat :: StartsWithin(text, i)
  }

  lemma CharShape(c: char)
    ensures var b := EncodeChar(c);
      1 <= |b| <= 4 && !IsContinuation(b[0]) && forall i :: 1 <= i < |b| ==> IsContinuation(b[i])
  {
  }

  lemma {:induction false} EncodedIsChunky(s: string)
    ensures Chunky(Encode(s))
  {
    if s != [] {
      hide EncodeChar;
      CharShape(s[0]);
      EncodedIsChunky(s[1..]);
      var first, rest := EncodeChar(s[0]), Encode(s[1..]);
      ChunkyAfter(first, rest);
    }
  }

  lemma ChunkyAfter(first: seq<Byte>, rest: seq<Byte>)
    requires 1 <= |first| <= 4 && !IsContinuation(first[0]) && Chunky(rest)
    ensures Chunky(first + rest)
  {
    var text := first + rest;
    forall i: nat ensures StartsWithin(text, i) {
      hide IsContinuation;
      if |first| <= i {
        assert StartsWithin(rest, i - |first|);
      } else if 0 < i && i + 3 < |text| {
        assert text[|first|] == rest[0];
      }
    }
  }

  /** The last boundary at or before `i`. */
  function Back(text: seq<Byte>, i: nat): (j: nat)
    requires i <= |text|
    ensures j <= i && IsBoundary(text, j)
    ensures forall k :: j < k <= i ==> !IsBoundary(text, k)
  {
    if IsBoundary(text, i) then i else Back(text, i - 1)
  }

  lemma {:induction false} BackIsNear(text: seq<Byte>, i: nat)
    requires Chunky(text) && i <= |text|
    ensures i - Back(text, i) <= 3
  {
    if 3 <= i < |text| {
      assert StartsWithin(text, i - 3);
      assert IsBoundary(text, i) || IsBoundary(text, i - 1) || IsBoundary(text, i - 2) || IsBoundary(text, i - 3);
    }
  }

  function PieceEnd(text: seq<Byte>, position: nat): (end: nat)
    requires position <= |text|
    ensures end <= |text| && IsBoundary(text, end)
  {
    Back(text, if position + PIECE < |text| then position + PIECE else |text|)
  }

  /** The sizes of the pieces from `position` on. */
  function PieceSizes(text: seq<Byte>, position: nat): seq<nat>
    requires position <= |text|
    decreases |text| - position
  {
    var end := PieceEnd(text, position);
    if position == |text| || end <= position then [] else [end - position] + PieceSizes(text, end)
  }

  function Total(sizes: seq<nat>): nat {
    if sizes == [] then 0 else sizes[0] + Total(sizes[1..])
  }

  lemma Progress(text: seq<Byte>, position: nat)
    requires Chunky(text) && position < |text|
    ensures position < PieceEnd(text, position)
  {
    BackIsNear(text, if position + PIECE < |text| then position + PIECE else |text|);
    assert IsBoundary(text, |text|);
  }

  /** Every byte is charged exactly once, in pieces of at most 64 KiB. */
  lemma {:induction false} PiecesCoverText(text: seq<Byte>, position: nat)
    requires Chunky(text) && position <= |text|
    ensures Total(PieceSizes(text, position)) == |text| - position
    ensures forall n :: n in PieceSizes(text, position) ==> 0 < n <= PIECE
    decreases |text| - position
  {
    if position < |text| {
      Progress(text, position);
      PiecesCoverText(text, PieceEnd(text, position));
    }
  }

  /** What a caller turns an announcement of the copy into: work units without bytes,
      or the bytes of a piece. */
  type Announce<!C> = (nat, nat) -> C

  function Announced<C>(sizes: seq<nat>, announce: Announce<C>): seq<C> {
    if sizes == [] then [] else [announce(0, sizes[0])] + Announced(sizes[1..], announce)
  }

  /** What the copy of a text announces: itself, each piece, and an immediate check
      before and after a large one. */
  function CopyCalls<C>(text: seq<Byte>, announce: Announce<C>): seq<C> {
    var around := if |text| >= PIECE then [announce(0, 0)] else [];
    [announce(1, 0)] + around + Announced(PieceSizes(text, 0), announce) + around
  }

  lemma {:induction false} CheckAllAppend<C>(callback: Callback<C>, t: Trace<C>, a: seq<C>, b: seq<C>)
    ensures CheckAll(callback, t, a + b) ==
      var first := CheckAll(callback, t, a);
      if first.value.None? then first else CheckAll(callback, first.trace, b)
    decreases a
  {
    if a == [] {
      assert a + b == b;
    } else {
      assert (a + b)[1..] == a[1..] + b;
      var first := Check(callback, t, a[0]);
      if first.value.Some? {
        CheckAllAppend(callback, first.trace, a[1..], b);
      }
    }
  }

  lemma {:induction false} CheckAllOne<C>(callback: Callback<C>, t: Trace<C>, units: C)
    ensures CheckAll(callback, t, [units]) == Check(callback, t, units)
  {
    var first := Check(callback, t, units);
    if first.value.Some? { assert CheckAll(callback, first.trace, []) == Run(Some(()), first.trace); }
  }

  /** The announcements of one copy, phase by phase. */
  lemma {:induction false} CopyPhases<C>(callback: Callback<C>, t: Trace<C>, text: seq<Byte>, announce: Announce<C>)
    ensures CheckAll(callback, t, CopyCalls(text, announce)) ==
      var around := if |text| >= PIECE then [announce(0, 0)] else [];
      var start := Check(callback, t, announce(1, 0));
      if start.value.None? then start else
      var before := CheckAll(callback, start.trace, around);
      if before.value.None? then before else
      var pieces := CheckAll(callback, before.trace, Announced(PieceSizes(text, 0), announce));
      if pieces.value.None? then pieces else CheckAll(callback, pieces.trace, around)
  {
    hide PieceSizes, Check, Announced;
    var around: seq<C> := if |text| >= PIECE then [announce(0, 0)] else [];
    var pieces := Announced(PieceSizes(text, 0), announce);
    CheckAllOne(callback, t, announce(1, 0));
    CheckAllAppend(callback, t, [announce(1, 0)], around);
    CheckAllAppend(callback, t, [announce(1, 0)] + around, pieces);
    CheckAllAppend(callback, t, [announce(1, 0)] + around + pieces, around);
  }

  method CopyPieces<C>(callback: Callback<C>, t: Trace<C>, text: seq<Byte>, announce: Announce<C>)
    returns (r: Run<C, seq<Byte>>)
    requires Chunky(text)
    ensures var checks := CheckAll(callback, t, Announced(PieceSizes(text, 0), announce));
      r == Run(if checks.value.Some? then Some(text) else None, checks.trace)
  {
    hide Chunky;
    var result: seq<Byte> := [];
    var trace := t;
    var position := 0;
    while position < |text|
      invariant position <= |text| && result == text[..position]
      invariant CheckAll(callback, t, Announced(PieceSizes(text, 0), announce)) ==
        CheckAll(callback, trace, Announced(PieceSizes(text, position), announce))
      decreases |text| - position
    {
      var end := if position + PIECE < |text| then position + PIECE else |text|;
      ghost var limit := end;
      while !IsBoundary(text, end)
        invariant 0 <= end <= limit <= |text| && Back(text, end) == PieceEnd(text, position)
        decreases end
      {
        end := end - 1;
      }
      Progress(text, position);
      assert PieceSizes(text, position) == [end - position] + PieceSizes(text, end);
      assert PieceSizes(text, position)[1..] == PieceSizes(text, end);
      ghost var calls := Announced(PieceSizes(text, position), announce);
      assert calls[0] == announce(0, end - position) && calls[1..] == Announced(PieceSizes(text, end), announce);
      var checked := Check(callback, trace, announce(0, end - position));
      if checked.value.None? { return Run(None, checked.trace); }
      result := result + text[position..end];
      trace := checked.trace;
      position := end;
    }
    assert text[..position] == text;
    return Run(Some(result), trace);
  }

  /** Copies a text piece by piece.  It terminates on every UTF-8 text, returns its
      input, and makes exactly the announced calls up to the first refusal. */
  method CheckedText<C>(callback: Callback<C>, t: Trace<C>, text: seq<Byte>, announce: Announce<C>)
    returns (r: Run<C, seq<Byte>>)
    requires Chunky(text)
    ensures var checks := CheckAll(callback, t, CopyCalls(text, announce));
      r == Run(if checks.value.Some? then Some(text) else None, checks.trace)
  {
    hide PieceSizes, Chunky, CopyCalls, Announced;
    CopyPhases(callback, t, text, announce);
    var checked := Check(callback, t, announce(1, 0));
    if checked.value.None? { return Run(None, checked.trace); }
    if |text| >= PIECE {
      CheckAllOne(callback, checked.trace, announce(0, 0));
      checked := Check(callback, checked.trace, announce(0, 0));
      if checked.value.None? { return Run(None, checked.trace); }
    }
    r := CopyPieces(callback, checked.trace, text, announce);
    if r.value.Some? && |text| >= PIECE {
      CheckAllOne(callback, r.trace, announce(0, 0));
      checked := Check(callback, r.trace, announce(0, 0));
      r := Run(if checked.value.None? then None else r.value, checked.trace);
    }
  }
}
