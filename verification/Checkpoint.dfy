/** A caller-owned callback threaded through a computation: it sees the work
    units charged so far and may end the computation with an error of its own. */
module Checkpoint {
  import opened Wrappers

  /** The callback as a function of everything it has been called with, the last
      element being the current call. */
  type Callback<!C> = seq<C> -> Option<int>

  /** The calls made, and the error the adapter captured from the callback. */
  datatype Trace<C> = Trace(calls: seq<C>, physical: Option<int>)

  /** A computation's value, absent after any error, with the trace it left. */
  datatype Run<C, +T> = Run(value: Option<T>, trace: Trace<C>)

  /** The callback that never fails: what a plain computation runs with. */
  function Silent<C>(): Callback<C> {
    (_: seq<C>) => None
  }

  function Check<C>(callback: Callback<C>, t: Trace<C>, units: C): Run<C, ()> {
    var calls := t.calls + [units];
    match callback(calls)
    case None => Run(Some(()), Trace(calls, t.physical))
    case Some(error) => Run(None, Trace(calls, Some(error)))
  }

  /** Checkpoints in sequence, stopping at the first that fails. */
  function CheckAll<C>(callback: Callback<C>, t: Trace<C>, units: seq<C>): Run<C, ()>
    decreases units
  {
    if units == [] then Run(Some(()), t)
    else
      var first := Check(callback, t, units[0]);
      if first.value.None? then first else CheckAll(callback, first.trace, units[1..])
  }

  /** What the adapter returns: the callback's error if it captured one, else the
      computation's own outcome. */
  datatype Outcome<+T> = Done(value: T) | Invalid | Physical(error: int)

  function WithCheckpoint<C, T>(r: Run<C, T>): Outcome<T> {
    if r.trace.physical.Some? then Physical(r.trace.physical.value)
    else if r.value.Some? then Done(r.value.value) else Invalid
  }

  // ---- what interrupting a computation means -------------------------------------

  /** No call after the first `from` ones fails, up to the given history. */
  ghost predicate Quiet<C>(callback: Callback<C>, calls: seq<C>, from: nat, until: nat) {
    forall n :: from < n <= until && n <= |calls| ==> callback(calls[..n]).None?
  }

  /** `part` is `full` cut off at the callback's first failure: the same run if it
      never fails, otherwise no value, its own error, and not one call more. */
  ghost predicate Cut<C, T>(callback: Callback<C>, from: Trace<C>, full: Run<C, T>, part: Run<C, T>) {
    && from.calls <= full.trace.calls && full.trace.physical == from.physical
    && (|| (Quiet(callback, full.trace.calls, |from.calls|, |full.trace.calls|) && part == full)
        || (exists n: nat :: CutAt(callback, from, full, part, n)))
  }

  ghost predicate CutAt<C, T>(callback: Callback<C>, from: Trace<C>, full: Run<C, T>, part: Run<C, T>, n: nat) {
    && |from.calls| < n <= |full.trace.calls|
    && Quiet(callback, full.trace.calls, |from.calls|, n - 1)
    && callback(full.trace.calls[..n]).Some?
    && part == Run(None, Trace(full.trace.calls[..n], callback(full.trace.calls[..n])))
  }

  lemma CutCheck<C>(callback: Callback<C>, t: Trace<C>, units: C)
    ensures Cut(callback, t, Check(Silent(), t, units), Check(callback, t, units))
  {
    var full := Check(Silent(), t, units);
    assert full.trace.calls[..|t.calls| + 1] == full.trace.calls;
    if callback(full.trace.calls).Some? {
      assert CutAt(callback, t, full, Check(callback, t, units), |t.calls| + 1);
    }
  }

  /** A computation that makes no call. */
  lemma CutPure<C, T>(callback: Callback<C>, t: Trace<C>, value: Option<T>)
    ensures Cut(callback, t, Run(value, t), Run(value, t))
  {
  }

  /** The first step was cut: so is the whole. */
  lemma CutEarly<C, T, U>(
    callback: Callback<C>, from: Trace<C>, first: Run<C, T>, firstPart: Run<C, T>, full: Run<C, U>, part: Run<C, U>)
    requires Cut(callback, from, first, firstPart) && firstPart.value.None?
    requires part == Run(None, firstPart.trace)
    requires first.trace.calls <= full.trace.calls && full.trace.physical == from.physical
    requires first.value.None? ==> full == Run(None, first.trace)
    ensures Cut(callback, from, full, part)
  {
    if !(Quiet(callback, first.trace.calls, |from.calls|, |first.trace.calls|) && firstPart == first) {
      var n: nat :| CutAt(callback, from, first, firstPart, n);
      assert full.trace.calls[..n] == first.trace.calls[..n];
      forall m | |from.calls| < m <= n - 1 && m <= |full.trace.calls| ensures callback(full.trace.calls[..m]).None? {
        assert full.trace.calls[..m] == first.trace.calls[..m];
      }
      assert CutAt(callback, from, full, part, n);
    }
  }

  /** The first step went through: cutting the second cuts the whole. */
  lemma CutLate<C, T, U>(callback: Callback<C>, from: Trace<C>, first: Run<C, T>, full: Run<C, U>, part: Run<C, U>)
    requires Cut(callback, from, first, first) && first.value.Some?
    requires Cut(callback, first.trace, full, part)
    ensures Cut(callback, from, full, part)
  {
    assert Quiet(callback, first.trace.calls, |from.calls|, |first.trace.calls|);
    forall m | |from.calls| < m <= |first.trace.calls| && m <= |full.trace.calls|
      ensures callback(full.trace.calls[..m]).None?
    {
      assert full.trace.calls[..m] == first.trace.calls[..m];
    }
    if !(Quiet(callback, full.trace.calls, |first.trace.calls|, |full.trace.calls|) && part == full) {
      var n: nat :| CutAt(callback, first.trace, full, part, n);
      assert CutAt(callback, from, full, part, n);
    }
  }

  /** Sequencing: a step, then whatever continues from its trace. */
  lemma CutThen<C, T, U>(
    callback: Callback<C>, from: Trace<C>, first: Run<C, T>, firstPart: Run<C, T>, full: Run<C, U>, rest: Run<C, U>,
    part: Run<C, U>)
    requires Cut(callback, from, first, firstPart)
    requires if first.value.None? then full == Run(None, first.trace) else Cut(callback, first.trace, full, rest)
    requires firstPart.value.None? ==> part == Run(None, firstPart.trace)
    requires firstPart.value.Some? && first.value.Some? ==> part == rest
    ensures Cut(callback, from, full, part)
  {
    if firstPart.value.None? {
      CutEarly(callback, from, first, firstPart, full, part);
    } else {
      CutLate(callback, from, first, full, part);
    }
  }

  /** Using a step's value without another call. */
  lemma CutMap<C, T, U>(
    callback: Callback<C>, from: Trace<C>, first: Run<C, T>, firstPart: Run<C, T>, full: Run<C, U>, part: Run<C, U>)
    requires Cut(callback, from, first, firstPart)
    requires full.trace == first.trace && part.trace == firstPart.trace
    requires (first.value.None? ==> full.value.None?) && (firstPart.value.None? ==> part.value.None?)
    requires first == firstPart ==> full == part
    ensures Cut(callback, from, full, part)
  {
    if !(Quiet(callback, first.trace.calls, |from.calls|, |first.trace.calls|) && firstPart == first) {
      var n: nat :| CutAt(callback, from, first, firstPart, n);
      assert CutAt(callback, from, full, part, n);
    }
  }

  /** A cut run either failed physically or is the full run. */
  lemma CutCases<C, T>(callback: Callback<C>, from: Trace<C>, full: Run<C, T>, part: Run<C, T>)
    requires Cut(callback, from, full, part)
    ensures part.value.Some? ==> part == full
    ensures part.value.None? && full.value.Some? ==> part.trace.physical.Some?
  {
  }

  lemma {:induction false} CutCheckAll<C>(callback: Callback<C>, t: Trace<C>, units: seq<C>)
    ensures Cut(callback, t, CheckAll(Silent(), t, units), CheckAll(callback, t, units))
    decreases units
  {
    if units == [] {
      CutPure(callback, t, Some(()));
    } else {
      CutCheck(callback, t, units[0]);
      var first, firstPart := Check(Silent(), t, units[0]), Check(callback, t, units[0]);
      CutCheckAll(callback, first.trace, units[1..]);
      if firstPart.value.None? {
        CutEarly(callback, t, first, firstPart, CheckAll(Silent(), t, units), CheckAll(callback, t, units));
      } else {
        CutLate(callback, t, first, CheckAll(Silent(), t, units), CheckAll(callback, t, units));
      }
    }
  }

  /** The callback fails for the first time on its `n`-th call of this history. */
  ghost predicate FirstFailure<C>(callback: Callback<C>, calls: seq<C>, n: nat) {
    0 < n <= |calls| && callback(calls[..n]).Some? && forall m :: 0 < m < n ==> callback(calls[..m]).None?
  }

  /** The caller's view of a cut run: the plain outcome if the callback never
      fails, otherwise exactly its first error, with no later call. */
  lemma CutOutcome<C, T>(callback: Callback<C>, full: Run<C, T>, part: Run<C, T>)
    requires Cut(callback, Trace([], None), full, part)
    ensures (forall n :: 0 < n <= |full.trace.calls| ==> callback(full.trace.calls[..n]).None?) ==>
      WithCheckpoint(part) == WithCheckpoint(full) && part.trace.calls == full.trace.calls
    ensures forall n: nat :: FirstFailure(callback, full.trace.calls, n) ==>
      && WithCheckpoint(part) == Physical(callback(full.trace.calls[..n]).value)
      && part.trace.calls == full.trace.calls[..n]
  {
  }
}
