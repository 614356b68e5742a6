/** Laws of composed queries that fix what each construct means: NEXT is sequential
    composition over the scope its last operand returns, UNION compares columns,
    conditionals compare branches, and CALL bodies differ by what they import only. */
module ComposeLaws {
  import opened Wrappers
  import opened Compose

  // ---- what NEXT hands on ---------------------------------------------------------------------

  /** What counts is whether the last operand returns columns. */
  lemma {:induction false} HandedLast(a: Leaves, operands: seq<Query>, q: Query, output: Scope)
    ensures Handed(a, operands + [q], output) == if Returns(a, q) then output else map[]
  {
    hide Returns;
    assert (operands + [q])[|operands|] == q;
  }

  lemma {:induction false} HandedSingle(a: Leaves, operands: seq<Query>, id: nat, output: Scope)
    ensures Handed(a, operands + [Single(id)], output) == if a.concludes(id) then output else map[]
  {
    HandedLast(a, operands, Single(id), output);
  }

  /** Braces, and whatever comes before the last operand of a chain, make no difference. */
  lemma {:induction false} HandedNested(
    a: Leaves, operands: seq<Query>, children: seq<Query>, q: Query, connector: Connector, output: Scope)
    ensures Handed(a, operands + [Braced(q)], output) == Handed(a, [q], output)
    ensures !q.Link? ==> Handed(a, operands + [Composed(children + [q])], output) == Handed(a, [q], output)
    ensures Handed(a, operands + [Composed(children + [Link(connector)])], output) ==
      Handed(a, operands + [Composed(children)], output)
    ensures Handed(a, operands + [Composed([])], output) == map[]
  {
    hide Handed, LastReturns;
    LastDecides(a, children, q);
    LastDecides(a, children, Link(connector));
    NothingReturns(a);
    assert [] + [q] == [q];
    HandedLast(a, [], q, output);
    HandedLast(a, operands, Braced(q), output);
    HandedLast(a, operands, Composed(children + [q]), output);
    HandedLast(a, operands, Composed(children + [Link(connector)]), output);
    HandedLast(a, operands, Composed(children), output);
    HandedLast(a, operands, Composed([]), output);
  }

  lemma {:induction false} NothingReturns(a: Leaves)
    ensures !LastReturns(a, [])
  {
  }

  lemma {:induction false} LastDecides(a: Leaves, children: seq<Query>, q: Query)
    ensures LastReturns(a, children + [q]) <==> if q.Link? then LastReturns(a, children) else Returns(a, q)
  {
    var all := children + [q];
    assert all[|all| - 1] == q && all[..|all| - 1] == children;
  }

  /** A conditional hands its scope on when every branch would. */
  lemma {:induction false} HandedConditional(a: Leaves, operands: seq<Query>, branches: seq<Query>, output: Scope)
    requires output != map[]
    ensures Handed(a, operands + [Conditional(branches)], output) == output <==>
      branches != [] && forall b :: b in branches ==> Handed(a, [b], output) == output
    ensures forall condition, q ::
      Handed(a, operands + [Branch(condition, q)], output) == Handed(a, [q], output)
  {
    assert (operands + [Conditional(branches)])[|operands|] == Conditional(branches);
    assert forall condition, q :: (operands + [Branch(condition, q)])[|operands|] == Branch(condition, q);
  }

  // ---- splitting at NEXT -------------------------------------------------------------------------

  function OperandsOf(children: seq<Query>): seq<Query> {
    if children == [] then []
    else (if children[0].Link? then [] else [children[0]]) + OperandsOf(children[1..])
  }

  function ConnectorsOf(children: seq<Query>): seq<Connector> {
    if children == [] then []
    else (if children[0].Link? then [children[0].connector] else []) + ConnectorsOf(children[1..])
  }

  /** The first element of a chain changes the first segment only, or opens one. */
  ghost predicate GrowsBy(all: seq<Segment>, rest: seq<Segment>, q: Query)
    requires rest != []
  {
    if q == Link(Next) then all == [Segment([], [])] + rest
    else
      && |all| == |rest| && all[1..] == rest[1..]
      && all[0].operands == (if q.Link? then [] else [q]) + rest[0].operands
      && all[0].unions == (if q.Link? then [q.connector] else []) + rest[0].unions
  }

  lemma {:induction false} SplitGrows(children: seq<Query>)
    requires children != []
    ensures GrowsBy(Split(children), Split(children[1..]), children[0])
  {
    hide Split;
    SplitStep(children);
  }

  lemma {:induction false} SplitWithoutNext(children: seq<Query>)
    requires Link(Next) !in children
    ensures Split(children) == [Segment(OperandsOf(children), ConnectorsOf(children))]
  {
    if children != [] {
      assert children == [children[0]] + children[1..];
      SplitWithoutNext(children[1..]);
      SplitGrows(children);
      assert children[0] in children;
      var s := Split(children);
      hide Split;
      assert s == [s[0]] + s[1..];
    }
  }

  lemma {:induction false} SplitAtNext(before: seq<Query>, after: seq<Query>)
    ensures Split(before + [Link(Next)] + after) == Split(before) + Split(after)
  {
    var all := before + [Link(Next)] + after;
    SplitGrows(all);
    var s, u := Split(all), Split(after);
    if before == [] {
      assert all[1..] == after && all[0] == Link(Next);
    } else {
      assert all[1..] == before[1..] + [Link(Next)] + after && all[0] == before[0];
      SplitAtNext(before[1..], after);
      SplitGrows(before);
      var t, v := Split(before), Split(before[1..]);
      hide Split;
      assert Split(all[1..]) == v + u;
      Prepended(s, t, v, u, before[0]);
    }
  }

  lemma {:induction false} Prepended(s: seq<Segment>, t: seq<Segment>, v: seq<Segment>, u: seq<Segment>, q: Query)
    requires v != [] && u != [] && GrowsBy(s, v + u, q) && GrowsBy(t, v, q)
    ensures s == t + u
  {
    TailOf(v, u);
    if q == Link(Next) {
      Regrouped([Segment([], [])], v, u);
    } else {
      Rejoined(s, t, u);
    }
  }

  lemma Regrouped<T>(head: seq<T>, v: seq<T>, u: seq<T>)
    ensures head + (v + u) == (head + v) + u
  {
  }

  lemma TailOf<T>(v: seq<T>, u: seq<T>)
    requires v != []
    ensures (v + u)[0] == v[0] && (v + u)[1..] == v[1..] + u
  {
  }

  lemma Rejoined<T>(s: seq<T>, t: seq<T>, u: seq<T>)
    requires s != [] && t != [] && s[0] == t[0] && s[1..] == t[1..] + u
    ensures s == t + u
  {
    assert s == [s[0]] + s[1..] && t == [t[0]] + t[1..];
  }

  // ---- NEXT is sequential composition ----------------------------------------------------------------

  /** What follows a NEXT, given the operands of the segment it closes and its outcome. */
  function Then(a: Leaves, operands: seq<Query>, output: Outcome, rest: seq<Query>): Outcome {
    if output.Err? then output else
    var unaliased := FirstUnaliased(a, AllTerminals(operands));
    if unaliased.Some? then Err(unaliased.value)
    else Meaning(a, Composed(rest), Handed(a, operands, output.value))
  }

  function LastOperands(children: seq<Query>): seq<Query> {
    var segments := Split(children); segments[|segments| - 1].operands
  }

  lemma {:induction false} FoldAppend(a: Leaves, s: seq<Segment>, t: seq<Segment>, input: Scope)
    requires s != [] && t != []
    ensures Fold(a, s + t, input) ==
      var output := Fold(a, s, input);
      if output.Err? then output else
      var operands := s[|s| - 1].operands;
      var unaliased := FirstUnaliased(a, AllTerminals(operands));
      if unaliased.Some? then Err(unaliased.value) else Fold(a, t, Handed(a, operands, output.value))
    decreases |s|
  {
    hide Fold, Outcomes, Agree, FirstUnaliased, AllTerminals, Handed;
    var output, rest := Agree(Outcomes(a, s[0].operands, input)), s[1..];
    FoldStep(a, s, input);
    FoldStep(a, s + t, input);
    AppendTail(s, t);
    if rest != [] && output.Ok? && FirstUnaliased(a, AllTerminals(s[0].operands)).None? {
      FoldAppend(a, rest, t, Handed(a, s[0].operands, output.value));
      assert rest[|rest| - 1] == s[|s| - 1];
    }
  }

  lemma AppendTail(s: seq<Segment>, t: seq<Segment>)
    requires s != []
    ensures (s + t)[0] == s[0] && (s + t)[1..] == s[1..] + t && (|s| == 1 ==> s[1..] + t == t)
  {
  }

  lemma {:induction false} FoldStep(a: Leaves, s: seq<Segment>, input: Scope)
    requires s != []
    ensures Fold(a, s, input) ==
      var output := Agree(Outcomes(a, s[0].operands, input));
      if output.Err? || |s| == 1 then output else
      var unaliased := FirstUnaliased(a, AllTerminals(s[0].operands));
      if unaliased.Some? then Err(unaliased.value) else Fold(a, s[1..], Handed(a, s[0].operands, output.value))
  {
    hide Outcomes, Agree, FirstUnaliased, AllTerminals, Handed;
  }

  lemma {:induction false} UniformAppend(s: seq<Segment>, t: seq<Segment>)
    ensures AllUniform(s + t) <==> AllUniform(s) && AllUniform(t)
  {
    hide Uniform;
    assert forall x :: x in s + t <==> x in s || x in t;
  }

  /** A chain up to a NEXT, then the chain after it under what the NEXT hands on.  Mixed
      UNIONs anywhere are reported first. */
  lemma {:induction false} NextIsSequential(a: Leaves, before: seq<Query>, after: seq<Query>, input: Scope)
    ensures Meaning(a, Composed(before + [Link(Next)] + after), input) ==
      if !AllUniform(Split(before)) || !AllUniform(Split(after)) then Err(MixedUnions)
      else Then(a, LastOperands(before), Meaning(a, Composed(before), input), after)
  {
    hide Split, Fold, FirstUnaliased, AllTerminals, Handed, AllUniform;
    SplitAtNext(before, after);
    UniformAppend(Split(before), Split(after));
    if AllUniform(Split(before)) && AllUniform(Split(after)) {
      FoldAppend(a, Split(before), Split(after), input);
    }
  }

  /** A chain without NEXT: every operand under the same scope, all with the columns of
      the first, and the scope of the last. */
  lemma {:induction false} UnionIsAgreement(a: Leaves, children: seq<Query>, input: Scope)
    requires Link(Next) !in children
    ensures Meaning(a, Composed(children), input) ==
      if !Uniform(ConnectorsOf(children)) then Err(MixedUnions)
      else Agree(Outcomes(a, OperandsOf(children), input))
  {
    hide Outcomes, Agree, Split, Uniform;
    SplitWithoutNext(children);
    var segments := Split(children);
    assert segments[0] in segments;
    assert AllUniform(segments) <==> Uniform(segments[0].unions);
    assert Continue(a, segments, segments[0].operands, Agree(Outcomes(a, segments[0].operands, input)))
      == Agree(Outcomes(a, segments[0].operands, input));
    assert Fold(a, segments, input) == Agree(Outcomes(a, segments[0].operands, input));
  }

  /** The first operand that fails, or has other columns than the first, decides. */
  lemma {:induction false} AgreeError(outcomes: seq<Outcome>) returns (i: nat)
    requires Agree(outcomes).Err?
    ensures i < |outcomes|
    ensures forall k :: 0 <= k < i ==>
      outcomes[k].Ok? && outcomes[0].Ok? && outcomes[k].value.Keys == outcomes[0].value.Keys
    ensures outcomes[i].Err? ==> Agree(outcomes) == outcomes[i]
    ensures outcomes[i].Ok? ==>
      && i > 0 && outcomes[0].Ok? && outcomes[i].value.Keys != outcomes[0].value.Keys
      && Agree(outcomes) == Err(ColumnsDiffer)
  {
    if outcomes[0].Err? { return 0; }
    var j := OthersError(outcomes[1..], outcomes[0].value.Keys, outcomes[0].value);
    i := j + 1;
  }

  lemma {:induction false} OthersError(outcomes: seq<Outcome>, columns: set<string>, last: Scope) returns (i: nat)
    requires Others(outcomes, columns, last).Err?
    ensures i < |outcomes|
    ensures forall k :: 0 <= k < i ==> outcomes[k].Ok? && outcomes[k].value.Keys == columns
    ensures outcomes[i].Err? ==> Others(outcomes, columns, last) == outcomes[i]
    ensures outcomes[i].Ok? ==>
      outcomes[i].value.Keys != columns && Others(outcomes, columns, last) == Err(ColumnsDiffer)
  {
    if outcomes[0].Err? || outcomes[0].value.Keys != columns { return 0; }
    var j := OthersError(outcomes[1..], columns, outcomes[0].value);
    i := j + 1;
  }

  /** Two queries chained by one connector, in terms of their own outcomes. */
  lemma {:induction false} PairMeaning(a: Leaves, p: nat, q: nat, connector: Connector, input: Scope)
    ensures var first := a.single(p, input);
      Meaning(a, Composed([Single(p), Link(connector), Single(q)]), input) ==
      if first.Err? then first
      else if connector == Next then
        if a.unaliased(p).Some? then Err(a.unaliased(p).value)
        else a.single(q, if a.concludes(p) then first.value else map[])
      else
        var second := a.single(q, input);
        if second.Err? then second
        else if second.value.Keys != first.value.Keys then Err(ColumnsDiffer) else second
  {
    if connector == Next {
      NextPair(a, p, q, input);
    } else {
      UnionPair(a, p, q, connector, input);
    }
  }

  lemma {:induction false} NextPair(a: Leaves, p: nat, q: nat, input: Scope)
    ensures var first := a.single(p, input);
      Meaning(a, Composed([Single(p), Link(Next), Single(q)]), input) ==
      if first.Err? then first
      else if a.unaliased(p).Some? then Err(a.unaliased(p).value)
      else a.single(q, if a.concludes(p) then first.value else map[])
  {
    assert [Single(p), Link(Next), Single(q)] == [Single(p)] + [Link(Next)] + [Single(q)];
    NextIsSequential(a, [Single(p)], [Single(q)], input);
    SingleSegment(p);
    SingleSegment(q);
    ChainOfOne(a, p, input);
    hide Split;
    assert AllTerminals([Single(p)]) == [p] by { assert [Single(p)][1..] == []; }
    assert FirstUnaliased(a, [p]) == a.unaliased(p) by { assert [p][1..] == []; }
    if a.single(p, input).Ok? {
      var output := a.single(p, input).value;
      assert [] + [Single(p)] == [Single(p)];
      HandedSingle(a, [], p, output);
      ChainOfOne(a, q, Handed(a, [Single(p)], output));
    }
  }

  lemma {:induction false} SingleSegment(id: nat)
    ensures Split([Single(id)]) == [Segment([Single(id)], [])] && AllUniform(Split([Single(id)]))
  {
    SplitWithoutNext([Single(id)]);
    OneOperand(Single(id));
  }

  lemma {:induction false} UnionPair(a: Leaves, p: nat, q: nat, connector: Connector, input: Scope)
    requires connector != Next
    ensures Meaning(a, Composed([Single(p), Link(connector), Single(q)]), input) ==
      Agree([a.single(p, input), a.single(q, input)])
    ensures var first, second := a.single(p, input), a.single(q, input);
      Agree([first, second]) ==
      if first.Err? then first
      else if second.Err? then second
      else if second.value.Keys != first.value.Keys then Err(ColumnsDiffer) else second
  {
    UnionIsAgreement(a, [Single(p), Link(connector), Single(q)], input);
    TwoOperands(p, q, connector);
    var outcomes := Outcomes(a, [Single(p), Single(q)], input);
    assert [Single(p), Single(q)][1..] == [Single(q)] && [Single(q)][1..] == [];
    assert Outcomes(a, [Single(q)], input) == [a.single(q, input)];
    assert outcomes == [a.single(p, input), a.single(q, input)];
    AgreePair(a.single(p, input), a.single(q, input));
  }

  lemma {:induction false} AgreePair(first: Outcome, second: Outcome)
    ensures Agree([first, second]) ==
      if first.Err? then first
      else if second.Err? then second
      else if second.value.Keys != first.value.Keys then Err(ColumnsDiffer) else second
  {
    assert [first, second][1..] == [second];
    if first.Ok? && second.Ok? && second.value.Keys == first.value.Keys {
      assert [second][1..] == [];
      assert Others([second], first.value.Keys, first.value) == Others([], first.value.Keys, second.value);
    }
  }

  lemma {:induction false} OneOperand(q: Query)
    requires !q.Link?
    ensures OperandsOf([q]) == [q] && ConnectorsOf([q]) == []
  {
    assert [q][1..] == [];
  }

  lemma {:induction false} TwoOperands(p: nat, q: nat, connector: Connector)
    ensures var children := [Single(p), Link(connector), Single(q)];
      OperandsOf(children) == [Single(p), Single(q)] && ConnectorsOf(children) == [connector]
  {
    var children := [Single(p), Link(connector), Single(q)];
    OneOperand(Single(q));
    assert children[1..] == [Link(connector), Single(q)] && children[1..][1..] == [Single(q)];
  }

  lemma {:induction false} ChainOfOne(a: Leaves, id: nat, input: Scope)
    ensures Meaning(a, Composed([Single(id)]), input) == a.single(id, input)
  {
    UnionIsAgreement(a, [Single(id)], input);
    OneOperand(Single(id));
    assert [Single(id)][1..] == [];
    assert Outcomes(a, [Single(id)], input) == [a.single(id, input)];
    var outcomes := Outcomes(a, [Single(id)], input);
    assert outcomes[1..] == [];
  }

  // ---- conditionals ---------------------------------------------------------------------------------

  /** A conditional is accepted exactly when every condition and every branch is, under
      the scope it was given, with the columns of the first branch, whose scope it
      exposes. */
  lemma {:induction false} ConditionalIff(a: Leaves, branches: seq<Query>, input: Scope)
    requires branches != [] && forall b :: b in branches ==> b.Branch?
    ensures Meaning(a, Conditional(branches), input).Ok? <==>
      forall i :: 0 <= i < |branches| ==>
        && (branches[i].condition.Some? ==> a.condition(branches[i].condition.value, input).None?)
        && Meaning(a, branches[i].query, input).Ok? && Meaning(a, branches[0].query, input).Ok?
        && Meaning(a, branches[i].query, input).value.Keys == Meaning(a, branches[0].query, input).value.Keys
    ensures Meaning(a, Conditional(branches), input).Ok? ==>
      Meaning(a, Conditional(branches), input) == Meaning(a, branches[0].query, input)
  {
    var outcomes := BranchOutcomes(a, branches, input);
    forall i | 0 <= i < |branches|
      ensures outcomes[i] == BranchOutcome(a, branches[i], input) && branches[i].Branch?
    {
      BranchOutcomeAt(a, branches, input, i);
      assert branches[i] in branches;
    }
    hide BranchOutcomes;
    ErrorIff(outcomes);
    assert Meaning(a, Conditional(branches), input) == Choose(outcomes, input);
    if FirstError(outcomes).None? {
      assert outcomes[0] in outcomes;
      assert forall i :: 0 <= i < |outcomes| ==> outcomes[i] in outcomes;
    }
  }

  lemma {:induction false} ErrorIff(outcomes: seq<Outcome>)
    ensures FirstError(outcomes).None? <==> forall i :: 0 <= i < |outcomes| ==> outcomes[i].Ok?
  {
    if outcomes != [] {
      ErrorIff(outcomes[1..]);
      assert forall i :: 0 < i < |outcomes| ==> outcomes[i] == outcomes[1..][i - 1];
    }
  }

  lemma {:induction false} FirstErrorIsFirst(outcomes: seq<Outcome>) returns (i: nat)
    requires FirstError(outcomes).Some?
    ensures i < |outcomes| && outcomes[i] == Err(FirstError(outcomes).value)
    ensures forall k :: 0 <= k < i ==> outcomes[k].Ok?
  {
    if outcomes[0].Err? { return 0; }
    var j := FirstErrorIsFirst(outcomes[1..]);
    i := j + 1;
  }

  // ---- exposed queries --------------------------------------------------------------------------------

  /** The single query contributes to what the query exposes. */
  ghost predicate Exposes(q: Query, id: nat)
    decreases q, 1
  {
    match q
    case Single(other) => other == id
    case Braced(body) => Exposes(body, id)
    case Branch(_, query) => Exposes(query, id)
    case Composed(children) => ChainExposes(children, id)
    case Conditional(branches) => exists i :: 0 <= i < |branches| && Exposes(branches[i], id)
    case Link(_) => false
  }

  ghost predicate ChainExposes(children: seq<Query>, id: nat)
    decreases children, 0
  {
    exists i :: 0 <= i < |children| && Exposes(children[i], id)
      && forall j :: i < j < |children| ==> children[j] != Link(Next)
  }

  lemma {:induction false} TerminalsIff(q: Query, id: nat)
    ensures id in Terminals(q) <==> Exposes(q, id)
    decreases q, 1
  {
    match q
    case Braced(body) => TerminalsIff(body, id);
    case Branch(_, query) => TerminalsIff(query, id);
    case Composed(children) => ChainTerminalsIff(children, id);
    case Conditional(branches) => AllTerminalsIff(branches, id);
    case _ =>
  }

  lemma {:induction false} ChainTerminalsIff(children: seq<Query>, id: nat)
    ensures id in TerminalsBack(children) <==> ChainExposes(children, id)
    decreases children, 0
  {
    hide Terminals, Exposes;
    if children != [] {
      var last, before := children[|children| - 1], children[..|children| - 1];
      TerminalsIff(last, id);
      ChainTerminalsIff(before, id);
      assert children[|children| - 1] == last;
      LinksExposeNothing(Next, id);
      hide ChainExposes, TerminalsBack;
      LastExposes(children, id);
      assert TerminalsBack(children) == if last == Link(Next) then [] else Terminals(last) + TerminalsBack(before) by {
        BackStep(children);
      }
    }
  }

  lemma {:induction false} BackStep(children: seq<Query>)
    requires children != []
    ensures var last, before := children[|children| - 1], children[..|children| - 1];
      TerminalsBack(children) == if last == Link(Next) then [] else Terminals(last) + TerminalsBack(before)
  {
    hide Terminals;
  }

  /** What a chain exposes, from its last element back. */
  lemma {:induction false} LastExposes(children: seq<Query>, id: nat)
    requires children != []
    ensures var last, before := children[|children| - 1], children[..|children| - 1];
      ChainExposes(children, id) <==> Exposes(last, id) || (last != Link(Next) && ChainExposes(before, id))
  {
    hide Exposes;
    var last, before := children[|children| - 1], children[..|children| - 1];
    LinksExposeNothing(Next, id);
    if ChainExposes(children, id) {
      var i :| 0 <= i < |children| && Exposes(children[i], id)
        && forall j :: i < j < |children| ==> children[j] != Link(Next);
      if i < |before| {
        assert before[i] == children[i] && last == children[|before|];
        assert forall j :: i < j < |before| ==> before[j] == children[j];
      }
    }
    if last != Link(Next) && ChainExposes(before, id) {
      var i :| 0 <= i < |before| && Exposes(before[i], id)
        && forall j :: i < j < |before| ==> before[j] != Link(Next);
      assert children[i] == before[i];
    }
  }

  lemma {:induction false} LinksExposeNothing(connector: Connector, id: nat)
    ensures !Exposes(Link(connector), id)
  {
  }

  lemma {:induction false} AllTerminalsIff(qs: seq<Query>, id: nat)
    ensures id in AllTerminals(qs) <==> exists i :: 0 <= i < |qs| && Exposes(qs[i], id)
    decreases qs, 0
  {
    hide Terminals, Exposes;
    if qs != [] {
      TerminalsIff(qs[0], id);
      AllTerminalsIff(qs[1..], id);
      if exists i :: 0 <= i < |qs| && Exposes(qs[i], id) {
        var i :| 0 <= i < |qs| && Exposes(qs[i], id);
        assert i > 0 ==> qs[i] == qs[1..][i - 1];
      }
      if exists i :: 0 <= i < |qs[1..]| && Exposes(qs[1..][i], id) {
        var i :| 0 <= i < |qs[1..]| && Exposes(qs[1..][i], id);
        assert qs[i + 1] == qs[1..][i];
      }
    }
  }

  /** A NEXT is refused exactly when a query it exposes has an unaliased projection. */
  lemma {:induction false} UnaliasedIff(a: Leaves, operands: seq<Query>)
    ensures FirstUnaliased(a, AllTerminals(operands)).None? <==>
      forall i, id :: 0 <= i < |operands| && Exposes(operands[i], id) ==> a.unaliased(id).None?
  {
    hide Exposes, Terminals;
    NoneUnaliased(a, AllTerminals(operands));
    forall id ensures id in AllTerminals(operands) <==> exists i :: 0 <= i < |operands| && Exposes(operands[i], id) {
      AllTerminalsIff(operands, id);
    }
  }

  lemma {:induction false} NoneUnaliased(a: Leaves, ids: seq<nat>)
    ensures FirstUnaliased(a, ids).None? <==> forall id :: id in ids ==> a.unaliased(id).None?
  {
    if ids != [] {
      NoneUnaliased(a, ids[1..]);
      assert ids == [ids[0]] + ids[1..];
    }
  }

  // ---- CALL bodies ------------------------------------------------------------------------------------

  /** A chain in a CALL body: the part before the first NEXT may import; what follows is
      analysed as anywhere else, and refused in the end if anything was imported. */
  lemma {:induction false} CallNext(a: Leaves, before: seq<Query>, after: seq<Query>, outer: Scope)
    requires Link(Next) !in before
    ensures CallMeaning(a, Composed(before + [Link(Next)] + after), outer) ==
      if !Uniform(ConnectorsOf(before)) || !AllUniform(Split(after)) then Err(MixedUnions) else
      var first := CallMeaning(a, Composed(before), outer);
      if first.Err? then first else
      var rest := Then(a, OperandsOf(before), Ok(first.value.1), after);
      if rest.Err? then Err(rest.error)
      else if first.value.0 then Err(NextAfterImport) else Ok((false, rest.value))
  {
    hide FirstUnaliased, AllTerminals, Handed, CallOutcomes, Agree, Uniform, Outcomes;
    SplitWithoutNext(before);
    SplitAtNext(before, after);
    var s, t := Split(before), Split(after);
    hide Split;
    UniformAppend(s, t);
    assert s[0] in s;
    assert (s + t)[0] == s[0] && (s + t)[1..] == t;
  }

  /** Every single query offered the outer variables imports exactly these. */
  predicate ImportsOnly(a: Leaves, q: Query, outer: Scope, imported: Scope)
    decreases Size(q), 0
  {
    match q
    case Single(id) => a.importing(id, outer) == Ok(Some(imported))
    case Braced(body) => ImportsOnly(a, body, outer, imported)
    case Composed(children) =>
      Link(Next) !in children && Split(children)[0].operands != []
      && AllImportOnly(a, Split(children)[0].operands, outer, imported)
    case _ => false
  }

  predicate AllImportOnly(a: Leaves, qs: seq<Query>, outer: Scope, imported: Scope)
    decreases QueriesSize(qs), 1
  {
    qs == [] || (ImportsOnly(a, qs[0], outer, imported) && AllImportOnly(a, qs[1..], outer, imported))
  }

  /** Then a body without NEXT means what the query means under what it imported. */
  lemma {:induction false} CallImports(a: Leaves, q: Query, outer: Scope, imported: Scope)
    requires ImportsOnly(a, q, outer, imported)
    ensures CallMeaning(a, q, outer) == Used(true, Meaning(a, q, imported))
    decreases Size(q), 0
  {
    match q
    case Braced(body) => CallImports(a, body, outer, imported);
    case Composed(children) =>
      hide Split, Agree, AllUniform, CallOutcomes, Outcomes, AnyUsed;
      var operands := Split(children)[0].operands;
      NextInSplit(children);
      CallsImport(a, operands, outer, imported);
      var outcomes := Outcomes(a, operands, imported);
      if AllUniform(Split(children)) && Agree(outcomes).Ok? {
        SomeUsed(a, operands, outer, imported);
      }
    case _ =>
  }

  lemma {:induction false} CallsImport(a: Leaves, qs: seq<Query>, outer: Scope, imported: Scope)
    requires AllImportOnly(a, qs, outer, imported)
    ensures Scopes(CallOutcomes(a, qs, outer)) == Outcomes(a, qs, imported)
    decreases QueriesSize(qs), 1
  {
    if qs != [] {
      hide CallMeaning, Meaning;
      CallImports(a, qs[0], outer, imported);
      CallsImport(a, qs[1..], outer, imported);
      assert CallOutcomes(a, qs, outer)[1..] == CallOutcomes(a, qs[1..], outer);
    }
  }

  lemma {:induction false} SomeUsed(a: Leaves, qs: seq<Query>, outer: Scope, imported: Scope)
    requires qs != [] && AllImportOnly(a, qs, outer, imported) && Agree(Outcomes(a, qs, imported)).Ok?
    ensures AnyUsed(CallOutcomes(a, qs, outer))
    decreases QueriesSize(qs), 2
  {
    hide CallMeaning, Meaning;
    CallImports(a, qs[0], outer, imported);
    var outcomes := Outcomes(a, qs, imported);
    AgreeIff(outcomes);
    assert outcomes[0] in outcomes;
  }
}
