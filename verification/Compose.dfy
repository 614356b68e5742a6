/** Scoping of composed queries: UNION and NEXT chains, conditional branches, and the
    variant used inside CALL subqueries, where operands may import outer variables. */
module Compose {
  import opened Wrappers

  type Scope = map<string, nat>

  datatype Connector = Union | UnionAll | UnionDistinct | Next

  /** A node of the syntax tree.  A WHEN branch has a condition, an ELSE branch has none. */
  datatype Query =
    | Single(id: nat)
    | Braced(body: Query)
    | Composed(children: seq<Query>)
    | Conditional(branches: seq<Query>)
    | Link(connector: Connector)
    | Branch(condition: Option<nat>, query: Query)

  datatype Error = MixedUnions | ColumnsDiffer | BranchColumnsDiffer | NextAfterImport | InvalidBody | Inner(code: nat)

  type Outcome = Result<Scope, Error>
  type CallOutcome = Result<(bool, Scope), Error>

  /** The analysis of single queries and conditions, which this model takes as given. */
  datatype Leaves = Leaves(
    single: (nat, Scope) -> Outcome,
    importing: (nat, Scope) -> Result<Option<Scope>, Error>,
    concludes: nat -> bool,
    condition: (nat, Scope) -> Option<Error>,
    unaliased: nat -> Option<Error>)

  // ---- shape ----------------------------------------------------------------------------

  function Size(q: Query): nat
    decreases q, 1
  {
    match q
    case Single(_) => 1
    case Link(_) => 1
    case Braced(body) => 1 + Size(body)
    case Branch(_, query) => 1 + Size(query)
    case Composed(children) => 1 + QueriesSize(children)
    case Conditional(branches) => 1 + QueriesSize(branches)
  }

  function QueriesSize(qs: seq<Query>): nat
    decreases qs, 0
  {
    if qs == [] then 0 else Size(qs[0]) + QueriesSize(qs[1..])
  }

  predicate IsOperand(q: Query) {
    q.Single? || q.Braced?
  }

  /** Operands and connectors alternate, an operand first and last. */
  predicate Alternates(children: seq<Query>) {
    && |children| % 2 == 1
    && forall i :: 0 <= i < |children| ==> if i % 2 == 0 then IsOperand(children[i]) else children[i].Link?
  }

  /** The grammar's queries, at every depth. */
  predicate Grammatical(q: Query) {
    match q
    case Single(_) => true
    case Link(_) => true
    case Braced(body) => Grammatical(body)
    case Branch(_, query) => Grammatical(query)
    case Composed(children) => Alternates(children) && forall c :: c in children ==> Grammatical(c)
    case Conditional(branches) => forall b :: b in branches ==> b.Branch? && Grammatical(b)
  }

  // ---- the declarative reading ------------------------------------------------------------

  /** A maximal run of operands joined by UNIONs. */
  datatype Segment = Segment(operands: seq<Query>, unions: seq<Connector>)

  function SegmentsSize(segments: seq<Segment>): nat {
    if segments == [] then 0 else QueriesSize(segments[0].operands) + SegmentsSize(segments[1..])
  }

  /** Splitting at every NEXT. */
  function Split(children: seq<Query>): (segments: seq<Segment>)
    ensures segments != [] && SegmentsSize(segments) <= QueriesSize(children)
  {
    if children == [] then [Segment([], [])] else
    var rest := Split(children[1..]);
    match children[0]
    case Link(Next) => [Segment([], [])] + rest
    case Link(union) => [rest[0].(unions := [union] + rest[0].unions)] + rest[1..]
    case q =>
      assert ([q] + rest[0].operands)[1..] == rest[0].operands;
      [rest[0].(operands := [q] + rest[0].operands)] + rest[1..]
  }

  predicate Uniform(unions: seq<Connector>) {
    forall i, j :: 0 <= i < |unions| && 0 <= j < |unions| ==> (unions[i] == UnionAll <==> unions[j] == UnionAll)
  }

  predicate AllUniform(segments: seq<Segment>) {
    forall s :: s in segments ==> Uniform(s.unions)
  }

  /** What the outcomes of a segment's operands give: the first error or mismatch,
      else the last outcome. */
  function Agree(outcomes: seq<Outcome>): Outcome {
    if outcomes == [] then Ok(map[])
    else if outcomes[0].Err? then outcomes[0]
    else Others(outcomes[1..], outcomes[0].value.Keys, outcomes[0].value)
  }

  function Others(outcomes: seq<Outcome>, columns: set<string>, last: Scope): Outcome {
    if outcomes == [] then Ok(last)
    else if outcomes[0].Err? then outcomes[0]
    else if outcomes[0].value.Keys != columns then Err(ColumnsDiffer)
    else Others(outcomes[1..], columns, outcomes[0].value)
  }

  /** A segment is accepted exactly when every operand is and all expose the same
      columns; it then exposes the last operand's scope. */
  lemma AgreeIff(outcomes: seq<Outcome>)
    requires outcomes != []
    ensures Agree(outcomes).Ok? <==>
      (forall o :: o in outcomes ==> o.Ok? && outcomes[0].Ok? && o.value.Keys == outcomes[0].value.Keys)
    ensures Agree(outcomes).Ok? ==> Agree(outcomes) == outcomes[|outcomes| - 1]
  {
    if outcomes[0].Ok? {
      OthersIff(outcomes[1..], outcomes[0].value.Keys, outcomes[0].value);
      assert outcomes == [outcomes[0]] + outcomes[1..];
    } else {
      assert outcomes[0] in outcomes;
    }
  }

  lemma {:induction false} OthersIff(outcomes: seq<Outcome>, columns: set<string>, last: Scope)
    ensures Others(outcomes, columns, last).Ok? <==> (forall o :: o in outcomes ==> o.Ok? && o.value.Keys == columns)
    ensures Others(outcomes, columns, last).Ok? ==>
      Others(outcomes, columns, last) == if outcomes == [] then Ok(last) else outcomes[|outcomes| - 1]
  {
    if outcomes != [] {
      var head := outcomes[0];
      assert outcomes == [head] + outcomes[1..];
      if head.Ok? && head.value.Keys == columns {
        OthersIff(outcomes[1..], columns, head.value);
      } else {
        assert head in outcomes;
      }
    }
  }

  /** Whether a query ends in a clause that returns columns. */
  predicate Returns(a: Leaves, q: Query)
    decreases q, 1
  {
    match q
    case Single(id) => a.concludes(id)
    case Braced(body) => Returns(a, body)
    case Branch(_, query) => Returns(a, query)
    case Composed(children) => LastReturns(a, children)
    case Conditional(branches) => branches != [] && forall b :: b in branches ==> Returns(a, b)
    case Link(_) => false
  }

  predicate LastReturns(a: Leaves, children: seq<Query>)
    decreases children, 0
  {
    children != [] &&
    var last := children[|children| - 1];
    if last.Link? then LastReturns(a, children[..|children| - 1]) else Returns(a, last)
  }

  /** The scope handed on over a NEXT. */
  function Handed(a: Leaves, operands: seq<Query>, output: Scope): Scope {
    if operands != [] && Returns(a, operands[|operands| - 1]) then output else map[]
  }

  /** The single queries whose result a query exposes, in visiting order: the last
      segment from its last operand back, every conditional branch. */
  function Terminals(q: Query): seq<nat>
    decreases q, 1
  {
    match q
    case Single(id) => [id]
    case Braced(body) => Terminals(body)
    case Branch(_, query) => Terminals(query)
    case Composed(children) => TerminalsBack(children)
    case Conditional(branches) => AllTerminals(branches)
    case Link(_) => []
  }

  function TerminalsBack(children: seq<Query>): seq<nat>
    decreases children, 0
  {
    if children == [] then [] else
    var last, before := children[|children| - 1], children[..|children| - 1];
    if last == Link(Next) then [] else Terminals(last) + TerminalsBack(before)
  }

  function AllTerminals(qs: seq<Query>): seq<nat>
    decreases qs, 0
  {
    if qs == [] then [] else Terminals(qs[0]) + AllTerminals(qs[1..])
  }

  function FirstUnaliased(a: Leaves, ids: seq<nat>): Option<Error> {
    if ids == [] then None
    else if a.unaliased(ids[0]).Some? then a.unaliased(ids[0]) else FirstUnaliased(a, ids[1..])
  }

  function FirstError(outcomes: seq<Outcome>): Option<Error> {
    if outcomes == [] then None
    else if outcomes[0].Err? then Some(outcomes[0].error) else FirstError(outcomes[1..])
  }

  function Meaning(a: Leaves, q: Query, input: Scope): Outcome
    decreases Size(q), 0, 0
  {
    match q
    case Single(id) => a.single(id, input)
    case Braced(body) => Meaning(a, body, input)
    case Composed(children) =>
      var segments := Split(children);
      if !AllUniform(segments) then Err(MixedUnions) else Fold(a, segments, input)
    case Conditional(branches) => Choose(BranchOutcomes(a, branches, input), input)
    case _ => Ok(input)
  }

  /** Each segment under the scope its predecessor handed on. */
  function Fold(a: Leaves, segments: seq<Segment>, input: Scope): Outcome
    requires segments != []
    decreases SegmentsSize(segments), |segments|, 2
  {
    Continue(a, segments, segments[0].operands, Agree(Outcomes(a, segments[0].operands, input)))
  }

  /** What follows the first segment, given all its operands and its outcome. */
  function Continue(a: Leaves, segments: seq<Segment>, operands: seq<Query>, output: Outcome): Outcome
    requires segments != []
    decreases SegmentsSize(segments), |segments|, 1
  {
    if output.Err? || |segments| == 1 then output else
    var unaliased := FirstUnaliased(a, AllTerminals(operands));
    if unaliased.Some? then Err(unaliased.value) else Fold(a, segments[1..], Handed(a, operands, output.value))
  }

  function Outcomes(a: Leaves, operands: seq<Query>, input: Scope): (r: seq<Outcome>)
    ensures |r| == |operands|
    decreases QueriesSize(operands), 0, 1
  {
    if operands == [] then [] else [Meaning(a, operands[0], input)] + Outcomes(a, operands[1..], input)
  }

  /** A branch whose condition is rejected is not analysed. */
  function BranchOutcomes(a: Leaves, branches: seq<Query>, input: Scope): (r: seq<Outcome>)
    ensures |r| == |branches|
    decreases QueriesSize(branches), 0, 1
  {
    if branches == [] then [] else
    [BranchOutcome(a, branches[0], input)] + BranchOutcomes(a, branches[1..], input)
  }

  function BranchOutcome(a: Leaves, branch: Query, input: Scope): Outcome
    decreases Size(branch), 0, 0
  {
    if !branch.Branch? then Ok(input) else
    var rejected := if branch.condition.Some? then a.condition(branch.condition.value, input) else None;
    if rejected.Some? then Err(rejected.value) else Meaning(a, branch.query, input)
  }

  /** All branches have to be accepted and expose the first one's columns. */
  function Choose(outcomes: seq<Outcome>, input: Scope): Outcome {
    if FirstError(outcomes).Some? then Err(FirstError(outcomes).value)
    else if outcomes == [] then Ok(input)
    else if outcomes[0].Ok? && exists o :: o in outcomes && o.Ok? && o.value.Keys != outcomes[0].value.Keys
    then Err(BranchColumnsDiffer) else outcomes[0]
  }

  // ---- the CALL variant ---------------------------------------------------------------------

  /** A query inside a CALL without a scope clause: whether it imported outer
      variables, and what it exposes. */
  function CallMeaning(a: Leaves, q: Query, outer: Scope): CallOutcome
    decreases Size(q), 0, 0
  {
    match q
    case Single(id) =>
      (match a.importing(id, outer)
       case Err(e) => Err(e)
       case Ok(imported) => Used(imported.Some?, a.single(id, if imported.Some? then imported.value else map[])))
    case Braced(body) => CallMeaning(a, body, outer)
    case Composed(children) =>
      var segments := Split(children);
      if !AllUniform(segments) then Err(MixedUnions) else
      var outcomes := CallOutcomes(a, segments[0].operands, outer);
      Finish(AnyUsed(outcomes), |segments| > 1, Continue(a, segments, segments[0].operands, Agree(Scopes(outcomes))))
    case Conditional(_) => Used(false, Meaning(a, q, map[]))
    case _ => Err(InvalidBody)
  }

  function Used(used: bool, output: Outcome): CallOutcome {
    if output.Err? then Err(output.error) else Ok((used, output.value))
  }

  /** Importing WITH and NEXT do not mix; that is reported after anything else. */
  function Finish(used: bool, next: bool, output: Outcome): CallOutcome {
    if output.Ok? && used && next then Err(NextAfterImport) else Used(used, output)
  }

  predicate AnyUsed(outcomes: seq<CallOutcome>) {
    outcomes != [] && ((outcomes[0].Ok? && outcomes[0].value.0) || AnyUsed(outcomes[1..]))
  }

  function CallOutcomes(a: Leaves, operands: seq<Query>, outer: Scope): (r: seq<CallOutcome>)
    ensures |r| == |operands|
    decreases QueriesSize(operands), 0, 1
  {
    if operands == [] then [] else [CallMeaning(a, operands[0], outer)] + CallOutcomes(a, operands[1..], outer)
  }

  function Scopes(outcomes: seq<CallOutcome>): (r: seq<Outcome>)
    ensures |r| == |outcomes|
  {
    if outcomes == [] then []
    else [if outcomes[0].Err? then Err(outcomes[0].error) else Ok(outcomes[0].value.1)] + Scopes(outcomes[1..])
  }

  // ---- the loops -------------------------------------------------------------------------------

  /** What is left to compute in the middle of a segment: `operands` of it are done,
      the first exposed `first`, the last `previous`. */
  ghost function Resume(
    a: Leaves, segments: seq<Segment>, operands: seq<Query>, first: Scope, previous: Scope, input: Scope): Outcome
    requires segments != []
  {
    if operands == [] then Fold(a, segments, input)
    else Continue(a, segments, operands + segments[0].operands,
      Others(Outcomes(a, segments[0].operands, input), first.Keys, previous))
  }

  lemma {:induction false} SplitStep(children: seq<Query>)
    requires children != []
    ensures var rest := Split(children[1..]);
      var segments := Split(children);
      match children[0]
      case Link(Next) => segments == [Segment([], [])] + rest
      case Link(union) =>
        |segments| == |rest| && segments[0].operands == rest[0].operands
        && segments[0].unions == [union] + rest[0].unions && segments[1..] == rest[1..]
      case q =>
        |segments| == |rest| && segments[0].operands == [q] + rest[0].operands
        && segments[0].unions == rest[0].unions && segments[1..] == rest[1..]
  {
  }

  /** Continuing depends on the first segment only through its operands and outcome. */
  lemma {:induction false} ContinueTail(
    a: Leaves, s: seq<Segment>, t: seq<Segment>, operands: seq<Query>, output: Outcome)
    requires s != [] && |s| == |t| && s[1..] == t[1..]
    ensures Continue(a, s, operands, output) == Continue(a, t, operands, output)
  {
  }

  lemma {:induction false} ContinueError(a: Leaves, s: seq<Segment>, operands: seq<Query>, output: Outcome)
    requires s != []
    ensures output.Err? ==> Continue(a, s, operands, output) == output
  {
  }

  lemma {:induction false} ResumeUnion(
    a: Leaves, children: seq<Query>, operands: seq<Query>, first: Scope, previous: Scope, input: Scope)
    requires children != [] && children[0].Link? && children[0].connector != Next
    ensures Resume(a, Split(children), operands, first, previous, input) == Resume(a, Split(children[1..]), operands,
      first, previous, input)
  {
    hide Split, Continue, Outcomes, Agree, Others;
    SplitStep(children);
    var s, t := Split(children), Split(children[1..]);
    ContinueTail(a, s, t, s[0].operands, Agree(Outcomes(a, s[0].operands, input)));
    ContinueTail(a, s, t, operands + s[0].operands, Others(Outcomes(a, s[0].operands, input), first.Keys, previous));
  }

  lemma {:induction false} ResumeNext(
    a: Leaves, children: seq<Query>, operands: seq<Query>, first: Scope, previous: Scope, input: Scope)
    requires children != [] && children[0] == Link(Next) && operands != []
    ensures Resume(a, Split(children), operands, first, previous, input) ==
      var unaliased := FirstUnaliased(a, AllTerminals(operands));
      if unaliased.Some? then Err(unaliased.value)
      else Resume(a, Split(children[1..]), [], first, Handed(a, operands, previous), Handed(a, operands, previous))
  {
    hide Split, Fold, FirstUnaliased, AllTerminals, Handed;
    SplitStep(children);
    assert operands + [] == operands;
    assert Split(children)[1..] == Split(children[1..]);
  }

  lemma {:induction false} ResumeOperand(
    a: Leaves, children: seq<Query>, operands: seq<Query>, first: Scope, previous: Scope, input: Scope)
    requires children != [] && !children[0].Link?
    ensures var output := Meaning(a, children[0], input);
      Resume(a, Split(children), operands, first, previous, input) ==
      if output.Err? then output
      else if operands == [] then Resume(a, Split(children[1..]), [children[0]], output.value, output.value, input)
      else if output.value.Keys != first.Keys then Err(ColumnsDiffer)
      else Resume(a, Split(children[1..]), operands + [children[0]], first, output.value, input)
  {
    hide Split, Meaning, FirstUnaliased, AllTerminals, Handed;
    SplitStep(children);
    var s, t, q := Split(children), Split(children[1..]), children[0];
    var outcomes := Outcomes(a, s[0].operands, input);
    assert s[0].operands[1..] == t[0].operands;
    assert outcomes[0] == Meaning(a, q, input) && outcomes[1..] == Outcomes(a, t[0].operands, input);
    hide Outcomes;
    if operands == [] {
      assert s[0].operands == [q] + t[0].operands;
      ContinueTail(a, s, t, s[0].operands, Agree(outcomes));
    } else {
      assert operands + s[0].operands == (operands + [q]) + t[0].operands;
      ContinueTail(a, s, t, operands + s[0].operands, Others(outcomes, first.Keys, previous));
    }
  }

  lemma ResumeEnd(a: Leaves, operands: seq<Query>, first: Scope, previous: Scope, input: Scope)
    requires operands != []
    ensures Resume(a, Split([]), operands, first, previous, input) == Ok(previous)
  {
  }

  /** UNION and UNION ALL may not be mixed between two NEXTs. */
  method ValidateUnionConnectors(children: seq<Query>) returns (ok: bool)
    ensures ok <==> AllUniform(Split(children))
  {
    hide Split;
    var flavor: Option<bool> := None;
    var i := 0;
    while i < |children|
      invariant 0 <= i <= |children|
      invariant AllUniform(Split(children)) <==> Compatible(flavor, Split(children[i..]))
    {
      var rest := children[i..];
      assert rest[1..] == children[i + 1..];
      SplitStep(rest);
      FlavorStep(flavor, rest);
      if children[i].Link? {
        var current := children[i].connector == UnionAll;
        if children[i].connector == Next {
          flavor := None;
        } else if flavor.Some? && flavor.value != current {
          return false;
        } else {
          flavor := Some(current);
        }
      }
      i := i + 1;
    }
    assert children[i..] == [];
    NoUnions();
    return true;
  }

  ghost predicate Compatible(flavor: Option<bool>, segments: seq<Segment>)
    requires segments != []
  {
    AllUniform(segments) && (flavor.Some? ==> forall u :: u in segments[0].unions ==> (u == UnionAll <==> flavor.value))
  }

  lemma NoUnions()
    ensures Compatible(None, Split([])) && forall flavor :: Compatible(flavor, Split([]))
  {
  }

  lemma {:induction false} FlavorStep(flavor: Option<bool>, children: seq<Query>)
    requires children != []
    ensures Compatible(flavor, Split(children)) <==>
      match children[0]
      case Link(Next) => Compatible(None, Split(children[1..]))
      case Link(union) =>
        (flavor.Some? ==> flavor.value == (union == UnionAll))
          && Compatible(Some(union == UnionAll), Split(children[1..]))
      case _ => Compatible(flavor, Split(children[1..]))
  {
    hide Split;
    SplitStep(children);
    var s, t := Split(children), Split(children[1..]);
    UniformHead(s);
    UniformHead(t);
    if children[0] == Link(Next) {
      assert s[1..] == t;
    } else if children[0].Link? {
      UniformCons(children[0].connector, t[0].unions);
      hide Uniform, AllUniform;
      assert s[0].unions[0] in s[0].unions;
      assert forall u :: u in s[0].unions <==> u == children[0].connector || u in t[0].unions;
    }
  }

  lemma UniformHead(segments: seq<Segment>)
    requires segments != []
    ensures AllUniform(segments) <==> Uniform(segments[0].unions) && AllUniform(segments[1..])
  {
  }

  lemma UniformCons(union: Connector, unions: seq<Connector>)
    ensures Uniform([union] + unions) <==>
      Uniform(unions) && forall u :: u in unions ==> (u == UnionAll <==> union == UnionAll)
  {
    var all := [union] + unions;
    assert forall i :: 0 <= i < |unions| ==> unions[i] == all[i + 1];
    if Uniform(all) {
      forall i, j | 0 <= i < |unions| && 0 <= j < |unions| ensures unions[i] == UnionAll <==> unions[j] == UnionAll {
        assert all[i + 1] == unions[i] && all[j + 1] == unions[j];
      }
      forall u | u in unions ensures u == UnionAll <==> union == UnionAll {
        var i :| 0 <= i < |unions| && unions[i] == u;
        assert all[i + 1] == u && all[0] == union;
      }
    }
    if forall u :: u in unions ==> (u == UnionAll <==> union == UnionAll) {
      forall i | 0 <= i < |all| ensures all[i] == UnionAll <==> union == UnionAll {
        assert i > 0 ==> all[i] in unions;
      }
    }
  }

  // ---- analyze_composed ---------------------------------------------------------------------------

  /** `advance_composed_connector`: a NEXT closes the segment. */
  method AdvanceConnector(
    a: Leaves, connector: Connector, previous: Scope, segmentInput: Scope, operands: seq<Query>,
    unionOutput: Option<Scope>)
    returns (advanced: Result<bool, Error>, previous': Scope, segmentInput': Scope, operands': seq<Query>,
      unionOutput': Option<Scope>)
    ensures connector != Next ==>
      && advanced == Ok(false) && previous' == previous && segmentInput' == segmentInput
      && operands' == operands && unionOutput' == unionOutput
    ensures connector == Next ==>
      var unaliased := FirstUnaliased(a, AllTerminals(operands));
      if unaliased.Some? then advanced == Err(unaliased.value) else (
        && advanced == Ok(true) && previous' == Handed(a, operands, previous) && segmentInput' == previous'
        && operands' == [] && unionOutput' == None)
  {
    previous', segmentInput', operands', unionOutput' := previous, segmentInput, operands, unionOutput;
    if connector != Next { return Ok(false), previous', segmentInput', operands', unionOutput'; }
    var unaliased := ValidateNextProjections(a, operands);
    if unaliased.Some? { return Err(unaliased.value), previous', segmentInput', operands', unionOutput'; }
    if operands == [] || !Returns(a, operands[|operands| - 1]) {
      previous' := map[];
    }
    segmentInput', operands', unionOutput' := previous', [], None;
    advanced := Ok(true);
  }

  /** `validate_composed_union_output`: the first UNION of a segment fixes the columns. */
  method ValidateUnionOutput(connector: Option<Connector>, previous: Scope, output: Scope, unionOutput: Option<Scope>)
    returns (ok: bool, unionOutput': Option<Scope>)
    ensures connector.None? || connector.value == Next ==> ok && unionOutput' == unionOutput
    ensures connector.Some? && connector.value != Next ==>
      && unionOutput' == Some(if unionOutput.Some? then unionOutput.value else previous)
      && ok == (unionOutput'.value.Keys == output.Keys)
  {
    ok, unionOutput' := true, unionOutput;
    if connector.Some? && connector.value != Next {
      if unionOutput'.None? { unionOutput' := Some(previous); }
      ok := unionOutput'.value.Keys == output.Keys;
    }
  }

  /** The five variables of the loop, tied to the segment they stand in. */
  ghost predicate InSegment(i: nat, connector: Option<Connector>, operands: seq<Query>, unionOutput: Option<Scope>,
                            first: Scope, previous: Scope, segmentInput: Scope)
  {
    && (i % 2 == 1 ==> connector == None && operands != [])
    && (i % 2 == 0 && i > 0 ==> connector.Some?)
    && (connector == Some(Next) ==> operands == [] && previous == segmentInput)
    && (connector.Some? && connector.value != Next ==> operands != [])
    && (i == 0 ==> connector == None && operands == [])
    && (operands == [] ==> unionOutput == None)
    && (|operands| == 1 ==> unionOutput == None && first == previous)
    && (|operands| > 1 ==> unionOutput.Some? && unionOutput.value.Keys == first.Keys)
  }

  /** What the operand at an even position may rely on, and how it moves the loop on. */
  lemma AfterOperand(
    i: nat, connector: Option<Connector>, operands: seq<Query>, unionOutput: Option<Scope>, first: Scope,
    previous: Scope, segmentInput: Scope, child: Query, output: Scope, ok: bool, unionOutput': Option<Scope>)
    requires InSegment(i, connector, operands, unionOutput, first, previous, segmentInput) && i % 2 == 0
    requires connector.None? || connector.value == Next ==> ok && unionOutput' == unionOutput
    requires connector.Some? && connector.value != Next ==>
      && unionOutput' == Some(if unionOutput.Some? then unionOutput.value else previous)
      && ok == (unionOutput'.value.Keys == output.Keys)
    ensures ok <==> operands == [] || output.Keys == first.Keys
    ensures ok ==>
      InSegment(i + 1, None, operands + [child], unionOutput', if operands == [] then output else first, output,
        segmentInput)
  {
  }

  lemma AfterLink(a: Leaves, i: nat, operands: seq<Query>, unionOutput: Option<Scope>, first: Scope, previous: Scope,
                  segmentInput: Scope, connector: Connector)
    requires InSegment(i, None, operands, unionOutput, first, previous, segmentInput) && i % 2 == 1
    ensures connector != Next ==>
      InSegment(i + 1, Some(connector), operands, unionOutput, first, previous, segmentInput)
    ensures connector == Next ==>
      var handed := Handed(a, operands, previous); InSegment(i + 1, Some(connector), [], None, first, handed, handed)
  {
  }

  lemma AtStart(previous: Scope, segmentInput: Scope)
    ensures InSegment(0, None, [], None, map[], previous, segmentInput)
  {
  }

  lemma SegmentFacts(i: nat, connector: Option<Connector>, operands: seq<Query>, unionOutput: Option<Scope>,
                     first: Scope, previous: Scope, segmentInput: Scope)
    requires InSegment(i, connector, operands, unionOutput, first, previous, segmentInput)
    ensures i % 2 == 1 ==> connector == None && operands != []
    ensures connector == Some(Next) ==> previous == segmentInput
  {
  }

  /** The loop over a UNION/NEXT chain computes the declarative reading. */
  method AnalyzeComposed(a: Leaves, children: seq<Query>, input: Scope) returns (r: Outcome)
    requires Grammatical(Composed(children))
    ensures r == Meaning(a, Composed(children), input)
    decreases children, 0
  {
    hide Split, Resume, Fold, Grammatical, AllUniform, InSegment, FirstUnaliased, AllTerminals, Handed;
    var uniform := ValidateUnionConnectors(children);
    if !uniform { return Err(MixedUnions); }
    var previous, segmentInput := input, input;
    var connector: Option<Connector> := None;
    var unionOutput: Option<Scope> := None;
    var operands: seq<Query> := [];
    ghost var first: Scope := map[];
    var i := 0;
    assert children[0..] == children;
    assert Alternates(children) by { GrammaticalChildren(children); }
    assert InSegment(0, connector, operands, unionOutput, first, previous, segmentInput) by {
      AtStart(previous, segmentInput);
    }
    StartOfSegment(a, children, input);
    while i < |children|
      invariant 0 <= i <= |children|
      invariant InSegment(i, connector, operands, unionOutput, first, previous, segmentInput)
      invariant Fold(a, Split(children), input) == Resume(a, Split(children[i..]), operands, first, previous,
        segmentInput)
    {
      assert children[i..][1..] == children[i + 1..];
      var child := children[i];
      SegmentFacts(i, connector, operands, unionOutput, first, previous, segmentInput);
      if child.Link? {
        AfterLink(a, i, operands, unionOutput, first, previous, segmentInput, child.connector);
        if child.connector == Next {
          ResumeNext(a, children[i..], operands, first, previous, segmentInput);
        } else {
          ResumeUnion(a, children[i..], operands, first, previous, segmentInput);
        }
        var advanced;
        advanced, previous, segmentInput, operands, unionOutput :=
          AdvanceConnector(a, child.connector, previous, segmentInput, operands, unionOutput);
        if advanced.Err? { return Err(advanced.error); }
        connector := Some(child.connector);
      } else {
        ResumeOperand(a, children[i..], operands, first, previous, segmentInput);
        var branchInput := if connector == Some(Next) then previous else segmentInput;
        assert Grammatical(child) by { GrammaticalChildren(children); }
        var output := AnalyzeNode(a, child, branchInput);
        if output.Err? { return output; }
        var ok, fixed := ValidateUnionOutput(connector, previous, output.value, unionOutput);
        AfterOperand(i, connector, operands, unionOutput, first, previous, segmentInput, child, output.value, ok,
          fixed);
        if !ok { return Err(ColumnsDiffer); }
        previous, unionOutput := output.value, fixed;
        assert operands == [] ==> operands + [child] == [child];
        if operands == [] { first := output.value; }
        operands := operands + [child];
        connector := None;
      }
      i := i + 1;
    }
    assert children[i..] == [];
    SegmentFacts(i, connector, operands, unionOutput, first, previous, segmentInput);
    ResumeEnd(a, operands, first, previous, segmentInput);
    return Ok(previous);
  }

  lemma GrammaticalChildren(children: seq<Query>)
    requires Grammatical(Composed(children))
    ensures Alternates(children) && forall c :: c in children ==> Grammatical(c)
  {
  }

  lemma {:induction false} StartOfSegment(a: Leaves, children: seq<Query>, input: Scope)
    ensures Resume(a, Split(children), [], map[], input, input) == Fold(a, Split(children), input)
  {
  }

  method AnalyzeNode(a: Leaves, q: Query, input: Scope) returns (r: Outcome)
    requires Grammatical(q)
    ensures r == Meaning(a, q, input)
    decreases q, 1
  {
    match q
    case Single(id) => r := a.single(id, input);
    case Braced(body) => r := AnalyzeNode(a, body, input);
    case Composed(children) => r := AnalyzeComposed(a, children, input);
    case Conditional(branches) => r := AnalyzeConditional(a, branches, input);
    case _ => r := Ok(input);
  }

  /** All branches of a conditional, then the comparison of their columns. */
  method AnalyzeConditional(a: Leaves, branches: seq<Query>, input: Scope) returns (r: Outcome)
    requires Grammatical(Conditional(branches))
    ensures r == Meaning(a, Conditional(branches), input)
    decreases branches, 0
  {
    ghost var all := BranchOutcomes(a, branches, input);
    var outputs: seq<Scope> := [];
    for i := 0 to |branches|
      invariant |outputs| == i && forall k :: 0 <= k < i ==> all[k] == Ok(outputs[k])
    {
      var branch := branches[i];
      BranchOutcomeAt(a, branches, input, i);
      if branch.condition.Some? {
        var rejected := a.condition(branch.condition.value, input);
        if rejected.Some? {
          FirstErrorAt(all, i);
          return Err(rejected.value);
        }
      }
      var output := AnalyzeNode(a, branch.query, input);
      if output.Err? {
        FirstErrorAt(all, i);
        return output;
      }
      outputs := outputs + [output.value];
    }
    NoErrors(all);
    if outputs == [] { return Ok(input); }
    for i := 1 to |outputs|
      invariant forall k :: 0 <= k < i ==> outputs[k].Keys == outputs[0].Keys
    {
      if outputs[0].Keys != outputs[i].Keys {
        assert all[i] in all;
        return Err(BranchColumnsDiffer);
      }
    }
    return Ok(outputs[0]);
  }

  lemma {:induction false} BranchOutcomeAt(a: Leaves, branches: seq<Query>, input: Scope, i: nat)
    requires i < |branches|
    ensures BranchOutcomes(a, branches, input)[i] == BranchOutcome(a, branches[i], input)
  {
    if i > 0 {
      BranchOutcomeAt(a, branches[1..], input, i - 1);
    }
  }

  lemma {:induction false} FirstErrorAt(outcomes: seq<Outcome>, i: nat)
    requires i < |outcomes| && outcomes[i].Err? && forall k :: 0 <= k < i ==> outcomes[k].Ok?
    ensures FirstError(outcomes) == Some(outcomes[i].error)
  {
    if i > 0 {
      FirstErrorAt(outcomes[1..], i - 1);
    }
  }

  lemma {:induction false} NoErrors(outcomes: seq<Outcome>)
    requires forall k :: 0 <= k < |outcomes| ==> outcomes[k].Ok?
    ensures FirstError(outcomes) == None
  {
    if outcomes != [] {
      NoErrors(outcomes[1..]);
    }
  }

  // ---- terminal queries -----------------------------------------------------------------------------

  method VisitTerminals(q: Query, output: seq<nat>) returns (r: seq<nat>)
    ensures r == output + Terminals(q)
    decreases q, 1
  {
    match q
    case Single(id) => r := output + [id];
    case Braced(body) => r := VisitTerminals(body, output);
    case Branch(_, query) => r := VisitTerminals(query, output);
    case Link(_) => r := output;
    case Composed(children) => r := VisitComposed(children, output);
    case Conditional(branches) => r := VisitAll(branches, output);
  }

  /** The walk from the end of a chain back to its last NEXT. */
  method VisitComposed(children: seq<Query>, output: seq<nat>) returns (r: seq<nat>)
    ensures r == output + TerminalsBack(children)
    decreases children, 0
  {
    hide Terminals;
    r := output;
    var i := |children|;
    assert children[..i] == children;
    while i > 0
      invariant 0 <= i <= |children|
      invariant r + TerminalsBack(children[..i]) == output + TerminalsBack(children)
    {
      var child := children[i - 1];
      assert children[..i][..i - 1] == children[..i - 1];
      if child == Link(Next) { break; }
      r := VisitTerminals(child, r);
      i := i - 1;
    }
  }

  method VisitAll(qs: seq<Query>, output: seq<nat>) returns (r: seq<nat>)
    ensures r == output + AllTerminals(qs)
    decreases qs, 0
  {
    hide Terminals;
    r := output;
    assert qs[0..] == qs;
    for i := 0 to |qs|
      invariant r + AllTerminals(qs[i..]) == output + AllTerminals(qs)
    {
      assert qs[i..][1..] == qs[i + 1..];
      r := VisitTerminals(qs[i], r);
    }
  }

  method ValidateNextProjections(a: Leaves, operands: seq<Query>) returns (error: Option<Error>)
    ensures error == FirstUnaliased(a, AllTerminals(operands))
  {
    hide AllTerminals;
    var terminals := VisitAll(operands, []);
    assert [] + AllTerminals(operands) == AllTerminals(operands);
    assert terminals[0..] == terminals;
    for i := 0 to |terminals|
      invariant FirstUnaliased(a, terminals) == FirstUnaliased(a, terminals[i..])
    {
      assert terminals[i..][1..] == terminals[i + 1..];
      if a.unaliased(terminals[i]).Some? { return a.unaliased(terminals[i]); }
    }
    return None;
  }

  lemma {:induction false} TerminalsFront(children: seq<Query>)
    requires children != []
    ensures TerminalsBack(children) == TerminalsBack(children[1..]) +
      if Link(Next) in children then [] else Terminals(children[0])
    decreases |children|
  {
    hide Terminals;
    if |children| > 1 {
      var last, before := children[|children| - 1], children[..|children| - 1];
      TerminalsFront(before);
      assert before[1..] == children[1..][..|children| - 2];
      assert children[1..][|children| - 2] == last;
      assert children == before + [last];
      assert children[0] == before[0];
    } else {
      assert children[..0] == [] && children[1..] == [];
    }
  }

  lemma {:induction false} NextInSplit(children: seq<Query>)
    ensures |Split(children)| > 1 <==> Link(Next) in children
    ensures forall s, o :: s in Split(children) && o in s.operands ==> !o.Link?
  {
    if children != [] {
      NextInSplit(children[1..]);
      SplitStep(children);
      assert children == [children[0]] + children[1..];
      var s, t := Split(children), Split(children[1..]);
      hide Split;
      assert s == [s[0]] + s[1..] && t == [t[0]] + t[1..];
    }
  }

  /** What a chain exposes comes from its last segment alone, from its end back. */
  lemma {:induction false} TerminalsOfLastSegment(children: seq<Query>)
    ensures var segments := Split(children); TerminalsBack(children) == TerminalsBack(segments[|segments| - 1].operands)
    decreases |children|
  {
    if children != [] {
      hide Terminals, Split, TerminalsBack;
      var s, t := Split(children), Split(children[1..]);
      TerminalsOfLastSegment(children[1..]);
      LastSegmentStep(children);
      if |t| == 1 && children[0] != Link(Next) {
        NextInSplit(children);
        LastSegmentGrows(children, s[0].operands, t[0].operands);
      } else {
        TerminalsFront(children);
      }
    }
  }

  lemma {:induction false} LastSegmentStep(children: seq<Query>)
    requires children != []
    ensures var s, t := Split(children), Split(children[1..]);
      if |t| == 1 && children[0] != Link(Next) then
        |s| == 1 && s[0].operands == if children[0].Link? then t[0].operands else [children[0]] + t[0].operands
      else Link(Next) in children && s[|s| - 1] == t[|t| - 1]
  {
    hide Split;
    SplitStep(children);
    NextInSplit(children[1..]);
    var s, t := Split(children), Split(children[1..]);
    if |t| > 1 && children[0] != Link(Next) {
      assert s[|s| - 1] == s[1..][|s| - 2] && t[|t| - 1] == t[1..][|t| - 2];
      assert Link(Next) in children[1..];
    }
  }

  lemma {:induction false} LastSegmentGrows(children: seq<Query>, s: seq<Query>, t: seq<Query>)
    requires children != [] && Link(Next) !in children && (forall q :: q in s ==> !q.Link?)
    requires s == if children[0].Link? then t else [children[0]] + t
    requires TerminalsBack(children[1..]) == TerminalsBack(t)
    ensures TerminalsBack(children) == TerminalsBack(s)
  {
    TerminalsFront(children);
    if children[0].Link? {
      assert Terminals(children[0]) == [];
    } else {
      hide Terminals, TerminalsBack;
      TerminalsFront(s);
      assert s[1..] == t;
    }
  }

  // ---- the CALL loop -----------------------------------------------------------------------------------

  /** What is left to compute in the first segment of a CALL body. */
  ghost function CallResume(
    a: Leaves, segments: seq<Segment>, operands: seq<Query>, first: Scope, previous: Scope, used: bool,
    outer: Scope): CallOutcome
    requires segments != []
  {
    var outcomes := CallOutcomes(a, segments[0].operands, outer);
    var output := if operands == [] then Agree(Scopes(outcomes)) else Others(Scopes(outcomes), first.Keys, previous);
    Finish(used || AnyUsed(outcomes), |segments| > 1, Continue(a, segments, operands + segments[0].operands, output))
  }

  lemma {:induction false} CallResumeUnion(
    a: Leaves, children: seq<Query>, operands: seq<Query>, first: Scope, previous: Scope, used: bool, outer: Scope)
    requires children != [] && children[0].Link? && children[0].connector != Next
    ensures CallResume(a, Split(children), operands, first, previous, used, outer) ==
      CallResume(a, Split(children[1..]), operands, first, previous, used, outer)
  {
  }

  lemma {:induction false} CallResumeNext(
    a: Leaves, children: seq<Query>, operands: seq<Query>, first: Scope, previous: Scope, used: bool, outer: Scope)
    requires children != [] && children[0] == Link(Next) && operands != []
    ensures CallResume(a, Split(children), operands, first, previous, used, outer) ==
      var unaliased := FirstUnaliased(a, AllTerminals(operands));
      if unaliased.Some? then Err(unaliased.value)
      else Finish(used, true,
        Resume(a, Split(children[1..]), [], first, Handed(a, operands, previous), Handed(a, operands, previous)))
  {
    hide Split, Fold, FirstUnaliased, AllTerminals, Handed;
    SplitStep(children);
    assert operands + [] == operands;
    assert Split(children)[1..] == Split(children[1..]);
  }

  lemma {:induction false} CallOutcomesStep(a: Leaves, q: Query, rest: seq<Query>, outer: Scope)
    ensures var outcomes, result := CallOutcomes(a, [q] + rest, outer), CallMeaning(a, q, outer);
      && Scopes(outcomes) == [if result.Err? then Err(result.error) else Ok(result.value.1)]
        + Scopes(CallOutcomes(a, rest, outer))
      && (AnyUsed(outcomes) <==> (result.Ok? && result.value.0) || AnyUsed(CallOutcomes(a, rest, outer)))
  {
  }

  lemma {:induction false} CallResumeFirst(
    a: Leaves, children: seq<Query>, first: Scope, previous: Scope, used: bool, outer: Scope)
    requires children != [] && !children[0].Link?
    ensures var result := CallMeaning(a, children[0], outer);
      CallResume(a, Split(children), [], first, previous, used, outer) ==
      if result.Err? then Err(result.error)
      else CallResume(a, Split(children[1..]), [children[0]], result.value.1, result.value.1, used || result.value.0,
        outer)
  {
    hide Split, CallMeaning, CallOutcomes, Scopes, AnyUsed, Continue, Others;
    SplitStep(children);
    var s, t, q := Split(children), Split(children[1..]), children[0];
    CallOutcomesStep(a, q, t[0].operands, outer);
    var output := Agree(Scopes(CallOutcomes(a, s[0].operands, outer)));
    assert [] + s[0].operands == [q] + t[0].operands;
    ContinueError(a, s, [] + s[0].operands, output);
    ContinueTail(a, s, t, [] + s[0].operands, output);
  }

  lemma {:induction false} CallResumeLater(
    a: Leaves, children: seq<Query>, operands: seq<Query>, first: Scope, previous: Scope, used: bool, outer: Scope)
    requires children != [] && !children[0].Link? && operands != []
    ensures var result := CallMeaning(a, children[0], outer);
      CallResume(a, Split(children), operands, first, previous, used, outer) ==
      if result.Err? then Err(result.error)
      else if result.value.1.Keys != first.Keys then Err(ColumnsDiffer)
      else CallResume(a, Split(children[1..]), operands + [children[0]], first, result.value.1,
        used || result.value.0, outer)
  {
    hide Split, CallMeaning, CallOutcomes, Scopes, AnyUsed, Continue, Agree;
    SplitStep(children);
    var s, t, q := Split(children), Split(children[1..]), children[0];
    CallOutcomesStep(a, q, t[0].operands, outer);
    var output := Others(Scopes(CallOutcomes(a, s[0].operands, outer)), first.Keys, previous);
    assert operands + s[0].operands == (operands + [q]) + t[0].operands;
    ContinueError(a, s, operands + s[0].operands, output);
    ContinueTail(a, s, t, operands + s[0].operands, output);
  }

  lemma {:induction false} CallStart(a: Leaves, children: seq<Query>, outer: Scope)
    requires AllUniform(Split(children))
    ensures CallMeaning(a, Composed(children), outer) == CallResume(a, Split(children), [], map[], map[], false, outer)
  {
    hide Split, Continue, CallOutcomes, Agree, AllUniform;
    assert [] + Split(children)[0].operands == Split(children)[0].operands;
  }

  lemma CallEnd(a: Leaves, operands: seq<Query>, first: Scope, previous: Scope, used: bool, outer: Scope)
    requires operands != []
    ensures CallResume(a, Split([]), operands, first, previous, used, outer) == Ok((used, previous))
  {
  }

  /** The loop over a CALL body computes the declarative reading. */
  method AnalyzeCallComposed(a: Leaves, children: seq<Query>, outer: Scope) returns (r: CallOutcome)
    requires Grammatical(Composed(children))
    ensures r == CallMeaning(a, Composed(children), outer)
    decreases children, 0
  {
    hide Split, Resume, CallResume, CallMeaning, Meaning, Fold, Grammatical, AllUniform, FirstUnaliased, AllTerminals,
      Handed, InSegment;
    var uniform := ValidateUnionConnectors(children);
    if !uniform {
      CallMixed(a, children, outer);
      return Err(MixedUnions);
    }
    var previous: Scope, segmentInput: Scope := map[], map[];
    var connector: Option<Connector> := None;
    var unionOutput: Option<Scope> := None;
    var used := false;
    var operands: seq<Query> := [];
    var usesSegmentInput := false;
    ghost var first: Scope := map[];
    var i := 0;
    assert children[0..] == children;
    assert Alternates(children) by { GrammaticalChildren(children); }
    assert InSegment(0, connector, operands, unionOutput, first, previous, segmentInput) by {
      AtStart(previous, segmentInput);
    }
    CallStart(a, children, outer);
    while i < |children|
      invariant 0 <= i <= |children|
      invariant InSegment(i, connector, operands, unionOutput, first, previous, segmentInput)
      invariant usesSegmentInput <==> Link(Next) in children[..i]
      invariant CallMeaning(a, Composed(children), outer) ==
        if usesSegmentInput then Finish(used, true,
          Resume(a, Split(children[i..]), operands, first, previous, segmentInput))
        else CallResume(a, Split(children[i..]), operands, first, previous, used, outer)
    {
      assert children[i..][1..] == children[i + 1..];
      assert children[..i + 1] == children[..i] + [children[i]];
      var child := children[i];
      SegmentFacts(i, connector, operands, unionOutput, first, previous, segmentInput);
      if child.Link? {
        AfterLink(a, i, operands, unionOutput, first, previous, segmentInput, child.connector);
        if child.connector == Next {
          if usesSegmentInput {
            ResumeNext(a, children[i..], operands, first, previous, segmentInput);
          } else {
            CallResumeNext(a, children[i..], operands, first, previous, used, outer);
          }
        } else if usesSegmentInput {
          ResumeUnion(a, children[i..], operands, first, previous, segmentInput);
        } else {
          CallResumeUnion(a, children[i..], operands, first, previous, used, outer);
        }
        var advanced;
        advanced, previous, segmentInput, operands, unionOutput :=
          AdvanceConnector(a, child.connector, previous, segmentInput, operands, unionOutput);
        if advanced.Err? { return Err(advanced.error); }
        if advanced.value { usesSegmentInput := true; }
        connector := Some(child.connector);
      } else {
        if usesSegmentInput {
          ResumeOperand(a, children[i..], operands, first, previous, segmentInput);
        } else if operands == [] {
          CallResumeFirst(a, children[i..], first, previous, used, outer);
        } else {
          CallResumeLater(a, children[i..], operands, first, previous, used, outer);
        }
        assert Grammatical(child) by { GrammaticalChildren(children); }
        var result: CallOutcome;
        if usesSegmentInput {
          var output := AnalyzeNode(a, child, segmentInput);
          result := Used(false, output);
        } else {
          result := AnalyzeCall(a, child, outer);
        }
        if result.Err? { return result; }
        var (also, output) := result.value;
        used := used || also;
        var ok, fixed := ValidateUnionOutput(connector, previous, output, unionOutput);
        AfterOperand(i, connector, operands, unionOutput, first, previous, segmentInput, child, output, ok, fixed);
        if !ok { return Err(ColumnsDiffer); }
        previous, unionOutput := output, fixed;
        assert operands == [] ==> operands + [child] == [child];
        if operands == [] { first := output; }
        operands := operands + [child];
        connector := None;
      }
      i := i + 1;
    }
    assert children[i..] == [] && children[..i] == children;
    SegmentFacts(i, connector, operands, unionOutput, first, previous, segmentInput);
    ResumeEnd(a, operands, first, previous, segmentInput);
    CallEnd(a, operands, first, previous, used, outer);
    if used && usesSegmentInput { return Err(NextAfterImport); }
    return Ok((used, previous));
  }

  lemma {:induction false} CallMixed(a: Leaves, children: seq<Query>, outer: Scope)
    requires !AllUniform(Split(children))
    ensures CallMeaning(a, Composed(children), outer) == Err(MixedUnions)
  {
  }

  method AnalyzeCall(a: Leaves, q: Query, outer: Scope) returns (r: CallOutcome)
    requires Grammatical(q)
    ensures r == CallMeaning(a, q, outer)
    decreases q, 1
  {
    match q
    case Single(id) =>
      var imported := a.importing(id, outer);
      if imported.Err? { return Err(imported.error); }
      var output := a.single(id, if imported.value.Some? then imported.value.value else map[]);
      r := Used(imported.value.Some?, output);
    case Braced(body) => r := AnalyzeCall(a, body, outer);
    case Composed(children) => r := AnalyzeCallComposed(a, children, outer);
    case Conditional(_) =>
      var output := AnalyzeNode(a, q, map[]);
      r := Used(false, output);
    case _ => r := Err(InvalidBody);
  }

  // ---- the two variants agree ----------------------------------------------------------------------------

  /** No single query the CALL analysis would offer outer variables to imports any. */
  predicate ImportsNothing(a: Leaves, q: Query, outer: Scope)
    decreases Size(q), 0
  {
    match q
    case Single(id) => a.importing(id, outer) == Ok(None)
    case Braced(body) => ImportsNothing(a, body, outer)
    case Composed(children) => AllImportNothing(a, Split(children)[0].operands, outer)
    case _ => true
  }

  predicate AllImportNothing(a: Leaves, qs: seq<Query>, outer: Scope)
    decreases QueriesSize(qs), 1
  {
    qs == [] || (ImportsNothing(a, qs[0], outer) && AllImportNothing(a, qs[1..], outer))
  }

  /** What the CALL analysis accepts at all: operands and bodies, no loose connectors. */
  predicate IsBody(q: Query)
    decreases Size(q), 0
  {
    match q
    case Braced(body) => IsBody(body)
    case Composed(children) => AllBodies(Split(children)[0].operands)
    case Single(_) => true
    case Conditional(_) => true
    case _ => false
  }

  predicate AllBodies(qs: seq<Query>)
    decreases QueriesSize(qs), 1
  {
    qs == [] || (IsBody(qs[0]) && AllBodies(qs[1..]))
  }

  /** Where nothing is imported, a CALL body means what the query means from the
      empty scope. */
  lemma {:induction false} CallAgrees(a: Leaves, q: Query, outer: Scope)
    requires IsBody(q) && ImportsNothing(a, q, outer)
    ensures CallMeaning(a, q, outer) == Used(false, Meaning(a, q, map[]))
    decreases Size(q), 0
  {
    match q
    case Braced(body) => CallAgrees(a, body, outer);
    case Composed(children) =>
      hide Split, Continue, Agree, AllUniform, CallOutcomes, Outcomes;
      CallsAgree(a, Split(children)[0].operands, outer);
    case _ =>
  }

  lemma {:induction false} CallsAgree(a: Leaves, qs: seq<Query>, outer: Scope)
    requires AllBodies(qs) && AllImportNothing(a, qs, outer)
    ensures Scopes(CallOutcomes(a, qs, outer)) == Outcomes(a, qs, map[])
    ensures !AnyUsed(CallOutcomes(a, qs, outer))
    decreases QueriesSize(qs), 1
  {
    if qs != [] {
      hide CallMeaning, Meaning;
      CallAgrees(a, qs[0], outer);
      CallsAgree(a, qs[1..], outer);
      assert CallOutcomes(a, qs, outer)[1..] == CallOutcomes(a, qs[1..], outer);
    }
  }

  /** The flag an accepted CALL body reports is exactly whether anything was imported. */
  lemma {:induction false} UsedIff(a: Leaves, q: Query, outer: Scope)
    requires CallMeaning(a, q, outer).Ok?
    ensures CallMeaning(a, q, outer).value.0 <==> !ImportsNothing(a, q, outer)
    decreases Size(q), 0
  {
    match q
    case Braced(body) => UsedIff(a, body, outer);
    case Composed(children) =>
      hide Split, Continue, AllUniform, CallOutcomes;
      var operands := Split(children)[0].operands;
      AcceptedSegment(CallOutcomes(a, operands, outer));
      UsedIffAny(a, operands, outer);
    case _ =>
  }

  lemma {:induction false} AcceptedSegment(outcomes: seq<CallOutcome>)
    requires Agree(Scopes(outcomes)).Ok?
    ensures forall o :: o in outcomes ==> o.Ok?
  {
    if outcomes != [] {
      AgreeIff(Scopes(outcomes));
      ScopesOk(outcomes);
    }
  }

  lemma {:induction false} ScopesOk(outcomes: seq<CallOutcome>)
    requires forall o :: o in Scopes(outcomes) ==> o.Ok?
    ensures forall o :: o in outcomes ==> o.Ok?
  {
    if outcomes != [] {
      assert Scopes(outcomes)[0] in Scopes(outcomes);
      assert Scopes(outcomes)[1..] == Scopes(outcomes[1..]);
      ScopesOk(outcomes[1..]);
    }
  }

  lemma {:induction false} UsedIffAny(a: Leaves, qs: seq<Query>, outer: Scope)
    requires forall o :: o in CallOutcomes(a, qs, outer) ==> o.Ok?
    ensures AnyUsed(CallOutcomes(a, qs, outer)) <==> !AllImportNothing(a, qs, outer)
    decreases QueriesSize(qs), 1
  {
    if qs != [] {
      hide CallMeaning, ImportsNothing;
      var outcomes := CallOutcomes(a, qs, outer);
      assert outcomes[0] in outcomes && outcomes[1..] == CallOutcomes(a, qs[1..], outer);
      UsedIff(a, qs[0], outer);
      UsedIffAny(a, qs[1..], outer);
    }
  }
}
