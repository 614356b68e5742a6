/** The SQLite connection as the extension sees it: what is committed, what the
    open transaction has staged, and the savepoint stack.  Any statement may be
    refused, and a refusal may take the whole transaction with it. */
module Sqlite {

  /** Database content.  Branch heads are the part the protocol speaks about. */
  datatype Image = Image(heads: map<string, nat>, rest: int)

  /** Savepoints are named after what opens them: an invocation of the extension, the
      query engine it calls, or the host. */
  datatype Name = Invocation(ordinal: nat) | Engine(ordinal: nat) | Host(text: string)

  datatype Savepoint = Savepoint(name: Name, image: Image)

  /** `SavepointOpened` is a transaction that an outermost SAVEPOINT started:
      releasing that savepoint commits. */
  datatype Mode = Autocommit | Begun | SavepointOpened

  datatype Db = Db(committed: Image, working: Image, mode: Mode, savepoints: seq<Savepoint>) {
    predicate Valid() {
      && (mode.Autocommit? ==> working == committed && savepoints == [])
      && (mode.SavepointOpened? ==> savepoints != [])
    }

    /** The state after the complete transaction has been discarded. */
    function RolledBack(): Db {
      Db(committed, committed, Autocommit, [])
    }
  }

  datatype Statement =
    | Begin
    | Commit
    | Rollback
    | OpenSavepoint(name: Name)
    | RollbackTo(name: Name)
    | Release(name: Name)
    | Work(image: Image)

  /** Index of the innermost savepoint with the given name, or -1. */
  function Position(stack: seq<Savepoint>, name: Name): (i: int)
    ensures -1 <= i < |stack|
    ensures i >= 0 ==> stack[i].name == name
    ensures forall j :: i < j < |stack| ==> stack[j].name != name
  {
    if stack == [] then -1
    else if stack[|stack| - 1].name == name then |stack| - 1
    else Position(stack[..|stack| - 1], name)
  }

  /** The stack without the savepoints the query engine holds on top of it. */
  function Base(stack: seq<Savepoint>): (base: seq<Savepoint>)
    ensures base <= stack
    ensures base != [] ==> !base[|base| - 1].name.Engine?
    ensures forall j :: |base| <= j < |stack| ==> stack[j].name.Engine?
  {
    if stack == [] || !stack[|stack| - 1].name.Engine? then stack else Base(stack[..|stack| - 1])
  }

  predicate Enabled(d: Db, s: Statement) {
    match s
    case Begin => d.mode.Autocommit?
    case Commit => !d.mode.Autocommit?
    case Rollback => !d.mode.Autocommit?
    case OpenSavepoint(_) => true
    case RollbackTo(name) => Position(d.savepoints, name) >= 0
    case Release(name) => Position(d.savepoints, name) >= 0
    case Work(_) => true
  }

  /** What an accepted statement does. */
  function Effect(d: Db, s: Statement): Db
    requires Enabled(d, s)
  {
    match s
    case Begin => d.(mode := Begun)
    case Commit => Db(d.working, d.working, Autocommit, [])
    case Rollback => d.RolledBack()
    case OpenSavepoint(name) =>
      d.(mode := if d.mode.Autocommit? then SavepointOpened else d.mode,
         savepoints := d.savepoints + [Savepoint(name, d.working)])
    case RollbackTo(name) =>
      var i := Position(d.savepoints, name);
      d.(working := d.savepoints[i].image, savepoints := d.savepoints[..i + 1])
    case Release(name) =>
      var i := Position(d.savepoints, name);
      if i == 0 && d.mode.SavepointOpened?
      then Db(d.working, d.working, Autocommit, [])
      else d.(savepoints := d.savepoints[..i])
    case Work(image) =>
      if d.mode.Autocommit? then d.(committed := image, working := image) else d.(working := image)
  }

  /** Every answer SQLite may give: the effect, a refusal that changes nothing,
      or a refusal that rolls the whole transaction back. */
  ghost predicate Answers(d: Db, s: Statement, ok: bool, d': Db) {
    if ok then Enabled(d, s) && d' == Effect(d, s)
    else d' == d || d' == d.RolledBack()
  }

  lemma AnswersKeepValid(d: Db, s: Statement, ok: bool, d': Db)
    requires d.Valid() && Answers(d, s, ok, d')
    ensures d'.Valid()
  {
  }
}
