/** One registered connection: the explicit-transaction record, the reader and
    side-effect registries, the quarantine flag, and the transaction scalars
    `lithograph_tx_begin`, `lithograph_tx_commit` and `lithograph_tx_abort`. */
module Connections {
  import opened Wrappers
  import opened Sqlite

  datatype Error =
    | Quarantined | Boundary | Misuse | Argument | HeadMoved | NotFound | Storage | TooBig | Interrupted | Internal

  /** `serial` numbers the explicit transactions of a connection; it stands for
      the identity of the transaction the record describes. */
  datatype Record = Record(branch: string, base: nat, mutated: bool, serial: nat)

  datatype BeginOptions = BeginOptions(branch: Option<string>, expectedHead: Option<nat>)

  /** The value of all connection state at one moment. */
  datatype Conn = Conn(
    db: Db, record: Option<Record>, readers: nat, sideEffect: bool, quarantined: bool, serial: nat)

  /** Watches the statements an invocation issues itself, before and after its
      operation: was an interrupt observed, was a ROLLBACK TO refused, was a RELEASE
      issued after such a refusal, did a statement refused before the operation ran
      take an open transaction with it, and did SQLite refuse a statement it could
      have run. */
  datatype Monitor = Monitor(
    interrupted: bool, rollbackRefused: bool, releasedAfterRefusal: bool, lostAtOpening: bool, refused: bool)
  {
    function After(d: Db, statement: Statement, ok: bool): Monitor {
      var seen := this.(refused := refused || (!ok && Enabled(d, statement)));
      match statement
      case RollbackTo(_) => seen.(rollbackRefused := rollbackRefused || !ok)
      case Release(_) => seen.(releasedAfterRefusal := releasedAfterRefusal || rollbackRefused)
      case _ => seen
    }
  }

  /** Nothing watched yet, but for statements refused earlier. */
  function Watching(refused: bool): Monitor {
    Monitor(false, false, false, false, refused)
  }

  /** When a begin goes through, if SQLite accepts its statements. */
  predicate Beginnable(s: Conn, options: Option<BeginOptions>, activeBranch: string) {
    && !s.quarantined && s.record.None? && s.readers == 0 && !s.sideEffect && s.db.mode.Autocommit? && options.Some?
    && HeadAsExpected(s.db, options.value, activeBranch)
  }

  predicate HeadAsExpected(d: Db, options: BeginOptions, activeBranch: string) {
    var branch := BranchOf(options, activeBranch);
    && branch in d.working.heads
    && (options.expectedHead.Some? ==> options.expectedHead.value == d.working.heads[branch])
  }

  /** When commit and abort are not refused at the boundary. */
  predicate Endable(s: Conn) {
    !s.quarantined && !s.sideEffect && s.readers == 0 && s.record.Some?
  }

  /** The Branch is still there and, unless the transaction wrote, where it was. */
  predicate Finalizable(d: Db, state: Record) {
    state.branch in d.working.heads && (state.mutated || d.working.heads[state.branch] == state.base)
  }

  /** The complete transaction was discarded and the record cleared; nothing else moved. */
  ghost predicate Closed(s: Conn, s': Conn) {
    s' == s.(db := s.db.RolledBack(), record := None)
  }

  /** Cleanup failed: the connection is unusable, yet nothing was committed. */
  ghost predicate GivenUp(s: Conn, s': Conn) {
    && s'.quarantined && s'.db.Valid() && s'.db.committed == s.db.committed
    && (s'.record == s.record || s'.record == None)
    && s'.readers == s.readers && s'.sideEffect == s.sideEffect && s'.serial == s.serial
  }

  /** The only two ways out of a failure inside an explicit transaction. */
  ghost predicate FailedClosed(s: Conn, s': Conn) {
    Closed(s, s') || GivenUp(s, s')
  }

  /** The same after staged work, which can only have become durable when no
      transaction was open any more. */
  ghost predicate FailedClosedFrom(s: Conn, s': Conn) {
    && FailedClosed(s.(db := s.db.(committed := s'.db.committed)), s')
    && (s'.db.committed == s.db.committed || s.db.mode.Autocommit?)
  }

  /** A failing statement outside an explicit transaction: the state stands, or
      SQLite rolled the host's own transaction back. */
  ghost predicate LeftAlone(s: Conn, s': Conn) {
    s' == s || s' == s.(db := s.db.RolledBack())
  }

  function BranchOf(options: BeginOptions, activeBranch: string): string {
    if options.branch.Some? then options.branch.value else activeBranch
  }

  ghost predicate BeginPost(
    s: Conn, options: Option<BeginOptions>, activeBranch: string, r: Result<nat, Error>, s': Conn) {
    match r
    case Ok(base) =>
      && !s.quarantined && s.record.None? && s.readers == 0 && !s.sideEffect && s.db.mode.Autocommit?
      && options.Some?
      && var branch := BranchOf(options.value, activeBranch);
      && branch in s.db.committed.heads && base == s.db.committed.heads[branch]
      && (options.value.expectedHead.Some? ==> options.value.expectedHead.value == base)
      && s' == s.(db := s.db.(mode := Begun), serial := s.serial + 1,
                  record := Some(Record(branch, base, false, s.serial + 1)))
    case Err(_) =>
      if s.quarantined || s.record.Some? then s' == s
      else
        || LeftAlone(s, s')
        || (&& s.readers == 0 && !s.sideEffect && s.serial <= s'.serial <= s.serial + 1
            && (s'.record.Some? ==> s'.record.value.serial == s'.serial)
            && FailedClosed(s.(serial := s'.serial, record := s'.record), s'))
  }

  ghost predicate CommitPost(s: Conn, r: Result<nat, Error>, s': Conn) {
    match r
    case Ok(head) =>
      && !s.quarantined && s.record.Some? && s.readers == 0 && !s.sideEffect && !s.db.mode.Autocommit?
      && var branch := s.record.value.branch;
      && branch in s'.db.committed.heads && head == s'.db.committed.heads[branch]
      && (!s.record.value.mutated ==> head == s.record.value.base && s'.db.committed == s.db.working)
      && s' == s.(db := s'.db.RolledBack(), record := None)
    case Err(_) =>
      if s.quarantined || s.sideEffect || s.readers != 0 || s.record.None? then s' == s
      else FailedClosedFrom(s, s')
  }

  ghost predicate AbortPost(s: Conn, r: Result<(), Error>, s': Conn) {
    if s.quarantined || s.sideEffect || s.readers != 0 || s.record.None? then r.Err? && s' == s
    else if r.Ok? then Closed(s, s') else GivenUp(s, s')
  }

  ghost predicate FailClosedPost(s: Conn, s': Conn) {
    if s.record.None? then s' == s else FailedClosed(s, s')
  }

  /** The savepoint an operation runs under is still where it was opened. */
  ghost predicate HoldsSavepoint(d: Db, name: Name, d': Db) {
    && d'.Valid() && d'.committed == d.committed && d'.mode == d.mode
    && 0 < |d.savepoints| <= |d'.savepoints| && d'.savepoints[..|d.savepoints|] == d.savepoints
    && forall j :: |d.savepoints| <= j < |d'.savepoints| ==> d'.savepoints[j].name != name
  }

  /** One run of the code inside a savepoint: its answer and the state it leaves. */
  datatype OperationRun = OperationRun(answer: Result<int, Error>, after: Conn)

  /** What the code inside a savepoint may have done by the time it returns: staged
      anything, or failed and lost the enclosing transaction, its record perhaps
      cleared.  Either way it may have quarantined the connection and given up a
      side-effect guard it held. */
  ghost predicate OperationEffect(s: Conn, name: Name, outcome: OperationRun) {
    var s' := outcome.after;
    && s' == s.(db := s'.db, record := s'.record, quarantined := s'.quarantined, sideEffect := s'.sideEffect)
    && (s.quarantined ==> s'.quarantined) && (s'.sideEffect ==> s.sideEffect)
    && (|| (HoldsSavepoint(s.db, name, s'.db) && s'.record == s.record)
        || (outcome.answer.Err? && s'.db == s.db.RolledBack() && (s'.record == s.record || s'.record == None)))
  }

  ghost predicate IsOperation(run: Conn -> OperationRun, name: Name) {
    forall s: Conn :: s.db.Valid() && s.db.savepoints != [] && s.db.savepoints[|s.db.savepoints| - 1].name == name ==>
      OperationEffect(s, name, run(s))
  }

  /** A released savepoint keeps what was staged, and commits it when it was outermost. */
  function Kept(d: Db, image: Image): Db {
    if d.mode.Autocommit? then Db(image, image, Autocommit, []) else d.(working := image)
  }

  /** The state in which the operation of an invocation runs. */
  function Entered(s: Conn, name: Name): Conn {
    s.(db := Effect(s.db, OpenSavepoint(name)))
  }

  /** The entry state, but for a guard the operation gave up. */
  function Freed(s: Conn, outcome: Option<OperationRun>): Conn {
    if outcome.Some? then s.(sideEffect := outcome.value.after.sideEffect) else s
  }

  /** The entry state stands or, after an interrupt, the whole transaction is gone. */
  ghost predicate AllOrNothing(s: Conn, s': Conn, interrupted: bool) {
    s' == s || (interrupted && Closed(s, s'))
  }

  /** `with_savepoint` around an operation that ran with this outcome, or did not run.
      Success keeps exactly the operation's effect.  A failure ends in quarantine, or
      is all-or-nothing, unless the transaction was lost before the operation ran. */
  ghost predicate SavepointPost(
    s: Conn, name: Name, outcome: Option<OperationRun>, r: Result<int, Error>, s': Conn, monitor: Monitor)
  {
    && (outcome.Some? ==> s.readers == 0 && OperationEffect(Entered(s, name), name, outcome.value))
    && var freed := Freed(s, outcome);
    match r
    case Ok(value) =>
      && outcome.Some? && outcome.value.answer == r && !monitor.lostAtOpening
      && s' == freed.(quarantined := outcome.value.after.quarantined, db := Kept(s.db, outcome.value.after.db.working))
    case Err(_) =>
      || GivenUp(freed, s')
      || (if monitor.lostAtOpening
          then
            outcome.None? && s.readers == 0 && !monitor.interrupted && s' == s.(db := s.db.RolledBack()) && s' != s
          else AllOrNothing(freed, s', monitor.interrupted))
  }

  /** Whatever the operation does and SQLite answers, a failure that leaves the
      connection healthy is all-or-nothing. */
  ghost predicate AlwaysAllOrNothing(s: Conn) {
    forall name: Name, outcome: Option<OperationRun>, r: Result<int, Error>, s': Conn, monitor: Monitor ::
      SavepointPost(s, name, outcome, r, s', monitor) && r.Err? && !s'.quarantined ==>
        AllOrNothing(Freed(s, outcome), s', monitor.interrupted)
  }

  /** It is so exactly outside a host transaction, apart from connections on which no
      transaction can be lost unnoticed: readers refuse the invocation beforehand, and
      a quarantined connection stays quarantined. */
  lemma AllOrNothingIff(s: Conn)
    requires s.db.Valid()
    ensures AlwaysAllOrNothing(s) <==> s.db.mode.Autocommit? || s.readers != 0 || s.quarantined
  {
    if !s.db.mode.Autocommit? && s.readers == 0 && !s.quarantined {
      var name, s', monitor := Host(""), s.(db := s.db.RolledBack()), Monitor(false, false, false, true, true);
      assert SavepointPost(s, name, None, Err(Storage), s', monitor);
      assert !AllOrNothing(Freed(s, None), s', monitor.interrupted);
    }
  }

  /** The exception is real: inside a host transaction with staged work, SQLite may
      answer the opening statement by rolling back, and the call then ends with that
      work gone and the connection healthy. */
  lemma OpeningCanLoseTransaction(committed: Image, staged: Image, name: Name)
    requires staged != committed
    ensures var s := Conn(Db(committed, staged, Begun, []), None, 0, false, false, 0);
      var s' := s.(db := s.db.RolledBack());
      && s.db.Valid() && Answers(s.db, OpenSavepoint(name), false, s'.db)
      && SavepointPost(s, name, None, Err(Storage), s', Monitor(false, false, false, true, true))
      && !s'.quarantined && !AllOrNothing(s, s', false)
  {
  }

  /** ROLLBACK TO followed by RELEASE is the inverse of SAVEPOINT, whatever was staged between. */
  lemma SavepointUndone(d: Db, name: Name, staged: Db)
    requires d.Valid() && HoldsSavepoint(Effect(d, OpenSavepoint(name)), name, staged)
    ensures Enabled(staged, RollbackTo(name))
    ensures Enabled(Effect(staged, RollbackTo(name)), Release(name))
    ensures Effect(Effect(staged, RollbackTo(name)), Release(name)) == d
  {
    var k := |d.savepoints|;
    assert staged.savepoints[..k + 1][k] == Savepoint(name, d.working);
    assert Position(staged.savepoints, name) == k;
    var back := Effect(staged, RollbackTo(name));
    assert back.savepoints == d.savepoints + [Savepoint(name, d.working)];
    assert Position(back.savepoints, name) == k;
    assert back.savepoints[..k] == d.savepoints;
  }

  lemma CleanupAnswer(d: Db, statement: Statement, ok: bool, d': Db)
    requires Answers(d, statement, ok, d')
    ensures ok ==> Enabled(d, statement) && d' == Effect(d, statement)
    ensures !ok || statement.RollbackTo? || statement.Rollback? ==> d'.committed == d.committed
    ensures statement.RollbackTo? || statement.Release? ==>
      (Enabled(d, statement) <==> Position(d.savepoints, statement.name) >= 0)
  {
  }

  /** What was rolled back to can be released. */
  lemma RollbackToKeepsSavepoint(d: Db, name: Name)
    requires d.Valid() && Enabled(d, RollbackTo(name))
    ensures Enabled(Effect(d, RollbackTo(name)), Release(name))
    ensures Effect(d, RollbackTo(name)).committed == d.committed
  {
    var i := Position(d.savepoints, name);
    assert d.savepoints[..i + 1][i].name == name;
  }

  /** RELEASE keeps exactly what was staged, and commits it when the savepoint was outermost. */
  lemma ReleaseKeeps(d: Db, name: Name, staged: Db)
    ensures d.Valid() && HoldsSavepoint(Effect(d, OpenSavepoint(name)), name, staged) ==>
      && Enabled(staged, Release(name))
      && Effect(staged, Release(name)) == Kept(d, staged.working)
  {
    if d.Valid() && HoldsSavepoint(Effect(d, OpenSavepoint(name)), name, staged) {
      var k := |d.savepoints|;
      assert staged.savepoints[..k + 1][k] == Savepoint(name, d.working);
      assert Position(staged.savepoints, name) == k;
      assert staged.savepoints[..k] == staged.savepoints[..k + 1][..k] == d.savepoints;
    }
  }

  lemma OperationKeepsValid(s: Conn, name: Name, outcome: OperationRun)
    requires s.db.Valid() && OperationEffect(s, name, outcome)
    ensures outcome.after.db.Valid() && outcome.after.readers == s.readers
    ensures outcome.after == s.(db := outcome.after.db, record := outcome.after.record,
      quarantined := outcome.after.quarantined, sideEffect := outcome.after.sideEffect)
    ensures outcome.answer.Ok? ==> HoldsSavepoint(s.db, name, outcome.after.db) && outcome.after.record == s.record
  {
  }

  /** Whatever the operation did and however RELEASE was refused, the cleanup of the
      savepoint is all-or-nothing or quarantines. */
  lemma {:induction false} CleanupIsAllOrNothing(
    s: Conn, name: Name, outcome: OperationRun, staged: Conn, cleaned: bool, s': Conn, interrupted: bool)
    requires s.db.Valid()
    requires OperationEffect(Entered(s, name), name, outcome)
    requires staged == outcome.after || staged == outcome.after.(db := outcome.after.db.RolledBack())
    requires !cleaned ==> GivenUp(staged, s')
    requires cleaned ==>
      || (interrupted && Closed(staged, s'))
      || (&& Position(staged.db.savepoints, name) >= 0
          && s' == staged.(db := Effect(Effect(staged.db, RollbackTo(name)), Release(name))))
    ensures var freed := Freed(s, Some(outcome)); GivenUp(freed, s') || AllOrNothing(freed, s', interrupted)
  {
    if HoldsSavepoint(Entered(s, name).db, name, staged.db) {
      SavepointUndone(s.db, name, staged.db);
    }
  }

  class Connection {
    var db: Db
    var record: Option<Record>
    var readers: nat
    var sideEffect: bool
    var quarantined: bool
    var serial: nat
    ghost var monitor: Monitor

    constructor (image: Image)
      ensures Snapshot() == Conn(Db(image, image, Autocommit, []), None, 0, false, false, 0)
      ensures Valid()
    {
      db := Db(image, image, Autocommit, []);
      record, readers, sideEffect, quarantined, serial := None, 0, false, false, 0;
      monitor := Watching(false);
    }

    ghost predicate Valid()
      reads this
    {
      db.Valid()
    }

    function Snapshot(): Conn
      reads this
    {
      Conn(db, record, readers, sideEffect, quarantined, serial)
    }

    /** SQLite runs one statement; any answer may come back. */
    method Execute(statement: Statement) returns (ok: bool)
      requires Valid()
      modifies this`db, this`monitor
      ensures Valid()
      ensures Answers(old(db), statement, ok, db)
      ensures monitor == old(monitor).After(old(db), statement, ok)
    {
      ok := false;
      ghost var d := db;
      if * {
        db := db.RolledBack();
      } else if * {
        if Enabled(db, statement) {
          ok := true;
          AnswersKeepValid(db, statement, true, Effect(db, statement));
          db := Effect(db, statement);
        }
      }
      monitor := monitor.After(d, statement, ok);
    }

    /** A read inside whatever transaction is open. */
    method Read() returns (ok: bool)
      requires Valid()
      modifies this`db, this`monitor
      ensures Valid()
      ensures if ok then db == old(db) else db == old(db) || db == old(db).RolledBack()
      ensures monitor == old(monitor).(refused := old(monitor).refused || !ok)
    {
      ok := Execute(Work(db.working));
    }

    /** The host may interrupt at any moment. */
    method IsInterrupted() returns (answer: bool)
      modifies this`monitor
      ensures monitor == old(monitor).(interrupted := old(monitor).interrupted || answer)
    {
      answer := *;
      monitor := monitor.(interrupted := monitor.interrupted || answer);
    }

    /** Ends an interrupted transaction through a writable blob handle. */
    method Recover() returns (r: Result<bool, Error>)
      requires Valid()
      modifies this`db, this`record, this`quarantined, this`monitor
      ensures Valid()
      ensures r.Ok? && !r.value ==> Snapshot() == old(Snapshot())
      ensures r.Ok? && r.value ==> Closed(old(Snapshot()), Snapshot())
      ensures r.Err? ==> GivenUp(old(Snapshot()), Snapshot())
      ensures db == old(db) || db == old(db).RolledBack()
      ensures monitor == old(monitor).(interrupted := old(monitor).interrupted || r.Err? || r.value)
    {
      var interrupted := IsInterrupted();
      if !interrupted {
        return Ok(false);
      }
      if !db.mode.Autocommit? {
        // The blob handle's virtual machine halts on the interrupt and takes
        // the transaction with it, or does something else.
        var code: bool, closed: bool := *, *;
        if * {
          db := db.RolledBack();
        }
        if !code || !closed || !db.mode.Autocommit? {
          quarantined := true;
          return Err(Internal);
        }
      }
      record := None;
      return Ok(true);
    }

    method RollbackExplicit() returns (r: Result<(), Error>)
      requires Valid()
      modifies this`db, this`record, this`quarantined, this`monitor
      ensures Valid()
      ensures r.Ok? ==> Closed(old(Snapshot()), Snapshot())
      ensures r.Err? ==> GivenUp(old(Snapshot()), Snapshot())
      ensures r.Err? ==> monitor.refused || monitor.interrupted || old(db).mode.Autocommit?
      ensures old(monitor).refused ==> monitor.refused
    {
      var recovered := Recover();
      match recovered
      case Err(e) => return Err(e);
      case Ok(done) =>
        if done {
          return Ok(());
        }
        var ok := Execute(Rollback);
        record := None;
        if !ok {
          quarantined := true;
          return Err(Storage);
        }
        return Ok(());
    }

    method FailClosed(error: Error) returns (r: Error)
      requires Valid()
      modifies this`db, this`record, this`quarantined, this`monitor
      ensures Valid()
      ensures FailedClosed(old(Snapshot()), Snapshot())
      ensures r == error || (r == Internal && quarantined)
      ensures old(monitor).refused ==> monitor.refused
    {
      var rollback := RollbackExplicit();
      r := if rollback.Ok? then error else Internal;
    }

    /** The fail-closed exit of every adapter path: a malformed scalar call takes it
        even while a cursor is open. */
    method FailClosedSqlTransaction(error: Error) returns (r: Error)
      requires Valid()
      modifies this`db, this`record, this`quarantined, this`monitor
      ensures Valid()
      ensures FailClosedPost(old(Snapshot()), Snapshot())
      ensures r == error || (r == Internal && quarantined)
      ensures old(monitor).refused ==> monitor.refused
    {
      if record.None? {
        return error;
      }
      r := FailClosed(error);
    }

    method AbortActive() returns (r: Result<(), Error>)
      requires Valid()
      modifies this`db, this`record, this`quarantined, this`monitor
      ensures Valid()
      ensures FailClosedPost(old(Snapshot()), Snapshot())
      ensures r.Err? ==> quarantined
    {
      if record.None? {
        return Ok(());
      }
      r := RollbackExplicit();
    }

    method TxBegin(options: Option<BeginOptions>, formatCurrent: bool, activeBranch: string, fits: bool)
      returns (r: Result<nat, Error>)
      requires Valid()
      modifies this
      ensures Valid()
      ensures BeginPost(old(Snapshot()), options, activeBranch, r, Snapshot())
      ensures r.Ok? ==> formatCurrent && fits
      ensures r.Ok? && options.value.branch.Some? ==> record.value.branch == options.value.branch.value
      ensures r.Ok? && options.value.branch.None? ==> record.value.branch == activeBranch
      ensures old(quarantined) ==> r == Err(Quarantined)
      ensures !old(quarantined) && old(record).Some? ==> r == Err(Boundary)
      ensures r == Err(HeadMoved) || r == Err(NotFound) ==>
        options.Some? && !HeadAsExpected(old(db), options.value, activeBranch)
      ensures r == Err(TooBig) ==> !fits
      ensures Beginnable(old(Snapshot()), options, activeBranch) && formatCurrent && fits && r.Err? ==> monitor.refused
    {
      if quarantined { return Err(Quarantined); }
      if record.Some? { return Err(Boundary); }
      if options.None? { return Err(Argument); }
      var initialized := Read();
      if !initialized || !formatCurrent { return Err(Storage); }
      if sideEffect { return Err(Boundary); }
      if readers != 0 { return Err(Boundary); }
      if !db.mode.Autocommit? { return Err(Boundary); }
      var guard := Read();
      if !guard { return Err(Storage); }
      var begun := Execute(Begin);
      if !begun { return Err(Storage); }
      var started := BeginState(options.value, activeBranch);
      if started.Err? {
        var e := FailClosed(started.error);
        return Err(e);
      }
      if !fits {
        var e := FailClosed(TooBig);
        return Err(e);
      }
      return started;
    }

    method BeginState(options: BeginOptions, activeBranch: string) returns (r: Result<nat, Error>)
      requires Valid()
      modifies this`db, this`record, this`serial, this`monitor
      ensures Valid() && readers == old(readers) && sideEffect == old(sideEffect) && quarantined == old(quarantined)
      ensures r.Ok? ==>
        var branch := BranchOf(options, activeBranch);
        && branch in old(db).working.heads && r.value == old(db).working.heads[branch]
        && (options.expectedHead.Some? ==> options.expectedHead.value == r.value)
        && db == old(db) && serial == old(serial) + 1
        && record == Some(Record(branch, r.value, false, serial))
      ensures r.Err? ==>
        && record == old(record) && serial == old(serial)
        && (db == old(db) || db == old(db).RolledBack())
      ensures r.Err? && HeadAsExpected(old(db), options, activeBranch) ==> monitor.refused && r == Err(Storage)
      ensures r == Err(NotFound) ==> BranchOf(options, activeBranch) !in old(db).working.heads
      ensures r.Err? ==> r == Err(NotFound) || r == Err(HeadMoved) || r == Err(Storage)
      ensures old(monitor).refused ==> monitor.refused
    {
      var readBranch := Read();
      if !readBranch { return Err(Storage); }
      var branch := BranchOf(options, activeBranch);
      var readHead := Read();
      if !readHead { return Err(Storage); }
      if branch !in db.working.heads { return Err(NotFound); }
      var base := db.working.heads[branch];
      if options.expectedHead.Some? && options.expectedHead.value != base { return Err(HeadMoved); }
      serial := serial + 1;
      record := Some(Record(branch, base, false, serial));
      return Ok(base);
    }

    method TxCommit(fits: bool) returns (r: Result<nat, Error>)
      requires Valid()
      modifies this
      ensures Valid()
      ensures CommitPost(old(Snapshot()), r, Snapshot())
      ensures r.Ok? ==> fits
      ensures old(quarantined) ==> r == Err(Quarantined)
      ensures !old(quarantined) && (old(sideEffect) || old(readers) != 0) ==> r == Err(Boundary)
      ensures !old(quarantined) && !old(sideEffect) && old(readers) == 0 && old(record).None? ==> r == Err(Misuse)
      ensures r == Err(TooBig) ==> !fits
      ensures r == Err(HeadMoved) || r == Err(NotFound) ==> !Finalizable(old(db), old(record).value)
      ensures Endable(old(Snapshot())) && !old(db).mode.Autocommit? && r.Err? ==>
        monitor.refused || !fits || !Finalizable(old(db), old(record).value)
    {
      if quarantined { return Err(Quarantined); }
      if sideEffect { return Err(Boundary); }
      if readers != 0 { return Err(Boundary); }
      if record.None? { return Err(Misuse); }
      var finalized := FinalizeExplicit(record.value);
      if finalized.Err? {
        var e := FailClosed(finalized.error);
        return Err(e);
      }
      if !fits {
        var e := FailClosed(TooBig);
        return Err(e);
      }
      var ok := Execute(Commit);
      if !ok {
        var e := FailClosed(Storage);
        return Err(e);
      }
      record := None;
      return finalized;
    }

    /** Reads the staged head and, after a mutation, replaces the staged chain by
        one Commit.  What storage writes is arbitrary; that it may fail anywhere
        is what matters here. */
    method FinalizeExplicit(state: Record) returns (r: Result<nat, Error>)
      requires Valid()
      modifies this`db, this`monitor
      ensures Valid() && Snapshot() == old(Snapshot()).(db := db)
      ensures r.Ok? ==>
        && db.mode == old(db).mode && (!db.mode.Autocommit? ==> db.committed == old(db).committed)
        && state.branch in db.working.heads && r.value == db.working.heads[state.branch]
        && (!state.mutated ==> db == old(db) && r.value == state.base)
      ensures r.Err? ==> db.committed == old(db).committed || old(db).mode.Autocommit?
      ensures r.Err? && Finalizable(old(db), state) ==> monitor.refused && r == Err(Storage)
      ensures r.Err? ==> r == Err(NotFound) || r == Err(HeadMoved) || r == Err(Storage)
      ensures r.Ok? ==> Finalizable(old(db), state)
      ensures old(monitor).refused ==> monitor.refused
    {
      var readHead := Read();
      if !readHead { return Err(Storage); }
      if state.branch !in db.working.heads { return Err(NotFound); }
      if !state.mutated {
        if db.working.heads[state.branch] != state.base { return Err(HeadMoved); }
        return Ok(state.base);
      }
      var commit: nat, staged: Image := *, *;
      var wrote := Execute(Work(staged.(heads := staged.heads[state.branch := commit])));
      if !wrote { return Err(Storage); }
      return Ok(commit);
    }

    method TxAbort() returns (r: Result<(), Error>)
      requires Valid()
      modifies this
      ensures Valid()
      ensures AbortPost(old(Snapshot()), r, Snapshot())
      ensures old(quarantined) ==> r == Err(Quarantined)
      ensures !old(quarantined) && (old(sideEffect) || old(readers) != 0) ==> r == Err(Boundary)
      ensures !old(quarantined) && !old(sideEffect) && old(readers) == 0 && old(record).None? ==> r == Err(Misuse)
      ensures Endable(old(Snapshot())) && !old(db).mode.Autocommit? && r.Err? ==> monitor.refused || monitor.interrupted
    {
      if quarantined { return Err(Quarantined); }
      if sideEffect { return Err(Boundary); }
      if readers != 0 { return Err(Boundary); }
      if record.None? { return Err(Misuse); }
      r := RollbackExplicit();
    }

    method RollbackSavepoint(name: Name) returns (r: Result<(), Error>)
      requires Valid()
      modifies this`db, this`record, this`quarantined, this`monitor
      ensures Valid()
      ensures r.Err? ==> GivenUp(old(Snapshot()), Snapshot())
      ensures r.Ok? ==>
        || (monitor.interrupted && Closed(old(Snapshot()), Snapshot()))
        || (&& Position(old(db).savepoints, name) >= 0
            && Snapshot() == old(Snapshot()).(db := Effect(Effect(old(db), RollbackTo(name)), Release(name))))
      ensures monitor.releasedAfterRefusal ==> old(monitor).rollbackRefused || old(monitor).releasedAfterRefusal
      ensures monitor.lostAtOpening == old(monitor).lostAtOpening
      ensures r.Err? ==> monitor.refused || monitor.interrupted || Position(old(db).savepoints, name) < 0
      ensures old(monitor).refused ==> monitor.refused
    {
      var recovered := Recover();
      if recovered.Err? { return Err(recovered.error); }
      if recovered.value {
        return Ok(());
      }
      r := UndoSavepoint(name);
    }

    /** ROLLBACK TO and RELEASE; short of both, everything is rolled back and the
        connection quarantined. */
    method UndoSavepoint(name: Name) returns (r: Result<(), Error>)
      requires Valid()
      modifies this`db, this`quarantined, this`monitor
      ensures Valid()
      ensures r.Err? ==> quarantined && db.committed == old(db).committed
      ensures r.Ok? ==>
        && quarantined == old(quarantined) && Position(old(db).savepoints, name) >= 0
        && db == Effect(Effect(old(db), RollbackTo(name)), Release(name))
      ensures r.Err? ==> monitor.refused || Position(old(db).savepoints, name) < 0
      ensures monitor.interrupted == old(monitor).interrupted && monitor.lostAtOpening == old(monitor).lostAtOpening
      ensures monitor.releasedAfterRefusal ==> old(monitor).rollbackRefused || old(monitor).releasedAfterRefusal
      ensures old(monitor).refused ==> monitor.refused
    {
      hide Position, Effect, Enabled, Answers;
      if Enabled(db, RollbackTo(name)) {
        RollbackToKeepsSavepoint(db, name);
      }
      ghost var d := db;
      var rolledBack := Execute(RollbackTo(name));
      CleanupAnswer(d, RollbackTo(name), rolledBack, db);
      if rolledBack {
        d := db;
        var released := Execute(Release(name));
        CleanupAnswer(d, Release(name), released, db);
        if released { return Ok(()); }
      }
      d := db;
      var full := Execute(Rollback);
      CleanupAnswer(d, Rollback, full, db);
      quarantined := true;
      return Err(Internal);
    }

    /** The guard and the SAVEPOINT statement, before the operation runs. */
    method OpenInvocation(name: Name) returns (r: Result<(), Error>)
      requires Valid()
      modifies this`db, this`monitor
      ensures Valid()
      ensures r.Ok? ==> readers == 0 && monitor == Watching(false)
      ensures r.Err? ==> readers != 0 || monitor.refused
      ensures r.Ok? ==>
        && db == Effect(old(db), OpenSavepoint(name))
        && db.savepoints != [] && db.savepoints[|db.savepoints| - 1].name == name
      ensures r.Err? ==> db == old(db) || db == old(db).RolledBack()
      ensures r.Err? ==> monitor == Watching(monitor.refused).(lostAtOpening := db != old(db))
      ensures r.Err? && db != old(db) ==> readers == 0
    {
      monitor := Watching(false);
      ghost var d := db;
      if readers != 0 { return Err(Boundary); }
      var guard := Read();
      if !guard {
        monitor := monitor.(lostAtOpening := db != d);
        return Err(Storage);
      }
      var started := Execute(OpenSavepoint(name));
      if !started {
        monitor := monitor.(lostAtOpening := db != d);
        return Err(Storage);
      }
      return Ok(());
    }

    method WithSavepoint(run: Conn -> OperationRun, name: Name) returns (r: Result<int, Error>, ghost ran: bool)
      requires Valid() && IsOperation(run, name)
      modifies this`db, this`record, this`quarantined, this`sideEffect, this`monitor
      ensures Valid()
      ensures var s := old(Snapshot());
        SavepointPost(s, name, if ran then Some(run(Entered(s, name))) else None, r, Snapshot(), monitor)
      ensures !monitor.releasedAfterRefusal
      ensures var s := old(Snapshot());
        s.readers == 0 && run(Entered(s, name)).answer.Ok? && r.Err? ==> monitor.refused
    {
      hide GivenUp, OperationEffect, HoldsSavepoint, Effect;
      ran := false;
      ghost var s := Snapshot();
      var opening := OpenInvocation(name);
      if opening.Err? { return Err(opening.error), ran; }
      ran := true;
      ghost var entered := Snapshot();
      var outcome := run(Snapshot());
      OperationKeepsValid(entered, name, outcome);
      db, record, quarantined := outcome.after.db, outcome.after.record, outcome.after.quarantined;
      sideEffect := outcome.after.sideEffect;
      ReleaseKeeps(s.db, name, db);
      ghost var staged, cleaned;
      r, staged, cleaned := CloseInvocation(outcome.answer, name);
      if r.Err? {
        CleanupIsAllOrNothing(s, name, outcome, staged, cleaned, Snapshot(), monitor.interrupted);
      }
    }

    /** RELEASE after a success; whatever else happened, the savepoint is undone. */
    method CloseInvocation(answer: Result<int, Error>, name: Name)
      returns (r: Result<int, Error>, ghost staged: Conn, ghost cleaned: bool)
      requires Valid()
      modifies this`db, this`record, this`quarantined, this`monitor
      ensures Valid() && !monitor.releasedAfterRefusal && !monitor.lostAtOpening
      ensures r.Ok? ==>
        && r == answer && Enabled(old(db), Release(name))
        && Snapshot() == old(Snapshot()).(db := Effect(old(db), Release(name)))
      ensures answer.Ok? && Enabled(old(db), Release(name)) && r.Err? ==> monitor.refused
      ensures r.Err? ==> staged == old(Snapshot()) || staged == old(Snapshot()).(db := old(db).RolledBack())
      ensures r.Err? && !cleaned ==> GivenUp(staged, Snapshot())
      ensures r.Err? && cleaned ==>
        || (monitor.interrupted && Closed(staged, Snapshot()))
        || (&& Position(staged.db.savepoints, name) >= 0
            && Snapshot() == staged.(db := Effect(Effect(staged.db, RollbackTo(name)), Release(name))))
    {
      hide GivenUp;
      monitor := Watching(monitor.refused);
      staged, cleaned := Snapshot(), false;
      if answer.Ok? {
        var released := Execute(Release(name));
        if released { return answer, staged, cleaned; }
        staged := Snapshot();
      }
      var cleanup := RollbackSavepoint(name);
      cleaned := cleanup.Ok?;
      r := Err(if cleanup.Err? then cleanup.error else if answer.Ok? then Storage else answer.error);
    }

    /** `lithograph_version` reads in whatever transaction is open and reports a
        failure without closing anything. */
    method Version() returns (r: Result<(), Error>)
      requires Valid()
      modifies this`db, this`monitor
      ensures Valid()
      ensures Snapshot() == old(Snapshot()).(db := db)
      ensures db == old(db) || (r.Err? && db == old(db).RolledBack())
      ensures r.Err? ==> quarantined || monitor.refused
    {
      if quarantined { return Err(Quarantined); }
      var ok := Read();
      r := if ok then Ok(()) else Err(Storage);
    }
  }
}
