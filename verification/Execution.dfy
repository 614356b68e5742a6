/** One adapter execution: a prepared cursor, the guard it holds on its
    connection, and what each way of ending it does to the transaction. */
module Executions {
  import opened Wrappers
  import opened Sqlite
  import opened Connections

  /** What the planner found out about the query text. */
  datatype Plan = Plan(
    mutating: bool, semanticMaintenance: bool, ownsTransaction: bool, versionOperation: bool, connectionState: bool)
  {
    predicate SideEffecting() {
      mutating || semanticMaintenance || ownsTransaction || versionOperation
    }

    /** Operations that an explicit transaction must not contain. */
    predicate ForbiddenInside() {
      semanticMaintenance || ownsTransaction || versionOperation
    }
  }

  /** The value of an execution.  `serial` is the explicit transaction it was prepared in. */
  datatype Exec = Exec(
    readGuard: bool, sideEffectGuard: bool, explicit: bool, mutating: bool, terminal: bool, serial: nat)
  {
    /** Whether an interrupted call of this execution rolls SQLite back itself. */
    predicate OwnsCleanup() {
      mutating || explicit || sideEffectGuard
    }
  }

  /** The guards of `e` are accounted for in the registries of `s`. */
  predicate Registered(s: Conn, e: Exec) {
    (e.readGuard ==> s.readers > 0) && (e.sideEffectGuard ==> s.sideEffect)
  }

  /** The registries after `e` gave up the guards that `e'` no longer holds. */
  function Released(s: Conn, e: Exec, e': Exec): Conn
    requires Registered(s, e)
  {
    s.(readers := if e.readGuard && !e'.readGuard then s.readers - 1 else s.readers,
       sideEffect := s.sideEffect && !(e.sideEffectGuard && !e'.sideEffectGuard))
  }

  /** Work staged under savepoints of others, which stay where they are. */
  predicate Staged(d: Db, d': Db) {
    d'.Valid() && d'.committed == d.committed && d'.mode == d.mode && Base(d'.savepoints) == Base(d.savepoints)
  }

  /** Staged at most, or everything lost. */
  predicate StagedOrLost(d: Db, d': Db) {
    Staged(d, d') || d' == d.RolledBack()
  }

  /** What the query engine may do to SQLite in one call.  A reader changes
      nothing; a writer stages; neither ends an explicit transaction, or one that
      holds a savepoint of others, except by failing. */
  ghost predicate CursorEffect(s: Conn, sideEffecting: bool, ok: bool, d': Db) {
    && d'.Valid()
    && if !sideEffecting then d' == s.db || (!ok && d' == s.db.RolledBack())
       else
         && (s.record.Some? && !s.db.mode.Autocommit? ==>
               d'.committed == s.db.committed && (ok ==> d'.mode == s.db.mode))
         && (Base(s.db.savepoints) != [] ==> if ok then Staged(s.db, d') else StagedOrLost(s.db, d'))
  }

  /** Cancelling a cursor undoes its own work: it commits nothing, and outside a
      transaction it does nothing. */
  ghost predicate CancelEffect(s: Conn, sideEffecting: bool, d': Db) {
    && CursorEffect(s, sideEffecting, false, d')
    && d'.committed == s.db.committed && (s.db.mode.Autocommit? ==> d' == s.db)
  }

  /** When a prepare goes through, if the query is sound and SQLite accepts the statements. */
  predicate Preparable(s: Conn, plan: Plan) {
    && !s.quarantined && !s.sideEffect && (s.record.Some? ==> !plan.ForbiddenInside())
    && (plan.SideEffecting() ==> s.readers == 0)
  }

  ghost predicate PreparePost(s: Conn, plan: Plan, r: Option<Exec>, s': Conn) {
    match r
    case Some(e) =>
      && !s.quarantined && !s.sideEffect
      && e.readGuard == !plan.SideEffecting() && e.sideEffectGuard == plan.SideEffecting()
      && e.explicit == s.record.Some? && e.mutating == plan.mutating && !e.terminal
      && e.serial == (if s.record.Some? then s.record.value.serial else 0)
      && (s.record.Some? ==> !plan.ForbiddenInside())
      && (plan.SideEffecting() ==> s.readers == 0)
      && s' == if plan.SideEffecting() then s.(sideEffect := true) else s.(readers := s.readers + 1)
    case None =>
      if s.quarantined || s.sideEffect then s' == s
      else if s.record.None? then LeftAlone(s, s')
      else FailedClosed(s, s')
  }

  /** Guards are only given up, identity never changes. */
  ghost predicate SameExecution(e: Exec, e': Exec) {
    && e'.explicit == e.explicit && e'.mutating == e.mutating && e'.serial == e.serial
    && (e'.readGuard ==> e.readGuard) && (e'.sideEffectGuard ==> e.sideEffectGuard)
    && (e.terminal ==> e'.terminal)
  }

  /** A failed or cancelled call.  Inside an explicit transaction it is terminal
      and the transaction is closed; outside, the record is never touched unless
      the execution itself owned the interrupted transaction. */
  ghost predicate FailedCall(s: Conn, e: Exec, s': Conn, e': Exec)
    requires Registered(s, e)
  {
    var freed := Released(s, e, e');
    && SameExecution(e, e')
    && if e.explicit && s.record.Some? then e'.terminal && FailedClosedFrom(freed, s')
       else
         && s'.db.Valid() && (s.quarantined ==> s'.quarantined)
         && s' == freed.(db := s'.db, quarantined := s'.quarantined, record := s'.record)
         && (s'.record == s.record || (e.OwnsCleanup() && s'.record == None))
         && (e.explicit ==> e'.terminal)
         && (!e.OwnsCleanup() ==> s'.quarantined == s.quarantined && (s'.db == s.db || s'.db == s.db.RolledBack()))
         && (Base(s.db.savepoints) != [] ==> StagedOrLost(s.db, s'.db))
  }

  ghost predicate NextPost(s: Conn, e: Exec, ok: bool, s': Conn, e': Exec)
    requires Registered(s, e)
  {
    if ok then e' == e && CursorEffect(s, e.sideEffectGuard, true, s'.db) && s' == s.(db := s'.db)
    else
      && FailedCall(s, e, s', e')
      && (!e'.terminal ==> e'.readGuard == e.readGuard && e'.sideEffectGuard == e.sideEffectGuard)
  }

  ghost predicate CompletePost(s: Conn, e: Exec, ok: bool, s': Conn, e': Exec)
    requires Registered(s, e)
  {
    if ok then
      && SameExecution(e, e') && e'.terminal && !e'.readGuard && !e'.sideEffectGuard
      && CursorEffect(s, e.sideEffectGuard, true, s'.db)
      && (e.explicit && e.mutating ==> s.record.Some?)
      && s' == Released(s, e, e').(
                 db := s'.db,
                 record := if e.explicit && e.mutating then Some(s.record.value.(mutated := true)) else s.record)
    else
      && FailedCall(s, e, s', e') && !e'.readGuard
      && (!e'.terminal ==> e'.sideEffectGuard == e.sideEffectGuard)
  }

  ghost predicate CancelPost(s: Conn, e: Exec, s': Conn, e': Exec)
    requires Registered(s, e)
  {
    && e'.terminal && !e'.readGuard
    && if e.terminal then e' == e.(readGuard := false) && s' == Released(s, e, e')
       else
         && FailedCall(s, e, s', e') && !e'.sideEffectGuard
         && (!e.OwnsCleanup() ==> s'.db == s.db)
         && (!e.explicit ==> s'.db.committed == s.db.committed && (s.db.mode.Autocommit? ==> s'.db == s.db))
  }

  /** Giving up guards commutes with closing the transaction. */
  lemma ClosedThenReleased(s: Conn, s': Conn, e: Exec, e': Exec)
    requires Registered(s, e) && FailedClosed(s, s')
    ensures Registered(s', e) && FailedClosed(Released(s, e, e'), Released(s', e, e'))
  {
  }

  /** A cursor call that left `d`, followed by any of the three exits, is a failed call. */
  lemma ExitIsFailedCall(s: Conn, e: Exec, d: Db, s': Conn, e': Exec)
    requires Registered(s, e) && SameExecution(e, e') && CursorEffect(s, e.sideEffectGuard, false, d)
    requires
      var freed := Released(s.(db := d), e, e');
      || (e.OwnsCleanup() && e'.terminal && FailedClosed(freed, s'))
      || (e.explicit && e'.terminal && FailClosedPost(freed, s'))
      || (!e.explicit && s' == freed)
    requires (e.explicit && s.record.Some?) || s'.db == d || s'.db == d.RolledBack()
    ensures FailedCall(s, e, s', e')
  {
  }

  /** Cancelling: whatever the cursor and an interrupt left, dropping the guards and
      aborting a live explicit transaction makes it a failed call. */
  lemma CancelExit(s: Conn, e: Exec, d: Db, after: Conn, s': Conn)
    requires Registered(s, e) && Registered(after, e) && s.db.Valid() && CancelEffect(s, e.sideEffectGuard, d)
    requires after == s.(db := d) || (e.OwnsCleanup() && FailedClosed(s.(db := d), after))
    requires after.db == d || after.db == d.RolledBack()
    requires !e.OwnsCleanup() ==> d == s.db && after == s
    requires var freed := Released(after, e, e.(readGuard := false, sideEffectGuard := false, terminal := true));
      if e.explicit && !freed.quarantined then FailClosedPost(freed, s') else s' == freed
    ensures FailedCall(s, e, s', e.(readGuard := false, sideEffectGuard := false, terminal := true))
    ensures !e.OwnsCleanup() ==> s'.db == s.db
    ensures !e.explicit ==> s'.db.committed == s.db.committed && (s.db.mode.Autocommit? ==> s'.db == s.db)
  {
    var e' := e.(readGuard := false, sideEffectGuard := false, terminal := true);
    if FailedClosed(s.(db := d), after) {
      ClosedThenReleased(s.(db := d), after, e, e');
    }
    ExitIsFailedCall(s, e, d, s', e');
  }

  /** No explicit transaction is open any more, or the connection is unusable. */
  predicate Ended(c: Conn) {
    c.quarantined || (c.record.None? && c.db.mode.Autocommit?)
  }

  /** An execution prepared in an explicit transaction: live inside it, or terminal
      with the transaction ended. */
  predicate Accountable(e: Exec, c: Conn) {
    if e.terminal then Ended(c) else c.record.Some?
  }

  /** However a call or a cancellation of such an execution fails, the transaction is over. */
  lemma FailureEndsTransaction(s: Conn, e: Exec, s': Conn, e': Exec)
    requires Registered(s, e) && e.explicit && s.record.Some? && FailedCall(s, e, s', e')
    ensures e'.terminal && Ended(s')
  {
  }

  lemma CancellationEndsTransaction(s: Conn, e: Exec, s': Conn, e': Exec)
    requires Registered(s, e) && e.explicit && Accountable(e, s) && CancelPost(s, e, s', e')
    ensures Ended(s')
  {
  }

  // ---- inside a savepoint of others --------------------------------------------------------

  /** A connection on which a writer outside explicit transactions runs under a
      savepoint that is not the engine's. */
  ghost predicate Hosts(s: Conn) {
    s.db.Valid() && s.record.None? && Base(s.db.savepoints) != [] && s.sideEffect
  }

  /** What that writer, now `e'`, may have done since `s`: staged, or failed, perhaps
      losing the transaction or quarantining the connection.  The registry follows
      its guard. */
  ghost predicate Inside(s: Conn, failed: bool, s': Conn, e': Exec) {
    && Hosts(s) && s' == s.(db := s'.db, quarantined := s'.quarantined, sideEffect := e'.sideEffectGuard)
    && (s.quarantined ==> s'.quarantined) && !e'.explicit && !e'.readGuard
    && if failed then StagedOrLost(s.db, s'.db) else Staged(s.db, s'.db) && s'.quarantined == s.quarantined
  }

  lemma StartInside(s: Conn, e: Exec)
    requires Hosts(s) && !e.explicit && !e.readGuard && e.sideEffectGuard
    ensures Inside(s, false, s, e)
  {
  }

  lemma FailedInside(s: Conn, c: Conn, e: Exec)
    ensures Inside(s, false, c, e) ==> Inside(s, true, c, e)
  {
  }

  lemma NextInside(s: Conn, c: Conn, e: Exec, ok: bool, c': Conn, e': Exec)
    requires Inside(s, false, c, e) && Registered(c, e) && NextPost(c, e, ok, c', e')
    ensures Inside(s, !ok, c', e')
  {
  }

  lemma CompleteInside(s: Conn, c: Conn, e: Exec, ok: bool, c': Conn, e': Exec)
    requires Inside(s, false, c, e) && Registered(c, e) && CompletePost(c, e, ok, c', e')
    ensures Inside(s, !ok, c', e')
  {
  }

  lemma CancelInside(s: Conn, c: Conn, e: Exec, c': Conn, e': Exec)
    requires Inside(s, true, c, e) && Registered(c, e) && CancelPost(c, e, c', e')
    ensures Inside(s, true, c', e')
  {
  }

  lemma SavepointPushed(d: Db, name: Name)
    ensures Effect(d, OpenSavepoint(name)).savepoints == d.savepoints + [Savepoint(name, d.working)]
  {
  }

  lemma StagedHolds(d: Db, name: Name, d': Db)
    requires d.savepoints != [] && d.savepoints[|d.savepoints| - 1].name == name && !name.Engine? && Staged(d, d')
    ensures HoldsSavepoint(d, name, d')
  {
    var stack := d'.savepoints;
    assert Base(d.savepoints) == d.savepoints;
    assert forall j :: |d.savepoints| <= j < |stack| ==> stack[j].name.Engine?;
  }

  /** To an invocation, a writer that ran inside its savepoint is an operation. */
  lemma InsideIsOperation(s: Conn, name: Name, answer: Result<int, Error>, s': Conn, e': Exec)
    requires s.db.Valid() && !name.Engine? && Inside(Entered(s, name), answer.Err?, s', e')
    ensures OperationEffect(Entered(s, name), name, OperationRun(answer, s'))
    ensures s'.sideEffect == e'.sideEffectGuard && !e'.readGuard
    ensures answer.Ok? ==> s'.quarantined == s.quarantined
  {
    hide Staged, HoldsSavepoint, Effect;
    var d := Entered(s, name).db;
    assert d.savepoints == s.db.savepoints + [Savepoint(name, s.db.working)] by { SavepointPushed(s.db, name); }
    if Staged(d, s'.db) {
      StagedHolds(d, name, s'.db);
    }
  }

  class AdapterExecution {
    var readGuard: bool
    var sideEffectGuard: bool
    const explicit: bool
    const mutating: bool
    var terminal: bool
    const serial: nat

    /** Whether the query engine's last answer was a success. */
    ghost var accepted: bool

    constructor (readGuard: bool, sideEffectGuard: bool, explicit: bool, mutating: bool, serial: nat)
      ensures Snapshot() == Exec(readGuard, sideEffectGuard, explicit, mutating, false, serial)
    {
      this.readGuard, this.sideEffectGuard, this.terminal := readGuard, sideEffectGuard, false;
      this.explicit, this.mutating, this.serial := explicit, mutating, serial;
      accepted := true;
    }

    function Snapshot(): Exec
      reads this
    {
      Exec(readGuard, sideEffectGuard, explicit, mutating, terminal, serial)
    }

    ghost predicate Valid(connection: Connection)
      reads this, connection
    {
      connection.Valid() && Registered(connection.Snapshot(), Snapshot())
    }

    static method Prepare(connection: Connection, plan: Plan, textOk: bool, formatCurrent: bool)
      returns (r: Option<AdapterExecution>)
      requires connection.Valid()
      modifies connection
      ensures connection.Valid()
      ensures r.Some? ==> fresh(r.value)
      ensures PreparePost(old(connection.Snapshot()), plan,
                if r.Some? then Some(r.value.Snapshot()) else None, connection.Snapshot())
      ensures r.Some? ==> (r.value.readGuard <==> plan == Plan(false, false, false, false, plan.connectionState))
      ensures r.Some? && old(connection.record).Some? ==>
        plan == Plan(plan.mutating, false, false, false, plan.connectionState)
      ensures r.Some? ==> textOk && (r.value.sideEffectGuard ==> formatCurrent)
      ensures r.None? && old(Preparable(connection.Snapshot(), plan)) ==>
        connection.monitor.refused || !textOk || (plan.SideEffecting() && !formatCurrent)
    {
      if connection.quarantined { return None; }
      if connection.sideEffect { return None; }
      var explicitState := connection.record;
      r := PrepareAdapter(connection, plan, textOk, formatCurrent, explicitState);
      if r.None? && explicitState.Some? {
        var _ := connection.FailClosedSqlTransaction(Argument);
      }
    }

    static method PrepareAdapter(
      connection: Connection, plan: Plan, textOk: bool, formatCurrent: bool, explicitState: Option<Record>)
      returns (r: Option<AdapterExecution>)
      requires connection.Valid() && !connection.quarantined && !connection.sideEffect
      requires explicitState == connection.record
      modifies connection
      ensures connection.Valid()
      ensures r.Some? ==> fresh(r.value)
      ensures r.Some? ==>
        PreparePost(old(connection.Snapshot()), plan, Some(r.value.Snapshot()), connection.Snapshot())
      ensures r.Some? ==> textOk && (r.value.sideEffectGuard ==> formatCurrent)
      ensures r.None? ==> LeftAlone(old(connection.Snapshot()), connection.Snapshot())
      ensures r.None? && old(Preparable(connection.Snapshot(), plan)) ==>
        connection.monitor.refused || !textOk || (plan.SideEffecting() && !formatCurrent)
    {
      var initialized := connection.Read();
      if !initialized || !textOk { return None; }
      var planned := connection.Read();
      if !planned { return None; }
      if explicitState.Some? && plan.ForbiddenInside() { return None; }
      var sideEffecting := plan.SideEffecting();
      var acquired := AcquireGuards(connection, sideEffecting, formatCurrent);
      if !acquired { return None; }
      if sideEffecting || explicitState.Some? {
        var guard := connection.Read();
        if !guard {
          if sideEffecting { connection.sideEffect := false; } else { connection.readers := connection.readers - 1; }
          return None;
        }
      }
      var serial := if explicitState.Some? then explicitState.value.serial else 0;
      var e := new AdapterExecution(!sideEffecting, sideEffecting, explicitState.Some?, plan.mutating, serial);
      return Some(e);
    }

    /** One guard of the kind asked for, or none. */
    static method AcquireGuards(connection: Connection, sideEffecting: bool, formatCurrent: bool) returns (ok: bool)
      requires connection.Valid() && !connection.sideEffect
      modifies connection
      ensures connection.Valid()
      ensures ok ==>
        && (sideEffecting ==> old(connection.readers) == 0 && formatCurrent)
        && connection.Snapshot() ==
           if sideEffecting then old(connection.Snapshot()).(sideEffect := true)
           else old(connection.Snapshot()).(readers := old(connection.readers) + 1)
      ensures !ok ==> LeftAlone(old(connection.Snapshot()), connection.Snapshot())
      ensures !ok ==> connection.monitor.refused || (sideEffecting && (old(connection.readers) != 0 || !formatCurrent))
      ensures old(connection.monitor).refused ==> connection.monitor.refused
    {
      if !sideEffecting {
        // The read guard pins a read transaction with one stepped statement.
        var pinned := connection.Read();
        if !pinned { return false; }
        connection.readers := connection.readers + 1;
        return true;
      }
      if connection.readers != 0 { return false; }
      connection.sideEffect := true;
      if !formatCurrent {
        connection.sideEffect := false;
        return false;
      }
      return true;
    }

    method DropReadGuard(connection: Connection)
      requires Valid(connection)
      modifies this`readGuard, connection`readers
      ensures !readGuard && Valid(connection)
      ensures connection.Snapshot() == Released(old(connection.Snapshot()), old(Snapshot()), Snapshot())
    {
      if readGuard {
        readGuard := false;
        connection.readers := connection.readers - 1;
      }
    }

    method DropSideEffectGuard(connection: Connection)
      requires Valid(connection)
      modifies this`sideEffectGuard, connection`sideEffect
      ensures !sideEffectGuard && Valid(connection)
      ensures connection.Snapshot() == Released(old(connection.Snapshot()), old(Snapshot()), Snapshot())
    {
      if sideEffectGuard {
        sideEffectGuard := false;
        connection.sideEffect := false;
      }
    }

    /** One call into the query engine. */
    method CallCursor(connection: Connection) returns (ok: bool)
      requires Valid(connection)
      modifies connection`db, this`accepted
      ensures Valid(connection) && accepted == ok && Snapshot() == old(Snapshot())
      ensures connection.Snapshot() == old(connection.Snapshot()).(db := connection.db)
      ensures CursorEffect(old(connection.Snapshot()), sideEffectGuard, ok, connection.db)
    {
      ok := *;
      accepted := ok;
      if sideEffectGuard {
        var d: Db := *;
        if d.mode.Autocommit? {
          d := d.RolledBack();
        } else if d.savepoints == [] {
          d := d.(mode := Begun);
        }
        if (connection.record.Some? && !connection.db.mode.Autocommit?) || Base(connection.db.savepoints) != [] {
          var lost: bool := *;
          if !ok && lost {
            d := connection.db.RolledBack();
          } else if !Staged(connection.db, d) {
            d := connection.db.(working := d.working);
          }
        }
        connection.db := d;
      } else if !ok {
        if * { connection.db := connection.db.RolledBack(); }
      }
    }

    /** Cancelling in the query engine. */
    method UndoCursor(connection: Connection) returns (ok: bool)
      requires Valid(connection)
      modifies connection`db
      ensures Valid(connection)
      ensures connection.Snapshot() == old(connection.Snapshot()).(db := connection.db)
      ensures CancelEffect(old(connection.Snapshot()), sideEffectGuard, connection.db)
    {
      ok := *;
      if connection.db.mode.Autocommit? { return; }
      var d: Db := *;
      if sideEffectGuard && Staged(connection.db, d) {
        connection.db := d;
      } else if !ok || (connection.record.None? && Base(connection.db.savepoints) == []) {
        if * { connection.db := connection.db.RolledBack(); }
      }
    }

    method DropGuards(connection: Connection)
      requires Valid(connection)
      modifies this`readGuard, this`sideEffectGuard, connection`readers, connection`sideEffect
      ensures Valid(connection) && Snapshot() == old(Snapshot()).(readGuard := false, sideEffectGuard := false)
      ensures connection.Snapshot() == Released(old(connection.Snapshot()), old(Snapshot()), Snapshot())
    {
      DropReadGuard(connection);
      DropSideEffectGuard(connection);
    }

    method RecoverInterrupt(connection: Connection)
      requires Valid(connection) && !terminal
      modifies this, connection
      ensures Valid(connection) && SameExecution(old(Snapshot()), Snapshot()) && accepted == old(accepted)
      ensures !terminal ==> Snapshot() == old(Snapshot()) && connection.Snapshot() == old(connection.Snapshot())
      ensures connection.db == old(connection.db) || connection.db == old(connection.db).RolledBack()
      ensures terminal ==>
        && !readGuard && !sideEffectGuard && old(Snapshot()).OwnsCleanup()
        && FailedClosed(Released(old(connection.Snapshot()), old(Snapshot()), Snapshot()), connection.Snapshot())
    {
      if mutating || explicit || sideEffectGuard {
        hide Closed, GivenUp;
        ghost var s := connection.Snapshot();
        var recovered := connection.Recover();
        if recovered.Err? || recovered.value {
          ClosedThenReleased(s, connection.Snapshot(), Snapshot(),
            Exec(false, false, explicit, mutating, true, serial));
          DropGuards(connection);
          terminal := true;
        }
      }
    }

    /** The common exit of a failed explicit call that no interrupt recovery ended. */
    method FailExplicit(connection: Connection)
      requires Valid(connection) && explicit && !terminal
      modifies this, connection
      ensures Valid(connection) && accepted == old(accepted)
      ensures Snapshot() == old(Snapshot()).(readGuard := false, terminal := true)
      ensures FailClosedPost(Released(old(connection.Snapshot()), old(Snapshot()), Snapshot()), connection.Snapshot())
    {
      terminal := true;
      DropReadGuard(connection);
      var _ := connection.FailClosedSqlTransaction(Storage);
    }

    method NextBatch(connection: Connection) returns (ok: bool)
      requires Valid(connection) && !terminal
      modifies this, connection
      ensures Valid(connection)
      ensures NextPost(old(connection.Snapshot()), old(Snapshot()), ok, connection.Snapshot(), Snapshot())
      ensures ok == accepted
    {
      ok := CallCursor(connection);
      if ok { return; }
      ghost var d := connection.db;
      RecoverInterrupt(connection);
      if explicit && !terminal {
        FailExplicit(connection);
      }
      ExitIsFailedCall(old(connection.Snapshot()), old(Snapshot()), d, connection.Snapshot(), Snapshot());
    }

    method Complete(connection: Connection) returns (ok: bool)
      requires Valid(connection) && !terminal
      modifies this, connection
      ensures Valid(connection)
      ensures CompletePost(old(connection.Snapshot()), old(Snapshot()), ok, connection.Snapshot(), Snapshot())
      ensures ok <==> accepted && (explicit && mutating ==> old(connection.record).Some?)
    {
      hide FailedCall, FailedClosed, FailClosedPost, CursorEffect;
      ok := CallCursor(connection);
      ghost var d := connection.db;
      if ok && (explicit && mutating ==> connection.record.Some?) {
        CompleteDone(connection);
        return;
      }
      // A success without its record: "explicit transaction state disappeared
      // during execution".
      FailCompletion(connection, !ok);
      ok := false;
      ExitIsFailedCall(old(connection.Snapshot()), old(Snapshot()), d, connection.Snapshot(), Snapshot());
    }

    /** The exits of a completion that failed, in the engine or for want of its record. */
    method FailCompletion(connection: Connection, inEngine: bool)
      requires Valid(connection) && !terminal
      modifies this, connection
      ensures Valid(connection) && accepted == old(accepted) && SameExecution(old(Snapshot()), Snapshot())
      ensures !readGuard && (!terminal ==> sideEffectGuard == old(sideEffectGuard))
      ensures var freed := Released(old(connection.Snapshot()), old(Snapshot()), Snapshot());
        || (old(Snapshot()).OwnsCleanup() && terminal && FailedClosed(freed, connection.Snapshot()))
        || (explicit && terminal && FailClosedPost(freed, connection.Snapshot()))
        || (!explicit && connection.Snapshot() == freed)
      ensures
        || (explicit && old(connection.record).Some?)
        || connection.db == old(connection.db) || connection.db == old(connection.db).RolledBack()
    {
      hide FailedClosed;
      if inEngine {
        RecoverInterrupt(connection);
      }
      if explicit && !terminal {
        FailExplicit(connection);
      } else {
        DropReadGuard(connection);
      }
    }

    method CompleteDone(connection: Connection)
      requires Valid(connection) && !terminal && (explicit && mutating ==> connection.record.Some?)
      modifies this, connection
      ensures Valid(connection) && accepted == old(accepted)
      ensures Snapshot() == old(Snapshot()).(readGuard := false, sideEffectGuard := false, terminal := true)
      ensures connection.Snapshot() ==
        Released(old(connection.Snapshot()), old(Snapshot()), Snapshot()).(
          record := if explicit && mutating then Some(old(connection.record).value.(mutated := true))
                    else old(connection.record))
    {
      if explicit && mutating {
        connection.record := Some(connection.record.value.(mutated := true));
      }
      DropGuards(connection);
      terminal := true;
    }

    /** Cancels the cursor and lets an interrupted owner roll back. */
    method CancelCursor(connection: Connection) returns (ok: bool, ghost d: Db)
      requires Valid(connection)
      modifies connection
      ensures Valid(connection)
      ensures CancelEffect(old(connection.Snapshot()), sideEffectGuard, d)
      ensures connection.db == d || connection.db == d.RolledBack()
      ensures var s := old(connection.Snapshot()).(db := d);
        || connection.Snapshot() == s
        || (Snapshot().OwnsCleanup() && FailedClosed(s, connection.Snapshot()))
      ensures !Snapshot().OwnsCleanup() ==>
        d == old(connection.db) && connection.Snapshot() == old(connection.Snapshot())
    {
      ok, d := true, connection.db;
      if mutating || explicit || sideEffectGuard {
        // A reader's cursor releases only private spill storage.
        ok := UndoCursor(connection);
        d := connection.db;
        var recovered := connection.Recover();
        ok := ok && recovered.Ok?;
      }
    }

    method Cancel(connection: Connection) returns (ok: bool)
      requires Valid(connection)
      modifies this, connection
      ensures Valid(connection)
      ensures CancelPost(old(connection.Snapshot()), old(Snapshot()), connection.Snapshot(), Snapshot())
    {
      if terminal {
        DropReadGuard(connection);
        return true;
      }
      hide FailedCall, FailedClosed, FailClosedPost, CursorEffect;
      ghost var d;
      ghost var s, e := connection.Snapshot(), Snapshot();
      ok, d := CancelCursor(connection);
      ghost var after := connection.Snapshot();
      DropGuards(connection);
      terminal := true;
      if explicit && !connection.quarantined {
        var abort := connection.AbortActive();
        ok := ok && abort.Ok?;
      }
      CancelExit(s, e, d, after, connection.Snapshot());
    }
  }
}
