/** Runs of the connection protocol.  A step is any call whose contract the
    classes `Connection` and `AdapterExecution` establish, or something the host
    does; SQLite may refuse or roll back at every statement. */
module Protocol {
  import opened Wrappers
  import opened Sqlite
  import opened Connections
  import opened Executions

  /** One connection and the executions that are alive on it. */
  datatype World = World(conn: Conn, execs: map<nat, Exec>)

  datatype Action =
    | TxBegin(options: Option<BeginOptions>, activeBranch: string, begun: Result<nat, Error>)
    | TxCommit(committed: Result<nat, Error>)
    | TxAbort(aborted: Result<(), Error>)
    | MalformedCall
    | Version(read: Result<(), Error>)
    | Prepare(plan: Plan, id: nat, prepared: Option<Exec>)
    | NextBatch(id: nat, ok: bool)
    | Complete(id: nat, ok: bool)
    | Cancel(id: nat)
    | Drop(id: nat)
    | Savepoint(owner: Option<nat>, answer: Result<int, Error>)
    | HostStatement
    | OtherConnectionCommits(image: Image)

  ghost predicate SavepointStep(s: Conn, r: Result<int, Error>, s': Conn) {
    exists name: Name, outcome: Option<OperationRun>, monitor: Monitor ::
      SavepointPost(s, name, outcome, r, s', monitor)
  }

  /** The execution an invocation runs has its side-effect guard to give up, and
      is over when it has. */
  ghost predicate GivesUpGuard(w: World, owner: Option<nat>, w': World) {
    match owner
    case None => w'.execs == w.execs && w'.conn.sideEffect == w.conn.sideEffect
    case Some(id) =>
      && id in w.execs && id in w'.execs && w'.execs == w.execs[id := w'.execs[id]]
      && w.execs[id].sideEffectGuard && SameExecution(w.execs[id], w'.execs[id])
      && w'.execs[id].readGuard == w.execs[id].readGuard && w'.execs[id].sideEffectGuard == w'.conn.sideEffect
      && (w'.conn.sideEffect || w'.execs[id].terminal)
  }

  /** The host's own SQL.  While a record is present it contains no BEGIN, COMMIT
      or ROLLBACK, but SQLite may still roll the transaction back under it. */
  ghost predicate HostStep(s: Conn, s': Conn) {
    && s'.db.Valid() && s' == s.(db := s'.db)
    && (s.record.Some? && !s.db.mode.Autocommit? ==>
          || s'.db == s.db.RolledBack()
          || (s'.db.committed == s.db.committed && s'.db.mode == s.db.mode))
  }

  /** A driver calls the cursor only while the execution is live and holds its guard. */
  predicate Callable(w: World, id: nat) {
    && id in w.execs && Registered(w.conn, w.execs[id]) && !w.execs[id].terminal
    && (w.execs[id].readGuard || w.execs[id].sideEffectGuard)
  }

  ghost predicate Step(w: World, a: Action, w': World) {
    match a
    case TxBegin(options, activeBranch, r) =>
      w'.execs == w.execs && BeginPost(w.conn, options, activeBranch, r, w'.conn)
    case TxCommit(r) => w'.execs == w.execs && CommitPost(w.conn, r, w'.conn)
    case TxAbort(r) => w'.execs == w.execs && AbortPost(w.conn, r, w'.conn)
    case MalformedCall =>
      w'.execs == w.execs && (FailClosedPost(w.conn, w'.conn) || (w.conn.quarantined && w'.conn == w.conn))
    case Version(r) =>
      && w'.execs == w.execs && w'.conn == w.conn.(db := w'.conn.db)
      && (w'.conn.db == w.conn.db || (r.Err? && w'.conn.db == w.conn.db.RolledBack()))
    case Prepare(plan, id, r) =>
      && PreparePost(w.conn, plan, r, w'.conn)
      && if r.Some? then id !in w.execs && w'.execs == w.execs[id := r.value] else w'.execs == w.execs
    case NextBatch(id, ok) =>
      && Callable(w, id) && id in w'.execs && w'.execs == w.execs[id := w'.execs[id]]
      && NextPost(w.conn, w.execs[id], ok, w'.conn, w'.execs[id])
    case Complete(id, ok) =>
      && Callable(w, id) && id in w'.execs && w'.execs == w.execs[id := w'.execs[id]]
      && CompletePost(w.conn, w.execs[id], ok, w'.conn, w'.execs[id])
    case Cancel(id) =>
      && id in w.execs && Registered(w.conn, w.execs[id])
      && id in w'.execs && w'.execs == w.execs[id := w'.execs[id]]
      && CancelPost(w.conn, w.execs[id], w'.conn, w'.execs[id])
    case Drop(id) =>
      && id in w.execs && Registered(w.conn, w.execs[id]) && w'.execs == w.execs - {id}
      && w'.conn == Released(w.conn, w.execs[id], w.execs[id].(readGuard := false, sideEffectGuard := false))
    case Savepoint(owner, r) =>
      w.conn.record.None? && SavepointStep(w.conn, r, w'.conn) && GivesUpGuard(w, owner, w')
    case HostStatement => w'.execs == w.execs && HostStep(w.conn, w'.conn)
    case OtherConnectionCommits(image) =>
      && w.conn.db.mode.Autocommit?
      && w' == w.(conn := w.conn.(db := Db(image, image, Autocommit, [])))
  }

  // ---- the invariant -------------------------------------------------------

  ghost function Readers(execs: map<nat, Exec>): set<nat> {
    set id | id in execs && execs[id].readGuard
  }

  ghost function Writers(execs: map<nat, Exec>): set<nat> {
    set id | id in execs && execs[id].sideEffectGuard
  }

  /** The registries count exactly the guards that are held, and never both kinds. */
  ghost predicate Counted(w: World) {
    && w.conn.readers == |Readers(w.execs)|
    && (w.conn.sideEffect <==> Writers(w.execs) != {})
    && (forall i, j :: i in Writers(w.execs) && j in Writers(w.execs) ==> i == j)
    && (w.conn.sideEffect ==> w.conn.readers == 0)
  }

  /** What a live execution holds, and which transaction it can possibly touch. */
  ghost predicate Owned(c: Conn, e: Exec) {
    && e.serial <= c.serial
    && (!e.terminal ==>
         && !(e.readGuard && e.sideEffectGuard)
         && (e.explicit ==> e.readGuard || e.sideEffectGuard)
         && (e.mutating ==> e.sideEffectGuard)
         && (c.record.Some? && (e.readGuard || e.sideEffectGuard) ==> e.explicit && e.serial == c.record.value.serial))
  }

  ghost predicate Inv(w: World) {
    && w.conn.db.Valid()
    && Counted(w)
    && (w.conn.record.Some? ==> w.conn.record.value.serial <= w.conn.serial)
    && forall id :: id in w.execs ==> Owned(w.conn, w.execs[id])
  }

  /** The record of a healthy connection describes an open transaction whose base
      is still the committed head of its Branch. */
  ghost predicate RecordOpen(c: Conn) {
    !c.quarantined && c.record.Some? ==>
      && c.db.mode.Begun?
      && c.record.value.branch in c.db.committed.heads
      && c.db.committed.heads[c.record.value.branch] == c.record.value.base
  }

  // ---- one step ------------------------------------------------------------

  /** Replacing one execution by one that holds fewer guards. */
  lemma GuardsGivenUp(w: World, id: nat, e': Exec)
    requires Inv(w) && id in w.execs && SameExecution(w.execs[id], e')
    ensures Registered(w.conn, w.execs[id])
    ensures Counted(World(Released(w.conn, w.execs[id], e'), w.execs[id := e']))
  {
    assert Owned(w.conn, w.execs[id]);
    ReadersAfter(w.execs, id, e');
    WritersAfter(w.execs, id, e');
    hide Readers, Writers;
  }

  lemma ReadersAfter(execs: map<nat, Exec>, id: nat, e': Exec)
    requires id in execs && (e'.readGuard ==> execs[id].readGuard)
    ensures execs[id].readGuard <==> id in Readers(execs)
    ensures Readers(execs[id := e']) == if e'.readGuard then Readers(execs) else Readers(execs) - {id}
  {
  }

  lemma WritersAfter(execs: map<nat, Exec>, id: nat, e': Exec)
    requires id in execs && (e'.sideEffectGuard ==> execs[id].sideEffectGuard)
    ensures execs[id].sideEffectGuard <==> id in Writers(execs)
    ensures Writers(execs[id := e']) == if e'.sideEffectGuard then Writers(execs) else Writers(execs) - {id}
  {
  }

  lemma CallKeepsInv(w: World, id: nat, w': World)
    requires Inv(w) && id in w.execs && id in w'.execs && w'.execs == w.execs[id := w'.execs[id]]
    requires Registered(w.conn, w.execs[id]) && SameExecution(w.execs[id], w'.execs[id])
    requires Owned(w'.conn, w'.execs[id]) && w'.conn.db.Valid()
    requires w'.conn.serial == w.conn.serial
    requires w'.conn.readers == Released(w.conn, w.execs[id], w'.execs[id]).readers
    requires w'.conn.sideEffect == Released(w.conn, w.execs[id], w'.execs[id]).sideEffect
    requires w'.conn.record.Some? ==> w.conn.record.Some? && w'.conn.record.value.serial == w.conn.record.value.serial
    ensures Inv(w')
  {
    GuardsGivenUp(w, id, w'.execs[id]);
    forall i | i in w'.execs ensures Owned(w'.conn, w'.execs[i]) {
      if i != id { assert Owned(w.conn, w.execs[i]); }
    }
  }

  lemma PrepareKeepsInv(w: World, plan: Plan, id: nat, e: Exec, w': World)
    requires Inv(w) && PreparePost(w.conn, plan, Some(e), w'.conn) && id !in w.execs && w'.execs == w.execs[id := e]
    ensures Inv(w')
  {
    if plan.SideEffecting() {
      assert Readers(w'.execs) == Readers(w.execs);
      assert Writers(w'.execs) == Writers(w.execs) + {id};
    } else {
      assert Readers(w'.execs) == Readers(w.execs) + {id};
      assert Writers(w'.execs) == Writers(w.execs);
    }
    forall i | i in w'.execs ensures Owned(w'.conn, w'.execs[i]) {
      if i != id { assert Owned(w.conn, w.execs[i]); }
    }
  }

  /** A call on the connection itself that moves no guard. */
  lemma ConnectionCallKeepsInv(w: World, w': World)
    requires Inv(w) && w'.execs == w.execs && w'.conn.db.Valid()
    requires w'.conn.readers == w.conn.readers && w'.conn.sideEffect == w.conn.sideEffect
    requires w.conn.serial <= w'.conn.serial
    requires w'.conn.record.Some? ==> w'.conn.record.value.serial <= w'.conn.serial
    requires w'.conn.record.Some? ==>
      || (w.conn.record.Some? && w'.conn.record.value.serial == w.conn.record.value.serial)
      || (w.conn.readers == 0 && !w.conn.sideEffect)
    ensures Inv(w')
  {
    forall i | i in w'.execs ensures Owned(w'.conn, w'.execs[i]) {
      assert Owned(w.conn, w.execs[i]);
      assert w.execs[i].readGuard ==> i in Readers(w.execs);
      assert w.execs[i].sideEffectGuard ==> i in Writers(w.execs);
    }
  }

  lemma DropKeepsInv(w: World, id: nat, w': World)
    requires Inv(w) && Step(w, Drop(id), w')
    ensures Inv(w')
  {
    var none := w.execs[id].(readGuard := false, sideEffectGuard := false);
    GuardsGivenUp(w, id, none);
    assert Readers(w'.execs) == Readers(w.execs[id := none]);
    assert Writers(w'.execs) == Writers(w.execs[id := none]);
    forall i | i in w'.execs ensures Owned(w'.conn, w'.execs[i]) {
      assert Owned(w.conn, w.execs[i]);
    }
  }

  lemma FailedCallKeepsInv(w: World, id: nat, w': World)
    requires Inv(w) && id in w.execs && id in w'.execs && w'.execs == w.execs[id := w'.execs[id]]
    requires Registered(w.conn, w.execs[id]) && FailedCall(w.conn, w.execs[id], w'.conn, w'.execs[id])
    requires var e := w'.execs[id]; !e.terminal ==>
      && e.sideEffectGuard == w.execs[id].sideEffectGuard
      && (e.explicit ==> e.readGuard || e.sideEffectGuard)
    ensures Inv(w')
  {
    assert Owned(w.conn, w.execs[id]);
    CallKeepsInv(w, id, w');
  }

  lemma CursorStepKeepsInv(w: World, a: Action, w': World)
    requires Inv(w) && Step(w, a, w') && (a.NextBatch? || a.Complete? || a.Cancel?)
    ensures Inv(w')
  {
    var e, e' := w.execs[a.id], w'.execs[a.id];
    assert Owned(w.conn, e);
    if a.Cancel? {
      if e.terminal { CallKeepsInv(w, a.id, w'); } else { FailedCallKeepsInv(w, a.id, w'); }
    } else if a.ok {
      CallKeepsInv(w, a.id, w');
    } else {
      FailedCallKeepsInv(w, a.id, w');
    }
  }

  lemma SavepointKeepsInv(w: World, owner: Option<nat>, r: Result<int, Error>, w': World)
    requires Inv(w) && Step(w, Action.Savepoint(owner, r), w')
    ensures Inv(w') && w'.conn.record.None?
  {
    if owner.Some? {
      assert Owned(w.conn, w.execs[owner.value]);
      GuardsGivenUp(w, owner.value, w'.execs[owner.value]);
      CallKeepsInv(w, owner.value, w');
    } else {
      ConnectionCallKeepsInv(w, w');
    }
  }

  /** A scalar write that ran inside a savepoint, as `Rows.CollectInSavepoint` leaves
      it, is such a step. */
  lemma ScalarWriteIsStep(
    w: World, id: nat, name: Name, outcome: Option<OperationRun>, r: Result<int, Error>, c: Conn, e': Exec,
    monitor: Monitor)
    requires id in w.execs && w.conn.record.None? && w.execs[id].sideEffectGuard && !w.execs[id].readGuard
    requires SavepointPost(w.conn, name, outcome, r, c, monitor) && SameExecution(w.execs[id], e')
    requires c.sideEffect == e'.sideEffectGuard && (c.sideEffect || e'.terminal)
    ensures Step(w, Action.Savepoint(Some(id), r), World(c, w.execs[id := e']))
  {
    assert SavepointStep(w.conn, r, c);
  }

  lemma TransactionCallKeepsInv(w: World, a: Action, w': World)
    requires Inv(w) && Step(w, a, w') && (a.TxBegin? || a.TxCommit? || a.TxAbort? || a.MalformedCall?)
    ensures Inv(w')
  {
    ConnectionCallKeepsInv(w, w');
  }

  /** Every step of every call keeps the guard and ownership invariant. */
  lemma StepKeepsInv(w: World, a: Action, w': World)
    requires Inv(w) && Step(w, a, w')
    ensures Inv(w')
  {
    match a
    case Prepare(plan, id, r) =>
      if r.Some? { PrepareKeepsInv(w, plan, id, r.value, w'); } else { ConnectionCallKeepsInv(w, w'); }
    case NextBatch(_, _) => CursorStepKeepsInv(w, a, w');
    case Complete(_, _) => CursorStepKeepsInv(w, a, w');
    case Cancel(_) => CursorStepKeepsInv(w, a, w');
    case Drop(id) => DropKeepsInv(w, id, w');
    case Savepoint(owner, r) => SavepointKeepsInv(w, owner, r, w');
    case Version(_) => ConnectionCallKeepsInv(w, w');
    case HostStatement => ConnectionCallKeepsInv(w, w');
    case OtherConnectionCommits(_) => ConnectionCallKeepsInv(w, w');
    case TxBegin(_, _, _) => TransactionCallKeepsInv(w, a, w');
    case TxCommit(_) => TransactionCallKeepsInv(w, a, w');
    case TxAbort(_) => TransactionCallKeepsInv(w, a, w');
    case MalformedCall => TransactionCallKeepsInv(w, a, w');
  }

  // ---- explicit transactions -----------------------------------------------

  /** SQLite rolled an explicit transaction back under a statement that no
      fail-closed path watches: `lithograph_version`, or the host's own SQL. */
  ghost predicate LosesTransaction(w: World, a: Action, w': World) {
    && (a.Version? || a.HostStatement?)
    && !w.conn.quarantined && w.conn.record.Some? && w'.conn.db == w.conn.db.RolledBack()
  }

  lemma StepKeepsRecordOpen(w: World, a: Action, w': World)
    requires Inv(w) && RecordOpen(w.conn) && Step(w, a, w') && !LosesTransaction(w, a, w')
    ensures RecordOpen(w'.conn)
  {
    match a
    case NextBatch(id, _) => assert Owned(w.conn, w.execs[id]);
    case Complete(id, _) => assert Owned(w.conn, w.execs[id]);
    case Cancel(id) => assert Owned(w.conn, w.execs[id]);
    case Savepoint(owner, r) => SavepointKeepsInv(w, owner, r, w');
    case _ =>
  }

  /** A call refused before it did anything: these refusals leave an explicit
      transaction as it is. */
  predicate Refused(w: World, a: Action) {
    match a
    case TxBegin(_, _, _) => w.conn.quarantined || w.conn.record.Some?
    case TxCommit(_) => w.conn.quarantined || w.conn.sideEffect || w.conn.readers != 0 || w.conn.record.None?
    case TxAbort(_) => w.conn.quarantined || w.conn.sideEffect || w.conn.readers != 0 || w.conn.record.None?
    case Prepare(_, _, _) => w.conn.quarantined || w.conn.sideEffect
    case _ => false
  }

  predicate Failed(a: Action) {
    match a
    case TxBegin(_, _, r) => r.Err?
    case TxCommit(r) => r.Err?
    case TxAbort(_) => true
    case MalformedCall => true
    case Prepare(_, _, r) => r.None?
    case NextBatch(_, ok) => !ok
    case Complete(_, ok) => !ok
    case Cancel(_) => true
    case _ => false
  }

  // ---- whole runs ----------------------------------------------------------

  ghost predicate Initial(w: World) {
    w.execs == map[]
      && w.conn == Conn(Db(w.conn.db.committed, w.conn.db.committed, Autocommit, []), None, 0, false, false, 0)
  }

  /** `actions[i]` leads from `worlds[i]` to `worlds[i + 1]`. */
  ghost predicate Run(worlds: seq<World>, actions: seq<Action>) {
    && |worlds| == |actions| + 1 && Initial(worlds[0])
    && forall i :: 0 <= i < |actions| ==> Step(worlds[i], actions[i], worlds[i + 1])
  }

  lemma {:induction false} RunKeepsInv(worlds: seq<World>, actions: seq<Action>, n: nat)
    requires Run(worlds, actions) && n < |worlds|
    ensures Inv(worlds[n])
  {
    if n == 0 {
      assert Readers(worlds[0].execs) == {} && Writers(worlds[0].execs) == {};
    } else {
      RunKeepsInv(worlds, actions, n - 1);
      StepKeepsInv(worlds[n - 1], actions[n - 1], worlds[n]);
    }
  }

  lemma {:induction false} RunKeepsRecordOpen(worlds: seq<World>, actions: seq<Action>, n: nat)
    requires Run(worlds, actions) && n < |worlds|
    requires forall i :: 0 <= i < n ==> !LosesTransaction(worlds[i], actions[i], worlds[i + 1])
    ensures RecordOpen(worlds[n].conn)
  {
    if n > 0 {
      RunKeepsRecordOpen(worlds, actions, n - 1);
      RunKeepsInv(worlds, actions, n - 1);
      StepKeepsRecordOpen(worlds[n - 1], actions[n - 1], worlds[n]);
    }
  }

  /** Failing closed: at any point of any run that has not lost its transaction,
      a failure, abort or cancellation inside an explicit transaction is either
      refused outright and changes nothing, or ends with the record gone,
      autocommit on and the Branch head at the base Commit, or quarantines the
      connection; in no case is anything staged committed. */
  lemma FailureEndsClosed(worlds: seq<World>, actions: seq<Action>, n: nat)
    requires Run(worlds, actions) && n < |actions| && Failed(actions[n])
    requires forall i :: 0 <= i < n ==> !LosesTransaction(worlds[i], actions[i], worlds[i + 1])
    requires !worlds[n].conn.quarantined && worlds[n].conn.record.Some?
    requires actions[n].NextBatch? || actions[n].Complete? || actions[n].Cancel? ==>
      && actions[n].id in worlds[n].execs
      && worlds[n].execs[actions[n].id].explicit && !worlds[n].execs[actions[n].id].terminal
    ensures
      var c, c' := worlds[n].conn, worlds[n + 1].conn;
      if Refused(worlds[n], actions[n]) then c' == c
      else
        && c'.db.committed == c.db.committed
        && (|| c'.quarantined
            || (&& c'.record.None? && c'.db.mode.Autocommit? && c'.db == c.db.RolledBack()
                && c.record.value.branch in c'.db.working.heads
                && c'.db.working.heads[c.record.value.branch] == c.record.value.base))
  {
    RunKeepsInv(worlds, actions, n);
    RunKeepsRecordOpen(worlds, actions, n);
    assert Step(worlds[n], actions[n], worlds[n + 1]);
  }

  /** Over every run, the only explicit transaction an execution can end or roll
      back is the one it was prepared in, never a later one. */
  lemma OnlyOwnTransactionIsEnded(worlds: seq<World>, actions: seq<Action>, n: nat)
    requires Run(worlds, actions) && n < |actions|
    requires actions[n].NextBatch? || actions[n].Complete? || actions[n].Cancel? || actions[n].Drop?
    requires worlds[n].conn.record.Some?
    requires worlds[n + 1].conn.record.None? || worlds[n + 1].conn.db != worlds[n].conn.db
    ensures actions[n].id in worlds[n].execs
    ensures var e := worlds[n].execs[actions[n].id];
      e.explicit && e.serial == worlds[n].conn.record.value.serial
  {
    RunKeepsInv(worlds, actions, n);
    assert Step(worlds[n], actions[n], worlds[n + 1]);
    assert Owned(worlds[n].conn, worlds[n].execs[actions[n].id]);
  }

  /** Over every run, a live explicit execution blocks the next transaction, even
      after a malformed call rolled its own transaction back underneath it. */
  lemma LiveExecutionBlocksBegin(worlds: seq<World>, actions: seq<Action>, n: nat, id: nat)
    requires Run(worlds, actions) && n < |actions| && actions[n].TxBegin?
    requires id in worlds[n].execs && !worlds[n].execs[id].terminal && worlds[n].execs[id].explicit
    ensures actions[n].begun.Err?
    ensures worlds[n + 1].conn.record == worlds[n].conn.record
  {
    var w := worlds[n];
    RunKeepsInv(worlds, actions, n);
    assert Step(w, actions[n], worlds[n + 1]);
    assert Owned(w.conn, w.execs[id]);
    assert w.execs[id].readGuard ==> id in Readers(w.execs);
    assert w.execs[id].sideEffectGuard ==> id in Writers(w.execs);
  }

  /** Over every run, a healthy connection that holds a record has its transaction
      open, exactly when no unwatched statement lost one. */
  lemma RecordOpenThroughoutIff(worlds: seq<World>, actions: seq<Action>)
    requires Run(worlds, actions)
    ensures (forall n :: 0 <= n < |worlds| ==> RecordOpen(worlds[n].conn))
       <==> (forall i :: 0 <= i < |actions| ==> !LosesTransaction(worlds[i], actions[i], worlds[i + 1]))
  {
    if forall i :: 0 <= i < |actions| ==> !LosesTransaction(worlds[i], actions[i], worlds[i + 1]) {
      forall n | 0 <= n < |worlds| ensures RecordOpen(worlds[n].conn) {
        RunKeepsRecordOpen(worlds, actions, n);
      }
    } else {
      var i :| 0 <= i < |actions| && LosesTransaction(worlds[i], actions[i], worlds[i + 1]);
      assert !RecordOpen(worlds[i + 1].conn);
    }
  }

  /** The exception is reachable: `lithograph_version` inside an explicit
      transaction, on a statement that SQLite answers by rolling back. */
  lemma VersionCanLoseTransaction(image: Image, branch: string) returns (worlds: seq<World>, actions: seq<Action>)
    requires branch in image.heads
    ensures Run(worlds, actions) && |worlds| == 3
    ensures worlds[1].conn.record.Some? && RecordOpen(worlds[1].conn)
    ensures !worlds[2].conn.quarantined && worlds[2].conn.record.Some? && worlds[2].conn.db.mode.Autocommit?
  {
    var start := Conn(Db(image, image, Autocommit, []), None, 0, false, false, 0);
    var base := image.heads[branch];
    var begun := start.(db := start.db.(mode := Begun), serial := 1, record := Some(Record(branch, base, false, 1)));
    var lost := begun.(db := begun.db.RolledBack());
    worlds := [World(start, map[]), World(begun, map[]), World(lost, map[])];
    actions := [TxBegin(Some(BeginOptions(Some(branch), None)), branch, Ok(base)), Version(Err(Storage))];
    assert Step(worlds[0], actions[0], worlds[1]);
    assert Step(worlds[1], actions[1], worlds[2]);
  }

  /** Boundary refusals are reachable, and the transaction survives them: begin,
      prepare a reader, and the commit is refused with everything as it was. */
  lemma RefusedCommitKeepsTransaction(image: Image, branch: string) returns (worlds: seq<World>, actions: seq<Action>)
    requires branch in image.heads
    ensures Run(worlds, actions) && |worlds| == 4
    ensures Failed(actions[2]) && actions[2].TxCommit? && Refused(worlds[2], actions[2])
    ensures !worlds[3].conn.quarantined && worlds[3].conn.record.Some? && worlds[3].conn.db.mode.Begun?
    ensures worlds[3] == worlds[2]
  {
    var start := Conn(Db(image, image, Autocommit, []), None, 0, false, false, 0);
    var base := image.heads[branch];
    var begun := start.(db := start.db.(mode := Begun), serial := 1, record := Some(Record(branch, base, false, 1)));
    var reading := begun.(readers := 1);
    var reader := Exec(true, false, true, false, false, 1);
    worlds := [World(start, map[]), World(begun, map[]), World(reading, map[0 := reader]),
      World(reading, map[0 := reader])];
    actions := [
      TxBegin(Some(BeginOptions(Some(branch), None)), branch, Ok(base)),
      Prepare(Plan(false, false, false, false, false), 0, Some(reader)),
      TxCommit(Err(Boundary))];
    assert Step(worlds[0], actions[0], worlds[1]);
    assert Step(worlds[1], actions[1], worlds[2]);
    assert Step(worlds[2], actions[2], worlds[3]);
  }

  /** Over every run, readers and side effects exclude each other and every live
      explicit execution holds exactly one guard. */
  lemma GuardsExclude(worlds: seq<World>, actions: seq<Action>, n: nat, i: nat, j: nat)
    requires Run(worlds, actions) && n < |worlds| && i in worlds[n].execs && j in worlds[n].execs
    ensures !(worlds[n].execs[i].readGuard && worlds[n].execs[j].sideEffectGuard)
    ensures worlds[n].execs[i].sideEffectGuard && worlds[n].execs[j].sideEffectGuard ==> i == j
    ensures var e := worlds[n].execs[i];
      e.explicit && !e.terminal ==> e.readGuard != e.sideEffectGuard
  {
    RunKeepsInv(worlds, actions, n);
    assert worlds[n].execs[i].readGuard ==> i in Readers(worlds[n].execs);
    assert worlds[n].execs[i].sideEffectGuard ==> i in Writers(worlds[n].execs);
    assert worlds[n].execs[j].sideEffectGuard ==> j in Writers(worlds[n].execs);
    assert Owned(worlds[n].conn, worlds[n].execs[i]);
  }
}
