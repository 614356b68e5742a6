/** The streaming cursor behind `lithograph_rows`, and the scalar path that collects
    the same rows at once. */
module Rows {
  import opened Wrappers
  import opened Values
  import Json
  import JsonLaws
  import opened Sqlite
  import opened Connections
  import opened Executions

  type Row = seq<Value>

  datatype Kind = Columns | RowKind | Summary

  datatype Event = Event(kind: Kind, data: string)

  /** What the host sees of the current event. */
  datatype Seen = Seen(ordinal: int, event: Event)

  /** What a query turns out to be: its plan, whether its texts are accepted and the
      storage format is current, and what it delivers. */
  datatype Query = Query(
    plan: Plan, textOk: bool, formatCurrent: bool,
    columns: string, rows: seq<Row>, summary: string, limited: bool, idle: nat)

  datatype Batch = Batch(rows: seq<Row>, done: bool, summary: Option<string>)

  const ROWS_PREFETCH := 256

  /** One row as a JSON array, with the denied properties left out. */
  function RowJson(row: Row, allow: Json.Allow): Json.Json {
    Json.JArray(Json.EncodeItems(row, allow))
  }

  function RowTexts(rows: seq<Row>, allow: Json.Allow, write: Json.Json -> string): (texts: seq<string>)
    ensures |texts| == |rows|
  {
    seq(|rows|, i requires 0 <= i < |rows| => write(RowJson(rows[i], allow)))
  }

  /** What a row may show: its values with the denied properties deleted beforehand. */
  function Delivered(rows: seq<Row>, allow: Json.Allow): (items: seq<Json.Json>)
    ensures |items| == |rows|
  {
    seq(|rows|, i requires 0 <= i < |rows| =>
      Json.JArray(Json.EncodeItems(Json.StrippedItems(rows[i], allow), Json.ALL)))
  }

  function Written(items: seq<Json.Json>, write: Json.Json -> string): (texts: seq<string>)
    ensures |texts| == |items|
  {
    seq(|items|, i requires 0 <= i < |items| => write(items[i]))
  }

  /** Both paths deliver nothing that is denied. */
  lemma {:induction false} NothingDeniedIsDelivered(rows: seq<Row>, allow: Json.Allow, write: Json.Json -> string)
    ensures RowTexts(rows, allow, write) == Written(Delivered(rows, allow), write)
    ensures RowJsons(rows, allow) == Delivered(rows, allow)
  {
    forall i | 0 <= i < |rows|
      ensures RowJson(rows[i], allow) == Delivered(rows, allow)[i]
    {
      JsonLaws.FilteredItems(rows[i], allow);
    }
  }

  // ---- what a stream of events may be -----------------------------------------------------

  function Ordinal(i: nat): int {
    if i < I64_MAX then i else I64_MAX
  }

  /** The events of a whole stream: columns, one event per row, the summary. */
  function WholeStream(columns: string, texts: seq<string>, summary: string): (log: seq<Seen>)
    ensures |log| == |texts| + 2
  {
    seq(|texts| + 2, i requires 0 <= i < |texts| + 2 =>
      Seen(Ordinal(i),
        if i == 0 then Event(Columns, columns) else if i <= |texts| then Event(RowKind, texts[i - 1])
          else Event(Summary, summary)))
  }

  /** The texts of the row events, in order. */
  function RowData(log: seq<Seen>): seq<string> {
    if log == [] then []
    else (if log[0].event.kind == RowKind then [log[0].event.data] else []) + RowData(log[1..])
  }

  predicate Finished(log: seq<Seen>) {
    log != [] && log[|log| - 1].event.kind == Summary
  }

  /** A prefix of a whole stream that ends in its summary is the whole stream. */
  lemma FinishedIsWhole(log: seq<Seen>, columns: string, texts: seq<string>, summary: string)
    requires log <= WholeStream(columns, texts, summary)
    ensures Finished(log) <==> log == WholeStream(columns, texts, summary)
  {
  }

  lemma {:induction false} RowDataOfWhole(columns: string, texts: seq<string>, summary: string, n: nat)
    requires n <= |texts|
    ensures RowData(WholeStream(columns, texts, summary)[|texts| + 1 - n..]) == texts[|texts| - n..]
  {
    var tail := WholeStream(columns, texts, summary)[|texts| + 1 - n..];
    if n == 0 {
      assert RowData(tail) == RowData(tail[1..]);
    } else {
      RowDataOfWhole(columns, texts, summary, n - 1);
      assert tail[1..] == WholeStream(columns, texts, summary)[|texts| + 1 - (n - 1)..];
      assert texts[|texts| - n..] == [texts[|texts| - n]] + texts[|texts| - (n - 1)..];
    }
  }

  /** Whatever the batching, a finished stream carries exactly the row texts of the
      query's rows: those the scalar path collects. */
  lemma {:induction false} FinishedCarriesAllRows(
    log: seq<Seen>, columns: string, rows: seq<Row>, allow: Json.Allow, write: Json.Json -> string, summary: string)
    requires log <= WholeStream(columns, RowTexts(rows, allow, write), summary) && Finished(log)
    ensures RowData(log) == RowTexts(rows, allow, write)
  {
    var texts := RowTexts(rows, allow, write);
    FinishedIsWhole(log, columns, texts, summary);
    RowDataOfWhole(columns, texts, summary, |texts|);
    assert log[0].event.kind == Columns;
    assert texts[0..] == texts;
  }

  // ---- the execution a cursor drives ----------------------------------------------------------

  /** A prepared query: the adapter's execution on its connection, and what the
      batches of its cursor deliver.  Any call may fail, and batches may be empty,
      though not forever. */
  class Execution {
    const adapter: AdapterExecution
    const connection: Connection
    const limited: bool
    const columns: string
    const summary: string
    var remaining: seq<Row>
    var idle: nat
    var completed: bool

    constructor (adapter: AdapterExecution, connection: Connection, query: Query)
      requires adapter.Valid(connection)
      ensures this.adapter == adapter && this.connection == connection && Valid() && !completed
      ensures columns == query.columns && remaining == query.rows && summary == query.summary
    {
      this.adapter, this.connection := adapter, connection;
      this.columns, this.remaining, this.summary := query.columns, query.rows, query.summary;
      this.limited, this.idle, this.completed := query.limited, query.idle, false;
    }

    ghost predicate Valid()
      reads this, adapter, connection
    {
      adapter.Valid(connection)
    }

    /** It has done no more since `s` than a writer inside a savepoint of others may. */
    ghost predicate RanInside(s: Conn, failed: bool)
      reads adapter, connection
    {
      Inside(s, failed, connection.Snapshot(), adapter.Snapshot())
    }

    method NextBatch(limit: nat) returns (r: Option<Batch>)
      requires limit > 0 && Valid() && !adapter.terminal
      modifies this, adapter, connection
      ensures Valid() && completed == old(completed) && (r.Some? <==> adapter.accepted)
      ensures NextPost(
        old(connection.Snapshot()), old(adapter.Snapshot()), r.Some?, connection.Snapshot(), adapter.Snapshot())
      ensures r.Some? ==>
        && old(remaining) == r.value.rows + remaining && |r.value.rows| <= limit
        && (r.value.done ==> remaining == [])
        && (!r.value.done ==> |remaining| + idle < old(|remaining| + idle))
        && (r.value.summary.Some? ==> r.value.done && r.value.summary.value == summary)
    {
      hide NextPost;
      var ok := adapter.NextBatch(connection);
      if !ok { return None; }
      var n :| 0 <= n <= limit && n <= |remaining|;
      if n == 0 && idle == 0 && |remaining| > 0 { n := 1; }
      var rows := remaining[..n];
      remaining := remaining[n..];
      var done := false;
      if n == 0 && idle > 0 {
        idle := idle - 1;
      } else if remaining == [] {
        if n == 0 { done := true; } else { done := *; }
      }
      var announced: bool := *;
      return Some(Batch(rows, done, if done && announced then Some(summary) else None));
    }

    /** Publishing the statement's effects. */
    method Complete() returns (ok: bool)
      requires Valid() && !adapter.terminal
      modifies this, adapter, connection
      ensures Valid() && completed == (old(completed) || ok) && remaining == old(remaining)
      ensures ok <==> adapter.accepted && (adapter.explicit && adapter.mutating ==> old(connection.record).Some?)
      ensures CompletePost(
        old(connection.Snapshot()), old(adapter.Snapshot()), ok, connection.Snapshot(), adapter.Snapshot())
    {
      hide CompletePost;
      ok := adapter.Complete(connection);
      if ok { completed := true; }
    }

    method Cancel() returns (ok: bool)
      requires Valid()
      modifies adapter, connection
      ensures Valid()
      ensures CancelPost(old(connection.Snapshot()), old(adapter.Snapshot()), connection.Snapshot(), adapter.Snapshot())
    {
      ok := adapter.Cancel(connection);
    }
  }

  // ---- the cursor as a value -------------------------------------------------------------------------

  /** The cursor's fields and the stream it is showing: what the host has seen, the
      rows of the query, their texts. */
  datatype View = View(
    log: seq<Seen>, results: seq<Row>, texts: seq<string>,
    current: Option<Event>, pending: seq<string>, pendingSummary: Option<string>, ordinal: int, done: bool)

  /** The log is a prefix of the stream, what is pending comes next, and a summary
      was shown only after the execution completed. */
  ghost predicate Following(v: View, columns: string, summary: string, completed: bool, live: bool) {
    && v.log != [] && v.log <= WholeStream(columns, v.texts, summary) && |v.texts| == |v.results|
    && v.ordinal == Ordinal(|v.log| - 1)
    && (v.current.Some? ==> v.log[|v.log| - 1].event == v.current.value)
    && (Finished(v.log) ==> completed && v.pending == [] && !live)
    && (!Finished(v.log) ==>
      |v.log| - 1 + |v.pending| <= |v.texts| && v.pending == v.texts[|v.log| - 1..|v.log| - 1 + |v.pending|])
  }

  /** What is neither shown nor pending is still to come from the execution. */
  ghost predicate Fed(v: View, remaining: seq<Row>, summary: string) {
    && v.log != [] && !Finished(v.log) && |v.log| - 1 + |v.pending| <= |v.results|
    && remaining == v.results[|v.log| - 1 + |v.pending|..]
    && (v.done ==> remaining == [])
    && (v.pendingSummary.Some? ==> v.done && v.pendingSummary.value == summary)
  }

  function NextOrdinal(ordinal: int): int {
    if ordinal < I64_MAX then ordinal + 1 else I64_MAX
  }

  function Shown(v: View, event: Event): View {
    var ordinal := NextOrdinal(v.ordinal);
    v.(ordinal := ordinal, current := Some(event), log := v.log + [Seen(ordinal, event)])
  }

  lemma EmitKeeps(v: View, columns: string, summary: string, completed: bool, live: bool)
    requires Following(v, columns, summary, completed, live) && v.pending != []
    ensures var w := Shown(v.(pending := v.pending[1..]), Event(RowKind, v.pending[0]));
      && Following(w, columns, summary, completed, live) && !Finished(w.log)
      && forall remaining :: Fed(v, remaining, summary) ==> Fed(w, remaining, summary)
  {
  }

  lemma FinishKeeps(v: View, columns: string, summary: string, completed: bool, remaining: seq<Row>)
    requires Following(v, columns, summary, completed, true) && Fed(v, remaining, summary)
    requires v.pending == [] && v.done && v.pendingSummary.Some?
    ensures var w := Shown(v.(pendingSummary := None), Event(Summary, v.pendingSummary.value));
      Following(w, columns, summary, true, false) && Finished(w.log)
  {
  }

  lemma {:induction false} FetchKeeps(
    v: View, columns: string, summary: string, completed: bool, rows: seq<Row>, remaining: seq<Row>,
    allow: Json.Allow, write: Json.Json -> string, done: bool, announced: Option<string>)
    requires v.texts == RowTexts(v.results, allow, write)
    requires Following(v, columns, summary, completed, true) && Fed(v, rows + remaining, summary) && v.pending == []
    requires done ==> remaining == []
    requires announced.Some? ==> done && announced.value == summary
    requires !v.done
    ensures var w := v.(pending := RowTexts(rows, allow, write), done := done,
      pendingSummary := if done then announced else v.pendingSummary);
      Following(w, columns, summary, completed, true) && Fed(w, remaining, summary)
  {
    hide RowTexts, WholeStream, Ordinal, Finished;
    BatchFollows(v.results, |v.log| - 1, rows, remaining, allow, write);
  }

  /** Giving a stream up, or losing its execution, shows nothing more of it. */
  lemma GiveUpKeeps(v: View, columns: string, summary: string, completed: bool, live: bool)
    requires Following(v, columns, summary, completed, live)
    ensures Following(v, columns, summary, completed, false)
    ensures Following(v.(current := None), columns, summary, completed, live)
    ensures forall done :: Following(v.(current := None, pending := [], pendingSummary := None, done := done),
      columns, summary, completed, false)
    ensures forall remaining :: Fed(v, remaining, summary) ==> Fed(v.(current := None), remaining, summary)
  {
  }

  lemma SummaryEndsStream(v: View, columns: string, summary: string, completed: bool, live: bool)
    requires Following(v, columns, summary, completed, live) && v.current.Some? && v.current.value.kind == Summary
    ensures !live && Finished(v.log)
  {
  }

  lemma StartKeeps(columns: string, rows: seq<Row>, texts: seq<string>, summary: string, completed: bool)
    requires |texts| == |rows|
    ensures var event := Event(Columns, columns);
      var v := View([Seen(0, event)], rows, texts, Some(event), [], None, 0, false);
      Following(v, columns, summary, completed, true) && Fed(v, rows, summary)
  {
  }

  // ---- the cursor ----------------------------------------------------------------------------------

  class RowsCursor {
    const connection: Connection
    const allow: Json.Allow
    const write: Json.Json -> string
    var execution: Execution?
    var currentEvent: Option<Event>
    var pendingRows: seq<string>
    var pendingSummary: Option<string>
    var ordinal: int
    var executionDone: bool

    /** The current stream as the host has seen it, the execution it came from, and
        that execution's rows. */
    ghost var log: seq<Seen>
    ghost var source: Execution?
    ghost var results: seq<Row>

    /** Something other than the cursor stood in the way: the engine failed a call or
        ended without a summary, a reservation was refused, a record was gone. */
    ghost var hindered: bool

    ghost function TheView(): View
      reads this
    {
      View(log, results, RowTexts(results, allow, write), currentEvent, pendingRows, pendingSummary, ordinal,
        executionDone)
    }

    /** What a call on this cursor may change. */
    ghost function Reach(): set<object>
      reads this
    {
      {this, connection} + if execution == null then {} else {execution, execution.adapter}
    }

    ghost predicate Valid()
      reads this, connection, execution, source, if execution == null then {} else {execution.adapter}
    {
      && connection.Valid()
      && (execution != null ==> Attached() && !execution.adapter.terminal)
      && (execution != null ==> source == execution && Fed(TheView(), execution.remaining, execution.summary))
      && (source == null ==> log == [] && pendingRows == [] && currentEvent == None)
      && (source != null ==> Following(TheView(), source.columns, source.summary, source.completed, execution != null))
    }

    ghost predicate Attached()
      requires execution != null
      reads this, connection, execution, execution.adapter
    {
      execution.connection == connection && execution.Valid()
    }

    /** The stream's execution was prepared in the explicit transaction that is open. */
    ghost predicate InTransaction()
      reads this, connection, execution, if execution == null then {} else {execution.adapter}
    {
      execution != null && execution.adapter.explicit
        && Accountable(execution.adapter.Snapshot(), connection.Snapshot())
    }

    constructor (connection: Connection, allow: Json.Allow, write: Json.Json -> string)
      requires connection.Valid()
      ensures Valid() && log == [] && source == null && this.connection == connection
    {
      this.connection, this.allow, this.write := connection, allow, write;
      execution, currentEvent, pendingRows, pendingSummary := null, None, [], None;
      ordinal, executionDone := 0, false;
      log, source, results, hindered := [], null, [], false;
    }

    /** The host sees exactly one event more of the same stream. */
    ghost predicate Stepped(before: seq<Seen>)
      reads this
    {
      |log| == |before| + 1 && before <= log && currentEvent == Some(log[|before|].event)
    }

    /** `emit_row` on the first pending row. */
    method EmitPending()
      requires Valid() && pendingRows != [] && source != null
      modifies this
      ensures Valid() && Stepped(old(log)) && !Finished(log)
      ensures execution == old(execution) && source == old(source) && results == old(results)
      ensures hindered == old(hindered) && pendingRows == old(pendingRows)[1..]
    {
      hide Following, Fed, RowTexts;
      EmitKeeps(TheView(), source.columns, source.summary, source.completed, execution != null);
      var row := pendingRows[0];
      pendingRows := pendingRows[1..];
      ordinal := NextOrdinal(ordinal);
      currentEvent := Some(Event(RowKind, row));
      log := log + [Seen(ordinal, currentEvent.value)];
    }

    /** A step that failed has shown nothing and completed nothing; its execution can
        still be cancelled, and its transaction is still accounted for. */
    ghost predicate Unshown(before: View, completed: bool, inTransaction: bool)
      reads this, connection, source, execution, if execution == null then {} else {execution.adapter}
    {
      && log == before.log && results == before.results && ordinal == before.ordinal && currentEvent == None
      && connection.Valid() && (execution != null ==> Attached())
      && (source != null ==> source.completed == completed)
      && (inTransaction ==> InTransaction())
    }

    /** Hindrances are not forgotten, and health is lost only by one. */
    twostate predicate Blamed()
      reads this, connection
    {
      (old(hindered) ==> hindered) && (connection.quarantined ==> old(connection.quarantined) || hindered)
    }

    /** The engine's next batch; a failure inside a transaction leaves it accounted for. */
    method CallNext(limit: nat) returns (batch: Option<Batch>)
      requires execution != null && Attached() && !execution.adapter.terminal && limit > 0
      modifies this`hindered, execution, execution.adapter, connection
      ensures Attached() && execution.completed == old(execution.completed)
      ensures old(InTransaction()) ==> InTransaction()
      ensures Blamed() && (batch.None? ==> hindered)
      ensures batch.Some? ==>
        && !execution.adapter.terminal && |batch.value.rows| <= limit
        && old(execution.remaining) == batch.value.rows + execution.remaining
        && (batch.value.done ==> execution.remaining == [])
        && (!batch.value.done ==>
          |execution.remaining| + execution.idle < old(|execution.remaining| + execution.idle))
        && (batch.value.summary.Some? ==> batch.value.done && batch.value.summary.value == execution.summary)
    {
      hide FailedCall, CursorEffect;
      ghost var s, e := connection.Snapshot(), execution.adapter.Snapshot();
      batch := execution.NextBatch(limit);
      hindered := hindered || !execution.adapter.accepted;
      if batch == None && e.explicit && s.record.Some? {
        FailureEndsTransaction(s, e, connection.Snapshot(), execution.adapter.Snapshot());
      }
    }

    method CallComplete() returns (ok: bool)
      requires execution != null && Attached() && !execution.adapter.terminal
      modifies this`hindered, execution, execution.adapter, connection
      ensures Attached() && execution.completed == (old(execution.completed) || ok)
      ensures !ok && old(InTransaction()) ==> InTransaction()
      ensures Blamed() && (!ok ==> hindered)
    {
      hide FailedCall, CursorEffect;
      ghost var s, e := connection.Snapshot(), execution.adapter.Snapshot();
      ok := execution.Complete();
      hindered := hindered || !execution.adapter.accepted || (e.explicit && s.record.None?);
      if !ok && e.explicit && s.record.Some? {
        FailureEndsTransaction(s, e, connection.Snapshot(), execution.adapter.Snapshot());
      }
    }

    /** `finish_summary`: the summary is shown only once the execution completed. */
    method FinishSummary() returns (ok: bool)
      requires Valid() && pendingRows == [] && executionDone && currentEvent == None
      modifies Reach()
      ensures source == old(source) && results == old(results) && Blamed()
      ensures !ok ==> hindered || old(execution) == null
      ensures ok ==> Valid() && Stepped(old(log)) && Finished(log) && execution == null
      ensures !ok ==>
        execution == old(execution)
          && Unshown(old(TheView()), old(source != null && source.completed), old(InTransaction()))
    {
      hide Following, Fed, RowTexts, Accountable, Finished;
      var candidate := pendingSummary;
      if candidate.Some? && execution != null {
        FinishKeeps(TheView(), source.columns, source.summary, source.completed, execution.remaining);
      }
      pendingSummary := None;
      hindered := hindered || candidate == None;
      if candidate == None { return false; }
      pendingRows := [];
      if execution == null { return false; }
      var written: bool := *;
      hindered := hindered || !written;
      if !written { return false; }
      var completed := CallComplete();
      if !completed { return false; }
      ShowSummary(candidate.value);
      return true;
    }

    /** The last event of a completed execution. */
    method ShowSummary(summary: string)
      requires source != null && source.completed && connection.Valid()
      requires var w := Shown(TheView(), Event(Summary, summary));
        Following(w, source.columns, source.summary, true, false) && Finished(w.log)
      modifies this
      ensures Valid() && Stepped(old(log)) && Finished(log) && execution == null
      ensures source == old(source) && results == old(results) && hindered == old(hindered)
    {
      hide Following, Fed, RowTexts, Finished;
      execution := null;
      ordinal := NextOrdinal(ordinal);
      currentEvent := Some(Event(Summary, summary));
      log := log + [Seen(ordinal, currentEvent.value)];
    }

    /** `encode_pending_rows`: every row is written, or the call fails. */
    method EncodePendingRows(rows: seq<Row>) returns (ok: bool)
      modifies this`pendingRows, this`hindered
      ensures ok ==> pendingRows == old(pendingRows) + RowTexts(rows, allow, write)
      ensures hindered == (old(hindered) || !ok)
    {
      hide RowJson;
      for i := 0 to |rows|
        invariant hindered == old(hindered)
        invariant pendingRows == old(pendingRows) + RowTexts(rows, allow, write)[..i]
      {
        var written: bool := *;
        hindered := hindered || !written;
        if !written { return false; }
        pendingRows := pendingRows + [write(RowJson(rows[i], allow))];
      }
      return true;
    }

    /** Fetching a batch from a live execution whose pending rows are used up. */
    method Fetch() returns (ok: bool)
      requires Valid() && execution != null && pendingRows == [] && !executionDone && currentEvent == None
      modifies Reach()
      ensures source == old(source) && results == old(results) && log == old(log) && execution == old(execution)
      ensures Unshown(old(TheView()), old(source.completed), old(InTransaction()))
      ensures Blamed() && (!ok ==> hindered)
      ensures ok ==> Valid()
      ensures ok && execution.limited ==> |pendingRows| <= 1
      ensures ok && !executionDone ==>
        |execution.remaining| + execution.idle < old(|execution.remaining| + execution.idle)
    {
      hide Following, Fed, RowTexts, FailedCall, CursorEffect;
      ghost var v := TheView();
      var batch := CallNext(if execution.limited then 1 else ROWS_PREFETCH);
      if batch == None { return false; }
      var rows, done := batch.value.rows, batch.value.done;
      FetchKeeps(v, source.columns, source.summary, source.completed, rows, execution.remaining,
        allow, write, done, batch.value.summary);
      var encoded := EncodePendingRows(rows);
      if !encoded { return false; }
      assert [] + RowTexts(rows, allow, write) == RowTexts(rows, allow, write);
      if done {
        executionDone := true;
        pendingSummary := batch.value.summary;
      }
      return true;
    }

    method Advance() returns (ok: bool)
      requires Valid()
      modifies Reach()
      ensures source == old(source) && results == old(results)
      ensures Blamed() && (!ok ==> hindered || old(execution) == null)
      ensures ok && execution != null && execution.limited && |old(pendingRows)| <= 1 ==> pendingRows == []
      ensures ok ==> Valid() && (Stepped(old(log)) || (log == old(log) && currentEvent == None))
      ensures ok && old(execution) != null ==>
        Stepped(old(log)) && (execution == old(execution) || (execution == null && Finished(log)))
      ensures ok && old(execution) == null ==> execution == null
      ensures !ok ==>
        execution == old(execution)
          && Unshown(old(TheView()), old(source != null && source.completed), old(InTransaction()))
    {
      hide Following, Fed, RowTexts, Finished, Accountable;
      if source != null {
        GiveUpKeeps(TheView(), source.columns, source.summary, source.completed, execution != null);
      }
      currentEvent := None;
      if pendingRows != [] {
        EmitPending();
        return true;
      }
      if executionDone {
        ok := FinishSummary();
        return;
      }
      while true
        invariant Valid() && pendingRows == [] && !executionDone
        invariant Unshown(old(TheView()), old(source != null && source.completed), old(InTransaction()))
        invariant source == old(source) && execution == old(execution) && Blamed()
        decreases if execution == null then 0 else |execution.remaining| + execution.idle
      {
        if execution == null { return true; }
        ok := Fetch();
        if !ok { return; }
        if pendingRows != [] {
          EmitPending();
          return;
        }
        if executionDone {
          ok := FinishSummary();
          return;
        }
      }
    }

    /** One step of the host.  A success shows one event more or ends the stream; a
        failure ends it, nothing of it is shown again, and a transaction it was
        prepared in is over. */
    method Next() returns (ok: bool)
      requires Valid()
      modifies Reach()
      ensures Valid() && source == old(source) && results == old(results) && Blamed()
      ensures !ok ==> hindered || old(execution) == null || old(connection.quarantined)
      ensures Stepped(old(log)) || log == old(log)
      ensures ok && old(execution) != null ==>
        Stepped(old(log)) && (execution == old(execution) || (execution == null && Finished(log)))
      ensures old(execution) == null ==> execution == null
      ensures ok && !Stepped(old(log)) ==> currentEvent == None
      ensures !ok && !old(connection.quarantined) ==>
        log == old(log) && execution == null && pendingRows == [] && currentEvent == None
      ensures !ok && old(InTransaction()) ==> Ended(connection.Snapshot())
    {
      hide Following, Fed, RowTexts, Finished, CancelPost;
      if source != null {
        GiveUpKeeps(TheView(), source.columns, source.summary, source.completed, execution != null);
        if currentEvent.Some? && currentEvent.value.kind == Summary {
          SummaryEndsStream(TheView(), source.columns, source.summary, source.completed, execution != null);
        }
      }
      if currentEvent.Some? && currentEvent.value.kind == Summary {
        currentEvent := None;
        return true;
      }
      if connection.quarantined { return false; }
      ok := Advance();
      if !ok {
        Abandon(old(TheView()), old(source != null && source.completed), old(InTransaction()));
      }
    }

    /** Giving a failed stream up: its execution is cancelled and nothing is kept. */
    method Abandon(ghost before: View, ghost completed: bool, ghost inTransaction: bool)
      requires Unshown(before, completed, inTransaction)
      modifies Reach()
      ensures log == old(log) && source == old(source) && results == old(results) && ordinal == old(ordinal)
      ensures hindered == old(hindered)
      ensures connection.quarantined ==> old(connection.quarantined) || old(execution) != null
      ensures execution == null && pendingRows == [] && currentEvent == None && pendingSummary == None
      ensures connection.Valid() && (source != null ==> source.completed == completed)
      ensures inTransaction ==> Ended(connection.Snapshot())
    {
      hide CancelPost, Accountable;
      currentEvent, pendingRows, pendingSummary := None, [], None;
      var failed := execution;
      execution := null;
      if failed != null {
        ghost var s, e := connection.Snapshot(), failed.adapter.Snapshot();
        var cleaned := failed.Cancel();
        if inTransaction {
          CancellationEndsTransaction(s, e, connection.Snapshot(), failed.adapter.Snapshot());
        }
      }
    }

    /** `apply_rows_filter`: whatever ran before is cancelled, and a stream starts with
        its columns only if every step of preparing it succeeded. */
    method Filter(query: Query) returns (ok: bool)
      requires Valid()
      modifies Reach()
      ensures Valid()
      ensures ok ==> execution != null && fresh(execution) && source == execution && results == query.rows
      ensures ok ==>
        currentEvent == Some(Event(Columns, query.columns)) && log == [Seen(0, Event(Columns, query.columns))]
      ensures !ok ==> log == old(log) && source == old(source) && results == old(results)
    {
      hide Following, Fed, RowTexts, Finished;
      if connection.quarantined { return false; }
      var cleared := ClearPrevious();
      if !cleared { return false; }
      var started := Start(query);
      if started == null { return false; }
      ShowColumns(started);
      return true;
    }

    /** A prepared execution becomes the stream, and its columns the first event. */
    method ShowColumns(e: Execution)
      requires e.connection == connection && e.Valid() && !e.adapter.terminal
      requires pendingRows == [] && pendingSummary == None
      modifies this
      ensures Valid() && execution == e && source == e && results == e.remaining
      ensures currentEvent == Some(Event(Columns, e.columns)) && log == [Seen(0, Event(Columns, e.columns))]
    {
      hide Following, Fed, RowTexts, Finished;
      execution := e;
      currentEvent := Some(Event(Columns, e.columns));
      ordinal, executionDone := 0, false;
      source, results := e, e.remaining;
      log := [Seen(0, currentEvent.value)];
      TextsLength(results, allow, write);
      StartKeeps(e.columns, results, RowTexts(results, allow, write), e.summary, e.completed);
    }

    /** Cancelling whatever ran before; only then is what it had pending forgotten. */
    method ClearPrevious() returns (ok: bool)
      requires Valid()
      modifies Reach()
      ensures Valid() && execution == null
      ensures log == old(log) && source == old(source) && results == old(results)
      ensures ok ==> currentEvent == None && pendingRows == [] && pendingSummary == None
    {
      hide Following, Fed, RowTexts, Finished, CancelPost;
      if source != null {
        GiveUpKeeps(TheView(), source.columns, source.summary, source.completed, execution != null);
      }
      if execution != null {
        var previous := execution;
        execution := null;
        var cancelled := previous.Cancel();
        if !cancelled { return false; }
      }
      currentEvent, pendingRows, pendingSummary := None, [], None;
      return true;
    }

    /** Preparing the execution and its columns; columns that cannot be delivered
        cancel it again. */
    method Start(query: Query) returns (e: Execution?)
      requires connection.Valid()
      modifies connection
      ensures connection.Valid()
      ensures e != null ==>
        && fresh(e) && fresh(e.adapter) && e.connection == connection && e.Valid() && !e.adapter.terminal
        && e.columns == query.columns && e.remaining == query.rows && e.summary == query.summary && !e.completed
    {
      var prepared := AdapterExecution.Prepare(connection, query.plan, query.textOk, query.formatCurrent);
      if prepared == None { return null; }
      assert Registered(connection.Snapshot(), prepared.value.Snapshot());
      e := new Execution(prepared.value, connection, query);
      hide CancelPost, PreparePost;
      var delivered: bool := *;
      if !delivered {
        var cancelled := e.Cancel();
        return null;
      }
    }

    /** In every reachable state the host has seen a prefix of the one stream the
        query's rows prescribe, and its summary only after completion. */
    lemma SeenIsPrefix()
      requires Valid() && source != null
      ensures log != [] && log <= WholeStream(source.columns, RowTexts(results, allow, write), source.summary)
      ensures Finished(log) ==>
        source.completed && log == WholeStream(source.columns, RowTexts(results, allow, write), source.summary)
    {
    }

    /** A host that steps until the end of the stream, without a failure, has seen the
        whole stream, and the execution has completed. */
    method Drain() returns (ok: bool)
      requires Valid() && execution != null && currentEvent.Some?
      modifies Reach()
      ensures Valid() && source == old(source) && results == old(results) && old(log) <= log
      ensures Blamed() && (!ok ==> hindered || old(connection.quarantined))
      ensures ok ==>
        && source != null && Finished(log) && source.completed
        && RowData(log) == Written(Delivered(results, allow), write)
    {
      hide Following, Fed, RowTexts, RowData, Delivered, Written;
      Bounded(TheView(), source.columns, source.summary, source.completed, execution != null);
      while currentEvent.value.kind != Summary
        invariant Valid() && source == old(source) && source != null && results == old(results) && old(log) <= log
        invariant currentEvent.Some? && (execution == old(execution) || execution == null) && Blamed()
        invariant log != [] && currentEvent.value == log[|log| - 1].event
        invariant execution == null ==> Finished(log)
        decreases |results| + 2 - |log|
      {
        var stepped := Next();
        if !stepped { return false; }
        Bounded(TheView(), source.columns, source.summary, source.completed, execution != null);
      }
      FinishedLog(TheView(), source.columns, source.summary, source.completed, execution != null);
      FinishedCarriesAllRows(log, source.columns, results, allow, write, source.summary);
      NothingDeniedIsDelivered(results, allow, write);
      return true;
    }
  }

  lemma {:induction false} TextsLength(rows: seq<Row>, allow: Json.Allow, write: Json.Json -> string)
    ensures |RowTexts(rows, allow, write)| == |rows|
  {
  }

  lemma Bounded(v: View, columns: string, summary: string, completed: bool, live: bool)
    requires Following(v, columns, summary, completed, live)
    ensures 0 < |v.log| <= |v.results| + 2 && (v.current.Some? ==> v.current.value == v.log[|v.log| - 1].event)
  {
  }

  lemma FinishedLog(v: View, columns: string, summary: string, completed: bool, live: bool)
    requires Following(v, columns, summary, completed, live) && Finished(v.log)
    ensures completed && v.log <= WholeStream(columns, v.texts, summary)
  {
  }

  method AppendScalarRows(
    collected: seq<Json.Json>, rows: seq<Row>, allow: Json.Allow)
    returns (r: seq<Json.Json>, ok: bool, ghost hindered: bool)
    ensures ok ==> r == collected + RowJsons(rows, allow)
    ensures ok <==> !hindered
  {
    hide RowJson;
    r, hindered := collected, false;
    for i := 0 to |rows|
      invariant !hindered && r == collected + RowJsons(rows, allow)[..i]
    {
      var written: bool := *;
      hindered := !written;
      if !written { return r, false, hindered; }
      r := r + [RowJson(rows[i], allow)];
    }
    return r, true, hindered;
  }

  lemma NoRows(allow: Json.Allow)
    ensures RowJsons([], allow) == []
  {
  }

  /** `collect_scalar_rows`: on success, every row of the query in order.  What was so
      far inside a savepoint stays inside it, or the call fails. */
  method CollectScalarRows(execution: Execution, allow: Json.Allow, ghost s: Conn)
    returns (rows: Option<seq<Json.Json>>, ghost hindered: bool)
    requires execution.Valid() && !execution.adapter.terminal
    modifies execution, execution.adapter, execution.connection
    ensures execution.Valid() && (rows.Some? ==> !execution.adapter.terminal)
    ensures SameExecution(old(execution.adapter.Snapshot()), execution.adapter.Snapshot())
    ensures rows.Some? ==> rows.value == Delivered(old(execution.remaining), allow)
    ensures rows.None? <==> hindered
    ensures rows.Some? ==> execution.connection.record == old(execution.connection.record)
    ensures execution.adapter.explicit && old(execution.connection.record).Some? ==>
      Accountable(execution.adapter.Snapshot(), execution.connection.Snapshot())
    ensures old(execution.RanInside(s, false)) ==> execution.RanInside(s, rows.None?)
  {
    hide RowJsons, Delivered, FailedCall, CursorEffect, NextPost, Inside;
    NoRows(allow);
    NothingDeniedIsDelivered(execution.remaining, allow, _ => "");
    var collected: seq<Json.Json> := [];
    ghost var taken: seq<Row> := [];
    hindered := false;
    while true
      invariant !hindered && execution.Valid() && !execution.adapter.terminal
      invariant SameExecution(old(execution.adapter.Snapshot()), execution.adapter.Snapshot())
      invariant execution.connection.record == old(execution.connection.record)
      invariant old(execution.RanInside(s, false)) ==> execution.RanInside(s, false)
      invariant old(execution.remaining) == taken + execution.remaining && collected == RowJsons(taken, allow)
      decreases |execution.remaining| + execution.idle
    {
      ghost var c, e := execution.connection.Snapshot(), execution.adapter.Snapshot();
      var batch := execution.NextBatch(256);
      AfterBatch(s, c, e, batch.Some?, execution.connection.Snapshot(), execution.adapter.Snapshot());
      hindered := !execution.adapter.accepted;
      if batch == None { return None, hindered; }
      FailedInside(s, execution.connection.Snapshot(), execution.adapter.Snapshot());
      var appended;
      collected, appended, hindered := AppendScalarRows(collected, batch.value.rows, allow);
      if !appended { return None, hindered; }
      RowJsonsAppend(taken, batch.value.rows, allow);
      taken := taken + batch.value.rows;
      if batch.value.done {
        assert old(execution.remaining) == taken;
        hindered := batch.value.summary == None;
        return if batch.value.summary == None then None else Some(collected), hindered;
      }
    }
  }

  lemma AfterBatch(s: Conn, c: Conn, e: Exec, ok: bool, c': Conn, e': Exec)
    requires Registered(c, e) && !e.terminal && NextPost(c, e, ok, c', e')
    ensures SameExecution(e, e') && (ok ==> e' == e && c'.record == c.record)
    ensures e.explicit && c.record.Some? ==> Accountable(e', c')
    ensures Inside(s, false, c, e) ==> Inside(s, !ok, c', e')
  {
    hide Inside, CursorEffect;
    if Inside(s, false, c, e) {
      NextInside(s, c, e, ok, c', e');
    }
  }

  /** `collect_scalar_result`: the rows, once the execution has completed; anything else
      cancels it, and ends an explicit transaction it was prepared in. */
  method CollectScalarResult(execution: Execution, allow: Json.Allow, ghost s: Conn)
    returns (rows: Option<seq<Json.Json>>, ghost hindered: bool)
    requires execution.Valid() && !execution.adapter.terminal
    modifies execution, execution.adapter, execution.connection
    ensures execution.Valid() && execution.adapter.terminal
    ensures SameExecution(old(execution.adapter.Snapshot()), execution.adapter.Snapshot())
    ensures rows.Some? ==> execution.completed && rows.value == Delivered(old(execution.remaining), allow)
    ensures rows.None? ==>
      hindered || (execution.adapter.explicit && execution.adapter.mutating && old(execution.connection.record).None?)
    ensures rows.None? && execution.adapter.explicit && old(execution.connection.record).Some? ==>
      Ended(execution.connection.Snapshot())
    ensures old(execution.RanInside(s, false)) ==> execution.RanInside(s, rows.None?)
  {
    hide Delivered, FailedCall, CursorEffect, CompletePost, CancelPost, Inside, Accountable;
    rows, hindered := CollectScalarRows(execution, allow, s);
    ghost var c, e := execution.connection.Snapshot(), execution.adapter.Snapshot();
    FailedInside(s, c, e);
    var written: bool := *;
    hindered := hindered || !written;
    if rows.Some? && written {
      var completed := execution.Complete();
      hindered := !execution.adapter.accepted;
      AfterComplete(s, c, e, completed, execution.connection.Snapshot(), execution.adapter.Snapshot());
      if completed { return; }
      c, e := execution.connection.Snapshot(), execution.adapter.Snapshot();
    }
    var cancelled := execution.Cancel();
    AfterCancel(s, c, e, execution.connection.Snapshot(), execution.adapter.Snapshot());
    return None, hindered;
  }

  lemma AfterComplete(s: Conn, c: Conn, e: Exec, ok: bool, c': Conn, e': Exec)
    requires Registered(c, e) && !e.terminal && CompletePost(c, e, ok, c', e')
    ensures SameExecution(e, e') && (ok ==> e'.terminal)
    ensures !ok && e.explicit && Accountable(e, c) ==> Accountable(e', c')
    ensures Inside(s, false, c, e) ==> Inside(s, !ok, c', e')
  {
    hide Inside, CursorEffect;
    if Inside(s, false, c, e) {
      CompleteInside(s, c, e, ok, c', e');
    }
  }

  lemma AfterCancel(s: Conn, c: Conn, e: Exec, c': Conn, e': Exec)
    requires Registered(c, e) && CancelPost(c, e, c', e')
    ensures SameExecution(e, e') && e'.terminal
    ensures e.explicit && Accountable(e, c) ==> Ended(c')
    ensures Inside(s, true, c, e) ==> Inside(s, true, c', e')
  {
    hide Inside, CursorEffect;
    if Inside(s, true, c, e) {
      CancelInside(s, c, e, c', e');
    }
  }

  /** A write outside an explicit transaction collects its result inside a savepoint:
      `with_savepoint` around `collect_scalar_result`. */
  method CollectInSavepoint(execution: Execution, name: Name, allow: Json.Allow)
    returns (
      rows: Option<seq<Json.Json>>, ghost outcome: Option<OperationRun>, ghost r: Result<int, Error>,
      ghost hindered: bool)
    requires execution.Valid() && !execution.adapter.terminal && !name.Engine?
    requires !execution.adapter.explicit && execution.connection.record.None?
    requires !execution.adapter.readGuard && execution.adapter.sideEffectGuard
    modifies execution, execution.adapter, execution.connection
    ensures execution.Valid() && (rows.Some? <==> r.Ok?)
    ensures SameExecution(old(execution.adapter.Snapshot()), execution.adapter.Snapshot())
    ensures rows.Some? ==> execution.completed && rows.value == Delivered(old(execution.remaining), allow)
    ensures rows.Some? ==> execution.connection.quarantined == old(execution.connection.quarantined)
    ensures rows.None? ==>
      hindered || execution.connection.monitor.refused || old(execution.connection.readers) != 0
    ensures SavepointPost(old(execution.connection.Snapshot()), name, outcome, r,
              execution.connection.Snapshot(), execution.connection.monitor)
    ensures !execution.connection.monitor.releasedAfterRefusal
    ensures execution.connection.sideEffect == execution.adapter.sideEffectGuard && !execution.adapter.readGuard
    ensures execution.connection.sideEffect || execution.adapter.terminal
  {
    hide Delivered, GivenUp, OperationEffect, Inside, Hosts, HoldsSavepoint, Effect;
    var connection := execution.connection;
    ghost var s := connection.Snapshot();
    outcome, hindered := None, false;
    var opening := connection.OpenInvocation(name);
    if opening.Err? { return None, None, Err(opening.error), false; }
    EnteredHosts(s, name);
    StartInside(Entered(s, name), execution.adapter.Snapshot());
    var collected;
    collected, hindered := CollectScalarResult(execution, allow, Entered(s, name));
    var answer: Result<int, Error> := if collected.Some? then Ok(|collected.value|) else Err(Storage);
    outcome := Some(OperationRun(answer, connection.Snapshot()));
    InsideIsOperation(s, name, answer, connection.Snapshot(), execution.adapter.Snapshot());
    OperationKeepsValid(Entered(s, name), name, outcome.value);
    ReleaseKeeps(s.db, name, connection.db);
    ghost var staged, cleaned;
    var closed: Result<int, Error>;
    closed, staged, cleaned := connection.CloseInvocation(answer, name);
    if closed.Err? {
      CleanupIsAllOrNothing(s, name, outcome.value, staged, cleaned, connection.Snapshot(),
        connection.monitor.interrupted);
    }
    return if closed.Ok? then collected else None, outcome, closed, hindered;
  }

  lemma EnteredHosts(s: Conn, name: Name)
    requires s.db.Valid() && s.record.None? && s.sideEffect && !name.Engine?
    ensures Hosts(Entered(s, name))
  {
    assert Entered(s, name).db.savepoints[|s.db.savepoints|].name == name;
  }

  /** Which scalar calls run in a savepoint of their own: writes that neither own
      transactions nor change the connection, outside an explicit transaction. */
  predicate InOwnSavepoint(plan: Plan, record: Option<Record>) {
    plan.mutating && !plan.ownsTransaction && record.None? && !plan.connectionState
  }

  /** What such a call does to the connection as a whole: it keeps what its execution
      staged and nothing else, or leaves the entry state or the rolled-back one, or
      quarantines with nothing committed. */
  ghost predicate ScalarWritePost(s: Conn, name: Name, outcome: Option<OperationRun>, ok: bool, s': Conn) {
    if ok then
      && outcome.Some? && OperationEffect(Entered(s.(sideEffect := true), name), name, outcome.value)
      && s' == s.(db := Kept(s.db, outcome.value.after.db.working))
    else LeftAlone(s, s') || GivenUp(s, s')
  }

  lemma WriteThenDropped(
    s: Conn, name: Name, outcome: Option<OperationRun>, r: Result<int, Error>, c: Conn, monitor: Monitor)
    requires !s.sideEffect && s.record.None? && SavepointPost(s.(sideEffect := true), name, outcome, r, c, monitor)
    requires r.Ok? ==> c.quarantined == s.quarantined
    ensures ScalarWritePost(s, name, outcome, r.Ok?, c.(sideEffect := false))
  {
  }

  /** `scalar_result`: prepare, collect, and drop the execution with its guards.  A write
      outside an explicit transaction is all-or-nothing or quarantines; a failure
      inside one ends it. */
  method ScalarResult(connection: Connection, query: Query, name: Name, allow: Json.Allow)
    returns (rows: Option<seq<Json.Json>>, ghost outcome: Option<OperationRun>, ghost hindered: bool)
    requires connection.Valid() && !name.Engine?
    modifies connection
    ensures connection.Valid()
    ensures rows.Some? ==> rows.value == Delivered(query.rows, allow)
    ensures InOwnSavepoint(query.plan, old(connection.record)) ==>
      ScalarWritePost(old(connection.Snapshot()), name, outcome, rows.Some?, connection.Snapshot())
    ensures rows.None? && old(connection.record.Some? && !connection.quarantined && !connection.sideEffect) ==>
      Ended(connection.Snapshot())
    ensures rows.None? && old(Preparable(connection.Snapshot(), query.plan)) ==>
      || hindered || connection.monitor.refused
      || !query.textOk || (query.plan.SideEffecting() && !query.formatCurrent)
  {
    hide Delivered, SavepointPost, Inside, OperationEffect;
    ghost var s := connection.Snapshot();
    outcome, hindered := None, false;
    var prepared := AdapterExecution.Prepare(connection, query.plan, query.textOk, query.formatCurrent);
    if prepared == None { return None, None, false; }
    var execution := new Execution(prepared.value, connection, query);
    var explicit := prepared.value.explicit;
    if query.plan.mutating && !query.plan.ownsTransaction && !explicit && !query.plan.connectionState {
      ghost var r;
      rows, outcome, r, hindered := CollectInSavepoint(execution, name, allow);
      WriteThenDropped(s, name, outcome, r, connection.Snapshot(), connection.monitor);
    } else {
      rows, hindered := CollectScalarResult(execution, allow, s);
    }
    prepared.value.DropGuards(connection);
  }

  function RowJsons(rows: seq<Row>, allow: Json.Allow): (items: seq<Json.Json>)
    ensures |items| == |rows|
  {
    seq(|rows|, i requires 0 <= i < |rows| => RowJson(rows[i], allow))
  }

  lemma {:induction false} RowJsonsAppend(a: seq<Row>, b: seq<Row>, allow: Json.Allow)
    ensures RowJsons(a + b, allow) == RowJsons(a, allow) + RowJsons(b, allow)
  {
  }

  /** Streaming a query to its end and collecting it at once deliver the same rows,
      whatever the batches of either were: the texts of one are the rows of the other,
      written. */
  method DeliverBoth(cursor: RowsCursor, execution: Execution) returns (agreed: bool, rows: seq<Json.Json>)
    requires cursor.Valid() && cursor.execution != null && cursor.currentEvent.Some?
    requires execution.Valid() && !execution.adapter.terminal && execution.remaining == cursor.results
    requires {execution, execution.adapter, execution.connection} !! cursor.Reach()
    modifies cursor.Reach(), execution, execution.adapter, execution.connection
    ensures agreed ==> cursor.source != null && cursor.source.completed && execution.completed
    ensures agreed ==> RowData(cursor.log) == Written(rows, cursor.write)
    ensures agreed ==> rows == Delivered(old(execution.remaining), cursor.allow)
  {
    hide RowData, Delivered, Following, Fed;
    var expected := execution.remaining;
    var drained := cursor.Drain();
    assert execution.remaining == expected;
    var collected, hindered := CollectScalarResult(execution, cursor.allow, execution.connection.Snapshot());
    if !drained || collected == None { return false, []; }
    return true, collected.value;
  }

  lemma {:induction false} BatchFollows(
    results: seq<Row>, shown: nat, rows: seq<Row>, remaining: seq<Row>, allow: Json.Allow, write: Json.Json -> string)
    requires shown <= |results| && results[shown..] == rows + remaining
    ensures shown + |rows| <= |results| && remaining == results[shown + |rows|..]
    ensures RowTexts(rows, allow, write) == RowTexts(results, allow, write)[shown..shown + |rows|]
  {
    assert |results[shown..]| == |results| - shown;
    forall i | 0 <= i < |rows| ensures rows[i] == results[shown + i] {
      assert results[shown..][i] == (rows + remaining)[i];
    }
    forall i | 0 <= i < |remaining| ensures remaining[i] == results[shown + |rows| + i] {
      assert results[shown..][|rows| + i] == (rows + remaining)[|rows| + i];
    }
  }
}
