/**
 The handler registry and the event router: `rowHandler` and
 `rowUpdateHandler` (aggrebase.js:20-41), `Aggrebase.prototype.add`
 (aggrebase.js:179-186) and the `'binlog'` listener (aggrebase.js:246-253).
 */
module Engine {
  import opened Values
  import opened Builders
  import opened Views

  /** One entry of `evt.rows`: a row image for write and delete events, a
      before/after pair for update events. */
  datatype EventRow = Image(row: Row) | Change(before: Row, after: Row)

  /** An entry of the log reader's table map. */
  datatype TableInfo = TableInfo(parentSchema: string, tableName: string)

  /** A replication-log event as the listener sees it. */
  datatype Event = Event(tableMap: Option<map<int, TableInfo>>, tableId: int, name: string, rows: seq<EventRow>)

  /** What a handler's builder can be applied to: the row shape of its event
      kind, and, for a direct view's update, what `columnChanged` demands. */
  predicate Buildable(h: Handler, r: EventRow)
  {
    match h.kind
    case UpdateRows => r.Change? && UpdateAdmissible(h.view, r.before, r.after)
    case _ => r.Image?
  }

  predicate AllBuildable(h: Handler, rows: seq<EventRow>)
  {
    forall i :: 0 <= i < |rows| ==> Buildable(h, rows[i])
  }

  /** The `getQuery` call a handler makes for one row. `unboundBefore`
      stands for what the name `before` holds where a computed view's delete
      builder reads it. */
  function BuildRow(h: Handler, r: EventRow, unboundBefore: Row): Option<Mutation>
    requires Buildable(h, r)
  {
    match h.kind
    case WriteRows => WriteQuery(h.view, r.row)
    case UpdateRows => UpdateQuery(h.view, r.before, r.after)
    case DeleteRows => DeleteQuery(h.view, r.row, unboundBefore)
  }

  /** The mutations a handler issues for `rows`: one per row whose builder
      returns a descriptor, in row order. */
  function Issued(h: Handler, rows: seq<EventRow>, unboundBefore: Row): (ms: seq<Mutation>)
    requires AllBuildable(h, rows)
    ensures |ms| <= |rows|
  {
    if rows == [] then []
    else
      var rest := Issued(h, rows[1..], unboundBefore);
      match BuildRow(h, rows[0], unboundBefore)
      case None => rest
      case Some(m) => [m] + rest
  }

  /** Issuing for two batches one after the other is issuing for both. */
  lemma {:induction false} IssuedAppend(h: Handler, rows1: seq<EventRow>, rows2: seq<EventRow>, unboundBefore: Row)
    requires AllBuildable(h, rows1) && AllBuildable(h, rows2)
    ensures AllBuildable(h, rows1 + rows2)
    ensures Issued(h, rows1 + rows2, unboundBefore) == Issued(h, rows1, unboundBefore) + Issued(h, rows2, unboundBefore)
  {
    if rows1 == [] {
      assert rows1 + rows2 == rows2;
    } else {
      assert (rows1 + rows2)[1..] == rows1[1..] + rows2;
      IssuedAppend(h, rows1[1..], rows2, unboundBefore);
    }
  }

  /** Every issued mutation is the builder's result for some row, and every
      row whose builder yields a descriptor contributes it. */
  lemma {:induction false} IssuedExactly(h: Handler, rows: seq<EventRow>, unboundBefore: Row)
    requires AllBuildable(h, rows)
    ensures forall m :: m in Issued(h, rows, unboundBefore) <==>
              exists i :: 0 <= i < |rows| && BuildRow(h, rows[i], unboundBefore) == Some(m)
  {
    if rows != [] {
      IssuedExactly(h, rows[1..], unboundBefore);
      forall m | (exists i :: 0 <= i < |rows[1..]| && BuildRow(h, rows[1..][i], unboundBefore) == Some(m))
        ensures exists i :: 0 <= i < |rows| && BuildRow(h, rows[i], unboundBefore) == Some(m)
      {
        var i :| 0 <= i < |rows[1..]| && BuildRow(h, rows[1..][i], unboundBefore) == Some(m);
        assert BuildRow(h, rows[i + 1], unboundBefore) == Some(m);
      }
      forall m | (exists i :: 0 <= i < |rows| && BuildRow(h, rows[i], unboundBefore) == Some(m))
        ensures m in Issued(h, rows, unboundBefore)
      {
        var i :| 0 <= i < |rows| && BuildRow(h, rows[i], unboundBefore) == Some(m);
        if i > 0 {
          assert BuildRow(h, rows[1..][i - 1], unboundBefore) == Some(m);
        }
      }
    }
  }

  /** A direct view's write and delete handlers issue one mutation per row:
      the direct view never skips a row. */
  lemma {:induction false} DirectIssuesEveryRow(h: Handler, rows: seq<EventRow>, unboundBefore: Row)
    requires h.view.Direct? && h.kind != UpdateRows && AllBuildable(h, rows)
    ensures |Issued(h, rows, unboundBefore)| == |rows|
  {
    if rows != [] {
      DirectIssuesEveryRow(h, rows[1..], unboundBefore);
    }
  }

  /** A joined view's delete handler never issues a DELETE. */
  lemma {:induction false} JoinedNeverDeletes(h: Handler, rows: seq<EventRow>, unboundBefore: Row)
    requires h.view.Joined? && AllBuildable(h, rows)
    ensures forall m :: m in Issued(h, rows, unboundBefore) ==> m.Update?
  {
    if rows != [] {
      JoinedNeverDeletes(h, rows[1..], unboundBefore);
    }
  }

  /** `rowHandler(getQuery)` and `rowUpdateHandler(getQuery)` applied to an
      event's rows: the loop over `evt.rows`, returning what it hands to the
      destination connection, in order. */
  method RunRows(h: Handler, rows: seq<EventRow>, unboundBefore: Row) returns (out: seq<Mutation>)
    requires AllBuildable(h, rows)
    ensures out == Issued(h, rows, unboundBefore)
  {
    out := [];
    var i := 0;
    while i < |rows|
      invariant 0 <= i <= |rows|
      invariant AllBuildable(h, rows[..i])
      invariant out == Issued(h, rows[..i], unboundBefore)
    {
      var q := BuildRow(h, rows[i], unboundBefore);
      IssuedAppend(h, rows[..i], [rows[i]], unboundBefore);
      assert rows[..i] + [rows[i]] == rows[..i + 1];
      if q.Some? {
        out := out + [q.value];
      }
      i := i + 1;
    }
    assert rows[..i] == rows;
  }

  // ---- the registry ----

  /** The event handlers of a table; none for a table not in the tree. */
  function Under(handlers: HandlerTree, table: string): map<string, Handler>
  {
    if table in handlers then handlers[table] else map[]
  }

  /** `_.merge(handlers, more)`: tables merge, and under a table an event
      name that `more` has replaces the one already there. */
  function MergeTree(handlers: HandlerTree, more: HandlerTree): (r: HandlerTree)
    ensures r.Keys == handlers.Keys + more.Keys
  {
    map t | t in handlers.Keys + more.Keys :: Under(handlers, t) + Under(more, t)
  }

  /** `handlers[table][name]` when the router would find it. */
  function Lookup(handlers: HandlerTree, table: string, name: string): Option<Handler>
  {
    if table in handlers && name in handlers[table] then Some(handlers[table][name]) else None
  }

  /** After a merge, a table and event name that the newer tree has resolve
      to the newer handler; any other resolves as before. */
  lemma MergeLastWriterWins(handlers: HandlerTree, more: HandlerTree, table: string, name: string)
    ensures Lookup(MergeTree(handlers, more), table, name)
         == if Lookup(more, table, name).Some? then Lookup(more, table, name) else Lookup(handlers, table, name)
  {
  }

  /** Merging keeps every handler under the name of its event kind. */
  lemma MergeKeepsWellKeyed(handlers: HandlerTree, more: HandlerTree)
    requires WellKeyed(handlers) && WellKeyed(more)
    ensures WellKeyed(MergeTree(handlers, more))
  {
  }

  /** Registering in two steps is registering the merge of both. */
  lemma MergeAssociative(a: HandlerTree, b: HandlerTree, c: HandlerTree)
    ensures MergeTree(MergeTree(a, b), c) == MergeTree(a, MergeTree(b, c))
  {
    var ab, bc := MergeTree(a, b), MergeTree(b, c);
    var l, r := MergeTree(ab, c), MergeTree(a, bc);
    assert l.Keys == r.Keys;
    forall t | t in l
      ensures l[t] == r[t]
    {
      UnderMerge(a, b, t);
      UnderMerge(b, c, t);
      EventMapUnionAssociative(Under(a, t), Under(b, t), Under(c, t));
    }
  }

  lemma UnderMerge(a: HandlerTree, b: HandlerTree, t: string)
    ensures Under(MergeTree(a, b), t) == Under(a, t) + Under(b, t)
  {
  }

  lemma EventMapUnionAssociative(x: map<string, Handler>, y: map<string, Handler>, z: map<string, Handler>)
    ensures (x + y) + z == x + (y + z)
  {
  }

  // ---- the router ----

  /** What `evt.tableMap[evt.tableId].tableName` needs. */
  predicate TableResolvable(evt: Event)
  {
    evt.tableMap.Some? ==> evt.tableId in evt.tableMap.value
  }

  /** The handler the `'binlog'` listener calls, if any: only with a table
      map, and only a handler registered under the event's table name and
      event name. */
  function Target(handlers: HandlerTree, evt: Event): (r: Option<Handler>)
    requires TableResolvable(evt)
    ensures r.Some? ==> evt.tableMap.Some?
    ensures evt.tableMap.Some? ==> r == Lookup(handlers, evt.tableMap.value[evt.tableId].tableName, evt.name)
  {
    if evt.tableMap.Some? then Lookup(handlers, evt.tableMap.value[evt.tableId].tableName, evt.name)
    else None
  }

  /** What dispatching `evt` needs of it. */
  predicate Admissible(handlers: HandlerTree, evt: Event)
  {
    TableResolvable(evt) && (Target(handlers, evt).Some? ==> AllBuildable(Target(handlers, evt).value, evt.rows))
  }

  /** The mutations one event produces. */
  function Route(handlers: HandlerTree, evt: Event, unboundBefore: Row): seq<Mutation>
    requires Admissible(handlers, evt)
  {
    match Target(handlers, evt)
    case None => []
    case Some(h) => Issued(h, evt.rows, unboundBefore)
  }

  /** An event without a table map, on a table without handlers, or of an
      event name its table has no handler for, is dropped; any other goes to
      exactly one handler, the one registered under its table and name. */
  lemma RouteDispatch(handlers: HandlerTree, evt: Event, unboundBefore: Row)
    requires Admissible(handlers, evt)
    ensures evt.tableMap.None? ==> Route(handlers, evt, unboundBefore) == []
    ensures evt.tableMap.Some? ==>
              var table := evt.tableMap.value[evt.tableId].tableName;
              && (table !in handlers || evt.name !in handlers[table] ==> Route(handlers, evt, unboundBefore) == [])
              && (table in handlers && evt.name in handlers[table] ==>
                    Route(handlers, evt, unboundBefore) == Issued(handlers[table][evt.name], evt.rows, unboundBefore))
  {
  }

  /** Only the table name is looked up: two events that differ only in the
      database of their table produce the same mutations. */
  lemma RouteIgnoresDatabase(handlers: HandlerTree, evt: Event, schema: string, unboundBefore: Row)
    requires Admissible(handlers, evt) && evt.tableMap.Some?
    ensures var info := evt.tableMap.value[evt.tableId];
            var moved := evt.(tableMap := Some(evt.tableMap.value[evt.tableId := info.(parentSchema := schema)]));
            Admissible(handlers, moved) && Route(handlers, moved, unboundBefore) == Route(handlers, evt, unboundBefore)
  {
  }

  /** Two views of the same source table: after both are registered, a write
      event on that table issues the second view's mutations only. */
  lemma LaterViewReplacesEarlier(handlers: HandlerTree, sourceTable: string, first: Strategy, second: Strategy,
                                 evt: Event, unboundBefore: Row)
    requires evt.tableMap.Some? && TableResolvable(evt)
    requires evt.tableMap.value[evt.tableId].tableName == sourceTable && evt.name == EventName(WriteRows)
    requires forall i :: 0 <= i < |evt.rows| ==> evt.rows[i].Image?
    ensures var registered := MergeTree(MergeTree(handlers, HandlersFor(sourceTable, first)), HandlersFor(sourceTable, second));
            && Admissible(registered, evt)
            && Route(registered, evt, unboundBefore) == Issued(Handler(WriteRows, second), evt.rows, unboundBefore)
  {
    var registered := MergeTree(MergeTree(handlers, HandlersFor(sourceTable, first)), HandlersFor(sourceTable, second));
    MergeLastWriterWins(MergeTree(handlers, HandlersFor(sourceTable, first)), HandlersFor(sourceTable, second),
                        sourceTable, EventName(WriteRows));
    assert Target(registered, evt) == Some(Handler(WriteRows, second));
  }

  /** A write or delete event whose rows are row images can always be
      dispatched against handlers registered under their own event names. */
  lemma RowEventsAdmissible(handlers: HandlerTree, evt: Event)
    requires WellKeyed(handlers) && TableResolvable(evt)
    requires evt.name == EventName(WriteRows) || evt.name == EventName(DeleteRows)
    requires forall i :: 0 <= i < |evt.rows| ==> evt.rows[i].Image?
    ensures Admissible(handlers, evt)
  {
    if Target(handlers, evt).Some? {
      var h := Target(handlers, evt).value;
      assert EventName(h.kind) == evt.name;
      assert h.kind != UpdateRows;
    }
  }

  /** Once a view's handlers are merged into any registry, an event of one of
      the three row kinds on its source table goes to that view's builder for
      the kind, whatever was registered for the table before. */
  lemma RegisteredHandlersDispatch(handlers: HandlerTree, sourceTable: string, s: Strategy, k: Kind,
                                   evt: Event, unboundBefore: Row)
    requires evt.tableMap.Some? && TableResolvable(evt)
    requires evt.tableMap.value[evt.tableId].tableName == sourceTable && evt.name == EventName(k)
    requires AllBuildable(Handler(k, s), evt.rows)
    ensures Admissible(MergeTree(handlers, HandlersFor(sourceTable, s)), evt)
    ensures Route(MergeTree(handlers, HandlersFor(sourceTable, s)), evt, unboundBefore) == Issued(Handler(k, s), evt.rows, unboundBefore)
  {
    MergeLastWriterWins(handlers, HandlersFor(sourceTable, s), sourceTable, EventName(k));
    assert Target(MergeTree(handlers, HandlersFor(sourceTable, s)), evt) == Some(Handler(k, s));
  }

  /** A view `{orders_summary: "orders"}` keyed by `order_id` with the value
      column `status`, registered in an empty registry and fed, through the
      router, a write, an update of the status and a delete on `orders`. */
  lemma OrdersSummaryEndToEnd(tableId: int, schema: string, unboundBefore: Row)
    ensures var registered := MergeTree(map[], View([("orders_summary", "orders")], "order_id", ["status"]).handlers.value);
            var tables := Some(map[tableId := TableInfo(schema, "orders")]);
            var placed := map["order_id" := Num(5), "status" := Str("new")];
            var paid := map["order_id" := Num(5), "status" := Str("paid")];
            var write := Event(tables, tableId, "writerows", [Image(placed)]);
            var update := Event(tables, tableId, "updaterows", [Change(placed, paid)]);
            var delete := Event(tables, tableId, "deleterows", [Image(paid)]);
            && Admissible(registered, write) && Admissible(registered, update) && Admissible(registered, delete)
            && Route(registered, write, unboundBefore)
               == [Insert("orders_summary", ["order_id", "status"], [Num(5), Str("new")])]
            && Route(registered, update, unboundBefore)
               == [Update("orders_summary", map["status" := Str("paid")], "order_id", Num(5))]
            && Route(registered, delete, unboundBefore)
               == [Delete("orders_summary", "order_id", Num(5))]
  {
    var s := Direct("orders_summary", "order_id", ["status"]);
    var tables := Some(map[tableId := TableInfo(schema, "orders")]);
    var placed := map["order_id" := Num(5), "status" := Str("new")];
    var paid := map["order_id" := Num(5), "status" := Str("paid")];
    var write := Event(tables, tableId, "writerows", [Image(placed)]);
    var update := Event(tables, tableId, "updaterows", [Change(placed, paid)]);
    var delete := Event(tables, tableId, "deleterows", [Image(paid)]);
    assert View([("orders_summary", "orders")], "order_id", ["status"]).handlers.value == HandlersFor("orders", s);
    OrdersSummaryExample();
    RegisteredHandlersDispatch(map[], "orders", s, WriteRows, write, unboundBefore);
    SingleRowIssued(Handler(WriteRows, s), Image(placed), unboundBefore);
    RegisteredHandlersDispatch(map[], "orders", s, UpdateRows, update, unboundBefore);
    SingleRowIssued(Handler(UpdateRows, s), Change(placed, paid), unboundBefore);
    RegisteredHandlersDispatch(map[], "orders", s, DeleteRows, delete, unboundBefore);
    SingleRowIssued(Handler(DeleteRows, s), Image(paid), unboundBefore);
  }

  /** A one-row batch issues that row's descriptor. */
  lemma SingleRowIssued(h: Handler, r: EventRow, unboundBefore: Row)
    requires Buildable(h, r)
    ensures AllBuildable(h, [r])
    ensures BuildRow(h, r, unboundBefore).Some? ==> Issued(h, [r], unboundBefore) == [BuildRow(h, r, unboundBefore).value]
  {
    assert [r][1..] == [];
  }

  // ---- the engine object ----

  /** An `Aggrebase` instance: the init queries and handlers that `add`
      accumulates, and the mutations handed to the destination connection,
      in submission order. */
  class Aggrebase {
    var initQueries: seq<string>
    var handlers: HandlerTree
    var issued: seq<Mutation>

    constructor ()
      ensures initQueries == [] && handlers == map[] && issued == []
    {
      initQueries := [];
      handlers := map[];
      issued := [];
    }

    /** `add(viewConfig)`: a non-empty `initQuery` is appended, handlers are
        merged in; nothing else changes. */
    method Add(config: ViewConfig)
      modifies this
      ensures old(WellKeyed(handlers)) && (config.handlers.Some? ==> WellKeyed(config.handlers.value)) ==> WellKeyed(handlers)
      ensures initQueries == old(initQueries) + (if config.initQuery.Some? && config.initQuery.value != "" then [config.initQuery.value] else [])
      ensures handlers == if config.handlers.Some? then MergeTree(old(handlers), config.handlers.value) else old(handlers)
      ensures issued == old(issued)
    {
      if config.initQuery.Some? && config.initQuery.value != "" {
        initQueries := initQueries + [config.initQuery.value];
      }
      if config.handlers.Some? {
        if WellKeyed(handlers) && WellKeyed(config.handlers.value) {
          MergeKeepsWellKeyed(handlers, config.handlers.value);
        }
        handlers := MergeTree(handlers, config.handlers.value);
      }
    }

    /** The `'binlog'` listener: route one event and hand its mutations to
        the destination connection after those already handed over. */
    method OnBinlog(evt: Event, unboundBefore: Row)
      requires Admissible(handlers, evt)
      modifies this`issued
      ensures issued == old(issued) + Route(handlers, evt, unboundBefore)
    {
      var target := Target(handlers, evt);
      if target.Some? {
        var out := RunRows(target.value, evt.rows, unboundBefore);
        issued := issued + out;
      }
    }
  }
}
