# aggrebase: the mutation engine, in Dafny

aggrebase keeps denormalised "view" tables in a destination MySQL database in
step with a source database by tailing the source's binary log. A view is
declared with one of three factories — `view` (a direct copy of a source
table), `joinedView` (a source table contributes columns to a view row that
another source owns) and `computedView` (a user `compute(before, after)`
function derives the view row). Each factory returns handlers keyed by source
table name and row-event name; `add` merges them into the engine's registry,
and the binlog listener routes every row event to the handler registered for
its table and event name. The handler turns each row of the event into at most
one `INSERT`, `UPDATE … SET … WHERE key=value` or `DELETE … WHERE key=value`
and hands it to the destination connection.

The model:

- `values.dfy` (module `Values`): column values (an object value carries its
  identity; a `Date` also carries its instant, and any other object — a
  Buffer, a parsed JSON value, a SET column's array — is compared by identity
  alone), rows as maps, and the helpers `_.at`,
  `_.pick`, `_.entries`/`_.unzip`, `demap` and `columnChanged`.
- `builders.dfy` (module `Builders`): the mutation descriptor and the nine
  per-row builders (write, update and delete for each strategy), with the
  ownership lemmas: only a source that owns the view row ever inserts or
  deletes it.
- `views.dfy` (module `Views`): the three factories and the handler tree they
  return.
- `engine.dfy` (module `Engine`): the per-row loop of `rowHandler` /
  `rowUpdateHandler` as a method proved against the function `Issued`, the
  registry merge (last writer wins per table and event name), the router, and
  the class `Aggrebase` holding `initQueries`, `handlers` and the mutations
  handed to the destination connection.

The user's `compute` and `filter` functions are parameters of type
`(Option<Row>, Option<Row>) -> Option<Obj>` and `Row -> bool`: `None` stands
for every falsy result of `compute`. A row a computed view returns is an
`Obj`, the ordered list of its entries, because the insert enumerates it.

Behaviours of the code that the model keeps on purpose:

- Handlers are keyed by table name and event name only; the database of the
  table is never consulted (`RouteIgnoresDatabase`).
- Registering two views on the same table and event does not chain them: the
  later handler replaces the earlier one (`MergeLastWriterWins`,
  `LaterViewReplacesEarlier`).
- `joinedView` detects changes with the plain operator `!=`, so a Date column
  rebuilt for the same instant counts as changed, unlike in `view`
  (`ReconstructedDateDivergence`).
- The delete handler of `computedView`, when `compute` yields a row, reads
  its WHERE value from `before[joinKey]`, and `before` is not bound there. The
  model takes whatever that name holds as the parameter `unboundBefore`; the
  WHERE value does not come from the deleted row (`ComputedDeleteIgnoresRowKey`).

## Model

| member | source | states |
|---|---|---|
| `Values.At` | aggrebase.js:61-64 | the values read are exactly as many as the column names and position `i` holds the row's value of column `i` (`undefined` when absent) |
| `Values.Pick` | aggrebase.js:75 | the picked object has exactly those of the listed columns the row has, each with the row's value |
| `Values.ObjRow` | aggrebase.js:138-141 | the computed row's keys are exactly its entries' keys and each maps to its entry's value |
| `Values.Unzip` | aggrebase.js:132 | the column list and value list both have one element per entry, paired position by position with the entries |
| `Values.Demap` | aggrebase.js:43-46 | the pair returned is an entry of the configuration object, and its only entry when it has one |
| `Values.ColumnChangedByInstant` | aggrebase.js:48-57 | a Date column counts as unchanged exactly when both images hold the same instant, whatever the objects' identities |
| `Values.ChangedColumns` | aggrebase.js:71 | a column is in the result exactly when it is a listed column that changed under the chosen comparison; never more columns than listed |
| `Values.ObjectColumnChangesByIdentity` | aggrebase.js:48-57 | a non-Date object column whose before and after images hold different objects counts as changed, both for `columnChanged` and for the plain `!=` of `joinedView`, even when the objects have equal contents |
| `Values.ColumnChanged` | aggrebase.js:48-57 | no contract of its own; `ColumnChangedByInstant`, `ObjectColumnChangesByIdentity` and `NoChangeAgainstItself` state its meaning: Dates compare by instant, other objects by identity, and an image never differs from itself |
| `Values.NoChangeAgainstItself` | aggrebase.js:48-57 | comparing an image with itself finds no changed column, under either comparison |
| `Builders.DirectWrite` | aggrebase.js:63-69 | a write is an INSERT into the view of `[key] ++ valueColumns` with one more value than there are value columns, value `i` read from the row's column `i` |
| `Builders.DirectUpdate` | aggrebase.js:70-78 | no mutation exactly when no value column changed (Dates by instant); otherwise an UPDATE whose SET holds exactly the changed columns present in `after`, with their after values, WHERE key = before's key |
| `Builders.DirectDelete` | aggrebase.js:79-84 | a delete is a DELETE from the view WHERE key = the row's key |
| `Builders.JoinedWrite` | aggrebase.js:92-99 | a mutation exactly when the filter (if any) admits the row; it is an UPDATE of the value columns the row has, with the row's values, WHERE viewKey = the row's join key |
| `Builders.JoinedUpdate` | aggrebase.js:100-110 | a mutation exactly when the filter admits `after` and some value column differs by plain comparison; an UPDATE of exactly those columns present in `after`, WHERE viewKey = before's join key |
| `Builders.ClearedColumns` | aggrebase.js:113-114 | the object has exactly the value columns as keys, each set to `undefined` |
| `Builders.JoinedDelete` | aggrebase.js:111-120 | a mutation exactly when the filter admits the row, and it is never a DELETE: an UPDATE setting exactly the value columns to `undefined` WHERE viewKey = the row's join key |
| `Builders.ComputedWrite` | aggrebase.js:128-144 | no mutation exactly when `compute(undefined, row)` yields nothing; with equal keys an INSERT whose columns and values pair up with the computed entries; otherwise an UPDATE to the computed row WHERE viewKey = the row's join key |
| `Builders.ComputedUpdate` | aggrebase.js:145-153 | a mutation exactly when `compute(before, after)` yields a row, and then only an UPDATE to that row WHERE viewKey = before's join key — never an insert or delete |
| `Builders.ComputedDelete` | aggrebase.js:154-167 | no mutation exactly when `compute(row, undefined)` yields nothing and the keys differ; a computed row gives an UPDATE whose WHERE value is read from the unbound `before`; nothing computed with equal keys gives a DELETE WHERE viewKey = the row's join key |
| `Builders.WriteQuery` | aggrebase.js:63-144 | no contract of its own; the closure a strategy's `writerows` handler calls, dispatching to `DirectWrite`, `JoinedWrite` or `ComputedWrite`, whose contracts and `OnlyOwnersInsertOrDelete` give its meaning |
| `Builders.UpdateQuery` | aggrebase.js:70-153 | no contract of its own; the `updaterows` closure, dispatching to `DirectUpdate`, `JoinedUpdate` or `ComputedUpdate`; `OnlyOwnersInsertOrDelete` shows it only ever updates the strategy's view |
| `Builders.DeleteQuery` | aggrebase.js:79-167 | no contract of its own; the `deleterows` closure, dispatching to `DirectDelete`, `JoinedDelete` or `ComputedDelete`; `OnlyOwnersInsertOrDelete` and `OwnersInsertAndDelete` give its meaning |
| `Builders.OnlyOwnersInsertOrDelete` | aggrebase.js:59-169 | every mutation goes to the strategy's view; only a direct view or a computed view with equal keys ever issues an INSERT or a DELETE; updates only ever update; a non-owner's delete is an UPDATE |
| `Builders.OwnersInsertAndDelete` | aggrebase.js:59-169 | an owning strategy inserts on a write (a computed one when compute yields a row) and deletes at the row's key on a delete (a computed one when compute yields nothing) |
| `Builders.ReconstructedDateDivergence` | aggrebase.js:70-110 | an update that only replaces a Date object by another for the same instant gives no mutation for a direct view but an UPDATE for a joined view |
| `Builders.ComputedDeleteIgnoresRowKey` | aggrebase.js:154-160 | when compute yields a row on delete, two deleted rows with the same computed row give the same mutation whatever their join keys |
| `Builders.OrdersSummaryExample` | aggrebase.js:59-85 | an `orders_summary` view keyed by `order_id`: the write inserts `(5, "new")`, the status change updates `status` to `"paid"` at `order_id = 5`, an unchanged update gives nothing, the delete deletes at `order_id = 5` |
| `Views.HandlersFor` | aggrebase.js:62 | the tree has just the source table, with a handler of each row-event kind stored under that kind's event name and no other entries |
| `Views.View` | aggrebase.js:59-62 | a direct view of the first entry's source table under the first entry's view name, with no init query |
| `Views.JoinedView` | aggrebase.js:88-91 | a joined view with the view key and join key taken from the key map's first entry, and the given filter |
| `Views.Keys` | aggrebase.js:126 | a single key name gives equal view and join keys; a key object gives its first entry, its only one when it has one |
| `Views.ComputedView` | aggrebase.js:124-127 | the handlers are exactly the three computed handlers of the first entry's source table, into its view name, with the keys the key map gives and the given compute function, and no init query; a single key name makes every handler own the view row |
| `Engine.BuildRow` | aggrebase.js:20-41 | no contract of its own; the `getQuery(row)` or `getQuery(before, after)` call a handler makes for one row, by its event kind; `IssuedExactly` ties the issued mutations to it |
| `Engine.Issued` | aggrebase.js:20-41 | a handler never issues more mutations than the event has rows |
| `Engine.IssuedAppend` | aggrebase.js:20-41 | issuing for two batches of rows in turn is issuing for the concatenated batch |
| `Engine.IssuedExactly` | aggrebase.js:20-41 | a mutation is issued exactly when some row's builder returns it |
| `Engine.DirectIssuesEveryRow` | aggrebase.js:63-84 | a direct view's write and delete handlers issue exactly one mutation per row |
| `Engine.JoinedNeverDeletes` | aggrebase.js:111-120 | every mutation a joined view's handlers issue is an UPDATE |
| `Engine.RunRows` | aggrebase.js:20-41 | the loop over `evt.rows` issues, in row order, the builder's descriptor for each row and skips rows whose builder returns nothing |
| `Engine.MergeTree` | aggrebase.js:184 | the merged registry has the tables of both trees |
| `Engine.MergeLastWriterWins` | aggrebase.js:179-186 | after a merge, a table and event name the newer tree has resolve to the newer handler, and any other resolves as before — different event names on one table coexist |
| `Engine.MergeKeepsWellKeyed` | aggrebase.js:184 | merging keeps every handler under the name of its event kind |
| `Engine.MergeAssociative` | aggrebase.js:184 | merging views one after another gives the registry of merging their merge |
| `Engine.Target` | aggrebase.js:247-250 | an event reaches a handler only with a table map, and then exactly the handler under its table name and event name |
| `Engine.Route` | aggrebase.js:246-253 | no contract of its own; the `'binlog'` listener's result, whose meaning `RouteDispatch`, `RouteIgnoresDatabase` and `RegisteredHandlersDispatch` state |
| `Engine.RouteDispatch` | aggrebase.js:246-253 | an event without table map, on an untracked table, or with an event name its table lacks, issues nothing; otherwise exactly what its handler issues for its rows |
| `Engine.RouteIgnoresDatabase` | aggrebase.js:248 | changing only the database of the event's table changes nothing the router issues |
| `Engine.RegisteredHandlersDispatch` | aggrebase.js:179-253 | once a view's handlers are merged into any registry, a write, update or delete event on its source table issues exactly what that view's handler of the same kind issues for the event's rows |
| `Engine.OrdersSummaryEndToEnd` | aggrebase.js:59-253 | the `orders_summary` view built by `view`, merged into an empty registry and fed through the router, turns a write into an INSERT of `(5, "new")`, an update into an UPDATE of `status` to `"paid"` at `order_id = 5`, and a delete into a DELETE at `order_id = 5` |
| `Engine.RowEventsAdmissible` | aggrebase.js:246-253 | a write or delete event of row images can always be dispatched against a registry keyed by event name |
| `Engine.LaterViewReplacesEarlier` | aggrebase.js:179-186 | after registering two views of one source table, a write event on it issues only the second view's mutations |
| `Engine.Aggrebase.constructor` | aggrebase.js:171-177 | a new engine has no init queries, no handlers and has issued nothing |
| `Engine.Aggrebase.Add` | aggrebase.js:179-186 | a non-empty `initQuery` is appended after the earlier ones, the handlers are merged in when present, the issued mutations are unchanged, and a registry keyed by event name stays so when the new handlers are |
| `Engine.Aggrebase.OnBinlog` | aggrebase.js:246-253 | the mutations issued so far are followed by exactly those the event routes to |

## Left out

- `updateAnalytics` (aggrebase.js:5-18): executing a statement on the destination connection, logging it, logging a failure with a server message and throwing any other error. The model stops at the descriptor handed over (`Aggrebase.issued`).
- `init` (aggrebase.js:188-224): the bootstrap transaction, `SHOW MASTER STATUS`, the init queries and commit or rollback, all asynchronous calls on the destination client. It hands `File` and `Position` of the status row to `start` as the resume position; that is not modelled.
- `start` and `stop` (aggrebase.js:226-245, 255-261): start options, the binlog client and the connection lifecycle. The constructor's connection creation (aggrebase.js:173) is left out too.
- `mysql.format` and the `??` / `?` placeholders: a descriptor is an abstract datatype, not a string.
- JavaScript loose equality: values compare as abstract `Value`s (a Date by identity and instant), so coercions such as `1 == "1"` or `null == undefined` are not modelled.
- Lodash path semantics: a column name containing `.` or `[` is treated as a plain key by `_.at`, `_.pick` and `_.set`.
- `compute` and `filter` are total pure functions here; a user function that throws or has side effects is not modelled.
- Values.Demap: requires a non-empty object; `demap({})` gives `undefined` names in the source, which the model does not represent. `View`, `JoinedView` and `ComputedView` carry the same requirement.
- Values.ColumnChanged: requires the before value of a column to be a Date whenever its after value is one; otherwise the source throws a TypeError from `getTime()`. The router carries this as part of `Admissible`.
- Engine.Target: requires the event's table id to be in its table map; the source reads `.tableName` of `undefined` otherwise and throws.
- Builders.ComputedDelete: the WHERE value of the UPDATE is `Get(unboundBefore, joinKey)`. When no global `before` exists, reading it throws a ReferenceError, which the model does not capture.
- Builders.ComputedWrite: for an empty computed row `{}`, `_.unzip([])` destructures to `undefined` column and value lists; the model gives two empty lists.
- Configuration objects (`{viewName: sourceTable}`, `{viewKey: joinKey}`) are entry lists with distinct keys, as JavaScript objects are, listed in the object's enumeration order: integer-like keys first in ascending numeric order, then the other string keys in insertion order. The model does not derive that order from the keys; the caller supplies the list already in it.
- Handler trees hold only handlers the three factories build; a hand-written handler function, and property names inherited from `Object.prototype` that the `in` operator would also find, are not modelled.
- Events are processed one at a time, as the listener is called; asynchronous completion of the destination writes is not modelled.
