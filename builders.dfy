/**
 The mutation builders of the three view strategies (aggrebase.js:59-169).
 Each turns one row of a change event into at most one mutation descriptor:
 an INSERT, an UPDATE of some columns at one key, or a DELETE at one key.
 The strategies differ in ownership: a direct view, and a computed view whose
 view key is its join key, own the existence of the view row; a joined view,
 and a computed view with two different keys, own only some of its columns.
 */
module Builders {
  import opened Values

  /** A mutation descriptor. `Insert` is `INSERT INTO ?? (??) VALUES (?)`,
      `Update` is `UPDATE ?? SET ? WHERE ??=?` and `Delete` is
      `DELETE FROM ?? WHERE ??=?`, each with its parameters. */
  datatype Mutation =
    | Insert(table: string, columns: seq<string>, values: seq<Value>)
    | Update(table: string, assignments: Row, keyColumn: string, keyValue: Value)
    | Delete(table: string, keyColumn: string, keyValue: Value)

  /** The user's `options.filter` of a joined view. */
  type Filter = Row -> bool

  /** The user's `compute(before, after)` of a computed view; `None` stands
      for every falsy result. */
  type Compute = (Option<Row>, Option<Row>) -> Option<Obj>

  /** What a handler closure captures: the view and how it is fed. */
  datatype Strategy =
    | Direct(viewName: string, key: string, valueColumns: seq<string>)
    | Joined(viewName: string, viewKey: string, joinKey: string, valueColumns: seq<string>, filter: Option<Filter>)
    | Computed(viewName: string, viewKey: string, joinKey: string, compute: Compute)

  /** The source row decides whether the view row exists. */
  predicate OwnsViewRow(s: Strategy)
  {
    s.Direct? || (s.Computed? && s.viewKey == s.joinKey)
  }

  /** `!options.filter || options.filter(row)` */
  predicate Admits(filter: Option<Filter>, row: Row)
  {
    filter.None? || filter.value(row)
  }

  // ---- view(tableMap, key, valueColumns) ----

  /** A write inserts the key and the value columns, read from the row in
      that same order. */
  function DirectWrite(viewName: string, key: string, valueColumns: seq<string>, row: Row): (m: Mutation)
    ensures m.Insert? && m.table == viewName && m.columns == [key] + valueColumns
    ensures |m.values| == 1 + |valueColumns| && m.values[0] == Get(row, key)
    ensures forall i :: 0 <= i < |valueColumns| ==> m.values[i + 1] == Get(row, valueColumns[i])
  {
    var columnNames := [key] + valueColumns;
    Insert(viewName, columnNames, At(row, columnNames))
  }

  /** An update sets exactly the value columns whose value changed (a Date by
      its instant) at the row the before image identifies, and is dropped
      when no value column changed. */
  function DirectUpdate(viewName: string, key: string, valueColumns: seq<string>, before: Row, after: Row): (r: Option<Mutation>)
    requires DatesAligned(before, after, valueColumns)
    ensures r.None? <==> forall c :: c in valueColumns ==> !ColumnChanged(before, after, c)
    ensures r.Some? ==> r.value.Update? && r.value.table == viewName
                        && r.value.keyColumn == key && r.value.keyValue == Get(before, key)
    ensures r.Some? ==> r.value.assignments.Keys == set c | c in valueColumns && c in after && ColumnChanged(before, after, c)
    ensures r.Some? ==> forall c :: c in r.value.assignments ==> r.value.assignments[c] == after[c]
  {
    var changed := ChangedColumns(ByInstant, before, after, valueColumns);
    if changed == [] then None
    else
      assert changed[0] in changed;
      Some(Update(viewName, Pick(after, changed), key, Get(before, key)))
  }

  /** A delete deletes the view row with the row's key. */
  function DirectDelete(viewName: string, key: string, row: Row): (m: Mutation)
    ensures m.Delete? && m.table == viewName && m.keyColumn == key && m.keyValue == Get(row, key)
  {
    Delete(viewName, key, Get(row, key))
  }

  // ---- joinedView(tableMap, keyMap, valueColumns, options) ----

  /** A write the filter admits sets the value columns the row has, at the
      view row whose view key is the row's join key. */
  function JoinedWrite(viewName: string, viewKey: string, joinKey: string, valueColumns: seq<string>,
                       filter: Option<Filter>, row: Row): (r: Option<Mutation>)
    ensures r.Some? <==> Admits(filter, row)
    ensures r.Some? ==> r.value.Update? && r.value.table == viewName
                        && r.value.keyColumn == viewKey && r.value.keyValue == Get(row, joinKey)
    ensures r.Some? ==> r.value.assignments.Keys == set c | c in valueColumns && c in row
    ensures r.Some? ==> forall c :: c in r.value.assignments ==> r.value.assignments[c] == row[c]
  {
    if Admits(filter, row) then Some(Update(viewName, Pick(row, valueColumns), viewKey, Get(row, joinKey)))
    else None
  }

  /** An update whose after image the filter admits sets the value columns
      whose value differs by plain comparison (a Date by identity), at the
      view key the before image's join key names; nothing when none differs. */
  function JoinedUpdate(viewName: string, viewKey: string, joinKey: string, valueColumns: seq<string>,
                        filter: Option<Filter>, before: Row, after: Row): (r: Option<Mutation>)
    ensures r.Some? <==> Admits(filter, after) && exists c :: c in valueColumns && Get(before, c) != Get(after, c)
    ensures r.Some? ==> r.value.Update? && r.value.table == viewName
                        && r.value.keyColumn == viewKey && r.value.keyValue == Get(before, joinKey)
    ensures r.Some? ==> r.value.assignments.Keys == set c | c in valueColumns && c in after && Get(before, c) != Get(after, c)
    ensures r.Some? ==> forall c :: c in r.value.assignments ==> r.value.assignments[c] == after[c]
  {
    if Admits(filter, after) then
      var changed := ChangedColumns(ByIdentity, before, after, valueColumns);
      if changed == [] then None
      else
        assert changed[0] in changed;
        Some(Update(viewName, Pick(after, changed), viewKey, Get(before, joinKey)))
    else None
  }

  /** The object with every value column set to `undefined`. */
  function ClearedColumns(valueColumns: seq<string>): (r: Row)
    ensures r.Keys == set c | c in valueColumns
    ensures forall c :: c in r ==> r[c] == Undefined
  {
    if valueColumns == [] then map[]
    else ClearedColumns(valueColumns[1..])[valueColumns[0] := Undefined]
  }

  /** A delete the filter admits never deletes: it clears exactly the value
      columns of the view row whose view key is the row's join key. */
  function JoinedDelete(viewName: string, viewKey: string, joinKey: string, valueColumns: seq<string>,
                        filter: Option<Filter>, row: Row): (r: Option<Mutation>)
    ensures r.Some? <==> Admits(filter, row)
    ensures r.Some? ==> r.value.Update? && r.value.table == viewName
                        && r.value.keyColumn == viewKey && r.value.keyValue == Get(row, joinKey)
    ensures r.Some? ==> r.value.assignments.Keys == set c | c in valueColumns
    ensures r.Some? ==> forall c :: c in r.value.assignments ==> r.value.assignments[c] == Undefined
  {
    if Admits(filter, row) then Some(Update(viewName, ClearedColumns(valueColumns), viewKey, Get(row, joinKey)))
    else None
  }

  // ---- computedView(tableMap, keyMap, compute) ----

  /** A write asks `compute(undefined, row)`. Nothing when it yields nothing;
      with equal keys an INSERT of the computed columns and values, paired;
      otherwise an UPDATE to the computed row at the row's join key. */
  function ComputedWrite(viewName: string, viewKey: string, joinKey: string, compute: Compute, row: Row): (r: Option<Mutation>)
    ensures r.None? <==> compute(None, Some(row)).None?
    ensures r.Some? && viewKey == joinKey ==>
              var o := compute(None, Some(row)).value;
              && r.value.Insert? && r.value.table == viewName
              && |r.value.columns| == |o| && |r.value.values| == |o|
              && forall i :: 0 <= i < |o| ==> (r.value.columns[i], r.value.values[i]) == o[i]
    ensures r.Some? && viewKey != joinKey ==>
              r.value == Update(viewName, ObjRow(compute(None, Some(row)).value), viewKey, Get(row, joinKey))
  {
    match compute(None, Some(row))
    case None => None
    case Some(viewRow) =>
      if viewKey == joinKey then
        var (columns, values) := Unzip(viewRow);
        Some(Insert(viewName, columns, values))
      else Some(Update(viewName, ObjRow(viewRow), viewKey, Get(row, joinKey)))
  }

  /** An update asks `compute(before, after)` and only ever updates, at the
      view key the before image's join key names; nothing when it yields
      nothing, whatever the keys. */
  function ComputedUpdate(viewName: string, viewKey: string, joinKey: string, compute: Compute, before: Row, after: Row): (r: Option<Mutation>)
    ensures r.Some? <==> compute(Some(before), Some(after)).Some?
    ensures r.Some? ==> r.value.Update? && r.value.table == viewName
                        && r.value.keyColumn == viewKey && r.value.keyValue == Get(before, joinKey)
                        && r.value.assignments == ObjRow(compute(Some(before), Some(after)).value)
  {
    match compute(Some(before), Some(after))
    case None => None
    case Some(viewRow) => Some(Update(viewName, ObjRow(viewRow), viewKey, Get(before, joinKey)))
  }

  /** A delete asks `compute(row, undefined)`. When it yields a row, an UPDATE
      whose WHERE value is read from `before`, a name that is not bound in
      this handler: `unboundBefore` stands for whatever that name holds, so
      the value is not the deleted row's. When it yields nothing, a DELETE at
      the row's join key if the keys are equal, and nothing otherwise. */
  function ComputedDelete(viewName: string, viewKey: string, joinKey: string, compute: Compute, row: Row,
                          unboundBefore: Row): (r: Option<Mutation>)
    ensures r.None? <==> compute(Some(row), None).None? && viewKey != joinKey
    ensures compute(Some(row), None).Some? ==>
              r == Some(Update(viewName, ObjRow(compute(Some(row), None).value), viewKey, Get(unboundBefore, joinKey)))
    ensures compute(Some(row), None).None? && viewKey == joinKey ==>
              r == Some(Delete(viewName, viewKey, Get(row, joinKey)))
  {
    match compute(Some(row), None)
    case Some(viewRow) => Some(Update(viewName, ObjRow(viewRow), viewKey, Get(unboundBefore, joinKey)))
    case None => if viewKey == joinKey then Some(Delete(viewName, viewKey, Get(row, joinKey))) else None
  }

  // ---- the three event kinds, over a strategy ----

  function WriteQuery(s: Strategy, row: Row): Option<Mutation>
  {
    match s
    case Direct(viewName, key, valueColumns) => Some(DirectWrite(viewName, key, valueColumns, row))
    case Joined(viewName, viewKey, joinKey, valueColumns, filter) => JoinedWrite(viewName, viewKey, joinKey, valueColumns, filter, row)
    case Computed(viewName, viewKey, joinKey, compute) => ComputedWrite(viewName, viewKey, joinKey, compute, row)
  }

  /** What `columnChanged` demands of an update's images. */
  predicate UpdateAdmissible(s: Strategy, before: Row, after: Row)
  {
    s.Direct? ==> DatesAligned(before, after, s.valueColumns)
  }

  function UpdateQuery(s: Strategy, before: Row, after: Row): Option<Mutation>
    requires UpdateAdmissible(s, before, after)
  {
    match s
    case Direct(viewName, key, valueColumns) => DirectUpdate(viewName, key, valueColumns, before, after)
    case Joined(viewName, viewKey, joinKey, valueColumns, filter) => JoinedUpdate(viewName, viewKey, joinKey, valueColumns, filter, before, after)
    case Computed(viewName, viewKey, joinKey, compute) => ComputedUpdate(viewName, viewKey, joinKey, compute, before, after)
  }

  function DeleteQuery(s: Strategy, row: Row, unboundBefore: Row): Option<Mutation>
  {
    match s
    case Direct(viewName, key, _) => Some(DirectDelete(viewName, key, row))
    case Joined(viewName, viewKey, joinKey, valueColumns, filter) => JoinedDelete(viewName, viewKey, joinKey, valueColumns, filter, row)
    case Computed(viewName, viewKey, joinKey, compute) => ComputedDelete(viewName, viewKey, joinKey, compute, row, unboundBefore)
  }

  /** Only a strategy that owns the view row's existence ever inserts it or
      deletes it; the others only update columns of a row someone else owns.
      Every mutation goes to the strategy's own view. */
  lemma OnlyOwnersInsertOrDelete(s: Strategy, before: Row, after: Row, row: Row, unboundBefore: Row)
    requires UpdateAdmissible(s, before, after)
    ensures WriteQuery(s, row).Some? ==> WriteQuery(s, row).value.table == s.viewName
    ensures UpdateQuery(s, before, after).Some? ==> UpdateQuery(s, before, after).value.table == s.viewName
    ensures DeleteQuery(s, row, unboundBefore).Some? ==> DeleteQuery(s, row, unboundBefore).value.table == s.viewName
    ensures WriteQuery(s, row).Some? && WriteQuery(s, row).value.Insert? ==> OwnsViewRow(s)
    ensures UpdateQuery(s, before, after).Some? ==> UpdateQuery(s, before, after).value.Update?
    ensures DeleteQuery(s, row, unboundBefore).Some? && DeleteQuery(s, row, unboundBefore).value.Delete? ==> OwnsViewRow(s)
    ensures !OwnsViewRow(s) ==> DeleteQuery(s, row, unboundBefore).Some? ==> DeleteQuery(s, row, unboundBefore).value.Update?
  {
  }

  /** A source that owns the view row inserts on every write whose computed
      row exists, and deletes on every delete that computes nothing. */
  lemma OwnersInsertAndDelete(s: Strategy, row: Row, unboundBefore: Row)
    requires OwnsViewRow(s)
    ensures s.Direct? ==> WriteQuery(s, row).Some? && WriteQuery(s, row).value.Insert?
    ensures s.Direct? ==> DeleteQuery(s, row, unboundBefore) == Some(Delete(s.viewName, s.key, Get(row, s.key)))
    ensures s.Computed? && s.compute(None, Some(row)).Some? ==> WriteQuery(s, row).value.Insert?
    ensures s.Computed? && s.compute(Some(row), None).None? ==>
              DeleteQuery(s, row, unboundBefore) == Some(Delete(s.viewName, s.viewKey, Get(row, s.joinKey)))
  {
  }

  /** An update that only rebuilds a Date object for the same instant is no
      change to a direct view, but a joined view sees a change and updates. */
  lemma ReconstructedDateDivergence(viewName: string, key: string, viewKey: string, joinKey: string, col: string,
                                    filter: Option<Filter>, before: Row, after: Row)
    requires Get(before, col).Date? && Get(after, col).Date?
    requires Get(before, col).instant == Get(after, col).instant
    requires Get(before, col).ref != Get(after, col).ref
    requires Admits(filter, after)
    ensures DirectUpdate(viewName, key, [col], before, after).None?
    ensures JoinedUpdate(viewName, viewKey, joinKey, [col], filter, before, after).Some?
  {
    assert col in [col];
  }

  /** The WHERE value of a computed delete that yields a row does not depend
      on the deleted row: two deletes whose computed rows are the same give
      the same mutation, whatever their join keys. */
  lemma ComputedDeleteIgnoresRowKey(viewName: string, viewKey: string, joinKey: string, compute: Compute,
                                    row1: Row, row2: Row, unboundBefore: Row)
    requires compute(Some(row1), None).Some?
    requires compute(Some(row1), None) == compute(Some(row2), None)
    ensures ComputedDelete(viewName, viewKey, joinKey, compute, row1, unboundBefore)
         == ComputedDelete(viewName, viewKey, joinKey, compute, row2, unboundBefore)
  {
  }

  /** A view `{orders_summary: "orders"}` keyed by `order_id` with the value
      column `status`, fed a write, an update of the status and a delete. */
  lemma OrdersSummaryExample()
    ensures var placed := map["order_id" := Num(5), "status" := Str("new")];
            var paid := map["order_id" := Num(5), "status" := Str("paid")];
            && DirectWrite("orders_summary", "order_id", ["status"], placed)
               == Insert("orders_summary", ["order_id", "status"], [Num(5), Str("new")])
            && DirectUpdate("orders_summary", "order_id", ["status"], placed, paid)
               == Some(Update("orders_summary", map["status" := Str("paid")], "order_id", Num(5)))
            && DirectUpdate("orders_summary", "order_id", ["status"], paid, paid).None?
            && DirectDelete("orders_summary", "order_id", paid) == Delete("orders_summary", "order_id", Num(5))
  {
    var placed := map["order_id" := Num(5), "status" := Str("new")];
    var paid := map["order_id" := Num(5), "status" := Str("paid")];
    var m := DirectWrite("orders_summary", "order_id", ["status"], placed);
    assert m.values == [Num(5), Str("new")];
    var u := DirectUpdate("orders_summary", "order_id", ["status"], placed, paid);
    assert "status" in ["status"];
    assert u.value.assignments == map["status" := Str("paid")];
  }
}
