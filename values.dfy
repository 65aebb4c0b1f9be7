/**
 Column values, row images and the small helpers that every mutation builder
 shares: reading a column, picking columns, reading the first entry of a
 one-entry configuration object, and deciding whether a column changed
 between the before and after images of an update (aggrebase.js:43-57).
 */
module Values {

  datatype Option<T> = None | Some(value: T)

  /** A column value as the replication-log reader delivers it. Objects
      carry their identity `ref`: a `Date` also carries the instant that
      `getTime()` returns, so that comparing by identity and comparing by
      instant differ; any other object (a Buffer, a parsed JSON value, the
      array of a SET column) is compared by identity alone. Distinct objects
      have distinct `ref`s, so one `ref` never comes with two instants, and
      an object equals only itself. */
  datatype Value =
    | Undefined
    | Null
    | Bool(b: bool)
    | Num(n: int)
    | Str(s: string)
    | Date(ref: nat, instant: int)
    | Object(ref: nat)

  /** A row image: column name to value. */
  type Row = map<string, Value>

  /** `row[col]`: a column the row does not have reads as `undefined`. */
  function Get(row: Row, col: string): Value
  {
    if col in row then row[col] else Undefined
  }

  /** `_.at(row, cols)`: the values of `cols`, position by position. */
  function At(row: Row, cols: seq<string>): (r: seq<Value>)
    ensures |r| == |cols|
    ensures forall i :: 0 <= i < |cols| ==> r[i] == Get(row, cols[i])
  {
    if cols == [] then [] else [Get(row, cols[0])] + At(row, cols[1..])
  }

  /** `_.pick(row, cols)`: the sub-object holding those of `cols` that the row
      actually has, with the row's values. */
  function Pick(row: Row, cols: seq<string>): (r: Row)
    ensures r.Keys == set c | c in cols && c in row
    ensures forall c :: c in r ==> r[c] == row[c]
  {
    if cols == [] then map[]
    else
      var rest := Pick(row, cols[1..]);
      if cols[0] in row then rest[cols[0] := row[cols[0]]] else rest
  }

  /** A JavaScript object as the ordered list of its entries, in enumeration
      order: integer-like keys first, in ascending numeric order, then the
      other string keys in insertion order. An object has no key twice. */
  predicate DistinctKeys<V>(entries: seq<(string, V)>)
  {
    forall i, j :: 0 <= i < j < |entries| ==> entries[i].0 != entries[j].0
  }

  type Entries<V> = e: seq<(string, V)> | DistinctKeys(e) witness []

  /** An object with column values, such as the row `compute` returns. */
  type Obj = Entries<Value>

  /** The object an entry list denotes, as a row. */
  function ObjRow(o: Obj): (r: Row)
    ensures r.Keys == set i | 0 <= i < |o| :: o[i].0
    ensures forall i :: 0 <= i < |o| ==> r[o[i].0] == o[i].1
  {
    if o == [] then map[]
    else
      var rest: Obj := o[1..];
      ObjRow(rest)[o[0].0 := o[0].1]
  }

  /** `_.unzip(_.entries(o))`: the column list and the value list, paired
      position by position. */
  function Unzip(o: Obj): (r: (seq<string>, seq<Value>))
    ensures |r.0| == |o| && |r.1| == |o|
    ensures forall i :: 0 <= i < |o| ==> (r.0[i], r.1[i]) == o[i]
  {
    if o == [] then ([], [])
    else
      var rest: Obj := o[1..];
      var (cs, vs) := Unzip(rest);
      ([o[0].0] + cs, [o[0].1] + vs)
  }

  /** `demap(obj)`: the first entry of a configuration object such as
      `{viewName: sourceTable}`, as a pair. */
  function Demap<V>(obj: Entries<V>): (r: (string, V))
    requires |obj| > 0
    ensures r in obj
    ensures |obj| == 1 ==> obj == [r]
  {
    obj[0]
  }

  /** What `columnChanged(before, after)` needs: it calls `getTime()` on the
      before value of every column whose after value is a Date. */
  predicate DatesAligned(before: Row, after: Row, cols: seq<string>)
  {
    forall c :: c in cols && Get(after, c).Date? ==> Get(before, c).Date?
  }

  /** `columnChanged(before, after)(col)`: a Date column changed when its
      instant changed; any other column when its value changed. */
  function ColumnChanged(before: Row, after: Row, col: string): bool
    requires Get(after, col).Date? ==> Get(before, col).Date?
  {
    var a, b := Get(after, col), Get(before, col);
    if a.Date? then a.instant != b.instant else a != b
  }

  /** Two Date objects for the same instant are not a change, whatever their
      identities. */
  lemma ColumnChangedByInstant(before: Row, after: Row, col: string)
    requires Get(after, col).Date? && Get(before, col).Date?
    ensures !ColumnChanged(before, after, col) <==> Get(after, col).instant == Get(before, col).instant
  {
  }

  /** How a builder compares the two images of a column: `view` uses
      `columnChanged`, `joinedView` the plain operator `!=`. */
  datatype Comparison = ByInstant | ByIdentity

  predicate Comparable(cmp: Comparison, before: Row, after: Row, cols: seq<string>)
  {
    cmp.ByInstant? ==> DatesAligned(before, after, cols)
  }

  predicate Changed(cmp: Comparison, before: Row, after: Row, col: string)
    requires cmp.ByInstant? ==> (Get(after, col).Date? ==> Get(before, col).Date?)
  {
    match cmp
    case ByInstant => ColumnChanged(before, after, col)
    case ByIdentity => Get(before, col) != Get(after, col)
  }

  /** `_.filter(cols, changed)`: the columns that changed, in their order. */
  function ChangedColumns(cmp: Comparison, before: Row, after: Row, cols: seq<string>): (r: seq<string>)
    requires Comparable(cmp, before, after, cols)
    ensures |r| <= |cols|
    ensures forall c :: c in r <==> c in cols && Changed(cmp, before, after, c)
  {
    if cols == [] then []
    else
      var rest := ChangedColumns(cmp, before, after, cols[1..]);
      if Changed(cmp, before, after, cols[0]) then [cols[0]] + rest else rest
  }

  /** A column holding an object other than a Date changes on every update
      whose images hold two different objects, even for equal contents. */
  lemma ObjectColumnChangesByIdentity(before: Row, after: Row, col: string)
    requires Get(before, col).Object? && Get(after, col).Object?
    requires Get(before, col).ref != Get(after, col).ref
    ensures ColumnChanged(before, after, col)
    ensures Changed(ByIdentity, before, after, col)
  {
  }

  /** Comparing an image with itself finds no changed column, under either
      comparison. */
  lemma {:induction false} NoChangeAgainstItself(cmp: Comparison, row: Row, cols: seq<string>)
    ensures Comparable(cmp, row, row, cols)
    ensures ChangedColumns(cmp, row, row, cols) == []
  {
    if cols != [] {
      NoChangeAgainstItself(cmp, row, cols[1..]);
    }
  }
}
