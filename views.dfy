/**
 The three view factories `view`, `joinedView` and `computedView`
 (aggrebase.js:59-169) and the configuration object they return: a handler
 per row-event name, under the source table's name.
 */
module Views {
  import opened Values
  import opened Builders

  /** The row events a handler reacts to, and their names as
      `evt.getEventName()` reports them. */
  datatype Kind = WriteRows | UpdateRows | DeleteRows

  function EventName(k: Kind): string
  {
    match k
    case WriteRows => "writerows"
    case UpdateRows => "updaterows"
    case DeleteRows => "deleterows"
  }

  /** A handler closure: `rowHandler(getQuery)` for writes and deletes,
      `rowUpdateHandler(getQuery)` for updates, with the builder of `view`
      for that kind. */
  datatype Handler = Handler(kind: Kind, view: Strategy)

  /** `handlers`: source table name, then event name, to handler. */
  type HandlerTree = map<string, map<string, Handler>>

  /** Every handler sits under the name of the event kind it handles. */
  predicate WellKeyed(tree: HandlerTree)
  {
    forall t, e :: t in tree && e in tree[t] ==> EventName(tree[t][e].kind) == e
  }

  /** What `add` reads from a configuration object. `initQuery` is kept as
      the caller wrote it; `add` ignores an empty one. */
  datatype ViewConfig = ViewConfig(initQuery: Option<string>, handlers: Option<HandlerTree>)

  /** The three handlers of one strategy, under its source table. */
  function HandlersFor(sourceTable: string, s: Strategy): (tree: HandlerTree)
    ensures tree.Keys == {sourceTable} && WellKeyed(tree)
    ensures forall k: Kind :: EventName(k) in tree[sourceTable] && tree[sourceTable][EventName(k)] == Handler(k, s)
    ensures forall e :: e in tree[sourceTable] ==> exists k: Kind :: e == EventName(k)
  {
    map[sourceTable := map[EventName(WriteRows) := Handler(WriteRows, s),
                           EventName(UpdateRows) := Handler(UpdateRows, s),
                           EventName(DeleteRows) := Handler(DeleteRows, s)]]
  }

  /** `view({viewName: sourceTable}, key, valueColumns)`: a direct view of
      the source table, keyed by the same column in both. */
  function View(tableMap: Entries<string>, key: string, valueColumns: seq<string>): (c: ViewConfig)
    requires |tableMap| > 0
    ensures c.initQuery.None? && c.handlers.Some? && WellKeyed(c.handlers.value)
    ensures c.handlers.value == HandlersFor(tableMap[0].1, Direct(tableMap[0].0, key, valueColumns))
  {
    var (viewName, sourceTable) := Demap(tableMap);
    ViewConfig(None, Some(HandlersFor(sourceTable, Direct(viewName, key, valueColumns))))
  }

  /** `joinedView({viewName: sourceTable}, {viewKey: joinKey}, valueColumns,
      options)`: the source table contributes columns to a view row that the
      view key identifies and the source's join key points at. */
  function JoinedView(tableMap: Entries<string>, keyMap: Entries<string>, valueColumns: seq<string>,
                      filter: Option<Filter>): (c: ViewConfig)
    requires |tableMap| > 0 && |keyMap| > 0
    ensures c.initQuery.None? && c.handlers.Some? && WellKeyed(c.handlers.value)
    ensures c.handlers.value
         == HandlersFor(tableMap[0].1, Joined(tableMap[0].0, keyMap[0].0, keyMap[0].1, valueColumns, filter))
  {
    var (viewName, sourceTable) := Demap(tableMap);
    var (viewKey, joinKey) := Demap(keyMap);
    ViewConfig(None, Some(HandlersFor(sourceTable, Joined(viewName, viewKey, joinKey, valueColumns, filter))))
  }

  /** The `keyMap` of `computedView`: one column name serving as both keys,
      or an object `{viewKey: joinKey}`. */
  datatype KeyMap = SameKey(name: string) | KeyPair(pairs: Entries<string>)

  predicate ValidKeyMap(keyMap: KeyMap)
  {
    keyMap.KeyPair? ==> |keyMap.pairs| > 0
  }

  function Keys(keyMap: KeyMap): (r: (string, string))
    requires ValidKeyMap(keyMap)
    ensures keyMap.SameKey? ==> r.0 == r.1 == keyMap.name
    ensures keyMap.KeyPair? ==> r == keyMap.pairs[0] && (|keyMap.pairs| == 1 ==> keyMap.pairs == [r])
  {
    match keyMap
    case SameKey(name) => (name, name)
    case KeyPair(pairs) => Demap(pairs)
  }

  /** `computedView({viewName: sourceTable}, keyMap, compute)`. A single key
      name makes the view key and the join key equal, so the source owns the
      view row. */
  function ComputedView(tableMap: Entries<string>, keyMap: KeyMap, compute: Compute): (c: ViewConfig)
    requires |tableMap| > 0 && ValidKeyMap(keyMap)
    ensures c.initQuery.None? && c.handlers.Some? && WellKeyed(c.handlers.value)
    ensures c.handlers.value == HandlersFor(tableMap[0].1, Computed(tableMap[0].0, Keys(keyMap).0, Keys(keyMap).1, compute))
    ensures keyMap.SameKey? ==> forall e :: e in c.handlers.value[tableMap[0].1] ==>
              OwnsViewRow(c.handlers.value[tableMap[0].1][e].view)
  {
    var (viewName, sourceTable) := Demap(tableMap);
    var (viewKey, joinKey) := Keys(keyMap);
    ViewConfig(None, Some(HandlersFor(sourceTable, Computed(viewName, viewKey, joinKey, compute))))
  }
}
