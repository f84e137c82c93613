/**
Grouping the rows of information_schema into databases and tables (internal/database/schema.go,
fetchAllSchemas). The specification is a stable group-by on two levels; the code keeps nested maps
and the order of first occurrence beside them.
*/
module SchemaGroups {
  import opened Wrappers

  datatype Column = Column(name: string, dataType: string, nullable: string)

  datatype Row = Row(db: string, table: string, column: Column)

  datatype TableInfo = TableInfo(name: string, columns: seq<Column>)

  datatype DatabaseSchema = DatabaseSchema(database: string, tables: seq<TableInfo>)

  // ---- a stable group-by

  // The keys of the rows, each where it occurs first.
  function FirstSeen(rows: seq<Row>, key: Row -> string): (ks: seq<string>)
    ensures forall k :: k in ks <==> exists i :: 0 <= i < |rows| && key(rows[i]) == k
    ensures forall i, j :: 0 <= i < j < |ks| ==> ks[i] != ks[j]
  {
    if rows == [] then [] else
    var n := |rows| - 1;
    var ks := FirstSeen(rows[..n], key);
    assert forall i :: 0 <= i < n ==> rows[..n][i] == rows[i];
    if key(rows[n]) in ks then ks else ks + [key(rows[n])]
  }

  function OfKey(rows: seq<Row>, key: Row -> string, k: string): seq<Row> {
    if rows == [] then [] else
    var n := |rows| - 1;
    OfKey(rows[..n], key, k) + if key(rows[n]) == k then [rows[n]] else []
  }

  function DbOf(r: Row): string { r.db }

  function TableOf(r: Row): string { r.table }

  function ColumnsOf(rows: seq<Row>): seq<Column> {
    seq(|rows|, i requires 0 <= i < |rows| => rows[i].column)
  }

  function Tables(rows: seq<Row>): seq<TableInfo> {
    var ks := FirstSeen(rows, TableOf);
    seq(|ks|, i requires 0 <= i < |ks| => TableInfo(ks[i], ColumnsOf(OfKey(rows, TableOf, ks[i]))))
  }

  // Databases and, in each, tables in the order of their first rows; columns in row order.
  function Grouped(rows: seq<Row>): seq<DatabaseSchema> {
    var ks := FirstSeen(rows, DbOf);
    seq(|ks|, i requires 0 <= i < |ks| => DatabaseSchema(ks[i], Tables(OfKey(rows, DbOf, ks[i]))))
  }

  // The rows a grouping stands for.
  function RowsOfTable(db: string, t: TableInfo): seq<Row> {
    seq(|t.columns|, i requires 0 <= i < |t.columns| => Row(db, t.name, t.columns[i]))
  }

  function RowsByTable(d: DatabaseSchema): seq<seq<Row>> {
    seq(|d.tables|, i requires 0 <= i < |d.tables| => RowsOfTable(d.database, d.tables[i]))
  }

  function RowsOfDatabase(d: DatabaseSchema): seq<Row> { Flatten(RowsByTable(d)) }

  function RowsByDatabase(ds: seq<DatabaseSchema>): seq<seq<Row>> {
    seq(|ds|, i requires 0 <= i < |ds| => RowsOfDatabase(ds[i]))
  }

  function Flat(ds: seq<DatabaseSchema>): seq<Row> {
    Flatten(RowsByDatabase(ds))
  }

  // ---- one level of grouping

  function Groups(rows: seq<Row>, key: Row -> string): seq<seq<Row>> {
    var ks := FirstSeen(rows, key);
    seq(|ks|, i requires 0 <= i < |ks| => OfKey(rows, key, ks[i]))
  }

  lemma {:induction false} OfKeyHas(rows: seq<Row>, key: Row -> string, k: string)
    ensures forall i :: 0 <= i < |OfKey(rows, key, k)| ==> key(OfKey(rows, key, k)[i]) == k
    ensures k !in FirstSeen(rows, key) ==> OfKey(rows, key, k) == []
  {
    if rows != [] {
      OfKeyHas(rows[..|rows| - 1], key, k);
    }
  }

  lemma FirstSeenGrow(rows: seq<Row>, key: Row -> string, r: Row)
    ensures FirstSeen(rows + [r], key) ==
            if key(r) in FirstSeen(rows, key) then FirstSeen(rows, key) else FirstSeen(rows, key) + [key(r)]
  {
    assert (rows + [r])[..|rows|] == rows;
  }

  lemma IsAppended<T>(after: seq<T>, before: seq<T>, x: T)
    requires |after| == |before| + 1 && after[|before|] == x
    requires forall m :: 0 <= m < |before| ==> after[m] == before[m]
    ensures after == before + [x]
  {
  }

  lemma IsReplaced<T>(after: seq<T>, before: seq<T>, i: nat, x: T)
    requires i < |after| == |before| && after[i] == x
    requires forall m :: 0 <= m < |before| && m != i ==> after[m] == before[m]
    ensures after == before[i := x]
  {
  }

  lemma OldGroups(rows: seq<Row>, key: Row -> string, r: Row)
    ensures var ks, gs, now := FirstSeen(rows, key), Groups(rows, key), Groups(rows + [r], key);
            |now| >= |ks| && forall m :: 0 <= m < |ks| ==> now[m] == if ks[m] == key(r) then gs[m] + [r] else gs[m]
  {
    var ks, gs, now := FirstSeen(rows, key), Groups(rows, key), Groups(rows + [r], key);
    FirstSeenGrow(rows, key, r);
    forall m | 0 <= m < |ks|
      ensures now[m] == if ks[m] == key(r) then gs[m] + [r] else gs[m]
    {
      OfKeyGrow(rows, key, r, ks[m]);
    }
  }

  lemma GroupExtended(rows: seq<Row>, key: Row -> string, r: Row, i: nat)
    requires i < |FirstSeen(rows, key)| && FirstSeen(rows, key)[i] == key(r)
    ensures Groups(rows + [r], key) == Groups(rows, key)[i := Groups(rows, key)[i] + [r]]
  {
    FirstSeenGrow(rows, key, r);
    OldGroups(rows, key, r);
    IsReplaced(Groups(rows + [r], key), Groups(rows, key), i, Groups(rows, key)[i] + [r]);
  }

  lemma NewGroup(rows: seq<Row>, key: Row -> string, r: Row)
    requires key(r) !in FirstSeen(rows, key)
    ensures var n, now := |FirstSeen(rows, key)|, Groups(rows + [r], key);
            |now| == n + 1 && now[n] == [r]
  {
    var k := key(r);
    FirstSeenGrow(rows, key, r);
    OfKeyHas(rows, key, k);
    OfKeyGrow(rows, key, r, k);
    assert [] + [r] == [r];
  }

  lemma OldGroupsStay(rows: seq<Row>, key: Row -> string, r: Row)
    requires key(r) !in FirstSeen(rows, key)
    ensures var gs, now := Groups(rows, key), Groups(rows + [r], key);
            |now| >= |gs| && forall m :: 0 <= m < |gs| ==> now[m] == gs[m]
  {
    OldGroups(rows, key, r);
  }

  lemma GroupOpened(rows: seq<Row>, key: Row -> string, r: Row)
    requires key(r) !in FirstSeen(rows, key)
    ensures Groups(rows + [r], key) == Groups(rows, key) + [[r]]
  {
    NewGroup(rows, key, r);
    OldGroupsStay(rows, key, r);
    IsAppended(Groups(rows + [r], key), Groups(rows, key), [r]);
  }

  // One more row extends its key's group, or opens a group at the end.
  lemma GroupsGrow(rows: seq<Row>, key: Row -> string, r: Row)
    ensures var k, ks, gs := key(r), FirstSeen(rows, key), Groups(rows, key);
            if k in ks then exists i :: 0 <= i < |gs| && ks[i] == k &&
                              FirstSeen(rows + [r], key) == ks && Groups(rows + [r], key) == gs[i := gs[i] + [r]]
            else FirstSeen(rows + [r], key) == ks + [k] && Groups(rows + [r], key) == gs + [[r]]
  {
    var ks := FirstSeen(rows, key);
    FirstSeenGrow(rows, key, r);
    if key(r) in ks {
      var i :| 0 <= i < |ks| && ks[i] == key(r);
      GroupExtended(rows, key, r, i);
    } else {
      GroupOpened(rows, key, r);
    }
  }

  lemma OfKeyGrow(rows: seq<Row>, key: Row -> string, r: Row, k: string)
    ensures OfKey(rows + [r], key, k) == if key(r) == k then OfKey(rows, key, k) + [r] else OfKey(rows, key, k)
  {
    assert (rows + [r])[..|rows|] == rows;
  }

  lemma FlattenAround(a: seq<seq<Row>>, g: seq<Row>, b: seq<seq<Row>>)
    ensures Flatten(a + ([g] + b)) == Flatten(a) + (g + Flatten(b))
  {
    FlattenConcat(a, [g] + b);
    assert ([g] + b)[1..] == b;
  }

  lemma ExtendGroup(gs: seq<seq<Row>>, i: nat, r: Row)
    requires i < |gs|
    ensures multiset(Flatten(gs[i := gs[i] + [r]])) == multiset(Flatten(gs)) + multiset{r}
    ensures i == |gs| - 1 ==> Flatten(gs[i := gs[i] + [r]]) == Flatten(gs) + [r]
  {
    var a, g, b := gs[..i], gs[i], gs[i + 1..];
    assert gs == a + ([g] + b);
    assert gs[i := g + [r]] == a + ([g + [r]] + b);
    FlattenAround(a, g, b);
    FlattenAround(a, g + [r], b);
    OneMore(Flatten(a), g, Flatten(b), r);
  }

  lemma OneMore(a: seq<Row>, g: seq<Row>, b: seq<Row>, r: Row)
    ensures multiset(a + (g + [r] + b)) == multiset(a + (g + b)) + multiset{r}
    ensures b == [] ==> a + (g + [r] + b) == a + (g + b) + [r]
  {
  }

  lemma AddGroup(gs: seq<seq<Row>>, r: Row)
    ensures Flatten(gs + [[r]]) == Flatten(gs) + [r]
  {
    FlattenConcat(gs, [[r]]);
    assert Flatten([[r]]) == [r];
  }

  // No row is lost or duplicated.
  lemma {:induction false} GroupsKeepRows(rows: seq<Row>, key: Row -> string)
    ensures multiset(Flatten(Groups(rows, key))) == multiset(rows)
  {
    if rows != [] {
      var n := |rows| - 1;
      var gs := Groups(rows[..n], key);
      assert rows == rows[..n] + [rows[n]];
      GroupsKeepRows(rows[..n], key);
      GroupsGrow(rows[..n], key, rows[n]);
      if key(rows[n]) in FirstSeen(rows[..n], key) {
        var i :| 0 <= i < |gs| && Groups(rows, key) == gs[i := gs[i] + [rows[n]]];
        ExtendGroup(gs, i, rows[n]);
      } else {
        AddGroup(gs, rows[n]);
      }
    }
  }

  predicate Contiguous(rows: seq<Row>, key: Row -> string) {
    forall i, j, l :: 0 <= i < j < l < |rows| && key(rows[i]) == key(rows[l]) ==> key(rows[j]) == key(rows[i])
  }

  lemma ContiguousPrefix(rows: seq<Row>, key: Row -> string, n: nat)
    requires n <= |rows| && Contiguous(rows, key)
    ensures Contiguous(rows[..n], key)
  {
  }

  lemma {:induction false} LastKeyIsLast(rows: seq<Row>, key: Row -> string)
    requires rows != [] && Contiguous(rows, key)
    ensures var ks := FirstSeen(rows, key); ks != [] && ks[|ks| - 1] == key(rows[|rows| - 1])
  {
    var n := |rows| - 1;
    assert rows == rows[..n] + [rows[n]];
    FirstSeenGrow(rows[..n], key, rows[n]);
    if key(rows[n]) in FirstSeen(rows[..n], key) {
      var i :| 0 <= i < n && key(rows[..n][i]) == key(rows[n]);
      assert rows[..n][i] == rows[i] && key(rows[n - 1]) == key(rows[n]);
      ContiguousPrefix(rows, key, n);
      LastKeyIsLast(rows[..n], key);
    }
  }

  // On contiguous rows grouping changes nothing but the nesting.
  lemma {:induction false} GroupsOfContiguous(rows: seq<Row>, key: Row -> string)
    requires Contiguous(rows, key)
    ensures Flatten(Groups(rows, key)) == rows
  {
    if rows != [] {
      var n := |rows| - 1;
      var gs, ks := Groups(rows[..n], key), FirstSeen(rows[..n], key);
      assert rows == rows[..n] + [rows[n]];
      GroupsOfContiguous(rows[..n], key);
      GroupsGrow(rows[..n], key, rows[n]);
      if key(rows[n]) in ks {
        LastKeyIsLast(rows, key);
        var i :| 0 <= i < |gs| && ks[i] == key(rows[n]) && Groups(rows, key) == gs[i := gs[i] + [rows[n]]];
        ExtendGroup(gs, i, rows[n]);
      } else {
        AddGroup(gs, rows[n]);
      }
    }
  }

  // ---- both levels

  lemma {:induction false} SameMultisets(a: seq<seq<Row>>, b: seq<seq<Row>>)
    requires |a| == |b| && forall i :: 0 <= i < |a| ==> multiset(a[i]) == multiset(b[i])
    ensures multiset(Flatten(a)) == multiset(Flatten(b))
  {
    if a != [] {
      SameMultisets(a[1..], b[1..]);
    }
  }

  lemma DatabaseRows(db: string, rows: seq<Row>)
    requires forall i :: 0 <= i < |rows| ==> rows[i].db == db
    ensures RowsOfDatabase(DatabaseSchema(db, Tables(rows))) == Flatten(Groups(rows, TableOf))
  {
    var ks, ts, gs := FirstSeen(rows, TableOf), Tables(rows), Groups(rows, TableOf);
    forall i | 0 <= i < |ks|
      ensures RowsOfTable(db, ts[i]) == gs[i]
    {
      OfKeyHas(rows, TableOf, ks[i]);
      OfKeyWithin(rows, TableOf, ks[i]);
      forall m | 0 <= m < |gs[i]|
        ensures RowsOfTable(db, ts[i])[m] == gs[i][m]
      {
        assert gs[i][m] in rows && TableOf(gs[i][m]) == ks[i];
      }
    }
    assert RowsByTable(DatabaseSchema(db, ts)) == gs;
  }

  lemma {:induction false} OfKeyWithin(rows: seq<Row>, key: Row -> string, k: string)
    ensures forall r :: r in OfKey(rows, key, k) ==> r in rows
  {
    if rows != [] {
      var n := |rows| - 1;
      OfKeyWithin(rows[..n], key, k);
      assert rows == rows[..n] + [rows[n]];
    }
  }

  lemma GroupedRows(rows: seq<Row>) returns (parts: seq<seq<Row>>)
    ensures Flat(Grouped(rows)) == Flatten(parts) && |parts| == |Groups(rows, DbOf)|
    ensures forall i :: 0 <= i < |parts| ==> parts[i] == Flatten(Groups(Groups(rows, DbOf)[i], TableOf))
  {
    var ds, gs := Grouped(rows), Groups(rows, DbOf);
    parts := RowsByDatabase(ds);
    forall i | 0 <= i < |parts|
      ensures parts[i] == Flatten(Groups(gs[i], TableOf))
    {
      OfKeyHas(rows, DbOf, ds[i].database);
      DatabaseRows(ds[i].database, gs[i]);
    }
  }

  // The grouping holds every row exactly once, whatever the order of the rows.
  lemma GroupedKeepsRows(rows: seq<Row>)
    ensures multiset(Flat(Grouped(rows))) == multiset(rows)
  {
    var gs := Groups(rows, DbOf);
    var parts := GroupedRows(rows);
    forall i | 0 <= i < |parts|
      ensures multiset(parts[i]) == multiset(gs[i])
    {
      GroupsKeepRows(gs[i], TableOf);
    }
    SameMultisets(parts, gs);
    GroupsKeepRows(rows, DbOf);
  }

  // Rows that come database by database and table by table are given back in their order.
  lemma GroupedOfContiguous(rows: seq<Row>)
    requires Contiguous(rows, DbOf)
    requires forall db :: Contiguous(OfKey(rows, DbOf, db), TableOf)
    ensures Flat(Grouped(rows)) == rows
  {
    var gs := Groups(rows, DbOf);
    var parts := GroupedRows(rows);
    forall i | 0 <= i < |parts|
      ensures parts[i] == gs[i]
    {
      GroupsOfContiguous(gs[i], TableOf);
    }
    assert parts == gs;
    GroupsOfContiguous(rows, DbOf);
  }

  // Each database appears once, and each table once in its database; the columns of a table are
  // those of its rows, in row order.
  lemma GroupedOnce(rows: seq<Row>)
    ensures var ds := Grouped(rows);
            && (forall i, j :: 0 <= i < j < |ds| ==> ds[i].database != ds[j].database)
            && (forall i :: 0 <= i < |ds| ==> forall a, b :: 0 <= a < b < |ds[i].tables| ==>
                  ds[i].tables[a].name != ds[i].tables[b].name)
            && (forall i :: 0 <= i < |ds| ==> forall a :: 0 <= a < |ds[i].tables| ==>
                  ds[i].tables[a].columns == ColumnsOf(OfTable(rows, ds[i].database, ds[i].tables[a].name)))
  {
    var ds := Grouped(rows);
    forall i, a | 0 <= i < |ds| && 0 <= a < |ds[i].tables|
      ensures ds[i].tables[a].columns == ColumnsOf(OfTable(rows, ds[i].database, ds[i].tables[a].name))
    {
      OfKeyTwice(rows, ds[i].database, ds[i].tables[a].name);
    }
  }

  // The rows of one table of one database.
  function OfTable(rows: seq<Row>, db: string, table: string): seq<Row> {
    if rows == [] then [] else
    var n := |rows| - 1;
    OfTable(rows[..n], db, table) + if rows[n].db == db && rows[n].table == table then [rows[n]] else []
  }

  lemma OneMoreRow(rows: seq<Row>, r: Row, db: string, table: string)
    ensures OfKey(OfKey(rows + [r], DbOf, db), TableOf, table) ==
            OfKey(OfKey(rows, DbOf, db), TableOf, table) + if r.db == db && r.table == table then [r] else []
  {
    var before := OfKey(rows, DbOf, db);
    OfKeyGrow(rows, DbOf, r, db);
    OfKeyGrow(before, TableOf, r, table);
    assert before + [] == before;
  }

  lemma {:induction false} OfKeyTwice(rows: seq<Row>, db: string, table: string)
    ensures OfKey(OfKey(rows, DbOf, db), TableOf, table) == OfTable(rows, db, table)
  {
    if rows != [] {
      var n := |rows| - 1;
      OfKeyTwice(rows[..n], db, table);
      assert rows == rows[..n] + [rows[n]];
      OneMoreRow(rows[..n], rows[n], db, table);
    }
  }

  // ---- the code

  predicate TableCollected(rows: seq<Row>, t: string, order: seq<string>, seen: set<string>,
                           columns: map<string, seq<Column>>)
  {
    && (t in seen <==> t in order) && (t in columns <==> t in order)
    && (t in columns ==> columns[t] == ColumnsOf(OfKey(rows, TableOf, t)))
  }

  // The collected tables of one database stand for its rows.
  ghost predicate TablesCollected(rows: seq<Row>, order: seq<string>, seen: set<string>,
                                  columns: map<string, seq<Column>>)
  {
    && order == FirstSeen(rows, TableOf)
    && forall t {:trigger TableCollected(rows, t, order, seen, columns)} ::
       TableCollected(rows, t, order, seen, columns)
  }

  lemma CollectTable(rows: seq<Row>, t: string, order: seq<string>, seen: set<string>,
                     columns: map<string, seq<Column>>, r: Row)
    requires TablesCollected(rows, order, seen, columns)
    ensures TableCollected(rows + [r], t, if r.table in seen then order else order + [r.table], seen + {r.table},
              columns[r.table := (if r.table in columns then columns[r.table] else []) + [r.column]])
  {
    assert TableCollected(rows, t, order, seen, columns);
    assert TableCollected(rows, r.table, order, seen, columns);
    OfKeyHas(rows, TableOf, r.table);
    OfKeyGrow(rows, TableOf, r, t);
    assert ColumnsOf(OfKey(rows, TableOf, t) + [r]) == ColumnsOf(OfKey(rows, TableOf, t)) + [r.column];
  }

  lemma CollectRow(rows: seq<Row>, order: seq<string>, seen: set<string>, columns: map<string, seq<Column>>, r: Row)
    requires TablesCollected(rows, order, seen, columns)
    ensures TablesCollected(rows + [r], if r.table in seen then order else order + [r.table], seen + {r.table},
              columns[r.table := (if r.table in columns then columns[r.table] else []) + [r.column]])
  {
    var order', seen' := if r.table in seen then order else order + [r.table], seen + {r.table};
    var columns' := columns[r.table := (if r.table in columns then columns[r.table] else []) + [r.column]];
    assert TableCollected(rows, r.table, order, seen, columns);
    FirstSeenGrow(rows, TableOf, r);
    forall t
      ensures TableCollected(rows + [r], t, order', seen', columns')
    {
      CollectTable(rows, t, order, seen, columns, r);
    }
  }

  ghost predicate DbCollected(rows: seq<Row>, d: string, tableOrder: map<string, seq<string>>,
                              tableSeen: map<string, set<string>>, columns: map<string, map<string, seq<Column>>>) {
    && d in tableOrder && d in tableSeen && d in columns
    && TablesCollected(OfKey(rows, DbOf, d), tableOrder[d], tableSeen[d], columns[d])
  }

  // The five collections of the row loop stand for the rows read so far.
  ghost predicate Collected(rows: seq<Row>, dbOrder: seq<string>, dbSeen: set<string>,
                            tableOrder: map<string, seq<string>>,
                            tableSeen: map<string, set<string>>, columns: map<string, map<string, seq<Column>>>) {
    && dbOrder == FirstSeen(rows, DbOf)
    && (forall d :: d in dbSeen <==> d in dbOrder)
    && (forall d {:trigger DbCollected(rows, d, tableOrder, tableSeen, columns)} ::
          d in dbSeen ==> DbCollected(rows, d, tableOrder, tableSeen, columns))
  }

  lemma OtherDbCollected(rows: seq<Row>, r: Row, d: string, tableOrder: map<string, seq<string>>,
                         tableSeen: map<string, set<string>>, columns: map<string, map<string, seq<Column>>>,
                         order: seq<string>, seen: set<string>, cols: map<string, seq<Column>>)
    requires d != r.db && DbCollected(rows, d, tableOrder, tableSeen, columns)
    ensures DbCollected(rows + [r], d, tableOrder[r.db := order], tableSeen[r.db := seen], columns[r.db := cols])
  {
    OfKeyGrow(rows, DbOf, r, d);
    assert DbOf(r) == r.db;
    assert OfKey(rows + [r], DbOf, d) == OfKey(rows, DbOf, d);
  }

  lemma OwnDbCollected(rows: seq<Row>, r: Row, order: seq<string>, seen: set<string>, cols: map<string, seq<Column>>)
    requires TablesCollected(OfKey(rows, DbOf, r.db), order, seen, cols)
    ensures TablesCollected(OfKey(rows + [r], DbOf, r.db), if r.table in seen then order else order + [r.table],
                            seen + {r.table},
              cols[r.table := (if r.table in cols then cols[r.table] else []) + [r.column]])
  {
    OfKeyGrow(rows, DbOf, r, r.db);
    assert DbOf(r) == r.db;
    CollectRow(OfKey(rows, DbOf, r.db), order, seen, cols, r);
  }

  // A database seen for the first time starts with nothing collected.
  lemma NewDb(rows: seq<Row>, db: string)
    requires db !in FirstSeen(rows, DbOf)
    ensures TablesCollected(OfKey(rows, DbOf, db), [], {}, map[])
  {
    OfKeyHas(rows, DbOf, db);
    assert FirstSeen([], TableOf) == [];
  }

  // The new row's database gets its grown collections; the others keep theirs.
  lemma StoreDb(rows: seq<Row>, r: Row, dbOrder: seq<string>, dbSeen: set<string>, tableOrder: map<string, seq<string>>,
                tableSeen: map<string, set<string>>, columns: map<string, map<string, seq<Column>>>,
                order: seq<string>, seen: set<string>, cols: map<string, seq<Column>>)
    requires Collected(rows, dbOrder, dbSeen, tableOrder, tableSeen, columns)
    requires TablesCollected(OfKey(rows + [r], DbOf, r.db), order, seen, cols)
    ensures Collected(rows + [r], if r.db in dbSeen then dbOrder else dbOrder + [r.db], dbSeen + {r.db},
              tableOrder[r.db := order], tableSeen[r.db := seen], columns[r.db := cols])
  {
    FirstSeenGrow(rows, DbOf, r);
    forall d | d in dbSeen + {r.db}
      ensures DbCollected(rows + [r], d, tableOrder[r.db := order], tableSeen[r.db := seen], columns[r.db := cols])
    {
      if d != r.db {
        assert DbCollected(rows, d, tableOrder, tableSeen, columns);
        OtherDbCollected(rows, r, d, tableOrder, tableSeen, columns, order, seen, cols);
      }
    }
  }

  // The row loop's body.
  method AddRow(r: Row, ghost rows: seq<Row>, dbOrder: seq<string>, dbSeen: set<string>,
                tableOrder: map<string, seq<string>>,
                tableSeen: map<string, set<string>>, columns: map<string, map<string, seq<Column>>>)
    returns (dbOrder': seq<string>, dbSeen': set<string>, tableOrder': map<string, seq<string>>,
             tableSeen': map<string, set<string>>, columns': map<string, map<string, seq<Column>>>)
    requires Collected(rows, dbOrder, dbSeen, tableOrder, tableSeen, columns)
    ensures Collected(rows + [r], dbOrder', dbSeen', tableOrder', tableSeen', columns')
  {
    var db, table := r.db, r.table;
    var order: seq<string>, seen: set<string>, cols: map<string, seq<Column>> := [], {}, map[];
    dbOrder', dbSeen' := dbOrder, dbSeen;
    if db !in dbSeen {
      NewDb(rows, db);
      dbOrder' := dbOrder + [db];
      dbSeen' := dbSeen + {db};
    } else {
      assert dbSeen + {db} == dbSeen;
      assert DbCollected(rows, db, tableOrder, tableSeen, columns);
      order, seen, cols := tableOrder[db], tableSeen[db], columns[db];
    }
    OwnDbCollected(rows, r, order, seen, cols);
    if table !in seen {
      order := order + [table];
    }
    seen := seen + {table};
    cols := cols[table := (if table in cols then cols[table] else []) + [r.column]];
    tableOrder', tableSeen', columns' := tableOrder[db := order], tableSeen[db := seen], columns[db := cols];
    StoreDb(rows, r, dbOrder, dbSeen, tableOrder, tableSeen, columns, order, seen, cols);
  }

  // scan holds what each row scan yields: None is an error, which ends the query like an error at
  // the end of the iteration does.
  method FetchAllSchemas(scan: seq<Option<Row>>, iterationFails: bool) returns (r: Result<seq<DatabaseSchema>>)
    ensures r.Err? <==> iterationFails || exists i :: 0 <= i < |scan| && scan[i].None?
    ensures r.Ok? ==> exists rows: seq<Row> ::
              |rows| == |scan| && (forall i :: 0 <= i < |scan| ==> scan[i] == Some(rows[i])) && r.value == Grouped(rows)
  {
    var dbOrder: seq<string>, dbSeen: set<string> := [], {};
    var tableOrder: map<string, seq<string>>, tableSeen: map<string, set<string>> := map[], map[];
    var columns: map<string, map<string, seq<Column>>> := map[];
    ghost var rows: seq<Row> := [];
    for i := 0 to |scan|
      invariant |rows| == i && forall j :: 0 <= j < i ==> scan[j] == Some(rows[j])
      invariant Collected(rows, dbOrder, dbSeen, tableOrder, tableSeen, columns)
    {
      if scan[i].None? {
        return Err("scanning row");
      }
      dbOrder, dbSeen, tableOrder, tableSeen, columns :=
        AddRow(scan[i].value, rows, dbOrder, dbSeen, tableOrder, tableSeen, columns);
      rows := rows + [scan[i].value];
    }
    if iterationFails {
      return Err("iterating rows");
    }
    var schemas := Assemble(rows, dbOrder, dbSeen, tableOrder, tableSeen, columns);
    r := Ok(schemas);
  }

  method Assemble(ghost rows: seq<Row>, dbOrder: seq<string>, ghost dbSeen: set<string>,
                  tableOrder: map<string, seq<string>>,
                  ghost tableSeen: map<string, set<string>>, columns: map<string, map<string, seq<Column>>>)
    returns (schemas: seq<DatabaseSchema>)
    requires Collected(rows, dbOrder, dbSeen, tableOrder, tableSeen, columns)
    ensures schemas == Grouped(rows)
  {
    schemas := [];
    for i := 0 to |dbOrder|
      invariant schemas == Grouped(rows)[..i]
    {
      var db := dbOrder[i];
      assert DbCollected(rows, db, tableOrder, tableSeen, columns);
      var tables := AssembleTables(OfKey(rows, DbOf, db), tableOrder[db], tableSeen[db], columns[db]);
      schemas := schemas + [DatabaseSchema(db, tables)];
    }
  }

  method AssembleTables(ghost rows: seq<Row>, order: seq<string>, ghost seen: set<string>,
                        columns: map<string, seq<Column>>)
    returns (tables: seq<TableInfo>)
    requires TablesCollected(rows, order, seen, columns)
    ensures tables == Tables(rows)
  {
    tables := [];
    for j := 0 to |order|
      invariant tables == Tables(rows)[..j]
    {
      assert TableCollected(rows, order[j], order, seen, columns);
      tables := tables + [TableInfo(order[j], columns[order[j]])];
    }
  }
}
