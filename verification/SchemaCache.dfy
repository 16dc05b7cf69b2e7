/** The introspection cache of a maintenance run: it must answer what the live schema would,
    across the steps that change the schema. */
module SchemaCache {
  import opened Sharding
  import opened Wrappers

  datatype Column = Column(table: string, name: string)

  const VERSION_TABLE: string := "database_schema_versions"
  const ROUTE_TABLE: string := "proxy_routes"
  const OLD_HTTPS: string := "enable_http_s"
  const NEW_HTTPS: string := "enable_https"

  function LogTable(i: nat): string
    requires i < SHARD_COUNT
  {
    "node_access_logs_0" + ['0' + i as char]
  }

  const LOG_TABLES: seq<string> := seq(SHARD_COUNT, i requires 0 <= i < SHARD_COUNT => LogTable(i))

  lemma LogTableNames()
    ensures |LOG_TABLES| == 10 && LOG_TABLES[0] == "node_access_logs_00" && LOG_TABLES[9] == "node_access_logs_09"
    ensures forall i :: 0 <= i < 10 ==> LOG_TABLES[i] == "node_access_logs_0" + ["0123456789"[i]]
  {
    assert forall i :: 0 <= i < 10 ==> '0' + i as char == "0123456789"[i];
  }

  const LOG_COLUMNS: seq<string> := ["request_bytes", "response_bytes", "upstream_bytes", "reason", "operator", "cache_status"]

  const ROLLUP_TABLES: set<string> := {
    "node_access_log_rollups", "node_access_log_bucket_rollups",
    "node_access_log_bucket_identity_rollups", "node_access_log_bucket_filter_identity_rollups"}

  /** The six columns a log table must have. */
  predicate HasLogColumns(table: string, columns: set<Column>)
  {
    && Column(table, "request_bytes") in columns && Column(table, "response_bytes") in columns
    && Column(table, "upstream_bytes") in columns && Column(table, "reason") in columns
    && Column(table, "operator") in columns && Column(table, "cache_status") in columns
  }

  lemma SixColumns(table: string, columns: set<Column>)
    ensures HasLogColumns(table, columns) <==> forall c :: c in LOG_COLUMNS ==> Column(table, c) in columns
  {
    if forall c :: c in LOG_COLUMNS ==> Column(table, c) in columns {
      assert forall k :: 0 <= k < 6 ==> LOG_COLUMNS[k] in LOG_COLUMNS;
      assert LOG_COLUMNS[0] == "request_bytes" && LOG_COLUMNS[1] == "response_bytes" && LOG_COLUMNS[2] == "upstream_bytes";
      assert LOG_COLUMNS[3] == "reason" && LOG_COLUMNS[4] == "operator" && LOG_COLUMNS[5] == "cache_status";
    }
  }

  // ----- cache keys -----

  predicate DotFree(s: string)
  {
    forall i :: 0 <= i < |s| ==> s[i] != '.'
  }

  function Key(table: string, column: string): string
  {
    table + "." + column
  }

  /** With table names free of dots, a key stands for one column of one table. */
  lemma KeyInjective(t: string, c: string, u: string, d: string)
    requires DotFree(t) && DotFree(u) && Key(t, c) == Key(u, d)
    ensures t == u && c == d
  {
    var k := Key(t, c);
    assert forall i :: 0 <= i < |t| ==> k[i] == t[i] && k[i] != '.';
    assert forall i :: 0 <= i < |u| ==> k[i] == u[i] && k[i] != '.';
    assert k[|t|] == '.' && k[|u|] == '.';
    assert t == k[..|t|] && u == k[..|u|];
    assert c == k[|t| + 1..] && d == k[|u| + 1..];
  }

  /** The database as the migrator sees and changes it. */
  class LiveSchema {
    var tables: set<string>
    var columns: set<Column>
  }

  class Cache {
    const db: LiveSchema
    var tableCache: map<string, bool>
    var columnCache: map<string, bool>

    constructor (db: LiveSchema)
      ensures this.db == db && tableCache == map[] && columnCache == map[]
      ensures Coherent() && forall v, r :: Unseen(v, r)
    {
      this.db := db;
      tableCache, columnCache := map[], map[];
    }

    function CachedTable(table: string): Option<bool>
      reads this
    {
      if table in tableCache then Some(tableCache[table]) else None
    }

    function CachedColumn(table: string, column: string): Option<bool>
      reads this
    {
      if Key(table, column) in columnCache then Some(columnCache[Key(table, column)]) else None
    }

    /** What the cache says about a table is what the live schema says. */
    ghost predicate RightOn(table: string)
      reads this, db
    {
      && CachedTable(table) in {None, Some(table in db.tables)}
      && forall c :: CachedColumn(table, c) in {None, Some(Column(table, c) in db.columns)}
    }

    ghost predicate Coherent()
      reads this, db
    {
      forall t :: DotFree(t) ==> RightOn(t)
    }

    /** Nothing cached or live about a table has changed. */
    twostate predicate Untouched(table: string)
      reads this, db
    {
      && CachedTable(table) == old(CachedTable(table))
      && (table in db.tables <==> table in old(db.tables))
      && forall c :: CachedColumn(table, c) == old(CachedColumn(table, c))
                     && (Column(table, c) in db.columns <==> Column(table, c) in old(db.columns))
    }

    method HasTable(table: string) returns (exists_: bool)
      requires DotFree(table) && RightOn(table)
      modifies this`tableCache
      ensures exists_ == (table != "" && table in db.tables)
      ensures RightOn(table) && forall t :: t != table ==> Untouched(t)
    {
      if table == "" {
        return false;
      }
      if table in tableCache {
        return tableCache[table];
      }
      exists_ := table in db.tables;
      tableCache := tableCache[table := exists_];
    }

    method HasColumn(table: string, column: string) returns (exists_: bool)
      requires DotFree(table) && RightOn(table)
      modifies this`columnCache
      ensures exists_ == (table != "" && column != "" && Column(table, column) in db.columns)
      ensures RightOn(table) && forall t :: DotFree(t) && t != table ==> Untouched(t)
    {
      if table == "" || column == "" {
        return false;
      }
      if Key(table, column) in columnCache {
        assert CachedColumn(table, column).Some?;
        return columnCache[Key(table, column)];
      }
      exists_ := Column(table, column) in db.columns;
      columnCache := columnCache[Key(table, column) := exists_];
      ColumnEntryOnly(table, column);
    }

    /** An entry is about its own column only. */
    lemma ColumnEntryOnly(table: string, column: string)
      requires DotFree(table)
      ensures forall t, c :: DotFree(t) && Key(t, c) == Key(table, column) ==> t == table && c == column
    {
      forall t, c | DotFree(t) && Key(t, c) == Key(table, column)
        ensures t == table && c == column
      {
        KeyInjective(t, c, table, column);
      }
    }

    method InvalidateTable(table: string)
      modifies this`tableCache
      ensures CachedTable(table).None? && columnCache == old(columnCache)
      ensures forall t :: t != table ==> CachedTable(t) == old(CachedTable(t))
    {
      tableCache := tableCache - {table};
    }

    method InvalidateColumn(table: string, column: string)
      requires DotFree(table)
      modifies this`columnCache
      ensures CachedColumn(table, column).None?
      ensures forall t, c :: DotFree(t) && !(t == table && c == column) ==> CachedColumn(t, c) == old(CachedColumn(t, c))
    {
      columnCache := columnCache - {Key(table, column)};
      ColumnEntryOnly(table, column);
    }

    /** Rename the misnamed column if only it exists. The cache is right about the routes table
        afterwards, and nothing else is touched. */
    method RenameHTTPSColumn(renames: bool) returns (ok: bool)
      requires DotFree(ROUTE_TABLE) && RightOn(ROUTE_TABLE)
      modifies this, db
      ensures RightOn(ROUTE_TABLE) && forall t :: DotFree(t) && t != ROUTE_TABLE ==> Untouched(t)
      ensures ok && ROUTE_TABLE in db.tables && Column(ROUTE_TABLE, OLD_HTTPS) in old(db.columns) ==>
                Column(ROUTE_TABLE, NEW_HTTPS) in db.columns
      ensures !ok ==> !renames
      ensures db.columns == if ok && "proxy_routes" in db.tables && Column("proxy_routes", "enable_http_s") in old(db.columns)
                               && Column("proxy_routes", "enable_https") !in old(db.columns)
                            then old(db.columns) - {Column("proxy_routes", "enable_http_s")} + {Column("proxy_routes", "enable_https")}
                            else old(db.columns)
      ensures ok && "proxy_routes" in db.tables && Column("proxy_routes", "enable_http_s") in old(db.columns) ==>
                Column("proxy_routes", "enable_https") in db.columns
    {
      ok := RenameColumn(ROUTE_TABLE, OLD_HTTPS, NEW_HTTPS, renames);
    }

    method RenameColumn(table: string, before: string, after: string, renames: bool) returns (ok: bool)
      requires DotFree(table) && RightOn(table) && table != "" && before != "" && after != "" && before != after
      modifies this, db
      ensures RightOn(table) && forall t :: DotFree(t) && t != table ==> Untouched(t)
      ensures ok && table in db.tables && Column(table, before) in old(db.columns) ==> Column(table, after) in db.columns
      ensures !ok ==> !renames
      ensures db.columns == if ok && table in db.tables && Column(table, before) in old(db.columns) && Column(table, after) !in old(db.columns)
                            then old(db.columns) - {Column(table, before)} + {Column(table, after)} else old(db.columns)
    {
      var hasTable := HasTable(table);
      if !hasTable {
        return true;
      }
      assert forall t :: DotFree(t) && t != table ==> Untouched(t);
      var only := OnlyFirst(table, before, after);
      if !only {
        return true;
      }
      if renames {
        Renamed(table, before, after);
      }
      return renames;
    }

    method Renamed(table: string, before: string, after: string)
      requires DotFree(table) && RightOn(table)
      modifies this`columnCache, db`columns
      ensures RightOn(table) && forall t :: DotFree(t) && t != table ==> Untouched(t)
      ensures db.columns == old(db.columns) - {Column(table, before)} + {Column(table, after)}
    {
      db.columns := db.columns - {Column(table, before)} + {Column(table, after)};
      InvalidateColumn(table, before);
      InvalidateColumn(table, after);
      assert forall t, c :: DotFree(t) && t != table ==> CachedColumn(t, c) == old(CachedColumn(t, c));
    }

    /** The table has the first column and not the second. */
    method OnlyFirst(table: string, first: string, second: string) returns (only: bool)
      requires DotFree(table) && RightOn(table) && table != "" && first != "" && second != ""
      modifies this`columnCache
      ensures RightOn(table) && forall t :: DotFree(t) && t != table ==> Untouched(t)
      ensures only <==> Column(table, first) in db.columns && Column(table, second) !in db.columns
    {
      var hasSecond := HasColumn(table, second);
      assert forall t :: DotFree(t) && t != table ==> Untouched(t);
      if hasSecond {
        return false;
      }
      only := HasColumn(table, first);
    }

    /** Add the missing columns of one log table. */
    method AddMissingColumns(table: string, adds: string -> bool) returns (ok: bool)
      requires DotFree(table) && table != "" && RightOn(table)
      modifies this, db
      ensures RightOn(table) && forall t :: DotFree(t) && t != table ==> Untouched(t)
      ensures db.tables == old(db.tables)
      ensures ok ==> forall c :: c in LOG_COLUMNS ==> Column(table, c) in db.columns
      ensures old(db.columns) <= db.columns && forall c :: c in db.columns - old(db.columns) ==> c.table == table && c.name in LOG_COLUMNS
      ensures ok ==> HasLogColumns(table, db.columns)
      ensures !ok ==> exists c :: c in LOG_COLUMNS && !adds(c)
    {
      ok := true;
      for i := 0 to |LOG_COLUMNS|
        invariant RightOn(table) && forall t :: DotFree(t) && t != table ==> Untouched(t)
        invariant db.tables == old(db.tables)
        invariant forall k :: 0 <= k < i ==> Column(table, LOG_COLUMNS[k]) in db.columns
        invariant old(db.columns) <= db.columns && forall c :: c in db.columns - old(db.columns) ==> c.table == table && c.name in LOG_COLUMNS
      {
        var exists_ := HasColumn(table, LOG_COLUMNS[i]);
        assert forall t :: DotFree(t) && t != table ==> Untouched(t);
        if !exists_ {
          if !adds(LOG_COLUMNS[i]) {
            return false;
          }
          db.columns := db.columns + {Column(table, LOG_COLUMNS[i])};
          InvalidateColumn(table, LOG_COLUMNS[i]);
        }
        assert LOG_COLUMNS[i] != "";
      }
      SixColumns(table, db.columns);
    }

    method EnsureLogTable(table: string, adds: string -> bool) returns (ok: bool)
      requires DotFree(table) && table != "" && RightOn(table)
      modifies this, db
      ensures RightOn(table) && forall t :: DotFree(t) && t != table ==> Untouched(t)
      ensures db.tables == old(db.tables)
      ensures ok && table in db.tables ==> forall c :: c in LOG_COLUMNS ==> Column(table, c) in db.columns
      ensures !ok ==> exists c :: c in LOG_COLUMNS && !adds(c)
    {
      ok := true;
      var exists_ := HasTable(table);
      assert forall t :: DotFree(t) && t != table ==> Untouched(t);
      if exists_ {
        ok := AddMissingColumns(table, adds);
      }
    }

    twostate lemma StillRight(table: string)
      requires old(RightOn(table)) && Untouched(table)
      ensures RightOn(table)
    {
    }

    /** Add the missing columns of every log table there is. */
    method EnsureLogColumns(tables: seq<string>, adds: (string, string) -> bool) returns (ok: bool)
      requires forall t :: t in tables ==> DotFree(t) && t != "" && RightOn(t)
      modifies this, db
      ensures forall t :: t in tables ==> RightOn(t)
      ensures forall t :: DotFree(t) && t !in tables ==> Untouched(t)
      ensures db.tables == old(db.tables)
      ensures ok ==> forall k, c :: 0 <= k < |tables| && tables[k] in db.tables && c in LOG_COLUMNS ==> Column(tables[k], c) in db.columns
      ensures !ok ==> exists t, c :: t in tables && c in LOG_COLUMNS && !adds(t, c)
    {
      ok := true;
      for i := 0 to |tables|
        invariant forall t :: t in tables ==> RightOn(t)
        invariant forall t :: DotFree(t) && t !in tables ==> Untouched(t)
        invariant db.tables == old(db.tables)
        invariant forall k, c :: 0 <= k < i && tables[k] in db.tables && c in LOG_COLUMNS ==> Column(tables[k], c) in db.columns
      {
        var table := tables[i];
        label Before:
        ok := EnsureLogTable(table, c => adds(table, c));
        forall t | t in tables && t != table
          ensures RightOn(t)
        {
          StillRight@Before(t);
        }
        forall k, c | 0 <= k <= i && tables[k] in db.tables && c in LOG_COLUMNS && ok
          ensures Column(tables[k], c) in db.columns
        {
          if tables[k] != table {
            assert Untouched@Before(tables[k]);
          }
        }
        assert forall t :: DotFree(t) && t !in tables ==> Untouched@Before(t);
        if !ok {
          var c :| c in LOG_COLUMNS && !adds(table, c);
          return;
        }
      }
    }

    /** Create or extend the version table, then drop what the cache says about the table. What it
        says about its columns stays. */
    method MigrateMetadata(versionColumns: set<string>)
      requires Coherent()
      modifies this, db
      ensures forall t :: t != VERSION_TABLE ==> Untouched(t)
      ensures RightOn(VERSION_TABLE) <==> old(ColumnsUnseen(VERSION_TABLE, versionColumns))
      ensures "database_schema_versions" in db.tables
    {
      assert RightOn(VERSION_TABLE) by { TablesApart(); }
      db.tables := db.tables + {VERSION_TABLE};
      db.columns := db.columns + set c | c in versionColumns :: Column(VERSION_TABLE, c);
      InvalidateTable(VERSION_TABLE);
      assert forall c :: CachedColumn(VERSION_TABLE, c) == old(CachedColumn(VERSION_TABLE, c));
    }

    /** No column that is still missing has been asked for. */
    ghost predicate ColumnsUnseen(table: string, columns: set<string>)
      reads this, db
    {
      forall c :: c in columns ==> Column(table, c) in db.columns || CachedColumn(table, c).None?
    }

    /** Create or extend the rollup tables. The cache is not told. */
    method MigrateRollups(columns: map<string, set<string>>)
      modifies db
      requires columns.Keys == ROLLUP_TABLES
      requires forall t :: t in columns ==> RightOn(t)
      ensures forall t :: t !in columns ==> Untouched(t)
      ensures forall t :: t in columns ==>
                (RightOn(t) <==> old(ColumnsUnseen(t, columns[t])) && (t in old(db.tables) || old(CachedTable(t)).None?))
    {
      db.tables := db.tables + columns.Keys;
      db.columns := db.columns + set t, c | t in columns && c in columns[t] :: Column(t, c);
      forall t | t in columns
        ensures t in db.tables && forall c :: Column(t, c) in db.columns <==> c in columns[t] || Column(t, c) in old(db.columns)
      {
      }
    }

    /** Nothing that the run adds without telling the cache has been asked for before it. */
    ghost predicate Unseen(versionColumns: set<string>, rollupColumns: map<string, set<string>>)
      reads this, db
    {
      && ColumnsUnseen(VERSION_TABLE, versionColumns)
      && forall t :: t in rollupColumns ==> ColumnsUnseen(t, rollupColumns[t]) && (t in db.tables || CachedTable(t).None?)
    }

    twostate lemma SameRight(table: string)
      requires Untouched(table)
      ensures RightOn(table) <==> old(RightOn(table))
    {
    }

    /** The steps up to the log columns: wherever the cache was right it still is, except about columns
        of the version table that were asked for too early. */
    method PrepareTables(versionTable: string, routeTable: string, logTables: seq<string>, rollups: set<string>,
                         versionColumns: set<string>, renames: bool, adds: (string, string) -> bool)
      returns (ok: bool)
      requires Coherent() && versionTable == VERSION_TABLE && routeTable == ROUTE_TABLE
      requires DistinctTables(versionTable, routeTable, logTables, rollups)
      modifies this, db
      ensures forall t :: DotFree(t) && t != versionTable ==> RightOn(t)
      ensures RightOn(versionTable) <==> old(ColumnsUnseen(versionTable, versionColumns))
      ensures forall t :: t in rollups ==> Untouched(t)
      ensures ok ==> forall k, c :: 0 <= k < |logTables| && logTables[k] in db.tables && c in LOG_COLUMNS ==> Column(logTables[k], c) in db.columns
      ensures !ok ==> !renames || exists t, c :: t in logTables && c in LOG_COLUMNS && !adds(t, c)
    {
      label Start:
      MigrateMetadata(versionColumns);
      forall t | DotFree(t) && t != versionTable
        ensures RightOn(t)
      {
        StillRight@Start(t);
      }
      assert forall t :: t in rollups ==> Untouched(t);
      label Migrated:
      ok := RenameHTTPSColumn(renames);
      assert forall t :: t in rollups ==> Untouched(t);
      forall t | DotFree(t) && t != routeTable
        ensures RightOn(t) <==> old@Migrated(RightOn(t))
      {
        SameRight@Migrated(t);
      }
      if ok {
        label Renamed:
        ok := EnsureLogColumns(logTables, adds);
        forall t | DotFree(t) && t !in logTables
          ensures RightOn(t) <==> old@Renamed(RightOn(t))
        {
          SameRight@Renamed(t);
        }
        assert forall t :: t in rollups ==> Untouched(t);
      }
    }

    /** The maintenance run. The cache the validators then read is the live schema exactly when what the
        run adds unannounced was not cached before; a new cache satisfies that. A run that fails has
        not come to the rollup tables. */
    method Maintain(versionColumns: set<string>, rollupColumns: map<string, set<string>>, indexed: seq<string>,
                    renames: bool, adds: (string, string) -> bool)
      returns (ok: bool)
      requires Coherent() && rollupColumns.Keys == ROLLUP_TABLES && Indexable(indexed)
      modifies this, db
      ensures ok ==> (Coherent() <==> old(Unseen(versionColumns, rollupColumns)))
      ensures !ok ==> (Coherent() <==> old(ColumnsUnseen(VERSION_TABLE, versionColumns)))
      ensures ok ==> forall k, c :: 0 <= k < |LOG_TABLES| && LOG_TABLES[k] in db.tables && c in LOG_COLUMNS ==>
                                      Column(LOG_TABLES[k], c) in db.columns
      ensures !ok ==> !renames || exists t, c :: t in LOG_TABLES && c in LOG_COLUMNS && !adds(t, c)
    {
      TablesApart();
      ok := MaintainTables(VERSION_TABLE, ROUTE_TABLE, LOG_TABLES, versionColumns, rollupColumns, indexed, renames, adds);
    }

    method MaintainTables(versionTable: string, routeTable: string, logTables: seq<string>,
                          versionColumns: set<string>, rollupColumns: map<string, set<string>>, indexed: seq<string>,
                          renames: bool, adds: (string, string) -> bool)
      returns (ok: bool)
      requires Coherent() && versionTable == VERSION_TABLE && routeTable == ROUTE_TABLE
      requires DistinctTables(versionTable, routeTable, logTables, rollupColumns.Keys)
      requires rollupColumns.Keys == ROLLUP_TABLES && Indexable(indexed)
      modifies this, db
      ensures ok ==> (Coherent() <==> old(Unseen(versionColumns, rollupColumns)))
      ensures !ok ==> (Coherent() <==> old(ColumnsUnseen(VERSION_TABLE, versionColumns)))
      ensures ok ==> forall k, c :: 0 <= k < |logTables| && logTables[k] in db.tables && c in LOG_COLUMNS ==> Column(logTables[k], c) in db.columns
      ensures !ok ==> !renames || exists t, c :: t in logTables && c in LOG_COLUMNS && !adds(t, c)
    {
      ok := PrepareTables(versionTable, routeTable, logTables, rollupColumns.Keys, versionColumns, renames, adds);
      if !ok {
        return;
      }
      label Prepared:
      MigrateRollups(rollupColumns);
      forall t | t !in rollupColumns
        ensures RightOn(t) <==> old@Prepared(RightOn(t))
      {
        SameRight@Prepared(t);
      }
      forall t | t in rollupColumns
        ensures RightOn(t) <==> old(ColumnsUnseen(t, rollupColumns[t]) && (t in db.tables || CachedTable(t).None?))
      {
      }
      forall k, c | 0 <= k < |logTables| && logTables[k] in db.tables && c in LOG_COLUMNS
        ensures Column(logTables[k], c) in db.columns
      {
        assert Untouched@Prepared(logTables[k]);
      }
      CheckTables(indexed);
    }

    /** The index step asks whether its tables exist. */
    method CheckTables(tables: seq<string>)
      requires forall t :: t in tables ==> DotFree(t) && RightOn(t)
      modifies this`tableCache
      ensures Coherent() <==> old(Coherent())
    {
      for i := 0 to |tables|
        invariant forall t :: t in tables ==> RightOn(t)
        invariant forall t :: RightOn(t) <==> old(RightOn(t))
      {
        label Before:
        var exists_ := HasTable(tables[i]);
        forall t | t != tables[i]
          ensures RightOn(t) <==> old@Before(RightOn(t))
        {
          assert Untouched@Before(t);
        }
      }
    }
  }

  /** The indexed tables are sharded observability tables. */
  predicate Indexable(tables: seq<string>)
  {
    forall t :: t in tables ==> DotFree(t) && t != VERSION_TABLE && t !in ROLLUP_TABLES
  }

  predicate DistinctTables(versionTable: string, routeTable: string, logTables: seq<string>, rollups: set<string>)
  {
    && DotFree(versionTable) && DotFree(routeTable) && versionTable != routeTable
    && (forall t :: t in logTables ==> DotFree(t) && t != "" && t != versionTable && t != routeTable && t !in rollups)
    && (forall t :: t in rollups ==> DotFree(t) && t != versionTable && t != routeTable)
  }

  lemma FixedNames()
    ensures |VERSION_TABLE| == 24 && |ROUTE_TABLE| == 12 && DotFree(VERSION_TABLE) && DotFree(ROUTE_TABLE)
  {
  }

  lemma RollupNames(t: string)
    requires t in ROLLUP_TABLES
    ensures |t| in {23, 30, 39, 46} && DotFree(t)
  {
  }

  lemma LogNames(t: string)
    requires t in LOG_TABLES
    ensures |t| == 19 && DotFree(t)
  {
    var i :| 0 <= i < SHARD_COUNT && t == LogTable(i);
    LogName(i);
  }

  lemma LogName(i: nat)
    requires i < SHARD_COUNT
    ensures |LogTable(i)| == 19 && DotFree(LogTable(i))
  {
  }

  lemma TablesApart()
    ensures DistinctTables(VERSION_TABLE, ROUTE_TABLE, LOG_TABLES, ROLLUP_TABLES)
  {
    FixedNames();
    forall t | t in ROLLUP_TABLES
      ensures DotFree(t) && t != VERSION_TABLE && t != ROUTE_TABLE
    {
      RollupNames(t);
    }
    forall t | t in LOG_TABLES
      ensures DotFree(t) && t != "" && t != VERSION_TABLE && t != ROUTE_TABLE && t !in ROLLUP_TABLES
    {
      LogNames(t);
      if t in ROLLUP_TABLES {
        RollupNames(t);
      }
    }
  }
}
