/**
 * The PythonOperator callables of the STORE DAG, each on explicit stores:
 * every get_connect is an Open of a session on the named store, and every
 * Variable.get is a parameter. A step that raises returns ok == false.
 */
module Steps {
  import opened Wrappers
  import Sql
  import Routing
  import opened Db

  /**
   * read_csv on the records csv.reader produced: the first record becomes
   * the quoted header list, every later record, in order, a data row. An
   * empty file makes `next(reader)` raise.
   */
  method ReadCsv(records: seq<Row>) returns (result: Option<(seq<string>, seq<Row>)>)
    ensures result.None? <==> records == []
    ensures result.Some? ==> result.value.0 == Sql.QuoteAll(records[0])
    ensures result.Some? ==> result.value.1 == records[1..]
  {
    if records == [] {
      return None;
    }
    var headers := Sql.QuoteAll(records[0]);
    var data: seq<Row> := [];
    var i := 1;
    while i < |records|
      invariant 1 <= i <= |records|
      invariant data == records[1..i]
    {
      data := data + [records[i]];
      i := i + 1;
    }
    return Some((headers, data));
  }

  /**
   * clean_table(conn, [table]) followed by load_data_by_psycopg2 on the same
   * connection, as load_raw_data, migrate_data and create_data_mart do it.
   * Success leaves exactly the new rows in the table. The DELETE is committed
   * before the load, so a failed load leaves the table empty, not as it was.
   */
  function ReloadOutcome(m: Tables, deletable: Deletable, admits: Admits, raw: string,
                         table: string, headers: seq<string>, rows: seq<Row>): (r: (bool, Tables))
    ensures r.0 <==> CanDelete(deletable, m, table)
                     && (table == raw ==> deletable(m[table := []], table))
                     && (rows == [] || BatchFits(admits, m[table := []], table, headers, rows))
    ensures r.0 ==> r.1 == m[table := rows]
    ensures !CanDelete(deletable, m, table) ==> r == (false, m)
    ensures CanDelete(deletable, m, table) && !r.0 ==> r.1 == m[table := []]
  {
    CleanOne(m, deletable, table);
    var cleaned := CleanRun(m, deletable, [table]);
    if !cleaned.ok then (false, m)
    else
      LoadOutcomeSpec(cleaned.tables, deletable, admits, raw, table, headers, rows);
      assert LoadStart(cleaned.tables, raw, table) == cleaned.tables;
      var loaded := LoadOutcome(cleaned.tables, deletable, admits, raw, table, headers, rows);
      if loaded.None? then (false, cleaned.tables)
      else
        assert [] + rows == rows;
        assert loaded.value == m[table := rows];
        (true, loaded.value)
  }

  /**
   * create_data_mart (and migrate_data, which has the same shape): select
   * from the source, then clear and load the destination table. The select
   * runs on the source's state before anything changes, and when it fails
   * the destination is untouched; on success the destination table holds
   * exactly the selected rows and no other table changes.
   */
  function TransferOutcome(src: Tables, engine: (string, Tables) -> Option<Answer>, query: string,
                           dst: Tables, deletable: Deletable, admits: Admits,
                           table: string, raw: string): (r: (bool, Tables))
    ensures engine(query, src).None? ==> r == (false, dst)
    ensures r.0 ==> engine(query, src).Some? && r.1 == dst[table := engine(query, src).value.rows]
    ensures !r.0 ==> r.1 == dst || (table in dst && r.1 == dst[table := []])
  {
    match SelectData(engine, src, query)
    case None => (false, dst)
    case Some(selected) => ReloadOutcome(dst, deletable, admits, raw, table, selected.0, selected.1)
  }

  /**
   * Running a transfer again on its own result changes nothing, provided
   * Postgres accepts clearing the table the first run filled: the reload is
   * idempotent.
   */
  lemma TransferIdempotent(src: Tables, engine: (string, Tables) -> Option<Answer>, query: string,
                           dst: Tables, deletable: Deletable, admits: Admits,
                           table: string, raw: string)
    requires TransferOutcome(src, engine, query, dst, deletable, admits, table, raw).0
    requires deletable(TransferOutcome(src, engine, query, dst, deletable, admits, table, raw).1, table)
    ensures var once := TransferOutcome(src, engine, query, dst, deletable, admits, table, raw).1;
            TransferOutcome(src, engine, query, once, deletable, admits, table, raw) == (true, once)
  {
    var once := TransferOutcome(src, engine, query, dst, deletable, admits, table, raw).1;
    var selected := SelectData(engine, src, query).value;
    assert ReloadOutcome(dst, deletable, admits, raw, table, selected.0, selected.1).0;
    assert table in once;
    assert once[table := []] == dst[table := []];
    var again := ReloadOutcome(once, deletable, admits, raw, table, selected.0, selected.1);
    assert again.0;
    assert once[table := selected.1] == once;
  }

  method CreateDataMart(src: Store, dst: Store, query: string, table: string, raw: string) returns (ok: bool)
    requires src != dst
    modifies src, dst
    ensures src.committed == old(src.committed) && src.log == old(src.log)
    ensures src.engine(query, old(src.committed)).None? ==> !ok && dst.committed == old(dst.committed) && dst.log == old(dst.log)
    ensures (ok, dst.committed) == TransferOutcome(old(src.committed), src.engine, query, old(dst.committed), dst.deletable, dst.admits, table, raw)
  {
    src.Open();
    var selected := SelectData(src.engine, src.tables, query);
    if selected.None? {
      return false;
    }
    dst.Open();
    ok := dst.CleanTable([table]);
    if !ok {
      return;
    }
    ok := dst.LoadData(table, selected.value.0, selected.value.1, raw);
  }

  /** migrate_data: the Corporate rows of the raw table replace the same-named table of the core store. */
  method MigrateData(rawStore: Store, coreStore: Store, rawTable: string) returns (ok: bool)
    requires rawStore != coreStore
    modifies rawStore, coreStore
    ensures rawStore.committed == old(rawStore.committed) && rawStore.log == old(rawStore.log)
    ensures (ok, coreStore.committed) == TransferOutcome(old(rawStore.committed), rawStore.engine, Sql.MigrateQuery(rawTable),
                                                         old(coreStore.committed), coreStore.deletable, coreStore.admits, rawTable, rawTable)
  {
    ok := CreateDataMart(rawStore, coreStore, Sql.MigrateQuery(rawTable), rawTable, rawTable);
  }

  /** create_data_mart_by_year: the configured yearly query into `sales_by_year`. */
  method CreateDataMartByYear(coreStore: Store, martStore: Store, query: string, rawTable: string) returns (ok: bool)
    requires coreStore != martStore
    modifies coreStore, martStore
    ensures coreStore.committed == old(coreStore.committed) && coreStore.log == old(coreStore.log)
    ensures (ok, martStore.committed) == TransferOutcome(old(coreStore.committed), coreStore.engine, query,
                                                         old(martStore.committed), martStore.deletable, martStore.admits, "sales_by_year", rawTable)
  {
    ok := CreateDataMart(coreStore, martStore, query, "sales_by_year", rawTable);
  }

  /** The one mart table that all three category branches overwrite. */
  const SubCategorySales: string := "sub_category_sales"

  method GetFurnitureSales(coreStore: Store, martStore: Store, rawTable: string) returns (ok: bool)
    requires coreStore != martStore
    modifies coreStore, martStore
    ensures coreStore.committed == old(coreStore.committed) && coreStore.log == old(coreStore.log)
    ensures (ok, martStore.committed) == TransferOutcome(old(coreStore.committed), coreStore.engine, Sql.MartQuery(Routing.Furniture),
                                                         old(martStore.committed), martStore.deletable, martStore.admits, SubCategorySales, rawTable)
  {
    ok := CreateDataMart(coreStore, martStore, Sql.MartQuery(Routing.Furniture), SubCategorySales, rawTable);
  }

  method GetOfficeSuppSales(coreStore: Store, martStore: Store, rawTable: string) returns (ok: bool)
    requires coreStore != martStore
    modifies coreStore, martStore
    ensures coreStore.committed == old(coreStore.committed) && coreStore.log == old(coreStore.log)
    ensures (ok, martStore.committed) == TransferOutcome(old(coreStore.committed), coreStore.engine, Sql.MartQuery(Routing.OfficeSupplies),
                                                         old(martStore.committed), martStore.deletable, martStore.admits, SubCategorySales, rawTable)
  {
    ok := CreateDataMart(coreStore, martStore, Sql.MartQuery(Routing.OfficeSupplies), SubCategorySales, rawTable);
  }

  method GetTechnologySales(coreStore: Store, martStore: Store, rawTable: string) returns (ok: bool)
    requires coreStore != martStore
    modifies coreStore, martStore
    ensures coreStore.committed == old(coreStore.committed) && coreStore.log == old(coreStore.log)
    ensures (ok, martStore.committed) == TransferOutcome(old(coreStore.committed), coreStore.engine, Sql.MartQuery(Routing.Technology),
                                                         old(martStore.committed), martStore.deletable, martStore.admits, SubCategorySales, rawTable)
  {
    ok := CreateDataMart(coreStore, martStore, Sql.MartQuery(Routing.Technology), SubCategorySales, rawTable);
  }

  /**
   * load_raw_data: the CSV's data rows replace the raw table. Fails, with
   * the store untouched, on an empty file or a clean that raises; a failed
   * load after the clean leaves the raw table empty.
   */
  method LoadRawData(rawStore: Store, records: seq<Row>, rawTable: string) returns (ok: bool)
    modifies rawStore
    ensures records == [] ==> !ok && rawStore.committed == old(rawStore.committed) && rawStore.log == old(rawStore.log)
    ensures records != [] ==> (ok, rawStore.committed) == ReloadOutcome(old(rawStore.committed), rawStore.deletable, rawStore.admits, rawTable,
                                                                        rawTable, Sql.QuoteAll(records[0]), records[1..])
    ensures ok ==> rawStore.committed == old(rawStore.committed)[rawTable := records[1..]]
  {
    rawStore.Open();
    var csv := ReadCsv(records);
    if csv.None? {
      return false;
    }
    ok := rawStore.CleanTable([rawTable]);
    if !ok {
      CleanOne(old(rawStore.committed), rawStore.deletable, rawTable);
      return;
    }
    ok := rawStore.LoadData(rawTable, csv.value.0, csv.value.1, rawTable);
  }

  /**
   * get_random_category: the first value of the first row the category
   * query returns (the random order is the engine's). Indexing an empty
   * answer raises.
   */
  function GetRandomCategory(coreStore: Store): (category: Option<string>)
    reads coreStore
    ensures var answer := coreStore.engine(Sql.CategoryQuery, coreStore.committed);
            category.Some? <==> answer.Some? && |answer.value.rows| > 0 && |answer.value.rows[0]| > 0
    ensures category.Some? ==> category.value == coreStore.engine(Sql.CategoryQuery, coreStore.committed).value.rows[0][0]
  {
    var selected := SelectData(coreStore.engine, coreStore.committed, Sql.CategoryQuery);
    if selected.Some? && |selected.value.1| > 0 && |selected.value.1[0]| > 0 then Some(selected.value.1[0][0])
    else None
  }

  /** The table names of the TABLE_QUERY_CORE mapping, in declaration order. */
  function Keys(pairs: seq<(string, string)>): (keys: seq<string>)
    ensures |keys| == |pairs| && forall i :: 0 <= i < |pairs| ==> keys[i] == pairs[i].0
  {
    seq(|pairs|, i requires 0 <= i < |pairs| => pairs[i].0)
  }

  /** Python's `s[::-1]`. */
  function Reverse<T>(s: seq<T>): (r: seq<T>)
    ensures |r| == |s| && forall i :: 0 <= i < |s| ==> r[i] == s[|s| - 1 - i]
  {
    if s == [] then [] else Reverse(s[1..]) + [s[0]]
  }

  /**
   * The loading loop of load_core_data on the committed state m: for each
   * (table, query) in order, select on the current state and load the
   * answer into the table; the first failure ends the run with what earlier
   * loads committed.
   */
  function LoadEach(m: Tables, engine: (string, Tables) -> Option<Answer>,
                    deletable: Deletable, admits: Admits, raw: string,
                    pairs: seq<(string, string)>): Run
    decreases |pairs|
  {
    if pairs == [] then Run(true, m, [])
    else
      var table := pairs[0].0;
      match SelectData(engine, m, pairs[0].1)
      case None => Run(false, m, [])
      case Some(selected) =>
        var loaded := LoadOutcome(m, deletable, admits, raw, table, selected.0, selected.1);
        var events := LoadEvents(m, deletable, raw, table, selected.0, selected.1, loaded.Some?);
        if loaded.None? then Run(false, m, events)
        else
          var rest := LoadEach(loaded.value, engine, deletable, admits, raw, pairs[1..]);
          Run(rest.ok, rest.tables, events + rest.events)
  }

  /** load_core_data on the committed state m: clear the keys in reverse order, then LoadEach. */
  function CoreLoadRun(m: Tables, engine: (string, Tables) -> Option<Answer>,
                       deletable: Deletable, admits: Admits, raw: string,
                       pairs: seq<(string, string)>): Run
  {
    var cleaned := CleanRun(m, deletable, Reverse(Keys(pairs)));
    if !cleaned.ok then Run(false, m, cleaned.events)
    else
      var loaded := LoadEach(cleaned.tables, engine, deletable, admits, raw, pairs);
      Run(loaded.ok, loaded.tables, cleaned.events + loaded.events)
  }

  method LoadCoreData(coreStore: Store, pairs: seq<(string, string)>, rawTable: string) returns (ok: bool)
    modifies coreStore
    ensures ok == CoreLoadRun(old(coreStore.committed), coreStore.engine, coreStore.deletable, coreStore.admits, rawTable, pairs).ok
    ensures coreStore.committed == CoreLoadRun(old(coreStore.committed), coreStore.engine, coreStore.deletable, coreStore.admits, rawTable, pairs).tables
    ensures coreStore.log == old(coreStore.log) + CoreLoadRun(old(coreStore.committed), coreStore.engine, coreStore.deletable, coreStore.admits, rawTable, pairs).events
  {
    coreStore.Open();
    ghost var m, log0 := coreStore.committed, coreStore.log;
    ghost var cleaned := CleanRun(m, coreStore.deletable, Reverse(Keys(pairs)));
    ok := coreStore.CleanTable(Reverse(Keys(pairs)));
    if ok {
      ghost var loaded := LoadEach(cleaned.tables, coreStore.engine, coreStore.deletable, coreStore.admits, rawTable, pairs);
      ok := LoadEachTable(coreStore, pairs, rawTable);
      AppendAssoc(log0, cleaned.events, loaded.events);
    }
  }

  /** One turn of the loop of load_core_data, as LoadEach defines it. */
  lemma LoadEachUnfold(m: Tables, engine: (string, Tables) -> Option<Answer>,
                       deletable: Deletable, admits: Admits, raw: string,
                       pairs: seq<(string, string)>)
    requires pairs != []
    ensures SelectData(engine, m, pairs[0].1).None? ==> LoadEach(m, engine, deletable, admits, raw, pairs) == Run(false, m, [])
    ensures SelectData(engine, m, pairs[0].1).Some? ==>
      var selected := SelectData(engine, m, pairs[0].1).value;
      var loaded := LoadOutcome(m, deletable, admits, raw, pairs[0].0, selected.0, selected.1);
      var events := LoadEvents(m, deletable, raw, pairs[0].0, selected.0, selected.1, loaded.Some?);
      LoadEach(m, engine, deletable, admits, raw, pairs) ==
        if loaded.None? then Run(false, m, events)
        else
          var rest := LoadEach(loaded.value, engine, deletable, admits, raw, pairs[1..]);
          Run(rest.ok, rest.tables, events + rest.events)
  {
  }

  /** The `for table, query in ...items()` loop of load_core_data, on an open session with nothing uncommitted. */
  method LoadEachTable(coreStore: Store, pairs: seq<(string, string)>, rawTable: string) returns (ok: bool)
    requires coreStore.tables == coreStore.committed
    modifies coreStore
    ensures ok == LoadEach(old(coreStore.committed), coreStore.engine, coreStore.deletable, coreStore.admits, rawTable, pairs).ok
    ensures coreStore.committed == LoadEach(old(coreStore.committed), coreStore.engine, coreStore.deletable, coreStore.admits, rawTable, pairs).tables
    ensures coreStore.log == old(coreStore.log) + LoadEach(old(coreStore.committed), coreStore.engine, coreStore.deletable, coreStore.admits, rawTable, pairs).events
  {
    ghost var engine, deletable, admits := coreStore.engine, coreStore.deletable, coreStore.admits;
    ghost var whole := LoadEach(coreStore.committed, engine, deletable, admits, rawTable, pairs);
    ghost var log0 := coreStore.log;
    ghost var done: seq<Event> := [];
    ghost var rest := whole;
    assert pairs[0..] == pairs;
    var i := 0;
    while i < |pairs|
      invariant 0 <= i <= |pairs|
      invariant coreStore.tables == coreStore.committed
      invariant rest == LoadEach(coreStore.committed, engine, deletable, admits, rawTable, pairs[i..])
      invariant rest.ok == whole.ok && rest.tables == whole.tables
      invariant coreStore.log == log0 + done
      invariant whole.events == done + rest.events
    {
      LoadEachUnfold(coreStore.committed, engine, deletable, admits, rawTable, pairs[i..]);
      assert pairs[i..][1..] == pairs[i + 1..];
      ghost var state := coreStore.committed;
      var selected := SelectData(coreStore.engine, coreStore.tables, pairs[i].1);
      if selected.None? {
        return false;
      }
      ghost var loaded := LoadOutcome(state, deletable, admits, rawTable, pairs[i].0, selected.value.0, selected.value.1);
      ghost var events := LoadEvents(state, deletable, rawTable, pairs[i].0, selected.value.0, selected.value.1, loaded.Some?);
      ok := coreStore.LoadData(pairs[i].0, selected.value.0, selected.value.1, rawTable);
      AppendAssoc(log0, done, events);
      if !ok {
        return;
      }
      ghost var next := LoadEach(loaded.value, engine, deletable, admits, rawTable, pairs[i + 1..]);
      AppendAssoc(done, events, next.events);
      done, rest := done + events, next;
      i := i + 1;
    }
    ok := true;
  }

  /** The statements of one load: a DELETE only for the raw table, an INSERT batch unless that DELETE raised. */
  lemma LoadEventsTargets(m: Tables, deletable: Deletable, raw: string, table: string,
                          headers: seq<string>, rows: seq<Row>, ok: bool)
    ensures Deleted(LoadEvents(m, deletable, raw, table, headers, rows, ok)) == if table == raw then [table] else []
    ensures Inserted(LoadEvents(m, deletable, raw, table, headers, rows, ok))
         == if table == raw && !CanDelete(deletable, m, table) then [] else [table]
  {
    var first: seq<Event> := if table == raw then [Delete(table)] else [];
    var second: seq<Event> := if table == raw && !CanDelete(deletable, m, table) then [] else [InsertMany(table, headers, rows)];
    var last: seq<Event> := [if ok then Commit else Rollback];
    TargetsAppend(first, second);
    TargetsAppend(first + second, last);
  }

  /**
   * Whatever its outcome, the loading loop sends INSERT batches into a
   * prefix of the mapping's tables, in declaration order: it stops at the
   * first failure and never goes back.
   */
  lemma {:induction false} LoadEachPrefix(m: Tables, engine: (string, Tables) -> Option<Answer>,
                                          deletable: Deletable, admits: Admits, raw: string,
                                          pairs: seq<(string, string)>)
    ensures Inserted(LoadEach(m, engine, deletable, admits, raw, pairs).events) <= Keys(pairs)
    decreases |pairs|
  {
    if pairs != [] {
      var table := pairs[0].0;
      assert Keys(pairs) == [table] + Keys(pairs[1..]);
      match SelectData(engine, m, pairs[0].1)
      case None =>
      case Some(selected) =>
        var loaded := LoadOutcome(m, deletable, admits, raw, table, selected.0, selected.1);
        var events := LoadEvents(m, deletable, raw, table, selected.0, selected.1, loaded.Some?);
        LoadEventsTargets(m, deletable, raw, table, selected.0, selected.1, loaded.Some?);
        if loaded.Some? {
          LoadOutcomeSpec(m, deletable, admits, raw, table, selected.0, selected.1);
          assert Inserted(events) == [table];
          var rest := LoadEach(loaded.value, engine, deletable, admits, raw, pairs[1..]);
          LoadEachPrefix(loaded.value, engine, deletable, admits, raw, pairs[1..]);
          TargetsAppend(events, rest.events);
        }
    }
  }

  /**
   * The loading loop of load_core_data inserts into a prefix of the
   * mapping's tables in declaration order (all of them when it succeeds),
   * deletes nothing but
   * the raw table, keeps the set of tables, and leaves every table outside
   * the mapping as it was.
   */
  lemma {:induction false} LoadEachSpec(m: Tables, engine: (string, Tables) -> Option<Answer>,
                                        deletable: Deletable, admits: Admits, raw: string,
                                        pairs: seq<(string, string)>)
    ensures Inserted(LoadEach(m, engine, deletable, admits, raw, pairs).events) <= Keys(pairs)
    ensures LoadEach(m, engine, deletable, admits, raw, pairs).ok ==> Inserted(LoadEach(m, engine, deletable, admits, raw, pairs).events) == Keys(pairs)
    ensures forall t :: t in Deleted(LoadEach(m, engine, deletable, admits, raw, pairs).events) ==> t == raw
    ensures LoadEach(m, engine, deletable, admits, raw, pairs).tables.Keys == m.Keys
    ensures forall t :: t in m && t !in Keys(pairs) ==> LoadEach(m, engine, deletable, admits, raw, pairs).tables[t] == m[t]
    decreases |pairs|
  {
    LoadEachPrefix(m, engine, deletable, admits, raw, pairs);
    if pairs != [] {
      var table := pairs[0].0;
      assert Keys(pairs) == [table] + Keys(pairs[1..]);
      match SelectData(engine, m, pairs[0].1)
      case None =>
      case Some(selected) =>
        LoadOutcomeSpec(m, deletable, admits, raw, table, selected.0, selected.1);
        var loaded := LoadOutcome(m, deletable, admits, raw, table, selected.0, selected.1);
        var events := LoadEvents(m, deletable, raw, table, selected.0, selected.1, loaded.Some?);
        LoadEventsTargets(m, deletable, raw, table, selected.0, selected.1, loaded.Some?);
        if loaded.Some? {
          var rest := LoadEach(loaded.value, engine, deletable, admits, raw, pairs[1..]);
          LoadEachSpec(loaded.value, engine, deletable, admits, raw, pairs[1..]);
          TargetsAppend(events, rest.events);
        }
    }
  }

  /** No table name occurs twice, as in the keys of a JSON object. */
  predicate Distinct(names: seq<string>)
  {
    forall i, j :: 0 <= i < j < |names| ==> names[i] != names[j]
  }

  /**
   * Starting from empty tables with distinct names, a successful loading
   * loop leaves each table holding exactly the rows of the batch inserted
   * into it: every select-and-load fills its own table and no later load
   * touches it.
   */
  lemma {:induction false} LoadEachContents(m: Tables, engine: (string, Tables) -> Option<Answer>,
                                            deletable: Deletable, admits: Admits, raw: string,
                                            pairs: seq<(string, string)>)
    requires Distinct(Keys(pairs))
    requires forall i :: 0 <= i < |pairs| ==> pairs[i].0 in m && m[pairs[i].0] == []
    ensures LoadEach(m, engine, deletable, admits, raw, pairs).ok ==>
      forall e :: e in LoadEach(m, engine, deletable, admits, raw, pairs).events && e.InsertMany? ==>
        e.table in LoadEach(m, engine, deletable, admits, raw, pairs).tables
        && LoadEach(m, engine, deletable, admits, raw, pairs).tables[e.table] == e.rows
    decreases |pairs|
  {
    if pairs != [] {
      var table := pairs[0].0;
      LoadEachUnfold(m, engine, deletable, admits, raw, pairs);
      match SelectData(engine, m, pairs[0].1)
      case None =>
      case Some(selected) =>
        LoadOutcomeSpec(m, deletable, admits, raw, table, selected.0, selected.1);
        var loaded := LoadOutcome(m, deletable, admits, raw, table, selected.0, selected.1);
        if loaded.Some? {
          var tail := pairs[1..];
          DistinctTail(pairs);
          assert [] + selected.1 == selected.1;
          LoadEachContents(loaded.value, engine, deletable, admits, raw, tail);
          LoadEachSpec(loaded.value, engine, deletable, admits, raw, tail);
          LoadEventsInsert(m, deletable, raw, table, selected.0, selected.1, true);
        }
    }
  }

  /** The tail of a mapping with distinct names has distinct names, none of them the first. */
  lemma DistinctTail(pairs: seq<(string, string)>)
    requires pairs != [] && Distinct(Keys(pairs))
    ensures Distinct(Keys(pairs[1..]))
    ensures pairs[0].0 !in Keys(pairs[1..])
  {
    assert Keys(pairs[1..]) == Keys(pairs)[1..];
  }

  /** The only INSERT batch of a load is the one into its target. */
  lemma LoadEventsInsert(m: Tables, deletable: Deletable, raw: string, table: string,
                         headers: seq<string>, rows: seq<Row>, ok: bool)
    ensures forall e :: e in LoadEvents(m, deletable, raw, table, headers, rows, ok) && e.InsertMany? ==>
      e == InsertMany(table, headers, rows)
  {
  }

  /**
   * load_core_data end to end. When a DELETE of the clean raises, nothing
   * is committed; in particular a table of the mapping that does not exist
   * fails the run. Otherwise the session sends one DELETE per table in
   * reverse declaration order and a COMMIT before any load, and, when every
   * load succeeds, one INSERT batch per table in declaration order (a
   * prefix of them in that order when a load fails).
   * Whatever happens, the set of tables stays the same and tables outside
   * the mapping keep their rows.
   */
  lemma CoreLoadOrder(m: Tables, engine: (string, Tables) -> Option<Answer>,
                      deletable: Deletable, admits: Admits, raw: string,
                      pairs: seq<(string, string)>)
    ensures !CleanRun(m, deletable, Reverse(Keys(pairs))).ok ==>
      !CoreLoadRun(m, engine, deletable, admits, raw, pairs).ok && CoreLoadRun(m, engine, deletable, admits, raw, pairs).tables == m
    ensures !AllExist(m, Keys(pairs)) ==> !CleanRun(m, deletable, Reverse(Keys(pairs))).ok
    ensures CleanRun(m, deletable, Reverse(Keys(pairs))).ok ==>
      Deletes(Reverse(Keys(pairs))) + [Commit] <= CoreLoadRun(m, engine, deletable, admits, raw, pairs).events
    ensures CleanRun(m, deletable, Reverse(Keys(pairs))).ok ==>
      Inserted(CoreLoadRun(m, engine, deletable, admits, raw, pairs).events) <= Keys(pairs)
    ensures CoreLoadRun(m, engine, deletable, admits, raw, pairs).ok ==>
      Inserted(CoreLoadRun(m, engine, deletable, admits, raw, pairs).events) == Keys(pairs)
    ensures CoreLoadRun(m, engine, deletable, admits, raw, pairs).tables.Keys == m.Keys
    ensures forall t :: t in m && t !in Keys(pairs) ==> CoreLoadRun(m, engine, deletable, admits, raw, pairs).tables[t] == m[t]
  {
    var keys := Keys(pairs);
    var order := Reverse(keys);
    ReverseSameElements(m, keys);
    CleanRunSpec(m, deletable, order);
    var cleaned := CleanRun(m, deletable, order);
    if cleaned.ok {
      var loaded := LoadEach(cleaned.tables, engine, deletable, admits, raw, pairs);
      assert CoreLoadRun(m, engine, deletable, admits, raw, pairs) == Run(loaded.ok, loaded.tables, cleaned.events + loaded.events);
      LoadEachSpec(cleaned.tables, engine, deletable, admits, raw, pairs);
      TargetsAppend(cleaned.events, loaded.events);
      TargetsAppend(Deletes(order), [Commit]);
      DeletesTargets(order);
    }
  }

  /** Reversing the mapping's keys neither adds nor drops a table. */
  lemma ReverseSameElements(m: Tables, keys: seq<string>)
    ensures forall t :: t in Reverse(keys) <==> t in keys
    ensures AllExist(m, Reverse(keys)) == AllExist(m, keys)
  {
    var order := Reverse(keys);
    assert forall i :: 0 <= i < |keys| ==> order[|keys| - 1 - i] == keys[i];
  }

  /**
   * What load_core_data leaves: when it succeeds on a mapping with distinct
   * table names, every table it filled holds exactly the rows its query
   * returned, since the clean emptied it first.
   */
  lemma CoreLoadContents(m: Tables, engine: (string, Tables) -> Option<Answer>,
                         deletable: Deletable, admits: Admits, raw: string,
                         pairs: seq<(string, string)>)
    requires Distinct(Keys(pairs))
    ensures CoreLoadRun(m, engine, deletable, admits, raw, pairs).ok ==>
      forall e :: e in CoreLoadRun(m, engine, deletable, admits, raw, pairs).events && e.InsertMany? ==>
        e.table in CoreLoadRun(m, engine, deletable, admits, raw, pairs).tables
        && CoreLoadRun(m, engine, deletable, admits, raw, pairs).tables[e.table] == e.rows
  {
    var order := Reverse(Keys(pairs));
    var cleaned := CleanRun(m, deletable, order);
    if cleaned.ok {
      CleanedKeysEmpty(m, deletable, pairs);
      LoadEachContents(cleaned.tables, engine, deletable, admits, raw, pairs);
      var loaded := LoadEach(cleaned.tables, engine, deletable, admits, raw, pairs);
      assert CoreLoadRun(m, engine, deletable, admits, raw, pairs) == Run(loaded.ok, loaded.tables, cleaned.events + loaded.events);
      CleanRunEvents(m, deletable, order);
      DeletesOnly(order);
    }
  }

  /** After a successful clean of the reversed keys, every table of the mapping exists and is empty. */
  lemma CleanedKeysEmpty(m: Tables, deletable: Deletable, pairs: seq<(string, string)>)
    requires CleanRun(m, deletable, Reverse(Keys(pairs))).ok
    ensures forall i :: 0 <= i < |pairs| ==>
      pairs[i].0 in CleanRun(m, deletable, Reverse(Keys(pairs))).tables
      && CleanRun(m, deletable, Reverse(Keys(pairs))).tables[pairs[i].0] == []
  {
    var keys := Keys(pairs);
    var order := Reverse(keys);
    ReverseSameElements(m, keys);
    CleanRunSpec(m, deletable, order);
    assert forall i :: 0 <= i < |pairs| ==> pairs[i].0 == keys[i] && keys[i] in order;
  }

  /** A clean's DELETEs are all it sends before its COMMIT. */
  lemma DeletesOnly(names: seq<string>)
    ensures forall e :: e in Deletes(names) ==> e.Delete?
  {
  }

  /**
   * Whether the loading loop succeeds or stops at a failure, every table of
   * the mapping, emptied beforehand, is either still empty or holds exactly
   * the rows of an INSERT batch the run sent into it: a load that committed
   * keeps its rows, and a failed one rolls back to an empty table.
   */
  lemma {:induction false} LoadEachLeaves(m: Tables, engine: (string, Tables) -> Option<Answer>,
                                          deletable: Deletable, admits: Admits, raw: string,
                                          pairs: seq<(string, string)>)
    requires Distinct(Keys(pairs))
    requires forall i :: 0 <= i < |pairs| ==> pairs[i].0 in m && m[pairs[i].0] == []
    ensures forall i :: 0 <= i < |pairs| ==> LeftBy(LoadEach(m, engine, deletable, admits, raw, pairs), pairs[i].0)
    decreases |pairs|
  {
    if pairs != [] {
      var table := pairs[0].0;
      LoadEachUnfold(m, engine, deletable, admits, raw, pairs);
      match SelectData(engine, m, pairs[0].1)
      case None =>
      case Some(selected) =>
        var loaded := LoadOutcome(m, deletable, admits, raw, table, selected.0, selected.1);
        if loaded.Some? {
          var tail := pairs[1..];
          var events := LoadEvents(m, deletable, raw, table, selected.0, selected.1, true);
          LoadFillsEmptyTarget(m, deletable, admits, raw, table, selected.0, selected.1);
          DistinctTail(pairs);
          LoadEachLeaves(loaded.value, engine, deletable, admits, raw, tail);
          var rest := LoadEach(loaded.value, engine, deletable, admits, raw, tail);
          LoadEachKeeps(loaded.value, engine, deletable, admits, raw, tail, table);
          LeftByExtend(rest, events, table, InsertMany(table, selected.0, selected.1));
          forall i | 1 <= i < |pairs|
            ensures LeftBy(Run(rest.ok, rest.tables, events + rest.events), pairs[i].0)
          {
            assert pairs[i].0 == tail[i - 1].0;
            LeftByExtend(rest, events, pairs[i].0, InsertMany(table, selected.0, selected.1));
          }
        }
    }
  }

  /**
   * A successful load into an existing empty table leaves it holding exactly
   * the batch, sends that batch, and changes no other table.
   */
  lemma LoadFillsEmptyTarget(m: Tables, deletable: Deletable, admits: Admits, raw: string,
                             table: string, headers: seq<string>, rows: seq<Row>)
    requires table in m && m[table] == []
    requires LoadOutcome(m, deletable, admits, raw, table, headers, rows).Some?
    ensures table in LoadOutcome(m, deletable, admits, raw, table, headers, rows).value
    ensures LoadOutcome(m, deletable, admits, raw, table, headers, rows).value[table] == rows
    ensures forall t :: t in m && t != table ==>
              t in LoadOutcome(m, deletable, admits, raw, table, headers, rows).value
              && LoadOutcome(m, deletable, admits, raw, table, headers, rows).value[t] == m[t]
    ensures InsertMany(table, headers, rows) in LoadEvents(m, deletable, raw, table, headers, rows, true)
  {
    LoadOutcomeSpec(m, deletable, admits, raw, table, headers, rows);
    assert [] + rows == rows;
  }

  /** A table the remaining loads do not name keeps its contents through them. */
  lemma LoadEachKeeps(m: Tables, engine: (string, Tables) -> Option<Answer>,
                      deletable: Deletable, admits: Admits, raw: string,
                      pairs: seq<(string, string)>, t: string)
    requires t in m && t !in Keys(pairs)
    ensures t in LoadEach(m, engine, deletable, admits, raw, pairs).tables
    ensures LoadEach(m, engine, deletable, admits, raw, pairs).tables[t] == m[t]
  {
    LoadEachSpec(m, engine, deletable, admits, raw, pairs);
  }

  /**
   * Statements sent before a run do not change what the run leaves: a table
   * left by the run is still left by it with earlier statements in front,
   * and a table filled by an earlier batch it does not touch afterwards is
   * left too.
   */
  lemma LeftByExtend(rest: Run, before: seq<Event>, t: string, e: Event)
    requires LeftBy(rest, t) || (e in before && e.InsertMany? && e.table == t && t in rest.tables && rest.tables[t] == e.rows)
    ensures LeftBy(Run(rest.ok, rest.tables, before + rest.events), t)
  {
    var run := Run(rest.ok, rest.tables, before + rest.events);
    if e in before && e.InsertMany? && e.table == t && t in rest.tables && rest.tables[t] == e.rows {
      assert e in run.events;
    } else if rest.tables[t] != [] {
      var f :| f in rest.events && f.InsertMany? && f.table == t && rest.tables[t] == f.rows;
      assert f in run.events;
    }
  }

  /** The table t after a run is empty, or holds exactly the rows of one INSERT batch the run sent into it. */
  predicate LeftBy(run: Run, t: string)
  {
    t in run.tables
    && (run.tables[t] == [] || exists e :: e in run.events && e.InsertMany? && e.table == t && run.tables[t] == e.rows)
  }

  /**
   * What load_core_data leaves in the mapping's tables once its clean has
   * committed, on distinct table names, whether the loads succeed or not:
   * each table is empty or holds exactly the rows of the batch the run
   * inserted into it. A failed load does not restore what the clean
   * deleted.
   */
  lemma CoreLoadLeaves(m: Tables, engine: (string, Tables) -> Option<Answer>,
                       deletable: Deletable, admits: Admits, raw: string,
                       pairs: seq<(string, string)>)
    requires Distinct(Keys(pairs))
    ensures CleanRun(m, deletable, Reverse(Keys(pairs))).ok ==>
      forall i :: 0 <= i < |pairs| ==> LeftBy(CoreLoadRun(m, engine, deletable, admits, raw, pairs), pairs[i].0)
  {
    var cleaned := CleanRun(m, deletable, Reverse(Keys(pairs)));
    if cleaned.ok {
      CleanedKeysEmpty(m, deletable, pairs);
      LoadEachLeaves(cleaned.tables, engine, deletable, admits, raw, pairs);
      var loaded := LoadEach(cleaned.tables, engine, deletable, admits, raw, pairs);
      var run := CoreLoadRun(m, engine, deletable, admits, raw, pairs);
      assert run == Run(loaded.ok, loaded.tables, cleaned.events + loaded.events);
      forall i | 0 <= i < |pairs|
        ensures LeftBy(run, pairs[i].0)
      {
        assert LeftBy(loaded, pairs[i].0);
      }
    }
  }

  /**
   * A mapping of two tables, with the second declared after the first, on
   * a state where Postgres accepts both DELETEs in that order: the clean
   * deletes the second before the first, and the loads then fill the first
   * before the second.
   */
  lemma TwoTableOrder(m: Tables, engine: (string, Tables) -> Option<Answer>,
                      deletable: Deletable, admits: Admits, raw: string,
                      first: (string, string), second: (string, string))
    requires CanDelete(deletable, m, second.0) && CanDelete(deletable, m[second.0 := []], first.0)
    ensures [Delete(second.0), Delete(first.0), Commit] <= CoreLoadRun(m, engine, deletable, admits, raw, [first, second]).events
    ensures CoreLoadRun(m, engine, deletable, admits, raw, [first, second]).ok ==>
      Inserted(CoreLoadRun(m, engine, deletable, admits, raw, [first, second]).events) == [first.0, second.0]
  {
    var pairs := [first, second];
    CoreLoadOrder(m, engine, deletable, admits, raw, pairs);
    assert Keys(pairs) == [first.0, second.0];
    assert Reverse(Keys(pairs)) == [second.0, first.0];
    assert [second.0, first.0][1..] == [first.0];
    assert [first.0][1..] == [];
    assert CleanRun(m[second.0 := []], deletable, [first.0]).ok;
    assert CleanRun(m, deletable, [second.0, first.0]).ok;
    assert Deletes([second.0, first.0]) + [Commit] == [Delete(second.0), Delete(first.0), Commit];
  }

  /**
   * Why the clean runs in reverse declaration order. Say the child table,
   * declared after the parent, holds rows with a foreign key to the parent,
   * so Postgres refuses to delete the parent's rows while the child still
   * has rows. Clearing the mapping's keys reversed (child, then parent)
   * succeeds; clearing them in declaration order fails on the first DELETE.
   */
  lemma ReverseCleanRespectsReference(m: Tables, deletable: Deletable, parent: (string, string), child: (string, string))
    requires parent.0 != child.0 && parent.0 in m && child.0 in m && m[child.0] != []
    requires forall s: Tables :: deletable(s, parent.0) <==> child.0 in s && s[child.0] == []
    requires forall s: Tables :: deletable(s, child.0)
    ensures CleanRun(m, deletable, Reverse(Keys([parent, child]))).ok
    ensures !CleanRun(m, deletable, Keys([parent, child])).ok
  {
    assert Keys([parent, child]) == [parent.0, child.0];
    assert Reverse(Keys([parent, child])) == [child.0, parent.0];
    var cleared := m[child.0 := []];
    assert CanDelete(deletable, cleared, parent.0);
    assert [child.0, parent.0][1..] == [parent.0];
    assert [parent.0][1..] == [];
    assert CleanRun(cleared, deletable, [parent.0]).ok;
  }
}
