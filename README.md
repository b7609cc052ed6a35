# STORE pipeline: the table-reload protocol

This project models the Python callables of the `STORE` Airflow DAG
(`dags/store.py`). The DAG moves a retail sales CSV into a raw Postgres
store, copies the Corporate rows into a core store, refills the core
tables from a configured mapping of table name to query, and builds data
marts in a mart store. One of the marts is chosen at run time by a
category branch.

What is modelled is the protocol these callables follow against the
database, plus the strings and branch decisions around it:

- `wrappers.dfy` (module `Wrappers`): `Option`.
- `sql.dfy` (module `Sql`): the SQL text the callables build with f-strings.
  This covers quoted column names, the DELETE and INSERT statements (with
  one `%s` per header), the migration query and the sub-category mart query
  of `query_dm_template`.
- `routing.dfy` (module `Routing`): the two branch callables,
  `check_file_at_path` and `category_definition_func`, and the category
  each `get_*_sales` callable passes on.
- `db.dfy` (module `Db`): an abstract Postgres store. `Store` is a class
  with three mutable fields:
  - the open session's view of the tables, uncommitted changes included;
  - the last committed state;
  - a log of the DELETE, INSERT-batch, COMMIT and ROLLBACK statements sent.

  It also holds three constants that stand for Postgres itself: `engine`,
  `deletable` and `admits`, described below.

  `clean_table` and `load_data_by_psycopg2` are methods on it. Each is
  proved against a pure function of the session state: `CleanRun` and
  `LoadOutcome` / `LoadEvents`.
- `steps.dfy` (module `Steps`): the PythonOperator callables on explicit
  stores. Every `get_connect` becomes `Open` on the named store. Every
  `Variable.get` becomes a parameter.

Postgres is represented by three opaque functions of the current state:
- `Store.engine` evaluates a SELECT: a query and a state give an answer,
  or `None` when Postgres raises.
- `Store.deletable` says whether Postgres accepts `DELETE FROM t` on a
  state. For instance, a foreign key of another table that still
  references rows of `t` makes it raise.
- `Store.admits` says whether Postgres accepts one row of an INSERT on a
  state that already holds the batch's earlier rows. This covers column
  types and unique and foreign keys. A row whose length differs from the
  header list is always rejected.

The model does not say what Postgres computes. It says what the Python
code does with the outcome. Because both checks see the state, the order
of the DELETEs and INSERTs can decide whether a step succeeds, which is
why `load_core_data` clears in reverse order
(`Steps.ReverseCleanRespectsReference`).

Each `InsertMany` event of the log stands for one `executemany` call.
That call sends one INSERT per row, and none for an empty batch.

A table reload is not atomic. `clean_table` commits its DELETEs on their
own (`dags/store.py:88`) before `load_data_by_psycopg2` runs. When the load
then fails, its rollback (`dags/store.py:128`) only returns to that
commit, so the table is left **empty**, not restored.
`Steps.ReloadOutcome` states this: when the clean succeeds and the load
fails, the result is `m[table := []]`. `Steps.TransferOutcome` carries it
to `migrate_data`, `create_data_mart` and the three mart callables.
`Steps.CoreLoadLeaves` states it for `load_core_data`: after its clean
has committed, every mapped table is empty or holds exactly the batch
the run inserted into it.

## Model

| member | source | states |
|---|---|---|
| Sql.Quote | dags/store.py:74 | a quoted name is two characters longer, starts and ends with `"`, and unquotes back to the name |
| Sql.QuoteAll | dags/store.py:98 | header quoting keeps the number and order of names: the i-th quoted header unquotes to the i-th name |
| Sql.Join | dags/store.py:115 | `sep.join(parts)`; a definition, whose use in the INSERT statement is stated by `Sql.InsertSqlParameterCount` |
| Sql.Repeat | dags/store.py:118 | `['%s'] * n`: a list of length n whose every element is the given string |
| Sql.Placeholders | dags/store.py:118 | `', '.join(['%s'] * n)`, built from `Sql.Repeat` and `Sql.Join`; a definition, whose shape is stated by `Sql.PlaceholdersShape` |
| Sql.PlaceholdersShape | dags/store.py:118 | the placeholder list has length 4n-2 (0 for n = 0), follows the pattern `%s, ` character by character, and holds exactly n `%` |
| Sql.DeleteSql | dags/store.py:86 | the text of `DELETE FROM t;`, the statement `Db.Event.Text` gives for a DELETE; a definition |
| Sql.InsertSql | dags/store.py:115-118 | the text handed to `executemany`; a definition, whose parameter count is stated by `Sql.InsertSqlParameterCount` |
| Sql.InsertSqlParameterCount | dags/store.py:115-118 | when the table name and headers hold no `%`, the INSERT statement carries exactly one parameter per header |
| Sql.MigrateQuery | dags/store.py:155-156 | the text of the Corporate-segment query on the raw table; a definition, used by `Steps.MigrateData` |
| Sql.MartQuery | dags/store.py:234-251 | the category can be read back out of the mart query, so it is the only part that varies |
| Sql.MartQueryInjective | dags/store.py:234-251 | two categories give the same mart query exactly when they are equal |
| Routing.CheckFileAtPath | dags/store.py:48-53 | always one of `sensor_file` and `download_file`; `sensor_file` exactly when the file exists, `download_file` exactly when it does not |
| Routing.CategoryDefinition | dags/store.py:219-231 | a task id exactly for the three known categories, and then one of the three mart tasks; `None` for any other value |
| Routing.WrapperCategory | dags/store.py:254-274 | a category exactly for the three mart task ids |
| Routing.BranchSelectsMatchingMart | dags/store.py:226-231 | the branch picks task t for category c exactly when t is the callable that builds the mart of c |
| Routing.CategoryDefinitionInjective | dags/store.py:226-231 | two known categories never route to the same task |
| Db.Cleared | dags/store.py:85-86 | a definition (the closed form of the clean's effect), stated by `Db.CleanRunTables` and `Db.CleanRunAccepted` |
| Db.CleanRun | dags/store.py:80-90 | clean_table on a session state: a DELETE per name, stopping at the first one Postgres rejects, then one COMMIT; a definition, stated by `Db.CleanRunSpec` |
| Db.DeletesTargets | dags/store.py:85-86 | the DELETEs of a clean target exactly the listed tables, in order, and insert nothing |
| Db.CleanRunAccepted | dags/store.py:85-88 | clean_table succeeds exactly when each DELETE is accepted on the state the earlier DELETEs left |
| Db.CleanRunEvents | dags/store.py:85-88 | a successful clean sends one DELETE per name in list order and a single COMMIT; a failed one sends no COMMIT |
| Db.CleanRunTables | dags/store.py:85-88 | a successful clean empties exactly the listed tables |
| Db.CleanRunSpec | dags/store.py:80-90 | the three lemmas above together, plus: a successful clean implies every listed table exists |
| Db.CleanOne | dags/store.py:80-90 | cleaning one table succeeds exactly when its DELETE is accepted, and then only that table becomes empty; otherwise nothing changes |
| Db.InsertAll | dags/store.py:117-120 | `executemany` on a state: row by row, each checked on the state holding the earlier rows, stopping at the first rejected one; a definition, stated by `Db.InsertAllOutcome` |
| Db.InsertAllOutcome | dags/store.py:117-120 | `executemany` succeeds exactly when there are no rows, or the table exists and every row is accepted on the state holding the rows before it; it then appends the rows in order |
| Db.LoadOutcome | dags/store.py:104-131 | load_data_by_psycopg2 on a session state; a definition, stated by `Db.LoadOutcomeSpec` |
| Db.LoadOutcomeSpec | dags/store.py:104-131 | the load fails exactly when the DELETE of the raw table is rejected, or when a row is rejected. On success the target holds its prior rows followed by the new ones, or only the new ones for the raw table. The set of tables and every other table are unchanged |
| Db.LoadEvents | dags/store.py:110-131 | the statements of one load: a DELETE for the raw table only, the INSERT batch unless that DELETE raised, then COMMIT or ROLLBACK; a definition, stated by `Steps.LoadEventsTargets` |
| Db.SelectData | dags/store.py:93-101 | an answer exactly when the query succeeds; the rows are the query's rows, and the i-th header is the i-th column name quoted |
| Db.Store.Open | dags/store.py:56-65 | a new session sees the committed state |
| Db.Store.CleanTable | dags/store.py:80-90 | the outcome, the new committed state and the statements sent are those of `CleanRun`; a failed clean commits nothing |
| Db.Store.LoadData | dags/store.py:104-131 | success and the new state are those of `LoadOutcome`. Any failure rolls the session back to the last commit. The statements sent end in COMMIT on success and ROLLBACK on failure |
| Steps.ReadCsv | dags/store.py:68-77 | an empty file raises. Otherwise the first record becomes the quoted headers and every later record, in order, becomes a data row |
| Steps.ReloadOutcome | dags/store.py:144-146 | clean-then-load succeeds exactly when the clean's DELETE is accepted, the load's own DELETE of the raw table is accepted, and every row is accepted on the emptied table. Success leaves exactly the new rows in that table and changes nothing else. A rejected clean changes nothing. A failed load leaves the table empty |
| Steps.TransferOutcome | dags/store.py:186-198 | a failed select leaves the destination untouched. On success the destination table equals the selected rows and nothing else changes. On failure the destination is unchanged or only that table is emptied |
| Steps.TransferIdempotent | dags/store.py:186-198 | repeating a successful transfer from the same source leaves the destination as the first one left it, when Postgres accepts clearing the filled table |
| Steps.CreateDataMart | dags/store.py:186-198 | a failed select on the source fails the step with the destination's committed state and log unchanged; the source's committed state and log are unchanged, and the outcome and the destination's committed state are `TransferOutcome` |
| Steps.MigrateData | dags/store.py:150-162 | the Corporate-segment query on the raw table replaces the same-named core table, as `TransferOutcome` says; the raw store's committed state and log are unchanged |
| Steps.CreateDataMartByYear | dags/store.py:201-205 | the configured yearly query replaces `sales_by_year` in the mart store; the core store's committed state and log are unchanged |
| Steps.GetFurnitureSales | dags/store.py:254-258 | the mart query for `Furniture` replaces `sub_category_sales`; the core store's committed state and log are unchanged |
| Steps.GetOfficeSuppSales | dags/store.py:261-267 | the mart query for `Office Supplies` replaces `sub_category_sales`; the core store's committed state and log are unchanged |
| Steps.GetTechnologySales | dags/store.py:270-274 | the mart query for `Technology` replaces `sub_category_sales`; the core store's committed state and log are unchanged |
| Steps.LoadRawData | dags/store.py:134-147 | an empty file fails with the store's committed state and log unchanged. Otherwise the outcome is `ReloadOutcome` of the CSV's headers and rows, and on success the raw table holds exactly the data rows |
| Steps.GetRandomCategory | dags/store.py:208-216 | a category exactly when the category query (`Sql.CategoryQuery`, the text of lines 212-214) answers with a non-empty first row; it is the first value of that row |
| Steps.Reverse | dags/store.py:175 | `[::-1]`: same length, the i-th element from the back |
| Steps.ReverseSameElements | dags/store.py:175 | reversing the keys neither adds nor drops a table |
| Steps.LoadEach | dags/store.py:178-181 | the loading loop on the committed state: select on the current state, load the answer, stop at the first failure; a definition, stated by `Steps.LoadEachSpec` and `Steps.LoadEachContents` |
| Steps.CoreLoadRun | dags/store.py:165-183 | load_core_data on the committed state: clean the reversed keys, then `LoadEach`; a definition, stated by `Steps.CoreLoadOrder` and `Steps.CoreLoadContents` |
| Steps.LoadEventsTargets | dags/store.py:110-120 | one load deletes only when the target is the raw table, and sends its INSERT batch unless that DELETE raised |
| Steps.LoadEventsInsert | dags/store.py:115-120 | the only INSERT batch of a load goes into its target, with the load's headers and rows |
| Steps.LoadEachPrefix | dags/store.py:178-181 | whatever the outcome, the INSERT batches go into a prefix of the mapping's tables in declaration order, because the loop stops at the first failure |
| Steps.LoadEachSpec | dags/store.py:178-181 | on any outcome, the tables the loading loop sends INSERT batches into are a prefix of the mapping's keys, in declaration order; a successful loop inserts into all of them. It deletes only the raw table. It keeps the set of tables and leaves tables outside the mapping unchanged |
| Steps.LoadEachContents | dags/store.py:178-181 | from empty tables with distinct names, a successful loop leaves each table holding exactly the rows of the batch inserted into it |
| Steps.LoadEachTable | dags/store.py:178-181 | the loop's outcome, the committed state and the statements sent are those of `LoadEach` |
| Steps.LoadCoreData | dags/store.py:165-183 | the outcome, the committed state and the statements sent are those of `CoreLoadRun` |
| Steps.CleanedKeysEmpty | dags/store.py:173-176 | after a successful clean of the reversed keys every mapped table exists and is empty |
| Steps.CoreLoadOrder | dags/store.py:165-183 | a rejected DELETE fails the run with nothing committed, and a missing mapped table always does. Otherwise the statements start with one DELETE per table in reverse declaration order, then a COMMIT. Once the clean has committed, the INSERT batches go into a prefix of the tables in declaration order, and a successful run inserts into every one of them. Tables outside the mapping keep their rows |
| Steps.CoreLoadContents | dags/store.py:165-183 | a successful run on distinct table names leaves every filled table holding exactly the rows its query returned |
| Steps.LoadEachLeaves | dags/store.py:178-181 | from emptied distinct tables, whether the loop succeeds or fails, each mapped table is empty or holds exactly the rows of a batch the run inserted into it |
| Steps.CoreLoadLeaves | dags/store.py:165-183 | once the clean has committed, on distinct names and whether the loads succeed or fail, each mapped table is empty or holds exactly the rows of a batch the run inserted into it; nothing restores the deleted rows |
| Steps.TwoTableOrder | dags/store.py:173-181 | for a mapping [t1, t2] whose DELETEs are accepted in the clean's order (t2, then t1 on the state with t2 emptied), the clean deletes t2 then t1 and commits before any load; a successful run inserts into t1 then t2 |
| Steps.ReverseCleanRespectsReference | dags/store.py:173-176 | when the later-declared table references the earlier one, the reversed clean succeeds and a clean in declaration order fails |

## Left out

- `download_csv` (`dags/store.py:25-45`): HTTP calls and a file write. `check_file_at_path` takes the file-system probe as a boolean input.
- `get_connect` (`dags/store.py:56-65`): connection setup. Each connection is an `Open` of a session on a `Store`.
- `Variable.get` (`dags/store.py:20-22`, 111, 142, 169, 204): the raw table name, the core mapping and the yearly query are parameters. The mapping is an ordered sequence of pairs; `json.loads` is not modelled.
- SQL evaluation: the joins, filters and aggregates of the queries, the `Segment = 'Corporate'` clause and `TO_DATE` in `change_date_format` are not modelled. `Store.engine`, `Store.deletable` and `Store.admits` stand for Postgres. How `INSERT` maps headers to columns is part of `admits`.
- A table's rows change only through the pipeline's own statements. Cascading deletes and triggers that would change other tables are not modelled.
- Steps.GetRandomCategory: `ORDER BY random()` is left to the engine, and the XCom push that passes the result to the branch is not modelled.
- Steps.ReadCsv: `csv.reader` tokenising is not modelled. The file is given as its sequence of records.
- Sql.InsertSqlParameterCount: the count is proved only for names without `%`. psycopg2 would read a `%` inside a table or column name as a parameter marker, and the model says nothing about that case.
- Db.Store.CleanTable: when a DELETE raises, the psycopg2 session stays in its aborted transaction until the connection is dropped. The model keeps the committed state and does not model the aborted session.
- Statements are logged as values (`Db.Event`). `Event.Text` gives their SQL. Parameter binding by `executemany` is not modelled.
- Steps.LoadCoreData: the mapping is a sequence of pairs, which may repeat a table name where the keys of a JSON object cannot. `Steps.LoadEachContents`, `Steps.LoadEachLeaves`, `Steps.CoreLoadContents` and `Steps.CoreLoadLeaves` therefore require distinct names.
- Table names are compared as written text. The statements put names unquoted into SQL (`dags/store.py:86`, 112, 116), and Postgres folds unquoted names to lower case and resolves `schema.table`. So keys such as `Product` and `product` are distinct here but name one table there: that table would be cleared twice and its second batch appended to the first. `Distinct` in the contents lemmas means distinct Postgres names, not merely distinct keys.
- COMMIT is assumed to succeed. `connection.commit()` (`dags/store.py:88`, 123) can raise, for example on a deferred constraint; the rollback and re-raise at `dags/store.py:127-131`, and the propagated error at :88, are not modelled for that case.
- DAG wiring (`dags/store.py:280-416`): operators, `TriggerRule.ONE_SUCCESS`, retries and scheduling are not modelled. Exceptions are modelled as `ok == false` from the step that raises.
- Connections to two distinct stores are assumed to be distinct objects (`requires src != dst`).
