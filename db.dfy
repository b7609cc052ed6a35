/**
 * An abstract Postgres store as the DAG's helpers see it through a psycopg2
 * connection: named tables of rows, the state of the open session (with its
 * uncommitted changes), the last committed state, and the log of statements
 * the session sent. SELECT queries are evaluated by an opaque engine and row
 * constraints (column types, keys) by an opaque predicate: only what the
 * Python code does with their outcomes is modelled.
 */
module Db {
  import opened Wrappers
  import Sql

  /** A record as a positional tuple of column values. */
  type Row = seq<string>

  type Tables = map<string, seq<Row>>

  /** What a SELECT returns: `cursor.description` names and `fetchall()` rows. */
  datatype Answer = Answer(columns: seq<string>, rows: seq<Row>)

  /** The statements a session sends, in order. */
  datatype Event =
    | Delete(table: string)
    | InsertMany(table: string, headers: seq<string>, rows: seq<Row>)
    | Commit
    | Rollback
  {
    /** The statement text: what `cursor.execute`, `cursor.executemany`, `commit` and `rollback` send. */
    function Text(): string
    {
      match this
      case Delete(table) => Sql.DeleteSql(table)
      case InsertMany(table, headers, _) => Sql.InsertSql(table, headers)
      case Commit => "COMMIT"
      case Rollback => "ROLLBACK"
    }
  }

  /** `cursor.execute(f"DELETE FROM {t};")` for each name, in order. */
  function Deletes(names: seq<string>): (events: seq<Event>)
    ensures |events| == |names|
    ensures forall i :: 0 <= i < |names| ==> events[i] == Delete(names[i])
  {
    seq(|names|, i requires 0 <= i < |names| => Delete(names[i]))
  }

  lemma AppendAssoc<T>(a: seq<T>, b: seq<T>, c: seq<T>)
    ensures (a + b) + c == a + (b + c)
  {
  }

  /** The tables that the DELETE statements of a log clear, in order. */
  function Deleted(events: seq<Event>): seq<string>
  {
    if events == [] then []
    else (if events[0].Delete? then [events[0].table] else []) + Deleted(events[1..])
  }

  /** The tables that the INSERT batches of a log fill, in order. */
  function Inserted(events: seq<Event>): seq<string>
  {
    if events == [] then []
    else (if events[0].InsertMany? then [events[0].table] else []) + Inserted(events[1..])
  }

  lemma {:induction false} TargetsAppend(a: seq<Event>, b: seq<Event>)
    ensures Deleted(a + b) == Deleted(a) + Deleted(b)
    ensures Inserted(a + b) == Inserted(a) + Inserted(b)
  {
    if a == [] {
      assert a + b == b;
    } else {
      assert (a + b)[1..] == a[1..] + b;
      TargetsAppend(a[1..], b);
    }
  }

  lemma {:induction false} DeletesTargets(names: seq<string>)
    ensures Deleted(Deletes(names)) == names
    ensures Inserted(Deletes(names)) == []
  {
    if names != [] {
      assert Deletes(names)[1..] == Deletes(names[1..]);
      DeletesTargets(names[1..]);
    }
  }

  predicate AllExist(m: Tables, names: seq<string>)
  {
    forall i :: 0 <= i < |names| ==> names[i] in m
  }

  /**
   * Whether Postgres accepts `DELETE FROM t` on the state m: for instance,
   * a foreign key of another table that still references rows of t makes
   * it raise.
   */
  type Deletable = (Tables, string) -> bool

  /**
   * Whether Postgres accepts one row of an INSERT into a table under the
   * given column names, on the state that holds the rows inserted so far
   * (column types, unique and foreign keys).
   */
  type Admits = (Tables, string, seq<string>, Row) -> bool

  /** `DELETE FROM t` succeeds: the table exists and Postgres accepts the delete. */
  predicate CanDelete(deletable: Deletable, m: Tables, t: string)
  {
    t in m && deletable(m, t)
  }

  /** m with every listed table emptied. */
  function Cleared(m: Tables, names: seq<string>): (r: Tables)
    ensures r.Keys == m.Keys
    ensures forall t :: t in m ==> r[t] == if t in names then [] else m[t]
  {
    map t | t in m :: if t in names then [] else m[t]
  }

  /** What a sequence of statements leaves behind: success, the session's tables, the statements sent. */
  datatype Run = Run(ok: bool, tables: Tables, events: seq<Event>)

  /**
   * clean_table on the session state m, one name at a time: a DELETE per
   * name; the first DELETE that raises ends the run; once every DELETE
   * succeeded, one COMMIT.
   */
  function CleanRun(m: Tables, deletable: Deletable, names: seq<string>): Run
  {
    if names == [] then Run(true, m, [Commit])
    else if !CanDelete(deletable, m, names[0]) then Run(false, m, [Delete(names[0])])
    else
      var rest := CleanRun(m[names[0] := []], deletable, names[1..]);
      Run(rest.ok, rest.tables, [Delete(names[0])] + rest.events)
  }

  /** The tables cleared before the (i+1)-th DELETE, seen from the state after the first one. */
  lemma ClearedStep(m: Tables, names: seq<string>, i: int)
    requires names != [] && names[0] in m && 1 <= i <= |names|
    ensures Cleared(m[names[0] := []], names[1..][..i - 1]) == Cleared(m, names[..i])
  {
    assert names[..i] == [names[0]] + names[1..][..i - 1];
  }

  /** clean_table succeeds exactly when each DELETE, in list order, is accepted on the state the earlier DELETEs left. */
  lemma {:induction false} CleanRunAccepted(m: Tables, deletable: Deletable, names: seq<string>)
    ensures CleanRun(m, deletable, names).ok <==>
      forall i :: 0 <= i < |names| ==> CanDelete(deletable, Cleared(m, names[..i]), names[i])
  {
    if names != [] {
      assert names[..0] == [];
      assert Cleared(m, names[..0]) == m;
      if CanDelete(deletable, m, names[0]) {
        var m' := m[names[0] := []];
        CleanRunAccepted(m', deletable, names[1..]);
        forall i | 1 <= i < |names|
          ensures CanDelete(deletable, Cleared(m, names[..i]), names[i])
              == CanDelete(deletable, Cleared(m', names[1..][..i - 1]), names[1..][i - 1])
        {
          ClearedStep(m, names, i);
        }
      }
    }
  }

  /** What a successful clean sends; a failed one sends no COMMIT. */
  lemma {:induction false} CleanRunEvents(m: Tables, deletable: Deletable, names: seq<string>)
    ensures CleanRun(m, deletable, names).ok ==> CleanRun(m, deletable, names).events == Deletes(names) + [Commit]
    ensures !CleanRun(m, deletable, names).ok ==> Commit !in CleanRun(m, deletable, names).events
  {
    if names != [] && CanDelete(deletable, m, names[0]) {
      CleanRunEvents(m[names[0] := []], deletable, names[1..]);
      assert Deletes(names) == [Delete(names[0])] + Deletes(names[1..]);
    }
  }

  /** A successful clean empties exactly the listed tables. */
  lemma {:induction false} CleanRunTables(m: Tables, deletable: Deletable, names: seq<string>)
    ensures CleanRun(m, deletable, names).ok ==> CleanRun(m, deletable, names).tables == Cleared(m, names)
  {
    if names == [] {
      assert Cleared(m, names) == m;
    } else if CanDelete(deletable, m, names[0]) {
      var m' := m[names[0] := []];
      CleanRunTables(m', deletable, names[1..]);
      ClearedStep(m, names, |names|);
      assert names[1..][..|names| - 1] == names[1..];
      assert names[..|names|] == names;
    }
  }

  /**
   * clean_table succeeds exactly when each DELETE, in list order, is
   * accepted on the state the earlier DELETEs left; in particular every
   * listed table exists. It then has sent one DELETE per name in list order
   * and a single COMMIT, the listed tables are empty and every other table
   * is unchanged. When it fails, no COMMIT was sent.
   */
  lemma CleanRunSpec(m: Tables, deletable: Deletable, names: seq<string>)
    ensures CleanRun(m, deletable, names).ok <==>
      forall i :: 0 <= i < |names| ==> CanDelete(deletable, Cleared(m, names[..i]), names[i])
    ensures CleanRun(m, deletable, names).ok ==> AllExist(m, names)
    ensures CleanRun(m, deletable, names).ok ==> CleanRun(m, deletable, names).events == Deletes(names) + [Commit]
    ensures CleanRun(m, deletable, names).ok ==> CleanRun(m, deletable, names).tables == Cleared(m, names)
    ensures !CleanRun(m, deletable, names).ok ==> Commit !in CleanRun(m, deletable, names).events
  {
    CleanRunAccepted(m, deletable, names);
    CleanRunEvents(m, deletable, names);
    CleanRunTables(m, deletable, names);
  }

  /** Clearing one table: it alone becomes empty when the DELETE is accepted. */
  lemma CleanOne(m: Tables, deletable: Deletable, table: string)
    ensures CleanRun(m, deletable, [table]).ok == CanDelete(deletable, m, table)
    ensures CanDelete(deletable, m, table) ==> CleanRun(m, deletable, [table]).tables == m[table := []]
    ensures !CanDelete(deletable, m, table) ==> CleanRun(m, deletable, [table]).tables == m
  {
    assert [table][1..] == [];
  }

  /** Whether Postgres accepts one row of an INSERT batch, on the state m. */
  predicate RowFits(admits: Admits, m: Tables, table: string, headers: seq<string>, row: Row)
  {
    |row| == |headers| && admits(m, table, headers, row)
  }

  /**
   * `cursor.executemany`: the rows are inserted one statement at a time and
   * the first one that fails ends the batch. An empty batch sends nothing.
   */
  function InsertAll(m: Tables, admits: Admits, table: string, headers: seq<string>, rows: seq<Row>): Option<Tables>
    decreases |rows|
  {
    if rows == [] then Some(m)
    else if table in m && RowFits(admits, m, table, headers, rows[0]) then
      InsertAll(m[table := m[table] + [rows[0]]], admits, table, headers, rows[1..])
    else None
  }

  /** Every row of the batch fits the state that holds the rows before it. */
  predicate BatchFits(admits: Admits, m: Tables, table: string, headers: seq<string>, rows: seq<Row>)
    requires table in m
  {
    forall i :: 0 <= i < |rows| ==> RowFits(admits, m[table := m[table] + rows[..i]], table, headers, rows[i])
  }

  /** The states the rows after the first are checked on, seen from the state after the first row. */
  lemma BatchStep(m: Tables, table: string, rows: seq<Row>, i: int)
    requires table in m && rows != [] && 1 <= i <= |rows|
    ensures var next := m[table := m[table] + [rows[0]]];
            next[table := next[table] + rows[1..][..i - 1]] == m[table := m[table] + rows[..i]]
  {
    assert rows[..i] == [rows[0]] + rows[1..][..i - 1];
    assert m[table] + [rows[0]] + rows[1..][..i - 1] == m[table] + rows[..i];
  }

  lemma {:induction false} InsertAllOutcome(m: Tables, admits: Admits, table: string, headers: seq<string>, rows: seq<Row>)
    ensures InsertAll(m, admits, table, headers, rows).Some?
        <==> rows == [] || (table in m && BatchFits(admits, m, table, headers, rows))
    ensures InsertAll(m, admits, table, headers, rows).Some? ==>
        InsertAll(m, admits, table, headers, rows).value == if rows == [] then m else m[table := m[table] + rows]
    decreases |rows|
  {
    if rows != [] && table in m {
      assert m[table := m[table] + rows[..0]] == m by {
        assert m[table] + rows[..0] == m[table];
      }
      if RowFits(admits, m, table, headers, rows[0]) {
        var next := m[table := m[table] + [rows[0]]];
        InsertAllOutcome(next, admits, table, headers, rows[1..]);
        forall i | 1 <= i < |rows|
          ensures RowFits(admits, m[table := m[table] + rows[..i]], table, headers, rows[i])
              == RowFits(admits, next[table := next[table] + rows[1..][..i - 1]], table, headers, rows[1..][i - 1])
        {
          BatchStep(m, table, rows, i);
        }
        if rows[1..] == [] {
          assert rows == [rows[0]];
        } else {
          assert m[table] + [rows[0]] + rows[1..] == m[table] + rows;
          assert next[table := next[table] + rows[1..]] == m[table := m[table] + rows];
        }
      }
    }
  }

  /** The state the INSERT batch of a load starts from: the raw table is emptied first. */
  function LoadStart(m: Tables, raw: string, table: string): Tables
  {
    if table == raw && table in m then m[table := []] else m
  }

  /**
   * load_data_by_psycopg2 on the session state m: a DELETE first only when
   * the target is the raw table, then the INSERT batch. None when a
   * statement fails (the caller rolls back).
   */
  function LoadOutcome(m: Tables, deletable: Deletable, admits: Admits, raw: string,
                       table: string, headers: seq<string>, rows: seq<Row>): Option<Tables>
  {
    if table == raw then
      if CanDelete(deletable, m, table) then InsertAll(m[table := []], admits, table, headers, rows) else None
    else
      InsertAll(m, admits, table, headers, rows)
  }

  /**
   * The load fails exactly when the DELETE of the raw table raises, or when
   * there are rows and the table is missing or a row is rejected. On
   * success the target holds its prior rows followed by the new ones, or
   * only the new ones for the raw table, and no other table changes.
   */
  lemma LoadOutcomeSpec(m: Tables, deletable: Deletable, admits: Admits, raw: string,
                        table: string, headers: seq<string>, rows: seq<Row>)
    ensures LoadOutcome(m, deletable, admits, raw, table, headers, rows).Some? <==>
      (table == raw ==> CanDelete(deletable, m, table)) &&
      (rows == [] || (table in m && BatchFits(admits, LoadStart(m, raw, table), table, headers, rows)))
    ensures LoadOutcome(m, deletable, admits, raw, table, headers, rows).Some? ==>
      LoadOutcome(m, deletable, admits, raw, table, headers, rows).value.Keys == m.Keys
    ensures LoadOutcome(m, deletable, admits, raw, table, headers, rows).Some? ==>
      forall t :: t in m && t != table ==> LoadOutcome(m, deletable, admits, raw, table, headers, rows).value[t] == m[t]
    ensures LoadOutcome(m, deletable, admits, raw, table, headers, rows).Some? && table in m ==>
      LoadOutcome(m, deletable, admits, raw, table, headers, rows).value[table] == if table == raw then rows else m[table] + rows
  {
    if table == raw {
      if table in m {
        InsertAllOutcome(m[table := []], admits, table, headers, rows);
        assert [] + rows == rows;
      }
    } else {
      InsertAllOutcome(m, admits, table, headers, rows);
    }
  }

  /**
   * The statements load_data_by_psycopg2 sends, ending in COMMIT or
   * ROLLBACK. The INSERT event stands for the `executemany` call, which
   * sends one statement per row and none for an empty batch.
   */
  function LoadEvents(m: Tables, deletable: Deletable, raw: string, table: string, headers: seq<string>,
                      rows: seq<Row>, ok: bool): seq<Event>
  {
    (if table == raw then [Delete(table)] else [])
    + (if table == raw && !CanDelete(deletable, m, table) then [] else [InsertMany(table, headers, rows)])
    + [if ok then Commit else Rollback]
  }

  /** `select_data`: the rows of the answer, with the column names quoted. */
  function SelectData(engine: (string, Tables) -> Option<Answer>, m: Tables, query: string)
    : (r: Option<(seq<string>, seq<Row>)>)
    ensures r.Some? <==> engine(query, m).Some?
    ensures r.Some? ==> r.value.1 == engine(query, m).value.rows
    ensures r.Some? ==> |r.value.0| == |engine(query, m).value.columns|
    ensures r.Some? ==> forall i :: 0 <= i < |r.value.0| ==>
      Sql.Unquote(r.value.0[i]) == Some(engine(query, m).value.columns[i])
  {
    match engine(query, m)
    case None => None
    case Some(a) => Some((Sql.QuoteAll(a.columns), a.rows))
  }

  /** One Postgres database together with the one session the DAG opens on it at a time. */
  class Store {
    /** What the open session sees, its uncommitted changes included. */
    var tables: Tables
    /** The state as of the last COMMIT. */
    var committed: Tables
    /** Every statement the sessions sent, in order. */
    var log: seq<Event>
    /** Evaluates a SELECT against a state; None when Postgres raises. */
    const engine: (string, Tables) -> Option<Answer>
    /** Whether Postgres accepts a DELETE of a table on a state. */
    const deletable: Deletable
    /** Whether Postgres accepts a row for a table under given column names, on a state. */
    const admits: Admits

    constructor (initial: Tables, engine: (string, Tables) -> Option<Answer>, deletable: Deletable, admits: Admits)
      ensures tables == committed == initial && log == []
      ensures this.engine == engine && this.deletable == deletable && this.admits == admits
    {
      tables, committed, log := initial, initial, [];
      this.engine, this.deletable, this.admits := engine, deletable, admits;
    }

    /** get_connect: a fresh session starts from the committed state. */
    method Open()
      modifies this
      ensures tables == committed == old(committed) && log == old(log)
    {
      tables := committed;
    }

    /**
     * clean_table: one DELETE per listed table, in list order, then a single
     * COMMIT. A DELETE that raises ends it and nothing is committed.
     */
    method CleanTable(names: seq<string>) returns (ok: bool)
      modifies this
      ensures ok == CleanRun(old(tables), deletable, names).ok
      ensures ok ==> tables == committed == CleanRun(old(tables), deletable, names).tables
      ensures !ok ==> committed == old(committed)
      ensures log == old(log) + CleanRun(old(tables), deletable, names).events
    {
      ghost var m, log0 := tables, log;
      var i := 0;
      while i < |names|
        invariant 0 <= i <= |names|
        invariant CleanRun(tables, deletable, names[i..]).ok == CleanRun(m, deletable, names).ok
        invariant CleanRun(tables, deletable, names[i..]).tables == CleanRun(m, deletable, names).tables
        invariant log + CleanRun(tables, deletable, names[i..]).events == log0 + CleanRun(m, deletable, names).events
        invariant committed == old(committed)
      {
        var name := names[i];
        assert names[i..][1..] == names[i + 1..];
        log := log + [Delete(name)];
        if !CanDelete(deletable, tables, name) {
          return false;
        }
        tables := tables[name := []];
        i := i + 1;
      }
      committed := tables;
      log := log + [Commit];
      ok := true;
    }

    /**
     * load_data_by_psycopg2: on success the session and the committed state
     * are LoadOutcome of the session state; on any failure the session is
     * rolled back to the last commit and the caller sees the error.
     */
    method LoadData(table: string, headers: seq<string>, rows: seq<Row>, raw: string) returns (ok: bool)
      modifies this
      ensures ok == LoadOutcome(old(tables), deletable, admits, raw, table, headers, rows).Some?
      ensures ok ==> tables == committed == LoadOutcome(old(tables), deletable, admits, raw, table, headers, rows).value
      ensures !ok ==> tables == committed == old(committed)
      ensures log == old(log) + LoadEvents(old(tables), deletable, raw, table, headers, rows, ok)
    {
      if table == raw {
        log := log + [Delete(table)];
        if !CanDelete(deletable, tables, table) {
          tables := committed;
          log := log + [Rollback];
          return false;
        }
        tables := tables[table := []];
      }
      log := log + [InsertMany(table, headers, rows)];
      ghost var start := tables;
      var i := 0;
      while i < |rows|
        invariant 0 <= i <= |rows|
        invariant InsertAll(start, admits, table, headers, rows) == InsertAll(tables, admits, table, headers, rows[i..])
        invariant committed == old(committed)
        invariant log == old(log) + LoadEvents(old(tables), deletable, raw, table, headers, rows, true)[..|LoadEvents(old(tables), deletable, raw, table, headers, rows, true)| - 1]
      {
        assert rows[i..][1..] == rows[i + 1..];
        if !(table in tables && RowFits(admits, tables, table, headers, rows[i])) {
          tables := committed;
          log := log + [Rollback];
          return false;
        }
        tables := tables[table := tables[table] + [rows[i]]];
        i := i + 1;
      }
      committed := tables;
      log := log + [Commit];
      ok := true;
    }
  }
}
