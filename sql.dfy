/**
 * The SQL text that the DAG builds with f-strings: quoted column names, the
 * DELETE and INSERT statements, the raw-to-core migration query and the
 * sub-category mart query. Only the text is modelled; what Postgres does with
 * it is left to the store's query engine (module Db).
 */
module Sql {
  import opened Wrappers

  /** A column name wrapped in double quotes, as `f'"{i}"'` builds it. */
  function Quote(name: string): (q: string)
    ensures |q| == |name| + 2 && q[0] == '"' && q[|q| - 1] == '"'
    ensures Unquote(q) == Some(name)
  {
    var q := "\"" + name + "\"";
    assert q[1..|q| - 1] == name;
    q
  }

  /** The inverse of Quote: strips one pair of surrounding double quotes. */
  function Unquote(q: string): (name: Option<string>)
    ensures name.Some? <==> 2 <= |q| && q[0] == '"' && q[|q| - 1] == '"'
  {
    if 2 <= |q| && q[0] == '"' && q[|q| - 1] == '"' then Some(q[1..|q| - 1]) else None
  }

  /** The header-quoting comprehension of read_csv and select_data. */
  function QuoteAll(names: seq<string>): (quoted: seq<string>)
    ensures |quoted| == |names|
    ensures forall i :: 0 <= i < |names| ==> Unquote(quoted[i]) == Some(names[i])
  {
    seq(|names|, i requires 0 <= i < |names| => Quote(names[i]))
  }

  /** Python's `sep.join(parts)`. */
  function Join(parts: seq<string>, sep: string): string
  {
    if |parts| == 0 then ""
    else if |parts| == 1 then parts[0]
    else parts[0] + sep + Join(parts[1..], sep)
  }

  /** Python's `[s] * n`. */
  function Repeat(s: string, n: nat): (r: seq<string>)
    ensures |r| == n && forall i :: 0 <= i < n ==> r[i] == s
  {
    if n == 0 then [] else [s] + Repeat(s, n - 1)
  }

  /** `', '.join(['%s'] * n)`: the parameter list of the INSERT statement. */
  function Placeholders(n: nat): string
  {
    Join(Repeat("%s", n), ", ")
  }

  function DeleteSql(table: string): string
  {
    "DELETE FROM " + table + ";"
  }

  /** The statement handed to `executemany` by load_data_by_psycopg2. */
  function InsertSql(table: string, headers: seq<string>): string
  {
    "INSERT INTO " + table + " (" + Join(headers, ", ") + ") VALUES (" + Placeholders(|headers|) + ");"
  }

  /** The query of migrate_data: the raw table restricted to the Corporate segment. */
  function MigrateQuery(table: string): string
  {
    "SELECT * FROM " + table + " AS rs WHERE rs.\"Segment\" = 'Corporate';"
  }

  /** The query of get_random_category. */
  const CategoryQuery: string :=
    "\n        SELECT category_name FROM category ORDER BY random() LIMIT 1;\n    "

  /** The text of query_dm_template up to the category name ... */
  const MartHead: string :=
    "\n        SELECT sc.sub_category_title, SUM(sum_of_sale) AS total_sales_in_2015\n"
    + "        FROM sales_store AS ss\n"
    + "            JOIN product AS p ON ss.product_id = p.product_id\n"
    + "            JOIN sub_category AS sc ON p.sub_category_id = sc.sub_category_id\n"
    + "            JOIN category AS c ON sc.category_id = c.category_id\n"
    + "            JOIN customer AS cs ON cs.customer_id = ss.customer_id\n"
    + "            JOIN segment AS s ON s.segment_id = cs.segment_id\n"
    + "            JOIN order_store AS os ON os.order_id = ss.order_id\n"
    + "            JOIN date_conversion AS dc ON dc.date_id = os.date_id\n"
    + "        WHERE s.segment_title = 'Corporate' AND dc.\"year\" = 2015\n"
    + "                                            AND c.category_name = '"

  /** ... and after it. */
  const MartTail: string :=
    "'\n"
    + "        GROUP BY sc.sub_category_title\n"
    + "        ORDER BY sc.sub_category_title;\n    "

  /** Reads the category back out of a mart query; None for any other text. */
  function CategoryOf(query: string): Option<string>
  {
    if |MartHead| + |MartTail| <= |query|
       && query[..|MartHead|] == MartHead
       && query[|query| - |MartTail|..] == MartTail
    then Some(query[|MartHead|..|query| - |MartTail|])
    else None
  }

  /**
   * query_dm_template: the category name is the only part of the query that
   * varies, so it can be read back and two categories never share a query.
   */
  function MartQuery(category: string): (query: string)
    ensures CategoryOf(query) == Some(category)
  {
    var query := MartHead + category + MartTail;
    assert query[..|MartHead|] == MartHead;
    assert query[|query| - |MartTail|..] == MartTail;
    assert query[|MartHead|..|query| - |MartTail|] == category;
    query
  }

  lemma MartQueryInjective(a: string, b: string)
    ensures MartQuery(a) == MartQuery(b) <==> a == b
  {
    if MartQuery(a) == MartQuery(b) {
      assert Some(a) == CategoryOf(MartQuery(a)) == CategoryOf(MartQuery(b)) == Some(b);
    }
  }

  /** The number of occurrences of the character c in s. */
  function Count(s: string, c: char): nat
  {
    if s == [] then 0 else (if s[0] == c then 1 else 0) + Count(s[1..], c)
  }

  lemma {:induction false} CountAppend(a: string, b: string, c: char)
    ensures Count(a + b, c) == Count(a, c) + Count(b, c)
  {
    if a == [] {
      assert a + b == b;
    } else {
      assert (a + b)[1..] == a[1..] + b;
      CountAppend(a[1..], b, c);
    }
  }

  /** No character of s is c. */
  predicate Lacks(s: string, c: char)
  {
    forall i :: 0 <= i < |s| ==> s[i] != c
  }

  lemma {:induction false} CountAbsent(s: string, c: char)
    requires Lacks(s, c)
    ensures Count(s, c) == 0
  {
    if s != [] {
      CountAbsent(s[1..], c);
    }
  }

  lemma LacksAppend(a: string, b: string, c: char)
    requires Lacks(a, c) && Lacks(b, c)
    ensures Lacks(a + b, c)
  {
    forall i | 0 <= i < |a + b| ensures (a + b)[i] != c {
      if i >= |a| { assert (a + b)[i] == b[i - |a|]; }
    }
  }

  /**
   * The placeholder list is "%s", ", ", "%s", ... : every character sits at
   * its place in the repeating pattern "%s, ", and it holds n tokens.
   */
  lemma {:induction false} PlaceholdersShape(n: nat)
    ensures |Placeholders(n)| == if n == 0 then 0 else 4 * n - 2
    ensures forall k :: 0 <= k < |Placeholders(n)| ==> Placeholders(n)[k] == "%s, "[k % 4]
    ensures Count(Placeholders(n), '%') == n
  {
    if n > 1 {
      PlaceholdersShape(n - 1);
      var rest := Placeholders(n - 1);
      assert Repeat("%s", n)[1..] == Repeat("%s", n - 1);
      assert Placeholders(n) == "%s, " + rest;
      CountAppend("%s, ", rest, '%');
      assert Count("%s, ", '%') == 1;
      forall k | 4 <= k < |Placeholders(n)|
        ensures Placeholders(n)[k] == "%s, "[k % 4]
      {
        assert Placeholders(n)[k] == rest[k - 4];
      }
    } else if n == 1 {
      assert Placeholders(1) == "%s";
      assert Count("%s", '%') == 1;
    }
  }

  lemma {:induction false} JoinLacks(parts: seq<string>, sep: string, c: char)
    requires Lacks(sep, c)
    requires forall j :: 0 <= j < |parts| ==> Lacks(parts[j], c)
    ensures Lacks(Join(parts, sep), c)
  {
    if |parts| > 1 {
      JoinLacks(parts[1..], sep, c);
      LacksAppend(parts[0], sep, c);
      LacksAppend(parts[0] + sep, Join(parts[1..], sep), c);
    }
  }

  /**
   * When neither the table name nor a header holds a '%', the INSERT
   * statement carries exactly one "%s" per header (and no other '%').
   */
  lemma InsertSqlParameterCount(table: string, headers: seq<string>)
    requires Lacks(table, '%')
    requires forall j :: 0 <= j < |headers| ==> Lacks(headers[j], '%')
    ensures Count(InsertSql(table, headers), '%') == |headers|
  {
    var n := |headers|;
    var joined := Join(headers, ", ");
    assert Lacks(", ", '%');
    JoinLacks(headers, ", ", '%');
    assert Lacks("INSERT INTO ", '%') && Lacks(" (", '%') && Lacks(") VALUES (", '%') && Lacks(");", '%');
    LacksAppend("INSERT INTO ", table, '%');
    LacksAppend("INSERT INTO " + table, " (", '%');
    LacksAppend("INSERT INTO " + table + " (", joined, '%');
    var front := "INSERT INTO " + table + " (" + joined;
    LacksAppend(front, ") VALUES (", '%');
    var d := front + ") VALUES (";
    CountAbsent(d, '%');
    PlaceholdersShape(n);
    CountAppend(d, Placeholders(n), '%');
    CountAbsent(");", '%');
    CountAppend(d + Placeholders(n), ");", '%');
    assert InsertSql(table, headers) == d + Placeholders(n) + ");";
  }
}
