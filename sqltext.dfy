/** The SQL text the database client builds from a table schema
    (dgfx8.createTable, dgfx8.insertMultipleRecords and
    dgfx8.deleteRecordByCheckbox): one fragment per column, in schema order,
    with a separator between neighbouring fragments only. */
module SqlText {

  /** One entry of the ordered schema map: a column name and its SQL type. */
  datatype Column = Column(name: string, sqlType: string)

  /** The fragments joined with sep between each neighbouring pair. */
  function Join(parts: seq<string>, sep: string): (r: string)
    ensures |parts| > 0 ==> parts[0] <= r
  {
    if |parts| == 0 then ""
    else if |parts| == 1 then parts[0]
    else Join(parts[..|parts| - 1], sep) + sep + parts[|parts| - 1]
  }

  /** Where the k-th fragment starts in Join(parts, sep), each fragment
      before it being followed by one separator. */
  function Offset(parts: seq<string>, sep: string, k: nat): nat
    requires k <= |parts|
  {
    if k == 0 then 0 else Offset(parts, sep, k - 1) + |parts[k - 1]| + |sep|
  }

  function Names(schema: seq<Column>): (r: seq<string>)
    ensures |r| == |schema| && forall k :: 0 <= k < |schema| ==> r[k] == schema[k].name
  {
    seq(|schema|, k requires 0 <= k < |schema| => schema[k].name)
  }

  /** The "name type" fragments of CREATE TABLE. */
  function Definitions(schema: seq<Column>): (r: seq<string>)
    ensures |r| == |schema| && forall k :: 0 <= k < |schema| ==> r[k] == schema[k].name + " " + schema[k].sqlType
  {
    seq(|schema|, k requires 0 <= k < |schema| => schema[k].name + " " + schema[k].sqlType)
  }

  /** n JDBC parameter markers. */
  function Placeholders(n: nat): (r: seq<string>)
    ensures |r| == n && forall k :: 0 <= k < n ==> r[k] == "?"
  {
    seq(n, _ => "?")
  }

  /** The "col = ?" fragments of the checkbox DELETE. */
  function Conditions(columns: seq<string>): (r: seq<string>)
    ensures |r| == |columns| && forall k :: 0 <= k < |columns| ==> r[k] == columns[k] + " = ?"
  {
    seq(|columns|, k requires 0 <= k < |columns| => columns[k] + " = ?")
  }

  // ---------------------------------------------------------------------------
  // The StringBuilder loops

  /** The statement text of dgfx8.createTable. */
  method CreateTableSql(tableName: string, schema: seq<Column>) returns (sql: string)
    ensures sql == "CREATE TABLE " + tableName + " (" + Join(Definitions(schema), ", ") + ")"
  {
    var prefix := "CREATE TABLE " + tableName + " (";
    sql := prefix;
    var firstField := true;
    var i := 0;
    while i < |schema|
      invariant i <= |schema|
      invariant firstField <==> i == 0
      invariant sql == prefix + Join(Definitions(schema)[..i], ", ")
    {
      JoinStepAfter(prefix, Definitions(schema), i, ", ");
      if !firstField {
        sql := sql + ", ";
      }
      sql := sql + schema[i].name + " " + schema[i].sqlType;
      firstField := false;
      i := i + 1;
    }
    assert Definitions(schema)[..i] == Definitions(schema);
    sql := sql + ")";
  }

  /** The statement text of dgfx8.insertMultipleRecords: the column list and
      the parameter list are built side by side. */
  method InsertSql(tableName: string, schema: seq<Column>) returns (sql: string)
    ensures sql == "INSERT INTO " + tableName + " (" + Join(Names(schema), ", ") + ")"
                   + " VALUES (" + Join(Placeholders(|schema|), ", ") + ")"
  {
    var prefix := "INSERT INTO " + tableName + " (";
    sql := prefix;
    var values := " VALUES (";
    var firstField := true;
    var i := 0;
    while i < |schema|
      invariant i <= |schema|
      invariant firstField <==> i == 0
      invariant sql == prefix + Join(Names(schema)[..i], ", ")
      invariant values == " VALUES (" + Join(Placeholders(|schema|)[..i], ", ")
    {
      JoinStepAfter(prefix, Names(schema), i, ", ");
      JoinStepAfter(" VALUES (", Placeholders(|schema|), i, ", ");
      if !firstField {
        sql := sql + ", ";
        values := values + ", ";
      }
      sql := sql + schema[i].name;
      values := values + "?";
      firstField := false;
      i := i + 1;
    }
    assert Names(schema)[..i] == Names(schema);
    assert Placeholders(|schema|)[..i] == Placeholders(|schema|);
    sql := sql + ")";
    values := values + ")";
    sql := sql + values;
  }

  /** The statement text of dgfx8.deleteRecordByCheckbox: a separator is
      written whenever the clause built so far is not empty. */
  method DeleteSql(tableName: string, columns: seq<string>) returns (sql: string)
    ensures sql == "DELETE FROM " + tableName + " WHERE " + Join(Conditions(columns), " AND ")
  {
    var whereClause := "";
    var i := 0;
    while i < |columns|
      invariant i <= |columns|
      invariant whereClause == Join(Conditions(columns)[..i], " AND ")
      invariant |whereClause| > 0 <==> i > 0
    {
      JoinStep(Conditions(columns), i, " AND ");
      if |whereClause| > 0 {
        whereClause := whereClause + " AND ";
      }
      whereClause := whereClause + columns[i] + " = ?";
      i := i + 1;
    }
    assert Conditions(columns)[..i] == Conditions(columns);
    sql := "DELETE FROM " + tableName + " WHERE " + whereClause;
  }

  // ---------------------------------------------------------------------------
  // Properties of Join

  /** Joining one fragment more. */
  lemma JoinStep(parts: seq<string>, i: nat, sep: string)
    requires i < |parts|
    ensures Join(parts[..i + 1], sep) == if i == 0 then parts[0] else Join(parts[..i], sep) + sep + parts[i]
  {
    assert parts[..i + 1][..i] == parts[..i];
  }

  /** JoinStep behind a fixed prefix, as a StringBuilder appends it. */
  lemma JoinStepAfter(prefix: string, parts: seq<string>, i: nat, sep: string)
    requires i < |parts|
    ensures prefix + Join(parts[..i + 1], sep)
            == if i == 0 then prefix + parts[0] else prefix + Join(parts[..i], sep) + sep + parts[i]
  {
    JoinStep(parts, i, sep);
    if i > 0 {
      assert prefix + (Join(parts[..i], sep) + sep + parts[i]) == prefix + Join(parts[..i], sep) + sep + parts[i];
    }
  }

  lemma {:induction false} OffsetPrefix(parts: seq<string>, sep: string, n: nat, k: nat)
    requires k <= n <= |parts|
    ensures Offset(parts[..n], sep, k) == Offset(parts, sep, k)
  {
    if k > 0 {
      OffsetPrefix(parts, sep, n, k - 1);
    }
  }

  /** Each fragment is followed by a separator in the offsets, so fragment k
      ends at least a separator before the end of the last one. */
  lemma {:induction false} OffsetBound(parts: seq<string>, sep: string, j: nat, k: nat)
    requires j < k <= |parts|
    ensures Offset(parts, sep, j) + |parts[j]| + |sep| <= Offset(parts, sep, k)
  {
    if j < k - 1 {
      OffsetBound(parts, sep, j, k - 1);
    }
  }

  lemma {:induction false} JoinLength(parts: seq<string>, sep: string)
    requires parts != []
    ensures |Join(parts, sep)| + |sep| == Offset(parts, sep, |parts|)
  {
    var n := |parts|;
    if n > 1 {
      JoinLength(parts[..n - 1], sep);
      OffsetPrefix(parts, sep, n - 1, n - 1);
    }
  }

  /** The text joined from the first i + 1 fragments, followed by one
      separator, starts the text joined from all of them. */
  lemma {:induction false} JoinPrefix(parts: seq<string>, sep: string, i: nat)
    requires i + 1 < |parts|
    ensures Join(parts[..i + 1], sep) + sep <= Join(parts, sep)
    decreases |parts|
  {
    var n := |parts|;
    var init := parts[..n - 1];
    assert Join(parts, sep) == Join(init, sep) + sep + parts[n - 1];
    if i + 1 < n - 1 {
      JoinPrefix(init, sep, i);
      assert init[..i + 1] == parts[..i + 1];
    } else {
      assert parts[..i + 1] == init;
    }
  }

  /** The last fragment ends the joined text. */
  lemma JoinLast(parts: seq<string>, sep: string)
    requires parts != []
    ensures |Join(parts, sep)| + |sep| == Offset(parts, sep, |parts|)
    ensures Join(parts, sep)[Offset(parts, sep, |parts| - 1)..] == parts[|parts| - 1]
  {
    var n := |parts|;
    JoinLength(parts, sep);
    if n > 1 {
      var j0 := Join(parts[..n - 1], sep);
      JoinLength(parts[..n - 1], sep);
      OffsetPrefix(parts, sep, n - 1, n - 1);
      assert Join(parts, sep) == (j0 + sep) + parts[n - 1];
      assert Offset(parts, sep, n - 1) == |j0 + sep|;
    }
  }

  /** Fragment k sits at Offset(parts, sep, k). */
  lemma JoinFragment(parts: seq<string>, sep: string, k: nat)
    requires k < |parts|
    ensures Offset(parts, sep, k) + |parts[k]| + |sep| <= Offset(parts, sep, |parts|)
    ensures |Join(parts, sep)| + |sep| == Offset(parts, sep, |parts|)
    ensures Join(parts, sep)[Offset(parts, sep, k)..Offset(parts, sep, k) + |parts[k]|] == parts[k]
  {
    var n := |parts|;
    JoinLength(parts, sep);
    if k == n - 1 {
      JoinLast(parts, sep);
    } else {
      OffsetBound(parts, sep, k, n);
      var front := parts[..k + 1];
      var p := Join(front, sep);
      JoinPrefix(parts, sep, k);
      JoinLast(front, sep);
      OffsetPrefix(parts, sep, k + 1, k);
      OffsetPrefix(parts, sep, k + 1, k + 1);
      var o := Offset(parts, sep, k);
      assert Join(parts, sep)[..|p|] == p;
      assert p[o..] == parts[k];
      assert Join(parts, sep)[o..o + |parts[k]|] == p[o..];
    }
  }

  /** Exactly sep sits between fragment k and fragment k + 1. */
  lemma JoinSeparator(parts: seq<string>, sep: string, k: nat)
    requires k + 1 < |parts|
    ensures Offset(parts, sep, k + 1) + |sep| <= Offset(parts, sep, |parts|)
    ensures |Join(parts, sep)| + |sep| == Offset(parts, sep, |parts|)
    ensures Join(parts, sep)[Offset(parts, sep, k) + |parts[k]|..Offset(parts, sep, k + 1)] == sep
  {
    var n := |parts|;
    OffsetBound(parts, sep, k + 1, n);
    JoinLength(parts, sep);
    var front := parts[..k + 1];
    var p := Join(front, sep);
    JoinPrefix(parts, sep, k);
    JoinLength(front, sep);
    OffsetPrefix(parts, sep, k + 1, k + 1);
    assert |p| == Offset(parts, sep, k) + |parts[k]|;
    assert Join(parts, sep)[..|p| + |sep|] == p + sep;
  }

  /** The number of occurrences of c in s. */
  function Count(s: string, c: char): nat {
    if s == [] then 0 else Count(s[..|s| - 1], c) + (if s[|s| - 1] == c then 1 else 0)
  }

  lemma {:induction false} CountAppend(a: string, b: string, c: char)
    ensures Count(a + b, c) == Count(a, c) + Count(b, c)
    decreases |b|
  {
    if b == [] {
      assert a + b == a;
    } else {
      assert (a + b)[..|a + b| - 1] == a + b[..|b| - 1];
      CountAppend(a, b[..|b| - 1], c);
    }
  }

  /** The parameter list of the INSERT holds one marker per column. */
  lemma {:induction false} PlaceholderCount(n: nat)
    ensures Count(Join(Placeholders(n), ", "), '?') == n
  {
    if n > 1 {
      PlaceholderCount(n - 1);
      assert Placeholders(n)[..n - 1] == Placeholders(n - 1);
      CountAppend(Join(Placeholders(n - 1), ", ") + ", ", "?", '?');
      CountAppend(Join(Placeholders(n - 1), ", "), ", ", '?');
      assert Count(", ", '?') == 0 by {
        assert ", "[..1] == ",";
        assert ","[..0] == "";
      }
      assert Count("?", '?') == 1 by {
        assert "?"[..0] == "";
      }
    } else if n == 1 {
      assert "?"[..0] == "";
    }
  }

  /** An INSERT whose table and column names hold no '?' has exactly one
      parameter marker per column. */
  lemma InsertMarkers(tableName: string, schema: seq<Column>)
    requires '?' !in tableName && forall k :: 0 <= k < |schema| ==> '?' !in schema[k].name
    ensures Count("INSERT INTO " + tableName + " (" + Join(Names(schema), ", ") + ")"
                  + " VALUES (" + Join(Placeholders(|schema|), ", ") + ")", '?') == |schema|
  {
    var head := "INSERT INTO " + tableName + " (" + Join(Names(schema), ", ") + ")";
    ColumnListUnmarked(tableName, Names(schema));
    NoMarker(" VALUES (");
    NoMarker(")");
    CountAppend(head, " VALUES (", '?');
    CountAppend(head + " VALUES (", Join(Placeholders(|schema|), ", "), '?');
    CountAppend(head + " VALUES (" + Join(Placeholders(|schema|), ", "), ")", '?');
    PlaceholderCount(|schema|);
  }

  /** The part of an INSERT before VALUES holds no parameter marker when the
      names hold none. */
  lemma ColumnListUnmarked(tableName: string, names: seq<string>)
    requires '?' !in tableName && forall k :: 0 <= k < |names| ==> '?' !in names[k]
    ensures Count("INSERT INTO " + tableName + " (" + Join(names, ", ") + ")", '?') == 0
  {
    NoMarkerInJoin(names, ", ");
    NoMarker("INSERT INTO ");
    NoMarker(" (");
    NoMarker(")");
    NoMarker(tableName);
    CountAppend("INSERT INTO ", tableName, '?');
    CountAppend("INSERT INTO " + tableName, " (", '?');
    CountAppend("INSERT INTO " + tableName + " (", Join(names, ", "), '?');
    CountAppend("INSERT INTO " + tableName + " (" + Join(names, ", "), ")", '?');
  }

  lemma {:induction false} NoMarker(s: string)
    requires '?' !in s
    ensures Count(s, '?') == 0
  {
    if s != [] {
      assert s[..|s| - 1] + [s[|s| - 1]] == s;
      NoMarker(s[..|s| - 1]);
    }
  }

  lemma {:induction false} NoMarkerInJoin(parts: seq<string>, sep: string)
    requires '?' !in sep && forall k :: 0 <= k < |parts| ==> '?' !in parts[k]
    ensures Count(Join(parts, sep), '?') == 0
  {
    if |parts| == 1 {
      NoMarker(parts[0]);
    } else if |parts| > 1 {
      var init := parts[..|parts| - 1];
      NoMarkerInJoin(init, sep);
      NoMarker(sep);
      NoMarker(parts[|parts| - 1]);
      CountAppend(Join(init, sep), sep, '?');
      CountAppend(Join(init, sep) + sep, parts[|parts| - 1], '?');
    }
  }
}
