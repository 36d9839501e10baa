/** The SQL text that `Db::insert`, `Db::update` and `Db::delete` assemble,
    together with the positional parameter list they pass on to `query`.

    The clause functions below follow the source: they trim the text its
    loops accumulate with `rtrim`. The lemmas after them state what that
    text is: the placeholders and comparisons joined by their separators,
    one `?` per bound value, in map order. */
module SqlText {
  import opened PhpText
  import opened Params

  /** SQL text with `?` placeholders and the values bound to them, in
      order. */
  datatype Query = Query(sql: string, params: seq<Value>)

  /** The comparison or assignment text emitted for one column. */
  function Assignment(column: string): string
  {
    "`" + column + "` = ?"
  }

  /** One `Assignment` per entry of an array, in its order. */
  function Assignments(m: Assoc): seq<string>
  {
    seq(|m|, i requires 0 <= i < |m| => Assignment(m[i].0))
  }

  /** `n` single-`?` placeholders. */
  function QuestionMarks(n: nat): seq<string>
  {
    seq(n, _ => "?")
  }

  /** The `VALUES` placeholder list of `insert`: `?, ` once per value, then
      the trailing commas and spaces trimmed. */
  function Placeholders(n: nat): string
  {
    RTrim(Terminated(QuestionMarks(n), ", "), CharSet(", "))
  }

  /** The `SET` list of `update`: empty when there is no data, otherwise
      each assignment followed by `,`, then the trailing commas trimmed. */
  function SetClause(data: Assoc): string
  {
    if data == [] then ""
    else RTrim(Terminated(Assignments(data), ","), CharSet(","))
  }

  /** The `WHERE` condition of `update` and `delete`: the literal `1` when
      there are no conditions, otherwise each comparison followed by a
      space and the glue, then trailing characters of the space and the
      glue trimmed. */
  function WhereClause(conditions: Assoc, glue: string): string
  {
    if conditions == [] then "1"
    else RTrim(Terminated(Assignments(conditions), " " + glue), CharSet(" " + glue))
  }

  /** The statement `insert` runs: backtick-quoted columns in key order and
      the map's values as parameters. */
  function InsertQuery(table: string, data: Assoc): Query
  {
    Query("INSERT INTO " + table + " ( `" + Implode("`,`", Keys(data)) + "` )  VALUES( "
          + Placeholders(|Values(data)|) + " )",
          Values(data))
  }

  /** The statement `update` runs: the data values, then the condition
      values, as parameters. */
  function UpdateQuery(table: string, data: Assoc, conditions: Assoc, glue: string): Query
  {
    Query("UPDATE " + table + " SET " + SetClause(data) + " WHERE " + WhereClause(conditions, glue),
          Values(data) + Values(conditions))
  }

  /** The statement `delete` runs: the condition values as parameters. */
  function DeleteQuery(table: string, conditions: Assoc, glue: string): Query
  {
    Query("DELETE FROM " + table + " WHERE " + WhereClause(conditions, glue), Values(conditions))
  }

  // ---------------------------------------------------------------------
  // The builders as the source runs them: loops that append, then rtrim.

  /** The `for` loop of `insert` that appends `?, ` once per value, and the
      `rtrim` after it. */
  method BuildPlaceholders(n: nat) returns (valuePlaceholder: string)
    ensures valuePlaceholder == Placeholders(n)
  {
    valuePlaceholder := "";
    for i := 0 to n
      invariant valuePlaceholder == Terminated(QuestionMarks(i), ", ")
    {
      assert QuestionMarks(i + 1)[..i] == QuestionMarks(i);
      assert "?, " == "?" + ", ";
      valuePlaceholder := valuePlaceholder + "?, ";
    }
    valuePlaceholder := RTrim(valuePlaceholder, CharSet(", "));
  }

  /** The `foreach` loop of `update` over the data, and the `rtrim` after
      it. */
  method BuildSetClause(data: Assoc) returns (updateColumns: string)
    ensures updateColumns == SetClause(data)
  {
    updateColumns := "";
    if data != [] {
      for i := 0 to |data|
        invariant updateColumns == Terminated(Assignments(data)[..i], ",")
      {
        var column := data[i].0;
        assert Assignments(data)[..i + 1][..i] == Assignments(data)[..i];
        assert "`" + column + "`" + " = " + "?," == Assignment(column) + ",";
        updateColumns := updateColumns + "`" + column + "`" + " = " + "?,";
      }
      assert Assignments(data)[..|data|] == Assignments(data);
      updateColumns := RTrim(updateColumns, CharSet(","));
    }
  }

  /** The `foreach` loop over the conditions shared by `update` and
      `delete`, the `rtrim` after it, and the `1` for no conditions. */
  method BuildWhereClause(conditions: Assoc, glue: string) returns (whereClause: string)
    ensures whereClause == WhereClause(conditions, glue)
  {
    if conditions != [] {
      whereClause := "";
      for i := 0 to |conditions|
        invariant whereClause == Terminated(Assignments(conditions)[..i], " " + glue)
      {
        var key := conditions[i].0;
        assert Assignments(conditions)[..i + 1][..i] == Assignments(conditions)[..i];
        assert "`" + key + "`" + " = " + "? " + glue == Assignment(key) + (" " + glue);
        whereClause := whereClause + "`" + key + "`" + " = " + "? " + glue;
      }
      assert Assignments(conditions)[..|conditions|] == Assignments(conditions);
      whereClause := RTrim(whereClause, CharSet(" " + glue));
    } else {
      whereClause := "1";
    }
  }

  /** `insert`'s assembly of its statement (lines before the call to
      `query`). */
  method BuildInsert(table: string, data: Assoc) returns (q: Query)
    ensures q == InsertQuery(table, data)
  {
    var columns := Keys(data);
    var values := Values(data);
    var valuePlaceholder := BuildPlaceholders(|values|);
    q := Query("INSERT INTO " + table + " ( `" + Implode("`,`", columns) + "` )  VALUES( "
               + valuePlaceholder + " )", values);
  }

  /** `update`'s assembly of its statement. */
  method BuildUpdate(table: string, data: Assoc, conditions: Assoc, glue: string) returns (q: Query)
    ensures q == UpdateQuery(table, data, conditions, glue)
  {
    var updateColumns := BuildSetClause(data);
    var whereClause := BuildWhereClause(conditions, glue);
    q := Query("UPDATE " + table + " SET " + updateColumns + " WHERE " + whereClause,
               Values(data) + Values(conditions));
  }

  /** `delete`'s assembly of its statement. */
  method BuildDelete(table: string, conditions: Assoc, glue: string) returns (q: Query)
    ensures q == DeleteQuery(table, conditions, glue)
  {
    var whereClause := BuildWhereClause(conditions, glue);
    q := Query("DELETE FROM " + table + " WHERE " + whereClause, Values(conditions));
  }

  // ---------------------------------------------------------------------
  // What the assembled text is.

  /** The placeholder list is `n` question marks joined by `, `: no
      trailing comma or space, and exactly `n` placeholders. */
  lemma PlaceholdersJoined(n: nat)
    ensures Placeholders(n) == Implode(", ", QuestionMarks(n))
    ensures Count(Placeholders(n), '?') == n
  {
    TrimTerminated(QuestionMarks(n), ", ", CharSet(", "));
    CountImplode(", ", QuestionMarks(n), '?');
  }

  /** The `SET` list is one `` `col` = ? `` per data entry, in order,
      joined by `,` without a trailing comma; empty data gives empty text. */
  lemma SetClauseJoined(data: Assoc)
    ensures SetClause(data) == Implode(",", Assignments(data))
  {
    if data != [] {
      TrimTerminated(Assignments(data), ",", CharSet(","));
    }
  }

  /** With conditions, the `WHERE` condition is one `` `key` = ? `` per
      condition, in order, joined by a space and the glue, and it ends in
      the last `?` (no trailing glue). This holds whenever the glue does
      not contain `?`: `rtrim` strips characters, and a `?` in the glue
      would let it eat into the last comparison. */
  lemma WhereClauseJoined(conditions: Assoc, glue: string)
    requires conditions != []
    requires '?' !in glue
    ensures WhereClause(conditions, glue) == Implode(" " + glue, Assignments(conditions))
    ensures var w := WhereClause(conditions, glue); w != [] && w[|w| - 1] == '?'
  {
    var pieces := Assignments(conditions);
    var last := pieces[|pieces| - 1];
    assert last[|last| - 1] == '?';
    TrimTerminated(pieces, " " + glue, CharSet(" " + glue));
    ImplodeEndsLikeLastPiece(" " + glue, pieces);
  }

  /** A column name without `?` yields an assignment with exactly one. */
  lemma AssignmentHasOnePlaceholder(column: string)
    requires '?' !in column
    ensures Count(Assignment(column), '?') == 1
  {
    CountAbsent("`", '?');
    CountAbsent(column, '?');
    CountAppend("`", column, '?');
    CountAppend("`" + column, "` = ?", '?');
    assert Count("` = ?", '?') == 1 by {
      assert "` = ?"[..4] == "` = ";
      CountAbsent("` = ", '?');
    }
  }

  /** No column name of `m` contains `?`. */
  predicate NoPlaceholderIn(m: Assoc)
  {
    forall k | 0 <= k < |m| :: '?' !in m[k].0
  }

  /** The number of `?` in the assignments of `m`, joined by a separator
      without `?`, is the number of entries. */
  lemma AssignmentsHaveOnePlaceholderEach(m: Assoc, sep: string)
    requires NoPlaceholderIn(m)
    requires '?' !in sep
    ensures Count(Implode(sep, Assignments(m)), '?') == |m|
  {
    forall k | 0 <= k < |m|
      ensures Count(Assignments(m)[k], '?') == 1
    {
      AssignmentHasOnePlaceholder(m[k].0);
    }
    CountImplode(sep, Assignments(m), '?');
  }

  /** The `WHERE` condition holds one `?` per condition (none for the
      literal `1`). */
  lemma WhereClausePlaceholders(conditions: Assoc, glue: string)
    requires NoPlaceholderIn(conditions)
    requires '?' !in glue
    ensures Count(WhereClause(conditions, glue), '?') == |conditions|
  {
    if conditions == [] {
      CountAbsent("1", '?');
    } else {
      WhereClauseJoined(conditions, glue);
      assert '?' !in " " + glue;
      AssignmentsHaveOnePlaceholderEach(conditions, " " + glue);
    }
  }

  /** `insert` binds every value: when neither the table name nor a column
      name contains `?`, its statement holds exactly one `?` per parameter,
      and there is one parameter per entry of the data. */
  lemma InsertBindsEveryValue(table: string, data: Assoc)
    requires '?' !in table
    requires NoPlaceholderIn(data)
    ensures var q := InsertQuery(table, data);
      |q.params| == |data| && Count(q.sql, '?') == |q.params|
  {
    var columns := Implode("`,`", Keys(data));
    var values := Placeholders(|data|);
    CountImplodeAbsent("`,`", Keys(data), '?');
    PlaceholdersJoined(|data|);
    CountAbsent("INSERT INTO ", '?');
    CountAbsent(table, '?');
    CountAbsent(" ( `", '?');
    CountAbsent("` )  VALUES( ", '?');
    CountAbsent(" )", '?');
    var a := "INSERT INTO " + table;
    var b := a + " ( `";
    var c := b + columns;
    var d := c + "` )  VALUES( ";
    var e := d + values;
    CountAppend("INSERT INTO ", table, '?');
    CountAppend(a, " ( `", '?');
    CountAppend(b, columns, '?');
    CountAppend(c, "` )  VALUES( ", '?');
    CountAppend(d, values, '?');
    CountAppend(e, " )", '?');
  }

  /** `update` binds every value: with no `?` in the table name, the column
      names or the glue, its statement holds exactly one `?` per parameter,
      and the parameters are the data values then the condition values. */
  lemma UpdateBindsEveryValue(table: string, data: Assoc, conditions: Assoc, glue: string)
    requires '?' !in table && '?' !in glue
    requires NoPlaceholderIn(data) && NoPlaceholderIn(conditions)
    ensures var q := UpdateQuery(table, data, conditions, glue);
      |q.params| == |data| + |conditions| && Count(q.sql, '?') == |q.params|
  {
    var set_ := SetClause(data);
    var where := WhereClause(conditions, glue);
    SetClauseJoined(data);
    AssignmentsHaveOnePlaceholderEach(data, ",");
    WhereClausePlaceholders(conditions, glue);
    CountAbsent("UPDATE ", '?');
    CountAbsent(table, '?');
    CountAbsent(" SET ", '?');
    CountAbsent(" WHERE ", '?');
    var a := "UPDATE " + table;
    var b := a + " SET ";
    var c := b + set_;
    var d := c + " WHERE ";
    CountAppend("UPDATE ", table, '?');
    CountAppend(a, " SET ", '?');
    CountAppend(b, set_, '?');
    CountAppend(c, " WHERE ", '?');
    CountAppend(d, where, '?');
  }

  /** `delete` binds every condition value: with no `?` in the table name,
      the keys or the glue, its statement holds exactly one `?` per
      parameter, one per condition. */
  lemma DeleteBindsEveryValue(table: string, conditions: Assoc, glue: string)
    requires '?' !in table && '?' !in glue
    requires NoPlaceholderIn(conditions)
    ensures var q := DeleteQuery(table, conditions, glue);
      |q.params| == |conditions| && Count(q.sql, '?') == |q.params|
  {
    var where := WhereClause(conditions, glue);
    WhereClausePlaceholders(conditions, glue);
    CountAbsent("DELETE FROM ", '?');
    CountAbsent(table, '?');
    CountAbsent(" WHERE ", '?');
    var a := "DELETE FROM " + table;
    var b := a + " WHERE ";
    CountAppend("DELETE FROM ", table, '?');
    CountAppend(a, " WHERE ", '?');
    CountAppend(b, where, '?');
  }

  /** The parameters of `update` are bound positionally: first the data
      values in data order, then the condition values in condition order. */
  lemma UpdateBindsInOrder(table: string, data: Assoc, conditions: Assoc, glue: string)
    ensures var q := UpdateQuery(table, data, conditions, glue);
      && |q.params| == |data| + |conditions|
      && (forall k | 0 <= k < |data| :: q.params[k] == data[k].1)
      && (forall k | 0 <= k < |conditions| :: q.params[|data| + k] == conditions[k].1)
  {
  }

  /** With no conditions, `update` and `delete` use the always-true
      condition `1` and so affect every row of the table. */
  lemma EmptyConditionsMatchAll(table: string, data: Assoc, glue: string)
    ensures UpdateQuery(table, data, [], glue).sql == "UPDATE " + table + " SET " + SetClause(data) + " WHERE 1"
    ensures DeleteQuery(table, [], glue) == Query("DELETE FROM " + table + " WHERE 1", [])
  {
  }

  /** The glue is emitted with no space after it: two conditions joined by
      `AND` read `` `a` = ? AND`b` = ? ``. */
  lemma WhereGlueWithoutTrailingSpace()
    ensures WhereClause([("a", Int(1)), ("b", Int(2))], "AND") == "`a` = ? AND`b` = ?"
  {
    var conditions := [("a", Int(1)), ("b", Int(2))];
    WhereClauseJoined(conditions, "AND");
    assert Assignment("a") == "`a` = ?";
    assert Assignment("b") == "`b` = ?";
    var pieces := Assignments(conditions);
    assert pieces == ["`a` = ?", "`b` = ?"];
    assert pieces[..1] == ["`a` = ?"];
    assert Implode(" AND", pieces) == "`a` = ?" + " AND" + "`b` = ?";
  }

  /** A two-column insert, with the spacing the source emits. */
  lemma InsertExample()
    ensures InsertQuery("users", [("name", Str("Ann")), ("age", Int(30))])
         == Query("INSERT INTO users ( `name`,`age` )  VALUES( ?, ? )", [Str("Ann"), Int(30)])
  {
    var data := [("name", Str("Ann")), ("age", Int(30))];
    assert Keys(data) == ["name", "age"];
    assert Values(data) == [Str("Ann"), Int(30)];
    TwoColumns();
    TwoPlaceholders();
    InsertExampleText();
  }

  /** The pieces of the example insert, put together. */
  lemma InsertExampleText()
    ensures "INSERT INTO " + "users" + " ( `" + "name`,`age" + "` )  VALUES( " + "?, ?" + " )"
         == "INSERT INTO users ( `name`,`age` )  VALUES( ?, ? )"
  {
  }

  /** Two columns are listed as `name`,`age` inside the outer backticks. */
  lemma TwoColumns()
    ensures Implode("`,`", ["name", "age"]) == "name`,`age"
  {
  }

  /** Two values give the placeholder list `?, ?`. */
  lemma TwoPlaceholders()
    ensures Placeholders(2) == "?, ?"
  {
    PlaceholdersJoined(2);
    var marks := QuestionMarks(2);
    assert marks == ["?", "?"];
    assert marks[..1] == ["?"];
  }

  /** A one-column update with one condition. */
  lemma UpdateExample()
    ensures UpdateQuery("users", [("age", Int(31))], [("name", Str("Ann"))], "AND")
         == Query("UPDATE users SET `age` = ? WHERE `name` = ?", [Int(31), Str("Ann")])
  {
    SetClauseJoined([("age", Int(31))]);
    assert Assignment("age") == "`age` = ?";
    assert Assignments([("age", Int(31))]) == ["`age` = ?"];
    WhereClauseJoined([("name", Str("Ann"))], "AND");
    assert Assignment("name") == "`name` = ?";
    assert Assignments([("name", Str("Ann"))]) == ["`name` = ?"];
    UpdateExampleText();
  }

  /** The pieces of the example update, put together. */
  lemma UpdateExampleText()
    ensures "UPDATE " + "users" + " SET " + "`age` = ?" + " WHERE " + "`name` = ?"
         == "UPDATE users SET `age` = ? WHERE `name` = ?"
  {
  }
}
