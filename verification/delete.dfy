/** delete.go: `Delete(table)`, `Where` and `ToSQL`. Nothing in the file ever
    records an error, so every reachable builder renders without one. */
module Delete {
  import opened Common
  import opened Text
  import opened Tables
  import opened Values
  import opened Expressions

  datatype DeleteContainer = DeleteContainer(
    table: Option<Ptr>,
    where: Option<Expression>,
    errs: seq<BuildError>)

  /** `Delete(table)`: the given table (nil allowed) and no WHERE. */
  function Delete(table: Option<Ptr>): (b: DeleteContainer)
    ensures b.table == table && b.where.None? && b.errs == []
  {
    DeleteContainer(table, None, [])
  }

  /** `Where(conditions)`: replaces any earlier condition (nil clears it). */
  function Where(b: DeleteContainer, conditions: Option<Expression>): (r: DeleteContainer)
    ensures r.where == conditions && r.table == b.table && r.errs == b.errs
  {
    b.(where := conditions)
  }

  function DeleteTokens(b: DeleteContainer, h: Heap): seq<string>
    requires ValidRef(h, b.table)
  {
    ["DELETE FROM"] + RefTokens(h, b.table)
    + (if b.where.Some? then ["WHERE", b.where.value.condition] else [])
  }

  /** `ToSQL()`: "" and the joined errors if any were recorded, else the
      statement and a nil error. The builder is never changed. */
  function ToSQL(b: DeleteContainer, h: Heap): (r: Rendered<DeleteContainer>)
    requires ValidRef(h, b.table)
    ensures |b.errs| > 0 ==> r.sql == "" && r.err == Some(b.errs)
    ensures |b.errs| == 0 ==> r.err.None? && |r.sql| > 0 && r.sql[|r.sql| - 1] == ';'
    ensures r.next == b
  {
    if |b.errs| > 0 then Rendered("", Some(b.errs), b)
    else Rendered(Statement(DeleteTokens(b, h)), None, b)
  }

  /** A chain of `Where` calls: none of them touches the table or the errors. */
  function WhereAll(b: DeleteContainer, conds: seq<Option<Expression>>): (r: DeleteContainer)
    ensures r.errs == b.errs && r.table == b.table
    decreases |conds|
  {
    if |conds| == 0 then b else WhereAll(Where(b, conds[0]), conds[1..])
  }

  /** Every builder `Delete` and `Where` can produce renders without error,
      and a second `ToSQL` repeats the first. */
  lemma NeverErrors(table: Option<Ptr>, conds: seq<Option<Expression>>, h: Heap)
    requires ValidRef(h, table)
    ensures var b := WhereAll(Delete(table), conds);
      && ToSQL(b, h).err.None?
      && ToSQL(ToSQL(b, h).next, h) == ToSQL(b, h)
  {
  }

  /** After a chain of `Where` calls only the last condition is kept. */
  lemma {:induction false} WhereLastWins(b: DeleteContainer, conds: seq<Option<Expression>>)
    requires |conds| > 0
    ensures WhereAll(b, conds).where == conds[|conds| - 1]
    decreases |conds|
  {
    if |conds| > 1 {
      WhereLastWins(Where(b, conds[0]), conds[1..]);
    }
  }

  /** With a table: `DELETE FROM <table> [WHERE cond];`, the table as
      `bName AS name` when aliased. */
  lemma RendersStatement(b: DeleteContainer, h: Heap)
    requires ValidRef(h, b.table) && b.table.Some? && b.errs == []
    ensures ToSQL(b, h).sql == "DELETE FROM " + Join(TableTokens(h.tables[b.table.value]), " ")
      + (if b.where.Some? then " WHERE " + b.where.value.condition else "") + ";"
  {
    var t := RefTokens(h, b.table);
    var front := ["DELETE FROM"] + t;
    JoinCons("DELETE FROM", t, " ");
    assert "DELETE FROM" + " " + Join(t, " ") == "DELETE FROM " + Join(t, " ");
    if b.where.Some? {
      var C := b.where.value.condition;
      assert DeleteTokens(b, h) == front + ["WHERE", C];
      JoinThen2(front, "WHERE", C, " ");
      assert ("DELETE FROM " + Join(t, " ")) + " " + "WHERE" + " " + C
        == ("DELETE FROM " + Join(t, " ")) + " WHERE " + C;
    } else {
      assert DeleteTokens(b, h) == front;
    }
  }

  /** With a nil table nothing follows `DELETE FROM` but the WHERE clause. */
  lemma NilTableRendering(b: DeleteContainer, h: Heap)
    requires b.table.None? && b.errs == []
    ensures ToSQL(b, h).sql == "DELETE FROM"
      + (if b.where.Some? then " WHERE " + b.where.value.condition else "") + ";"
    ensures b.where.None? ==> ToSQL(b, h).sql == "DELETE FROM;"
  {
    if b.where.Some? {
      var C := b.where.value.condition;
      assert DeleteTokens(b, h) == ["DELETE FROM"] + ["WHERE", C];
      JoinThen2(["DELETE FROM"], "WHERE", C, " ");
      assert "DELETE FROM" + " " + "WHERE" + " " + C == "DELETE FROM" + " WHERE " + C;
    } else {
      assert DeleteTokens(b, h) == ["DELETE FROM"];
    }
  }

  /** delete_test.go: `Delete(Table("users"))`. */
  lemma DeleteExample(h0: Heap)
    ensures var (h, p) := Table(h0, "users");
      ToSQL(Delete(Some(p)), h) == Rendered("DELETE FROM users;", None, Delete(Some(p)))
  {
    var (h, p) := Table(h0, "users");
    RendersStatement(Delete(Some(p)), h);
    TableText(h.tables[p]);
  }

  lemma WhereExampleText()
    ensures "DELETE FROM " + "users" + (" WHERE " + "id = 1") + ";" == "DELETE FROM users WHERE id = 1;"
  {
  }

  /** delete_test.go: `Delete(Table("users")).Where(Eq("id", 1))`. */
  lemma DeleteWhereExample(h0: Heap)
    ensures var (h, p) := Table(h0, "users");
      ToSQL(Where(Delete(Some(p)), Some(Eq("id", Int(1)))), h).sql == "DELETE FROM users WHERE id = 1;"
  {
    var (h, p) := Table(h0, "users");
    var b := Where(Delete(Some(p)), Some(Eq("id", Int(1))));
    assert IntToString(1) == "1";
    assert b.where.value.condition == "id = 1";
    RendersStatement(b, h);
    TableText(h.tables[p]);
    WhereExampleText();
  }

  /** Aliasing the table renders `DELETE FROM bName AS name`; aliasing it
      back to its base name removes the `AS` segment again. */
  lemma AliasThenRestore(h0: Heap)
    ensures var (h1, p) := Table(h0, "users");
      var (h2, _) := As(h1, p, "u");
      var (h3, _) := As(h2, p, "users");
      && ToSQL(Delete(Some(p)), h2).sql == "DELETE FROM users AS u;"
      && ToSQL(Delete(Some(p)), h3).sql == "DELETE FROM users;"
  {
    var (h1, p) := Table(h0, "users");
    var (h2, _) := As(h1, p, "u");
    var (h3, _) := As(h2, p, "users");
    RendersStatement(Delete(Some(p)), h2);
    TableText(h2.tables[p]);
    RendersStatement(Delete(Some(p)), h3);
    TableText(h3.tables[p]);
  }
}
