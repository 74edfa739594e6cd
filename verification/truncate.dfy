/** truncate.go: `Truncate(table)` and `ToSQL`. The error list is never
    written, so rendering never fails. */
module Truncate {
  import opened Common
  import opened Text
  import opened Tables

  datatype TruncateContainer = TruncateContainer(table: Option<Ptr>, errs: seq<BuildError>)

  /** `Truncate(table)`: the given table (nil allowed) and no errors. */
  function Truncate(table: Option<Ptr>): (b: TruncateContainer)
    ensures b.table == table && b.errs == []
  {
    TruncateContainer(table, [])
  }

  /** `ToSQL()`: "" and the joined errors if any were recorded, else
      `TRUNCATE TABLE` and the table reference. The builder is never changed. */
  function ToSQL(b: TruncateContainer, h: Heap): (r: Rendered<TruncateContainer>)
    requires ValidRef(h, b.table)
    ensures |b.errs| > 0 ==> r.sql == "" && r.err == Some(b.errs)
    ensures |b.errs| == 0 ==> r.err.None? && |r.sql| > 0 && r.sql[|r.sql| - 1] == ';'
    ensures r.next == b
  {
    if |b.errs| > 0 then Rendered("", Some(b.errs), b)
    else Rendered(Statement(["TRUNCATE TABLE"] + RefTokens(h, b.table)), None, b)
  }

  /** `TRUNCATE TABLE <table>;` for a table (`bName AS name` when aliased),
      `TRUNCATE TABLE;` for nil; never an error, and a second call repeats
      the first. */
  lemma RendersStatement(table: Option<Ptr>, h: Heap)
    requires ValidRef(h, table)
    ensures var r := ToSQL(Truncate(table), h);
      && r.err.None?
      && r.sql == (if table.Some? then "TRUNCATE TABLE " + Join(TableTokens(h.tables[table.value]), " ") + ";"
                   else "TRUNCATE TABLE;")
      && ToSQL(r.next, h) == r
  {
    if table.Some? {
      var t := RefTokens(h, table);
      JoinCons("TRUNCATE TABLE", t, " ");
      assert "TRUNCATE TABLE" + " " + Join(t, " ") == "TRUNCATE TABLE " + Join(t, " ");
    } else {
      assert ["TRUNCATE TABLE"] + RefTokens(h, table) == ["TRUNCATE TABLE"];
    }
  }

  /** truncate_test.go: `Truncate(Table("users"))`, and the same table
      aliased. */
  lemma TruncateExamples(h0: Heap)
    ensures var (h1, p) := Table(h0, "users");
      var (h2, _) := As(h1, p, "u");
      && ToSQL(Truncate(Some(p)), h1).sql == "TRUNCATE TABLE users;"
      && ToSQL(Truncate(Some(p)), h2).sql == "TRUNCATE TABLE users AS u;"
  {
    var (h1, p) := Table(h0, "users");
    var (h2, _) := As(h1, p, "u");
    RendersStatement(Some(p), h1);
    TableText(h1.tables[p]);
    RendersStatement(Some(p), h2);
    TableText(h2.tables[p]);
  }
}
