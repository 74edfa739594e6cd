/** insert.go: `Insert(fields...)`, `Into`, `Value(...)` and `ToSQL`. */
module Insert {
  import opened Common
  import opened Text
  import opened Tables
  import opened Values

  datatype InsertContainer = InsertContainer(
    fields: seq<string>,
    table: Option<Ptr>,
    values: seq<string>,
    errs: seq<BuildError>)

  /** The argument types `Insert` keeps as field names. */
  predicate Kept(a: ColumnArg)
  {
    a.Name? || a.Column?
  }

  /** What one argument contributes to the field list. */
  function FieldOf(a: ColumnArg): seq<string>
  {
    if Kept(a) then [ColumnKey(a)] else []
  }

  /** The field list `Insert(fields...)` collects: strings verbatim, column
      references as `tName.col`, in argument order, other types dropped. */
  function InsertFields(args: seq<ColumnArg>): (f: seq<string>)
    ensures |f| <= |args|
    ensures (forall i :: 0 <= i < |args| ==> Kept(args[i])) ==>
      |f| == |args| && forall i :: 0 <= i < |args| ==> f[i] == ColumnKey(args[i])
    ensures (forall i :: 0 <= i < |args| ==> !Kept(args[i])) ==> f == []
  {
    if |args| == 0 then []
    else FieldOf(args[0]) + InsertFields(args[1..])
  }

  /** Collecting fields commutes with appending an argument. */
  lemma {:induction false} InsertFieldsAppend(args: seq<ColumnArg>, a: ColumnArg)
    ensures InsertFields(args + [a]) == InsertFields(args) + FieldOf(a)
    decreases |args|
  {
    if |args| > 0 {
      assert (args + [a])[1..] == args[1..] + [a];
      InsertFieldsAppend(args[1..], a);
    }
  }

  /** `Insert(fields...)`: the collected fields, no table, no values, no errors. */
  function Insert(args: seq<ColumnArg>): (b: InsertContainer)
    ensures b.fields == InsertFields(args)
    ensures b.table.None? && b.values == [] && b.errs == []
  {
    InsertContainer(InsertFields(args), None, [], [])
  }

  /** `Into(table)`: sets the table pointer (nil allowed) and nothing else. */
  function Into(b: InsertContainer, table: Option<Ptr>): (r: InsertContainer)
    ensures r.table == table
    ensures r.fields == b.fields && r.values == b.values && r.errs == b.errs
  {
    b.(table := table)
  }

  /** The single entry one `Value(...)` call adds: the formatted arguments
      joined with ", ". */
  function ValueEntry(vs: seq<Value>): string
  {
    Join(FormatValues(vs), ", ")
  }

  /** `Value(fields...)`: appends exactly one entry, after the existing ones. */
  function Value(b: InsertContainer, vs: seq<Value>): (r: InsertContainer)
    ensures |r.values| == |b.values| + 1
    ensures r.values[..|b.values|] == b.values
    ensures r.values[|b.values|] == ValueEntry(vs)
    ensures r.fields == b.fields && r.table == b.table && r.errs == b.errs
  {
    b.(values := b.values + [ValueEntry(vs)])
  }

  function InsertTokens(b: InsertContainer, h: Heap): seq<string>
    requires ValidRef(h, b.table)
  {
    ["INSERT"]
    + (if b.table.Some? then ["INTO"] + RefTokens(h, b.table) else [])
    + (if |b.fields| > 0 then ["(", Join(b.fields, ", "), ")"] else [])
    + (if |b.values| > 0 then ["VALUES", "(", Join(b.values, ", "), ")"] else [])
  }

  /** `ToSQL()`. A recorded error wins: "" and the joined errors, nothing
      changes. Otherwise the statement is rendered and returned with a nil
      error, and a missing VALUES group is recorded as an error for the next
      call. */
  function ToSQL(b: InsertContainer, h: Heap): (r: Rendered<InsertContainer>)
    requires ValidRef(h, b.table)
    ensures |b.errs| > 0 ==> r.sql == "" && r.err == Some(b.errs) && r.next == b
    ensures |b.errs| == 0 ==> r.err.None? && |r.sql| > 0 && r.sql[|r.sql| - 1] == ';'
    ensures |b.errs| == 0 ==> r.next.errs == (if |b.values| == 0 then [NoValues] else [])
    ensures r.next.fields == b.fields && r.next.table == b.table && r.next.values == b.values
  {
    if |b.errs| > 0 then Rendered("", Some(b.errs), b)
    else
      var next := if |b.values| > 0 then b else b.(errs := b.errs + [NoValues]);
      Rendered(Statement(InsertTokens(b, h)), None, next)
  }

  /** Literal regrouping for the segment lemmas below. Each is kept apart
      from the `Join` facts so that every proof stays small. */
  lemma IntoText(T: string)
    ensures " " + ("INTO" + " " + T) == " INTO " + T
  {
  }

  lemma FieldsText(F: string)
    ensures " " + ("(" + " " + F + " " + ")") == " ( " + F + " )"
  {
  }

  lemma ValuesText(V: string)
    ensures " " + ("VALUES" + " " + "(" + " " + V + " " + ")") == " VALUES ( " + V + " )"
  {
  }

  /** The INTO segment as text: ` INTO <table>`. */
  lemma IntoSegment(t: seq<string>)
    requires |t| > 0
    ensures " " + Join(["INTO"] + t, " ") == " INTO " + Join(t, " ")
  {
    JoinCons("INTO", t, " ");
    IntoText(Join(t, " "));
  }

  /** The field segment as text: ` ( f1, f2 )`. */
  lemma FieldSegment(F: string)
    ensures " " + Join(["(", F, ")"], " ") == " ( " + F + " )"
  {
    Join3("(", F, ")", " ");
    FieldsText(F);
  }

  /** The VALUES segment as text: ` VALUES ( v1, v2 )`. */
  lemma ValuesSegment(V: string)
    ensures " " + Join(["VALUES", "(", V, ")"], " ") == " VALUES ( " + V + " )"
  {
    Join4("VALUES", "(", V, ")", " ");
    ValuesText(V);
  }

  /** Every statement a builder without a recorded error renders: `INSERT`,
      then ` INTO <table>` when a table is set (`bName AS name` when aliased),
      ` ( f1, f2 )` when there are fields, ` VALUES ( v1, v2 )` when there are
      values, then ';'. Each segment is left out on its own. */
  lemma RendersStatement(b: InsertContainer, h: Heap)
    requires ValidRef(h, b.table) && b.errs == []
    ensures ToSQL(b, h).sql == "INSERT"
      + (if b.table.Some? then " INTO " + Join(TableTokens(h.tables[b.table.value]), " ") else "")
      + (if |b.fields| > 0 then " ( " + Join(b.fields, ", ") + " )" else "")
      + (if |b.values| > 0 then " VALUES ( " + Join(b.values, ", ") + " )" else "")
      + ";"
  {
    var t := RefTokens(h, b.table);
    var F, V := Join(b.fields, ", "), Join(b.values, ", ");
    var A := if b.table.Some? then ["INTO"] + t else [];
    var B := if |b.fields| > 0 then ["(", F, ")"] else [];
    var C := if |b.values| > 0 then ["VALUES", "(", V, ")"] else [];
    assert InsertTokens(b, h) == ["INSERT"] + A + B + C;
    JoinSegment(["INSERT"], A, " ");
    JoinSegment(["INSERT"] + A, B, " ");
    JoinSegment(["INSERT"] + A + B, C, " ");
    if b.table.Some? { IntoSegment(t); }
    if |b.fields| > 0 { FieldSegment(F); }
    if |b.values| > 0 { ValuesSegment(V); }
  }

  /** The full statement, with a table, fields and values:
      `INSERT INTO <table> ( f1, f2 ) VALUES ( v1, v2 );`. */
  lemma RendersFullStatement(b: InsertContainer, h: Heap)
    requires ValidRef(h, b.table) && b.table.Some?
    requires b.errs == [] && |b.fields| > 0 && |b.values| > 0
    ensures ToSQL(b, h).sql ==
      "INSERT INTO " + Join(TableTokens(h.tables[b.table.value]), " ")
      + " ( " + Join(b.fields, ", ") + " ) VALUES ( " + Join(b.values, ", ") + " );"
  {
    RendersStatement(b, h);
    FullText(Join(TableTokens(h.tables[b.table.value]), " "), Join(b.fields, ", "), Join(b.values, ", "));
  }

  lemma FullText(T: string, F: string, V: string)
    ensures "INSERT" + (" INTO " + T) + (" ( " + F + " )") + (" VALUES ( " + V + " )") + ";"
      == "INSERT INTO " + T + " ( " + F + " ) VALUES ( " + V + " );"
  {
  }

  /** With a table and fields but no values the statement stops after the
      field segment: `INSERT INTO <table> ( f1, f2 );`. */
  lemma RendersWithoutValues(b: InsertContainer, h: Heap)
    requires ValidRef(h, b.table) && b.table.Some?
    requires b.errs == [] && |b.fields| > 0 && b.values == []
    ensures ToSQL(b, h).sql ==
      "INSERT INTO " + Join(TableTokens(h.tables[b.table.value]), " ") + " ( " + Join(b.fields, ", ") + " );"
  {
    RendersStatement(b, h);
    NoValuesShape(Join(TableTokens(h.tables[b.table.value]), " "), Join(b.fields, ", "));
  }

  lemma NoValuesShape(T: string, F: string)
    ensures "INSERT" + (" INTO " + T) + (" ( " + F + " )") + "" + ";" == "INSERT INTO " + T + " ( " + F + " );"
  {
  }

  /** Several `Value` calls share one `VALUES ( ... )` group, their entries
      joined with ", ". */
  lemma ValuesShareOneGroup(b: InsertContainer, vs1: seq<Value>, vs2: seq<Value>)
    requires b.values == []
    ensures Join(Value(Value(b, vs1), vs2).values, ", ") == ValueEntry(vs1) + ", " + ValueEntry(vs2)
  {
    assert Value(Value(b, vs1), vs2).values == [ValueEntry(vs1), ValueEntry(vs2)];
    Join2(ValueEntry(vs1), ValueEntry(vs2), ", ");
  }

  /** The "no values" error is sticky: the first `ToSQL` still renders the
      statement without VALUES and returns a nil error, every later call
      returns "" and the error, and setters do not clear it. */
  lemma NoValuesErrorIsSticky(b: InsertContainer, h: Heap, vs: seq<Value>, t: Option<Ptr>)
    requires ValidRef(h, b.table) && ValidRef(h, t)
    requires b.errs == [] && b.values == []
    ensures var first := ToSQL(b, h);
      && first.err.None? && |first.sql| > 0
      && first.next.errs == [NoValues]
      && ToSQL(first.next, h) == Rendered("", Some([NoValues]), first.next)
      && ToSQL(Value(first.next, vs), h).sql == ""
      && ToSQL(Into(first.next, t), h).err == Some([NoValues])
  {
  }

  /** The result of the `n`-th of `n` consecutive `ToSQL` calls. */
  function Repeat(b: InsertContainer, h: Heap, n: nat): Rendered<InsertContainer>
    requires ValidRef(h, b.table) && n >= 1
    decreases n
  {
    if n == 1 then ToSQL(b, h) else Repeat(ToSQL(b, h).next, h, n - 1)
  }

  /** Once an error is recorded, every further call returns "" and that error
      and leaves the builder as it was. */
  lemma {:induction false} ErrorIsFixpoint(b: InsertContainer, h: Heap, n: nat)
    requires ValidRef(h, b.table) && n >= 1 && |b.errs| > 0
    ensures Repeat(b, h, n) == Rendered("", Some(b.errs), b)
    decreases n
  {
    if n > 1 {
      ErrorIsFixpoint(b, h, n - 1);
    }
  }

  /** Without values, every call after the first fails, however many follow. */
  lemma EveryLaterCallFails(b: InsertContainer, h: Heap, n: nat)
    requires ValidRef(h, b.table) && b.errs == [] && b.values == [] && n >= 2
    ensures Repeat(b, h, n).sql == "" && Repeat(b, h, n).err == Some([NoValues])
  {
    ErrorIsFixpoint(ToSQL(b, h).next, h, n - 1);
  }

  lemma NoValuesText()
    ensures "INSERT INTO " + "users" + " ( " + "id" + " );" == "INSERT INTO users ( id );"
  {
  }

  /** `Insert("id").Into(Table("users"))` without `Value`: the first call gives
      `INSERT INTO users ( id );` and a nil error, the second "" and an error. */
  lemma NoValuesExample(h0: Heap)
    ensures var (h, p) := Table(h0, "users");
      var b := Into(Insert([Name("id")]), Some(p));
      && ToSQL(b, h).sql == "INSERT INTO users ( id );" && ToSQL(b, h).err.None?
      && ToSQL(ToSQL(b, h).next, h) == Rendered("", Some([NoValues]), ToSQL(b, h).next)
  {
    var (h, p) := Table(h0, "users");
    var b := Into(Insert([Name("id")]), Some(p));
    assert InsertFields([Name("id")]) == ["id"];
    assert b == InsertContainer(["id"], Some(p), [], []);
    RendersWithoutValues(b, h);
    TableText(h.tables[p]);
    NoValuesText();
  }

  lemma NoTableShape(F: string, V: string)
    ensures "INSERT" + "" + (" ( " + F + " )") + (" VALUES ( " + V + " )") + ";"
      == "INSERT ( " + F + " ) VALUES ( " + V + " );"
  {
  }

  lemma NoTableText()
    ensures "INSERT ( " + "id" + " ) VALUES ( " + "1" + " );" == "INSERT ( id ) VALUES ( 1 );"
  {
  }

  /** Without `Into` the INTO segment is left out: `Insert("id").Value(1)`
      renders `INSERT ( id ) VALUES ( 1 );`. */
  lemma NoTableExample(h: Heap)
    ensures ToSQL(Value(Insert([Name("id")]), [Int(1)]), h).sql == "INSERT ( id ) VALUES ( 1 );"
  {
    OneText();
    var b := Value(Insert([Name("id")]), [Int(1)]);
    assert InsertFields([Name("id")]) == ["id"];
    assert b == InsertContainer(["id"], None, ["1"], []);
    RendersStatement(b, h);
    NoTableShape("id", "1");
    NoTableText();
  }

  /** A bare `Insert()` renders `INSERT;` with a nil error and records the
      no-values error. */
  lemma BareInsertExample(h: Heap)
    ensures ToSQL(Insert([]), h) == Rendered("INSERT;", None, InsertContainer([], None, [], [NoValues]))
  {
    RendersStatement(Insert([]), h);
  }


  /** Without a recorded error and with values, `ToSQL` changes nothing, so
      calling it again gives the same answer. */
  lemma ToSQLIdempotent(b: InsertContainer, h: Heap)
    requires ValidRef(h, b.table)
    requires b.errs == [] && |b.values| > 0
    ensures ToSQL(b, h).next == b
    ensures ToSQL(ToSQL(b, h).next, h) == ToSQL(b, h)
  {
  }

  lemma OneText()
    ensures IntToString(1) == "1" && ValueEntry([Int(1)]) == "1"
  {
    assert FormatValues([Int(1)])[0] == "1";
    assert FormatValues([Int(1)]) == ["1"];
  }

  lemma SingleColumnText()
    ensures "INSERT INTO " + "users" + " ( " + "id" + " ) VALUES ( " + "1" + " );"
      == "INSERT INTO users ( id ) VALUES ( 1 );"
  {
  }

  /** insert_test.go: `Insert("id").Into(Table("users")).Value(1)`. */
  lemma SingleColumnExample(h0: Heap)
    ensures var (h, p) := Table(h0, "users");
      ToSQL(Value(Into(Insert([Name("id")]), Some(p)), [Int(1)]), h)
        == Rendered("INSERT INTO users ( id ) VALUES ( 1 );", None,
                    InsertContainer(["id"], Some(p), ["1"], []))
  {
    var (h, p) := Table(h0, "users");
    var b := Value(Into(Insert([Name("id")]), Some(p)), [Int(1)]);
    OneText();
    assert InsertFields([Name("id")]) == ["id"];
    assert b == InsertContainer(["id"], Some(p), ["1"], []);
    RendersFullStatement(b, h);
    TableText(h.tables[p]);
    SingleColumnText();
  }

  lemma TwoColumnEntry()
    ensures ValueEntry([Int(1), Str("test")]) == "1, 'test'"
  {
    OneText();
    var f := FormatValues([Int(1), Str("test")]);
    assert f[0] == "1" && f[1] == "'test'";
    assert f == ["1", "'test'"];
    Join2("1", "'test'", ", ");
  }

  lemma TwoColumnText()
    ensures "INSERT INTO " + "users" + " ( " + ("id" + ", " + "name") + " ) VALUES ( " + "1, 'test'" + " );"
      == "INSERT INTO users ( id, name ) VALUES ( 1, 'test' );"
  {
  }

  /** insert_test.go: `Insert("id", "name").Into(Table("users")).Value(1, "test")`. */
  lemma TwoColumnExample(h0: Heap)
    ensures var (h, p) := Table(h0, "users");
      ToSQL(Value(Into(Insert([Name("id"), Name("name")]), Some(p)), [Int(1), Str("test")]), h).sql
        == "INSERT INTO users ( id, name ) VALUES ( 1, 'test' );"
  {
    var (h, p) := Table(h0, "users");
    var b := Value(Into(Insert([Name("id"), Name("name")]), Some(p)), [Int(1), Str("test")]);
    TwoColumnEntry();
    Join2("id", "name", ", ");
    assert b.fields == ["id", "name"] && b.values == ["1, 'test'"];
    RendersFullStatement(b, h);
    TableText(h.tables[p]);
    TwoColumnText();
  }

  lemma AliasedText()
    ensures "INSERT INTO " + ("users" + " AS " + "u") + " ( " + "id" + " ) VALUES ( " + "1" + " );"
      == "INSERT INTO users AS u ( id ) VALUES ( 1 );"
  {
  }

  /** Aliasing the table after `Into` still shows: the builder holds the
      pointer, so it renders `INTO users AS u`. */
  lemma AliasAfterIntoIsRendered(h0: Heap)
    ensures var (h1, p) := Table(h0, "users");
      var b := Value(Into(Insert([Name("id")]), Some(p)), [Int(1)]);
      var (h2, _) := As(h1, p, "u");
      ToSQL(b, h2).sql == "INSERT INTO users AS u ( id ) VALUES ( 1 );"
  {
    var (h1, p) := Table(h0, "users");
    var b := Value(Into(Insert([Name("id")]), Some(p)), [Int(1)]);
    var (h2, _) := As(h1, p, "u");
    OneText();
    assert InsertFields([Name("id")]) == ["id"];
    assert b == InsertContainer(["id"], Some(p), ["1"], []);
    RendersFullStatement(b, h2);
    TableText(h2.tables[p]);
    AliasedText();
  }
}
