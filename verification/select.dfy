/** select.go: `Select()`, `Field`, `From` and `ToSQL`, on the path where the
    table is given by name. Select's table container is allocated by
    `Select()` and never replaced, so it is never nil and is modelled as its
    name alone. */
module Select {
  import opened Common
  import opened Text

  datatype SelectContainer = SelectContainer(field: seq<string>, tableName: string, errs: seq<BuildError>)

  /** The argument of `From`: a table name, or a type `From` does not accept. */
  datatype FromArg = TableName(name: string) | Unsupported

  /** `Select()`: no fields, an empty table name, no errors. */
  function Select(): (b: SelectContainer)
    ensures b.field == [] && b.tableName == "" && b.errs == []
  {
    SelectContainer([], "", [])
  }

  /** `Field(fields...)`: replaces the field list. */
  function Field(b: SelectContainer, fields: seq<string>): (r: SelectContainer)
    ensures r.field == fields && r.tableName == b.tableName && r.errs == b.errs
  {
    b.(field := fields)
  }

  /** `From(table)`: a name sets the table name; anything else replaces the
      error list with a single "failed set table" error and keeps the name. */
  function From(b: SelectContainer, table: FromArg): (r: SelectContainer)
    ensures table.TableName? ==> r.tableName == table.name && r.errs == b.errs
    ensures table.Unsupported? ==> r.tableName == b.tableName && r.errs == [FailedSetTable]
    ensures r.field == b.field
  {
    match table
    case TableName(name) => b.(tableName := name)
    case Unsupported => b.(errs := [FailedSetTable])
  }

  /** The projection: the fields joined with ", ", or `*` when there are none. */
  function Projection(fields: seq<string>): string
  {
    if |fields| > 0 then Join(fields, ", ") else "*"
  }

  /** `ToSQL()`: "" and the errors if any were recorded, else the statement.
      The builder is never changed. */
  function ToSQL(b: SelectContainer): (r: Rendered<SelectContainer>)
    ensures |b.errs| > 0 ==> r.sql == "" && r.err == Some(b.errs)
    ensures |b.errs| == 0 ==> r.err.None? && |r.sql| > 0 && r.sql[|r.sql| - 1] == ';'
    ensures r.next == b
  {
    if |b.errs| > 0 then Rendered("", Some(b.errs), b)
    else Rendered(Statement(["SELECT", Projection(b.field), "FROM", b.tableName]), None, b)
  }

  lemma SelectText(P: string, T: string)
    ensures "SELECT" + " " + P + " " + "FROM" + " " + T + ";" == "SELECT " + P + " FROM " + T + ";"
  {
  }

  /** Without errors: `SELECT <fields or *> FROM <name>;` — FROM is always
      there, even for an empty name. */
  lemma RendersStatement(b: SelectContainer)
    requires b.errs == []
    ensures ToSQL(b).sql == "SELECT " + (if |b.field| > 0 then Join(b.field, ", ") else "*")
      + " FROM " + b.tableName + ";"
  {
    Join4("SELECT", Projection(b.field), "FROM", b.tableName, " ");
    SelectText(Projection(b.field), b.tableName);
  }

  /** `Field` twice: the second list replaces the first. */
  lemma FieldReplaces(b: SelectContainer, a: seq<string>, c: seq<string>)
    ensures Field(Field(b, a), c) == Field(b, c)
  {
  }

  /** An unsupported `From` argument poisons the builder: later `From` and
      `Field` calls do not clear the error, and `ToSQL` keeps returning "". */
  lemma FromFailureIsSticky(b: SelectContainer, name: string, fields: seq<string>)
    ensures var bad := From(b, Unsupported);
      && ToSQL(bad) == Rendered("", Some([FailedSetTable]), bad)
      && ToSQL(Field(From(bad, TableName(name)), fields)).sql == ""
      && ToSQL(Field(From(bad, TableName(name)), fields)).err == Some([FailedSetTable])
  {
  }

  lemma UsersText()
    ensures "SELECT " + "*" + " FROM " + "users" + ";" == "SELECT * FROM users;"
    ensures "SELECT " + ("id" + ", " + "name") + " FROM " + "users" + ";" == "SELECT id, name FROM users;"
  {
  }

  /** `Select().From("users")` renders `SELECT * FROM users;`, and with two
      fields `SELECT id, name FROM users;`. */
  lemma SelectExamples()
    ensures ToSQL(From(Select(), TableName("users"))).sql == "SELECT * FROM users;"
    ensures ToSQL(Field(From(Select(), TableName("users")), ["id", "name"])).sql == "SELECT id, name FROM users;"
  {
    RendersStatement(From(Select(), TableName("users")));
    RendersStatement(Field(From(Select(), TableName("users")), ["id", "name"]));
    Join2("id", "name", ", ");
    UsersText();
  }
}
