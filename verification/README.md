# fs-builder SQL rendering, modelled in Dafny

This project models the SQL-text rendering core of the Go library `fsb`
(fs-builder). The library has table references with optional aliases, an
`Eq` leaf condition, and five statement builders: INSERT, UPDATE, DELETE,
TRUNCATE and SELECT. Each builder collects state through chained setter
calls, and its `ToSQL` turns that state into one `;`-terminated string. The
tokens of that string are joined by single spaces.

The model uses immutable datatypes and pure functions:

- `Text` (`text.dfy`) defines `Join`, which is Go's `strings.Join`. It also
  defines `IntToString`, which is the `%d` rendering of an `int`, minus sign
  included. Each has a partner: `Join` is proved equal to a back-to-front
  reference definition, and `IntToString` is proved to round-trip through a parser.
- `Common` (`common.dfy`) holds `Option` (Go's nil), the error tags, and
  `Rendered`. A `Rendered` value is what one `ToSQL` call gives back: the
  string, the returned error, and the builder state left for the next call.
  The sticky errors are stated over that state.
- `Tables` (`tables.dfy`) models `TableContainer` behind a pointer. Builders
  hold a `*TableContainer`, so a later `As` on that pointer changes what the
  builder renders. The model keeps this: a `Heap` holds the containers, a
  `Ptr` indexes into it, and every renderer reads the heap.
- `Values` (`values.dfy`) models the `interface{}` arguments as closed sum
  types. It also defines value formatting and `tName.col` column rendering.
- `Expressions` (`expression.go`'s `Eq`), `Insert`, `Update`, `Delete`,
  `Truncate` and `Select` follow the Go files one to one.

Facts about the Go code that shape the model:

- Several `Value` calls render inside one `VALUES ( … )` group, joined with
  ", " (insert.go:97).
- UPDATE's SET list comes from ranging over a Go map (update.go:84-86), so
  its order is unspecified. The model passes the visiting order as an
  argument and proves per-key and permutation facts about it.
- SELECT renders the table's name alone after `FROM`, with no alias segment
  (select.go:61). Its state is the field list and the table name.
- `expression.go` defines one condition constructor, `Eq` (expression.go:11-23).
- No builder checks that a table name is non-empty; `Table("")` is accepted
  (table.go:12-17).

## Model

| member | source | states |
|---|---|---|
| Text.Join | insert.go:93 | `strings.Join`: "" for no elements, the element itself for one; total length is the element lengths plus one separator between each pair |
| Text.JoinMatchesReference | insert.go:102 | joining front-to-back agrees with an independent back-to-front definition on every input |
| Text.JoinConcat | insert.go:102 | joining a concatenation puts exactly one separator between the joined halves |
| Text.IntToString | expression.go:17 | `%d`: non-empty, starts with '-' exactly for negatives, otherwise digits only, no leading zero |
| Text.IntRoundTrip | expression.go:17 | the decimal text of every int parses back to that int |
| Text.IntToStringInjective | insert.go:57-58 | two different ints never render to the same text |
| Common.Statement | insert.go:102 | every rendering is the tokens joined by single spaces and ends in ';' |
| Tables.Table | table.go:12-16 | a fresh container with display name and base name both equal to the argument; earlier containers unchanged |
| Tables.As | table.go:21-24 | returns the same pointer it mutated; sets the display name only; base name and every other container unchanged |
| Tables.TableTokens | delete.go:43-49 | a table renders base name first and display name last, with an `AS` between them exactly when the two names differ |
| Tables.TableText | insert.go:85-89 | the table reference as text: `bName AS name` when aliased, the name alone otherwise |
| Tables.AliasRendering | table.go:21-24 | after `As(alias)` the table renders `bName AS alias`, except that `As(bName)` brings back the bare name |
| Tables.AsTwiceLastWins | table.go:22 | two `As` calls leave the same heap as the last one alone |
| Tables.FreshTableUnaliased | table.go:12-16 | a table never aliased renders as its name with no `AS` |
| Tables.RefTokens | insert.go:84-90 | a nil table contributes no tokens, a table its reference tokens |
| Values.Qualified | insert.go:26 | a column reference renders as its table name, a '.', then the column name |
| Values.FormatValue | insert.go:54-65 | strings in single quotes with the content copied unescaped; ints exactly as `%d` renders them (`IntToString`), text that parses back; bools as `true` / `false`; float and other values as the text Go prints for them, copied |
| Values.FormatValues | insert.go:53-66 | one formatted literal per argument, in argument order |
| Expressions.Eq | expression.go:11-23 | string: `target = ` then the quoted string; int: `target = ` then the decimal; any other type: the empty condition, and only then |
| Expressions.EqRoundTrip | expression.go:14-17 | the compared value is recovered from the condition, so quoting alone tells strings from ints |
| Expressions.EqInjective | expression.go:13-18 | two different comparable values never give the same condition on one target |
| Expressions.EqExamples | expression_test.go:22-44 | `test = 'user1'` and `test = 1`; an embedded quote stays unescaped; a bool gives "" |
| Insert.InsertFields | insert.go:20-29 | the field list has at most one entry per argument; all kept arguments keep their text and order; all unsupported arguments give an empty list |
| Insert.InsertFieldsAppend | insert.go:21-28 | adding one more argument adds its text at the end, or nothing for a dropped type |
| Insert.Insert | insert.go:17-35 | a new builder: the collected fields, no table, no values, no errors |
| Insert.Into | insert.go:40-44 | sets the table pointer, nil allowed, and changes nothing else |
| Insert.Value | insert.go:51-71 | appends exactly one entry after the existing ones: the formatted arguments joined with ", " |
| Insert.ToSQL | insert.go:77-103 | a recorded error wins ("" plus the errors, state unchanged); otherwise a nil error and a ';'-terminated string; a call with no values records the "no values" error |
| Insert.RendersStatement | insert.go:82-102 | for every combination of table, fields and values: `INSERT`, then ` INTO <table>` only with a table, ` ( f1, f2 )` only with fields, ` VALUES ( v1, v2 )` only with values, then ';' |
| Insert.RendersFullStatement | insert.go:82-102 | `INSERT INTO <table> ( f1, f2 ) VALUES ( v1, v2 );`, with `<table>` as `bName AS name` when aliased |
| Insert.RendersWithoutValues | insert.go:82-102 | with fields and no values the statement stops after the field list: `INSERT INTO <table> ( f1, f2 );` |
| Insert.ValuesShareOneGroup | insert.go:96-97 | two `Value` calls share one group, their entries joined with ", " |
| Insert.NoValuesErrorIsSticky | insert.go:78-102 | the first call without values returns text and a nil error; every later call returns "" and the error, and `Value` and `Into` do not clear it |
| Insert.ErrorIsFixpoint | insert.go:77-80 | once an error is recorded, the n-th of any number of further calls returns "" with that error and leaves the builder unchanged |
| Insert.EveryLaterCallFails | insert.go:77-102 | without values, the n-th call for every n of 2 or more returns "" with the no-values error |
| Insert.NoValuesExample | insert.go:77-102 | `Insert("id").Into(Table("users"))` renders `INSERT INTO users ( id );` with a nil error once, then "" with the no-values error |
| Insert.NoTableExample | insert.go:84-97 | without `Into`, `Insert("id").Value(1)` renders `INSERT ( id ) VALUES ( 1 );` |
| Insert.BareInsertExample | insert.go:82-102 | a bare `Insert()` renders `INSERT;` with a nil error and records the no-values error |
| Insert.ToSQLIdempotent | insert.go:77-103 | with values and no error, `ToSQL` leaves the builder unchanged, so a repeated call gives the same result |
| Insert.SingleColumnExample | insert_test.go:15-21 | `INSERT INTO users ( id ) VALUES ( 1 );` with a nil error |
| Insert.TwoColumnExample | insert_test.go:24-30 | `INSERT INTO users ( id, name ) VALUES ( 1, 'test' );` |
| Insert.AliasAfterIntoIsRendered | insert.go:84-89 | aliasing the table after `Into` still shows in the output as `INTO users AS u` |
| Update.Update | update.go:20-25 | a new builder with the given table, an empty assignment map, no WHERE and no errors |
| Update.Set | update.go:30-43 | stores the value under the string key or `tName.col`, overwriting only that key |
| Update.SetMap | update.go:48-52 | replaces the whole assignment map |
| Update.Where | update.go:56-60 | replaces the condition; a nil condition clears it |
| Update.Assignments | update.go:82-86 | one `column = converted value` entry per visited key, in visiting order |
| Update.EnumerateKeys | update.go:84-86 | the map range: visits every key exactly once, in an arbitrary order |
| Update.EnumerationLength | update.go:84-86 | a visiting order has exactly as many entries as the map has keys |
| Update.OneAssignmentPerKey | update.go:82-88 | the SET list has exactly one entry per map key |
| Update.OrderOnlyPermutes | update.go:84-88 | two visiting orders give the same SET entries, only permuted |
| Update.ToSQL | update.go:62-95 | a recorded error wins; a nil table returns "" and an error and records it; otherwise the statement, a nil error, and no state change |
| Update.RendersStatement | update.go:67-94 | `UPDATE <table> SET c1 = v1, … [WHERE cond];`, with the table as `bName AS name` when aliased |
| Update.EmptyMapRendersEmptySet | update.go:80-88 | an empty map renders `UPDATE <table> SET ;` |
| Update.ErrorIsFixpoint | update.go:62-65 | once an error is recorded, the n-th of any number of further calls returns "" with that error and leaves the builder unchanged |
| Update.NilTableAlwaysFails | update.go:62-78 | with a nil table, every call, the first and each later one, returns "" with the no-table error |
| Update.NoTableIsSticky | update.go:63-78 | after a nil-table failure, every later call returns "" and the error, whatever setters run in between |
| Update.SetLastWins | update.go:40 | two `Set` calls on the same column keep only the last value |
| Update.WhereLastWins | update.go:57 | two `Where` calls keep only the last condition |
| Update.SetExample | update_test.go:15-21 | `UPDATE users SET id = 1;` |
| Update.WhereExample | update_test.go:46-52 | `UPDATE users SET name = 'test' WHERE id = 1;` |
| Update.TwoKeyExample | update_test.go:24-30 | with two keys the output is one of the two entry orders; the test pins one of them |
| Delete.Delete | delete.go:17-21 | a new builder with the given table, no WHERE and no errors |
| Delete.Where | delete.go:25-29 | replaces the condition, and touches neither the table nor the errors |
| Delete.WhereAll | delete.go:25-29 | a chain of `Where` calls never changes the table or the errors |
| Delete.WhereLastWins | delete.go:26 | after a chain of `Where` calls only the last condition is kept |
| Delete.ToSQL | delete.go:36-56 | "" plus the errors if any were recorded, otherwise a ';'-terminated statement and a nil error; the builder never changes |
| Delete.NeverErrors | delete.go:37-39 | every builder `Delete` and `Where` can produce renders with a nil error, and a repeated call gives the same result |
| Delete.RendersStatement | delete.go:41-55 | `DELETE FROM <table> [WHERE cond];` |
| Delete.NilTableRendering | delete.go:43-55 | a nil table renders `DELETE FROM;`, or `DELETE FROM WHERE cond;` with a condition |
| Delete.DeleteExample | delete_test.go:14-20 | `DELETE FROM users;` with a nil error |
| Delete.DeleteWhereExample | delete_test.go:22-28 | `DELETE FROM users WHERE id = 1;` |
| Delete.AliasThenRestore | delete.go:44-47 | an aliased table renders `DELETE FROM users AS u;`; aliasing it back to `users` renders `DELETE FROM users;` |
| Truncate.Truncate | truncate.go:16-20 | a new builder with the given table and no errors |
| Truncate.ToSQL | truncate.go:22-38 | "" plus the errors if any were recorded, otherwise a ';'-terminated statement and a nil error; the builder never changes |
| Truncate.RendersStatement | truncate.go:27-37 | `TRUNCATE TABLE <table>;`, or `TRUNCATE TABLE;` for nil; never an error, and a repeated call gives the same result |
| Truncate.TruncateExamples | truncate_test.go:14-20 | `TRUNCATE TABLE users;`, and `TRUNCATE TABLE users AS u;` once aliased |
| Select.Select | select.go:17-22 | a new builder with no fields, an empty table name and no errors |
| Select.Field | select.go:24-28 | replaces the field list |
| Select.From | select.go:30-44 | a name sets the table name; any other argument replaces the errors with one "failed set table" error |
| Select.ToSQL | select.go:46-65 | "" plus the errors if any were recorded, otherwise a ';'-terminated statement and a nil error; the builder never changes |
| Select.RendersStatement | select.go:51-64 | `SELECT <fields joined by ", " or *> FROM <name>;`, where FROM is always present |
| Select.FieldReplaces | select.go:25 | two `Field` calls keep only the second list |
| Select.FromFailureIsSticky | select.go:39-49 | after an unsupported `From`, later `From` and `Field` calls do not clear the error, and `ToSQL` keeps returning "" |
| Select.SelectExamples | select.go:51-64 | `SELECT * FROM users;` and `SELECT id, name FROM users;` |

## Left out

- The `dataset.Table` case of `From` and `getStructField` in select.go use Go reflection over struct tags and a `dataset` package. That package is not part of this model, so `From` models only the string case and the unsupported case.
- Float formatting (`%f`) and the `%v` fallback of `Value` are Go `fmt` behaviour. `Float` and `Other` values carry the text Go would print, and the model copies that text.
- `ConvertColumn` is not part of this model. UPDATE rendering takes the conversion as a `convert` argument. The examples use the string-quoting and int-decimal conversion that update_test.go pins down.
- Go's map iteration order is unspecified. UPDATE rendering takes the visiting order as an argument, constrained by `Enumerates`, and `EnumerateKeys` is a loop that picks each key arbitrarily.
- Error messages and `errors.Join` are reduced to a list of error tags.
- `ColumnContainer`'s definition is not part of this model. It is modelled as the pair `(tName, col)`. A column reference passed as a value (to `Value` or `Eq`) is an `Other` value.
- Builders are values threaded through the setters. Go's builders are shared pointers, as are the map given to `SetMap` and the slice given to `Field`. Aliasing of those through other variables is not modelled. Table pointers are modelled.
- Panics are not modelled. These are: `As` on a nil table, `Set` after `SetMap(nil)` (a write to a nil map), and a nil `*ColumnContainer` argument.
- Values.FormatValue: Go's `int` is 64-bit, and the model's `Int` takes any integer. Every value in the 64-bit range renders exactly as `%d` does.
- The other expression constructors named in expression_test.go (`Neq`, `Gt`, `Like`, `In`, `Between`, …) do not exist in expression.go. There is nothing to model for them.
- select_test.go calls `ToSQL` with one result, which does not match select.go's two results. It is not used.
