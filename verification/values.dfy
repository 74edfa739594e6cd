/** The dynamically typed (`interface{}`) arguments of the builders, as closed
    sum types with one case per type switch branch in the Go code. */
module Values {
  import opened Text

  /** A `*ColumnContainer`: a column captured with its table's name. */
  datatype ColumnRef = ColumnRef(tName: string, col: string)

  /** A column given as a field name or column key: a Go `string`, a
      `*ColumnContainer`, or any other dynamic type. */
  datatype ColumnArg = Name(s: string) | Column(ref: ColumnRef) | Unsupported

  /** A value given to `Value`, `Eq` or `Set`. `Int` is exactly Go's `int`;
      `Float` and `Other` carry the text Go's `%f` and `%v` verbs print for
      them, which this model does not compute. */
  datatype Value =
    | Str(s: string)
    | Int(i: int)
    | Float(fixed: string)
    | Bool(b: bool)
    | Other(text: string)

  /** A column qualified by its table: the table name, a dot, the column. */
  function Qualified(c: ColumnRef): (r: string)
    ensures |r| == |c.tName| + 1 + |c.col|
    ensures r[..|c.tName|] == c.tName && r[|c.tName|] == '.' && r[|c.tName| + 1..] == c.col
  {
    c.tName + "." + c.col
  }

  /** The column text a `ColumnArg` selects; Go leaves the variable at its
      zero value "" for an unsupported type. */
  function ColumnKey(c: ColumnArg): string
  {
    match c
    case Name(s) => s
    case Column(ref) => Qualified(ref)
    case Unsupported => ""
  }

  /** A value literal inside `Value(...)`: strings in single quotes with no
      escaping, ints in decimal, bools as `true`/`false`, the rest as Go prints
      them. */
  function FormatValue(v: Value): (r: string)
    ensures v.Str? ==> |r| == |v.s| + 2 && r[0] == '\'' && r[|r| - 1] == '\'' && r[1..|r| - 1] == v.s
    ensures v.Int? ==> r == IntToString(v.i) && IsDecimal(r) && ParseInt(r) == v.i
    ensures v.Bool? ==> (r == "true" <==> v.b) && (r == "false" <==> !v.b)
    ensures v.Float? ==> r == v.fixed
    ensures v.Other? ==> r == v.text
  {
    match v
    case Str(s) => "'" + s + "'"
    case Int(i) => IntRoundTrip(i); IntToString(i)
    case Float(fixed) => fixed
    case Bool(b) => if b then "true" else "false"
    case Other(text) => text
  }

  function FormatValues(vs: seq<Value>): (r: seq<string>)
    ensures |r| == |vs|
    ensures forall i :: 0 <= i < |vs| ==> r[i] == FormatValue(vs[i])
  {
    seq(|vs|, i requires 0 <= i < |vs| => FormatValue(vs[i]))
  }
}
