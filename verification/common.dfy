/** What every statement builder shares: optional values (Go's nil pointers),
    the error tags the builders record, and the result of a `ToSQL` call. */
module Common {
  import opened Text

  datatype Option<+T> = None | Some(value: T)

  /** The errors the builders create; Go's message text is not modelled. */
  datatype BuildError =
    | NoValues        // insert.go: "no values provided for insertion"
    | NoTable         // update.go: "no set Table"
    | FailedSetTable  // select.go: "failed set table"

  /** One `ToSQL` call: the returned string, the returned error (None for Go's
      nil) and the builder state the call leaves behind. */
  datatype Rendered<B> = Rendered(sql: string, err: Option<seq<BuildError>>, next: B)

  /** Every renderer's last step: the tokens joined by single spaces, then a
      closing ';'. */
  function Statement(tokens: seq<string>): (r: string)
    requires |tokens| > 0
    ensures |r| > 0 && r[|r| - 1] == ';'
  {
    Join(tokens, " ") + ";"
  }
}
