/** update.go: `Update(table)`, `Set`, `SetMap`, `Where` and `ToSQL`.

    The SET list comes from ranging over a Go map, whose order is unspecified:
    rendering takes the visiting order as an argument, constrained to visit
    every key exactly once, and `EnumerateKeys` is a loop that picks each
    next key arbitrarily. `ConvertColumn` is not part of this model; its
    effect is the `convert` argument. */
module Update {
  import opened Common
  import opened Text
  import opened Tables
  import opened Values
  import opened Expressions

  datatype UpdateContainer = UpdateContainer(
    fields: map<string, Value>,
    table: Option<Ptr>,
    where: Option<Expression>,
    errs: seq<BuildError>)

  /** `Update(table)`: the given table (nil allowed), no assignments, no WHERE. */
  function Update(table: Option<Ptr>): (b: UpdateContainer)
    ensures b.table == table && b.fields == map[] && b.where.None? && b.errs == []
  {
    UpdateContainer(map[], table, None, [])
  }

  /** `Set(column, value)`: stores `value` under the column's text,
      overwriting that key only. */
  function Set(b: UpdateContainer, column: ColumnArg, value: Value): (r: UpdateContainer)
    ensures r.fields.Keys == b.fields.Keys + {ColumnKey(column)}
    ensures r.fields[ColumnKey(column)] == value
    ensures forall k :: k in b.fields && k != ColumnKey(column) ==> r.fields[k] == b.fields[k]
    ensures r.table == b.table && r.where == b.where && r.errs == b.errs
  {
    b.(fields := b.fields[ColumnKey(column) := value])
  }

  /** `SetMap(vmap)`: replaces the whole assignment map. */
  function SetMap(b: UpdateContainer, vmap: map<string, Value>): (r: UpdateContainer)
    ensures r.fields == vmap
    ensures r.table == b.table && r.where == b.where && r.errs == b.errs
  {
    b.(fields := vmap)
  }

  /** `Where(conditions)`: replaces any earlier condition (nil clears it). */
  function Where(b: UpdateContainer, conditions: Option<Expression>): (r: UpdateContainer)
    ensures r.where == conditions
    ensures r.fields == b.fields && r.table == b.table && r.errs == b.errs
  {
    b.(where := conditions)
  }

  /** No key appears twice. */
  predicate Distinct(s: seq<string>)
  {
    forall i, j :: 0 <= i < j < |s| ==> s[i] != s[j]
  }

  /** `order` visits every key of `keys` exactly once, as a Go map range does. */
  predicate Enumerates(order: seq<string>, keys: set<string>)
  {
    && Distinct(order)
    && (forall i :: 0 <= i < |order| ==> order[i] in keys)
    && (forall k :: k in keys ==> k in order)
  }

  /** One SET entry, `column = <converted value>` (update.go:85). */
  function Assignment(column: string, text: string): string
  {
    column + " = " + text
  }

  /** The SET entry of one key of the map. */
  function Entry(k: string, fields: map<string, Value>, convert: Value -> string): string
  {
    if k in fields then Assignment(k, convert(fields[k])) else ""
  }

  /** The SET entries in the visiting order: one per visited key. */
  function Assignments(order: seq<string>, fields: map<string, Value>, convert: Value -> string): (r: seq<string>)
    ensures |r| == |order|
    ensures forall i :: 0 <= i < |order| && order[i] in fields ==>
      r[i] == Assignment(order[i], convert(fields[order[i]]))
  {
    seq(|order|, i requires 0 <= i < |order| => Entry(order[i], fields, convert))
  }

  /** The range loop of `ToSQL`: visits the keys in an arbitrary order. */
  method EnumerateKeys(fields: map<string, Value>) returns (order: seq<string>)
    ensures Enumerates(order, fields.Keys)
  {
    order := [];
    var left := fields.Keys;
    while left != {}
      invariant left <= fields.Keys
      invariant forall i, j :: 0 <= i < j < |order| ==> order[i] != order[j]
      invariant forall i :: 0 <= i < |order| ==> order[i] in fields.Keys && order[i] !in left
      invariant forall k :: k in fields.Keys ==> k in left || k in order
      decreases left
    {
      var k :| k in left;
      order := order + [k];
      left := left - {k};
    }
  }

  function UpdateTokens(b: UpdateContainer, h: Heap, order: seq<string>, convert: Value -> string): seq<string>
    requires ValidRef(h, b.table) && b.table.Some?
    requires Enumerates(order, b.fields.Keys)
  {
    ["UPDATE"] + RefTokens(h, b.table)
    + ["SET", Join(Assignments(order, b.fields, convert), ", ")]
    + (if b.where.Some? then ["WHERE", b.where.value.condition] else [])
  }

  /** `ToSQL()`. A recorded error wins. A nil table is a hard failure: "" and
      an error, and the error is recorded so every later call fails too.
      Otherwise the statement is rendered and nothing changes. */
  function ToSQL(b: UpdateContainer, h: Heap, order: seq<string>, convert: Value -> string)
    : (r: Rendered<UpdateContainer>)
    requires ValidRef(h, b.table)
    requires Enumerates(order, b.fields.Keys)
    ensures |b.errs| > 0 ==> r == Rendered("", Some(b.errs), b)
    ensures |b.errs| == 0 && b.table.None? ==>
      r.sql == "" && r.err == Some([NoTable]) && r.next.errs == [NoTable]
    ensures r.err.None? <==> |b.errs| == 0 && b.table.Some?
    ensures r.err.None? ==> r.next == b && |r.sql| > 0 && r.sql[|r.sql| - 1] == ';'
    ensures r.next.fields == b.fields && r.next.table == b.table && r.next.where == b.where
  {
    if |b.errs| > 0 then Rendered("", Some(b.errs), b)
    else if b.table.None? then Rendered("", Some([NoTable]), b.(errs := b.errs + [NoTable]))
    else Rendered(Statement(UpdateTokens(b, h, order, convert)), None, b)
  }

  /** A visiting order has exactly as many entries as the map has keys. */
  lemma {:induction false} EnumerationLength(order: seq<string>, keys: set<string>)
    requires Enumerates(order, keys)
    ensures |order| == |keys|
    decreases |order|
  {
    if |order| > 0 {
      var last := order[|order| - 1];
      var init := order[..|order| - 1];
      assert Enumerates(init, keys - {last}) by {
        forall k | k in keys - {last} ensures k in init {
          var i :| 0 <= i < |order| && order[i] == k;
          assert i != |order| - 1;
          assert init[i] == k;
        }
      }
      EnumerationLength(init, keys - {last});
    }
  }

  /** Exactly one `c = v` entry per map key, whatever the visiting order. */
  lemma OneAssignmentPerKey(order: seq<string>, fields: map<string, Value>, convert: Value -> string)
    requires Enumerates(order, fields.Keys)
    ensures |Assignments(order, fields, convert)| == |fields|
    ensures forall k :: k in fields ==>
      exists i :: 0 <= i < |order| && order[i] == k
        && Assignments(order, fields, convert)[i] == Assignment(k, convert(fields[k]))
    ensures forall i, j :: 0 <= i < j < |order| ==> order[i] != order[j]
  {
    EnumerationLength(order, fields.Keys);
    assert |fields| == |fields.Keys|;
  }

  lemma AssignmentsSplit(x: seq<string>, y: seq<string>, fields: map<string, Value>, convert: Value -> string)
    ensures Assignments(x + y, fields, convert) == Assignments(x, fields, convert) + Assignments(y, fields, convert)
  {
    var l, r := Assignments(x + y, fields, convert), Assignments(x, fields, convert) + Assignments(y, fields, convert);
    assert |l| == |r|;
    forall i | 0 <= i < |l| ensures l[i] == r[i] {
      if i >= |x| {
        assert (x + y)[i] == y[i - |x|];
      }
    }
  }

  /** Two visiting orders of the same keys give the same SET entries, only
      permuted: the map's iteration order changes the order of the entries and
      nothing else. */
  lemma {:induction false} OrderOnlyPermutes(o1: seq<string>, o2: seq<string>, fields: map<string, Value>, convert: Value -> string)
    requires Enumerates(o1, fields.Keys) && Enumerates(o2, fields.Keys)
    ensures multiset(Assignments(o1, fields, convert)) == multiset(Assignments(o2, fields, convert))
  {
    PermutedOrders(o1, o2, fields, convert);
  }

  /** Removing the entry at `j` from a repeat-free sequence removes exactly
      that element. */
  lemma RemoveAt(o: seq<string>, j: nat)
    requires Distinct(o) && j < |o|
    ensures Distinct(o[..j] + o[j + 1..])
    ensures forall x :: x in o[..j] + o[j + 1..] <==> x in o && x != o[j]
  {
    var r := o[..j] + o[j + 1..];
    forall a, c | 0 <= a < c < |r| ensures r[a] != r[c] {
      var a' := if a < j then a else a + 1;
      var c' := if c < j then c else c + 1;
      assert r[a] == o[a'] && r[c] == o[c'] && a' < c';
    }
    forall x | x in o && x != o[j] ensures x in r {
      var m :| 0 <= m < |o| && o[m] == x;
      if m < j { assert r[m] == x; } else { assert r[m - 1] == x; }
    }
    forall x | x in r ensures x in o && x != o[j] {
      var m :| 0 <= m < |r| && r[m] == x;
      var m' := if m < j then m else m + 1;
      assert o[m'] == x && m' != j;
    }
  }

  /** Two sequences with the same members are empty together. */
  lemma SameMembersNonEmpty(o1: seq<string>, o2: seq<string>)
    requires forall x :: x in o1 <==> x in o2
    ensures |o2| > 0 ==> |o1| > 0
  {
    if |o2| > 0 {
      assert o2[0] in o1;
    }
  }

  /** The first key of `o1` sits at some position `j` of `o2`; without it the
      two orders still list the same keys once each. */
  lemma FirstKeyPosition(o1: seq<string>, o2: seq<string>) returns (j: nat)
    requires Distinct(o1) && Distinct(o2) && |o1| > 0
    requires forall x :: x in o1 <==> x in o2
    ensures j < |o2| && o2[j] == o1[0]
    ensures Distinct(o1[1..]) && Distinct(o2[..j] + o2[j + 1..])
    ensures forall x :: x in o1[1..] <==> x in o2[..j] + o2[j + 1..]
  {
    var k := o1[0];
    assert k in o2;
    j :| 0 <= j < |o2| && o2[j] == k;
    RemoveAt(o1, 0);
    assert o1[..0] + o1[1..] == o1[1..];
    RemoveAt(o2, j);
    forall x ensures x in o1[1..] <==> x in o2[..j] + o2[j + 1..] {
      assert x in o1[1..] <==> x in o1 && x != k;
      assert x in o2[..j] + o2[j + 1..] <==> x in o2 && x != k;
    }
  }

  lemma {:induction false} PermutedOrders(o1: seq<string>, o2: seq<string>, fields: map<string, Value>, convert: Value -> string)
    requires Distinct(o1) && Distinct(o2)
    requires forall x :: x in o1 <==> x in o2
    ensures multiset(Assignments(o1, fields, convert)) == multiset(Assignments(o2, fields, convert))
    decreases |o1|
  {
    if |o1| == 0 {
      SameMembersNonEmpty(o1, o2);
    } else {
      var j := FirstKeyPosition(o1, o2);
      var k, rest1, pre, post := o1[0], o1[1..], o2[..j], o2[j + 1..];
      PermutedOrders(rest1, pre + post, fields, convert);
      assert o1 == [k] + rest1;
      assert o2 == pre + [k] + post;
      MoveOneEntry(k, rest1, pre, post, fields, convert);
    }
  }

  /** Moving one key to another position only permutes the entries. */
  lemma MoveOneEntry(k: string, rest: seq<string>, pre: seq<string>, post: seq<string>,
                     fields: map<string, Value>, convert: Value -> string)
    requires multiset(Assignments(rest, fields, convert)) == multiset(Assignments(pre + post, fields, convert))
    ensures multiset(Assignments([k] + rest, fields, convert)) == multiset(Assignments(pre + [k] + post, fields, convert))
  {
    var a := Assignments([k], fields, convert);
    var A, B := Assignments(pre, fields, convert), Assignments(post, fields, convert);
    AssignmentsSplit([k], rest, fields, convert);
    AssignmentsSplit(pre, post, fields, convert);
    AssignmentsSplit(pre, [k], fields, convert);
    AssignmentsSplit(pre + [k], post, fields, convert);
    assert Assignments(pre + [k] + post, fields, convert) == A + a + B;
    assert multiset(A + a + B) == multiset(A) + multiset(a) + multiset(B);
    assert multiset(Assignments(pre + post, fields, convert)) == multiset(A) + multiset(B);
  }

  /** Set twice on the same column: the last value wins. */
  lemma SetLastWins(b: UpdateContainer, column: ColumnArg, v1: Value, v2: Value)
    ensures Set(Set(b, column, v1), column, v2) == Set(b, column, v2)
  {
  }

  /** Where twice: the last condition wins. */
  lemma WhereLastWins(b: UpdateContainer, e1: Option<Expression>, e2: Option<Expression>)
    ensures Where(Where(b, e1), e2) == Where(b, e2)
  {
  }

  /** A nil table poisons the builder: the first call and every later call,
      with any setter in between, returns "" and an error. */
  lemma NoTableIsSticky(b: UpdateContainer, h: Heap, convert: Value -> string, order: seq<string>,
                        column: ColumnArg, v: Value, vmap: map<string, Value>, e: Option<Expression>,
                        later: seq<string>)
    requires b.table.None? && b.errs == []
    requires Enumerates(order, b.fields.Keys) && Enumerates(later, vmap.Keys)
    ensures var first := ToSQL(b, h, order, convert);
      && first.sql == "" && first.err.Some? && first.next.errs == [NoTable]
      && ToSQL(first.next, h, order, convert) == Rendered("", Some([NoTable]), first.next)
    ensures var next := Where(SetMap(Set(ToSQL(b, h, order, convert).next, column, v), vmap), e);
      ToSQL(next, h, later, convert) == Rendered("", Some([NoTable]), next)
  {
  }

  /** The result of the `n`-th of `n` consecutive `ToSQL` calls, with one
      visiting order passed to every call. Go may visit the keys in a
      different order on each call; `Repeat` is only used on the error
      paths, which never read the order. */
  function Repeat(b: UpdateContainer, h: Heap, order: seq<string>, convert: Value -> string, n: nat)
    : Rendered<UpdateContainer>
    requires ValidRef(h, b.table) && Enumerates(order, b.fields.Keys) && n >= 1
    decreases n
  {
    if n == 1 then ToSQL(b, h, order, convert)
    else Repeat(ToSQL(b, h, order, convert).next, h, order, convert, n - 1)
  }

  /** Once an error is recorded, every further call returns "" and that error
      and leaves the builder as it was. */
  lemma {:induction false} ErrorIsFixpoint(b: UpdateContainer, h: Heap, order: seq<string>,
                                           convert: Value -> string, n: nat)
    requires ValidRef(h, b.table) && Enumerates(order, b.fields.Keys) && n >= 1 && |b.errs| > 0
    ensures Repeat(b, h, order, convert, n) == Rendered("", Some(b.errs), b)
    decreases n
  {
    if n > 1 {
      ErrorIsFixpoint(b, h, order, convert, n - 1);
    }
  }

  /** With a nil table every call fails, the first and all that follow. */
  lemma NilTableAlwaysFails(b: UpdateContainer, h: Heap, order: seq<string>, convert: Value -> string, n: nat)
    requires b.table.None? && b.errs == [] && Enumerates(order, b.fields.Keys) && n >= 1
    ensures Repeat(b, h, order, convert, n).sql == ""
    ensures Repeat(b, h, order, convert, n).err == Some([NoTable])
  {
    if n > 1 {
      ErrorIsFixpoint(ToSQL(b, h, order, convert).next, h, order, convert, n - 1);
    }
  }

  lemma UpdateSetText(T: string, S: string)
    ensures "UPDATE" + " " + T + " " + "SET" + " " + S == "UPDATE " + T + " SET " + S
  {
  }

  /** The text of the trailing WHERE clause, regrouped. It stays a lemma of
      its own: next to the `Join` facts of `TokensText` the solver does not find
      this step within its resource limit. */
  lemma WhereText(H: string, C: string)
    ensures H + " " + "WHERE" + " " + C == H + " WHERE " + C
  {
  }

  /** The `UPDATE <table> SET <entries>` head, as tokens and as text. */
  lemma HeadTokensText(t: seq<string>, S: string)
    requires |t| > 0
    ensures Join(["UPDATE"] + t + ["SET", S], " ") == "UPDATE " + Join(t, " ") + " SET " + S
  {
    JoinCons("UPDATE", t, " ");
    JoinThen2(["UPDATE"] + t, "SET", S, " ");
    UpdateSetText(Join(t, " "), S);
  }

  /** The statement's tokens joined: the head, then the WHERE clause if any. */
  lemma TokensText(b: UpdateContainer, h: Heap, order: seq<string>, convert: Value -> string)
    requires ValidRef(h, b.table) && b.table.Some?
    requires Enumerates(order, b.fields.Keys)
    ensures var head := "UPDATE " + Join(RefTokens(h, b.table), " ")
      + " SET " + Join(Assignments(order, b.fields, convert), ", ");
      Join(UpdateTokens(b, h, order, convert), " ")
        == head + (if b.where.Some? then " WHERE " + b.where.value.condition else "")
  {
    var t := RefTokens(h, b.table);
    var S := Join(Assignments(order, b.fields, convert), ", ");
    var front := ["UPDATE"] + t + ["SET", S];
    HeadTokensText(t, S);
    if b.where.Some? {
      var C := b.where.value.condition;
      assert UpdateTokens(b, h, order, convert) == front + ["WHERE", C];
      JoinThen2(front, "WHERE", C, " ");
      WhereText("UPDATE " + Join(t, " ") + " SET " + S, C);
    } else {
      assert UpdateTokens(b, h, order, convert) == front;
    }
  }

  /** The rendered statement: `UPDATE <table> SET c1 = v1, c2 = v2 [WHERE cond];`,
      the entries in the map's visiting order. */
  lemma RendersStatement(b: UpdateContainer, h: Heap, order: seq<string>, convert: Value -> string)
    requires ValidRef(h, b.table) && b.table.Some? && b.errs == []
    requires Enumerates(order, b.fields.Keys)
    ensures var head := "UPDATE " + Join(TableTokens(h.tables[b.table.value]), " ")
      + " SET " + Join(Assignments(order, b.fields, convert), ", ");
      ToSQL(b, h, order, convert).sql
        == head + (if b.where.Some? then " WHERE " + b.where.value.condition else "") + ";"
  {
    TokensText(b, h, order, convert);
  }

  /** An empty assignment map still renders the SET keyword, followed by the
      empty joined list: `UPDATE <table> SET ;`. */
  lemma EmptyMapRendersEmptySet(b: UpdateContainer, h: Heap, convert: Value -> string)
    requires ValidRef(h, b.table) && b.table.Some? && b.errs == []
    requires b.fields == map[] && b.where.None?
    ensures ToSQL(b, h, [], convert).sql
      == "UPDATE " + Join(TableTokens(h.tables[b.table.value]), " ") + " SET ;"
  {
    RendersStatement(b, h, [], convert);
  }

  /** A one-key map has a single visiting order. */
  lemma SingleKeyOrder(order: seq<string>, k: string)
    requires Enumerates(order, {k})
    ensures order == [k]
  {
    EnumerationLength(order, {k});
  }

  lemma FormatOne()
    ensures FormatValue(Int(1)) == "1"
  {
    assert IntToString(1) == "1";
  }

  lemma EntryTexts()
    ensures Assignment("id", "1") == "id = 1"
    ensures Assignment("name", "'test'") == "name = 'test'"
    ensures FormatValue(Str("test")) == "'test'"
  {
  }

  lemma SetExampleText()
    ensures "UPDATE " + "users" + " SET " + "id = 1" + "" + ";" == "UPDATE users SET id = 1;"
  {
  }

  /** update_test.go: `Update(Table("users")).Set("id", 1)` with the test's
      conversion of strings and ints. */
  lemma SetExample(h0: Heap, order: seq<string>)
    requires Enumerates(order, {"id"})
    ensures var (h, p) := Table(h0, "users");
      ToSQL(Set(Update(Some(p)), Name("id"), Int(1)), h, order, FormatValue).sql
        == "UPDATE users SET id = 1;"
  {
    var (h, p) := Table(h0, "users");
    var b := Set(Update(Some(p)), Name("id"), Int(1));
    assert b.fields == map["id" := Int(1)];
    SingleKeyOrder(order, "id");
    FormatOne();
    EntryTexts();
    var a := Assignments(order, b.fields, FormatValue);
    assert a[0] == "id = 1";
    assert a == ["id = 1"];
    RendersStatement(b, h, order, FormatValue);
    TableText(h.tables[p]);
    SetExampleText();
  }

  lemma WhereExampleText()
    ensures "UPDATE " + "users" + " SET " + "name = 'test'" + (" WHERE " + "id = 1") + ";"
      == "UPDATE users SET name = 'test' WHERE id = 1;"
  {
  }

  /** update_test.go: `Set("name", "test").Where(Eq("id", 1))`. */
  lemma WhereExample(h0: Heap, order: seq<string>)
    requires Enumerates(order, {"name"})
    ensures var (h, p) := Table(h0, "users");
      ToSQL(Where(Set(Update(Some(p)), Name("name"), Str("test")), Some(Eq("id", Int(1)))), h, order, FormatValue).sql
        == "UPDATE users SET name = 'test' WHERE id = 1;"
  {
    var (h, p) := Table(h0, "users");
    var b := Where(Set(Update(Some(p)), Name("name"), Str("test")), Some(Eq("id", Int(1))));
    assert b.fields == map["name" := Str("test")];
    SingleKeyOrder(order, "name");
    EntryTexts();
    var a := Assignments(order, b.fields, FormatValue);
    assert a[0] == "name = 'test'";
    assert a == ["name = 'test'"];
    assert IntToString(1) == "1";
    assert b.where.value.condition == "id = 1";
    RendersStatement(b, h, order, FormatValue);
    TableText(h.tables[p]);
    WhereExampleText();
  }

  lemma TwoKeyTexts()
    ensures "UPDATE " + "users" + " SET " + ("name = 'test'" + ", " + "id = 1") + "" + ";"
      == "UPDATE users SET name = 'test', id = 1;"
    ensures "UPDATE " + "users" + " SET " + ("id = 1" + ", " + "name = 'test'") + "" + ";"
      == "UPDATE users SET id = 1, name = 'test';"
  {
  }

  lemma TwoKeyEntries(order: seq<string>, fields: map<string, Value>)
    requires fields == map["name" := Str("test"), "id" := Int(1)]
    requires Enumerates(order, {"name", "id"})
    ensures var S := Join(Assignments(order, fields, FormatValue), ", ");
      S == "name = 'test'" + ", " + "id = 1" || S == "id = 1" + ", " + "name = 'test'"
  {
    EnumerationLength(order, {"name", "id"});
    FormatOne();
    EntryTexts();
    var a := Assignments(order, fields, FormatValue);
    if order[0] == "name" {
      assert order[1] == "id";
      assert a[0] == "name = 'test'" && a[1] == "id = 1";
      assert a == ["name = 'test'", "id = 1"];
      Join2("name = 'test'", "id = 1", ", ");
    } else {
      assert order[0] == "id" && order[1] == "name";
      assert a[0] == "id = 1" && a[1] == "name = 'test'";
      assert a == ["id = 1", "name = 'test'"];
      Join2("id = 1", "name = 'test'", ", ");
    }
  }

  /** update_test.go: two `Set` calls. The map's order decides which entry
      comes first; the test pins one of the two possible outputs. */
  lemma TwoKeyExample(h0: Heap, order: seq<string>)
    requires Enumerates(order, {"name", "id"})
    ensures var (h, p) := Table(h0, "users");
      var sql := ToSQL(Set(Set(Update(Some(p)), Name("name"), Str("test")), Name("id"), Int(1)), h, order, FormatValue).sql;
      sql == "UPDATE users SET name = 'test', id = 1;" || sql == "UPDATE users SET id = 1, name = 'test';"
  {
    var (h, p) := Table(h0, "users");
    var b := Set(Set(Update(Some(p)), Name("name"), Str("test")), Name("id"), Int(1));
    assert b.fields == map["name" := Str("test"), "id" := Int(1)];
    TwoKeyEntries(order, b.fields);
    RendersStatement(b, h, order, FormatValue);
    TableText(h.tables[p]);
    TwoKeyTexts();
  }
}
