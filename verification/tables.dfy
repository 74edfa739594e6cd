/** table.go: a table's base name and display name, and in-place aliasing.

    Go hands `*TableContainer` pointers to every builder, so a later `As` on
    the same pointer changes what an earlier builder renders. The model keeps
    that sharing: a `Heap` holds every container allocated so far and a
    `Ptr` is an index into it. */
module Tables {
  import opened Common
  import opened Text

  /** `name` is the display name, `bName` the base (physical) name. */
  datatype TableContainer = TableContainer(name: string, bName: string)

  type Ptr = nat

  datatype Heap = Heap(tables: seq<TableContainer>)

  predicate Allocated(h: Heap, p: Ptr)
  {
    p < |h.tables|
  }

  /** A builder's table field: nil, or a pointer the heap has allocated. */
  predicate ValidRef(h: Heap, t: Option<Ptr>)
  {
    t.None? || Allocated(h, t.value)
  }

  /** `Table(t)`: a fresh container whose display and base names are both `t`.
      Nothing already allocated changes. */
  function Table(h: Heap, t: string): (r: (Heap, Ptr))
    ensures r.1 == |h.tables| && Allocated(r.0, r.1)
    ensures r.0.tables[r.1].name == t && r.0.tables[r.1].bName == t
    ensures |r.0.tables| == |h.tables| + 1 && r.0.tables[..|h.tables|] == h.tables
  {
    (Heap(h.tables + [TableContainer(t, t)]), |h.tables|)
  }

  /** `t.As(tName)`: renames the display name of the container `p` points to,
      in place, and returns the same pointer. */
  function As(h: Heap, p: Ptr, tName: string): (r: (Heap, Ptr))
    requires Allocated(h, p)
    ensures r.1 == p
    ensures |r.0.tables| == |h.tables|
    ensures r.0.tables[p].name == tName && r.0.tables[p].bName == h.tables[p].bName
    ensures forall q :: 0 <= q < |h.tables| && q != p ==> r.0.tables[q] == h.tables[q]
  {
    (Heap(h.tables[p := h.tables[p].(name := tName)]), p)
  }

  /** The table reference every builder renders: `bName AS name` when the two
      names differ, else the name alone. As tokens: the first is always the base
      name, the last always the display name, and an `AS` token sits between
      them exactly when the table is aliased. */
  function TableTokens(t: TableContainer): (r: seq<string>)
    ensures |r| == 1 || |r| == 3
    ensures r[0] == t.bName && r[|r| - 1] == t.name
    ensures |r| == 3 <==> t.name != t.bName
    ensures |r| == 3 ==> r[1] == "AS"
  {
    if t.name != t.bName then [t.bName, "AS", t.name] else [t.name]
  }

  /** The table segment of a builder holding `t`: nothing for a nil table. */
  function RefTokens(h: Heap, t: Option<Ptr>): (r: seq<string>)
    requires ValidRef(h, t)
    ensures t.None? <==> r == []
    ensures t.Some? ==> r == TableTokens(h.tables[t.value])
  {
    if t.None? then [] else TableTokens(h.tables[t.value])
  }

  /** The table reference as text: `bName AS name` or the name alone. */
  lemma TableText(t: TableContainer)
    ensures t.name != t.bName ==> Join(TableTokens(t), " ") == t.bName + " AS " + t.name
    ensures t.name == t.bName ==> Join(TableTokens(t), " ") == t.name
  {
    if t.name != t.bName {
      Join3(t.bName, "AS", t.name, " ");
    }
  }

  /** A table no one has aliased renders as its name alone. */
  lemma FreshTableUnaliased(h: Heap, t: string)
    ensures TableTokens(Table(h, t).0.tables[Table(h, t).1]) == [t]
  {
  }

  /** After `As(alias)` the table renders as `bName AS alias` — unless the
      alias is the base name itself. */
  lemma AliasRendering(h: Heap, p: Ptr, alias: string)
    requires Allocated(h, p)
    ensures alias != h.tables[p].bName ==>
      TableTokens(As(h, p, alias).0.tables[p]) == [h.tables[p].bName, "AS", alias]
    ensures alias == h.tables[p].bName ==>
      TableTokens(As(h, p, alias).0.tables[p]) == [alias]
  {
  }

  /** Only the last of two aliases survives. */
  lemma AsTwiceLastWins(h: Heap, p: Ptr, a: string, b: string)
    requires Allocated(h, p)
    ensures As(As(h, p, a).0, p, b) == As(h, p, b)
  {
    assert As(As(h, p, a).0, p, b).0.tables == As(h, p, b).0.tables;
  }
}
