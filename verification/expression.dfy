/** expression.go: the `Eq` leaf condition, the only expression the file
    defines. */
module Expressions {
  import opened Common
  import opened Text
  import opened Values

  datatype Expression = Expression(condition: string)

  /** Whether `Eq` produces a condition for this dynamic type. */
  predicate Comparable(v: Value)
  {
    v.Str? || v.Int?
  }

  /** `Eq(target, comp)`: `target = 'str'` for a string, `target = <decimal>`
      for an int, and the empty condition for every other type. The target
      and the string are copied verbatim. */
  function Eq(target: string, comp: Value): (e: Expression)
    ensures !Comparable(comp) <==> e.condition == ""
    ensures Comparable(comp) ==> |e.condition| > |target| + 3
    ensures Comparable(comp) ==> e.condition[..|target| + 3] == target + " = "
    ensures comp.Str? ==> e.condition[|target| + 3..] == "'" + comp.s + "'"
    ensures comp.Int? ==> e.condition[|target| + 3..] == IntToString(comp.i)
  {
    match comp
    case Str(s) => Expression(target + " = '" + s + "'")
    case Int(i) => Expression(target + " = " + IntToString(i))
    case _ => Expression("")
  }

  /** Reads the compared value back out of an `Eq` condition on `target`. */
  function ParseEq(target: string, cond: string): Option<Value>
  {
    var head := target + " = ";
    if |cond| <= |head| || cond[..|head|] != head then None
    else
      var lit := cond[|head|..];
      if |lit| >= 2 && lit[0] == '\'' && lit[|lit| - 1] == '\'' then Some(Str(lit[1..|lit| - 1]))
      else if IsDecimal(lit) then Some(Int(ParseInt(lit)))
      else None
  }

  /** Round trip: the value `Eq` was given is recovered from its condition,
      so a string and an int never give the same condition (quoting is what
      tells them apart). */
  lemma EqRoundTrip(target: string, comp: Value)
    requires Comparable(comp)
    ensures ParseEq(target, Eq(target, comp).condition) == Some(comp)
  {
    var lit := Eq(target, comp).condition[|target| + 3..];
    if comp.Str? {
      assert lit[1..|lit| - 1] == comp.s;
    } else {
      IntRoundTrip(comp.i);
      assert lit[0] != '\'';
    }
  }

  /** An `Eq` condition determines its value. */
  lemma EqInjective(target: string, a: Value, b: Value)
    requires Comparable(a) && Comparable(b)
    requires Eq(target, a) == Eq(target, b)
    ensures a == b
  {
    EqRoundTrip(target, a);
    EqRoundTrip(target, b);
  }

  /** expression_test.go: `Eq("test", "user1")` and `Eq("test", 1)`; an
      embedded quote is copied unescaped; a bool gives no condition. */
  lemma EqExamples()
    ensures Eq("test", Str("user1")).condition == "test = 'user1'"
    ensures Eq("test", Int(1)).condition == "test = 1"
    ensures Eq("name", Str("O'Brien")).condition == "name = 'O'Brien'"
    ensures Eq("flag", Bool(true)).condition == ""
  {
    assert IntToString(1) == "1";
  }
}
