/** String helpers the renderers are built from: Go's `strings.Join` and the
    decimal `%d` rendering of an `int`. */
module Text {

  /** Sum of the lengths of the elements. */
  function TotalLength(xs: seq<string>): nat
  {
    if |xs| == 0 then 0 else |xs[0]| + TotalLength(xs[1..])
  }

  /** `strings.Join(xs, sep)`: the elements separated by `sep`; "" for none. */
  function Join(xs: seq<string>, sep: string): (r: string)
    ensures |xs| == 0 ==> r == ""
    ensures |xs| == 1 ==> r == xs[0]
    ensures |xs| > 0 ==> |r| == TotalLength(xs) + (|xs| - 1) * |sep|
  {
    if |xs| == 0 then ""
    else if |xs| == 1 then xs[0]
    else xs[0] + sep + Join(xs[1..], sep)
  }

  /** An independent reference definition of joining, built from the back. */
  function JoinFromBack(xs: seq<string>, sep: string): string
  {
    if |xs| == 0 then ""
    else if |xs| == 1 then xs[0]
    else JoinFromBack(xs[..|xs| - 1], sep) + sep + xs[|xs| - 1]
  }

  lemma {:induction false} JoinCons(x: string, xs: seq<string>, sep: string)
    requires |xs| > 0
    ensures Join([x] + xs, sep) == x + sep + Join(xs, sep)
  {
    assert ([x] + xs)[1..] == xs;
  }

  lemma Join2(a: string, b: string, sep: string)
    ensures Join([a, b], sep) == a + sep + b
  {
    JoinCons(a, [b], sep);
    assert [a] + [b] == [a, b];
  }

  lemma Join3(a: string, b: string, c: string, sep: string)
    ensures Join([a, b, c], sep) == a + sep + b + sep + c
  {
    Join2(b, c, sep);
    JoinCons(a, [b, c], sep);
    assert [a] + [b, c] == [a, b, c];
  }

  lemma Join4(a: string, b: string, c: string, d: string, sep: string)
    ensures Join([a, b, c, d], sep) == a + sep + b + sep + c + sep + d
  {
    Join3(b, c, d, sep);
    JoinCons(a, [b, c, d], sep);
    assert [a] + [b, c, d] == [a, b, c, d];
  }

  lemma JoinThen2(head: seq<string>, a: string, b: string, sep: string)
    requires |head| > 0
    ensures Join(head + [a, b], sep) == Join(head, sep) + sep + a + sep + b
  {
    JoinConcat(head, [a, b], sep);
    Join2(a, b, sep);
  }

  lemma JoinThen3(head: seq<string>, a: string, b: string, c: string, sep: string)
    requires |head| > 0
    ensures Join(head + [a, b, c], sep) == Join(head, sep) + sep + a + sep + b + sep + c
  {
    JoinConcat(head, [a, b, c], sep);
    Join3(a, b, c, sep);
  }

  lemma JoinThen4(head: seq<string>, a: string, b: string, c: string, d: string, sep: string)
    requires |head| > 0
    ensures Join(head + [a, b, c, d], sep) == Join(head, sep) + sep + a + sep + b + sep + c + sep + d
  {
    JoinConcat(head, [a, b, c, d], sep);
    Join4(a, b, c, d, sep);
  }

  /** Joining a concatenation puts one separator between the two halves. */
  lemma {:induction false} JoinConcat(a: seq<string>, b: seq<string>, sep: string)
    requires |a| > 0 && |b| > 0
    ensures Join(a + b, sep) == Join(a, sep) + sep + Join(b, sep)
  {
    if |a| == 1 {
      assert a + b == [a[0]] + b;
      JoinCons(a[0], b, sep);
    } else {
      assert (a + b)[1..] == a[1..] + b;
      JoinConcat(a[1..], b, sep);
    }
  }

  /** Appending an optional segment: nothing when it is empty, else one
      separator and the segment's own join. */
  lemma JoinSegment(head: seq<string>, seg: seq<string>, sep: string)
    requires |head| > 0
    ensures Join(head + seg, sep) == Join(head, sep) + (if seg == [] then "" else sep + Join(seg, sep))
  {
    if seg == [] {
      assert head + seg == head;
    } else {
      JoinConcat(head, seg, sep);
    }
  }

  /** Appending one element adds exactly the separator and that element. */
  lemma {:induction false} JoinAppend(xs: seq<string>, x: string, sep: string)
    requires |xs| > 0
    ensures Join(xs + [x], sep) == Join(xs, sep) + sep + x
  {
    JoinConcat(xs, [x], sep);
  }

  /** `Join` agrees with the back-to-front reference definition on every input. */
  lemma {:induction false} JoinMatchesReference(xs: seq<string>, sep: string)
    ensures Join(xs, sep) == JoinFromBack(xs, sep)
    decreases |xs|
  {
    if |xs| > 1 {
      var init := xs[..|xs| - 1];
      assert xs == init + [xs[|xs| - 1]];
      JoinAppend(init, xs[|xs| - 1], sep);
      JoinMatchesReference(init, sep);
    }
  }

  predicate IsDigit(c: char)
  {
    '0' <= c <= '9'
  }

  predicate AllDigits(s: string)
  {
    forall i :: 0 <= i < |s| ==> IsDigit(s[i])
  }

  function DigitChar(d: nat): (c: char)
    requires d < 10
    ensures IsDigit(c)
  {
    (('0' as int) + d) as char
  }

  function DigitValue(c: char): (d: nat)
    requires IsDigit(c)
    ensures d < 10
  {
    (c as int) - ('0' as int)
  }

  /** Decimal digits of `n`, most significant first, without leading zeros. */
  function NatToString(n: nat): (r: string)
    ensures |r| > 0 && AllDigits(r)
    ensures r[0] == '0' ==> n == 0
  {
    if n < 10 then [DigitChar(n)]
    else NatToString(n / 10) + [DigitChar(n % 10)]
  }

  /** The `%d` rendering of an int: a minus sign for negatives, then the
      digits with no leading zero; zero is the single digit "0". */
  function IntToString(i: int): (r: string)
    ensures |r| > 0
    ensures i < 0 <==> r[0] == '-'
    ensures i >= 0 ==> AllDigits(r)
    ensures i < 0 ==> |r| > 1 && AllDigits(r[1..])
    ensures i == 0 ==> r == "0"
    ensures i > 0 ==> r[0] != '0'
    ensures i < 0 ==> r[1] != '0'
    ensures IsDecimal(r)
  {
    if i < 0 then "-" + NatToString(-i) else NatToString(i)
  }

  /** Value of a digit string, read most significant first. */
  function ParseNat(s: string): nat
    requires AllDigits(s)
  {
    if |s| == 0 then 0
    else ParseNat(s[..|s| - 1]) * 10 + DigitValue(s[|s| - 1])
  }

  /** An optional minus sign followed by digits. */
  predicate IsDecimal(s: string)
  {
    && |s| > 0
    && (s[0] == '-' ==> AllDigits(s[1..]))
    && (s[0] != '-' ==> AllDigits(s))
  }

  /** Reads back what `IntToString` writes. */
  function ParseInt(s: string): int
    requires IsDecimal(s)
  {
    if s[0] == '-' then -(ParseNat(s[1..]) as int) else ParseNat(s)
  }

  lemma {:induction false} NatRoundTrip(n: nat)
    ensures ParseNat(NatToString(n)) == n
  {
    if n >= 10 {
      var s := NatToString(n);
      var front := NatToString(n / 10);
      assert s[..|s| - 1] == front;
      NatRoundTrip(n / 10);
    }
  }

  /** The decimal rendering of an int is read back to the same int. */
  lemma IntRoundTrip(i: int)
    ensures ParseInt(IntToString(i)) == i
  {
    if i < 0 {
      assert IntToString(i)[1..] == NatToString(-i);
      NatRoundTrip(-i);
    } else {
      NatRoundTrip(i);
    }
  }

  /** Distinct ints never render to the same text. */
  lemma IntToStringInjective(a: int, b: int)
    requires IntToString(a) == IntToString(b)
    ensures a == b
  {
    IntRoundTrip(a);
    IntRoundTrip(b);
  }
}
