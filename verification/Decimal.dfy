/** Decimal numerals, and lists of them joined by a separator. */
module Decimal {
  import opened Types

  function Digit(d: nat): (c: char)
    requires d < 10
    ensures '0' <= c <= '9'
  {
    ('0' as int + d) as char
  }

  function Print(n: nat): string {
    if n < 10 then [Digit(n)] else Print(n / 10) + [Digit(n % 10)]
  }

  predicate AllDigits(s: string) {
    forall i :: 0 <= i < |s| ==> '0' <= s[i] <= '9'
  }

  /** The number a run of digits denotes, leading zeros and all. */
  function Value(s: string): nat
    requires AllDigits(s)
  {
    if s == [] then 0
    else 10 * Value(Front(s)) + (Last(s) as int - '0' as int)
  }

  lemma {:induction false} PrintValue(n: nat)
    ensures Print(n) != [] && AllDigits(Print(n)) && Value(Print(n)) == n
  {
    if n < 10 {
      assert Front(Print(n)) == [];
    } else {
      PrintValue(n / 10);
      assert Front(Print(n)) == Print(n / 10);
      assert Last(Print(n)) == Digit(n % 10);
    }
  }

  lemma PrintInjective(a: nat, b: nat)
    requires Print(a) == Print(b)
    ensures a == b
  {
    PrintValue(a);
    PrintValue(b);
  }

  /** Printed numbers joined by commas. */
  function Join(xs: seq<nat>): string {
    if xs == [] then ""
    else if |xs| == 1 then Print(xs[0])
    else Join(Front(xs)) + "," + Print(Last(xs))
  }

  lemma TailNotLonger(x: string, u: string, y: string, v: string, sep: char)
    requires x + [sep] + u == y + [sep] + v && sep !in v
    ensures |v| <= |u|
  {
    assert (x + [sep] + u)[|x|] == sep;
  }

  /** A separator absent from both tails splits a string in one way only. */
  lemma SplitUnique(x: string, u: string, y: string, v: string, sep: char)
    requires x + [sep] + u == y + [sep] + v && sep !in u && sep !in v
    ensures x == y && u == v
  {
    TailNotLonger(x, u, y, v, sep);
    TailNotLonger(y, v, x, u, sep);
    var s := x + [sep] + u;
    assert x == s[..|x|] == y && u == s[|x| + 1..] == v;
  }

  /** Only a list of two or more has a comma, and only the empty list prints as nothing. */
  lemma JoinShape(xs: seq<nat>)
    ensures ',' in Join(xs) <==> |xs| > 1
    ensures Join(xs) == "" <==> xs == []
  {
    if xs != [] {
      PrintValue(Last(xs));
    }
  }

  /** A joined list is digits and commas. */
  lemma {:induction false} JoinChars(xs: seq<nat>, sep: char)
    requires sep != ',' && !('0' <= sep <= '9')
    ensures sep !in Join(xs)
  {
    if xs != [] {
      PrintValue(Last(xs));
      JoinChars(Front(xs), sep);
    }
  }

  lemma JoinLast(xs: seq<nat>)
    requires |xs| > 1
    ensures Join(xs) == Join(Front(xs)) + [','] + Print(Last(xs)) && ',' !in Print(Last(xs))
  {
    PrintValue(Last(xs));
  }

  lemma {:induction false} JoinInjective(a: seq<nat>, b: seq<nat>)
    requires Join(a) == Join(b)
    ensures a == b
  {
    JoinShape(a);
    JoinShape(b);
    if |a| > 1 {
      JoinLast(a);
      JoinLast(b);
      SplitUnique(Join(Front(a)), Print(Last(a)), Join(Front(b)), Print(Last(b)), ',');
      JoinInjective(Front(a), Front(b));
      PrintInjective(Last(a), Last(b));
      assert a == Front(a) + [Last(a)] && b == Front(b) + [Last(b)];
    } else if |a| == 1 {
      PrintInjective(a[0], b[0]);
    }
  }
}
