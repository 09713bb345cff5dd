/**
 SQLite's comparison of two TEXT values under the default BINARY collation:
 the strings are compared character by character, and when one is a proper
 prefix of the other the shorter one sorts first. The plotter's
 `timestamp BETWEEN start AND now` is decided by this order.
 */
module Collation {

  /** Three-way comparison: -1, 0 or 1 as `a` sorts before, equal to or after `b`. */
  function Cmp(a: string, b: string): (c: int)
    ensures -1 <= c <= 1
    ensures c == 0 <==> a == b
  {
    if a == [] then (if b == [] then 0 else -1)
    else if b == [] then 1
    else if a[0] < b[0] then -1
    else if b[0] < a[0] then 1
    else Cmp(a[1..], b[1..])
  }

  /** SQL `a <= b` on two TEXT values: a total order, so any two strings are comparable. */
  predicate LessEq(a: string, b: string): (r: bool)
    ensures r || Cmp(b, a) <= 0
  {
    CmpFlip(a, b);
    Cmp(a, b) <= 0
  }

  /**
   SQL `x BETWEEN lo AND hi`, that is `lo <= x AND x <= hi`: nothing lies
   between bounds given in the wrong order.
   */
  predicate Between(x: string, lo: string, hi: string): (r: bool)
    ensures r ==> LessEq(lo, hi)
  {
    if LessEq(lo, x) && LessEq(x, hi) then
      LessEqTrans(lo, x, hi);
      true
    else false
  }

  function Sign(n: int): int {
    if n < 0 then -1 else if n == 0 then 0 else 1
  }

  /** Lexicographic combination of two comparisons: the second decides only on a tie. */
  function Then(first: int, second: int): int {
    if first != 0 then first else second
  }

  /** Swapping the operands negates the comparison. */
  lemma {:induction false} CmpFlip(a: string, b: string)
    ensures Cmp(b, a) == -Cmp(a, b)
  {
    if a != [] && b != [] && a[0] == b[0] {
      CmpFlip(a[1..], b[1..]);
    }
  }

  /** The order is transitive. */
  lemma {:induction false} LessEqTrans(a: string, b: string, c: string)
    requires LessEq(a, b) && LessEq(b, c)
    ensures LessEq(a, c)
  {
    if a != [] && b != [] && c != [] && a[0] == b[0] && b[0] == c[0] {
      LessEqTrans(a[1..], b[1..], c[1..]);
    }
  }

  /** The order is antisymmetric: two strings each no greater than the other are equal. */
  lemma LessEqAntisym(a: string, b: string)
    requires LessEq(a, b) && LessEq(b, a)
    ensures a == b
  {
    CmpFlip(a, b);
  }

  /**
   Comparing two concatenations whose first parts have the same length: the
   first parts decide, and the second parts only break a tie.
   */
  lemma {:induction false} CmpAppend(a1: string, b1: string, a2: string, b2: string)
    requires |a1| == |a2|
    ensures Cmp(a1 + b1, a2 + b2) == Then(Cmp(a1, a2), Cmp(b1, b2))
  {
    if a1 != [] {
      assert (a1 + b1)[0] == a1[0] && (a2 + b2)[0] == a2[0];
      assert (a1 + b1)[1..] == a1[1..] + b1;
      assert (a2 + b2)[1..] == a2[1..] + b2;
      if a1[0] == a2[0] {
        CmpAppend(a1[1..], b1, a2[1..], b2);
      }
    } else {
      assert a1 + b1 == b1 && a2 + b2 == b2;
    }
  }
}
