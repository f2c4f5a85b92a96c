/**
 Python's ordering of strings: lexicographic by code point, a proper prefix
 before its extensions. Grouping by product sorts the group keys by it.
 */
module Lex {

  /** `a <= b` on Python strings. */
  predicate LessEq(a: string, b: string)
    decreases |a|
  {
    |a| == 0 || (|b| > 0 && (a[0] < b[0] || (a[0] == b[0] && LessEq(a[1..], b[1..]))))
  }

  lemma {:induction false} Reflexive(a: string)
    ensures LessEq(a, a)
    decreases |a|
  {
    if |a| > 0 {
      Reflexive(a[1..]);
    }
  }

  lemma {:induction false} Antisymmetric(a: string, b: string)
    requires LessEq(a, b) && LessEq(b, a)
    ensures a == b
    decreases |a|
  {
    if |a| > 0 {
      assert |b| > 0 && a[0] == b[0];
      Antisymmetric(a[1..], b[1..]);
      assert a == [a[0]] + a[1..] && b == [b[0]] + b[1..];
    }
  }

  lemma {:induction false} Transitive(a: string, b: string, c: string)
    requires LessEq(a, b) && LessEq(b, c)
    ensures LessEq(a, c)
    decreases |a|
  {
    if |a| > 0 && a[0] == b[0] && b[0] == c[0] {
      Transitive(a[1..], b[1..], c[1..]);
    }
  }

  lemma {:induction false} Total(a: string, b: string)
    ensures LessEq(a, b) || LessEq(b, a)
    decreases |a|
  {
    if |a| > 0 && |b| > 0 && a[0] == b[0] {
      Total(a[1..], b[1..]);
    }
  }

  /** LessEq is a total order on strings. */
  lemma {:induction false} TotalOrder()
    ensures forall a: string :: LessEq(a, a)
    ensures forall a: string, b: string :: LessEq(a, b) && LessEq(b, a) ==> a == b
    ensures forall a: string, b: string, c: string :: LessEq(a, b) && LessEq(b, c) ==> LessEq(a, c)
    ensures forall a: string, b: string :: LessEq(a, b) || LessEq(b, a)
  {
    forall a: string {
      Reflexive(a);
    }
    forall a: string, b: string | LessEq(a, b) && LessEq(b, a) {
      Antisymmetric(a, b);
    }
    forall a: string, b: string, c: string | LessEq(a, b) && LessEq(b, c) {
      Transitive(a, b, c);
    }
    forall a: string, b: string {
      Total(a, b);
    }
  }
}
