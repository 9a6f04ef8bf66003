/** The order in which `sort()` without a comparator puts strings. */
module Lexicographic {
  import opened Sorting

  predicate LexLeq(a: string, b: string) {
    a == [] || (b != [] && (a[0] < b[0] || (a[0] == b[0] && LexLeq(a[1..], b[1..]))))
  }

  lemma {:induction false} LexTotal(a: string, b: string)
    ensures LexLeq(a, b) || LexLeq(b, a)
  {
    if a != [] && b != [] {
      LexTotal(a[1..], b[1..]);
    }
  }

  lemma {:induction false} LexTransitive(a: string, b: string, c: string)
    requires LexLeq(a, b) && LexLeq(b, c)
    ensures LexLeq(a, c)
  {
    if a != [] && a[0] == b[0] && b[0] == c[0] {
      LexTransitive(a[1..], b[1..], c[1..]);
    }
  }

  lemma {:induction false} LexAntisymmetric(a: string, b: string)
    requires LexLeq(a, b) && LexLeq(b, a)
    ensures a == b
  {
    if a != [] {
      LexAntisymmetric(a[1..], b[1..]);
      assert a == [a[0]] + a[1..] && b == [b[0]] + b[1..];
    }
  }

  /** The order compares the first place where two texts differ; a text comes before its extensions. */
  lemma {:induction false} LexLeqMeaning(a: string, b: string)
    ensures LexLeq(a, b) <==> a <= b || exists i :: FirstBelow(a, b, i)
  {
    if a != [] && b != [] {
      LexLeqMeaning(a[1..], b[1..]);
      if a[0] == b[0] {
        if i :| FirstBelow(a[1..], b[1..], i) {
          assert a[..i + 1] == [a[0]] + a[1..][..i] && b[..i + 1] == [b[0]] + b[1..][..i];
          assert FirstBelow(a, b, i + 1);
        }
        if i :| FirstBelow(a, b, i) {
          assert i > 0;
          assert a[1..][..i - 1] == a[..i][1..] && b[1..][..i - 1] == b[..i][1..];
          assert FirstBelow(a[1..], b[1..], i - 1);
        }
      } else if a[0] < b[0] {
        assert FirstBelow(a, b, 0);
      }
    }
  }

  predicate FirstBelow(a: string, b: string, i: int) {
    0 <= i < |a| && i < |b| && a[..i] == b[..i] && a[i] < b[i]
  }

  lemma LexOrder()
    ensures Total<string>(LexLeq) && Transitive<string>(LexLeq)
  {
    forall a, b ensures LexLeq(a, b) || LexLeq(b, a) { LexTotal(a, b); }
    forall a, b, c | LexLeq(a, b) && LexLeq(b, c) ensures LexLeq(a, c) { LexTransitive(a, b, c); }
  }
}
