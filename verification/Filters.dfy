/** Filtering a sequence. */
module Filters {
  import opened Sorting

  function Filter<T>(s: seq<T>, f: T -> bool): seq<T> {
    if s == [] then [] else (if f(s[0]) then [s[0]] else []) + Filter(s[1..], f)
  }

  lemma {:induction false} FilterMembers<T>(s: seq<T>, f: T -> bool, x: T)
    ensures x in Filter(s, f) <==> x in s && f(x)
  {
    if s != [] {
      FilterMembers(s[1..], f, x);
      assert s == [s[0]] + s[1..];
    }
  }

  lemma {:induction false} FilterSnoc<T>(s: seq<T>, x: T, f: T -> bool)
    ensures Filter(s + [x], f) == Filter(s, f) + if f(x) then [x] else []
  {
    if s == [] {
      assert s + [x] == [x];
    } else {
      FilterSnoc(s[1..], x, f);
      assert (s + [x])[1..] == s[1..] + [x];
    }
  }

  lemma {:induction false} FilterInsert<T>(x: T, s: seq<T>, leq: (T, T) -> bool, f: T -> bool)
    ensures |Filter(Insert(x, s, leq), f)| == |Filter(s, f)| + if f(x) then 1 else 0
  {
    if s != [] && !leq(x, s[0]) {
      FilterInsert(x, s[1..], leq, f);
      assert Insert(x, s, leq)[1..] == Insert(x, s[1..], leq);
    } else {
      assert Insert(x, s, leq)[1..] == s;
    }
  }

  /** Sorting does not change how many pass. */
  lemma {:induction false} FilterSort<T>(s: seq<T>, leq: (T, T) -> bool, f: T -> bool)
    ensures |Filter(Sort(s, leq), f)| == |Filter(s, f)|
  {
    if s != [] {
      FilterSort(s[1..], leq, f);
      FilterInsert(s[0], Sort(s[1..], leq), leq, f);
    }
  }

  /** Two positions that pass make two elements. */
  lemma {:induction false} FilterTwo<T>(s: seq<T>, i: nat, k: nat, f: T -> bool)
    requires i < k < |s| && f(s[i]) && f(s[k])
    ensures |Filter(s, f)| >= 2
  {
    if i == 0 {
      FilterMembers(s[1..], f, s[k]);
      assert s[1..][k - 1] == s[k];
      assert s[k] in s[1..];
    } else {
      FilterTwo(s[1..], i - 1, k - 1, f);
    }
  }

  /** And two elements come from two positions. */
  lemma {:induction false} FilterPositions<T>(s: seq<T>, f: T -> bool) returns (i: nat, k: nat)
    requires |Filter(s, f)| >= 2
    ensures i < k < |s| && f(s[i]) && f(s[k])
  {
    if |Filter(s[1..], f)| >= 2 {
      i, k := FilterPositions(s[1..], f);
      i, k := i + 1, k + 1;
    } else {
      i := 0;
      var other := Filter(s[1..], f)[0];
      FilterMembers(s[1..], f, other);
      assert other in Filter(s[1..], f);
      k :| 1 <= k < |s| && s[k] == other;
    }
  }

  lemma FilterCons<T>(x: T, s: seq<T>, f: T -> bool)
    ensures Filter([x] + s, f) == (if f(x) then [x] else []) + Filter(s, f)
  {
    assert ([x] + s)[1..] == s;
  }

  /** Filtering by a weaker test first changes nothing. */
  lemma {:induction false} FilterWithin<T>(s: seq<T>, weak: T -> bool, strong: T -> bool)
    requires forall x :: strong(x) ==> weak(x)
    ensures Filter(Filter(s, weak), strong) == Filter(s, strong)
  {
    if s != [] {
      FilterWithin(s[1..], weak, strong);
      var rest := Filter(s[1..], weak);
      if weak(s[0]) {
        FilterCons(s[0], rest, strong);
        assert Filter(s, weak) == [s[0]] + rest;
      } else {
        assert !strong(s[0]);
        assert Filter(s, weak) == rest;
      }
    }
  }

  lemma {:induction false} FilterSame<T>(s: seq<T>, f: T -> bool, g: T -> bool)
    requires forall x :: x in s ==> (f(x) <==> g(x))
    ensures Filter(s, f) == Filter(s, g)
  {
    if s != [] {
      assert s[0] in s;
      FilterSame(s[1..], f, g);
    }
  }

  lemma {:induction false} FilterKeepsOrder<T>(s: seq<T>, leq: (T, T) -> bool, f: T -> bool)
    requires SortedBy(s, leq)
    ensures SortedBy(Filter(s, f), leq)
  {
    if s != [] {
      FilterKeepsOrder(s[1..], leq, f);
      var rest := Filter(s[1..], f);
      forall k | 0 <= k < |rest| ensures leq(s[0], rest[k]) {
        FilterMembers(s[1..], f, rest[k]);
        assert rest[k] in s[1..];
        var n :| 0 <= n < |s[1..]| && s[1..][n] == rest[k];
        assert s[n + 1] == rest[k];
      }
    }
  }

  /** Filtering and sorting commute. */
  lemma {:induction false} FilterSorted<T(!new)>(s: seq<T>, leq: (T, T) -> bool, f: T -> bool)
    requires Total(leq) && Transitive(leq)
    ensures Filter(Sort(s, leq), f) == Sort(Filter(s, f), leq)
  {
    if s != [] {
      var rest := Sort(s[1..], leq);
      FilterSorted(s[1..], leq, f);
      SortSorts(s[1..], leq);
      FilterInserted(s[0], rest, leq, f);
      if f(s[0]) {
        assert Filter(s, f) == [s[0]] + Filter(s[1..], f);
        assert Filter(s, f)[1..] == Filter(s[1..], f);
      } else {
        assert Filter(s, f) == Filter(s[1..], f);
      }
    }
  }

  lemma {:induction false} FilterInserted<T(!new)>(x: T, s: seq<T>, leq: (T, T) -> bool, f: T -> bool)
    requires Transitive(leq) && SortedBy(s, leq)
    ensures Filter(Insert(x, s, leq), f) == if f(x) then Insert(x, Filter(s, f), leq) else Filter(s, f)
  {
    if s == [] || leq(x, s[0]) {
      if s == [] {
        assert Insert(x, s, leq) == [x] + s;
      }
      FilterCons(x, s, f);
      var kept := Filter(s, f);
      if kept != [] {
        FilterMembers(s, f, kept[0]);
        assert kept[0] in kept;
        var i :| 0 <= i < |s| && s[i] == kept[0];
        assert i == 0 || leq(s[0], s[i]);
        assert leq(x, kept[0]);
      }
    } else {
      FilterInserted(x, s[1..], leq, f);
      FilterCons(s[0], Insert(x, s[1..], leq), f);
      FilterCons(s[0], s[1..], f);
      assert s == [s[0]] + s[1..];
      assert Insert(x, s, leq) == [s[0]] + Insert(x, s[1..], leq);
      var kept := Filter(s[1..], f);
      if f(s[0]) {
        assert Filter(s, f) == [s[0]] + kept;
        assert ([s[0]] + kept)[1..] == kept;
      } else {
        assert Filter(s, f) == kept;
      }
    }
  }

  // ----- differences

  function Elements<T>(s: seq<T>): set<T> {
    set x | x in s
  }

  /** `s.filter((x) => !others.has(x))`. */
  function Without<T(==)>(s: seq<T>, others: set<T>): seq<T> {
    if s == [] then [] else (if s[0] in others then [] else [s[0]]) + Without(s[1..], others)
  }

  lemma {:induction false} WithoutMembers<T>(s: seq<T>, others: set<T>)
    ensures forall x :: x in Without(s, others) <==> x in s && x !in others
  {
    if s != [] {
      assert s == [s[0]] + s[1..];
      WithoutMembers(s[1..], others);
    }
  }

  /** Dropping elements keeps the others in order. */
  lemma {:induction false} WithoutKeepsOrder<T>(s: seq<T>, others: set<T>, leq: (T, T) -> bool)
    requires SortedBy(s, leq)
    ensures SortedBy(Without(s, others), leq)
  {
    if s != [] {
      WithoutKeepsOrder(s[1..], others, leq);
      FirstBelowRest(s, others, leq);
    }
  }

  lemma WithoutMember<T>(s: seq<T>, others: set<T>, x: T)
    requires x in Without(s, others)
    ensures x in s
  {
    WithoutMembers(s, others);
  }

  lemma FirstBelowRest<T>(s: seq<T>, others: set<T>, leq: (T, T) -> bool)
    requires s != [] && SortedBy(s, leq)
    ensures forall x :: x in Without(s[1..], others) ==> leq(s[0], x)
  {
    forall x | x in Without(s[1..], others) ensures leq(s[0], x) {
      WithoutMember(s[1..], others, x);
      var n :| 0 <= n < |s[1..]| && s[1..][n] == x;
      assert s[n + 1] == x;
    }
  }
}
