/** Sums over sequences and maps, and how one change moves them. */
module Totals {
  function Total<T>(s: seq<T>, f: T -> nat): nat {
    if s == [] then 0 else f(s[0]) + Total(s[1..], f)
  }

  lemma {:induction false} TotalUpdate<T>(s: seq<T>, i: nat, x: T, f: T -> nat)
    requires i < |s|
    ensures Total(s[i := x], f) + f(s[i]) == Total(s, f) + f(x)
  {
    if i > 0 {
      TotalUpdate(s[1..], i - 1, x, f);
      assert s[i := x][1..] == s[1..][i - 1 := x];
    }
  }

  lemma {:induction false} TotalSnoc<T>(s: seq<T>, x: T, f: T -> nat)
    ensures Total(s + [x], f) == Total(s, f) + f(x)
  {
    if s == [] {
      assert s + [x] == [x];
    } else {
      TotalSnoc(s[1..], x, f);
      assert (s + [x])[1..] == s[1..] + [x];
    }
  }

  lemma {:induction false} TotalHas<T>(s: seq<T>, i: nat, f: T -> nat)
    requires i < |s|
    ensures f(s[i]) <= Total(s, f)
  {
    if i > 0 {
      TotalHas(s[1..], i - 1, f);
    }
  }

  lemma {:induction false} TotalPositive<T>(s: seq<T>, f: T -> nat) returns (i: nat)
    requires Total(s, f) > 0
    ensures i < |s| && f(s[i]) > 0
  {
    if f(s[0]) > 0 {
      i := 0;
    } else {
      i := TotalPositive(s[1..], f);
      i := i + 1;
    }
  }

  /** At most one element contributes when the total is at most one. */
  lemma {:induction false} TotalHasTwo<T>(s: seq<T>, i: nat, k: nat, f: T -> nat)
    requires i < k < |s|
    ensures f(s[i]) + f(s[k]) <= Total(s, f)
  {
    if i > 0 {
      TotalHasTwo(s[1..], i - 1, k - 1, f);
    } else {
      TotalHas(s[1..], k - 1, f);
    }
  }

  ghost function Sum<K>(m: map<K, nat>): nat {
    if m == map[] then 0 else
      var k :| k in m;
      m[k] + Sum(m - {k})
  }

  /** The sum does not depend on the order of the keys. */
  lemma {:induction false} SumPick<K>(m: map<K, nat>, k: K)
    requires k in m
    ensures Sum(m) == m[k] + Sum(m - {k})
    decreases |m|
  {
    var c :| c in m && Sum(m) == m[c] + Sum(m - {c});
    if c != k {
      SumPick(m - {c}, k);
      SumPick(m - {k}, c);
      assert m - {c} - {k} == m - {k} - {c};
    }
  }

  lemma SumPut<K>(m: map<K, nat>, k: K, n: nat)
    ensures Sum(m[k := n]) == (if k in m then Sum(m - {k}) else Sum(m)) + n
    ensures Sum(m[k := n]) <= Sum(m) + n
  {
    SumPick(m[k := n], k);
    if k in m {
      SumPick(m, k);
      assert m[k := n] - {k} == m - {k};
    } else {
      assert m[k := n] - {k} == m;
    }
  }

  lemma SumDrop<K>(m: map<K, nat>, k: K)
    ensures Sum(m - {k}) <= Sum(m)
  {
    if k in m {
      SumPick(m, k);
    } else {
      assert m - {k} == m;
    }
  }
}
