/** Sums of a weight over the elements of a sequence. */
module Sums {
  import opened Basics

  function Sum<T>(s: seq<T>, w: T -> nat): nat {
    if s == [] then 0 else Sum(s[..|s| - 1], w) + w(Last(s))
  }

  lemma SumAppend<T>(s: seq<T>, x: T, w: T -> nat)
    ensures Sum(s + [x], w) == Sum(s, w) + w(x)
  {
    assert (s + [x])[..|s|] == s;
  }

  lemma {:induction false} SumUpdate<T>(s: seq<T>, i: nat, x: T, w: T -> nat)
    requires i < |s|
    ensures Sum(s[i := x], w) + w(s[i]) == Sum(s, w) + w(x)
  {
    var init := s[..|s| - 1];
    if i == |s| - 1 {
      assert s[i := x][..i] == init;
    } else {
      SumUpdate(init, i, x, w);
      assert s[i := x][..|s| - 1] == init[i := x];
    }
  }

  // ---------------------------------------------------------------------------
  // The same over the entries 1 to n of a map
  // ---------------------------------------------------------------------------

  function MapSum<T>(m: map<nat, T>, n: nat, w: T -> nat): nat {
    if n == 0 then 0
    else MapSum(m, n - 1, w) + if n in m then w(m[n]) else 0
  }

  /** Entries beyond `n` do not matter. */
  lemma {:induction false} MapSumFrame<T>(m: map<nat, T>, m': map<nat, T>, n: nat, w: T -> nat)
    requires forall k | 1 <= k <= n :: (k in m <==> k in m') && (k in m ==> m[k] == m'[k])
    ensures MapSum(m, n, w) == MapSum(m', n, w)
  {
    if n > 0 {
      MapSumFrame(m, m', n - 1, w);
    }
  }

  lemma MapSumInsert<T>(m: map<nat, T>, n: nat, x: T, w: T -> nat)
    ensures MapSum(m[n + 1 := x], n + 1, w) == MapSum(m, n, w) + w(x)
  {
    MapSumFrame(m, m[n + 1 := x], n, w);
  }

  lemma {:induction false} MapSumUpdate<T>(m: map<nat, T>, n: nat, i: nat, x: T, w: T -> nat)
    requires 1 <= i <= n && i in m
    ensures MapSum(m[i := x], n, w) + w(m[i]) == MapSum(m, n, w) + w(x)
  {
    if i == n {
      MapSumFrame(m, m[i := x], n - 1, w);
    } else {
      MapSumUpdate(m, n - 1, i, x, w);
    }
  }

  lemma {:induction false} MapSumPlus<T>(m: map<nat, T>, n: nat, u: T -> nat, v: T -> nat, w: T -> nat)
    requires forall k | k in m :: w(m[k]) == u(m[k]) + v(m[k])
    ensures MapSum(m, n, w) == MapSum(m, n, u) + MapSum(m, n, v)
  {
    if n > 0 {
      MapSumPlus(m, n - 1, u, v, w);
    }
  }

  lemma {:induction false} MapSumSame<T>(m: map<nat, T>, n: nat, u: T -> nat, w: T -> nat)
    requires forall k | k in m :: u(m[k]) == w(m[k])
    ensures MapSum(m, n, u) == MapSum(m, n, w)
  {
    if n > 0 {
      MapSumSame(m, n - 1, u, w);
    }
  }

  lemma {:induction false} MapSumZero<T>(m: map<nat, T>, n: nat, w: T -> nat)
    requires forall k | k in m && k <= n :: w(m[k]) == 0
    ensures MapSum(m, n, w) == 0
  {
    if n > 0 {
      MapSumZero(m, n - 1, w);
    }
  }

  /** A weight that is zero everywhere but at entry `i`. */
  lemma {:induction false} MapSumSingle<T>(m: map<nat, T>, n: nat, i: nat, w: T -> nat)
    requires 1 <= i <= n && i in m
    requires forall k | k in m && k != i :: w(m[k]) == 0
    ensures MapSum(m, n, w) == w(m[i])
  {
    if i == n {
      MapSumZero(m, n - 1, w);
    } else {
      MapSumSingle(m, n - 1, i, w);
    }
  }

  // ---------------------------------------------------------------------------
  // The same over the numbers below n
  // ---------------------------------------------------------------------------

  function IndexSum(n: nat, g: nat -> nat): nat {
    if n == 0 then 0 else IndexSum(n - 1, g) + g(n - 1)
  }

  /** The weight of the element at an index, zero past the end. */
  function At<T>(s: seq<T>, w: T -> nat): nat -> nat {
    (i: nat) => if i < |s| then w(s[i]) else 0
  }

  lemma {:induction false} IndexSumAtMost(n: nat, g: nat -> nat, h: nat -> nat)
    requires forall i: nat | i < n :: g(i) <= h(i)
    ensures IndexSum(n, g) <= IndexSum(n, h)
  {
    if n > 0 {
      IndexSumAtMost(n - 1, g, h);
    }
  }

  /** A bound on pairs of terms is one on the sums. */
  lemma {:induction false} IndexSumBound(
      n: nat, a: nat -> nat, b: nat -> nat, c: nat -> nat, d: nat -> nat, e: nat -> nat)
    requires forall i: nat | i < n :: a(i) <= b(i) + c(i) <= d(i) + e(i)
    ensures IndexSum(n, a) <= IndexSum(n, b) + IndexSum(n, c) <= IndexSum(n, d) + IndexSum(n, e)
  {
    if n > 0 {
      IndexSumBound(n - 1, a, b, c, d, e);
    }
  }

  lemma {:induction false} IndexSumLonger(n: nat, m: nat, g: nat -> nat)
    requires n <= m
    ensures IndexSum(n, g) <= IndexSum(m, g)
  {
    if n < m {
      IndexSumLonger(n, m - 1, g);
    }
  }

  lemma {:induction false} IndexSumZero(n: nat, g: nat -> nat)
    requires forall i: nat | i < n :: g(i) == 0
    ensures IndexSum(n, g) == 0
  {
    if n > 0 {
      IndexSumZero(n - 1, g);
    }
  }

  lemma IndexSumSame(n: nat, g: nat -> nat, h: nat -> nat)
    requires forall i: nat | i < n :: g(i) == h(i)
    ensures IndexSum(n, g) == IndexSum(n, h)
  {
    IndexSumAtMost(n, g, h);
    IndexSumAtMost(n, h, g);
  }

  lemma {:induction false} SumIsIndexSum<T>(s: seq<T>, w: T -> nat, n: nat)
    requires |s| <= n
    ensures Sum(s, w) == IndexSum(n, At(s, w))
    decreases n
  {
    if n > |s| {
      SumIsIndexSum(s, w, n - 1);
    } else if n > 0 {
      var init := s[..n - 1];
      SumIsIndexSum(init, w, n - 1);
      IndexSumSame(n - 1, At(init, w), At(s, w));
    }
  }
}
