/** Weighted sums over sequences, the counting principle every token-conservation proof rests on. */
module Sums {

  /** The sum of weight(x) over all positions of s. */
  ghost function Total<T>(s: seq<T>, weight: T -> int): int
  {
    if s == [] then 0 else Total(s[..|s| - 1], weight) + weight(s[|s| - 1])
  }

  /** Appending one element adds its weight. */
  lemma TotalAppend<T>(s: seq<T>, x: T, weight: T -> int)
    ensures Total(s + [x], weight) == Total(s, weight) + weight(x)
  {
    assert (s + [x])[..|s|] == s;
  }

  /** Replacing one element changes the sum by the difference of the two weights. */
  lemma {:induction false} TotalUpdate<T>(s: seq<T>, i: nat, x: T, weight: T -> int)
    requires i < |s|
    ensures Total(s[i := x], weight) == Total(s, weight) - weight(s[i]) + weight(x)
  {
    var n := |s| - 1;
    if i == n {
      assert s[i := x][..n] == s[..n];
    } else {
      assert s[i := x][..n] == s[..n][i := x];
      TotalUpdate(s[..n], i, x, weight);
    }
  }

  /** A sum of weights between 0 and bound is between any one of its terms and bound times the length. */
  lemma {:induction false} TotalBounds<T>(s: seq<T>, weight: T -> int, bound: nat)
    requires forall x :: x in s ==> 0 <= weight(x) <= bound
    ensures 0 <= Total(s, weight) <= bound * |s|
    ensures forall x :: x in s ==> weight(x) <= Total(s, weight)
  {
    if s != [] {
      var n := |s| - 1;
      TotalBounds(s[..n], weight, bound);
      assert s[n] in s && s == s[..n] + [s[n]];
      assert bound * |s| == bound * n + bound;
    }
  }

  lemma {:induction false} TotalConcat<T>(a: seq<T>, b: seq<T>, weight: T -> int)
    ensures Total(a + b, weight) == Total(a, weight) + Total(b, weight)
  {
    if b == [] {
      assert a + b == a;
    } else {
      var n := |b| - 1;
      assert (a + b)[..|a + b| - 1] == a + b[..n];
      TotalConcat(a, b[..n], weight);
    }
  }

  lemma TotalMiddle<T>(a: seq<T>, x: T, b: seq<T>, weight: T -> int)
    ensures Total(a + [x] + b, weight) == Total(a + b, weight) + weight(x)
  {
    TotalConcat(a + [x], b, weight);
    TotalConcat(a, b, weight);
    TotalAppend(a, x, weight);
  }

  lemma MultisetMiddle<T>(a: seq<T>, x: T, b: seq<T>)
    ensures multiset(a + [x] + b) == multiset(a + b) + multiset{x}
  {
  }

  lemma Cut<T>(s: seq<T>, i: nat)
    requires i < |s|
    ensures s == s[..i] + [s[i]] + s[i + 1..]
  {
  }

  /** Dropping and reordering terms does not raise a sum of nonnegative weights; reordering alone keeps it. */
  lemma {:induction false} TotalOfSome<T>(some: seq<T>, all: seq<T>, weight: T -> int)
    requires multiset(some) <= multiset(all) && forall x :: x in all ==> weight(x) >= 0
    ensures Total(some, weight) <= Total(all, weight)
    ensures multiset(some) == multiset(all) ==> Total(some, weight) == Total(all, weight)
  {
    if some == [] {
      TotalNonNegative(all, weight);
      assert multiset(all) == multiset{} ==> |all| == 0;
    } else {
      var n := |some| - 1;
      var x := some[n];
      assert some == some[..n] + [x];
      assert multiset(some) == multiset(some[..n]) + multiset{x};
      assert x in multiset(all);
      var i :| 0 <= i < |all| && all[i] == x;
      var rest := all[..i] + all[i + 1..];
      Cut(all, i);
      TotalMiddle(all[..i], x, all[i + 1..], weight);
      MultisetMiddle(all[..i], x, all[i + 1..]);
      OneLess(multiset(some[..n]), multiset(rest), x);
      TotalOfSome(some[..n], rest, weight);
    }
  }

  lemma OneLess<T>(a: multiset<T>, b: multiset<T>, x: T)
    ensures a + multiset{x} <= b + multiset{x} ==> a <= b
    ensures a + multiset{x} == b + multiset{x} ==> a == b
  {
    assert forall y :: (a + multiset{x})[y] - multiset{x}[y] == a[y] && (b + multiset{x})[y] - multiset{x}[y] == b[y];
    if a + multiset{x} <= b + multiset{x} {
      forall y ensures a[y] <= b[y] {
        assert (a + multiset{x})[y] <= (b + multiset{x})[y];
      }
    }
    if a + multiset{x} == b + multiset{x} {
      forall y ensures a[y] == b[y] {
        assert (a + multiset{x})[y] == (b + multiset{x})[y];
      }
    }
  }

  lemma {:induction false} TotalNonNegative<T>(s: seq<T>, weight: T -> int)
    requires forall x :: x in s ==> weight(x) >= 0
    ensures Total(s, weight) >= 0
  {
    if s != [] {
      TotalNonNegative(s[..|s| - 1], weight);
    }
  }
}
