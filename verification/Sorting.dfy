/** ORDER BY: a sort by a total preorder, and when its result is the only possible one. */
module Sorting {

  ghost predicate TotalPreorder<T(!new)>(leq: (T, T) -> bool) {
    && (forall x, y :: leq(x, y) || leq(y, x))
    && (forall x, y, z :: leq(x, y) && leq(y, z) ==> leq(x, z))
  }

  ghost predicate Sorted<T>(xs: seq<T>, leq: (T, T) -> bool) {
    forall i, j :: 0 <= i < j < |xs| ==> leq(xs[i], xs[j])
  }

  function Insert<T>(x: T, xs: seq<T>, leq: (T, T) -> bool): seq<T> {
    if xs == [] then [x]
    else if leq(x, xs[0]) then [x] + xs
    else [xs[0]] + Insert(x, xs[1..], leq)
  }

  function Sort<T>(xs: seq<T>, leq: (T, T) -> bool): seq<T> {
    if xs == [] then [] else Insert(xs[0], Sort(xs[1..], leq), leq)
  }

  lemma {:induction false} SameMembers<T>(a: seq<T>, b: seq<T>)
    requires multiset(a) == multiset(b)
    ensures |a| == |b| && forall x :: x in a <==> x in b
  {
    assert |multiset(a)| == |multiset(b)|;
    forall x
      ensures x in a <==> x in b
    {
      assert x in multiset(a) <==> x in multiset(b);
    }
  }

  lemma {:induction false} InsertPermutes<T>(x: T, xs: seq<T>, leq: (T, T) -> bool)
    ensures multiset(Insert(x, xs, leq)) == multiset([x] + xs)
  {
    if xs != [] && !leq(x, xs[0]) {
      InsertPermutes(x, xs[1..], leq);
      assert xs == [xs[0]] + xs[1..];
    }
  }

  lemma {:induction false} InsertMembers<T>(x: T, xs: seq<T>, leq: (T, T) -> bool, j: nat)
    requires j < |Insert(x, xs, leq)|
    ensures Insert(x, xs, leq)[j] == x || exists i :: 0 <= i < |xs| && Insert(x, xs, leq)[j] == xs[i]
  {
    if xs != [] && !leq(x, xs[0]) && j > 0 {
      InsertMembers(x, xs[1..], leq, j - 1);
    }
  }

  lemma {:induction false} InsertSorts<T>(x: T, xs: seq<T>, leq: (T, T) -> bool)
    requires Sorted(xs, leq)
    requires forall i :: 0 <= i < |xs| ==> leq(x, xs[i]) || leq(xs[i], x)
    requires forall i, j :: 0 <= i < j < |xs| && leq(x, xs[i]) ==> leq(x, xs[j])
    ensures Sorted(Insert(x, xs, leq), leq)
  {
    if xs != [] && !leq(x, xs[0]) {
      var tail := xs[1..];
      assert forall i :: 0 <= i < |tail| ==> tail[i] == xs[i + 1];
      InsertSorts(x, tail, leq);
      var rest := Insert(x, tail, leq);
      forall j | 0 <= j < |rest|
        ensures leq(xs[0], rest[j])
      {
        InsertMembers(x, tail, leq, j);
      }
    }
  }

  lemma {:induction false} SortPermutes<T>(xs: seq<T>, leq: (T, T) -> bool)
    ensures multiset(Sort(xs, leq)) == multiset(xs)
  {
    if xs != [] {
      SortPermutes(xs[1..], leq);
      InsertPermutes(xs[0], Sort(xs[1..], leq), leq);
      assert xs == [xs[0]] + xs[1..];
    }
  }

  lemma {:induction false} SortOrders<T(!new)>(xs: seq<T>, leq: (T, T) -> bool)
    requires TotalPreorder(leq)
    ensures Sorted(Sort(xs, leq), leq)
  {
    if xs != [] {
      SortOrders(xs[1..], leq);
      InsertSorts(xs[0], Sort(xs[1..], leq), leq);
    }
  }

  /** Sorting arranges the same rows. */
  lemma {:induction false} SortSorts<T(!new)>(xs: seq<T>, leq: (T, T) -> bool)
    requires TotalPreorder(leq)
    ensures Sorted(Sort(xs, leq), leq) && multiset(Sort(xs, leq)) == multiset(xs)
    ensures |Sort(xs, leq)| == |xs| && forall x :: x in Sort(xs, leq) <==> x in xs
  {
    SortOrders(xs, leq);
    SortPermutes(xs, leq);
    SameMembers(Sort(xs, leq), xs);
  }

  lemma {:induction false} SameFirst<T>(a: seq<T>, b: seq<T>, leq: (T, T) -> bool)
    requires Sorted(a, leq) && Sorted(b, leq) && a != [] && b != []
    requires forall x :: x in a <==> x in b
    requires forall x, y :: x in a && y in a && leq(x, y) && leq(y, x) ==> x == y
    ensures a[0] == b[0]
  {
    assert b[0] in a && a[0] in b;
    var i :| 0 <= i < |a| && a[i] == b[0];
    var j :| 0 <= j < |b| && b[j] == a[0];
    assert i == 0 || leq(a[0], a[i]);
    assert j == 0 || leq(b[0], b[j]);
  }

  lemma {:induction false} SameRest<T>(a: seq<T>, b: seq<T>)
    requires a != [] && b != [] && a[0] == b[0] && multiset(a) == multiset(b)
    ensures multiset(a[1..]) == multiset(b[1..])
  {
    assert a == [a[0]] + a[1..] && b == [a[0]] + b[1..];
    assert multiset(a[1..]) == multiset(a) - multiset{a[0]};
    assert multiset(b[1..]) == multiset(b) - multiset{a[0]};
  }

  /** When no two rows are tied, there is one sorted arrangement. */
  lemma {:induction false} SortedIsUnique<T>(a: seq<T>, b: seq<T>, leq: (T, T) -> bool)
    requires Sorted(a, leq) && Sorted(b, leq) && multiset(a) == multiset(b)
    requires forall x, y :: x in a && y in a && leq(x, y) && leq(y, x) ==> x == y
    ensures a == b
  {
    SameMembers(a, b);
    if a != [] {
      SameFirst(a, b, leq);
      SameRest(a, b);
      assert forall x :: x in a[1..] ==> x in a;
      SortedIsUnique(a[1..], b[1..], leq);
      assert a == [a[0]] + a[1..] && b == [b[0]] + b[1..];
    }
  }

  ghost predicate Distinct<T, U>(xs: seq<T>, id: T -> U) {
    forall i, j :: 0 <= i < j < |xs| ==> id(xs[i]) != id(xs[j])
  }

  lemma {:induction false} DistinctIsPermuted<T, U>(a: seq<T>, b: seq<T>, id: T -> U)
    requires multiset(a) == multiset(b) && Distinct(a, id)
    ensures Distinct(b, id)
  {
    SameMembers(a, b);
    forall i, j | 0 <= i < j < |b|
      ensures id(b[i]) != id(b[j])
    {
      assert b[i] in a && b[j] in a;
      var m :| 0 <= m < |a| && a[m] == b[i];
      var n :| 0 <= n < |a| && a[n] == b[j];
      OneOccurrence(a, m, id);
      TwoOccurrences(b, i, j);
      assert m != n;
    }
  }

  lemma {:induction false} TwoOccurrences<T>(xs: seq<T>, i: nat, j: nat)
    requires i < j < |xs|
    ensures xs[i] == xs[j] ==> multiset(xs)[xs[i]] >= 2
  {
    assert xs == xs[..i] + [xs[i]] + xs[i + 1..j] + [xs[j]] + xs[j + 1..];
  }

  lemma {:induction false} OneOccurrence<T, U>(xs: seq<T>, m: nat, id: T -> U)
    requires m < |xs| && Distinct(xs, id)
    ensures multiset(xs)[xs[m]] == 1
  {
    assert xs == xs[..m] + [xs[m]] + xs[m + 1..];
    assert xs[m] !in xs[..m] && xs[m] !in xs[m + 1..];
  }

  /** When only rows of the same id tie, and no two rows share one, there is one sorted arrangement. */
  lemma {:induction false} DistinctIsSortedOnce<T(!new), U>(xs: seq<T>, other: seq<T>, leq: (T, T) -> bool, id: T -> U)
    requires TotalPreorder(leq) && Distinct(xs, id)
    requires forall x, y :: leq(x, y) && leq(y, x) ==> id(x) == id(y)
    requires Sorted(other, leq) && multiset(other) == multiset(xs)
    ensures other == Sort(xs, leq)
  {
    SortSorts(xs, leq);
    DistinctIsPermuted(xs, other, id);
    forall x, y | x in other && y in other && leq(x, y) && leq(y, x)
      ensures x == y
    {
      var i :| 0 <= i < |other| && other[i] == x;
      var j :| 0 <= j < |other| && other[j] == y;
      assert id(other[i]) == id(other[j]);
      assert !(i < j) && !(j < i);
    }
    SortedIsUnique(other, Sort(xs, leq), leq);
  }

  /* ---- Text keys ---- */

  function Rank(c: char): int { c as int }

  /** The order of text keys. */
  predicate TextLeq(a: string, b: string) {
    a == "" || (b != "" && (Rank(a[0]) < Rank(b[0]) || (a[0] == b[0] && TextLeq(a[1..], b[1..]))))
  }

  lemma {:induction false} TextLeqIsTotal(a: string, b: string)
    ensures TextLeq(a, b) || TextLeq(b, a)
    ensures TextLeq(a, b) && TextLeq(b, a) ==> a == b
  {
    if a != "" && b != "" {
      TextLeqIsTotal(a[1..], b[1..]);
      assert a == [a[0]] + a[1..] && b == [b[0]] + b[1..];
      assert Rank(a[0]) == Rank(b[0]) ==> a[0] == b[0];
    }
  }

  lemma {:induction false} TextLeqIsTransitive(a: string, b: string, c: string)
    requires TextLeq(a, b) && TextLeq(b, c)
    ensures TextLeq(a, c)
  {
    if a != "" && a[0] == b[0] && b[0] == c[0] {
      TextLeqIsTransitive(a[1..], b[1..], c[1..]);
    }
  }

  /** One text is before another exactly when it begins it, or has the smaller character where they
      first differ. */
  lemma {:induction false} TextLeqExactly(a: string, b: string)
    ensures TextLeq(a, b) <==> a <= b || exists k :: FirstDifference(a, b, k)
  {
    if a != "" && b != "" {
      TextLeqExactly(a[1..], b[1..]);
      if a[0] == b[0] {
        SameFirstCharacter(a, b);
      } else if a[0] < b[0] {
        assert FirstDifference(a, b, 0);
      }
    }
  }

  predicate FirstDifference(a: string, b: string, k: int) {
    0 <= k < |a| && k < |b| && a[..k] == b[..k] && a[k] < b[k]
  }

  lemma {:induction false} SameFirstCharacter(a: string, b: string)
    requires a != "" && b != "" && a[0] == b[0]
    ensures a <= b <==> a[1..] <= b[1..]
    ensures (exists k :: FirstDifference(a, b, k)) <==> exists k :: FirstDifference(a[1..], b[1..], k)
  {
    assert a == [a[0]] + a[1..] && b == [b[0]] + b[1..];
    if k :| FirstDifference(a, b, k) {
      assert a[1..][..k - 1] == a[..k][1..] && b[1..][..k - 1] == b[..k][1..];
      assert FirstDifference(a[1..], b[1..], k - 1);
    }
    if k :| FirstDifference(a[1..], b[1..], k) {
      assert a[..k + 1] == [a[0]] + a[1..][..k] && b[..k + 1] == [b[0]] + b[1..][..k];
      assert FirstDifference(a, b, k + 1);
    }
  }

  /** Strictly ordered lists with the same members are the same. */
  lemma {:induction false} StrictIsUnique<T(!new)>(a: seq<T>, b: seq<T>, less: (T, T) -> bool)
    requires forall i, j :: 0 <= i < j < |a| ==> less(a[i], a[j]) && !less(a[j], a[i])
    requires forall i, j :: 0 <= i < j < |b| ==> less(b[i], b[j]) && !less(b[j], b[i])
    requires forall x :: x in a <==> x in b
    requires forall x :: !less(x, x)
    ensures a == b
  {
    assert a != [] ==> a[0] in b;
    assert b != [] ==> b[0] in a;
    if a != [] {
      SameLeast(a, b, less);
      forall x
        ensures x in a[1..] <==> x in b[1..]
      {
        assert x in a <==> x == a[0] || x in a[1..];
        assert x in b <==> x == b[0] || x in b[1..];
        LeastIsFirst(a, less, x);
        LeastIsFirst(b, less, x);
      }
      StrictIsUnique(a[1..], b[1..], less);
      assert a == [a[0]] + a[1..] && b == [b[0]] + b[1..];
    }
  }

  lemma {:induction false} LeastIsFirst<T>(a: seq<T>, less: (T, T) -> bool, x: T)
    requires a != [] && forall i, j :: 0 <= i < j < |a| ==> less(a[i], a[j]) && !less(a[j], a[i])
    requires !less(a[0], a[0])
    ensures x in a[1..] ==> x != a[0]
  {
    if x in a[1..] {
      var i :| 0 <= i < |a[1..]| && a[1..][i] == x;
      assert less(a[0], a[i + 1]);
    }
  }

  lemma {:induction false} SameLeast<T>(a: seq<T>, b: seq<T>, less: (T, T) -> bool)
    requires a != [] && b != [] && a[0] in b && b[0] in a
    requires forall i, j :: 0 <= i < j < |a| ==> less(a[i], a[j]) && !less(a[j], a[i])
    requires forall i, j :: 0 <= i < j < |b| ==> less(b[i], b[j]) && !less(b[j], b[i])
    ensures a[0] == b[0]
  {
    var i :| 0 <= i < |a| && a[i] == b[0];
    var j :| 0 <= j < |b| && b[j] == a[0];
  }
}
