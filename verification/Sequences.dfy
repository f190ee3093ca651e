/** The ends and the prefixes of a sequence. */
module Sequences {

  lemma {:induction false} SplitLast<T>(xs: seq<T>)
    requires xs != []
    ensures xs == xs[..|xs| - 1] + [xs[|xs| - 1]]
  {
  }

  lemma {:induction false} AppendLast<T>(front: seq<T>, xs: seq<T>)
    requires xs != []
    ensures front + xs == (front + xs[..|xs| - 1]) + [xs[|xs| - 1]]
    ensures (front + xs)[..|front + xs| - 1] == front + xs[..|xs| - 1]
  {
  }

  lemma {:induction false} TakeNext<T>(xs: seq<T>, n: nat)
    requires n < |xs|
    ensures xs[..n] + [xs[n]] == xs[..n + 1] && xs[..n + 1][..n] == xs[..n]
  {
  }

  lemma {:induction false} SplitFirst<T>(xs: seq<T>)
    requires xs != []
    ensures xs == [xs[0]] + xs[1..]
  {
  }

  lemma {:induction false} Regroup<T>(x: seq<T>, y: seq<T>, z: seq<T>)
    ensures (x + y) + z == x + (y + z)
  {
  }

  // Sequences that grow step by step.
  lemma {:induction false} StepsGrow<T>(after: nat -> seq<T>, k: nat, n: nat)
    requires k <= n && forall i: nat :: k <= i < n ==> after(i) <= after(i + 1)
    ensures after(k) <= after(n)
  {
    if k < n {
      var last: nat := n - 1;
      StepsGrow(after, k, last);
      assert after(last) <= after(last + 1);
    }
  }
}
