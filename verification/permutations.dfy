/**
 * Facts about lists that hold the same elements in another order.
 */
module Permutations {
  /** `f` applied to each element in turn. */
  function Map<A, B>(f: A -> B, s: seq<A>): seq<B> {
    seq(|s|, i requires 0 <= i < |s| => f(s[i]))
  }

  /** Taking out the element at `m` takes one copy of it out of the multiset. */
  lemma MultisetWithout<A>(q: seq<A>, m: nat)
    requires m < |q|
    ensures multiset(q) == multiset(q[..m] + q[m + 1..]) + multiset{q[m]}
  {
    assert q == q[..m] + [q[m]] + q[m + 1..];
  }

  lemma MultisetCancel<A>(x: multiset<A>, y: multiset<A>, v: A)
    requires x + multiset{v} == y + multiset{v}
    ensures x == y
  {
    forall o
      ensures x[o] == y[o]
    {
      assert (x + multiset{v})[o] == x[o] + multiset{v}[o];
      assert (y + multiset{v})[o] == y[o] + multiset{v}[o];
    }
  }

  /** Matching the head of `p` with an equal element of `q` leaves two rearrangements of one list. */
  lemma RestPermutation<A>(p: seq<A>, q: seq<A>, m: nat)
    requires multiset(p) == multiset(q) && p != [] && m < |q| && q[m] == p[0]
    ensures multiset(p[1..]) == multiset(q[..m] + q[m + 1..])
  {
    var x, y := multiset(p[1..]), multiset(q[..m] + q[m + 1..]);
    assert p == [p[0]] + p[1..];
    assert multiset(p) == x + multiset{p[0]};
    MultisetWithout(q, m);
    assert multiset(q) == y + multiset{p[0]};
    MultisetCancel(x, y, p[0]);
  }

  lemma MapWithout<A, B>(f: A -> B, q: seq<A>, m: nat)
    requires m < |q|
    ensures Map(f, q[..m] + q[m + 1..]) == Map(f, q)[..m] + Map(f, q)[m + 1..]
  {
    var l, r := Map(f, q[..m] + q[m + 1..]), Map(f, q)[..m] + Map(f, q)[m + 1..];
    assert |l| == |r|;
    forall i | 0 <= i < |l|
      ensures l[i] == r[i]
    {
      if i < m {
        assert r[i] == Map(f, q)[i];
      } else {
        assert r[i] == Map(f, q)[i + 1];
      }
    }
  }

  /** Mapping two rearrangements of one list gives two rearrangements of one list. */
  lemma {:induction false} MapPermutation<A, B>(f: A -> B, p: seq<A>, q: seq<A>)
    requires multiset(p) == multiset(q)
    ensures multiset(Map(f, p)) == multiset(Map(f, q))
  {
    assert |p| == |multiset(p)| == |q|;
    if p == [] {
      assert Map(f, p) == [] == Map(f, q);
    } else {
      assert p[0] in multiset(q);
      var m :| 0 <= m < |q| && q[m] == p[0];
      var r := q[..m] + q[m + 1..];
      RestPermutation(p, q, m);
      MapPermutation(f, p[1..], r);
      var mp, mq := Map(f, p), Map(f, q);
      assert multiset(mp) == multiset(Map(f, p[1..])) + multiset{f(p[0])} by {
        assert mp == [mp[0]] + Map(f, p[1..]);
      }
      assert multiset(mq) == multiset(Map(f, r)) + multiset{f(p[0])} by {
        MapWithout(f, q, m);
        MultisetWithout(mq, m);
      }
    }
  }

  lemma MulSwap(x: int, c: int, y: int)
    ensures x * (c * y) == c * (x * y)
  {
  }

  predicate NonDecreasing(a: seq<int>) {
    forall j, k :: 0 <= j < k < |a| ==> a[j] <= a[k]
  }

  lemma NonDecreasingTail(a: seq<int>)
    requires NonDecreasing(a) && a != []
    ensures NonDecreasing(a[1..])
    ensures forall i :: 0 <= i < |a| ==> a[0] <= a[i]
  {
    forall j, k | 0 <= j < k < |a| - 1
      ensures a[1..][j] <= a[1..][k]
    {
      assert a[1..][j] == a[j + 1] && a[1..][k] == a[k + 1];
    }
  }

  /** Two ascending lists holding the same values start with the same value. */
  lemma HeadsEqual(a: seq<int>, b: seq<int>)
    requires NonDecreasing(a) && NonDecreasing(b)
    requires multiset(a) == multiset(b) && a != []
    ensures b != [] && a[0] == b[0]
  {
    assert a[0] in multiset(b);
    var m :| 0 <= m < |b| && b[m] == a[0];
    assert b[0] in multiset(a);
    var m' :| 0 <= m' < |a| && a[m'] == b[0];
    NonDecreasingTail(a);
    NonDecreasingTail(b);
  }

  /** Dropping equal heads leaves two ascending lists holding the same values. */
  lemma TailsAgree(a: seq<int>, b: seq<int>)
    requires NonDecreasing(a) && NonDecreasing(b)
    requires multiset(a) == multiset(b) && a != []
    ensures b != [] && a[0] == b[0]
    ensures NonDecreasing(a[1..]) && NonDecreasing(b[1..])
    ensures multiset(a[1..]) == multiset(b[1..])
  {
    HeadsEqual(a, b);
    NonDecreasingTail(a);
    NonDecreasingTail(b);
    TailMultiset(a, b);
  }

  lemma TailMultiset<A>(a: seq<A>, b: seq<A>)
    requires multiset(a) == multiset(b) && a != [] && b != [] && a[0] == b[0]
    ensures multiset(a[1..]) == multiset(b[1..])
  {
    RestPermutation(a, b, 0);
    assert b[..0] + b[1..] == b[1..];
  }

  /** Two non-empty lists with equal heads and equal tails are equal. */
  lemma ConsEqual(a: seq<int>, b: seq<int>)
    requires a != [] && b != [] && a[0] == b[0] && a[1..] == b[1..]
    ensures a == b
  {
    assert a == [a[0]] + a[1..] && b == [b[0]] + b[1..];
  }

  /** Two ascending lists holding the same values are the same list. */
  lemma {:induction false} AscendingSame(a: seq<int>, b: seq<int>)
    requires NonDecreasing(a) && NonDecreasing(b)
    requires multiset(a) == multiset(b)
    ensures a == b
  {
    if a == [] {
      assert |b| == |multiset(b)| == 0;
    } else {
      TailsAgree(a, b);
      AscendingSame(a[1..], b[1..]);
      ConsEqual(a, b);
    }
  }
}
