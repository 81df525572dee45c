/** Cycle walking: restricting a permutation of [0, N) to [0, n) by iterating until the value is small again. */
module CycleWalk {
  import opened Sets

  function Iter(p: nat -> nat, k: nat, x: nat): nat {
    if k == 0 then x else p(Iter(p, k - 1, x))
  }

  /** p and q are inverse permutations of [0, N). */
  ghost predicate Inverses(p: nat -> nat, q: nat -> nat, N: nat) {
    forall x: nat | x < N :: p(x) < N && q(x) < N && q(p(x)) == x && p(q(x)) == x
  }

  /** Passes 1 to k - 1 all land outside [0, n). */
  ghost predicate Outside(p: nat -> nat, n: nat, x: nat, k: nat) {
    forall i: nat | 0 < i < k :: Iter(p, i, x) >= n
  }

  /** Starting at x, pass k is the first whose value is below n, and that value is y. */
  ghost predicate Returns(p: nat -> nat, n: nat, x: nat, k: nat, y: nat) {
    && k >= 1
    && Iter(p, k, x) == y < n
    && Outside(p, n, x, k)
  }

  lemma {:induction false} IterBelow(p: nat -> nat, q: nat -> nat, N: nat, k: nat, x: nat)
    requires Inverses(p, q, N) && x < N
    ensures Iter(p, k, x) < N
  {
    if k > 0 {
      IterBelow(p, q, N, k - 1, x);
    }
  }

  /** Walking back undoes walking forward, one pass at a time. */
  lemma {:induction false} IterBack(p: nat -> nat, q: nat -> nat, N: nat, k: nat, j: nat, x: nat)
    requires Inverses(p, q, N) && x < N && j <= k
    ensures Iter(q, j, Iter(p, k, x)) == Iter(p, k - j, x)
  {
    if j > 0 {
      IterBack(p, q, N, k, j - 1, x);
      IterBelow(p, q, N, k - j, x);
    }
  }

  ghost predicate Seen(p: nat -> nat, x: nat, k: nat, v: nat) {
    exists i: nat :: 0 < i <= k && v == Iter(p, i, x)
  }

  /** Values seen on passes 1..k, all outside [0, n), are pairwise distinct. */
  lemma {:induction false} Visited(p: nat -> nat, q: nat -> nat, N: nat, n: nat, x: nat, k: nat) returns (s: set<nat>)
    requires Inverses(p, q, N) && x < n <= N
    requires Outside(p, n, x, k + 1)
    ensures |s| == k
    ensures forall v | v in s :: Seen(p, x, k, v)
  {
    if k == 0 {
      s := {};
    } else {
      s := Visited(p, q, N, n, x, k - 1);
      var v := Iter(p, k, x);
      if v in s {
        var i: nat :| 0 < i <= k - 1 && v == Iter(p, i, x);
        IterBack(p, q, N, k, i, x);
        IterBack(p, q, N, i, i, x);
        assert false;
      }
      s := s + {v};
    }
  }

  /** The walk cannot stay outside [0, n) for more than N - n passes. */
  lemma WalkBounded(p: nat -> nat, q: nat -> nat, N: nat, n: nat, x: nat, k: nat)
    requires Inverses(p, q, N) && x < n <= N
    requires Outside(p, n, x, k + 1)
    ensures k <= N - n
  {
    var s := Visited(p, q, N, n, x, k);
    var room := Interval(n, N);
    forall v | v in s ensures v in room {
      var i: nat :| 0 < i <= k && v == Iter(p, i, x);
      IterBelow(p, q, N, i, x);
    }
    SubsetSize(s, room);
  }

  lemma ReturnsExists(p: nat -> nat, q: nat -> nat, N: nat, n: nat, x: nat)
    requires Inverses(p, q, N) && x < n <= N
    ensures exists k, y :: Returns(p, n, x, k, y)
  {
    var k := 1;
    while Iter(p, k, x) >= n
      invariant k >= 1 && Outside(p, n, x, k)
      decreases N - n + 1 - k
    {
      WalkBounded(p, q, N, n, x, k);
      k := k + 1;
    }
    assert Returns(p, n, x, k, Iter(p, k, x));
  }

  lemma ReturnsUnique(p: nat -> nat, n: nat, x: nat, k: nat, y: nat, k': nat, y': nat)
    requires Returns(p, n, x, k, y) && Returns(p, n, x, k', y')
    ensures k == k' && y == y'
  {}

  /** The inverse permutation walks the same path backwards. */
  lemma ReturnsReverse(p: nat -> nat, q: nat -> nat, N: nat, n: nat, x: nat, k: nat, y: nat)
    requires Inverses(p, q, N) && x < n <= N && Returns(p, n, x, k, y)
    ensures Returns(q, n, y, k, x)
  {
    forall i | 0 < i <= k ensures Iter(q, i, y) == Iter(p, k - i, x) {
      IterBack(p, q, N, k, i, x);
    }
  }

  /** The walk of x: the value of the first pass that lands below n. */
  ghost function Walk(p: nat -> nat, q: nat -> nat, N: nat, n: nat, x: nat): (y: nat)
    requires Inverses(p, q, N) && x < n <= N
    ensures y < n && exists k :: Returns(p, n, x, k, y)
  {
    ReturnsExists(p, q, N, n, x);
    var k, y :| Returns(p, n, x, k, y);
    y
  }

  lemma WalkIs(p: nat -> nat, q: nat -> nat, N: nat, n: nat, x: nat, k: nat, y: nat)
    requires Inverses(p, q, N) && x < n <= N && Returns(p, n, x, k, y)
    ensures Walk(p, q, N, n, x) == y && k <= N - n + 1
  {
    var w := Walk(p, q, N, n, x);
    var k' :| Returns(p, n, x, k', w);
    ReturnsUnique(p, n, x, k, y, k', w);
    WalkBounded(p, q, N, n, x, k - 1);
  }

  /** Walking with p and walking with its inverse are inverse permutations of [0, n). */
  lemma WalkInverse(p: nat -> nat, q: nat -> nat, N: nat, n: nat, x: nat)
    requires Inverses(p, q, N) && Inverses(q, p, N) && x < n <= N
    ensures Walk(q, p, N, n, Walk(p, q, N, n, x)) == x
  {
    var y := Walk(p, q, N, n, x);
    var k :| Returns(p, n, x, k, y);
    ReturnsReverse(p, q, N, n, x, k, y);
    WalkIs(q, p, N, n, y, k, x);
  }
}
