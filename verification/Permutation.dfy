/** The allocation orders of src/permutation.cpp: a Feistel network with cycle walking, and an affine map. */
module Permutation {
  import opened Wrappers
  import opened Digits
  import opened Bits
  import opened HexBigint
  import opened CycleWalk

  /** Digest of (round, right half) as a number: the keyed hash, of which nothing is assumed. */
  type RoundFn = (nat, nat) -> nat

  // ── The Feistel network ─────────────────────────────────────────────────

  datatype Halves = Halves(left: nat, right: nat)

  function RoundValue(f: RoundFn, round: nat, right: nat, h: nat): (v: nat)
    ensures v < Pow(2, h)
  {
    PowPositive(2, h);
    f(round, right) % Pow(2, h)
  }

  function Network(f: RoundFn, rounds: nat, h: nat, x: Halves): Halves {
    if rounds == 0 then x
    else
      var y := Network(f, rounds - 1, h, x);
      Halves(y.right, Xor(y.left, RoundValue(f, rounds - 1, y.right, h)))
  }

  function Unwind(f: RoundFn, rounds: nat, h: nat, y: Halves): Halves {
    if rounds == 0 then y
    else Unwind(f, rounds - 1, h, Halves(Xor(y.right, RoundValue(f, rounds - 1, y.left, h)), y.left))
  }

  predicate Fits(x: Halves, h: nat) {
    x.left < Pow(2, h) && x.right < Pow(2, h)
  }

  lemma {:induction false} NetworkFits(f: RoundFn, rounds: nat, h: nat, x: Halves)
    requires Fits(x, h)
    ensures Fits(Network(f, rounds, h, x), h)
  {
    if rounds > 0 {
      NetworkFits(f, rounds - 1, h, x);
      var y := Network(f, rounds - 1, h, x);
      XorBound(y.left, RoundValue(f, rounds - 1, y.right, h), h);
    }
  }

  lemma {:induction false} UnwindFits(f: RoundFn, rounds: nat, h: nat, y: Halves)
    requires Fits(y, h)
    ensures Fits(Unwind(f, rounds, h, y), h)
  {
    if rounds > 0 {
      var f' := RoundValue(f, rounds - 1, y.left, h);
      XorBound(y.right, f', h);
      UnwindFits(f, rounds - 1, h, Halves(Xor(y.right, f'), y.left));
    }
  }

  /** However the round function behaves, the rounds can be undone. */
  lemma {:induction false} UnwindNetwork(f: RoundFn, rounds: nat, h: nat, x: Halves)
    ensures Unwind(f, rounds, h, Network(f, rounds, h, x)) == x
  {
    if rounds > 0 {
      var y := Network(f, rounds - 1, h, x);
      XorCancel(y.left, RoundValue(f, rounds - 1, y.right, h));
      UnwindNetwork(f, rounds - 1, h, x);
    }
  }

  lemma {:induction false} NetworkUnwind(f: RoundFn, rounds: nat, h: nat, y: Halves)
    ensures Network(f, rounds, h, Unwind(f, rounds, h, y)) == y
  {
    if rounds > 0 {
      var f' := RoundValue(f, rounds - 1, y.left, h);
      NetworkUnwind(f, rounds - 1, h, Halves(Xor(y.right, f'), y.left));
      XorCancel(y.right, f');
    }
  }

  function Split(x: nat, h: nat): (s: Halves)
    ensures Fits(s, h)
  {
    PowPositive(2, h);
    Halves(x / Pow(2, h) % Pow(2, h), x % Pow(2, h))
  }

  function Join(s: Halves, h: nat): nat {
    s.left * Pow(2, h) + s.right
  }

  lemma JoinSplit(x: nat, h: nat)
    requires x < Pow(2, 2 * h)
    ensures Join(Split(x, h), h) == x
  {
    assert 2 * h == h + h;
    SplitBits(x, h, h);
    DivModOf(x, 0, x, Pow(2, h + h));
  }

  lemma SplitJoin(s: Halves, h: nat)
    requires Fits(s, h)
    ensures Split(Join(s, h), h) == s && Join(s, h) < Pow(2, 2 * h)
  {
    var P := Pow(2, h);
    SplitOf(s.left, s.right, P);
    PowAdd(2, h, h);
    assert 2 * h == h + h;
  }

  lemma SmallMod(x: nat, n: nat)
    requires x < n
    ensures x % n == x
  {}

  lemma SplitOf(l: nat, r: nat, P: nat)
    requires l < P && r < P
    ensures (l * P + r) / P % P == l && (l * P + r) % P == r && l * P + r < P * P
  {
    var x := l * P + r;
    DivModOf(x, l, r, P);
    Carry(l, r, P, P);
    SmallMod(l, P);
  }

  const ROUNDS: nat := 6

  function Forward(f: RoundFn, h: nat): nat -> nat {
    x => Join(Network(f, ROUNDS, h, Split(x, h)), h)
  }

  function Backward(f: RoundFn, h: nat): nat -> nat {
    y => Join(Unwind(f, ROUNDS, h, Split(y, h)), h)
  }

  /** The six-round network permutes [0, 2^bits) for every round function. */
  lemma FeistelInverses(f: RoundFn, h: nat)
    ensures Inverses(Forward(f, h), Backward(f, h), Pow(2, 2 * h))
    ensures Inverses(Backward(f, h), Forward(f, h), Pow(2, 2 * h))
  {
    var p, q, N := Forward(f, h), Backward(f, h), Pow(2, 2 * h);
    forall x: nat | x < N ensures p(x) < N && q(x) < N && q(p(x)) == x && p(q(x)) == x {
      var s := Split(x, h);
      NetworkFits(f, ROUNDS, h, s);
      UnwindFits(f, ROUNDS, h, s);
      SplitJoin(Network(f, ROUNDS, h, s), h);
      SplitJoin(Unwind(f, ROUNDS, h, s), h);
      UnwindNetwork(f, ROUNDS, h, s);
      NetworkUnwind(f, ROUNDS, h, s);
      JoinSplit(x, h);
    }
  }

  lemma {:induction false} NetworkIs(f: RoundFn, rounds: nat, h: nat, v: seq<nat>)
    requires Pow(2, h) > 0 && |v| >= rounds + 2
    requires forall i | 0 <= i < rounds :: v[i + 2] == Xor(v[i], f(i, v[i + 1]) % Pow(2, h))
    ensures Network(f, rounds, h, Halves(v[0], v[1])) == Halves(v[rounds], v[rounds + 1])
  {
    if rounds > 0 {
      NetworkIs(f, rounds - 1, h, v);
      assert v[rounds - 1 + 2] == Xor(v[rounds - 1], f(rounds - 1, v[rounds - 1 + 1]) % Pow(2, h));
    }
  }

  /**
   * The network written out: two halves of h bits, six new ones, each the half two places before it XORed with the masked
   * round value of the half before it; the last two are joined.
   */
  lemma SixRounds(f: RoundFn, h: nat, x: nat, v: seq<nat>)
    requires Pow(2, h) > 0 && |v| == 8
    requires v[0] == x / Pow(2, h) % Pow(2, h) && v[1] == x % Pow(2, h)
    requires forall i | 0 <= i < 6 :: v[i + 2] == Xor(v[i], f(i, v[i + 1]) % Pow(2, h))
    ensures Forward(f, h)(x) == v[6] * Pow(2, h) + v[7]
  {
    NetworkIs(f, 6, h, v);
  }

  /** The loop over the rounds, on the two halves. */
  method RunRounds(x: Halves, h: nat, f: RoundFn) returns (y: Halves)
    requires Fits(x, h)
    ensures y == Network(f, ROUNDS, h, x) && Fits(y, h)
  {
    var left: nat, right: nat := x.left, x.right;
    for round := 0 to ROUNDS
      invariant Halves(left, right) == Network(f, round, h, x)
      invariant left < Pow(2, h) && right < Pow(2, h)
    {
      var value := RoundValue(f, round, right, h);
      XorBound(left, value, h);
      left, right := right, Xor(left, value);
    }
    y := Halves(left, right);
  }

  /** Masking either half, or the new right half, changes nothing: all of them fit. */
  method PermutePow2Feistel(x: nat, bits: nat, f: RoundFn) returns (y: nat)
    requires bits % 2 == 0 && x < Pow(2, bits)
    ensures y == Forward(f, bits / 2)(x) < Pow(2, bits)
  {
    var out := RunRounds(Split(x, bits / 2), bits / 2, f);
    SplitJoin(out, bits / 2);
    y := Join(out, bits / 2);
  }

  // ── Cycle walking ───────────────────────────────────────────────────────

  function NextEven(n: nat): nat {
    if n % 2 == 0 then n else n + 1
  }

  /** Bits of the network used for a domain of n >= 2 indices. */
  function DomainBits(n: nat): (bits: nat)
    requires n >= 2
    ensures bits % 2 == 0
  {
    NextEven(Max(1, BitLen(n - 1)))
  }

  /** The domain covers [0, n) and is less than four times as large. */
  lemma DomainSize(n: nat)
    requires n >= 2
    ensures n <= Pow(2, DomainBits(n)) <= 4 * (n - 1)
  {
    var bl := BitLen(n - 1);
    BitLenBounds(n - 1);
    assert Pow(2, bl) == 2 * Pow(2, bl - 1);
    assert Pow(2, bl + 1) == 2 * Pow(2, bl);
    assert DomainBits(n) == bl || DomainBits(n) == bl + 1;
  }

  /** The index that the walk assigns; [0, n) is its domain and its range. */
  ghost function FeistelIndex(f: RoundFn, n: nat, i: nat): (c: nat)
    requires i < n
    ensures c < n
  {
    if n <= 1 then 0
    else
      var h := DomainBits(n) / 2;
      FeistelInverses(f, h);
      DomainSize(n);
      Walk(Forward(f, h), Backward(f, h), Pow(2, 2 * h), n, i)
  }

  /** The loop: permute until the value is below n. */
  method WalkUntilSmall(f: RoundFn, h: nat, n: nat, start: nat) returns (x: nat, ghost passes: nat)
    requires start < n <= Pow(2, 2 * h)
    ensures Returns(Forward(f, h), n, start, passes, x)
  {
    ghost var p, N := Forward(f, h), Pow(2, 2 * h);
    x := PermutePow2Feistel(start, 2 * h, f);
    passes := 1;
    assert Iter(p, 0, start) == start;
    while x >= n
      invariant passes >= 1 && x == Iter(p, passes, start) < N
      invariant Outside(p, n, start, passes)
      decreases N - n + 1 - passes
    {
      NotYet(f, h, n, start, passes);
      x := PermutePow2Feistel(x, 2 * h, f);
      passes := passes + 1;
    }
  }

  lemma NotYet(f: RoundFn, h: nat, n: nat, start: nat, passes: nat)
    requires start < n <= Pow(2, 2 * h) && Outside(Forward(f, h), n, start, passes + 1)
    ensures passes <= Pow(2, 2 * h) - n
  {
    FeistelInverses(f, h);
    WalkBounded(Forward(f, h), Backward(f, h), Pow(2, 2 * h), n, start, passes);
  }

  lemma HalfWidth(n: nat)
    requires n >= 2
    ensures n <= Pow(2, 2 * (DomainBits(n) / 2))
  {
    DomainSize(n);
    assert 2 * (DomainBits(n) / 2) == DomainBits(n);
  }

  /** None is the source's exception for an index outside the domain. */
  method PermuteIndexFeistel(orderIndex: int, n: int, f: RoundFn) returns (r: Option<nat>, ghost passes: nat)
    ensures n <= 1 ==> r == Some(0)
    ensures n > 1 && !(0 <= orderIndex < n) ==> r == None
    ensures n > 1 && 0 <= orderIndex < n ==>
              r == Some(FeistelIndex(f, n, orderIndex)) && passes <= Pow(2, DomainBits(n)) - n + 1 <= 3 * n - 3
  {
    if n <= 1 {
      return Some(0), 0;
    }
    if orderIndex < 0 || orderIndex >= n {
      return None, 0;
    }
    var length := BitLength(n - 1);
    var bits := NextEven(Max(1, length));
    assert bits == DomainBits(n);
    HalfWidth(n);
    var x;
    x, passes := WalkUntilSmall(f, bits / 2, n, orderIndex);
    WalkResult(f, n, orderIndex, passes, x);
    r := Some(x);
  }

  lemma WalkResult(f: RoundFn, n: nat, i: nat, k: nat, y: nat)
    requires 2 <= n && i < n && Returns(Forward(f, DomainBits(n) / 2), n, i, k, y)
    ensures FeistelIndex(f, n, i) == y && k <= Pow(2, DomainBits(n)) - n + 1 <= 3 * n - 3
  {
    var h := DomainBits(n) / 2;
    FeistelInverses(f, h);
    DomainSize(n);
    WalkIs(Forward(f, h), Backward(f, h), Pow(2, 2 * h), n, i, k, y);
  }

  /** Walking the inverse network from the assigned index leads back to the order index, and conversely. */
  ghost function OrderOf(f: RoundFn, n: nat, c: nat): (i: nat)
    requires c < n
    ensures i < n && FeistelIndex(f, n, i) == c
    ensures forall j | 0 <= j < n :: FeistelIndex(f, n, j) == c ==> j == i
  {
    if n <= 1 then 0
    else
      var h := DomainBits(n) / 2;
      FeistelInverses(f, h);
      DomainSize(n);
      WalkInverse(Backward(f, h), Forward(f, h), Pow(2, 2 * h), n, c);
      BackFromIndex(f, n);
      Walk(Backward(f, h), Forward(f, h), Pow(2, 2 * h), n, c)
  }

  lemma BackFromIndex(f: RoundFn, n: nat)
    requires n >= 2
    ensures var h := DomainBits(n) / 2;
            Inverses(Backward(f, h), Forward(f, h), Pow(2, 2 * h)) && n <= Pow(2, 2 * h) &&
            forall j | 0 <= j < n ::
              Walk(Backward(f, h), Forward(f, h), Pow(2, 2 * h), n, FeistelIndex(f, n, j)) == j
  {
    var h := DomainBits(n) / 2;
    var N := Pow(2, 2 * h);
    FeistelInverses(f, h);
    DomainSize(n);
    assert n <= N;
    forall j: nat | j < n
      ensures Walk(Backward(f, h), Forward(f, h), N, n, FeistelIndex(f, n, j)) == j
    {
      WalkInverse(Forward(f, h), Backward(f, h), N, n, j);
    }
  }

  // ── The affine map ──────────────────────────────────────────────────────

  function Gcd(a: nat, b: nat): nat
    decreases b
  {
    if b == 0 then a else Gcd(b, a % b)
  }

  function Abs(a: int): nat { if a < 0 then -a else a }

  method GcdBigInt(a: int, b: int) returns (g: nat)
    ensures g == Gcd(Abs(a), Abs(b))
  {
    var x: nat, y: nat := Abs(a), Abs(b);
    while y != 0
      invariant Gcd(x, y) == Gcd(Abs(a), Abs(b))
      decreases y
    {
      x, y := y, x % y;
    }
    g := x;
  }

  predicate Divides(d: nat, x: nat) {
    if d == 0 then x == 0 else x % d == 0
  }

  lemma {:induction false} DividesSum(d: nat, q: nat, b: nat, r: nat)
    requires Divides(d, b)
    ensures Divides(d, q * b + r) <==> Divides(d, r)
  {
    if d > 0 {
      DivMod(b, d);
      DivMod(r, d);
      Distribute(q * (b / d), d, r / d * d, 1);
      var k := q * (b / d) + r / d;
      assert q * b == q * (b / d) * d;
      assert q * b + r == k * d + r % d;
      DivModOf(q * b + r, k, r % d, d);
    }
  }

  /** The loop computes the greatest common divisor: it divides both, and so does every other common divisor it. */
  lemma {:induction false} GcdIsGreatest(a: nat, b: nat, d: nat)
    ensures Divides(d, Gcd(a, b)) <==> Divides(d, a) && Divides(d, b)
    decreases b
  {
    if b > 0 {
      GcdIsGreatest(b, a % b, d);
      DivMod(a, b);
      if Divides(d, b) {
        DividesSum(d, a / b, b, a % b);
      }
    }
  }

  lemma {:induction false} Bezout(a: nat, b: nat) returns (u: int, v: int)
    ensures a * u + b * v == Gcd(a, b)
    decreases b
  {
    if b == 0 {
      u, v := 1, 0;
    } else {
      var s, t := Bezout(b, a % b);
      u, v := t, s - a / b * t;
      DivMod(a, b);
      assert a * t == (a / b * b) * t + a % b * t;
      assert b * (s - a / b * t) == b * s - (a / b * b) * t;
    }
  }

  function AffineIndex(a: nat, b: nat, n: nat, i: nat): nat
    requires n > 0
  {
    (a * i + b) % n
  }

  /** The affine order starts at b and moves on by a, modulo n. */
  lemma AffineSteps(a: nat, b: nat, n: nat, i: nat)
    requires n > 0
    ensures AffineIndex(a, b, n, 0) == b % n
    ensures AffineIndex(a, b, n, i + 1) == (AffineIndex(a, b, n, i) + a) % n
  {
    var x := a * i + b;
    assert a * 0 + b == b && a * (i + 1) + b == x + a;
    DivMod(x, n);
    DivMod(x % n + a, n);
    var q := (x % n + a) / n;
    Distribute(x / n, q, 1, n);
    DivModOf(x + a, x / n + q, (x % n + a) % n, n);
  }

  function AffineBack(u: int, b: nat, n: nat, c: nat): nat
    requires n > 0
  {
    (u * (c - b)) % n
  }

  /** Multiplying by a unit and adding an offset permutes the residues; u is the inverse of a. */
  lemma AffineInverse(a: nat, b: nat, n: nat) returns (u: int)
    requires n > 0 && Gcd(a, n) == 1
    ensures forall i: nat | i < n :: AffineBack(u, b, n, AffineIndex(a, b, n, i)) == i
    ensures forall c: nat | c < n :: AffineIndex(a, b, n, AffineBack(u, b, n, c)) == c
  {
    var v;
    u, v := Bezout(a, n);
    forall i: nat | i < n ensures AffineBack(u, b, n, AffineIndex(a, b, n, i)) == i {
      BackOfIndex(a, b, n, u, v, i);
    }
    forall c: nat | c < n ensures AffineIndex(a, b, n, AffineBack(u, b, n, c)) == c {
      IndexOfBack(a, b, n, u, v, c);
    }
  }

  lemma BackOfIndex(a: nat, b: nat, n: nat, u: int, v: int, i: nat)
    requires i < n && a * u + n * v == 1
    ensures AffineBack(u, b, n, AffineIndex(a, b, n, i)) == i
  {
    var q, c := (a * i + b) / n, (a * i + b) % n;
    assert c - b == a * i - n * q;
    BackArith(a, n, u, v, i, q);
    DivModOf(u * (c - b), -(v * i) - u * q, i, n);
  }

  lemma BackArith(a: int, n: int, u: int, v: int, i: int, q: int)
    requires a * u + n * v == 1
    ensures u * (a * i - n * q) == (-(v * i) - u * q) * n + i
  {
    assert u * (a * i) == (a * u) * i == (1 - n * v) * i;
  }

  lemma IndexOfBack(a: nat, b: nat, n: nat, u: int, v: int, c: nat)
    requires c < n && a * u + n * v == 1
    ensures AffineIndex(a, b, n, AffineBack(u, b, n, c)) == c
  {
    var q, i := (u * (c - b)) / n, (u * (c - b)) % n;
    assert i == u * (c - b) - n * q;
    IndexArith(a, n, u, v, c - b, q);
    DivModOf(a * i + b, -(v * (c - b)) - a * q, c, n);
  }

  lemma IndexArith(a: int, n: int, u: int, v: int, d: int, q: int)
    requires a * u + n * v == 1
    ensures a * (u * d - n * q) == (-(v * d) - a * q) * n + d
  {
    assert a * (u * d) == (a * u) * d == (1 - n * v) * d;
  }

  function Candidate(h: nat, n: nat): nat
    requires n > 0
  {
    if h % n == 0 then 1 else h % n
  }

  predicate FirstCoprime(multiplier: nat -> nat, n: nat, c: nat)
    requires n > 0
  {
    && Gcd(Candidate(multiplier(c), n), n) == 1
    && forall e | 0 <= e < c :: Gcd(Candidate(multiplier(e), n), n) != 1
  }

  /** limit is a counter at which the hash yields a coprime multiplier; without one the source does not halt. */
  method DeriveAffineParams(multiplier: nat -> nat, offset: nat, n: int, ghost limit: nat) returns (a: nat, b: nat)
    requires n > 1 ==> Gcd(Candidate(multiplier(limit), n), n) == 1
    ensures n <= 1 ==> a == 1 && b == 0
    ensures n > 1 ==> Gcd(a, n) == 1 && 0 < a < n && b == offset % n
    ensures n > 1 ==> exists c: nat :: c <= limit && FirstCoprime(multiplier, n, c) && a == Candidate(multiplier(c), n)
  {
    if n <= 1 {
      return 1, 0;
    }
    var counter := 0;
    a := multiplier(counter) % n;
    if a == 0 {
      a := 1;
    }
    var g := GcdBigInt(a, n);
    while g != 1
      invariant counter <= limit && a == Candidate(multiplier(counter), n) && g == Gcd(a, n)
      invariant forall e | 0 <= e < counter :: Gcd(Candidate(multiplier(e), n), n) != 1
      decreases limit - counter
    {
      counter := counter + 1;
      a := multiplier(counter) % n;
      if a == 0 {
        a := 1;
      }
      g := GcdBigInt(a, n);
    }
    assert FirstCoprime(multiplier, n, counter);
    b := offset % n;
  }

  // ── One interface for both modes ────────────────────────────────────────

  datatype Order = Feistel(f: RoundFn) | Affine(a: nat, b: nat)

  predicate ValidOrder(o: Order, n: nat) {
    n > 0 && (o.Affine? ==> Gcd(o.a, n) == 1)
  }

  /** The virtual chunk at position i of the allocation order. */
  ghost function ChunkAt(o: Order, n: nat, i: nat): (c: nat)
    requires ValidOrder(o, n) && i < n
    ensures c < n
  {
    match o
    case Feistel(f) => FeistelIndex(f, n, i)
    case Affine(a, b) => AffineIndex(a, b, n, i)
  }

  method PermuteIndex(o: Order, n: nat, i: nat) returns (c: nat)
    requires ValidOrder(o, n) && i < n
    ensures c == ChunkAt(o, n, i)
  {
    match o
    case Feistel(f) =>
      var r, _ := PermuteIndexFeistel(i, n, f);
      c := r.value;
    case Affine(a, b) =>
      c := AffineIndex(a, b, n, i);
  }

  /** Position of a virtual chunk in the order. */
  ghost function PositionOf(o: Order, n: nat, c: nat): (i: nat)
    requires ValidOrder(o, n) && c < n
    ensures i < n && ChunkAt(o, n, i) == c
  {
    match o
    case Feistel(f) => OrderOf(f, n, c)
    case Affine(a, b) =>
      assert exists i: nat :: i < n && AffineIndex(a, b, n, i) == c by {
        var u := AffineInverse(a, b, n);
        assert AffineIndex(a, b, n, AffineBack(u, b, n, c)) == c;
      }
      var i: nat :| i < n && AffineIndex(a, b, n, i) == c;
      i
  }

  /** Both orders visit every virtual chunk exactly once. */
  lemma OrderBijective(o: Order, n: nat, i: nat, j: nat)
    requires ValidOrder(o, n) && i < n && j < n
    ensures ChunkAt(o, n, i) == ChunkAt(o, n, j) ==> i == j
    ensures ChunkAt(o, n, PositionOf(o, n, j)) == j && PositionOf(o, n, ChunkAt(o, n, i)) == i
  {
    match o
    case Feistel(f) =>
      var _ := OrderOf(f, n, ChunkAt(o, n, j));
      var _ := OrderOf(f, n, ChunkAt(o, n, i));
    case Affine(a, b) =>
      var u := AffineInverse(a, b, n);
      var k := PositionOf(o, n, ChunkAt(o, n, i));
      assert AffineBack(u, b, n, AffineIndex(a, b, n, k)) == k;
      assert AffineBack(u, b, n, AffineIndex(a, b, n, i)) == i;
      assert AffineBack(u, b, n, AffineIndex(a, b, n, j)) == j;
  }
}
