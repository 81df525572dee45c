/** Big-endian positional numerals: the value of a digit sequence in a base. */
module Digits {

  function Pow(b: nat, e: nat): nat {
    if e == 0 then 1 else b * Pow(b, e - 1)
  }

  function Val(s: seq<nat>, b: nat): nat {
    if s == [] then 0 else Val(s[..|s| - 1], b) * b + s[|s| - 1]
  }

  predicate InBase(s: seq<nat>, b: nat) {
    forall i | 0 <= i < |s| :: s[i] < b
  }

  /** Lexicographic order on equally long sequences. */
  predicate LexLess(s: seq<nat>, t: seq<nat>)
    requires |s| == |t|
  {
    s != [] && (s[0] < t[0] || (s[0] == t[0] && LexLess(s[1..], t[1..])))
  }

  function Zeros(n: nat): (z: seq<nat>)
    ensures |z| == n && forall i | 0 <= i < n :: z[i] == 0
  {
    seq(n, _ => 0)
  }

  lemma MulMono(a: int, b: int, c: nat)
    requires a <= b
    ensures a * c <= b * c
  {
    assert (b - a) * c >= 0;
  }

  lemma MulStep(a: int, b: int, c: nat)
    requires a < b
    ensures a * c + c <= b * c
  {
    MulMono(a + 1, b, c);
  }

  lemma Distribute(a: int, b: int, c: int, d: int)
    ensures (a * b + c) * d == a * (b * d) + c * d
  {}

  /** One more digit keeps a value below the next power. */
  lemma Carry(x: nat, d: nat, p: nat, b: nat)
    requires x < p && d < b
    ensures x * b + d < b * p
  {
    MulMono(x + 1, p, b);
    assert (x + 1) * b == x * b + b;
  }

  lemma {:induction false} PowPositive(b: nat, e: nat)
    requires b > 0
    ensures Pow(b, e) > 0
  {
    if e > 0 {
      PowPositive(b, e - 1);
    }
  }

  lemma {:induction false} PowAdd(b: nat, d: nat, e: nat)
    ensures Pow(b, d + e) == Pow(b, d) * Pow(b, e)
  {
    if d > 0 {
      PowAdd(b, d - 1, e);
      assert Pow(b, d + e) == b * Pow(b, d - 1 + e);
      assert b * (Pow(b, d - 1) * Pow(b, e)) == (b * Pow(b, d - 1)) * Pow(b, e);
    }
  }

  lemma ValSnoc(s: seq<nat>, d: nat, b: nat)
    ensures Val(s + [d], b) == Val(s, b) * b + d
  {
    assert (s + [d])[..|s|] == s;
  }

  lemma {:induction false} ValBound(s: seq<nat>, b: nat)
    requires b > 0 && InBase(s, b)
    ensures Val(s, b) < Pow(b, |s|)
  {
    if s != [] {
      var p := s[..|s| - 1];
      ValBound(p, b);
      Carry(Val(p, b), s[|p|], Pow(b, |p|), b);
    }
  }

  lemma ShiftSum(x: nat, p: nat, y: nat, b: nat)
    ensures (x * p + y) * b == x * (b * p) + y * b
  {}

  lemma {:induction false} ValConcat(s: seq<nat>, t: seq<nat>, b: nat)
    ensures Val(s + t, b) == Val(s, b) * Pow(b, |t|) + Val(t, b)
  {
    if t == [] {
      assert s + t == s;
    } else {
      var p, d := t[..|t| - 1], t[|t| - 1];
      ValConcat(s, p, b);
      assert s + t == (s + p) + [d];
      ValSnoc(s + p, d, b);
      ShiftSum(Val(s, b), Pow(b, |p|), Val(p, b), b);
    }
  }

  lemma {:induction false} ValZeros(n: nat, b: nat)
    ensures Val(Zeros(n), b) == 0
  {
    if n > 0 {
      assert Zeros(n)[..n - 1] == Zeros(n - 1);
      ValZeros(n - 1, b);
    }
  }

  lemma DivModUnique(q: int, r: nat, q': int, r': nat, b: nat)
    requires r < b && r' < b && q * b + r == q' * b + r'
    ensures q == q' && r == r'
  {
    if q < q' {
      MulMono(q + 1, q', b);
    } else if q' < q {
      MulMono(q' + 1, q, b);
    }
  }

  /** Equally long numerals with one value are one numeral. */
  lemma {:induction false} ValUnique(s: seq<nat>, t: seq<nat>, b: nat)
    requires |s| == |t| && InBase(s, b) && InBase(t, b)
    requires Val(s, b) == Val(t, b)
    ensures s == t
  {
    if s != [] {
      var p, q := s[..|s| - 1], t[..|t| - 1];
      DivModUnique(Val(p, b), s[|p|], Val(q, b), t[|q|], b);
      ValUnique(p, q, b);
      assert s == p + [s[|p|]] && t == q + [t[|q|]];
    }
  }

  /** Without a leading zero, the value determines the length too. */
  lemma ValUniqueNormal(s: seq<nat>, t: seq<nat>, b: nat)
    requires b > 0 && InBase(s, b) && InBase(t, b)
    requires s != [] ==> s[0] != 0
    requires t != [] ==> t[0] != 0
    requires Val(s, b) == Val(t, b)
    ensures s == t
  {
    if |s| < |t| {
      ValShorter(s, t, b);
    } else if |t| < |s| {
      ValShorter(t, s, b);
    } else {
      ValUnique(s, t, b);
    }
  }

  lemma PowMono(b: nat, d: nat, e: nat)
    requires b > 0 && d <= e
    ensures Pow(b, d) <= Pow(b, e)
  {
    PowAdd(b, e - d, d);
    PowPositive(b, e - d);
    MulMono(1, Pow(b, e - d), Pow(b, d));
  }

  lemma ValAtLeast(t: seq<nat>, b: nat)
    requires t != [] && t[0] != 0
    ensures Pow(b, |t| - 1) <= Val(t, b)
  {
    assert t == [t[0]] + t[1..];
    ValConcat([t[0]], t[1..], b);
    ValSnoc([], t[0], b);
    MulMono(1, t[0], Pow(b, |t| - 1));
  }

  lemma ValShorter(s: seq<nat>, t: seq<nat>, b: nat)
    requires b > 0 && InBase(s, b)
    requires |s| < |t| && t[0] != 0
    ensures Val(s, b) < Val(t, b)
  {
    ValBound(s, b);
    ValAtLeast(t, b);
    PowMono(b, |s|, |t| - 1);
  }

  /** On equally long numerals text order is numeric order. */
  lemma {:induction false} ValLex(s: seq<nat>, t: seq<nat>, b: nat)
    requires |s| == |t| && b > 0 && InBase(s, b) && InBase(t, b)
    ensures LexLess(s, t) <==> Val(s, b) < Val(t, b)
  {
    if s != [] {
      var n := |s| - 1;
      assert s == [s[0]] + s[1..] && t == [t[0]] + t[1..];
      ValConcat([s[0]], s[1..], b);
      ValConcat([t[0]], t[1..], b);
      ValSnoc([], s[0], b);
      ValSnoc([], t[0], b);
      ValBound(s[1..], b);
      ValBound(t[1..], b);
      ValLex(s[1..], t[1..], b);
      LeadingDigit(s[0], Val(s[1..], b), t[0], Val(t[1..], b), Pow(b, n));
    }
  }

  lemma LeadingDigit(d: nat, x: nat, e: nat, y: nat, p: nat)
    requires x < p && y < p
    ensures d * p + x < e * p + y <==> d < e || (d == e && x < y)
  {
    if d < e {
      MulMono(d + 1, e, p);
      assert (d + 1) * p == d * p + p;
    } else if e < d {
      MulMono(e + 1, d, p);
      assert (e + 1) * p == e * p + p;
    }
  }

  /** Euclidean division is the only decomposition with a small remainder. */
  lemma DivModOf(x: int, q: int, r: int, b: nat)
    requires 0 <= r < b && x == q * b + r
    ensures x / b == q && x % b == r
  {
    assert x == x / b * b + x % b;
    DivModUnique(x / b, x % b, q, r, b);
  }

  lemma DivMod(x: nat, b: nat)
    requires b > 0
    ensures x == x / b * b + x % b
  {}

  /** x mod D*E splits into a quotient digit mod D and a remainder mod E. */
  lemma SplitMod(x: nat, D: nat, E: nat)
    requires D > 0 && E > 0
    ensures D * E > 0
    ensures x % (D * E) == (x / E % D) * E + x % E
  {
    DivMod(x, E);
    DivMod(x / E, D);
    TwoDigits(x, x / E / D, x / E % D, x % E, D, E);
  }

  lemma TwoDigits(x: nat, h: nat, m: nat, l: nat, D: nat, E: nat)
    requires m < D && l < E && x == (h * D + m) * E + l
    ensures D * E > 0 && x % (D * E) == m * E + l
  {
    MulMono(1, D, E);
    MulStep(m, D, E);
    assert (h * D + m) * E == h * (D * E) + m * E;
    DivModOf(x, h, m * E + l, D * E);
  }

  /** Cutting the low d+e bits of a register at bit e. */
  lemma SplitBits(acc: nat, d: nat, e: nat)
    ensures Pow(2, d) > 0 && Pow(2, e) > 0 && Pow(2, d + e) > 0
    ensures acc % Pow(2, d + e) == (acc / Pow(2, e) % Pow(2, d)) * Pow(2, e) + acc % Pow(2, e)
  {
    PowPositive(2, d);
    PowPositive(2, e);
    PowAdd(2, d, e);
    SplitMod(acc, Pow(2, d), Pow(2, e));
  }

  lemma ModOfMod(a: nat, d: nat, e: nat)
    requires e <= d
    ensures Pow(2, d) > 0 && Pow(2, e) > 0
    ensures a % Pow(2, d) % Pow(2, e) == a % Pow(2, e)
  {
    SplitBits(a, d - e, e);
    DivModOf(a % Pow(2, d), a / Pow(2, e) % Pow(2, d - e), a % Pow(2, e), Pow(2, e));
  }

  /** Shifting a symbol into a masked register keeps the bits that are still pending. */
  lemma PushBits(acc: nat, bits: nat, v: nat, w: nat, mask: nat)
    requires v < Pow(2, w) && bits + w <= mask
    ensures Pow(2, mask) > 0 && Pow(2, bits + w) > 0 && Pow(2, bits) > 0
    ensures (acc * Pow(2, w) + v) % Pow(2, mask) % Pow(2, bits + w) == acc % Pow(2, bits) * Pow(2, w) + v
  {
    var a := acc * Pow(2, w) + v;
    ModOfMod(a, mask, bits + w);
    SplitBits(a, bits, w);
    DivModOf(a, acc, v, Pow(2, w));
  }
}
