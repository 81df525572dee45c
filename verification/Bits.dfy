/** Exclusive or on unsigned integers of any width; shifts and masks are products, quotients and remainders by 2^k. */
module Bits {
  import opened Digits

  function Xor(a: nat, b: nat): nat
    decreases a + b
  {
    if a == 0 && b == 0 then 0 else (a % 2 + b % 2) % 2 + 2 * Xor(a / 2, b / 2)
  }

  lemma {:induction false} XorSame(a: nat)
    ensures Xor(a, a) == 0
  {
    if a > 0 {
      XorSame(a / 2);
    }
  }

  lemma {:induction false} XorZero(a: nat)
    ensures Xor(a, 0) == a && Xor(0, a) == a
  {
    if a > 0 {
      XorZero(a / 2);
    }
  }

  lemma {:induction false} XorComm(a: nat, b: nat)
    ensures Xor(a, b) == Xor(b, a)
    decreases a + b
  {
    if a + b > 0 {
      XorComm(a / 2, b / 2);
    }
  }

  /** p, q, u and v are XORs of a and b, of b and c, and of their halves. */
  lemma AssocStep(a: nat, b: nat, c: nat, p: nat, q: nat, u: nat, v: nat)
    requires p / 2 == u && p % 2 == (a % 2 + b % 2) % 2
    requires q / 2 == v && q % 2 == (b % 2 + c % 2) % 2
    requires Xor(u, c / 2) == Xor(a / 2, v)
    ensures Xor(p, c) == Xor(a, q)
  {
    ParityAssoc(a % 2, b % 2, c % 2);
    ByHalves(p, c, a, q);
  }

  lemma {:induction false} XorAssoc(a: nat, b: nat, c: nat)
    ensures Xor(Xor(a, b), c) == Xor(a, Xor(b, c))
    decreases a + b + c
  {
    if a + b + c == 0 {
      XorZero(0);
    } else {
      var x, y, z := a / 2, b / 2, c / 2;
      XorAssoc(x, y, z);
      XorUnfold(a, b);
      XorUnfold(b, c);
      AssocStep(a, b, c, Xor(a, b), Xor(b, c), Xor(x, y), Xor(y, z));
    }
  }

  lemma ParityAssoc(x: nat, y: nat, z: nat)
    requires x < 2 && y < 2 && z < 2
    ensures ((x + y) % 2 + z) % 2 == (x + (y + z) % 2) % 2
  {}

  lemma ByHalves(p: nat, c: nat, a: nat, q: nat)
    requires Xor(p / 2, c / 2) == Xor(a / 2, q / 2)
    requires (p % 2 + c % 2) % 2 == (a % 2 + q % 2) % 2
    ensures Xor(p, c) == Xor(a, q)
  {
    XorUnfold(p, c);
    XorUnfold(a, q);
  }

  lemma XorUnfold(a: nat, b: nat)
    ensures Xor(a, b) % 2 == (a % 2 + b % 2) % 2
    ensures Xor(a, b) / 2 == Xor(a / 2, b / 2)
  {}

  /** XOR with one value undoes itself. */
  lemma XorCancel(a: nat, b: nat)
    ensures Xor(Xor(a, b), b) == a
  {
    XorAssoc(a, b, b);
    XorSame(b);
    XorZero(a);
  }

  lemma XorIsZero(a: nat, b: nat)
    ensures Xor(a, b) == 0 <==> a == b
  {
    XorCancel(a, b);
    XorZero(b);
    XorSame(b);
  }

  lemma XorPair(a: nat, b: nat, c: nat, d: nat)
    ensures Xor(Xor(a, b), Xor(c, d)) == Xor(Xor(a, c), Xor(b, d))
  {
    XorAssoc(a, b, Xor(c, d));
    XorAssoc(b, c, d);
    XorComm(b, c);
    XorAssoc(c, b, d);
    XorAssoc(a, c, Xor(b, d));
  }

  lemma {:induction false} XorBound(a: nat, b: nat, k: nat)
    requires a < Pow(2, k) && b < Pow(2, k)
    ensures Xor(a, b) < Pow(2, k)
  {
    if k > 0 {
      XorBound(a / 2, b / 2, k - 1);
    }
  }

  /** XOR acts separately on the bits above and below position k. */
  lemma {:induction false} XorSplit(a: nat, b: nat, k: nat)
    ensures Pow(2, k) > 0
    ensures Xor(a, b) / Pow(2, k) == Xor(a / Pow(2, k), b / Pow(2, k))
    ensures Xor(a, b) % Pow(2, k) == Xor(a % Pow(2, k), b % Pow(2, k))
  {
    PowPositive(2, k);
    XorHigh(a, b, k);
    XorLow(a, b, k);
  }

  lemma {:induction false} XorHigh(a: nat, b: nat, k: nat)
    requires Pow(2, k) > 0
    ensures Xor(a, b) / Pow(2, k) == Xor(a / Pow(2, k), b / Pow(2, k))
  {
    if k > 0 {
      LowBit(a, k);
      LowBit(b, k);
      LowBit(Xor(a, b), k);
      XorUnfold(a, b);
      XorHigh(a / 2, b / 2, k - 1);
    }
  }

  lemma {:induction false} XorLow(a: nat, b: nat, k: nat)
    requires Pow(2, k) > 0
    ensures Xor(a, b) % Pow(2, k) == Xor(a % Pow(2, k), b % Pow(2, k))
  {
    if k == 0 {
      XorZero(0);
    } else {
      LowBit(a, k);
      LowBit(b, k);
      LowBit(Xor(a, b), k);
      XorUnfold(a, b);
      XorLow(a / 2, b / 2, k - 1);
      XorIs(a % Pow(2, k), b % Pow(2, k), Xor(a, b) % Pow(2, k));
    }
  }

  lemma XorIs(a: nat, b: nat, x: nat)
    requires x / 2 == Xor(a / 2, b / 2) && x % 2 == (a % 2 + b % 2) % 2
    ensures x == Xor(a, b)
  {
    XorUnfold(a, b);
  }

  lemma LowBit(a: nat, k: nat)
    requires k > 0
    ensures Pow(2, k) > 0 && Pow(2, k - 1) > 0
    ensures a / Pow(2, k) == a / 2 / Pow(2, k - 1)
    ensures a % Pow(2, k) % 2 == a % 2 && a % Pow(2, k) / 2 == a / 2 % Pow(2, k - 1)
  {
    PowPositive(2, k);
    PowPositive(2, k - 1);
    var P := Pow(2, k - 1);
    assert Pow(2, k) == 2 * P;
    DivMod(a / 2, P);
    LowBitOf(a, a / 2 / P, a / 2 % P, a % 2, P);
  }

  lemma LowBitOf(a: nat, q: nat, r: nat, bit: nat, P: nat)
    requires r < P && bit < 2 && a == 2 * (q * P + r) + bit
    ensures a / (2 * P) == q && a % (2 * P) == 2 * r + bit
    ensures (2 * r + bit) % 2 == bit && (2 * r + bit) / 2 == r
  {
    assert q * (2 * P) == 2 * (q * P);
    DivModOf(a, q, 2 * r + bit, 2 * P);
  }

  lemma XorShift(a: nat, b: nat, k: nat)
    ensures Xor(a * Pow(2, k), b * Pow(2, k)) == Xor(a, b) * Pow(2, k)
  {
    var A, B := a * Pow(2, k), b * Pow(2, k);
    XorSplit(A, B, k);
    DivModOf(A, a, 0, Pow(2, k));
    DivModOf(B, b, 0, Pow(2, k));
    XorZero(0);
    DivMod(Xor(A, B), Pow(2, k));
  }

  /** Bit k, found by shifting right k times. */
  function BitAt(a: nat, k: nat): (b: nat)
    ensures b < 2
  {
    if k == 0 then a % 2 else BitAt(a / 2, k - 1)
  }

  lemma {:induction false} XorBit(a: nat, b: nat, k: nat)
    ensures BitAt(Xor(a, b), k) == (BitAt(a, k) + BitAt(b, k)) % 2
  {
    XorUnfold(a, b);
    if k > 0 {
      XorBit(a / 2, b / 2, k - 1);
    }
  }
}
