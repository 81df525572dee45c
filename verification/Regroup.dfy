/** Cutting one bit stream into symbols of two widths, the core of base64url and of Bech32. */
module Regroup {
  import opened Digits

  // Shift, mask and product as recursions over the bit count, so that the predicate below stays linear.

  function Shl(a: nat, k: nat): nat {
    if k == 0 then a else 2 * Shl(a, k - 1)
  }

  function Low(a: nat, k: nat): nat {
    if k == 0 then 0 else a % 2 + 2 * Low(a / 2, k - 1)
  }

  function Bits(symbols: nat, w: nat): nat {
    if symbols == 0 then 0 else Bits(symbols - 1, w) + w
  }

  lemma {:induction false} ShlIs(a: nat, k: nat)
    ensures Shl(a, k) == a * Pow(2, k)
  {
    if k > 0 {
      ShlIs(a, k - 1);
    }
  }

  lemma {:induction false} LowIs(a: nat, k: nat)
    ensures Pow(2, k) > 0 && Low(a, k) == a % Pow(2, k)
  {
    PowPositive(2, k);
    if k > 0 {
      LowIs(a / 2, k - 1);
      PowPositive(2, k - 1);
      SplitMod(a, Pow(2, k - 1), 2);
    }
  }

  lemma {:induction false} BitsIs(symbols: nat, w: nat)
    ensures Bits(symbols, w) == symbols * w
  {
    if symbols > 0 {
      BitsIs(symbols - 1, w);
    }
  }

  /** The narrow symbols spell the bits of the wide ones, zero-padded to the next narrow boundary. */
  predicate Regrouped(wide: seq<nat>, w: nat, narrow: seq<nat>, n: nat) {
    && InBase(wide, Pow(2, w))
    && InBase(narrow, Pow(2, n))
    && 0 <= Bits(|narrow|, n) - Bits(|wide|, w) < n
    && Val(narrow, Pow(2, n)) == Shl(Val(wide, Pow(2, w)), Bits(|narrow|, n) - Bits(|wide|, w))
  }

  lemma RegroupedEquations(wide: seq<nat>, w: nat, narrow: seq<nat>, n: nat)
    requires InBase(wide, Pow(2, w)) && InBase(narrow, Pow(2, n))
    ensures Regrouped(wide, w, narrow, n) <==>
              0 <= |narrow| * n - |wide| * w < n &&
              Val(narrow, Pow(2, n)) == Val(wide, Pow(2, w)) * Pow(2, |narrow| * n - |wide| * w)
  {
    BitsIs(|wide|, w);
    BitsIs(|narrow|, n);
    if 0 <= |narrow| * n - |wide| * w {
      ShlIs(Val(wide, Pow(2, w)), |narrow| * n - |wide| * w);
    }
  }

  lemma SameMultiple(i: nat, j: nat, w: nat, lo: int)
    requires lo <= i * w < lo + w && lo <= j * w < lo + w
    ensures i == j
  {
    if i < j {
      MulStep(i, j, w);
    } else if j < i {
      MulStep(j, i, w);
    }
  }

  lemma CancelPow(a: nat, b: nat, p: nat, r: nat)
    requires r < Pow(2, p) && a * Pow(2, p) == b * Pow(2, p) + r
    ensures a == b && r == 0
  {
    DivModUnique(a, 0, b, r, Pow(2, p));
  }

  lemma NarrowUnique(x: seq<nat>, w: nat, y: seq<nat>, z: seq<nat>, n: nat)
    requires Regrouped(x, w, y, n) && Regrouped(x, w, z, n)
    ensures y == z
  {
    RegroupedEquations(x, w, y, n);
    RegroupedEquations(x, w, z, n);
    SameMultiple(|y|, |z|, n, |x| * w);
    ValUnique(y, z, Pow(2, n));
  }

  lemma WideUnique(x: seq<nat>, z: seq<nat>, w: nat, y: seq<nat>, n: nat)
    requires n <= w && Regrouped(x, w, y, n) && Regrouped(z, w, y, n)
    ensures x == z
  {
    RegroupedEquations(x, w, y, n);
    RegroupedEquations(z, w, y, n);
    SameMultiple(|x|, |z|, w, |y| * n - w + 1);
    PowPositive(2, |y| * n - |x| * w);
    CancelPow(Val(x, Pow(2, w)), Val(z, Pow(2, w)), |y| * n - |x| * w, 0);
    ValUnique(x, z, Pow(2, w));
  }

  // ── The streaming converter's register ──────────────────────────────────

  /** Symbols read so far equal symbols written so far followed by the pending low bits. */
  predicate Streaming(read: seq<nat>, f: nat, acc: nat, bits: nat, written: seq<nat>, t: nat) {
    && InBase(read, Pow(2, f))
    && InBase(written, Pow(2, t))
    && Bits(|written|, t) + bits == Bits(|read|, f)
    && Val(read, Pow(2, f)) == Shl(Val(written, Pow(2, t)), bits) + Low(acc, bits)
  }

  lemma StreamEquations(read: seq<nat>, f: nat, acc: nat, bits: nat, written: seq<nat>, t: nat)
    requires InBase(read, Pow(2, f)) && InBase(written, Pow(2, t))
    ensures Pow(2, bits) > 0
    ensures Streaming(read, f, acc, bits, written, t) <==>
              |written| * t + bits == |read| * f &&
              Val(read, Pow(2, f)) == Val(written, Pow(2, t)) * Pow(2, bits) + acc % Pow(2, bits)
  {
    ShlIs(Val(written, Pow(2, t)), bits);
    LowIs(acc, bits);
    BitsIs(|written|, t);
    BitsIs(|read|, f);
  }

  lemma StreamPush(read: seq<nat>, f: nat, acc: nat, bits: nat, written: seq<nat>, t: nat, v: nat, mask: nat, acc': nat)
    requires Streaming(read, f, acc, bits, written, t)
    requires v < Pow(2, f) && bits + f <= mask
    requires Pow(2, mask) > 0 && acc' == (acc * Pow(2, f) + v) % Pow(2, mask)
    ensures Streaming(read + [v], f, acc', bits + f, written, t)
  {
    StreamEquations(read, f, acc, bits, written, t);
    StreamEquations(read + [v], f, acc', bits + f, written, t);
    PushBits(acc, bits, v, f, mask);
    ValSnoc(read, v, Pow(2, f));
    PowAdd(2, bits, f);
    Distribute(Val(written, Pow(2, t)), Pow(2, bits), acc % Pow(2, bits), Pow(2, f));
    Distribute(|read|, 1, 1, f);
  }

  lemma StreamPop(read: seq<nat>, f: nat, acc: nat, bits: nat, written: seq<nat>, t: nat)
    requires t <= bits && Streaming(read, f, acc, bits, written, t)
    ensures Pow(2, bits - t) > 0 && Pow(2, t) > 0
    ensures Streaming(read, f, acc, bits - t, written + [acc / Pow(2, bits - t) % Pow(2, t)], t)
  {
    SplitBits(acc, t, bits - t);
    PowAdd(2, t, bits - t);
    var d := acc / Pow(2, bits - t) % Pow(2, t);
    StreamEquations(read, f, acc, bits, written, t);
    StreamEquations(read, f, acc, bits - t, written + [d], t);
    ValSnoc(written, d, Pow(2, t));
    Distribute(Val(written, Pow(2, t)), Pow(2, t), d, Pow(2, bits - t));
    Distribute(|written|, 1, 1, t);
  }

  /** The shifted final test sees exactly the pending low bits. */
  lemma PendingShifted(acc: nat, bits: nat, t: nat)
    requires bits <= t
    ensures Pow(2, t) > 0 && Pow(2, bits) > 0 && Pow(2, t - bits) > 0
    ensures acc * Pow(2, t - bits) % Pow(2, t) == acc % Pow(2, bits) * Pow(2, t - bits)
  {
    SplitBits(acc * Pow(2, t - bits), bits, t - bits);
    DivModOf(acc * Pow(2, t - bits), acc, 0, Pow(2, t - bits));
  }

  /** Padded end of the stream. */
  lemma StreamPad(read: seq<nat>, f: nat, acc: nat, bits: nat, written: seq<nat>, t: nat)
    requires 0 < bits < t && Streaming(read, f, acc, bits, written, t)
    ensures Pow(2, t) > 0
    ensures Regrouped(read, f, written + [acc * Pow(2, t - bits) % Pow(2, t)], t)
  {
    PendingShifted(acc, bits, t);
    var d := acc * Pow(2, t - bits) % Pow(2, t);
    Padded(read, f, acc, bits, written, t, d);
  }

  lemma Padded(read: seq<nat>, f: nat, acc: nat, bits: nat, written: seq<nat>, t: nat, d: nat)
    requires 0 < bits < t && Streaming(read, f, acc, bits, written, t) && d < Pow(2, t)
    requires Pow(2, bits) > 0 && d == acc % Pow(2, bits) * Pow(2, t - bits)
    ensures Regrouped(read, f, written + [d], t)
  {
    StreamEquations(read, f, acc, bits, written, t);
    RegroupedEquations(read, f, written + [d], t);
    PowAdd(2, bits, t - bits);
    ValSnoc(written, d, Pow(2, t));
    Distribute(Val(written, Pow(2, t)), Pow(2, bits), acc % Pow(2, bits), Pow(2, t - bits));
    Distribute(|written|, 1, 1, t);
  }

  lemma StreamExact(read: seq<nat>, f: nat, acc: nat, written: seq<nat>, t: nat)
    requires t > 0 && Streaming(read, f, acc, 0, written, t)
    ensures Regrouped(read, f, written, t)
  {
    StreamEquations(read, f, acc, 0, written, t);
    RegroupedEquations(read, f, written, t);
  }

  lemma NothingPending(x: nat, written: nat, low: nat, more: nat, bits: nat)
    requires low < Pow(2, bits) && x * Pow(2, more + bits) == written * Pow(2, bits) + low
    ensures low == 0
  {
    PowAdd(2, more, bits);
    Distribute(x, Pow(2, more), 0, Pow(2, bits));
    CancelPow(x * Pow(2, more), written, bits, low);
  }

  /** A shorter text leaves whole symbols of padding besides the pending bits. */
  lemma MissingSymbols(m: nat, written: nat, t: nat, bits: nat, total: nat) returns (j: nat)
    requires bits < t && written * t + bits == total && m * t <= total
    ensures total - m * t == j * t + bits && (j > 0 ==> j * t >= t)
  {
    if written < m {
      MulStep(written, m, t);
      assert false;
    }
    j := written - m;
    Distribute(m, 1, j, t);
    if j > 0 {
      MulMono(1, j, t);
    }
  }

  /** Unpadded end: the pending bits are a zero padding exactly when some wide text regroups to the input. */
  lemma StreamUnpadded(read: seq<nat>, f: nat, acc: nat, bits: nat, written: seq<nat>, t: nat)
    requires bits < t && Streaming(read, f, acc, bits, written, t)
    ensures Pow(2, bits) > 0
    ensures bits < f && acc % Pow(2, bits) == 0 ==> Regrouped(written, t, read, f)
    ensures (exists x :: Regrouped(x, t, read, f)) ==> bits < f && acc % Pow(2, bits) == 0
  {
    StreamEquations(read, f, acc, bits, written, t);
    RegroupedEquations(written, t, read, f);
    if x :| Regrouped(x, t, read, f) {
      RegroupedEquations(x, t, read, f);
      var j := MissingSymbols(|x|, |written|, t, bits, |read| * f);
      NothingPending(Val(x, Pow(2, t)), Val(written, Pow(2, t)), acc % Pow(2, bits), j * t, bits);
    }
  }
}
