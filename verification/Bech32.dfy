/**
 * A checksum register over words with an exclusive-or: each step shifts the register, adds a symbol and folds the
 * shifted-out part back in. Burst detection follows from linearity and three facts about one step.
 */
module LinearChecksum {
  datatype Machine<!W(!new, ==)> = Machine(
    xor: (W, W) -> W, zero: W, term: (W, nat) -> W, shift: W -> W, top: W -> W,
    isWord: W -> bool, isSymbol: W -> bool, below: (W, nat) -> bool)

  /** base with the first n terms of top folded in. */
  function Partial<W(!new)>(m: Machine<W>, base: W, top: W, n: nat): W {
    if n == 0 then base else m.xor(Partial(m, base, top, n - 1), m.term(top, n - 1))
  }

  function Step<W(!new)>(m: Machine<W>, chk: W, v: W): W {
    Partial(m, m.xor(m.shift(chk), v), m.top(chk), 5)
  }

  function Fold<W(!new)>(m: Machine<W>, chk: W, s: seq<W>): W {
    if s == [] then chk else Step(m, Fold(m, chk, s[..|s| - 1]), s[|s| - 1])
  }

  ghost predicate AllSymbols<W(!new)>(m: Machine<W>, s: seq<W>) {
    forall i | 0 <= i < |s| :: m.isSymbol(s[i])
  }

  // The laws, one instance at a time.

  ghost predicate PairLaw<W(!new)>(m: Machine<W>, a: W, b: W, c: W, d: W) {
    m.xor(m.xor(a, b), m.xor(c, d)) == m.xor(m.xor(a, c), m.xor(b, d))
  }

  ghost predicate ZeroLaw<W(!new)>(m: Machine<W>, a: W, b: W) {
    m.xor(a, b) == m.zero <==> a == b
  }

  ghost predicate ShiftLaw<W(!new)>(m: Machine<W>, c: W, d: W) {
    m.xor(m.shift(c), m.shift(d)) == m.shift(m.xor(c, d)) && m.xor(m.top(c), m.top(d)) == m.top(m.xor(c, d))
  }

  ghost predicate TermLaw<W(!new)>(m: Machine<W>, x: W, y: W, i: nat) {
    m.xor(m.term(x, i), m.term(y, i)) == m.term(m.xor(x, y), i)
  }

  ghost predicate Linear<W(!new)>(m: Machine<W>) {
    && (forall a, b, c, d :: PairLaw(m, a, b, c, d))
    && (forall a, b :: ZeroLaw(m, a, b))
    && (forall c, d :: ShiftLaw(m, c, d))
    && (forall x, y, i: nat :: TermLaw(m, x, y, i))
  }

  /** Words are closed under differences and steps. */
  ghost predicate WordLaw<W(!new)>(m: Machine<W>, c: W, d: W, v: W) {
    m.isWord(c) && m.isWord(d) && m.isSymbol(v) ==> m.isWord(m.xor(c, d)) && m.isWord(Step(m, c, v))
  }

  /** A step on its own maps no word to zero but zero. */
  ghost predicate KernelLaw<W(!new)>(m: Machine<W>, c: W) {
    m.isWord(c) && Step(m, c, m.zero) == m.zero ==> c == m.zero
  }

  /** A difference made by k < 6 symbols grows by one symbol without wrapping around. */
  ghost predicate GrowLaw<W(!new)>(m: Machine<W>, c: W, v: W, w: W, k: nat) {
    k < 6 && m.below(c, k) && m.isSymbol(v) && m.isSymbol(w) ==>
      var e := m.xor(v, w);
      m.below(Step(m, c, e), k + 1) && (Step(m, c, e) == m.zero ==> c == m.zero && e == m.zero)
  }

  ghost predicate Separating<W(!new)>(m: Machine<W>) {
    && m.below(m.zero, 0)
    && (forall c, d, v :: WordLaw(m, c, d, v))
    && (forall c :: KernelLaw(m, c))
    && (forall c, v, w, k: nat :: GrowLaw(m, c, v, w, k))
  }

  lemma {:induction false} PartialLinear<W(!new)>(m: Machine<W>, a: W, x: W, b: W, y: W, n: nat)
    requires Linear(m)
    ensures m.xor(Partial(m, a, x, n), Partial(m, b, y, n)) == Partial(m, m.xor(a, b), m.xor(x, y), n)
  {
    if n > 0 {
      PartialLinear(m, a, x, b, y, n - 1);
      assert PairLaw(m, Partial(m, a, x, n - 1), m.term(x, n - 1), Partial(m, b, y, n - 1), m.term(y, n - 1));
      assert TermLaw(m, x, y, n - 1);
    }
  }

  /** The new difference of two registers is the step of the old one. */
  lemma StepDifference<W(!new)>(m: Machine<W>, c: W, d: W, v: W, w: W)
    requires Linear(m)
    ensures m.xor(Step(m, c, v), Step(m, d, w)) == Step(m, m.xor(c, d), m.xor(v, w))
  {
    assert PairLaw(m, m.shift(c), v, m.shift(d), w);
    assert ShiftLaw(m, c, d);
    PartialLinear(m, m.xor(m.shift(c), v), m.top(c), m.xor(m.shift(d), w), m.top(d), 5);
  }

  /** From one register, two bursts of at most six symbols meet again only when they are equal. */
  lemma {:induction false} BurstSeparates<W(!new)>(m: Machine<W>, c: W, a: seq<W>, b: seq<W>)
    requires Linear(m) && Separating(m)
    requires |a| == |b| <= 6 && AllSymbols(m, a) && AllSymbols(m, b)
    ensures m.below(m.xor(Fold(m, c, a), Fold(m, c, b)), |a|)
    ensures Fold(m, c, a) == Fold(m, c, b) ==> a == b
  {
    var x, y := Fold(m, c, a), Fold(m, c, b);
    assert ZeroLaw(m, x, y);
    if a != [] {
      var n := |a| - 1;
      var p, q := a[..n], b[..n];
      BurstSeparates(m, c, p, q);
      var x', y' := Fold(m, c, p), Fold(m, c, q);
      StepDifference(m, x', y', a[n], b[n]);
      assert GrowLaw(m, m.xor(x', y'), a[n], b[n], n);
      assert ZeroLaw(m, x', y') && ZeroLaw(m, a[n], b[n]);
      assert a == p + [a[n]] && b == q + [b[n]];
    }
  }

  lemma {:induction false} FoldWord<W(!new)>(m: Machine<W>, c: W, s: seq<W>)
    requires Separating(m) && m.isWord(c) && AllSymbols(m, s)
    ensures m.isWord(Fold(m, c, s))
  {
    if s != [] {
      var p, v := s[..|s| - 1], s[|s| - 1];
      FoldWord(m, c, p);
      assert WordLaw(m, Fold(m, c, p), Fold(m, c, p), v);
    }
  }

  /** A common tail keeps different registers different. */
  lemma {:induction false} TailSeparates<W(!new)>(m: Machine<W>, c: W, d: W, s: seq<W>)
    requires Linear(m) && Separating(m) && m.isWord(c) && m.isWord(d) && AllSymbols(m, s)
    requires Fold(m, c, s) == Fold(m, d, s)
    ensures c == d
  {
    if s != [] {
      var p, v := s[..|s| - 1], s[|s| - 1];
      var x, y := Fold(m, c, p), Fold(m, d, p);
      FoldWord(m, c, p);
      FoldWord(m, d, p);
      StepDifference(m, x, y, v, v);
      assert ZeroLaw(m, v, v) && ZeroLaw(m, Step(m, x, v), Step(m, y, v)) && ZeroLaw(m, x, y);
      assert WordLaw(m, x, y, v) && KernelLaw(m, m.xor(x, y));
      TailSeparates(m, c, d, p);
    }
  }

  lemma {:induction false} FoldConcat<W(!new)>(m: Machine<W>, c: W, s: seq<W>, t: seq<W>)
    ensures Fold(m, c, s + t) == Fold(m, Fold(m, c, s), t)
  {
    if t == [] {
      assert s + t == s;
    } else {
      assert (s + t)[..|s + t| - 1] == s + t[..|t| - 1];
      FoldConcat(m, c, s, t[..|t| - 1]);
    }
  }

  lemma DetectsBursts<W(!new)>(m: Machine<W>, c: W, before: seq<W>, a: seq<W>, b: seq<W>, after: seq<W>)
    requires Linear(m) && Separating(m) && m.isWord(c)
    requires AllSymbols(m, before) && AllSymbols(m, a) && AllSymbols(m, b) && AllSymbols(m, after)
    requires |a| == |b| <= 6
    ensures Fold(m, c, before + a + after) == Fold(m, c, before + b + after) <==> a == b
  {
    var d := Fold(m, c, before);
    FoldConcat(m, c, before + a, after);
    FoldConcat(m, c, before, a);
    FoldConcat(m, c, before + b, after);
    FoldConcat(m, c, before, b);
    FoldWord(m, c, before);
    FoldWord(m, d, a);
    FoldWord(m, d, b);
    BurstSeparates(m, d, a, b);
    if Fold(m, c, before + a + after) == Fold(m, c, before + b + after) {
      TailSeparates(m, Fold(m, d, a), Fold(m, d, b), after);
    }
  }
}

/** The Bech32 checksum of src/puzzle_status.cpp (Bech32 section of BIP 173). */
module Bech32 {
  import opened Digits
  import opened Bits
  import opened LinearChecksum

  const WORDS := 0x40000000
  const TOP := 0x2000000

  function Gen(i: nat): nat
    requires i < 5
  {
    match i
    case 0 => 0x3b6a57b2
    case 1 => 0x26508e6d
    case 2 => 0x1ea119fa
    case 3 => 0x3d4233dd
    case _ => 0x2a1462b3
  }

  /** Generator i if bit i of top is set. */
  function Term(top: nat, i: nat): nat {
    if i < 5 && BitAt(top, i) == 1 then Gen(i) else 0
  }

  function Shifted(chk: nat): nat {
    chk % TOP * 32
  }

  const BECH32: Machine<nat> := Machine<nat>.Machine(
    (a: nat, b: nat) => Xor(a, b), 0, (x: nat, i: nat) => Term(x, i), (c: nat) => Shifted(c), (c: nat) => c / TOP,
    (c: nat) => c < WORDS, (v: nat) => v < 32, (c: nat, k: nat) => c < Pow(2, 5 * k))

  /** The checksum of a list of five-bit values; the 32-bit register never holds more than 30 bits. */
  method Polymod(values: seq<nat>) returns (chk: nat)
    requires InBase(values, 32)
    ensures chk == Fold(BECH32, 1, values) < WORDS
  {
    chk := 1;
    IsSeparating();
    for k := 0 to |values|
      invariant chk == Fold(BECH32, 1, values[..k]) < WORDS
    {
      assert values[..k + 1][..k] == values[..k];
      assert WordLaw(BECH32, chk, chk, values[k]);
      chk := Reduce(Xor(Shifted(chk), values[k]), chk / TOP);
    }
    assert values[..|values|] == values;
  }

  method Reduce(start: nat, top: nat) returns (chk: nat)
    ensures chk == Partial(BECH32, start, top, 5)
  {
    chk := start;
    for i := 0 to 5
      invariant chk == Partial(BECH32, start, top, i)
    {
      if BitAt(top, i) == 1 {
        chk := Xor(chk, Gen(i));
      } else {
        XorZero(chk);
      }
    }
  }

  // ── The laws of the 30-bit register ─────────────────────────────────────

  lemma PowValues()
    ensures Pow(2, 5) == 32 && Pow(2, 25) == TOP && Pow(2, 30) == WORDS
  {
    assert Pow(2, 5) == 2 * Pow(2, 4) && Pow(2, 4) == 2 * Pow(2, 3);
    PowAdd(2, 5, 5);
    PowAdd(2, 10, 10);
    PowAdd(2, 20, 5);
    PowAdd(2, 25, 5);
  }

  lemma HasTermLaw(x: nat, y: nat, i: nat)
    ensures TermLaw(BECH32, x, y, i)
  {
    XorBit(x, y, i);
    if i < 5 {
      XorSame(Gen(i));
      XorZero(Gen(i));
    }
    XorZero(0);
  }

  lemma HasShiftLaw(c: nat, d: nat)
    ensures ShiftLaw(BECH32, c, d)
  {
    PowValues();
    XorSplit(c, d, 25);
    XorShift(c % TOP, d % TOP, 5);
  }

  lemma IsLinear()
    ensures Linear(BECH32)
  {
    forall a: nat, b: nat, c: nat, d: nat ensures PairLaw(BECH32, a, b, c, d) {
      XorPair(a, b, c, d);
    }
    forall a: nat, b: nat ensures ZeroLaw(BECH32, a, b) {
      XorIsZero(a, b);
    }
    forall c: nat, d: nat ensures ShiftLaw(BECH32, c, d) {
      HasShiftLaw(c, d);
    }
    forall x: nat, y: nat, i: nat ensures TermLaw(BECH32, x, y, i) {
      HasTermLaw(x, y, i);
    }
  }

  lemma {:induction false} PartialBound(base: nat, top: nat, n: nat)
    requires base < WORDS
    ensures Partial(BECH32, base, top, n) < WORDS
  {
    if n > 0 {
      PartialBound(base, top, n - 1);
      PowValues();
      XorBound(Partial(BECH32, base, top, n - 1), Term(top, n - 1), 30);
    }
  }

  lemma StepBound(c: nat, v: nat)
    requires v < 32
    ensures Step(BECH32, c, v) < WORDS
  {
    PowValues();
    XorBound(Shifted(c), v, 30);
    PartialBound(Xor(Shifted(c), v), c / TOP, 5);
  }

  lemma {:induction false} PartialZero(base: nat, n: nat)
    ensures Partial(BECH32, base, 0, n) == base
  {
    if n > 0 {
      PartialZero(base, n - 1);
      XorZero(base);
    }
  }

  /** How many of the generators selected by the lowest n bits of top have bit k. */
  function Count(top: nat, k: nat, n: nat): nat {
    if n == 0 then 0 else Count(top, k, n - 1) + BitAt(Term(top, n - 1), k)
  }

  lemma {:induction false} PartialBit(base: nat, top: nat, k: nat, n: nat)
    requires BitAt(base, k) == 0
    ensures BitAt(Partial(BECH32, base, top, n), k) == Count(top, k, n) % 2
  {
    if n > 0 {
      PartialBit(base, top, k, n - 1);
      var x, t := Partial(BECH32, base, top, n - 1), Term(top, n - 1);
      assert Partial(BECH32, base, top, n) == Xor(x, t);
      XorBit(x, t, k);
      SumMod2(Count(top, k, n - 1), BitAt(t, k));
    }
  }

  lemma SumMod2(a: nat, b: nat)
    ensures (a % 2 + b) % 2 == (a + b) % 2
  {}

  lemma LowBits(a: nat)
    ensures BitAt(a, 0) == a % 2 && BitAt(a, 1) == a / 2 % 2 && BitAt(a, 2) == a / 4 % 2
    ensures BitAt(a, 3) == a / 8 % 2 && BitAt(a, 4) == a / 16 % 2
  {
    var b, c, d, e := a / 2, a / 4, a / 8, a / 16;
    assert b / 2 == c && c / 2 == d && d / 2 == e;
    assert BitAt(d, 1) == BitAt(e, 0);
    assert BitAt(c, 2) == BitAt(d, 1) && BitAt(c, 1) == BitAt(d, 0);
    assert BitAt(b, 3) == BitAt(c, 2) && BitAt(b, 2) == BitAt(c, 1) && BitAt(b, 1) == BitAt(c, 0);
  }

  /** The low symbols of the generators: generator i has bit k. */
  predicate Row(i: nat, k: nat) {
    match k
    case 0 => i in {1, 3, 4}
    case 1 => i in {0, 2, 4}
    case 2 => i in {1, 3}
    case 3 => i in {1, 2, 3}
    case _ => i in {0, 2, 3, 4}
  }

  lemma GenRow(i: nat, k: nat)
    requires i < 5 && k < 5
    ensures BitAt(Gen(i), k) == if Row(i, k) then 1 else 0
  {
    LowBits(Gen(i));
  }

  lemma TermRow(z: nat, i: nat, k: nat)
    requires i < 5 && k < 5
    ensures BitAt(Term(z, i), k) == if Row(i, k) then BitAt(z, i) else 0
  {
    GenRow(i, k);
    LowBits(0);
  }

  lemma CountRow(z: nat, k: nat)
    requires k < 5
    ensures Count(z, k, 5) == BitAt(Term(z, 0), k) + BitAt(Term(z, 1), k) + BitAt(Term(z, 2), k)
                              + BitAt(Term(z, 3), k) + BitAt(Term(z, 4), k)
    ensures forall i: nat | i < 5 :: BitAt(Term(z, i), k) == if Row(i, k) then BitAt(z, i) else 0
  {
    assert Count(z, k, 1) == BitAt(Term(z, 0), k);
    assert Count(z, k, 3) == Count(z, k, 1) + BitAt(Term(z, 1), k) + BitAt(Term(z, 2), k);
    forall i: nat | i < 5 ensures BitAt(Term(z, i), k) == if Row(i, k) then BitAt(z, i) else 0 {
      TermRow(z, i, k);
    }
  }

  /** Those rows are independent: only the empty selection has even counts everywhere. */
  lemma Independent(z: nat)
    requires z < 32 && forall k: nat | k < 5 :: Count(z, k, 5) % 2 == 0
    ensures z == 0
  {
    CountRow(z, 0);
    CountRow(z, 1);
    CountRow(z, 2);
    CountRow(z, 3);
    CountRow(z, 4);
    LowBits(z);
  }

  lemma ClearBit(x: nat, k: nat)
    requires k < 5
    ensures BitAt(x * 32, k) == 0
  {
    Doubled(x * 16, k);
    if k > 0 {
      Doubled(x * 8, k - 1);
    }
    if k > 1 {
      Doubled(x * 4, k - 2);
    }
    if k > 2 {
      Doubled(x * 2, k - 3);
    }
    if k > 3 {
      Doubled(x, k - 4);
    }
  }

  lemma Doubled(y: nat, k: nat)
    ensures BitAt(2 * y, k) == if k == 0 then 0 else BitAt(y, k - 1)
  {
    assert 2 * y / 2 == y;
  }

  lemma Kernel(c: nat)
    requires c < WORDS && Step(BECH32, c, 0) == 0
    ensures c == 0
  {
    var base, z := Shifted(c), c / TOP;
    XorZero(base);
    forall k: nat | k < 5 ensures Count(z, k, 5) % 2 == 0 {
      ClearBit(c % TOP, k);
      ClearBit(0, k);
      PartialBit(base, z, k, 5);
    }
    Independent(z);
    PartialZero(base, 5);
  }

  lemma Grow(c: nat, k: nat, e: nat)
    requires k < 6 && c < Pow(2, 5 * k) && e < 32
    ensures Step(BECH32, c, e) < Pow(2, 5 * (k + 1))
    ensures Step(BECH32, c, e) == 0 ==> c == 0 && e == 0
  {
    SmallShift(c, k);
    PartialZero(Xor(c * 32, e), 5);
    AppendSymbol(c, e);
    assert Step(BECH32, c, e) == c * 32 + e;
  }

  lemma SmallShift(c: nat, k: nat)
    requires k < 6 && c < Pow(2, 5 * k)
    ensures c / TOP == 0 && Shifted(c) == c * 32
    ensures c * 32 + 31 < Pow(2, 5 * (k + 1))
  {
    PowValues();
    PowMono(2, 5 * k, 25);
    PowAdd(2, 5, 5 * k);
    assert 5 * (k + 1) == 5 + 5 * k;
  }

  lemma AppendSymbol(c: nat, e: nat)
    requires e < 32
    ensures Xor(c * 32, e) == c * 32 + e
  {
    PowValues();
    XorSplit(c * 32, e, 5);
    XorZero(c);
    XorZero(e);
    Symbol(c, e);
    assert Xor(c * 32, e) / 32 == c && Xor(c * 32, e) % 32 == e;
    DivMod(Xor(c * 32, e), 32);
  }

  lemma Symbol(c: nat, e: nat)
    requires e < 32
    ensures c * 32 / 32 == c && c * 32 % 32 == 0 && e / 32 == 0 && e % 32 == e
  {}

  lemma IsSeparating()
    ensures Separating(BECH32)
  {
    PowValues();
    forall c: nat, d: nat, v: nat ensures WordLaw(BECH32, c, d, v) {
      if c < WORDS && d < WORDS && v < 32 {
        XorBound(c, d, 30);
        StepBound(c, v);
      }
    }
    forall c: nat ensures KernelLaw(BECH32, c) {
      if c < WORDS && Step(BECH32, c, 0) == 0 {
        Kernel(c);
      }
    }
    forall c: nat, v: nat, w: nat, k: nat ensures GrowLaw(BECH32, c, v, w, k) {
      if k < 6 && c < Pow(2, 5 * k) && v < 32 && w < 32 {
        XorBound(v, w, 5);
        Grow(c, k, Xor(v, w));
      }
    }
  }

  /**
   * Two words of equal length that agree outside a window of six consecutive symbols have the same checksum only if
   * they are equal: every single substitution, transposition or burst of up to six symbols is detected.
   */
  lemma PolymodDetectsBursts(before: seq<nat>, a: seq<nat>, b: seq<nat>, after: seq<nat>)
    requires InBase(before, 32) && InBase(a, 32) && InBase(b, 32) && InBase(after, 32)
    requires |a| == |b| <= 6
    ensures Fold(BECH32, 1, before + a + after) == Fold(BECH32, 1, before + b + after) <==> a == b
  {
    IsLinear();
    IsSeparating();
    DetectsBursts(BECH32, 1, before, a, b, after);
  }
}
