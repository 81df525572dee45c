/** The Hilbert curve maps of frontend/src/canvas.ts. */
module Hilbert {
  import opened Digits

  datatype Cell = Cell(x: int, y: int)

  predicate InSquare(c: Cell, n: nat) {
    0 <= c.x < n && 0 <= c.y < n
  }

  // ── The curve, quadrant by quadrant ─────────────────────────────────────

  /** A cell of the s-by-s curve, turned into quadrant q of the 2s-by-2s curve. */
  function Turn(q: nat, s: nat, c: Cell): Cell {
    match q
    case 0 => Cell(c.y, c.x)
    case 1 => Cell(c.x, c.y + s)
    case 2 => Cell(c.x + s, c.y + s)
    case _ => Cell(2 * s - 1 - c.y, s - 1 - c.x)
  }

  function Quadrant(s: nat, c: Cell): (q: nat)
    ensures q < 4
  {
    if c.x < s then (if c.y < s then 0 else 1) else (if c.y < s then 3 else 2)
  }

  function Unturn(q: nat, s: nat, c: Cell): Cell {
    match q
    case 0 => Cell(c.y, c.x)
    case 1 => Cell(c.x, c.y - s)
    case 2 => Cell(c.x - s, c.y - s)
    case _ => Cell(s - 1 - c.y, 2 * s - 1 - c.x)
  }

  /** The leading base-4 digit of d < 4p, and its weight. */
  function Digit(d: nat, p: nat): (q: nat)
    ensures q < 4
  {
    if d < p then 0 else if d < 2 * p then 1 else if d < 3 * p then 2 else 3
  }

  function Weight(q: nat, p: nat): nat {
    match q
    case 0 => 0
    case 1 => p
    case 2 => 2 * p
    case _ => 3 * p
  }

  /** Cell number d of the curve over a 2^k-by-2^k square. */
  function Curve(k: nat, d: nat): Cell {
    if k == 0 then Cell(0, 0)
    else
      var p := Pow(4, k - 1);
      var q := Digit(d, p);
      Turn(q, Pow(2, k - 1), Curve(k - 1, d - Weight(q, p)))
  }

  /** Position along the curve of a cell. */
  function Index(k: nat, c: Cell): nat {
    if k == 0 then 0
    else
      var q := Quadrant(Pow(2, k - 1), c);
      Weight(q, Pow(4, k - 1)) + Index(k - 1, Unturn(q, Pow(2, k - 1), c))
  }

  lemma {:induction false} CurveInSquare(k: nat, d: nat)
    requires d < Pow(4, k)
    ensures InSquare(Curve(k, d), Pow(2, k))
  {
    if k > 0 {
      CurveInSquare(k - 1, d - Weight(Digit(d, Pow(4, k - 1)), Pow(4, k - 1)));
    }
  }

  lemma TurnUnturn(q: nat, s: nat, c: Cell)
    requires q < 4
    ensures InSquare(c, s) ==> InSquare(Turn(q, s, c), 2 * s) && Quadrant(s, Turn(q, s, c)) == q
    ensures Unturn(q, s, Turn(q, s, c)) == c
    ensures Turn(q, s, Unturn(q, s, c)) == c
    ensures InSquare(c, 2 * s) && q == Quadrant(s, c) ==> InSquare(Unturn(q, s, c), s)
  {}

  lemma {:induction false} IndexOfCurve(k: nat, d: nat)
    requires d < Pow(4, k)
    ensures Index(k, Curve(k, d)) == d
  {
    if k > 0 {
      var p := Pow(4, k - 1);
      var q := Digit(d, p);
      var rest := d - Weight(q, p);
      CurveInSquare(k - 1, rest);
      IndexOfTurn(k, q, Curve(k - 1, rest));
      IndexOfCurve(k - 1, rest);
    }
  }

  lemma IndexOfTurn(k: nat, q: nat, inner: Cell)
    requires k > 0 && q < 4 && InSquare(inner, Pow(2, k - 1))
    ensures Index(k, Turn(q, Pow(2, k - 1), inner)) == Weight(q, Pow(4, k - 1)) + Index(k - 1, inner)
  {
    TurnUnturn(q, Pow(2, k - 1), inner);
  }

  lemma {:induction false} CurveOfIndex(k: nat, c: Cell)
    requires InSquare(c, Pow(2, k))
    ensures Index(k, c) < Pow(4, k) && Curve(k, Index(k, c)) == c
  {
    if k > 0 {
      var s := Pow(2, k - 1);
      var q := Quadrant(s, c);
      TurnUnturn(q, s, c);
      CurveOfIndex(k - 1, Unturn(q, s, c));
    }
  }

  // ── Neighbours along the curve are neighbours in the square ─────────────

  function Distance(c: Cell, e: Cell): nat {
    (if c.x < e.x then e.x - c.x else c.x - e.x) + (if c.y < e.y then e.y - c.y else c.y - e.y)
  }

  lemma {:induction false} CurveEnds(k: nat)
    ensures Pow(4, k) > 0
    ensures Curve(k, 0) == Cell(0, 0)
    ensures Curve(k, Pow(4, k) - 1) == Cell(Pow(2, k) - 1, 0)
  {
    PowPositive(4, k);
    if k > 0 {
      CurveEnds(k - 1);
    }
  }

  lemma CurveOfDigit(k: nat, q: nat, r: nat)
    requires k > 0 && q < 4 && r < Pow(4, k - 1)
    ensures Curve(k, Weight(q, Pow(4, k - 1)) + r) == Turn(q, Pow(2, k - 1), Curve(k - 1, r))
  {
    DigitOf(q, r, Pow(4, k - 1));
  }

  /** The four quarters of the curve fill the quadrants in this order: low x and y, high y, high x and y, high x. */
  lemma CurveQuadrants(k: nat, q: nat, r: nat)
    requires k > 0 && q < 4 && r < Pow(4, k - 1)
    ensures var (s, c) := (Pow(2, k - 1), Curve(k, q * Pow(4, k - 1) + r));
            && InSquare(c, 2 * s)
            && (c.x < s <==> q == 0 || q == 1)
            && (c.y < s <==> q == 0 || q == 3)
  {
    CurveOfDigit(k, q, r);
    CurveInSquare(k - 1, r);
    TurnUnturn(q, Pow(2, k - 1), Curve(k - 1, r));
    assert Weight(q, Pow(4, k - 1)) == q * Pow(4, k - 1);
  }

  lemma DigitOf(q: nat, r: nat, p: nat)
    requires q < 4 && r < p
    ensures Digit(Weight(q, p) + r, p) == q
  {}

  lemma NextWeight(q: nat, p: nat)
    requires q < 3
    ensures Weight(q, p) + p == Weight(q + 1, p)
  {}

  lemma SplitDigit(d: nat, p: nat) returns (q: nat, r: nat)
    requires d < 4 * p
    ensures q < 4 && r < p && d == Weight(q, p) + r
  {
    q := Digit(d, p);
    r := d - Weight(q, p);
  }

  lemma SameQuadrant(k: nat, q: nat, r: nat)
    requires k > 0 && q < 4 && r + 1 < Pow(4, k - 1)
    ensures var w := Weight(q, Pow(4, k - 1));
            Distance(Curve(k, w + r), Curve(k, w + r + 1)) == Distance(Curve(k - 1, r), Curve(k - 1, r + 1))
  {
    CurveOfDigit(k, q, r);
    CurveOfDigit(k, q, r + 1);
    TurnKeepsDistance(q, Pow(2, k - 1), Curve(k - 1, r), Curve(k - 1, r + 1));
  }

  lemma NextQuadrant(k: nat, q: nat)
    requires k > 0 && q < 3
    ensures var w := Weight(q + 1, Pow(4, k - 1));
            w > 0 && Distance(Curve(k, w - 1), Curve(k, w)) == 1
  {
    CurveEnds(k - 1);
    NextWeight(q, Pow(4, k - 1));
    CurveOfDigit(k, q, Pow(4, k - 1) - 1);
    CurveOfDigit(k, q + 1, 0);
    PowPositive(2, k - 1);
    Crossing(q, Pow(2, k - 1));
  }

  lemma {:induction false} CurveAdjacent(k: nat, d: nat)
    requires d + 1 < Pow(4, k)
    ensures Distance(Curve(k, d), Curve(k, d + 1)) == 1
  {
    if k > 0 {
      var p := Pow(4, k - 1);
      var q, r := SplitDigit(d, p);
      if r + 1 < p {
        CurveAdjacent(k - 1, r);
        SameQuadrant(k, q, r);
      } else {
        LastOfQuadrant(d, q, r, p);
        NextQuadrant(k, q);
      }
    }
  }

  lemma LastOfQuadrant(d: nat, q: nat, r: nat, p: nat)
    requires d + 1 < 4 * p && q < 4 && r < p <= r + 1 && d == Weight(q, p) + r
    ensures q < 3 && d + 1 == Weight(q + 1, p)
  {}

  /** The last cell of a quadrant touches the first cell of the next. */
  lemma Crossing(q: nat, s: nat)
    requires q < 3 && s > 0
    ensures Distance(Turn(q, s, Cell(s - 1, 0)), Turn(q + 1, s, Cell(0, 0))) == 1
  {}

  lemma TurnKeepsDistance(q: nat, s: nat, c: Cell, e: Cell)
    requires q < 4
    ensures Distance(Turn(q, s, c), Turn(q, s, e)) == Distance(c, e)
  {}

  // ── The JavaScript loops ────────────────────────────────────────────────

  /** Operands of bitwise operators are converted to signed 32-bit integers. */
  function ToInt32(v: int): int {
    var m := v % 0x1_0000_0000;
    if m >= 0x8000_0000 then m - 0x1_0000_0000 else m
  }

  /** 1 & v */
  function LowBit(v: int): nat {
    ToInt32(v) % 2
  }

  /** (v & s) > 0 for a power of two s below 2^31 */
  predicate HasBit(v: int, s: nat)
    requires s > 0
  {
    ToInt32(v) / s % 2 == 1
  }

  lemma Wraps(v: int) returns (j: int)
    ensures ToInt32(v) == v + j * 0x1_0000_0000
  {
    var q := v / 0x1_0000_0000;
    j := if v % 0x1_0000_0000 >= 0x8000_0000 then -q - 1 else -q;
  }

  /** Adding a multiple of 2s changes neither the remainder by 2s nor the bit at s. */
  lemma BitOfSum(v: int, j: int, s: nat)
    requires s > 0
    ensures (v + j * (2 * s)) % (2 * s) == v % (2 * s)
    ensures v / s % 2 == 1 <==> v % (2 * s) >= s
  {
    var q, r := v / (2 * s), v % (2 * s);
    assert v == q * (2 * s) + r;
    Distribute(q, 1, j, 2 * s);
    DivModOf(v + j * (2 * s), q + j, r, 2 * s);
    if r >= s {
      assert v == (2 * q + 1) * s + (r - s);
      DivModOf(v, 2 * q + 1, r - s, s);
    } else {
      assert v == 2 * q * s + r;
      DivModOf(v, 2 * q, r, s);
    }
  }

  /** The 32-bit conversion does not disturb a bit below 2^31, even of a negative number. */
  lemma HasBitIs(v: int, i: nat)
    requires i <= 30
    ensures Pow(2, i) > 0
    ensures HasBit(v, Pow(2, i)) <==> v % (2 * Pow(2, i)) >= Pow(2, i)
  {
    PowPositive(2, i);
    var j := Wraps(v);
    PowAdd(2, 31 - i, i);
    Pow31();
    DropWraps(v, j, Pow(2, i), Pow(2, 31 - i));
  }

  lemma DropWraps(v: int, j: int, s: nat, K: nat)
    requires s > 0 && K * s == 0x8000_0000 && ToInt32(v) == v + j * 0x1_0000_0000
    ensures HasBit(v, s) <==> v % (2 * s) >= s
  {
    assert j * 0x1_0000_0000 == j * K * (2 * s) by {
      assert j * K * (2 * s) == 2 * (j * (K * s));
    }
    BitOfSum(v, j * K, s);
    BitOfSum(ToInt32(v), 0, s);
  }

  lemma Pow31()
    ensures Pow(2, 31) == 0x8000_0000
  {
    assert Pow(2, 4) == 2 * Pow(2, 3);
    PowAdd(2, 4, 4);
    PowAdd(2, 8, 8);
    PowAdd(2, 16, 8);
    PowAdd(2, 24, 4);
    PowAdd(2, 28, 3);
  }

  /** 1 & (t >> 1) and 1 & (t ^ rx), whatever the 32-bit conversion drops. */
  lemma QuadrantBits(t: int)
    ensures ToInt32(t) / 2 % 2 == t / 2 % 2
    ensures LowBit(t) == t % 2
  {
    var j := Wraps(t);
    LowTwoBits(t, j * 0x4000_0000);
  }

  lemma LowTwoBits(t: int, m: int)
    ensures (t + 4 * m) / 2 % 2 == t / 2 % 2 && (t + 4 * m) % 2 == t % 2
  {
    var q, r := t / 4, t % 4;
    BitsOfQuarter(t, q, if r >= 2 then 1 else 0, if r == 1 || r == 3 then 1 else 0);
    BitsOfQuarter(t + 4 * m, q + m, if r >= 2 then 1 else 0, if r == 1 || r == 3 then 1 else 0);
  }

  lemma BitsOfQuarter(t: int, q: int, high: int, low: int)
    requires 0 <= high < 2 && 0 <= low < 2 && t == 4 * q + 2 * high + low
    ensures t / 2 % 2 == high && t % 2 == low
  {
    DivModOf(t, 2 * q + high, low, 2);
    DivModOf(2 * q + high, q, high, 2);
  }

  /** t after i iterations, and the part of d consumed so far. */
  function Rest(d: int, i: nat): int {
    if i == 0 then d else Rest(d, i - 1) / 4
  }

  function Consumed(d: int, i: nat): nat {
    if i == 0 then 0 else Weight(Rest(d, i - 1) % 4, Pow(4, i - 1)) + Consumed(d, i - 1)
  }

  lemma {:induction false} ConsumedAll(d: int, i: nat)
    ensures Consumed(d, i) < Pow(4, i)
    ensures d == Rest(d, i) * Pow(4, i) + Consumed(d, i)
  {
    if i > 0 {
      ConsumedAll(d, i - 1);
      var t, p := Rest(d, i - 1), Pow(4, i - 1);
      WeightIs(t % 4, p);
      Distribute(t / 4, 4, t % 4, p);
    }
  }

  lemma WeightIs(q: nat, p: nat)
    requires q < 4
    ensures Weight(q, p) == q * p
  {}

  /** One more base-4 digit of d. */
  lemma CurveStep(d: int, i: nat)
    ensures Curve(i + 1, Consumed(d, i + 1)) == Turn(Rest(d, i) % 4, Pow(2, i), Curve(i, Consumed(d, i)))
  {
    var q := Rest(d, i) % 4;
    ConsumedFits(d, i);
    ConsumedNext(d, i, q);
    CurveOfDigit(i + 1, q, Consumed(d, i));
  }

  lemma ConsumedNext(d: int, i: nat, q: nat)
    requires q == Rest(d, i) % 4
    ensures Consumed(d, i + 1) == Weight(q, Pow(4, i)) + Consumed(d, i)
  {}

  lemma ConsumedFits(d: int, i: nat)
    ensures Consumed(d, i) < Pow(4, i)
  {
    ConsumedAll(d, i);
  }

  /** One round of the loop on the pair (x, y). */
  method Rotate(x0: int, y0: int, s: nat, t: int) returns (x: int, y: int)
    ensures Cell(x, y) == Turn(t % 4, s, Cell(x0, y0))
  {
    QuadrantBits(t);
    x, y := x0, y0;
    var rx := ToInt32(t) / 2 % 2;
    var ry := (LowBit(t) + rx) % 2;
    if ry == 0 {
      if rx == 1 {
        x := s - 1 - x;
        y := s - 1 - y;
      }
      x, y := y, x;
    }
    assert x + s * rx == (if rx == 1 then x + s else x) by {
      TimesBit(s, rx);
    }
    assert y + s * ry == (if ry == 1 then y + s else y) by {
      TimesBit(s, ry);
    }
    x := x + s * rx;
    y := y + s * ry;
  }

  lemma TimesBit(s: nat, b: int)
    requires 0 <= b < 2
    ensures s * b == if b == 1 then s else 0
  {}

  /** n = 2^k. A position outside [0, n*n), a negative one included, counts modulo n*n. */
  method GetHilbertXY(n: nat, d: int, ghost k: nat) returns (x: int, y: int)
    requires n == Pow(2, k)
    ensures Pow(4, k) > 0 && Cell(x, y) == Curve(k, d % Pow(4, k))
  {
    x, y := 0, 0;
    var t := d;
    var s := 1;
    ghost var i: nat := 0;
    while s < n
      invariant i <= k && s == Pow(2, i) && t == Rest(d, i)
      invariant Cell(x, y) == Curve(i, Consumed(d, i))
      decreases k - i
    {
      CurveStep(d, i);
      x, y := Rotate(x, y, s, t);
      t := t / 4;
      s := s * 2;
      i := i + 1;
    }
    if i < k {
      PowPositive(2, i);
      PowMono(2, i + 1, k);
    }
    AllConsumed(d, k);
  }

  lemma AllConsumed(d: int, k: nat)
    ensures Pow(4, k) > 0 && Consumed(d, k) == d % Pow(4, k)
  {
    ConsumedAll(d, k);
    DivModOf(d, Rest(d, k), Consumed(d, k), Pow(4, k));
  }

  /** The part of a working coordinate that the remaining iterations look at. */
  function Seen(x: int, y: int, n: nat): Cell
    requires n > 0
  {
    Cell(x % n, y % n)
  }

  /** One iteration: the unreduced, possibly negative coordinates still agree with the sub-square's. */
  lemma Descend(x: int, y: int, s: nat)
    requires s > 0
    ensures var c := Seen(x, y, 2 * s);
            var q := Quadrant(s, c);
            Unturn(q, s, c) == match q
                               case 0 => Seen(y, x, s)
                               case 3 => Seen(s - 1 - y, s - 1 - x, s)
                               case _ => Seen(x, y, s)
  {
    Halve(x, s);
    Halve(y, s);
  }

  lemma Halve(x: int, s: nat)
    requires s > 0
    ensures var m := x % (2 * s);
            x % s == (if m < s then m else m - s) &&
            (s - 1 - x) % s == (if m < s then s - 1 - m else 2 * s - 1 - m)
  {
    var q, m := x / (2 * s), x % (2 * s);
    assert x == q * (2 * s) + m == (2 * q) * s + m;
    if m < s {
      DivModOf(x, 2 * q, m, s);
      assert s - 1 - x == (-2 * q) * s + (s - 1 - m);
      DivModOf(s - 1 - x, -2 * q, s - 1 - m, s);
    } else {
      assert x == (2 * q + 1) * s + (m - s);
      DivModOf(x, 2 * q + 1, m - s, s);
      assert s - 1 - x == (-2 * q - 1) * s + (2 * s - 1 - m);
      DivModOf(s - 1 - x, -2 * q - 1, 2 * s - 1 - m, s);
    }
  }

  /** What one iteration of the inverse loop leaves, for s = 2^j. */
  lemma DescendIndex(xm: int, ym: int, s: nat, j: nat)
    requires s > 0 && s == Pow(2, j)
    ensures var q := Quadrant(s, Seen(xm, ym, 2 * s));
            Index(j + 1, Seen(xm, ym, 2 * s)) == Weight(q, Pow(4, j)) + Index(j, match q
                                                           case 0 => Seen(ym, xm, s)
                                                           case 3 => Seen(s - 1 - ym, s - 1 - xm, s)
                                                           case _ => Seen(xm, ym, s))
  {
    Descend(xm, ym, s);
  }

  /** (3 rx) ^ ry */
  function DigitFrom(rx: nat, ry: nat): nat
    requires rx < 2 && ry < 2
  {
    if rx == 1 then 3 - ry else ry
  }

  lemma BitsQuadrant(s: nat, c: Cell, rx: nat, ry: nat)
    requires rx < 2 && ry < 2 && (rx == 1 <==> c.x >= s) && (ry == 1 <==> c.y >= s)
    ensures Quadrant(s, c) == DigitFrom(rx, ry)
  {}

  lemma WeightTimes(q: nat, p: nat)
    requires q < 4
    ensures p * q == Weight(q, p)
  {}

  method StepOf(s: nat, rx: nat, ry: nat, ghost j: nat) returns (step: nat)
    requires rx < 2 && ry < 2 && s == Pow(2, j)
    ensures step == Weight(DigitFrom(rx, ry), Pow(4, j))
  {
    PowSquare(j);
    WeightTimes(DigitFrom(rx, ry), s * s);
    step := s * s * DigitFrom(rx, ry);
  }

  method TestBit(v: int, s: nat, ghost j: nat) returns (b: nat)
    requires j <= 30 && s == Pow(2, j) && s > 0
    ensures b < 2 && (b == 1 <==> v % (2 * s) >= s)
  {
    HasBitIs(v, j);
    b := if HasBit(v, s) then 1 else 0;
  }

  /** Both bits of the current quadrant. */
  method TestBits(xm: int, ym: int, s: nat, ghost j: nat) returns (rx: nat, ry: nat)
    requires j <= 30 && s == Pow(2, j) && s > 0
    ensures rx < 2 && ry < 2 && Quadrant(s, Seen(xm, ym, 2 * s)) == DigitFrom(rx, ry)
  {
    rx := TestBit(xm, s, j);
    ry := TestBit(ym, s, j);
    BitsQuadrant(s, Seen(xm, ym, 2 * s), rx, ry);
  }

  /** The digit of the quadrant, and the coordinates for the next smaller s. */
  method Unrotate(xm: int, ym: int, s: nat, ghost j: nat) returns (step: nat, xn: int, yn: int)
    requires j <= 30 && s == Pow(2, j)
    requires s > 0
    ensures Index(j + 1, Seen(xm, ym, 2 * s)) == step + Index(j, Seen(xn, yn, s))
  {
    var rx, ry := TestBits(xm, ym, s, j);
    step := StepOf(s, rx, ry, j);
    DescendIndex(xm, ym, s, j);
    xn, yn := xm, ym;
    if ry == 0 {
      if rx == 1 {
        xn := s - 1 - xn;
        yn := s - 1 - yn;
      }
      xn, yn := yn, xn;
    }
  }

  /** n = 2^k with k <= 26, so that the index stays an exact double. Coordinates outside the square count modulo n. */
  method GetHilbertD(n: nat, x: int, y: int, ghost k: nat) returns (d: nat)
    requires k <= 26 && n == Pow(2, k)
    ensures n > 0 && d == Index(k, Cell(x % n, y % n))
  {
    d := 0;
    var xm, ym := x, y;
    ghost var j: nat := k;
    var s := n / 2;
    PowPositive(2, k);
    while s > 0
      invariant j <= k && n > 0 && Pow(2, j) > 0 && s == Pow(2, j) / 2
      invariant d + Index(j, Seen(xm, ym, Pow(2, j))) == Index(k, Seen(x, y, n))
      decreases j
    {
      var step;
      j := j - 1;
      step, xm, ym := Unrotate(xm, ym, s, j);
      d := d + step;
      s := s / 2;
    }
  }

  lemma {:induction false} PowSquare(k: nat)
    ensures Pow(2, k) * Pow(2, k) == Pow(4, k)
  {
    if k > 0 {
      PowSquare(k - 1);
      assert (2 * Pow(2, k - 1)) * (2 * Pow(2, k - 1)) == 4 * (Pow(2, k - 1) * Pow(2, k - 1));
    }
  }
}
