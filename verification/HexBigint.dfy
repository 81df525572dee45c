/** Hexadecimal text and big-integer helpers of src/hex_bigint.cpp. */
module HexBigint {
  import opened Wrappers
  import opened Digits

  function Min(a: int, b: int): int { if a < b then a else b }

  function Max(a: int, b: int): int { if a > b then a else b }

  function CeilDiv(a: nat, b: nat): (c: nat)
    requires b > 0
    ensures a <= c * b < a + b
  {
    assert (a + b - 1) == ((a + b - 1) / b) * b + (a + b - 1) % b;
    (a + b - 1) / b
  }

  lemma CeilDivIsLeast(a: nat, b: nat, m: nat)
    requires b > 0
    ensures a <= m * b <==> CeilDiv(a, b) <= m
  {
    var c := CeilDiv(a, b);
    if m < c {
      MulMono(m + 1, c, b);
      assert (m + 1) * b == m * b + b;
    } else {
      MulMono(c, m, b);
    }
  }

  // ── Characters ──────────────────────────────────────────────────────────

  predicate IsHexChar(c: char) {
    '0' <= c <= '9' || 'a' <= c <= 'f' || 'A' <= c <= 'F'
  }

  predicate AllHex(s: string) {
    forall i | 0 <= i < |s| :: IsHexChar(s[i])
  }

  function HexDigit(c: char): (d: nat)
    requires IsHexChar(c)
    ensures d < 16
  {
    if '0' <= c <= '9' then c as int - '0' as int
    else if 'a' <= c <= 'f' then 10 + (c as int - 'a' as int)
    else 10 + (c as int - 'A' as int)
  }

  function DigitChar(d: nat): (c: char)
    requires d < 16
    ensures IsHexChar(c) && HexDigit(c) == d && c != 'x' && c != 'X'
  {
    "0123456789abcdef"[d]
  }

  function Strip0x(s: string): string {
    if |s| >= 2 && s[0] == '0' && (s[1] == 'x' || s[1] == 'X') then s[2..] else s
  }

  function HexDigits(s: string): (d: seq<nat>)
    requires AllHex(s)
    ensures |d| == |s| && InBase(d, 16)
  {
    seq(|s|, i requires 0 <= i < |s| => HexDigit(s[i]))
  }

  function Render(d: seq<nat>): (s: string)
    requires InBase(d, 16)
    ensures |s| == |d| && AllHex(s) && HexDigits(s) == d
    ensures forall i | 0 <= i < |s| :: s[i] != 'x' && s[i] != 'X'
  {
    seq(|d|, i requires 0 <= i < |d| => DigitChar(d[i]))
  }

  // ── hexToInt / intToHex ─────────────────────────────────────────────────

  /** The number a text denotes; None where the source throws. */
  function ParseHex(hex: string): Option<nat> {
    var s := Strip0x(hex);
    if AllHex(s) then Some(Val(HexDigits(s), 16)) else None
  }

  method HexToInt(hex: string) returns (r: Option<nat>)
    ensures r == ParseHex(hex)
  {
    var s := Strip0x(hex);
    var out: nat := 0;
    for i := 0 to |s|
      invariant AllHex(s[..i]) && out == Val(HexDigits(s[..i]), 16)
    {
      if !IsHexChar(s[i]) {
        return None;
      }
      assert s[..i + 1] == s[..i] + [s[i]];
      assert HexDigits(s[..i + 1]) == HexDigits(s[..i]) + [HexDigit(s[i])];
      ValSnoc(HexDigits(s[..i]), HexDigit(s[i]), 16);
      out := out * 16 + HexDigit(s[i]);
    }
    assert s[..|s|] == s;
    r := Some(out);
  }

  /** Digits of v without a leading zero. */
  function ToDigits(v: nat): (d: seq<nat>)
    ensures InBase(d, 16) && Val(d, 16) == v
    ensures d != [] ==> d[0] != 0
  {
    if v == 0 then [] else ValSnoc(ToDigits(v / 16), v % 16, 16); ToDigits(v / 16) + [v % 16]
  }

  function PadDigits(v: nat, width: nat): (d: seq<nat>)
    ensures InBase(d, 16) && |d| >= width
  {
    var d := ToDigits(v);
    if |d| < width then Zeros(width - |d|) + d else d
  }

  function HexText(v: nat, width: nat): string {
    Render(PadDigits(v, width))
  }

  lemma ZeroText(width: nat)
    ensures HexText(0, width) == seq(width, _ => '0')
  {
    assert Zeros(width) + [] == Zeros(width);
  }

  method Nibbles(v: nat) returns (out: seq<nat>)
    ensures out == ToDigits(v)
  {
    out := [];
    var x: nat := v;
    while x > 0
      invariant InBase(out, 16)
      invariant ToDigits(v) == ToDigits(x) + out
    {
      MoveDigit(x, out);
      out := [x % 16] + out;
      x := x / 16;
    }
  }

  lemma MoveDigit(x: nat, out: seq<nat>)
    requires x > 0
    ensures ToDigits(x) + out == ToDigits(x / 16) + ([x % 16] + out)
  {
    ConcatAssoc(ToDigits(x / 16), [x % 16], out);
  }

  lemma ConcatAssoc<T>(a: seq<T>, b: seq<T>, c: seq<T>)
    ensures (a + b) + c == a + (b + c)
  {}

  method IntToHex(v: int, width: nat) returns (r: Option<string>)
    ensures r == if v < 0 then None else Some(HexText(v, width))
  {
    if v < 0 {
      return None;
    }
    if v == 0 {
      ZeroText(width);
      return Some(seq(width, _ => '0'));
    }
    var out := Nibbles(v);
    if |out| < width {
      out := Zeros(width - |out|) + out;
    }
    r := Some(Render(out));
  }

  lemma PadValue(v: nat, width: nat)
    ensures Val(PadDigits(v, width), 16) == v
  {
    var d := ToDigits(v);
    if |d| < width {
      ValConcat(Zeros(width - |d|), d, 16);
      ValZeros(width - |d|, 16);
    }
  }

  /** Every text that is written reads back as the number it was written from. */
  lemma HexRoundTrip(v: nat, width: nat)
    ensures ParseHex(HexText(v, width)) == Some(v)
  {
    PadValue(v, width);
    RenderParses(PadDigits(v, width));
  }

  lemma RenderParses(d: seq<nat>)
    requires InBase(d, 16)
    ensures Strip0x(Render(d)) == Render(d) && AllHex(Render(d)) && HexDigits(Render(d)) == d
  {
    var s := Render(d);
    assert forall i | 0 <= i < |s| :: IsHexChar(s[i]) && s[i] != 'x' && s[i] != 'X';
  }

  /** Values that fit get exactly the requested width. */
  lemma HexWidth(v: nat, width: nat)
    requires v < Pow(16, width)
    ensures |HexText(v, width)| == width
  {
    DigitCount(v, width);
  }

  lemma {:induction false} DigitCount(v: nat, width: nat)
    requires v < Pow(16, width)
    ensures |ToDigits(v)| <= width
  {
    if v > 0 {
      assert width > 0;
      DigitCount(v / 16, width - 1);
    }
  }

  /** Character order on equally long texts: what SQL compares and sorts by. */
  predicate TextLess(s: string, t: string)
    requires |s| == |t|
  {
    s != [] && (s[0] < t[0] || (s[0] == t[0] && TextLess(s[1..], t[1..])))
  }

  lemma {:induction false} RenderOrder(d: seq<nat>, e: seq<nat>)
    requires |d| == |e| && InBase(d, 16) && InBase(e, 16)
    ensures TextLess(Render(d), Render(e)) <==> LexLess(d, e)
  {
    if d != [] {
      assert Render(d)[1..] == Render(d[1..]) && Render(e)[1..] == Render(e[1..]);
      RenderOrder(d[1..], e[1..]);
      DigitOrder(d[0], e[0]);
    }
  }

  lemma DigitOrder(a: nat, b: nat)
    requires a < 16 && b < 16
    ensures DigitChar(a) < DigitChar(b) <==> a < b
  {}

  /** Stored columns: comparing or sorting the fixed-width text is comparing or sorting numbers. */
  lemma HexOrder(a: nat, b: nat, width: nat)
    requires a < Pow(16, width) && b < Pow(16, width)
    ensures |HexText(a, width)| == |HexText(b, width)| == width
    ensures TextLess(HexText(a, width), HexText(b, width)) <==> a < b
    ensures HexText(a, width) == HexText(b, width) <==> a == b
  {
    HexWidth(a, width);
    HexWidth(b, width);
    PadValue(a, width);
    PadValue(b, width);
    RenderOrder(PadDigits(a, width), PadDigits(b, width));
    ValLex(PadDigits(a, width), PadDigits(b, width), 16);
  }

  /** Submitted keys: normalised texts coincide exactly when the texts denote one number. */
  lemma NormalizeCanonical(s: string, t: string)
    requires ParseHex(s).Some? && ParseHex(t).Some?
    ensures HexText(ParseHex(s).value, 64) == HexText(ParseHex(t).value, 64)
       <==> ParseHex(s) == ParseHex(t)
    ensures ParseHex(HexText(ParseHex(s).value, 64)) == ParseHex(s)
  {
    HexRoundTrip(ParseHex(s).value, 64);
    HexRoundTrip(ParseHex(t).value, 64);
  }

  // ── bitLength ───────────────────────────────────────────────────────────

  function BitLen(n: nat): nat {
    if n == 0 then 0 else 1 + BitLen(n / 2)
  }

  method BitLength(n: int) returns (bits: nat)
    ensures bits == if n <= 0 then 0 else BitLen(n)
  {
    if n <= 0 {
      return 0;
    }
    var x: nat := n;
    bits := 0;
    while x > 0
      invariant bits + BitLen(x) == BitLen(n)
    {
      x := x / 2;
      bits := bits + 1;
    }
  }

  lemma {:induction false} BitLenBounds(n: nat)
    requires n > 0
    ensures BitLen(n) > 0 && Pow(2, BitLen(n) - 1) <= n < Pow(2, BitLen(n))
  {
    if n > 1 {
      BitLenBounds(n / 2);
    }
  }
}
