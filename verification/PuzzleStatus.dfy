/** Address decoding of src/puzzle_status.cpp: Base58, the Bech32 checksum and bit regrouping. */
module PuzzleStatus {
  import opened Wrappers
  import opened Digits
  import opened Regroup

  // ── Base58 ──────────────────────────────────────────────────────────────

  /** Position in the alphabet 1-9 A-H J-N P-Z a-k m-z; None for any other character. */
  function Position(c: char): (r: Option<nat>)
    ensures r.Some? ==> r.value < 58
  {
    var code := c as int;
    if '1' <= c <= '9' then Some(code - '1' as int)
    else if 'A' <= c <= 'H' then Some(code - 'A' as int + 9)
    else if 'J' <= c <= 'N' then Some(code - 'J' as int + 17)
    else if 'P' <= c <= 'Z' then Some(code - 'P' as int + 22)
    else if 'a' <= c <= 'k' then Some(code - 'a' as int + 33)
    else if 'm' <= c <= 'z' then Some(code - 'm' as int + 44)
    else None
  }

  lemma PositionInjective(c: char, d: char)
    requires Position(c).Some?
    ensures Position(c) == Position(d) ==> c == d
  {}

  predicate IsBase58(s: string) {
    forall i | 0 <= i < |s| :: Position(s[i]).Some?
  }

  function Base58Digits(s: string): (d: seq<nat>)
    requires IsBase58(s)
    ensures |d| == |s| && InBase(d, 58)
  {
    seq(|s|, i requires 0 <= i < |s| => Position(s[i]).value)
  }

  function LeadingZeros(d: seq<nat>): (n: nat)
    ensures n <= |d| && (forall i | 0 <= i < n :: d[i] == 0)
    ensures n < |d| ==> d[n] != 0
  {
    if d == [] || d[0] != 0 then 0 else 1 + LeadingZeros(d[1..])
  }

  lemma {:induction false} StripZeros(d: seq<nat>, n: nat, b: nat)
    requires n <= |d| && forall i | 0 <= i < n :: d[i] == 0
    ensures Val(d[n..], b) == Val(d, b)
  {
    assert d == Zeros(n) + d[n..];
    ValConcat(Zeros(n), d[n..], b);
    ValZeros(n, b);
  }

  /** A carry in front of the bytes already written. */
  function Carried(carry: nat, out: seq<nat>): nat {
    carry * Pow(256, |out|) + Val(out, 256)
  }

  lemma EmitByte(carry: nat, out: seq<nat>)
    ensures Carried(carry / 256, [carry % 256] + out) == Carried(carry, out)
  {
    ValConcat([carry % 256], out, 256);
    ValSnoc([], carry % 256, 256);
    Distribute(carry / 256, 256, carry % 256, Pow(256, |out|));
  }

  lemma TakeByte(carry: nat, byte: nat, tail: seq<nat>, out: seq<nat>, digit: nat)
    requires |out| == |tail| && Carried(carry, out) == Val(tail, 256) * 58 + digit
    ensures Carried(carry + 58 * byte, out) == Val([byte] + tail, 256) * 58 + digit
  {
    ValConcat([byte], tail, 256);
    ValSnoc([], byte, 256);
    Distribute(58, byte, carry, Pow(256, |out|));
  }

  /** bytes*58 + digit, carried from the last byte to the first; the carry never exceeds one byte. */
  method MulAdd(bytes: seq<nat>, digit: nat) returns (out: seq<nat>)
    requires InBase(bytes, 256) && digit < 58
    ensures InBase(out, 256) && Val(out, 256) == Val(bytes, 256) * 58 + digit
  {
    out := [];
    var carry: nat := digit;
    var i: nat := |bytes|;
    assert Carried(carry, out) == carry;
    while i > 0
      invariant i <= |bytes| && carry < 58
      invariant InBase(out, 256) && |out| == |bytes| - i
      invariant Carried(carry, out) == Val(bytes[i..], 256) * 58 + digit
    {
      i := i - 1;
      assert bytes[i..] == [bytes[i]] + bytes[i + 1..];
      TakeByte(carry, bytes[i], bytes[i + 1..], out, digit);
      carry := carry + 58 * bytes[i];
      EmitByte(carry, out);
      out := [carry % 256] + out;
      carry := carry / 256;
    }
    assert bytes[0..] == bytes;
    while carry > 0
      invariant carry < 58 && InBase(out, 256)
      invariant Carried(carry, out) == Val(bytes, 256) * 58 + digit
      decreases carry
    {
      EmitByte(carry, out);
      out := [carry % 256] + out;
      carry := carry / 256;
    }
    assert Carried(0, out) == Val(out, 256);
  }

  /** The byte string is the decoding of s: one zero byte per leading '1', then the value without leading zeros. */
  predicate Decodes58(s: string, out: seq<nat>) {
    && IsBase58(s)
    && InBase(out, 256)
    && LeadingZeros(out) == LeadingZeros(Base58Digits(s))
    && Val(out, 256) == Val(Base58Digits(s), 58)
  }

  lemma {:induction false} ZerosInFront(n: nat, d: seq<nat>)
    requires d != [] ==> d[0] != 0
    ensures LeadingZeros(Zeros(n) + d) == n
  {
    if n > 0 {
      assert (Zeros(n) + d)[1..] == Zeros(n - 1) + d;
      ZerosInFront(n - 1, d);
    }
  }

  method DecodeBase58(input: string) returns (out: seq<nat>)
    ensures IsBase58(input) ==> Decodes58(input, out)
    ensures !IsBase58(input) ==> out == []
  {
    var bytes: seq<nat> := [0];
    ValSnoc([], 0, 256);
    for i := 0 to |input|
      invariant InBase(bytes, 256) && IsBase58(input[..i])
      invariant Val(bytes, 256) == Val(Base58Digits(input[..i]), 58)
    {
      var pos := Position(input[i]);
      if pos.None? {
        return [];
      }
      assert Base58Digits(input[..i + 1]) == Base58Digits(input[..i]) + [pos.value];
      ValSnoc(Base58Digits(input[..i]), pos.value, 58);
      bytes := MulAdd(bytes, pos.value);
    }
    assert input[..|input|] == input;
    var leading := 0;
    while leading < |input| && input[leading] == '1'
      invariant leading <= |input|
      invariant forall i | 0 <= i < leading :: input[i] == '1'
    {
      leading := leading + 1;
    }
    out := Zeros(leading) + bytes[LeadingZeros(bytes)..];
    Assemble(input, bytes, leading);
  }

  lemma Assemble(s: string, bytes: seq<nat>, ones: nat)
    requires IsBase58(s) && InBase(bytes, 256) && Val(bytes, 256) == Val(Base58Digits(s), 58)
    requires ones <= |s| && (forall i | 0 <= i < ones :: s[i] == '1') && (ones < |s| ==> s[ones] != '1')
    ensures Decodes58(s, Zeros(ones) + bytes[LeadingZeros(bytes)..])
  {
    var digits, rest := Base58Digits(s), bytes[LeadingZeros(bytes)..];
    if ones < |s| {
      PositionInjective(s[ones], '1');
    }
    LeadingIs(digits, ones);
    StripZeros(bytes, LeadingZeros(bytes), 256);
    ValConcat(Zeros(ones), rest, 256);
    ValZeros(ones, 256);
    ZerosInFront(ones, rest);
  }

  lemma {:induction false} LeadingIs(d: seq<nat>, n: nat)
    requires n <= |d| && (forall i | 0 <= i < n :: d[i] == 0)
    requires n < |d| ==> d[n] != 0
    ensures LeadingZeros(d) == n
  {
    if n > 0 {
      LeadingIs(d[1..], n - 1);
    }
  }

  /** Distinct Base58 texts decode to distinct byte strings, and each text to one. */
  lemma Base58Injective(s: string, t: string, a: seq<nat>, b: seq<nat>)
    requires Decodes58(s, a) && Decodes58(t, b)
    ensures a == b <==> s == t
  {
    if a == b {
      SplitUnique(Base58Digits(s), Base58Digits(t), 58);
      forall i | 0 <= i < |s| ensures s[i] == t[i] {
        assert Base58Digits(s)[i] == Base58Digits(t)[i];
        PositionInjective(s[i], t[i]);
      }
    }
    if s == t {
      SplitUnique(a, b, 256);
    }
  }

  lemma SplitUnique(d: seq<nat>, e: seq<nat>, b: nat)
    requires b > 0 && InBase(d, b) && InBase(e, b)
    requires LeadingZeros(d) == LeadingZeros(e) && Val(d, b) == Val(e, b)
    ensures d == e
  {
    var n := LeadingZeros(d);
    StripZeros(d, n, b);
    StripZeros(e, n, b);
    ValUniqueNormal(d[n..], e[n..], b);
    assert d == Zeros(n) + d[n..] && e == Zeros(n) + e[n..];
  }

  // ── convertBits ─────────────────────────────────────────────────────────

  predicate AllSymbols(input: seq<int>, width: nat) {
    forall i | 0 <= i < |input| :: 0 <= input[i] < Pow(2, width)
  }

  /** The register keeps only fromBits + toBits - 1 bits; that loses nothing still pending. */
  function Push(acc: nat, value: nat, fromBits: nat, toBits: nat): nat
    requires fromBits + toBits > 0
  {
    PowPositive(2, fromBits + toBits - 1);
    (acc * Pow(2, fromBits) + value) % Pow(2, fromBits + toBits - 1)
  }

  /** The topmost pending symbol, with bits still pending below it. */
  function Top(acc: nat, bits: nat, toBits: nat): nat {
    PowPositive(2, bits);
    PowPositive(2, toBits);
    acc / Pow(2, bits) % Pow(2, toBits)
  }

  /** The pending bits moved to the top of one last symbol. */
  function Tail(acc: nat, bits: nat, toBits: nat): nat
    requires bits <= toBits
  {
    PowPositive(2, toBits);
    acc * Pow(2, toBits - bits) % Pow(2, toBits)
  }

  /** One round of the outer loop: take a symbol in, write out every complete one. */
  method Feed(ghost read: seq<nat>, value: nat, fromBits: nat, toBits: nat, acc0: nat, bits0: nat, out0: seq<nat>)
    returns (acc: nat, bits: nat, out: seq<nat>)
    requires fromBits > 0 && toBits > 0 && bits0 < toBits && value < Pow(2, fromBits)
    requires Streaming(read, fromBits, acc0, bits0, out0, toBits)
    ensures bits < toBits && Streaming(read + [value], fromBits, acc, bits, out, toBits)
  {
    acc, bits, out := Push(acc0, value, fromBits, toBits), bits0 + fromBits, out0;
    PowPositive(2, fromBits + toBits - 1);
    StreamPush(read, fromBits, acc0, bits0, out0, toBits, value, fromBits + toBits - 1, acc);
    while bits >= toBits
      invariant Streaming(read + [value], fromBits, acc, bits, out, toBits)
    {
      StreamPop(read + [value], fromBits, acc, bits, out, toBits);
      bits := bits - toBits;
      out := out + [Top(acc, bits, toBits)];
    }
  }

  lemma ConvertEnd(read: seq<nat>, fromBits: nat, toBits: nat, acc: nat, bits: nat, out: seq<nat>)
    requires 0 < fromBits && 0 < toBits && bits < toBits && Streaming(read, fromBits, acc, bits, out, toBits)
    ensures bits > 0 ==> Regrouped(read, fromBits, out + [Tail(acc, bits, toBits)], toBits)
    ensures bits == 0 ==> Regrouped(read, fromBits, out, toBits)
    ensures bits < fromBits && Tail(acc, bits, toBits) == 0 <==> exists x :: Regrouped(x, toBits, read, fromBits)
    ensures bits < fromBits && Tail(acc, bits, toBits) == 0 ==> Regrouped(out, toBits, read, fromBits)
  {
    if bits > 0 {
      StreamPad(read, fromBits, acc, bits, out, toBits);
    } else {
      StreamExact(read, fromBits, acc, out, toBits);
    }
    StreamUnpadded(read, fromBits, acc, bits, out, toBits);
    PendingShifted(acc, bits, toBits);
    PowPositive(2, toBits - bits);
  }

  /** Output symbols are bytes, and the register must fit a 32-bit int while a symbol is pushed. */
  method ConvertBits(input: seq<int>, fromBits: nat, toBits: nat, pad: bool) returns (ok: bool, out: seq<nat>)
    requires 1 <= fromBits && 1 <= toBits <= 8 && 2 * fromBits + toBits <= 32
    ensures !AllSymbols(input, fromBits) ==> !ok
    ensures AllSymbols(input, fromBits) && pad ==> ok && Regrouped(input, fromBits, out, toBits)
    ensures AllSymbols(input, fromBits) && !pad ==>
              (ok <==> exists x :: Regrouped(x, toBits, input, fromBits))
    ensures ok && !pad ==> Regrouped(out, toBits, input, fromBits)
  {
    var acc: nat, bits: nat := 0, 0;
    out := [];
    assert Streaming([], fromBits, 0, 0, [], toBits) by {
      assert Pow(2, 0) == 1;
    }
    ghost var read: seq<nat> := [];
    for i := 0 to |input|
      invariant bits < toBits && AllSymbols(input[..i], fromBits) && read == input[..i]
      invariant Streaming(read, fromBits, acc, bits, out, toBits)
    {
      var value := input[i];
      if value < 0 || value >= Pow(2, fromBits) {
        return false, out;
      }
      acc, bits, out := Feed(read, value, fromBits, toBits, acc, bits, out);
      read := read + [value];
    }
    assert read == input;
    ConvertEnd(read, fromBits, toBits, acc, bits, out);
    if pad {
      if bits != 0 {
        out := out + [Tail(acc, bits, toBits)];
      }
      ok := true;
    } else {
      ok := !(bits >= fromBits || Tail(acc, bits, toBits) != 0);
    }
  }

  /** 8-to-5 with padding and 5-to-8 without are mutually inverse on what they accept. */
  lemma ConvertBitsInverse(bytes: seq<nat>, symbols: seq<nat>, bytes': seq<nat>, symbols': seq<nat>)
    requires Regrouped(bytes, 8, symbols, 5)
    ensures Regrouped(bytes, 8, symbols', 5) <==> symbols' == symbols
    ensures Regrouped(bytes', 8, symbols, 5) <==> bytes' == bytes
  {
    if Regrouped(bytes, 8, symbols', 5) {
      NarrowUnique(bytes, 8, symbols, symbols', 5);
    }
    if Regrouped(bytes', 8, symbols, 5) {
      WideUnique(bytes, bytes', 8, symbols, 5);
    }
  }
}
