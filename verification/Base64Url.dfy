/** base64url of src/auth.cpp (section 5 of RFC 4648, without padding characters). */
module Base64Url {
  import opened Wrappers
  import opened Digits
  import opened Regroup

  type Byte = b: nat | b < 256

  /** The v-th character of the alphabet A-Z a-z 0-9 - _. */
  function CharOf(v: nat): char
    requires v < 64
  {
    if v < 26 then ('A' as int + v) as char
    else if v < 52 then ('a' as int + v - 26) as char
    else if v < 62 then ('0' as int + v - 52) as char
    else if v == 62 then '-'
    else '_'
  }

  function CharValue(c: char): (v: int)
    ensures -1 <= v < 64
    ensures v >= 0 ==> CharOf(v) == c
  {
    if 'A' <= c <= 'Z' then c as int - 'A' as int
    else if 'a' <= c <= 'z' then c as int - 'a' as int + 26
    else if '0' <= c <= '9' then c as int - '0' as int + 52
    else if c == '-' then 62
    else if c == '_' then 63
    else -1
  }

  lemma CharValueInverts(v: nat)
    requires v < 64
    ensures CharValue(CharOf(v)) == v
  {}

  predicate InAlphabet(s: string) {
    forall i | 0 <= i < |s| :: CharValue(s[i]) >= 0
  }

  function Symbols(s: string): (v: seq<nat>)
    requires InAlphabet(s)
    ensures |v| == |s| && InBase(v, 64)
  {
    seq(|s|, i requires 0 <= i < |s| => CharValue(s[i]))
  }

  function Spell(v: seq<nat>): (s: string)
    requires InBase(v, 64)
    ensures |s| == |v| && InAlphabet(s) && Symbols(s) == v
  {
    seq(|v|, i requires 0 <= i < |v| => CharOf(v[i]))
  }

  /** Text e is the unpadded base64url encoding of the bytes. */
  predicate Encodes(e: string, raw: seq<Byte>) {
    InAlphabet(e) && Regrouped(raw, 8, Symbols(e), 6)
  }

  lemma PowValues()
    ensures Pow(2, 2) == 4 && Pow(2, 4) == 16 && Pow(2, 6) == 64 && Pow(2, 8) == 256
  {
    assert Pow(2, 4) == 2 * Pow(2, 3);
    assert Pow(2, 6) == 2 * Pow(2, 5) && Pow(2, 5) == 2 * Pow(2, 4);
    assert Pow(2, 8) == 2 * Pow(2, 7) && Pow(2, 7) == 2 * Pow(2, 6);
  }

  lemma Val2(p: seq<nat>, a: nat, b: nat, base: nat)
    ensures Val(p + [a, b], base) == (Val(p, base) * base + a) * base + b
  {
    assert p + [a, b] == (p + [a]) + [b];
    ValSnoc(p, a, base);
    ValSnoc(p + [a], b, base);
  }

  lemma GroupArith(V: nat, b0: Byte, b1: Byte, b2: Byte)
    ensures (((V * 64 + b0 / 4) * 64 + (b0 % 4 * 16 + b1 / 16)) * 64 + (b1 % 16 * 4 + b2 / 64)) * 64 + b2 % 64
         == ((V * 256 + b0) * 256 + b1) * 256 + b2
  {
    assert b0 == b0 / 4 * 4 + b0 % 4;
    assert b1 == b1 / 16 * 16 + b1 % 16;
    assert b2 == b2 / 64 * 64 + b2 % 64;
  }

  /** Four symbols carry three bytes. */
  lemma EncodeGroup(raw: seq<Byte>, out: seq<nat>, b0: Byte, b1: Byte, b2: Byte)
    requires InBase(out, 64) && |out| * 3 == |raw| * 4 && Val(out, 64) == Val(raw, 256)
    ensures var next := out + [b0 / 4, b0 % 4 * 16 + b1 / 16, b1 % 16 * 4 + b2 / 64, b2 % 64];
            InBase(next, 64) && Val(next, 64) == Val(raw + [b0, b1, b2], 256)
  {
    var c0, c1, c2, c3 := b0 / 4, b0 % 4 * 16 + b1 / 16, b1 % 16 * 4 + b2 / 64, b2 % 64;
    assert out + [c0, c1, c2, c3] == (out + [c0, c1]) + [c2, c3];
    Val2(out, c0, c1, 64);
    Val2(out + [c0, c1], c2, c3, 64);
    assert raw + [b0, b1, b2] == (raw + [b0]) + [b1, b2];
    ValSnoc(raw, b0, 256);
    Val2(raw + [b0], b1, b2, 256);
    GroupArith(Val(raw, 256), b0, b1, b2);
  }

  lemma Finish(raw: seq<Byte>, sym: seq<nat>, p: nat)
    requires InBase(sym, 64) && p < 6 && |sym| * 6 == |raw| * 8 + p
    requires Val(sym, 64) == Val(raw, 256) * Pow(2, p)
    ensures Encodes(Spell(sym), raw)
  {
    PowValues();
    RegroupedEquations(raw, 8, sym, 6);
  }

  lemma BadLength(e: string, raw: seq<Byte>)
    requires |e| % 4 == 1
    ensures !Encodes(e, raw)
  {
    if Encodes(e, raw) {
      BitsIs(|e|, 6);
      BitsIs(|raw|, 8);
      NoFit(|e|, |raw|);
    }
  }

  lemma NoEncoding(e: string)
    requires |e| % 4 == 1
    ensures forall raw: seq<Byte> :: !Encodes(e, raw)
  {
    forall raw: seq<Byte> ensures !Encodes(e, raw) {
      BadLength(e, raw);
    }
  }

  lemma NoFit(n: nat, m: nat)
    requires n % 4 == 1
    ensures !(0 <= n * 6 - m * 8 < 6)
  {
    Multiple8(3 * (n / 4) - m, 6);
  }

  lemma Multiple8(k: int, r: nat)
    requires r < 24
    ensures 0 <= 8 * k + r < 8 ==> -2 <= k <= 0
  {}

  lemma SpareBits(n: nat, m: nat, bits: nat)
    requires n % 4 != 1 && m * 8 + bits == n * 6 && bits < 8
    ensures bits < 6
  {
    Multiple8(3 * (n / 4) - m, 6 * (n % 4));
  }

  lemma TailOfOne(done: seq<Byte>, sym: seq<nat>, b0: Byte)
    requires InBase(sym, 64) && |sym| * 3 == |done| * 4 && Val(sym, 64) == Val(done, 256)
    ensures InBase(sym + [b0 / 4, b0 % 4 * 16], 64) && Encodes(Spell(sym + [b0 / 4, b0 % 4 * 16]), done + [b0])
  {
    PowValues();
    ValSnoc(done, b0, 256);
    Val2(sym, b0 / 4, b0 % 4 * 16, 64);
    Finish(done + [b0], sym + [b0 / 4, b0 % 4 * 16], 4);
  }

  lemma TailOfTwo(done: seq<Byte>, sym: seq<nat>, b0: Byte, b1: Byte)
    requires InBase(sym, 64) && |sym| * 3 == |done| * 4 && Val(sym, 64) == Val(done, 256)
    ensures var all := sym + [b0 / 4, b0 % 4 * 16 + b1 / 16, b1 % 16 * 4];
            InBase(all, 64) && Encodes(Spell(all), done + [b0, b1])
  {
    var c0, c1, c2 := b0 / 4, b0 % 4 * 16 + b1 / 16, b1 % 16 * 4;
    PowValues();
    Val2(done, b0, b1, 256);
    Val2(sym, c0, c1, 64);
    ValSnoc(sym + [c0, c1], c2, 64);
    assert sym + [c0, c1, c2] == (sym + [c0, c1]) + [c2];
    Finish(done + [b0, b1], sym + [c0, c1, c2], 2);
  }

  lemma ThreeMore(raw: seq<Byte>, i: nat)
    requires i + 2 < |raw|
    ensures raw[..i + 3] == raw[..i] + [raw[i], raw[i + 1], raw[i + 2]]
  {}

  method Encode(raw: seq<Byte>) returns (out: string)
    ensures Encodes(out, raw)
  {
    PowValues();
    var sym: seq<nat> := [];
    var i := 0;
    while i + 2 < |raw|
      invariant 0 <= i <= |raw| && i % 3 == 0
      invariant InBase(sym, 64) && |sym| * 3 == i * 4 && Val(sym, 64) == Val(raw[..i], 256)
    {
      var b0, b1, b2 := raw[i], raw[i + 1], raw[i + 2];
      ThreeMore(raw, i);
      EncodeGroup(raw[..i], sym, b0, b1, b2);
      sym := sym + [b0 / 4, b0 % 4 * 16 + b1 / 16, b1 % 16 * 4 + b2 / 64, b2 % 64];
      i := i + 3;
    }
    ghost var done: seq<Byte> := raw[..i];
    var remaining := |raw| - i;
    if remaining == 1 {
      var b0 := raw[i];
      assert raw == done + [b0];
      TailOfOne(done, sym, b0);
      sym := sym + [b0 / 4, b0 % 4 * 16];
    } else if remaining == 2 {
      var b0, b1 := raw[i], raw[i + 1];
      assert raw == done + [b0, b1];
      TailOfTwo(done, sym, b0, b1);
      sym := sym + [b0 / 4, b0 % 4 * 16 + b1 / 16, b1 % 16 * 4];
    } else {
      assert raw == done;
      Finish(raw, sym, 0);
    }
    out := Spell(sym);
  }

  /** The 32-bit register after one more symbol. */
  function Shifted(buffer: nat, value: nat): nat {
    PowPositive(2, 32);
    (buffer * 64 + value) % Pow(2, 32)
  }

  function Emitted(buffer: nat, bits: nat): Byte {
    PowPositive(2, bits);
    buffer / Pow(2, bits) % 256
  }

  /** The low bits of the register that no byte has taken yet. */
  function Leftover(buffer: nat, bits: nat): nat {
    PowPositive(2, bits);
    buffer % Pow(2, bits)
  }

  lemma DecodeStep(read: seq<nat>, buffer: nat, bits: nat, out: seq<Byte>, value: nat)
    requires bits < 8 && value < 64 && Streaming(read, 6, buffer, bits, out, 8)
    ensures bits < 2 ==> Streaming(read + [value], 6, Shifted(buffer, value), bits + 6, out, 8)
    ensures bits >= 2 ==>
      Streaming(read + [value], 6, Shifted(buffer, value), bits - 2, out + [Emitted(Shifted(buffer, value), bits - 2)], 8)
  {
    PowValues();
    PowPositive(2, 32);
    StreamPush(read, 6, buffer, bits, out, 8, value, 32, Shifted(buffer, value));
    if bits >= 2 {
      StreamPop(read + [value], 6, Shifted(buffer, value), bits + 6, out, 8);
    }
  }

  lemma Unreadable(e: string, i: nat)
    requires i < |e| && CharValue(e[i]) < 0
    ensures forall raw: seq<Byte> :: !Encodes(e, raw)
  {}

  lemma ReadSymbol(e: string, i: nat)
    requires i < |e| && CharValue(e[i]) >= 0 && InAlphabet(e[..i])
    ensures InAlphabet(e[..i + 1]) && Symbols(e[..i + 1]) == Symbols(e[..i]) + [CharValue(e[i])]
  {
    assert e[..i + 1] == e[..i] + [e[i]];
  }

  lemma DecodeEnd(e: string, buffer: nat, bits: nat, out: seq<Byte>)
    requires InAlphabet(e) && |e| % 4 != 1 && bits < 8
    requires Streaming(Symbols(e), 6, buffer, bits, out, 8)
    ensures bits == 0 || Leftover(buffer, bits) == 0 ==> Encodes(e, out)
    ensures bits > 0 && Leftover(buffer, bits) != 0 ==> forall raw: seq<Byte> :: !Encodes(e, raw)
  {
    BitsIs(|e|, 6);
    BitsIs(|out|, 8);
    SpareBits(|e|, |out|, bits);
    StreamUnpadded(Symbols(e), 6, buffer, bits, out, 8);
    if bits == 0 {
      assert Pow(2, bits) == 1;
    }
  }

  /** One character: its bits go into the buffer, and a full byte comes out. */
  method DecodeSymbol(ghost read: seq<nat>, buffer0: nat, bits0: nat, out0: seq<Byte>, value: nat)
    returns (buffer: nat, bits: nat, out: seq<Byte>)
    requires bits0 < 8 && value < 64 && Streaming(read, 6, buffer0, bits0, out0, 8)
    ensures bits < 8 && Streaming(read + [value], 6, buffer, bits, out, 8)
  {
    DecodeStep(read, buffer0, bits0, out0, value);
    buffer := Shifted(buffer0, value);
    bits := bits0 + 6;
    out := out0;
    if bits >= 8 {
      bits := bits - 8;
      out := out + [Emitted(buffer, bits)];
    }
  }

  lemma NothingRead()
    ensures Streaming([], 6, 0, 0, [], 8)
  {}

  /** Despite the 32-bit register, which drops old bits on long inputs, decoding accepts exactly the encodings. */
  method Decode(encoded: string) returns (r: Option<seq<Byte>>)
    ensures r.Some? ==> Encodes(encoded, r.value)
    ensures r.None? ==> forall raw: seq<Byte> :: !Encodes(encoded, raw)
  {
    if |encoded| % 4 == 1 {
      NoEncoding(encoded);
      return None;
    }
    var out: seq<Byte> := [];
    var buffer: nat := 0;
    var bits: nat := 0;
    ghost var read: seq<nat> := [];
    NothingRead();
    for i := 0 to |encoded|
      invariant bits < 8 && InAlphabet(encoded[..i]) && read == Symbols(encoded[..i])
      invariant Streaming(read, 6, buffer, bits, out, 8)
    {
      var value := CharValue(encoded[i]);
      if value < 0 {
        Unreadable(encoded, i);
        return None;
      }
      ReadSymbol(encoded, i);
      buffer, bits, out := DecodeSymbol(read, buffer, bits, out, value);
      read := read + [value];
    }
    assert encoded[..|encoded|] == encoded;
    DecodeEnd(encoded, buffer, bits, out);
    if bits > 0 && Leftover(buffer, bits) != 0 {
      return None;
    }
    r := Some(out);
  }

  /** One text per byte string and one byte string per text: with the two contracts, Decode inverts Encode. */
  lemma EncodingIsExact(e: string, raw: seq<Byte>, e': string, raw': seq<Byte>)
    requires Encodes(e, raw) && Encodes(e', raw')
    ensures e == e' <==> raw == raw'
  {
    if raw == raw' {
      NarrowUnique(raw, 8, Symbols(e), Symbols(e'), 6);
      assert Spell(Symbols(e)) == e && Spell(Symbols(e')) == e';
    }
    if e == e' {
      WideUnique(raw, raw', 8, Symbols(e), 6);
    }
  }

  /** Any result allowed by Decode's contract is the bytes exactly when the text is their encoding. */
  lemma DecodeInvertsEncode(e: string, raw: seq<Byte>, r: Option<seq<Byte>>)
    requires r.Some? ==> Encodes(e, r.value)
    requires r.None? ==> forall x: seq<Byte> :: !Encodes(e, x)
    ensures r == Some(raw) <==> Encodes(e, raw)
  {
    if Encodes(e, raw) {
      EncodingIsExact(e, raw, e, r.value);
    }
  }
}
