/** The byte codecs under the dv packet: big-endian integers, chained XOR, checksum and the
    prefixed base64 (pcs/pcs_passport_dv.c). */
module DvBytes {
  import opened Wrappers

  // ---- Integers ----------------------------------------------------------------------

  /** buf_writei2: the low 16 bits, high byte first. */
  function Be16(v: int): (s: seq<byte>)
    ensures |s| == 2
  {
    [v / 256 % 256, v % 256]
  }

  function Be32(v: int): (s: seq<byte>)
    ensures |s| == 4
  {
    Be16(v / 0x1_0000) + Be16(v)
  }

  function Be64(v: int): (s: seq<byte>)
    ensures |s| == 8
  {
    Be32(v / 0x1_0000_0000) + Be32(v)
  }

  /** buf_readi2. */
  function U16(s: seq<byte>, i: nat): (v: nat)
    requires i + 2 <= |s|
    ensures v < 0x1_0000
  {
    var hi: int, lo: int := s[i], s[i + 1];
    hi * 256 + lo
  }

  function U32(s: seq<byte>, i: nat): (v: nat)
    requires i + 4 <= |s|
    ensures v < 0x1_0000_0000
  {
    U16(s, i) * 0x1_0000 + U16(s, i + 2)
  }

  /** buf_readi4: the sign comes from the top bit. */
  function I32(s: seq<byte>, i: nat): int
    requires i + 4 <= |s|
  {
    var v := U32(s, i);
    if v >= 0x8000_0000 then v - 0x1_0000_0000 else v
  }

  /** buf_readi8. */
  function I64(s: seq<byte>, i: nat): int
    requires i + 8 <= |s|
  {
    var v := U32(s, i) * 0x1_0000_0000 + U32(s, i + 4);
    if v >= 0x8000_0000_0000_0000 then v - 0x1_0000_0000_0000_0000 else v
  }

  predicate IsU16(v: int) { 0 <= v < 0x1_0000 }
  predicate IsI32(v: int) { -0x8000_0000 <= v < 0x8000_0000 }
  predicate IsI64(v: int) { -0x8000_0000_0000_0000 <= v < 0x8000_0000_0000_0000 }

  lemma Read16(s: seq<byte>, i: nat, v: int)
    requires i + 2 <= |s| && s[i..i + 2] == Be16(v)
    ensures U16(s, i) == v % 0x1_0000
    ensures IsU16(v) ==> U16(s, i) == v
  {
    assert s[i] == s[i..i + 2][0] && s[i + 1] == s[i..i + 2][1];
  }

  lemma Words(v: int)
    ensures v / 0x1_0000 % 0x1_0000 * 0x1_0000 + v % 0x1_0000 == v % 0x1_0000_0000
  {
  }

  lemma Read32(s: seq<byte>, i: nat, v: int)
    requires i + 4 <= |s| && s[i..i + 4] == Be32(v)
    ensures U32(s, i) == v % 0x1_0000_0000
    ensures IsI32(v) ==> I32(s, i) == v
  {
    assert s[i..i + 2] == s[i..i + 4][..2] == Be16(v / 0x1_0000);
    assert s[i + 2..i + 4] == s[i..i + 4][2..] == Be16(v);
    hide Be16;
    Read16(s, i, v / 0x1_0000);
    Read16(s, i + 2, v);
    hide U16;
    Words(v);
  }

  lemma LongWords(v: int)
    ensures v / 0x1_0000_0000 % 0x1_0000_0000 * 0x1_0000_0000 + v % 0x1_0000_0000 == v % 0x1_0000_0000_0000_0000
  {
  }

  lemma Read64(s: seq<byte>, i: nat, v: int)
    requires i + 8 <= |s| && s[i..i + 8] == Be64(v) && IsI64(v)
    ensures I64(s, i) == v
  {
    assert s[i..i + 4] == s[i..i + 8][..4] == Be32(v / 0x1_0000_0000);
    assert s[i + 4..i + 8] == s[i..i + 8][4..] == Be32(v);
    hide Be32;
    Read32(s, i, v / 0x1_0000_0000);
    Read32(s, i + 4, v);
    hide U32;
    LongWords(v);
  }

  // ---- XOR ---------------------------------------------------------------------------

  function Pow2(n: nat): nat { if n == 0 then 1 else 2 * Pow2(n - 1) }

  /** Exclusive or of the lowest bits. */
  function LowXor(a: nat, b: nat): (x: nat)
    ensures x < 2
  {
    (a % 2 + b % 2) % 2
  }

  /** Exclusive or of the low `n` bits. */
  function XorBits(a: nat, b: nat, n: nat): (x: nat)
    ensures x < Pow2(n)
  {
    if n == 0 then 0 else 2 * XorBits(a / 2, b / 2, n - 1) + LowXor(a, b)
  }

  lemma LowXorTwice(a: nat, b: nat, h: nat)
    ensures LowXor(2 * h + LowXor(a, b), b) == a % 2
    ensures (2 * h + LowXor(a, b)) / 2 == h
  {
  }

  lemma {:induction false} XorBitsTwice(a: nat, b: nat, n: nat)
    requires a < Pow2(n)
    ensures XorBits(XorBits(a, b, n), b, n) == a
  {
    if n > 0 {
      var half := XorBits(a / 2, b / 2, n - 1);
      LowXorTwice(a, b, half);
      XorBitsTwice(a / 2, b / 2, n - 1);
      hide LowXor;
      var x := XorBits(a, b, n);
      assert x == 2 * half + LowXor(a, b);
      assert XorBits(x, b, n) == 2 * XorBits(x / 2, b / 2, n - 1) + LowXor(x, b);
    }
  }

  function Xor(a: byte, b: byte): byte {
    assert Pow2(8) == 256;
    XorBits(a, b, 8)
  }

  lemma XorTwice(a: byte, b: byte)
    ensures Xor(Xor(a, b), b) == a
  {
    assert Pow2(8) == 256;
    XorBitsTwice(a, b, 8);
  }

  const SEED: byte := 0xcb

  /** buf_encode_xor: each byte is combined with the encoded byte before it. */
  function XorEncode(p: seq<byte>, c: byte): (e: seq<byte>)
    ensures |e| == |p|
  {
    if p == [] then [] else [Xor(p[0], c)] + XorEncode(p[1..], Xor(p[0], c))
  }

  /** buf_decode_xor. */
  function XorDecode(e: seq<byte>, c: byte): (p: seq<byte>)
    ensures |p| == |e|
  {
    if e == [] then [] else [Xor(e[0], c)] + XorDecode(e[1..], e[0])
  }

  /** Decoding undoes encoding for every buffer. */
  lemma {:induction false} XorRoundTrip(p: seq<byte>, c: byte)
    ensures XorDecode(XorEncode(p, c), c) == p
  {
    if p != [] {
      XorTwice(p[0], c);
      XorRoundTrip(p[1..], Xor(p[0], c));
      assert XorEncode(p, c)[1..] == XorEncode(p[1..], Xor(p[0], c));
    }
  }

  lemma {:induction false} XorDecodeAt(e: seq<byte>, c: byte, i: nat)
    requires i < |e|
    ensures XorDecode(e, c)[i] == Xor(e[i], if i == 0 then c else e[i - 1])
  {
    if i > 0 {
      XorDecodeAt(e[1..], e[0], i - 1);
    }
  }

  lemma {:induction false} XorEncodeAt(p: seq<byte>, c: byte, i: nat)
    requires i < |p|
    ensures XorEncode(p, c)[i] == Xor(p[i], if i == 0 then c else XorEncode(p, c)[i - 1])
  {
    if i > 0 {
      XorEncodeAt(p[1..], Xor(p[0], c), i - 1);
    }
  }

  method EncodeXor(a: array<byte>, off: nat, len: nat)
    requires off + len <= a.Length
    modifies a
    ensures a[off..off + len] == XorEncode(old(a[off..off + len]), SEED)
    ensures a[..off] == old(a[..off]) && a[off + len..] == old(a[off + len..])
  {
    ghost var p := a[off..off + len];
    var c := SEED;
    for k := 0 to len
      invariant a[..off] == old(a[..off]) && a[off + k..] == old(a[off + k..])
      invariant forall j | 0 <= j < k :: a[off + j] == XorEncode(p, SEED)[j]
      invariant c == if k == 0 then SEED else a[off + k - 1]
    {
      XorEncodeAt(p, SEED, k);
      assert a[off + k] == old(a[off + k..])[0] == p[k];
      a[off + k] := Xor(a[off + k], c);
      c := a[off + k];
    }
  }

  /** Backwards, in place. With length 0 the final statement changes the byte before the buffer. */
  method DecodeXor(a: array<byte>, off: nat, len: nat)
    requires off + len <= a.Length && (len == 0 ==> off > 0)
    modifies a
    ensures a[off..off + len] == XorDecode(old(a[off..off + len]), SEED)
    ensures len > 0 ==> a[..off] == old(a[..off])
    ensures len == 0 ==> a[..off] == old(a[..off])[off - 1 := Xor(old(a[off - 1]), SEED)]
    ensures a[off + len..] == old(a[off + len..])
  {
    ghost var e := a[off..off + len];
    var p: int := off + len - 1;
    while p > off
      invariant off - 1 <= p < off + len && (len > 0 ==> p >= off)
      invariant a[..if len == 0 then off else p + 1] == old(a[..if len == 0 then off else p + 1])
      invariant forall j | p - off < j < len && 0 <= j :: a[off + j] == XorDecode(e, SEED)[j]
      invariant a[off + len..] == old(a[off + len..])
    {
      XorDecodeAt(e, SEED, p - off);
      assert a[p] == old(a[..p + 1])[p] == e[p - off] && a[p - 1] == old(a[..p + 1])[p - 1] == e[p - 1 - off];
      a[p] := Xor(a[p], a[p - 1]);
      p := p - 1;
    }
    if len > 0 {
      XorDecodeAt(e, SEED, 0);
      assert a[p] == old(a[..p + 1])[p] == e[0];
    }
    a[p] := Xor(a[p], SEED);
    assert forall j | 0 <= j < len :: a[off..off + len][j] == XorDecode(e, SEED)[j];
  }

  // ---- Checksum ----------------------------------------------------------------------

  function SumBytes(s: seq<byte>): nat {
    if s == [] then 0 else SumBytes(s[..|s| - 1]) + s[|s| - 1]
  }

  /** calc_cs: 0x21 plus all bytes, modulo 256. */
  function Checksum(s: seq<byte>): byte { (0x21 + SumBytes(s)) % 256 }

  method CalcCs(a: array<byte>, off: nat, len: nat) returns (cs: byte)
    requires off + len <= a.Length
    ensures cs == Checksum(a[off..off + len])
  {
    cs := 0x21;
    for i := 0 to len
      invariant cs == Checksum(a[off..off + i])
    {
      assert a[off..off + i + 1][..i] == a[off..off + i];
      cs := (cs + a[off + i]) % 256;
    }
  }

  // ---- Base64 ------------------------------------------------------------------------

  /** The alphabet A-Z a-z 0-9 - _. */
  function Code(v: nat): (c: byte)
    requires v < 64
    ensures c > 0
  {
    if v < 26 then 65 + v else if v < 52 then 71 + v else if v < 62 then v - 4 else if v == 62 then 45 else 95
  }

  /** The reverse table; 0 for every other byte. */
  function Value(c: byte): (v: nat)
    ensures v < 64
  {
    if 65 <= c <= 90 then c - 65 else if 97 <= c <= 122 then c - 71 else if 48 <= c <= 57 then c + 4
    else if c == 45 then 62 else if c == 95 then 63 else 0
  }

  lemma ValueOfCode(v: nat)
    requires v < 64
    ensures Value(Code(v)) == v
  {
  }

  /** Three bytes as one 24-bit value, and back. */
  function Triple(a: int, b: int, c: int): (v: nat)
    requires 0 <= a < 256 && 0 <= b < 256 && 0 <= c < 256
    ensures v < 0x100_0000
  {
    a * 0x1_0000 + b * 0x100 + c
  }

  function Byte0(v: nat): byte { v / 0x1_0000 % 256 }
  function Byte1(v: nat): byte { v / 0x100 % 256 }
  function Byte2(v: nat): byte { v % 256 }

  lemma TripleBytes(a: int, b: int, c: int)
    requires 0 <= a < 256 && 0 <= b < 256 && 0 <= c < 256
    ensures var v := Triple(a, b, c); Byte0(v) == a && Byte1(v) == b && Byte2(v) == c
  {
  }

  /** The four 6-bit groups of a 24-bit value, as characters, and back. */
  function Char0(v: nat): byte { Code(v / 0x4_0000 % 64) }
  function Char1(v: nat): byte { Code(v / 0x1000 % 64) }
  function Char2(v: nat): byte { Code(v / 64 % 64) }
  function Char3(v: nat): byte { Code(v % 64) }

  function Quad(a: nat, b: nat, c: nat, d: nat): nat { ((a * 64 + b) * 64 + c) * 64 + d }

  function QuadOf(a: byte, b: byte, c: byte, d: byte): nat { Quad(Value(a), Value(b), Value(c), Value(d)) }

  const PAD: byte := 65   // stands for the value 0

  lemma QuadChars(v: nat)
    requires v < 0x100_0000
    ensures QuadOf(Char0(v), Char1(v), Char2(v), Char3(v)) == v
    ensures v % 64 == 0 ==> QuadOf(Char0(v), Char1(v), Char2(v), PAD) == v
    ensures v % 0x1000 == 0 ==> QuadOf(Char0(v), Char1(v), PAD, PAD) == v
  {
    ValueOfCode(v / 0x4_0000 % 64);
    ValueOfCode(v / 0x1000 % 64);
    ValueOfCode(v / 64 % 64);
    ValueOfCode(v % 64);
    hide Code, Value;
    assert Value(PAD) == 0 by { ValueOfCode(0); assert Code(0) == PAD by { CodeOfZero(); } }
    Sextets(v);
  }

  lemma CodeOfZero()
    ensures Code(0) == PAD
  {
  }

  lemma DivDiv(v: nat)
    ensures v / 0x1000 == v / 64 / 64 && v / 0x4_0000 == v / 64 / 64 / 64
  {
  }

  lemma Sextets(v: nat)
    requires v < 0x100_0000
    ensures Quad(v / 0x4_0000 % 64, v / 0x1000 % 64, v / 64 % 64, v % 64) == v
    ensures v % 0x1000 == 0 ==> v / 64 % 64 == 0 && v % 64 == 0
  {
    DivDiv(v);
    var q := v / 64;
    var r := q / 64;
    var t := r / 64;
    assert v == q * 64 + v % 64;
    assert q == r * 64 + q % 64;
    assert r == t * 64 + r % 64;
    assert t < 64;
  }

  function Encode64(s: seq<byte>): seq<byte> {
    if |s| >= 3 then
      var v := Triple(s[0], s[1], s[2]);
      [Char0(v), Char1(v), Char2(v), Char3(v)] + Encode64(s[3..])
    else if |s| == 2 then
      var v := Triple(s[0], s[1], 0);
      [Char0(v), Char1(v), Char2(v)]
    else if |s| == 1 then
      var v := Triple(s[0], 0, 0);
      [Char0(v), Char1(v)]
    else []
  }

  const PREFIX: seq<byte> := [77, 68, 69, 119]   // "MDEw"

  /** passport_base64. */
  function Base64(s: seq<byte>): seq<byte> { PREFIX + Encode64(s) }

  function DecodedLength(n: nat): nat {
    n / 4 * 3 + (if n % 4 > 2 then 2 else if n % 4 > 0 then 1 else 0)
  }

  /** The bytes of passport_debase64 that its length covers. */
  function Debase64(t: seq<byte>): (s: seq<byte>)
    ensures |s| == DecodedLength(|t|)
  {
    if |t| >= 4 then
      var v := QuadOf(t[0], t[1], t[2], t[3]);
      [Byte0(v), Byte1(v), Byte2(v)] + Debase64(t[4..])
    else if |t| == 3 then
      var v := QuadOf(t[0], t[1], t[2], PAD);
      [Byte0(v), Byte1(v)]
    else if |t| > 0 then
      [Byte0(QuadOf(t[0], if |t| > 1 then t[1] else PAD, PAD, PAD))]
    else []
  }

  lemma {:induction false} Base64RoundTrip(s: seq<byte>)
    ensures Debase64(Encode64(s)) == s
  {
    hide Byte0, Byte1, Byte2, Char0, Char1, Char2, Char3, QuadOf, Triple;
    if |s| >= 3 {
      var v := Triple(s[0], s[1], s[2]);
      TripleBytes(s[0], s[1], s[2]);
      QuadChars(v);
      Base64RoundTrip(s[3..]);
      var t := Encode64(s);
      assert t[4..] == Encode64(s[3..]);
      assert s == [s[0], s[1], s[2]] + s[3..];
    } else if |s| == 2 {
      TripleBytes(s[0], s[1], 0);
      Multiple(s[0], s[1]);
      QuadChars(Triple(s[0], s[1], 0));
    } else if |s| == 1 {
      TripleBytes(s[0], 0, 0);
      Multiple(s[0], 0);
      QuadChars(Triple(s[0], 0, 0));
    }
  }

  lemma Multiple(a: int, b: int)
    requires 0 <= a < 256 && 0 <= b < 256
    ensures Triple(a, b, 0) % 64 == 0 && (b == 0 ==> Triple(a, b, 0) % 0x1000 == 0)
  {
  }

  const MARK: seq<byte> := [48, 49, 48]   // "010"

  lemma PrefixIsMark()
    ensures var v := QuadOf(77, 68, 69, 119); [Byte0(v), Byte1(v), Byte2(v)] == MARK
  {
  }

  /** passport_debase64 of passport_base64 is "010" and the input, for every byte string. */
  lemma PrefixedRoundTrip(s: seq<byte>)
    ensures Debase64(Base64(s)) == MARK + s
  {
    hide Byte0, Byte1, Byte2, QuadOf, Encode64;
    Base64RoundTrip(s);
    var t := Base64(s);
    assert t[4..] == Encode64(s);
    PrefixIsMark();
  }

  function EncodedLength(n: nat): nat {
    n / 3 * 4 + (if n % 3 > 1 then 3 else if n % 3 > 0 then 2 else 0)
  }

  lemma {:induction false} EncodeLength(s: seq<byte>)
    ensures |Encode64(s)| == EncodedLength(|s|)
  {
    if |s| >= 3 {
      EncodeLength(s[3..]);
    }
  }

  lemma EncodeStep(s: seq<byte>, i: nat)
    requires i + 3 <= |s|
    ensures Encode64(s[i..]) == Four(Triple(s[i], s[i + 1], s[i + 2])) + Encode64(s[i + 3..])
  {
    assert s[i..][3..] == s[i + 3..];
  }

  function Four(v: nat): seq<byte> { [Char0(v), Char1(v), Char2(v), Char3(v)] }

  lemma EncodeLast(s: seq<byte>, i: nat)
    requires i <= |s| < i + 3
    ensures |s| == i ==> Encode64(s[i..]) == []
    ensures |s| > i ==> var v := Triple(s[i], if |s| > i + 1 then s[i + 1] else 0, 0);
              Encode64(s[i..]) == [Char0(v), Char1(v)] + (if |s| > i + 1 then [Char2(v)] else [])
  {
  }

  method PassportBase64(input: seq<byte>) returns (r: seq<byte>)
    ensures r == Base64(input)
  {
    hide Char0, Char1, Char2, Char3, Triple, Encode64, Code;
    var length := |input|;
    var len := EncodedLength(length) + 4;
    EncodeLength(input);
    hide EncodedLength;
    var buf := new byte[len + 1](_ => 0);
    buf[0], buf[1], buf[2], buf[3] := 77, 68, 69, 119;
    var dst: nat, p: nat := 4, 0;
    assert input[0..] == input;
    assert buf[..4] == PREFIX;
    while length - p >= 3
      invariant p <= length && dst <= len
      invariant buf[..dst] + Encode64(input[p..]) == Base64(input)
    {
      EncodeStep(input, p);
      ghost var done, rest := buf[..dst], Encode64(input[p + 3..]);
      assert dst + 4 + |rest| == len;
      var b := Triple(input[p], input[p + 1], input[p + 2]);
      buf[dst], buf[dst + 1], buf[dst + 2], buf[dst + 3] := Char0(b), Char1(b), Char2(b), Char3(b);
      assert buf[..dst + 4] == done + Four(b);
      Regroup(done, Four(b), rest);
      p, dst := p + 3, dst + 4;
    }
    dst := WriteLast(buf, dst, input, p);
    buf[dst] := 0;
    r := buf[..dst];
  }

  /** The last one or two bytes. */
  method WriteLast(buf: array<byte>, dst: nat, input: seq<byte>, p: nat) returns (end: nat)
    requires p <= |input| < p + 3 && dst + |Encode64(input[p..])| < buf.Length
    modifies buf
    ensures end == dst + |Encode64(input[p..])| && buf[..end] == old(buf[..dst]) + Encode64(input[p..])
  {
    EncodeLast(input, p);
    hide Char0, Char1, Char2, Triple, Encode64;
    end := dst;
    if |input| > p {
      var b := Triple(input[p], if |input| - p > 1 then input[p + 1] else 0, 0);
      buf[end], buf[end + 1] := Char0(b), Char1(b);
      end := end + 2;
      if |input| - p > 1 {
        buf[end] := Char2(b);
        end := end + 1;
      }
    }
  }

  lemma DecodeStep(t: seq<byte>, i: nat)
    requires i + 4 <= |t|
    ensures Debase64(t[i..]) == Three(QuadOf(t[i], t[i + 1], t[i + 2], t[i + 3])) + Debase64(t[i + 4..])
  {
    assert t[i..][4..] == t[i + 4..];
  }

  function Three(v: nat): seq<byte> { [Byte0(v), Byte1(v), Byte2(v)] }

  lemma DecodeLast(t: seq<byte>, i: nat)
    requires i <= |t| < i + 4
    ensures |t| == i ==> Debase64(t[i..]) == []
    ensures |t| > i ==>
              var v := QuadOf(t[i], if |t| > i + 1 then t[i + 1] else PAD, if |t| > i + 2 then t[i + 2] else PAD, PAD);
              Debase64(t[i..]) == [Byte0(v)] + (if |t| > i + 2 then [Byte1(v)] else [])
  {
  }

  lemma PartialQuad(a: byte, b: byte, c: byte)
    ensures QuadOf(a, b, c, PAD) == ((Value(a) * 64 + Value(b)) * 64 + Value(c)) * 64
    ensures Value(PAD) == 0
  {
  }

  /** The array has one byte more than the original allocates, which a partial last group needs. */
  method PassportDebase64(input: seq<byte>) returns (buf: array<byte>, len: nat)
    ensures fresh(buf) && len < buf.Length && buf[..len] == Debase64(input)
  {
    hide Byte0, Byte1, Byte2, Debase64, Value, QuadOf, DecodedLength;
    var length := |input|;
    len := DecodedLength(length);
    buf := new byte[len + 2](_ => 0);
    var dst: nat, p: nat := 0, 0;
    assert input[0..] == input && buf[..0] == [];
    while length - p >= 4
      invariant p <= length && dst <= len
      invariant buf[..dst] + Debase64(input[p..]) == Debase64(input)
    {
      DecodeStep(input, p);
      ghost var done, rest := buf[..dst], Debase64(input[p + 4..]);
      assert dst + 3 + |rest| == len;
      var b := QuadOf(input[p], input[p + 1], input[p + 2], input[p + 3]);
      buf[dst], buf[dst + 1], buf[dst + 2] := Byte0(b), Byte1(b), Byte2(b);
      assert buf[..dst + 3] == done + Three(b);
      Regroup(done, Three(b), rest);
      p, dst := p + 4, dst + 3;
    }
    ReadLast(buf, dst, input, p);
  }

  /** The last one to three characters; the writes may pass the decoded length by one byte. */
  method ReadLast(buf: array<byte>, dst: nat, input: seq<byte>, p: nat)
    requires p <= |input| < p + 4 && dst + |Debase64(input[p..])| + 1 < buf.Length
    modifies buf
    ensures buf[..dst + |Debase64(input[p..])|] == old(buf[..dst]) + Debase64(input[p..])
  {
    DecodeLast(input, p);
    hide Byte0, Byte1, Byte2, Debase64, Value, QuadOf, DecodedLength;
    var end := dst;
    var left := |input| - p;
    if left > 0 {
      var b := Value(input[p]) * 64;
      if left > 1 { b := b + Value(input[p + 1]); }
      b := b * 64;
      if left > 2 { b := b + Value(input[p + 2]); }
      b := b * 64;
      PartialQuad(input[p], if left > 1 then input[p + 1] else PAD, if left > 2 then input[p + 2] else PAD);
      buf[end], buf[end + 1] := Byte0(b), Byte1(b);
      end := end + 2;
      if left > 2 {
        buf[end] := Byte2(b);
        end := end + 1;
      }
    }
    buf[end] := 0;
  }
}
