/** What the bytes of a dv packet are, field by field and bit by bit (pcs/pcs_passport_dv.c): the laws that
    fix the format, apart from reading undoing writing. */
module DvFormat {
  import opened Wrappers
  import opened DvBytes
  import opened DvItems
  import opened DvPacket

  // ---- Exclusive or, bit by bit ------------------------------------------------------

  /** Bit `k`, counted from the lowest. */
  predicate Bit(a: nat, k: nat) { if k == 0 then a % 2 == 1 else Bit(a / 2, k - 1) }

  lemma {:induction false} XorBitsAt(a: nat, b: nat, n: nat, k: nat)
    requires k < n
    ensures Bit(XorBits(a, b, n), k) <==> Bit(a, k) != Bit(b, k)
    decreases n
  {
    var half, low := XorBits(a / 2, b / 2, n - 1), LowXor(a, b);
    assert XorBits(a, b, n) == 2 * half + low;
    if k > 0 {
      hide LowXor, XorBits;
      XorBitsAt(a / 2, b / 2, n - 1, k - 1);
      assert (2 * half + low) / 2 == half;
    }
  }

  /** The place value of bit `k` of a byte. */
  function Weight(k: nat): (w: nat)
    requires k < 8
    ensures w > 0 && w == [1, 2, 4, 8, 16, 32, 64, 128][k]
  {
    if k == 0 then 1 else 2 * Weight(k - 1)
  }

  lemma HalfWeight(a: nat, k: nat)
    requires 0 < k < 8
    ensures a / Weight(k) == a / 2 / Weight(k - 1)
  {
    if k == 1 {
    } else if k == 2 {
    } else if k == 3 {
    } else if k == 4 {
    } else if k == 5 {
    } else if k == 6 {
    } else {
      assert k == 7;
    }
  }

  lemma {:induction false} BitByWeight(a: nat, k: nat)
    requires k < 8
    ensures Bit(a, k) <==> a / Weight(k) % 2 == 1
    decreases k
  {
    if k > 0 {
      BitByWeight(a / 2, k - 1);
      HalfWeight(a, k);
      hide Weight;
    }
  }

  /** Bit `k` of the combined byte is set exactly when the two bytes differ in it. */
  lemma XorDiffers(a: byte, b: byte, k: nat)
    requires k < 8
    ensures Xor(a, b) / Weight(k) % 2 == 1 <==> a / Weight(k) % 2 != b / Weight(k) % 2
  {
    XorBitsAt(a, b, 8, k);
    BitByWeight(a, k);
    BitByWeight(b, k);
    BitByWeight(Xor(a, b), k);
    hide XorBits, Bit, Weight;
  }

  /** In an encoded buffer each bit says whether the byte and the encoded one before it differ there;
      the first byte is compared with 0xcb. */
  lemma EncodedBits(p: seq<byte>, i: nat, k: nat)
    requires i < |p| && k < 8
    ensures var e, w := XorEncode(p, SEED), Weight(k);
            e[i] / w % 2 == 1 <==> p[i] / w % 2 != (if i == 0 then 0xcb else e[i - 1]) / w % 2
  {
    XorEncodeAt(p, SEED, i);
    var e := XorEncode(p, SEED);
    hide Xor, XorEncode, Weight;
    XorDiffers(p[i], if i == 0 then SEED else e[i - 1], k);
  }

  // ---- Numbers -----------------------------------------------------------------------

  /** Bytes as a number, the most significant one first. */
  function Number(s: seq<byte>): nat {
    if s == [] then 0 else Number(s[..|s| - 1]) * 256 + s[|s| - 1]
  }

  lemma NumberOfBytes(a: byte, b: byte, c: byte, d: byte)
    ensures Number([a]) == a && Number([a, b]) == (a as int) * 256 + b
    ensures Number([a, b, c, d]) == (a as int) * 0x100_0000 + (b as int) * 0x1_0000 + (c as int) * 0x100 + d
  {
    assert [a, b, c, d][..3] == [a, b, c] && [a, b, c][..2] == [a, b] && [a, b][..1] == [a] && [a][..0] == [];
    var x: int, y: int, z: int := a, b, c;
    assert Number([a]) == x;
    assert Number([a, b]) == x * 256 + y;
    assert Number([a, b, c]) == (x * 256 + y) * 256 + z;
  }

  lemma {:induction false} NumberJoin(s: seq<byte>, t: seq<byte>)
    requires |t| == 2 || |t| == 4
    ensures Number(s + t) == Number(s) * (if |t| == 2 then 0x1_0000 else 0x1_0000_0000) + Number(t)
  {
    if |t| == 2 {
      NumberJoinTwo(s, t);
    } else {
      NumberJoinTwo(s, t[..2]);
      NumberJoinTwo(s + t[..2], t[2..]);
      NumberJoinTwo(t[..2], t[2..]);
      assert s + t == s + t[..2] + t[2..] && t == t[..2] + t[2..];
    }
  }

  lemma NumberJoinTwo(s: seq<byte>, t: seq<byte>)
    requires |t| == 2
    ensures Number(s + t) == Number(s) * 0x1_0000 + Number(t)
  {
    assert (s + t)[..|s| + 1] == s + [t[0]] && (s + [t[0]])[..|s|] == s;
    assert t[..1] == [t[0]] && [t[0]][..0] == [];
    assert Number([t[0]]) == t[0];
  }

  /** Fields are written with the most significant byte first, negative numbers in two's complement. */
  lemma FieldsAreBigEndian(v: int)
    ensures Number(Be16(v)) == v % 0x1_0000
    ensures Number(Be32(v)) == v % 0x1_0000_0000
    ensures Number(Be64(v)) == v % 0x1_0000_0000_0000_0000
  {
    Two(v);
    Two(v / 0x1_0000);
    NumberJoin(Be16(v / 0x1_0000), Be16(v));
    Four32(v);
    Four32(v / 0x1_0000_0000);
    NumberJoin(Be32(v / 0x1_0000_0000), Be32(v));
    hide Be16, Be32, Number;
    LongWords(v);
  }

  lemma Two(v: int)
    ensures Number(Be16(v)) == v % 0x1_0000
  {
    NumberOfBytes(Be16(v)[0], Be16(v)[1], 0, 0);
    assert Be16(v) == [Be16(v)[0], Be16(v)[1]];
  }

  lemma Four32(v: int)
    ensures Number(Be32(v)) == v % 0x1_0000_0000
  {
    Two(v);
    Two(v / 0x1_0000);
    NumberJoin(Be16(v / 0x1_0000), Be16(v));
    hide Be16, Number;
    ShortWords(v);
  }

  lemma ShortWords(v: int)
    ensures v / 0x1_0000 % 0x1_0000 * 0x1_0000 + v % 0x1_0000 == v % 0x1_0000_0000
  {
  }

  /** The readers take the most significant byte first; signed ones read two's complement. */
  lemma ReadsBigEndian(s: seq<byte>, i: nat)
    requires i + 2 <= |s|
    ensures U16(s, i) == (s[i] as int) * 256 + s[i + 1]
    ensures i + 4 <= |s| ==>
              var v := ((s[i] as int * 256 + s[i + 1]) * 256 + s[i + 2]) * 256 + s[i + 3];
              I32(s, i) == if v < 0x8000_0000 then v else v - 0x1_0000_0000
    ensures i + 8 <= |s| ==>
              var hi := ((s[i] as int * 256 + s[i + 1]) * 256 + s[i + 2]) * 256 + s[i + 3];
              var lo := ((s[i + 4] as int * 256 + s[i + 5]) * 256 + s[i + 6]) * 256 + s[i + 7];
              I64(s, i) == if hi < 0x8000_0000 then hi * 0x1_0000_0000 + lo
                           else hi * 0x1_0000_0000 + lo - 0x1_0000_0000_0000_0000
  {
  }

  // ---- Base64 ------------------------------------------------------------------------

  /** The alphabet of section 5 of RFC 4648, and 0 for every byte outside it. */
  lemma Alphabet(v: nat, c: byte)
    requires v < 64
    ensures Code(v) as char ==
            if v < 26 then 'A' + v as char else if v < 52 then 'a' + (v - 26) as char
            else if v < 62 then '0' + (v - 52) as char else if v == 62 then '-' else '_'
    ensures var l := c as char;
            !('A' <= l <= 'Z' || 'a' <= l <= 'z' || '0' <= l <= '9' || l == '-' || l == '_') ==> Value(c) == 0
  {
  }

  lemma Letters(v: nat)
    requires v < 0x100_0000
    ensures Value(Char0(v)) == v / 0x4_0000 && Value(Char1(v)) == v / 0x1000 % 64
    ensures Value(Char2(v)) == v / 64 % 64 && Value(Char3(v)) == v % 64
  {
    ValueOfCode(v / 0x4_0000 % 64);
    ValueOfCode(v / 0x1000 % 64);
    ValueOfCode(v / 64 % 64);
    ValueOfCode(v % 64);
    hide Code, Value;
  }

  lemma Sixes(v: nat)
    requires v < 0x100_0000
    ensures v / 0x4_0000 * 0x4_0000 + v / 0x1000 % 64 * 0x1000 + v / 64 % 64 * 64 + v % 64 == v
    ensures v % 64 == 0 ==> (v / 0x4_0000 * 0x1000 + v / 0x1000 % 64 * 64 + v / 64 % 64) * 64 == v
    ensures v % 0x1000 == 0 ==> (v / 0x4_0000 * 64 + v / 0x1000 % 64) * 0x1000 == v
  {
  }

  /** The value of up to four letters, the first one in the highest bits. */
  function Joined(t: seq<byte>): nat {
    if t == [] then 0 else Joined(t[..|t| - 1]) * 64 + Value(t[|t| - 1])
  }

  lemma JoinedLetters(a: byte, b: byte, c: byte, d: byte)
    ensures Joined([a]) == Value(a) && Joined([a, b]) == Value(a) * 64 + Value(b)
    ensures Joined([a, b, c]) == Value(a) * 0x1000 + Value(b) * 64 + Value(c)
    ensures Joined([a, b, c, d]) == Value(a) * 0x4_0000 + Value(b) * 0x1000 + Value(c) * 64 + Value(d)
  {
    hide Value;
    assert [a, b, c, d][..3] == [a, b, c] && [a, b, c][..2] == [a, b] && [a, b][..1] == [a] && [a][..0] == [];
    assert Joined([]) == 0;
    assert Joined([a]) == Value(a);
    assert Joined([a, b]) == Value(a) * 64 + Value(b);
    assert Joined([a, b, c]) == (Value(a) * 64 + Value(b)) * 64 + Value(c);
  }

  lemma FourLetters(v: nat)
    requires v < 0x100_0000
    ensures Joined([Char0(v), Char1(v), Char2(v), Char3(v)]) == v
    ensures v % 64 == 0 ==> Joined([Char0(v), Char1(v), Char2(v)]) * 64 == v
    ensures v % 0x1000 == 0 ==> Joined([Char0(v), Char1(v)]) * 0x1000 == v
  {
    Letters(v);
    JoinedLetters(Char0(v), Char1(v), Char2(v), Char3(v));
    hide Joined, Value, Char0, Char1, Char2, Char3;
    Sixes(v);
  }

  lemma ThreeBytes(a: byte, b: byte, c: byte)
    ensures Number([a, b, c]) == Triple(a, b, c) && Number([a, b]) * 256 == Triple(a, b, 0)
    ensures Number([a]) * 0x1_0000 == Triple(a, 0, 0)
  {
    NumberOfBytes(a, b, c, 0);
    assert [a, b, c][..2] == [a, b];
  }

  lemma LowZeros(a: byte, b: byte)
    ensures Triple(a, b, 0) % 64 == 0 && Triple(a, 0, 0) % 0x1000 == 0
  {
  }

  /** Four letters carry the 24 bits of three bytes, the highest first. */
  lemma EncodedGroup(a: byte, b: byte, c: byte, rest: seq<byte>)
    ensures var t := Encode64([a, b, c] + rest);
            |t| >= 4 && Joined(t[..4]) == Number([a, b, c]) && t[4..] == Encode64(rest)
  {
    var s := [a, b, c] + rest;
    var v := Triple(a, b, c);
    assert s[3..] == rest;
    assert Encode64(s) == [Char0(v), Char1(v), Char2(v), Char3(v)] + Encode64(rest) by {
      hide Char0, Char1, Char2, Char3, Triple;
    }
    hide Encode64, Char0, Char1, Char2, Char3, Triple, Joined, Number;
    ThreeBytes(a, b, c);
    FourLetters(v);
  }

  /** A partial group carries its bits in as many letters as they need, filled up with zeros. */
  lemma EncodedTails(a: byte, b: byte)
    ensures |Encode64([a, b])| == 3 && Joined(Encode64([a, b])) == Number([a, b]) * 4
    ensures |Encode64([a])| == 2 && Joined(Encode64([a])) == Number([a]) * 16
    ensures Encode64([]) == []
  {
    var v, w := Triple(a, b, 0), Triple(a, 0, 0);
    assert Encode64([a, b]) == [Char0(v), Char1(v), Char2(v)] && Encode64([a]) == [Char0(w), Char1(w)] by {
      hide Char0, Char1, Char2, Triple;
    }
    LowZeros(a, b);
    ThreeBytes(a, b, 0);
    hide Encode64, Char0, Char1, Char2, Triple, Joined, Number;
    FourLetters(v);
    FourLetters(w);
  }

  lemma BytesOf(v: nat)
    requires v < 0x100_0000
    ensures Number([Byte0(v), Byte1(v), Byte2(v)]) == v
  {
    NumberOfBytes(Byte0(v), Byte1(v), Byte2(v), 0);
    assert [Byte0(v), Byte1(v), Byte2(v)][..2] == [Byte0(v), Byte1(v)];
  }

  lemma QuadIs(a: byte, b: byte, c: byte, d: byte)
    ensures QuadOf(a, b, c, d) == Joined([a, b, c, d]) < 0x100_0000
  {
    JoinedLetters(a, b, c, d);
    hide Value, Joined;
  }

  /** The reader joins the six bits of each letter. */
  lemma DecodedGroup(a: byte, b: byte, c: byte, d: byte, rest: seq<byte>)
    ensures var t := Debase64([a, b, c, d] + rest);
            |t| >= 3 && Number(t[..3]) == Joined([a, b, c, d]) && t[3..] == Debase64(rest)
  {
    var s := [a, b, c, d] + rest;
    var v := QuadOf(a, b, c, d);
    assert s[4..] == rest;
    assert Debase64(s) == [Byte0(v), Byte1(v), Byte2(v)] + Debase64(rest) by {
      hide Value, Byte0, Byte1, Byte2;
    }
    hide Debase64, QuadOf, Joined, Number, Byte0, Byte1, Byte2;
    QuadIs(a, b, c, d);
    BytesOf(v);
  }

  lemma TopBytes(x: nat)
    requires x < 0x4_0000
    ensures Byte0(x * 64) == x / 1024 % 256 && Byte1(x * 64) == x / 4 % 256
  {
  }

  lemma TopByte(x: nat)
    requires x < 0x1000
    ensures Byte0(x * 64 * 64) == x / 16 % 256
  {
  }

  lemma DebaseShort(t: seq<byte>)
    requires 1 <= |t| <= 3
    ensures |t| == 3 ==> var v := QuadOf(t[0], t[1], t[2], PAD); Debase64(t) == [Byte0(v), Byte1(v)]
    ensures |t| < 3 ==> Debase64(t) == [Byte0(QuadOf(t[0], if |t| > 1 then t[1] else PAD, PAD, PAD))]
  {
    hide QuadOf, Byte0, Byte1, Value;
  }

  lemma TailQuads(a: byte, b: byte, c: byte)
    ensures QuadOf(a, b, c, PAD) == Joined([a, b, c]) * 64 && Joined([a, b, c]) < 0x4_0000
    ensures QuadOf(a, b, PAD, PAD) == Joined([a, b]) * 64 * 64 && Joined([a, b]) < 0x1000
    ensures QuadOf(a, PAD, PAD, PAD) == Value(a) * 64 * 64 * 64
  {
    JoinedLetters(a, b, c, 0);
    PadIsZero();
    hide Value, Joined;
  }

  lemma PadIsZero()
    ensures Value(PAD) == 0
  {
  }

  /** It keeps the whole bytes of a partial group. */
  lemma DecodedTails(a: byte, b: byte, c: byte)
    ensures Debase64([a, b, c]) == [Joined([a, b, c]) / 1024 % 256, Joined([a, b, c]) / 4 % 256]
    ensures Debase64([a, b]) == [Joined([a, b]) / 16 % 256]
    ensures Debase64([a]) == [Value(a) * 4]
  {
    hide Value, Joined, Debase64, QuadOf, Byte0, Byte1;
    DebaseShort([a, b, c]);
    DebaseShort([a, b]);
    DebaseShort([a]);
    TailQuads(a, b, c);
    TopBytes(Joined([a, b, c]));
    TopByte(Joined([a, b]));
    TopByte(Value(a) * 64);
  }

  // ---- Items -------------------------------------------------------------------------

  /** The code of each kind of event. */
  lemma MagicNumbers(item: Item)
    ensures match item
            case Init(_) => Magic(item) == 0x502
            case ToolBar(_, _) => Magic(item) == 0x102
            case Time(_) => Magic(item) == 0x1502
            case Browser(_, _, _) => Magic(item) == 0x402
            case PageToken(_) => Magic(item) == 0x1602
            case Verify(_, _, _) => Magic(item) == 0x1702
            case PcMac(_) => Magic(item) == 0x1002
            case Location(_, _) => Magic(item) == 0x1302
            case ScreenInfo(_) => Magic(item) == 0x602
            case TestUtils(_) => Magic(item) == 0x702
            case MouseMove(_, _, _, _) => Magic(item) == 0x802
            case MouseDown(_, _, _, _, _, _, _) => Magic(item) == 0x902
            case Focus(_, _) => Magic(item) == 0xd02
            case KeyDown(_, _, _, _, _) => Magic(item) == 0xc02
            case Other(magic, _) => Magic(item) == magic % 0x1_0000
  {
  }

  /** Events of fixed size: when they are accepted, and where their fields lie. */
  lemma FixedItems(d: seq<byte>)
    ensures DecodeItem(0x502, d) == if |d| >= 4 then Some(Init(I32(d, 0))) else None
    ensures DecodeItem(0x702, d) == if |d| >= 4 then Some(TestUtils(I32(d, 0))) else None
    ensures DecodeItem(0x102, d) == if |d| >= 6 then Some(ToolBar(d[1], I32(d, 2))) else None
    ensures DecodeItem(0x1502, d) == if |d| >= 8 then Some(Time(I64(d, 0))) else None
    ensures DecodeItem(0x1002, d) == if |d| >= 1 then Some(PcMac(d[0])) else None
    ensures |d| < 40 ==> DecodeItem(0x602, d) == None
    ensures |d| >= 40 ==>
              DecodeItem(0x602, d) ==
              Some(ScreenInfo([I32(d, 0), I32(d, 4), I32(d, 8), I32(d, 12), I32(d, 16),
                               I32(d, 20), I32(d, 24), I32(d, 28), I32(d, 32), I32(d, 36)]))
  {
    if |d| >= 40 {
      TenWords(d);
    }
  }

  lemma {:induction false} WordsAt(d: seq<byte>, n: nat, k: nat)
    requires 4 * n <= |d| && k < n
    ensures ReadWords32(d, n)[k] == I32(d, 4 * k)
    decreases k
  {
    if k > 0 {
      WordsAt(d[4..], n - 1, k - 1);
    }
  }

  lemma TenWords(d: seq<byte>)
    requires |d| >= 40
    ensures ReadWords32(d, 10) == [I32(d, 0), I32(d, 4), I32(d, 8), I32(d, 12), I32(d, 16),
                                   I32(d, 20), I32(d, 24), I32(d, 28), I32(d, 32), I32(d, 36)]
  {
    forall k | 0 <= k < 10 ensures ReadWords32(d, 10)[k] == I32(d, 4 * k) {
      WordsAt(d, 10, k);
    }
    hide ReadWords32, I32;
  }

  /** Events with one or two strings, whose lengths come first. */
  lemma StringItems(d: seq<byte>)
    ensures DecodeItem(0x402, d) == if |d| >= 4 then Some(Browser(d[0], d[3], d[4..])) else None
    ensures DecodeItem(0x1602, d) == if |d| >= 1 && |d| - 1 >= d[0] then Some(PageToken(d[1..1 + d[0]])) else None
    ensures DecodeItem(0x1702, d) ==
            if |d| >= 5 && |d| - 5 >= U16(d, 3) then Some(Verify(d[0], U16(d, 1), d[5..5 + U16(d, 3)])) else None
    ensures DecodeItem(0x1302, d) ==
            if |d| >= 4 && |d| - 4 >= U16(d, 0) + U16(d, 2)
            then Some(Location(d[4..4 + U16(d, 0)], d[4 + U16(d, 0)..4 + U16(d, 0) + U16(d, 2)])) else None
    ensures DecodeItem(0xd02, d) ==
            if |d| >= 5 && |d| - 5 >= d[4] then Some(Focus(d[5..5 + d[4]], I32(d, 0))) else None
  {
  }

  /** Events of mouse and keyboard. */
  lemma InputItems(d: seq<byte>)
    ensures DecodeItem(0x802, d) ==
            if |d| >= 9 && |d| - 9 >= d[0] then Some(MouseMove(d[9..9 + d[0]], U16(d, 1), U16(d, 3), I32(d, 5))) else None
    ensures DecodeItem(0xc02, d) ==
            if |d| >= 7 && |d| - 7 >= d[0] then Some(KeyDown(d[7..7 + d[0]], d[1], d[2], I32(d, 3), d[7 + d[0]..])) else None
    ensures |d| < 12 || (d[11] != 0 && |d| < 20) ==> DecodeItem(0x902, d) == None
    ensures |d| >= 12 && (d[11] != 0 ==> |d| >= 20) ==>
              var i, n: nat, m: nat := if d[11] == 0 then 12 else 20, d[0], d[6];
              DecodeItem(0x902, d) ==
              if |d| - i < n + m then None
              else Some(MouseDown(d[i..i + n], U16(d, 1), U16(d, 3), d[5], d[i + n..i + n + m], I32(d, 7),
                                  if d[11] == 0 then None
                                  else Some(Rect(U16(d, 12), U16(d, 14), U16(d, 16), U16(d, 18)))))
  {
  }

  /** Bytes that the builders write and nobody reads. */
  lemma FillerBytes(item: Item)
    requires InRange(item)
    ensures item.ToolBar? ==> Payload(item)[0] == 0
    ensures item.Browser? ==> |Payload(item)| >= 4 && Payload(item)[1] == 0 == Payload(item)[2]
  {
  }

  // ---- Packets -----------------------------------------------------------------------

  lemma EncodedFields(magic: seq<byte>, payload: seq<byte>)
    requires |magic| == 2
    ensures var e := EncodeItem(magic + payload);
            e[..2] == magic && e[2..4] == Be16(|payload|) && e[4..] == XorEncode(payload, SEED)
  {
    EncodedShape(magic, payload);
    hide EncodeItem, XorEncode, Be16;
    ThreePieces(magic, Be16(|payload|), XorEncode(payload, SEED));
  }

  lemma ThreePieces(a: seq<byte>, b: seq<byte>, c: seq<byte>)
    requires |a| == 2 && |b| == 2
    ensures var s := a + (b + c); s[..2] == a && s[2..4] == b && s[4..] == c
  {
  }

  lemma EncodedNumbers(magic: nat, payload: seq<byte>)
    requires magic < 0x1_0000
    ensures var e := EncodeItem(Be16(magic) + payload);
            && |e| == 4 + |payload| && Number(e[..2]) == magic && Number(e[2..4]) == |payload| % 0x1_0000
            && e[4..] == XorEncode(payload, 0xcb)
  {
    EncodedFields(Be16(magic), payload);
    Two(magic);
    Two(|payload|);
    hide EncodeItem, Number, Be16, XorEncode;
  }

  /** One event in the stream: code, length, and the payload, encoded. */
  lemma EncodedItem(item: Item)
    ensures var e, n := EncodeItem(Data(item)), |Payload(item)|;
            && |e| == 4 + n && Number(e[..2]) == Magic(item) && Number(e[2..4]) == n % 0x1_0000
            && e[4..] == XorEncode(Payload(item), 0xcb)
  {
    hide EncodeItem, Number, Be16, XorEncode, Payload, Magic;
    EncodedNumbers(Magic(item), Payload(item));
  }

  /** The stream and the deque, from their first event and their last push on. */
  lemma StreamAndDequeOrder(item: Item, items: seq<Item>, ps: seq<Push>)
    ensures Stream([]) == [] && Stream([item] + items) == EncodeItem(Data(item)) + Stream(items)
    ensures Deque([]) == [] && Deque(ps + [Push(item, true)]) == [item] + Deque(ps)
    ensures Deque(ps + [Push(item, false)]) == Deque(ps) + [item]
  {
    assert ([item] + items)[1..] == items;
    assert (ps + [Push(item, true)])[..|ps|] == ps && (ps + [Push(item, false)])[..|ps|] == ps;
  }

  /** The sum over the bytes that checks a stream. */
  lemma ChecksumSteps(s: seq<byte>, b: byte)
    ensures Checksum([]) == 0x21
    ensures Checksum(s + [b]) == (Checksum(s) as int + b) % 256
  {
    assert (s + [b])[..|s|] == s;
    var sum: int := SumBytes(s);
    assert SumBytes(s + [b]) == sum + b;
    hide SumBytes;
    SumMod(sum, b);
  }

  lemma SumMod(sum: int, b: int)
    ensures (0x21 + (sum + b)) % 256 == ((0x21 + sum) % 256 + b) % 256
  {
  }

  /** The sixteen bytes of a header. */
  lemma HeaderBytes(cs: int, av: int, bol: int, pc: int)
    requires IsU16(cs) && IsU16(av) && IsU16(bol) && IsU16(pc)
    ensures Header(cs, av, bol, pc) ==
            [0, 0xa, cs / 256, cs % 256, av / 256, av % 256, bol / 256, bol % 256, pc / 256, pc % 256,
             0, 0, 0, 0x5d, 0x34, 0]
  {
  }

  /** What the reader accepts as the head of a packet, and the number of events it takes from it. */
  lemma HeadAcceptedIff(d: seq<byte>)
    ensures DecodeHead(d).Some? <==>
            && |d| >= 19 && d[0] == 48 && d[1] == 49 && d[2] == 48
            && d[3] == 0 && d[4] == 0xa && d[7] == 0 && d[8] == 0xa && d[16] == 0x5d && d[17] == 0x34
            && 19 + (d[9] as int) * 256 + d[10] <= |d|
            && (d[5] as int) * 256 + d[6] == Checksum(d[19..19 + (d[9] as int) * 256 + d[10]])
    ensures DecodeHead(d).Some? ==> DecodeHead(d).value == (d[11] as int) * 256 + d[12]
  {
    if |d| >= 19 {
      assert d[..3] == [d[0], d[1], d[2]];
      hide Checksum;
    }
  }

  /** A stream whose sum is not the one in the header is rejected. */
  lemma WrongSumRejected(cs: byte, s: seq<byte>, pc: int)
    requires |s| < 0x1_0000 && IsU16(pc) && cs != Checksum(s)
    ensures DecodeHead(MARK + (Header(cs, 0xa, |s|, pc) + s)) == None
  {
    var h := Header(cs, 0xa, |s|, pc);
    var d := MARK + (h + s);
    HeaderBytes(cs, 0xa, |s|, pc);
    hide Header, DecodeHead, Checksum;
    assert d[5] == h[2] && d[6] == h[3] && d[9] == h[6] && d[10] == h[7];
    assert d[19..19 + |s|] == s;
    HeadAcceptedIff(d);
  }

  lemma ChangedByte(s: seq<byte>, i: nat, x: byte)
    requires i < |s| && x != s[i]
    ensures Checksum(s[i := x]) != Checksum(s)
  {
    assert s == s[..i] + [s[i]] + s[i + 1..] && s[i := x] == s[..i] + [x] + s[i + 1..];
    ChecksumSeesOneByte(s[..i], s[i], x, s[i + 1..]);
    hide Checksum;
  }

  /** A packet in which one byte of the stream was changed is rejected. */
  lemma CorruptedStreamRejected(items: seq<Item>, i: nat, x: byte)
    requires items != [] && StreamSize(items) < 0x1_0000 && i < |Stream(items)| && x != Stream(items)[i]
    ensures DecodePacket(MARK + (HeaderOf(items) + Stream(items)[i := x])) == None
  {
    var s := Stream(items);
    var s' := s[i := x];
    StreamSizeIs(items);
    StreamIsLong(items);
    hide Stream, Checksum, StreamSize, Header, DecodeHead;
    ChangedByte(s, i, x);
    WrongSumRejected(Checksum(s), s', |items|);
  }
}
