/** The bytes of UTF-8 (section 3 of RFC 3629) and the tables of pcs/utf8.c, apart from decoding undoing
    encoding; and what decoding does to bytes that no encoder writes. */
module Utf8Laws {
  import opened Wrappers
  import opened Utf8Char
  import opened Utf8Strings

  predicate Continues(b: byte) { 0x80 <= b <= 0xBF }

  /** The shortest form: lead byte, continuation bytes, and the bits they hold. */
  lemma EncodedBytes(ch: nat)
    ensures var bs := EncodeChar(ch);
            if ch < 0x80 then bs == [ch]
            else if ch < 0x800 then
              |bs| == 2 && 0xC2 <= bs[0] <= 0xDF && Continues(bs[1]) && (bs[0] as int - 0xC0) * 64 + (bs[1] as int - 0x80) == ch
            else if ch < 0x1_0000 then
              |bs| == 3 && 0xE0 <= bs[0] <= 0xEF && Continues(bs[1]) && Continues(bs[2]) &&
              ((bs[0] as int - 0xE0) * 64 + (bs[1] as int - 0x80)) * 64 + (bs[2] as int - 0x80) == ch
            else if ch < 0x11_0000 then
              |bs| == 4 && 0xF0 <= bs[0] <= 0xF4 && Continues(bs[1]) && Continues(bs[2]) && Continues(bs[3]) &&
              (((bs[0] as int - 0xF0) * 64 + (bs[1] as int - 0x80)) * 64 + (bs[2] as int - 0x80)) * 64 + (bs[3] as int - 0x80) == ch
            else bs == []
  {
    SixBits(ch);
  }

  lemma SixBits(ch: nat)
    ensures ch / 64 * 64 + ch % 64 == ch
    ensures ch / 4096 * 64 + ch / 64 % 64 == ch / 64
    ensures ch / 262144 * 64 + ch / 4096 % 64 == ch / 4096
  {
  }

  /** The table of lengths: one more trailing byte for every further leading one bit. */
  lemma TrailingCounts(b: byte)
    ensures Trailing(b) >= 1 <==> b >= 0xC0
    ensures Trailing(b) >= 2 <==> b >= 0xE0
    ensures Trailing(b) >= 3 <==> b >= 0xF0
    ensures Trailing(b) >= 4 <==> b >= 0xF8
    ensures Trailing(b) >= 5 <==> b >= 0xFC
    ensures IsUtf(b) <==> !Continues(b)
  {
  }

  /** Continuation bytes without any bits of their own. */
  function Marks(n: nat): seq<byte> { seq(n, _ => 0x80) }

  lemma {:induction false} ShiftedStep(bs: seq<byte>, b: byte)
    ensures Shifted([]) == 0 && Shifted(bs + [b]) == Shifted(bs) * 64 + b
  {
    assert (bs + [b])[..|bs|] == bs;
  }

  /** The table of offsets: what the marker bits of a lead byte and its trailing bytes add up to. */
  lemma MarkerSums(n: nat)
    requires n <= 5
    ensures var lead := [0, 0xC0, 0xE0, 0xF0, 0xF8, 0xFC][n];
            MarkerSum(n) == Shifted([lead] + Marks(n)) % 0x1_0000_0000
  {
    var lead: byte := [0, 0xC0, 0xE0, 0xF0, 0xF8, 0xFC][n];
    var s0: seq<byte> := [lead];
    ShiftedStep([], lead);
    assert [] + s0 == s0;
    ShiftedStep(s0, 0x80);
    ShiftedStep(s0 + [0x80], 0x80);
    ShiftedStep(s0 + [0x80] + [0x80], 0x80);
    ShiftedStep(s0 + [0x80] + [0x80] + [0x80], 0x80);
    ShiftedStep(s0 + [0x80] + [0x80] + [0x80] + [0x80], 0x80);
    hide Shifted;
    if n == 0 {
      assert s0 + Marks(0) == s0;
    } else if n == 1 {
      assert s0 + Marks(1) == s0 + [0x80];
    } else if n == 2 {
      assert s0 + Marks(2) == s0 + [0x80] + [0x80];
    } else if n == 3 {
      assert s0 + Marks(3) == s0 + [0x80] + [0x80] + [0x80];
    } else if n == 4 {
      assert s0 + Marks(4) == s0 + [0x80] + [0x80] + [0x80] + [0x80];
    } else {
      assert s0 + Marks(5) == s0 + [0x80] + [0x80] + [0x80] + [0x80] + [0x80];
    }
  }

  /** A text that ends inside a character is decoded up to there. */
  lemma CutCharacterEnds(s: seq<byte>, room: nat)
    requires s != [] && Trailing(s[0]) >= |s|
    ensures Ucs(s, room) == []
  {
  }

  /** On a lead byte above 0xF7 the decoder makes no step: it fills all the room with one value. */
  lemma {:induction false} LongLeadFills(s: seq<byte>, room: nat)
    requires s != [] && s[0] >= 0xF8 && Trailing(s[0]) < |s|
    ensures |Ucs(s, room)| == room
    ensures forall k | 0 <= k < room :: Ucs(s, room)[k] == if s[0] < 0xFC then 0x05F7DF80 else 0x7DF7DF80
    decreases room
  {
    if room > 0 {
      assert s[0..] == s && s[..0] == [];
      LongLeadFills(s, room - 1);
    }
  }
}
