/** Conversion between UTF-8 and code points, and moving over UTF-8 text (pcs/utf8.c). */
module Utf8Strings {
  import opened Wrappers
  import opened Utf8Char

  /** A wide character read as an unsigned 32-bit value. */
  type wide = w: int | 0 <= w < 0x1_0000_0000

  /** The encodings of all code points in a row; values above the Unicode range are skipped. */
  function EncodeAll(ws: seq<wide>): seq<byte> {
    if ws == [] then [] else EncodeAll(ws[..|ws| - 1]) + EncodeChar(ws[|ws| - 1])
  }

  predicate Unicode(ws: seq<wide>) { forall k | 0 <= k < |ws| :: ws[k] < MAX_CODE }

  // ---- Characters --------------------------------------------------------------------

  /** Whether a byte starts a character, or is the terminator. */
  predicate IsUtf(b: byte) { !(0x80 <= b < 0xC0) }

  /** How many bytes the first byte of a character announces. */
  function Trailing(b: byte): (n: nat)
    ensures n <= 5
  {
    if b < 0xC0 then 0 else if b < 0xE0 then 1 else if b < 0xF0 then 2 else if b < 0xF8 then 3
    else if b < 0xFC then 4 else 5
  }

  function Shifted(bs: seq<byte>): nat {
    if bs == [] then 0 else Shifted(bs[..|bs| - 1]) * 64 + bs[|bs| - 1]
  }

  /** What the markers of a character with `n` trailing bytes add up to. */
  function MarkerSum(n: nat): wide
    requires n <= 5
  {
    if n == 0 then 0 else if n == 1 then 0x3080 else if n == 2 then 0xE2080 else if n == 3 then 0x3C82080
    else if n == 4 then 0xFA082080 else 0x82082080
  }

  /** The value of a character's bytes, as 32-bit arithmetic leaves it. */
  function Decode(bs: seq<byte>, n: nat): wide
    requires n <= 5
  {
    (Shifted(bs) - MarkerSum(n)) % 0x1_0000_0000
  }

  lemma Shifted1(a: byte)
    ensures Shifted([a]) == a
  {
    assert Shifted([]) == 0;
  }

  lemma Shifted2(a: byte, b: byte)
    ensures Shifted([a, b]) == a * 64 + b
  {
    assert [a, b][..1] == [a];
    Shifted1(a);
  }

  lemma Shifted3(a: byte, b: byte, c: byte)
    ensures Shifted([a, b, c]) == (a * 64 + b) * 64 + c
  {
    assert [a, b, c][..2] == [a, b];
    Shifted2(a, b);
  }

  lemma Shifted4(a: byte, b: byte, c: byte, d: byte)
    ensures Shifted([a, b, c, d]) == ((a * 64 + b) * 64 + c) * 64 + d
  {
    assert [a, b, c, d][..3] == [a, b, c];
    Shifted3(a, b, c);
  }

  lemma Digits(w: nat)
    ensures w == w / 64 * 64 + w % 64
    ensures w / 64 == w / 4096 * 64 + w / 64 % 64
    ensures w / 4096 == w / 262144 * 64 + w / 4096 % 64
  {
    assert w / 4096 == w / 64 / 64;
    assert w / 262144 == w / 64 / 64 / 64;
  }

  lemma CharDecodes(w: wide)
    requires w < MAX_CODE
    ensures Shifted(EncodeChar(w)) == w + MarkerSum(|EncodeChar(w)| - 1)
  {
    hide Shifted;
    Digits(w);
    var bs := EncodeChar(w);
    if w < 0x80 {
      Shifted1(bs[0]);
    } else if w < 0x800 {
      Shifted2(bs[0], bs[1]);
    } else if w < 0x10000 {
      Shifted3(bs[0], bs[1], bs[2]);
    } else {
      Shifted4(bs[0], bs[1], bs[2], bs[3]);
    }
  }

  lemma CharStarts(w: wide)
    requires w < MAX_CODE
    ensures var bs := EncodeChar(w);
            1 <= |bs| <= 4 && Trailing(bs[0]) == |bs| - 1 && IsUtf(bs[0])
    ensures forall k | 1 <= k < |EncodeChar(w)| :: !IsUtf(EncodeChar(w)[k])
    ensures w > 0 ==> 0 !in EncodeChar(w)
  {
  }

  /** An encoded code point announces its length, only its first byte starts a character, and it
      decodes to the code point. */
  lemma CharRoundTrip(w: wide)
    requires w < MAX_CODE
    ensures var bs := EncodeChar(w); var n := |bs| - 1;
            1 <= |bs| <= 4 && Trailing(bs[0]) == n && IsUtf(bs[0]) && Decode(bs, n) == w
    ensures forall k | 1 <= k < |EncodeChar(w)| :: !IsUtf(EncodeChar(w)[k])
    ensures w > 0 ==> 0 !in EncodeChar(w)
  {
    hide EncodeChar, Shifted, MarkerSum, IsUtf, Trailing;
    CharStarts(w);
    CharDecodes(w);
  }

  // ---- Strings -----------------------------------------------------------------------

  lemma EncodeEnd(ws: seq<wide>, w: wide)
    ensures EncodeAll([]) == []
    ensures EncodeAll(ws + [w]) == EncodeAll(ws) + EncodeChar(w)
  {
    hide EncodeChar;
    assert (ws + [w])[..|ws|] == ws;
  }

  lemma {:induction false} EncodeAppend(a: seq<wide>, b: seq<wide>)
    ensures EncodeAll(a + b) == EncodeAll(a) + EncodeAll(b)
  {
    hide *;
    EncodeEnd([], 0);
    if b == [] {
      assert a + b == a;
    } else {
      var n := |b| - 1;
      EncodeAppend(a, b[..n]);
      EncodeEnd(a + b[..n], b[n]);
      EncodeEnd(b[..n], b[n]);
      assert a + b == (a + b[..n]) + [b[n]] && b == b[..n] + [b[n]];
      Regroup(EncodeAll(a), EncodeAll(b[..n]), EncodeChar(b[n]));
    }
  }

  lemma EncodeFront(ws: seq<wide>)
    requires ws != []
    ensures EncodeAll(ws) == EncodeChar(ws[0]) + EncodeAll(ws[1..])
  {
    hide *;
    EncodeEnd([], ws[0]);
    assert [] + [ws[0]] == [ws[0]];
    EncodeAppend([ws[0]], ws[1..]);
    assert ws == [ws[0]] + ws[1..];
  }

  lemma EncodeNext(ws: seq<wide>, k: nat)
    requires k < |ws|
    ensures EncodeAll(ws[..k + 1]) == EncodeAll(ws[..k]) + EncodeChar(ws[k])
  {
    hide *;
    EncodeEnd(ws[..k], ws[k]);
    assert ws[..k + 1] == ws[..k] + [ws[k]];
  }

  /** The encoding, cut before one character. */
  lemma Around(ws: seq<wide>, k: nat)
    requires k < |ws|
    ensures EncodeAll(ws) == EncodeAll(ws[..k]) + (EncodeChar(ws[k]) + EncodeAll(ws[k + 1..]))
  {
    hide *;
    var a, b := ws[..k], ws[k..];
    assert ws == a + b;
    EncodeAppend(a, b);
    EncodeFront(b);
    assert b[1..] == ws[k + 1..];
  }

  /** u8_toucs on bytes that end at a known place, into `room` wide characters. A character that is
      cut off ends the conversion; a byte that announces four or five more is never passed. */
  function Ucs(s: seq<byte>, room: nat): (ws: seq<wide>)
    ensures |ws| <= room
    decreases room
  {
    if room == 0 || s == [] || Trailing(s[0]) >= |s| then [] else
      var n := Trailing(s[0]);
      var used := if n <= 3 then n + 1 else 0;
      [Decode(s[..used], n)] + Ucs(s[used..], room - 1)
  }

  /** None of the first `room` characters is cut off. */
  predicate Complete(s: seq<byte>, room: nat)
    decreases room
  {
    room == 0 || s == [] ||
    (Trailing(s[0]) < |s| && Complete(s[if Trailing(s[0]) <= 3 then Trailing(s[0]) + 1 else 0..], room - 1))
  }

  lemma UcsStep(s: seq<byte>, room: nat, n: nat)
    requires room > 0 && s != [] && Trailing(s[0]) == n < |s| && n <= 3
    ensures Ucs(s, room) == [Decode(s[..n + 1], n)] + Ucs(s[n + 1..], room - 1)
    ensures Complete(s, room) <==> Complete(s[n + 1..], room - 1)
  {
    hide Decode, Trailing;
  }

  lemma CutFront(c: seq<byte>, rest: seq<byte>)
    requires c != []
    ensures var s := c + rest; s[0] == c[0] && s[..|c|] == c && s[|c|..] == rest
  {
  }

  /** The converter takes one encoded character off the front. */
  lemma UcsFront(w: wide, rest: seq<byte>, room: nat)
    requires w < MAX_CODE && room > 0
    ensures Ucs(EncodeChar(w) + rest, room) == [w] + Ucs(rest, room - 1)
    ensures Complete(EncodeChar(w) + rest, room) <==> Complete(rest, room - 1)
  {
    hide *;
    CharRoundTrip(w);
    var c := EncodeChar(w);
    CutFront(c, rest);
    UcsStep(c + rest, room, |c| - 1);
  }

  /** Decoding an encoding gives back the code points, as many as there is room for. */
  lemma {:induction false} UcsRoundTrip(ws: seq<wide>, room: nat)
    requires Unicode(ws)
    ensures Ucs(EncodeAll(ws), room) == ws[..Min(room, |ws|)] && Complete(EncodeAll(ws), room)
    decreases room
  {
    if room > 0 && ws != [] {
      hide EncodeChar, EncodeAll, Ucs, Complete;
      EncodeFront(ws);
      UcsFront(ws[0], EncodeAll(ws[1..]), room);
      UcsRoundTrip(ws[1..], room - 1);
      FrontOf(ws, room);
    }
  }

  lemma FrontOf(ws: seq<wide>, room: nat)
    requires room > 0 && ws != []
    ensures [ws[0]] + ws[1..][..Min(room - 1, |ws| - 1)] == ws[..Min(room, |ws|)]
  {
  }

  // ---- Conversions -------------------------------------------------------------------

  /** The terminator follows the bytes. */
  function ByteAt(s: seq<byte>, i: nat): byte { if i < |s| then s[i] else 0 }

  /** u8_wc_toutf8: the bytes of one character, and how many there are. */
  method U8WcToUtf8(dest: array<byte>, d: nat, ch: wide) returns (n: nat)
    requires d + CharSize(ch) <= dest.Length
    modifies dest
    ensures n == CharSize(ch) && dest[..d + n] == old(dest[..d]) + EncodeChar(ch)
    ensures dest[d + n..] == old(dest[d + n..])
  {
    if ch < 0x80 {
      dest[d] := ch;
      return 1;
    }
    if ch < 0x800 {
      dest[d], dest[d + 1] := 0xC0 + ch / 64, 0x80 + ch % 64;
      return 2;
    }
    if ch < 0x10000 {
      dest[d], dest[d + 1], dest[d + 2] := 0xE0 + ch / 4096, 0x80 + ch / 64 % 64, 0x80 + ch % 64;
      return 3;
    }
    if ch < 0x110000 {
      dest[d], dest[d + 1], dest[d + 2], dest[d + 3] :=
        0xF0 + ch / 262144, 0x80 + ch / 4096 % 64, 0x80 + ch / 64 % 64, 0x80 + ch % 64;
      return 4;
    }
    return 0;
  }

  /** The wide characters a conversion is given: up to the terminator, or a counted number. */
  function Given(src: seq<wide>, srcsz: int): seq<wide>
    requires srcsz <= |src|
  {
    if srcsz < 0 then src else src[..srcsz]
  }

  predicate More(src: seq<wide>, srcsz: int, i: nat) {
    if srcsz < 0 then i < |src| && src[i] != 0 else i < srcsz
  }

  /** u8_toutf8: a prefix of whole characters, as long as the buffer allows, and the terminator only
      when everything fits with a byte to spare. */
  method U8ToUtf8(dest: array<byte>, sz: nat, src: seq<wide>, srcsz: int) returns (i: nat)
    requires sz <= dest.Length && srcsz <= |src| && (srcsz < 0 ==> 0 !in src)
    modifies dest
    ensures var ws := Given(src, srcsz);
            && i <= |ws| && |EncodeAll(ws[..i])| <= sz && (i < |ws| ==> sz < |EncodeAll(ws[..i + 1])|)
            && dest[..|EncodeAll(ws[..i])|] == EncodeAll(ws[..i])
            && (i == |ws| && |EncodeAll(ws)| < sz ==> dest[|EncodeAll(ws)|] == 0)
  {
    hide EncodeChar;
    ghost var ws := Given(src, srcsz);
    i := 0;
    var d: nat := 0;
    while More(src, srcsz, i)
      invariant i <= |ws| && d <= sz && dest[..d] == EncodeAll(ws[..i])
      decreases |ws| - i
    {
      var ch := src[i];
      EncodeNext(ws, i);
      if d + CharSize(ch) > sz {
        return;
      }
      var n := U8WcToUtf8(dest, d, ch);
      d, i := d + n, i + 1;
    }
    assert ws[..i] == ws;
    if d < sz {
      dest[d] := 0;
    }
  }

  /** u8_size: exactly the bytes of the encoding. */
  method U8Size(src: seq<wide>, srcsz: int) returns (sz: nat)
    requires srcsz <= |src| && (srcsz < 0 ==> 0 !in src)
    ensures sz == |EncodeAll(Given(src, srcsz))|
  {
    hide EncodeChar;
    ghost var ws := Given(src, srcsz);
    var i := 0;
    sz := 0;
    while More(src, srcsz, i)
      invariant i <= |ws| && sz == |EncodeAll(ws[..i])|
      decreases |ws| - i
    {
      EncodeNext(ws, i);
      var ch := src[i];
      if ch < 0x80 {
        sz := sz + 1;
      } else if ch < 0x800 {
        sz := sz + 2;
      } else if ch < 0x10000 {
        sz := sz + 3;
      } else if ch < 0x110000 {
        sz := sz + 4;
      }
      i := i + 1;
    }
    assert ws[..i] == ws;
  }

  lemma Extend(a: seq<wide>, x: wide, b: seq<wide>)
    ensures a + ([x] + b) == (a + [x]) + b
  {
  }

  /** One round of u8_toucs at position `p` of `s`. */
  lemma UcsAt(s: seq<byte>, p: nat, room: nat)
    requires p <= |s| && room > 0
    ensures var nb := Trailing(ByteAt(s, p));
            if p == |s| || p + nb >= |s| then Ucs(s[p..], room) == []
            else
              var used := if nb <= 3 then nb + 1 else 0;
              Ucs(s[p..], room) == [Decode(s[p..p + used], nb)] + Ucs(s[p + used..], room - 1) &&
              (Complete(s[p..], room) ==> Complete(s[p + used..], room - 1))
    ensures p < |s| && Complete(s[p..], room) ==> p + Trailing(s[p]) < |s|
  {
    hide Trailing, Decode;
    if p < |s| {
      var nb := Trailing(s[p]);
      if p + nb < |s| {
        var used := if nb <= 3 then nb + 1 else 0;
        assert s[p..][used..] == s[p + used..] && s[p..][..used] == s[p..p + used];
      }
    }
  }

  /** u8_toucs. The byte after the source is looked at; with a terminator no character may be cut off. */
  method U8ToUcs(dest: array<wide>, sz: nat, src: seq<byte>, srcsz: int) returns (i: nat)
    requires sz <= dest.Length && dest.Length > 0 && -1 <= srcsz <= |src|
    requires srcsz == -1 ==> 0 !in src && Complete(src, if sz == 0 then 0 else sz - 1)
    modifies dest
    ensures var out := Ucs(if srcsz == -1 then src else src[..srcsz], if sz == 0 then 0 else sz - 1);
            i == |out| < dest.Length && dest[..i] == out && dest[i] == 0
  {
    hide Trailing, Decode, Ucs, Complete;
    ghost var s := if srcsz == -1 then src else src[..srcsz];
    ghost var room: nat := if sz == 0 then 0 else sz - 1;
    i := ConvertAll(dest, sz, src, srcsz, s, room);
    dest[i] := 0;
  }

  /** Its loop. */
  method ConvertAll(dest: array<wide>, sz: nat, src: seq<byte>, srcsz: int, ghost s: seq<byte>, ghost room: nat)
    returns (i: nat)
    requires sz <= dest.Length && dest.Length > 0 && -1 <= srcsz <= |src|
    requires s == if srcsz == -1 then src else src[..srcsz]
    requires room == if sz == 0 then 0 else sz - 1
    requires srcsz == -1 ==> 0 !in src && Complete(src, room)
    modifies dest
    ensures i == |Ucs(s, room)| && dest[..i] == Ucs(s, room)
  {
    hide Trailing, Decode, Ucs, Complete;
    ghost var all := Ucs(s, room);
    var p: nat := 0;
    i := 0;
    assert s[0..] == s && dest[..0] + all == all;
    while i + 1 < sz
      invariant p <= |s| && i <= room && dest[..i] + Ucs(s[p..], room - i) == all
      invariant srcsz == -1 ==> Complete(s[p..], room - i)
    {
      UcsAt(s, p, room - i);
      var nb := Trailing(ByteAt(src, p));
      if srcsz == -1 {
        if ByteAt(src, p) == 0 {
          assert dest[..i] + [] == dest[..i];
          return;
        }
      } else if p + nb >= srcsz {
        assert dest[..i] + [] == dest[..i];
        return;
      }
      var used := if nb <= 3 then nb + 1 else 0;
      assert p + used <= |s| && s[p..p + used] == src[p..p + used];
      Extend(dest[..i], Decode(s[p..p + used], nb), Ucs(s[p + used..], room - i - 1));
      ghost var before := dest[..i];
      dest[i] := Decode(src[p..p + used], nb);
      assert dest[..i + 1] == before + [dest[i]];
      p, i := p + used, i + 1;
    }
    NoRoom(s[p..]);
    assert dest[..i] + [] == dest[..i];
  }

  lemma NoRoom(s: seq<byte>)
    ensures Ucs(s, 0) == []
  {
  }
}
