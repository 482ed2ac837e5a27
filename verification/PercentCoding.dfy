/** URL percent-encoding and decoding (common.c), section 2.1 of RFC 3986. */
module PercentCoding {
  import opened Wrappers

  predicate IsHex(c: text) { IsDigit(c) || 'a' <= c <= 'f' || 'A' <= c <= 'F' }

  /** The macro HEXTOI, on a digit in lower case. */
  function HexToI(c: text): (v: nat)
    requires IsHex(c)
    ensures v < 16
  {
    var l := ToLower(c);
    if IsDigit(l) then l as int - '0' as int else l as int - 'W' as int
  }

  function HexDigit(v: nat): (c: text)
    requires v < 16
    ensures IsHex(c) && HexToI(c) == v
  {
    if v < 10 then (v + '0' as int) as char else (v + 'W' as int) as char
  }

  /** Characters an encoder leaves alone. */
  predicate Unreserved(c: text) {
    'A' <= c <= 'Z' || 'a' <= c <= 'z' || IsDigit(c) || c == '.' || c == '-' || c == '_' || c == '/'
  }

  /** The conversion "%%%x": one digit for codes below sixteen. */
  function Escape(c: text): (e: seq<text>)
    ensures 1 <= |e| <= 3
  {
    if Unreserved(c) then [c]
    else if c as int < 16 then ['%', HexDigit(c as int)]
    else ['%', HexDigit(c as int / 16), HexDigit(c as int % 16)]
  }

  function Encode(s: seq<text>): seq<text> {
    if s == [] then [] else Escape(s[0]) + Encode(s[1..])
  }

  /** The decoder from one position: `left` source bytes to start from, `room` bytes to write. The two
      digits after a percent sign may lie beyond the bytes left. */
  function Unescape(e: seq<text>, left: int, room: nat): (d: seq<text>)
    requires left <= |e|
    ensures |d| <= room
    decreases |e|
  {
    if left <= 0 || room == 0 then []
    else if e[0] == '%' && IsHex(At(e, 1)) && IsHex(At(e, 2)) then
      [(HexToI(e[1]) * 16 + HexToI(e[2])) as char] + Unescape(e[3..], left - 3, room - 1)
    else
      [if e[0] == '+' then ' ' else e[0]] + Unescape(e[1..], left - 1, room - 1)
  }

  /** Decoding a whole string into a buffer of its own size. */
  function Decode(e: seq<text>): seq<text> { Unescape(e, |e|, |e|) }

  // ---- Round trip --------------------------------------------------------------------

  /** More room than source bytes makes no difference. */
  lemma {:induction false} RoomEnough(e: seq<text>, left: nat, room: nat)
    requires left <= |e| && left <= room
    ensures Unescape(e, left, room) == Unescape(e, left, left)
    decreases |e|
  {
    hide IsHex, HexToI;
    if left > 0 {
      if e[0] == '%' && IsHex(At(e, 1)) && IsHex(At(e, 2)) {
        if left >= 3 {
          RoomEnough(e[3..], left - 3, room - 1);
          RoomEnough(e[3..], left - 3, left - 1);
        }
      } else {
        RoomEnough(e[1..], left - 1, room - 1);
      }
    }
  }

  /** Decoding takes a character, or three, off the front. */
  lemma DecodeFront(e: seq<text>)
    requires e != []
    ensures if |e| >= 3 && e[0] == '%' && IsHex(e[1]) && IsHex(e[2])
            then Decode(e) == [(HexToI(e[1]) * 16 + HexToI(e[2])) as char] + Decode(e[3..])
            else Decode(e) == [if e[0] == '+' then ' ' else e[0]] + Decode(e[1..])
  {
    hide HexToI;
    if |e| >= 3 && e[0] == '%' && IsHex(e[1]) && IsHex(e[2]) {
      RoomEnough(e[3..], |e| - 3, |e| - 1);
    }
  }

  lemma DecodeNothing()
    ensures Decode([]) == []
  {
  }

  predicate Good(c: text) { c as int >= 16 }

  /** A good character comes back alone. */
  lemma DecodeGood(c: text, rest: seq<text>)
    requires Good(c)
    ensures Decode(Escape(c) + rest) == [c] + Decode(rest)
  {
    var e := Escape(c) + rest;
    DecodeFront(e);
    hide Decode;
    if Unreserved(c) {
      assert e[1..] == rest;
    } else {
      assert e[3..] == rest;
    }
  }

  /** A code below sixteen swallows a hexadecimal digit that follows, or leaves its escape as text. */
  lemma DecodeBad(c: text, rest: seq<text>)
    requires !Good(c)
    ensures if rest != [] && IsHex(rest[0])
            then Decode(Escape(c) + rest) == [(c as int * 16 + HexToI(rest[0])) as char] + Decode(rest[1..])
            else Decode(Escape(c) + rest) == ['%', HexDigit(c as int)] + Decode(rest)
  {
    var e := Escape(c) + rest;
    DecodeFront(e);
    if rest != [] && IsHex(rest[0]) {
      assert e[3..] == rest[1..];
    } else {
      DecodeFront(e[1..]);
      assert e[1..][1..] == rest;
    }
  }

  /** The first character of an encoding is a hexadecimal digit just when the text starts with one. */
  lemma EncodeFront(s: seq<text>)
    requires s != []
    ensures Encode(s) != [] && (IsHex(Encode(s)[0]) <==> IsHex(s[0]))
    ensures IsHex(s[0]) ==> Encode(s)[0] == s[0] && Encode(s)[1..] == Encode(s[1..])
  {
  }

  /** Once the decoder has fallen behind the text it never catches up. */
  lemma {:induction false} NeverCatchesUp(u: seq<text>, t: seq<text>)
    requires u != []
    ensures Decode(Encode(t)) != u + t
    decreases |t|
  {
    hide Escape, Unescape, HexToI, Unreserved, ToLower;
    if t == [] {
      DecodeNothing();
    } else if Good(t[0]) {
      DecodeGood(t[0], Encode(t[1..]));
      NeverCatchesUp(u[1..] + [t[0]], t[1..]);
      assert (u + t)[1..] == u[1..] + [t[0]] + t[1..];
    } else {
      DecodeBad(t[0], Encode(t[1..]));
      if |t| > 1 && IsHex(t[1]) {
        EncodeFront(t[1..]);
        NeverCatchesUp(u[1..] + t[..2], t[2..]);
        assert (u + t)[1..] == u[1..] + t[..2] + t[2..];
      } else {
        if |t| > 1 { EncodeFront(t[1..]); }
        if |u| == 1 {
          assert (u + t)[1] == t[0];
        } else {
          NeverCatchesUp(u[2..] + [t[0]], t[1..]);
          assert (u + t)[2..] == u[2..] + [t[0]] + t[1..];
        }
      }
    }
  }

  /** Decoding undoes encoding exactly on the texts without codes below sixteen. */
  lemma {:induction false} RoundTripIff(s: seq<text>)
    ensures Decode(Encode(s)) == s <==> forall k | 0 <= k < |s| :: Good(s[k])
  {
    hide Escape, Unescape, HexToI, Unreserved, ToLower;
    if s == [] {
      DecodeNothing();
    } else {
      if Good(s[0]) {
        DecodeGood(s[0], Encode(s[1..]));
        RoundTripIff(s[1..]);
      } else {
        DecodeBad(s[0], Encode(s[1..]));
        if |s| > 1 && IsHex(s[1]) {
          EncodeFront(s[1..]);
          NeverCatchesUp([s[1]], s[2..]);
          assert s[1..] == [s[1]] + s[2..];
        } else {
          if |s| > 1 { EncodeFront(s[1..]); }
        }
      }
    }
  }

  // ---- Both codings, byte by byte ----------------------------------------------------

  /** A hexadecimal digit in lower case. */
  function LowerDigit(v: nat): text
    requires v < 16
  {
    if v < 10 then '0' + v as char else 'a' + (v - 10) as char
  }

  /** Letters, digits and four marks stand for themselves; every other byte becomes a percent sign and
      its value in lower case, with one digit below 16. */
  lemma EncodesTo(c: text, rest: seq<text>)
    ensures Encode([]) == []
    ensures Encode([c] + rest) ==
            (if 'A' <= c <= 'Z' || 'a' <= c <= 'z' || '0' <= c <= '9' || c in ['.', '-', '_', '/'] then [c]
             else if c as int < 16 then ['%', LowerDigit(c as int)]
             else ['%', LowerDigit(c as int / 16), LowerDigit(c as int % 16)]) + Encode(rest)
  {
    assert ([c] + rest)[1..] == rest;
    if c as int >= 16 {
      LowerDigitIs(c as int / 16);
      LowerDigitIs(c as int % 16);
    } else {
      LowerDigitIs(c as int);
    }
    hide HexDigit, LowerDigit;
  }

  lemma LowerDigitIs(v: nat)
    requires v < 16
    ensures HexDigit(v) == LowerDigit(v)
  {
  }

  /** A digit of either case, with its value. */
  predicate Spells(c: text, v: nat) {
    if v < 10 then c as int == '0' as int + v
    else v < 16 && (c as int == 'a' as int + (v - 10) || c as int == 'A' as int + (v - 10))
  }

  lemma SpellsIff(c: text, v: nat)
    requires v < 16
    ensures Spells(c, v) <==> IsHex(c) && HexToI(c) == v
  {
  }

  /** A percent sign with two digits is the byte they spell, a plus is a blank, and every other byte,
      a percent sign without two digits included, stands for itself. */
  lemma DecodesTo(e: seq<text>, hi: nat, lo: nat)
    requires e != [] && hi < 16 && lo < 16
    ensures Decode([]) == []
    ensures e[0] == '%' && |e| >= 3 && Spells(e[1], hi) && Spells(e[2], lo) ==>
              Decode(e) == [(hi * 16 + lo) as char] + Decode(e[3..])
    ensures e[0] == '+' ==> Decode(e) == [' '] + Decode(e[1..])
    ensures e[0] != '+' && !(e[0] == '%' && |e| >= 3 && IsHex(e[1]) && IsHex(e[2])) ==>
              Decode(e) == [e[0]] + Decode(e[1..])
  {
    if |e| >= 3 {
      SpellsIff(e[1], hi);
      SpellsIff(e[2], lo);
    }
    hide Unescape, HexToI, Spells;
    DecodeNothing();
    DecodeFront(e);
  }

  /** Decoding stops when the room is used up; what was decoded before is the same. */
  lemma {:induction false} LessRoomCuts(e: seq<text>, left: int, room: nat, more: nat)
    requires left <= |e| && room <= more
    ensures |Unescape(e, left, room)| == Min(|Unescape(e, left, more)|, room)
    ensures Unescape(e, left, room) == Unescape(e, left, more)[..Min(|Unescape(e, left, more)|, room)]
    decreases |e|
  {
    hide HexToI;
    if left > 0 && room > 0 {
      var used := if e[0] == '%' && IsHex(At(e, 1)) && IsHex(At(e, 2)) then 3 else 1;
      LessRoomCuts(e[used..], left - used, room - 1, more - 1);
    }
  }

  // ---- Methods -----------------------------------------------------------------------

  /** The array holds `s` and its terminator. */
  ghost predicate Holds(a: array<text>, s: seq<text>)
    reads a
  {
    |s| < a.Length && a[..|s|] == s && a[|s|] == '\0'
  }

  /** str_decode_url. Source and destination may be the same array; the result does not depend on it. */
  method StrDecodeUrl(src: array?<text>, srcLen: int, dst: array<text>, dstLen: nat, ghost s: seq<text>)
    requires src != null ==> Holds(src, s) && srcLen <= |s| && 1 <= dstLen <= dst.Length
    modifies dst
    ensures src == null ==> dst[..] == old(dst[..])
    ensures src != null ==> var out := Unescape(s, srcLen, dstLen - 1);
              |out| < dst.Length && dst[..|out|] == out && dst[|out|] == '\0'
  {
    if src == null {
      return;
    }
    hide *;
    AllAt(src, s);
    var j := DecodeLoop(src, srcLen, dst, dstLen, s);
    dst[j] := '\0';
  }

  method DecodeLoop(src: array<text>, srcLen: int, dst: array<text>, dstLen: nat, ghost s: seq<text>) returns (j: nat)
    requires srcLen <= |s| < src.Length && 1 <= dstLen <= dst.Length && forall k | 0 <= k <= |s| :: src[k] == At(s, k)
    modifies dst
    ensures j < dstLen && dst[..j] == Unescape(s, srcLen, dstLen - 1)
  {
    hide *;
    var i: nat := 0;
    j := 0;
    ghost var out, room: nat := Unescape(s, srcLen, dstLen - 1), dstLen - 1;
    ghost var rest := out;
    assert s[0..] == s && dst[..0] + out == out;
    while i < srcLen && j < dstLen - 1
      invariant j <= i <= |s| && room + j == dstLen - 1
      invariant forall k | i <= k <= |s| :: src[k] == At(s, k)
      invariant rest == Unescape(s[i..], srcLen - i, room) && dst[..j] + rest == out
      decreases |s| - i
    {
      var c, used := TakeOne(src, i, s);
      UnescapeAt(s, i, srcLen - i, room, c, used);
      ghost var before := dst[..j];
      room, rest := room - 1, Unescape(s[i + used..], srcLen - i - used, room - 1);
      Regroup(before, [c], rest);
      dst[j] := c;
      assert dst[..j + 1] == before + [c];
      i, j := i + used, j + 1;
    }
    NothingLeft(s[i..], srcLen - i, room);
    assert dst[..j] + [] == dst[..j];
  }

  lemma AllAt(src: array<text>, s: seq<text>)
    requires Holds(src, s)
    ensures forall k | 0 <= k <= |s| :: src[k] == At(s, k)
    ensures |s| < src.Length
  {
    assert forall k | 0 <= k < |s| :: src[k] == src[..|s|][k];
  }

  lemma NothingLeft(e: seq<text>, left: int, room: nat)
    requires left <= |e| && (left <= 0 || room == 0)
    ensures Unescape(e, left, room) == []
  {
  }

  /** What the decoder makes of position `i`: the character, and how many bytes it takes. */
  predicate Takes(s: seq<text>, i: nat, c: text, used: nat)
    requires i < |s|
  {
    if s[i] == '%' && IsHex(At(s, i + 1)) && IsHex(At(s, i + 2)) then
      i + 3 <= |s| && c == (HexToI(s[i + 1]) * 16 + HexToI(s[i + 2])) as char && used == 3
    else c == (if s[i] == '+' then ' ' else s[i]) && used == 1
  }

  method TakeOne(src: array<text>, i: nat, ghost s: seq<text>) returns (c: text, used: nat)
    requires i < |s| < src.Length && forall k | i <= k <= |s| :: src[k] == At(s, k)
    ensures Takes(s, i, c, used) && 1 <= used <= 3 && i + used <= |s|
  {
    hide IsHex, HexToI;
    NulIsNoHex();
    c, used := src[i], 1;
    if src[i] == '%' {
      if IsHex(src[i + 1]) && IsHex(src[i + 2]) {
        c := (HexToI(src[i + 1]) * 16 + HexToI(src[i + 2])) as char;
        used := 3;
      }
    } else if src[i] == '+' {
      c := ' ';
    }
  }

  lemma NulIsNoHex()
    ensures !IsHex('\0')
  {
  }

  lemma UnescapeAt(s: seq<text>, i: nat, left: int, room: nat, c: text, used: nat)
    requires i < |s| && 0 < left <= |s| - i && room > 0 && Takes(s, i, c, used) && i + used <= |s|
    ensures Unescape(s[i..], left, room) == [c] + Unescape(s[i + used..], left - used, room - 1)
  {
    hide HexToI;
    var e := s[i..];
    assert e[1..] == s[i + 1..];
    assert |e| >= 3 ==> e[3..] == s[i + 3..];
  }

  const ENCODED := 4096

  /** str_encode_url; the original's local buffer holds 4095 characters and the terminator. */
  method StrEncodeUrl(src: seq<text>) returns (dst: seq<text>)
    requires |Encode(src)| < ENCODED
    ensures dst == Encode(src)
  {
    hide Escape, Unreserved;
    var encoded := new text[ENCODED](_ => '\0');
    var j: nat := 0;
    assert src[0..] == src && encoded[..0] + Encode(src) == Encode(src);
    for i := 0 to |src|
      invariant j < ENCODED && encoded[..j] + Encode(src[i..]) == Encode(src)
    {
      assert src[i..][1..] == src[i + 1..];
      ghost var before, rest := encoded[..j], Encode(src[i + 1..]);
      assert before + (Escape(src[i]) + rest) == (before + Escape(src[i])) + rest;
      var n := WriteEscape(encoded, j, src[i]);
      j := j + n;
    }
    assert encoded[..j] + [] == encoded[..j];
    dst := encoded[..j];
  }

  /** One character, or what sprintf writes for it with its terminator. */
  method WriteEscape(encoded: array<text>, j: nat, c: text) returns (n: nat)
    requires j + |Escape(c)| < encoded.Length
    modifies encoded
    ensures n == |Escape(c)| && encoded[..j + n] == old(encoded[..j]) + Escape(c)
  {
    if Unreserved(c) {
      encoded[j] := c;
      return 1;
    }
    encoded[j] := '%';
    if c as int < 16 {
      encoded[j + 1] := HexDigit(c as int);
      n := 2;
    } else {
      encoded[j + 1], encoded[j + 2] := HexDigit(c as int / 16), HexDigit(c as int % 16);
      n := 3;
    }
    encoded[j + n] := '\0';
  }
}
