/** Moving over UTF-8 text by characters (pcs/utf8.c). A string is its bytes before the terminator. */
module Utf8Walk {
  import opened Wrappers
  import opened Utf8Char
  import opened Utf8Strings

  ghost predicate CText(s: seq<byte>) { 0 !in s }

  /** u8_inc: the next byte that starts a character, at most four further on. */
  function Inc(s: seq<byte>, i: nat): (j: nat)
    requires CText(s) && i < |s|
    ensures i < j <= |s| && j <= i + 4
  {
    if IsUtf(ByteAt(s, i + 1)) then i + 1
    else if IsUtf(ByteAt(s, i + 2)) then i + 2
    else if IsUtf(ByteAt(s, i + 3)) then i + 3
    else i + 4
  }

  /** The position `n` characters after `i`, or the end. */
  function Walk(s: seq<byte>, i: nat, n: nat): (j: nat)
    requires CText(s) && i <= |s|
    ensures i <= j <= |s|
    decreases n
  {
    if n == 0 || i == |s| then i else Walk(s, Inc(s, i), n - 1)
  }

  /** The characters that start in [i, offset). */
  function Count(s: seq<byte>, i: nat, offset: int): nat
    requires CText(s) && i <= |s|
    decreases |s| - i
  {
    if i < offset && i < |s| then 1 + Count(s, Inc(s, i), offset) else 0
  }

  lemma {:induction false} WalkOn(s: seq<byte>, i: nat, n: nat)
    requires CText(s) && i <= |s|
    ensures Walk(s, i, n + 1) == if Walk(s, i, n) == |s| then |s| else Inc(s, Walk(s, i, n))
    decreases n
  {
    hide Inc;
    if n > 0 && i < |s| {
      WalkOn(s, Inc(s, i), n - 1);
    }
  }

  lemma {:induction false} CountOn(s: seq<byte>, i: nat, n: nat, offset: int)
    requires CText(s) && i <= |s| && n <= Count(s, i, offset)
    ensures Count(s, i, offset) == n + Count(s, Walk(s, i, n), offset)
    decreases n
  {
    hide Inc;
    if n > 0 {
      CountOn(s, Inc(s, i), n - 1, offset);
    }
  }

  /** u8_charnum undoes u8_offset on every string, valid UTF-8 or not, up to its last character. */
  lemma {:induction false} CountUndoesWalk(s: seq<byte>, i: nat, n: nat)
    requires CText(s) && i <= |s|
    ensures Count(s, i, Walk(s, i, n)) == Min(n, Count(s, i, |s|))
    decreases n
  {
    hide Inc;
    if n > 0 && i < |s| {
      CountUndoesWalk(s, Inc(s, i), n - 1);
    }
  }

  /** u8_offset of u8_charnum is the first character start at or after the offset, or the end. */
  lemma {:induction false} WalkUndoesCount(s: seq<byte>, i: nat, offset: int)
    requires CText(s) && i <= |s|
    ensures var j := Walk(s, i, Count(s, i, offset)); Min(offset, |s|) <= j && (offset > i ==> j < offset + 4)
    ensures forall n: nat :: Walk(s, i, n) >= Min(offset, |s|) ==> Walk(s, i, Count(s, i, offset)) <= Walk(s, i, n)
    decreases |s| - i
  {
    hide Inc;
    if i < offset && i < |s| {
      WalkUndoesCount(s, Inc(s, i), offset);
      forall n: nat | Walk(s, i, n) >= Min(offset, |s|)
        ensures Walk(s, i, Count(s, i, offset)) <= Walk(s, i, n)
      {
        assert n > 0;
        assert Walk(s, i, n) == Walk(s, Inc(s, i), n - 1);
      }
    }
  }

  // ---- On encoded text ---------------------------------------------------------------

  /** Where character `k` starts. */
  function Start(ws: seq<wide>, k: nat): nat
    requires k <= |ws|
  {
    |EncodeAll(ws[..k])|
  }

  ghost predicate Text(ws: seq<wide>) { forall k | 0 <= k < |ws| :: 0 < ws[k] < MAX_CODE }

  lemma {:induction false} TextHasNoNul(ws: seq<wide>)
    requires Text(ws)
    ensures CText(EncodeAll(ws))
  {
    if ws != [] {
      var n := |ws| - 1;
      TextHasNoNul(ws[..n]);
      CharRoundTrip(ws[n]);
      hide EncodeChar, IsUtf;
    }
  }

  lemma StartOfEnd(ws: seq<wide>)
    ensures Start(ws, |ws|) == |EncodeAll(ws)|
  {
    assert ws[..|ws|] == ws;
  }

  /** A character of `n` bytes stands at `i`: only its first byte starts one, and one starts after it. */
  predicate Block(s: seq<byte>, i: nat, n: nat) {
    && 1 <= n <= 4 && i + n <= |s| && IsUtf(s[i]) && IsUtf(ByteAt(s, i + n))
    && (n > 1 ==> !IsUtf(s[i + 1])) && (n > 2 ==> !IsUtf(s[i + 2])) && (n > 3 ==> !IsUtf(s[i + 3]))
  }

  lemma BlockBetween(a: seq<byte>, c: seq<byte>, b: seq<byte>)
    requires 1 <= |c| <= 4 && IsUtf(c[0]) && forall m | 1 <= m < |c| :: !IsUtf(c[m])
    requires IsUtf(ByteAt(b, 0))
    ensures var s := a + (c + b); Block(s, |a|, |c|) && s[|a|..|a| + |c|] == c
  {
    hide IsUtf;
    var s, i := a + (c + b), |a|;
    assert s[i] == c[0];
    assert |c| > 1 ==> s[i + 1] == c[1];
    assert |c| > 2 ==> s[i + 2] == c[2];
    assert |c| > 3 ==> s[i + 3] == c[3];
    assert ByteAt(s, i + |c|) == ByteAt(b, 0);
  }

  /** The bytes at the start of character `k`. */
  lemma AtStart(ws: seq<wide>, k: nat)
    requires Text(ws) && k < |ws|
    ensures var s, i, c := EncodeAll(ws), Start(ws, k), EncodeChar(ws[k]);
            Block(s, i, |c|) && Start(ws, k + 1) == i + |c| && s[i..i + |c|] == c
  {
    hide EncodeChar, IsUtf, EncodeAll, Block, Trailing, Decode;
    CharRoundTrip(ws[k]);
    Around(ws, k);
    EncodeNext(ws, k);
    TextStarts(ws[k + 1..]);
    BlockBetween(EncodeAll(ws[..k]), EncodeChar(ws[k]), EncodeAll(ws[k + 1..]));
  }

  lemma TextStarts(ws: seq<wide>)
    requires Text(ws)
    ensures IsUtf(ByteAt(EncodeAll(ws), 0))
  {
    if ws != [] {
      CharRoundTrip(ws[0]);
      hide EncodeChar;
      EncodeFront(ws);
    }
  }

  lemma IncAtStart(ws: seq<wide>, k: nat)
    requires Text(ws) && k < |ws|
    ensures CText(EncodeAll(ws)) && Start(ws, k) < |EncodeAll(ws)|
    ensures Inc(EncodeAll(ws), Start(ws, k)) == Start(ws, k + 1)
  {
    hide EncodeChar, EncodeAll, IsUtf, Start;
    TextHasNoNul(ws);
    AtStart(ws, k);
  }

  /** On encoded text walking `n` characters lands on the start of the n-th. */
  lemma {:induction false} WalkText(ws: seq<wide>, k: nat, n: nat)
    requires Text(ws) && k <= |ws|
    ensures CText(EncodeAll(ws)) && Start(ws, k) <= |EncodeAll(ws)|
    ensures Walk(EncodeAll(ws), Start(ws, k), n) == Start(ws, Min(k + n, |ws|))
    decreases n
  {
    hide EncodeAll, Inc, Start, IsUtf;
    TextHasNoNul(ws);
    if k < |ws| {
      IncAtStart(ws, k);
      if n > 0 {
        WalkText(ws, k + 1, n - 1);
      }
    } else {
      StartOfEnd(ws);
    }
  }

  /** u8_dec: back to the byte that starts the character before, at most four bytes. */
  function Dec(s: seq<byte>, i: nat): (j: nat)
    requires CanDec(s, i)
    ensures j < i <= j + 4
  {
    if IsUtf(s[i - 1]) then i - 1 else if IsUtf(s[i - 2]) then i - 2
    else if IsUtf(s[i - 3]) then i - 3 else i - 4
  }

  /** The walk back does not leave the string. */
  predicate CanDec(s: seq<byte>, i: nat) {
    1 <= i <= |s| && (IsUtf(s[i - 1]) || (i >= 2 && (IsUtf(s[i - 2]) || (i >= 3 && (IsUtf(s[i - 3]) || i >= 4)))))
  }

  /** u8_dec undoes u8_inc between characters. */
  lemma DecUndoesInc(ws: seq<wide>, k: nat)
    requires Text(ws) && k < |ws|
    ensures CanDec(EncodeAll(ws), Start(ws, k + 1)) && Dec(EncodeAll(ws), Start(ws, k + 1)) == Start(ws, k)
  {
    hide EncodeChar, EncodeAll, IsUtf, Start;
    AtStart(ws, k);
  }

  // ---- Methods -----------------------------------------------------------------------

  method U8Inc(s: seq<byte>, i: nat) returns (j: nat)
    requires CText(s) && i < |s|
    ensures j == Inc(s, i)
    ensures i < j <= i + 4 && (forall k | i < k < j :: !IsUtf(ByteAt(s, k))) && (j == i + 4 || IsUtf(ByteAt(s, j)))
  {
    j := i + 1;
    if !IsUtf(ByteAt(s, j)) {
      j := j + 1;
      if !IsUtf(ByteAt(s, j)) {
        j := j + 1;
        if !IsUtf(ByteAt(s, j)) {
          j := j + 1;
        }
      }
    }
  }

  method U8Dec(s: seq<byte>, i: nat) returns (j: nat)
    requires CanDec(s, i)
    ensures j == Dec(s, i)
    ensures j < i <= j + 4 && (forall k | j < k < i :: !IsUtf(s[k])) && (i == j + 4 || IsUtf(s[j]))
  {
    j := i - 1;
    if !IsUtf(s[j]) {
      j := j - 1;
      if !IsUtf(s[j]) {
        j := j - 1;
        if !IsUtf(s[j]) {
          j := j - 1;
        }
      }
    }
  }

  method U8Offset(s: seq<byte>, charnum: nat) returns (offs: nat)
    requires CText(s)
    ensures offs == Walk(s, 0, charnum)
  {
    hide Inc;
    offs := 0;
    var n: nat := charnum;
    while n > 0 && offs < |s|
      invariant offs == Walk(s, 0, charnum - n) && n <= charnum
    {
      WalkOn(s, 0, charnum - n);
      offs := U8Inc(s, offs);
      n := n - 1;
    }
    if n > 0 {
      EndStays(s, 0, charnum - n, charnum);
    }
  }

  lemma {:induction false} EndStays(s: seq<byte>, i: nat, m: nat, n: nat)
    requires CText(s) && i <= |s| && m <= n && Walk(s, i, m) == |s|
    ensures Walk(s, i, n) == |s|
    decreases n
  {
    hide Inc;
    if n > m {
      EndStays(s, i, m, n - 1);
      WalkOn(s, i, n - 1);
    }
  }

  method U8CharNum(s: seq<byte>, offset: int) returns (charnum: nat)
    requires CText(s)
    ensures charnum == Count(s, 0, offset)
  {
    hide Inc;
    charnum := 0;
    var offs: nat := 0;
    while offs < offset && offs < |s|
      invariant offs <= |s| && charnum + Count(s, offs, offset) == Count(s, 0, offset)
      decreases |s| - offs
    {
      offs := U8Inc(s, offs);
      charnum := charnum + 1;
    }
  }

  /** The first byte after `i` that starts a character, or the end. */
  function NextUtf(s: seq<byte>, i: nat): (j: nat)
    requires i < |s|
    ensures i < j <= |s| && (forall k | i < k < j :: !IsUtf(s[k])) && (j < |s| ==> IsUtf(s[j]))
    decreases |s| - i
  {
    if i + 1 == |s| || IsUtf(s[i + 1]) then i + 1 else NextUtf(s, i + 1)
  }

  lemma ShiftMod(v: int, b: int)
    ensures (v % 0x1_0000_0000 * 64 + b) % 0x1_0000_0000 == (v * 64 + b) % 0x1_0000_0000
  {
    var m := 0x1_0000_0000;
    var q, r := v / m, v % m * 64 + b;
    assert v * 64 + b == r + q * 64 * m;
    assert (r + q * 64 * m) % m == r % m;
  }

  lemma ShiftEmpty(s: seq<byte>, i: nat)
    requires i <= |s|
    ensures Shifted(s[i..i]) == 0
  {
  }

  /** One round: one more byte in 32 bits. */
  lemma OneShift(s: seq<byte>, i: nat, j: nat)
    requires i <= j < |s|
    ensures (Shifted(s[i..j]) % 0x1_0000_0000 * 64 + s[j]) % 0x1_0000_0000 == Shifted(s[i..j + 1]) % 0x1_0000_0000
  {
    assert s[i..j + 1][..j - i] == s[i..j];
    ShiftMod(Shifted(s[i..j]), s[j]);
  }

  lemma NextUtfStep(s: seq<byte>, j: nat)
    requires j < |s|
    ensures NextUtf(s, j) == if j + 1 == |s| || IsUtf(s[j + 1]) then j + 1 else NextUtf(s, j + 1)
  {
  }

  /** u8_nextchar: reads up to the next start of a character. The source's table covers six bytes. */
  method U8NextChar(s: seq<byte>, i: nat) returns (ch: wide, j: nat)
    requires CText(s) && i < |s| && NextUtf(s, i) - i <= 6
    ensures j == NextUtf(s, i) && ch == Decode(s[i..j], j - i - 1)
  {
    hide IsUtf, NextUtf, Shifted, MarkerSum;
    var v: wide := 0;
    var sz := 0;
    ShiftEmpty(s, i);
    j := i;
    while true
      invariant sz == j - i && i <= j < |s| && v == Shifted(s[i..j]) % 0x1_0000_0000
      invariant NextUtf(s, j) == NextUtf(s, i)
      decreases |s| - j
    {
      OneShift(s, i, j);
      NextUtfStep(s, j);
      v := (v * 64 + s[j]) % 0x1_0000_0000;
      j := j + 1;
      sz := sz + 1;
      if j == |s| || IsUtf(s[j]) {
        break;
      }
    }
    SubMod(Shifted(s[i..j]), MarkerSum(sz - 1));
    ch := (v - MarkerSum(sz - 1)) % 0x1_0000_0000;
  }

  lemma SubMod(v: int, o: int)
    ensures (v % 0x1_0000_0000 - o) % 0x1_0000_0000 == (v - o) % 0x1_0000_0000
  {
    var m := 0x1_0000_0000;
    assert (v - o) == (v % m - o) + v / m * m;
    assert ((v % m - o) + v / m * m) % m == (v % m - o) % m;
  }

  /** On encoded text it returns character `k` and moves to character `k + 1`. */
  lemma NextCharOfText(ws: seq<wide>, k: nat)
    requires Text(ws) && k < |ws|
    ensures var s, i := EncodeAll(ws), Start(ws, k);
            && i < |s| && NextUtf(s, i) == Start(ws, k + 1) <= i + 4
            && Decode(s[i..Start(ws, k + 1)], Start(ws, k + 1) - i - 1) == ws[k]
  {
    assert ws[k] < MAX_CODE;
    hide *;
    CharRoundTrip(ws[k]);
    AtStart(ws, k);
    var s, i, c := EncodeAll(ws), Start(ws, k), EncodeChar(ws[k]);
    NextOfBlock(s, i, |c|);
    assert s[i..Start(ws, k + 1)] == c;
  }

  lemma NextOfBlock(s: seq<byte>, i: nat, n: nat)
    requires Block(s, i, n)
    ensures NextUtf(s, i) == i + n
  {
    hide IsUtf;
    if n > 1 { assert NextUtf(s, i) == NextUtf(s, i + 1); }
    if n > 2 { assert NextUtf(s, i + 1) == NextUtf(s, i + 2); }
    if n > 3 { assert NextUtf(s, i + 2) == NextUtf(s, i + 3); }
  }
}
