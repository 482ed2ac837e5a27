/** What the escapes of a string literal mean (section 7 of RFC 8259), and that every spelling of a string
    is read: any mix of plain bytes, short escapes, `\u` escapes in either case, and surrogate pairs. */
module JsonEscapes {
  import opened Wrappers
  import opened Utf8Char
  import opened JsonText
  import opened JsonRoundTrip

  // ---- Four hexadecimal digits -------------------------------------------------------

  /** The digit for `v`, in either case. */
  predicate SpellsDigit(c: text, v: nat) {
    if v < 10 then c as int == '0' as int + v
    else v < 16 && (c as int == 'a' as int + (v - 10) || c as int == 'A' as int + (v - 10))
  }

  /** Four digits at `i` that spell `n`, the most significant one first. */
  predicate Spells4(s: seq<text>, i: nat, n: nat) {
    && i + 4 <= |s| && n < 0x1_0000
    && SpellsDigit(s[i], n / 0x1000) && SpellsDigit(s[i + 1], n / 0x100 % 16)
    && SpellsDigit(s[i + 2], n / 0x10 % 16) && SpellsDigit(s[i + 3], n % 16)
  }

  lemma DigitReads(c: text, v: nat)
    requires v < 16
    ensures SpellsDigit(c, v) <==> HexValue(c) == v
  {
  }

  lemma DigitsOf(a: nat, b: nat, c: nat, d: nat)
    requires a < 16 && b < 16 && c < 16 && d < 16
    ensures var n := ((a * 16 + b) * 16 + c) * 16 + d;
            n / 0x1000 == a && n / 0x100 % 16 == b && n / 0x10 % 16 == c && n % 16 == d && n < 0x1_0000
  {
  }

  lemma NumberOf(n: nat)
    requires n < 0x1_0000
    ensures ((n / 0x1000 * 16 + n / 0x100 % 16) * 16 + n / 0x10 % 16) * 16 + n % 16 == n
    ensures n / 0x1000 < 16
  {
  }

  /** A value other than 0 is read exactly from the digits that spell it. */
  lemma HexReads(s: seq<text>, i: nat, n: nat)
    requires n != 0
    ensures Hex4(s, i) == n <==> Spells4(s, i, n)
  {
    hide SpellsDigit;
    var a, b, c, d := HexValue(At(s, i)), HexValue(At(s, i + 1)), HexValue(At(s, i + 2)), HexValue(At(s, i + 3));
    if Spells4(s, i, n) {
      NumberOf(n);
      DigitReads(s[i], n / 0x1000);
      DigitReads(s[i + 1], n / 0x100 % 16);
      DigitReads(s[i + 2], n / 0x10 % 16);
      DigitReads(s[i + 3], n % 16);
    }
    if Hex4(s, i) == n {
      assert a >= 0 && b >= 0 && c >= 0 && d >= 0;
      assert HexValue('\0') == -1;
      DigitsOf(a, b, c, d);
      DigitReads(s[i], a);
      DigitReads(s[i + 1], b);
      DigitReads(s[i + 2], c);
      DigitReads(s[i + 3], d);
    }
  }

  // ---- One escape --------------------------------------------------------------------

  /** The short escapes; every other byte but `u` stands for itself. */
  lemma ShortEscapes(s: seq<text>, i: nat)
    requires i < |s| && s[i] != 'u'
    ensures Unescape(s, i).1 == i && |Unescape(s, i).0| == 1
    ensures Unescape(s, i).0[0] as int ==
            if s[i] == 'b' then 8 else if s[i] == 't' then 9 else if s[i] == 'n' then 10
            else if s[i] == 'f' then 12 else if s[i] == 'r' then 13 else s[i] as int
  {
  }

  /** A code point that is not a surrogate. */
  predicate Scalar(cp: nat) { cp < 0x11_0000 && !(0xD800 <= cp < 0xE000) }

  /** `u` and four digits. */
  predicate CodeAt(s: seq<text>, i: nat, n: nat) { i < |s| && s[i] == 'u' && Spells4(s, i + 1, n) }

  /** A code point below 0x10000 in one escape, or in two that hold the halves of the rest. */
  predicate ScalarAt(s: seq<text>, i: nat, cp: nat, last: nat) {
    if cp < 0x1_0000 then CodeAt(s, i, cp) && last == i + 4
    else
      CodeAt(s, i, 0xD800 + (cp - 0x1_0000) / 0x400) && last == i + 10 &&
      i + 5 < |s| && s[i + 5] == '\\' && CodeAt(s, i + 6, 0xDC00 + (cp - 0x1_0000) % 0x400)
  }

  lemma PairOf(cp: nat)
    requires 0x1_0000 <= cp < 0x11_0000
    ensures var hi, lo := 0xD800 + (cp - 0x1_0000) / 0x400, 0xDC00 + (cp - 0x1_0000) % 0x400;
            && 0xD800 <= hi < 0xDC00 && 0xDC00 <= lo < 0xE000
            && 0x10000 + hi % 1024 * 1024 + lo % 1024 == cp
  {
  }

  /** The escape of a code point is read as the UTF-8 of that code point. */
  lemma ScalarReads(s: seq<text>, i: nat, cp: nat, last: nat)
    requires Scalar(cp) && cp != 0 && ScalarAt(s, i, cp, last)
    ensures Unescape(s, i) == (AsText(EncodeChar(cp)), last)
  {
    hide Spells4, Hex4, EncodeChar, AsText;
    if cp < 0x1_0000 {
      HexReads(s, i + 1, cp);
    } else {
      PairOf(cp);
      HexReads(s, i + 1, 0xD800 + (cp - 0x1_0000) / 0x400);
      HexReads(s, i + 7, 0xDC00 + (cp - 0x1_0000) % 0x400);
    }
  }

  /** Every other `\u` writes nothing: it ends after four more bytes, or after ten when it is the first
      half of a pair and another `\u` follows that is not the second half. */
  lemma OtherCodesWriteNothing(s: seq<text>, i: nat)
    requires i < |s| && s[i] == 'u'
    requires forall cp: nat, last: nat | Scalar(cp) && cp != 0 :: !ScalarAt(s, i, cp, last)
    ensures var high := exists n: nat :: 0xD800 <= n < 0xDC00 && CodeAt(s, i, n);
            Unescape(s, i) == ([], if high && At(s, i + 5) == '\\' && At(s, i + 6) == 'u' then i + 10 else i + 4)
  {
    var uc, uc2 := Hex4(s, i + 1), Hex4(s, i + 7);
    if uc != 0 {
      HexReads(s, i + 1, uc);
    }
    assert uc != 0 && !(0xD800 <= uc < 0xE000) ==> ScalarAt(s, i, uc, i + 4);
    if 0xD800 <= uc < 0xDC00 {
      assert CodeAt(s, i, uc);
      SecondHalf(s, i, uc, uc2);
    }
    forall n: nat | 0xD800 <= n < 0xDC00 && CodeAt(s, i, n) ensures uc == n {
      HexReads(s, i + 1, n);
    }
    hide Spells4, Hex4, EncodeChar, AsText;
  }

  lemma SecondHalf(s: seq<text>, i: nat, hi: nat, lo: nat)
    requires CodeAt(s, i, hi) && 0xD800 <= hi < 0xDC00 && lo == Hex4(s, i + 7)
    ensures At(s, i + 5) == '\\' && At(s, i + 6) == 'u' && 0xDC00 <= lo < 0xE000 ==>
              var cp := 0x10000 + (hi - 0xD800) * 0x400 + (lo - 0xDC00);
              Scalar(cp) && ScalarAt(s, i, cp, i + 10)
  {
    if 0xDC00 <= lo < 0xE000 {
      HexReads(s, i + 7, lo);
      HalvesOf(hi, lo);
    }
    hide Spells4, Hex4;
  }

  lemma HalvesOf(hi: nat, lo: nat)
    requires 0xD800 <= hi < 0xDC00 && 0xDC00 <= lo < 0xE000
    ensures var cp := 0x10000 + (hi - 0xD800) * 0x400 + (lo - 0xDC00);
            (cp - 0x1_0000) / 0x400 == hi - 0xD800 && (cp - 0x1_0000) % 0x400 == lo - 0xDC00
  {
  }

  // ---- The two passes, byte by byte --------------------------------------------------

  /** The first pass counts every byte once, and a backslash with the byte after it once; it stops at
      the quote that opened the literal, or where the text ends. */
  lemma MeasureSteps(s: seq<text>, i: nat, q: text)
    requires i <= |s|
    ensures i == |s| || s[i] == '\0' || s[i] == q ==> Measure(s, i, q) == Parsed(0, i)
    ensures i < |s| && s[i] !in ['\0', q, '\\'] ==>
              Measure(s, i, q) == match Measure(s, i + 1, q)
                                  case Parsed(n, end) => Parsed(n + 1, end)
                                  case _ => Overrun
    ensures i + 1 < |s| && s[i] == '\\' && q != '\\' ==>
              Measure(s, i, q) == match Measure(s, i + 2, q)
                                  case Parsed(n, end) => Parsed(n + 1, end)
                                  case _ => Overrun
    ensures i + 1 == |s| && s[i] == '\\' && q != '\\' ==> Measure(s, i, q) == Overrun
  {
  }

  /** The second pass takes every byte as it is, up to the same stops, of which only the quote is
      passed; an escape that ends outside the text is an overrun. */
  lemma CharsSteps(s: seq<text>, i: nat, q: text)
    requires i <= |s| && q != '\\' && q != '\0'
    ensures i == |s| || s[i] == '\0' ==> ParseChars(s, i, q) == Parsed([], i)
    ensures i < |s| && s[i] == q ==> ParseChars(s, i, q) == Parsed([], i + 1)
    ensures i < |s| && s[i] !in ['\0', q, '\\'] ==> ParseChars(s, i, q) == Prepend([s[i]], ParseChars(s, i + 1, q))
    ensures i < |s| && s[i] == '\\' ==>
              var (bs, last) := Unescape(s, i + 1);
              ParseChars(s, i, q) == if last < |s| then Prepend(bs, ParseChars(s, last + 1, q)) else Overrun
  {
    hide Unescape;
  }

  /** A literal begins with either quote and ends with the same one. */
  lemma StringBegins(s: seq<text>, i: nat)
    requires i <= |s|
    ensures i == |s| || (s[i] != '"' && s[i] != '\'') ==> ParseStr(s, i) == Bad
    ensures i < |s| && (s[i] == '"' || s[i] == '\'') ==>
              ParseStr(s, i) == if Measure(s, i + 1, s[i]).Parsed? then ParseChars(s, i + 1, s[i]) else Overrun
  {
    hide Measure, ParseChars;
  }

  // ---- Whole literals ----------------------------------------------------------------

  /** A piece of a literal, and the bytes it stands for. */
  datatype Piece = Piece(spelt: seq<text>, means: seq<text>)

  /** A byte that stands for itself, a short escape, or the escape of a code point. */
  ghost predicate Sound(x: Piece) {
    || (|x.spelt| == 1 && x.spelt[0] !in ['"', '\\', '\0'] && x.means == x.spelt)
    || (|x.spelt| == 2 && x.spelt[0] == '\\' &&
        (x.spelt[1], x.means) in [('"', "\""), ('\\', "\\"), ('/', "/"), ('b', [8 as char]), ('f', [12 as char]),
                                  ('n', "\n"), ('r', "\r"), ('t', "\t")])
    || exists cp: nat :: Scalar(cp) && cp != 0 && Coded(x, cp)
  }

  predicate Coded(x: Piece, cp: nat) {
    |x.spelt| > 1 && x.spelt[0] == '\\' && ScalarAt(x.spelt, 1, cp, |x.spelt| - 1) && x.means == AsText(EncodeChar(cp))
  }

  function Spelt(xs: seq<Piece>): seq<text> { if xs == [] then [] else xs[0].spelt + Spelt(xs[1..]) }

  function Meant(xs: seq<Piece>): seq<text> { if xs == [] then [] else xs[0].means + Meant(xs[1..]) }

  lemma ScalarShift(s: seq<text>, p: nat, t: seq<text>, cp: nat)
    requires Occurs(s, p, t) && |t| > 1 && ScalarAt(t, 1, cp, |t| - 1)
    ensures ScalarAt(s, p + 1, cp, p + |t| - 1)
  {
    forall k | 0 <= k < |t| ensures s[p + k] == t[k] {
      OccursAt(s, p, t, k);
    }
    FourShift(s, p, t, 2);
    if cp >= 0x1_0000 {
      FourShift(s, p, t, 8);
    }
    hide SpellsDigit, Occurs, Spells4;
  }

  lemma FourShift(s: seq<text>, p: nat, t: seq<text>, j: nat)
    requires Occurs(s, p, t) && j + 4 <= |t|
    ensures forall n: nat :: Spells4(t, j, n) ==> Spells4(s, p + j, n)
  {
    OccursAt(s, p, t, j);
    OccursAt(s, p, t, j + 1);
    OccursAt(s, p, t, j + 2);
    OccursAt(s, p, t, j + 3);
    hide SpellsDigit;
  }

  /** A piece is read where it stands. */
  lemma PieceReads(s: seq<text>, p: nat, x: Piece)
    requires Sound(x) && Occurs(s, p, x.spelt)
    ensures p + |x.spelt| <= |s| && x.spelt != []
    ensures ParseChars(s, p, '"') == Prepend(x.means, ParseChars(s, p + |x.spelt|, '"'))
  {
    OccursAt(s, p, x.spelt, 0);
    if x.spelt[0] != '\\' {
      assert x.means == [s[p]];
    } else if |x.spelt| == 2 {
      OccursAt(s, p, x.spelt, 1);
      assert x.spelt[1] != 'u';
      ShortEscapes(s, p + 1);
      hide Unescape;
      assert Unescape(s, p + 1).0 == x.means;
    } else {
      var cp: nat :| Scalar(cp) && cp != 0 && Coded(x, cp);
      ScalarShift(s, p, x.spelt, cp);
      ScalarReads(s, p + 1, cp, p + |x.spelt| - 1);
      hide Unescape, EncodeChar, AsText, Occurs;
    }
  }

  lemma DigitsPass(s: seq<text>, i: nat, n: nat)
    requires Spells4(s, i, n) && Measure(s, i + 4, '"').Parsed?
    ensures Measure(s, i, '"').Parsed?
  {
    MeasureTail(s, i, s[i..i + 4]);
  }

  lemma CodePasses(s: seq<text>, i: nat, n: nat)
    requires CodeAt(s, i + 1, n) && s[i] == '\\' && Measure(s, i + 6, '"').Parsed?
    ensures Measure(s, i, '"').Parsed?
  {
    DigitsPass(s, i + 2, n);
    hide Spells4;
  }

  /** The first pass, too, takes each piece whole. */
  lemma PiecePasses(s: seq<text>, p: nat, x: Piece)
    requires Sound(x) && Occurs(s, p, x.spelt) && Measure(s, p + |x.spelt|, '"').Parsed?
    ensures Measure(s, p, '"').Parsed?
  {
    OccursAt(s, p, x.spelt, 0);
    if |x.spelt| == 2 {
      OccursAt(s, p, x.spelt, 1);
    } else if |x.spelt| > 2 {
      var cp: nat :| Scalar(cp) && cp != 0 && Coded(x, cp);
      ScalarShift(s, p, x.spelt, cp);
      hide Measure, Spells4, Occurs, EncodeChar, AsText;
      if cp < 0x1_0000 {
        CodePasses(s, p, cp);
      } else {
        CodePasses(s, p + 6, 0xDC00 + (cp - 0x1_0000) % 0x400);
        CodePasses(s, p, 0xD800 + (cp - 0x1_0000) / 0x400);
      }
    }
  }

  lemma {:induction false} PiecesRead(s: seq<text>, i: nat, xs: seq<Piece>)
    requires (forall x | x in xs :: Sound(x)) && Occurs(s, i, Spelt(xs) + ['"'])
    ensures i <= |s| && Measure(s, i, '"').Parsed?
    ensures ParseChars(s, i, '"') == Parsed(Meant(xs), i + |Spelt(xs)| + 1)
    decreases |xs|
  {
    hide Sound, Measure;
    if xs == [] {
      assert (Spelt(xs) + ['"'])[0] == '"';
      OccursAt(s, i, Spelt(xs) + ['"'], 0);
      QuoteEnds(s, i);
    } else {
      hide Occurs;
      var x, rest := xs[0], Spelt(xs[1..]) + ['"'];
      assert Spelt(xs) + ['"'] == x.spelt + rest;
      Parts(s, i, x.spelt, rest);
      hide ParseChars, Spelt, Meant;
      PiecesRead(s, i + |x.spelt|, xs[1..]);
      PieceReads(s, i, x);
      PiecePasses(s, i, x);
      MeantSplits(xs);
    }
  }

  lemma QuoteEnds(s: seq<text>, i: nat)
    requires i < |s| && s[i] == '"'
    ensures Measure(s, i, '"').Parsed? && ParseChars(s, i, '"') == Parsed([], i + 1)
  {
  }

  lemma MeantSplits(xs: seq<Piece>)
    requires xs != []
    ensures Meant(xs) == xs[0].means + Meant(xs[1..]) && Spelt(xs) == xs[0].spelt + Spelt(xs[1..])
  {
  }

  /** Every spelling of a string is read as the bytes it stands for, anywhere in a text. */
  lemma StringReads(s: seq<text>, i: nat, xs: seq<Piece>)
    requires (forall x | x in xs :: Sound(x)) && Occurs(s, i, ['"'] + (Spelt(xs) + ['"']))
    ensures i < |s| && ParseStr(s, i) == Parsed(Meant(xs), i + |Spelt(xs)| + 2)
  {
    hide Sound, Occurs, Measure, ParseChars;
    Parts(s, i, ['"'], Spelt(xs) + ['"']);
    OccursAt(s, i, ['"'], 0);
    PiecesRead(s, i + 1, xs);
  }
}
