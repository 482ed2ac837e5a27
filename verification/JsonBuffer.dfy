/** The buffer of parse_string (pcs/cJSON.c): its size is what a first pass over the literal counts,
    and a second pass, which reads escapes differently, fills it. */
module JsonBuffer {
  import opened Wrappers
  import opened Utf8Char
  import opened JsonText

  predicate Quote(q: text) { q == '"' || q == '\'' }

  predicate Stops(s: seq<text>, k: nat, q: text) { k >= |s| || s[k] == '\0' || s[k] == q }

  /** Position `p` belongs to the unit of the first pass that begins at `k`: a byte, or a backslash
      with the byte after it. */
  predicate Within(s: seq<text>, k: nat, p: nat, q: text) {
    p == k || (p == k + 1 && !Stops(s, k, q) && s[k] == '\\')
  }

  function After(s: seq<text>, k: nat): nat
    requires k < |s|
  {
    if s[k] == '\\' then k + 2 else k + 1
  }

  /** From `k` on the first pass counts `n` and stops at the end of the text. */
  predicate Counts(s: seq<text>, k: nat, q: text, n: nat) {
    k <= |s| && Measure(s, k, q) == Parsed(n, |s|)
  }

  lemma CountsStep(s: seq<text>, k: nat, q: text, n: nat)
    requires Counts(s, k, q, n)
    ensures k == |s| ==> n == 0
    ensures k < |s| ==> !Stops(s, k, q) && n > 0 && Counts(s, After(s, k), q, n - 1)
  {
  }

  /** The unit that holds a later position: nothing more is counted from there on, and less when it is
      another unit. */
  lemma {:induction false} UnitOf(s: seq<text>, k: nat, p: nat, q: text, n: nat) returns (k': nat, n': nat)
    requires Counts(s, k, q, n) && k <= p <= |s|
    ensures k <= k' <= p && Within(s, k', p, q) && Counts(s, k', q, n') && n' <= n && (k' != k ==> n' < n)
    decreases |s| - k
  {
    CountsStep(s, k, q, n);
    hide Measure;
    if Within(s, k, p, q) {
      k', n' := k, n;
    } else {
      k', n' := UnitOf(s, After(s, k), p, q, n - 1);
    }
  }

  lemma HexUnit(s: seq<text>, k: nat, q: text, n: nat)
    requires Quote(q) && Counts(s, k, q, n) && HexValue(At(s, k)) >= 0
    ensures n > 0 && Counts(s, k + 1, q, n - 1)
  {
  }

  /** Hexadecimal digits are units of their own. */
  lemma HexUnits(s: seq<text>, k: nat, q: text, n: nat)
    requires Quote(q) && Counts(s, k, q, n) && Hex4(s, k) != 0
    ensures n >= 4 && Counts(s, k + 4, q, n - 4)
  {
    assert HexValue(At(s, k)) >= 0 && HexValue(At(s, k + 1)) >= 0;
    assert HexValue(At(s, k + 2)) >= 0 && HexValue(At(s, k + 3)) >= 0;
    hide Counts, HexValue;
    HexUnit(s, k, q, n);
    HexUnit(s, k + 1, q, n - 1);
    HexUnit(s, k + 2, q, n - 2);
    HexUnit(s, k + 3, q, n - 3);
  }

  lemma UnescapeShape(s: seq<text>, i: nat)
    ensures var (bs, last) := Unescape(s, i);
            && last >= i && |bs| <= 4
            && (|bs| > 1 ==> At(s, i) == 'u' && Hex4(s, i + 1) != 0 && last >= i + 4)
  {
    hide Hex4;
  }

  /** A backslash and a `u` are left behind before the digits begin. */
  lemma UnicodeUnits(s: seq<text>, k: nat, p: nat, q: text, n: nat) returns (n': nat)
    requires Quote(q) && Counts(s, k, q, n) && Within(s, k, p, q)
    requires p < |s| && s[p] == '\\' && At(s, p + 1) == 'u'
    ensures n' < n && Counts(s, p + 2, q, n')
  {
    CountsStep(s, k, q, n);
    n' := n - 1;
    if p != k {
      CountsStep(s, p + 1, q, n - 1);
      n' := n - 2;
    }
  }

  /** What one escape of the second pass writes is paid for by the units it leaves behind. */
  lemma EscapePays(s: seq<text>, k: nat, p: nat, q: text, n: nat) returns (k': nat, n': nat)
    requires Quote(q) && Counts(s, k, q, n) && Within(s, k, p, q)
    requires p < |s| && s[p] == '\\' && Unescape(s, p + 1).1 < |s|
    ensures var (bs, last) := Unescape(s, p + 1);
            Within(s, k', last + 1, q) && Counts(s, k', q, n') && n' + |bs| <= n
  {
    var (bs, last) := Unescape(s, p + 1);
    UnescapeShape(s, p + 1);
    hide Counts, Unescape, Measure;
    if |bs| <= 1 {
      k', n' := UnitOf(s, k, last + 1, q, n);
    } else {
      n' := UnicodeUnits(s, k, p, q, n);
      HexUnits(s, p + 2, q, n');
      k', n' := UnitOf(s, p + 6, last + 1, q, n' - 4);
    }
  }

  /** While the second pass stays inside the literal, it writes no more than the first one counted. */
  lemma {:induction false} InsideFits(s: seq<text>, k: nat, p: nat, q: text, n: nat)
    requires Quote(q) && Counts(s, k, q, n) && Within(s, k, p, q) && p <= |s|
    ensures ParseChars(s, p, q).Parsed? ==> |ParseChars(s, p, q).value| <= n
    decreases |s| - p
  {
    hide Measure, Unescape, Counts, Within;
    if p < |s| && !Stops(s, p, q) {
      if s[p] != '\\' {
        var k', n' := PlainPays(s, k, p, q, n);
        InsideFits(s, k', p + 1, q, n');
      } else {
        var (bs, last) := Unescape(s, p + 1);
        UnescapeShape(s, p + 1);
        if last < |s| {
          var k', n' := EscapePays(s, k, p, q, n);
          InsideFits(s, k', last + 1, q, n');
        }
      }
    }
  }

  lemma PlainPays(s: seq<text>, k: nat, p: nat, q: text, n: nat) returns (k': nat, n': nat)
    requires Counts(s, k, q, n) && Within(s, k, p, q) && p < |s| && s[p] != '\\'
    ensures Within(s, k', p + 1, q) && Counts(s, k', q, n') && n' < n
  {
    CountsStep(s, k, q, n);
    k', n' := After(s, k), n - 1;
  }

  // ---- What follows the closing quote ------------------------------------------------

  /** The literal, the byte `c` that ends it, and any text. */
  function Closing(t: seq<text>, c: text, z: seq<text>): (s: seq<text>)
    ensures |s| == |t| + 1 + |z| && (forall k | 0 <= k < |t| :: s[k] == t[k]) && s[|t|] == c
    ensures forall k | 0 <= k < |z| :: s[|t| + 1 + k] == z[k]
  {
    t + ([c] + z)
  }

  predicate Ends(c: text, q: text) { Quote(q) && (c == q || c == '\0') }

  /** The first pass stops at the closing quote, whatever follows. */
  lemma {:induction false} MeasureClosed(t: seq<text>, k: nat, q: text, n: nat, c: text, z: seq<text>)
    requires Ends(c, q) && Counts(t, k, q, n)
    ensures Measure(Closing(t, c, z), k, q) == Parsed(n, |t|)
    decreases |t| - k
  {
    hide Closing;
    if k < |t| {
      CountsStep(t, k, q, n);
      MeasureClosed(t, After(t, k), q, n - 1, c, z);
    }
  }

  lemma HexClosed(t: seq<text>, i: nat, q: text, c: text, z: seq<text>)
    requires Ends(c, q) && i <= |t|
    ensures Hex4(Closing(t, c, z), i) == Hex4(t, i)
    ensures Hex4(t, i) != 0 ==> i + 4 <= |t|
  {
    hide Closing;
  }

  lemma UnicodeClosed(t: seq<text>, i: nat, q: text, c: text, z: seq<text>)
    requires Ends(c, q) && i < |t| && t[i] == 'u'
    ensures UnicodeEscape(Closing(t, c, z), i).1 == UnicodeEscape(t, i).1 <= |t| + 10
    ensures UnicodeEscape(t, i).1 < |t| ==> UnicodeEscape(Closing(t, c, z), i) == UnicodeEscape(t, i)
  {
    HexClosed(t, i + 1, q, c, z);
    if i + 7 <= |t| {
      HexClosed(t, i + 7, q, c, z);
    }
    hide Closing, Hex4, EncodeChar, AsText;
    var s := Closing(t, c, z);
    if i + 5 <= |t| {
      assert At(s, i + 5) == if i + 5 < |t| then t[i + 5] else c;
    }
    if i + 6 <= |t| {
      assert At(s, i + 6) == if i + 6 < |t| then t[i + 6] else c;
    }
  }

  /** What follows decides neither where an escape ends nor, when it ends inside, what it writes. */
  lemma UnescapeClosed(t: seq<text>, i: nat, q: text, c: text, z: seq<text>)
    requires Ends(c, q) && i <= |t|
    ensures Unescape(Closing(t, c, z), i).1 == Unescape(t, i).1 <= |t| + 10
    ensures Unescape(t, i).1 < |t| ==> Unescape(Closing(t, c, z), i) == Unescape(t, i)
  {
    if i < |t| && t[i] == 'u' {
      UnicodeClosed(t, i, q, c, z);
    }
    hide Closing, UnicodeEscape;
  }

  lemma {:induction false} InsideClosed(t: seq<text>, p: nat, q: text, c: text, z: seq<text>)
    requires Ends(c, q) && p <= |t| && ParseChars(t, p, q).Parsed?
    ensures ParseChars(Closing(t, c, z), p, q).Parsed?
    ensures ParseChars(Closing(t, c, z), p, q).value == ParseChars(t, p, q).value
    decreases |t| - p
  {
    hide Closing, Unescape;
    if p < |t| && !Stops(t, p, q) {
      if t[p] != '\\' {
        InsideClosed(t, p + 1, q, c, z);
      } else {
        UnescapeClosed(t, p + 1, q, c, z);
        UnescapeShape(t, p + 1);
        InsideClosed(t, Unescape(t, p + 1).1 + 1, q, c, z);
      }
    }
  }

  function Letters(m: nat): seq<text> { seq(m, _ => 'a') }

  lemma {:induction false} LettersRead(s: seq<text>, p: nat, m: nat, q: text)
    requires Quote(q) && p + m < |s| && s[p + m] == q && forall k | p <= k < p + m :: s[k] == 'a'
    ensures ParseChars(s, p, q).Parsed? && |ParseChars(s, p, q).value| == m
    decreases m
  {
    if m > 0 {
      LettersRead(s, p + 1, m - 1, q);
    }
  }

  /** Once the second pass is past the closing quote, what it writes is not bounded by the literal. */
  lemma {:induction false} OutsideGrows(t: seq<text>, p: nat, q: text, m: nat)
    requires Quote(q) && p <= |t| && !ParseChars(t, p, q).Parsed? && m >= 10
    ensures var r := ParseChars(Closing(t, q, Letters(m) + [q]), p, q); r.Parsed? && |r.value| >= m - 10
    decreases |t| - p
  {
    hide Closing, Unescape;
    var z := Letters(m) + [q];
    var s := Closing(t, q, z);
    if t[p] != '\\' {
      OutsideGrows(t, p + 1, q, m);
    } else {
      UnescapeClosed(t, p + 1, q, q, z);
      UnescapeShape(t, p + 1);
      var last := Unescape(t, p + 1).1;
      if last < |t| {
        OutsideGrows(t, last + 1, q, m);
      } else {
        forall k | |t| < k < |s| ensures s[k] == z[k - |t| - 1] {
          assert s[|t| + 1 + (k - |t| - 1)] == z[k - |t| - 1];
        }
        LettersRead(s, last + 1, m - (last - |t|), q);
      }
    }
  }

  /** The buffer measured for a literal is large enough for every text that can follow it, exactly when
      the second pass, too, reads the literal without an escape that reaches over its closing quote. */
  lemma MeasureSufficesIff(t: seq<text>, i: nat, q: text, n: nat)
    requires Quote(q) && Counts(t, i, q, n)
    ensures (forall z ::
               var r := ParseChars(Closing(t, q, z), i, q); r.Parsed? ==> |r.value| <= n)
            <==> ParseChars(t, i, q).Parsed?
    ensures forall z :: Measure(Closing(t, q, z), i, q) == Parsed(n, |t|)
  {
    CountsStep(t, i, q, n);
    hide Closing, ParseChars, Measure;
    forall z ensures Measure(Closing(t, q, z), i, q) == Parsed(n, |t|) {
      MeasureClosed(t, i, q, n, q, z);
    }
    if ParseChars(t, i, q).Parsed? {
      InsideFits(t, i, i, q, n);
      forall z
        ensures var r := ParseChars(Closing(t, q, z), i, q); r.Parsed? ==> |r.value| <= n
      {
        InsideClosed(t, i, q, q, z);
      }
    } else {
      OutsideGrows(t, i, q, n + 11);
      var r := ParseChars(Closing(t, q, Letters(n + 11) + [q]), i, q);
      assert r.Parsed? && |r.value| > n;
    }
  }

  // ---- A literal inside a text -------------------------------------------------------

  lemma {:induction false} MeasureCut(s: seq<text>, k: nat, q: text)
    requires k <= |s| && Measure(s, k, q).Parsed?
    ensures var end := Measure(s, k, q).next;
            k <= end <= |s| && Stops(s, end, q) && Counts(s[..end], k, q, Measure(s, k, q).value)
    decreases |s| - k
  {
    if !Stops(s, k, q) {
      MeasureCut(s, After(s, k), q);
    }
  }

  lemma SameCut(s: seq<text>, end: nat)
    requires end < |s|
    ensures Closing(s[..end], s[end], s[end + 1..]) == s
  {
  }

  /** A literal inside a text: what is written fits what was measured when the second pass does not
      reach over the end that the first one found. */
  lemma LiteralFits(s: seq<text>, i: nat, q: text)
    requires Quote(q) && i <= |s| && Measure(s, i, q).Parsed?
    ensures var m := Measure(s, i, q);
            ParseChars(s[..m.next], i, q).Parsed? ==> ParseChars(s, i, q).Parsed? && |ParseChars(s, i, q).value| <= m.value
  {
    var n, end := Measure(s, i, q).value, Measure(s, i, q).next;
    MeasureCut(s, i, q);
    hide Closing, ParseChars, Measure;
    if ParseChars(s[..end], i, q).Parsed? {
      InsideFits(s[..end], i, i, q, n);
      if end == |s| {
        assert s[..end] == s;
      } else {
        InsideClosed(s[..end], i, q, s[end], s[end + 1..]);
        SameCut(s, end);
      }
    }
  }
}
