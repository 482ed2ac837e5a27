/** What number the parser makes of a spelling with sign, fraction and exponent (section 6 of RFC 8259). */
module JsonNumbers {
  import opened Wrappers
  import opened JsonText
  import opened JsonRoundTrip
  import opened JsonLayout

  datatype Exponent = Exponent(letter: text, sign: seq<text>, digits: seq<text>)

  /** The parts of a number as it is spelt. */
  datatype Spelling = Spelling(negative: bool, whole: seq<text>, fraction: seq<text>, exponent: Option<Exponent>)

  /** Digits before the point, with at most one leading zero; digits after it, if any; e or E, a sign or
      none, and digits. */
  predicate WellSpelt(x: Spelling) {
    && AllDigits(x.whole) && AllDigits(x.fraction)
    && x.whole != [] && (x.whole[0] == '0' && |x.whole| > 1 ==> x.whole[1] != '0')
    && (x.exponent.Some? ==>
          var e := x.exponent.value;
          e.letter in ['e', 'E'] && e.sign in ["", "+", "-"] && AllDigits(e.digits) && e.digits != [])
  }

  function FractionText(x: Spelling): seq<text> { if x.fraction == [] then [] else ['.'] + x.fraction }

  function ExponentText(x: Spelling): seq<text> {
    if x.exponent.None? then []
    else [x.exponent.value.letter] + (x.exponent.value.sign + x.exponent.value.digits)
  }

  function NumberText(x: Spelling): seq<text> {
    (if x.negative then ['-'] else []) + (x.whole + (FractionText(x) + ExponentText(x)))
  }

  /** The digits without the point, and the power of ten that goes with them. */
  function Mantissa(x: Spelling): int {
    var m := DigitsValue(x.whole + x.fraction);
    if x.negative then -m else m
  }

  function Scale(x: Spelling): int {
    (if x.exponent.None? then 0
     else if x.exponent.value.sign == "-" then -DigitsValue(x.exponent.value.digits)
     else DigitsValue(x.exponent.value.digits)) - |x.fraction|
  }

  lemma DigitsGrow(u: seq<text>, c: text)
    ensures DigitsValue(u + [c]) == DigitsValue(u) * 10 + (c as int - 48)
  {
    assert (u + [c])[..|u|] == u;
  }

  lemma {:induction false} DigitsValueNat(t: seq<text>)
    requires AllDigits(t)
    ensures DigitsValue(t) >= 0
  {
    if t != [] {
      DigitsValueNat(t[..|t| - 1]);
    }
  }

  lemma DigitsStep(s: seq<text>, i: nat, n: nat)
    requires i <= |s|
    ensures IsDigit(At(s, i)) ==> i < |s| && ReadDigits(s, i, n) == ReadDigits(s, i + 1, n * 10 + (s[i] as int - 48))
    ensures !IsDigit(At(s, i)) ==> ReadDigits(s, i, n) == (n, i)
  {
  }

  lemma DigitsMove(u: seq<text>, t: seq<text>)
    requires AllDigits(u) && AllDigits(t) && t != []
    ensures AllDigits(u + [t[0]]) && AllDigits(t[1..]) && IsDigit(t[0])
    ensures u + [t[0]] + t[1..] == u + t && [t[0]] + t[1..] == t
  {
  }

  lemma Fits(s: seq<text>, i: nat, t: seq<text>)
    requires Occurs(s, i, t)
    ensures i + |t| <= |s|
  {
  }

  /** A run of digits continues the number read so far. */
  lemma {:induction false} DigitsRead(s: seq<text>, i: nat, u: seq<text>, t: seq<text>)
    requires AllDigits(u) && AllDigits(t) && Occurs(s, i, t) && !IsDigit(At(s, i + |t|))
    ensures i + |t| <= |s| && DigitsValue(u) >= 0
    ensures ReadDigits(s, i, DigitsValue(u)) == (DigitsValue(u + t), i + |t|)
    decreases |t|
  {
    hide ReadDigits, DigitsValue, AllDigits, Occurs, IsDigit;
    DigitsValueNat(u);
    Fits(s, i, t);
    DigitsStep(s, i, DigitsValue(u));
    if t == [] {
      assert u + t == u;
    } else {
      DigitsMove(u, t);
      OccursAt(s, i, t, 0);
      Parts(s, i, [t[0]], t[1..]);
      DigitsGrow(u, t[0]);
      DigitsRead(s, i + 1, u + [t[0]], t[1..]);
    }
  }

  lemma OneDigit(c: text)
    ensures DigitsValue([c]) == c as int - 48
  {
    assert [c][..0] == [] && DigitsValue([]) == 0;
  }

  lemma {:induction false} LeadingZero(t: seq<text>)
    ensures DigitsValue(['0'] + t) == DigitsValue(t)
  {
    if t == [] {
      OneDigit('0');
      assert ['0'] + t == ['0'];
    } else {
      var n := |t| - 1;
      LeadingZero(t[..n]);
      assert (['0'] + t)[..n + 1] == ['0'] + t[..n];
    }
  }

  lemma WholeUnfold(s: seq<text>, i: nat)
    requires i < |s|
    ensures s[i] != '0' && '1' <= s[i] <= '9' ==> ReadWhole(s, i) == ReadDigits(s, i + 1, s[i] as int - 48)
    ensures s[i] == '0' && i + 1 < |s| && '1' <= s[i + 1] <= '9' ==>
              ReadWhole(s, i) == ReadDigits(s, i + 2, s[i + 1] as int - 48)
    ensures s[i] == '0' && !('1' <= At(s, i + 1) <= '9') ==> ReadWhole(s, i) == (0, i + 1)
  {
    hide ReadDigits;
  }

  lemma WholeReads(s: seq<text>, i: nat, t: seq<text>)
    requires AllDigits(t) && t != [] && (t[0] == '0' && |t| > 1 ==> t[1] != '0')
    requires Occurs(s, i, t) && !IsDigit(At(s, i + |t|))
    ensures i + |t| <= |s| && DigitsValue(t) >= 0 && ReadWhole(s, i) == (DigitsValue(t), i + |t|)
  {
    hide ReadDigits, DigitsValue, ReadWhole, Occurs;
    Fits(s, i, t);
    OccursAt(s, i, t, 0);
    assert '0' <= t[0] <= '9';
    WholeUnfold(s, i);
    if t[0] != '0' {
      FirstThenRest(s, i, t);
    } else if |t| == 1 {
      OneDigit('0');
      assert t == ['0'];
    } else {
      AfterZero(s, i, t);
    }
  }

  lemma AfterZero(s: seq<text>, i: nat, t: seq<text>)
    requires AllDigits(t) && |t| > 1 && t[0] == '0' && t[1] != '0'
    requires Occurs(s, i, t) && !IsDigit(At(s, i + |t|))
    ensures i + |t| <= |s| && DigitsValue(t) >= 0 && ReadWhole(s, i) == (DigitsValue(t), i + |t|)
  {
    var r := t[1..];
    assert '0' <= t[1] <= '9';
    DigitsMove([], t);
    hide ReadDigits, DigitsValue, ReadWhole, Occurs, AllDigits;
    Fits(s, i, t);
    OccursAt(s, i, t, 0);
    OccursAt(s, i, t, 1);
    WholeUnfold(s, i);
    Parts(s, i, ['0'], r);
    LeadingZero(r);
    FirstThenRest(s, i + 1, r);
  }

  lemma FirstDigitOf(t: seq<text>)
    requires AllDigits(t) && t != []
    ensures AllDigits([t[0]]) && AllDigits(t[1..]) && [t[0]] + t[1..] == t && t[0] as int >= 48
  {
  }

  lemma FirstThenRest(s: seq<text>, i: nat, t: seq<text>)
    requires AllDigits(t) && t != [] && Occurs(s, i, t) && !IsDigit(At(s, i + |t|))
    ensures i + |t| <= |s| && s[i] == t[0] && DigitsValue(t) >= 0 && s[i] as int >= 48
    ensures ReadDigits(s, i + 1, s[i] as int - 48) == (DigitsValue(t), i + |t|)
  {
    hide *;
    FirstDigitOf(t);
    var first: seq<text>, rest := [t[0]], t[1..];
    Fits(s, i, t);
    OccursAt(s, i, t, 0);
    Parts(s, i, first, rest);
    OneDigit(t[0]);
    assert i + 1 + |rest| == i + |t|;
    DigitsRead(s, i + 1, first, rest);
    DigitsValueNat(t);
  }

  lemma ExponentUnfold(s: seq<text>, i: nat)
    requires i < |s| && (s[i] == 'e' || s[i] == 'E')
    ensures var k := if At(s, i + 1) == '+' || At(s, i + 1) == '-' then i + 2 else i + 1;
            k <= |s| &&
            var v: int := ReadDigits(s, k, 0).0;
            ReadExponent(s, i) == (if At(s, i + 1) == '-' then -v else v, ReadDigits(s, k, 0).1)
  {
    hide ReadDigits;
  }

  lemma ExponentReads(s: seq<text>, i: nat, e: Exponent)
    requires e.letter in ['e', 'E'] && e.sign in ["", "+", "-"] && AllDigits(e.digits) && e.digits != []
    requires Occurs(s, i, [e.letter] + (e.sign + e.digits)) && !IsDigit(At(s, i + 1 + |e.sign| + |e.digits|))
    ensures i <= |s|
    ensures ReadExponent(s, i) ==
            (if e.sign == "-" then -DigitsValue(e.digits) else DigitsValue(e.digits), i + 1 + |e.sign| + |e.digits|)
  {
    hide ReadDigits, DigitsValue, ReadExponent;
    Fits(s, i, [e.letter] + (e.sign + e.digits));
    Parts(s, i, [e.letter], e.sign + e.digits);
    Parts(s, i + 1, e.sign, e.digits);
    hide Occurs;
    OccursAt(s, i, [e.letter], 0);
    OccursAt(s, i + 1 + |e.sign|, e.digits, 0);
    assert '0' <= e.digits[0] <= '9';
    if e.sign != [] {
      OccursAt(s, i + 1, e.sign, 0);
    }
    DigitsFromNothing(s, i + 1 + |e.sign|, e.digits);
    ExponentUnfold(s, i);
  }

  lemma DigitsFromNothing(s: seq<text>, i: nat, t: seq<text>)
    requires AllDigits(t) && Occurs(s, i, t) && !IsDigit(At(s, i + |t|))
    ensures i + |t| <= |s| && DigitsValue(t) >= 0 && ReadDigits(s, i, 0) == (DigitsValue(t), i + |t|)
  {
    DigitsValueNat(t);
    DigitsRead(s, i, [], t);
    assert [] + t == t && DigitsValue([]) == 0;
  }

  /** A byte after which no number goes on. */
  predicate Delimits(c: text) { !IsDigit(c) && c !in ['.', 'e', 'E', '+', '-'] }

  lemma FractionReads(s: seq<text>, k: nat, whole: seq<text>, f: seq<text>)
    requires AllDigits(whole) && AllDigits(f) && f != [] && Occurs(s, k, ['.'] + f) && !IsDigit(At(s, k + 1 + |f|))
    ensures k < |s| && s[k] == '.' && IsDigit(At(s, k + 1)) && DigitsValue(whole) >= 0
    ensures ReadDigits(s, k + 1, DigitsValue(whole)) == (DigitsValue(whole + f), k + 1 + |f|)
  {
    Parts(s, k, ['.'], f);
    OccursAt(s, k, ['.'], 0);
    OccursAt(s, k + 1, f, 0);
    DigitsRead(s, k + 1, whole, f);
  }

  lemma NumUnfold(s: seq<text>, i: nat, start: nat, n: nat, k: nat, m: nat, next: nat)
    requires i < |s| && (s[i] == '-' || IsDigit(s[i])) && start == (if s[i] == '-' then i + 1 else i)
    requires ReadWhole(s, start) == (n, k) && k <= next <= |s|
    requires if next == k then m == n && !(At(s, k) == '.' && IsDigit(At(s, k + 1)))
             else k < |s| && s[k] == '.' && IsDigit(At(s, k + 1)) && ReadDigits(s, k + 1, n) == (m, next)
    ensures var r, d: int := ReadExponent(s, next), m;
            ParseNum(s, i) ==
            Parsed(Num(if s[i] == '-' then -d else d, (if next == k then 0 else k + 1 - next) + r.0), r.1)
  {
    hide ReadDigits, ReadWhole, ReadExponent;
  }

  lemma FractionPart(s: seq<text>, x: Spelling, k: nat, next: nat)
    requires WellSpelt(x) && Occurs(s, k, FractionText(x)) && next == k + |FractionText(x)|
    requires !IsDigit(At(s, next)) && (x.fraction == [] ==> At(s, k) != '.')
    ensures DigitsValue(x.whole) >= 0 && DigitsValue(x.whole + x.fraction) >= 0 && next <= |s|
    ensures if next == k then x.fraction == [] && x.whole + x.fraction == x.whole && At(s, k) != '.'
            else k < |s| && s[k] == '.' && IsDigit(At(s, k + 1)) &&
                 ReadDigits(s, k + 1, DigitsValue(x.whole)) == (DigitsValue(x.whole + x.fraction), next)
  {
    hide ReadDigits, DigitsValue, Occurs;
    Fits(s, k, FractionText(x));
    DigitsValueNat(x.whole);
    DigitsValueNat(x.whole + x.fraction);
    if x.fraction != [] {
      FractionReads(s, k, x.whole, x.fraction);
    } else {
      assert x.whole + x.fraction == x.whole;
    }
  }

  lemma Begins(s: seq<text>, i: nat, x: Spelling)
    requires WellSpelt(x) && Occurs(s, if x.negative then i + 1 else i, x.whole)
    requires x.negative ==> i < |s| && s[i] == '-'
    ensures i < |s| && (s[i] == '-' <==> x.negative) && (s[i] == '-' || IsDigit(s[i]))
  {
    OccursAt(s, if x.negative then i + 1 else i, x.whole, 0);
  }

  lemma Extents(x: Spelling)
    requires WellSpelt(x)
    ensures |NumberText(x)| == (if x.negative then 1 else 0) + |x.whole| + |FractionText(x)| + |ExponentText(x)|
    ensures x.whole != [] && AllDigits(x.whole) && (x.whole[0] == '0' && |x.whole| > 1 ==> x.whole[1] != '0')
    ensures |FractionText(x)| == if x.fraction == [] then 0 else 1 + |x.fraction|
  {
    hide ExponentText, AllDigits;
  }

  /** Every well-spelt number, of any size, is read as its digits and its power of ten. */
  lemma NumberReads(s: seq<text>, i: nat, x: Spelling)
    requires WellSpelt(x) && Occurs(s, i, NumberText(x)) && Delimits(At(s, i + |NumberText(x)|))
    ensures i < |s| && (s[i] == '-' || IsDigit(s[i]))
    ensures ParseNum(s, i) == Parsed(Num(Mantissa(x), Scale(x)), i + |NumberText(x)|)
  {
    hide ReadDigits, ReadWhole, ReadExponent, Occurs, DigitsValue, NumberText, ExponentText, FractionText, Scale,
      ParseNum, WellSpelt, AllDigits, Delimits;
    var start := if x.negative then i + 1 else i;
    var k := start + |x.whole|;
    var next := k + |FractionText(x)|;
    Extents(x);
    Pieces(s, i, x);
    Begins(s, i, x);
    PartStarts(s, x, k, next);
    WholeReads(s, start, x.whole);
    FractionPart(s, x, k, next);
    NumUnfold(s, i, start, DigitsValue(x.whole), k, DigitsValue(x.whole + x.fraction), next);
    ExponentPart(s, x, next);
  }

  lemma Pieces(s: seq<text>, i: nat, x: Spelling)
    requires x.whole != [] && Occurs(s, i, NumberText(x))
    ensures var start := if x.negative then i + 1 else i;
            var next := start + |x.whole| + |FractionText(x)|;
            && Occurs(s, start, x.whole) && Occurs(s, start + |x.whole|, FractionText(x)) && Occurs(s, next, ExponentText(x))
    ensures x.negative ==> i < |s| && s[i] == '-'
  {
    hide Occurs, FractionText, ExponentText;
    var sign := if x.negative then ['-'] else [];
    Parts(s, i, sign, x.whole + (FractionText(x) + ExponentText(x)));
    Parts(s, i + |sign|, x.whole, FractionText(x) + ExponentText(x));
    Parts(s, i + |sign| + |x.whole|, FractionText(x), ExponentText(x));
    Fits(s, i + |sign|, x.whole);
    if x.negative {
      OccursAt(s, i, sign, 0);
    }
  }

  /** Where a part of the number ends, no digit follows. */
  lemma PartStarts(s: seq<text>, x: Spelling, k: nat, next: nat)
    requires WellSpelt(x) && next == k + |FractionText(x)|
    requires Occurs(s, k, FractionText(x)) && Occurs(s, next, ExponentText(x))
    requires Delimits(At(s, next + |ExponentText(x)|))
    ensures !IsDigit(At(s, k)) && !IsDigit(At(s, next))
    ensures x.fraction == [] ==> At(s, k) != '.'
    ensures x.exponent.None? ==> At(s, next) !in ['e', 'E']
  {
    if x.exponent.Some? {
      OccursAt(s, next, ExponentText(x), 0);
    }
    if x.fraction != [] {
      OccursAt(s, k, FractionText(x), 0);
    }
  }

  lemma ExponentPart(s: seq<text>, x: Spelling, next: nat)
    requires WellSpelt(x) && next <= |s| && Occurs(s, next, ExponentText(x)) && Delimits(At(s, next + |ExponentText(x)|))
    requires x.exponent.None? ==> At(s, next) !in ['e', 'E']
    ensures ReadExponent(s, next) == (Scale(x) + |x.fraction|, next + |ExponentText(x)|)
  {
    if x.exponent.Some? {
      ExponentReads(s, next, x.exponent.value);
    }
    hide ReadDigits, DigitsValue, AllDigits, Occurs;
  }
}
