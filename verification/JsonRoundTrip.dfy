/** Reading what cJSON printed gives back the same tree: sections 2 and 7 of RFC 8259. */
module JsonRoundTrip {
  import opened Wrappers
  import opened JsonText
  import opened Utf8Char

  /** The two parts of a text that occurs. */
  lemma Parts(s: seq<text>, i: nat, a: seq<text>, b: seq<text>)
    requires Occurs(s, i, a + b)
    ensures Occurs(s, i, a) && Occurs(s, i + |a|, b)
  {
    var t := a + b;
    forall k | 0 <= k < |a|
      ensures s[i + k] == a[k]
    {
      assert t[k] == a[k];
    }
    forall k | 0 <= k < |b|
      ensures s[i + |a| + k] == b[k]
    {
      assert t[|a| + k] == b[k];
    }
  }

  // ---- Whitespace --------------------------------------------------------------------

  predicate Blank(c: text) { c == ' ' || c == '\t' || c == '\n' }

  /** A byte at which `skip` stops. */
  predicate Solid(c: text) { c == '\0' || (c > 32 as char && c != '/') }

  predicate BlankRun(s: seq<text>, a: nat, b: nat) {
    a <= b <= |s| && forall k | a <= k < b :: Blank(s[k])
  }

  lemma {:induction false} SkipSpaceRun(s: seq<text>, a: nat, b: nat)
    requires BlankRun(s, a, b) && Solid(At(s, b))
    ensures SkipSpace(s, a) == b
    decreases b - a
  {
    if a < b {
      assert Blank(s[a]);
      SkipSpaceRun(s, a + 1, b);
    }
  }

  lemma SkipRun(s: seq<text>, a: nat, b: nat)
    requires BlankRun(s, a, b) && Solid(At(s, b))
    ensures Skip(s, a) == b
  {
    SkipSpaceRun(s, a, b);
    SkipSpaceRun(s, b, b);
  }

  predicate AllBlank(t: seq<text>) {
    forall k | 0 <= k < |t| :: Blank(t[k])
  }

  lemma BlankText(s: seq<text>, i: nat, t: seq<text>)
    requires Occurs(s, i, t) && AllBlank(t)
    ensures BlankRun(s, i, i + |t|)
  {
    forall k | i <= k < i + |t|
      ensures Blank(s[k])
    {
      assert s[i + (k - i)] == t[k - i];
    }
  }

  lemma GapsBlank(fmt: bool, n: nat)
    ensures AllBlank(When(fmt, Tabs(n))) && AllBlank(When(fmt, ['\n'] + Tabs(n)))
    ensures AllBlank(When(fmt, ['\n'])) && AllBlank(When(fmt, ['\t'])) && AllBlank(When(fmt, [' ']))
  {
  }

  // ---- Numbers -----------------------------------------------------------------------

  lemma {:induction false} ReadDecimal(s: seq<text>, i: nat, n: nat)
    requires Occurs(s, i, Decimal(n))
    ensures ReadDigits(s, i, 0) == ReadDigits(s, i + |Decimal(n)|, n)
  {
    if n < 10 {
      assert s[i + 0] == Decimal(n)[0];
    } else {
      Parts(s, i, Decimal(n / 10), [Digit(n % 10)]);
      ReadDecimal(s, i, n / 10);
      var k := i + |Decimal(n / 10)|;
      assert s[k + 0] == [Digit(n % 10)][0];
    }
  }

  lemma {:induction false} FirstDigit(n: nat)
    requires n > 0
    ensures '1' <= Decimal(n)[0] <= '9'
  {
    if n >= 10 {
      FirstDigit(n / 10);
    }
  }

  /** A byte that cannot continue a number. */
  predicate EndsNumber(c: text) { !IsDigit(c) && c != '.' && c != 'e' && c != 'E' }

  lemma ReadWholeDecimal(s: seq<text>, i: nat, n: nat)
    requires Occurs(s, i, Decimal(n)) && EndsNumber(At(s, i + |Decimal(n)|))
    ensures ReadWhole(s, i) == (n, i + |Decimal(n)|)
  {
    assert s[i + 0] == Decimal(n)[0];
    if n > 0 {
      FirstDigit(n);
      ReadDecimal(s, i, n);
    }
  }

  lemma ParsePrintedNum(s: seq<text>, i: nat, n: int)
    requires Occurs(s, i, PrintNum(n)) && EndsNumber(At(s, i + |PrintNum(n)|))
    ensures i < |s| && (s[i] == '-' || IsDigit(s[i]))
    ensures ParseNum(s, i) == Parsed(Num(n, 0), i + |PrintNum(n)|)
  {
    var t := PrintNum(n);
    assert s[i + 0] == t[0];
    if n < 0 {
      Parts(s, i, ['-'], Decimal(-n));
      ReadWholeDecimal(s, i + 1, -n);
    } else {
      if n > 0 { FirstDigit(n); }
      ReadWholeDecimal(s, i, n);
    }
  }

  // ---- Strings -----------------------------------------------------------------------

  lemma HexOfDigits(s: seq<text>, i: nat, c: text)
    requires c as int < 32 && Occurs(s, i, ['0', '0', Digit(c as int / 16), Digit(c as int % 16)])
    ensures Hex4(s, i) == c as int
  {
    var t := ['0', '0', Digit(c as int / 16), Digit(c as int % 16)];
    OccursAt(s, i, t, 0);
    OccursAt(s, i, t, 1);
    OccursAt(s, i, t, 2);
    OccursAt(s, i, t, 3);
    assert HexValue(Digit(c as int / 16)) == c as int / 16;
    assert HexValue(Digit(c as int % 16)) == c as int % 16;
  }

  lemma UnicodeEscapeOfControl(s: seq<text>, i: nat, c: text)
    requires 0 < c as int < 32 && Occurs(s, i, ['u', '0', '0', Digit(c as int / 16), Digit(c as int % 16)])
    ensures UnicodeEscape(s, i) == ([c], i + 4)
  {
    var hex := ['0', '0', Digit(c as int / 16), Digit(c as int % 16)];
    assert ['u', '0', '0', Digit(c as int / 16), Digit(c as int % 16)] == ['u'] + hex;
    Parts(s, i, ['u'], hex);
    HexOfDigits(s, i + 1, c);
    assert AsText(EncodeChar(c as int)) == [c];
  }

  /** The two characters, or six, of an escape give the byte back. */
  lemma UnescapeOfEscape(s: seq<text>, i: nat, c: text)
    requires c != '\0' && !Plain(c) && Occurs(s, i, Escape(c))
    ensures s[i] == '\\' && Unescape(s, i + 1) == ([c], i + |Escape(c)| - 1)
  {
    var t := Escape(c);
    OccursAt(s, i, t, 0);
    OccursAt(s, i, t, 1);
    if |t| == 6 {
      assert t == ['\\'] + t[1..];
      Parts(s, i, ['\\'], t[1..]);
      UnicodeEscapeOfControl(s, i + 1, c);
    }
  }

  /** Reading one escaped byte undoes the escape. */
  lemma ParseEscaped(s: seq<text>, i: nat, c: text)
    requires c != '\0' && Occurs(s, i, Escape(c))
    ensures i + |Escape(c)| <= |s|
    ensures ParseChars(s, i, '"') == Prepend([c], ParseChars(s, i + |Escape(c)|, '"'))
  {
    if Plain(c) {
      OccursAt(s, i, Escape(c), 0);
    } else {
      UnescapeOfEscape(s, i, c);
      hide Occurs, Escape, Unescape;
    }
  }

  function Closed(t: seq<text>): seq<text> { EscapeAll(t) + ['"'] }

  lemma ClosedSplit(t: seq<text>)
    requires t != []
    ensures Closed(t) == Escape(t[0]) + Closed(t[1..])
  {
    hide Escape;
  }

  lemma ClosedEmpty(s: seq<text>, i: nat)
    requires Occurs(s, i, Closed([]))
    ensures |Closed([])| == 1 && i < |s| && s[i] == '"'
  {
    OccursAt(s, i, Closed([]), 0);
  }

  lemma ParseQuote(s: seq<text>, i: nat)
    requires i < |s| && s[i] == '"'
    ensures ParseChars(s, i, '"') == Parsed([], i + 1)
  {
  }

  lemma CStringTail(t: seq<text>)
    requires t != [] && CString(t)
    ensures t[0] != '\0' && CString(t[1..])
  {
  }

  lemma {:induction false} ParsePrintedChars(s: seq<text>, i: nat, t: seq<text>)
    requires CString(t) && Occurs(s, i, Closed(t))
    ensures i <= |s| && ParseChars(s, i, '"') == Parsed(t, i + |Closed(t)|)
    decreases |t|
  {
    hide Escape, Occurs, Closed, ParseChars, CString;
    if t == [] {
      ParseQuote(s, i) by { ClosedEmpty(s, i); }
      ClosedEmpty(s, i);
    } else {
      ClosedSplit(t);
      CStringTail(t);
      Parts(s, i, Escape(t[0]), Closed(t[1..]));
      ParseEscaped(s, i, t[0]);
      ParsePrintedChars(s, i + |Escape(t[0])|, t[1..]);
      assert [t[0]] + t[1..] == t;
    }
  }

  lemma MeasureEscaped(s: seq<text>, i: nat, c: text)
    requires c != '\0' && Occurs(s, i, Escape(c)) && Measure(s, i + |Escape(c)|, '"').Parsed?
    ensures Measure(s, i, '"').Parsed?
  {
    var t := Escape(c);
    OccursAt(s, i, t, 0);
    if !Plain(c) {
      OccursAt(s, i, t, 1);
      if |t| == 6 {
        assert t == t[..2] + t[2..];
        Parts(s, i, t[..2], t[2..]);
        MeasureTail(s, i + 2, t[2..]);
      }
    }
  }

  lemma MeasureTail(s: seq<text>, i: nat, t: seq<text>)
    requires |t| == 4 && Occurs(s, i, t) && Measure(s, i + 4, '"').Parsed?
    requires forall k | 0 <= k < 4 :: t[k] != '"' && t[k] != '\\' && t[k] != '\0'
    ensures Measure(s, i, '"').Parsed?
  {
    OccursAt(s, i, t, 0);
    OccursAt(s, i, t, 1);
    OccursAt(s, i, t, 2);
    OccursAt(s, i, t, 3);
    assert Measure(s, i + 3, '"').Parsed?;
    assert Measure(s, i + 2, '"').Parsed?;
  }

  /** The first pass over a printed string stays inside it. */
  lemma {:induction false} MeasurePrinted(s: seq<text>, i: nat, t: seq<text>)
    requires CString(t) && Occurs(s, i, Closed(t))
    ensures i <= |s| && Measure(s, i, '"').Parsed?
    decreases |t|
  {
    hide Escape, Occurs, Closed, CString;
    if t == [] {
      ClosedEmpty(s, i);
    } else {
      hide Measure;
      ClosedSplit(t);
      CStringTail(t);
      Parts(s, i, Escape(t[0]), Closed(t[1..]));
      MeasurePrinted(s, i + |Escape(t[0])|, t[1..]);
      MeasureEscaped(s, i, t[0]);
    }
  }

  lemma ParsePrintedStr(s: seq<text>, i: nat, t: seq<text>)
    requires CString(t) && Occurs(s, i, PrintStr(t))
    ensures i < |s| && s[i] == '"'
    ensures ParseStr(s, i) == Parsed(t, i + |PrintStr(t)|)
  {
    var body := Closed(t);
    assert PrintStr(t) == ['"'] + body;
    hide Occurs, Closed, PrintStr;
    Parts(s, i, ['"'], body);
    OccursAt(s, i, ['"'], 0);
    MeasurePrinted(s, i + 1, t);
    ParsePrintedChars(s, i + 1, t);
  }

  // ---- Values ------------------------------------------------------------------------

  /** Printed values start with a byte at which `skip` stops. */
  lemma FirstByte(j: Json, depth: nat, fmt: bool)
    ensures var t := PrintValue(j, depth, fmt); |t| > 0 && t[0] != '\0' && Solid(t[0]) && t[0] != ']'
  {
    if j.Num? {
      if j.m > 0 { FirstDigit(j.m); }
    }
  }

  lemma OccursAt(s: seq<text>, i: nat, t: seq<text>, k: nat)
    requires Occurs(s, i, t) && k < |t|
    ensures s[i + k] == t[k]
  {
  }

  /** A text that starts differently from a keyword does not contain it. */
  lemma NotKeyword(s: seq<text>, i: nat, w: seq<text>)
    requires i <= |s| && |w| > 0 && At(s, i) != w[0]
    ensures !Occurs(s, i, w)
  {
    if i + |w| <= |s| {
      assert s[i + 0] != w[0];
    }
  }

  lemma {:induction false} ParsePrinted(s: seq<text>, i: nat, j: Json, depth: nat, fmt: bool)
    requires Printable(j) && Occurs(s, i, PrintValue(j, depth, fmt))
    requires EndsNumber(At(s, i + |PrintValue(j, depth, fmt)|))
    ensures ParseValue(s, i) == Parsed(j, i + |PrintValue(j, depth, fmt)|)
    decreases j, 1
  {
    var t := PrintValue(j, depth, fmt);
    FirstByte(j, depth, fmt);
    OccursAt(s, i, t, 0);
    if !(j.Null? || j.False? || j.True?) {
      NotWords(s, i, j, depth, fmt);
    }
    match j
    case Null =>
    case False => NotKeyword(s, i, "null");
    case True => NotKeyword(s, i, "null"); NotKeyword(s, i, "false");
    case Num(m, e) => ParsePrintedNum(s, i, m);
    case Str(x) => ParsePrintedStr(s, i, x);
    case Arr(items) => ParsePrintedArray(s, i, items, depth, fmt);
    case Obj(members) => ParsePrintedObject(s, i, members, depth, fmt);
  }

  lemma NotWords(s: seq<text>, i: nat, j: Json, depth: nat, fmt: bool)
    requires Occurs(s, i, PrintValue(j, depth, fmt)) && !(j.Null? || j.False? || j.True?)
    ensures !Occurs(s, i, "null") && !Occurs(s, i, "false") && !Occurs(s, i, "true")
  {
    FirstByte(j, depth, fmt);
    OccursAt(s, i, PrintValue(j, depth, fmt), 0);
    if j.Num? && j.m > 0 { FirstDigit(j.m); }
    NotKeyword(s, i, "null");
    NotKeyword(s, i, "false");
    NotKeyword(s, i, "true");
  }

  lemma ArrayPieces(s: seq<text>, i: nat, items: seq<Json>, depth: nat, fmt: bool)
    requires Occurs(s, i, PrintValue(Arr(items), depth, fmt))
    ensures var body := PrintItems(items, depth + 1, fmt);
            && i < |s| && s[i] == '[' && Occurs(s, i + 1, body) && At(s, i + 1 + |body|) == ']'
            && i + 1 + |body| < |s| && i + |PrintValue(Arr(items), depth, fmt)| == i + |body| + 2
  {
    var body := PrintItems(items, depth + 1, fmt);
    var t := body + [']'];
    assert PrintValue(Arr(items), depth, fmt) == ['['] + t;
    hide Occurs, PrintValue, PrintMembers, PrintItems;
    Parts(s, i, ['['], t);
    Parts(s, i + 1, body, [']']);
    OccursAt(s, i, ['['], 0);
    OccursAt(s, i + 1 + |body|, [']'], 0);
  }

  lemma {:induction false} ParsePrintedArray(s: seq<text>, i: nat, items: seq<Json>, depth: nat, fmt: bool)
    requires forall x | x in items :: Printable(x)
    requires Occurs(s, i, PrintValue(Arr(items), depth, fmt))
    ensures i < |s| && s[i] == '['
    ensures ParseArray(s, i) == Parsed(Arr(items), i + |PrintValue(Arr(items), depth, fmt)|)
    decreases items, 3
  {
    ArrayPieces(s, i, items, depth, fmt);
    if items == [] {
      SkipRun(s, i + 1, i + 1);
    } else {
      ItemsStart(items, depth + 1, fmt);
      hide Occurs, PrintValue, PrintMembers, PrintItems, ParseItems, Skip, Printable;
      OccursAt(s, i + 1, PrintItems(items, depth + 1, fmt), 0);
      SkipRun(s, i + 1, i + 1);
      ParsePrintedItems(s, i + 1, i + 1, items, depth + 1, fmt);
    }
  }

  lemma ItemsStart(items: seq<Json>, depth: nat, fmt: bool)
    requires items != []
    ensures var t := PrintItems(items, depth, fmt);
            |t| > 0 && t[0] == PrintValue(items[0], depth, fmt)[0] && Solid(t[0]) && t[0] != ']'
  {
    FirstByte(items[0], depth, fmt);
  }

  lemma ItemsSplit(items: seq<Json>, depth: nat, fmt: bool)
    requires |items| > 1
    ensures PrintItems(items, depth, fmt) ==
            PrintValue(items[0], depth, fmt) + (Separator(fmt) + PrintItems(items[1..], depth, fmt))
  {
    hide PrintValue, PrintMembers;
  }

  /** The first of several printed elements, the comma, blanks, and the others at `r`. */
  lemma ItemPieces(s: seq<text>, i: nat, items: seq<Json>, depth: nat, fmt: bool) returns (e: nat, r: nat)
    requires |items| > 1 && Occurs(s, i, PrintItems(items, depth, fmt))
    ensures Occurs(s, i, PrintValue(items[0], depth, fmt)) && e == i + |PrintValue(items[0], depth, fmt)|
    ensures At(s, e) == ',' && e < |s| && BlankRun(s, e + 1, r)
    ensures Occurs(s, r, PrintItems(items[1..], depth, fmt))
    ensures r + |PrintItems(items[1..], depth, fmt)| == i + |PrintItems(items, depth, fmt)|
  {
    ItemsSplit(items, depth, fmt);
    hide Occurs, AllBlank, PrintValue, PrintMembers, PrintItems, BlankRun, When;
    var x, gap, rest := PrintValue(items[0], depth, fmt), When(fmt, [' ']), PrintItems(items[1..], depth, fmt);
    Parts(s, i, x, Separator(fmt) + rest);
    e := i + |x|;
    Parts(s, e, Separator(fmt), rest);
    Parts(s, e, [','], gap);
    OccursAt(s, e, [','], 0);
    GapsBlank(fmt, 0);
    BlankText(s, e + 1, gap);
    r := e + 1 + |gap|;
  }

  lemma ItemsEnd(s: seq<text>, v: nat, i: nat, x: Json, e: nat)
    requires v <= |s| && Skip(s, v) == i && ParseValue(s, i) == Parsed(x, e)
    requires e <= |s| && Skip(s, e) == e && At(s, e) == ']'
    ensures ParseItems(s, v) == Parsed([x], e + 1)
  {
    hide Skip, ParseValue;
  }

  lemma ItemsMore(s: seq<text>, v: nat, i: nat, x: Json, e: nat, xs: seq<Json>, end: nat)
    requires v <= |s| && Skip(s, v) == i && ParseValue(s, i) == Parsed(x, e)
    requires e < |s| && Skip(s, e) == e && At(s, e) == ',' && ParseItems(s, e + 1) == Parsed(xs, end)
    ensures ParseItems(s, v) == Parsed([x] + xs, end)
  {
    hide Skip, ParseValue;
  }

  lemma {:induction false} ParsePrintedItems(s: seq<text>, v: nat, i: nat, items: seq<Json>, depth: nat, fmt: bool)
    requires items != [] && (forall x | x in items :: Printable(x))
    requires BlankRun(s, v, i) && Occurs(s, i, PrintItems(items, depth, fmt))
    requires At(s, i + |PrintItems(items, depth, fmt)|) == ']'
    ensures ParseItems(s, v) == Parsed(items, i + |PrintItems(items, depth, fmt)| + 1)
    decreases items, 2
  {
    hide Occurs, PrintValue, PrintMembers, ParseValue, ParseItems, Skip, Printable;
    ItemsStart(items, depth, fmt);
    OccursAt(s, i, PrintItems(items, depth, fmt), 0);
    SkipRun(s, v, i);
    assert items[0] in items;
    if |items| == 1 {
      ParsePrinted(s, i, items[0], depth, fmt);
      var e := i + |PrintItems(items, depth, fmt)|;
      SkipRun(s, e, e);
      ItemsEnd(s, v, i, items[0], e);
      assert items == [items[0]];
    } else {
      hide PrintItems;
      var e, r := ItemPieces(s, i, items, depth, fmt);
      ParsePrinted(s, i, items[0], depth, fmt);
      SkipRun(s, e, e);
      ParsePrintedItems(s, e + 1, r, items[1..], depth, fmt);
      ItemsMore(s, v, i, items[0], e, items[1..], i + |PrintItems(items, depth, fmt)| + 1);
      assert [items[0]] + items[1..] == items;
    }
  }

  // ---- Objects -----------------------------------------------------------------------

  /** What follows the value of the first member. */
  function MemberTail(members: seq<Member>, depth: nat, fmt: bool): seq<text>
    requires members != []
  {
    When(|members| > 1, [',']) + (When(fmt, ['\n']) + PrintMembers(members[1..], depth, fmt))
  }

  /** The part of the first printed member from its colon on. */
  function MemberRest(members: seq<Member>, depth: nat, fmt: bool): seq<text>
    requires members != []
  {
    [':'] + (When(fmt, ['\t']) + (PrintValue(members[0].value, depth, fmt) + MemberTail(members, depth, fmt)))
  }

  lemma MembersSplit(members: seq<Member>, depth: nat, fmt: bool)
    requires members != []
    ensures PrintMembers(members, depth, fmt) ==
            When(fmt, Tabs(depth)) + (PrintStr(members[0].name) + MemberRest(members, depth, fmt))
  {
    hide PrintValue, PrintStr, PrintItems, When, Tabs;
  }

  lemma NamePieces(s: seq<text>, i: nat, members: seq<Member>, depth: nat, fmt: bool) returns (k: nat, w: nat)
    requires members != [] && Occurs(s, i, PrintMembers(members, depth, fmt))
    ensures k == i + |When(fmt, Tabs(depth))| && BlankRun(s, i, k)
    ensures Occurs(s, k, PrintStr(members[0].name)) && At(s, k) == '"'
    ensures w == k + |PrintStr(members[0].name)| && Occurs(s, w, MemberRest(members, depth, fmt))
    ensures w + |MemberRest(members, depth, fmt)| == i + |PrintMembers(members, depth, fmt)|
  {
    MembersSplit(members, depth, fmt);
    hide Occurs, AllBlank, PrintMembers, PrintValue, PrintItems, When, Tabs, BlankRun, MemberRest;
    var lead, name, rest := When(fmt, Tabs(depth)), PrintStr(members[0].name), MemberRest(members, depth, fmt);
    var t := name + rest;
    Parts(s, i, lead, t);
    k := i + |lead|;
    GapsBlank(fmt, depth);
    BlankText(s, i, lead);
    Parts(s, k, name, rest);
    OccursAt(s, k, name, 0);
    w := k + |name|;
  }

  lemma ValuePieces(s: seq<text>, w: nat, members: seq<Member>, depth: nat, fmt: bool) returns (b: nat, e: nat)
    requires members != [] && Occurs(s, w, MemberRest(members, depth, fmt))
    ensures w < |s| && At(s, w) == ':' && BlankRun(s, w + 1, b)
    ensures Occurs(s, b, PrintValue(members[0].value, depth, fmt)) && Solid(At(s, b))
    ensures e == b + |PrintValue(members[0].value, depth, fmt)| && Occurs(s, e, MemberTail(members, depth, fmt))
    ensures e + |MemberTail(members, depth, fmt)| == w + |MemberRest(members, depth, fmt)|
  {
    hide Occurs, AllBlank, PrintMembers, PrintValue, PrintItems, MemberTail, When, BlankRun;
    var gap := When(fmt, ['\t']);
    var x, tail := PrintValue(members[0].value, depth, fmt), MemberTail(members, depth, fmt);
    var t1 := x + tail;
    var t2 := gap + t1;
    Parts(s, w, [':'], t2);
    OccursAt(s, w, [':'], 0);
    Parts(s, w + 1, gap, t1);
    b := w + 1 + |gap|;
    GapsBlank(fmt, 0);
    BlankText(s, w + 1, gap);
    Parts(s, b, x, tail);
    FirstByte(members[0].value, depth, fmt);
    OccursAt(s, b, x, 0);
    e := b + |x|;
  }

  /** One member: `v` is anywhere in the blanks before it; the position after its value is returned. */
  lemma {:induction false} ParsePrintedMember(s: seq<text>, v: nat, i: nat, members: seq<Member>, depth: nat, fmt: bool)
    returns (e: nat)
    requires members != [] && CString(members[0].name) && Printable(members[0].value)
    requires Occurs(s, i, PrintMembers(members, depth, fmt))
    requires BlankRun(s, v, i + |When(fmt, Tabs(depth))|)
    requires EndsNumber(At(s, i + |PrintMembers(members, depth, fmt)|))
    ensures ParseMember(s, v) == Parsed(members[0], e)
    ensures Occurs(s, e, MemberTail(members, depth, fmt))
    ensures e + |MemberTail(members, depth, fmt)| == i + |PrintMembers(members, depth, fmt)|
    decreases members, 3
  {
    hide Occurs, PrintMembers, PrintValue, PrintStr, ParseValue, ParseStr, Skip, Printable, MemberRest, MemberTail;
    var k, w := NamePieces(s, i, members, depth, fmt);
    var b;
    b, e := ValuePieces(s, w, members, depth, fmt);
    SkipRun(s, v, k);
    ParsePrintedStr(s, k, members[0].name);
    SkipRun(s, w, w);
    SkipRun(s, w + 1, b);
    TailEndsNumber(s, e, members, depth, fmt);
    ParsePrinted(s, b, members[0].value, depth, fmt);
  }

  lemma TailEndsNumber(s: seq<text>, e: nat, members: seq<Member>, depth: nat, fmt: bool)
    requires members != [] && Occurs(s, e, MemberTail(members, depth, fmt))
    requires EndsNumber(At(s, e + |MemberTail(members, depth, fmt)|))
    ensures EndsNumber(At(s, e))
  {
    hide PrintValue, PrintItems;
    if MemberTail(members, depth, fmt) != [] {
      OccursAt(s, e, MemberTail(members, depth, fmt), 0);
    }
  }

  /** After the value of a member that is not the last: the comma, blanks, and the other members. */
  lemma TailPieces(s: seq<text>, a: nat, members: seq<Member>, depth: nat, fmt: bool) returns (r: nat)
    requires |members| > 1 && Occurs(s, a, MemberTail(members, depth, fmt))
    ensures At(s, a) == ',' && a < |s|
    ensures Occurs(s, r, PrintMembers(members[1..], depth, fmt))
    ensures a + 1 <= r && BlankRun(s, a + 1, r + |When(fmt, Tabs(depth))|)
    ensures r + |PrintMembers(members[1..], depth, fmt)| == a + |MemberTail(members, depth, fmt)|
  {
    hide Occurs, AllBlank, PrintValue, PrintItems, PrintMembers;
    var nl, rest := When(fmt, ['\n']), PrintMembers(members[1..], depth, fmt);
    Parts(s, a, [','], nl + rest);
    OccursAt(s, a, [','], 0);
    Parts(s, a + 1, nl, rest);
    GapsBlank(fmt, 0);
    BlankText(s, a + 1, nl);
    r := a + 1 + |nl|;
    var k, _ := NamePieces(s, r, members[1..], depth, fmt);
  }

  /** After the value of the last member there are only blanks. */
  lemma LastTail(s: seq<text>, a: nat, members: seq<Member>, depth: nat, fmt: bool)
    requires |members| == 1 && Occurs(s, a, MemberTail(members, depth, fmt))
    ensures BlankRun(s, a, a + |MemberTail(members, depth, fmt)|)
  {
    hide PrintValue, PrintItems, Occurs, AllBlank;
    assert MemberTail(members, depth, fmt) == When(fmt, ['\n']);
    GapsBlank(fmt, 0);
    BlankText(s, a, When(fmt, ['\n']));
  }

  lemma {:induction false} ParsePrintedMembers(
    s: seq<text>, v: nat, i: nat, e: nat, members: seq<Member>, depth: nat, fmt: bool)
    requires members != [] && (forall x | x in members :: CString(x.name) && Printable(x.value))
    requires Occurs(s, i, PrintMembers(members, depth, fmt))
    requires BlankRun(s, v, i + |When(fmt, Tabs(depth))|)
    requires BlankRun(s, i + |PrintMembers(members, depth, fmt)|, e) && At(s, e) == '}'
    ensures ParseMembers(s, v) == Parsed(members, e + 1)
    decreases members, 4
  {
    hide Occurs, PrintMembers, MemberTail, ParseMember, Skip, Printable;
    assert members[0] in members;
    var end := i + |PrintMembers(members, depth, fmt)|;
    assert end < e ==> Blank(s[end]);
    var a := ParsePrintedMember(s, v, i, members, depth, fmt);
    if |members| == 1 {
      LastTail(s, a, members, depth, fmt);
      assert BlankRun(s, a, e);
      SkipRun(s, a, e);
      assert members == [members[0]];
    } else {
      var r := TailPieces(s, a, members, depth, fmt);
      SkipRun(s, a, a);
      ParsePrintedMembers(s, a + 1, r, e, members[1..], depth, fmt);
      assert [members[0]] + members[1..] == members;
    }
  }

  /** The gap between the braces of an empty object. */
  function EmptyGap(depth: nat, fmt: bool): seq<text> {
    When(fmt, ['\n'] + Tabs(if depth == 0 then 0 else depth - 1))
  }

  lemma EmptyPieces(s: seq<text>, i: nat, depth: nat, fmt: bool)
    requires Occurs(s, i, PrintValue(Obj([]), depth, fmt))
    ensures var e := i + 1 + |EmptyGap(depth, fmt)|;
            i < |s| && s[i] == '{' && BlankRun(s, i + 1, e) && At(s, e) == '}'
    ensures |PrintValue(Obj([]), depth, fmt)| == |EmptyGap(depth, fmt)| + 2
  {
    var gap := EmptyGap(depth, fmt);
    var t := gap + ['}'];
    GapsBlank(fmt, if depth == 0 then 0 else depth - 1);
    assert PrintValue(Obj([]), depth, fmt) == ['{'] + t;
    hide Occurs, AllBlank, PrintValue, EmptyGap, BlankRun;
    Parts(s, i, ['{'], t);
    Parts(s, i + 1, gap, ['}']);
    OccursAt(s, i, ['{'], 0);
    OccursAt(s, i + 1 + |gap|, ['}'], 0);
    BlankText(s, i + 1, gap);
  }

  lemma ParsePrintedEmpty(s: seq<text>, i: nat, depth: nat, fmt: bool)
    requires Occurs(s, i, PrintValue(Obj([]), depth, fmt))
    ensures i < |s| && s[i] == '{'
    ensures ParseObject(s, i) == Parsed(Obj([]), i + |PrintValue(Obj([]), depth, fmt)|)
  {
    hide Occurs, PrintValue, EmptyGap, Skip, ParseMembers;
    EmptyPieces(s, i, depth, fmt);
    SkipRun(s, i + 1, i + 1 + |EmptyGap(depth, fmt)|);
  }

  /** The printed object without its opening brace and line break. */
  function ObjectRest(members: seq<Member>, depth: nat, fmt: bool): seq<text> {
    PrintMembers(members, depth + 1, fmt) + (When(fmt, Tabs(depth)) + ['}'])
  }

  lemma ObjectOpens(s: seq<text>, i: nat, members: seq<Member>, depth: nat, fmt: bool) returns (b: nat)
    requires members != [] && Occurs(s, i, PrintValue(Obj(members), depth, fmt))
    ensures i < |s| && s[i] == '{' && BlankRun(s, i + 1, b) && Occurs(s, b, ObjectRest(members, depth, fmt))
    ensures b + |ObjectRest(members, depth, fmt)| == i + |PrintValue(Obj(members), depth, fmt)|
  {
    ObjectSplit(members, depth, fmt);
    hide Occurs, AllBlank, PrintValue, PrintItems, PrintMembers, BlankRun, When, ObjectRest;
    var nl, rest := When(fmt, ['\n']), ObjectRest(members, depth, fmt);
    var t := nl + rest;
    Parts(s, i, ['{'], t);
    OccursAt(s, i, ['{'], 0);
    Parts(s, i + 1, nl, rest);
    b := i + 1 + |nl|;
    GapsBlank(fmt, 0);
    BlankText(s, i + 1, nl);
  }

  lemma ObjectCloses(s: seq<text>, b: nat, members: seq<Member>, depth: nat, fmt: bool) returns (e: nat)
    requires Occurs(s, b, ObjectRest(members, depth, fmt))
    ensures Occurs(s, b, PrintMembers(members, depth + 1, fmt))
    ensures BlankRun(s, b + |PrintMembers(members, depth + 1, fmt)|, e)
    ensures At(s, e) == '}' && e < |s| && e + 1 == b + |ObjectRest(members, depth, fmt)|
  {
    hide Occurs, AllBlank, PrintValue, PrintItems, PrintMembers, BlankRun, When, Tabs;
    var body, close := PrintMembers(members, depth + 1, fmt), When(fmt, Tabs(depth));
    var t := close + ['}'];
    Parts(s, b, body, t);
    Parts(s, b + |body|, close, ['}']);
    e := b + |body| + |close|;
    GapsBlank(fmt, depth);
    BlankText(s, b + |body|, close);
    OccursAt(s, e, ['}'], 0);
  }

  lemma ObjectSplit(members: seq<Member>, depth: nat, fmt: bool)
    requires members != []
    ensures PrintValue(Obj(members), depth, fmt) ==
            ['{'] + (When(fmt, ['\n']) + ObjectRest(members, depth, fmt))
  {
    hide PrintMembers, PrintItems, When, Tabs;
  }

  lemma ObjectStep(s: seq<text>, i: nat, v: nat, members: seq<Member>, end: nat)
    requires i < |s| && s[i] == '{' && Skip(s, i + 1) == v && At(s, v) != '}'
    requires v <= |s| && ParseMembers(s, v) == Parsed(members, end)
    ensures ParseObject(s, i) == Parsed(Obj(members), end)
  {
    hide Skip, ParseMembers;
  }

  /** Where a printed object has its first name, its member list and its closing brace. */
  lemma ObjectPieces(s: seq<text>, i: nat, members: seq<Member>, depth: nat, fmt: bool)
    returns (b: nat, k: nat, e: nat)
    requires members != [] && Occurs(s, i, PrintValue(Obj(members), depth, fmt))
    ensures i < |s| && s[i] == '{' && At(s, k) == '"' && Skip(s, i + 1) == k <= |s|
    ensures Occurs(s, b, PrintMembers(members, depth + 1, fmt)) && k == b + |When(fmt, Tabs(depth + 1))|
    ensures BlankRun(s, b + |PrintMembers(members, depth + 1, fmt)|, e) && At(s, e) == '}'
    ensures e + 1 == i + |PrintValue(Obj(members), depth, fmt)|
  {
    hide Occurs, PrintValue, PrintMembers, Skip, ObjectRest, MemberRest, When, Tabs;
    b := ObjectOpens(s, i, members, depth, fmt);
    e := ObjectCloses(s, b, members, depth, fmt);
    var w;
    k, w := NamePieces(s, b, members, depth + 1, fmt);
    assert BlankRun(s, i + 1, k);
    SkipRun(s, i + 1, k);
  }

  lemma {:induction false} ParsePrintedObject(s: seq<text>, i: nat, members: seq<Member>, depth: nat, fmt: bool)
    requires forall x | x in members :: CString(x.name) && Printable(x.value)
    requires Occurs(s, i, PrintValue(Obj(members), depth, fmt))
    ensures i < |s| && s[i] == '{'
    ensures ParseObject(s, i) == Parsed(Obj(members), i + |PrintValue(Obj(members), depth, fmt)|)
    decreases members, 5
  {
    hide Occurs, PrintValue, PrintMembers, Skip, ParseMembers, ParseObject, Printable, When, Tabs;
    if members == [] {
      ParsePrintedEmpty(s, i, depth, fmt);
    } else {
      var b, k, e := ObjectPieces(s, i, members, depth, fmt);
      ParsePrintedMembers(s, k, b, e, members, depth + 1, fmt);
      ObjectStep(s, i, k, members, e + 1);
    }
  }

  /** cJSON_Parse undoes cJSON_Print and cJSON_PrintUnformatted on every printable tree. */
  lemma ParseUndoesPrint(j: Json, fmt: bool)
    requires Printable(j)
    ensures Parse(PrintValue(j, 0, fmt)) == Parsed(j, |PrintValue(j, 0, fmt)|)
  {
    var t := PrintValue(j, 0, fmt);
    FirstByte(j, 0, fmt);
    SkipRun(t, 0, 0);
    assert t[..|t|] == t;
    ParsePrinted(t, 0, j, 0, fmt);
  }
}
