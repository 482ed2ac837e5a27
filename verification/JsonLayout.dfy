/** How a printed tree looks, in closed form: which bytes stand between values, how deep lines are indented,
    and how numbers and strings are spelt. */
module JsonLayout {
  import opened Wrappers
  import opened JsonText
  import opened JsonRoundTrip

  /** Texts one after the other. */
  function Flat(ss: seq<seq<text>>): seq<text> { if ss == [] then [] else ss[0] + Flat(ss[1..]) }

  function Indent(n: nat): seq<text> { seq(n, _ => '\t') }

  // ---- Arrays and objects ------------------------------------------------------------

  /** Elements on one line, with a comma between two, and a blank after it when formatted. */
  function Elements(items: seq<Json>, depth: nat, fmt: bool): seq<seq<text>> {
    seq(|items|, i requires 0 <= i < |items| =>
      PrintValue(items[i], depth + 1, fmt) + if i == |items| - 1 then [] else if fmt then [',', ' '] else [','])
  }

  lemma {:induction false} ItemsAreElements(items: seq<Json>, depth: nat, fmt: bool)
    ensures PrintItems(items, depth + 1, fmt) == Flat(Elements(items, depth, fmt))
    decreases |items|
  {
    hide PrintValue;
    if items != [] {
      var es, rest := Elements(items, depth, fmt), Elements(items[1..], depth, fmt);
      assert es[1..] == rest;
      ItemsAreElements(items[1..], depth, fmt);
      if |items| == 1 {
        assert rest == [] && es[0] + Flat(rest) == PrintValue(items[0], depth + 1, fmt);
      } else {
        ItemsSplit(items, depth + 1, fmt);
        assert Separator(fmt) == if fmt then [',', ' '] else [','];
        hide PrintItems, Flat, Separator;
        Regroup(PrintValue(items[0], depth + 1, fmt), Separator(fmt), PrintItems(items[1..], depth + 1, fmt));
      }
    }
  }

  lemma ArrayLayout(items: seq<Json>, depth: nat, fmt: bool)
    ensures PrintValue(Arr(items), depth, fmt) == ['['] + Flat(Elements(items, depth, fmt)) + [']']
  {
    ItemsAreElements(items, depth, fmt);
    assert PrintValue(Arr(items), depth, fmt) == ['['] + (PrintItems(items, depth + 1, fmt) + [']']);
    hide PrintItems, PrintValue, Flat, Elements;
  }

  /** One member: its name, a colon, its value, and a comma unless it is the last. Formatted, it stands
      on a line of its own, one tab deeper than the object, with a tab before the value. */
  function MemberText(m: Member, depth: nat, fmt: bool, last: bool): seq<text> {
    (if fmt then Indent(depth + 1) else []) + PrintStr(m.name) + (if fmt then [':', '\t'] else [':']) +
    PrintValue(m.value, depth + 1, fmt) + (if last then [] else [',']) + (if fmt then ['\n'] else [])
  }

  function Lines(members: seq<Member>, depth: nat, fmt: bool): seq<seq<text>> {
    seq(|members|, i requires 0 <= i < |members| => MemberText(members[i], depth, fmt, i == |members| - 1))
  }

  lemma FirstMember(members: seq<Member>, depth: nat, fmt: bool)
    requires members != []
    ensures PrintMembers(members, depth + 1, fmt) ==
            MemberText(members[0], depth, fmt, |members| == 1) + PrintMembers(members[1..], depth + 1, fmt)
  {
    MembersSplit(members, depth + 1, fmt);
    hide PrintMembers, PrintValue, PrintStr;
    assert When(true, Tabs(depth + 1)) == Indent(depth + 1) && When(false, Tabs(depth + 1)) == [];
    var name, value := PrintStr(members[0].name), PrintValue(members[0].value, depth + 1, fmt);
    var rest := PrintMembers(members[1..], depth + 1, fmt);
    Spread(if fmt then Indent(depth + 1) else [], name, value, When(|members| > 1, [',']), rest, fmt);
  }

  lemma Spread(tabs: seq<text>, name: seq<text>, value: seq<text>, comma: seq<text>, rest: seq<text>, fmt: bool)
    ensures var gap, end := When(fmt, ['\t']), When(fmt, ['\n']);
            tabs + (name + ([':'] + (gap + (value + (comma + (end + rest)))))) ==
            (tabs + name + (if fmt then [':', '\t'] else [':']) + value + comma + end) + rest
  {
  }

  lemma {:induction false} MembersAreLines(members: seq<Member>, depth: nat, fmt: bool)
    ensures PrintMembers(members, depth + 1, fmt) == Flat(Lines(members, depth, fmt))
    decreases |members|
  {
    hide PrintValue, PrintStr, MemberText;
    if members != [] {
      FirstMember(members, depth, fmt);
      MembersAreLines(members[1..], depth, fmt);
      var ls := Lines(members, depth, fmt);
      assert ls[1..] == Lines(members[1..], depth, fmt);
      hide PrintMembers;
    }
  }

  lemma ObjectLayout(members: seq<Member>, depth: nat, fmt: bool)
    requires members != []
    ensures PrintValue(Obj(members), depth, fmt) ==
            (if fmt then ['{', '\n'] else ['{']) + Flat(Lines(members, depth, fmt)) +
            (if fmt then Indent(depth) else []) + ['}']
  {
    MembersAreLines(members, depth, fmt);
    var body := PrintMembers(members, depth + 1, fmt);
    assert PrintValue(Obj(members), depth, fmt) ==
      ['{'] + (When(fmt, ['\n']) + (body + (When(fmt, Tabs(depth)) + ['}'])));
    hide PrintMembers, PrintValue, Flat, Lines;
    assert When(fmt, Tabs(depth)) == if fmt then Indent(depth) else [];
    Enclosed(body, if fmt then Indent(depth) else [], fmt);
  }

  lemma Enclosed(body: seq<text>, tabs: seq<text>, fmt: bool)
    ensures ['{'] + (When(fmt, ['\n']) + (body + (tabs + ['}']))) ==
            (if fmt then ['{', '\n'] else ['{']) + body + tabs + ['}']
  {
  }

  /** An empty object, and the words. */
  lemma SmallLayouts(depth: nat, fmt: bool)
    ensures PrintValue(Obj([]), depth, fmt) ==
            (if fmt then ['{', '\n'] + Indent(if depth == 0 then 0 else depth - 1) else ['{']) + ['}']
    ensures PrintValue(Null, depth, fmt) == "null" && PrintValue(True, depth, fmt) == "true"
    ensures PrintValue(False, depth, fmt) == "false"
  {
    assert Tabs(if depth == 0 then 0 else depth - 1) == Indent(if depth == 0 then 0 else depth - 1);
    hide PrintItems, PrintMembers;
  }

  // ---- Numbers -----------------------------------------------------------------------

  /** The number that decimal digits spell. */
  function DigitsValue(t: seq<text>): int {
    if t == [] then 0 else DigitsValue(t[..|t| - 1]) * 10 + (t[|t| - 1] as int - '0' as int)
  }

  predicate AllDigits(t: seq<text>) { forall k | 0 <= k < |t| :: '0' <= t[k] <= '9' }

  lemma {:induction false} DecimalSpells(n: nat)
    ensures AllDigits(Decimal(n)) && DigitsValue(Decimal(n)) == n
    ensures Decimal(n)[0] == '0' ==> n == 0 && |Decimal(n)| == 1
  {
    if n >= 10 {
      DecimalSpells(n / 10);
      var t := Decimal(n / 10);
      assert (t + [Digit(n % 10)])[..|t|] == t;
    } else {
      assert Decimal(n)[..0] == [];
    }
  }

  /** A minus sign if the number is negative, then its decimal digits without leading zeros. */
  lemma NumberLayout(n: int)
    ensures var t := PrintNum(n); var digits := if n < 0 then t[1..] else t;
            && (n < 0 ==> t[0] == '-') && digits != []
            && AllDigits(digits) && DigitsValue(digits) == (if n < 0 then -n else n)
            && (digits[0] == '0' ==> n == 0 && |digits| == 1)
  {
    DecimalSpells(if n < 0 then -n else n);
    hide Decimal;
    if n < 0 {
      assert PrintNum(n)[1..] == Decimal(-n);
    }
  }

  // ---- Strings -----------------------------------------------------------------------

  /** The spelling of one byte. */
  lemma EscapeIs(c: text)
    ensures var e, v := Escape(c), c as int;
            if c == '"' then e == "\\\"" else if c == '\\' then e == "\\\\"
            else if v >= 32 then e == [c]
            else if v == 8 then e == "\\b" else if v == 9 then e == "\\t" else if v == 10 then e == "\\n"
            else if v == 12 then e == "\\f" else if v == 13 then e == "\\r"
            else |e| == 6 && e[..4] == "\\u00" && e[4] == (if v < 16 then '0' else '1') &&
                 e[5] as int == if v % 16 < 10 then '0' as int + v % 16 else 'a' as int + (v % 16 - 10)
  {
  }

  function Spellings(t: seq<text>): seq<seq<text>> { seq(|t|, i requires 0 <= i < |t| => Escape(t[i])) }

  lemma {:induction false} EscapesInOrder(t: seq<text>)
    ensures EscapeAll(t) == Flat(Spellings(t))
  {
    hide Escape;
    if t != [] {
      EscapesInOrder(t[1..]);
      assert Spellings(t)[1..] == Spellings(t[1..]);
    }
  }

  /** A string between quotes, each byte spelt in its turn. */
  lemma StringLayout(t: seq<text>)
    ensures PrintStr(t) == ['"'] + Flat(Spellings(t)) + ['"']
  {
    EscapesInOrder(t);
    hide EscapeAll, Flat, Spellings;
  }
}
