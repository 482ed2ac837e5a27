/** The printing routines of pcs/cJSON.c with their buffers: a first pass measures, a second pass
    writes into an array of the measured length, and no write leaves that array. */
module JsonPrinter {
  import opened Wrappers
  import opened JsonText

  /** The buffer holds, up to `p`, what precedes `rest` in the finished text; the text and its
      terminator fit. */
  ghost predicate Holds(out: array<text>, p: nat, rest: seq<text>, full: seq<text>)
    reads out
  {
    |full| < out.Length && p <= |full| && out[..p] + rest == full
  }

  /** strcpy, as the composing loops use it: append `t` and its terminator at `p`. */
  method Strcpy(out: array<text>, p: nat, t: seq<text>, ghost rest: seq<text>, ghost full: seq<text>) returns (q: nat)
    requires Holds(out, p, t + rest, full)
    modifies out
    ensures q == p + |t| && Holds(out, q, rest, full)
  {
    ghost var done := out[..p];
    assert |done| + |t + rest| == |full|;
    for k := 0 to |t|
      invariant out[..p + k] == done + t[..k]
    {
      out[p + k] := t[k];
    }
    q := p + |t|;
    out[q] := '\0';
    assert out[..q] == done + t;
    assert (done + t) + rest == done + (t + rest);
  }

  /** The loops that write one tab per level. */
  method WriteTabs(out: array<text>, p: nat, n: nat, ghost rest: seq<text>, ghost full: seq<text>) returns (q: nat)
    requires Holds(out, p, Tabs(n) + rest, full)
    modifies out
    ensures q == p + n && Holds(out, q, rest, full)
  {
    ghost var done := out[..p];
    assert |done| + |Tabs(n) + rest| == |full|;
    for k := 0 to n
      invariant out[..p + k] == done + Tabs(k)
    {
      out[p + k] := '\t';
      assert Tabs(k) + ['\t'] == Tabs(k + 1);
    }
    q := p + n;
    assert (done + Tabs(n)) + rest == done + (Tabs(n) + rest);
  }

  /** The closing character and the terminator. */
  method Finish(out: array<text>, p: nat, c: text, ghost full: seq<text>) returns (r: seq<text>)
    requires Holds(out, p, [c], full)
    modifies out
    ensures r == full
  {
    assert |out[..p]| + 1 == |full|;
    out[p], out[p + 1] := c, '\0';
    r := out[..p + 1];
  }

  // ---- Strings -----------------------------------------------------------------------

  /** What the measuring loop of print_string_ptr adds for one byte. */
  function Measure(c: text): nat {
    if c in ['"', '\\', 8 as char, 12 as char, '\n', '\r', '\t'] then 2
    else if c < 32 as char then 6
    else 1
  }

  lemma MeasureIsExact(c: text)
    ensures Measure(c) == |Escape(c)|
  {
  }

  lemma EscapeAllStep(s: seq<text>, i: nat)
    requires i < |s|
    ensures EscapeAll(s[i..]) == Escape(s[i]) + EscapeAll(s[i + 1..])
  {
    assert s[i..][0] == s[i] && s[i..][1..] == s[i + 1..];
  }

  /** The measuring pass counts exactly the bytes the writing pass writes. */
  method MeasureString(str: seq<text>) returns (len: nat)
    ensures len == |EscapeAll(str)|
  {
    len := 0;
    assert str[0..] == str;
    for k := 0 to |str|
      invariant len + |EscapeAll(str[k..])| == |EscapeAll(str)|
    {
      EscapeAllStep(str, k);
      MeasureIsExact(str[k]);
      len := len + Measure(str[k]);
    }
  }

  /** One round of the writing loop. */
  method WriteEscaped(out: array<text>, p: nat, c: text, ghost rest: seq<text>, ghost full: seq<text>) returns (q: nat)
    requires c != '\0' && Holds(out, p, Escape(c) + rest, full)
    modifies out
    ensures q == p + |Escape(c)| && Holds(out, q, rest, full)
  {
    ghost var done := out[..p];
    assert |done| + |Escape(c) + rest| == |full|;
    if c > 31 as char && c != '"' && c != '\\' {
      out[p] := c;
      q := p + 1;
    } else {
      out[p] := '\\';
      q := p + 2;
      if c == '\\' || c == '"' {
        out[p + 1] := c;
      } else if c == 8 as char {
        out[p + 1] := 'b';
      } else if c == 12 as char {
        out[p + 1] := 'f';
      } else if c == '\n' {
        out[p + 1] := 'n';
      } else if c == '\r' {
        out[p + 1] := 'r';
      } else if c == '\t' {
        out[p + 1] := 't';
      } else {
        out[p + 1], out[p + 2], out[p + 3] := 'u', '0', '0';
        out[p + 4], out[p + 5] := Digit(c as int / 16), Digit(c as int % 16);
        q := p + 6;
      }
    }
    assert out[..q] == done + Escape(c);
    assert (done + Escape(c)) + rest == done + (Escape(c) + rest);
  }

  /** print_string_ptr; `size` is the number of bytes it allocates. */
  method PrintStringPtr(str: seq<text>) returns (r: seq<text>, size: nat)
    requires CString(str)
    ensures r == PrintStr(str)
    ensures size == |r| + 1   // the measured length is exact: quotes, escapes and terminator
  {
    var len := MeasureString(str);
    size := len + 3;
    ghost var full := PrintStr(str);
    var out := new text[size](_ => '\0');
    out[0] := '"';
    var p := 1;
    assert str[0..] == str;
    for k := 0 to |str|
      invariant Holds(out, p, EscapeAll(str[k..]) + ['"'], full)
    {
      hide Escape, PrintStr, Holds;
      EscapeAllStep(str, k);
      ghost var rest := EscapeAll(str[k + 1..]);
      assert (Escape(str[k]) + rest) + ['"'] == Escape(str[k]) + (rest + ['"']);
      p := WriteEscaped(out, p, str[k], rest + ['"'], full);
    }
    assert EscapeAll(str[|str|..]) + ['"'] == ['"'];
    r := Finish(out, p, '"', full);
  }

  // ---- Numbers -----------------------------------------------------------------------

  function Pow10(k: nat): nat { if k == 0 then 1 else 10 * Pow10(k - 1) }

  lemma {:induction false} DecimalLength(n: nat, k: nat)
    requires n < Pow10(k) && k >= 1
    ensures |Decimal(n)| <= k
  {
    if n >= 10 {
      DecimalLength(n / 10, k - 1);
    }
  }

  lemma Int32Fits(n: int)
    requires IsInt32(n)
    ensures |PrintNum(n)| <= 11
  {
    assert Pow10(10) == 10000000000 by {
      assert Pow10(4) == 10000;
      assert Pow10(7) == 10000000;
    }
    DecimalLength(if n < 0 then -n else n, 10);
  }

  /** print_number for a 32-bit integer: sprintf into 21 bytes. */
  method PrintNumber(n: int) returns (r: seq<text>)
    requires IsInt32(n)
    ensures r == PrintNum(n)
  {
    Int32Fits(n);
    var str := new text[21](_ => '\0');
    assert PrintNum(n) + [] == PrintNum(n);
    var q := Strcpy(str, 0, PrintNum(n), [], PrintNum(n));
    r := str[..q];
  }

  // ---- Arrays ------------------------------------------------------------------------

  /** The bytes the measuring pass counts for the elements. */
  function MeasuredItems(items: seq<Json>, depth: nat, fmt: bool): nat
  {
    if items == [] then 0
    else |PrintValue(items[0], depth, fmt)| + 2 + (if fmt then 1 else 0) + MeasuredItems(items[1..], depth, fmt)
  }

  lemma {:induction false} MeasuredItemsBound(items: seq<Json>, depth: nat, fmt: bool)
    ensures |PrintItems(items, depth, fmt)| <= MeasuredItems(items, depth, fmt)
  {
    hide PrintValue;
    if |items| > 1 {
      MeasuredItemsBound(items[1..], depth, fmt);
    }
  }

  lemma Unroll<T>(xs: seq<T>, i: nat)
    requires i < |xs|
    ensures xs[i..][0] == xs[i] && xs[i..][1..] == xs[i + 1..]
  {
  }

  /** What the composing loop of print_array has still to write from element `i` on. */
  function ItemsLeft(items: seq<Json>, i: nat, depth: nat, fmt: bool): seq<text>
    requires i <= |items|
  {
    PrintItems(items[i..], depth, fmt) + [']']
  }

  lemma ItemsLeftStep(items: seq<Json>, i: nat, depth: nat, fmt: bool)
    requires i < |items|
    ensures ItemsLeft(items, i, depth, fmt) ==
            PrintValue(items[i], depth, fmt) +
            (When(i + 1 < |items|, Separator(fmt)) + ItemsLeft(items, i + 1, depth, fmt))
  {
    hide PrintValue;
    Unroll(items, i);
    var x, rest := PrintValue(items[i], depth, fmt), PrintItems(items[i + 1..], depth, fmt);
    if i + 1 < |items| {
      assert PrintItems(items[i..], depth, fmt) == x + (Separator(fmt) + rest);
      Regroup(x, Separator(fmt) + rest, [']']);
      Regroup(Separator(fmt), rest, [']']);
    } else {
      assert PrintItems(items[i..], depth, fmt) == x;
    }
  }

  /** The measuring pass of print_array: print every element and add up. */
  method RenderItems(j: Json, depth: nat, fmt: bool) returns (entries: seq<seq<text>>, len: nat)
    requires j.Arr? && Printable(j)
    ensures |entries| == |j.items|
    ensures forall k | 0 <= k < |entries| :: entries[k] == PrintValue(j.items[k], depth, fmt)
    ensures len == 5 + MeasuredItems(j.items, depth, fmt)
    decreases j, 0
  {
    var items := j.items;
    entries, len := [], 5;
    assert items[0..] == items;
    for i := 0 to |items|
      invariant |entries| == i && forall k | 0 <= k < i :: entries[k] == PrintValue(items[k], depth, fmt)
      invariant len + MeasuredItems(items[i..], depth, fmt) == 5 + MeasuredItems(items, depth, fmt)
    {
      hide PrintValue;
      assert items[i] in items;
      Unroll(items, i);
      var ret := PrintJson(items[i], depth, fmt);
      entries := entries + [ret];
      len := len + |ret| + 2 + (if fmt then 1 else 0);
    }
  }

  /** The composing pass of print_array. */
  method ComposeArray(items: seq<Json>, depth: nat, fmt: bool, entries: seq<seq<text>>, len: nat) returns (r: seq<text>)
    requires |entries| == |items|
    requires forall k | 0 <= k < |entries| :: entries[k] == PrintValue(items[k], depth + 1, fmt)
    requires |PrintValue(Arr(items), depth, fmt)| < len
    ensures r == PrintValue(Arr(items), depth, fmt)
  {
    ghost var full := PrintValue(Arr(items), depth, fmt);
    ArrayText(items, depth, fmt);
    hide PrintItems, PrintValue;
    var out := new text[len](_ => '\0');
    out[0] := '[';
    var p := 1;
    assert out[..1] == ['['];
    for i := 0 to |items|
      invariant Holds(out, p, ItemsLeft(items, i, depth + 1, fmt), full)
    {
      hide Holds, ItemsLeft;
      ItemsLeftStep(items, i, depth + 1, fmt);
      ghost var left := ItemsLeft(items, i + 1, depth + 1, fmt);
      var sep := When(i + 1 < |items|, Separator(fmt));
      p := Strcpy(out, p, entries[i], sep + left, full);
      p := Strcpy(out, p, sep, left, full);
    }
    NoItemsLeft(items, depth + 1, fmt);
    r := Finish(out, p, ']', full);
  }

  method PrintArray(j: Json, depth: nat, fmt: bool) returns (r: seq<text>)
    requires j.Arr? && Printable(j)
    ensures r == PrintValue(j, depth, fmt)
    decreases j, 1
  {
    if |j.items| == 0 {
      return "[]";
    }
    var entries, len := RenderItems(j, depth + 1, fmt);
    ArrayText(j.items, depth, fmt);
    r := ComposeArray(j.items, depth, fmt, entries, len);
  }

  lemma ArrayText(items: seq<Json>, depth: nat, fmt: bool)
    ensures PrintValue(Arr(items), depth, fmt) == ['['] + ItemsLeft(items, 0, depth + 1, fmt)
    ensures |PrintValue(Arr(items), depth, fmt)| < 5 + MeasuredItems(items, depth + 1, fmt)
  {
    hide PrintItems;
    assert items[0..] == items;
    MeasuredItemsBound(items, depth + 1, fmt);
  }

  lemma NoItemsLeft(items: seq<Json>, depth: nat, fmt: bool)
    ensures ItemsLeft(items, |items|, depth, fmt) == [']']
  {
  }

  // ---- Objects -----------------------------------------------------------------------

  function MeasuredMembers(members: seq<Member>, depth: nat, fmt: bool): nat {
    if members == [] then 0
    else |PrintValue(members[0].value, depth, fmt)| + |PrintStr(members[0].name)| + 2 +
         (if fmt then 2 + depth else 0) + MeasuredMembers(members[1..], depth, fmt)
  }

  lemma MeasuredMembersStep(members: seq<Member>, i: nat, depth: nat, fmt: bool)
    requires i < |members|
    ensures MeasuredMembers(members[i..], depth, fmt) ==
            |PrintValue(members[i].value, depth, fmt)| + |PrintStr(members[i].name)| + 2 +
            (if fmt then 2 + depth else 0) + MeasuredMembers(members[i + 1..], depth, fmt)
  {
    Unroll(members, i);
  }

  lemma {:induction false} MeasuredMembersBound(members: seq<Member>, depth: nat, fmt: bool)
    ensures |PrintMembers(members, depth, fmt)| <= MeasuredMembers(members, depth, fmt)
  {
    hide PrintValue, PrintStr;
    if members != [] {
      MeasuredMembersBound(members[1..], depth, fmt);
    }
  }

  /** What is still to be written from member `i` on. */
  function MembersLeft(members: seq<Member>, i: nat, depth: nat, fmt: bool): seq<text>
    requires i <= |members|
  {
    PrintMembers(members[i..], depth + 1, fmt) + (When(fmt, Tabs(depth)) + ['}'])
  }

  /** The six pieces written for one member, then the others. */
  function MemberThen(name: seq<text>, value: seq<text>, depth: nat, fmt: bool, more: bool, left: seq<text>): seq<text> {
    When(fmt, Tabs(depth)) + (name + ([':'] + (When(fmt, ['\t']) + (value + (When(more, [',']) + (When(fmt, ['\n']) + left))))))
  }

  lemma MembersLeftStep(members: seq<Member>, i: nat, depth: nat, fmt: bool)
    requires i < |members|
    ensures MembersLeft(members, i, depth, fmt) ==
            MemberThen(PrintStr(members[i].name), PrintValue(members[i].value, depth + 1, fmt), depth + 1, fmt,
                       i + 1 < |members|, MembersLeft(members, i + 1, depth, fmt))
  {
    Unroll(members, i);
    var name, value := PrintStr(members[i].name), PrintValue(members[i].value, depth + 1, fmt);
    var rest, end := PrintMembers(members[i + 1..], depth + 1, fmt), When(fmt, Tabs(depth)) + ['}'];
    assert PrintMembers(members[i..], depth + 1, fmt) ==
           MemberThen(name, value, depth + 1, fmt, i + 1 < |members|, rest);
    MemberThenAppend(name, value, depth + 1, fmt, i + 1 < |members|, rest, end);
  }

  lemma MemberThenAppend(name: seq<text>, value: seq<text>, depth: nat, fmt: bool, more: bool, a: seq<text>, b: seq<text>)
    ensures MemberThen(name, value, depth, fmt, more, a) + b == MemberThen(name, value, depth, fmt, more, a + b)
  {
    hide When, Tabs;
    var nl, comma, gap := When(fmt, ['\n']), When(more, [',']), When(fmt, ['\t']);
    var t1 := nl + a;
    var t2 := comma + t1;
    var t3 := value + t2;
    var t4 := gap + t3;
    var t5 := [':'] + t4;
    var t6 := name + t5;
    Regroup(nl, a, b);
    Regroup(comma, t1, b);
    Regroup(value, t2, b);
    Regroup(gap, t3, b);
    Regroup([':'], t4, b);
    Regroup(name, t5, b);
    Regroup(When(fmt, Tabs(depth)), t6, b);
  }

  method PrintEmptyObject(depth: nat, fmt: bool) returns (r: seq<text>)
    ensures r == PrintValue(Obj([]), depth, fmt)
  {
    ghost var full := PrintValue(Obj([]), depth, fmt);
    var out := new text[if fmt then depth + 4 else 3](_ => '\0');
    out[0] := '{';
    var p := 1;
    if fmt {
      var n := if depth == 0 then 0 else depth - 1;
      out[p] := '\n';
      assert full == ['{', '\n'] + (Tabs(n) + ['}']);
      p := WriteTabs(out, p + 1, n, ['}'], full);
    }
    r := Finish(out, p, '}', full);
  }

  /** The composing loop's work on one member. */
  method WriteMember(out: array<text>, p: nat, name: seq<text>, value: seq<text>, depth: nat, fmt: bool, more: bool,
                     ghost left: seq<text>, ghost full: seq<text>) returns (q: nat)
    requires Holds(out, p, MemberThen(name, value, depth, fmt, more, left), full)
    modifies out
    ensures Holds(out, q, left, full)
  {
    hide Holds;
    var nl, comma, gap := When(fmt, ['\n']), When(more, [',']), When(fmt, ['\t']);
    ghost var t1 := nl + left;
    ghost var t2 := comma + t1;
    ghost var t3 := value + t2;
    ghost var t4 := gap + t3;
    ghost var t5 := [':'] + t4;
    ghost var t6 := name + t5;
    q := p;
    if fmt {
      q := WriteTabs(out, q, depth, t6, full);
    } else {
      assert When(fmt, Tabs(depth)) + t6 == t6;
    }
    q := Strcpy(out, q, name, t5, full);
    q := Strcpy(out, q, [':'], t4, full);
    q := Strcpy(out, q, gap, t3, full);
    q := Strcpy(out, q, value, t2, full);
    q := Strcpy(out, q, comma, t1, full);
    q := Strcpy(out, q, nl, left, full);
  }

  predicate NamesOf(names: seq<seq<text>>, members: seq<Member>) {
    |names| <= |members| && forall k | 0 <= k < |names| :: names[k] == PrintStr(members[k].name)
  }

  predicate ValuesOf(entries: seq<seq<text>>, members: seq<Member>, depth: nat, fmt: bool) {
    |entries| <= |members| && forall k | 0 <= k < |entries| :: entries[k] == PrintValue(members[k].value, depth, fmt)
  }

  lemma OneMoreMember(names: seq<seq<text>>, entries: seq<seq<text>>, members: seq<Member>, depth: nat, fmt: bool)
    requires |names| == |entries| < |members| && NamesOf(names, members) && ValuesOf(entries, members, depth, fmt)
    ensures NamesOf(names + [PrintStr(members[|names|].name)], members)
    ensures ValuesOf(entries + [PrintValue(members[|names|].value, depth, fmt)], members, depth, fmt)
  {
    hide PrintStr, PrintValue;
  }

  lemma PrintableMember(j: Json, i: nat)
    requires j.Obj? && Printable(j) && i < |j.members|
    ensures j.members[i] in j.members && CString(j.members[i].name) && Printable(j.members[i].value)
  {
  }

  /** The measuring pass of print_object. */
  method RenderMembers(j: Json, depth: nat, fmt: bool) returns (names: seq<seq<text>>, entries: seq<seq<text>>, len: nat)
    requires j.Obj? && Printable(j)
    ensures |names| == |entries| == |j.members| && NamesOf(names, j.members) && ValuesOf(entries, j.members, depth, fmt)
    ensures len == 7 + (if fmt then depth else 0) + MeasuredMembers(j.members, depth, fmt)
    decreases j, 0
  {
    var members := j.members;
    names, entries := [], [];
    len := 7 + if fmt then depth else 0;
    ghost var start := len;
    assert members[0..] == members;
    for i := 0 to |members|
      invariant |entries| == |names| == i && NamesOf(names, members) && ValuesOf(entries, members, depth, fmt)
      invariant len + MeasuredMembers(members[i..], depth, fmt) == start + MeasuredMembers(members, depth, fmt)
    {
      hide PrintValue, PrintStr, MeasuredMembers, NamesOf, ValuesOf, Printable, CString;
      PrintableMember(j, i);
      MeasuredMembersStep(members, i, depth, fmt);
      var str, size := PrintStringPtr(members[i].name);
      var ret := PrintJson(members[i].value, depth, fmt);
      OneMoreMember(names, entries, members, depth, fmt);
      names, entries := names + [str], entries + [ret];
      len := len + |ret| + |str| + 2 + (if fmt then 2 + depth else 0);
    }
  }

  lemma ObjectText(members: seq<Member>, depth: nat, fmt: bool)
    requires members != []
    ensures PrintValue(Obj(members), depth, fmt) == ['{'] + (When(fmt, ['\n']) + MembersLeft(members, 0, depth, fmt))
    ensures |PrintValue(Obj(members), depth, fmt)| <
            7 + (if fmt then depth + 1 else 0) + MeasuredMembers(members, depth + 1, fmt)
  {
    hide PrintMembers;
    assert members[0..] == members;
    MeasuredMembersBound(members, depth + 1, fmt);
  }

  lemma NoMembersLeft(members: seq<Member>, depth: nat, fmt: bool)
    ensures MembersLeft(members, |members|, depth, fmt) == When(fmt, Tabs(depth)) + ['}']
  {
  }

  /** The composing pass of print_object. */
  method ComposeObject(members: seq<Member>, depth: nat, fmt: bool, names: seq<seq<text>>, entries: seq<seq<text>>,
                       len: nat) returns (r: seq<text>)
    requires members != [] && |names| == |entries| == |members|
    requires NamesOf(names, members) && ValuesOf(entries, members, depth + 1, fmt)
    requires |PrintValue(Obj(members), depth, fmt)| < len
    ensures r == PrintValue(Obj(members), depth, fmt)
  {
    hide PrintValue, PrintMembers, PrintStr;
    ghost var full := PrintValue(Obj(members), depth, fmt);
    ObjectText(members, depth, fmt);
    ghost var left := MembersLeft(members, 0, depth, fmt);
    var out := new text[len](_ => '\0');
    out[0] := '{';
    assert out[..1] == ['{'];
    var p := Strcpy(out, 1, When(fmt, ['\n']), left, full);
    for i := 0 to |members|
      invariant Holds(out, p, MembersLeft(members, i, depth, fmt), full)
    {
      hide Holds, MembersLeft, MemberThen;
      MembersLeftStep(members, i, depth, fmt);
      left := MembersLeft(members, i + 1, depth, fmt);
      p := WriteMember(out, p, names[i], entries[i], depth + 1, fmt, i + 1 < |members|, left, full);
    }
    NoMembersLeft(members, depth, fmt);
    if fmt {
      p := WriteTabs(out, p, depth, ['}'], full);
    } else {
      assert When(fmt, Tabs(depth)) + ['}'] == ['}'];
    }
    r := Finish(out, p, '}', full);
  }

  method PrintObject(j: Json, depth: nat, fmt: bool) returns (r: seq<text>)
    requires j.Obj? && Printable(j)
    ensures r == PrintValue(j, depth, fmt)
    decreases j, 1
  {
    if |j.members| == 0 {
      r := PrintEmptyObject(depth, fmt);
      return;
    }
    var names, entries, len := RenderMembers(j, depth + 1, fmt);
    ObjectText(j.members, depth, fmt);
    r := ComposeObject(j.members, depth, fmt, names, entries, len);
  }

  /** print_value. */
  method PrintJson(j: Json, depth: nat, fmt: bool) returns (r: seq<text>)
    requires Printable(j)
    ensures r == PrintValue(j, depth, fmt)
    decreases j, 2
  {
    match j
    case Null => r := "null";
    case False => r := "false";
    case True => r := "true";
    case Num(m, _) => r := PrintNumber(m);
    case Str(s) => var size; r, size := PrintStringPtr(s);
    case Arr(_) => r := PrintArray(j, depth, fmt);
    case Obj(_) => r := PrintObject(j, depth, fmt);
  }
}
