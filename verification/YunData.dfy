/** pcs_get_yunData: find `key = {` in a page and return the text up to the matching brace, with a
    32-entry bracket stack that also tracks quotes and backslashes (pcs/pcs.c). */
module YunData {
  import opened Wrappers
  import opened JsonText
  import opened JsonRoundTrip

  const STACK := 32   // ST_LEN; entry 0 is a sentinel

  type Stack = st: seq<text> | 1 <= |st| <= STACK witness ['\0']

  const EMPTY: Stack := ['\0']

  function Top(st: Stack): text { st[|st| - 1] }

  function Pop(st: Stack): Stack
    requires |st| > 1
  {
    st[..|st| - 1]
  }

  /** None when the stack is full. */
  function Push(st: Stack, c: text): Option<Stack> {
    if |st| < STACK then Some(st + [c]) else None
  }

  /** What one byte does to the stack. */
  function Step(st: Stack, c: text): Option<Stack>
    requires |st| > 1 || c == '{'
  {
    if Top(st) == '\\' && |st| > 1 then Some(Pop(st))
    else if c == '"' then (if Top(st) == '"' && |st| > 1 then Some(Pop(st)) else Push(st, '"'))
    else if c == '\\' then Push(st, '\\')
    else if c == '{' || c == '[' || c == '(' then (if Top(st) != '"' then Push(st, c) else Some(st))
    else if c == '}' || c == ']' || c == ')' then (if Top(st) != '"' then Some(Pop(st)) else Some(st))
    else Some(st)
  }

  datatype Scan = Emptied(at: nat) | RanOut(st: Stack) | Full

  /** Scan from `i` until the stack is empty, the text ends, or the stack is full. */
  function ScanFrom(s: seq<text>, i: nat, st: Stack): Scan
    requires |st| > 1 || At(s, i) == '{'
    decreases |s| - i
  {
    if i >= |s| then RanOut(st)
    else
      match Step(st, s[i])
      case None => Full
      case Some(st') => if |st'| == 1 then Emptied(i) else ScanFrom(s, i + 1, st')
  }

  predicate White(c: text) {
    c == ' ' || c == 12 as char || c == '\n' || c == '\r' || c == '\t' || c == 11 as char
  }

  function SkipWhite(s: seq<text>, i: nat): (k: nat)
    requires i <= |s|
    ensures i <= k <= |s|
    decreases |s| - i
  {
    if i < |s| && White(s[i]) then SkipWhite(s, i + 1) else i
  }

  /** pcs_utils_streq stops at the end of either text, so a page that ends inside the key matches. */
  predicate KeyAt(s: seq<text>, p: nat, key: seq<text>) {
    p < |s| && key != [] && s[p] == key[0] &&
    forall k | 0 <= k < |key| && p + k < |s| :: s[p + k] == key[k]
  }

  /** The opening brace after the key at `p`, an equals sign and whitespace. */
  function BraceAfter(s: seq<text>, p: nat, key: seq<text>): (r: Option<nat>)
    requires p + |key| <= |s|
    ensures r.Some? ==> At(s, r.value) == '{' && r.value < |s|
  {
    var t := SkipWhite(s, p + |key|);
    if At(s, t) != '=' then None
    else
      var u := SkipWhite(s, t + 1);
      if At(s, u) == '{' then Some(u) else None
  }

  datatype Result = Found(t: seq<text>) | NotFound | Undefined

  /** The search from `p` on; the stack is not reset between candidates. */
  function Search(s: seq<text>, p: nat, st: Stack, key: seq<text>): Result
    decreases |s| - p
  {
    if p >= |s| then NotFound
    else if !KeyAt(s, p, key) then Search(s, p + 1, st, key)
    else if p + |key| > |s| then Undefined
    else
      match BraceAfter(s, p, key)
      case None => Search(s, p + 1, st, key)
      case Some(b) =>
        match ScanFrom(s, b, st)
        case Full => Undefined
        case RanOut(st') => Search(s, p + 1, st', key)
        case Emptied(e) =>
          if e < |s| && s[e] == '}' && b <= e then Found(s[b..e + 1]) else Search(s, p + 1, EMPTY, key)
  }

  // ---- The loop ----------------------------------------------------------------------

  method SkipWhites(s: seq<text>, i: nat) returns (k: nat)
    requires i <= |s|
    ensures k == SkipWhite(s, i)
  {
    k := i;
    while k < |s| && White(s[k])
      invariant i <= k <= |s| && SkipWhite(s, i) == SkipWhite(s, k)
    {
      k := k + 1;
    }
  }

  /** One scan over an array stack; `full` tells that the next push would leave it. */
  method ScanBraces(s: seq<text>, b: nat, st: array<text>, si: nat) returns (si': nat, end: nat, full: bool)
    requires st.Length == STACK && si < STACK && st[0] == '\0' && b < |s| && s[b] == '{'
    modifies st
    ensures full <==> ScanFrom(s, b, old(st[..si + 1])) == Full
    ensures !full ==> si' < STACK && st[0] == '\0' && b <= end <= |s| &&
                      ScanFrom(s, b, old(st[..si + 1])) == if end < |s| then Emptied(end) else RanOut(st[..si' + 1])
    ensures !full && end < |s| ==> si' == 0
  {
    si', end, full := si, b, false;
    ghost var result := ScanFrom(s, b, st[..si + 1]);
    while end < |s|
      invariant b <= end <= |s| && si' < STACK && st[0] == '\0' && (si' > 0 || end == b)
      invariant result == ScanFrom(s, end, st[..si' + 1])
    {
      ghost var stack: Stack := st[..si' + 1];
      assert Top(stack) == st[si'];
      var c := s[end];
      if si' > 0 && st[si'] == '\\' {
        si' := si' - 1;
        assert st[..si' + 1] == Pop(stack);
      } else if c == '"' && si' > 0 && st[si'] == '"' {
        si' := si' - 1;
        assert st[..si' + 1] == Pop(stack);
      } else if c == '"' || c == '\\' || ((c == '{' || c == '[' || c == '(') && st[si'] != '"') {
        if si' + 1 == STACK {
          return si', end, true;
        }
        si' := si' + 1;
        st[si'] := c;
        assert st[..si' + 1] == stack + [c];
      } else if (c == '}' || c == ']' || c == ')') && st[si'] != '"' {
        si' := si' - 1;
        assert st[..si' + 1] == Pop(stack);
      }
      if si' == 0 {
        return;
      }
      end := end + 1;
    }
  }

  method GetYunData(s: seq<text>, key: seq<text>) returns (r: Result)
    ensures r == Search(s, 0, EMPTY, key)
  {
    hide ScanFrom, KeyAt, SkipWhite, White;
    var st := new text[STACK](_ => '\0');
    var si: nat, p: nat := 0, 0;
    assert st[..1] == EMPTY;
    while p < |s|
      invariant p <= |s| && si < STACK && st[0] == '\0'
      invariant Search(s, 0, EMPTY, key) == Search(s, p, st[..si + 1], key)
    {
      if KeyAt(s, p, key) {
        if p + |key| > |s| {
          return Undefined;
        }
        var tmp := SkipWhites(s, p + |key|);
        if At(s, tmp) == '=' {
          tmp := SkipWhites(s, tmp + 1);
          if At(s, tmp) == '{' {
            var end, full;
            si, end, full := ScanBraces(s, tmp, st, si);
            if full {
              return Undefined;
            }
            if end < |s| {
              if s[end] == '}' {
                return Found(s[tmp..end + 1]);
              }
              assert st[..1] == EMPTY;
            }
          }
        }
      }
      p := p + 1;
    }
    r := NotFound;
  }

  // ---- Scanning a printed value ------------------------------------------------------

  function Max(a: nat, b: nat): nat { if a < b then b else a }

  /** Stack entries a string needs: its quote, and a backslash when some byte is escaped. */
  function StringDepth(t: seq<text>): nat {
    if forall k | 0 <= k < |t| :: Plain(t[k]) then 1 else 2
  }

  function ScanDepth(j: Json): nat
    decreases j, 1
  {
    match j
    case Str(t) => StringDepth(t)
    case Arr(items) => 1 + ItemsDepth(items)
    case Obj(members) => 1 + MembersDepth(members)
    case _ => 0
  }

  function ItemsDepth(items: seq<Json>): nat
    decreases items, 0
  {
    if items == [] then 0 else Max(ScanDepth(items[0]), ItemsDepth(items[1..]))
  }

  function MembersDepth(members: seq<Member>): nat
    decreases members, 0
  {
    if members == [] then 0
    else Max(Max(StringDepth(members[0].name), ScanDepth(members[0].value)), MembersDepth(members[1..]))
  }

  /** Inside brackets and outside strings. */
  predicate Between(st: Stack) { |st| > 1 && Top(st) != '"' && Top(st) != '\\' }

  predicate Neutral(c: text) { c !in ['"', '\\', '{', '[', '(', '}', ']', ')'] }

  lemma {:induction false} ScanNeutral(s: seq<text>, i: nat, t: seq<text>, st: Stack)
    requires Between(st) && Occurs(s, i, t) && forall k | 0 <= k < |t| :: Neutral(t[k])
    ensures ScanFrom(s, i, st) == ScanFrom(s, i + |t|, st)
    decreases |t|
  {
    if t != [] {
      assert t == [t[0]] + t[1..];
      Parts(s, i, [t[0]], t[1..]);
      OccursAt(s, i, t, 0);
      ScanNeutral(s, i + 1, t[1..], st);
    }
  }

  lemma {:induction false} ScanBlank(s: seq<text>, a: nat, b: nat, st: Stack)
    requires Between(st) && BlankRun(s, a, b)
    ensures ScanFrom(s, a, st) == ScanFrom(s, b, st)
    decreases b - a
  {
    if a < b {
      assert Blank(s[a]);
      ScanBlank(s, a + 1, b, st);
    }
  }

  lemma ScanOne(s: seq<text>, i: nat, st: Stack)
    requires Between(st) && i < |s| && Neutral(s[i])
    ensures ScanFrom(s, i, st) == ScanFrom(s, i + 1, st)
  {
  }

  lemma {:induction false} DecimalNeutral(n: nat)
    ensures forall k | 0 <= k < |Decimal(n)| :: Neutral(Decimal(n)[k])
  {
    if n >= 10 {
      DecimalNeutral(n / 10);
    }
  }

  lemma NumNeutral(n: int)
    ensures forall k | 0 <= k < |PrintNum(n)| :: Neutral(PrintNum(n)[k])
  {
    DecimalNeutral(if n < 0 then -n else n);
  }

  /** The stack inside a string that was opened on `st`. */
  predicate InString(st: Stack) { |st| > 2 && Top(st) == '"' }

  lemma ScanQuoted(s: seq<text>, i: nat, st: Stack)
    requires InString(st) && i < |s| && s[i] != '"' && s[i] != '\\'
    ensures ScanFrom(s, i, st) == ScanFrom(s, i + 1, st)
  {
  }

  lemma ScanBackslash(s: seq<text>, i: nat, st: Stack)
    requires InString(st) && |st| < STACK && i + 1 < |s| && s[i] == '\\'
    ensures ScanFrom(s, i, st) == ScanFrom(s, i + 2, st)
  {
    var st': Stack := st + ['\\'];
    assert Step(st, s[i]) == Some(st');
    assert Pop(st') == st;
    assert Step(st', s[i + 1]) == Some(st);
    assert ScanFrom(s, i, st) == ScanFrom(s, i + 1, st');
  }

  lemma ScanEscaped(s: seq<text>, i: nat, c: text, st: Stack)
    requires InString(st) && (Plain(c) || |st| < STACK) && Occurs(s, i, Escape(c))
    ensures ScanFrom(s, i, st) == ScanFrom(s, i + |Escape(c)|, st)
  {
    var t := Escape(c);
    OccursAt(s, i, t, 0);
    if Plain(c) {
      ScanQuoted(s, i, st);
    } else {
      OccursAt(s, i, t, 1);
      if |t| == 6 {
        OccursAt(s, i, t, 2);
        OccursAt(s, i, t, 3);
        OccursAt(s, i, t, 4);
        OccursAt(s, i, t, 5);
      }
      hide ScanFrom, Escape, Occurs;
      ScanBackslash(s, i, st);
      if |t| == 6 {
        ScanQuoted(s, i + 2, st);
        ScanQuoted(s, i + 3, st);
        ScanQuoted(s, i + 4, st);
        ScanQuoted(s, i + 5, st);
      }
    }
  }

  lemma ScanCloseQuote(s: seq<text>, i: nat, st: Stack)
    requires InString(st) && i < |s| && s[i] == '"'
    ensures ScanFrom(s, i, st) == ScanFrom(s, i + 1, Pop(st))
  {
  }

  /** There is room for the backslash of every escaped byte. */
  predicate Room(t: seq<text>, st: Stack) {
    |st| < STACK || forall k | 0 <= k < |t| :: Plain(t[k])
  }

  lemma RoomTail(t: seq<text>, st: Stack)
    requires t != [] && Room(t, st)
    ensures (Plain(t[0]) || |st| < STACK) && Room(t[1..], st)
  {
  }

  lemma {:induction false} ScanChars(s: seq<text>, i: nat, t: seq<text>, st: Stack)
    requires InString(st) && Room(t, st) && Occurs(s, i, Closed(t))
    ensures ScanFrom(s, i, st) == ScanFrom(s, i + |Closed(t)|, Pop(st))
    decreases |t|
  {
    hide Escape, Occurs, Closed, ScanFrom, Plain, Room, InString;
    if t == [] {
      ClosedEmpty(s, i);
      ScanCloseQuote(s, i, st);
    } else {
      ClosedSplit(t);
      RoomTail(t, st);
      Parts(s, i, Escape(t[0]), Closed(t[1..]));
      ScanEscaped(s, i, t[0], st);
      ScanChars(s, i + |Escape(t[0])|, t[1..], st);
    }
  }

  lemma ScanOpenQuote(s: seq<text>, i: nat, st: Stack)
    requires Between(st) && |st| < STACK && i < |s| && s[i] == '"'
    ensures ScanFrom(s, i, st) == ScanFrom(s, i + 1, st + ['"'])
  {
  }

  lemma QuotedPieces(s: seq<text>, i: nat, t: seq<text>)
    requires Occurs(s, i, PrintStr(t))
    ensures i < |s| && s[i] == '"' && Occurs(s, i + 1, Closed(t)) && |PrintStr(t)| == 1 + |Closed(t)|
  {
    assert PrintStr(t) == ['"'] + Closed(t);
    hide Occurs, Closed, PrintStr;
    Parts(s, i, ['"'], Closed(t));
    OccursAt(s, i, ['"'], 0);
  }

  lemma ScanString(s: seq<text>, i: nat, t: seq<text>, st: Stack)
    requires Between(st) && |st| + StringDepth(t) <= STACK && Occurs(s, i, PrintStr(t))
    ensures ScanFrom(s, i, st) == ScanFrom(s, i + |PrintStr(t)|, st)
  {
    hide ScanFrom, Occurs, Closed, PrintStr;
    QuotedPieces(s, i, t);
    ScanOpenQuote(s, i, st);
    var st': Stack := st + ['"'];
    assert Pop(st') == st;
    ScanChars(s, i + 1, t, st');
  }

  lemma ScanOpen(s: seq<text>, i: nat, st: Stack)
    requires Between(st) && |st| < STACK && i < |s| && (s[i] == '[' || s[i] == '{')
    ensures Between(st + [s[i]]) && ScanFrom(s, i, st) == ScanFrom(s, i + 1, st + [s[i]])
  {
  }

  lemma ScanClose(s: seq<text>, i: nat, st: Stack)
    requires Between(st) && |st| > 2 && i < |s| && (s[i] == ']' || s[i] == '}')
    ensures ScanFrom(s, i, st) == ScanFrom(s, i + 1, Pop(st))
  {
  }

  /** A printed value leaves the stack as it was, whatever its strings contain. */
  lemma {:induction false} ScanValue(s: seq<text>, i: nat, j: Json, depth: nat, fmt: bool, st: Stack)
    requires Between(st) && |st| + ScanDepth(j) <= STACK && Occurs(s, i, PrintValue(j, depth, fmt))
    ensures ScanFrom(s, i, st) == ScanFrom(s, i + |PrintValue(j, depth, fmt)|, st)
    decreases j, 3
  {
    match j
    case Null => ScanNeutral(s, i, "null", st);
    case False => ScanNeutral(s, i, "false", st);
    case True => ScanNeutral(s, i, "true", st);
    case Num(m, _) => NumNeutral(m); ScanNeutral(s, i, PrintNum(m), st);
    case Str(t) => ScanString(s, i, t, st);
    case Arr(items) => ScanArray(s, i, items, depth, fmt, st);
    case Obj(members) => ScanObject(s, i, members, depth, fmt, st);
  }

  lemma {:induction false} ScanObject(s: seq<text>, i: nat, members: seq<Member>, depth: nat, fmt: bool, st: Stack)
    requires Between(st) && |st| + 1 + MembersDepth(members) <= STACK
    requires Occurs(s, i, PrintValue(Obj(members), depth, fmt))
    ensures ScanFrom(s, i, st) == ScanFrom(s, i + |PrintValue(Obj(members), depth, fmt)|, st)
    decreases members, 5
  {
    hide ScanFrom, PrintValue, Occurs, MembersDepth;
    var st': Stack := st + ['{'];
    var e := ScanObjectBody(s, i, members, depth, fmt, st');
    ScanOpen(s, i, st);
    ScanClose(s, e, st');
    assert Pop(st') == st;
  }

  lemma {:induction false} ScanArray(s: seq<text>, i: nat, items: seq<Json>, depth: nat, fmt: bool, st: Stack)
    requires Between(st) && |st| + 1 + ItemsDepth(items) <= STACK && Occurs(s, i, PrintValue(Arr(items), depth, fmt))
    ensures ScanFrom(s, i, st) == ScanFrom(s, i + |PrintValue(Arr(items), depth, fmt)|, st)
    decreases items, 3
  {
    ArrayPieces(s, i, items, depth, fmt);
    hide ScanFrom, PrintValue, PrintItems, Occurs, ItemsDepth;
    var st': Stack := st + ['['];
    ScanOpen(s, i, st);
    ScanItems(s, i + 1, items, depth + 1, fmt, st');
    ScanClose(s, i + 1 + |PrintItems(items, depth + 1, fmt)|, st');
    assert Pop(st') == st;
  }

  lemma {:induction false} ScanItems(s: seq<text>, i: nat, items: seq<Json>, depth: nat, fmt: bool, st: Stack)
    requires Between(st) && |st| + ItemsDepth(items) <= STACK && Occurs(s, i, PrintItems(items, depth, fmt))
    ensures ScanFrom(s, i, st) == ScanFrom(s, i + |PrintItems(items, depth, fmt)|, st)
    decreases items, 2
  {
    hide ScanFrom, PrintValue, Occurs;
    if |items| == 1 {
      ScanValue(s, i, items[0], depth, fmt, st);
    } else if |items| > 1 {
      var e, b := ItemPieces(s, i, items, depth, fmt);
      ScanValue(s, i, items[0], depth, fmt, st);
      ScanOne(s, e, st);
      ScanBlank(s, e + 1, b, st);
      ScanItems(s, b, items[1..], depth, fmt, st);
    }
  }

  /** From after the opening brace of a printed object to its closing brace. */
  lemma {:induction false} ScanObjectBody(s: seq<text>, i: nat, members: seq<Member>, depth: nat, fmt: bool, st: Stack)
    returns (e: nat)
    requires Between(st) && |st| + MembersDepth(members) <= STACK
    requires Occurs(s, i, PrintValue(Obj(members), depth, fmt))
    ensures i < |s| && s[i] == '{' && At(s, e) == '}' && e < |s|
    ensures e + 1 == i + |PrintValue(Obj(members), depth, fmt)|
    ensures ScanFrom(s, i + 1, st) == ScanFrom(s, e, st)
    decreases members, 4
  {
    hide ScanFrom, PrintValue, PrintMembers, Occurs, ObjectRest, MembersDepth;
    if members == [] {
      EmptyPieces(s, i, depth, fmt);
      e := i + 1 + |EmptyGap(depth, fmt)|;
      ScanBlank(s, i + 1, e, st);
    } else {
      var b := ObjectOpens(s, i, members, depth, fmt);
      e := ObjectCloses(s, b, members, depth, fmt);
      ScanBlank(s, i + 1, b, st);
      ScanMembers(s, b, members, depth + 1, fmt, st);
      ScanBlank(s, b + |PrintMembers(members, depth + 1, fmt)|, e, st);
    }
  }

  lemma {:induction false} ScanMembers(s: seq<text>, i: nat, members: seq<Member>, depth: nat, fmt: bool, st: Stack)
    requires members != [] && Between(st) && |st| + MembersDepth(members) <= STACK
    requires Occurs(s, i, PrintMembers(members, depth, fmt))
    ensures ScanFrom(s, i, st) == ScanFrom(s, i + |PrintMembers(members, depth, fmt)|, st)
    decreases members, 3
  {
    hide ScanFrom, PrintValue, PrintMembers, PrintStr, Occurs, MemberRest, MemberTail, ScanDepth, StringDepth;
    var k, w := NamePieces(s, i, members, depth, fmt);
    var b, e := ValuePieces(s, w, members, depth, fmt);
    ScanBlank(s, i, k, st);
    ScanString(s, k, members[0].name, st);
    ScanOne(s, w, st);
    ScanBlank(s, w + 1, b, st);
    ScanValue(s, b, members[0].value, depth, fmt, st);
    ScanTail(s, e, members, depth, fmt, st);
  }

  lemma {:induction false} ScanTail(s: seq<text>, e: nat, members: seq<Member>, depth: nat, fmt: bool, st: Stack)
    requires members != [] && Between(st) && |st| + MembersDepth(members[1..]) <= STACK
    requires Occurs(s, e, MemberTail(members, depth, fmt))
    ensures ScanFrom(s, e, st) == ScanFrom(s, e + |MemberTail(members, depth, fmt)|, st)
    decreases members, 2
  {
    hide ScanFrom, PrintMembers, Occurs, MemberTail, MembersDepth;
    if |members| == 1 {
      LastTail(s, e, members, depth, fmt);
      ScanBlank(s, e, e + |MemberTail(members, depth, fmt)|, st);
    } else {
      var r := TailPieces(s, e, members, depth, fmt);
      assert BlankRun(s, e + 1, r);
      ScanOne(s, e, st);
      ScanBlank(s, e + 1, r, st);
      ScanMembers(s, r, members[1..], depth, fmt, st);
    }
  }

  // ---- Running out of stack ----------------------------------------------------------

  lemma OverPush(s: seq<text>, i: nat, st: Stack)
    requires Between(st) && |st| == STACK && i < |s| && s[i] in ['"', '[', '{']
    ensures ScanFrom(s, i, st) == Full
  {
  }

  lemma OverBackslash(s: seq<text>, i: nat, c: text, st: Stack)
    requires InString(st) && |st| == STACK && !Plain(c) && Occurs(s, i, Escape(c))
    ensures ScanFrom(s, i, st) == Full
  {
    OccursAt(s, i, Escape(c), 0);
    assert s[i] == '\\';
    hide Occurs, Escape;
    assert Step(st, s[i]) == None;
  }

  lemma NoRoomTail(t: seq<text>, st: Stack)
    requires !Room(t, st)
    ensures t != [] && |st| == STACK && (Plain(t[0]) ==> !Room(t[1..], st))
  {
    if t != [] && Plain(t[0]) {
      var k :| 0 <= k < |t| && !Plain(t[k]);
      assert t[1..][k - 1] == t[k];
    }
  }

  lemma {:induction false} OverChars(s: seq<text>, i: nat, t: seq<text>, st: Stack)
    requires InString(st) && !Room(t, st) && Occurs(s, i, Closed(t))
    ensures ScanFrom(s, i, st) == Full
    decreases |t|
  {
    hide Escape, Occurs, Closed, ScanFrom, Plain, Room, InString;
    NoRoomTail(t, st);
    ClosedSplit(t);
    Parts(s, i, Escape(t[0]), Closed(t[1..]));
    if Plain(t[0]) {
      ScanEscaped(s, i, t[0], st);
      OverChars(s, i + |Escape(t[0])|, t[1..], st);
    } else {
      OverBackslash(s, i, t[0], st);
    }
  }

  lemma OverString(s: seq<text>, i: nat, t: seq<text>, st: Stack)
    requires Between(st) && |st| + StringDepth(t) > STACK && Occurs(s, i, PrintStr(t))
    ensures ScanFrom(s, i, st) == Full
  {
    hide ScanFrom, Occurs, Closed, PrintStr;
    QuotedPieces(s, i, t);
    if |st| == STACK {
      OverPush(s, i, st);
    } else {
      ScanOpenQuote(s, i, st);
      var st': Stack := st + ['"'];
      OverChars(s, i + 1, t, st');
    }
  }

  /** A printed value that needs more entries than are left overruns the stack. */
  lemma {:induction false} OverValue(s: seq<text>, i: nat, j: Json, depth: nat, fmt: bool, st: Stack)
    requires Between(st) && |st| + ScanDepth(j) > STACK && Occurs(s, i, PrintValue(j, depth, fmt))
    ensures ScanFrom(s, i, st) == Full
    decreases j, 3
  {
    match j
    case Str(t) => OverString(s, i, t, st);
    case Arr(items) => OverArray(s, i, items, depth, fmt, st);
    case Obj(members) => OverObject(s, i, members, depth, fmt, st);
    case _ =>
  }

  lemma {:induction false} OverObject(s: seq<text>, i: nat, members: seq<Member>, depth: nat, fmt: bool, st: Stack)
    requires Between(st) && |st| + 1 + MembersDepth(members) > STACK
    requires Occurs(s, i, PrintValue(Obj(members), depth, fmt))
    ensures ScanFrom(s, i, st) == Full
    decreases members, 5
  {
    hide ScanFrom, PrintValue, Occurs, MembersDepth, ObjectRest;
    if |st| == STACK {
      ObjectStart(s, i, members, depth, fmt);
      OverPush(s, i, st);
    } else {
      var st': Stack := st + ['{'];
      OverObjectBody(s, i, members, depth, fmt, st');
      ScanOpen(s, i, st);
    }
  }

  lemma ObjectStart(s: seq<text>, i: nat, members: seq<Member>, depth: nat, fmt: bool)
    requires Occurs(s, i, PrintValue(Obj(members), depth, fmt))
    ensures i < |s| && s[i] == '{'
  {
    hide Occurs, PrintMembers, PrintValue, ObjectRest;
    if members == [] {
      EmptyPieces(s, i, depth, fmt);
    } else {
      var b := ObjectOpens(s, i, members, depth, fmt);
    }
  }

  lemma {:induction false} OverArray(s: seq<text>, i: nat, items: seq<Json>, depth: nat, fmt: bool, st: Stack)
    requires Between(st) && |st| + 1 + ItemsDepth(items) > STACK && Occurs(s, i, PrintValue(Arr(items), depth, fmt))
    ensures ScanFrom(s, i, st) == Full
    decreases items, 3
  {
    ArrayPieces(s, i, items, depth, fmt);
    hide ScanFrom, PrintValue, PrintItems, Occurs, ItemsDepth;
    if |st| == STACK {
      OverPush(s, i, st);
    } else {
      var st': Stack := st + ['['];
      ScanOpen(s, i, st);
      OverItems(s, i + 1, items, depth + 1, fmt, st');
    }
  }

  lemma {:induction false} OverItems(s: seq<text>, i: nat, items: seq<Json>, depth: nat, fmt: bool, st: Stack)
    requires Between(st) && |st| + ItemsDepth(items) > STACK && Occurs(s, i, PrintItems(items, depth, fmt))
    ensures ScanFrom(s, i, st) == Full
    decreases items, 2
  {
    hide ScanFrom, PrintValue, Occurs, ScanDepth;
    if |items| == 1 {
      OverValue(s, i, items[0], depth, fmt, st);
    } else if |items| > 1 {
      var e, b := ItemPieces(s, i, items, depth, fmt);
      if |st| + ScanDepth(items[0]) > STACK {
        OverValue(s, i, items[0], depth, fmt, st);
      } else {
        ScanValue(s, i, items[0], depth, fmt, st);
        ScanOne(s, e, st);
        ScanBlank(s, e + 1, b, st);
        OverItems(s, b, items[1..], depth, fmt, st);
      }
    }
  }

  lemma SomeMembers(members: seq<Member>)
    ensures MembersDepth(members) > 0 ==> members != []
  {
  }

  lemma {:induction false} OverObjectBody(s: seq<text>, i: nat, members: seq<Member>, depth: nat, fmt: bool, st: Stack)
    requires Between(st) && |st| + MembersDepth(members) > STACK
    requires Occurs(s, i, PrintValue(Obj(members), depth, fmt))
    ensures i < |s| && s[i] == '{' && ScanFrom(s, i + 1, st) == Full
    decreases members, 4
  {
    hide ScanFrom, PrintValue, PrintMembers, Occurs, ObjectRest, MembersDepth;
    SomeMembers(members);
    var b := ObjectOpens(s, i, members, depth, fmt);
    var e := ObjectCloses(s, b, members, depth, fmt);
    ScanBlank(s, i + 1, b, st);
    OverMembers(s, b, members, depth + 1, fmt, st);
  }

  lemma {:induction false} OverMembers(s: seq<text>, i: nat, members: seq<Member>, depth: nat, fmt: bool, st: Stack)
    requires members != [] && Between(st) && |st| + MembersDepth(members) > STACK
    requires Occurs(s, i, PrintMembers(members, depth, fmt))
    ensures ScanFrom(s, i, st) == Full
    decreases members, 3
  {
    hide ScanFrom, PrintValue, PrintMembers, PrintStr, Occurs, MemberRest, MemberTail, ScanDepth, StringDepth;
    var k, w := NamePieces(s, i, members, depth, fmt);
    var b, e := ValuePieces(s, w, members, depth, fmt);
    ScanBlank(s, i, k, st);
    if |st| + StringDepth(members[0].name) > STACK {
      OverString(s, k, members[0].name, st);
    } else {
      ScanString(s, k, members[0].name, st);
      ScanOne(s, w, st);
      ScanBlank(s, w + 1, b, st);
      if |st| + ScanDepth(members[0].value) > STACK {
        OverValue(s, b, members[0].value, depth, fmt, st);
      } else {
        ScanValue(s, b, members[0].value, depth, fmt, st);
        OverTail(s, e, members, depth, fmt, st);
      }
    }
  }

  lemma {:induction false} OverTail(s: seq<text>, e: nat, members: seq<Member>, depth: nat, fmt: bool, st: Stack)
    requires members != [] && Between(st) && |st| + MembersDepth(members[1..]) > STACK
    requires Occurs(s, e, MemberTail(members, depth, fmt))
    ensures ScanFrom(s, e, st) == Full
    decreases members, 2
  {
    assert |members| > 1;
    hide ScanFrom, PrintMembers, Occurs, MemberTail, MembersDepth;
    var r := TailPieces(s, e, members, depth, fmt);
    assert BlankRun(s, e + 1, r);
    ScanOne(s, e, st);
    ScanBlank(s, e + 1, r, st);
    OverMembers(s, r, members[1..], depth, fmt, st);
  }

  // ---- The page ----------------------------------------------------------------------

  /** No earlier position starts a candidate. */
  predicate FirstCandidate(s: seq<text>, p: nat, key: seq<text>) {
    p <= |s| && forall q | 0 <= q < p ::
      !KeyAt(s, q, key) || (q + |key| <= |s| && BraceAfter(s, q, key).None?)
  }

  lemma {:induction false} SearchReaches(s: seq<text>, q: nat, p: nat, key: seq<text>)
    requires q <= p && FirstCandidate(s, p, key)
    ensures Search(s, q, EMPTY, key) == Search(s, p, EMPTY, key)
    decreases p - q
  {
    if q < p {
      SearchReaches(s, q + 1, p, key);
    }
  }

  lemma ScanWholeObject(s: seq<text>, b: nat, members: seq<Member>, depth: nat, fmt: bool)
    requires ScanDepth(Obj(members)) <= 31 && Occurs(s, b, PrintValue(Obj(members), depth, fmt))
    ensures b < |s| && s[b] == '{' && |PrintValue(Obj(members), depth, fmt)| > 1
    ensures ScanFrom(s, b, EMPTY) == Emptied(b + |PrintValue(Obj(members), depth, fmt)| - 1)
    ensures s[b + |PrintValue(Obj(members), depth, fmt)| - 1] == '}'
  {
    var st: Stack := EMPTY + ['{'];
    var e := ScanObjectBody(s, b, members, depth, fmt, st);
    assert Step(EMPTY, s[b]) == Some(st);
    assert Pop(st) == EMPTY;
    assert Step(st, s[e]) == Some(EMPTY);
    assert ScanFrom(s, e, st) == Emptied(e);
    assert ScanFrom(s, b, EMPTY) == ScanFrom(s, b + 1, st);
  }

  lemma SearchFinds(s: seq<text>, p: nat, b: nat, e: nat, key: seq<text>)
    requires KeyAt(s, p, key) && p + |key| <= |s| && BraceAfter(s, p, key) == Some(b)
    requires ScanFrom(s, b, EMPTY) == Emptied(e) && b <= e < |s| && s[e] == '}'
    ensures Search(s, p, EMPTY, key) == Found(s[b..e + 1])
  {
    hide ScanFrom, BraceAfter;
  }

  lemma SliceOf(s: seq<text>, b: nat, t: seq<text>)
    requires Occurs(s, b, t)
    ensures b + |t| <= |s| && s[b..b + |t|] == t
  {
    assert forall k | 0 <= k < |t| :: s[b + k] == t[k];
  }

  lemma OverWholeObject(s: seq<text>, b: nat, members: seq<Member>, depth: nat, fmt: bool)
    requires ScanDepth(Obj(members)) > 31 && Occurs(s, b, PrintValue(Obj(members), depth, fmt))
    ensures b < |s| && s[b] == '{' && ScanFrom(s, b, EMPTY) == Full
  {
    var st: Stack := EMPTY + ['{'];
    OverObjectBody(s, b, members, depth, fmt, st);
    assert Step(EMPTY, s[b]) == Some(st);
    assert ScanFrom(s, b, EMPTY) == ScanFrom(s, b + 1, st);
  }

  /** On a page whose first `key = {` opens a printed object, the scanner returns exactly the text of
      that object if its scanner depth is at most 31, and otherwise overruns its stack. */
  lemma ExtractsObjectIff(s: seq<text>, p: nat, b: nat, key: seq<text>, members: seq<Member>, depth: nat, fmt: bool)
    requires FirstCandidate(s, p, key) && KeyAt(s, p, key) && p + |key| <= |s| && BraceAfter(s, p, key) == Some(b)
    requires Occurs(s, b, PrintValue(Obj(members), depth, fmt))
    ensures Search(s, 0, EMPTY, key) ==
            if ScanDepth(Obj(members)) <= 31 then Found(PrintValue(Obj(members), depth, fmt)) else Undefined
  {
    hide Occurs, PrintValue, ScanFrom, FirstCandidate, KeyAt, BraceAfter, ScanDepth, Search;
    SearchReaches(s, 0, p, key);
    if ScanDepth(Obj(members)) <= 31 {
      ScanWholeObject(s, b, members, depth, fmt);
      SliceOf(s, b, PrintValue(Obj(members), depth, fmt));
      SearchFinds(s, p, b, b + |PrintValue(Obj(members), depth, fmt)| - 1, key);
    } else {
      OverWholeObject(s, b, members, depth, fmt);
      SearchOverruns(s, p, b, key);
    }
  }

  lemma SearchOverruns(s: seq<text>, p: nat, b: nat, key: seq<text>)
    requires KeyAt(s, p, key) && p + |key| <= |s| && BraceAfter(s, p, key) == Some(b)
    requires ScanFrom(s, b, EMPTY) == Full
    ensures Search(s, p, EMPTY, key) == Undefined
  {
    hide ScanFrom, BraceAfter;
  }

  /** And parsing what it returns gives the object. */
  lemma ExtractThenParse(s: seq<text>, p: nat, b: nat, key: seq<text>, members: seq<Member>, fmt: bool)
    requires FirstCandidate(s, p, key) && KeyAt(s, p, key) && p + |key| <= |s| && BraceAfter(s, p, key) == Some(b)
    requires Printable(Obj(members)) && ScanDepth(Obj(members)) <= 31
    requires Occurs(s, b, PrintValue(Obj(members), 0, fmt))
    ensures var r := Search(s, 0, EMPTY, key);
            r.Found? && Parse(r.t) == Parsed(Obj(members), |r.t|)
  {
    ExtractsObjectIff(s, p, b, key, members, 0, fmt);
    ParseUndoesPrint(Obj(members), fmt);
  }
}
