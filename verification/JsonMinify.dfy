/** cJSON_Minify: an in-place pass that drops whitespace and comments (pcs/cJSON.c). */
module JsonMinify {
  import opened Wrappers
  import opened JsonText
  import opened JsonRoundTrip
  import opened JsonPrinter

  /** Where a block comment that starts at or before `i` has its closing mark, or the end. */
  function BlockStop(s: seq<text>, i: nat): (k: nat)
    requires i <= |s|
    ensures i <= k <= |s|
    decreases |s| - i
  {
    if i == |s| || (s[i] == '*' && At(s, i + 1) == '/') then i else BlockStop(s, i + 1)
  }

  predicate Dropped(c: text) { c == ' ' || c == '\t' || c == '\r' || c == '\n' }

  /** The minified text from `i` on, inside a string literal when `quoted`; None when the pass would
      run past the terminator, as it does on an unfinished string or block comment. */
  function Minify(s: seq<text>, i: nat, quoted: bool := false): Option<seq<text>>
    decreases |s| - i
  {
    if i >= |s| then (if quoted || i > |s| then None else Some([]))
    else if quoted then
      if s[i] == '"' then Cat<text>(['"'], Minify(s, i + 1))
      else if s[i] == '\\' then
        if i + 1 < |s| then Cat<text>([s[i], s[i + 1]], Minify(s, i + 2, true)) else None
      else Cat<text>([s[i]], Minify(s, i + 1, true))
    else if Dropped(s[i]) then Minify(s, i + 1)
    else if s[i] == '/' && At(s, i + 1) == '/' then Minify(s, LineEnd(s, i + 1))
    else if s[i] == '/' && At(s, i + 1) == '*' then Minify(s, BlockStop(s, i + 1) + 2)
    else if s[i] == '"' then Cat<text>(['"'], Minify(s, i + 1, true))
    else Cat<text>([s[i]], Minify(s, i + 1))
  }

  // ---- The in-place pass -------------------------------------------------------------

  /** The part written so far followed by what is still to be written. */
  ghost predicate Progress(a: array<text>, into: nat, s: seq<text>, json: nat, quoted: bool)
    reads a
  {
    && into <= json < a.Length && json <= |s| < a.Length
    && a[json..|s|] == s[json..] && a[|s|] == '\0'
    && Cat<text>(a[..into], Minify(s, json, quoted)) == Minify(s, 0)
  }

  /** Copy one byte down. */
  method CopyByte(a: array<text>, into: nat, ghost s: seq<text>, json: nat, ghost quoted: bool, ghost after: bool)
    returns (into': nat, json': nat)
    requires Progress(a, into, s, json, quoted) && json < |s|
    requires Minify(s, json, quoted) == Cat<text>([s[json]], Minify(s, json + 1, after))
    modifies a
    ensures into' == into + 1 && json' == json + 1 && Progress(a, into', s, json', after)
    ensures forall k | |s| < k < a.Length :: a[k] == old(a[k])
  {
    hide Minify;
    ghost var done := a[..into];
    assert a[json..|s|][0] == s[json..][0];
    a[into] := a[json];
    into', json' := into + 1, json + 1;
    assert a[..into'] == done + [s[json]];
    assert a[json'..|s|] == s[json'..] by {
      assert forall k | json' <= k < |s| :: a[k] == s[json..][k - json];
    }
    CatCat<text>(done, [s[json]], Minify(s, json', after));
  }

  /** The loop for one string literal, from the byte after its opening quote; false when it has no end. */
  method CopyString(a: array<text>, into: nat, ghost s: seq<text>, json: nat) returns (into': nat, json': nat, ok: bool)
    requires CString(s) && Progress(a, into, s, json, true)
    modifies a
    ensures ok ==> Progress(a, into', s, json', false) && json' > json
    ensures !ok ==> Minify(s, 0).None?
    ensures forall k | |s| < k < a.Length :: a[k] == old(a[k])
  {
    into', json', ok := into, json, true;
    while a[json'] != '\0' && a[json'] != '"'
      invariant json <= json' && Progress(a, into', s, json', true)
      invariant forall k | |s| < k < a.Length :: a[k] == old(a[k])
      decreases |s| - json'
    {
      BytesAgree(a, into', s, json', true);
      if a[json'] == '\\' {
        if a[json' + 1] == '\0' {
          return into', json', false;
        }
        into', json' := CopyPair(a, into', s, json');
      } else {
        into', json' := CopyByte(a, into', s, json', true, true);
      }
    }
    BytesAgree(a, into', s, json', true);
    if a[json'] == '\0' {
      return into', json', false;
    }
    into', json' := CopyByte(a, into', s, json', true, false);
  }

  lemma BytesAgree(a: array<text>, into: nat, s: seq<text>, json: nat, quoted: bool)
    requires CString(s) && Progress(a, into, s, json, quoted)
    ensures a[json] == At(s, json) && (a[json] == '\0' <==> json == |s|)
    ensures json < |s| ==> a[json + 1] == At(s, json + 1) && (a[json + 1] == '\0' <==> json + 1 == |s|)
  {
    if json < |s| {
      assert a[json..|s|][0] == s[json..][0];
      if json + 1 < |s| {
        assert a[json..|s|][1] == s[json..][1];
      }
    }
  }

  /** A backslash and the byte it protects. */
  method CopyPair(a: array<text>, into: nat, ghost s: seq<text>, json: nat) returns (into': nat, json': nat)
    requires Progress(a, into, s, json, true) && json + 1 < |s| && s[json] == '\\'
    modifies a
    ensures into' == into + 2 && json' == json + 2 && Progress(a, into', s, json', true)
    ensures forall k | |s| < k < a.Length :: a[k] == old(a[k])
  {
    assert Minify(s, json, true) == Cat<text>([s[json], s[json + 1]], Minify(s, json + 2, true));
    hide Minify;
    ghost var done := a[..into];
    assert a[json..|s|][0] == s[json..][0] && a[json..|s|][1] == s[json..][1];
    a[into] := a[json];
    a[into + 1] := a[json + 1];
    into', json' := into + 2, json + 2;
    assert a[..into'] == done + [s[json], s[json + 1]];
    assert a[json'..|s|] == s[json'..] by {
      assert forall k | json' <= k < |s| :: a[k] == s[json..][k - json];
    }
    CatCat<text>(done, [s[json], s[json + 1]], Minify(s, json', true));
  }

  /** Moving the read position over dropped bytes writes nothing. */
  lemma SkipTo(a: array<text>, into: nat, s: seq<text>, json: nat, json': nat)
    requires Progress(a, into, s, json, false) && json <= json' <= |s|
    requires Minify(s, json) == Minify(s, json')
    ensures Progress(a, into, s, json', false)
  {
    hide Minify;
    assert a[json'..|s|] == a[json..|s|][json' - json..];
  }

  /** The length of the minified text, or None where the original would run past the terminator. */
  method MinifyInPlace(a: array<text>, ghost s: seq<text>) returns (n: Option<nat>)
    requires |s| < a.Length && a[..|s|] == s && a[|s|] == '\0' && CString(s)
    modifies a
    ensures n.Some? <==> Minify(s, 0).Some?
    ensures n.Some? ==> n.value <= |s| && a[n.value] == '\0' && a[..n.value] == Minify(s, 0).value
    ensures forall k | |s| < k < a.Length :: a[k] == old(a[k])
  {
    var into: nat, json: nat, ok := 0, 0, true;
    assert a[0..|s|] == s[0..];
    assert a[..0] == [];
    CatNothing<text>(Minify(s, 0));
    while a[json] != '\0'
      invariant Progress(a, into, s, json, false)
      invariant forall k | |s| < k < a.Length :: a[k] == old(a[k])
      decreases |s| - json
    {
      BytesAgree(a, into, s, json, false);
      if a[json] == ' ' || a[json] == '\t' || a[json] == '\r' || a[json] == '\n' {
        SkipTo(a, into, s, json, json + 1);
        json := json + 1;
      } else if a[json] == '/' && a[json + 1] == '/' {
        json := SkipLine(a, into, s, json);
      } else if a[json] == '/' && a[json + 1] == '*' {
        json, ok := SkipBlock(a, into, s, json);
        if !ok {
          return None;
        }
      } else if a[json] == '"' {
        into, json := CopyByte(a, into, s, json, false, true);
        into, json, ok := CopyString(a, into, s, json);
        if !ok {
          return None;
        }
      } else {
        into, json := CopyByte(a, into, s, json, false, false);
      }
    }
    BytesAgree(a, into, s, json, false);
    assert a[..into] + [] == a[..into];
    a[into] := '\0';
    n := Some(into);
  }

  method SkipLine(a: array<text>, ghost into: nat, ghost s: seq<text>, json: nat) returns (json': nat)
    requires CString(s) && Progress(a, into, s, json, false)
    requires json < |s| && s[json] == '/' && At(s, json + 1) == '/'
    ensures json < json' && Progress(a, into, s, json', false)
  {
    json' := json + 1;
    assert a[json..|s|] == s[json..];
    while a[json'] != '\0' && a[json'] != '\n'
      invariant json < json' <= |s| && LineEnd(s, json + 1) == LineEnd(s, json')
      invariant a[json'] == At(s, json')
      decreases |s| - json'
    {
      json' := json' + 1;
      assert json' < |s| ==> a[json..|s|][json' - json] == s[json..][json' - json];
    }
    SkipTo(a, into, s, json, json');
  }

  method SkipBlock(a: array<text>, ghost into: nat, ghost s: seq<text>, json: nat) returns (json': nat, ok: bool)
    requires CString(s) && Progress(a, into, s, json, false)
    requires json < |s| && s[json] == '/' && At(s, json + 1) == '*'
    ensures ok ==> json < json' && Progress(a, into, s, json', false)
    ensures !ok ==> Minify(s, 0).None?
  {
    json' := json + 1;
    Agree(a, s, json);
    while a[json'] != '\0' && !(a[json'] == '*' && a[json' + 1] == '/')
      invariant json < json' <= |s| && BlockStop(s, json + 1) == BlockStop(s, json')
      decreases |s| - json'
    {
      json' := json' + 1;
    }
    assert Minify(s, json) == Minify(s, json' + 2);
    ok := a[json'] != '\0';
    if !ok {
      return;
    }
    json' := json' + 2;
    SkipTo(a, into, s, json, json');
  }

  lemma Agree(a: array<text>, s: seq<text>, json: nat)
    requires json <= |s| < a.Length && a[json..|s|] == s[json..] && a[|s|] == '\0' && CString(s)
    ensures forall k | json <= k <= |s| :: a[k] == At(s, k) && (a[k] == '\0' <==> k == |s|)
  {
    forall k | json <= k < |s|
      ensures a[k] == s[k]
    {
      assert a[json..|s|][k - json] == s[json..][k - json];
    }
  }

  // ---- Minifying a formatted text ----------------------------------------------------

  lemma {:induction false} MinifyBlank(s: seq<text>, a: nat, b: nat)
    requires BlankRun(s, a, b)
    ensures Minify(s, a) == Minify(s, b)
    decreases b - a
  {
    if a < b {
      assert Blank(s[a]);
      MinifyBlank(s, a + 1, b);
    }
  }

  /** A byte outside strings that is copied on its own. */
  predicate Ordinary(c: text) { !Dropped(c) && c != '/' && c != '"' }

  lemma {:induction false} MinifyOrdinary(s: seq<text>, i: nat, t: seq<text>)
    requires Occurs(s, i, t) && forall k | 0 <= k < |t| :: Ordinary(t[k])
    ensures Minify(s, i) == Cat<text>(t, Minify(s, i + |t|))
    decreases |t|
  {
    if t == [] {
      var r := Minify(s, i);
      if r.Some? { assert [] + r.value == r.value; }
    } else {
      assert t == [t[0]] + t[1..];
      Parts(s, i, [t[0]], t[1..]);
      OccursAt(s, i, t, 0);
      assert Minify(s, i) == Cat<text>([t[0]], Minify(s, i + 1));
      MinifyOrdinary(s, i + 1, t[1..]);
      hide Minify;
      CatCat<text>([t[0]], t[1..], Minify(s, i + |t|));
    }
  }

  lemma {:induction false} DecimalOrdinary(n: nat)
    ensures forall k | 0 <= k < |Decimal(n)| :: Ordinary(Decimal(n)[k])
  {
    if n >= 10 {
      DecimalOrdinary(n / 10);
    }
  }

  lemma NumOrdinary(n: int)
    ensures forall k | 0 <= k < |PrintNum(n)| :: Ordinary(PrintNum(n)[k])
  {
    DecimalOrdinary(if n < 0 then -n else n);
  }

  lemma OneOrdinary(s: seq<text>, i: nat)
    requires i < |s| && Ordinary(s[i])
    ensures Minify(s, i) == Cat<text>([s[i]], Minify(s, i + 1))
  {
  }

  /** An escaped byte is copied as it stands. */
  lemma MinifyEscaped(s: seq<text>, i: nat, c: text)
    requires Occurs(s, i, Escape(c))
    ensures Minify(s, i, true) == Cat<text>(Escape(c), Minify(s, i + |Escape(c)|, true))
  {
    var t := Escape(c);
    OccursAt(s, i, t, 0);
    if Plain(c) {
    } else {
      OccursAt(s, i, t, 1);
      assert Minify(s, i, true) == Cat<text>([t[0], t[1]], Minify(s, i + 2, true));
      if |t| == 2 {
        assert t == [t[0], t[1]];
      } else {
        UnicodeTail(s, i + 2, t[2..]) by {
          assert t == t[..2] + t[2..];
          Parts(s, i, t[..2], t[2..]);
        }
        assert t == [t[0], t[1]] + t[2..];
        CatCat<text>([t[0], t[1]], t[2..], Minify(s, i + 6, true));
      }
    }
  }

  lemma UnicodeTail(s: seq<text>, i: nat, t: seq<text>)
    requires |t| == 4 && Occurs(s, i, t) && forall k | 0 <= k < 4 :: t[k] != '"' && t[k] != '\\'
    ensures Minify(s, i, true) == Cat<text>(t, Minify(s, i + 4, true))
  {
    OccursAt(s, i, t, 0);
    OccursAt(s, i, t, 1);
    OccursAt(s, i, t, 2);
    OccursAt(s, i, t, 3);
    var r := Minify(s, i + 4, true);
    assert Minify(s, i + 3, true) == Cat<text>([t[3]], r);
    assert Minify(s, i + 2, true) == Cat<text>([t[2]], Minify(s, i + 3, true));
    assert Minify(s, i + 1, true) == Cat<text>([t[1]], Minify(s, i + 2, true));
    assert Minify(s, i, true) == Cat<text>([t[0]], Minify(s, i + 1, true));
    hide Minify;
    CatCat<text>([t[2]], [t[3]], r);
    CatCat<text>([t[1]], [t[2]] + [t[3]], r);
    CatCat<text>([t[0]], [t[1]] + ([t[2]] + [t[3]]), r);
    assert [t[0]] + ([t[1]] + ([t[2]] + [t[3]])) == t;
  }

  lemma {:induction false} MinifyChars(s: seq<text>, i: nat, t: seq<text>)
    requires Occurs(s, i, Closed(t))
    ensures Minify(s, i, true) == Cat<text>(Closed(t), Minify(s, i + |Closed(t)|))
    decreases |t|
  {
    hide Escape, Occurs, Closed, Minify, Cat;
    if t == [] {
      MinifyQuote(s, i);
    } else {
      ClosedSplit(t);
      Parts(s, i, Escape(t[0]), Closed(t[1..]));
      MinifyEscaped(s, i, t[0]);
      MinifyChars(s, i + |Escape(t[0])|, t[1..]);
      CatCat<text>(Escape(t[0]), Closed(t[1..]), Minify(s, i + |Closed(t)|));
    }
  }

  lemma MinifyQuote(s: seq<text>, i: nat)
    requires Occurs(s, i, Closed([]))
    ensures Minify(s, i, true) == Cat<text>(Closed([]), Minify(s, i + |Closed([])|))
  {
    OccursAt(s, i, Closed([]), 0);
    assert Closed([]) == ['"'];
  }

  lemma MinifyString(s: seq<text>, i: nat, t: seq<text>)
    requires Occurs(s, i, PrintStr(t))
    ensures Minify(s, i) == Cat<text>(PrintStr(t), Minify(s, i + |PrintStr(t)|))
  {
    assert PrintStr(t) == ['"'] + Closed(t);
    Parts(s, i, ['"'], Closed(t));
    OccursAt(s, i, ['"'], 0);
    assert Minify(s, i) == Cat<text>(['"'], Minify(s, i + 1, true));
    hide Minify, Occurs, Closed, PrintStr;
    MinifyChars(s, i + 1, t);
    CatCat<text>(['"'], Closed(t), Minify(s, i + |PrintStr(t)|));
  }

  lemma {:induction false} MinifyPrinted(s: seq<text>, i: nat, j: Json, depth: nat, d: nat)
    requires Occurs(s, i, PrintValue(j, depth, true))
    ensures Minify(s, i) == Cat<text>(PrintValue(j, d, false), Minify(s, i + |PrintValue(j, depth, true)|))
    decreases j, 2
  {
    match j
    case Null => MinifyOrdinary(s, i, "null");
    case False => MinifyOrdinary(s, i, "false");
    case True => MinifyOrdinary(s, i, "true");
    case Num(m, _) => NumOrdinary(m); MinifyOrdinary(s, i, PrintNum(m));
    case Str(t) => MinifyString(s, i, t);
    case Arr(items) => MinifyArray(s, i, items, depth, d);
    case Obj(members) => MinifyObject(s, i, members, depth, d);
  }

  lemma {:induction false} MinifyArray(s: seq<text>, i: nat, items: seq<Json>, depth: nat, d: nat)
    requires Occurs(s, i, PrintValue(Arr(items), depth, true))
    ensures Minify(s, i) == Cat<text>(PrintValue(Arr(items), d, false), Minify(s, i + |PrintValue(Arr(items), depth, true)|))
    decreases items, 4
  {
    ArrayPieces(s, i, items, depth, true);
    var body, short := PrintItems(items, depth + 1, true), PrintItems(items, d + 1, false);
    var e := i + 1 + |body|;
    OneOrdinary(s, i);
    OneOrdinary(s, e);
    assert PrintValue(Arr(items), d, false) == ['['] + (short + [']']);
    hide Minify, Occurs, PrintValue, PrintItems;
    MinifyItems(s, i + 1, items, depth + 1, d + 1);
    CatCat<text>(short, [']'], Minify(s, e + 1));
    CatCat<text>(['['], short + [']'], Minify(s, e + 1));
  }

  lemma ShortItems(items: seq<Json>, d: nat)
    requires |items| > 1
    ensures PrintItems(items, d, false) == PrintValue(items[0], d, false) + ([','] + PrintItems(items[1..], d, false))
  {
    ItemsSplit(items, d, false);
    hide PrintItems, PrintValue;
    assert Separator(false) == [','];
  }

  lemma FewItems(items: seq<Json>, d: nat, fmt: bool)
    ensures items == [] ==> PrintItems(items, d, fmt) == []
    ensures |items| == 1 ==> PrintItems(items, d, fmt) == PrintValue(items[0], d, fmt)
  {
  }

  lemma {:induction false} MinifyItems(s: seq<text>, i: nat, items: seq<Json>, depth: nat, d: nat)
    requires Occurs(s, i, PrintItems(items, depth, true))
    ensures Minify(s, i) == Cat<text>(PrintItems(items, d, false), Minify(s, i + |PrintItems(items, depth, true)|))
    decreases items, 3
  {
    hide Minify, Cat, Occurs, PrintItems, PrintValue;
    if |items| <= 1 {
      FewItems(items, depth, true);
      FewItems(items, d, false);
      if items == [] {
        CatNothing<text>(Minify(s, i));
      } else {
        MinifyPrinted(s, i, items[0], depth, d);
      }
    } else {
      var e, b := ItemPieces(s, i, items, depth, true);
      OneOrdinary(s, e);
      ShortItems(items, d);
      MinifyPrinted(s, i, items[0], depth, d);
      MinifyBlank(s, e + 1, b);
      MinifyItems(s, b, items[1..], depth, d);
      var x, rest := PrintValue(items[0], d, false), PrintItems(items[1..], d, false);
      var r := Minify(s, b + |PrintItems(items[1..], depth, true)|);
      CatCat<text>([','], rest, r);
      CatCat<text>(x, [','] + rest, r);
    }
  }

  lemma ShortObject(members: seq<Member>, d: nat)
    ensures PrintValue(Obj(members), d, false) == ['{'] + (PrintMembers(members, d + 1, false) + ['}'])
  {
    hide PrintItems;
    if members == [] {
      assert [] + ['}'] == ['}'];
    } else {
      hide PrintMembers;
      var t := PrintMembers(members, d + 1, false);
      assert [] + (t + ([] + ['}'])) == t + ['}'];
    }
  }

  lemma ShortMembers(members: seq<Member>, d: nat)
    requires members != []
    ensures PrintMembers(members, d, false) ==
            PrintStr(members[0].name) + ([':'] + (PrintValue(members[0].value, d, false) +
              (When(|members| > 1, [',']) + PrintMembers(members[1..], d, false))))
  {
    MembersSplit(members, d, false);
    var name, value := PrintStr(members[0].name), PrintValue(members[0].value, d, false);
    var more, rest := When(|members| > 1, [',']), PrintMembers(members[1..], d, false);
    hide PrintMembers, PrintValue, PrintStr;
    assert [] + rest == rest;
    assert [] + (value + (more + rest)) == value + (more + rest);
    var t := name + ([':'] + (value + (more + rest)));
    assert [] + t == t;
  }

  /** The part of a member list after the first value. */
  lemma {:induction false} MinifyTail(s: seq<text>, e: nat, members: seq<Member>, depth: nat, d: nat)
    requires members != [] && Occurs(s, e, MemberTail(members, depth, true))
    ensures Minify(s, e) == Cat<text>(When(|members| > 1, [',']) + PrintMembers(members[1..], d, false),
                                Minify(s, e + |MemberTail(members, depth, true)|))
    decreases members, 2
  {
    hide Minify, Cat, Occurs, PrintMembers, MemberTail, Tabs;
    var end := e + |MemberTail(members, depth, true)|;
    if |members| == 1 {
      LastTail(s, e, members, depth, true);
      MinifyBlank(s, e, end);
      NoMembersText(members[1..], d);
      CatNothing<text>(Minify(s, end));
    } else {
      var r := TailPieces(s, e, members, depth, true);
      OneOrdinary(s, e);
      assert BlankRun(s, e + 1, r);
      MinifyBlank(s, e + 1, r);
      MinifyMembers(s, r, members[1..], depth, d);
      CatCat<text>([','], PrintMembers(members[1..], d, false), Minify(s, end));
    }
  }

  lemma NoMembersText(members: seq<Member>, d: nat)
    requires members == []
    ensures When(false, [',']) + PrintMembers(members, d, false) == []
  {
  }

  lemma {:induction false} MinifyMembers(s: seq<text>, i: nat, members: seq<Member>, depth: nat, d: nat)
    requires members != [] && Occurs(s, i, PrintMembers(members, depth, true))
    ensures Minify(s, i) == Cat<text>(PrintMembers(members, d, false), Minify(s, i + |PrintMembers(members, depth, true)|))
    decreases members, 3
  {
    hide Occurs, PrintMembers, PrintValue, PrintStr, MemberTail, MemberRest, Tabs;
    var k, w := NamePieces(s, i, members, depth, true);
    var b, e := ValuePieces(s, w, members, depth, true);
    OneOrdinary(s, w);
    ShortMembers(members, d);
    hide Minify;
    MinifyBlank(s, i, k);
    MinifyString(s, k, members[0].name);
    MinifyBlank(s, w + 1, b);
    MinifyPrinted(s, b, members[0].value, depth, d);
    MinifyTail(s, e, members, depth, d);
    var r := Minify(s, e + |MemberTail(members, depth, true)|);
    var tail := When(|members| > 1, [',']) + PrintMembers(members[1..], d, false);
    var value := PrintValue(members[0].value, d, false);
    CatCat<text>(value, tail, r);
    CatCat<text>([':'], value + tail, r);
    CatCat<text>(PrintStr(members[0].name), [':'] + (value + tail), r);
  }

  /** From after the opening brace of a printed object to after its closing brace. */
  lemma {:induction false} MinifyBody(s: seq<text>, i: nat, members: seq<Member>, depth: nat, d: nat)
    requires members != [] && Occurs(s, i, PrintValue(Obj(members), depth, true))
    ensures i < |s| && s[i] == '{'
    ensures Minify(s, i + 1) ==
            Cat<text>(PrintMembers(members, d + 1, false) + ['}'], Minify(s, i + |PrintValue(Obj(members), depth, true)|))
    decreases members, 4
  {
    hide Minify, Cat, Occurs, PrintMembers, PrintValue, Tabs, When, ObjectRest;
    var b := ObjectOpens(s, i, members, depth, true);
    var e := ObjectCloses(s, b, members, depth, true);
    OneOrdinary(s, e);
    MinifyBlank(s, i + 1, b);
    MinifyMembers(s, b, members, depth + 1, d + 1);
    MinifyBlank(s, b + |PrintMembers(members, depth + 1, true)|, e);
    CatCat<text>(PrintMembers(members, d + 1, false), ['}'], Minify(s, e + 1));
  }

  lemma {:induction false} MinifyObject(s: seq<text>, i: nat, members: seq<Member>, depth: nat, d: nat)
    requires Occurs(s, i, PrintValue(Obj(members), depth, true))
    ensures Minify(s, i) ==
            Cat<text>(PrintValue(Obj(members), d, false), Minify(s, i + |PrintValue(Obj(members), depth, true)|))
    decreases members, 5
  {
    hide Minify, Cat, Occurs, PrintMembers, PrintValue;
    if members == [] {
      MinifyEmpty(s, i, depth, d);
    } else {
      MinifyBody(s, i, members, depth, d);
      OneOrdinary(s, i);
      ShortObject(members, d);
      CatCat<text>(['{'], PrintMembers(members, d + 1, false) + ['}'], Minify(s, i + |PrintValue(Obj(members), depth, true)|));
    }
  }

  lemma MinifyEmpty(s: seq<text>, i: nat, depth: nat, d: nat)
    requires Occurs(s, i, PrintValue(Obj([]), depth, true))
    ensures Minify(s, i) == Cat<text>(PrintValue(Obj([]), d, false), Minify(s, i + |PrintValue(Obj([]), depth, true)|))
  {
    EmptyPieces(s, i, depth, true);
    var e := i + 1 + |EmptyGap(depth, true)|;
    OneOrdinary(s, i);
    OneOrdinary(s, e);
    assert PrintValue(Obj([]), d, false) == ['{'] + ['}'] by {
      assert [] + ['}'] == ['}'];
    }
    hide Minify, Occurs, PrintValue, EmptyGap;
    MinifyBlank(s, i + 1, e);
    CatCat<text>(['{'], ['}'], Minify(s, e + 1));
  }

  /** Minifying the formatted print of any tree gives its unformatted print. */
  lemma MinifyUndoesFormat(j: Json)
    ensures Minify(PrintValue(j, 0, true), 0) == Some(PrintValue(j, 0, false))
  {
    var t := PrintValue(j, 0, true);
    MinifyPrinted(t, 0, j, 0, 0);
    assert PrintValue(j, 0, false) + [] == PrintValue(j, 0, false);
  }

  // ---- Print, then minify in place ---------------------------------------------------

  lemma JoinCString(a: seq<text>, b: seq<text>)
    requires CString(a) && CString(b)
    ensures CString(a + b)
  {
  }

  lemma {:induction false} DecimalCString(n: nat)
    ensures CString(Decimal(n))
  {
    if n >= 10 {
      DecimalCString(n / 10);
    }
  }

  lemma {:induction false} EscapedCString(t: seq<text>)
    ensures CString(EscapeAll(t))
  {
    if t != [] {
      EscapedCString(t[1..]);
    }
  }

  lemma StrCString(t: seq<text>)
    ensures CString(PrintStr(t))
  {
    EscapedCString(t);
  }

  lemma ArrCString(items: seq<Json>, depth: nat, fmt: bool)
    requires CString(PrintItems(items, depth + 1, fmt))
    ensures CString(PrintValue(Arr(items), depth, fmt))
  {
    var body := PrintItems(items, depth + 1, fmt);
    assert PrintValue(Arr(items), depth, fmt) == ['['] + (body + [']']);
    hide PrintItems, PrintValue;
    JoinCString(body, [']']);
    JoinCString(['['], body + [']']);
  }

  lemma ObjCString(members: seq<Member>, depth: nat, fmt: bool)
    requires CString(PrintMembers(members, depth + 1, fmt))
    ensures CString(PrintValue(Obj(members), depth, fmt))
  {
    hide PrintItems;
    if members != [] {
      var nl, body, end := When(fmt, ['\n']), PrintMembers(members, depth + 1, fmt), When(fmt, Tabs(depth)) + ['}'];
      assert PrintValue(Obj(members), depth, fmt) == ['{'] + (nl + (body + end));
      hide PrintMembers, PrintValue;
      JoinCString(body, end);
      JoinCString(nl, body + end);
      JoinCString(['{'], nl + (body + end));
    }
  }

  lemma WordCString(j: Json, depth: nat, fmt: bool)
    requires !j.Arr? && !j.Obj?
    ensures CString(PrintValue(j, depth, fmt))
  {
    match j
    case Num(m, _) => DecimalCString(if m < 0 then -m else m);
    case Str(t) => StrCString(t);
    case _ =>
  }

  /** No print contains a NUL, not even of strings that do. */
  lemma {:induction false} PrintIsCString(j: Json, depth: nat, fmt: bool)
    ensures CString(PrintValue(j, depth, fmt))
    decreases j, 1
  {
    hide PrintValue, CString;
    match j
    case Arr(items) =>
      ItemsAreCString(items, depth + 1, fmt);
      ArrCString(items, depth, fmt);
    case Obj(members) =>
      MembersAreCString(members, depth + 1, fmt);
      ObjCString(members, depth, fmt);
    case _ => WordCString(j, depth, fmt);
  }

  lemma {:induction false} ItemsAreCString(items: seq<Json>, depth: nat, fmt: bool)
    ensures CString(PrintItems(items, depth, fmt))
    decreases items, 0
  {
    if items != [] {
      PrintIsCString(items[0], depth, fmt);
      ItemsAreCString(items[1..], depth, fmt);
      hide PrintValue;
      if |items| > 1 {
        var rest := PrintItems(items[1..], depth, fmt);
        ItemsSplit(items, depth, fmt);
        JoinCString(Separator(fmt), rest);
        JoinCString(PrintValue(items[0], depth, fmt), Separator(fmt) + rest);
      }
    }
  }

  lemma {:induction false} MembersAreCString(members: seq<Member>, depth: nat, fmt: bool)
    ensures CString(PrintMembers(members, depth, fmt))
    decreases members, 0
  {
    if members != [] {
      StrCString(members[0].name);
      PrintIsCString(members[0].value, depth, fmt);
      MembersAreCString(members[1..], depth, fmt);
      MembersSplit(members, depth, fmt);
      hide PrintValue, PrintStr, PrintMembers;
      var name, value := PrintStr(members[0].name), PrintValue(members[0].value, depth, fmt);
      var rest := When(|members| > 1, [',']) + (When(fmt, ['\n']) + PrintMembers(members[1..], depth, fmt));
      JoinCString(When(fmt, ['\n']), PrintMembers(members[1..], depth, fmt));
      JoinCString(When(|members| > 1, [',']), When(fmt, ['\n']) + PrintMembers(members[1..], depth, fmt));
      JoinCString(value, rest);
      JoinCString(When(fmt, ['\t']), value + rest);
      JoinCString([':'], When(fmt, ['\t']) + (value + rest));
      JoinCString(name, [':'] + (When(fmt, ['\t']) + (value + rest)));
      JoinCString(When(fmt, Tabs(depth)), name + ([':'] + (When(fmt, ['\t']) + (value + rest))));
    }
  }

  /** Printing a tree with formatting and minifying that text in its own buffer leaves the unformatted print. */
  method PrintAndMinify(j: Json) returns (a: array<text>, n: nat)
    requires Printable(j)
    ensures n < a.Length && a[..n] == PrintValue(j, 0, false) && a[n] == '\0'
  {
    MinifyUndoesFormat(j);
    PrintIsCString(j, 0, true);
    hide PrintValue, Minify;
    var t := PrintJson(j, 0, true);
    a := new text[|t| + 1](k => At(t, k));
    var size := MinifyInPlace(a, t);
    n := size.value;
  }
}
