/** Which texts the parser accepts, and as which trees: a grammar by positions, and the proof that the
    parser accepts exactly its texts. Strings and numbers have laws of their own. */
module JsonGrammar {
  import opened Wrappers
  import opened Utf8Char
  import opened JsonText

  // ---- Gaps between tokens -----------------------------------------------------------

  /** A comment from `i` up to its first star and slash, or up to its first end of line. */
  predicate BlockComment(s: seq<text>, i: nat, m: nat) {
    && i + 4 <= m <= |s| && s[i] == '/' && s[i + 1] == '*' && s[m - 2] == '*' && s[m - 1] == '/'
    && forall k | i + 2 <= k < m - 2 :: !(s[k] == '*' && s[k + 1] == '/')
  }

  predicate LineComment(s: seq<text>, i: nat, m: nat) {
    && i + 3 <= m <= |s| && s[i] == '/' && s[i + 1] == '/' && s[m - 1] == '\n'
    && forall k | i + 2 <= k < m - 1 :: s[k] != '\n'
  }

  /** Any mix of control characters, blanks and comments. */
  ghost predicate Gap(s: seq<text>, i: nat, k: nat)
    decreases k - i
  {
    i <= k <= |s| &&
    (i == k || (1 <= s[i] as int <= 32 && Gap(s, i + 1, k)) ||
     exists m: nat | i < m <= k :: (BlockComment(s, i, m) || LineComment(s, i, m)) && Gap(s, m, k))
  }

  /** A byte with which no gap begins. */
  predicate Token(c: text) { c as int > 32 && c != '/' }

  lemma {:induction false} BlockEndIs(s: seq<text>, i: nat, m: nat)
    requires i + 2 <= m <= |s| && s[m - 2] == '*' && s[m - 1] == '/'
    requires forall k | i <= k < m - 2 :: !(s[k] == '*' && s[k + 1] == '/')
    ensures BlockEnd(s, i) == m
    decreases m - i
  {
    if i < m - 2 {
      BlockEndIs(s, i + 1, m);
    }
  }

  lemma {:induction false} LineEndIs(s: seq<text>, i: nat, e: nat)
    requires i <= e < |s| && s[e] == '\n' && forall k | i <= k < e :: s[k] != '\n'
    ensures LineEnd(s, i) == e
    decreases e - i
  {
    if i < e {
      LineEndIs(s, i + 1, e);
    }
  }

  lemma CommentIs(s: seq<text>, i: nat, m: nat)
    requires BlockComment(s, i, m) || LineComment(s, i, m)
    ensures SkipComments(s, i) == m && SkipSpace(s, i) == i
  {
    if BlockComment(s, i, m) {
      BlockEndIs(s, i + 2, m);
    } else {
      LineEndIs(s, i + 2, m - 1);
    }
  }

  /** Skipping from a later blank is skipping from here. */
  lemma SkipFromBlank(s: seq<text>, i: nat)
    requires i < |s| && 1 <= s[i] as int <= 32
    ensures Skip(s, i) == Skip(s, i + 1)
  {
    assert SkipSpace(s, i) == SkipSpace(s, i + 1);
    hide SkipSpace;
    SpaceFirst(s, i + 1);
  }

  lemma {:induction false} SpaceStops(s: seq<text>, i: nat)
    requires i <= |s|
    ensures SkipSpace(s, SkipSpace(s, i)) == SkipSpace(s, i)
    decreases |s| - i
  {
    if SkipSpace(s, i) != i {
      SpaceStops(s, i + 1);
    }
  }

  lemma SpaceFirst(s: seq<text>, i: nat)
    requires i <= |s|
    ensures var k := SkipComments(s, SkipSpace(s, i)); k != i ==> Skip(s, i) == Skip(s, k)
    ensures var p := SkipSpace(s, i); Skip(s, i) == Skip(s, p)
  {
    SpaceStops(s, i);
    hide SkipSpace, SkipComments;
  }

  /** The skipping loop passes every gap before a token, and nothing else. */
  lemma {:induction false} GapIsSkipped(s: seq<text>, i: nat, k: nat)
    requires Gap(s, i, k) && k < |s| && Token(s[k])
    ensures Skip(s, i) == k
    decreases k - i
  {
    if i == k {
    } else if 1 <= s[i] as int <= 32 && Gap(s, i + 1, k) {
      SkipFromBlank(s, i);
      GapIsSkipped(s, i + 1, k);
    } else {
      var m: nat :| i < m <= k && (BlockComment(s, i, m) || LineComment(s, i, m)) && Gap(s, m, k);
      CommentIs(s, i, m);
      SpaceFirst(s, i);
      GapIsSkipped(s, m, k);
    }
  }

  lemma {:induction false} GapJoin(s: seq<text>, i: nat, j: nat, k: nat)
    requires Gap(s, i, j) && Gap(s, j, k)
    ensures Gap(s, i, k)
    decreases j - i
  {
    if i == j {
    } else if 1 <= s[i] as int <= 32 && Gap(s, i + 1, j) {
      GapJoin(s, i + 1, j, k);
    } else {
      var m: nat :| i < m <= j && (BlockComment(s, i, m) || LineComment(s, i, m)) && Gap(s, m, j);
      GapJoin(s, m, j, k);
    }
  }

  lemma {:induction false} SpaceIsGap(s: seq<text>, i: nat)
    requires i <= |s|
    ensures Gap(s, i, SkipSpace(s, i))
    decreases |s| - i
  {
    if SkipSpace(s, i) != i {
      SpaceIsGap(s, i + 1);
    }
  }

  lemma {:induction false} BlockEndFound(s: seq<text>, i: nat)
    requires i <= |s|
    ensures var m := BlockEnd(s, i);
            m < |s| || (m >= i + 2 && s[m - 2] == '*' && s[m - 1] == '/') ==>
              m >= i + 2 && s[m - 2] == '*' && s[m - 1] == '/' &&
              forall k | i <= k < m - 2 :: !(s[k] == '*' && s[k + 1] == '/')
    decreases |s| - i
  {
    if i < |s| && !(s[i] == '*' && At(s, i + 1) == '/') {
      BlockEndFound(s, i + 1);
    }
  }

  lemma {:induction false} LineEndFound(s: seq<text>, i: nat)
    requires i <= |s|
    ensures var e := LineEnd(s, i);
            (forall k | i <= k < e :: s[k] != '\n') && (e < |s| ==> s[e] == '\n')
    decreases |s| - i
  {
    if i < |s| && s[i] != '\n' {
      LineEndFound(s, i + 1);
    }
  }

  lemma CommentIsGap(s: seq<text>, p: nat)
    requires p <= |s| && SkipComments(s, p) < |s|
    ensures Gap(s, p, SkipComments(s, p))
  {
    var m := SkipComments(s, p);
    if At(s, p) == '/' && At(s, p + 1) == '*' {
      BlockEndFound(s, p + 2);
      assert BlockComment(s, p, m) && Gap(s, m, m);
    } else if At(s, p) == '/' && At(s, p + 1) == '/' {
      LineEndFound(s, p + 2);
      assert LineComment(s, p, m) && Gap(s, m, m);
    }
  }

  /** What the loop passes before the end of the text is a gap. */
  lemma {:induction false} SkippedIsGap(s: seq<text>, i: nat)
    requires i <= |s| && Skip(s, i) < |s|
    ensures Gap(s, i, Skip(s, i))
    decreases |s| - i
  {
    var p := SkipSpace(s, i);
    var q := SkipComments(s, p);
    SpaceIsGap(s, i);
    hide SkipSpace, SkipComments, Gap;
    if q != i {
      CommentIsGap(s, p);
      SkippedIsGap(s, q);
      GapJoin(s, i, p, q);
      GapJoin(s, i, q, Skip(s, i));
    } else {
      assert p == i;
    }
  }

  // ---- Values ------------------------------------------------------------------------

  /** The bytes from `i` to `k` are a value, and it is `j`. */
  ghost predicate ValueAt(s: seq<text>, i: nat, k: nat, j: Json)
    decreases j, 1
  {
    i < k <= |s| &&
    match j
    case Null => s[i..k] == "null"
    case False => s[i..k] == "false"
    case True => s[i..k] == "true"
    case Num(_, _) => (s[i] == '-' || '0' <= s[i] <= '9') && ParseNum(s, i) == Parsed(j, k)
    case Str(t) => ParseStr(s, i) == Parsed(t, k)
    case Arr(items) =>
      i + 2 <= k && s[i] == '[' && s[k - 1] == ']' &&
      if items == [] then Gap(s, i + 1, k - 1) else ItemsAt(s, i + 1, k - 1, items)
    case Obj(members) =>
      i + 2 <= k && s[i] == '{' && s[k - 1] == '}' &&
      if members == [] then Gap(s, i + 1, k - 1) else MembersAt(s, i + 1, k - 1, members)
  }

  /** Elements between `a` and `b`, separated by commas, with gaps around each. */
  ghost predicate ItemsAt(s: seq<text>, a: nat, b: nat, items: seq<Json>)
    requires items != []
    decreases items, 0
  {
    exists p: nat, q: nat :: Gap(s, a, p) && ValueAt(s, p, q, items[0]) && q <= b <= |s| &&
      if |items| == 1 then Gap(s, q, b)
      else exists w: nat :: Gap(s, q, w) && w < b && s[w] == ',' && ItemsAt(s, w + 1, b, items[1..])
  }

  /** A name, a colon and a value. */
  ghost predicate MemberAt(s: seq<text>, a: nat, e: nat, m: Member)
    decreases m, 2
  {
    exists p: nat, q: nat, c: nat, v: nat ::
      Gap(s, a, p) && ParseStr(s, p) == Parsed(m.name, q) && Gap(s, q, c) && c < |s| && s[c] == ':' &&
      Gap(s, c + 1, v) && ValueAt(s, v, e, m.value)
  }

  ghost predicate MembersAt(s: seq<text>, a: nat, b: nat, members: seq<Member>)
    requires members != []
    decreases members, 0
  {
    exists e: nat :: MemberAt(s, a, e, members[0]) && e <= b <= |s| &&
      if |members| == 1 then Gap(s, e, b)
      else exists w: nat :: Gap(s, e, w) && w < b && s[w] == ',' && MembersAt(s, w + 1, b, members[1..])
  }

  lemma ValueStarts(s: seq<text>, i: nat, k: nat, j: Json)
    requires ValueAt(s, i, k, j)
    ensures i < |s| && Token(s[i]) && s[i] !in [']', '}', ',', ':']
    ensures j.Null? ==> s[i] == 'n'
    ensures j.False? ==> s[i] == 'f'
    ensures j.True? ==> s[i] == 't'
    ensures j.Str? ==> s[i] in ['"', '\'']
  {
    hide Gap, ItemsAt, MembersAt;
    if j.Null? || j.False? || j.True? {
      assert s[i..k][0] == s[i];
    }
  }

  lemma TokenStays(s: seq<text>, p: nat)
    requires p < |s| && Token(s[p])
    ensures Skip(s, p) == p
  {
    assert Gap(s, p, p);
    GapIsSkipped(s, p, p);
  }

  lemma Keyword(s: seq<text>, i: nat, w: seq<text>)
    ensures Occurs(s, i, w) <==> i + |w| <= |s| && s[i..i + |w|] == w
  {
    if i + |w| <= |s| {
      var t := s[i..i + |w|];
      assert forall k | 0 <= k < |w| :: t[k] == s[i + k];
    }
  }

  // ---- Every text of the grammar is accepted -----------------------------------------

  /** The three words. */
  lemma AcceptsWord(s: seq<text>, i: nat, k: nat, j: Json)
    requires ValueAt(s, i, k, j) && (j.Null? || j.False? || j.True?)
    ensures ParseValue(s, i) == Parsed(j, k)
  {
    var w := if j.Null? then "null" else if j.False? then "false" else "true";
    assert k == i + |w| && s[i..k] == w;
    Keyword(s, i, w);
    assert s[i..k][0] == s[i];
    OtherStart(s, i, if j.Null? then "true" else "null");
    OtherStart(s, i, if j.False? then "true" else "false");
    hide Occurs, ParseStr, ParseNum, ParseArray, ParseObject;
  }

  /** Strings and numbers. */
  lemma AcceptsScalar(s: seq<text>, i: nat, k: nat, j: Json)
    requires ValueAt(s, i, k, j) && (j.Num? || j.Str?)
    ensures ParseValue(s, i) == Parsed(j, k)
  {
    ValueStarts(s, i, k, j);
    NoWord(s, i);
    hide Occurs, ParseStr, ParseNum, ParseArray, ParseObject;
  }

  lemma NoWord(s: seq<text>, i: nat)
    requires i < |s| && s[i] !in ['n', 'f', 't']
    ensures !Occurs(s, i, "null") && !Occurs(s, i, "false") && !Occurs(s, i, "true")
  {
    OtherStart(s, i, "null");
    OtherStart(s, i, "false");
    OtherStart(s, i, "true");
    hide Occurs;
  }

  lemma OtherStart(s: seq<text>, i: nat, w: seq<text>)
    requires i < |s| && w != [] && s[i] != w[0]
    ensures !Occurs(s, i, w)
  {
    if i + |w| <= |s| {
      assert s[i + 0] != w[0];
    }
  }

  lemma {:induction false} Accepts(s: seq<text>, i: nat, k: nat, j: Json)
    requires ValueAt(s, i, k, j)
    ensures ParseValue(s, i) == Parsed(j, k)
    decreases j, 1
  {
    if j.Arr? {
      AcceptsArray(s, i, k, j.items);
    } else if j.Obj? {
      AcceptsObject(s, i, k, j.members);
    } else if j.Num? || j.Str? {
      AcceptsScalar(s, i, k, j);
    } else {
      AcceptsWord(s, i, k, j);
    }
  }

  lemma OpensNested(s: seq<text>, i: nat)
    requires i < |s| && s[i] in ['[', '{']
    ensures ParseValue(s, i) == if s[i] == '[' then ParseArray(s, i) else ParseObject(s, i)
  {
    NoWord(s, i);
    hide Occurs, ParseArray, ParseObject, ParseStr, ParseNum;
  }

  lemma ArrayUnfold(s: seq<text>, i: nat)
    requires i < |s| && s[i] == '['
    ensures var v := Skip(s, i + 1);
            ParseValue(s, i) == if At(s, v) == ']' then Parsed(Arr([]), v + 1)
                                else match ParseItems(s, v)
                                     case Parsed(items, next) => Parsed(Arr(items), next)
                                     case Bad => Bad
                                     case Overrun => Overrun
  {
    OpensNested(s, i);
    hide Skip, ParseItems, ParseValue;
  }

  lemma ObjectUnfold(s: seq<text>, i: nat)
    requires i < |s| && s[i] == '{'
    ensures var v := Skip(s, i + 1);
            ParseValue(s, i) == if At(s, v) == '}' then Parsed(Obj([]), v + 1)
                                else match ParseMembers(s, v)
                                     case Parsed(members, next) => Parsed(Obj(members), next)
                                     case Bad => Bad
                                     case Overrun => Overrun
  {
    OpensNested(s, i);
    hide Skip, ParseMembers, ParseValue;
  }

  lemma ArrayIff(s: seq<text>, i: nat, k: nat, items: seq<Json>)
    ensures ValueAt(s, i, k, Arr(items)) <==>
            i + 2 <= k <= |s| && s[i] == '[' && s[k - 1] == ']' &&
            if items == [] then Gap(s, i + 1, k - 1) else ItemsAt(s, i + 1, k - 1, items)
  {
    hide Gap, ItemsAt;
  }

  lemma ObjectIff(s: seq<text>, i: nat, k: nat, members: seq<Member>)
    ensures ValueAt(s, i, k, Obj(members)) <==>
            i + 2 <= k <= |s| && s[i] == '{' && s[k - 1] == '}' &&
            if members == [] then Gap(s, i + 1, k - 1) else MembersAt(s, i + 1, k - 1, members)
  {
    hide Gap, MembersAt;
  }

  lemma {:induction false} AcceptsArray(s: seq<text>, i: nat, k: nat, items: seq<Json>)
    requires ValueAt(s, i, k, Arr(items))
    ensures ParseValue(s, i) == Parsed(Arr(items), k)
    decreases items, 2
  {
    hide *;
    ArrayIff(s, i, k, items);
    ArrayUnfold(s, i);
    if items == [] {
      Closes(s, k - 1, ']');
      GapIsSkipped(s, i + 1, k - 1);
    } else {
      AcceptsItems(s, i + 1, k - 1, items);
    }
  }

  lemma Closes(s: seq<text>, k: nat, c: text)
    requires k < |s| && s[k] == c && c in [']', '}', ',', ':']
    ensures Token(s[k]) && At(s, k) == c
  {
  }

  lemma {:induction false} AcceptsObject(s: seq<text>, i: nat, k: nat, members: seq<Member>)
    requires ValueAt(s, i, k, Obj(members))
    ensures ParseValue(s, i) == Parsed(Obj(members), k)
    decreases members, 2
  {
    hide *;
    ObjectIff(s, i, k, members);
    ObjectUnfold(s, i);
    if members == [] {
      Closes(s, k - 1, '}');
      GapIsSkipped(s, i + 1, k - 1);
    } else {
      AcceptsMembers(s, i + 1, k - 1, members);
    }
  }

  lemma ItemsParts(s: seq<text>, a: nat, b: nat, items: seq<Json>) returns (p: nat, q: nat, w: nat)
    requires items != [] && ItemsAt(s, a, b, items)
    ensures Gap(s, a, p) && ValueAt(s, p, q, items[0]) && q <= b <= |s|
    ensures |items| == 1 ==> w == b && Gap(s, q, b)
    ensures |items| > 1 ==> Gap(s, q, w) && w < b && s[w] == ',' && ItemsAt(s, w + 1, b, items[1..])
  {
    hide Gap, ValueAt;
    p, q :| Gap(s, a, p) && ValueAt(s, p, q, items[0]) && q <= b <= |s| &&
      if |items| == 1 then Gap(s, q, b)
      else exists w: nat :: Gap(s, q, w) && w < b && s[w] == ',' && ItemsAt(s, w + 1, b, items[1..]);
    w := b;
    if |items| > 1 {
      w :| Gap(s, q, w) && w < b && s[w] == ',' && ItemsAt(s, w + 1, b, items[1..]);
    }
  }

  lemma ItemsFrom(s: seq<text>, a: nat, b: nat, items: seq<Json>, p: nat, q: nat, w: nat)
    requires items != [] && Gap(s, a, p) && ValueAt(s, p, q, items[0]) && q <= b <= |s|
    requires if |items| == 1 then Gap(s, q, b)
             else Gap(s, q, w) && w < b && s[w] == ',' && ItemsAt(s, w + 1, b, items[1..])
    ensures ItemsAt(s, a, b, items)
  {
    hide Gap, ValueAt;
  }

  lemma ItemsUnfold(s: seq<text>, v: nat, x: Json, q: nat)
    requires v <= |s| && ParseValue(s, Skip(s, v)) == Parsed(x, q)
    ensures q <= |s|
    ensures var w := Skip(s, q);
            ParseItems(s, v) == if At(s, w) == ',' then Prepend([x], ParseItems(s, w + 1))
                                else if At(s, w) == ']' then Parsed([x], w + 1) else Bad
  {
    hide Skip, ParseValue;
  }

  lemma GapBounds(s: seq<text>, a: nat, p: nat)
    requires Gap(s, a, p)
    ensures a <= p <= |s|
  {
  }

  lemma {:induction false} AcceptsItems(s: seq<text>, a: nat, b: nat, items: seq<Json>)
    requires items != [] && ItemsAt(s, a, b, items) && b < |s| && s[b] == ']'
    ensures a <= |s| && At(s, Skip(s, a)) != ']' && ParseItems(s, Skip(s, a)) == Parsed(items, b + 1)
    ensures ParseItems(s, a) == Parsed(items, b + 1)
    decreases items, 0
  {
    hide Gap, ValueAt, ItemsAt, Skip, ParseValue, ParseItems;
    var p, q, w := ItemsParts(s, a, b, items);
    GapBounds(s, a, p);
    ValueStarts(s, p, q, items[0]);
    GapIsSkipped(s, a, p);
    TokenStays(s, p);
    Accepts(s, p, q, items[0]);
    ItemsUnfold(s, a, items[0], q);
    ItemsUnfold(s, p, items[0], q);
    GapIsSkipped(s, q, w);
    if |items| == 1 {
      assert [items[0]] == items;
    } else {
      AcceptsItems(s, w + 1, b, items[1..]);
      assert [items[0]] + items[1..] == items;
    }
  }

  lemma MemberParts(s: seq<text>, a: nat, e: nat, m: Member) returns (p: nat, q: nat, c: nat, v: nat)
    requires MemberAt(s, a, e, m)
    ensures Gap(s, a, p) && ParseStr(s, p) == Parsed(m.name, q) && Gap(s, q, c) && c < |s| && s[c] == ':'
    ensures Gap(s, c + 1, v) && ValueAt(s, v, e, m.value)
  {
    hide ValueAt, ParseStr;
    p, q, c, v :|
      Gap(s, a, p) && ParseStr(s, p) == Parsed(m.name, q) && Gap(s, q, c) && c < |s| && s[c] == ':' &&
      Gap(s, c + 1, v) && ValueAt(s, v, e, m.value);
  }

  lemma MemberFrom(s: seq<text>, a: nat, e: nat, m: Member, p: nat, q: nat, c: nat, v: nat)
    requires p <= |s| && q <= |s|
    requires Gap(s, a, p) && ParseStr(s, p) == Parsed(m.name, q) && Gap(s, q, c) && c < |s| && s[c] == ':'
    requires Gap(s, c + 1, v) && ValueAt(s, v, e, m.value)
    ensures MemberAt(s, a, e, m)
  {
    hide ValueAt, ParseStr;
  }

  lemma MemberUnfold(s: seq<text>, a: nat, name: seq<text>, q: nat)
    requires a <= |s| && ParseStr(s, Skip(s, a)) == Parsed(name, q)
    ensures q <= |s|
    ensures var c := Skip(s, q);
            ParseMember(s, a) ==
            if At(s, c) != ':' then Bad
            else match ParseValue(s, Skip(s, c + 1))
                 case Bad => Bad
                 case Overrun => Overrun
                 case Parsed(x, next) => Parsed(Member(name, x), next)
  {
    hide Skip, ParseValue, ParseStr;
  }

  lemma {:induction false} AcceptsMember(s: seq<text>, a: nat, e: nat, m: Member)
    requires MemberAt(s, a, e, m)
    ensures a <= |s| && At(s, Skip(s, a)) != '}' && ParseMember(s, Skip(s, a)) == Parsed(m, e)
    ensures ParseMember(s, a) == Parsed(m, e)
    decreases m, 3
  {
    hide Gap, ValueAt, MemberAt, Skip, ParseValue, ParseStr, ParseMember;
    var p, q, c, v := MemberParts(s, a, e, m);
    GapBounds(s, a, p);
    GapBounds(s, q, c);
    StringStarts(s, p);
    GapIsSkipped(s, a, p);
    TokenStays(s, p);
    MemberUnfold(s, a, m.name, q);
    MemberUnfold(s, p, m.name, q);
    GapIsSkipped(s, q, c);
    ValueStarts(s, v, e, m.value);
    GapIsSkipped(s, c + 1, v);
    Accepts(s, v, e, m.value);
  }

  lemma StringStarts(s: seq<text>, p: nat)
    requires p <= |s| && ParseStr(s, p).Parsed?
    ensures p < |s| && Token(s[p]) && s[p] in ['"', '\'']
  {
  }

  lemma MembersParts(s: seq<text>, a: nat, b: nat, members: seq<Member>) returns (e: nat, w: nat)
    requires members != [] && MembersAt(s, a, b, members)
    ensures MemberAt(s, a, e, members[0]) && e <= b <= |s|
    ensures |members| == 1 ==> w == b && Gap(s, e, b)
    ensures |members| > 1 ==> Gap(s, e, w) && w < b && s[w] == ',' && MembersAt(s, w + 1, b, members[1..])
  {
    hide Gap, MemberAt;
    e :| MemberAt(s, a, e, members[0]) && e <= b <= |s| &&
      if |members| == 1 then Gap(s, e, b)
      else exists w: nat :: Gap(s, e, w) && w < b && s[w] == ',' && MembersAt(s, w + 1, b, members[1..]);
    w := b;
    if |members| > 1 {
      w :| Gap(s, e, w) && w < b && s[w] == ',' && MembersAt(s, w + 1, b, members[1..]);
    }
  }

  lemma MembersFrom(s: seq<text>, a: nat, b: nat, members: seq<Member>, e: nat, w: nat)
    requires members != [] && MemberAt(s, a, e, members[0]) && e <= b <= |s|
    requires if |members| == 1 then Gap(s, e, b)
             else Gap(s, e, w) && w < b && s[w] == ',' && MembersAt(s, w + 1, b, members[1..])
    ensures MembersAt(s, a, b, members)
  {
    hide Gap, MemberAt;
  }

  lemma MembersUnfold(s: seq<text>, v: nat, m: Member, e: nat)
    requires v <= |s| && ParseMember(s, v) == Parsed(m, e)
    ensures e <= |s|
    ensures var w := Skip(s, e);
            ParseMembers(s, v) == if At(s, w) == ',' then Prepend([m], ParseMembers(s, w + 1))
                                  else if At(s, w) == '}' then Parsed([m], w + 1) else Bad
  {
    hide Skip, ParseMember;
  }

  lemma {:induction false} AcceptsMembers(s: seq<text>, a: nat, b: nat, members: seq<Member>)
    requires members != [] && MembersAt(s, a, b, members) && b < |s| && s[b] == '}'
    ensures a <= |s| && At(s, Skip(s, a)) != '}' && ParseMembers(s, Skip(s, a)) == Parsed(members, b + 1)
    ensures ParseMembers(s, a) == Parsed(members, b + 1)
    decreases members, 0
  {
    hide Gap, MemberAt, MembersAt, Skip, ParseMember, ParseMembers;
    var e, w := MembersParts(s, a, b, members);
    AcceptsMember(s, a, e, members[0]);
    MembersUnfold(s, a, members[0], e);
    MembersUnfold(s, Skip(s, a), members[0], e);
    GapIsSkipped(s, e, w);
    if |members| == 1 {
      assert [members[0]] == members;
    } else {
      AcceptsMembers(s, w + 1, b, members[1..]);
      assert [members[0]] + members[1..] == members;
    }
  }

  // ---- And no other text -------------------------------------------------------------

  lemma {:induction false} Reads(s: seq<text>, i: nat)
    requires i <= |s| && ParseValue(s, i).Parsed?
    ensures ValueAt(s, i, ParseValue(s, i).next, ParseValue(s, i).value)
    decreases |s| - i, 2
  {
    var j, k := ParseValue(s, i).value, ParseValue(s, i).next;
    if At(s, i) == '[' {
      NoWord(s, i);
      ReadsArray(s, i);
    } else if At(s, i) == '{' {
      NoWord(s, i);
      ReadsObject(s, i);
    } else {
      ReadsScalar(s, i);
    }
  }

  lemma ReadsScalar(s: seq<text>, i: nat)
    requires i <= |s| && ParseValue(s, i).Parsed? && At(s, i) != '[' && At(s, i) != '{'
    ensures ValueAt(s, i, ParseValue(s, i).next, ParseValue(s, i).value)
  {
    Keyword(s, i, "null");
    Keyword(s, i, "false");
    Keyword(s, i, "true");
    hide Occurs, ParseStr, ParseNum, ParseArray, ParseObject, Gap, ItemsAt, MembersAt;
  }

  lemma SkippedFits(s: seq<text>, i: nat)
    requires i <= |s|
    ensures Skip(s, i) < |s| ==> Gap(s, i, Skip(s, i))
  {
    if Skip(s, i) < |s| {
      SkippedIsGap(s, i);
    }
    hide Skip, Gap;
  }

  lemma AtInside(s: seq<text>, w: nat, c: text)
    requires At(s, w) == c && c != '\0'
    ensures w < |s| && s[w] == c
  {
  }

  lemma {:induction false} ReadsArray(s: seq<text>, i: nat)
    requires i < |s| && s[i] == '[' && ParseValue(s, i).Parsed?
    ensures ValueAt(s, i, ParseValue(s, i).next, ParseValue(s, i).value)
    decreases |s| - i, 1
  {
    hide *;
    ArrayUnfold(s, i);
    var v, r := Skip(s, i + 1), ParseValue(s, i);
    SkippedFits(s, i + 1);
    if At(s, v) == ']' {
      AtInside(s, v, ']');
      ArrayIff(s, i, r.next, []);
    } else {
      ReadsItems(s, v);
      var items := ParseItems(s, v);
      assert v < |s|;
      GapBeforeItems(s, i + 1, v, items.next - 1, items.value);
      ArrayIff(s, i, r.next, items.value);
    }
  }

  lemma {:induction false} ReadsObject(s: seq<text>, i: nat)
    requires i < |s| && s[i] == '{' && ParseValue(s, i).Parsed?
    ensures ValueAt(s, i, ParseValue(s, i).next, ParseValue(s, i).value)
    decreases |s| - i, 1
  {
    hide *;
    ObjectUnfold(s, i);
    var v, r := Skip(s, i + 1), ParseValue(s, i);
    SkippedFits(s, i + 1);
    if At(s, v) == '}' {
      AtInside(s, v, '}');
      ObjectIff(s, i, r.next, []);
    } else {
      ReadsMembers(s, v);
      var members := ParseMembers(s, v);
      assert v < |s|;
      GapBeforeMembers(s, i + 1, v, members.next - 1, members.value);
      ObjectIff(s, i, r.next, members.value);
    }
  }

  lemma GapBeforeItems(s: seq<text>, a: nat, v: nat, b: nat, items: seq<Json>)
    requires items != [] && Gap(s, a, v) && ItemsAt(s, v, b, items)
    ensures ItemsAt(s, a, b, items)
  {
    hide *;
    var p, q, w := ItemsParts(s, v, b, items);
    GapJoin(s, a, v, p);
    ItemsFrom(s, a, b, items, p, q, w);
  }

  lemma GapBeforeMembers(s: seq<text>, a: nat, v: nat, b: nat, members: seq<Member>)
    requires members != [] && Gap(s, a, v) && MembersAt(s, v, b, members)
    ensures MembersAt(s, a, b, members)
  {
    hide *;
    var e, w := MembersParts(s, v, b, members);
    var p, q, c, x := MemberParts(s, v, e, members[0]);
    GapJoin(s, a, v, p);
    GapBounds(s, v, p);
    GapBounds(s, q, c);
    MemberFrom(s, a, e, members[0], p, q, c, x);
    MembersFrom(s, a, b, members, e, w);
  }

  lemma ItemsStep(s: seq<text>, v: nat)
    requires v <= |s| && ParseItems(s, v).Parsed?
    ensures ParseValue(s, Skip(s, v)).Parsed? && ParseItems(s, v).value != []
    ensures var x := ParseValue(s, Skip(s, v)); var w := Skip(s, x.next);
            (At(s, w) == ',' && ParseItems(s, w + 1).Parsed? &&
             ParseItems(s, v) == Parsed([x.value] + ParseItems(s, w + 1).value, ParseItems(s, w + 1).next)) ||
            (At(s, w) == ']' && ParseItems(s, v) == Parsed([x.value], w + 1))
  {
    hide Skip, ParseValue;
  }

  lemma {:induction false} ReadsItems(s: seq<text>, v: nat)
    requires v <= |s| && ParseItems(s, v).Parsed?
    ensures var r := ParseItems(s, v);
            r.value != [] && s[r.next - 1] == ']' && ItemsAt(s, v, r.next - 1, r.value)
    decreases |s| - v, 3
  {
    hide *;
    var p, r := Skip(s, v), ParseItems(s, v);
    ItemsStep(s, v);
    SkippedFits(s, v);
    var x := ParseValue(s, p);
    SkippedFits(s, x.next);
    Reads(s, p);
    var w := Skip(s, x.next);
    if At(s, w) == ',' {
      AtInside(s, w, ',');
      ReadsItems(s, w + 1);
      assert r.value[0] == x.value && r.value[1..] == ParseItems(s, w + 1).value;
    } else {
      AtInside(s, w, ']');
    }
    ItemsFrom(s, v, r.next - 1, r.value, p, x.next, w);
  }

  lemma MembersStep(s: seq<text>, v: nat)
    requires v <= |s| && ParseMembers(s, v).Parsed?
    ensures ParseMember(s, v).Parsed? && ParseMembers(s, v).value != []
    ensures var x := ParseMember(s, v); var w := Skip(s, x.next);
            (At(s, w) == ',' && ParseMembers(s, w + 1).Parsed? &&
             ParseMembers(s, v) == Parsed([x.value] + ParseMembers(s, w + 1).value, ParseMembers(s, w + 1).next)) ||
            (At(s, w) == '}' && ParseMembers(s, v) == Parsed([x.value], w + 1))
  {
    hide Skip, ParseMember;
  }

  lemma MemberStep(s: seq<text>, v: nat)
    requires v <= |s| && ParseMember(s, v).Parsed?
    ensures ParseStr(s, Skip(s, v)).Parsed?
    ensures var q := ParseStr(s, Skip(s, v)).next; var c := Skip(s, q);
            At(s, c) == ':' && c < |s| && ParseValue(s, Skip(s, c + 1)).Parsed? &&
            ParseMember(s, v) ==
              Parsed(Member(ParseStr(s, Skip(s, v)).value, ParseValue(s, Skip(s, c + 1)).value), ParseValue(s, Skip(s, c + 1)).next)
  {
    hide Skip, ParseStr, ParseValue;
  }

  lemma {:induction false} ReadsMember(s: seq<text>, v: nat)
    requires v <= |s| && ParseMember(s, v).Parsed?
    ensures MemberAt(s, v, ParseMember(s, v).next, ParseMember(s, v).value)
    decreases |s| - v, 3
  {
    hide *;
    MemberStep(s, v);
    var p := Skip(s, v);
    var q := ParseStr(s, p).next;
    var c := Skip(s, q);
    SkippedFits(s, v);
    SkippedFits(s, q);
    SkippedFits(s, c + 1);
    AtInside(s, c, ':');
    Reads(s, Skip(s, c + 1));
    MemberFrom(s, v, ParseMember(s, v).next, ParseMember(s, v).value, p, q, c, Skip(s, c + 1));
  }

  lemma {:induction false} ReadsMembers(s: seq<text>, v: nat)
    requires v <= |s| && ParseMembers(s, v).Parsed?
    ensures var r := ParseMembers(s, v);
            r.value != [] && s[r.next - 1] == '}' && MembersAt(s, v, r.next - 1, r.value)
    decreases |s| - v, 4
  {
    hide *;
    MembersStep(s, v);
    var x, r := ParseMember(s, v), ParseMembers(s, v);
    SkippedFits(s, x.next);
    ReadsMember(s, v);
    var w := Skip(s, x.next);
    if At(s, w) == ',' {
      AtInside(s, w, ',');
      ReadsMembers(s, w + 1);
      assert r.value[0] == x.value && r.value[1..] == ParseMembers(s, w + 1).value;
    } else {
      AtInside(s, w, '}');
    }
    MembersFrom(s, v, r.next - 1, r.value, x.next, w);
  }

  // ---- The parser --------------------------------------------------------------------

  /** At every position the parser reads a value exactly when one of the grammar stands there. */
  lemma ReadsIff(s: seq<text>, i: nat, k: nat, j: Json)
    requires i <= |s|
    ensures ParseValue(s, i) == Parsed(j, k) <==> ValueAt(s, i, k, j)
  {
    hide ParseValue, ValueAt;
    if ParseValue(s, i).Parsed? {
      Reads(s, i);
    }
    if ValueAt(s, i, k, j) {
      Accepts(s, i, k, j);
    }
  }

  /** A whole text is read exactly when it begins with a gap and a value; what follows is ignored. */
  lemma ParsesIff(s: seq<text>, k: nat, j: Json)
    ensures Parse(s) == Parsed(j, k) <==> exists p: nat :: Gap(s, 0, p) && ValueAt(s, p, k, j)
  {
    SkippedFits(s, 0);
    hide Skip, ParseValue, ValueAt, Gap;
    if Parse(s) == Parsed(j, k) {
      ReadsIff(s, Skip(s, 0), k, j);
    }
    if exists p: nat :: Gap(s, 0, p) && ValueAt(s, p, k, j) {
      var p: nat :| Gap(s, 0, p) && ValueAt(s, p, k, j);
      ValueStarts(s, p, k, j);
      GapIsSkipped(s, 0, p);
      ReadsIff(s, p, k, j);
    }
  }
}
