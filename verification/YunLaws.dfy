/** What the page scanner of `YunData` does on any page: where it takes a candidate, how its stack moves,
    and what it returns. */
module YunLaws {
  import opened Wrappers
  import opened YunData

  /** Blank, tab, the line ends and the two other separators of C. */
  predicate Space(c: text) { c == ' ' || 9 <= c as int <= 13 }

  lemma SpaceIs(c: text)
    ensures White(c) <==> Space(c)
  {
  }

  lemma {:induction false} SkipsSpaces(s: seq<text>, i: nat)
    requires i <= |s|
    ensures var k := SkipWhite(s, i);
            i <= k <= |s| && (forall j | i <= j < k :: Space(s[j])) && (k < |s| ==> !Space(s[k]))
    decreases |s| - i
  {
    if i < |s| && White(s[i]) {
      SkipsSpaces(s, i + 1);
    }
  }

  /** From `a` there are only spaces, then `c` at `k`. */
  predicate SpacesThen(s: seq<text>, a: nat, k: nat, c: text) {
    a <= k < |s| && s[k] == c && forall j | a <= j < k :: Space(s[j])
  }

  predicate Assigns(s: seq<text>, p: nat, key: seq<text>, t: nat, b: nat) {
    SpacesThen(s, p + |key|, t, '=') && SpacesThen(s, t + 1, b, '{')
  }

  /** A candidate is the key, an equals sign and an opening brace, with any spaces in between. */
  lemma CandidateIff(s: seq<text>, p: nat, key: seq<text>, b: nat)
    requires p + |key| <= |s|
    ensures BraceAfter(s, p, key) == Some(b) <==>
            exists t: nat :: Assigns(s, p, key, t, b)
  {
    var t := SkipWhite(s, p + |key|);
    SkipsSpaces(s, p + |key|);
    if At(s, t) == '=' {
      SkipsSpaces(s, t + 1);
    }
    assert BraceAfter(s, p, key) == Some(b) ==> Assigns(s, p, key, t, b);
    forall x: nat | Assigns(s, p, key, x, b)
      ensures x == t && SkipWhite(s, t + 1) == b
    {
      assert !Space(s[x]) && !Space(s[b]);
      assert x == t;
      SkipsSpaces(s, t + 1);
    }
    hide SkipWhite, Space;
  }

  /** Where the key stands; at the end of the page, a beginning of it is enough. */
  lemma KeyMatchIff(s: seq<text>, p: nat, key: seq<text>)
    ensures p + |key| <= |s| ==> (KeyAt(s, p, key) <==> key != [] && s[p..p + |key|] == key)
    ensures p + |key| > |s| > p ==> (KeyAt(s, p, key) <==> s[p..] == key[..|s| - p])
  {
    if p + |key| <= |s| {
      var t := s[p..p + |key|];
      assert forall k | 0 <= k < |key| :: t[k] == s[p + k];
    } else if |s| > p {
      var t, u := s[p..], key[..|s| - p];
      assert forall k | 0 <= k < |t| :: t[k] == s[p + k] && u[k] == key[k];
    }
  }

  /** The stack on one byte: a backslash protects the next byte; quotes open and close; brackets count
      outside strings, and any closing bracket closes any opening one. */
  lemma StepIs(st: Stack, c: text)
    requires |st| > 1
    ensures var top, popped := st[|st| - 1], Some(st[..|st| - 1]);
            var pushed := if |st| < 32 then Some(st + [c]) else None;
            Step(st, c) ==
            if top == '\\' then popped
            else if c == '"' then if top == '"' then popped else pushed
            else if c == '\\' then pushed
            else if top == '"' then Some(st)
            else if c in ['{', '[', '('] then pushed
            else if c in ['}', ']', ')'] then popped
            else Some(st)
  {
  }

  /** The scan begins with the brace of the candidate and goes on until the stack is empty. */
  lemma ScanSteps(s: seq<text>, i: nat, st: Stack)
    requires |st| > 1 || At(s, i) == '{'
    ensures i >= |s| ==> ScanFrom(s, i, st) == RanOut(st)
    ensures i < |s| && st == ['\0'] ==> ScanFrom(s, i, st) == ScanFrom(s, i + 1, ['\0', '{'])
    ensures i < |s| && |st| > 1 ==>
              ScanFrom(s, i, st) ==
              match Step(st, s[i])
              case None => Full
              case Some(st') => if |st'| == 1 then Emptied(i) else ScanFrom(s, i + 1, st')
  {
    ScanUnfolds(s, i, st);
    hide ScanFrom;
    if st == ['\0'] {
      assert st + ['{'] == ['\0', '{'];
    }
  }

  lemma ScanUnfolds(s: seq<text>, i: nat, st: Stack)
    requires |st| > 1 || At(s, i) == '{'
    ensures ScanFrom(s, i, st) ==
            if i >= |s| then RanOut(st)
            else match Step(st, s[i])
                 case None => Full
                 case Some(st') => if |st'| == 1 then Emptied(i) else ScanFrom(s, i + 1, st')
  {
  }

  /** A candidate whose scan ends at a closing brace is the answer; otherwise the search goes on behind
      it, with the stack as it was left when the page ran out. */
  lemma SearchSteps(s: seq<text>, p: nat, st: Stack, key: seq<text>)
    ensures p >= |s| ==> Search(s, p, st, key) == NotFound
    ensures p < |s| && (!KeyAt(s, p, key) || (p + |key| <= |s| && BraceAfter(s, p, key).None?)) ==>
              Search(s, p, st, key) == Search(s, p + 1, st, key)
    ensures p < |s| && KeyAt(s, p, key) && p + |key| > |s| ==> Search(s, p, st, key) == Undefined
    ensures p < |s| && KeyAt(s, p, key) && p + |key| <= |s| && BraceAfter(s, p, key).Some? ==>
              var b := BraceAfter(s, p, key).value;
              var scan := ScanFrom(s, b, st);
              && (scan == Full ==> Search(s, p, st, key) == Undefined)
              && (scan.RanOut? ==> Search(s, p, st, key) == Search(s, p + 1, scan.st, key))
              && (scan.Emptied? && b <= scan.at < |s| ==>
                    Search(s, p, st, key) ==
                    if s[scan.at] == '}' then Found(s[b..scan.at + 1]) else Search(s, p + 1, ['\0'], key))
  {
    hide KeyAt, BraceAfter, ScanFrom;
  }

  /** Where the result came from. */
  predicate Source(s: seq<text>, q: nat, b: nat, e: nat, st: Stack, key: seq<text>, t: seq<text>) {
    && q + |key| <= |s| && s[q..q + |key|] == key && BraceAfter(s, q, key) == Some(b)
    && ScanFrom(s, b, st) == Emptied(e) && b <= e < |s| && s[e] == '}' && t == s[b..e + 1]
  }

  /** Whatever is returned begins with the brace of a candidate and ends where the scan from there has
      closed everything. */
  lemma {:induction false} FoundMeans(s: seq<text>, p: nat, st: Stack, key: seq<text>, t: seq<text>)
    requires Search(s, p, st, key) == Found(t)
    ensures exists q: nat, b: nat, e: nat, st': Stack :: p <= q && Source(s, q, b, e, st', key, t)
    decreases |s| - p
  {
    KeyMatchIff(s, p, key);
    hide ScanFrom, BraceAfter, KeyAt;
    if KeyAt(s, p, key) && BraceAfter(s, p, key).Some? {
      var b := BraceAfter(s, p, key).value;
      match ScanFrom(s, b, st)
      case Full =>
      case RanOut(st') => FoundMeans(s, p + 1, st', key, t);
      case Emptied(e) =>
        if e < |s| && s[e] == '}' && b <= e {
          assert Source(s, p, b, e, st, key, t);
        } else {
          FoundMeans(s, p + 1, EMPTY, key, t);
        }
    } else {
      FoundMeans(s, p + 1, st, key, t);
    }
  }
}
