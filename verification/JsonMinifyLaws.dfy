/** What minifying does to any text, one piece at a time: blanks and comments vanish, string literals and
    all other bytes stay. */
module JsonMinifyLaws {
  import opened Wrappers
  import opened JsonText
  import opened JsonMinify

  // ---- The rest of a text does not depend on what stands before it -------------------

  lemma AtShift(a: seq<text>, b: seq<text>, k: nat)
    ensures At(a + b, |a| + k) == At(b, k)
  {
  }

  lemma {:induction false} LineShift(a: seq<text>, b: seq<text>, k: nat)
    requires k <= |b|
    ensures LineEnd(a + b, |a| + k) == |a| + LineEnd(b, k)
    decreases |b| - k
  {
    if k < |b| && b[k] != '\n' {
      LineShift(a, b, k + 1);
    }
  }

  lemma {:induction false} BlockShift(a: seq<text>, b: seq<text>, k: nat)
    requires k <= |b|
    ensures BlockStop(a + b, |a| + k) == |a| + BlockStop(b, k)
    decreases |b| - k
  {
    AtShift(a, b, k + 1);
    if k < |b| && !(b[k] == '*' && At(b, k + 1) == '/') {
      BlockShift(a, b, k + 1);
    }
  }

  lemma {:induction false} Shift(a: seq<text>, b: seq<text>, k: nat, quoted: bool)
    ensures Minify(a + b, |a| + k, quoted) == Minify(b, k, quoted)
    decreases |b| - k
  {
    AtShift(a, b, k + 1);
    hide LineEnd, BlockStop, Cat, At;
    if k >= |b| {
    } else if quoted {
      Shift(a, b, k + 1, false);
      Shift(a, b, k + 1, true);
      if k + 1 < |b| {
        Shift(a, b, k + 2, true);
      }
    } else {
      Shift(a, b, k + 1, false);
      Shift(a, b, k + 1, true);
      LineShift(a, b, k + 1);
      BlockShift(a, b, k + 1);
      if b[k] == '/' && At(b, k + 1) == '/' {
        Shift(a, b, LineEnd(b, k + 1), false);
      } else if b[k] == '/' && At(b, k + 1) == '*' {
        Shift(a, b, BlockStop(b, k + 1) + 2, false);
      }
    }
  }

  /** Minifying a whole text. */
  function Minified(s: seq<text>): Option<seq<text>> { Minify(s, 0) }

  /** Minifying from inside a string literal. */
  function MinifiedInside(s: seq<text>): Option<seq<text>> { Minify(s, 0, true) }

  lemma FromHere(a: seq<text>, b: seq<text>)
    ensures Minify(a + b, |a|) == Minified(b) && Minify(a + b, |a|, true) == MinifiedInside(b)
  {
    Shift(a, b, 0, false);
    Shift(a, b, 0, true);
    hide Minify;
  }

  // ---- Outside literals --------------------------------------------------------------

  lemma NothingStays()
    ensures Minified([]) == Some([])
  {
  }

  /** Blanks, tabs and both ends of line vanish. */
  lemma BlankVanishes(c: text, b: seq<text>)
    requires c in [' ', '\t', '\r', '\n']
    ensures Minified([c] + b) == Minified(b)
  {
    FromHere([c], b);
    var s := [c] + b;
    assert s[0] == c;
  }

  /** Every other byte that begins neither a comment nor a literal stays. */
  lemma ByteStays(c: text, b: seq<text>)
    requires c !in [' ', '\t', '\r', '\n', '"'] && (c == '/' ==> b == [] || b[0] !in ['/', '*'])
    ensures Minified([c] + b) == Cat<text>([c], Minified(b))
  {
    FromHere([c], b);
    AtShift([c], b, 0);
    var s := [c] + b;
    assert s[0] == c;
    hide LineEnd, BlockStop, Cat;
  }

  lemma {:induction false} LineEndsAt(s: seq<text>, i: nat, e: nat)
    requires i <= e <= |s| && (forall k | i <= k < e :: s[k] != '\n') && (e < |s| ==> s[e] == '\n')
    ensures LineEnd(s, i) == e
    decreases e - i
  {
    if i < e {
      LineEndsAt(s, i + 1, e);
    }
  }

  /** A comment up to the end of its line vanishes, and so does that end. */
  lemma LineCommentVanishes(body: seq<text>, b: seq<text>)
    requires forall k | 0 <= k < |body| :: body[k] != '\n'
    ensures Minified(['/', '/'] + body + ['\n'] + b) == Minified(b)
    ensures Minified(['/', '/'] + body) == Some([])
  {
    var open := ['/', '/'] + body;
    var s := open + (['\n'] + b);
    assert ['/', '/'] + body + ['\n'] + b == s;
    assert s[0] == '/' && At(s, 1) == '/' && open[0] == '/' && At(open, 1) == '/';
    LineEndsAt(s, 1, |open|);
    LineEndsAt(open, 1, |open|);
    assert Minify(open, |open|) == Some([]);
    FromHere(open, ['\n'] + b);
    BlankVanishes('\n', b);
    hide Cat, BlockStop, LineEnd;
  }

  lemma {:induction false} BlockEndsAt(s: seq<text>, i: nat, e: nat)
    requires i <= e && e + 1 < |s| && s[e] == '*' && s[e + 1] == '/'
    requires forall k | i <= k < e :: !(s[k] == '*' && s[k + 1] == '/')
    ensures BlockStop(s, i) == e
    decreases e - i
  {
    if i < e {
      BlockEndsAt(s, i + 1, e);
    }
  }

  /** A block comment vanishes. It ends with the first star and slash at or after its own star. */
  lemma BlockCommentVanishes(body: seq<text>, b: seq<text>)
    requires var inner := ['*'] + body + ['*']; forall k | 0 <= k < |inner| - 1 :: !(inner[k] == '*' && inner[k + 1] == '/')
    ensures Minified(['/', '*'] + body + ['*', '/'] + b) == Minified(b)
  {
    var open := ['/', '*'] + body + ['*', '/'];
    var s, inner := open + b, ['*'] + body + ['*'];
    assert s[0] == '/' && At(s, 1) == '*' && s[|body| + 2] == '*' && s[|body| + 3] == '/';
    assert forall k | 0 <= k < |inner| :: s[k + 1] == inner[k];
    forall k | 1 <= k < |body| + 2 ensures !(s[k] == '*' && s[k + 1] == '/') {
      assert s[k] == s[k - 1 + 1] == inner[k - 1] && s[k + 1] == inner[k];
    }
    BlockEndsAt(s, 1, |body| + 2);
    FromHere(open, b);
    hide Cat, BlockStop, LineEnd;
  }

  lemma {:induction false} BlockNeverEnds(s: seq<text>, i: nat)
    requires i <= |s| && forall k | i <= k < |s| - 1 :: !(s[k] == '*' && s[k + 1] == '/')
    ensures BlockStop(s, i) == |s|
    decreases |s| - i
  {
    if i < |s| {
      BlockNeverEnds(s, i + 1);
    }
  }

  /** One that does not end takes the original past the terminator. */
  lemma OpenCommentFails(body: seq<text>)
    requires var inner := ['*'] + body; forall k | 0 <= k < |inner| - 1 :: !(inner[k] == '*' && inner[k + 1] == '/')
    ensures Minified(['/', '*'] + body) == None
  {
    var s, inner := ['/', '*'] + body, ['*'] + body;
    assert s[0] == '/' && At(s, 1) == '*';
    assert forall k | 0 <= k < |inner| :: s[k + 1] == inner[k];
    forall k | 1 <= k < |s| - 1 ensures !(s[k] == '*' && s[k + 1] == '/') {
      assert s[k] == s[k - 1 + 1] == inner[k - 1] && s[k + 1] == inner[k];
    }
    BlockNeverEnds(s, 1);
    assert Minify(s, |s| + 2) == None;
    hide Cat, BlockStop, LineEnd;
  }

  // ---- Inside literals ---------------------------------------------------------------

  /** A quote opens a literal and closes it again. */
  lemma QuoteSwitches(b: seq<text>)
    ensures Minified(['"'] + b) == Cat<text>(['"'], MinifiedInside(b))
    ensures MinifiedInside(['"'] + b) == Cat<text>(['"'], Minified(b))
  {
    FromHere(['"'], b);
    var s := ['"'] + b;
    assert s[0] == '"';
    hide Cat, BlockStop, LineEnd;
  }

  /** Inside, every byte stays; a backslash protects the byte after it. */
  lemma InsideStays(c: text, b: seq<text>)
    ensures c != '"' && c != '\\' ==> MinifiedInside([c] + b) == Cat<text>([c], MinifiedInside(b))
    ensures MinifiedInside(['\\', c] + b) == Cat<text>(['\\', c], MinifiedInside(b))
    ensures MinifiedInside([]) == None && MinifiedInside(['\\']) == None
  {
    FromHere([c], b);
    FromHere(['\\', c], b);
    var s, t := [c] + b, ['\\', c] + b;
    assert s[0] == c && t[0] == '\\' && t[1] == c;
    hide Cat, BlockStop, LineEnd;
  }
}
