/** The path normaliser of utils.c: stack-based resolution as the reference, and the in-place
    algorithm that edits one buffer. */
module PathResolve {
  import opened Wrappers

  // ---- Reference ---------------------------------------------------------------------

  predicate IsSep(c: text) { c == '/' || c == '\\' }

  /** The index of the first separator, or the length. */
  function FirstSep(s: seq<text>): (n: nat)
    ensures n <= |s| && (n < |s| ==> IsSep(s[n])) && forall k | 0 <= k < n :: !IsSep(s[k])
  {
    if s == [] || IsSep(s[0]) then 0 else 1 + FirstSep(s[1..])
  }

  /** The names between separators, empty ones included. */
  function Split(s: seq<text>): (names: seq<seq<text>>)
    ensures |names| > 0
  {
    var n := FirstSep(s);
    if n == |s| then [s] else [s[..n]] + Split(s[n + 1..])
  }

  /** A directory: from the root or from nowhere, and the names below it. */
  datatype Dir = Dir(rooted: bool, names: seq<seq<text>>)

  const HERE := Dir(false, [])
  const ROOT := Dir(true, [])

  /** One name. Leaving a relative directory at its top has no meaning. */
  function Enter(d: Dir, name: seq<text>): Option<Dir> {
    if name == [] || name == "." then Some(d)
    else if name != ".." then Some(d.(names := d.names + [name]))
    else if d.names != [] then Some(d.(names := d.names[..|d.names| - 1]))
    else if d.rooted then Some(d)
    else None
  }

  function EnterAll(d: Dir, names: seq<seq<text>>): Option<Dir>
    decreases |names|
  {
    if names == [] then Some(d) else
      match Enter(d, names[0])
      case None => None
      case Some(e) => EnterAll(e, names[1..])
  }

  /** The directory `path` names, seen from `d`. */
  function Resolve(d: Dir, path: seq<text>): Option<Dir> {
    if path == [] then Some(d)
    else EnterAll(if IsSep(path[0]) then ROOT else d, Split(path))
  }

  function ResolveBoth(base: seq<text>, filename: seq<text>): Option<Dir> {
    match Resolve(HERE, base)
    case None => None
    case Some(d) => Resolve(d, filename)
  }

  /** Every name followed by a slash. */
  function Slashed(names: seq<seq<text>>): seq<text> {
    if names == [] then [] else Slashed(names[..|names| - 1]) + names[|names| - 1] + ['/']
  }

  function Lead(rooted: bool): seq<text> { if rooted then ['/'] else [] }

  /** The text with its last slash, as the buffer holds it while names are entered. */
  function Open(d: Dir): seq<text> { Lead(d.rooted) + Slashed(d.names) }

  /** The text as the buffer is left: no slash at the end but for the root. */
  function Render(d: Dir): seq<text> {
    var s := Open(d);
    if d.names == [] then s else s[..|s| - 1]
  }

  // ---- Normal form -------------------------------------------------------------------

  predicate IsName(n: seq<text>) {
    n != [] && n != "." && n != ".." && forall k | 0 <= k < |n| :: !IsSep(n[k]) && n[k] != '\0'
  }

  predicate Normal(d: Dir) { forall n | n in d.names :: IsName(n) }

  predicate Plain(n: seq<text>) { forall k | 0 <= k < |n| :: !IsSep(n[k]) && n[k] != '\0' }

  lemma FirstSepIs(s: seq<text>, n: nat)
    requires n <= |s| && (forall k | 0 <= k < n :: !IsSep(s[k])) && (n < |s| ==> IsSep(s[n]))
    ensures FirstSep(s) == n
  {
    hide FirstSep;
  }

  lemma SplitUnfolds(s: seq<text>)
    ensures var n := FirstSep(s); Split(s) == if n == |s| then [s] else [s[..n]] + Split(s[n + 1..])
  {
    hide FirstSep;
  }

  lemma SplitAt(s: seq<text>, n: nat)
    requires n <= |s| && (forall k | 0 <= k < n :: !IsSep(s[k])) && (n < |s| ==> IsSep(s[n]))
    ensures Split(s) == if n == |s| then [s] else [s[..n]] + Split(s[n + 1..])
  {
    hide *;
    FirstSepIs(s, n);
    SplitUnfolds(s);
  }

  lemma {:induction false} SplitPlain(s: seq<text>)
    requires CString(s)
    ensures forall n | n in Split(s) :: Plain(n)
  {
    var n := FirstSep(s);
    if n < |s| {
      SplitPlain(s[n + 1..]);
    }
  }

  lemma EnterNormal(d: Dir, name: seq<text>)
    requires Normal(d) && Plain(name)
    ensures Enter(d, name).Some? ==> Normal(Enter(d, name).value)
  {
  }

  lemma EnterOne(d: Dir, name: seq<text>)
    ensures EnterAll(d, [name]) == Enter(d, name)
  {
    hide Enter;
    if Enter(d, name).Some? {
      assert EnterAll(Enter(d, name).value, []) == Enter(d, name);
    }
  }

  lemma {:induction false} EnterAllNormal(d: Dir, names: seq<seq<text>>)
    requires Normal(d) && forall n | n in names :: Plain(n)
    ensures EnterAll(d, names).Some? ==> Normal(EnterAll(d, names).value)
    decreases |names|
  {
    if names != [] && Enter(d, names[0]).Some? {
      assert Plain(names[0]);
      EnterNormal(d, names[0]);
      EnterAllNormal(Enter(d, names[0]).value, names[1..]);
    }
  }

  /** Resolution ends in normal form. */
  lemma ResolveNormal(d: Dir, path: seq<text>)
    requires Normal(d) && CString(path)
    ensures Resolve(d, path).Some? ==> Normal(Resolve(d, path).value)
  {
    SplitPlain(path);
    if path != [] {
      EnterAllNormal(if IsSep(path[0]) then ROOT else d, Split(path));
    }
  }

  lemma {:induction false} EnterAllRooted(d: Dir, names: seq<seq<text>>)
    requires d.rooted
    ensures EnterAll(d, names).Some? && EnterAll(d, names).value.rooted
    decreases |names|
  {
    if names != [] {
      EnterAllRooted(Enter(d, names[0]).value, names[1..]);
    }
  }

  /** Paths that start with a separator always resolve, and so does anything after them. */
  lemma AbsoluteResolves(base: seq<text>, filename: seq<text>)
    requires base != [] && IsSep(base[0])
    ensures ResolveBoth(base, filename).Some? && ResolveBoth(base, filename).value.rooted
  {
    EnterAllRooted(ROOT, Split(base));
    var d := Resolve(HERE, base).value;
    if filename != [] {
      EnterAllRooted(if IsSep(filename[0]) then ROOT else d, Split(filename));
    }
  }

  lemma {:induction false} SplitJoin(a: seq<text>, b: seq<text>)
    ensures Split(a + ['/'] + b) == Split(a) + Split(b)
  {
    hide FirstSep, Split;
    var s, n := a + ['/'] + b, FirstSep(a);
    assert forall k | 0 <= k < n :: s[k] == a[k];
    SplitAt(s, n);
    SplitAt(a, n);
    if n == |a| {
      assert s[..n] == a && s[n + 1..] == b;
    } else {
      SplitJoin(a[n + 1..], b);
      assert s[..n] == a[..n] && s[n + 1..] == a[n + 1..] + ['/'] + b;
    }
  }

  function Then(o: Option<Dir>, names: seq<seq<text>>): Option<Dir> {
    match o
    case None => None
    case Some(d) => EnterAll(d, names)
  }

  lemma {:induction false} EnterAllInTurn(d: Dir, xs: seq<seq<text>>, ys: seq<seq<text>>)
    ensures EnterAll(d, xs + ys) == Then(EnterAll(d, xs), ys)
    decreases |xs|
  {
    if xs == [] {
      assert xs + ys == ys;
    } else {
      assert (xs + ys)[1..] == xs[1..] + ys;
      if Enter(d, xs[0]).Some? {
        EnterAllInTurn(Enter(d, xs[0]).value, xs[1..], ys);
      }
    }
  }

  /** Resolving a relative name after a base is resolving the two joined by a slash; an absolute
      name forgets the base. */
  lemma JoinThenResolve(base: seq<text>, filename: seq<text>)
    requires base != [] && filename != [] && Resolve(HERE, base).Some?
    ensures ResolveBoth(base, filename) ==
            Resolve(HERE, if IsSep(filename[0]) then filename else base + ['/'] + filename)
  {
    if !IsSep(filename[0]) {
      SplitJoin(base, filename);
      EnterAllInTurn(if IsSep(base[0]) then ROOT else HERE, Split(base), Split(filename));
    }
  }

  lemma SplitName(n: seq<text>)
    requires IsName(n)
    ensures Split(n) == [n]
  {
    SplitAt(n, |n|);
  }

  lemma {:induction false} SplitSlashed(names: seq<seq<text>>)
    requires names != [] && forall n | n in names :: IsName(n)
    ensures |Slashed(names)| > 0 && Split(Slashed(names)[..|Slashed(names)| - 1]) == names
  {
    var k := |names| - 1;
    var front, x := names[..k], names[k];
    var s := Slashed(names);
    assert s[..|s| - 1] == Slashed(front) + x;
    assert names == front + [x];
    SplitName(x);
    if k == 0 {
      assert Slashed(front) + x == x;
    } else {
      SplitSlashed(front);
      var t := Slashed(front);
      assert t[|t| - 1] == '/';
      assert t + x == t[..|t| - 1] + ['/'] + x;
      SplitJoin(t[..|t| - 1], x);
    }
  }

  lemma {:induction false} EnterNames(rooted: bool, names: seq<seq<text>>)
    requires forall n | n in names :: IsName(n)
    ensures EnterAll(Dir(rooted, []), names) == Some(Dir(rooted, names))
  {
    if names != [] {
      var k := |names| - 1;
      EnterNames(rooted, names[..k]);
      assert names == names[..k] + [names[k]] && IsName(names[k]);
      EnterAllInTurn(Dir(rooted, []), names[..k], [names[k]]);
      EnterOne(Dir(rooted, names[..k]), names[k]);
    }
  }

  lemma {:induction false} SlashedStart(names: seq<seq<text>>)
    requires names != [] && forall n | n in names :: IsName(n)
    ensures |Slashed(names)| >= 2 && !IsSep(Slashed(names)[0])
  {
    var k := |names| - 1;
    assert IsName(names[k]);
    if k > 0 {
      SlashedStart(names[..k]);
    }
  }

  lemma RelativeStart(d: Dir)
    requires Normal(d) && d.names != [] && !d.rooted
    ensures Render(d) != [] && !IsSep(Render(d)[0])
  {
    SlashedStart(d.names);
    assert Open(d) == Slashed(d.names);
  }

  /** The text of a directory resolves to it, so normalising twice is normalising once. */
  lemma RenderResolves(d: Dir, from: Dir)
    requires Normal(d) && (d.rooted || from == HERE)
    ensures Resolve(from, Render(d)) == Some(d)
  {
    if d.rooted {
      RenderedRoot(d);
    } else if d.names != [] {
      RelativeStart(d);
      SplitSlashed(d.names);
      assert Render(d) == Slashed(d.names)[..|Slashed(d.names)| - 1] by { assert Open(d) == Slashed(d.names); }
      EnterNames(false, d.names);
    }
  }

  lemma LeadingSlash(t: seq<text>)
    ensures EnterAll(ROOT, Split(['/'] + t)) == EnterAll(ROOT, Split(t))
  {
    SplitAt([], 0);
    EnterOne(ROOT, []);
    hide Split, FirstSep;
    assert ['/'] + t == [] + ['/'] + t;
    SplitJoin([], t);
    EnterAllInTurn(ROOT, [[]], Split(t));
  }

  lemma RenderedRoot(d: Dir)
    requires Normal(d) && d.rooted
    ensures |Render(d)| > 0 && Render(d)[0] == '/' && EnterAll(ROOT, Split(Render(d))) == Some(d)
  {
    if d.names != [] {
      SplitSlashed(d.names);
    }
    var t := if d.names == [] then [] else Slashed(d.names)[..|Slashed(d.names)| - 1];
    assert Render(d) == ['/'] + t;
    hide Render, Slashed;
    LeadingSlash(t);
    if d.names == [] {
      SplitAt([], 0);
      EnterOne(ROOT, []);
    } else {
      EnterNames(true, d.names);
    }
  }

  // ---- In place ----------------------------------------------------------------------

  /** streq. With a length it compares a prefix of `s1`, whatever follows there. */
  method Streq(s1: seq<text>, s2: seq<text>, off: nat, s2len: int) returns (rc: bool)
    requires CString(s1) && CString(s2) && off <= |s2| && s2len >= -1
    ensures s2len == -1 ==> (rc <==> s1 == s2[off..])
    ensures s2len >= 0 ==> (rc <==> s2len <= |s1| && off + s2len <= |s2| && s2[off..off + s2len] == s1[..s2len])
  {
    var i := 0;
    if s2len == -1 {
      while true
        invariant i <= |s1| && off + i <= |s2| && s1[..i] == s2[off..off + i]
        decreases |s1| - i
      {
        if At(s1, i) == '\0' {
          return At(s2, off + i) == '\0';
        } else if At(s2, off + i) == '\0' {
          return false;
        } else if At(s1, i) != At(s2, off + i) {
          assert s2[off..][i] != s1[i];
          return false;
        }
        i := i + 1;
      }
    } else {
      while i < s2len
        invariant i <= s2len && i <= |s1| && off + i <= |s2| && s1[..i] == s2[off..off + i]
      {
        if At(s1, i) == '\0' || At(s1, i) != At(s2, off + i) {
          assert i < |s1| && off + s2len <= |s2| ==> s2[off..off + s2len][i] != s1[i];
          return false;
        }
        i := i + 1;
      }
      return true;
    }
  }

  /** The buffer holds `s` as a C string. */
  ghost predicate Holds(buf: array<text>, s: seq<text>)
    reads buf
  {
    CString(s) && |s| < buf.Length && buf[..|s|] == s && buf[|s|] == '\0'
  }

  lemma OpenPush(d: Dir, x: seq<text>)
    ensures Open(d.(names := d.names + [x])) == Open(d) + x + ['/']
  {
    assert (d.names + [x])[..|d.names|] == d.names;
  }

  lemma OpenPop(d: Dir)
    requires d.names != []
    ensures var k := |d.names| - 1; Open(d) == Open(d.(names := d.names[..k])) + d.names[k] + ['/']
  {
  }

  /** Before anything was entered the buffer is empty; otherwise it ends with a separator. */
  lemma OpenEnds(d: Dir)
    ensures Open(d) == [] || Open(d)[|Open(d)| - 1] == '/'
  {
  }

  /** The test for the root directory looks at the first two bytes. */
  lemma OpenIsRoot(d: Dir)
    requires Normal(d) && Enter(d, "..").Some?
    ensures |Open(d)| > 0 && (d == ROOT <==> IsSep(Open(d)[0]) && |Open(d)| == 1)
  {
    if d.names != [] {
      SlashedStart(d.names);
    }
  }

  /** The branch for an ordinary name. */
  method Append(buf: array<text>, p: nat, name: seq<text>, ghost d: Dir) returns (q: nat)
    requires Holds(buf, Open(d)) && p == |Open(d)| && IsName(name) && p + |name| + 1 < buf.Length
    modifies buf
    ensures var e := d.(names := d.names + [name]);
            Holds(buf, Open(e)) && q == |Open(e)| == p + |name| + 1
  {
    OpenPush(d, name);
    ghost var was := Open(d);
    hide Open;
    for k := 0 to |name|
      invariant buf[..p + k] == was + name[..k]
    {
      buf[p + k] := name[k];
    }
    assert name[..|name|] == name;
    q := p + |name|;
    buf[q] := '/';
    q := q + 1;
    buf[q] := '\0';
    assert buf[..q] == was + name + ['/'];
  }

  /** From the end of `o x` back to the slash that ends `o`, or to -1. */
  method ScanBack(buf: array<text>, ghost o: seq<text>, ghost x: seq<text>, end: nat) returns (i: int)
    requires end == |o| + |x| < buf.Length && buf[..end] == o + x && buf[end] == '\0'
    requires Plain(x) && (o == [] || o[|o| - 1] == '/')
    ensures i == |o| - 1
  {
    i := end;
    while i >= 0
      invariant |o| - 1 <= i <= end
    {
      assert i < end ==> buf[i] == (o + x)[i];
      if IsSep(buf[i]) {
        break;
      }
      i := i - 1;
    }
  }

  /** Drops the last name `x` and its slash. */
  method DropName(buf: array<text>, p: nat, ghost o: seq<text>, ghost x: seq<text>) returns (q: nat)
    requires Holds(buf, o + (x + ['/'])) && p == |o| + |x| + 1
    requires Plain(x) && (o == [] || o[|o| - 1] == '/')
    modifies buf
    ensures Holds(buf, o) && q == |o|
  {
    Prefix(o, x + ['/']);
    ghost var before := buf[..p];
    buf[p - 1] := '\0';
    assert buf[..p - 1] == before[..p - 1] == o + x;
    var i := ScanBack(buf, o, x, p - 1);
    q := if i < 0 then 0 else i + 1;
    buf[q] := '\0';
    assert buf[..q] == before[..q] == o;
  }

  /** The branch for ".." below the top: back to the slash before, or to nothing. */
  method LeaveName(buf: array<text>, p: nat, ghost d: Dir) returns (q: nat)
    requires Normal(d) && d.names != [] && Holds(buf, Open(d)) && p == |Open(d)|
    modifies buf
    ensures var up := d.(names := d.names[..|d.names| - 1]);
            Holds(buf, Open(up)) && q == |Open(up)| && q <= p
  {
    ghost var up, x := d.(names := d.names[..|d.names| - 1]), d.names[|d.names| - 1];
    OpenPop(d);
    OpenEnds(up);
    assert IsName(x);
    hide Open, Holds;
    assert Open(up) + x + ['/'] == Open(up) + (x + ['/']);
    q := DropName(buf, p, Open(up), x);
  }

  lemma Prefix(a: seq<text>, b: seq<text>)
    requires CString(a + b)
    ensures CString(a)
  {
    assert forall i | 0 <= i < |a| :: a[i] == (a + b)[i];
  }

  /** The branch for "..": the last name goes, and the root stays. */
  method Leave(buf: array<text>, p: nat, ghost d: Dir) returns (q: nat)
    requires Normal(d) && Holds(buf, Open(d)) && p == |Open(d)| && (d.rooted || d.names != [])
    modifies buf
    ensures var up := if d.names == [] then d else Dir(d.rooted, d.names[..|d.names| - 1]);
            Holds(buf, Open(up)) && q == |Open(up)| && q <= p
  {
    OpenIsRoot(d);
    hide Open, Normal;
    assert buf[0] == buf[..p][0] && (p > 1 ==> buf[1] == buf[..p][1]);
    if IsSep(buf[0]) && buf[1] == '\0' {
      q := p;
    } else {
      q := LeaveName(buf, p, d);
    }
  }

  lemma EnterCases(d: Dir, name: seq<text>)
    ensures name == [] || name == "." ==> Enter(d, name) == Some(d)
    ensures name != [] && name != "." && name != ".." ==> Enter(d, name) == Some(d.(names := d.names + [name]))
    ensures name == ".." ==>
              Enter(d, name) ==
              if d.names != [] then Some(Dir(d.rooted, d.names[..|d.names| - 1])) else if d.rooted then Some(d) else None
  {
  }

  /** One name of the path: skipped, "..", or appended. */
  method EnterName(buf: array<text>, p: nat, path: seq<text>, start: nat, end: nat, ghost d: Dir) returns (q: nat)
    requires Normal(d) && Holds(buf, Open(d)) && p == |Open(d)|
    requires CString(path) && start <= end <= |path| && Plain(path[start..end])
    requires Enter(d, path[start..end]).Some? && p + (end - start) + 1 < buf.Length
    modifies buf
    ensures var e := Enter(d, path[start..end]).value;
            Normal(e) && Holds(buf, Open(e)) && q == |Open(e)|
    ensures q <= p + (end - start) + 1 && (start == end ==> q == p)
  {
    hide Open, Normal, Holds, Enter;
    EnterNormal(d, path[start..end]);
    EnterCases(d, path[start..end]);
    if end == start {
      return p;
    }
    var dot := Streq(".", path, start, end - start);
    if dot {
      return p;
    }
    var dots := Streq("..", path, start, end - start);
    assert "."[..1] == "." && ".."[..1] == "." && ".."[..2] == "..";
    if dots {
      q := Leave(buf, p, d);
    } else {
      q := Append(buf, p, path[start..end], d);
    }
  }

  /** The loop over the path. */
  method FillNames(buf: array<text>, p0: nat, path: seq<text>, start0: nat, ghost d0: Dir) returns (p: nat, ghost d: Dir)
    requires Normal(d0) && Holds(buf, Open(d0)) && p0 == |Open(d0)| && CString(path) && start0 <= |path|
    requires EnterAll(d0, Split(path[start0..])).Some? && p0 + (|path| - start0) + 1 < buf.Length
    modifies buf
    ensures EnterAll(d0, Split(path[start0..])) == Some(d) && Normal(d)
    ensures Holds(buf, Open(d)) && p == |Open(d)| && p <= p0 + (|path| - start0) + 1
  {
    var start, end := start0, start0;
    p, d := p0, d0;
    hide Open, Normal, Holds, Enter, Split;
    while true
      invariant start0 <= start <= end <= |path| && forall k | start <= k < end :: !IsSep(path[k])
      invariant Normal(d) && Holds(buf, Open(d)) && p == |Open(d)| && p <= p0 + (start - start0)
      invariant EnterAll(d, Split(path[start..])) == EnterAll(d0, Split(path[start0..]))
      decreases |path| - end
    {
      if At(path, end) == '\0' || IsSep(At(path, end)) {
        NextName(d, path, start, end);
        p := EnterName(buf, p, path, start, end, d);
        d := Enter(d, path[start..end]).value;
        if At(path, end) == '\0' {
          return;
        }
        end := end + 1;
        start := end;
      } else {
        end := end + 1;
      }
    }
  }

  /** The name the loop has just delimited is the next one of the split. */
  lemma NextName(d: Dir, path: seq<text>, start: nat, end: nat)
    requires CString(path) && start <= end <= |path| && forall k | start <= k < end :: !IsSep(path[k])
    requires At(path, end) == '\0' || IsSep(At(path, end))
    ensures var e := Enter(d, path[start..end]);
            EnterAll(d, Split(path[start..])) ==
            if end < |path| then Then(e, Split(path[end + 1..])) else e
    ensures Plain(path[start..end])
  {
    hide Enter, Split, EnterAll;
    var s, n := path[start..], end - start;
    SplitAt(s, n);
    assert s[..n] == path[start..end];
    EnterOne(d, s[..n]);
    if end < |path| {
      assert s[n + 1..] == path[end + 1..];
      EnterAllInTurn(d, [s[..n]], Split(path[end + 1..]));
    } else {
      assert s[..n] == s;
    }
  }

  lemma RenderOpen(d: Dir)
    requires Normal(d)
    ensures var s := Render(d);
            if d.names == [] then Open(d) == s && |s| <= 1 && (|s| == 1 ==> s[0] == '/')
            else Open(d) == s + ['/'] && s != [] && !IsSep(s[|s| - 1])
  {
    if d.names != [] {
      var k := |d.names| - 1;
      assert IsName(d.names[k]);
      assert Open(d) == Lead(d.rooted) + Slashed(d.names[..k]) + d.names[k] + ['/'];
    }
  }

  /** strlen over the buffer. */
  method StrLen(buf: array<text>, ghost s: seq<text>) returns (n: nat)
    requires Holds(buf, s)
    ensures n == |s|
  {
    n := 0;
    while buf[n] != '\0'
      invariant n <= |s|
      decreases |s| - n
    {
      assert buf[n] == buf[..|s| + 1][n];
      n := n + 1;
    }
  }

  /** Puts the separator between what is in the buffer and a relative path. */
  method AddSlash(buf: array<text>, p: nat, ghost d: Dir) returns (q: nat)
    requires Normal(d) && Holds(buf, Render(d)) && p == |Render(d)| && p + 1 < buf.Length
    modifies buf
    ensures Holds(buf, Open(d)) && q == |Open(d)| && p <= q <= p + 1 && (p == 0 ==> q == 0)
  {
    RenderOpen(d);
    hide Render, Open, Normal;
    q := p;
    assert p > 0 ==> buf[p - 1] == buf[..p][p - 1];
    if p > 0 && !IsSep(buf[p - 1]) {
      buf[q] := '/';
      q := q + 1;
      buf[q] := '\0';
      assert buf[..q] == Render(d) + ['/'];
    }
  }

  /** An absolute path discards what is in the buffer. */
  method StartAtRoot(buf: array<text>)
    requires buf.Length > 1
    modifies buf
    ensures Holds(buf, Open(ROOT))
  {
    assert Open(ROOT) == ['/'];
    buf[0] := '/';
    buf[1] := '\0';
  }

  /** Takes the last slash away, unless that is all there is. */
  method DropSlash(buf: array<text>, p: nat, ghost s: seq<text>, ghost d: Dir)
    requires Normal(d) && Holds(buf, s) && p == |s| && (s == Open(d) || s == Render(d))
    modifies buf
    ensures Holds(buf, Render(d))
  {
    RenderOpen(d);
    hide Render, Open, Normal;
    assert p > 0 ==> buf[p - 1] == buf[..p][p - 1];
    if p > 0 && IsSep(buf[p - 1]) {
      if p > 1 {
        ghost var r := Render(d);
        assert d.names != [] && s == r + ['/'];
        Prefix(r, ['/']);
        ghost var before := buf[..p];
        buf[p - 1] := '\0';
        assert buf[..p - 1] == before[..p - 1] == r;
      }
    }
  }

  /** Space the text of a directory needs: what a relative path starts from, and the path itself. */
  function Room(d: Dir, path: seq<text>): nat {
    |path| + if path != [] && IsSep(path[0]) then 0 else if Render(d) == [] then 0 else |Render(d)| + 1
  }

  /** fill_unix_true_path_to_buf: the buffer goes from one directory to the one `path` names. */
  method Fill(buf: array<text>, path: seq<text>, ghost d: Dir)
    requires Normal(d) && CString(path) && Holds(buf, Render(d)) && Resolve(d, path).Some?
    requires Room(d, path) + 1 < buf.Length
    modifies buf
    ensures var e := Resolve(d, path).value;
            Normal(e) && Holds(buf, Render(e)) && |Render(e)| <= Room(d, path)
  {
    hide Enter, Split, EnterAll, Open, Holds, Normal, Render;
    RenderSize(d);
    var p := StrLen(buf, Render(d));
    ghost var e, s := d, Render(d);
    if path != [] {
      if IsSep(path[0]) {
        RootStart(path);
        StartAtRoot(buf);
        p, e := FillNames(buf, 1, path, 1, ROOT);
      } else {
        p := AddSlash(buf, p, d);
        assert path[0..] == path;
        p, e := FillNames(buf, p, path, 0, d);
      }
      s := Open(e);
    }
    DropSlash(buf, p, s, e);
    RenderSize(e);
  }

  lemma RootStart(path: seq<text>)
    requires path != [] && IsSep(path[0])
    ensures EnterAll(ROOT, Split(path)) == EnterAll(ROOT, Split(path[1..]))
    ensures Normal(ROOT) && |Open(ROOT)| == 1 && EnterAll(ROOT, Split(path[1..])).Some?
  {
    SplitAt(path, 0);
    EnterOne(ROOT, []);
    EnterAllInTurn(ROOT, [[]], Split(path[1..]));
    EnterAllRooted(ROOT, Split(path[1..]));
  }

  lemma RenderSize(d: Dir)
    requires Normal(d)
    ensures |Render(d)| == if d.names == [] then |Lead(d.rooted)| else |Open(d)| - 1
  {
  }

  /** combin_net_disk_path, with a buffer of exactly the size the original allocates. */
  method CombinNetDiskPath(base: Option<seq<text>>, filename: Option<seq<text>>) returns (result: array<text>)
    requires CString(Or(base)) && CString(Or(filename)) && ResolveBoth(Or(base), Or(filename)).Some?
    ensures fresh(result) && result.Length == |Or(base)| + |Or(filename)| + 3
    ensures var d := ResolveBoth(Or(base), Or(filename)).value; Normal(d) && Holds(result, Render(d))
  {
    var basesz, filenamesz := |Or(base)|, |Or(filename)|;
    var sz := basesz + filenamesz + 2;
    result := new text[sz + 1](_ => '\0');
    assert Render(HERE) == [];
    assert result[..0] == [];
    hide Resolve, Render;
    Fill(result, Or(base), HERE);
    ghost var d := Resolve(HERE, Or(base)).value;
    Fill(result, Or(filename), d);
  }

  /** A null path counts as an empty one. */
  function Or(s: Option<seq<text>>): seq<text> { if s.None? then [] else s.value }
}
