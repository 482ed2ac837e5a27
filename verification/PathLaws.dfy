/** What resolving a path means, one name at a time: the laws on texts that fix the reference of
    `PathResolve`. */
module PathLaws {
  import opened Wrappers
  import opened PathResolve

  /** A text between two separators. */
  predicate Unseparated(name: seq<text>) { forall k | 0 <= k < |name| :: name[k] != '/' && name[k] != '\\' }

  lemma SplitUnseparated(name: seq<text>)
    requires Unseparated(name)
    ensures Split(name) == [name]
  {
    SplitAt(name, |name|);
  }

  /** Slash and backslash separate alike. */
  lemma {:induction false} SplitBySep(a: seq<text>, sep: text, b: seq<text>)
    requires sep == '/' || sep == '\\'
    ensures Split(a + [sep] + b) == Split(a) + Split(b)
  {
    hide FirstSep, Split;
    var s, n := a + [sep] + b, FirstSep(a);
    assert forall k | 0 <= k < n :: s[k] == a[k];
    SplitAt(s, n);
    SplitAt(a, n);
    if n == |a| {
      assert s[..n] == a && s[n + 1..] == b;
    } else {
      SplitBySep(a[n + 1..], sep, b);
      assert s[..n] == a[..n] && s[n + 1..] == a[n + 1..] + [sep] + b;
    }
  }

  /** The first name, seen from a directory. An empty name and "." stay, ".." goes up and stays at the
      root, and has no meaning at the top of a relative directory; every other name goes down. */
  lemma ResolveName(d: Dir, name: seq<text>)
    requires Unseparated(name)
    ensures name == [] || name == "." ==> Resolve(d, name) == Some(d)
    ensures name == ".." && d.names != [] ==> Resolve(d, name) == Some(Dir(d.rooted, d.names[..|d.names| - 1]))
    ensures name == ".." && d.names == [] ==> Resolve(d, name) == if d.rooted then Some(d) else None
    ensures name !in ["", ".", ".."] ==> Resolve(d, name) == Some(Dir(d.rooted, d.names + [name]))
  {
    SplitUnseparated(name);
    EnterOne(d, name);
    hide Enter, EnterAll, Split;
    EnterCases(d, name);
  }

  /** One more name is resolved from what the path before it names. */
  lemma ResolveLonger(d: Dir, path: seq<text>, sep: text, name: seq<text>)
    requires path != [] && Unseparated(name) && (sep == '/' || sep == '\\')
    ensures Resolve(d, path + [sep] + name) ==
            match Resolve(d, path)
            case None => None
            case Some(e) => Resolve(e, name)
  {
    SplitBySep(path, sep, name);
    SplitUnseparated(name);
    var from := if IsSep(path[0]) then ROOT else d;
    EnterAllInTurn(from, Split(path), [name]);
    assert (path + [sep] + name)[0] == path[0];
    if Resolve(d, path).Some? {
      EnterOne(Resolve(d, path).value, name);
      if name == [] {
        EnterCases(Resolve(d, path).value, name);
      }
    }
    hide Enter, EnterAll, Split;
  }

  /** A leading separator starts from the root. */
  lemma ResolveFromRoot(d: Dir, sep: text, path: seq<text>)
    requires sep == '/' || sep == '\\'
    requires path == [] || !IsSep(path[0])
    ensures Resolve(d, [sep] + path) == Resolve(Dir(true, []), path)
  {
    assert [sep] + path == [] + [sep] + path;
    SplitBySep([], sep, path);
    SplitUnseparated([]);
    EnterAllInTurn(ROOT, [[]], Split(path));
    EnterOne(ROOT, []);
    if path == [] {
      EnterOne(ROOT, []);
    }
    hide Split;
  }

  /** Going down and up again leads back. */
  lemma DownAndUp(d: Dir, path: seq<text>, name: seq<text>)
    requires path != [] && Unseparated(name) && name !in ["", ".", ".."]
    ensures Resolve(d, path + ['/'] + name + ['/'] + "..") == Resolve(d, path)
  {
    ResolveLonger(d, path, '/', name);
    ResolveLonger(d, path + ['/'] + name, '/', "..");
    if Resolve(d, path).Some? {
      var e := Resolve(d, path).value;
      ResolveName(e, name);
      ResolveName(Dir(e.rooted, e.names + [name]), "..");
      assert (e.names + [name])[..|e.names|] == e.names;
    }
    hide Resolve;
  }

  lemma SlashedMore(names: seq<seq<text>>, name: seq<text>)
    ensures Slashed(names + [name]) == Slashed(names) + name + ['/']
    ensures names != [] ==> Slashed(names) != [] && Slashed(names)[|Slashed(names)| - 1] == '/'
  {
    assert (names + [name])[..|names|] == names;
  }

  /** The text of a directory without names, and with one. */
  lemma RenderedFirst(rooted: bool, name: seq<text>)
    ensures Render(Dir(true, [])) == "/" && Render(Dir(false, [])) == ""
    ensures Render(Dir(rooted, [name])) == (if rooted then ['/'] else []) + name
  {
    SlashedMore([], name);
    assert [] + [name] == [name];
  }

  /** Every further name follows a slash. */
  lemma RenderedMore(rooted: bool, names: seq<seq<text>>, name: seq<text>)
    requires names != []
    ensures Render(Dir(rooted, names + [name])) == Render(Dir(rooted, names)) + ['/'] + name
  {
    SlashedMore(names, name);
    hide Slashed;
    var s := Open(Dir(rooted, names));
    assert s == s[..|s| - 1] + ['/'];
    var t := Open(Dir(rooted, names + [name]));
    assert t == s + name + ['/'];
    assert t[..|t| - 1] == s + name;
  }
}
