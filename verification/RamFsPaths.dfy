/** What paths mean: resolve_path follows the components of a path, and the path that getcwd
    prints leads back to the directory it was printed for (kernel/src/fs/ramfs.c:72-122 and 330-371).
  */
module RamFsPaths {
  import opened Common
  import opened CStrings
  import opened RamFsSpec

  // ---- What a path means: its components, followed one by one ----

  function Components(s: string): (cs: seq<string>)
    ensures forall n :: n in cs ==> n != "" && '/' !in n
    decreases |s|
  {
    match NextToken(s, "/")
    case None => []
    case Some(c) => [c.token] + Components(c.rest)
  }

  // The entry that component n names in directory dir.
  function Enter(files: Files, dir: int, n: string): int {
    if n == "." then dir else if n == ".." then Up(files, dir) else Find(files, dir, n, 0)
  }

  // Where a sequence of components leads: every component but the last must be a directory.
  function Follow(files: Files, dir: int, cs: seq<string>): int
    decreases |cs|
  {
    if cs == [] then dir
    else if !IsDir(files, dir) then -1
    else Follow(files, Enter(files, dir, cs[0]), cs[1..])
  }

  predicate TwoSlashes(s: string) { |s| >= 2 && s[|s| - 1] == '/' && s[|s| - 2] == '/' }

  lemma EnterIsUsed(files: Files, used: nat, dir: int, n: string)
    requires Inv(files, used) && IsDir(files, dir)
    ensures Enter(files, dir, n) == -1 || IsUsed(files, Enter(files, dir, n))
    ensures n == "." || n == ".." ==> IsDir(files, Enter(files, dir, n))
  {
    ParentIsDir(files, used, dir);
  }

  // How the tail of a string of slashes survives the first token.
  lemma {:induction false} RestSlashes(s: string, c: Cut)
    requires NextToken(s, "/") == Some(c)
    ensures c.rest != "" ==> (TwoSlashes(s) <==> TwoSlashes(c.rest) || c.rest == "/")
    ensures c.rest == "" ==> !TwoSlashes(s)
  {
    hide NextToken, Skip, Span;
    CutIs(s, "/");
    var m := c.start + |c.token|;
    var last := c.token[|c.token| - 1];
    assert last in c.token && last != '/' && s[m - 1] == last;
    if m < |s| {
      assert s[m] == '/';
      if |c.rest| == 1 {
        assert s[m + 1] == c.rest[0];
        assert c.rest == [c.rest[0]];
      }
      if |c.rest| >= 2 {
        assert s[|s| - 1] == c.rest[|c.rest| - 1] && s[|s| - 2] == c.rest[|c.rest| - 2];
      }
    }
  }

  // resolve_path follows the components of the path, with one exception: a path that ends in two
  // slashes must lead to a directory.
  lemma {:induction false} WalkFollows(files: Files, used: nat, curr: int, s: string)
    requires Inv(files, used) && IsDir(files, curr)
    ensures
      var i := Follow(files, curr, Components(s));
      Walk(files, curr, s).inode == if TwoSlashes(s) && !IsDir(files, i) then -1 else i
    decreases |s|
  {
    match NextToken(s, "/")
    case None =>
    case Some(c) =>
      var next := Enter(files, curr, c.token);
      assert Components(s)[1..] == Components(c.rest);
      assert Follow(files, curr, Components(s)) == Follow(files, next, Components(c.rest));
      EnterIsUsed(files, used, curr, c.token);
      RestSlashes(s, c);
      if IsDir(files, next) {
        WalkFollows(files, used, next, c.rest);
      }
      NoComponents(c.rest);
  }

  // A string without components is a run of slashes.
  lemma NoComponents(s: string)
    ensures Components(s) == [] ==> s == "" || s == "/" || TwoSlashes(s)
    ensures s == "/" || s == "" ==> Components(s) == []
  {
    if Components(s) == [] {
      assert Skip(s, "/") == |s|;
      assert forall j :: 0 <= j < |s| ==> s[j] in "/";
      if |s| == 1 { assert s == [s[0]]; }
    }
    if s == "/" { assert s[1..] == ""; }
  }

  lemma {:induction false} FollowSnoc(files: Files, dir: int, cs: seq<string>, n: string)
    ensures
      var d := Follow(files, dir, cs);
      Follow(files, dir, cs + [n]) == if IsDir(files, d) then Enter(files, d, n) else -1
    decreases |cs|
  {
    if cs == [] {
      assert Follow(files, Enter(files, dir, n), []) == Enter(files, dir, n);
      assert (cs + [n])[1..] == [];
    } else {
      assert (cs + [n])[1..] == cs[1..] + [n];
      FollowSnoc(files, Enter(files, dir, cs[0]), cs[1..], n);
      if IsDir(files, dir) {
        assert Follow(files, dir, cs) == Follow(files, Enter(files, dir, cs[0]), cs[1..]);
      } else {
        assert !IsDir(files, -1);
      }
    }
  }

  // ---- The names of an inode lead to it ----

  lemma {:induction false} NamesLead(files: Files, used: nat, i: int)
    requires Inv(files, used) && IsUsed(files, i)
    ensures Follow(files, 0, Names(files, i)) == i
    ensures forall n :: n in Names(files, i) ==> ValidName(n)
    ensures i > 0 ==> |Names(files, i)| > 0
    decreases i
  {
    ParentIsDir(files, used, i);
    if i > 0 {
      var p := files[i].parent;
      NamesLead(files, used, p);
      FollowSnoc(files, 0, Names(files, p), files[i].name);
      FindIs(files, used, p, files[i].name, i);
    }
  }

  // The ancestor m names below the root.
  lemma {:induction false} AncestorAt(files: Files, used: nat, i: int, m: nat) returns (j: int)
    requires Inv(files, used) && IsUsed(files, i) && m <= |Names(files, i)|
    ensures IsUsed(files, j) && Names(files, j) == Names(files, i)[..m]
    ensures if m == |Names(files, i)| then j == i else j < i && IsDir(files, j)
    decreases i
  {
    ParentIsDir(files, used, i);
    var names := Names(files, i);
    if m == |names| {
      j := i;
      assert names[..m] == names;
    } else {
      var p := files[i].parent;
      var up := Names(files, p);
      assert names == up + [files[i].name];
      j := AncestorAt(files, used, p, m);
      assert names[..m] == up[..m];
    }
  }

  // ---- Components of joined names ----

  lemma {:induction false} JoinCons(c: string, cs: seq<string>)
    ensures Join([c] + cs) == "/" + c + Join(cs)
    decreases |cs|
  {
    if cs == [] {
      assert [c] + cs == [c] && [c][..0] == [];
    } else {
      var k := |cs| - 1;
      assert ([c] + cs)[..|[c] + cs| - 1] == [c] + cs[..k];
      JoinCons(c, cs[..k]);
    }
  }

  lemma {:induction false} SlashSkip(s: string)
    ensures Skip("/" + s, "/") == 1 + Skip(s, "/")
  {
    assert ("/" + s)[1..] == s;
  }

  lemma {:induction false} SlashToken(s: string)
    ensures NextToken(s, "/").None? ==> NextToken("/" + s, "/").None?
    ensures NextToken(s, "/").Some? ==>
              var c := NextToken(s, "/").value;
              NextToken("/" + s, "/") == Some(c.(start := 1 + c.start))
  {
    hide Skip, Span, NextToken;
    SlashSkip(s);
    var t, k := "/" + s, Skip(s, "/");
    if k < |s| {
      var m := k + Span(s[k..], "/");
      assert t[1..] == s;
      assert t[1 + k..] == t[1..][k..] && t[1 + k..1 + m] == t[1..][k..m];
      assert m < |s| ==> t[1 + m + 1..] == t[1..][m + 1..];
      FirstCut(s, "/", k, m);
      FirstCut(t, "/", 1 + k, 1 + m);
    }
  }

  lemma {:induction false} SlashFirst(s: string)
    ensures Components("/" + s) == Components(s)
  {
    hide NextToken;
    SlashToken(s);
  }

  // The first component of "/c", "/c/" and "/c/rest".
  lemma FirstComponent(c: string, rest: string)
    requires c != "" && '/' !in c && (rest != "" ==> rest[0] == '/')
    ensures Components("/" + c + rest) == [c] + Components(rest)
  {
    hide Skip, Span, NextToken;
    var t := c + rest;
    assert "/" + c + rest == "/" + t;
    SlashFirst(t);
    FirstToken(c, rest);
    if rest != "" {
      assert rest == "/" + rest[1..];
      SlashFirst(rest[1..]);
    }
  }

  lemma {:induction false} FirstToken(c: string, rest: string)
    requires c != "" && '/' !in c && (rest != "" ==> rest[0] == '/')
    ensures NextToken(c + rest, "/") == Some(Cut(0, c, if rest == "" then "" else rest[1..]))
  {
    hide Skip, Span;
    var t := c + rest;
    assert t[0] == c[0];
    SkipIs(t, "/", 0);
    assert t[0..] == t;
    assert forall j :: 0 <= j < |c| ==> t[j] == c[j];
    SpanIs(t, "/", |c|);
    assert t[..|c|] == c;
    if rest != "" {
      assert t[|c| + 1..] == rest[1..];
    }
  }

  // A prefix of a joined path has the components of the path up to some point, and perhaps a
  // proper prefix of the next one.
  lemma {:induction false} PrefixComponents(cs: seq<string>, q: nat) returns (m: nat, p: string)
    requires forall n :: n in cs ==> n != "" && '/' !in n
    requires q <= |Join(cs)|
    ensures m <= |cs| && Components(Join(cs)[..q]) == cs[..m] + (if p == "" then [] else [p])
    ensures p != "" ==> m < |cs| && |p| < |cs[m]|
    ensures m == |cs| <==> q == |Join(cs)|
    decreases |cs|
  {
    hide Components, Join;
    if cs == [] {
      JoinStarts(cs);
      NoComponents("");
      m, p := 0, "";
    } else {
      var c, rest := cs[0], cs[1..];
      assert cs == [c] + rest;
      JoinCons(c, rest);
      assert c in cs && forall n :: n in rest ==> n in cs;
      if q <= |c| {
        m, p := 0, if q == 0 then "" else c[..q - 1];
        PartOfFirst(c, Join(rest), q);
      } else {
        var r := q - 1 - |c|;
        var k;
        k, p := PrefixComponents(rest, r);
        m := k + 1;
        JoinStarts(rest);
        assert Join(cs)[..q] == "/" + c + Join(rest)[..r];
        FirstComponent(c, Join(rest)[..r]);
        assert cs[..m] == [c] + rest[..k];
        assert p != "" ==> cs[m] == rest[k];
      }
    }
  }

  lemma JoinStarts(cs: seq<string>)
    ensures cs == [] <==> Join(cs) == ""
    ensures cs != [] ==> Join(cs)[0] == '/'
  {
    if cs != [] {
      JoinCons(cs[0], cs[1..]);
      assert cs == [cs[0]] + cs[1..];
    }
  }

  lemma PartOfFirst(c: string, rest: string, q: nat)
    requires c != "" && '/' !in c && q <= |c|
    ensures Components(("/" + c + rest)[..q]) == if q <= 1 then [] else [c[..q - 1]]
  {
    var t := ("/" + c + rest)[..q];
    if q <= 1 {
      NoComponents(t);
      if q == 1 { assert t == "/"; }
    } else {
      assert t == "/" + c[..q - 1] + "";
      FirstComponent(c[..q - 1], "");
      assert Components("") == [];
    }
  }

  // ---- The path of an inode resolves to the inode exactly when it fits the buffer ----

  lemma {:induction false} CwdPathResolvesIff(files: Files, used: nat, cwd: int, i: int)
    requires Inv(files, used) && IsUsed(files, i)
    ensures Resolve(files, cwd, PathOf(files, i)).inode == i <==> |PathOf(files, i)| <= PATH_SIZE
  {
    hide NextToken, Components, Follow, Names, Join, Find;
    RootWalk(files);
    if i == 0 {
      assert "/"[1..] == "";
    } else {
      var names, path := Names(files, i), PathOf(files, i);
      NamesLead(files, used, i);
      JoinStarts(names);
      var q := if |path| <= PATH_SIZE then |path| else PATH_SIZE;
      var t := Fit(path[1..]);
      assert path[..q] == "/" + t;
      SlashFirst(t);
      var m, p := PrefixComponents(names, q);
      WalkFollows(files, used, 0, t);
      if q == |path| {
        assert Components(t) == names[..m] + [] == names by { assert p == ""; }
        LastNotSlash(names);
        assert !TwoSlashes(t) by { if |t| >= 1 { assert t[|t| - 1] == path[|path| - 1]; } }
      } else {
        CutPathMisses(files, used, i, m, p);
      }
    }
  }

  lemma RootWalk(files: Files)
    ensures Walk(files, 0, "").inode == 0
  {
  }

  lemma LastNotSlash(cs: seq<string>)
    requires cs != [] && forall n :: n in cs ==> n != "" && '/' !in n
    ensures |Join(cs)| > 0 && Join(cs)[|Join(cs)| - 1] != '/'
  {
    var last := cs[|cs| - 1];
    assert last in cs;
    assert Join(cs)[|Join(cs)| - 1] == last[|last| - 1];
  }

  // A path cut short never leads to the inode it was the path of.
  lemma CutPathMisses(files: Files, used: nat, i: int, m: nat, p: string)
    requires Inv(files, used) && IsUsed(files, i) && m < |Names(files, i)|
    requires p != "" ==> |p| < |Names(files, i)[m]|
    ensures Follow(files, 0, Names(files, i)[..m] + (if p == "" then [] else [p])) != i
  {
    var names := Names(files, i);
    var j := AncestorAt(files, used, i, m);
    NamesLead(files, used, j);
    if p == "" {
      assert names[..m] + [] == names[..m];
    } else {
      FollowSnoc(files, 0, names[..m], p);
      ParentIsDir(files, used, j);
      ParentIsDir(files, used, i);
      assert names == Names(files, files[i].parent) + [files[i].name];
      assert files[i].parent == j ==> |names| == m + 1 && names[m] == files[i].name;
    }
  }

  // ---- Where a path starts and where it leads ----

  // The components of s lead from `start` to i, with the exception for two slashes at the end.
  predicate LeadsTo(files: Files, start: int, s: string, i: int) {
    var to := Follow(files, start, Components(s));
    i == if TwoSlashes(s) && !IsDir(files, to) then -1 else to
  }

  // resolve_path follows the components of the first 127 characters: an absolute path behind its slash
  // from the root, any other from the working directory.
  lemma ResolveFollows(files: Files, used: nat, cwd: int, path: string)
    requires Inv(files, used) && IsDir(files, cwd)
    ensures path != "" && path[0] == '/' ==> LeadsTo(files, 0, Fit(path[1..]), Resolve(files, cwd, path).inode)
    ensures path == "" || path[0] != '/' ==> LeadsTo(files, cwd, Fit(path), Resolve(files, cwd, path).inode)
  {
    hide Follow, Walk, Components;
    if path != "" && path[0] == '/' {
      WalkFollows(files, used, 0, Fit(path[1..]));
    } else {
      WalkFollows(files, used, cwd, Fit(path));
    }
  }

  // What one component does: "." stays, ".." goes to the parent and stays in the root, and any other name
  // leads to the one entry of that name, or nowhere.
  lemma EnterMeans(files: Files, used: nat, dir: int, n: string)
    requires Inv(files, used) && IsDir(files, dir)
    ensures n == "." ==> Enter(files, dir, n) == dir
    ensures n == ".." ==> Enter(files, dir, n) == if dir == 0 then 0 else files[dir].parent
    ensures n != "." && n != ".." ==>
              && (forall i :: SameEntry(files, i, dir, n) ==> Enter(files, dir, n) == i)
              && ((forall i :: !SameEntry(files, i, dir, n)) ==> Enter(files, dir, n) == -1)
  {
    ParentIsDir(files, used, dir);
    if n != "." && n != ".." {
      forall i | SameEntry(files, i, dir, n) ensures Enter(files, dir, n) == i {
        FindIs(files, used, dir, n, i);
      }
    }
  }

  // The first component of "c", "c/" and "c/rest".
  lemma FirstName(c: string, rest: string)
    requires c != "" && '/' !in c && (rest != "" ==> rest[0] == '/')
    ensures Components(c + rest) == [c] + Components(rest)
  {
    hide Components;
    FirstComponent(c, rest);
    assert "/" + c + rest == "/" + (c + rest);
    SlashFirst(c + rest);
  }

  lemma {:induction false} FollowOne(files: Files, dir: int, n: string)
    requires IsDir(files, dir)
    ensures Follow(files, dir, [n]) == Enter(files, dir, n)
  {
    assert [n][1..] == [];
  }

  // "." is the working directory, ".." its parent, and the root its own parent.
  lemma DotsResolve(files: Files, used: nat, cwd: int)
    requires Inv(files, used) && IsDir(files, cwd)
    ensures Resolve(files, cwd, ".").inode == cwd
    ensures Resolve(files, cwd, "..").inode == if cwd == 0 then 0 else files[cwd].parent
  {
    hide Components, Follow, Resolve, Enter;
    NameResolves(files, used, cwd, ".");
    NameResolves(files, used, cwd, "..");
    EnterMeans(files, used, cwd, ".");
    EnterMeans(files, used, cwd, "..");
  }

  // A single name is looked up in the working directory.
  lemma NameResolves(files: Files, used: nat, cwd: int, n: string)
    requires Inv(files, used) && IsDir(files, cwd) && n != "" && '/' !in n && |n| < PATH_SIZE
    ensures Resolve(files, cwd, n).inode == Enter(files, cwd, n)
  {
    hide Components, Follow, Resolve, Enter;
    assert n[0] in n && n[|n| - 1] in n;
    ResolveFollows(files, used, cwd, n);
    FirstName(n, "");
    assert n + "" == n;
    NoComponents("");
    assert [n] + [] == [n];
    FollowOne(files, cwd, n);
  }

  // A path behind "c/" is resolved as the path alone would be in the directory that c names.
  lemma ResolveSteps(files: Files, used: nat, cwd: int, c: string, path: string)
    requires Inv(files, used) && IsDir(files, cwd) && c != "" && '/' !in c && IsDir(files, Enter(files, cwd, c))
    requires path != "" && path[0] != '/' && |c| + 1 + |path| < PATH_SIZE
    ensures Resolve(files, cwd, c + "/" + path).inode == Resolve(files, Enter(files, cwd, c), path).inode
  {
    hide Components, Resolve, Enter;
    var s := c + "/" + path;
    assert c[0] in c && s[0] == c[0];
    ResolveFollows(files, used, cwd, s);
    ResolveFollows(files, used, Enter(files, cwd, c), path);
    assert s == c + ("/" + path);
    FirstName(c, "/" + path);
    SlashFirst(path);
    assert ([c] + Components(path))[1..] == Components(path);
    assert TwoSlashes(s) <==> TwoSlashes(path) by {
      assert s[|s| - 1] == path[|path| - 1];
      assert |path| >= 2 ==> s[|s| - 2] == path[|path| - 2];
    }
  }
}
