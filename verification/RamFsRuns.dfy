/** Whole runs of the file system: from ramfs_init, any calls of any processes keep the inode
    table a tree of directories, so every working directory prints to a path that leads back to it
    (kernel/src/fs/ramfs.c:124-227, 312-371).
  */
module RamFsRuns {
  import opened Common
  import opened CStrings
  import opened RamFsSpec
  import opened RamFsPaths

  // ---- What resolve_path gives to its callers ----

  lemma {:induction false} WalkGives(files: Files, used: nat, curr: int, s: string)
    requires Inv(files, used) && IsDir(files, curr)
    ensures
      var r := Walk(files, curr, s);
      && (r.inode == -1 || IsUsed(files, r.inode))
      && (r.inode == -1 && r.parent != -1 ==>
            && IsDir(files, r.parent)
            && r.name != "" && r.name != "." && r.name != ".." && '/' !in r.name
            && Find(files, r.parent, r.name, 0) == -1)
    decreases |s|
  {
    match NextToken(s, "/")
    case None =>
    case Some(c) =>
      EnterIsUsed(files, used, curr, c.token);
      var next := Enter(files, curr, c.token);
      if IsDir(files, next) {
        WalkGives(files, used, next, c.rest);
      }
  }

  lemma {:induction false} WalkNameHasNoNul(files: Files, curr: int, s: string)
    requires NUL !in s
    ensures NUL !in Walk(files, curr, s).name
    decreases |s|
  {
    match NextToken(s, "/")
    case None =>
    case Some(c) =>
      TokenHasNoNul(s, c);
      var next := Enter(files, curr, c.token);
      WalkNameHasNoNul(files, next, c.rest);
  }

  lemma TokenHasNoNul(s: string, c: Cut)
    requires NUL !in s && NextToken(s, "/") == Some(c)
    ensures NUL !in c.token && NUL !in c.rest
  {
    hide NextToken;
    CutIs(s, "/");
  }

  lemma ResolveGives(files: Files, used: nat, cwd: int, path: string)
    requires Inv(files, used) && IsDir(files, cwd)
    ensures
      var r := Resolve(files, cwd, path);
      && (r.inode == -1 || IsUsed(files, r.inode))
      && (r.inode == -1 && r.parent != -1 ==>
            && IsDir(files, r.parent)
            && r.name != "" && r.name != "." && r.name != ".." && '/' !in r.name
            && Find(files, r.parent, r.name, 0) == -1)
      && (NUL !in path ==> NUL !in r.name)
  {
    var s := if path != "" && path[0] == '/' then path[1..] else path;
    WalkGives(files, used, 0, Fit(s));
    WalkGives(files, used, cwd, Fit(s));
    if NUL !in path {
      WalkNameHasNoNul(files, 0, Fit(s));
      WalkNameHasNoNul(files, cwd, Fit(s));
    }
  }

  // ---- Creating ----

  // The name that would be created fits the caller's 32-character buffer.
  predicate NameFits(files: Files, cwd: int, path: string) {
    NUL !in path && |Resolve(files, cwd, path).name| < NAME_SIZE
  }

  lemma FirstUnusedIs(files: Files, used: nat)
    requires Inv(files, used)
    ensures FirstUnused(files, 0) == if used == MAX_FILES then -1 else used
  {
    var r := FirstUnused(files, 0);
    assert used < MAX_FILES ==> !IsUsed(files, used);
    assert r != -1 ==> !IsUsed(files, r);
  }

  // One new inode at the end of those in use keeps the invariant.
  lemma AppendKeepsInv(files: Files, used: nat, name: string, kind: Kind, parent: int)
    requires Inv(files, used) && used < MAX_FILES
    requires ValidName(name) && kind != Unset && IsDir(files, parent)
    requires Find(files, parent, name, 0) == -1
    ensures Inv(files[used := Inode(name, true, kind, parent, used)], used + 1)
  {
    var files' := files[used := Inode(name, true, kind, parent, used)];
    assert IsUsed(files, parent);
    forall i | 1 <= i < used + 1 ensures Linked(files', i) {
      if i < used { assert Linked(files, i); }
    }
    forall i | 0 <= i < MAX_FILES ensures IsUsed(files', i) <==> i < used + 1 {
      assert IsUsed(files, i) <==> i < used;
    }
    forall i, j, d, n | SameEntry(files', i, d, n) && SameEntry(files', j, d, n) ensures i == j {
      assert i != used ==> SameEntry(files, i, d, n);
      assert j != used ==> SameEntry(files, j, d, n);
    }
  }

  lemma CreateKeepsInv(files: Files, used: nat, cwd: int, path: string, kind: Kind)
    requires Inv(files, used) && IsDir(files, cwd) && kind != Unset
    requires NameFits(files, cwd, path) && Resolve(files, cwd, path).inode == -1
    ensures
      var r := Resolve(files, cwd, path);
      var (files', i) := Create(files, r, kind);
      if i == -1 then files' == files && (r.parent == -1 || used == MAX_FILES)
      else
        && i == used < MAX_FILES && files' == files[used := Inode(r.name, true, kind, r.parent, used)]
        && Inv(files', used + 1)
  {
    hide Resolve;
    var r := Resolve(files, cwd, path);
    ResolveGives(files, used, cwd, path);
    FirstUnusedIs(files, used);
    if r.parent != -1 && used < MAX_FILES {
      AppendKeepsInv(files, used, r.name, kind, r.parent);
    }
  }

  // ---- What creating an entry does to other paths, and to its own ----

  // The table has grown by one inode whose name was not yet taken in its directory.
  ghost predicate Appended(files: Files, files': Files, used: nat) {
    && Inv(files, used) && used < MAX_FILES && Inv(files', used + 1)
    && files' == files[used := files'[used]]
  }

  lemma EnterStable(files: Files, files': Files, used: nat, dir: int, n: string)
    requires Appended(files, files', used) && IsDir(files, dir)
    ensures IsDir(files', dir)
    ensures Enter(files, dir, n) != -1 ==> Enter(files', dir, n) == Enter(files, dir, n)
  {
    var i := Find(files, dir, n, 0);
    if i != -1 {
      assert SameEntry(files, i, dir, n) && i < used && SameEntry(files', i, dir, n);
      FindIs(files', used + 1, dir, n, i);
    }
    assert dir < used;
  }

  // Whatever resolved before resolves to the same inode.
  lemma {:induction false} WalkStable(files: Files, files': Files, used: nat, curr: int, s: string)
    requires Appended(files, files', used) && IsDir(files, curr)
    ensures Walk(files, curr, s).inode != -1 ==> Walk(files', curr, s).inode == Walk(files, curr, s).inode
    decreases |s|
  {
    match NextToken(s, "/")
    case None =>
    case Some(c) =>
      var next := Enter(files, curr, c.token);
      EnterStable(files, files', used, curr, c.token);
      EnterIsUsed(files, used, curr, c.token);
      if IsDir(files, next) {
        assert IsDir(files', next);
        WalkStable(files, files', used, next, c.rest);
      }
  }

  lemma ResolveStable(files: Files, files': Files, used: nat, cwd: int, path: string)
    requires Appended(files, files', used) && IsDir(files, cwd)
    ensures Resolve(files, cwd, path).inode != -1 ==>
              Resolve(files', cwd, path).inode == Resolve(files, cwd, path).inode
  {
    var s := if path != "" && path[0] == '/' then path[1..] else path;
    WalkStable(files, files', used, 0, Fit(s));
    WalkStable(files, files', used, cwd, Fit(s));
  }

  // The path that asked for the new entry now leads to it.
  lemma {:induction false} WalkReaches(files: Files, files': Files, used: nat, curr: int, s: string)
    requires Appended(files, files', used) && IsDir(files, curr)
    requires Walk(files, curr, s).inode == -1 && Walk(files, curr, s).parent != -1
    requires SameEntry(files', used, Walk(files, curr, s).parent, Walk(files, curr, s).name)
    ensures Walk(files', curr, s) == Walk(files, curr, s).(inode := used)
    decreases |s|
  {
    match NextToken(s, "/")
    case None =>
    case Some(c) =>
      var next := Enter(files, curr, c.token);
      EnterStable(files, files', used, curr, c.token);
      EnterIsUsed(files, used, curr, c.token);
      if IsDir(files, next) && (c.token == "." || c.token == ".." || c.rest != "") {
        assert IsDir(files', next);
        WalkReaches(files, files', used, next, c.rest);
      } else {
        FindIs(files', used + 1, curr, c.token, used);
      }
  }

  // mkdir, and open with O_CREAT: on success the path names the new inode, which was not in use,
  // and no other path that led somewhere leads elsewhere.
  lemma CreatedPathResolves(files: Files, used: nat, cwd: int, path: string, kind: Kind, cwd2: int, path2: string)
    requires Inv(files, used) && IsDir(files, cwd) && IsDir(files, cwd2) && kind != Unset
    requires NameFits(files, cwd, path) && Resolve(files, cwd, path).inode == -1
    ensures
      var (files', i) := Create(files, Resolve(files, cwd, path), kind);
      i != -1 ==>
        && !IsUsed(files, i) && files'[i].kind == kind
        && Resolve(files', cwd, path).inode == i
        && (Resolve(files, cwd2, path2).inode != -1 ==>
              Resolve(files', cwd2, path2).inode == Resolve(files, cwd2, path2).inode)
  {
    CreateKeepsInv(files, used, cwd, path, kind);
    var r := Resolve(files, cwd, path);
    var (files', i) := Create(files, r, kind);
    if i != -1 {
      ResolveStable(files, files', used, cwd2, path2);
      var s := if path != "" && path[0] == '/' then path[1..] else path;
      WalkReaches(files, files', used, if path != "" && path[0] == '/' then 0 else cwd, Fit(s));
    }
  }

  // What mkdir has made is a directory that its path leads to, what open has created is a regular file.
  lemma {:induction false} MadeAsAsked(files: Files, used: nat, cwd: int, path: string, flags: int)
    requires Inv(files, used) && IsDir(files, cwd) && NameFits(files, cwd, path)
    requires Resolve(files, cwd, path).inode == -1
    ensures var (files', r) := Mkdir(files, cwd, path);
            r == 0 ==> IsDir(files', Resolve(files', cwd, path).inode) && Chdir(files', cwd, path) != cwd
    ensures var (files', i) := OpenInode(files, cwd, path, flags);
            i != -1 ==>
              files'[i].kind == File && Resolve(files', cwd, path).inode == i && Chdir(files', cwd, path) == cwd
    ensures !WantsCreate(flags) ==> OpenInode(files, cwd, path, flags) == (files, -1)
  {
    hide Resolve, Inv, NameFits, FirstUnused;
    CreateKeepsInv(files, used, cwd, path, Dir);
    CreatedPathResolves(files, used, cwd, path, Dir, cwd, path);
    CreatedPathResolves(files, used, cwd, path, File, cwd, path);
    FirstUnusedIs(files, used);
  }

  // O_CREAT is the bit of weight 64: those above, in two's complement, and those below do not matter.
  lemma CreateBit(above: int, on: bool, below: nat)
    requires below < 64
    ensures WantsCreate(128 * above + (if on then 64 else 0) + below) <==> on
  {
    var flags := 128 * above + (if on then 64 else 0) + below;
    assert flags / 64 == 2 * above + if on then 1 else 0;
  }

  // ---- Runs ----

  // The inode table and the working directory of each process.
  datatype State = State(files: Files, used: nat, cwds: map<nat, int>)

  datatype Call =
    | CallMkdir(pid: nat, path: string)
    | CallOpen(pid: nat, path: string, flags: int)
    | CallChdir(pid: nat, path: string)
    | CallFork(pid: nat, child: nat)   // the child starts in its parent's directory
    | CallCreate(child: nat)           // a new process starts in the root

  predicate Allowed(s: State, c: Call) {
    match c
    case CallMkdir(p, path) => p in s.cwds && NameFits(s.files, s.cwds[p], path)
    case CallOpen(p, path, flags) => p in s.cwds && NameFits(s.files, s.cwds[p], path)
    case CallChdir(p, path) => p in s.cwds
    case CallFork(p, child) => p in s.cwds && child !in s.cwds
    case CallCreate(child) => child !in s.cwds
  }

  function CountUsed(files: Files): nat {
    var i := FirstUnused(files, 0);
    if i == -1 then |files| else i
  }

  function StepCall(s: State, c: Call): State
    requires Allowed(s, c)
  {
    match c
    case CallMkdir(p, path) =>
      var files := Mkdir(s.files, s.cwds[p], path).0;
      State(files, CountUsed(files), s.cwds)
    case CallOpen(p, path, flags) =>
      var files := OpenInode(s.files, s.cwds[p], path, flags).0;
      State(files, CountUsed(files), s.cwds)
    case CallChdir(p, path) => s.(cwds := s.cwds[p := Chdir(s.files, s.cwds[p], path)])
    case CallFork(p, child) => s.(cwds := s.cwds[child := s.cwds[p]])
    case CallCreate(child) => s.(cwds := s.cwds[child := 0])
  }

  ghost predicate Ok(s: State) {
    Inv(s.files, s.used) && forall p :: p in s.cwds ==> IsDir(s.files, s.cwds[p])
  }

  lemma CountUsedIs(files: Files, used: nat)
    requires Inv(files, used)
    ensures CountUsed(files) == used
  {
    FirstUnusedIs(files, used);
  }

  lemma {:induction false} StepKeepsOk(s: State, c: Call)
    requires Ok(s) && Allowed(s, c)
    ensures Ok(StepCall(s, c))
  {
    hide Resolve, Create, NameFits, CountUsed;
    CountUsedIs(s.files, s.used);
    match c
    case CallMkdir(p, path) => MakingKeepsOk(s, p, path, Dir);
    case CallOpen(p, path, flags) => MakingKeepsOk(s, p, path, File);
    case CallChdir(p, path) =>
    case CallFork(p, child) =>
    case CallCreate(child) =>
  }

  lemma {:induction false} MakingKeepsOk(s: State, p: nat, path: string, kind: Kind)
    requires Ok(s) && p in s.cwds && NameFits(s.files, s.cwds[p], path) && kind != Unset
    ensures
      var r := Resolve(s.files, s.cwds[p], path);
      var files := Create(s.files, r, kind).0;
      r.inode == -1 ==> Ok(State(files, CountUsed(files), s.cwds))
  {
    hide Resolve, NameFits;
    var r := Resolve(s.files, s.cwds[p], path);
    if r.inode == -1 {
      CreateKeepsInv(s.files, s.used, s.cwds[p], path, kind);
      var (files, i) := Create(s.files, r, kind);
      CountUsedIs(files, if i == -1 then s.used else s.used + 1);
      forall q | q in s.cwds ensures IsDir(files, s.cwds[q]) {
        assert IsDir(s.files, s.cwds[q]);
      }
    }
  }

  // ramfs_init: the root, /init, /usr, /usr/bin, /usr/lib and two files in /usr.
  function Blanks(n: nat): Files { seq(n, i => BLANK) }

  function Put(files: Files, i: nat, name: string, kind: Kind, parent: int): Files
    requires i < |files|
  {
    files[i := Inode(name, true, kind, parent, i)]
  }

  function InitDirs(): Files {
    var a := [ROOT] + Blanks(MAX_FILES - 1);
    var b := Put(a, 1, "init", File, 0);
    var c := Put(b, 2, "usr", Dir, 0);
    Put(c, 3, "bin", Dir, 2)
  }

  function InitFiles(): Files {
    var e := Put(InitDirs(), 4, "lib", Dir, 2);
    var f := Put(e, 5, "shell.c", File, 2);
    Put(f, 6, "usrmain.c", File, 2)
  }

  lemma PutKeepsInv(files: Files, i: nat, name: string, kind: Kind, parent: int)
    requires Inv(files, i) && i < MAX_FILES && ValidName(name) && kind != Unset && IsDir(files, parent)
    requires forall j :: 0 <= j < i ==> !(files[j].parent == parent && files[j].name == name)
    ensures Inv(Put(files, i, name, kind, parent), i + 1)
  {
    var r := Find(files, parent, name, 0);
    assert r != -1 ==> IsUsed(files, r) && r < i;
    AppendKeepsInv(files, i, name, kind, parent);
  }

  lemma InitDirsOk()
    ensures Inv(InitDirs(), 4) && IsDir(InitDirs(), 2) && |InitDirs()| == MAX_FILES
    ensures InitDirs()[0].parent == -1 && InitDirs()[1].parent == 0 && InitDirs()[2].parent == 0
    ensures InitDirs()[3].parent == 2 && InitDirs()[3].name == "bin"
  {
    hide Inv;
    var a := [ROOT] + Blanks(MAX_FILES - 1);
    RootOnly();
    var b := Put(a, 1, "init", File, 0);
    PutKeepsInv(a, 1, "init", File, 0);
    var c := Put(b, 2, "usr", Dir, 0);
    PutKeepsInv(b, 2, "usr", Dir, 0);
    PutKeepsInv(c, 3, "bin", Dir, 2);
  }

  lemma InitIsOk()
    ensures Inv(InitFiles(), 7)
  {
    hide Inv, InitDirs;
    InitDirsOk();
    var d := InitDirs();
    var e := Put(d, 4, "lib", Dir, 2);
    assert "lib"[0] == 'l' && "bin"[0] == 'b';
    PutKeepsInv(d, 4, "lib", Dir, 2);
    var f := Put(e, 5, "shell.c", File, 2);
    assert |"shell.c"| == 7 && |"lib"| == 3 && |"bin"| == 3 && |"usrmain.c"| == 9;
    PutKeepsInv(e, 5, "shell.c", File, 2);
    PutKeepsInv(f, 6, "usrmain.c", File, 2);
  }

  lemma RootOnly()
    ensures Inv([ROOT] + Blanks(MAX_FILES - 1), 1)
  {
    var a := [ROOT] + Blanks(MAX_FILES - 1);
    forall i | 0 <= i < MAX_FILES ensures IsUsed(a, i) <==> i < 1 {
      if i > 0 { assert a[i] == BLANK; }
    }
  }

  ghost predicate CanRunCalls(s: State, cs: seq<Call>)
    decreases |cs|
  {
    cs == [] || (Allowed(s, cs[0]) && CanRunCalls(StepCall(s, cs[0]), cs[1..]))
  }

  ghost function RunCalls(s: State, cs: seq<Call>): State
    requires CanRunCalls(s, cs)
    decreases |cs|
  {
    if cs == [] then s else RunCalls(StepCall(s, cs[0]), cs[1..])
  }

  lemma {:induction false} RunKeepsOk(s: State, cs: seq<Call>)
    requires Ok(s) && CanRunCalls(s, cs)
    ensures Ok(RunCalls(s, cs))
    decreases |cs|
  {
    if cs != [] {
      StepKeepsOk(s, cs[0]);
      RunKeepsOk(StepCall(s, cs[0]), cs[1..]);
    }
  }

  // In every reachable state: what getcwd prints for process p leads, from the working directory
  // of any process q, back to p's working directory, exactly when it has at most 128 characters.
  lemma PrintedDirectoryResolves(cs: seq<Call>, p: nat, q: nat)
    requires CanRunCalls(State(InitFiles(), 7, map[]), cs)
    requires p in RunCalls(State(InitFiles(), 7, map[]), cs).cwds
    requires q in RunCalls(State(InitFiles(), 7, map[]), cs).cwds
    ensures
      var s := RunCalls(State(InitFiles(), 7, map[]), cs);
      var path := PathOf(s.files, s.cwds[p]);
      Resolve(s.files, s.cwds[q], path).inode == s.cwds[p] <==> |path| <= PATH_SIZE
  {
    hide Resolve, PathOf;
    InitIsOk();
    RunKeepsOk(State(InitFiles(), 7, map[]), cs);
    var s := RunCalls(State(InitFiles(), 7, map[]), cs);
    CwdPathResolvesIff(s.files, s.used, s.cwds[q], s.cwds[p]);
  }
}
