/** Concrete paths and runs at which resolve_path does not do what a caller might expect
    (kernel/src/fs/ramfs.c:72-122 and 312-371).
  */
module RamFsWitness {
  import opened Common
  import opened CStrings
  import opened RamFsSpec
  import opened RamFsPaths
  import opened RamFsRuns

  // ---- A regular file followed by slashes ----

  lemma InitFileIs()
    ensures Inv(InitFiles(), 7) && SameEntry(InitFiles(), 1, 0, "init") && InitFiles()[1].kind == File
              && IsDir(InitFiles(), 0)
  {
    InitIsOk();
  }

  // "/init/" leads to the file, "/init//" nowhere.
  lemma SlashesAfterFile(cwd: int)
    ensures Resolve(InitFiles(), cwd, "/init/").inode == 1
    ensures Resolve(InitFiles(), cwd, "/init//").inode == -1
  {
    hide *;
    NoSlash();
    Slashes();
    FileThenSlashes(cwd, "/");
    FileThenSlashes(cwd, "//");
    Spelled();
  }

  lemma Spelled()
    ensures "/init/" == "/" + (INIT + "/") && "/init//" == "/" + (INIT + "//")
  {
  }

  const INIT: string := "init"

  lemma NoSlash()
    ensures INIT != "" && '/' !in INIT && |INIT| == 4
  {
  }

  lemma Slashes()
    ensures Components("/") == [] && Components("//") == []
    ensures forall c: string :: c != "" && '/' !in c ==> !TwoSlashes(c + "/") && TwoSlashes(c + "//")
  {
    NoComponents("/");
    SlashFirst("/");
    assert "//" == "/" + "/";
    forall c: string | c != "" && '/' !in c ensures !TwoSlashes(c + "/") {
      assert (c + "/")[|c| - 1] == c[|c| - 1];
    }
  }

  lemma FileThenSlashes(cwd: int, slashes: string)
    requires Components(slashes) == [] && 0 < |slashes| <= 2 && slashes[0] == '/'
    ensures Resolve(InitFiles(), cwd, "/" + (INIT + slashes)).inode == if TwoSlashes(INIT + slashes) then -1 else 1
  {
    hide InitFiles, NextToken, Components, Find, TwoSlashes;
    var files, s := InitFiles(), INIT + slashes;
    NoSlash();
    InitFileIs();
    FindIs(files, 7, 0, "init", 1);
    FirstComponent(INIT, slashes);
    assert "/" + INIT + slashes == "/" + s;
    SlashFirst(s);
    assert Components(s) == [INIT];
    assert ("/" + s)[1..] == s && Fit(s) == s;
    WalkFollows(files, 7, 0, s);
    OneStep(files, 0, INIT);
  }

  lemma OneStep(files: Files, dir: int, n: string)
    ensures Follow(files, dir, [n]) == if IsDir(files, dir) then Enter(files, dir, n) else -1
  {
    FollowSnoc(files, dir, [], n);
    assert [] + [n] == [n];
  }

  // ---- A directory whose path is too long ----

  function Long(): (n: string)
    ensures |n| == 31 && forall i :: 0 <= i < 31 ==> n[i] == 'a'
  {
    seq(31, i => 'a')
  }

  lemma LongIsValid()
    ensures ValidName(Long()) && |Long()| == 31
  {
    assert Long()[0] == 'a';
  }

  // mkdir(Long()); chdir(Long())
  function Deeper(p: nat): seq<Call> { [CallMkdir(p, Long()), CallChdir(p, Long())] }

  // Process p is in a directory without an entry Long(), and there are inodes left.
  ghost predicate CanGoDeeper(s: State, p: nat) {
    && Ok(s) && p in s.cwds && s.used < MAX_FILES
    && forall i :: !SameEntry(s.files, i, s.cwds[p], Long())
  }

  lemma ResolveLong(files: Files, cwd: int)
    ensures Resolve(files, cwd, Long()) == Resolved(Find(files, cwd, Long(), 0), cwd, Long())
  {
    hide NextToken, Find;
    LongIsValid();
    FirstToken(Long(), "");
    assert Long() + "" == Long() && Long()[0] == 'a';
  }

  lemma {:induction false} NamesStable(files: Files, files': Files, used: nat, i: int)
    requires Appended(files, files', used) && IsUsed(files, i)
    ensures Names(files', i) == Names(files, i)
    decreases i
  {
    ParentIsDir(files, used, i);
    if i > 0 {
      NamesStable(files, files', used, files[i].parent);
    }
  }

  lemma {:induction false} GoDeeper(s: State, p: nat)
    requires CanGoDeeper(s, p)
    ensures CanRunCalls(s, Deeper(p))
    ensures var s' := RunCalls(s, Deeper(p));
            && Ok(s') && s'.used == s.used + 1 && p in s'.cwds && s'.cwds[p] == s.used
            && Names(s'.files, s'.cwds[p]) == Names(s.files, s.cwds[p]) + [Long()]
            && forall i :: !SameEntry(s'.files, i, s'.cwds[p], Long())
  {
    hide Resolve, Find, FirstUnused;
    LongIsValid();
    var cwd := s.cwds[p];
    var c1, c2 := CallMkdir(p, Long()), CallChdir(p, Long());
    ResolveLong(s.files, cwd);
    assert Find(s.files, cwd, Long(), 0) == -1;
    assert Allowed(s, c1);
    CreateKeepsInv(s.files, s.used, cwd, Long(), Dir);
    FirstUnusedIs(s.files, s.used);
    StepKeepsOk(s, c1);
    var s1 := StepCall(s, c1);
    var files' := Create(s.files, Resolved(-1, cwd, Long()), Dir).0;
    assert s1.files == files' && files'[s.used] == Inode(Long(), true, Dir, cwd, s.used);
    CountUsedIs(files', s.used + 1);
    ResolveLong(s1.files, cwd);
    FindIs(s1.files, s1.used, cwd, Long(), s.used);
    StepKeepsOk(s1, c2);
    var s2 := StepCall(s1, c2);
    assert Deeper(p)[1..] == [c2] && [c2][1..] == [];
    assert CanRunCalls(s2, []) && RunCalls(s2, []) == s2;
    assert CanRunCalls(s1, [c2]) && RunCalls(s1, [c2]) == s2;
    NamesStable(s.files, files', s.used, cwd);
    forall i ensures !SameEntry(s2.files, i, s.used, Long()) {
      if 0 < i < s1.used { ParentIsDir(s1.files, s1.used, i); }
      ParentIsDir(s1.files, s1.used, 0);
    }
  }

  // k levels deep.
  function Levels(k: nat): seq<Call> {
    if k == 0 then [] else Deeper(1) + Levels(k - 1)
  }

  lemma {:induction false} Concat(s: State, a: seq<Call>, b: seq<Call>)
    requires CanRunCalls(s, a) && CanRunCalls(RunCalls(s, a), b)
    ensures CanRunCalls(s, a + b) && RunCalls(s, a + b) == RunCalls(RunCalls(s, a), b)
    decreases |a|
  {
    if a == [] {
      assert a + b == b;
    } else {
      assert (a + b)[1..] == a[1..] + b && (a + b)[0] == a[0];
      Concat(StepCall(s, a[0]), a[1..], b);
    }
  }

  lemma {:induction false} GoLevels(s: State, k: nat)
    requires CanGoDeeper(s, 1) && s.used + k <= MAX_FILES
    ensures CanRunCalls(s, Levels(k))
    ensures var s' := RunCalls(s, Levels(k));
            Ok(s') && 1 in s'.cwds && |Names(s'.files, s'.cwds[1])| == |Names(s.files, s.cwds[1])| + k
            && s'.used == s.used + k
            && |Join(Names(s'.files, s'.cwds[1]))| == |Join(Names(s.files, s.cwds[1]))| + 32 * k
    decreases k
  {
    hide Join, Names, Ok;
    if k > 0 {
      GoDeeper(s, 1);
      LongIsValid();
      var s1 := RunCalls(s, Deeper(1));
      JoinGrows(Names(s.files, s.cwds[1]), Long());
      if k > 1 {
        GoLevels(s1, k - 1);
      } else {
        assert Levels(0) == [];
      }
      Concat(s, Deeper(1), Levels(k - 1));
    }
  }

  lemma JoinGrows(cs: seq<string>, c: string)
    ensures |Join(cs + [c])| == |Join(cs)| + 1 + |c|
  {
    assert (cs + [c])[..|cs|] == cs;
  }

  // A new process goes five directories down.
  function DeepCalls(): seq<Call> { [CallCreate(1)] + Levels(5) }

  lemma StartDeep()
    ensures var s := State(InitFiles(), 7, map[]); CanRunCalls(s, [CallCreate(1)])
    ensures var s := RunCalls(State(InitFiles(), 7, map[]), [CallCreate(1)]);
            CanGoDeeper(s, 1) && s.used == 7 && s.cwds == map[1 := 0]
  {
    InitIsOk();
    LongIsValid();
    var s := State(InitFiles(), 7, map[]);
    var s1 := StepCall(s, CallCreate(1));
    assert [CallCreate(1)][1..] == [];
    assert RunCalls(s, [CallCreate(1)]) == s1;
    forall i ensures !SameEntry(s1.files, i, 0, Long()) {
      if IsUsed(s1.files, i) { InitNamesAreShort(i); }
    }
  }

  lemma InitNamesAreShort(i: int)
    requires IsUsed(InitFiles(), i)
    ensures |InitFiles()[i].name| < 31
  {
  }

  // getcwd prints a path of 160 characters there, and the path does not lead back.
  lemma LongPathDoesNotResolve()
    ensures CanRunCalls(State(InitFiles(), 7, map[]), DeepCalls())
    ensures var s := RunCalls(State(InitFiles(), 7, map[]), DeepCalls());
            1 in s.cwds && |PathOf(s.files, s.cwds[1])| == 160
            && Resolve(s.files, s.cwds[1], PathOf(s.files, s.cwds[1])).inode != s.cwds[1]
  {
    hide Resolve, InitFiles, Names, Join;
    var s0 := State(InitFiles(), 7, map[]);
    StartDeep();
    var s1 := RunCalls(s0, [CallCreate(1)]);
    GoLevels(s1, 5);
    Concat(s0, [CallCreate(1)], Levels(5));
    var s := RunCalls(s0, DeepCalls());
    RootNames(s1.files);
    assert s.cwds[1] != 0 by { RootNames(s.files); }
    PrintedDirectoryResolves(DeepCalls(), 1, 1);
  }

  lemma RootNames(files: Files)
    ensures Names(files, 0) == [] && Join([]) == ""
  {
  }
}
