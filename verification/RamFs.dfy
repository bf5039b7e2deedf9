/** The file system as the kernel runs it: the static inode and handle tables, the current process,
    and the calls that change them in place (kernel/src/fs/ramfs.c).
  */
module RamFs {
  import opened Common
  import opened Bytes
  import opened CStrings
  import opened RamFsSpec
  import opened RamFsPaths
  import opened RamFsRuns
  import opened Dirent

  const MAX_FD: nat := 16
  const MAX_HANDLES: nat := 128

  datatype Handle = Handle(node: Option<nat>, offset: nat, refs: nat)

  const NO_HANDLE := Handle(None, 0, 0)

  // A descriptor's handle, directory and position.
  datatype OpenDirectory = OpenDirectory(handle: nat, inode: nat, offset: nat)

  // The parts of a process control block that the file system uses.
  class Process {
    var cwd: int
    const fds: array<Option<nat>>

    constructor ()
      ensures cwd == 0 && fresh(fds) && fds.Length == MAX_FD && forall i :: 0 <= i < MAX_FD ==> fds[i] == None
    {
      cwd := 0;
      fds := new Option<nat>[MAX_FD](i => None);
    }
  }

  // The first free handle, and the first free descriptor from position i on.
  function FreeHandle(handles: seq<Handle>, i: nat): (r: int)
    requires i <= |handles|
    ensures r == -1 || (i <= r < |handles| && handles[r].refs == 0)
    ensures forall j :: i <= j < (if r == -1 then |handles| else r) ==> handles[j].refs != 0
    decreases |handles| - i
  {
    if i == |handles| then -1 else if handles[i].refs == 0 then i else FreeHandle(handles, i + 1)
  }

  function FreeSlot(fds: seq<Option<nat>>, i: nat): (r: int)
    requires i <= |fds|
    ensures r == -1 || (i <= r < |fds| && fds[r] == None)
    ensures forall j :: i <= j < (if r == -1 then |fds| else r) ==> fds[j] != None
    decreases |fds| - i
  {
    if i == |fds| then -1 else if fds[i] == None then i else FreeSlot(fds, i + 1)
  }

  function ResolveArg(files: Files, cwd: int, path: Option<string>): Resolved {
    if path.None? then Resolved(-1, -1, "") else Resolve(files, cwd, path.value)
  }

  // memcpy of a string into a buffer.
  method CopyString(buf: array<char>, pos: nat, s: string)
    requires pos + |s| <= buf.Length
    modifies buf
    ensures buf[..] == old(buf[..pos]) + s + old(buf[pos + |s|..])
  {
    for i := 0 to |s|
      invariant forall j :: 0 <= j < i ==> buf[pos + j] == s[j]
      invariant forall j :: 0 <= j < buf.Length && !(pos <= j < pos + i) ==> buf[j] == old(buf[j])
    {
      buf[pos + i] := s[i];
    }
  }

  // Every open descriptor leads to a handle in use, of an inode in use, and no two descriptors
  // share one.
  predicate GoodHandle(files: Files, handles: seq<Handle>, h: nat) {
    h < |handles| && handles[h].refs > 0 && handles[h].node.Some? && IsUsed(files, handles[h].node.value)
  }

  ghost predicate GoodFds(files: Files, handles: seq<Handle>, fds: seq<Option<nat>>) {
    && (forall i :: 0 <= i < |fds| && fds[i].Some? ==> GoodHandle(files, handles, fds[i].value))
    && (forall i, j :: 0 <= i < j < |fds| && fds[i].Some? && fds[j].Some? ==> fds[i].value != fds[j].value)
  }

  lemma GoodFdsGrow(files: Files, files': Files, used: nat, handles: seq<Handle>, fds: seq<Option<nat>>, node: Inode)
    requires GoodFds(files, handles, fds) && used < |files| && files' == files[used := node] && node.used
    ensures GoodFds(files', handles, fds)
  {
    forall i | 0 <= i < |fds| && fds[i].Some? ensures GoodHandle(files', handles, fds[i].value) {
      assert GoodHandle(files, handles, fds[i].value);
    }
  }

  lemma GoodFdsOpen(files: Files, handles: seq<Handle>, fds: seq<Option<nat>>, h: nat, fd: nat, inode: nat)
    requires GoodFds(files, handles, fds) && h < |handles| && handles[h].refs == 0 && fd < |fds| && IsUsed(files, inode)
    ensures GoodFds(files, handles[h := Handle(Some(inode), 0, 1)], fds[fd := Some(h)])
  {
    forall i | 0 <= i < |fds| && fds[i].Some? ensures fds[i].value != h && GoodHandle(files, handles, fds[i].value) {
      assert GoodHandle(files, handles, fds[i].value);
    }
  }

  lemma GoodFdsUnused(files: Files, handles: seq<Handle>, fds: seq<Option<nat>>, h: nat, x: Handle)
    requires GoodFds(files, handles, fds) && h < |handles| && handles[h].refs == 0
    ensures GoodFds(files, handles[h := x], fds)
  {
    forall i | 0 <= i < |fds| && fds[i].Some? ensures GoodHandle(files, handles[h := x], fds[i].value) {
      assert GoodHandle(files, handles, fds[i].value);
    }
  }

  lemma GoodFdsClose(files: Files, handles: seq<Handle>, fds: seq<Option<nat>>, fd: nat, x: Handle)
    requires GoodFds(files, handles, fds) && fd < |fds| && fds[fd].Some?
    ensures fds[fd].value < |handles| && GoodFds(files, handles[fds[fd].value := x], fds[fd := None])
  {
    assert GoodHandle(files, handles, fds[fd].value);
    var handles', fds' := handles[fds[fd].value := x], fds[fd := None];
    forall i | 0 <= i < |fds| && fds'[i].Some? ensures GoodHandle(files, handles', fds'[i].value) {
      assert GoodHandle(files, handles, fds[i].value);
    }
  }

  lemma GoodFdsMove(files: Files, handles: seq<Handle>, fds: seq<Option<nat>>, h: nat, offset: nat)
    requires GoodFds(files, handles, fds) && h < |handles|
    ensures GoodFds(files, handles[h := handles[h].(offset := offset)], fds)
  {
    forall i | 0 <= i < |fds| && fds[i].Some? ensures GoodHandle(files, handles[h := handles[h].(offset := offset)],
                                                                 fds[i].value) {
      assert GoodHandle(files, handles, fds[i].value);
    }
  }

  // No handle is behind a descriptor of both tables.
  ghost predicate FdsApart(a: seq<Option<nat>>, b: seq<Option<nat>>) {
    forall i, j :: 0 <= i < |a| && 0 <= j < |b| && a[i].Some? && b[j].Some? ==> a[i].value != b[j].value
  }

  // What the file system sees of a process.
  datatype ProcView = ProcView(cwd: int, fds: seq<Option<nat>>)

  type ProcViews = map<Process, ProcView>

  ghost predicate ViewOk(files: Files, handles: seq<Handle>, v: ProcView) {
    IsDir(files, v.cwd) && |v.fds| == MAX_FD && GoodFds(files, handles, v.fds)
  }

  // Every process is in a directory and has good descriptors, and no two share a handle.
  ghost predicate ViewsOk(files: Files, handles: seq<Handle>, vs: ProcViews) {
    && (forall p :: p in vs ==> ViewOk(files, handles, vs[p]))
    && (forall p, q :: p in vs && q in vs && p != q ==> FdsApart(vs[p].fds, vs[q].fds))
  }

  ghost function ViewsOf(procs: set<Process>): (vs: ProcViews)
    reads procs, set p | p in procs :: p.fds
    ensures vs.Keys == procs && forall p :: p in procs ==> vs[p] == ProcView(p.cwd, p.fds[..])
  {
    map p | p in procs :: ProcView(p.cwd, p.fds[..])
  }

  // Only process c has changed since the views were taken, or is new.
  lemma OneView(procs: set<Process>, c: Process, vs: ProcViews)
    requires c in procs && vs.Keys + {c} == procs
    requires forall p :: p in procs && p != c ==> vs[p] == ProcView(p.cwd, p.fds[..])
    ensures ViewsOf(procs) == vs[c := ProcView(c.cwd, c.fds[..])]
  {
  }

  ghost predicate OwnTables(procs: set<Process>) {
    forall p, q :: p in procs && q in procs && p != q ==> p.fds != q.fds
  }

  lemma {:induction false} ViewsGrow(files: Files, files': Files, used: nat, handles: seq<Handle>, vs: ProcViews,
                                     node: Inode)
    requires Inv(files, used) && used < |files| && files' == files[used := node] && node.used
              && ViewsOk(files, handles, vs)
    requires |files| == MAX_FILES
    ensures ViewsOk(files', handles, vs)
  {
    hide Inv, GoodFds, FdsApart;
    forall p | p in vs ensures ViewOk(files', handles, vs[p]) {
      assert ViewOk(files, handles, vs[p]);
      GoodFdsGrow(files, files', used, handles, vs[p].fds, node);
      DirStays(files, used, vs[p].cwd, node);
    }
  }

  // Process c opens: a free handle is in no table.
  lemma {:induction false} ViewsOpen(files: Files, handles: seq<Handle>, vs: ProcViews, c: Process, h: nat, fd: nat,
                                     inode: nat)
    requires ViewsOk(files, handles, vs) && c in vs && h < |handles| && handles[h].refs == 0 && fd < MAX_FD
              && IsUsed(files, inode)
    ensures ViewsOk(files, handles[h := Handle(Some(inode), 0, 1)], vs[c := vs[c].(fds := vs[c].fds[fd := Some(h)])])
  {
    hide GoodFds, FdsApart, IsUsed;
    var vs', handles' := vs[c := vs[c].(fds := vs[c].fds[fd := Some(h)])], handles[h := Handle(Some(inode), 0, 1)];
    forall p | p in vs' ensures ViewOk(files, handles', vs'[p]) {
      assert ViewOk(files, handles, vs[p]);
      if p == c {
        GoodFdsOpen(files, handles, vs[c].fds, h, fd, inode);
      } else {
        GoodFdsUnused(files, handles, vs[p].fds, h, Handle(Some(inode), 0, 1));
      }
    }
    forall q | q in vs && q != c ensures FdsApart(vs'[c].fds, vs'[q].fds) && FdsApart(vs'[q].fds, vs'[c].fds) {
      assert ViewOk(files, handles, vs[q]) && ViewOk(files, handles, vs[c]);
      ApartFromNew(files, handles, vs[c].fds, vs[q].fds, h, fd);
    }
  }

  lemma ApartFromNew(files: Files, handles: seq<Handle>, a: seq<Option<nat>>, b: seq<Option<nat>>, h: nat, fd: nat)
    requires GoodFds(files, handles, b) && FdsApart(a, b) && h < |handles| && handles[h].refs == 0 && fd < |a|
    ensures FdsApart(a[fd := Some(h)], b) && FdsApart(b, a[fd := Some(h)])
  {
    forall j | 0 <= j < |b| && b[j].Some? ensures b[j].value != h {
      assert GoodHandle(files, handles, b[j].value);
    }
  }

  // A free handle changes.
  lemma {:induction false} ViewsUnused(files: Files, handles: seq<Handle>, vs: ProcViews, h: nat, x: Handle)
    requires ViewsOk(files, handles, vs) && h < |handles| && handles[h].refs == 0
    ensures ViewsOk(files, handles[h := x], vs)
  {
    hide GoodFds, FdsApart, IsDir;
    forall p | p in vs ensures ViewOk(files, handles[h := x], vs[p]) {
      assert ViewOk(files, handles, vs[p]);
      GoodFdsUnused(files, handles, vs[p].fds, h, x);
    }
  }

  // Process c closes: the handle was its own.
  lemma {:induction false} ViewsClose(files: Files, handles: seq<Handle>, vs: ProcViews, c: Process, fd: nat, x: Handle)
    requires ViewsOk(files, handles, vs) && c in vs && fd < MAX_FD && vs[c].fds[fd].Some?
    ensures vs[c].fds[fd].value < |handles|
    ensures ViewsOk(files, handles[vs[c].fds[fd].value := x], vs[c := vs[c].(fds := vs[c].fds[fd := None])])
  {
    hide GoodFds, IsDir;
    assert ViewOk(files, handles, vs[c]);
    GoodFdsClose(files, handles, vs[c].fds, fd, x);
    var vs', handles' := vs[c := vs[c].(fds := vs[c].fds[fd := None])], handles[vs[c].fds[fd].value := x];
    forall p | p in vs' && p != c ensures ViewOk(files, handles', vs'[p]) {
      assert ViewOk(files, handles, vs[p]) && FdsApart(vs[c].fds, vs[p].fds);
      GoodFdsElsewhere(files, handles, vs[p].fds, vs[c].fds, fd, x);
    }
    forall p, q | p in vs' && q in vs' && p != q ensures FdsApart(vs'[p].fds, vs'[q].fds) {
      assert FdsApart(vs[p].fds, vs[q].fds);
    }
  }

  // A handle that another table uses changes.
  lemma GoodFdsElsewhere(files: Files, handles: seq<Handle>, fds: seq<Option<nat>>, other: seq<Option<nat>>, fd: nat,
                         x: Handle)
    requires GoodFds(files, handles, fds) && FdsApart(other, fds) && fd < |other| && other[fd].Some?
              && other[fd].value < |handles|
    ensures GoodFds(files, handles[other[fd].value := x], fds)
  {
    forall i | 0 <= i < |fds| && fds[i].Some? ensures GoodHandle(files, handles[other[fd].value := x], fds[i].value) {
      assert GoodHandle(files, handles, fds[i].value);
    }
  }

  // A position moves.
  lemma {:induction false} ViewsMove(files: Files, handles: seq<Handle>, vs: ProcViews, h: nat, offset: nat)
    requires ViewsOk(files, handles, vs) && h < |handles|
    ensures ViewsOk(files, handles[h := handles[h].(offset := offset)], vs)
  {
    hide GoodFds, FdsApart, IsDir;
    forall p | p in vs ensures ViewOk(files, handles[h := handles[h].(offset := offset)], vs[p]) {
      assert ViewOk(files, handles, vs[p]);
      GoodFdsMove(files, handles, vs[p].fds, h, offset);
    }
  }

  // Process c changes its directory.
  lemma {:induction false} ViewsChdir(files: Files, handles: seq<Handle>, vs: ProcViews, c: Process, cwd: int)
    requires ViewsOk(files, handles, vs) && c in vs && IsDir(files, cwd)
    ensures ViewsOk(files, handles, vs[c := vs[c].(cwd := cwd)])
  {
    hide GoodFds, FdsApart, IsDir;
  }

  lemma {:induction false} ParentInDir(files: Files, handles: seq<Handle>, vs: ProcViews, p: Process)
    requires ViewsOk(files, handles, vs) && p in vs
    ensures IsDir(files, vs[p].cwd)
  {
    assert ViewOk(files, handles, vs[p]);
  }

  // A process without open files is created.
  lemma {:induction false} ViewsSpawn(files: Files, handles: seq<Handle>, vs: ProcViews, c: Process, v: ProcView)
    requires ViewsOk(files, handles, vs) && c !in vs && IsDir(files, v.cwd) && |v.fds| == MAX_FD
    requires forall i :: 0 <= i < MAX_FD ==> v.fds[i] == None
    ensures ViewsOk(files, handles, vs[c := v])
  {
    hide IsDir;
    forall p | p in vs ensures FdsApart(v.fds, vs[p].fds) && FdsApart(vs[p].fds, v.fds) {
    }
  }

  // open's inode, for a path that may be NULL.
  function OpenArg(files: Files, cwd: int, path: Option<string>, flags: int): (Files, int) {
    if path.None? then (files, -1) else OpenInode(files, cwd, path.value, flags)
  }

  // What open leaves in the handle and descriptor tables, and its result: handle h and descriptor
  // slot for the inode, or nothing when there is no inode or either table is full.
  function OpenTables(inode: int, handles: seq<Handle>, fds: seq<Option<nat>>): (seq<Handle>, seq<Option<nat>>, int)
    requires 3 <= |fds|
  {
    var h, slot := FreeHandle(handles, 0), FreeSlot(fds, 3);
    if inode < 0 || h == -1 then (handles, fds, -1)
    else if slot == -1 then (handles[h := NO_HANDLE], fds, -1)
    else (handles[h := Handle(Some(inode), 0, 1)], fds[slot := Some(h)], slot)
  }

  function DirBehind(files: Files, handles: seq<Handle>, fds: seq<Option<nat>>, fd: int): (d: Option<OpenDirectory>)
    ensures d.Some? ==>
              && 0 <= fd < |fds| && fds[fd] == Some(d.value.handle) && d.value.handle < |handles|
              && handles[d.value.handle].node == Some(d.value.inode) && handles[d.value.handle].offset == d.value.offset
              && IsDir(files, d.value.inode)
  {
    if 0 <= fd < |fds| && fds[fd].Some? && fds[fd].value < |handles| then
      var h := handles[fds[fd].value];
      if h.node.Some? && IsDir(files, h.node.value)
      then Some(OpenDirectory(fds[fd].value, h.node.value, h.offset))
      else None
    else None
  }

  class FileSystem {
    const files: array<Inode>
    const handles: array<Handle>
    var current: Process?
    ghost var procs: set<Process>  // all processes
    ghost var used: nat            // inodes in use

    ghost predicate Valid()
      reads this, files, handles, procs, set p | p in procs :: p.fds
    {
      && files.Length == MAX_FILES && handles.Length == MAX_HANDLES
      && Inv(files[..], used)
      && (current != null ==> current in procs)
      && OwnTables(procs) && ViewsOk(files[..], handles[..], ViewsOf(procs))
    }

    lemma CurrentOk()
      requires Valid() && current != null
      ensures IsDir(files[..], current.cwd) && current.fds.Length == MAX_FD
                && GoodFds(files[..], handles[..], current.fds[..])
      ensures current in procs && current.fds in set p | p in procs :: p.fds
    {
      hide Inv, GoodFds, FdsApart, IsDir;
      assert ViewOk(files[..], handles[..], ViewsOf(procs)[current]);
    }

    lemma TreeOk()
      requires Valid()
      ensures Inv(files[..], used) && files.Length == MAX_FILES && handles.Length == MAX_HANDLES
    {
    }

    lemma CwdIsDir()
      requires Valid()
      ensures IsDir(files[..], Cwd())
    {
      RootIsDir();
      if current != null {
        CurrentOk();
      }
    }

    // The file system's part of process creation: the new process has no open file and starts where
    // its parent is, or at the root.
    method Spawn(parent: Process?) returns (p: Process)
      requires Valid() && (parent != null ==> parent in procs)
      modifies this`procs
      ensures Valid() && fresh(p) && procs == old(procs) + {p} && p.cwd == (if parent == null then 0 else parent.cwd)
      ensures fresh(p.fds) && p.fds.Length == MAX_FD && forall i :: 0 <= i < MAX_FD ==> p.fds[i] == None
    {
      hide Inv, ViewsOk;
      ghost var vs := ViewsOf(procs);
      RootIsDir();
      p := new Process();
      if parent != null {
        ParentInDir(files[..], handles[..], vs, parent);
        p.cwd := parent.cwd;
      }
      ViewsSpawn(files[..], handles[..], vs, p, ProcView(p.cwd, p.fds[..]));
      procs := procs + {p};
      OneView(procs, p, vs);
    }

    // The scheduler makes p current_proc.
    method MakeCurrent(p: Process)
      requires Valid() && p in procs
      modifies this`current
      ensures Valid() && current == p
    {
      current := p;
    }

    function Cwd(): int
      reads this, current
    {
      if current == null then 0 else current.cwd
    }

    // ramfs_init
    constructor ()
      ensures Valid() && fresh(files) && fresh(handles) && current == null && procs == {}
      ensures files[..] == InitFiles() && used == 7
      ensures forall i :: 0 <= i < MAX_HANDLES ==> handles[i] == NO_HANDLE
    {
      files := new Inode[MAX_FILES](i => if i == 0 then ROOT else BLANK);
      handles := new Handle[MAX_HANDLES](i => NO_HANDLE);
      current := null;
      procs := {};
      used := 7;
      new;
      assert files[..] == [ROOT] + Blanks(MAX_FILES - 1);
      files[1] := Inode("init", true, File, 0, 1);
      files[2] := Inode("usr", true, Dir, 0, 2);
      files[3] := Inode("bin", true, Dir, 2, 3);
      files[4] := Inode("lib", true, Dir, 2, 4);
      files[5] := Inode("shell.c", true, File, 2, 5);
      files[6] := Inode("usrmain.c", true, File, 2, 6);
      InitIsOk();
    }

    // ---- alloc_inode, alloc_file_handle ----

    method AllocInode() returns (r: int)
      requires files.Length == MAX_FILES
      modifies files
      ensures r == FirstUnused(old(files[..]), 0)
      ensures files[..] == if r == -1 then old(files[..]) else old(files[..])[r := Inode("", true, Unset, 0, r)]
    {
      for i := 0 to files.Length
        invariant files[..] == old(files[..])
        invariant FirstUnused(files[..], 0) == FirstUnused(files[..], i)
      {
        if !files[i].used {
          files[i] := Inode("", true, Unset, 0, i);
          return i;
        }
      }
      r := -1;
    }

    method AllocHandle() returns (r: int)
      requires handles.Length == MAX_HANDLES
      modifies handles
      ensures r == FreeHandle(old(handles[..]), 0)
      ensures handles[..] == if r == -1 then old(handles[..]) else old(handles[..])[r := Handle(None, 0, 1)]
    {
      for i := 0 to handles.Length
        invariant handles[..] == old(handles[..])
        invariant FreeHandle(handles[..], 0) == FreeHandle(handles[..], i)
      {
        if handles[i].refs == 0 {
          handles[i] := Handle(None, 0, 1);
          return i;
        }
      }
      r := -1;
    }

    // ---- resolve_path ----

    method FindEntry(dir: int, name: string) returns (r: int)
      requires files.Length == MAX_FILES
      ensures r == Find(files[..], dir, name, 0)
    {
      for i := 0 to files.Length
        invariant Find(files[..], dir, name, 0) == Find(files[..], dir, name, i)
      {
        if files[i].used && files[i].parent == dir && files[i].name == name {
          return i;
        }
      }
      r := -1;
    }

    // The path copied into the 128-byte buffer on the stack.
    method CopyPath(s: string) returns (temp: array<char>)
      requires NUL !in s
      ensures fresh(temp) && Terminated(temp[..], 0) && CStr(temp[..], 0) == Fit(s)
    {
      temp := new char[PATH_SIZE];
      var len := |s|;
      if len > PATH_SIZE - 1 {
        len := PATH_SIZE - 1;
      }
      CopyString(temp, 0, s[..len]);
      temp[len] := NUL;
      assert temp[..][0..len] == s[..len];
      CStrIs(temp[..], 0, len);
    }

    method ResolvePath(path: Option<string>) returns (inode: int, parent: int, name: string)
      requires Valid() && (path.Some? ==> NUL !in path.value)
      ensures Resolved(inode, parent, name) == ResolveArg(files[..], Cwd(), path)
    {
      hide NextToken, CStr, Terminated, Tokenized, Find, Inv, ViewsOk, Fit, Walk, Up;
      CwdIsDir();
      var curr := if current != null then current.cwd else 0;
      RootIsDir();
      if path.None? {
        return -1, -1, "";
      }
      var s := path.value;
      if s != "" && s[0] == '/' {
        curr := 0;
        s := s[1..];
      }
      var temp := CopyPath(s);
      var p: nat := 0;
      ghost var all := files[..];
      ghost var goal := Walk(all, curr, Fit(s));
      StringEnd(temp[..], p);
      while true
        invariant fresh(temp) && p <= temp.Length && Terminated(temp[..], p)
        invariant IsDir(all, curr)
        invariant Walk(all, curr, CStr(temp[..], p)) == goal
        decreases |CStr(temp[..], p)|
      {
        ghost var before, rest := temp[..], CStr(temp[..], p);
        var token, save := StrtokR(temp, Some(p), "/", p);
        TokenizedStrings(before, temp[..], p, "/", token, save);
        StringEnd(temp[..], save);
        WalkUnfolds(all, curr, rest);
        p := save;
        if token.None? {
          break;
        }
        StringEnd(temp[..], token.value);
        var word := CStr(temp[..], token.value);
        if word == "." {
          continue;
        }
        if word == ".." {
          ParentIsDir(all, used, curr);
          UpIs(all, curr);
          if files[curr].parent != -1 {
            curr := files[curr].parent;
          }
          continue;
        }
        var found := FindEntry(curr, word);
        MoreOrNot(temp[..], p);
        if temp[p] != NUL {
          if found == -1 || files[found].kind != Dir {
            return -1, -1, "";
          }
          curr := found;
        } else {
          return found, curr, word;
        }
      }
      inode, parent, name := curr, files[curr].parent, "";
    }

    lemma RootIsDir()
      requires Valid()
      ensures IsDir(files[..], 0)
    {
    }

    // ---- mkdir, open, chdir, close ----

    // The new inode of mkdir and of open with O_CREAT, once resolve_path has given its place.
    method NewInode(parent: int, name: string, kind: Kind) returns (i: int)
      requires files.Length == MAX_FILES
      modifies files
      ensures i == FirstUnused(old(files[..]), 0)
      ensures files[..] == if i == -1 then old(files[..])
                           else old(files[..])[i := Inode(name, true, kind, parent, i)]
    {
      i := AllocInode();
      if i != -1 {
        files[i] := files[i].(name := name);
        files[i] := files[i].(kind := kind);
        files[i] := files[i].(parent := parent);
      }
    }

    // What mkdir and open have in common: the place that resolve_path gave gets an inode.
    method CreateNode(ghost path: string, parent: int, name: string, kind: Kind) returns (i: int)
      requires Valid() && kind != Unset && NameFits(files[..], Cwd(), path) && parent != -1
      requires Resolve(files[..], Cwd(), path) == Resolved(-1, parent, name)
      modifies this`used, files
      ensures Valid() && i == FirstUnused(old(files[..]), 0) && (i == -1 || IsUsed(files[..], i))
      ensures files[..] == if i == -1 then old(files[..])
                           else old(files[..])[i := Inode(name, true, kind, parent, i)]
    {
      hide Resolve, NameFits, Inv, FirstUnused, ViewsOk, Cwd;
      TreeOk();
      CwdIsDir();
      ghost var vs, node := ViewsOf(procs), Inode(name, true, kind, parent, used);
      if used < MAX_FILES {
        ViewsGrow(files[..], files[..][used := node], used, handles[..], vs, node);
      }
      CreateKeepsInv(files[..], used, Cwd(), path, kind);
      i := NewInode(parent, name, kind);
      assert ViewsOf(procs) == vs;
      if i != -1 {
        used := used + 1;
      }
    }

    // fits: the last component fits the caller's 32-character buffer. When it does not, the copy in
    // resolve_path runs over the buffer, and nothing is said of what follows.
    method Mkdir(path: Option<string>) returns (r: int, fits: bool)
      requires Valid() && (path.Some? ==> NUL !in path.value)
      modifies this`used, files
      ensures Valid()
      ensures fits <==> path.Some? ==> NameFits(old(files[..]), old(Cwd()), path.value)
      ensures path.None? ==> r == -1 && files[..] == old(files[..])
      ensures path.Some? && fits ==> (files[..], r) == RamFsSpec.Mkdir(old(files[..]), old(Cwd()), path.value)
    {
      hide Resolve, Inv, FirstUnused, GoodFds, ViewsOk;
      RootIsDir();
      CwdIsDir();
      var inode, parent, name := ResolvePath(path);
      fits := |name| < NAME_SIZE;
      if !fits || inode != -1 || parent == -1 {
        return -1, fits;
      }
      var i := CreateNode(path.value, parent, name, Dir);
      if i == -1 {
        return -1, true;
      }
      r := 0;
    }

    // The part of open that finds or makes the inode.
    method OpenNode(path: Option<string>, flags: int) returns (inode: int, fits: bool)
      requires Valid() && (path.Some? ==> NUL !in path.value)
      modifies this`used, files
      ensures Valid()
      ensures fits <==> path.Some? ==> NameFits(old(files[..]), old(Cwd()), path.value)
      ensures fits ==> (files[..], inode) == OpenArg(old(files[..]), old(Cwd()), path, flags)
      ensures inode == -1 || IsUsed(files[..], inode)
    {
      hide Resolve, Inv, FirstUnused, GoodFds, ViewsOk;
      RootIsDir();
      CwdIsDir();
      var parent, name;
      inode, parent, name := ResolvePath(path);
      fits := |name| < NAME_SIZE;
      if !fits {
        return -1, false;
      }
      if path.Some? {
        ResolveGives(files[..], used, Cwd(), path.value);
      }
      if inode == -1 && WantsCreate(flags) {
        if parent == -1 {
          return;
        }
        inode := CreateNode(path.value, parent, name, File);
      }
    }

    // The handle and descriptor that an inode gets.
    method OpenHandle(inode: nat) returns (fd: int)
      requires Valid() && IsUsed(files[..], inode)
      modifies handles, if current == null then {} else {current.fds}
      ensures Valid()
      ensures
        var h := FreeHandle(old(handles[..]), 0);
        var slot := if current == null then -1 else FreeSlot(old(current.fds[..]), 3);
        && fd == (if h == -1 then -1 else slot)
        && handles[..] == (if h == -1 then old(handles[..])
                           else if slot == -1 then old(handles[..])[h := NO_HANDLE]
                           else old(handles[..])[h := Handle(Some(inode), 0, 1)])
        && (current != null ==>
              current.fds[..] == if fd == -1 then old(current.fds[..]) else old(current.fds[..])[fd := Some(h)])
    {
      hide Inv, GoodFds, IsUsed, ViewsOk, FreeHandle, FreeSlot;
      if current != null {
        CurrentOk();
      }
      ghost var handles0, vs := handles[..], ViewsOf(procs);
      var h := AllocHandle();
      if h == -1 {
        assert ViewsOf(procs) == vs;
        return -1;
      }
      ViewsUnused(files[..], handles0, vs, h, NO_HANDLE);
      handles[h] := handles[h].(node := Some(inode));
      handles[h] := handles[h].(offset := 0);
      if current == null {
        FreeFileHandle(h);
        assert ViewsOf(procs) == vs && handles[..] == handles0[h := NO_HANDLE];
        return -1;
      }
      assert handles[..] == handles0[h := Handle(Some(inode), 0, 1)];
      fd := TakeSlot(h);
      if fd != -1 {
        ViewsOpen(files[..], handles0, vs, current, h, fd, inode);
        OneView(procs, current, vs);
        return;
      }
      FreeFileHandle(h);
      assert ViewsOf(procs) == vs && handles[..] == handles0[h := NO_HANDLE];
    }

    // The first free descriptor from 3 on gets the handle.
    method TakeSlot(h: nat) returns (fd: int)
      requires current != null && current.fds.Length == MAX_FD
      modifies current.fds
      ensures fd == FreeSlot(old(current.fds[..]), 3)
      ensures current.fds[..] == if fd == -1 then old(current.fds[..]) else old(current.fds[..])[fd := Some(h)]
    {
      for i := 3 to MAX_FD
        invariant current.fds[..] == old(current.fds[..])
        invariant FreeSlot(current.fds[..], 3) == FreeSlot(current.fds[..], i)
      {
        if current.fds[i] == None {
          current.fds[i] := Some(h);
          return i;
        }
      }
      fd := -1;
    }

    method FreeFileHandle(h: nat)
      requires h < handles.Length
      modifies handles
      ensures handles[..] == old(handles[..])[h := old(handles[h]).(refs := 0, node := None)]
    {
      handles[h] := handles[h].(refs := 0);
      handles[h] := handles[h].(node := None);
    }

    // open: the tables and the result are the specified ones; without a current process there is no
    // descriptor to be had.
    method Open(path: Option<string>, flags: int) returns (fd: int, fits: bool)
      requires Valid() && (path.Some? ==> NUL !in path.value)
      modifies this`used, files, handles, if current == null then {} else {current.fds}
      ensures Valid()
      ensures fits <==> path.Some? ==> NameFits(old(files[..]), old(Cwd()), path.value)
      ensures fits ==> files[..] == OpenArg(old(files[..]), old(Cwd()), path, flags).0
      ensures fits && current != null ==>
                (handles[..], current.fds[..], fd)
                == OpenTables(OpenArg(old(files[..]), old(Cwd()), path, flags).1, old(handles[..]),
                              old(current.fds[..]))
      ensures fits && current == null ==>
                && fd == -1
                && (handles[..] == old(handles[..]) || exists h: nat :: h < MAX_HANDLES && old(handles[h]).refs == 0
                                                         && handles[..] == old(handles[..])[h := NO_HANDLE])
    {
      hide NameFits, OpenArg, Inv, GoodFds, FreeHandle, FreeSlot;
      var inode;
      inode, fits := OpenNode(path, flags);
      if inode == -1 {
        return -1, fits;
      }
      fd := OpenHandle(inode);
    }

    method Close(fd: int)
      requires Valid() && current != null
      modifies handles, current.fds
      ensures Valid()
      ensures
        if 0 <= fd < MAX_FD && old(current.fds[fd]).Some? then
          var h := old(current.fds[fd]).value;
          && current.fds[..] == old(current.fds[..])[fd := None]
          && handles[..] == old(handles[..])[h := old(handles[h]).(refs := 0, node := None)]
        else
          current.fds[..] == old(current.fds[..]) && handles[..] == old(handles[..])
    {
      hide Inv, ViewsOk;
      CurrentOk();
      if fd < 0 || fd >= MAX_FD || current.fds[fd] == None {
        return;
      }
      var h := current.fds[fd].value;
      assert GoodHandle(files[..], handles[..], current.fds[..][fd].value);
      hide GoodFds;
      ghost var vs := ViewsOf(procs);
      ViewsClose(files[..], handles[..], vs, current, fd, handles[h].(refs := 0, node := None));
      FreeFileHandle(h);
      current.fds[fd] := None;
      assert current.fds[..] == old(current.fds[..])[fd := None];
      OneView(procs, current, vs);
    }

    method Chdir(path: Option<string>) returns (r: int)
      requires Valid() && (path.Some? ==> NUL !in path.value)
      modifies current
      ensures Valid()
      ensures
        var i := ResolveArg(files[..], old(Cwd()), path).inode;
        && r == (if IsDir(files[..], i) then 0 else -1)
        && (current != null ==> current.cwd == if r == 0 then i else old(current.cwd))
    {
      hide Resolve, Inv, ViewsOk;
      CwdIsDir();
      var inode, parent, name := ResolvePath(path);
      if inode == -1 {
        return -1;
      }
      ResolveGives(files[..], used, Cwd(), path.value);
      if files[inode].kind != Dir {
        return -1;
      }
      if current != null {
        ghost var vs := ViewsOf(procs);
        ViewsChdir(files[..], handles[..], vs, current, inode);
        current.cwd := inode;
        OneView(procs, current, vs);
      }
      r := 0;
    }

    // ---- getcwd ----

    method GetCwd(buf: array<char>, size: nat) returns (ok: bool)
      requires Valid() && size <= buf.Length
      modifies buf
      ensures ok <==> current != null && |PathOf(files[..], current.cwd)| < size
      ensures !ok ==> buf[..] == old(buf[..])
      ensures ok ==>
        var path := PathOf(files[..], current.cwd);
        buf[..] == path + [NUL] + old(buf[|path| + 1..])
    {
      if size == 0 || current == null {
        return false;
      }
      var curr := current.cwd;
      if curr == 0 {
        if size < 2 {
          return false;
        }
        CopyString(buf, 0, "/" + [NUL]);
        return true;
      }
      var len := MeasurePath(curr, size);
      if len == -1 {
        return false;
      }
      WritePath(buf, curr, len);
      ok := true;
    }

    // The first loop: the length of the path, or -1 when it does not fit.
    method MeasurePath(curr: int, size: nat) returns (len: int)
      requires Valid() && IsUsed(files[..], curr) && size > 0
      ensures
        var n := |Join(Names(files[..], curr))|;
        len == if n < size then n else -1
    {
      hide Inv, Names, Join;
      ghost var n := |Join(Names(files[..], curr))|;
      var temp := curr;
      len := 0;
      RootIsDir();
      RootHasNoName(files[..]);
      while temp != 0
        invariant IsUsed(files[..], temp)
        invariant 0 <= len < size && len + |Join(Names(files[..], temp))| == n
        decreases temp
      {
        JoinParent(files[..], used, temp);
        len := len + 1 + |files[temp].name|;
        temp := files[temp].parent;
        if len >= size {
          return -1;
        }
      }
    }

    // The second loop: the path, written from its end.
    method WritePath(buf: array<char>, curr: int, len: nat)
      requires Valid() && IsUsed(files[..], curr) && len == |Join(Names(files[..], curr))| && len < buf.Length
      modifies buf
      ensures buf[..] == Join(Names(files[..], curr)) + [NUL] + old(buf[len + 1..])
    {
      hide Inv, Names, Join;
      ghost var path := Join(Names(files[..], curr));
      ghost var tail := [NUL] + buf[len + 1..];
      var pos := len;
      buf[pos] := NUL;
      var temp := curr;
      assert path[len..] + tail == tail && buf[len..] == tail && path[..len] == path;
      RootHasNoName(files[..]);
      while temp != 0
        invariant IsUsed(files[..], temp)
        invariant 0 <= pos <= len && path[..pos] == Join(Names(files[..], temp))
        invariant buf[pos..] == path[pos..] + tail
        decreases temp
      {
        JoinParent(files[..], used, temp);
        ghost var up := Join(Names(files[..], files[temp].parent));
        ghost var was := pos;
        PathSplits(path, pos, up, files[temp].name);
        pos := PutName(buf, pos, files[temp].name);
        Regroup("/" + files[temp].name, path[was..], tail);
        temp := files[temp].parent;
      }
      assert path[0..] == path && buf[..] == buf[0..];
    }

    method PutName(buf: array<char>, pos: int, name: string) returns (start: int)
      requires |name| + 1 <= pos <= buf.Length
      modifies buf
      ensures start == pos - |name| - 1
      ensures buf[start..] == "/" + name + old(buf[pos..])
    {
      start := pos - |name|;
      CopyString(buf, start, name);
      start := start - 1;
      buf[start] := '/';
    }

    // ---- getdents64 ----

    method WriteRecord(buf: array<char>, pos: nat, ino: nat, off: nat, e: Entry)
      requires pos + RecLen(e.name) <= buf.Length
      modifies buf
      ensures buf[..pos] == old(buf[..pos])
      ensures buf[pos..pos + NAME_AT + |e.name| + 1] == Record(ino, off, e)
      ensures buf[pos + NAME_AT + |e.name| + 1..] == old(buf[pos + NAME_AT + |e.name| + 1..])
    {
      hide LE, RecLen;
      var kind := (if e.isDir then DT_DIR else DT_REG) as char;
      var head := LE(ino, 8) + LE(off, 8) + LE(RecLen(e.name), 2) + [kind];
      CopyString(buf, pos, head);
      ghost var b1 := buf[..];
      assert b1[pos..pos + NAME_AT] == head;
      CopyString(buf, pos + NAME_AT, e.name + [NUL]);
      assert buf[..pos + NAME_AT] == b1[..pos + NAME_AT];
      assert buf[pos..pos + NAME_AT + |e.name| + 1] == head + (e.name + [NUL]);
      assert buf[pos + NAME_AT + |e.name| + 1..] == b1[pos + NAME_AT..][|e.name| + 1..];
      assert buf[..pos] == b1[..pos];
      assert head + (e.name + [NUL]) == Record(ino, off, e);
    }

    // The directory behind a descriptor, if there is one.
    ghost function OpenDir(fd: int): Option<OpenDirectory>
      requires current != null
      reads this`current, files, handles, current.fds
    {
      DirBehind(files[..], handles[..], current.fds[..], fd)
    }

    method GetDents(fd: int, buf: array<char>, count: int) returns (r: int)
      requires Valid() && current != null && count <= buf.Length
      modifies handles, buf
      ensures Valid()
      ensures
        match old(OpenDir(fd))
        case Some(d) =>
          var (taken, next) := Take(files[..], d.inode, d.offset, count);
          && handles[..] == old(handles[..])[d.handle := old(handles[d.handle]).(offset := next)]
          && Encoded(buf[..], files[..], taken) && r == Total(files[..], taken)
          && 0 <= r <= buf.Length && buf[r..] == old(buf[r..])
        case None =>
          r == -1 && handles[..] == old(handles[..]) && buf[..] == old(buf[..])
    {
      hide Inv, Encoded, Take, Total, ViewsOk;
      CurrentOk();
      if fd < 0 || fd >= MAX_FD || current.fds[fd] == None {
        return -1;
      }
      var h := current.fds[fd].value;
      assert GoodHandle(files[..], handles[..], current.fds[..][fd].value);
      var node := handles[h].node.value;
      if files[node].kind != Dir {
        return -1;
      }
      hide GoodFds;
      IdxIsPlace(files[..], used, node);
      var search, bpos := ScanChildren(buf, node, files[node].idx, handles[h].offset, count);
      ViewsMove(files[..], handles[..], ViewsOf(procs), h, search);
      handles[h] := handles[h].(offset := search);
      r := bpos;
    }

    // The loop of getdents64: records of the children of `target` from inode `start` on.
    method ScanChildren(buf: array<char>, node: nat, target: nat, start: nat, count: int)
      returns (search: nat, bpos: nat)
      requires files.Length == MAX_FILES && node == target && count <= buf.Length
      modifies buf
      ensures
        var (taken, next) := Take(files[..], node, start, count);
        && search == next && Encoded(buf[..], files[..], taken) && bpos == Total(files[..], taken)
      ensures bpos <= buf.Length && buf[bpos..] == old(buf[bpos..])
    {
      hide Encoded, Take, Total, IsChild, EntryOf;
      bpos := 0;
      search := start;
      ghost var goal := Take(files[..], node, start, count);
      ghost var done: seq<nat> := [];
      NothingEncoded(buf[..], files[..]);
      assert [] + goal.0 == goal.0;
      while search < MAX_FILES
        invariant InRange(files[..], done) && Encoded(buf[..], files[..], done) && bpos == Total(files[..], done)
        invariant bpos <= buf.Length && buf[bpos..] == old(buf[bpos..])
        invariant done + Take(files[..], node, search, count - bpos).0 == goal.0
        invariant Take(files[..], node, search, count - bpos).1 == goal.1
        decreases MAX_FILES - search
      {
        TakeStep(files[..], node, search, count - bpos);
        ChildIs(files[..], target, search);
        if files[search].used && files[search].parent == target {
          var reclen := RecLen(files[search].name);
          if bpos + reclen > count {
            break;
          }
          EmitEntry(buf, search, bpos, done);
          GroupTaken(done, search, Take(files[..], node, search + 1, count - bpos - reclen).0);
          done := done + [search];
          bpos := bpos + reclen;
        }
        search := search + 1;
      }
      TakeEnd(files[..], node, search, count - bpos);
      assert done + [] == done;
    }

    method EmitEntry(buf: array<char>, i: nat, bpos: nat, ghost done: seq<nat>)
      requires i < files.Length && bpos + RecLen(files[i].name) <= buf.Length
      requires Encoded(buf[..], files[..], done) && bpos == Total(files[..], done)
      modifies buf
      ensures Encoded(buf[..], files[..], done + [i])
      ensures bpos + RecLen(files[i].name) == Total(files[..], done + [i])
      ensures buf[bpos + RecLen(files[i].name)..] == old(buf[bpos + RecLen(files[i].name)..])
    {
      hide Record, RecLen, Total;
      ghost var before := buf[..];
      var e := EntryOf(files[..], i);
      var reclen := RecLen(e.name);
      WriteRecord(buf, bpos, i + 1, bpos + reclen, e);
      AddRecord(before, buf[..], files[..], done, i);
      assert buf[bpos + reclen..] == buf[bpos + NAME_AT + |e.name| + 1..][reclen - NAME_AT - |e.name| - 1..];
    }
  }

  lemma Regroup(a: string, b: string, c: string)
    ensures a + (b + c) == (a + b) + c
  {
  }

  lemma RootHasNoName(files: Files)
    ensures Join(Names(files, 0)) == ""
  {
  }

  lemma PathSplits(path: string, pos: nat, up: string, name: string)
    requires pos <= |path| && path[..pos] == up + "/" + name
    ensures
      var start := pos - |name| - 1;
      && path[..start] == up && path[start..] == "/" + name + path[pos..]
  {
    var start := pos - |name| - 1;
    assert path[..start] == path[..pos][..start];
    assert path[start..pos] == path[..pos][start..];
    assert path[start..] == path[start..pos] + path[pos..];
  }

  lemma JoinParent(files: Files, used: nat, i: int)
    requires Inv(files, used) && IsUsed(files, i) && i != 0
    ensures 0 <= files[i].parent < i && IsUsed(files, files[i].parent)
    ensures Join(Names(files, i)) == Join(Names(files, files[i].parent)) + "/" + files[i].name
  {
    ParentIsDir(files, used, i);
    var up := Names(files, files[i].parent);
    assert Names(files, i) == up + [files[i].name];
    assert (up + [files[i].name])[..|up|] == up;
  }

  lemma DirStays(files: Files, used: nat, dir: int, node: Inode)
    requires Inv(files, used) && IsDir(files, dir)
    ensures used < MAX_FILES ==> IsDir(files[used := node], dir)
  {
  }

  lemma IdxIsPlace(files: Files, used: nat, i: nat)
    requires Inv(files, used) && IsUsed(files, i)
    ensures files[i].idx == i
  {
    assert i != 0 ==> Linked(files, i);
  }

  lemma ChildIs(files: Files, dir: nat, i: nat)
    requires i < |files|
    ensures IsChild(files, dir, i) <==> files[i].used && files[i].parent == dir
  {
  }

  lemma GroupTaken(done: seq<nat>, i: nat, rest: seq<nat>)
    ensures done + ([i] + rest) == (done + [i]) + rest
  {
  }

  lemma NothingEncoded(b: seq<char>, files: Files)
    ensures Encoded(b, files, []) && Total(files, []) == 0
  {
  }

  // One step of the search loop.
  lemma TakeStep(files: Files, dir: nat, i: nat, room: int)
    requires i < |files|
    ensures !IsChild(files, dir, i) ==> Take(files, dir, i, room) == Take(files, dir, i + 1, room)
    ensures IsChild(files, dir, i) && RecLen(files[i].name) > room ==> Take(files, dir, i, room) == ([], i)
    ensures IsChild(files, dir, i) && RecLen(files[i].name) <= room ==>
              var t := Take(files, dir, i + 1, room - RecLen(files[i].name));
              Take(files, dir, i, room) == ([i] + t.0, t.1)
  {
  }

  lemma TakeEnd(files: Files, dir: nat, i: nat, room: int)
    ensures i >= |files| ==> Take(files, dir, i, room) == ([], i)
  {
  }

  // One round of the resolution loop.
  lemma WalkUnfolds(files: Files, curr: int, s: string)
    requires IsUsed(files, curr)
    ensures
      match NextToken(s, "/")
      case None => Walk(files, curr, s) == Resolved(curr, files[curr].parent, "")
      case Some(c) =>
        var found := Find(files, curr, c.token, 0);
        Walk(files, curr, s) ==
          if c.token == "." then Walk(files, curr, c.rest)
          else if c.token == ".." then Walk(files, Up(files, curr), c.rest)
          else if c.rest == "" then Resolved(found, curr, c.token)
          else if !IsDir(files, found) then Resolved(-1, -1, "")
          else Walk(files, found, c.rest)
  {
    hide NextToken, Find, Up;
  }

  lemma UpIs(files: Files, dir: int)
    requires IsUsed(files, dir)
    ensures Up(files, dir) == if files[dir].parent != -1 then files[dir].parent else dir
  {
  }

  lemma MoreOrNot(b: seq<char>, p: nat)
    requires Terminated(b, p)
    ensures p < |b| && (b[p] != NUL <==> CStr(b, p) != "")
  {
  }
}
