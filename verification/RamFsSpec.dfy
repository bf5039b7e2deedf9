/** The in-memory file system as values: inodes, path resolution, and what each call does to the
    inode table (kernel/src/fs/ramfs.c).
  */
module RamFsSpec {
  import opened Common
  import opened CStrings

  const MAX_FILES: nat := 64
  const NAME_SIZE: nat := 32
  const PATH_SIZE: nat := 128

  datatype Kind = Unset | File | Dir

  datatype Inode = Inode(name: string, used: bool, kind: Kind, parent: int, idx: nat)

  const BLANK := Inode("", false, Unset, 0, 0)
  const ROOT := Inode("", true, Dir, -1, 0)

  type Files = seq<Inode>

  predicate IsUsed(files: Files, i: int) { 0 <= i < |files| && files[i].used }

  predicate IsDir(files: Files, i: int) { IsUsed(files, i) && files[i].kind == Dir }

  predicate ValidName(n: string) {
    0 < |n| < NAME_SIZE && '/' !in n && NUL !in n && n != "." && n != ".."
  }

  // ---- The state invariant ----

  // What holds of every inode in use other than the root.
  predicate Linked(files: Files, i: int) {
    && IsUsed(files, i)
    && files[i].idx == i && files[i].kind != Unset && ValidName(files[i].name)
    && 0 <= files[i].parent < i && IsDir(files, files[i].parent)
  }

  predicate SameEntry(files: Files, i: int, dir: int, name: string) {
    IsUsed(files, i) && files[i].parent == dir && files[i].name == name
  }

  // Inodes are handed out from the front; used is their number.
  ghost predicate Inv(files: Files, used: nat) {
    && |files| == MAX_FILES && 1 <= used <= MAX_FILES
    && files[0] == ROOT
    && (forall i :: 0 <= i < MAX_FILES ==> (IsUsed(files, i) <==> i < used))
    && (forall i :: 1 <= i < used ==> Linked(files, i))
    && (forall i, j, d, n :: SameEntry(files, i, d, n) && SameEntry(files, j, d, n) ==> i == j)
  }

  lemma ParentIsDir(files: Files, used: nat, i: int)
    requires Inv(files, used) && IsUsed(files, i)
    ensures files[i].parent == -1 <==> i == 0
    ensures i != 0 ==> Linked(files, i)
    ensures i != 0 ==> 0 <= files[i].parent < i && IsDir(files, files[i].parent) && ValidName(files[i].name)
  {
    assert i != 0 ==> Linked(files, i);
  }

  // ---- Path resolution as the code does it ----

  // The loop over the inode table: the first match from position i on, or -1.
  function Find(files: Files, dir: int, name: string, i: nat): (r: int)
    requires i <= |files|
    ensures r == -1 || (i <= r < |files| && SameEntry(files, r, dir, name))
    ensures r == -1 ==> forall j :: i <= j < |files| ==> !SameEntry(files, j, dir, name)
    decreases |files| - i
  {
    if i == |files| then -1 else if SameEntry(files, i, dir, name) then i else Find(files, dir, name, i + 1)
  }

  lemma FindIs(files: Files, used: nat, dir: int, name: string, i: int)
    requires Inv(files, used) && SameEntry(files, i, dir, name)
    ensures Find(files, dir, name, 0) == i
  {
    assert SameEntry(files, i, dir, name);
  }

  // resolve_path's result and out-parameters; parent is -1 and name is empty where the code
  // leaves the caller's initial values.
  datatype Resolved = Resolved(inode: int, parent: int, name: string)

  function Up(files: Files, dir: int): int {
    if IsUsed(files, dir) && files[dir].parent != -1 then files[dir].parent else dir
  }

  function Walk(files: Files, curr: int, s: string): Resolved
    decreases |s|
  {
    match NextToken(s, "/")
    case None => Resolved(curr, if IsUsed(files, curr) then files[curr].parent else -1, "")
    case Some(c) =>
      if c.token == "." then Walk(files, curr, c.rest)
      else if c.token == ".." then Walk(files, Up(files, curr), c.rest)
      else
        var found := Find(files, curr, c.token, 0);
        if c.rest == "" then Resolved(found, curr, c.token)
        else if !IsDir(files, found) then Resolved(-1, -1, "")
        else Walk(files, found, c.rest)
  }

  // The 127 characters that fit in the path buffer.
  function Fit(s: string): string {
    if |s| > PATH_SIZE - 1 then s[..PATH_SIZE - 1] else s
  }

  function Resolve(files: Files, cwd: int, path: string): Resolved {
    if path != "" && path[0] == '/' then Walk(files, 0, Fit(path[1..])) else Walk(files, cwd, Fit(path))
  }

  // ---- Creating an inode ----

  // alloc_inode's loop: the first inode not in use from position i on, or -1.
  function FirstUnused(files: Files, i: nat): (r: int)
    requires i <= |files|
    ensures r == -1 || (i <= r < |files| && !files[r].used)
    ensures forall j :: i <= j < (if r == -1 then |files| else r) ==> files[j].used
    decreases |files| - i
  {
    if i == |files| then -1 else if !files[i].used then i else FirstUnused(files, i + 1)
  }

  // What mkdir and open with O_CREAT do once resolve_path has found no entry: the new table and
  // the new inode, or -1.
  function Create(files: Files, r: Resolved, kind: Kind): (Files, int) {
    var i := FirstUnused(files, 0);
    if r.parent == -1 || i == -1 then (files, -1)
    else (files[i := Inode(r.name, true, kind, r.parent, i)], i)
  }

  function Mkdir(files: Files, cwd: int, path: string): (Files, int) {
    var r := Resolve(files, cwd, path);
    if r.inode != -1 then (files, -1)
    else
      var (files', i) := Create(files, r, Dir);
      (files', if i == -1 then -1 else 0)
  }

  // The bit O_CREAT == 64 of a two's-complement integer.
  predicate WantsCreate(flags: int) { (flags / 64) % 2 == 1 }

  // The part of open before a file handle is taken.
  function OpenInode(files: Files, cwd: int, path: string, flags: int): (Files, int) {
    var r := Resolve(files, cwd, path);
    if r.inode == -1 && WantsCreate(flags) then Create(files, r, File) else (files, r.inode)
  }

  function Chdir(files: Files, cwd: int, path: string): int {
    var i := Resolve(files, cwd, path).inode;
    if IsDir(files, i) then i else cwd
  }

  // ---- Printing the working directory ----

  // The names on the way from the root to inode i.
  function Names(files: Files, i: int): seq<string>
    decreases if i < 0 then 0 else i
  {
    if 0 < i < |files| && 0 <= files[i].parent < i then Names(files, files[i].parent) + [files[i].name] else []
  }

  function Join(cs: seq<string>): string {
    if cs == [] then "" else Join(cs[..|cs| - 1]) + "/" + cs[|cs| - 1]
  }

  function PathOf(files: Files, i: int): string {
    if i == 0 then "/" else Join(Names(files, i))
  }
}
