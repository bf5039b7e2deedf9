/** The shell's ls: it opens a directory, reads records until a read returns nothing, and decodes
    them (usr/shell.c:92-121).
  */
module Ls {
  import opened Common
  import opened Bytes
  import opened CStrings
  import opened RamFsSpec
  import opened RamFsPaths
  import opened RamFsRuns
  import opened Dirent
  import opened RamFs

  function Entries(files: Files, taken: seq<nat>): seq<Entry>
    requires InRange(files, taken)
  {
    seq(|taken|, k requires 0 <= k < |taken| => EntryOf(files, taken[k]))
  }

  ghost predicate GoodNames(files: Files, taken: seq<nat>) {
    InRange(files, taken) && forall k :: 0 <= k < |taken| ==> ValidName(files[taken[k]].name)
  }

  // The decoder reads exactly the entries that were written, one per record.
  method DecodeRecords(b: array<char>, nread: nat, ghost files: Files, ghost taken: seq<nat>) returns (out: seq<Entry>)
    requires GoodNames(files, taken) && Encoded(b[..], files, taken) && nread == Total(files, taken)
    ensures out == Entries(files, taken)
  {
    hide Total, Encoded, EntryOf, RecLen;
    out := [];
    var bpos: nat := 0;
    ghost var k := 0;
    TotalZero(files, []);
    assert taken[..0] == [];
    while bpos < nread
      invariant k <= |taken| && bpos == Total(files, taken[..k])
      invariant out == Entries(files, taken)[..k]
      invariant k == |taken| ==> bpos == nread
      decreases nread - bpos
    {
      TotalSteps(files, taken, k);
      RecordThere(b[..], files, taken, k);
      var kind := b[bpos + TYPE_AT];
      var name := CStr(b[..], bpos + NAME_AT);
      var reclen := UnLE(b[bpos + RECLEN_AT..bpos + TYPE_AT]);
      assert b[..][bpos + RECLEN_AT..bpos + TYPE_AT] == b[bpos + RECLEN_AT..bpos + TYPE_AT];
      out := out + [Entry(name, kind == DT_DIR as char)];
      bpos := bpos + reclen;
      k := k + 1;
      assert k == |taken| ==> taken[..k] == taken;
    }
    AllRead(files, taken, k);
  }

  // Positions grow with every record, so the end of the bytes is the end of the records.
  lemma AllRead(files: Files, taken: seq<nat>, k: nat)
    requires InRange(files, taken) && k <= |taken| && Total(files, taken[..k]) >= Total(files, taken)
    ensures k == |taken|
  {
    if k < |taken| { TotalSteps(files, taken, k); }
  }

  lemma {:induction false} RecordThere(b: seq<char>, files: Files, taken: seq<nat>, k: nat)
    requires GoodNames(files, taken) && Encoded(b, files, taken) && k < |taken|
    ensures
      var pos := Total(files, taken[..k]);
      var e := EntryOf(files, taken[k]);
      && pos + RecLen(e.name) <= |b| && RecLen(e.name) >= NAME_AT
      && e.name == files[taken[k]].name
      && UnLE(b[pos + RECLEN_AT..pos + TYPE_AT]) == RecLen(e.name)
      && b[pos + TYPE_AT] == (if e.isDir then DT_DIR else DT_REG) as char
      && CStr(b, pos + NAME_AT) == e.name
  {
    hide Total, UnLE, CStr, Record;
    assert RecordAt(b, files, taken, k);
    var pos := Total(files, taken[..k]);
    var e := EntryOf(files, taken[k]);
    RecordReadsBack(b, pos, taken[k] + 1, pos + RecLen(e.name), e);
  }

  // ---- ls ----

  // ls prints each child of the directory exactly once, in inode order, with its name and kind; of
  // a regular file it prints nothing. It succeeds exactly when the path leads somewhere and a handle
  // and a descriptor are free, and it leaves the descriptors as they were.
  method CmdLs(fs: FileSystem, path: Option<string>, bufSize: nat) returns (ok: bool, fits: bool, out: seq<Entry>)
    requires fs.Valid() && fs.current != null && bufSize >= MIN_BUFFER && NUL !in PathOr(path)
    modifies fs`used, fs.files, fs.handles, fs.current.fds
    ensures fs.Valid()
    ensures fits <==> NameFits(old(fs.files[..]), old(fs.Cwd()), PathOr(path))
    ensures fits ==> fs.files[..] == old(fs.files[..]) && fs.current.fds[..] == old(fs.current.fds[..])
    ensures fits ==>
      var i := Resolve(fs.files[..], old(fs.Cwd()), PathOr(path)).inode;
      && (ok <==> i >= 0 && FreeHandle(old(fs.handles[..]), 0) != -1 && FreeSlot(old(fs.current.fds[..]), 3) != -1)
      && out == if ok && IsDir(fs.files[..], i) then Entries(fs.files[..], ChildrenOf(fs.files[..], i)) else []
    ensures !fits ==> !ok
    // without an argument, the children of the working directory
    ensures path.None? ==>
      && fits && out == if ok then Entries(fs.files[..], ChildrenOf(fs.files[..], old(fs.Cwd()))) else []
  {
    hide NameFits, Inv, Encoded, Take, Total, OpenInode, GoodFds, FreeHandle, FreeSlot, Resolve, FileSystem.Valid;
    fs.CurrentOk();
    fs.TreeOk();
    fs.CwdIsDir();
    out := [];
    var fd;
    fd, fits := fs.Open(Some(PathOr(path)), 0);
    PlainOpen(old(fs.files[..]), old(fs.Cwd()), PathOr(path));
    DotIsHere(old(fs.files[..]), old(fs.used), old(fs.Cwd()));
    ok := fits && fd >= 0;
    if ok {
      fs.CurrentOk();
      out := ListAll(fs, fd, bufSize);
      fs.Close(fd);
    }
  }

  function PathOr(path: Option<string>): string {
    if path.None? then "." else path.value
  }

  function ChildrenOf(files: Files, i: int): (r: seq<nat>)
    ensures InRange(files, r)
  {
    if i < 0 then []
    else Rest(files, i, 0)
  }

  // "." is the working directory, and no name is too long for it.
  lemma DotIsHere(files: Files, used: nat, cwd: int)
    requires Inv(files, used) && IsDir(files, cwd)
    ensures NameFits(files, cwd, ".") && Resolve(files, cwd, ".").inode == cwd
  {
    hide Inv, Resolve;
    DotsResolve(files, used, cwd);
    DotHasNoName(files, cwd);
  }

  lemma DotHasNoName(files: Files, cwd: int)
    ensures |Resolve(files, cwd, ".").name| < NAME_SIZE
  {
    FirstToken(".", "");
    assert "." + "" == "." && Fit(".") == "." && NextToken("", "/") == None;
  }

  lemma PlainOpen(files: Files, cwd: int, path: string)
    ensures OpenInode(files, cwd, path, 0) == (files, Resolve(files, cwd, path).inode)
  {
  }

  method ListAll(fs: FileSystem, fd: int, bufSize: nat) returns (out: seq<Entry>)
    requires fs.Valid() && fs.current != null && bufSize >= MIN_BUFFER
    requires fs.OpenDir(fd).Some? ==> fs.OpenDir(fd).value.offset == 0
    modifies fs.handles
    ensures fs.Valid() && SameButOffset(old(fs.handles[..]), fs.handles[..], fs.current.fds[..], fd)
    ensures
      match old(fs.OpenDir(fd))
      case Some(d) => out == Entries(fs.files[..], ChildrenOf(fs.files[..], d.inode))
      case None => out == []
  {
    hide Inv, Encoded, Take, Total, Entries, GoodFds, FileSystem.Valid;
    fs.CurrentOk();
    fs.TreeOk();
    var buf := new char[bufSize];
    ghost var dir := fs.OpenDir(fd);
    ghost var i := if dir.Some? then dir.value.inode else 0;
    ghost var files := fs.files[..];
    ghost var from := 0;
    out := [];
    AllInRange(files, i, 0);
    NoEntries(files, ChildrenOf(files, i));
    var nread := fs.GetDents(fd, buf, bufSize);
    while nread > 0
      invariant fs.Valid() && fs.files[..] == files && SameButOffset(old(fs.handles[..]), fs.handles[..],
                                                                     fs.current.fds[..], fd)
      invariant dir.None? ==> nread == -1 && out == []
      invariant dir.Some? ==>
        && fs.OpenDir(fd) == Some(dir.value.(offset := fs.handles[dir.value.handle].offset))
        && Pending(files, i, from, bufSize, buf[..], nread, fs.handles[dir.value.handle].offset, out)
      decreases MAX_FILES - from
    {
      ghost var offset := fs.handles[dir.value.handle].offset;
      ReadAdvances(files, fs.used, i, from, bufSize, buf[..], nread, offset, out);
      ghost var taken := Take(files, i, from, bufSize).0;
      var some := DecodeRecords(buf, nread, files, taken);
      out := out + some;
      from := offset;
      nread := fs.GetDents(fd, buf, bufSize);
    }
    if dir.Some? {
      NothingLeft(files, fs.used, i, from, bufSize, buf[..], nread, fs.handles[dir.value.handle].offset, out);
    }
  }

  // Only the position behind descriptor fd may have moved.
  ghost predicate SameButOffset(before: seq<Handle>, after: seq<Handle>, fds: seq<Option<nat>>, fd: int) {
    && |after| == |before|
    && forall h: nat :: h < |before| ==>
         after[h] == before[h] || (0 <= fd < |fds| && fds[fd] == Some(h)
                                   && after[h] == before[h].(offset := after[h].offset))
  }

  // Between two reads: the buffer holds what the last read took from inode `from` on, and the
  // entries listed so far with those of the remaining children make all of them.
  ghost predicate Pending(files: Files, i: nat, from: nat, room: int, b: seq<char>, nread: int, offset: nat,
                          out: seq<Entry>) {
    && from <= MAX_FILES
    && Encoded(b, files, Take(files, i, from, room).0) && nread == Total(files, Take(files, i, from, room).0)
    && offset == Take(files, i, from, room).1
    && out + Entries(files, Rest(files, i, from)) == Entries(files, Rest(files, i, 0))
  }

  function Rest(files: Files, i: nat, from: nat): (r: seq<nat>)
    ensures InRange(files, r)
  {
    AllInRange(files, i, from);
    Children(files, i, from)
  }

  lemma NoEntries(files: Files, all: seq<nat>)
    requires InRange(files, all)
    ensures [] + Entries(files, all) == Entries(files, all)
  {
  }

  lemma {:induction false} ReadAdvances(files: Files, used: nat, i: nat, from: nat, room: int, b: seq<char>, nread: int,
                                        offset: nat, out: seq<Entry>)
    requires Inv(files, used) && IsDir(files, i) && Pending(files, i, from, room, b, nread, offset, out) && nread > 0
    ensures
      var taken := Take(files, i, from, room).0;
      && GoodNames(files, taken) && from < offset <= MAX_FILES
      && (out + Entries(files, taken)) + Entries(files, Rest(files, i, offset)) == Entries(files, Rest(files, i, 0))
  {
    hide Encoded, Take;
    var taken := Take(files, i, from, room).0;
    TakeIsNextChildren(files, i, from, room);
    TakeStopsInside(files, i, from, room);
    var rest := Rest(files, i, offset);
    assert taken + rest == Rest(files, i, from);
    assert InRange(files, taken) by {
      forall k | 0 <= k < |taken| ensures taken[k] < |files| {
        assert taken[k] == Rest(files, i, from)[k];
      }
    }
    TotalZero(files, taken);
    forall k | 0 <= k < |taken| ensures ValidName(files[taken[k]].name) {
      assert taken[k] == Rest(files, i, from)[k] && taken[k] in Children(files, i, from);
      ChildNameFits(files, used, i, taken[k]);
    }
    assert Entries(files, taken + rest) == Entries(files, taken) + Entries(files, rest);
    assert out + (Entries(files, taken) + Entries(files, rest)) == (out + Entries(files, taken)) + Entries(files, rest);
  }

  lemma TotalZero(files: Files, taken: seq<nat>)
    requires InRange(files, taken)
    ensures Total(files, taken) == 0 <==> taken == []
  {
  }

  lemma {:induction false} NothingLeft(files: Files, used: nat, i: nat, from: nat, room: int, b: seq<char>, nread: int,
                                       offset: nat, out: seq<Entry>)
    requires Inv(files, used) && IsDir(files, i) && Pending(files, i, from, room, b, nread, offset, out)
    requires nread <= 0 && room >= MIN_BUFFER
    ensures out == Entries(files, Rest(files, i, 0))
  {
    var taken := Take(files, i, from, room).0;
    TotalZero(files, taken);
    EmptyReadIsTheEnd(files, used, i, from, room);
    assert Entries(files, []) == [];
  }

  lemma AllInRange(files: Files, dir: nat, i: nat)
    ensures InRange(files, Children(files, dir, i))
  {
    var r := Children(files, dir, i);
    assert forall k :: 0 <= k < |r| ==> r[k] in r;
  }
}
