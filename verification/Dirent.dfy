/** Directory records: the bytes ramfs_getdents64 writes and the loop in the shell's ls that reads
    them back (kernel/src/fs/ramfs.c:18-28 and 275-310, usr/shell.c:106-118).
  */
module Dirent {
  import opened Common
  import opened Bytes
  import opened CStrings
  import opened RamFsSpec
  import opened RamFsPaths

  // What ls learns about one entry.
  datatype Entry = Entry(name: string, isDir: bool)

  function EntryOf(files: Files, i: nat): Entry
    requires i < |files|
  {
    Entry(files[i].name, files[i].kind == Dir)
  }

  // An entry is marked as a directory if and only if chdir takes its name.
  lemma {:induction false} MarkedIffEntered(files: Files, used: nat, dir: int, i: nat)
    requires Inv(files, used) && IsDir(files, dir) && IsUsed(files, i) && files[i].parent == dir
    ensures Resolve(files, dir, EntryOf(files, i).name).inode == i
    ensures EntryOf(files, i).isDir <==> Chdir(files, dir, EntryOf(files, i).name) == i
  {
    hide Resolve, Enter;
    ParentIsDir(files, used, i);
    ParentIsDir(files, used, dir);
    NameResolves(files, used, dir, files[i].name);
    EnterMeans(files, used, dir, files[i].name);
    assert SameEntry(files, i, dir, files[i].name);
  }

  const DT_DIR: nat := 4
  const DT_REG: nat := 8
  const HEADER: nat := 24       // sizeof(struct linux_dirent64), with its padding
  const RECLEN_AT: nat := 16
  const TYPE_AT: nat := 18
  const NAME_AT: nat := 19
  const MIN_BUFFER: nat := 56

  // ALIGN_UP(sizeof(struct linux_dirent64) + strlen(name) + 1, 8)
  function RecLen(name: string): (n: nat)
    ensures n % 8 == 0 && NAME_AT + |name| + 1 <= n && n <= HEADER + |name| + 8
    ensures |name| < NAME_SIZE ==> n <= MIN_BUFFER
  {
    (HEADER + |name| + 1 + 7) / 8 * 8
  }

  // ---- One record ----

  function Record(ino: nat, off: nat, e: Entry): (s: string)
    ensures |s| == NAME_AT + |e.name| + 1
  {
    LE(ino, 8) + LE(off, 8) + LE(RecLen(e.name), 2)
    + [(if e.isDir then DT_DIR else DT_REG) as char] + e.name + [NUL]
  }

  // The decoder's reads of a record give back the entry and the record's length, whatever the
  // padding after the name holds.
  lemma {:induction false} RecordReadsBack(b: seq<char>, pos: nat, ino: nat, off: nat, e: Entry)
    requires NUL !in e.name && |e.name| < NAME_SIZE
    requires pos + RecLen(e.name) <= |b| && b[pos..pos + NAME_AT + |e.name| + 1] == Record(ino, off, e)
    ensures UnLE(b[pos + RECLEN_AT..pos + TYPE_AT]) == RecLen(e.name)
    ensures b[pos + TYPE_AT] == (if e.isDir then DT_DIR else DT_REG) as char
    ensures CStr(b, pos + NAME_AT) == e.name
  {
    hide LE, CStr, UnLE;
    var r := Record(ino, off, e);
    var len := LE(RecLen(e.name), 2);
    var head := LE(ino, 8) + LE(off, 8);
    assert forall j :: 0 <= j < |r| ==> b[pos + j] == r[j];
    assert r[RECLEN_AT..TYPE_AT] == len;
    assert b[pos + RECLEN_AT..pos + TYPE_AT] == len;
    assert Pow256(2) == 65536 by { assert Pow256(1) == 256 && Pow256(0) == 1; }
    WordRoundTrip(RecLen(e.name), 2);
    var n, m := pos + NAME_AT, pos + NAME_AT + |e.name|;
    assert r[NAME_AT..NAME_AT + |e.name|] == e.name;
    assert b[n..m] == e.name;
    CStrIs(b, n, m);
  }

  // ---- One call of getdents64 ----

  predicate IsChild(files: Files, dir: nat, i: nat) {
    i < |files| && files[i].used && files[i].parent == dir
  }

  // The inodes a call takes, starting at inode i with room for `room` bytes, and the inode it
  // stops at.
  function Take(files: Files, dir: nat, i: nat, room: int): (r: (seq<nat>, nat))
    decreases |files| - i
  {
    if i >= |files| then ([], i)
    else if !IsChild(files, dir, i) then Take(files, dir, i + 1, room)
    else if RecLen(files[i].name) > room then ([], i)
    else
      var (taken, next) := Take(files, dir, i + 1, room - RecLen(files[i].name));
      ([i] + taken, next)
  }

  predicate InRange(files: Files, taken: seq<nat>) {
    forall k :: 0 <= k < |taken| ==> taken[k] < |files|
  }

  // The bytes the records of some inodes need.
  function Total(files: Files, taken: seq<nat>): nat
    requires InRange(files, taken)
  {
    if taken == [] then 0
    else Total(files, taken[..|taken| - 1]) + RecLen(files[taken[|taken| - 1]].name)
  }

  // All children of a directory from inode i on.
  function Children(files: Files, dir: nat, i: nat): (r: seq<nat>)
    ensures forall k :: k in r ==> IsChild(files, dir, k)
    decreases |files| - i
  {
    if i >= |files| then []
    else (if IsChild(files, dir, i) then [i] else []) + Children(files, dir, i + 1)
  }

  // Each child is listed, once, in inode order.
  lemma {:induction false} ChildrenAreAll(files: Files, dir: nat, i: nat)
    ensures forall k :: k in Children(files, dir, i) <==> i <= k && IsChild(files, dir, k)
    ensures forall a, b :: 0 <= a < b < |Children(files, dir, i)| ==>
              Children(files, dir, i)[a] < Children(files, dir, i)[b]
    decreases |files| - i
  {
    if i < |files| {
      var rest := Children(files, dir, i + 1);
      ChildrenAreAll(files, dir, i + 1);
      var all := Children(files, dir, i);
      if IsChild(files, dir, i) {
        assert all == [i] + rest;
        forall a, b | 0 <= a < b < |all| ensures all[a] < all[b] {
          assert all[b] == rest[b - 1] && rest[b - 1] in rest;
        }
      } else {
        assert all == rest;
      }
    }
  }

  // A call takes the next children in order, and stops at the first one that does not fit.
  lemma {:induction false} TakeStopsInside(files: Files, dir: nat, i: nat, room: int)
    requires i <= |files|
    ensures i <= Take(files, dir, i, room).1 <= |files|
    decreases |files| - i
  {
    if i < |files| {
      TakeStopsInside(files, dir, i + 1, room);
      TakeStopsInside(files, dir, i + 1, room - RecLen(files[i].name));
    }
  }

  lemma {:induction false} TakeIsNextChildren(files: Files, dir: nat, i: nat, room: int)
    ensures
      var (taken, next) := Take(files, dir, i, room);
      && taken + Children(files, dir, next) == Children(files, dir, i)
      && i <= next
      && (taken != [] ==> i < next)
    decreases |files| - i
  {
    if i < |files| {
      if !IsChild(files, dir, i) {
        TakeIsNextChildren(files, dir, i + 1, room);
        assert Children(files, dir, i) == Children(files, dir, i + 1);
      } else if RecLen(files[i].name) <= room {
        TakeIsNextChildren(files, dir, i + 1, room - RecLen(files[i].name));
        var (taken, next) := Take(files, dir, i + 1, room - RecLen(files[i].name));
        assert ([i] + taken) + Children(files, dir, next) == [i] + (taken + Children(files, dir, next));
      } else {
        assert [] + Children(files, dir, i) == Children(files, dir, i);
      }
    } else {
      assert Children(files, dir, i) == [];
    }
  }

  // What a call takes fits the room, and it stops only at the end or at a child that no longer fits.
  lemma {:induction false} TakeFillsTheRoom(files: Files, dir: nat, i: nat, room: nat)
    requires i <= |files|
    ensures var (taken, next) := Take(files, dir, i, room);
            && InRange(files, taken) && Total(files, taken) <= room
            && (next < |files| ==> IsChild(files, dir, next)
                                   && Total(files, taken) + RecLen(files[next].name) > room)
    decreases |files| - i
  {
    if i < |files| {
      if !IsChild(files, dir, i) {
        TakeFillsTheRoom(files, dir, i + 1, room);
      } else if RecLen(files[i].name) <= room {
        TakeFillsTheRoom(files, dir, i + 1, room - RecLen(files[i].name));
        TotalFirst(files, i, Take(files, dir, i + 1, room - RecLen(files[i].name)).0);
      }
    }
  }

  lemma {:induction false} TotalFirst(files: Files, i: nat, rest: seq<nat>)
    requires i < |files| && InRange(files, rest)
    ensures InRange(files, [i] + rest) && Total(files, [i] + rest) == RecLen(files[i].name) + Total(files, rest)
  {
    var all := [i] + rest;
    if rest == [] {
      assert all[..0] == [];
    } else {
      TotalFirst(files, i, rest[..|rest| - 1]);
      assert all[..|all| - 1] == [i] + rest[..|rest| - 1];
    }
  }

  // With room for the longest record, a call that takes nothing has no child left to take.
  lemma {:induction false} EmptyReadIsTheEnd(files: Files, used: nat, dir: nat, i: nat, room: int)
    requires Inv(files, used) && room >= MIN_BUFFER && Take(files, dir, i, room).0 == []
    ensures Children(files, dir, i) == []
    decreases |files| - i
  {
    if i < |files| {
      ChildNameFits(files, used, dir, i);
      if !IsChild(files, dir, i) {
        EmptyReadIsTheEnd(files, used, dir, i + 1, room);
      }
    }
  }

  lemma ChildNameFits(files: Files, used: nat, dir: nat, i: nat)
    requires Inv(files, used) && i < |files|
    ensures IsChild(files, dir, i) ==> ValidName(files[i].name) && RecLen(files[i].name) <= MIN_BUFFER
  {
    assert IsUsed(files, i) && i != 0 ==> Linked(files, i);
  }

  // ---- The buffer after a call ----

  // The k-th record lies right after the ones before it.
  ghost predicate RecordAt(b: seq<char>, files: Files, taken: seq<nat>, k: nat)
    requires k < |taken| && InRange(files, taken)
  {
    var pos := Total(files, taken[..k]);
    var e := EntryOf(files, taken[k]);
    && pos + RecLen(e.name) <= |b|
    && b[pos..pos + NAME_AT + |e.name| + 1] == Record(taken[k] + 1, pos + RecLen(e.name), e)
  }

  ghost predicate Encoded(b: seq<char>, files: Files, taken: seq<nat>) {
    InRange(files, taken) && forall k: nat :: k < |taken| ==> RecordAt(b, files, taken, k)
  }

  lemma {:induction false} TotalSteps(files: Files, taken: seq<nat>, k: nat)
    requires InRange(files, taken) && k < |taken|
    ensures Total(files, taken[..k]) + RecLen(files[taken[k]].name) == Total(files, taken[..k + 1])
    ensures Total(files, taken[..k + 1]) <= Total(files, taken)
    decreases |taken|
  {
    hide RecLen;
    var m := |taken| - 1;
    if k < m {
      TotalSteps(files, taken[..m], k);
      assert taken[..m][..k] == taken[..k] && taken[..m][..k + 1] == taken[..k + 1];
    } else {
      assert taken[..k + 1] == taken;
    }
  }

  lemma AddRecord(b: seq<char>, b': seq<char>, files: Files, taken: seq<nat>, i: nat)
    requires Encoded(b, files, taken) && i < |files| && |b'| == |b|
    requires
      var pos := Total(files, taken);
      var e := EntryOf(files, i);
      && pos + RecLen(e.name) <= |b|
      && b'[..pos] == b[..pos]
      && b'[pos..pos + NAME_AT + |e.name| + 1] == Record(i + 1, pos + RecLen(e.name), e)
    ensures Encoded(b', files, taken + [i])
    ensures Total(files, taken + [i]) == Total(files, taken) + RecLen(files[i].name)
  {
    hide Record, RecLen;
    var all := taken + [i];
    var pos := Total(files, taken);
    assert all[..|all| - 1] == taken;
    forall k: nat | k < |all| ensures RecordAt(b', files, all, k) {
      if k < |taken| {
        TotalSteps(files, taken, k);
        assert RecordAt(b, files, taken, k);
        OldRecordStays(b, b', files, taken, all, pos, k);
      }
    }
  }

  lemma {:induction false} OldRecordStays(b: seq<char>, b': seq<char>, files: Files, taken: seq<nat>, all: seq<nat>,
                                          pos: nat, k: nat)
    requires InRange(files, taken) && InRange(files, all) && k < |taken| <= |all| && taken == all[..|taken|]
    requires RecordAt(b, files, taken, k) && Total(files, taken[..k]) + RecLen(files[taken[k]].name) <= pos
    requires pos <= |b| == |b'| && b'[..pos] == b[..pos]
    ensures RecordAt(b', files, all, k)
  {
    hide Record, RecLen, Total;
    assert all[..k] == taken[..k];
    var p := Total(files, taken[..k]);
    var q := p + NAME_AT + |files[taken[k]].name| + 1;
    assert b'[p..q] == b'[..pos][p..q];
    assert b[p..q] == b[..pos][p..q];
  }

  // ---- Any number of calls, with any buffers ----

  // The inodes listed by successive calls with these buffer sizes, and where the last one stopped.
  function Reads(files: Files, dir: nat, i: nat, rooms: seq<int>): (seq<nat>, nat)
    decreases |rooms|
  {
    if rooms == [] then ([], i)
    else
      var (taken, next) := Take(files, dir, i, rooms[0]);
      var (more, last) := Reads(files, dir, next, rooms[1..]);
      (taken + more, last)
  }

  // However the records split across buffers of at least 56 bytes, the calls up to one that
  // returns 0 have listed every child exactly once, in inode order.
  lemma {:induction false} ReadsListEveryChild(files: Files, used: nat, dir: nat, i: nat, rooms: seq<int>, last: int)
    requires Inv(files, used) && last >= MIN_BUFFER
    requires Take(files, dir, Reads(files, dir, i, rooms).1, last).0 == []
    ensures Reads(files, dir, i, rooms).0 == Children(files, dir, i)
    decreases |rooms|
  {
    if rooms == [] {
      EmptyReadIsTheEnd(files, used, dir, i, last);
    } else {
      var (taken, next) := Take(files, dir, i, rooms[0]);
      TakeIsNextChildren(files, dir, i, rooms[0]);
      ReadsListEveryChild(files, used, dir, next, rooms[1..], last);
    }
  }
}
