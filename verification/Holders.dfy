/** Which address space or caller holds which heap block: the mm_struct and the VMAs of every live
    space (kernel/src/mm/vmm.c:3-105) and the blocks of other callers of kmalloc.
  */
module Holders {
  import opened Common
  import opened Pte
  import opened HeapSpec
  import HeapRuns
  import opened HeapUse
  import opened Vmm

  // The PML4 of the space that holds a pointer, 0 for a caller outside the spaces, and the size of
  // what lies there.
  datatype Holder = Holder(root: nat, size: nat)

  type Registry = map<nat, Holder>

  // The pointers of a space: those of its VMAs, then that of its mm_struct.
  datatype SpaceBlocks = SpaceBlocks(root: nat, ptrs: seq<nat>)

  function SizeAt(ptrs: seq<nat>, k: nat): nat {
    if k + 1 == |ptrs| then SIZEOF_MM else SIZEOF_VMA
  }

  ghost predicate Registered(holders: Registry, s: SpaceBlocks) {
    && s.root != 0 && s.ptrs != []
    && (forall i, j :: 0 <= i < j < |s.ptrs| ==> s.ptrs[i] != s.ptrs[j])
    && forall k :: 0 <= k < |s.ptrs| ==> s.ptrs[k] in holders && holders[s.ptrs[k]] == Holder(s.root, SizeAt(s.ptrs, k))
  }

  predicate ListedFor(sb: seq<SpaceBlocks>, others: map<nat, nat>, p: nat, h: Holder) {
    if h.root == 0 then p in others else exists i :: 0 <= i < |sb| && sb[i].root == h.root && p in sb[i].ptrs
  }

  ghost predicate AllRegistered(holders: Registry, sb: seq<SpaceBlocks>) {
    forall i :: 0 <= i < |sb| ==> Registered(holders, sb[i])
  }

  ghost predicate DistinctRoots(sb: seq<SpaceBlocks>) {
    forall i, j :: 0 <= i < j < |sb| ==> sb[i].root != sb[j].root
  }

  ghost predicate OthersRegistered(holders: Registry, others: map<nat, nat>) {
    forall p :: p in others ==> p in holders && holders[p] == Holder(0, others[p])
  }

  ghost predicate NothingElse(holders: Registry, sb: seq<SpaceBlocks>, others: map<nat, nat>) {
    forall p :: p in holders ==> ListedFor(sb, others, p, holders[p])
  }

  // Every pointer of a space or of another caller is registered for its holder alone, and nothing
  // else is registered.
  ghost predicate RegistryOk(holders: Registry, sb: seq<SpaceBlocks>, others: map<nat, nat>) {
    AllRegistered(holders, sb) && DistinctRoots(sb) && OthersRegistered(holders, others)
        && NothingElse(holders, sb, others)
  }

  function Sizes(holders: Registry): (s: map<nat, nat>)
    ensures s.Keys == holders.Keys
  {
    map p | p in holders :: holders[p].size
  }

  // Each holder has its own block, which is in use and large enough.
  ghost predicate HeapHeld(bs: seq<Block>, holders: Registry, sb: seq<SpaceBlocks>, others: map<nat, nat>) {
    RegistryOk(holders, sb, others) && AllInUse(bs, Sizes(holders))
  }

  // What any two holders' blocks have to do with each other: nothing.
  lemma {:induction false} HeldApart(bs: seq<Block>, lo: nat, hi: nat, holders: Registry, sb: seq<SpaceBlocks>,
                                     others: map<nat, nat>, p: nat, q: nat)
    requires HeapHeld(bs, holders, sb, others) && Tiles(bs, lo, hi) && p in holders && q in holders && p != q
    ensures p + holders[p].size + HEADER_SIZE <= q || q + holders[q].size + HEADER_SIZE <= p
  {
    hide InUse, Tiles;
    assert Sizes(holders)[p] == holders[p].size && Sizes(holders)[q] == holders[q].size;
    InUseDisjoint(bs, lo, hi, p, holders[p].size, q, holders[q].size);
  }

  // Different places of the spaces' lists hold different pointers.
  lemma {:induction false} PointersDiffer(holders: Registry, sb: seq<SpaceBlocks>, others: map<nat, nat>, i: nat,
                                          j: nat, k: nat, l: nat)
    requires RegistryOk(holders, sb, others) && i < |sb| && k < |sb| && j < |sb[i].ptrs| && l < |sb[k].ptrs|
    requires i != k || j != l
    ensures sb[i].ptrs[j] in holders && sb[k].ptrs[l] in holders && sb[i].ptrs[j] != sb[k].ptrs[l]
  {
    assert Registered(holders, sb[i]) && Registered(holders, sb[k]);
    if i != k {
      DifferentRoots(sb, i, k);
    }
  }

  lemma {:induction false} NothingHeld(bs: seq<Block>)
    ensures HeapHeld(bs, map[], [], map[])
  {
  }

  lemma {:induction false} NewIsUnheld(bs0: seq<Block>, holders: Registry, p: nat)
    requires AllInUse(bs0, Sizes(holders)) && !InUse(bs0, p, 0)
    ensures p !in holders
  {
    hide InUse;
    if p in holders {
      Lesser(bs0, p, Sizes(holders)[p]);
    }
  }

  // kmalloc calls only: everybody keeps what he has.
  lemma {:induction false} HeldThroughGrowth(bs0: seq<Block>, bs1: seq<Block>, holders: Registry, sb: seq<SpaceBlocks>,
                                             others: map<nat, nat>)
    requires HeapHeld(bs0, holders, sb, others) && UsedKept(bs0, bs1)
    ensures HeapHeld(bs1, holders, sb, others)
  {
    hide InUse, RegistryOk;
  }

  // ---- New holders ----

  ghost predicate Extends(holders: Registry, holders': Registry) {
    forall p :: p in holders ==> p in holders' && holders'[p] == holders[p]
  }

  lemma {:induction false} RegisteredStays(holders: Registry, holders': Registry, s: SpaceBlocks)
    requires Registered(holders, s) && forall p :: p in s.ptrs ==> p in holders' && holders'[p] == holders[p]
    ensures Registered(holders', s)
  {
  }

  lemma {:induction false} AllStay(holders: Registry, holders': Registry, sb: seq<SpaceBlocks>, others: map<nat, nat>)
    requires Extends(holders, holders')
    ensures AllRegistered(holders, sb) ==> AllRegistered(holders', sb)
    ensures OthersRegistered(holders, others) ==> OthersRegistered(holders', others)
  {
    hide Registered;
    if AllRegistered(holders, sb) {
      forall i | 0 <= i < |sb| ensures Registered(holders', sb[i]) {
        PtrsIn(holders, sb[i]);
        RegisteredStays(holders, holders', sb[i]);
      }
    }
  }

  lemma {:induction false} PtrsIn(holders: Registry, s: SpaceBlocks)
    requires Registered(holders, s)
    ensures forall p :: p in s.ptrs ==> p in holders && holders[p].root == s.root
  {
  }

  // The new holders' blocks and the old ones are in use.
  lemma {:induction false} InUseTogether(bs0: seq<Block>, bs1: seq<Block>, holders: Registry, holders': Registry)
    requires AllInUse(bs0, Sizes(holders)) && UsedKept(bs0, bs1) && Extends(holders, holders')
    requires forall p :: p in holders' && p !in holders ==> InUse(bs1, p, holders'[p].size)
    ensures AllInUse(bs1, Sizes(holders'))
  {
    hide InUse;
    forall p | p in holders' ensures InUse(bs1, p, Sizes(holders')[p]) {
      if p in holders {
        assert InUse(bs0, p, Sizes(holders)[p]);
      }
    }
  }

  function WithSpace(holders: Registry, root: nat, p: nat): Registry { holders[p := Holder(root, SIZEOF_MM)] }

  lemma {:induction false} SpaceAdded(bs0: seq<Block>, bs1: seq<Block>, holders: Registry, sb: seq<SpaceBlocks>,
                                      others: map<nat, nat>, root: nat, p: nat)
    requires HeapHeld(bs0, holders, sb, others) && UsedKept(bs0, bs1) && NewlyUsed(bs0, bs1, p, SIZEOF_MM)
    requires root != 0 && forall i :: 0 <= i < |sb| ==> sb[i].root != root
    ensures HeapHeld(bs1, WithSpace(holders, root, p), sb + [SpaceBlocks(root, [p])], others)
    ensures Rest(WithSpace(holders, root, p), root) == holders && p !in holders
  {
    hide InUse, Registered, ListedFor, UsedKept, AllInUse;
    NewIsUnheld(bs0, holders, p);
    var holders', s, sb' := WithSpace(holders, root, p), SpaceBlocks(root, [p]), sb + [SpaceBlocks(root, [p])];
    AllStay(holders, holders', sb, others);
    InUseTogether(bs0, bs1, holders, holders');
    OnePointer(holders', root, p);
    forall q | q in holders' ensures ListedFor(sb', others, q, holders'[q]) {
      if q == p {
        ListedHere(sb', others, |sb|, p, holders'[p]);
      } else {
        StillListed(sb, sb', others, others, q, holders[q]);
      }
    }
    forall q | q in holders ensures holders[q].root != root {
      NotHis(sb, others, q, holders[q], root);
    }
  }

  lemma {:induction false} OnePointer(holders: Registry, root: nat, p: nat)
    requires root != 0 && p in holders && holders[p] == Holder(root, SIZEOF_MM)
    ensures Registered(holders, SpaceBlocks(root, [p]))
  {
  }

  lemma ListedHere(sb: seq<SpaceBlocks>, others: map<nat, nat>, i: nat, p: nat, h: Holder)
    requires i < |sb| && sb[i].root == h.root != 0 && p in sb[i].ptrs
    ensures ListedFor(sb, others, p, h)
  {
  }

  lemma NotHis(sb: seq<SpaceBlocks>, others: map<nat, nat>, q: nat, h: Holder, root: nat)
    requires ListedFor(sb, others, q, h) && root != 0 && forall i :: 0 <= i < |sb| ==> sb[i].root != root
    ensures h.root != root
  {
  }

  // A longer list, or one with more pointers at its places, lists what the old one did.
  lemma StillListed(sb: seq<SpaceBlocks>, sb': seq<SpaceBlocks>, others: map<nat, nat>, others': map<nat, nat>, q: nat,
                    h: Holder)
    requires ListedFor(sb, others, q, h) && |sb| <= |sb'| && (q in others ==> q in others')
    requires forall i :: 0 <= i < |sb| ==> sb'[i].root == sb[i].root && (q in sb[i].ptrs ==> q in sb'[i].ptrs)
    ensures ListedFor(sb', others', q, h)
  {
    if h.root != 0 {
      var i :| 0 <= i < |sb| && sb[i].root == h.root && q in sb[i].ptrs;
      assert sb'[i].root == h.root && q in sb'[i].ptrs;
    }
  }

  // The blocks of new VMAs.
  function WithVmas(holders: Registry, root: nat, ps: seq<nat>): (r: Registry)
    ensures forall p :: p in r <==> p in holders || p in ps
    ensures forall p :: p in r ==> r[p] == if p in ps then Holder(root, SIZEOF_VMA) else holders[p]
  {
    holders + map p | p in ps :: Holder(root, SIZEOF_VMA)
  }

  lemma NoVmas(holders: Registry, root: nat)
    ensures WithVmas(holders, root, []) == holders
  {
  }

  lemma {:induction false} VmasAdded(bs0: seq<Block>, bs1: seq<Block>, holders: Registry, sb: seq<SpaceBlocks>,
                                     others: map<nat, nat>, i: nat, before: seq<nat>, ps: seq<nat>, block: nat)
    requires HeapHeld(bs0, holders, sb, others) && UsedKept(bs0, bs1) && AllNew(bs0, bs1, ps, SIZEOF_VMA)
    requires i < |sb| && sb[i].ptrs == before + [block]
    ensures HeapHeld(bs1, WithVmas(holders, sb[i].root, ps), sb[i := SpaceBlocks(sb[i].root, before + ps + [block])],
                     others)
  {
    hide InUse, Registered, ListedFor, UsedKept, AllInUse, WithVmas;
    var root, ptrs := sb[i].root, before + ps + [block];
    var holders', sb' := WithVmas(holders, root, ps), sb[i := SpaceBlocks(root, ptrs)];
    forall p | p in ps ensures p !in holders {
      assert NewlyUsed(bs0, bs1, p, SIZEOF_VMA);
      NewIsUnheld(bs0, holders, p);
    }
    AllStay(holders, holders', sb, others);
    forall p | p in ps ensures InUse(bs1, p, SIZEOF_VMA) {
      assert NewlyUsed(bs0, bs1, p, SIZEOF_VMA);
    }
    InUseTogether(bs0, bs1, holders, holders');
    assert sb[i] == SpaceBlocks(root, before + [block]);
    PointersAdded(holders, root, before, ps, block);
    RootIsSome(holders, sb[i]);
    forall q | q in holders' ensures ListedFor(sb', others, q, holders'[q]) {
      if q in ps {
        ListedHere(sb', others, i, q, holders'[q]);
      } else {
        assert q in before + [block] ==> q in ptrs;
        StillListed(sb, sb', others, others, q, holders[q]);
      }
    }
  }

  lemma {:induction false} RootIsSome(holders: Registry, s: SpaceBlocks)
    requires Registered(holders, s)
    ensures s.root != 0
  {
  }

  lemma {:induction false} PointersAdded(holders: Registry, root: nat, before: seq<nat>, ps: seq<nat>, block: nat)
    requires Registered(holders, SpaceBlocks(root, before + [block]))
    requires (forall i, j :: 0 <= i < j < |ps| ==> ps[i] != ps[j]) && forall p :: p in ps ==> p !in holders
    ensures Registered(WithVmas(holders, root, ps), SpaceBlocks(root, before + ps + [block]))
  {
    hide WithVmas;
    var was, ptrs, holders' := before + [block], before + ps + [block], WithVmas(holders, root, ps);
    forall k | 0 <= k < |ptrs| ensures ptrs[k] in holders' && holders'[ptrs[k]] == Holder(root, SizeAt(ptrs, k)) {
      PlaceOf(before, ps, block, k);
      if !(|before| <= k < |before| + |ps|) {
        assert was[if k < |before| then k else |before|] in holders;
      }
    }
    forall i, j | 0 <= i < j < |ptrs| ensures ptrs[i] != ptrs[j] {
      PlaceOf(before, ps, block, i);
      PlaceOf(before, ps, block, j);
    }
  }

  // Where pointer k of the longer list comes from.
  lemma PlaceOf(before: seq<nat>, ps: seq<nat>, block: nat, k: nat)
    requires k < |before + ps + [block]|
    ensures var p := (before + ps + [block])[k];
            if |before| <= k < |before| + |ps| then p == ps[k - |before|] && p in ps
            else p == (before + [block])[if k < |before| then k else |before|]
  {
  }

  function WithOther(holders: Registry, p: nat, size: nat): Registry { holders[p := Holder(0, size)] }

  lemma {:induction false} OtherAdded(bs0: seq<Block>, bs1: seq<Block>, holders: Registry, sb: seq<SpaceBlocks>,
                                      others: map<nat, nat>, p: nat, size: nat)
    requires HeapHeld(bs0, holders, sb, others) && UsedKept(bs0, bs1) && NewlyUsed(bs0, bs1, p, size)
    ensures HeapHeld(bs1, WithOther(holders, p, size), sb, others[p := size])
  {
    hide InUse, Registered, ListedFor, UsedKept, AllInUse;
    NewIsUnheld(bs0, holders, p);
    var holders' := WithOther(holders, p, size);
    AllStay(holders, holders', sb, others);
    InUseTogether(bs0, bs1, holders, holders');
    forall q | q in holders' ensures ListedFor(sb, others[p := size], q, holders'[q]) {
      if q == p {
        ListedAsOther(sb, others[p := size], p, holders'[p]);
      } else {
        StillListed(sb, sb, others, others[p := size], q, holders[q]);
      }
    }
  }

  lemma ListedAsOther(sb: seq<SpaceBlocks>, others: map<nat, nat>, p: nat, h: Holder)
    requires h.root == 0 && p in others
    ensures ListedFor(sb, others, p, h)
  {
  }

  // ---- Holders that give everything back ----

  // The registry without the space `root`.
  function Rest(holders: Registry, root: nat): (rest: Registry)
    ensures forall p :: p in rest <==> p in holders && holders[p].root != root
    ensures forall p :: p in rest ==> rest[p] == holders[p]
  {
    map p | p in holders && holders[p].root != root :: holders[p]
  }

  lemma {:induction false} SpaceDropped(holders: Registry, sb: seq<SpaceBlocks>, others: map<nat, nat>, i: nat)
    requires RegistryOk(holders, sb, others) && i < |sb|
    ensures RegistryOk(Rest(holders, sb[i].root), sb[..i] + sb[i + 1..], others)
    ensures forall p :: p in sb[i].ptrs <==> p in holders && p !in Rest(holders, sb[i].root)
  {
    hide Registered, ListedFor, Rest;
    var root, sb' := sb[i].root, sb[..i] + sb[i + 1..];
    var rest := Rest(holders, root);
    PtrsIn(holders, sb[i]);
    RootIsSome(holders, sb[i]);
    forall j | 0 <= j < |sb'| ensures Registered(rest, sb'[j]) {
      var k := if j < i then j else j + 1;
      assert sb'[j] == sb[k];
      PtrsIn(holders, sb[k]);
      RegisteredStays(holders, rest, sb[k]);
    }
    forall p | p in rest ensures ListedFor(sb', others, p, rest[p]) {
      ListedWithout(sb, others, i, p, holders[p]);
    }
    forall p | p in holders && holders[p].root == root ensures p in sb[i].ptrs {
      ListedOnce(sb, others, i, p, holders[p]);
    }
  }

  lemma ListedWithout(sb: seq<SpaceBlocks>, others: map<nat, nat>, i: nat, p: nat, h: Holder)
    requires ListedFor(sb, others, p, h) && i < |sb| && h.root != sb[i].root
    ensures ListedFor(sb[..i] + sb[i + 1..], others, p, h)
  {
    if h.root != 0 {
      var k :| 0 <= k < |sb| && sb[k].root == h.root && p in sb[k].ptrs;
      assert (sb[..i] + sb[i + 1..])[if k < i then k else k - 1] == sb[k];
    }
  }

  lemma ListedOnce(sb: seq<SpaceBlocks>, others: map<nat, nat>, i: nat, p: nat, h: Holder)
    requires ListedFor(sb, others, p, h) && DistinctRoots(sb) && i < |sb| && sb[i].root == h.root != 0
    ensures p in sb[i].ptrs
  {
    var k :| 0 <= k < |sb| && sb[k].root == h.root && p in sb[k].ptrs;
    if k != i {
      DifferentRoots(sb, i, k);
    }
  }

  lemma DifferentRoots(sb: seq<SpaceBlocks>, i: nat, k: nat)
    requires DistinctRoots(sb) && i < |sb| && k < |sb| && i != k
    ensures sb[i].root != sb[k].root
  {
    if k < i {
      assert sb[k].root != sb[i].root;
    }
  }

  lemma {:induction false} RestInUse(bs: seq<Block>, holders: Registry, root: nat)
    requires AllInUse(bs, Sizes(holders))
    ensures AllInUse(bs, Sizes(Rest(holders, root)))
  {
    hide InUse;
    forall p | p in Rest(holders, root) ensures InUse(bs, p, Sizes(Rest(holders, root))[p]) {
      assert InUse(bs, p, Sizes(holders)[p]);
    }
  }

  // A space gives back all its blocks: the others keep theirs if and only if every kfree is careful.
  lemma {:induction false} SpaceReleased(bs0: seq<Block>, lo: nat, hi: nat, bs1: seq<Block>, holders: Registry,
                                         sb: seq<SpaceBlocks>, others: map<nat, nat>, i: nat)
    requires HeapHeld(bs0, holders, sb, others) && i < |sb| && Tiles(bs0, lo, hi)
              && bs1 == HeapRuns.FreeEach(bs0, sb[i].ptrs)
    ensures var rest := Rest(holders, sb[i].root);
            && (AllInUse(bs1, Sizes(rest)) <==> Careful(bs0, sb[i].ptrs, rest.Keys))
            && (Careful(bs0, sb[i].ptrs, rest.Keys) ==> HeapHeld(bs1, rest, sb[..i] + sb[i + 1..], others))
  {
    hide InUse, Careful, HeapRuns.FreeEach, Tiles, RegistryOk, AllInUse;
    SpaceDropped(holders, sb, others, i);
    RestInUse(bs0, holders, sb[i].root);
    FreesKeepIff(bs0, lo, hi, sb[i].ptrs, Sizes(Rest(holders, sb[i].root)));
  }

  lemma {:induction false} OtherDropped(holders: Registry, sb: seq<SpaceBlocks>, others: map<nat, nat>, p: nat)
    requires RegistryOk(holders, sb, others) && p in others
    ensures RegistryOk(holders - {p}, sb, others - {p}) && holders[p].root == 0
  {
    hide Registered, ListedFor;
    var rest := holders - {p};
    forall i | 0 <= i < |sb| ensures Registered(rest, sb[i]) {
      PtrsIn(holders, sb[i]);
      RootIsSome(holders, sb[i]);
      RegisteredStays(holders, rest, sb[i]);
    }
    forall q | q in rest ensures ListedFor(sb, others - {p}, q, rest[q]) {
      StillListed(sb, sb, others, others - {p}, q, holders[q]);
    }
  }

  // Another caller gives back one block.
  lemma {:induction false} OtherReleased(bs0: seq<Block>, lo: nat, hi: nat, bs1: seq<Block>, holders: Registry,
                                         sb: seq<SpaceBlocks>, others: map<nat, nat>, p: nat)
    requires HeapHeld(bs0, holders, sb, others) && p in others && Tiles(bs0, lo, hi)
              && bs1 == HeapRuns.FreeEach(bs0, [p])
    ensures var rest := holders - {p};
            && (AllInUse(bs1, Sizes(rest)) <==> Careful(bs0, [p], rest.Keys))
            && (Careful(bs0, [p], rest.Keys) ==> HeapHeld(bs1, rest, sb, others - {p}))
  {
    hide InUse, Careful, HeapRuns.FreeEach, Tiles, RegistryOk;
    OtherDropped(holders, sb, others, p);
    var rest := holders - {p};
    forall q | q in rest ensures InUse(bs0, q, Sizes(rest)[q]) {
      assert InUse(bs0, q, Sizes(holders)[q]);
    }
    FreesKeepIff(bs0, lo, hi, [p], Sizes(rest));
  }

  // An operation that fails gives back what it got: the holders keep their blocks if and only if its
  // kfree calls are careful.
  lemma {:induction false} FailureReleased(bs0: seq<Block>, mid: seq<Block>, ps: seq<nat>, bs1: seq<Block>,
                                           mine: set<nat>, holders: Registry, sb: seq<SpaceBlocks>,
                                           others: map<nat, nat>)
    requires HeapHeld(bs0, holders, sb, others) && OwnFrees(bs0, mid, ps, bs1, mine)
    requires forall p :: p in holders ==> p !in mine
    ensures AllInUse(bs1, Sizes(holders)) <==> Careful(mid, ps, holders.Keys)
    ensures Careful(mid, ps, holders.Keys) ==> HeapHeld(bs1, holders, sb, others)
  {
    hide InUse, Careful, OwnFrees, RegistryOk, AllInUse;
    OthersKeepIff(bs0, mid, ps, bs1, mine, Sizes(holders));
  }
}
