/** Context switching over whole runs: processes with disjoint kernel stacks, switching in any
    order, and the stack that sys_fork prepares for a child (kernel/src/arch/switch.S:6-33,
    kernel/src/proc/proc.c:344-366, kernel/src/proc/entry.S:10-34).
  */
module Interleave {
  import opened Isa
  import opened Switch

  // A process's kernel stack occupies [low, high); slot is the address of its pcb's context field.
  datatype Stack = Stack(low: int, high: int, slot: int) {
    predicate Holds(a: int) { low <= a < high }
  }

  type Layout = map<int, Stack>

  predicate Apart(s: Stack, t: Stack) {
    (s.high <= t.low || t.high <= s.low) && s.slot != t.slot && !s.Holds(t.slot) && !t.Holds(s.slot)
  }

  ghost predicate Laid(l: Layout) {
    && (forall p, q :: p in l && q in l && p != q ==> Apart(l[p], l[q]))
    && (forall p :: p in l ==> !l[p].Holds(l[p].slot))
  }

  // asleep gives, for each suspended process, the core as it was when the process was suspended
  // or created.
  datatype Kernel = Kernel(core: Core, current: int, asleep: map<int, Core>)

  datatype Action =
    | Work(c: Core)                  // the current process runs kernel or user code
    | Leave(next: int, ra: int)  // it calls switch_to and would return to ra
    | Spawn(p: int)                  // it has prepared a context for p

  // The words of a sleeping process are those of its image, and its slot points to a context
  // inside its stack.
  ghost predicate Kept(s: Stack, image: Core, c: Core) {
    && (forall a :: s.Holds(a) ==> c.Load(a) == image.Load(a))
    && c.Load(s.slot) == image.Load(s.slot)
    && s.low <= image.Load(s.slot) <= s.high - CONTEXT_SIZE
  }

  ghost predicate Good(l: Layout, k: Kernel) {
    && Laid(l)
    && k.current in l && k.current !in k.asleep
    && forall p :: p in k.asleep ==> p in l && Kept(l[p], k.asleep[p], k.core)
  }

  // Each process writes only its own stack and memory that is no stack and no context field.
  ghost predicate Enabled(l: Layout, k: Kernel, a: Action) {
    match a
    case Work(c) => forall p :: p in k.asleep && p in l ==> Untouched(l[p], k.core, c)
    case Leave(next, ra) =>
      && next in k.asleep && k.current in l
      && l[k.current].low <= k.core.rsp - CONTEXT_SIZE && k.core.rsp <= l[k.current].high
    case Spawn(p) =>
      && p in l && p !in k.asleep && p != k.current
      && l[p].low <= k.core.Load(l[p].slot) <= l[p].high - CONTEXT_SIZE
  }

  ghost predicate Untouched(s: Stack, c: Core, d: Core) {
    d.Load(s.slot) == c.Load(s.slot) && forall a :: s.Holds(a) ==> d.Load(a) == c.Load(a)
  }

  ghost function Step(l: Layout, k: Kernel, a: Action): Kernel
    requires Enabled(l, k, a)
    requires Good(l, k)
  {
    match a
    case Work(c) => k.(core := c)
    case Leave(next, ra) =>
      var d := Switched(l, k, next, ra);
      Kernel(d, next, (k.asleep - {next})[k.current := d])
    case Spawn(p) => k.(asleep := k.asleep[p := k.core])
  }

  function Switched(l: Layout, k: Kernel, next: int, ra: int): Core
    requires next in l && k.current in l
  {
    Run(CallSwitch(k.core, l[k.current].slot, k.core.Load(l[next].slot), ra), SwitchTo())
  }

  // ---- One switch ----

  lemma {:induction false} SwitchKeeps(l: Layout, k: Kernel, next: int, ra: int)
    requires Good(l, k) && Enabled(l, k, Leave(next, ra))
    ensures
      var d := Switched(l, k, next, ra);
      && Live(d) == ContextAt(k.core, k.core.Load(l[next].slot))
      && d.Load(l[k.current].slot) == k.core.rsp - CONTEXT_SIZE
      && ContextAt(d, k.core.rsp - CONTEXT_SIZE) == Live(k.core).(rdi := l[k.current].slot, rip := ra)
      && (forall a :: k.core.rsp <= a < l[k.current].high ==> d.Load(a) == k.core.Load(a))
      && (forall p :: p in l && p != k.current ==> Untouched(l[p], k.core, d))
  {
    hide Run, SwitchTo, Core.Load, Live, ContextAt;
    var s, t := l[k.current], l[next];
    assert Apart(s, t) && Kept(t, k.asleep[next], k.core);
    SwitchOnce(k.core, s.slot, k.core.Load(t.slot), ra);
    forall p | p in l && p != k.current ensures Untouched(l[p], k.core, Switched(l, k, next, ra)) {
      assert Apart(s, l[p]);
    }
  }

  lemma {:induction false} StepKeepsGood(l: Layout, k: Kernel, a: Action)
    requires Good(l, k) && Enabled(l, k, a)
    ensures Good(l, Step(l, k, a))
  {
    hide Switched, Core.Load;
    var k' := Step(l, k, a);
    if a.Leave? {
      SwitchKeeps(l, k, a.next, a.ra);
    }
    forall p | p in k'.asleep ensures p in l && Kept(l[p], k'.asleep[p], k'.core) {
      if p in k.asleep {
        assert Kept(l[p], k.asleep[p], k.core);
        if a.Leave? { assert Untouched(l[p], k.core, k'.core); }
      }
    }
  }

  // ---- Whole runs ----

  ghost predicate CanRun(l: Layout, k: Kernel, acts: seq<Action>)
    decreases |acts|
  {
    Good(l, k) && (acts == [] || (Enabled(l, k, acts[0]) && CanRun(l, Step(l, k, acts[0]), acts[1..])))
  }

  ghost function After(l: Layout, k: Kernel, acts: seq<Action>): Kernel
    requires CanRun(l, k, acts)
    decreases |acts|
  {
    if acts == [] then k else After(l, Step(l, k, acts[0]), acts[1..])
  }

  // No action of the run resumes p.
  predicate Sleeps(p: int, acts: seq<Action>) {
    forall i :: 0 <= i < |acts| ==> !(acts[i].Leave? && acts[i].next == p)
  }

  lemma {:induction false} SleepersKeepTheirStack(l: Layout, k: Kernel, acts: seq<Action>, p: int)
    requires CanRun(l, k, acts) && p in k.asleep && Sleeps(p, acts)
    ensures
      var k' := After(l, k, acts);
      Good(l, k') && p in k'.asleep && k'.asleep[p] == k.asleep[p]
    decreases |acts|
  {
    if acts != [] {
      var k1 := Step(l, k, acts[0]);
      assert k1.asleep[p] == k.asleep[p];
      assert Sleeps(p, acts[1..]) by {
        forall i | 0 <= i < |acts[1..]| ensures !(acts[1..][i].Leave? && acts[1..][i].next == p) {
          assert acts[1..][i] == acts[i + 1];
        }
      }
      SleepersKeepTheirStack(l, k1, acts[1..], p);
    }
  }

  // The round trip. The current process calls switch_to; anything may happen in which it is not
  // resumed; when it is, its callee-saved registers, its stack pointer, the return address and
  // every word of its stack above the call are those it left with.
  lemma {:induction false} ComesBack(l: Layout, k: Kernel, next: int, ra: int, acts: seq<Action>, ra': int)
    requires Good(l, k) && Enabled(l, k, Leave(next, ra))
    requires CanRun(l, Step(l, k, Leave(next, ra)), acts) && Sleeps(k.current, acts)
    requires Enabled(l, After(l, Step(l, k, Leave(next, ra)), acts), Leave(k.current, ra'))
    ensures
      var back := Switched(l, After(l, Step(l, k, Leave(next, ra)), acts), k.current, ra');
      && Live(back) == Live(k.core).(rdi := l[k.current].slot, rip := ra)
      && forall a :: k.core.rsp <= a < l[k.current].high ==> back.Load(a) == k.core.Load(a)
  {
    hide Switched, Core.Load, Live, ContextAt;
    var p := k.current;
    var k1 := Step(l, k, Leave(next, ra));
    var k2 := After(l, k1, acts);
    SwitchKeeps(l, k, next, ra);
    SleepersKeepTheirStack(l, k1, acts, p);
    assert Kept(l[p], k1.core, k2.core);
    SwitchKeeps(l, k2, p, ra');
    assert Untouched(l[p], k2.core, Switched(l, k2, p, ra'));
    SameContext(k1.core, k2.core, k.core.rsp - CONTEXT_SIZE);
  }

  lemma {:induction false} SameContext(c: Core, d: Core, a: int)
    requires forall b :: a <= b < a + CONTEXT_SIZE ==> d.Load(b) == c.Load(b)
    ensures ContextAt(d, a) == ContextAt(c, a)
  {
    hide Core.Load;
  }

  lemma {:induction false} SameFrame(c: Core, d: Core, a: int)
    requires forall b :: a <= b < a + TRAP_FRAME_SIZE ==> d.Load(b) == c.Load(b)
    ensures FrameAt(d, a) == FrameAt(c, a)
  {
    hide Core.Load;
  }

  // ---- fork ----

  // A structure assignment of n words.
  function CopyWords(c: Core, from: int, to: int, n: nat): (d: Core)
    requires from + 8 * n <= to || to + 8 * n <= from
    ensures d == c.(mem := d.mem)
    ensures forall i :: 0 <= i < n ==> d.Load(to + 8 * i) == c.Load(from + 8 * i)
    ensures forall a :: a < to || to + 8 * n <= a ==> d.Load(a) == c.Load(a)
  {
    if n == 0 then c
    else
      var e := CopyWords(c, from, to, n - 1);
      e.(mem := e.mem[to + 8 * (n - 1) := e.Load(from + 8 * (n - 1))])
  }

  /** The stack part of sys_fork: a copy of the parent's trap frame with rax = 0 at the top of the
      child's stack, and below it a context in which only the return address is written.
    */
  method ForkStack(cpu: Cpu, parentTf: int, top: int, slot: int, forkRet: int)
    requires parentTf + TRAP_FRAME_SIZE <= top - TRAP_FRAME_SIZE - CONTEXT_SIZE || top <= parentTf
    requires slot < top - TRAP_FRAME_SIZE - CONTEXT_SIZE || top <= slot
    modifies cpu
    ensures Forked(old(cpu.core), cpu.core, parentTf, top, slot, forkRet)
  {
    hide FrameAt, Core.Load;
    var childTf := top - TRAP_FRAME_SIZE;
    var context := childTf - CONTEXT_SIZE;
    ghost var c0 := cpu.core;
    cpu.core := CopyWords(cpu.core, parentTf, childTf, 22);
    ghost var c1 := cpu.core;
    CopiedFrame(c0, c1, parentTf, childTf);
    cpu.core := cpu.core.Store(childTf + RAX_OFFSET, 0);
    ghost var c2 := cpu.core;
    StoreRax(c1, childTf);
    cpu.core := cpu.core.Store(context + 56, forkRet);
    ghost var c3 := cpu.core;
    StoreOne(c2, context + 56, forkRet);
    SameFrame(c2, c3, childTf);
    cpu.core := cpu.core.Store(slot, context);
    StoreOne(c3, slot, context);
    SameFrame(c3, cpu.core, childTf);
  }

  lemma {:induction false} StoreOne(c: Core, a: int, v: int)
    ensures c.Store(a, v) == c.(mem := c.Store(a, v).mem)
    ensures c.Store(a, v).Load(a) == v && forall b :: b != a ==> c.Store(a, v).Load(b) == c.Load(b)
  {
  }

  lemma {:induction false} StoreRax(c: Core, a: int)
    ensures FrameAt(c.Store(a + RAX_OFFSET, 0), a) == FrameAt(c, a).(rax := 0)
    ensures forall b :: b < a || a + TRAP_FRAME_SIZE <= b ==> c.Store(a + RAX_OFFSET, 0).Load(b) == c.Load(b)
    ensures c.Store(a + RAX_OFFSET, 0) == c.(mem := c.Store(a + RAX_OFFSET, 0).mem)
  {
    hide Core.Load, Core.Store;
    StoreOne(c, a + RAX_OFFSET, 0);
  }

  lemma {:induction false} CopiedFrame(c: Core, d: Core, from: int, to: int)
    requires forall i :: 0 <= i < 22 ==> d.Load(to + 8 * i) == c.Load(from + 8 * i)
    ensures FrameAt(d, to) == FrameAt(c, from)
  {
    hide Core.Load;
    assert d.Load(to + 8 * 0) == c.Load(from + 8 * 0) && d.Load(to + 8 * 1) == c.Load(from + 8 * 1);
    assert d.Load(to + 8 * 2) == c.Load(from + 8 * 2) && d.Load(to + 8 * 3) == c.Load(from + 8 * 3);
    assert d.Load(to + 8 * 4) == c.Load(from + 8 * 4) && d.Load(to + 8 * 5) == c.Load(from + 8 * 5);
    assert d.Load(to + 8 * 6) == c.Load(from + 8 * 6) && d.Load(to + 8 * 7) == c.Load(from + 8 * 7);
    assert d.Load(to + 8 * 8) == c.Load(from + 8 * 8) && d.Load(to + 8 * 9) == c.Load(from + 8 * 9);
    assert d.Load(to + 8 * 10) == c.Load(from + 8 * 10) && d.Load(to + 8 * 11) == c.Load(from + 8 * 11);
    assert d.Load(to + 8 * 12) == c.Load(from + 8 * 12) && d.Load(to + 8 * 13) == c.Load(from + 8 * 13);
    assert d.Load(to + 8 * 14) == c.Load(from + 8 * 14) && d.Load(to + 8 * 15) == c.Load(from + 8 * 15);
    assert d.Load(to + 8 * 16) == c.Load(from + 8 * 16) && d.Load(to + 8 * 17) == c.Load(from + 8 * 17);
    assert d.Load(to + 8 * 18) == c.Load(from + 8 * 18) && d.Load(to + 8 * 19) == c.Load(from + 8 * 19);
    assert d.Load(to + 8 * 20) == c.Load(from + 8 * 20) && d.Load(to + 8 * 21) == c.Load(from + 8 * 21);
  }

  // What sys_fork leaves behind; seven of the context's eight words are whatever they were.
  ghost predicate Forked(c: Core, d: Core, parentTf: int, top: int, slot: int, forkRet: int) {
    var childTf := top - TRAP_FRAME_SIZE;
    var context := childTf - CONTEXT_SIZE;
    && d == c.(mem := d.mem)
    && FrameAt(d, childTf) == FrameAt(c, parentTf).(rax := 0)
    && d.Load(context + 56) == forkRet
    && d.Load(slot) == context
    && forall a :: a != slot && a != context + 56 && (a < childTf || top <= a) ==> d.Load(a) == c.Load(a)
  }

  lemma {:induction false} ContextRip(c: Core, a: int)
    ensures ContextAt(c, a).rip == c.Load(a + 56) && ContextAt(c, a).rsp == a + CONTEXT_SIZE
  {
  }

  lemma {:induction false} LiveRip(c: Core)
    ensures Live(c).rip == c.rip && Live(c).rsp == c.rsp
  {
  }

  lemma {:induction false} ForkRetIsStubExit()
    ensures ForkRet() == StubExit()
  {
  }

  // A user's registers seen with another interrupt number.
  lemma {:induction false} FrameOfUser(u: Core)
    ensures UserView(u, 0) == UserView(u, 128).(int_no := 0)
    ensures UserView(u, 128).err_code == 0
  {
  }

  // fork returns twice: a user program u traps; fork prepares the child's stack from u's frame;
  // after any interleaving the child is dispatched, runs fork_ret_entry, and its registers are
  // those of u at the trap except rax = 0, whatever the unwritten words of its context held.
  lemma {:induction false} ChildReturnsFromFork(u: Core, forking: Core, l: Layout, k: Kernel, parentTf: int, child: int,
                                                forkRet: int, acts: seq<Action>, ra: int)
    requires child in l && FrameAt(forking, parentTf) == UserView(u, 128)
    requires Forked(forking, k.core, parentTf, l[child].high, l[child].slot, forkRet)
    requires Good(l, k) && Enabled(l, k, Spawn(child))
    requires CanRun(l, Step(l, k, Spawn(child)), acts) && Sleeps(child, acts)
    requires Enabled(l, After(l, Step(l, k, Spawn(child)), acts), Leave(child, ra))
    ensures
      var d := Switched(l, After(l, Step(l, k, Spawn(child)), acts), child, ra);
      d.rip == forkRet && UserView(Run(d, ForkRet()), 0) == UserView(u, 0).(rax := 0)
  {
    hide Switched, Core.Load, Live, ContextAt, FrameAt, UserView, Run, ForkRet;
    var k1 := Step(l, k, Spawn(child));
    var k2 := After(l, k1, acts);
    var s := l[child];
    var childTf := s.high - TRAP_FRAME_SIZE;
    SleepersKeepTheirStack(l, k1, acts, child);
    assert Kept(s, k.core, k2.core);
    SwitchKeeps(l, k2, child, ra);
    var d := Switched(l, k2, child, ra);
    assert Untouched(s, k2.core, d);
    SameFrame(k.core, d, childTf);
    LiveRip(d);
    ContextRip(k2.core, childTf - CONTEXT_SIZE);
    ForkRetIsStubExit();
    ExitLoadsFrame(d);
    FrameOfUser(u);
  }
}
