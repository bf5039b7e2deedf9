/** Trap frames and context switches: kernel/src/arch/isr.S:65-113, kernel/src/arch/switch.S:6-33,
    kernel/src/proc/entry.S:10-34, the layouts in kernel/src/arch/trap.h, and the stack that
    sys_fork builds for a child (kernel/src/proc/proc.c:344-366).
  */
module Switch {
  import opened Isa

  // ---- Layouts (trap.h) ----

  const TRAP_FRAME_SIZE := 176
  const CONTEXT_SIZE := 64

  datatype TrapFrame = TrapFrame(
    r15: int, r14: int, r13: int, r12: int, r11: int, r10: int, r9: int, r8: int,
    rbp: int, rdi: int, rsi: int, rdx: int, rcx: int, rbx: int, rax: int,
    int_no: int, err_code: int,
    rip: int, cs: int, rflags: int, rsp: int, ss: int)

  // The frame found at address a when the structure's fields lie eight bytes apart.
  function FrameAt(c: Core, a: int): TrapFrame {
    TrapFrame(c.Load(a), c.Load(a + 8), c.Load(a + 16), c.Load(a + 24), c.Load(a + 32), c.Load(a + 40),
              c.Load(a + 48), c.Load(a + 56), c.Load(a + 64), c.Load(a + 72), c.Load(a + 80), c.Load(a + 88),
              c.Load(a + 96), c.Load(a + 104), c.Load(a + 112), c.Load(a + 120), c.Load(a + 128),
              c.Load(a + 136), c.Load(a + 144), c.Load(a + 152), c.Load(a + 160), c.Load(a + 168))
  }

  const RAX_OFFSET := 112

  // What a user program can see of a core: every register, but not the memory.
  function UserView(c: Core, int_no: int): TrapFrame {
    TrapFrame(c.Get(R15), c.Get(R14), c.Get(R13), c.Get(R12), c.Get(R11), c.Get(R10), c.Get(R9), c.Get(R8),
              c.Get(RBP), c.Get(RDI), c.Get(RSI), c.Get(RDX), c.Get(RCX), c.Get(RBX), c.Get(RAX),
              int_no, 0, c.rip, c.cs, c.rflags, c.rsp, c.ss)
  }

  // What the processor does on `int 0x80` from user mode: it takes the kernel stack from the TSS
  // and pushes the user's ss, rsp, rflags, cs and rip; the gate gives the new code address.
  function Trap(c: Core, rsp0: int, gate: int, gateCs: int, gateFlags: int): Core {
    c.(rsp := rsp0).PushWord(c.ss).PushWord(c.rsp).PushWord(c.rflags).PushWord(c.cs).PushWord(c.rip)
    .(rip := gate, cs := gateCs, rflags := gateFlags)
  }

  // ---- The push order of the stub is the layout of trap_frame_t ----

  lemma {:induction false} EntryRun(t: Core, vector: int)
    ensures Pushed(t.PushWord(0).PushWord(vector), Run(t, StubEntry(vector)), STUB_PUSHES)
  {
    hide Run, Pushed, Pushes;
    RunConcat(t, [PushImm(0), PushImm(vector)], Pushes(STUB_PUSHES));
    RunTwo(t, PushImm(0), PushImm(vector));
    RunPushes(t.PushWord(0).PushWord(vector), STUB_PUSHES);
  }

  // The seven words that the processor and isr128 push, and the registers they leave alone.
  lemma {:induction false} TrapWords(c: Core, rsp0: int, gate: int, gateCs: int, gateFlags: int, vector: int)
    ensures
      var t := Trap(c, rsp0, gate, gateCs, gateFlags).PushWord(0).PushWord(vector);
      && t.rsp == rsp0 - 56 && t.regs == c.regs
      && t.Load(rsp0 - 56) == vector && t.Load(rsp0 - 48) == 0
      && t.Load(rsp0 - 40) == c.rip && t.Load(rsp0 - 32) == c.cs && t.Load(rsp0 - 24) == c.rflags
      && t.Load(rsp0 - 16) == c.rsp && t.Load(rsp0 - 8) == c.ss
      && forall a :: a >= rsp0 || a < rsp0 - 56 ==> t.Load(a) == c.Load(a)
  {
    hide Core.Load, Core.PushWord;
    var t0 := c.(rsp := rsp0);
    var t1 := t0.PushWord(c.ss);
    var t2 := t1.PushWord(c.rsp);
    var t3 := t2.PushWord(c.rflags);
    var t4 := t3.PushWord(c.cs);
    var t5 := t4.PushWord(c.rip);
    var t6 := Trap(c, rsp0, gate, gateCs, gateFlags);
    var t7 := t6.PushWord(0);
    SameMem(c, t0);
    PushOne(t0, c.ss);
    PushOne(t1, c.rsp);
    PushOne(t2, c.rflags);
    PushOne(t3, c.cs);
    PushOne(t4, c.rip);
    SameMem(t5, t6);
    PushOne(t6, 0);
    PushOne(t7, vector);
  }

  lemma {:induction false} PushOne(c: Core, v: int)
    ensures
      var d := c.PushWord(v);
      && d.rsp == c.rsp - 8 && d.regs == c.regs && d.Load(d.rsp) == v
      && forall a :: a != d.rsp ==> d.Load(a) == c.Load(a)
  {
  }

  lemma {:induction false} SameRegs(c: Core, d: Core)
    requires c.regs == d.regs
    ensures forall r :: c.Get(r) == d.Get(r)
  {
  }

  lemma {:induction false} EntryBuildsFrame(c: Core, rsp0: int, gate: int, gateCs: int, gateFlags: int, vector: int)
    ensures
      var k := Run(Trap(c, rsp0, gate, gateCs, gateFlags), StubEntry(vector));
      && k.rsp == rsp0 - TRAP_FRAME_SIZE
      && FrameAt(k, k.rsp) == UserView(c, vector)
      && forall a :: a >= rsp0 || a < rsp0 - TRAP_FRAME_SIZE ==> k.Load(a) == c.Load(a)
  {
    hide Run, Pushed, StubEntry, Core.Load, Core.Get, Core.PushWord, Trap;
    var t := Trap(c, rsp0, gate, gateCs, gateFlags);
    var t2 := t.PushWord(0).PushWord(vector);
    EntryRun(t, vector);
    TrapWords(c, rsp0, gate, gateCs, gateFlags, vector);
    SameRegs(c, t2);
    PushedWords(t2, Run(t, StubEntry(vector)));
  }

  lemma {:induction false} PushedWords(t: Core, k: Core)
    requires Pushed(t, k, STUB_PUSHES)
    ensures k.rsp == t.rsp - 120
    ensures forall a :: a >= t.rsp ==> k.Load(a) == t.Load(a)
    ensures k.Load(k.rsp) == t.Get(R15) && k.Load(k.rsp + 8) == t.Get(R14) && k.Load(k.rsp + 16) == t.Get(R13)
    ensures k.Load(k.rsp + 24) == t.Get(R12) && k.Load(k.rsp + 32) == t.Get(R11) && k.Load(k.rsp + 40) == t.Get(R10)
    ensures k.Load(k.rsp + 48) == t.Get(R9) && k.Load(k.rsp + 56) == t.Get(R8) && k.Load(k.rsp + 64) == t.Get(RBP)
    ensures k.Load(k.rsp + 72) == t.Get(RDI) && k.Load(k.rsp + 80) == t.Get(RSI) && k.Load(k.rsp + 88) == t.Get(RDX)
    ensures k.Load(k.rsp + 96) == t.Get(RCX) && k.Load(k.rsp + 104) == t.Get(RBX) && k.Load(k.rsp + 112) == t.Get(RAX)
    ensures forall a :: a >= t.rsp || a < k.rsp ==> k.Load(a) == t.Load(a)
  {
    forall i | 0 <= i < 15 ensures k.Load(k.rsp + 8 * (14 - i)) == t.Get(STUB_PUSHES[i]) {
      assert k.rsp + 8 * (14 - i) == t.rsp - 8 * (i + 1);
    }
    assert k.Load(k.rsp + 8 * (14 - 14)) == t.Get(STUB_PUSHES[14]);
    assert k.Load(k.rsp + 8 * (14 - 13)) == t.Get(STUB_PUSHES[13]);
    assert k.Load(k.rsp + 8 * (14 - 12)) == t.Get(STUB_PUSHES[12]);
    assert k.Load(k.rsp + 8 * (14 - 11)) == t.Get(STUB_PUSHES[11]);
    assert k.Load(k.rsp + 8 * (14 - 10)) == t.Get(STUB_PUSHES[10]);
    assert k.Load(k.rsp + 8 * (14 - 9)) == t.Get(STUB_PUSHES[9]);
    assert k.Load(k.rsp + 8 * (14 - 8)) == t.Get(STUB_PUSHES[8]);
    assert k.Load(k.rsp + 8 * (14 - 7)) == t.Get(STUB_PUSHES[7]);
    assert k.Load(k.rsp + 8 * (14 - 6)) == t.Get(STUB_PUSHES[6]);
    assert k.Load(k.rsp + 8 * (14 - 5)) == t.Get(STUB_PUSHES[5]);
    assert k.Load(k.rsp + 8 * (14 - 4)) == t.Get(STUB_PUSHES[4]);
    assert k.Load(k.rsp + 8 * (14 - 3)) == t.Get(STUB_PUSHES[3]);
    assert k.Load(k.rsp + 8 * (14 - 2)) == t.Get(STUB_PUSHES[2]);
    assert k.Load(k.rsp + 8 * (14 - 1)) == t.Get(STUB_PUSHES[1]);
    assert k.Load(k.rsp + 8 * (14 - 0)) == t.Get(STUB_PUSHES[0]);
  }

  // ---- The pops of isr_common_stub and of fork_ret_entry load the whole frame ----

  lemma {:induction false} ExitRun(k: Core)
    ensures
      var p := Run(k, Pops(STUB_POPS));
      && Run(k, StubExit()) == Exec(p.(rsp := p.rsp + 16), Iretq)
      && Popped(k, p, STUB_POPS)
  {
    hide Run, Popped, Pops, Core.Load;
    var p := Run(k, Pops(STUB_POPS));
    RunConcat(k, Pops(STUB_POPS), [AddRsp(16), Iretq]);
    RunPops(k, STUB_POPS);
    RunTwo(p, AddRsp(16), Iretq);
  }

  lemma {:induction false} IretWords(p: Core)
    ensures
      var u := Exec(p.(rsp := p.rsp + 16), Iretq);
      && u.regs == p.regs && u.mem == p.mem
      && u.rip == p.Load(p.rsp + 16) && u.cs == p.Load(p.rsp + 24) && u.rflags == p.Load(p.rsp + 32)
      && u.rsp == p.Load(p.rsp + 40) && u.ss == p.Load(p.rsp + 48)
  {
    var q := p.(rsp := p.rsp + 16);
    assert forall a :: q.Load(a) == p.Load(a);
  }

  lemma {:induction false} SameMem(c: Core, d: Core)
    requires c.mem == d.mem
    ensures forall a :: c.Load(a) == d.Load(a)
  {
  }

  lemma {:induction false} ExitLoadsFrame(k: Core)
    ensures Run(k, StubExit()).mem == k.mem
    ensures UserView(Run(k, StubExit()), 0) == FrameAt(k, k.rsp).(int_no := 0, err_code := 0)
  {
    hide Run, StubExit, Pops, Core.Load, Core.Get, Exec, Popped, UserView, FrameAt;
    ExitRun(k);
    var p := Run(k, Pops(STUB_POPS));
    PoppedWords(k, p);
    IretWords(p);
    SameMem(k, p);
    var u := Run(k, StubExit());
    SameRegs(p, u);
    var a := k.rsp;
    assert u.rip == k.Load(a + 136) && u.cs == k.Load(a + 144) && u.rflags == k.Load(a + 152);
    assert u.rsp == k.Load(a + 160) && u.ss == k.Load(a + 168);
    FrameLoaded(k, u);
  }

  lemma {:induction false} FrameLoaded(k: Core, u: Core)
    requires u.Get(R15) == k.Load(k.rsp) && u.Get(R14) == k.Load(k.rsp + 8) && u.Get(R13) == k.Load(k.rsp + 16)
    requires u.Get(R12) == k.Load(k.rsp + 24) && u.Get(R11) == k.Load(k.rsp + 32) && u.Get(R10) == k.Load(k.rsp + 40)
    requires u.Get(R9) == k.Load(k.rsp + 48) && u.Get(R8) == k.Load(k.rsp + 56) && u.Get(RBP) == k.Load(k.rsp + 64)
    requires u.Get(RDI) == k.Load(k.rsp + 72) && u.Get(RSI) == k.Load(k.rsp + 80) && u.Get(RDX) == k.Load(k.rsp + 88)
    requires u.Get(RCX) == k.Load(k.rsp + 96) && u.Get(RBX) == k.Load(k.rsp + 104) && u.Get(RAX) == k.Load(k.rsp + 112)
    requires u.rip == k.Load(k.rsp + 136) && u.cs == k.Load(k.rsp + 144) && u.rflags == k.Load(k.rsp + 152)
    requires u.rsp == k.Load(k.rsp + 160) && u.ss == k.Load(k.rsp + 168)
    ensures UserView(u, 0) == FrameAt(k, k.rsp).(int_no := 0, err_code := 0)
  {
    hide Core.Load, Core.Get;
  }

  lemma {:induction false} PoppedWords(k: Core, p: Core)
    requires Popped(k, p, STUB_POPS)
    ensures p.mem == k.mem && p.rsp == k.rsp + 120
    ensures p.Get(R15) == k.Load(k.rsp) && p.Get(R14) == k.Load(k.rsp + 8) && p.Get(R13) == k.Load(k.rsp + 16)
    ensures p.Get(R12) == k.Load(k.rsp + 24) && p.Get(R11) == k.Load(k.rsp + 32) && p.Get(R10) == k.Load(k.rsp + 40)
    ensures p.Get(R9) == k.Load(k.rsp + 48) && p.Get(R8) == k.Load(k.rsp + 56) && p.Get(RBP) == k.Load(k.rsp + 64)
    ensures p.Get(RDI) == k.Load(k.rsp + 72) && p.Get(RSI) == k.Load(k.rsp + 80) && p.Get(RDX) == k.Load(k.rsp + 88)
    ensures p.Get(RCX) == k.Load(k.rsp + 96) && p.Get(RBX) == k.Load(k.rsp + 104) && p.Get(RAX) == k.Load(k.rsp + 112)
  {
    assert p.Get(STUB_POPS[0]) == k.Load(k.rsp + 8 * 0) && p.Get(STUB_POPS[1]) == k.Load(k.rsp + 8 * 1);
    assert p.Get(STUB_POPS[2]) == k.Load(k.rsp + 8 * 2) && p.Get(STUB_POPS[3]) == k.Load(k.rsp + 8 * 3);
    assert p.Get(STUB_POPS[4]) == k.Load(k.rsp + 8 * 4) && p.Get(STUB_POPS[5]) == k.Load(k.rsp + 8 * 5);
    assert p.Get(STUB_POPS[6]) == k.Load(k.rsp + 8 * 6) && p.Get(STUB_POPS[7]) == k.Load(k.rsp + 8 * 7);
    assert p.Get(STUB_POPS[8]) == k.Load(k.rsp + 8 * 8) && p.Get(STUB_POPS[9]) == k.Load(k.rsp + 8 * 9);
    assert p.Get(STUB_POPS[10]) == k.Load(k.rsp + 8 * 10) && p.Get(STUB_POPS[11]) == k.Load(k.rsp + 8 * 11);
    assert p.Get(STUB_POPS[12]) == k.Load(k.rsp + 8 * 12) && p.Get(STUB_POPS[13]) == k.Load(k.rsp + 8 * 13);
    assert p.Get(STUB_POPS[14]) == k.Load(k.rsp + 8 * 14);
  }

  // The user's registers before `int 0x80` and after the matching iretq are the same, except that
  // rax is whatever the handler left in the frame's rax slot.
  lemma {:induction false} SyscallRoundTrip(c: Core, rsp0: int, gate: int, gateCs: int, gateFlags: int, handled: Core)
    requires
      var k := Run(Trap(c, rsp0, gate, gateCs, gateFlags), StubEntry(128));
      && handled.rsp == k.rsp
      && FrameAt(handled, k.rsp) == FrameAt(k, k.rsp).(rax := handled.Load(k.rsp + RAX_OFFSET))
    ensures
      var back := Run(handled, StubExit());
      UserView(back, 0) == UserView(c, 0).(rax := handled.Load(rsp0 - TRAP_FRAME_SIZE + RAX_OFFSET))
  {
    hide Run, Trap, StubEntry, StubExit, Core.Load, Core.Get;
    EntryBuildsFrame(c, rsp0, gate, gateCs, gateFlags, 128);
    ExitLoadsFrame(handled);
  }

  // ---- switch_to ----

  // What a suspended process will find in its registers: the words of the context at address a.
  datatype Saved = Saved(r15: int, r14: int, r13: int, r12: int, rbx: int, rbp: int, rdi: int, rip: int, rsp: int)

  function ContextAt(c: Core, a: int): Saved {
    Saved(c.Load(a), c.Load(a + 8), c.Load(a + 16), c.Load(a + 24), c.Load(a + 32), c.Load(a + 40),
          c.Load(a + 48), c.Load(a + 56), a + CONTEXT_SIZE)
  }

  function Live(c: Core): Saved {
    Saved(c.Get(R15), c.Get(R14), c.Get(R13), c.Get(R12), c.Get(RBX), c.Get(RBP), c.Get(RDI), c.rip, c.rsp)
  }

  // A call switch_to(&prev->context, next->context): the arguments, then the return address.
  function CallSwitch(c: Core, slot: int, next: int, ra: int): Core {
    c.(regs := c.regs[RDI := slot][RSI := next]).PushWord(ra)
  }

  lemma {:induction false} SwitchRun(c0: Core)
    ensures
      var c1 := Run(c0, Pushes(SWITCH_PUSHES));
      var c2 := c1.(mem := c1.mem[c1.Get(RDI) := c1.rsp], rsp := c1.Get(RSI));
      var c3 := Run(c2, Pops(SWITCH_POPS));
      && Pushed(c0, c1, SWITCH_PUSHES)
      && Popped(c2, c3, SWITCH_POPS)
      && Run(c0, SwitchTo()) == Exec(c3, Ret)
  {
    hide Run, Pushed, Popped, Pops, Pushes;
    var mid := [StoreRspAtRdi, LoadRspFromRsi];
    var c1 := Run(c0, Pushes(SWITCH_PUSHES));
    var c2 := c1.(mem := c1.mem[c1.Get(RDI) := c1.rsp], rsp := c1.Get(RSI));
    var c3 := Run(c2, Pops(SWITCH_POPS));
    RunPushes(c0, SWITCH_PUSHES);
    RunTwo(c1, StoreRspAtRdi, LoadRspFromRsi);
    RunPops(c2, SWITCH_POPS);
    RunOne(c3, Ret);
    RunConcat(c0, Pushes(SWITCH_PUSHES) + mid + Pops(SWITCH_POPS), [Ret]);
    RunConcat(c0, Pushes(SWITCH_PUSHES) + mid, Pops(SWITCH_POPS));
    RunConcat(c0, Pushes(SWITCH_PUSHES), mid);
  }

  // One switch: the words it writes are the caller's context below its stack pointer and the
  // slot that now points to it; the registers are those of the other context.
  lemma {:induction false} SwitchOnce(c: Core, slot: int, next: int, ra: int)
    requires slot < c.rsp - CONTEXT_SIZE || c.rsp <= slot
    requires next + CONTEXT_SIZE <= c.rsp - CONTEXT_SIZE || c.rsp <= next
    requires slot < next || next + CONTEXT_SIZE <= slot
    ensures
      var d := Run(CallSwitch(c, slot, next, ra), SwitchTo());
      && Live(d) == ContextAt(c, next)
      && d.Load(slot) == c.rsp - CONTEXT_SIZE
      && ContextAt(d, c.rsp - CONTEXT_SIZE) == Live(c).(rdi := slot, rip := ra)
      && forall a :: a != slot && (a >= c.rsp || a < c.rsp - CONTEXT_SIZE) ==> d.Load(a) == c.Load(a)
  {
    hide Run, SwitchTo, Pushes, Pops, Pushed, Popped, Core.Load, Core.Get, Exec, CallSwitch;
    var c0 := CallSwitch(c, slot, next, ra);
    var c1 := Run(c0, Pushes(SWITCH_PUSHES));
    var c2 := c1.(mem := c1.mem[c1.Get(RDI) := c1.rsp], rsp := c1.Get(RSI));
    var c3 := Run(c2, Pops(SWITCH_POPS));
    CallWords(c, slot, next, ra);
    SwitchRun(c0);
    SavedWords(c0, c1);
    RestoredWords(c2, c3);
    SameRegs(c0, c1);
    StoreWord(c1, c1.Get(RDI), c1.Get(RSI));
    SameMem(c2, c3);
    RetWords(c3);
    SameMem(c3, Exec(c3, Ret));
    SameRegs(c3, Exec(c3, Ret));
  }

  lemma {:induction false} CallWords(c: Core, slot: int, next: int, ra: int)
    ensures
      var d := CallSwitch(c, slot, next, ra);
      && d.rsp == c.rsp - 8 && d.Load(d.rsp) == ra && d.Get(RDI) == slot && d.Get(RSI) == next
      && (forall r :: r != RDI && r != RSI ==> d.Get(r) == c.Get(r))
      && forall a :: a != d.rsp ==> d.Load(a) == c.Load(a)
  {
  }

  lemma {:induction false} StoreWord(c: Core, a: int, rsp: int)
    ensures
      var d := c.(mem := c.mem[a := c.rsp], rsp := rsp);
      && d.Load(a) == c.rsp
      && forall b :: b != a ==> d.Load(b) == c.Load(b)
  {
  }

  lemma {:induction false} RetWords(c: Core)
    ensures
      var d := Exec(c, Ret);
      d.rip == c.Load(c.rsp) && d.rsp == c.rsp + 8 && d.regs == c.regs && d.mem == c.mem
  {
  }

  lemma {:induction false} SavedWords(c: Core, d: Core)
    requires Pushed(c, d, SWITCH_PUSHES)
    ensures d.rsp == c.rsp - 56 && d.regs == c.regs
    ensures forall a :: a >= c.rsp || a < d.rsp ==> d.Load(a) == c.Load(a)
    ensures d.Load(d.rsp) == c.Get(R15) && d.Load(d.rsp + 8) == c.Get(R14) && d.Load(d.rsp + 16) == c.Get(R13)
    ensures d.Load(d.rsp + 24) == c.Get(R12) && d.Load(d.rsp + 32) == c.Get(RBX) && d.Load(d.rsp + 40) == c.Get(RBP)
    ensures d.Load(d.rsp + 48) == c.Get(RDI) && d.Load(d.rsp + 56) == c.Load(c.rsp)
  {
    assert d.Load(c.rsp - 8 * (0 + 1)) == c.Get(SWITCH_PUSHES[0])
        && d.Load(c.rsp - 8 * (1 + 1)) == c.Get(SWITCH_PUSHES[1]);
    assert d.Load(c.rsp - 8 * (2 + 1)) == c.Get(SWITCH_PUSHES[2])
        && d.Load(c.rsp - 8 * (3 + 1)) == c.Get(SWITCH_PUSHES[3]);
    assert d.Load(c.rsp - 8 * (4 + 1)) == c.Get(SWITCH_PUSHES[4])
        && d.Load(c.rsp - 8 * (5 + 1)) == c.Get(SWITCH_PUSHES[5]);
    assert d.Load(c.rsp - 8 * (6 + 1)) == c.Get(SWITCH_PUSHES[6]);
  }

  lemma {:induction false} RestoredWords(c: Core, d: Core)
    requires Popped(c, d, SWITCH_POPS)
    ensures d.rsp == c.rsp + 56 && d.mem == c.mem
    ensures d.Get(R15) == c.Load(c.rsp) && d.Get(R14) == c.Load(c.rsp + 8) && d.Get(R13) == c.Load(c.rsp + 16)
    ensures d.Get(R12) == c.Load(c.rsp + 24) && d.Get(RBX) == c.Load(c.rsp + 32) && d.Get(RBP) == c.Load(c.rsp + 40)
    ensures d.Get(RDI) == c.Load(c.rsp + 48)
  {
    assert d.Get(SWITCH_POPS[0]) == c.Load(c.rsp + 8 * 0) && d.Get(SWITCH_POPS[1]) == c.Load(c.rsp + 8 * 1);
    assert d.Get(SWITCH_POPS[2]) == c.Load(c.rsp + 8 * 2) && d.Get(SWITCH_POPS[3]) == c.Load(c.rsp + 8 * 3);
    assert d.Get(SWITCH_POPS[4]) == c.Load(c.rsp + 8 * 4) && d.Get(SWITCH_POPS[5]) == c.Load(c.rsp + 8 * 5);
    assert d.Get(SWITCH_POPS[6]) == c.Load(c.rsp + 8 * 6);
  }

  // switch_to, executed in place: afterwards the registers are those of the next context, the
  // caller's context lies below its stack pointer, and its slot points there.
  method SwitchContext(cpu: Cpu, slot: int, next: int, ra: int)
    requires slot < cpu.core.rsp - CONTEXT_SIZE || cpu.core.rsp <= slot
    requires next + CONTEXT_SIZE <= cpu.core.rsp - CONTEXT_SIZE || cpu.core.rsp <= next
    requires slot < next || next + CONTEXT_SIZE <= slot
    modifies cpu
    ensures Live(cpu.core) == ContextAt(old(cpu.core), next)
    ensures cpu.core.Load(slot) == old(cpu.core.rsp) - CONTEXT_SIZE
    ensures ContextAt(cpu.core, old(cpu.core.rsp) - CONTEXT_SIZE) == Live(old(cpu.core)).(rdi := slot, rip := ra)
    ensures forall a :: a != slot && (a >= old(cpu.core.rsp) || a < old(cpu.core.rsp) - CONTEXT_SIZE) ==>
              cpu.core.Load(a) == old(cpu.core.Load(a))
  {
    hide Run, SwitchTo, Core.Load, Live, ContextAt;
    SwitchOnce(cpu.core, slot, next, ra);
    cpu.core := CallSwitch(cpu.core, slot, next, ra);
    cpu.Execute(SwitchTo());
  }
}
