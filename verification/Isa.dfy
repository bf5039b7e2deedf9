/** The few instructions the kernel's assembly uses, and listings of switch_to
    (kernel/src/arch/switch.S), isr_common_stub (kernel/src/arch/isr.S) and fork_ret_entry
    (kernel/src/proc/entry.S).
  */
module Isa {
  datatype Reg = RAX | RBX | RCX | RDX | RSI | RDI | RBP | R8 | R9 | R10 | R11 | R12 | R13 | R14 | R15

  // Registers and memory of one core. Memory is a map from addresses to 8-byte words.
  datatype Core = Core(regs: map<Reg, int>, rsp: int, rip: int, cs: int, rflags: int, ss: int, mem: map<int, int>) {
    function Get(r: Reg): int { if r in regs then regs[r] else 0 }

    function Load(a: int): int { if a in mem then mem[a] else 0 }

    function Store(a: int, v: int): Core { this.(mem := mem[a := v]) }

    function PushWord(v: int): Core { this.(rsp := rsp - 8, mem := mem[rsp - 8 := v]) }
  }

  datatype Instr =
    | Push(r: Reg)
    | PushImm(v: int)
    | Pop(r: Reg)
    | AddRsp(n: int)
    | StoreRspAtRdi    // mov %rsp, (%rdi)
    | LoadRspFromRsi   // mov %rsi, %rsp
    | Ret
    | Iretq

  function Exec(c: Core, i: Instr): Core {
    match i
    case Push(r) => c.PushWord(c.Get(r))
    case PushImm(v) => c.PushWord(v)
    case Pop(r) => c.(regs := c.regs[r := c.Load(c.rsp)], rsp := c.rsp + 8)
    case AddRsp(n) => c.(rsp := c.rsp + n)
    case StoreRspAtRdi => c.(mem := c.mem[c.Get(RDI) := c.rsp])
    case LoadRspFromRsi => c.(rsp := c.Get(RSI))
    case Ret => c.(rip := c.Load(c.rsp), rsp := c.rsp + 8)
    case Iretq => c.(rip := c.Load(c.rsp), cs := c.Load(c.rsp + 8), rflags := c.Load(c.rsp + 16),
                     rsp := c.Load(c.rsp + 24), ss := c.Load(c.rsp + 32))
  }

  function Run(c: Core, code: seq<Instr>): Core
    decreases |code|
  {
    if code == [] then c else Run(Exec(c, code[0]), code[1..])
  }

  // A core whose state is updated in place, executing a listing instruction by instruction.
  class Cpu {
    var core: Core

    constructor (c: Core)
      ensures core == c
    {
      core := c;
    }

    method Execute(code: seq<Instr>)
      modifies this
      ensures core == Run(old(core), code)
    {
      ghost var start := core;
      for i := 0 to |code|
        invariant Run(start, code) == Run(core, code[i..])
      {
        assert code[i..][1..] == code[i + 1..];
        core := Exec(core, code[i]);
      }
    }
  }

  function Pushes(rs: seq<Reg>): seq<Instr> {
    seq(|rs|, i requires 0 <= i < |rs| => Push(rs[i]))
  }

  function Pops(rs: seq<Reg>): seq<Instr> {
    seq(|rs|, i requires 0 <= i < |rs| => Pop(rs[i]))
  }

  // ---- The listings ----

  const SWITCH_PUSHES: seq<Reg> := [RDI, RBP, RBX, R12, R13, R14, R15]
  const SWITCH_POPS: seq<Reg> := [R15, R14, R13, R12, RBX, RBP, RDI]
  const STUB_PUSHES: seq<Reg> := [RAX, RBX, RCX, RDX, RSI, RDI, RBP, R8, R9, R10, R11, R12, R13, R14, R15]
  const STUB_POPS: seq<Reg> := [R15, R14, R13, R12, R11, R10, R9, R8, RBP, RDI, RSI, RDX, RCX, RBX, RAX]
  const FORK_RET_POPS: seq<Reg> := [R15, R14, R13, R12, R11, R10, R9, R8, RBP, RDI, RSI, RDX, RCX, RBX, RAX]

  function SwitchTo(): seq<Instr> {
    Pushes(SWITCH_PUSHES) + [StoreRspAtRdi, LoadRspFromRsi] + Pops(SWITCH_POPS) + [Ret]
  }

  // isr128 and the first half of isr_common_stub, up to `call isr_handler`.
  function StubEntry(vector: int): seq<Instr> {
    [PushImm(0), PushImm(vector)] + Pushes(STUB_PUSHES)
  }

  // The second half of isr_common_stub.
  function StubExit(): seq<Instr> {
    Pops(STUB_POPS) + [AddRsp(16), Iretq]
  }

  function ForkRet(): seq<Instr> {
    Pops(FORK_RET_POPS) + [AddRsp(16), Iretq]
  }

  // ---- Runs of pushes and pops ----

  lemma {:induction false} RunConcat(c: Core, a: seq<Instr>, b: seq<Instr>)
    ensures Run(c, a + b) == Run(Run(c, a), b)
    decreases |a|
  {
    if a == [] {
      assert a + b == b;
    } else {
      assert (a + b)[1..] == a[1..] + b;
      RunConcat(Exec(c, a[0]), a[1..], b);
    }
  }

  lemma {:induction false} RunOne(c: Core, i: Instr)
    ensures Run(c, [i]) == Exec(c, i)
  {
    assert [i][1..] == [];
  }

  lemma {:induction false} RunTwo(c: Core, i: Instr, j: Instr)
    ensures Run(c, [i, j]) == Exec(Exec(c, i), j)
  {
    assert [i, j][1..] == [j];
    RunOne(Exec(c, i), j);
  }

  predicate Distinct(rs: seq<Reg>) {
    forall i, j :: 0 <= i < j < |rs| ==> rs[i] != rs[j]
  }

  // After pushes: only memory below the stack pointer has changed, and the registers lie there
  // in push order downwards.
  ghost predicate Pushed(c: Core, c': Core, rs: seq<Reg>) {
    && c' == c.(rsp := c.rsp - 8 * |rs|, mem := c'.mem)
    && (forall i :: 0 <= i < |rs| ==> c'.Load(c.rsp - 8 * (i + 1)) == c.Get(rs[i]))
    && (forall a :: a >= c.rsp || a < c.rsp - 8 * |rs| ==> c'.Load(a) == c.Load(a))
  }

  lemma {:induction false} RunPushes(c: Core, rs: seq<Reg>)
    ensures Pushed(c, Run(c, Pushes(rs)), rs)
    decreases |rs|
  {
    if rs != [] {
      var c1 := Exec(c, Push(rs[0]));
      assert Pushes(rs)[1..] == Pushes(rs[1..]);
      RunPushes(c1, rs[1..]);
      var c' := Run(c, Pushes(rs));
      assert c' == Run(c1, Pushes(rs[1..]));
      forall i | 0 <= i < |rs| ensures c'.Load(c.rsp - 8 * (i + 1)) == c.Get(rs[i]) {
        if i > 0 {
          assert c'.Load(c1.rsp - 8 * (i - 1 + 1)) == c1.Get(rs[1..][i - 1]);
        }
      }
    }
  }

  // After pops: the registers hold the words from the stack pointer upwards.
  ghost predicate Popped(c: Core, c': Core, rs: seq<Reg>) {
    && c' == c.(rsp := c.rsp + 8 * |rs|, regs := c'.regs)
    && (forall i :: 0 <= i < |rs| ==> c'.Get(rs[i]) == c.Load(c.rsp + 8 * i))
    && (forall r: Reg :: r !in rs ==> c'.Get(r) == c.Get(r))
  }

  lemma {:induction false} RunPops(c: Core, rs: seq<Reg>)
    requires Distinct(rs)
    ensures Popped(c, Run(c, Pops(rs)), rs)
    decreases |rs|
  {
    if rs != [] {
      var c1 := Exec(c, Pop(rs[0]));
      assert Pops(rs)[1..] == Pops(rs[1..]);
      RunPops(c1, rs[1..]);
      var c' := Run(c, Pops(rs));
      assert c' == Run(c1, Pops(rs[1..]));
      assert rs[0] !in rs[1..];
      forall i | 0 <= i < |rs| ensures c'.Get(rs[i]) == c.Load(c.rsp + 8 * i) {
        if i > 0 {
          assert c'.Get(rs[1..][i - 1]) == c1.Load(c1.rsp + 8 * (i - 1));
        }
      }
      forall r: Reg | r !in rs ensures c'.Get(r) == c.Get(r) {
        assert r !in rs[1..];
      }
    }
  }
}
