/** A run from boot in which the scheduler goes wrong: a lone process whose slice ends stays marked
    READY while it runs, and is lost when it yields (kernel/src/proc/sche.c:16-48).
  */
module SchedWitness {
  import opened Common
  import opened SchedSpec

  // The only process besides idle is running, with n ticks of its slice left.
  function Lone(n: int, mm: nat): Sys {
    Sys(map[IDLE := Pcb(RUNNING, TIME_SLICE_DEFAULT, None), 1 := Pcb(RUNNING, n, Some(mm))], 1, [], mm, 2)
  }

  function TickEvents(n: nat): (es: seq<Event>)
    ensures |es| == n && forall i :: 0 <= i < n ==> es[i] == TimerTick
  {
    seq(n, i => TimerTick)
  }

  // The same process, current but marked READY, with a fresh slice and on no queue.
  function Stuck(mm: nat): Sys {
    Sys(map[IDLE := Pcb(RUNNING, TIME_SLICE_DEFAULT, None), 1 := Pcb(READY, TIME_SLICE_DEFAULT, Some(mm))], 1, [], mm,
        2)
  }

  lemma LoneTick(n: int, mm: nat)
    requires 1 <= n <= TIME_SLICE_DEFAULT
    ensures Inv(Lone(n, mm)) && Tick(Lone(n, mm)) == if n > 1 then Lone(n - 1, mm) else Stuck(mm)
  {
    var s := Lone(n, mm);
    assert s.queue + [1] == [1] && [1][1..] == [];
    if n > 1 {
      assert Tick(s).procs == Lone(n - 1, mm).procs;
    } else {
      assert Tick(s).procs == Stuck(mm).procs;
    }
  }

  lemma {:induction false} LoneTicks(n: nat, mm: nat)
    requires 1 <= n <= TIME_SLICE_DEFAULT
    ensures Inv(Lone(n, mm)) && Run(Lone(n, mm), TickEvents(n)) == Stuck(mm)
    decreases n
  {
    hide Tick, Inv, Lone, Stuck, Run;
    LoneTick(n, mm);
    var es := TickEvents(n);
    RunFromFirst(Lone(n, mm), es);
    assert es[1..] == TickEvents(n - 1);
    if n > 1 {
      LoneTicks(n - 1, mm);
    } else {
      NoEvents(Stuck(mm));
    }
  }

  lemma NoEvents(s: Sys)
    requires Inv(s)
    ensures Run(s, []) == s
  {
  }

  lemma BootToLone(cr3: nat, mm: nat)
    ensures Inv(Boot(cr3)) && Inv(Step(Boot(cr3), Fork(Some(mm), true)))
    ensures Step(Step(Boot(cr3), Fork(Some(mm), true)), Yield) == Lone(TIME_SLICE_DEFAULT, mm)
  {
    StepInv(Boot(cr3), Fork(Some(mm), true));
    var s := Step(Boot(cr3), Fork(Some(mm), true));
    assert s.queue == [1] && s.queue[1..] == [];
    assert Step(s, Yield).procs == Lone(TIME_SLICE_DEFAULT, mm).procs;
  }

  // One process is created, idle yields to it, ten ticks pass: it is current and marked READY.
  lemma LoneExpiryFromBoot(cr3: nat, mm: nat)
    ensures Inv(Boot(cr3)) && Run(Boot(cr3), [Fork(Some(mm), true), Yield] + TickEvents(10)) == Stuck(mm)
    ensures Inv(Stuck(mm)) && !CurrentRuns(Stuck(mm))
  {
    hide Step, Inv, Lone, Run;
    var ticks := TickEvents(10);
    var es := [Fork(Some(mm), true), Yield] + ticks;
    BootToLone(cr3, mm);
    RunFromFirst(Boot(cr3), es);
    assert es[1..] == [Yield] + ticks;
    RunFromFirst(Step(Boot(cr3), Fork(Some(mm), true)), es[1..]);
    assert es[1..][1..] == ticks;
    LoneTicks(10, mm);
  }

  // If it then yields, idle runs, the process is on no queue, and no run dispatches it again.
  lemma LostFromBoot(cr3: nat, mm: nat, more: seq<Event>)
    ensures Inv(Stuck(mm)) && Inv(Step(Stuck(mm), Yield))
    ensures var s := Run(Step(Stuck(mm), Yield), more);
            1 in s.procs && s.procs[1].state == READY && s.current != 1 && 1 !in s.queue
  {
    LoneExpiryFromBoot(cr3, mm);
    YieldLoses(Stuck(mm), more);
  }
}
