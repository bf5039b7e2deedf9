/** The scheduler as a step machine (kernel/src/proc/sche.c, kernel/src/arch/timer.c and the
    process syscalls in kernel/src/arch/interrupts.c), and what holds of its runs.
  */
module SchedSpec {
  import opened Common

  const TIME_SLICE_DEFAULT: int := 10
  const IDLE: nat := 0  // pid of idle_proc

  datatype ProcState = RUNNING | READY | BLOCKED | ZOMBIE

  // The fields of a PCB that scheduling reads or writes; mm is the frame of its PML4.
  datatype Pcb = Pcb(state: ProcState, slice: int, mm: Option<nat>)

  datatype Sys = Sys(procs: map<nat, Pcb>, current: nat, queue: seq<nat>, cr3: nat, nextPid: nat)

  // ---- Steps ----

  function SetState(s: Sys, p: nat, st: ProcState): Sys
    requires p in s.procs
  {
    s.(procs := s.procs[p := s.procs[p].(state := st)])
  }

  // A running process other than idle keeps the CPU until its slice is used up.
  predicate KeepsRunning(s: Sys)
    requires s.current in s.procs
  {
    var prev := s.procs[s.current];
    prev.state == RUNNING && s.current != IDLE && prev.slice > 0
  }

  // Step 2 of schedule(): an expired process goes to the tail of the ready queue.
  function Requeue(s: Sys): Sys
    requires s.current in s.procs
  {
    var prev := s.procs[s.current];
    if prev.state == RUNNING && s.current != IDLE then
      s.(procs := s.procs[s.current := prev.(state := READY, slice := TIME_SLICE_DEFAULT)],
         queue := s.queue + [s.current])
    else s
  }

  // Step 4: nothing happens when the process picked is the one that was running.
  function SwitchTo(s: Sys, next: nat): Sys
    requires s.current in s.procs && next in s.procs
  {
    if s.current == next then s
    else
      var from, to := s.procs[s.current], s.procs[next];
      s.(procs := s.procs[next := to.(state := RUNNING, slice := TIME_SLICE_DEFAULT)],
         current := next,
         cr3 := if to.mm.Some? && (from.mm.None? || from.mm != to.mm) then to.mm.value else s.cr3)
  }

  // Steps 3 and 4.
  function Dispatch(s: Sys): Sys
    requires s.current in s.procs && IDLE in s.procs && forall p :: p in s.queue ==> p in s.procs
  {
    if s.queue == [] then
      SwitchTo(s.(procs := s.procs[IDLE := s.procs[IDLE].(state := RUNNING, slice := TIME_SLICE_DEFAULT)]), IDLE)
    else SwitchTo(s.(queue := s.queue[1..]), s.queue[0])
  }

  predicate Closed(s: Sys) {
    s.current in s.procs && IDLE in s.procs && forall p :: p in s.queue ==> p in s.procs
  }

  function Schedule(s: Sys): Sys
    requires Closed(s)
  {
    if KeepsRunning(s) then s else Dispatch(Requeue(s))
  }

  // timer_callback
  function Tick(s: Sys): Sys
    requires Closed(s)
  {
    var cur := s.procs[s.current];
    if cur.state != RUNNING then s
    else
      var s' := s.(procs := s.procs[s.current := cur.(slice := cur.slice - 1)]);
      if cur.slice - 1 <= 0 then Schedule(s') else s'
  }

  // sys_fork, create_user_process and kthread_create: a new READY process at the tail of the
  // queue. A fork that fails still uses up a pid.
  function Spawn(s: Sys, mm: Option<nat>, ok: bool): Sys {
    if ok then
      s.(procs := s.procs[s.nextPid := Pcb(READY, TIME_SLICE_DEFAULT, mm)], queue := s.queue + [s.nextPid],
         nextPid := s.nextPid + 1)
    else s.(nextPid := s.nextPid + 1)
  }

  // SYS_EXIT and kthread_exit; idle never exits.
  function Exit(s: Sys): Sys
    requires Closed(s)
  {
    if s.current == IDLE then s else Schedule(SetState(s, s.current, ZOMBIE))
  }

  datatype Event = TimerTick | Yield | Fork(mm: Option<nat>, ok: bool) | ExitCall

  function Step(s: Sys, e: Event): Sys
    requires Closed(s)
  {
    match e
    case TimerTick => Tick(s)
    case Yield => Schedule(s)
    case Fork(mm, ok) => Spawn(s, mm, ok)
    case ExitCall => Exit(s)
  }

  // proc_init: idle is RUNNING and current.
  function Boot(cr3: nat): Sys {
    Sys(map[IDLE := Pcb(RUNNING, TIME_SLICE_DEFAULT, None)], IDLE, [], cr3, 1)
  }

  // ---- The invariant of every reachable state ----

  ghost predicate QueueOk(s: Sys) {
    && (forall i :: 0 <= i < |s.queue| ==> s.queue[i] in s.procs && s.queue[i] != IDLE && s.queue[i] != s.current
                                             && s.procs[s.queue[i]].state == READY)
    && (forall i, j :: 0 <= i < j < |s.queue| ==> s.queue[i] != s.queue[j])
  }

  ghost predicate Inv(s: Sys) {
    && Closed(s) && QueueOk(s)
    && (forall p :: p in s.procs ==> p < s.nextPid)
    // the only non-idle RUNNING process is the current one; the current one is never a zombie
    && (forall p :: p in s.procs && s.procs[p].state == RUNNING ==> p == IDLE || p == s.current)
    && s.procs[IDLE].state == RUNNING && s.procs[IDLE].mm == None
    && (s.procs[s.current].state == RUNNING || s.procs[s.current].state == READY)
    && 1 <= s.procs[s.current].slice <= TIME_SLICE_DEFAULT
    // CR3 is the current process's page table
    && (s.procs[s.current].mm.Some? ==> s.cr3 == s.procs[s.current].mm.value)
  }

  lemma BootInv(cr3: nat)
    ensures Inv(Boot(cr3))
  {
  }

  // Between step 2 and step 3 of schedule(): as Inv, but the current process may be anything
  // that is not RUNNING, or idle, or it may have just been queued.
  ghost predicate MidInv(s: Sys) {
    && Closed(s)
    && (forall i :: 0 <= i < |s.queue| ==>
        s.queue[i] in s.procs && s.queue[i] != IDLE
        && s.procs[s.queue[i]].state == READY)
    && (forall i, j :: 0 <= i < j < |s.queue| ==> s.queue[i] != s.queue[j])
    && (forall p :: p in s.procs ==> p < s.nextPid)
    && (forall p :: p in s.procs && s.procs[p].state == RUNNING ==> p == IDLE)
    && s.procs[IDLE].state == RUNNING && s.procs[IDLE].mm == None
    // the current process can only stay current by being picked from the queue, or as idle
    && (s.current in s.queue ==> s.procs[s.current].slice == TIME_SLICE_DEFAULT)
    && (s.procs[s.current].mm.Some? ==> s.cr3 == s.procs[s.current].mm.value)
  }

  lemma {:induction false} DispatchInv(s: Sys)
    requires MidInv(s)
    ensures Inv(Dispatch(s))
  {
    if s.queue != [] {
      assert s.queue[0] in s.queue;
      forall i | 0 <= i < |s.queue[1..]| ensures s.queue[1..][i] == s.queue[i + 1] {
      }
    }
  }

  // A state on which schedule() does not return early, with the slice of the current process open.
  ghost predicate PreSchedule(s: Sys) {
    && Closed(s) && QueueOk(s) && !KeepsRunning(s)
    && (forall p :: p in s.procs ==> p < s.nextPid)
    && (forall p :: p in s.procs && s.procs[p].state == RUNNING ==> p == IDLE || p == s.current)
    && s.procs[IDLE].state == RUNNING && s.procs[IDLE].mm == None
    && (s.procs[s.current].mm.Some? ==> s.cr3 == s.procs[s.current].mm.value)
  }

  lemma {:induction false} RequeueMid(s: Sys)
    requires PreSchedule(s)
    ensures MidInv(Requeue(s))
  {
  }

  lemma {:induction false} ScheduleInv(s: Sys)
    requires PreSchedule(s)
    ensures Inv(Schedule(s))
  {
    hide Inv, MidInv, Dispatch, Requeue;
    RequeueMid(s);
    DispatchInv(Requeue(s));
  }

  // Every step keeps the invariant.
  lemma {:induction false} StepInv(s: Sys, e: Event)
    requires Inv(s)
    ensures Inv(Step(s, e))
  {
    match e {
      case TimerTick => TickInv(s);
      case Yield => YieldInv(s);
      case Fork(mm, ok) => SpawnInv(s, mm, ok);
      case ExitCall => ExitInv(s);
    }
  }

  lemma {:induction false} TickInv(s: Sys)
    requires Inv(s)
    ensures Inv(Tick(s))
  {
    hide Schedule;
    var cur := s.procs[s.current];
    var s' := s.(procs := s.procs[s.current := cur.(slice := cur.slice - 1)]);
    if cur.state == RUNNING && cur.slice - 1 <= 0 {
      ScheduleInv(s');
    }
  }

  lemma {:induction false} YieldInv(s: Sys)
    requires Inv(s)
    ensures Inv(Schedule(s))
  {
    hide Dispatch, Requeue;
    if !KeepsRunning(s) {
      ScheduleInv(s);
    }
  }

  lemma {:induction false} SpawnInv(s: Sys, mm: Option<nat>, ok: bool)
    requires Inv(s)
    ensures Inv(Spawn(s, mm, ok))
  {
  }

  lemma {:induction false} ExitInv(s: Sys)
    requires Inv(s)
    ensures Inv(Exit(s))
  {
    hide Schedule;
    if s.current != IDLE {
      ScheduleInv(SetState(s, s.current, ZOMBIE));
    }
  }

  // ---- Runs ----

  function Run(s: Sys, events: seq<Event>): Sys
    requires Inv(s)
    ensures Inv(Run(s, events))
    decreases |events|
  {
    if events == [] then s
    else
      StepInv(Run(s, events[..|events| - 1]), events[|events| - 1]);
      Step(Run(s, events[..|events| - 1]), events[|events| - 1])
  }

  // In every state reached from boot, by any events.
  lemma ReachableInv(cr3: nat, events: seq<Event>)
    ensures Inv(Boot(cr3)) && Inv(Run(Boot(cr3), events))
  {
    BootInv(cr3);
  }

  // ---- What the invariant says to a reader ----

  // A zombie is never dispatched again, and stays a zombie.
  lemma {:induction false} ZombiesStayDead(s: Sys, events: seq<Event>, p: nat)
    requires Inv(s) && p in s.procs && s.procs[p].state == ZOMBIE
    ensures var s' := Run(s, events);
            p in s'.procs && s'.procs[p].state == ZOMBIE && p != s'.current && p !in s'.queue
    decreases |events|
  {
    if events != [] {
      ZombiesStayDead(s, events[..|events| - 1], p);
      OffQueueStays(Run(s, events[..|events| - 1]), events[|events| - 1], p);
    }
  }

  predicate OffQueue(s: Sys, p: nat) {
    p in s.procs && p != IDLE && p != s.current && p !in s.queue
  }

  lemma {:induction false} DispatchOffQueue(s: Sys, p: nat)
    requires Closed(s) && OffQueue(s, p)
    ensures OffQueue(Dispatch(s), p) && Dispatch(s).procs[p] == s.procs[p]
  {
    if s.queue != [] {
      assert s.queue[0] in s.queue;
      assert forall q :: q in s.queue[1..] ==> q in s.queue;
    }
  }

  lemma {:induction false} ScheduleOffQueue(s: Sys, p: nat)
    requires Closed(s) && OffQueue(s, p)
    ensures OffQueue(Schedule(s), p) && Schedule(s).procs[p] == s.procs[p]
  {
    hide Dispatch;
    DispatchOffQueue(Requeue(s), p);
  }

  // A process that is neither current nor queued (nor idle) is not touched by any step.
  lemma {:induction false} OffQueueStays(s: Sys, e: Event, p: nat)
    requires Inv(s) && OffQueue(s, p)
    ensures OffQueue(Step(s, e), p) && Step(s, e).procs[p] == s.procs[p]
  {
    hide Schedule;
    match e {
      case TimerTick =>
        var running := s.procs[s.current];
        ScheduleOffQueue(s.(procs := s.procs[s.current := running.(slice := running.slice - 1)]), p);
      case Yield => ScheduleOffQueue(s, p);
      case Fork(mm, ok) =>
      case ExitCall => ScheduleOffQueue(SetState(s, s.current, ZOMBIE), p);
    }
  }

  // ---- The slice that runs out with nobody waiting ----

  predicate CurrentRuns(s: Sys)
    requires s.current in s.procs
  {
    s.procs[s.current].state == RUNNING
  }

  // The condition under which schedule() picks the process that was running and leaves it READY.
  predicate LoneExpiry(s: Sys, e: Event)
    requires s.current in s.procs
  {
    e == TimerTick && s.current != IDLE && s.queue == [] && s.procs[s.current].slice <= 1
  }

  // The current process is left marked READY exactly when its slice expires on an empty queue.
  lemma {:induction false} StaysRunningIff(s: Sys, e: Event)
    requires Inv(s) && CurrentRuns(s)
    ensures Closed(Step(s, e)) && (CurrentRuns(Step(s, e)) <==> !LoneExpiry(s, e))
  {
    StepInv(s, e);
    if s.queue != [] {
      assert s.queue[0] in s.queue;
      assert (s.queue + [s.current])[0] == s.queue[0];
    }
  }

  // From then on the timer does nothing: ticks are not counted and nobody is preempted.
  lemma {:induction false} UncountedTicks(s: Sys, events: seq<Event>)
    requires Inv(s) && !CurrentRuns(s) && forall i :: 0 <= i < |events| ==> events[i] == TimerTick
    ensures Run(s, events) == s
    decreases |events|
  {
    if events != [] {
      UncountedTicks(s, events[..|events| - 1]);
    }
  }

  // And when such a process yields it is lost: it stays READY, is on no queue, and no further
  // run ever dispatches it.
  lemma {:induction false} YieldLoses(s: Sys, events: seq<Event>)
    requires Inv(s) && !CurrentRuns(s)
    ensures Inv(Step(s, Yield))
    ensures var s' := Run(Step(s, Yield), events);
            s.current in s'.procs && s'.procs[s.current].state == READY && s'.current != s.current
                && s.current !in s'.queue
  {
    StepInv(s, Yield);
    if s.queue != [] {
      assert s.queue[0] in s.queue;
      assert forall q :: q in s.queue[1..] ==> q in s.queue;
    }
    NeverBack(Step(s, Yield), events, s.current);
  }

  lemma {:induction false} NeverBack(s: Sys, events: seq<Event>, p: nat)
    requires Inv(s) && p in s.procs && p != IDLE && p != s.current && p !in s.queue
    ensures var s' := Run(s, events); p in s'.procs && s'.procs[p] == s.procs[p] && s'.current != p && p !in s'.queue
    decreases |events|
  {
    if events != [] {
      NeverBack(s, events[..|events| - 1], p);
      OffQueueStays(Run(s, events[..|events| - 1]), events[|events| - 1], p);
    }
  }

  // ---- Ticks ----

  function Ticks(events: seq<Event>): nat {
    if events == [] then 0 else Ticks(events[..|events| - 1]) + if events[|events| - 1] == TimerTick then 1 else 0
  }

  // ---- Who has the CPU ----

  // The events at which schedule() takes the CPU from the current process: it exits, its slice runs out
  // while somebody waits, or it yields without being protected by its slice. A process that is RUNNING is;
  // idle is not, and neither is one whose slice has run out on an empty queue.
  predicate LosesCpu(s: Sys, e: Event)
    requires s.current in s.procs
  {
    match e
    case Fork(_, _) => false
    case TimerTick => CurrentRuns(s) && s.procs[s.current].slice == 1 && s.queue != []
    case Yield => !CurrentRuns(s) || (s.current == IDLE && s.queue != [])
    case ExitCall => s.current != IDLE
  }

  // In every reachable state and for every event, the current process loses the CPU exactly then, and it
  // goes to the head of the queue, or to idle when nobody waits, for a whole slice.
  lemma {:induction false} LosesCpuIff(s: Sys, e: Event)
    requires Inv(s)
    ensures Closed(Step(s, e)) && (Step(s, e).current != s.current <==> LosesCpu(s, e))
    ensures LosesCpu(s, e) ==>
              && Step(s, e).current == (if s.queue == [] then IDLE else s.queue[0])
              && CurrentRuns(Step(s, e)) && Step(s, e).procs[Step(s, e).current].slice == TIME_SLICE_DEFAULT
  {
    StepInv(s, e);
    if s.queue != [] {
      assert s.queue[0] in s.queue;
      assert (s.queue + [s.current])[0] == s.queue[0];
    }
  }

  // So a process other than idle that is RUNNING loses it if and only if it exits, or the tick that ends
  // its slice finds somebody waiting; a yield before that changes nothing at all.
  lemma {:induction false} SliceProtects(s: Sys, e: Event)
    requires Inv(s) && CurrentRuns(s) && s.current != IDLE
    ensures Closed(Step(s, e))
    ensures Step(s, e).current != s.current <==>
              e == ExitCall || (e == TimerTick && s.procs[s.current].slice == 1 && s.queue != [])
    ensures Step(s, Yield) == s
  {
    hide Inv, Step;
    LosesCpuIff(s, e);
    YieldInSlice(s);
  }

  lemma YieldInSlice(s: Sys)
    requires Inv(s) && CurrentRuns(s) && s.current != IDLE
    ensures Step(s, Yield) == s
  {
  }

  // Until then only the slice goes down, by the ticks, and the queue grows behind.
  lemma {:induction false} SliceStep(s: Sys, e: Event)
    requires Inv(s) && CurrentRuns(s) && s.current != IDLE && e != ExitCall
    requires e == TimerTick ==> s.procs[s.current].slice > 1
    ensures var s' := Step(s, e);
            && Closed(s') && s'.current == s.current && CurrentRuns(s') && s.queue <= s'.queue
            && s'.procs[s.current].slice == s.procs[s.current].slice - if e == TimerTick then 1 else 0
  {
  }

  // Under any interleaving with forks and yields, a RUNNING process that does not exit stays current for
  // exactly the ticks that are left of its slice.
  lemma {:induction false} KeepsItsSlice(s: Sys, events: seq<Event>)
    requires Inv(s) && CurrentRuns(s) && s.current != IDLE
    requires Ticks(events) < s.procs[s.current].slice && forall i :: 0 <= i < |events| ==> events[i] != ExitCall
    ensures var s' := Run(s, events);
            && s'.current == s.current && CurrentRuns(s') && s.queue <= s'.queue
            && s'.procs[s.current].slice == s.procs[s.current].slice - Ticks(events)
    decreases |events|
  {
    hide Inv, Step;
    if events != [] {
      KeepsItsSlice(s, events[..|events| - 1]);
      SliceStep(Run(s, events[..|events| - 1]), events[|events| - 1]);
    }
  }

  // And the next tick takes the CPU from it if and only if somebody waits by then.
  lemma {:induction false} LosesItThen(s: Sys, events: seq<Event>)
    requires Inv(s) && CurrentRuns(s) && s.current != IDLE
    requires Ticks(events) == s.procs[s.current].slice - 1
    requires forall i :: 0 <= i < |events| ==> events[i] != ExitCall
    ensures Run(s, events + [TimerTick]).current != s.current <==> Run(s, events).queue != []
    ensures s.queue != [] ==> Run(s, events + [TimerTick]).current == s.queue[0]
  {
    hide Inv, Step;
    KeepsItsSlice(s, events);
    var s' := Run(s, events);
    assert (events + [TimerTick])[..|events|] == events;
    StepInv(s', TimerTick);
    LosesCpuIff(s', TimerTick);
  }

  // ---- Processes made and ended ----

  // An exit makes the process a zombie for good, and it is never current or queued again.
  lemma {:induction false} ExitIsFinal(s: Sys, events: seq<Event>)
    requires Inv(s) && s.current != IDLE
    ensures Inv(Step(s, ExitCall))
    ensures var s' := Run(Step(s, ExitCall), events);
            && s.current in s'.procs && s'.procs[s.current].state == ZOMBIE
            && s'.current != s.current && s.current !in s'.queue
  {
    StepInv(s, ExitCall);
    var z := SetState(s, s.current, ZOMBIE);
    assert Requeue(z) == z;
    if s.queue != [] {
      assert s.queue[0] in s.queue;
    }
    hide Inv, Step;
    ZombiesStayDead(Step(s, ExitCall), events, s.current);
  }

  lemma {:induction false} SpaceStays(s: Sys, events: seq<Event>, p: nat)
    requires Inv(s) && p in s.procs
    ensures var s' := Run(s, events); p in s'.procs && s'.procs[p].mm == s.procs[p].mm
    decreases |events|
  {
    hide Step;
    if events != [] {
      SpaceStays(s, events[..|events| - 1], p);
      SpaceStaysOnce(Run(s, events[..|events| - 1]), events[|events| - 1], p);
    }
  }

  lemma {:induction false} SpaceStaysOnce(s: Sys, e: Event, p: nat)
    requires Inv(s) && p in s.procs
    ensures p in Step(s, e).procs && Step(s, e).procs[p].mm == s.procs[p].mm
  {
    if s.queue != [] {
      assert s.queue[0] in s.queue;
    }
  }

  // A fork that succeeds adds one process, with a new pid, at the tail of the queue, and leaves all others
  // as they were. Over every run, whenever the child is current, CR3 is the page table it was given.
  lemma {:induction false} ChildRunsInItsSpace(s: Sys, mm: nat, events: seq<Event>)
    requires Inv(s)
    ensures var s' := Step(s, Fork(Some(mm), true));
            && s.nextPid !in s.procs && s'.procs == s.procs[s.nextPid := s'.procs[s.nextPid]]
            && s'.procs[s.nextPid].state == READY && s'.queue == s.queue + [s.nextPid] && s'.current == s.current
    ensures Inv(Step(s, Fork(Some(mm), true)))
    ensures var s' := Run(Step(s, Fork(Some(mm), true)), events); s'.current == s.nextPid ==> s'.cr3 == mm
  {
    StepInv(s, Fork(Some(mm), true));
    var s' := Step(s, Fork(Some(mm), true));
    SpaceStays(s', events, s.nextPid);
  }

  // ---- Round robin ----

  // Timer ticks until the process at position k of the queue gets the CPU, at most.
  function Wait(s: Sys, k: nat): int
    requires s.current in s.procs
  {
    s.procs[s.current].slice + TIME_SLICE_DEFAULT * k
  }

  ghost predicate Dispatched(s: Sys, events: seq<Event>, p: nat)
    requires Inv(s)
  {
    exists n :: 0 <= n <= |events| && Run(s, events[..n]).current == p
  }

  // One step: the process is dispatched, or it has moved up so that its wait has shrunk by the
  // tick, if the step was one.
  lemma {:induction false} WaitShrinks(s: Sys, e: Event, k: nat)
    requires Inv(s) && CurrentRuns(s) && k < |s.queue|
    ensures Closed(Step(s, e))
    ensures Step(s, e).current == s.queue[k]
            || exists k' :: 0 <= k' < |Step(s, e).queue| && Step(s, e).queue[k'] == s.queue[k]
                && CurrentRuns(Step(s, e))
                            && Wait(Step(s, e), k') <= Wait(s, k) - if e == TimerTick then 1 else 0
  {
    StepInv(s, e);
    StaysRunningIff(s, e);
    var s' := Step(s, e);
    if s'.current == s.current || e.Fork? {
      assert s'.queue[k] == s.queue[k];
    } else if k > 0 {
      assert s'.queue[k - 1] == s.queue[k];
    }
  }

  // However forks, yields and exits are interleaved with the ticks: while the current process is
  // RUNNING, the process at position k is dispatched within slice + 10 * k <= (k + 1) * 10 ticks.
  lemma {:induction false} RoundRobinBound(s: Sys, events: seq<Event>, k: nat)
    requires Inv(s) && CurrentRuns(s) && k < |s.queue|
    ensures Wait(s, k) <= (k + 1) * TIME_SLICE_DEFAULT
    ensures Ticks(events) >= Wait(s, k) ==> Dispatched(s, events, s.queue[k])
    decreases |events|
  {
    if Ticks(events) >= Wait(s, k) {
      var e := events[0];
      StepInv(s, e);
      WaitShrinks(s, e, k);
      TicksFromFirst(events);
      var s' := Step(s, e);
      hide Step, Inv, Closed, Run;
      if s'.current == s.queue[k] {
        DispatchedNow(s, events);
      } else {
        var k' :| 0 <= k' < |s'.queue| && s'.queue[k'] == s.queue[k] && CurrentRuns(s')
                  && Wait(s', k') <= Wait(s, k) - if e == TimerTick then 1 else 0;
        RoundRobinBound(s', events[1..], k');
        DispatchedLater(s, events, s.queue[k]);
      }
    }
  }

  lemma {:induction false} DispatchedNow(s: Sys, events: seq<Event>)
    requires Inv(s) && events != []
    ensures Closed(Step(s, events[0])) && Dispatched(s, events, Step(s, events[0]).current)
  {
    StepInv(s, events[0]);
    hide Step, Inv;
    RunOne(s, events[0]);
    assert events[..1] == [events[0]];
    assert Run(s, events[..1]).current == Step(s, events[0]).current;
  }

  lemma {:induction false} DispatchedLater(s: Sys, events: seq<Event>, p: nat)
    requires Inv(s) && events != [] && Inv(Step(s, events[0])) && Dispatched(Step(s, events[0]), events[1..], p)
    ensures Dispatched(s, events, p)
  {
    var s', rest := Step(s, events[0]), events[1..];
    hide Step, Inv, Run;
    var n :| 0 <= n <= |rest| && Run(s', rest[..n]).current == p;
    var upTo := events[..n + 1];
    assert upTo[0] == events[0] && upTo[1..] == rest[..n];
    RunFromFirst(s, upTo);
    assert Run(s, events[..n + 1]).current == p;
  }

  lemma {:induction false} RunOne(s: Sys, e: Event)
    requires Inv(s)
    ensures Run(s, [e]) == Step(s, e)
  {
    assert [e][..0] == [];
  }

  lemma {:induction false} RunFromFirst(s: Sys, events: seq<Event>)
    requires Inv(s) && events != []
    ensures Inv(Step(s, events[0])) && Run(s, events) == Run(Step(s, events[0]), events[1..])
    decreases |events|
  {
    hide Step, Inv;
    StepInv(s, events[0]);
    if |events| == 1 {
      RunOne(s, events[0]);
      assert events == [events[0]];
    } else {
      var init := events[..|events| - 1];
      RunFromFirst(s, init);
      assert init[1..] == events[1..][..|events| - 2];
    }
  }

  lemma {:induction false} TicksFromFirst(events: seq<Event>)
    requires events != []
    ensures Ticks(events) == Ticks(events[1..]) + if events[0] == TimerTick then 1 else 0
    decreases |events|
  {
    if |events| > 1 {
      var init := events[..|events| - 1];
      TicksFromFirst(init);
      assert init[1..] == events[1..][..|events| - 2];
    } else {
      assert events[..0] == [];
    }
  }

  // With ticks alone the bound is exact: the process is still waiting after any fewer ticks.
  lemma {:induction false} RoundRobinExact(s: Sys, events: seq<Event>, k: nat)
    requires Inv(s) && CurrentRuns(s) && k < |s.queue|
    requires forall i :: 0 <= i < |events| ==> events[i] == TimerTick
    ensures |events| < Wait(s, k) ==> Run(s, events).current != s.queue[k]
    ensures |events| == Wait(s, k) ==> Run(s, events).current == s.queue[k]
    decreases |events|
  {
    hide Step, Inv, Run, Tick;
    NoEventsLeft(s, events);
    TickStep(s, k);
    if events != [] {
      var s', rest := Tick(s), events[1..];
      TickExactly(s, k);
      RunFromFirst(s, events);
      NoEventsLeft(s', rest);
      if s.procs[s.current].slice > 1 {
        RoundRobinExact(s', rest, k);
      } else if k > 0 {
        RoundRobinExact(s', rest, k - 1);
      }
    }
  }

  lemma {:induction false} TickStep(s: Sys, k: nat)
    requires Inv(s) && k < |s.queue|
    ensures Closed(s) && Step(s, TimerTick) == Tick(s) && Inv(Tick(s))
    ensures 1 <= s.procs[s.current].slice <= TIME_SLICE_DEFAULT && s.current !in s.queue
  {
    hide Tick;
    StepInv(s, TimerTick);
    assert forall i :: 0 <= i < |s.queue| ==> s.queue[i] != s.current;
  }

  lemma {:induction false} NoEventsLeft(s: Sys, events: seq<Event>)
    requires Inv(s)
    ensures events == [] ==> Run(s, events) == s
  {
  }

  // One tick while somebody waits: the slice shrinks, or the head of the queue takes over.
  lemma {:induction false} TickExactly(s: Sys, k: nat)
    requires Inv(s) && CurrentRuns(s) && k < |s.queue|
    ensures var s' := Tick(s);
            s'.current in s'.procs && CurrentRuns(s')
            && if s.procs[s.current].slice > 1
               then s'.current == s.current && s'.queue == s.queue
                   && s'.procs[s'.current].slice == s.procs[s.current].slice - 1
               else s'.current == s.queue[0] && s'.procs[s'.current].slice == TIME_SLICE_DEFAULT
                    && s'.queue == (if s.current == IDLE then s.queue else s.queue + [s.current])[1..]
  {
    StaysRunningIff(s, TimerTick);
  }
}
