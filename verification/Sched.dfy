/** schedule(), timer_callback and the process syscalls over the PCBs and the linked ready queue
    (kernel/src/proc/sche.c, kernel/src/arch/timer.c, kernel/src/arch/interrupts.c).

    Each method is proved to perform the corresponding step of SchedSpec.
  */
module Sched {
  import opened Common
  import opened IntrusiveList
  import opened SchedSpec

  const READY_QUEUE: nat := 0  // &ready_queue

  // The sched_node of a PCB, and container_of back from it.
  function NodeOf(pid: nat): nat { pid + 1 }

  function RingOf(queue: seq<nat>): seq<nat> {
    [READY_QUEUE] + seq(|queue|, i requires 0 <= i < |queue| => NodeOf(queue[i]))
  }

  lemma RingAppend(queue: seq<nat>, pid: nat)
    ensures RingOf(queue) + [NodeOf(pid)] == RingOf(queue + [pid])
    ensures pid !in queue ==> NodeOf(pid) !in RingOf(queue)
  {
  }

  lemma RingPop(queue: seq<nat>)
    requires queue != []
    ensures Removed(RingOf(queue), 1) == RingOf(queue[1..]) && RingOf(queue)[1] == NodeOf(queue[0])
  {
  }

  class Scheduler {
    const nodes: NodeStore
    var procs: map<nat, Pcb>
    var current: nat
    var cr3: nat
    var nextPid: nat
    ghost var queue: seq<nat>

    ghost function View(): Sys
      reads this
    {
      Sys(procs, current, queue, cr3, nextPid)
    }

    ghost predicate Queued()
      reads this, nodes
    {
      nodes.Holds(RingOf(queue))
    }

    ghost predicate Valid()
      reads this, nodes
    {
      Queued() && Inv(View())
    }

    // proc_init
    constructor (pml4: nat)
      ensures Valid() && View() == Boot(pml4) && fresh(nodes)
    {
      nodes := new NodeStore();
      procs := map[IDLE := Pcb(RUNNING, TIME_SLICE_DEFAULT, None)];
      current := IDLE;
      cr3 := pml4;
      nextPid := 1;
      queue := [];
      new;
      nodes.ListInit(READY_QUEUE);
      assert RingOf([]) == [READY_QUEUE];
    }

    // list_add_before(&proc->sched_node, &ready_queue)
    method Enqueue(pid: nat)
      requires Queued() && pid !in queue
      modifies this`queue, nodes
      ensures Queued() && queue == old(queue) + [pid]
    {
      hide IsRing;
      RingAppend(queue, pid);
      nodes.ListAddBefore(NodeOf(pid), READY_QUEUE, RingOf(queue));
      queue := queue + [pid];
    }

    // ready_queue.next == &ready_queue, or the pid of the head.
    method Head() returns (empty: bool, pid: nat)
      requires Queued()
      ensures empty <==> queue == []
      ensures !empty ==> pid == queue[0]
    {
      hide IsRing;
      RingAt(nodes.next, nodes.prev, RingOf(queue), 0);
      var node: nat := nodes.next[READY_QUEUE];
      if node == READY_QUEUE {
        return true, 0;
      }
      return false, node - 1;
    }

    // list_del of the head's node
    method PopHead(pid: nat)
      requires Queued() && queue != [] && pid == queue[0]
      modifies this`queue, nodes
      ensures Queued() && queue == old(queue)[1..]
    {
      hide IsRing;
      RingPop(queue);
      nodes.ListDel(NodeOf(pid), RingOf(queue), 1);
      queue := queue[1..];
    }

    method Schedule()
      requires Queued() && PreOrRunning(View())
      modifies this, nodes
      ensures Valid() && View() == SchedSpec.Schedule(old(View()))
    {
      hide IsRing, Inv, PreSchedule;
      ghost var s := View();
      Settled(s);
      var prev := current;
      if procs[prev].state == RUNNING && prev != IDLE {
        if procs[prev].slice <= 0 {
          procs := procs[prev := procs[prev].(state := READY, slice := TIME_SLICE_DEFAULT)];
          Enqueue(prev);
        } else {
          return;
        }
      }
      assert View() == Requeue(s);
      var empty, next := Head();
      if empty {
        next := IDLE;
        procs := procs[next := procs[next].(state := RUNNING, slice := TIME_SLICE_DEFAULT)];
      } else {
        PopHead(next);
      }
      if prev != next {
        var mm := procs[next].mm;
        procs := procs[next := procs[next].(state := RUNNING, slice := TIME_SLICE_DEFAULT)];
        current := next;
        if mm.Some? && (procs[prev].mm.None? || procs[prev].mm != mm) {
          cr3 := mm.value;
        }
      }
      assert View() == Dispatch(Requeue(s));
      ScheduleInv(s);
    }

    // timer_callback
    method TimerCallback()
      requires Valid()
      modifies this, nodes
      ensures Valid() && View() == Tick(old(View()))
    {
      hide IsRing, SchedSpec.Schedule, PreSchedule;
      BeforeSchedule(View());
      StepInv(View(), TimerTick);
      if procs[current].state == RUNNING {
        procs := procs[current := procs[current].(slice := procs[current].slice - 1)];
        if procs[current].slice <= 0 {
          Schedule();
        }
      }
    }

    // SYS_YIELD
    method SysYield()
      requires Valid()
      modifies this, nodes
      ensures Valid() && View() == Step(old(View()), Yield)
    {
      hide IsRing, SchedSpec.Schedule, PreSchedule;
      BeforeSchedule(View());
      Schedule();
    }

    // The end of sys_fork and create_user_process: the new PCB is READY and queued.
    // ok: the memory part succeeded. Otherwise the pid is used up and -1 is returned.
    method SysFork(mm: Option<nat>, ok: bool) returns (r: int)
      requires Valid()
      modifies this, nodes
      ensures Valid() && View() == Step(old(View()), Fork(mm, ok)) && r == if ok then old(nextPid) else -1
    {
      hide IsRing;
      StepInv(View(), Fork(mm, ok));
      var pid := nextPid;
      nextPid := nextPid + 1;
      if !ok {
        return -1;
      }
      procs := procs[pid := Pcb(READY, TIME_SLICE_DEFAULT, mm)];
      Enqueue(pid);
      r := pid;
    }

    // SYS_EXIT and kthread_exit
    method SysExit()
      requires Valid() && current != IDLE
      modifies this, nodes
      ensures Valid() && View() == Step(old(View()), ExitCall)
    {
      hide IsRing, SchedSpec.Schedule, PreSchedule;
      BeforeSchedule(View());
      procs := procs[current := procs[current].(state := ZOMBIE)];
      Schedule();
    }
  }

  // What schedule() may find: a settled state, or one its callers have just changed.
  ghost predicate PreOrRunning(s: Sys) {
    Inv(s) || PreSchedule(s)
  }

  lemma {:induction false} Settled(s: Sys)
    requires PreOrRunning(s)
    ensures Closed(s) && QueueOk(s) && s.current !in s.queue
    ensures if KeepsRunning(s) then Inv(s) else PreSchedule(s)
  {
  }

  // The states in which timer_callback and the exit paths call schedule().
  lemma {:induction false} BeforeSchedule(s: Sys)
    requires Inv(s)
    ensures PreOrRunning(s)
    ensures s.procs[s.current].state == RUNNING && s.procs[s.current].slice <= 1 ==>
              PreSchedule(s.(procs := s.procs[s.current := s.procs[s.current].(slice := s.procs[s.current].slice - 1)]))
    ensures s.current != IDLE ==> PreSchedule(SetState(s, s.current, ZOMBIE))
  {
  }
}
