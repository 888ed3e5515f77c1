/** A run of the process table on one CPU with two slots, step by step. */
module ProcRun {
  import opened ProcTable

  /** A machine with two slots and one CPU. */
  function Machine(a: Slot, b: Slot, cpu: Cpu, lock: Option<nat>, nextpid: nat): (s: State) {
    State([a, b], [cpu], lock, nextpid, 0, false)
  }

  lemma Updates<T>(a: T, b: T, x: T)
    ensures [a, b][0 := x] == [x, b] && [a, b][1 := x] == [a, x] && [a][0 := x] == [x]
  {
  }

  const BOOT_CPU: Cpu := Cpu(Loop, None, 0, true, true, 0)
  const INIT: Slot := Slot(RUNNABLE, 1, None, NoChan, ForkRet, Nothing, true, true)
  const SPARE: Slot := Slot(UNUSED, 0, None, NoChan, Nowhere, Nothing, true, true)
  const LOCKED: Cpu := Cpu(Scan, None, 1, true, false, 0)      // scanning with the table locked

  function OnCpu(ncli: nat, iflag: bool): (cpu: Cpu) {
    Cpu(Run(0), Some(0), ncli, true, iflag, 0)
  }

  function InitAt(pc: Pc, pending: Pending): (slot: Slot) {
    INIT.(state := RUNNING, pc := pc, pending := pending)
  }

  /** Init on the CPU outside the lock, with `n` the next pid. */
  function Outside(pending: Pending, child: Slot, n: nat): (s: State) {
    Machine(InitAt(Kernel(0), pending), child, OnCpu(0, true), None, n)
  }

  /** Init in a critical section. */
  function Holding(op: Op, pending: Pending, child: Slot, n: nat): (s: State) {
    Machine(InitAt(Hold(op, 0), pending), child, OnCpu(1, false), Some(0), n)
  }

  /** The scheduler picks `slot` and it goes on outside the lock. */
  lemma Dispatched(slot: Slot, other: Slot, n: nat, cpu: Cpu) returns (mid: seq<State>)
    requires slot.state.RUNNABLE? && slot.saved && slot.want && (slot.pc.ForkRet? || slot.pc.YieldBack?)
    requires cpu.mode.Loop? && cpu.ncli == 0 && cpu.proc == None
    ensures |mid| == 3
    ensures Next(Machine(slot, other, cpu, None, n), mid[0]) && Next(mid[0], mid[1]) && Next(mid[1], mid[2])
    ensures mid[2] == Machine(slot.(state := RUNNING, pc := Kernel(0)), other, OnCpu(0, true), None, n)
  {
    var s0 := Machine(slot, other, cpu, None, n);
    var taken := cpu.(mode := Scan, scan := 0, ncli := 1, intena := true, iflag := false);
    var s1 := Machine(slot, other, taken, Some(0), n);
    Updates(cpu, cpu, cpu.(iflag := true));
    Updates(cpu.(iflag := true), cpu, PushCli(cpu.(iflag := true)));
    Updates(PushCli(cpu.(iflag := true)), cpu, taken);
    assert Step(s0, s1, 0, SchedTake);
    var on := taken.(mode := Run(0), proc := Some(0));
    var running := slot.(state := RUNNING);
    var s2 := Machine(running, other, on, Some(0), n);
    Updates(taken, taken, on);
    Updates(slot, other, running);
    assert Step(s1, s2, 0, SchedRun);
    var s3 := Machine(running.(pc := Kernel(0)), other, OnCpu(0, true), None, n);
    Updates(on, on, on.(intena := true));
    Updates(on, on, PopCli(on));
    Updates(running, other, running.(pc := Kernel(0)));
    assert running.(pc := Kernel(0), want := on.intena) == running.(pc := Kernel(0));
    assert Step(s2, s3, 0, Resume);
    mid := [s1, s2, s3];
  }

  /** Init, on the CPU outside the lock, begins a critical section. */
  lemma Begun(op: Op, pending: Pending, other: Slot, n: nat)
    requires Callable(op, 0, pending) && !op.Exit?
    ensures Next(Outside(pending, other, n), Holding(op, pending, other, n))
  {
    Updates(OnCpu(0, true), OnCpu(0, true), OnCpu(1, false));
    Updates(InitAt(Kernel(0), pending), other, InitAt(Hold(op, 0), pending));
    assert Step(Outside(pending, other, n), Holding(op, pending, other, n), 0, Begin(op));
  }

  const EMBRYO_CHILD: Slot := SPARE.(state := EMBRYO, pid := 2)

  function ChildAt(state: PState, pc: Pc): (slot: Slot) {
    EMBRYO_CHILD.(state := state, parent := Some(0), pc := pc)
  }

  lemma Allocates()
    ensures Next(Holding(Alloc, Nothing, SPARE, 2), Outside(Building(1), EMBRYO_CHILD, 3))
  {
    var s := Holding(Alloc, Nothing, SPARE, 2);
    var s' := Outside(Building(1), EMBRYO_CHILD, 3);
    Updates(OnCpu(1, false), OnCpu(1, false), OnCpu(0, true));
    Updates(InitAt(Hold(Alloc, 0), Nothing), SPARE, EMBRYO_CHILD);
    Updates(InitAt(Hold(Alloc, 0), Nothing), EMBRYO_CHILD, InitAt(Kernel(0), Building(1)));
    assert FirstUnused(s.slots, 1) && s.slots[1].state.UNUSED?;
    assert Step(s, s', 0, Body(1));
  }

  /** A timer interrupt takes the CPU from init in the middle of `fork`. */
  lemma Preempted() returns (mid: seq<State>)
    ensures |mid| == 4
    ensures Next(Holding(Yield, Building(1), EMBRYO_CHILD, 3), mid[0])
    ensures Next(mid[0], mid[1]) && Next(mid[1], mid[2]) && Next(mid[2], mid[3])
    ensures mid[3] == Machine(INIT.(pc := YieldBack, pending := Building(1)), EMBRYO_CHILD, BOOT_CPU, None, 3)
  {
    var off := INIT.(pc := YieldBack, pending := Building(1));
    var was, child := InitAt(Hold(Yield, 0), Building(1)), EMBRYO_CHILD;
    var s := Machine(was, child, OnCpu(1, false), Some(0), 3);
    var back := OnCpu(1, false).(mode := Back);
    var s1 := Machine(off, child, back, Some(0), 3);
    Updates(was, child, off);
    Updates(off, child, off);
    Updates(OnCpu(1, false), OnCpu(1, false), back);
    assert Step(s, s1, 0, Body(0));
    var scan := LOCKED.(scan := 1);
    var s2 := Machine(off, child, scan, Some(0), 3);
    Updates(back, back, scan);
    assert Step(s1, s2, 0, SchedBack);
    var s3 := Machine(off, child, LOCKED.(scan := 2), Some(0), 3);
    Updates(scan, scan, LOCKED.(scan := 2));
    assert Step(s2, s3, 0, SchedSkip);
    var s4 := Machine(off, child, BOOT_CPU, None, 3);
    Updates(LOCKED.(scan := 2), BOOT_CPU, PopCli(LOCKED.(scan := 2)));
    Updates(PopCli(LOCKED.(scan := 2)), BOOT_CPU, BOOT_CPU);
    assert Step(s3, s4, 0, SchedDrop);
    mid := [s1, s2, s3, s4];
  }

  /** An interrupt handler on the idle CPU calls `wakeup`. */
  lemma Interrupted(a: Slot, b: Slot, n: nat) returns (mid: seq<State>)
    requires !a.state.SLEEPING? && !b.state.SLEEPING?
    ensures |mid| == 4 && Next(Machine(a, b, BOOT_CPU, None, n), mid[0])
    ensures Next(mid[0], mid[1]) && Next(mid[1], mid[2]) && Next(mid[2], mid[3])
    ensures exists cpu: Cpu :: mid[1].cpus == [cpu] && cpu.mode == IrqHold(7, 0)
    ensures mid[3] == Machine(a, b, BOOT_CPU.(intena := false), None, n)
  {
    var irq := BOOT_CPU.(mode := Irq(0), iflag := false);
    var s1 := Machine(a, b, irq, None, n);
    Updates(BOOT_CPU, BOOT_CPU, irq);
    assert Step(Machine(a, b, BOOT_CPU, None, n), s1, 0, IrqEnter);
    var hold := PushCli(irq).(mode := IrqHold(7, 0));
    var s2 := Machine(a, b, hold, Some(0), n);
    Updates(irq, irq, PushCli(irq));
    Updates(PushCli(irq), irq, hold);
    assert Step(s1, s2, 0, Begin(Wakeup(7)));
    var done := irq.(intena := false);
    var s3 := Machine(a, b, done, None, n);
    assert Wake([a, b], Other(7)) == [a, b];
    Updates(hold, hold, PopCli(hold));
    Updates(PopCli(hold), hold, done);
    assert Step(s2, s3, 0, Body(0));
    var s4 := Machine(a, b, BOOT_CPU.(intena := false), None, n);
    Updates(done, done, BOOT_CPU.(intena := false));
    assert Step(s3, s4, 0, IrqLeave);
    mid := [s1, s2, s3, s4];
  }

  lemma Publishes()
    ensures Next(Outside(Building(1), EMBRYO_CHILD, 3), Outside(Parented(1), ChildAt(EMBRYO, Nowhere), 3))
    ensures Next(Holding(Publish(1), Parented(1), ChildAt(EMBRYO, Nowhere), 3),
                 Outside(Nothing, ChildAt(RUNNABLE, ForkRet), 3))
  {
    Updates(InitAt(Kernel(0), Building(1)), EMBRYO_CHILD, ChildAt(EMBRYO, Nowhere));
    Updates(InitAt(Kernel(0), Building(1)), ChildAt(EMBRYO, Nowhere), InitAt(Kernel(0), Parented(1)));
    assert Step(Outside(Building(1), EMBRYO_CHILD, 3), Outside(Parented(1), ChildAt(EMBRYO, Nowhere), 3), 0, SetParent);
    Updates(InitAt(Hold(Publish(1), 0), Parented(1)), ChildAt(EMBRYO, Nowhere), ChildAt(RUNNABLE, ForkRet));
    Updates(InitAt(Hold(Publish(1), 0), Parented(1)), ChildAt(RUNNABLE, ForkRet), InitAt(Kernel(0), Nothing));
    Updates(OnCpu(1, false), OnCpu(1, false), OnCpu(0, true));
    assert Step(Holding(Publish(1), Parented(1), ChildAt(EMBRYO, Nowhere), 3),
                Outside(Nothing, ChildAt(RUNNABLE, ForkRet), 3), 0, Body(0));
  }

  const WAITING: Slot := INIT.(state := SLEEPING, chan := OfProc(0), pc := WaitBack)

  lemma Waits()
    ensures Next(Holding(Wait, Nothing, ChildAt(RUNNABLE, ForkRet), 3),
                 Machine(WAITING, ChildAt(RUNNABLE, ForkRet), OnCpu(1, false).(mode := Back), Some(0), 3))
  {
    var was, child := InitAt(Hold(Wait, 0), Nothing), ChildAt(RUNNABLE, ForkRet);
    var s := Machine(was, child, OnCpu(1, false), Some(0), 3);
    Updates(was, child, WAITING);
    Updates(WAITING, child, WAITING);
    Updates(OnCpu(1, false), OnCpu(1, false), OnCpu(1, false).(mode := Back));
    assert !HasZombieChild(s.slots, 0) && s.slots[1].parent == Some(0);
    assert Step(s, Machine(WAITING, child, OnCpu(1, false).(mode := Back), Some(0), 3), 0, Body(0));
  }

  /** There is a run in which init is dispatched, loses the CPU in the middle of `fork`, an interrupt handler on the
      idle CPU calls `wakeup`, and init comes back, finishes the `fork` and waits for its child. */
  lemma RunsExist() returns (run: seq<State>)
    ensures IsRun(run) && |run| == 23
    ensures run[0] == Machine(INIT, SPARE, BOOT_CPU, None, 2)
    ensures run[10] == Machine(INIT.(pc := YieldBack, pending := Building(1)), EMBRYO_CHILD, BOOT_CPU, None, 3)
    ensures exists cpu: Cpu :: run[12].cpus == [cpu] && cpu.mode == IrqHold(7, 0)
    ensures run[22] == Machine(WAITING, ChildAt(RUNNABLE, ForkRet), OnCpu(1, false).(mode := Back), Some(0), 3)
  {
    hide Next;
    var boot := Machine(INIT, SPARE, BOOT_CPU, None, 2);
    var up := Dispatched(INIT, SPARE, 2, BOOT_CPU);
    Begun(Alloc, Nothing, SPARE, 2);
    var alloc := Holding(Alloc, Nothing, SPARE, 2);
    Allocates();
    var built := Outside(Building(1), EMBRYO_CHILD, 3);
    Begun(Yield, Building(1), EMBRYO_CHILD, 3);
    var yielding := Holding(Yield, Building(1), EMBRYO_CHILD, 3);
    var off := Preempted();
    var slot := INIT.(pc := YieldBack, pending := Building(1));
    var irq := Interrupted(slot, EMBRYO_CHILD, 3);
    var again := Dispatched(slot, EMBRYO_CHILD, 3, BOOT_CPU.(intena := false));
    Publishes();
    var parented := Outside(Parented(1), ChildAt(EMBRYO, Nowhere), 3);
    Begun(Publish(1), Parented(1), ChildAt(EMBRYO, Nowhere), 3);
    var publishing := Holding(Publish(1), Parented(1), ChildAt(EMBRYO, Nowhere), 3);
    var forked := Outside(Nothing, ChildAt(RUNNABLE, ForkRet), 3);
    Begun(Wait, Nothing, ChildAt(RUNNABLE, ForkRet), 3);
    var waiting := Holding(Wait, Nothing, ChildAt(RUNNABLE, ForkRet), 3);
    Waits();
    var asleep := Machine(WAITING, ChildAt(RUNNABLE, ForkRet), OnCpu(1, false).(mode := Back), Some(0), 3);
    run := [boot, up[0], up[1], up[2], alloc, built, yielding, off[0], off[1], off[2], off[3],
            irq[0], irq[1], irq[2], irq[3], again[0], again[1], again[2],
            parented, publishing, forked, waiting, asleep];
    forall i | 0 <= i < |run| - 1 ensures Next(run[i], run[i + 1]) {
    }
  }
}
