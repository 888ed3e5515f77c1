/** The process table under `ptable.lock`: fork, exit, wait, yield, sleep, wakeup, the per-CPU schedulers and
    interrupt handlers as interleaved steps of any number of CPUs, with the interrupt-disable nesting of
    the spinlocks. A step is one acquire, or the work up to the next release or context switch. */
module ProcTable {
  datatype Option<T> = None | Some(value: T)

  datatype PState = UNUSED | EMBRYO | SLEEPING | RUNNABLE | RUNNING | ZOMBIE

  /** What a process sleeps on: nothing, a process (in `wait`), or some other address. */
  datatype Chan = NoChan | OfProc(p: nat) | Other(id: nat)

  /** The critical sections of the table. */
  datatype Op = Alloc | Publish(child: nat) | Exit | Wait | Yield | Sleep(on: nat) | Wakeup(of: nat)

  /** Where a process is. */
  datatype Pc =
    | Nowhere                       // unused, embryo or zombie: it has no thread of control
    | ForkRet                       // first dispatch goes to forkret
    | Kernel(held: nat)             // running, holding that many other spinlocks
    | Hold(op: Op, held: nat)       // inside a critical section of the table
    | YieldBack                     // to be resumed in yield
    | SleepBack                     // to be resumed in sleep, called with another lock
    | WaitBack                      // to be resumed in sleep, called by wait

  /** What a process outside the table lock still has to do, while interrupt handlers may run on top of it and a
      timer interrupt may take the CPU away. */
  datatype Pending =
    | Nothing
    | Building(child: nat)          // fork: filling in the child
    | Parented(child: nat)          // fork: the child's parent is set
    | Relocking                     // sleep: acquire(lk) again

  datatype Slot = Slot(
    state: PState, pid: nat, parent: Option<nat>, chan: Chan, pc: Pc, pending: Pending, saved: bool, want: bool)

  /** A CPU is in its scheduler (before the acquire, scanning, or just switched back to), in an interrupt handler on
      the scheduler's stack (holding `held` other spinlocks, or inside `wakeup`), or runs a process. */
  datatype Mode = Loop | Irq(held: nat) | IrqHold(of: nat, held: nat) | Scan | Back | Run(p: nat)

  datatype Cpu = Cpu(mode: Mode, proc: Option<nat>, ncli: int, intena: bool, iflag: bool, scan: nat)

  datatype State = State(slots: seq<Slot>, cpus: seq<Cpu>, lock: Option<nat>, nextpid: nat, init: nat, panic: bool)

  // ---- interrupts and the spinlock ----

  function PushCli(c: Cpu): (r: Cpu) {
    c.(intena := if c.ncli == 0 then c.iflag else c.intena, iflag := false, ncli := c.ncli + 1)
  }

  function PopCli(c: Cpu): (r: Cpu) {
    c.(ncli := c.ncli - 1, iflag := c.iflag || (c.ncli == 1 && c.intena))
  }

  predicate PopPanics(c: Cpu) {
    c.iflag || c.ncli < 1
  }

  function SetCpu(s: State, c: nat, cpu: Cpu): (r: State)
    requires c < |s.cpus|
  {
    s.(cpus := s.cpus[c := cpu])
  }

  function SetSlot(s: State, p: nat, slot: Slot): (r: State)
    requires p < |s.slots|
  {
    s.(slots := s.slots[p := slot])
  }

  function Goto(s: State, p: nat, pc: Pc): (r: State)
    requires p < |s.slots|
  {
    SetSlot(s, p, s.slots[p].(pc := pc))
  }

  function Leave(s: State, p: nat, pc: Pc, pending: Pending): (r: State)
    requires p < |s.slots|
  {
    SetSlot(s, p, s.slots[p].(pc := pc, pending := pending))
  }

  /** `acquire`, at the moment the exchange succeeds; taking a lock this CPU holds panics. */
  function Acquire(s: State, c: nat): (r: State)
    requires c < |s.cpus|
  {
    if s.lock == Some(c) then s.(panic := true)
    else SetCpu(s, c, PushCli(s.cpus[c])).(lock := Some(c))
  }

  predicate CanAcquire(s: State, c: nat) {
    s.lock == None || s.lock == Some(c)
  }

  function Release(s: State, c: nat): (r: State)
    requires c < |s.cpus|
  {
    SetCpu(s, c, PopCli(s.cpus[c])).(lock := None, panic := s.panic || s.lock != Some(c) || PopPanics(s.cpus[c]))
  }

  /** `sched`: its checks, saving `intena`, and the switch to this CPU's scheduler. */
  function Sched(s: State, c: nat, p: nat): (r: State)
    requires c < |s.cpus| && p < |s.slots|
  {
    var cpu := s.cpus[c];
    var panics := s.lock != Some(c) || cpu.ncli != 1 || s.slots[p].state.RUNNING? || cpu.iflag;
    SetCpu(SetSlot(s, p, s.slots[p].(saved := cpu.intena)), c, cpu.(mode := Back)).(panic := s.panic || panics)
  }

  // ---- the table ----

  /** `wakeup1`. */
  function Wake(slots: seq<Slot>, ch: Chan): (r: seq<Slot>)
    ensures |r| == |slots|
    ensures forall i :: 0 <= i < |slots| ==>
      r[i] == if slots[i].state.SLEEPING? && slots[i].chan == ch then slots[i].(state := RUNNABLE) else slots[i]
  {
    seq(|slots|, i requires 0 <= i < |slots| =>
      if slots[i].state.SLEEPING? && slots[i].chan == ch then slots[i].(state := RUNNABLE) else slots[i])
  }

  /** `exit` passes the children of `p` to init. */
  function Orphan(slots: seq<Slot>, p: nat, init: nat): (r: seq<Slot>)
    ensures |r| == |slots|
    ensures forall i :: 0 <= i < |slots| ==>
      r[i] == if slots[i].parent == Some(p) then slots[i].(parent := Some(init)) else slots[i]
  {
    seq(|slots|, i requires 0 <= i < |slots| =>
      if slots[i].parent == Some(p) then slots[i].(parent := Some(init)) else slots[i])
  }

  ghost predicate HasZombieChild(slots: seq<Slot>, p: nat) {
    exists z :: 0 <= z < |slots| && ZombieOf(slots[z], p)
  }

  ghost predicate HasChild(slots: seq<Slot>, p: nat) {
    exists z :: 0 <= z < |slots| && slots[z].parent == Some(p)
  }

  /** The slots the table scans stop at. */
  ghost predicate FirstUnused(slots: seq<Slot>, x: nat) {
    x < |slots| && slots[x].state.UNUSED? && forall i :: 0 <= i < x ==> !slots[i].state.UNUSED?
  }

  predicate ZombieOf(slot: Slot, p: nat) {
    slot.parent == Some(p) && slot.state.ZOMBIE?
  }

  ghost predicate FirstZombieChild(slots: seq<Slot>, x: nat, p: nat) {
    x < |slots| && ZombieOf(slots[x], p) && forall i :: 0 <= i < x ==> !ZombieOf(slots[i], p)
  }

  ghost predicate WokenByExit(slots: seq<Slot>, p: nat, init: nat, q: nat)
    requires p < |slots| && q < |slots|
  {
    && slots[q].state.SLEEPING?
    && ((slots[p].parent.Some? && slots[q].chan == OfProc(slots[p].parent.value))
        || (HasZombieChild(slots, p) && slots[q].chan == OfProc(init)))
  }

  /** The table work of `exit`, up to the switch: wake the parent, hand the children to init (waking
      it if one is a zombie), become a zombie. */
  ghost function ExitSlots(slots: seq<Slot>, p: nat, init: nat): (r: seq<Slot>)
    requires p < |slots|
    ensures |r| == |slots|
    ensures forall q :: 0 <= q < |slots| && q != p ==> r[q] == slots[q].(
      state := if WokenByExit(slots, p, init, q) then RUNNABLE else slots[q].state,
      parent := if slots[q].parent == Some(p) then Some(init) else slots[q].parent)
  {
    var s1 := if slots[p].parent.Some? then Wake(slots, OfProc(slots[p].parent.value)) else slots;
    var s2 := if HasZombieChild(slots, p) then Wake(s1, OfProc(init)) else s1;
    var s3 := Orphan(s2, p, init);
    s3[p := s3[p].(state := ZOMBIE, pc := Nowhere)]
  }

  // ---- steps ----

  datatype Action =
    | SchedSti | SchedTake | SchedSkip | SchedRun | SchedBack | SchedDrop
    | IrqEnter | IrqLeave
    | LockOther | UnlockOther | SetFlag(b: bool)
    | Begin(op: Op) | Body(x: nat) | SetParent | ForkFail | ForkLeak | Relock | Resume

  /** When an operation may be called: holding how many other spinlocks, with what still to do. A process inside
      `fork` or `sleep` can be made to yield, and handlers on top of it may wake others. */
  predicate Callable(op: Op, held: nat, pending: Pending) {
    match op
    case Alloc => held == 0 && pending.Nothing?
    case Publish(child) => held == 0 && pending == Parented(child)
    case Exit => held == 0 && pending.Nothing?
    case Wait => held == 0 && pending.Nothing?
    case Yield => held == 0
    case Sleep(_) => held == 1 && pending.Nothing?    // the lock passed to sleep, and no other
    case Wakeup(_) => true
  }

  function SetMode(s: State, c: nat, mode: Mode, scan: nat): (r: State)
    requires c < |s.cpus|
  {
    SetCpu(s, c, s.cpus[c].(mode := mode, scan := scan))
  }

  /** The scheduler's side of CPU `c`. */
  ghost predicate SchedStep(s: State, s': State, c: nat, a: Action)
    requires c < |s.cpus|
  {
    var cpu := s.cpus[c];
    match a
    case SchedSti =>
      cpu.mode.Loop? && s' == SetCpu(s, c, cpu.(iflag := true))
    case IrqEnter =>
      cpu.mode.Loop? && cpu.iflag && s' == SetCpu(s, c, cpu.(mode := Irq(0), iflag := false))
    case IrqLeave =>
      cpu.mode == Irq(0) && s' == SetCpu(s, c, cpu.(mode := Loop, iflag := true))
    case LockOther =>
      cpu.mode.Irq? && s' == SetCpu(s, c, PushCli(cpu).(mode := Irq(cpu.mode.held + 1)))
    case UnlockOther =>
      && cpu.mode.Irq? && cpu.mode.held > 0
      && s' == SetCpu(s, c, PopCli(cpu).(mode := Irq(cpu.mode.held - 1))).(panic := s.panic || PopPanics(cpu))
    case Begin(op) =>
      && cpu.mode.Irq? && op.Wakeup? && CanAcquire(s, c)
      && s' == SetMode(Acquire(s, c), c, IrqHold(op.of, cpu.mode.held), cpu.scan)
    case Body(_) =>
      && cpu.mode.IrqHold?
      && s' == SetMode(Release(s.(slots := Wake(s.slots, Other(cpu.mode.of))), c), c, Irq(cpu.mode.held), cpu.scan)
    case SchedTake =>
      && cpu.mode.Loop? && CanAcquire(s, c)
      && s' == SetMode(Acquire(SetCpu(s, c, cpu.(iflag := true)), c), c, Scan, 0)
    case SchedSkip =>
      && cpu.mode.Scan? && cpu.scan < |s.slots| && !s.slots[cpu.scan].state.RUNNABLE?
      && s' == SetMode(s, c, Scan, cpu.scan + 1)
    case SchedRun =>
      && cpu.mode.Scan? && cpu.scan < |s.slots| && s.slots[cpu.scan].state.RUNNABLE?
      && s' == SetSlot(SetCpu(s, c, cpu.(mode := Run(cpu.scan), proc := Some(cpu.scan))), cpu.scan,
                       s.slots[cpu.scan].(state := RUNNING))
    case SchedBack =>
      cpu.mode.Back? && s' == SetCpu(s, c, cpu.(mode := Scan, proc := None, scan := cpu.scan + 1))
    case SchedDrop =>
      cpu.mode.Scan? && cpu.scan >= |s.slots| && s' == SetMode(Release(s, c), c, Loop, 0)
    case _ => false
  }

  /** The body of a critical section, in the process `p` that runs on CPU `c`. */
  ghost predicate BodyStep(s: State, s': State, c: nat, p: nat, op: Op, held: nat, x: nat)
    requires c < |s.cpus| && p < |s.slots|
  {
    match op
    case Alloc =>
      if exists i :: 0 <= i < |s.slots| && s.slots[i].state.UNUSED? then
        && FirstUnused(s.slots, x)
        && var marked := SetSlot(s, x, s.slots[x].(state := EMBRYO, pid := s.nextpid));
           s' == Leave(Release(marked.(nextpid := s.nextpid + 1), c), p, Kernel(0), Building(x))
      else
        s' == Goto(Release(s, c), p, Kernel(0))
    case Publish(child) =>
      && child < |s.slots|
      && s' == Leave(Release(SetSlot(s, child, s.slots[child].(state := RUNNABLE, pc := ForkRet)), c), p, Kernel(0),
                     Nothing)
    case Exit =>
      p != s.init && s' == Sched(s.(slots := ExitSlots(s.slots, p, s.init)), c, p)
    case Wait =>
      if HasZombieChild(s.slots, p) then
        && FirstZombieChild(s.slots, x, p)
        && s' == Goto(Release(SetSlot(s, x, s.slots[x].(state := UNUSED, pid := 0, parent := None)), c), p, Kernel(0))
      else if !HasChild(s.slots, p) then
        s' == Goto(Release(s, c), p, Kernel(0))
      else
        s' == Sched(SetSlot(s, p, s.slots[p].(state := SLEEPING, chan := OfProc(p), pc := WaitBack)), c, p)
    case Yield =>
      s' == Sched(SetSlot(s, p, s.slots[p].(state := RUNNABLE, pc := YieldBack)), c, p)
    case Sleep(on) =>
      var unlocked := SetCpu(s, c, PopCli(s.cpus[c])).(panic := s.panic || PopPanics(s.cpus[c]));
      s' == Sched(SetSlot(unlocked, p, s.slots[p].(state := SLEEPING, chan := Other(on), pc := SleepBack)), c, p)
    case Wakeup(of) =>
      s' == Goto(Release(s.(slots := Wake(s.slots, Other(of))), c), p, Kernel(held))
  }

  /** What follows a switch back into a process: `sched` restores `intena`, the caller goes on. */
  ghost predicate ResumeStep(s: State, s': State, c: nat, p: nat)
    requires c < |s.cpus| && p < |s.slots|
  {
    var cpu, slot := s.cpus[c], s.slots[p];
    var back := SetCpu(s, c, cpu.(intena := slot.saved));
    match slot.pc
    case ForkRet => s' == SetSlot(Release(s, c), p, slot.(pc := Kernel(0), want := cpu.intena))
    case YieldBack => s' == SetSlot(Release(back, c), p, slot.(pc := Kernel(0)))
    case SleepBack => s' == SetSlot(Release(back, c), p, slot.(pc := Kernel(0), pending := Relocking, chan := NoChan))
    case WaitBack => s' == SetSlot(back, p, slot.(pc := Hold(Wait, 0), chan := NoChan))
    case _ => false
  }

  /** The side of the process `p` that runs on CPU `c`. */
  ghost predicate ProcStep(s: State, s': State, c: nat, p: nat, a: Action)
    requires c < |s.cpus| && p < |s.slots|
  {
    var cpu, slot := s.cpus[c], s.slots[p];
    match a
    case LockOther =>
      slot.pc.Kernel? && s' == Goto(SetCpu(s, c, PushCli(cpu)), p, Kernel(slot.pc.held + 1))
    case UnlockOther =>
      && slot.pc.Kernel? && slot.pc.held > 0
      && s' == Goto(SetCpu(s, c, PopCli(cpu)).(panic := s.panic || PopPanics(cpu)), p, Kernel(slot.pc.held - 1))
    case SetFlag(b) =>
      slot.pc == Kernel(0) && s' == SetSlot(SetCpu(s, c, cpu.(iflag := b)), p, slot.(want := b))
    case Begin(op) =>
      && CanAcquire(s, c) && slot.pc.Kernel? && Callable(op, slot.pc.held, slot.pending) && (op.Exit? ==> p != s.init)
      && s' == Goto(Acquire(s, c), p, Hold(op, slot.pc.held))
    case Body(x) =>
      slot.pc.Hold? && BodyStep(s, s', c, p, slot.pc.op, slot.pc.held, x)
    case SetParent =>
      && slot.pc == Kernel(0) && slot.pending.Building? && slot.pending.child < |s.slots|
      && s' == Leave(SetSlot(s, slot.pending.child, s.slots[slot.pending.child].(parent := Some(p))), p, Kernel(0),
                     Parented(slot.pending.child))
    case ForkFail =>      // no stack, or no memory for the copy: the slot is given back
      && slot.pc == Kernel(0) && slot.pending.Building? && slot.pending.child < |s.slots|
      && s' == Leave(SetSlot(s, slot.pending.child, s.slots[slot.pending.child].(state := UNUSED)), p, Kernel(0),
                     Nothing)
    case ForkLeak =>      // no page directory: the slot stays an embryo for ever
      slot.pc == Kernel(0) && slot.pending.Building? && s' == Leave(s, p, Kernel(0), Nothing)
    case Relock =>
      slot.pc == Kernel(0) && slot.pending.Relocking? && s' == Leave(SetCpu(s, c, PushCli(cpu)), p, Kernel(1), Nothing)
    case Resume => ResumeStep(s, s', c, p)
    case _ => false
  }

  ghost predicate Step(s: State, s': State, c: nat, a: Action) {
    && !s.panic && c < |s.cpus|
    && (if s.cpus[c].mode.Run?
        then s.cpus[c].mode.p < |s.slots| && ProcStep(s, s', c, s.cpus[c].mode.p, a)
        else SchedStep(s, s', c, a))
  }

  ghost predicate Next(s: State, s': State) {
    exists c: nat, a: Action :: Step(s, s', c, a)
  }

  /** After `userinit`: one runnable process, every CPU about to enter its scheduler. */
  ghost predicate Init(s: State) {
    && !s.panic && s.lock == None && s.nextpid == 2 && s.init < |s.slots|
    && (forall c :: 0 <= c < |s.cpus| ==> s.cpus[c].mode.Loop? && s.cpus[c].proc == None && s.cpus[c].ncli == 0)
    && (forall i :: 0 <= i < |s.slots| ==>
          && s.slots[i].parent == None && s.slots[i].pending.Nothing? && s.slots[i].chan == NoChan
          && (if i == s.init then s.slots[i].state.RUNNABLE? && s.slots[i].pid == 1 && s.slots[i].pc.ForkRet?
              else s.slots[i].state.UNUSED? && s.slots[i].pid == 0 && s.slots[i].pc.Nowhere?))
  }

  // ---- who runs where ----

  /** The nesting depth a running process must have at `pc`. */
  function Depth(pc: Pc): (n: nat) {
    match pc
    case Kernel(n) => n
    case Hold(_, n) => n + 1
    case ForkRet => 1
    case YieldBack => 1
    case SleepBack => 1
    case WaitBack => 1
    case _ => 0
  }

  predicate InTable(pc: Pc) {
    pc.Hold? || pc.ForkRet? || pc.YieldBack? || pc.SleepBack? || pc.WaitBack?
  }

  predicate Resumed(pc: Pc) {
    pc.YieldBack? || pc.SleepBack? || pc.WaitBack?
  }

  /** CPU `c` in its scheduler. */
  ghost predicate SchedOk(cpu: Cpu, holds: bool) {
    match cpu.mode
    case Loop => cpu.ncli == 0 && cpu.proc == None && !holds
    case Irq(h) => cpu.ncli == h && !cpu.iflag && (h > 0 ==> !cpu.intena) && cpu.proc == None && !holds
    case IrqHold(_, h) => cpu.ncli == h + 1 && !cpu.iflag && !cpu.intena && cpu.proc == None && holds
    case Scan => cpu.ncli == 1 && cpu.proc == None && holds
    case Back => cpu.ncli == 1 && cpu.proc.Some? && holds
    case Run(_) => false
  }

  /** CPU running the process in `slot`: the nesting depth, the lock and the interrupt flag the
      process will get back are what its program point says. */
  ghost predicate RunOk(cpu: Cpu, slot: Slot, holds: bool) {
    && slot.state.RUNNING? && !slot.pc.Nowhere?
    && cpu.ncli == Depth(slot.pc)
    && (holds <==> InTable(slot.pc))
    && (if Depth(slot.pc) == 0 then cpu.iflag == slot.want
        else if slot.pc.ForkRet? then true
        else if Resumed(slot.pc) then slot.saved == slot.want
        else cpu.intena == slot.want)
  }

  ghost predicate CpuOk(s: State, c: nat)
    requires c < |s.cpus|
  {
    var cpu, holds := s.cpus[c], s.lock == Some(c);
    && (cpu.ncli > 0 ==> !cpu.iflag)
    && (if cpu.mode.Run? then
          cpu.mode.p < |s.slots| && cpu.proc == Some(cpu.mode.p) && RunOk(cpu, s.slots[cpu.mode.p], holds)
        else SchedOk(cpu, holds))
  }

  ghost predicate Runs(s: State, c: nat, p: nat) {
    c < |s.cpus| && s.cpus[c].mode == Run(p)
  }

  /** A slot's state and program point fit. */
  predicate Fits(p: nat, slot: Slot) {
    && (Resumed(slot.pc) ==> slot.saved == slot.want)
    && (slot.pc.Hold? ==> Callable(slot.pc.op, slot.pc.held, slot.pending))
    && (slot.pc.ForkRet? || slot.pc.SleepBack? || slot.pc.WaitBack? || slot.pc.Nowhere? ==> slot.pending.Nothing?)
    && match slot.state
       case UNUSED => slot.pc.Nowhere?
       case EMBRYO => slot.pc.Nowhere?
       case ZOMBIE => slot.pc.Nowhere?
       case RUNNABLE => slot.pc.ForkRet? || Resumed(slot.pc)
       case SLEEPING => (slot.pc.SleepBack? && slot.chan.Other?) || (slot.pc.WaitBack? && slot.chan == OfProc(p))
       case RUNNING => !slot.pc.Nowhere?
  }

  ghost predicate Placed(s: State, p: nat)
    requires p < |s.slots|
  {
    s.slots[p].state.RUNNING? ==> exists c: nat :: Runs(s, c, p)
  }

  ghost predicate Exclusive(s: State) {
    forall c: nat, d: nat, p: nat :: Runs(s, c, p) && Runs(s, d, p) ==> c == d
  }

  ghost predicate Running(s: State) {
    && !s.panic
    && (s.lock.Some? ==> s.lock.value < |s.cpus|)
    && (forall c: nat :: c < |s.cpus| ==> CpuOk(s, c))
    && (forall p: nat :: p < |s.slots| ==> Fits(p, s.slots[p]))
    && (forall p: nat :: p < |s.slots| ==> Placed(s, p))
    && Exclusive(s)
  }

  /** A slot whose process is not the one taking a step: still running just as it was, or not
      running before or after. */
  ghost predicate Quiet(q: nat, a: Slot, b: Slot) {
    || (&& b.state == a.state && b.pc == a.pc && b.pending == a.pending
        && b.saved == a.saved && b.want == a.want && b.chan == a.chan)
    || (!a.state.RUNNING? && !b.state.RUNNING? && Fits(q, b))
  }

  ghost predicate OthersQuiet(s: State, s': State, c: nat, p: nat) {
    && |s'.slots| == |s.slots| && |s'.cpus| == |s.cpus| && c < |s.cpus| && p < |s.slots|
    && (forall d :: 0 <= d < |s.cpus| && d != c ==>
          s'.cpus[d] == s.cpus[d] && (s'.lock == Some(d) <==> s.lock == Some(d)))
    && (forall q: nat :: q < |s.slots| && q != p ==> Quiet(q, s.slots[q], s'.slots[q]))
    && (s'.lock.Some? ==> s'.lock.value < |s'.cpus|)
  }

  /** A step of the process that runs on `c`, or one that makes `c` run it: if the CPU and the slot
      end up right, everything does. */
  lemma RunningFrame(s: State, s': State, c: nat, p: nat)
    requires Running(s) && OthersQuiet(s, s', c, p) && !s'.panic
    requires Runs(s, c, p) || !s.slots[p].state.RUNNING?
    requires s.cpus[c].mode.Run? ==> s.cpus[c].mode == Run(p)
    requires s'.cpus[c].mode == Run(p) || (!s'.cpus[c].mode.Run? && !s'.slots[p].state.RUNNING?)
    requires CpuOk(s', c) && Fits(p, s'.slots[p])
    ensures Running(s')
  {
    forall d: nat | d < |s'.cpus| ensures CpuOk(s', d) {
      if d != c {
        assert CpuOk(s, d);
        if s.cpus[d].mode.Run? {
          var q := s.cpus[d].mode.p;
          assert Runs(s, d, q);
          assert q != p;
          assert Quiet(q, s.slots[q], s'.slots[q]);
        }
      }
    }
    forall q: nat | q < |s'.slots| ensures Fits(q, s'.slots[q]) && Placed(s', q) {
      if q != p {
        assert Fits(q, s.slots[q]) && Placed(s, q) && Quiet(q, s.slots[q], s'.slots[q]);
        if s'.slots[q].state.RUNNING? {
          var d: nat :| Runs(s, d, q);
          assert Runs(s', d, q);
        }
      } else if s'.slots[q].state.RUNNING? {
        assert Runs(s', c, p);
      }
    }
    forall d: nat, e: nat, q: nat | Runs(s', d, q) && Runs(s', e, q) ensures d == e {
      if d != c && e != c {
        assert Runs(s, d, q) && Runs(s, e, q);
      } else {
        NotElsewhere(s, c, p, d);
        NotElsewhere(s, c, p, e);
      }
    }
  }

  lemma NotElsewhere(s: State, c: nat, p: nat, d: nat)
    requires Running(s) && p < |s.slots| && (Runs(s, c, p) || !s.slots[p].state.RUNNING?)
    ensures d != c ==> !Runs(s, d, p)
  {
    assert d < |s.cpus| ==> CpuOk(s, d);
  }

  lemma SchedRunning(s: State, s': State, c: nat, a: Action)
    requires Running(s) && c < |s.cpus| && !s.cpus[c].mode.Run? && SchedStep(s, s', c, a)
    ensures Running(s')
  {
    hide Quiet;
    assert CpuOk(s, c);
    if a.SchedRun? {
      var p := s.cpus[c].scan;
      assert Fits(p, s.slots[p]);
      QuietSame(s, s', p);
      RunningFrame(s, s', c, p);
    } else {
      if a.Body? {
        QuietWake(s.slots, Other(s.cpus[c].mode.of));
      } else {
        QuietSame(s, s', |s.slots|);
      }
      IdleFrame(s, s', c);
    }
  }

  lemma QuietSame(s: State, s': State, p: nat)
    requires |s'.slots| == |s.slots| && forall q :: 0 <= q < |s.slots| && q != p ==> s'.slots[q] == s.slots[q]
    ensures forall q: nat :: q < |s.slots| && q != p ==> Quiet(q, s.slots[q], s'.slots[q])
  {
  }

  /** A step of a CPU that runs no process before or after it, and lets nobody else's process go or start. */
  lemma IdleFrame(s: State, s': State, c: nat)
    requires Running(s) && c < |s.cpus| && |s'.slots| == |s.slots| && !s'.panic
    requires forall q: nat :: q < |s.slots| ==> Quiet(q, s.slots[q], s'.slots[q])
    requires |s'.cpus| == |s.cpus| && !s.cpus[c].mode.Run? && !s'.cpus[c].mode.Run? && CpuOk(s', c)
    requires forall d :: 0 <= d < |s.cpus| && d != c ==>
      s'.cpus[d] == s.cpus[d] && (s'.lock == Some(d) <==> s.lock == Some(d))
    requires s'.lock.Some? ==> s'.lock.value < |s'.cpus|
    ensures Running(s')
  {
    forall d: nat | d < |s'.cpus| ensures CpuOk(s', d) {
      assert CpuOk(s, d);
      if d != c && s.cpus[d].mode.Run? {
        var q := s.cpus[d].mode.p;
        assert Quiet(q, s.slots[q], s'.slots[q]);
      }
    }
    forall q: nat | q < |s'.slots| ensures Fits(q, s'.slots[q]) && Placed(s', q) {
      assert Fits(q, s.slots[q]) && Placed(s, q) && Quiet(q, s.slots[q], s'.slots[q]);
      if s'.slots[q].state.RUNNING? {
        var d: nat :| Runs(s, d, q);
        assert Runs(s', d, q);
      }
    }
    forall d: nat, e: nat, q: nat | Runs(s', d, q) && Runs(s', e, q) ensures d == e {
      assert Runs(s, d, q) && Runs(s, e, q);
    }
  }

  /** Steps outside the critical sections. */
  lemma PlainRunning(s: State, s': State, c: nat, p: nat, a: Action)
    requires Running(s) && Runs(s, c, p) && p < |s.slots| && ProcStep(s, s', c, p, a)
    requires a.LockOther? || a.UnlockOther? || a.SetFlag? || a.Begin? || a.Relock?
    ensures Running(s')
  {
    hide Quiet, Exclusive, Placed;
    assert CpuOk(s, c) && Fits(p, s.slots[p]);
    QuietSame(s, s', p);
    RunningFrame(s, s', c, p);
  }

  /** The CPU after a resumed process has released the table, or locked again. */
  lemma ResumeCpu(s: State, s': State, c: nat, p: nat)
    requires CpuOkAt(s, c, p) && p < |s.slots| && ResumeStep(s, s', c, p) && Fits(p, s.slots[p])
    ensures |s'.cpus| == |s.cpus| && |s'.slots| == |s.slots| && CpuOkAt(s', c, p) && Fits(p, s'.slots[p])
    ensures s'.panic == s.panic
  {
  }

  ghost predicate CpuOkAt(s: State, c: nat, p: nat) {
    Runs(s, c, p) && CpuOk(s, c)
  }

  lemma ResumeRunning(s: State, s': State, c: nat, p: nat)
    requires Running(s) && Runs(s, c, p) && p < |s.slots| && ResumeStep(s, s', c, p)
    ensures Running(s')
  {
    hide Quiet, Exclusive, Placed, RunOk, SchedOk, Fits;
    assert CpuOk(s, c) && Fits(p, s.slots[p]);
    ResumeCpu(s, s', c, p);
    QuietSame(s, s', p);
    RunningFrame(s, s', c, p);
  }

  /** The slots of `Wake`, `Orphan` and their like are quiet where nobody runs. */
  lemma QuietWake(slots: seq<Slot>, ch: Chan)
    requires forall q: nat :: q < |slots| ==> Fits(q, slots[q])
    ensures forall q: nat :: q < |slots| ==> Quiet(q, slots[q], Wake(slots, ch)[q]) && Fits(q, Wake(slots, ch)[q])
  {
    forall q: nat | q < |slots| ensures Quiet(q, slots[q], Wake(slots, ch)[q]) && Fits(q, Wake(slots, ch)[q]) {
      assert Fits(q, slots[q]);
    }
  }

  /** Critical sections that end in a release and change one other slot. */
  lemma ReleaseRunning(s: State, s': State, c: nat, p: nat, x: nat, slot: Slot, pending: Pending)
    requires Running(s) && Runs(s, c, p) && p < |s.slots| && s.slots[p].pc.Hold? && s.slots[p].pc.held == 0
    requires x < |s.slots| && x != p && !s.slots[x].state.RUNNING? && !slot.state.RUNNING? && Fits(x, slot)
    requires s'.panic == Release(s, c).panic && s'.lock == None && s'.cpus == Release(s, c).cpus
    requires s'.slots == s.slots[x := slot][p := s.slots[p].(pc := Kernel(0), pending := pending)]
    ensures Running(s')
  {
    hide Exclusive, Placed;
    assert CpuOk(s, c) && Fits(p, s.slots[p]);
    RunningFrame(s, s', c, p);
  }

  lemma ReleaseOnlyRunning(s: State, s': State, c: nat, p: nat)
    requires Running(s) && Runs(s, c, p) && p < |s.slots| && s.slots[p].pc.Hold?
    requires s' == Goto(Release(s, c), p, Kernel(s.slots[p].pc.held))
    ensures Running(s')
  {
    hide Quiet, Exclusive, Placed;
    assert CpuOk(s, c) && Fits(p, s.slots[p]);
    QuietSame(s, s', p);
    RunningFrame(s, s', c, p);
  }

  lemma WakeupRunning(s: State, s': State, c: nat, p: nat, ch: Chan)
    requires Running(s) && Runs(s, c, p) && p < |s.slots| && s.slots[p].pc.Hold?
    requires s' == Goto(Release(s.(slots := Wake(s.slots, ch)), c), p, Kernel(s.slots[p].pc.held))
    ensures Running(s')
  {
    hide Quiet, Exclusive, Placed;
    assert CpuOk(s, c) && Fits(p, s.slots[p]);
    QuietWake(s.slots, ch);
    RunningFrame(s, s', c, p);
  }

  /** Critical sections that end in `sched`: `mid` is the state `sched` is called in. */
  lemma SwitchRunning(s: State, mid: State, s': State, c: nat, p: nat)
    requires Running(s) && Runs(s, c, p) && p < |s.slots| && OthersQuiet(s, mid, c, p)
    requires s' == Sched(mid, c, p) && mid.lock == s.lock == Some(c) && !mid.panic
    requires mid.cpus[c].ncli == 1 && !mid.cpus[c].iflag && mid.cpus[c].mode == Run(p) && mid.cpus[c].proc == Some(p)
    requires mid.cpus[c].intena == s.slots[p].want == mid.slots[p].want && !mid.slots[p].state.RUNNING?
    requires Fits(p, mid.slots[p].(saved := mid.slots[p].want))
    ensures Running(s')
  {
    hide Quiet, Exclusive, Placed;
    assert CpuOk(s, c);
    RunningFrame(s, s', c, p);
  }

  lemma YieldRunning(s: State, s': State, c: nat, p: nat, x: nat)
    requires Running(s) && Runs(s, c, p) && p < |s.slots| && s.slots[p].pc.Hold?
    requires s.slots[p].pc.op.Yield? && s.slots[p].pc.held == 0
    requires BodyStep(s, s', c, p, s.slots[p].pc.op, s.slots[p].pc.held, x)
    ensures Running(s')
  {
    hide Quiet, Exclusive, Placed;
    assert CpuOk(s, c) && Fits(p, s.slots[p]);
    var mid := SetSlot(s, p, s.slots[p].(state := RUNNABLE, pc := YieldBack));
    QuietSame(s, mid, p);
    SwitchRunning(s, mid, s', c, p);
  }

  lemma SleepRunning(s: State, s': State, c: nat, p: nat, x: nat)
    requires Running(s) && Runs(s, c, p) && p < |s.slots| && s.slots[p].pc.Hold?
    requires s.slots[p].pc.op.Sleep? && s.slots[p].pc.held == 1
    requires BodyStep(s, s', c, p, s.slots[p].pc.op, s.slots[p].pc.held, x)
    ensures Running(s')
  {
    hide Quiet, Exclusive, Placed;
    assert CpuOk(s, c) && Fits(p, s.slots[p]);
    var on := s.slots[p].pc.op.on;
    var unlocked := SetCpu(s, c, PopCli(s.cpus[c])).(panic := s.panic || PopPanics(s.cpus[c]));
    var mid := SetSlot(unlocked, p, s.slots[p].(state := SLEEPING, chan := Other(on), pc := SleepBack));
    QuietSame(s, mid, p);
    SwitchRunning(s, mid, s', c, p);
  }

  lemma WaitSleepRunning(s: State, s': State, c: nat, p: nat)
    requires Running(s) && Runs(s, c, p) && p < |s.slots| && s.slots[p].pc == Hold(Wait, 0)
    requires s' == Sched(SetSlot(s, p, s.slots[p].(state := SLEEPING, chan := OfProc(p), pc := WaitBack)), c, p)
    ensures Running(s')
  {
    hide Quiet, Exclusive, Placed;
    assert CpuOk(s, c) && Fits(p, s.slots[p]);
    var mid := SetSlot(s, p, s.slots[p].(state := SLEEPING, chan := OfProc(p), pc := WaitBack));
    QuietSame(s, mid, p);
    SwitchRunning(s, mid, s', c, p);
  }

  lemma WokenSleeps(slots: seq<Slot>, p: nat, init: nat, q: nat)
    requires p < |slots| && q < |slots|
    ensures WokenByExit(slots, p, init, q) ==> slots[q].state.SLEEPING?
  {
  }

  lemma ExitQuiet(slots: seq<Slot>, p: nat, init: nat, q: nat)
    requires p < |slots| && q < |slots| && q != p
    requires forall i: nat :: i < |slots| ==> Fits(i, slots[i])
    ensures Quiet(q, slots[q], ExitSlots(slots, p, init)[q])
  {
    hide ExitSlots, WokenByExit;
    assert Fits(q, slots[q]);
    assert WokenByExit(slots, p, init, q) ==> slots[q].state.SLEEPING? by { WokenSleeps(slots, p, init, q); }
  }

  lemma ExitRunning(s: State, s': State, c: nat, p: nat)
    requires Running(s) && Runs(s, c, p) && p < |s.slots| && s.slots[p].pc == Hold(Exit, 0)
    requires s' == Sched(s.(slots := ExitSlots(s.slots, p, s.init)), c, p)
    ensures Running(s')
  {
    hide Quiet, Exclusive, Placed;
    assert CpuOk(s, c) && Fits(p, s.slots[p]);
    var mid := s.(slots := ExitSlots(s.slots, p, s.init));
    forall q: nat | q < |s.slots| && q != p ensures Quiet(q, s.slots[q], mid.slots[q]) {
      ExitQuiet(s.slots, p, s.init, q);
    }
    SwitchRunning(s, mid, s', c, p);
  }

  // ---- pids, parents and children ----

  datatype Class = Unused | Embryo | Alive | Zombie

  function ClassOf(state: PState): (c: Class) {
    match state
    case UNUSED => Unused
    case EMBRYO => Embryo
    case ZOMBIE => Zombie
    case _ => Alive
  }

  /** The child a process inside `fork` is building. */
  function ChildOf(pending: Pending): (c: Option<nat>) {
    match pending
    case Building(x) => Some(x)
    case Parented(x) => Some(x)
    case _ => None
  }

  predicate WaitAsleep(slot: Slot) {
    slot.state.SLEEPING? && slot.pc.WaitBack?
  }

  /** The table as far as kinship goes. */
  datatype Table = Table(slots: seq<Slot>, nextpid: nat, init: nat)

  function TableOf(s: State): (t: Table) {
    Table(s.slots, s.nextpid, s.init)
  }

  ghost predicate LiveParent(slots: seq<Slot>, p: nat, q: nat)
    requires p < |slots|
  {
    q < |slots| && ClassOf(slots[q].state) == Alive && slots[q].pid < slots[p].pid
  }

  /** A live or dead process other than init has a live parent that is older; an embryo's parent,
      once set, is the process forking it. */
  ghost predicate ParentOk(t: Table, p: nat)
    requires p < |t.slots|
  {
    var slot := t.slots[p];
    match ClassOf(slot.state)
    case Unused => slot.parent == None
    case Embryo =>
      && 1 <= slot.pid < t.nextpid
      && (slot.parent.Some? ==>
            slot.parent.value < |t.slots| && t.slots[slot.parent.value].pending == Parented(p))
    case _ =>
      && 1 <= slot.pid < t.nextpid
      && (p != t.init ==> slot.parent.Some? && LiveParent(t.slots, p, slot.parent.value))
  }

  /** A process inside `fork` has a younger embryo, whose parent it is once it says so. */
  ghost predicate ChildOk(t: Table, p: nat)
    requires p < |t.slots|
  {
    var pending := t.slots[p].pending;
    ChildOf(pending).Some? ==>
      && ChildOf(pending).value < |t.slots|
      && var child := t.slots[ChildOf(pending).value];
         && ClassOf(child.state) == Embryo && t.slots[p].pid < child.pid
         && child.parent == if pending.Parented? then Some(p) else None
  }

  ghost predicate WaiterOk(t: Table, p: nat)
    requires p < |t.slots|
  {
    WaitAsleep(t.slots[p]) ==> !HasZombieChild(t.slots, p)
  }

  ghost predicate InitAlive(t: Table) {
    && t.init < |t.slots| && ClassOf(t.slots[t.init].state) == Alive
    && t.slots[t.init].pid == 1 && t.slots[t.init].parent == None
  }

  ghost predicate DistinctPids(t: Table, p: nat, q: nat)
    requires p < |t.slots| && q < |t.slots|
  {
    !t.slots[p].state.UNUSED? && !t.slots[q].state.UNUSED? && t.slots[p].pid == t.slots[q].pid ==> p == q
  }

  ghost predicate DistinctForkers(t: Table, p: nat, q: nat)
    requires p < |t.slots| && q < |t.slots|
  {
    ChildOf(t.slots[p].pending).Some? && ChildOf(t.slots[p].pending) == ChildOf(t.slots[q].pending) ==> p == q
  }

  ghost predicate Tree(t: Table) {
    && InitAlive(t)
    && (forall p: nat :: p < |t.slots| ==> ParentOk(t, p) && ChildOk(t, p))
    && (forall p: nat :: p < |t.slots| ==> WaiterOk(t, p))
    && (forall p: nat, q: nat :: p < |t.slots| && q < |t.slots| ==> DistinctPids(t, p, q))
    && (forall p: nat, q: nat :: p < |t.slots| && q < |t.slots| ==> DistinctForkers(t, p, q))
  }

  /** Nothing the tree depends on changes, except that waiters may wake. */
  ghost predicate SameKin(a: Slot, b: Slot) {
    && ClassOf(b.state) == ClassOf(a.state) && b.pid == a.pid && b.parent == a.parent
    && ChildOf(b.pending) == ChildOf(a.pending) && b.pending.Parented? == a.pending.Parented?
    && (WaitAsleep(b) ==> WaitAsleep(a))
  }

  ghost predicate AllSameKin(t: Table, t': Table) {
    && |t'.slots| == |t.slots| && t'.nextpid == t.nextpid && t'.init == t.init
    && forall i :: 0 <= i < |t.slots| ==> SameKin(t.slots[i], t'.slots[i])
  }

  lemma TreeFrame(t: Table, t': Table)
    requires Tree(t) && AllSameKin(t, t')
    ensures Tree(t')
  {
    forall p: nat | p < |t'.slots| ensures ParentOk(t', p) && ChildOk(t', p) && WaiterOk(t', p) {
      assert ParentOk(t, p) && ChildOk(t, p) && WaiterOk(t, p);
      NoNewZombie(t.slots, t'.slots, p);
    }
    forall p: nat, q: nat | p < |t'.slots| && q < |t'.slots|
      ensures DistinctPids(t', p, q) && DistinctForkers(t', p, q)
    {
      assert DistinctPids(t, p, q) && DistinctForkers(t, p, q);
    }
  }

  lemma NoNewZombie(a: seq<Slot>, b: seq<Slot>, p: nat)
    requires |b| == |a| && forall i :: 0 <= i < |a| && ZombieOf(b[i], p) ==> ZombieOf(a[i], p)
    ensures HasZombieChild(b, p) ==> HasZombieChild(a, p)
  {
    if HasZombieChild(b, p) {
      var z :| 0 <= z < |b| && ZombieOf(b[z], p);
      assert ZombieOf(a[z], p);
    }
  }

  ghost function Allocated(t: Table, p: nat, x: nat): (t': Table)
    requires p < |t.slots| && x < |t.slots|
  {
    var s1 := t.slots[x := t.slots[x].(state := EMBRYO, pid := t.nextpid)];
    Table(s1[p := s1[p].(pc := Kernel(0), pending := Building(x))], t.nextpid + 1, t.init)
  }

  /** `fork` takes an unused slot. */
  lemma AllocTree(t: Table, p: nat, x: nat)
    requires Tree(t) && p < |t.slots| && x < |t.slots| && t.slots[x].state.UNUSED? && x != p && Fits(x, t.slots[x])
    requires ClassOf(t.slots[p].state) == Alive && ChildOf(t.slots[p].pending) == None && !t.slots[p].pc.WaitBack?
    ensures Tree(Allocated(t, p, x))
  {
    hide ParentOk, ChildOk, WaiterOk, DistinctPids, DistinctForkers;
    var t' := Allocated(t, p, x);
    forall q: nat | q < |t'.slots| ensures ParentOk(t', q) && ChildOk(t', q) && WaiterOk(t', q) {
      AllocKin(t, p, x, q);
    }
    forall q: nat, r: nat | q < |t'.slots| && r < |t'.slots|
      ensures DistinctPids(t', q, r) && DistinctForkers(t', q, r)
    {
      AllocDistinct(t, p, x, q, r);
    }
  }

  lemma AllocKin(t: Table, p: nat, x: nat, q: nat)
    requires Tree(t) && p < |t.slots| && x < |t.slots| && t.slots[x].state.UNUSED? && x != p && Fits(x, t.slots[x])
    requires ClassOf(t.slots[p].state) == Alive && ChildOf(t.slots[p].pending) == None && !t.slots[p].pc.WaitBack?
    requires q < |t.slots|
    ensures ParentOk(Allocated(t, p, x), q) && ChildOk(Allocated(t, p, x), q) && WaiterOk(Allocated(t, p, x), q)
  {
    hide DistinctPids, DistinctForkers;
    assert ParentOk(t, x) && ParentOk(t, p) && ParentOk(t, q) && ChildOk(t, q) && WaiterOk(t, q);
    NoNewZombie(t.slots, Allocated(t, p, x).slots, q);
  }

  lemma AllocDistinct(t: Table, p: nat, x: nat, q: nat, r: nat)
    requires Tree(t) && p < |t.slots| && x < |t.slots| && t.slots[x].state.UNUSED? && x != p && Fits(x, t.slots[x])
    requires q < |t.slots| && r < |t.slots|
    ensures DistinctPids(Allocated(t, p, x), q, r) && DistinctForkers(Allocated(t, p, x), q, r)
  {
    hide WaiterOk;
    assert DistinctPids(t, q, r) && DistinctForkers(t, q, r);
    assert ParentOk(t, q) && ParentOk(t, r) && ChildOk(t, q) && ChildOk(t, r);
  }

  /** `fork` sets the child's parent, outside the lock. */
  lemma SetParentTree(t: Table, p: nat, x: nat)
    requires Tree(t) && p < |t.slots| && x < |t.slots| && t.slots[p].pending == Building(x)
    requires ClassOf(t.slots[p].state) == Alive
    ensures x != p
    ensures Tree(t.(slots := t.slots[x := t.slots[x].(parent := Some(p))][p := t.slots[p].(pending := Parented(x))]))
  {
    var t' := t.(slots := t.slots[x := t.slots[x].(parent := Some(p))][p := t.slots[p].(pending := Parented(x))]);
    assert ChildOk(t, p);
    forall q: nat | q < |t'.slots| ensures ParentOk(t', q) && ChildOk(t', q) && WaiterOk(t', q) {
      assert ParentOk(t, q) && ChildOk(t, q) && WaiterOk(t, q) && DistinctForkers(t, p, q);
      NoNewZombie(t.slots, t'.slots, q);
    }
    forall q: nat, r: nat | q < |t'.slots| && r < |t'.slots|
      ensures DistinctPids(t', q, r) && DistinctForkers(t', q, r)
    {
      assert DistinctPids(t, q, r) && DistinctForkers(t, q, r);
    }
  }

  /** A failed `fork` gives the slot back, outside the lock. */
  lemma ForkFailTree(t: Table, p: nat, x: nat)
    requires Tree(t) && p < |t.slots| && x < |t.slots| && t.slots[p].pending == Building(x)
    requires ClassOf(t.slots[p].state) == Alive
    ensures x != p
    ensures Tree(t.(slots := t.slots[x := t.slots[x].(state := UNUSED)][p := t.slots[p].(pending := Nothing)]))
  {
    var t' := t.(slots := t.slots[x := t.slots[x].(state := UNUSED)][p := t.slots[p].(pending := Nothing)]);
    assert ChildOk(t, p);
    forall q: nat | q < |t'.slots| ensures ParentOk(t', q) && ChildOk(t', q) && WaiterOk(t', q) {
      assert ParentOk(t, q) && ChildOk(t, q) && WaiterOk(t, q) && DistinctForkers(t, p, q);
      NoNewZombie(t.slots, t'.slots, q);
    }
    forall q: nat, r: nat | q < |t'.slots| && r < |t'.slots|
      ensures DistinctPids(t', q, r) && DistinctForkers(t', q, r)
    {
      assert DistinctPids(t, q, r) && DistinctForkers(t, q, r);
    }
  }

  /** A `fork` that leaves its embryo behind. */
  lemma ForkLeakTree(t: Table, p: nat)
    requires Tree(t) && p < |t.slots| && t.slots[p].pending.Building?
    ensures Tree(t.(slots := t.slots[p := t.slots[p].(pending := Nothing)]))
  {
    var t' := t.(slots := t.slots[p := t.slots[p].(pending := Nothing)]);
    forall q: nat | q < |t'.slots| ensures ParentOk(t', q) && ChildOk(t', q) && WaiterOk(t', q) {
      assert ParentOk(t, q) && ChildOk(t, q) && WaiterOk(t, q);
      NoNewZombie(t.slots, t'.slots, q);
    }
    forall q: nat, r: nat | q < |t'.slots| && r < |t'.slots|
      ensures DistinctPids(t', q, r) && DistinctForkers(t', q, r)
    {
      assert DistinctPids(t, q, r) && DistinctForkers(t, q, r);
    }
  }

  function PublishedSlots(slots: seq<Slot>, x: nat, p: nat): (r: seq<Slot>)
    requires x < |slots| && p < |slots|
  {
    slots[x := slots[x].(state := RUNNABLE, pc := ForkRet)][p := slots[p].(pc := Kernel(0), pending := Nothing)]
  }

  /** `fork` makes the child runnable. */
  lemma PublishTree(t: Table, p: nat, x: nat)
    requires Tree(t) && p < |t.slots| && t.slots[p].pending == Parented(x) && ClassOf(t.slots[p].state) == Alive
    requires x < |t.slots| ==> Fits(x, t.slots[x])
    ensures x < |t.slots| && x != p
    ensures Tree(t.(slots := PublishedSlots(t.slots, x, p)))
  {
    assert ChildOk(t, p);
    var t' := t.(slots := PublishedSlots(t.slots, x, p));
    assert ParentOk(t, x);
    forall q: nat | q < |t'.slots| ensures ParentOk(t', q) && ChildOk(t', q) && WaiterOk(t', q) {
      assert ParentOk(t, q) && ChildOk(t, q) && WaiterOk(t, q) && DistinctForkers(t, p, q);
      NoNewZombie(t.slots, t'.slots, q);
    }
    forall q: nat, r: nat | q < |t'.slots| && r < |t'.slots|
      ensures DistinctPids(t', q, r) && DistinctForkers(t', q, r)
    {
      assert DistinctPids(t, q, r) && DistinctForkers(t, q, r);
    }
  }

  function ReapedSlots(slots: seq<Slot>, x: nat, p: nat): (r: seq<Slot>)
    requires x < |slots| && p < |slots|
  {
    slots[x := slots[x].(state := UNUSED, pid := 0, parent := None)][p := slots[p].(pc := Kernel(0))]
  }

  /** `wait` frees a zombie child. */
  lemma FreeTree(t: Table, p: nat, x: nat)
    requires Tree(t) && p < |t.slots| && x < |t.slots| && ZombieOf(t.slots[x], p) && Fits(x, t.slots[x])
    requires ClassOf(t.slots[p].state) == Alive && ChildOf(t.slots[p].pending) == None
    ensures x != p
    ensures Tree(t.(slots := ReapedSlots(t.slots, x, p)))
  {
    var t' := t.(slots := ReapedSlots(t.slots, x, p));
    forall q: nat | q < |t'.slots| ensures ParentOk(t', q) && ChildOk(t', q) && WaiterOk(t', q) {
      assert ParentOk(t, q) && ChildOk(t, q) && WaiterOk(t, q);
      NoNewZombie(t.slots, t'.slots, q);
    }
    forall q: nat, r: nat | q < |t'.slots| && r < |t'.slots|
      ensures DistinctPids(t', q, r) && DistinctForkers(t', q, r)
    {
      assert DistinctPids(t, q, r) && DistinctForkers(t, q, r);
    }
  }

  /** `wait` goes to sleep, having found no zombie. */
  lemma WaitSleepTree(t: Table, p: nat, slot: Slot)
    requires Tree(t) && p < |t.slots| && ClassOf(t.slots[p].state) == Alive && ChildOf(t.slots[p].pending) == None
    requires !HasZombieChild(t.slots, p)
    requires slot == t.slots[p].(state := SLEEPING, chan := slot.chan, pc := WaitBack, saved := slot.saved)
    ensures Tree(t.(slots := t.slots[p := slot]))
  {
    var t' := t.(slots := t.slots[p := slot]);
    forall q: nat | q < |t'.slots| ensures ParentOk(t', q) && ChildOk(t', q) && WaiterOk(t', q) {
      assert ParentOk(t, q) && ChildOk(t, q) && WaiterOk(t, q);
      NoNewZombie(t.slots, t'.slots, q);
    }
    forall q: nat, r: nat | q < |t'.slots| && r < |t'.slots|
      ensures DistinctPids(t', q, r) && DistinctForkers(t', q, r)
    {
      assert DistinctPids(t, q, r) && DistinctForkers(t, q, r);
    }
  }

  /** `exit`: the zombie's children go to init, and whoever must hear of a zombie is woken. */
  ghost function Exited(t: Table, p: nat, saved: bool): (t': Table)
    requires p < |t.slots|
  {
    var slots := ExitSlots(t.slots, p, t.init);
    t.(slots := slots[p := slots[p].(saved := saved)])
  }

  lemma ExitedSlots(t: Table, p: nat, saved: bool, q: nat)
    requires p < |t.slots| && q < |t.slots|
    ensures var slot, slot' := t.slots[q], Exited(t, p, saved).slots[q];
      && |Exited(t, p, saved).slots| == |t.slots|
      && slot'.pid == slot.pid
      && (q != p ==> ClassOf(slot'.state) == ClassOf(slot.state) && slot'.pc == slot.pc)
      && slot'.pending == slot.pending
      && (q != p ==> slot'.parent == if slot.parent == Some(p) then Some(t.init) else slot.parent)
      && (q == p ==> slot'.state.ZOMBIE? && slot'.pc.Nowhere?)
      && (q == p && slot.parent != Some(p) ==> slot'.parent == slot.parent)
      && (WaitAsleep(slot') ==> q != p && WaitAsleep(slot) && !WokenByExit(t.slots, p, t.init, q))
  {
    hide HasZombieChild;
  }

  lemma ExitKin(t: Table, p: nat, saved: bool, q: nat)
    requires Tree(t) && p < |t.slots| && p != t.init && q < |t.slots| && ClassOf(t.slots[p].state) == Alive
    requires ChildOf(t.slots[p].pending) == None
    ensures |Exited(t, p, saved).slots| == |t.slots|
    ensures ParentOk(Exited(t, p, saved), q) && ChildOk(Exited(t, p, saved), q)
  {
    hide ExitSlots, WaiterOk, DistinctForkers;
    var t' := Exited(t, p, saved);
    ExitedSlots(t, p, saved, q);
    ExitedSlots(t, p, saved, t.init);
    ExitedSlots(t, p, saved, p);
    assert ParentOk(t, q) && ChildOk(t, q) && DistinctPids(t, q, t.init) && ParentOk(t, p);
    if t.slots[q].parent.Some? && t.slots[q].parent.value < |t.slots| {
      ExitedSlots(t, p, saved, t.slots[q].parent.value);
    }
    if ChildOf(t.slots[q].pending).Some? {
      var x := ChildOf(t.slots[q].pending).value;
      ExitedSlots(t, p, saved, x);
      assert ParentOk(t, x);
    }
  }

  lemma ExitWaiter(t: Table, p: nat, saved: bool, q: nat)
    requires Tree(t) && p < |t.slots| && p != t.init && q < |t.slots| && ClassOf(t.slots[p].state) == Alive
    requires Fits(q, t.slots[q])
    ensures |Exited(t, p, saved).slots| == |t.slots| && WaiterOk(Exited(t, p, saved), q)
  {
    hide ExitSlots, DistinctForkers, DistinctPids, ChildOk;
    var t' := Exited(t, p, saved);
    ExitedSlots(t, p, saved, q);
    assert WaiterOk(t, q) && ParentOk(t, p);
    if WaitAsleep(t'.slots[q]) {
      forall z | 0 <= z < |t'.slots| ensures !ZombieOf(t'.slots[z], q) {
        ExitedSlots(t, p, saved, z);
        assert !ZombieOf(t.slots[z], q);
        assert ZombieOf(t.slots[z], p) ==> HasZombieChild(t.slots, p);
      }
    }
  }

  lemma ExitTree(t: Table, p: nat, saved: bool)
    requires Tree(t) && p < |t.slots| && p != t.init && ClassOf(t.slots[p].state) == Alive
    requires ChildOf(t.slots[p].pending) == None
    requires forall q: nat :: q < |t.slots| ==> Fits(q, t.slots[q])
    ensures Tree(Exited(t, p, saved))
  {
    hide ExitSlots, ParentOk, ChildOk, WaiterOk, Fits;
    var t' := Exited(t, p, saved);
    ExitedSlots(t, p, saved, t.init);
    forall q: nat | q < |t'.slots| ensures ParentOk(t', q) && ChildOk(t', q) && WaiterOk(t', q) {
      ExitKin(t, p, saved, q);
      ExitWaiter(t, p, saved, q);
    }
    forall q: nat, r: nat | q < |t'.slots| && r < |t'.slots|
      ensures DistinctPids(t', q, r) && DistinctForkers(t', q, r)
    {
      assert DistinctPids(t, q, r) && DistinctForkers(t, q, r);
      ExitedSlots(t, p, saved, q);
      ExitedSlots(t, p, saved, r);
    }
  }

  // ---- every run ----

  ghost predicate Inv(s: State) {
    Running(s) && Tree(TableOf(s))
  }

  lemma InitInv(s: State)
    requires Init(s)
    ensures Inv(s)
  {
    forall q: nat | q < |s.slots| ensures WaiterOk(TableOf(s), q) {
    }
  }

  lemma SchedInv(s: State, s': State, c: nat, a: Action)
    requires Inv(s) && c < |s.cpus| && !s.cpus[c].mode.Run? && SchedStep(s, s', c, a)
    ensures Inv(s')
  {
    SchedRunning(s, s', c, a);
    hide Running, Tree;
    TreeFrame(TableOf(s), TableOf(s'));
  }

  lemma PlainInv(s: State, s': State, c: nat, p: nat, a: Action)
    requires Inv(s) && Runs(s, c, p) && p < |s.slots| && ProcStep(s, s', c, p, a)
    requires a.LockOther? || a.UnlockOther? || a.SetFlag? || a.Begin? || a.Relock? || a.Resume?
    ensures Inv(s')
  {
    if a.Resume? { ResumeRunning(s, s', c, p); } else { PlainRunning(s, s', c, p, a); }
    PlainKin(s, s', c, p, a);
    hide Running, Tree, SameKin;
    TreeFrame(TableOf(s), TableOf(s'));
  }

  lemma PlainKin(s: State, s': State, c: nat, p: nat, a: Action)
    requires Running(s) && Runs(s, c, p) && p < |s.slots| && ProcStep(s, s', c, p, a)
    requires a.LockOther? || a.UnlockOther? || a.SetFlag? || a.Begin? || a.Relock? || a.Resume?
    ensures AllSameKin(TableOf(s), TableOf(s'))
  {
    hide Placed, Exclusive;
    assert CpuOk(s, c) && Fits(p, s.slots[p]);
  }

  lemma ForkInv(s: State, s': State, c: nat, p: nat, a: Action)
    requires Inv(s) && Runs(s, c, p) && p < |s.slots| && ProcStep(s, s', c, p, a)
    requires a.SetParent? || a.ForkFail? || a.ForkLeak?
    ensures Inv(s')
  {
    ForkRunning(s, s', c, p, a);
    hide Running, Tree;
    assert s.slots[p].state.RUNNING? by { RunsRunning(s, c, p); }
    match a {
      case SetParent => SetParentTree(TableOf(s), p, s.slots[p].pending.child);
      case ForkFail => ForkFailTree(TableOf(s), p, s.slots[p].pending.child);
      case ForkLeak => ForkLeakTree(TableOf(s), p);
    }
    assert s.slots[p].pc == Kernel(0);
  }

  lemma RunsRunning(s: State, c: nat, p: nat)
    requires Running(s) && Runs(s, c, p) && p < |s.slots|
    ensures s.slots[p].state.RUNNING? && Fits(p, s.slots[p])
  {
    assert CpuOk(s, c);
  }

  lemma ForkRunning(s: State, s': State, c: nat, p: nat, a: Action)
    requires Inv(s) && Runs(s, c, p) && p < |s.slots| && ProcStep(s, s', c, p, a)
    requires a.SetParent? || a.ForkFail? || a.ForkLeak?
    ensures Running(s')
  {
    hide Exclusive, Placed, ParentOk, WaiterOk, DistinctPids, DistinctForkers;
    assert CpuOk(s, c) && Fits(p, s.slots[p]) && ChildOk(TableOf(s), p);
    var x := s.slots[p].pending.child;
    assert x < |s.slots| ==> Fits(x, s.slots[x]);
    RunningFrame(s, s', c, p);
  }

  lemma AllocInv(s: State, s': State, c: nat, p: nat, x: nat)
    requires Inv(s) && Runs(s, c, p) && p < |s.slots| && s.slots[p].pc == Hold(Alloc, 0)
    requires BodyStep(s, s', c, p, Alloc, 0, x)
    ensures Inv(s')
  {
    assert CpuOk(s, c) && Fits(p, s.slots[p]);
    if exists i :: 0 <= i < |s.slots| && s.slots[i].state.UNUSED? {
      var slot := s.slots[x].(state := EMBRYO, pid := s.nextpid);
      assert Fits(x, s.slots[x]);
      hide Running, Tree;
      ReleaseRunning(s, s', c, p, x, slot, Building(x));
      AllocTree(TableOf(s), p, x);
      assert TableOf(s') == Allocated(TableOf(s), p, x);
    } else {
      ReleaseOnlyRunning(s, s', c, p);
      hide Running, Tree;
      TreeFrame(TableOf(s), TableOf(s'));
    }
  }

  lemma PublishInv(s: State, s': State, c: nat, p: nat, x: nat)
    requires Inv(s) && Runs(s, c, p) && p < |s.slots| && s.slots[p].pc == Hold(Publish(x), 0)
    requires BodyStep(s, s', c, p, Publish(x), 0, 0)
    ensures Inv(s')
  {
    assert CpuOk(s, c) && Fits(p, s.slots[p]) && ChildOk(TableOf(s), p) && Fits(x, s.slots[x]);
    hide Running, Tree;
    PublishTree(TableOf(s), p, x);
    ReleaseRunning(s, s', c, p, x, s.slots[x].(state := RUNNABLE, pc := ForkRet), Nothing);
    assert TableOf(s').slots == PublishedSlots(s.slots, x, p);
  }

  lemma WaitInv(s: State, s': State, c: nat, p: nat, x: nat)
    requires Inv(s) && Runs(s, c, p) && p < |s.slots| && s.slots[p].pc == Hold(Wait, 0)
    requires BodyStep(s, s', c, p, Wait, 0, x)
    ensures Inv(s')
  {
    assert CpuOk(s, c) && Fits(p, s.slots[p]);
    if HasZombieChild(s.slots, p) {
      var slot := s.slots[x].(state := UNUSED, pid := 0, parent := None);
      assert Fits(x, s.slots[x]);
      hide Running, Tree;
      FreeTree(TableOf(s), p, x);
      ReleaseRunning(s, s', c, p, x, slot, Nothing);
      assert TableOf(s').slots == s.slots[x := slot][p := s.slots[p].(pc := Kernel(0))];
    } else if !HasChild(s.slots, p) {
      ReleaseOnlyRunning(s, s', c, p);
      hide Running, Tree;
      TreeFrame(TableOf(s), TableOf(s'));
    } else {
      WaitSleepRunning(s, s', c, p);
      hide Running, Tree;
      WaitSleepTree(TableOf(s), p, s'.slots[p]);
      assert TableOf(s').slots == s.slots[p := s'.slots[p]];
    }
  }

  lemma ExitInv(s: State, s': State, c: nat, p: nat, x: nat)
    requires Inv(s) && Runs(s, c, p) && p < |s.slots| && s.slots[p].pc == Hold(Exit, 0) && p != s.init
    requires BodyStep(s, s', c, p, Exit, 0, x)
    ensures Inv(s')
  {
    assert CpuOk(s, c);
    ExitRunning(s, s', c, p);
    ExitTree(TableOf(s), p, s.cpus[c].intena);
    hide Running, Tree, ExitSlots;
    assert TableOf(s') == Exited(TableOf(s), p, s.cpus[c].intena);
  }

  lemma SwitchInv(s: State, s': State, c: nat, p: nat, x: nat)
    requires Inv(s) && Runs(s, c, p) && p < |s.slots| && s.slots[p].pc.Hold?
    requires s.slots[p].pc.op.Yield? || s.slots[p].pc.op.Sleep? || s.slots[p].pc.op.Wakeup?
    requires BodyStep(s, s', c, p, s.slots[p].pc.op, s.slots[p].pc.held, x)
    ensures Inv(s')
  {
    assert CpuOk(s, c) && Fits(p, s.slots[p]);
    match s.slots[p].pc.op {
      case Yield => YieldRunning(s, s', c, p, x);
      case Sleep(_) => SleepRunning(s, s', c, p, x);
      case Wakeup(of) => WakeupRunning(s, s', c, p, Other(of));
    }
    SwitchKin(s, s', c, p, x);
    hide Running, Tree, SameKin;
    TreeFrame(TableOf(s), TableOf(s'));
  }

  lemma SwitchKin(s: State, s': State, c: nat, p: nat, x: nat)
    requires Running(s) && Runs(s, c, p) && p < |s.slots| && s.slots[p].pc.Hold?
    requires s.slots[p].pc.op.Yield? || s.slots[p].pc.op.Sleep? || s.slots[p].pc.op.Wakeup?
    requires BodyStep(s, s', c, p, s.slots[p].pc.op, s.slots[p].pc.held, x)
    ensures AllSameKin(TableOf(s), TableOf(s'))
  {
    hide Placed, Exclusive, Fits;
    assert CpuOk(s, c);
  }

  lemma StepInv(s: State, s': State, c: nat, a: Action)
    requires Inv(s) && Step(s, s', c, a)
    ensures Inv(s')
  {
    if !s.cpus[c].mode.Run? {
      SchedInv(s, s', c, a);
    } else {
      var p := s.cpus[c].mode.p;
      var slot := s.slots[p];
      match a
      case Body(x) => BodyInv(s, s', c, p, x);
      case SetParent => ForkInv(s, s', c, p, a);
      case ForkFail => ForkInv(s, s', c, p, a);
      case ForkLeak => ForkInv(s, s', c, p, a);
      case _ => PlainInv(s, s', c, p, a);
    }
  }

  lemma BodyInv(s: State, s': State, c: nat, p: nat, x: nat)
    requires Inv(s) && Runs(s, c, p) && p < |s.slots| && ProcStep(s, s', c, p, Body(x))
    ensures Inv(s')
  {
    var slot := s.slots[p];
    assert Fits(p, slot);
    hide Running, Tree, Fits, ExitSlots, Sched, Release;
    match slot.pc.op
    case Alloc => AllocInv(s, s', c, p, x);
    case Publish(child) => PublishInv(s, s', c, p, child);
    case Exit => ExitInv(s, s', c, p, x);
    case Wait => WaitInv(s, s', c, p, x);
    case Yield => SwitchInv(s, s', c, p, x);
    case Sleep(_) => SwitchInv(s, s', c, p, x);
    case Wakeup(_) => SwitchInv(s, s', c, p, x);
  }

  ghost predicate IsRun(run: seq<State>) {
    run != [] && Init(run[0]) && forall i :: 0 <= i < |run| - 1 ==> Next(run[i], run[i + 1])
  }

  lemma {:induction false} RunInv(run: seq<State>, k: nat)
    requires IsRun(run) && k < |run|
    ensures Inv(run[k])
  {
    hide Init, Inv, Step;
    if k == 0 {
      InitInv(run[0]);
    } else {
      RunInv(run, k - 1);
      assert Next(run[k - 1], run[k - 1 + 1]);
      var c: nat, a :| Step(run[k - 1], run[k], c, a);
      StepInv(run[k - 1], run[k], c, a);
    }
  }

  /** No spinlock, interrupt or scheduler check ever panics: in particular `sched` is only entered
      with the table locked, one level of nesting, interrupts off and a state other than RUNNING. */
  lemma NeverPanics(run: seq<State>, k: nat)
    requires IsRun(run) && k < |run|
    ensures !run[k].panic
  {
    RunInv(run, k);
  }

  ghost predicate CurrentOn(s: State, c: nat, p: nat) {
    c < |s.cpus| && s.cpus[c].proc == Some(p)
  }

  /** Whenever `ptable.lock` is free, a process is RUNNING exactly if it is the current process of
      some CPU, and then of only one. */
  lemma OneCpuPerRunningProcess(run: seq<State>, k: nat, p: nat)
    requires IsRun(run) && k < |run| && run[k].lock == None && p < |run[k].slots|
    ensures run[k].slots[p].state.RUNNING? <==> exists c: nat :: CurrentOn(run[k], c, p)
    ensures forall c: nat, d: nat :: CurrentOn(run[k], c, p) && CurrentOn(run[k], d, p) ==> c == d
  {
    RunInv(run, k);
    var s := run[k];
    hide Tree, Init;
    assert Placed(s, p);
    forall c: nat | CurrentOn(s, c, p) ensures s.slots[p].state.RUNNING? && Runs(s, c, p) {
      assert CpuOk(s, c);
    }
    if s.slots[p].state.RUNNING? {
      var c: nat :| Runs(s, c, p);
      assert CpuOk(s, c);
      assert CurrentOn(s, c, p);
    }
  }

  /** Live processes have distinct pids; each but init has a live parent with a smaller pid. */
  lemma FamilyTree(run: seq<State>, k: nat, p: nat, q: nat)
    requires IsRun(run) && k < |run| && p < |run[k].slots| && q < |run[k].slots|
    ensures var s := run[k];
      && (!s.slots[p].state.UNUSED? && !s.slots[q].state.UNUSED? && s.slots[p].pid == s.slots[q].pid ==> p == q)
      && (!(s.slots[p].state in {UNUSED, EMBRYO}) && p != s.init ==>
            s.slots[p].parent.Some? && LiveParent(s.slots, p, s.slots[p].parent.value))
  {
    RunInv(run, k);
    hide Running, Init;
    assert DistinctPids(TableOf(run[k]), p, q) && ParentOk(TableOf(run[k]), p);
  }

  /** A process asleep in `wait` has no zombie child: no exit goes unnoticed. */
  lemma NoMissedExit(run: seq<State>, k: nat, p: nat, z: nat)
    requires IsRun(run) && k < |run| && p < |run[k].slots| && z < |run[k].slots|
    requires run[k].slots[p].state.SLEEPING? && run[k].slots[p].chan == OfProc(p)
    ensures !(run[k].slots[z].state.ZOMBIE? && run[k].slots[z].parent == Some(p))
  {
    RunInv(run, k);
    hide Init;
    assert Fits(p, run[k].slots[p]) && WaiterOk(TableOf(run[k]), p);
    assert !ZombieOf(run[k].slots[z], p);
  }

  /** The interrupt flag a process had when it entered the kernel's lock-protected code is the one
      it has when it holds no lock again, whatever CPU it comes back on. */
  lemma InterruptFlagRestored(run: seq<State>, k: nat, c: nat, p: nat)
    requires IsRun(run) && k < |run| && Runs(run[k], c, p) && p < |run[k].slots|
    requires run[k].slots[p].pc == Kernel(0)
    ensures run[k].cpus[c].ncli == 0 && run[k].cpus[c].iflag == run[k].slots[p].want
  {
    RunInv(run, k);
    hide Tree, Init;
    assert CpuOk(run[k], c);
  }

  lemma ExitWant(s: State, s': State, c: nat, p: nat, held: nat, x: nat, q: nat)
    requires c < |s.cpus| && p < |s.slots| && q < |s.slots| && BodyStep(s, s', c, p, Exit, held, x)
    ensures |s'.slots| == |s.slots| && s'.slots[q].want == s.slots[q].want
  {
    hide HasZombieChild, HasChild, PopCli, PopPanics;
    ExitedSlots(TableOf(s), p, false, q);
  }

  lemma WaitWant(s: State, s': State, c: nat, p: nat, held: nat, x: nat, q: nat)
    requires c < |s.cpus| && p < |s.slots| && q < |s.slots| && BodyStep(s, s', c, p, Wait, held, x)
    ensures |s'.slots| == |s.slots| && s'.slots[q].want == s.slots[q].want
  {
    hide HasZombieChild, HasChild, PopCli, PopPanics, ExitSlots;
  }

  lemma BodyWantKept(s: State, s': State, c: nat, p: nat, op: Op, held: nat, x: nat, q: nat)
    requires c < |s.cpus| && p < |s.slots| && q < |s.slots| && BodyStep(s, s', c, p, op, held, x)
    ensures |s'.slots| == |s.slots| && s'.slots[q].want == s.slots[q].want
  {
    hide HasZombieChild, HasChild, PopCli, PopPanics, ExitSlots, FirstZombieChild;
    if op.Exit? {
      ExitWant(s, s', c, p, held, x, q);
    } else if op.Wait? {
      WaitWant(s, s', c, p, held, x, q);
    }
  }

  /** Only the process itself changes that flag, by setting it or on its first dispatch. */
  lemma WantKept(s: State, s': State, c: nat, a: Action, q: nat)
    requires Step(s, s', c, a) && q < |s.slots|
    requires s.cpus[c].mode == Run(q) ==> !a.SetFlag? && !(a.Resume? && s.slots[q].pc.ForkRet?)
    ensures |s'.slots| == |s.slots| && s'.slots[q].want == s.slots[q].want
  {
    hide BodyStep, PopCli, PushCli, PopPanics;
    if a.Body? && s.cpus[c].mode.Run? {
      var p := s.cpus[c].mode.p;
      BodyWantKept(s, s', c, p, s.slots[p].pc.op, s.slots[p].pc.held, a.x, q);
    }
  }

  // ---- what `kill` does to these laws ----

  /** `kill` of the process in slot `q`: it becomes a zombie where it stands, and nobody is woken. */
  function Killed(s: State, q: nat): (r: State)
    requires q < |s.slots|
  {
    SetSlot(s, q, s.slots[q].(state := ZOMBIE))
  }

  ghost predicate OnItsCpu(s: State, p: nat) {
    p < |s.slots| ==> (s.slots[p].state.RUNNING? <==> exists c: nat :: CurrentOn(s, c, p))
  }

  predicate AsleepInWait(s: State, p: nat) {
    p < |s.slots| && s.slots[p].state.SLEEPING? && s.slots[p].chan == OfProc(p)
  }

  predicate ExitSeen(s: State, p: nat, z: nat) {
    z < |s.slots| && AsleepInWait(s, p) ==> !(s.slots[z].state.ZOMBIE? && s.slots[z].parent == Some(p))
  }

  ghost predicate HasParent(s: State, p: nat) {
    p < |s.slots| && !(s.slots[p].state in {UNUSED, EMBRYO}) && p != s.init ==>
      s.slots[p].parent.Some? && LiveParent(s.slots, p, s.slots[p].parent.value)
  }

  /** RUNNING processes are still those on a CPU exactly if the victim was not running. */
  lemma KillCpu(run: seq<State>, k: nat, q: nat)
    requires IsRun(run) && k < |run| && run[k].lock == None && q < |run[k].slots|
    ensures (forall p: nat :: OnItsCpu(Killed(run[k], q), p)) <==> !run[k].slots[q].state.RUNNING?
  {
    var s, s' := run[k], Killed(run[k], q);
    OneCpuPerRunningProcess(run, k, q);
    forall p: nat | p < |s.slots| && p != q ensures OnItsCpu(s', p) {
      OneCpuPerRunningProcess(run, k, p);
      hide IsRun;
      assert forall c: nat :: CurrentOn(s', c, p) <==> CurrentOn(s, c, p);
    }
    hide IsRun;
    assert forall c: nat :: CurrentOn(s', c, q) <==> CurrentOn(s, c, q);
    assert OnItsCpu(s', q) <==> !s.slots[q].state.RUNNING?;
  }

  /** Nobody asleep in `wait` has a zombie child, exactly if the victim's parent was not asleep in `wait`. */
  lemma KillWait(run: seq<State>, k: nat, q: nat)
    requires IsRun(run) && k < |run| && q < |run[k].slots|
    ensures (forall p: nat, z: nat :: ExitSeen(Killed(run[k], q), p, z)) <==>
      !(run[k].slots[q].parent.Some? && run[k].slots[q].parent.value != q
        && AsleepInWait(run[k], run[k].slots[q].parent.value))
  {
    var s, s' := run[k], Killed(run[k], q);
    forall p: nat, z: nat | z < |s.slots| && z != q && AsleepInWait(s', p) ensures ExitSeen(s', p, z) {
      NoMissedExit(run, k, p, z);
    }
    hide IsRun;
    if s.slots[q].parent.Some? {
      assert ExitSeen(s', s.slots[q].parent.value, q) <==>
        !(s.slots[q].parent.value != q && AsleepInWait(s, s.slots[q].parent.value));
    }
  }

  /** Everybody but init still has a live, older parent, exactly if the victim had no child. */
  lemma KillFamily(run: seq<State>, k: nat, q: nat)
    requires IsRun(run) && k < |run| && q < |run[k].slots| && !(run[k].slots[q].state in {UNUSED, EMBRYO})
    ensures (forall p: nat :: HasParent(Killed(run[k], q), p)) <==>
      forall p: nat :: p < |run[k].slots| && p != run[k].init && run[k].slots[p].parent == Some(q) ==>
        run[k].slots[p].state in {UNUSED, EMBRYO}
  {
    var s, s' := run[k], Killed(run[k], q);
    forall p: nat | p < |s.slots| && p != s.init && !(s.slots[p].state in {UNUSED, EMBRYO})
      ensures HasParent(s', p) <==> s.slots[p].parent != Some(q)
    {
      FamilyTree(run, k, p, p);
    }
    hide IsRun;
    assert forall p: nat :: HasParent(s', p) || (p < |s.slots| && s.slots[p].parent == Some(q));
  }
}
