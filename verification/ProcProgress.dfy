/** No CPU is ever stuck: whoever has the lock of the process table can go on, and so can everybody when nobody
    has it. */
module ProcProgress {
  import opened ProcTable
  import opened ProcHistory

  // ---- init does not exit ----

  predicate InitStays(s: State, q: nat) {
    q < |s.slots| && s.slots[q].pc.Hold? && s.slots[q].pc.op.Exit? ==> q != s.init
  }

  lemma BodyLeaves(s: State, s': State, c: nat, p: nat, op: Op, held: nat, x: nat)
    requires c < |s.cpus| && p < |s.slots| && BodyStep(s, s', c, p, op, held, x)
    ensures p < |s'.slots| && !s'.slots[p].pc.Hold? && s'.init == s.init
  {
    hide PopCli, PopPanics, HasZombieChild, HasChild;
  }

  lemma OwnStep(s: State, s': State, c: nat, p: nat, a: Action)
    requires c < |s.cpus| && p < |s.slots| && ProcStep(s, s', c, p, a) && InitStays(s, p)
    ensures InitStays(s', p) && s'.init == s.init
  {
    if a.Body? {
      BodyLeaves(s, s', c, p, s.slots[p].pc.op, s.slots[p].pc.held, a.x);
      hide BodyStep;
    } else {
      hide BodyStep, PopCli, PushCli, PopPanics, Callable, CanAcquire;
    }
  }

  lemma InitStaysStep(s: State, s': State, l: Label, q: nat)
    requires Step(s, s', l.c, l.a) && q < |s.slots| && InitStays(s, q)
    ensures InitStays(s', q)
  {
    if !s.cpus[l.c].mode.Run? {
      SchedChan(s, s', l.c, l.a, q);
    } else if s.cpus[l.c].mode == Run(q) {
      hide ProcStep;
      OwnStep(s, s', l.c, q, l.a);
    } else {
      hide ProcStep;
      OthersStep(s, s', l.c, s.cpus[l.c].mode.p, l.a, q);
    }
  }

  lemma OthersStep(s: State, s': State, c: nat, p: nat, a: Action, q: nat)
    requires c < |s.cpus| && p < |s.slots| && ProcStep(s, s', c, p, a) && q < |s.slots| && q != p && InitStays(s, q)
    ensures InitStays(s', q)
  {
    if a.Body? {
      BodyLeaves(s, s', c, p, s.slots[p].pc.op, s.slots[p].pc.held, a.x);
      hide BodyStep;
      BodyChan(s, s', c, p, s.slots[p].pc.op, s.slots[p].pc.held, a.x, q);
    } else {
      hide BodyStep, PopCli, PushCli, PopPanics, Callable, CanAcquire;
    }
  }

  lemma InitStaysAtStart(s: State, q: nat)
    requires Init(s)
    ensures InitStays(s, q)
  {
  }

  lemma {:induction false} InitNeverExits(run: seq<State>, labels: seq<Label>, k: nat, p: nat)
    requires IsHistory(run, labels) && k < |run| && p < |run[k].slots|
    ensures InitStays(run[k], p)
    decreases k
  {
    hide Step, Init, InitStays;
    if k == 0 {
      InitStaysAtStart(run[0], p);
    } else {
      SameTable(run, labels, k - 1);
      assert Step(run[k - 1], run[k], labels[k - 1].c, labels[k - 1].a);
      InitNeverExits(run, labels, k - 1, p);
      InitStaysStep(run[k - 1], run[k], labels[k - 1], p);
    }
  }

  // ---- steps that can be taken ----

  lemma {:induction false} LeastUnused(slots: seq<Slot>, i: nat) returns (x: nat)
    requires i < |slots| && slots[i].state.UNUSED?
    ensures FirstUnused(slots, x)
    decreases i
  {
    if j: nat :| j < i && slots[j].state.UNUSED? {
      x := LeastUnused(slots, j);
    } else {
      x := i;
    }
  }

  lemma {:induction false} LeastZombie(slots: seq<Slot>, p: nat, i: nat) returns (x: nat)
    requires i < |slots| && ZombieOf(slots[i], p)
    ensures FirstZombieChild(slots, x, p)
    decreases i
  {
    if j: nat :| j < i && ZombieOf(slots[j], p) {
      x := LeastZombie(slots, p, j);
    } else {
      x := i;
    }
  }

  /** Every section can be carried through. */
  lemma BodyCan(s: State, c: nat, p: nat, op: Op, held: nat) returns (x: nat, s': State)
    requires c < |s.cpus| && p < |s.slots|
    requires op.Publish? ==> op.child < |s.slots|
    requires op.Exit? ==> p != s.init
    ensures BodyStep(s, s', c, p, op, held, x)
  {
    x := 0;
    match op {
      case Alloc =>
        if i: nat :| i < |s.slots| && s.slots[i].state.UNUSED? {
          x := LeastUnused(s.slots, i);
          var marked := SetSlot(s, x, s.slots[x].(state := EMBRYO, pid := s.nextpid));
          s' := Leave(Release(marked.(nextpid := s.nextpid + 1), c), p, Kernel(0), Building(x));
        } else {
          s' := Goto(Release(s, c), p, Kernel(0));
        }
      case Publish(child) =>
        s' := Leave(Release(SetSlot(s, child, s.slots[child].(state := RUNNABLE, pc := ForkRet)), c), p, Kernel(0),
                    Nothing);
      case Exit =>
        s' := Sched(s.(slots := ExitSlots(s.slots, p, s.init)), c, p);
      case Wait =>
        if i: nat :| i < |s.slots| && ZombieOf(s.slots[i], p) {
          x := LeastZombie(s.slots, p, i);
          s' := Goto(Release(SetSlot(s, x, s.slots[x].(state := UNUSED, pid := 0, parent := None)), c), p, Kernel(0));
        } else if !HasChild(s.slots, p) {
          s' := Goto(Release(s, c), p, Kernel(0));
        } else {
          s' := Sched(SetSlot(s, p, s.slots[p].(state := SLEEPING, chan := OfProc(p), pc := WaitBack)), c, p);
        }
      case Yield =>
        s' := Sched(SetSlot(s, p, s.slots[p].(state := RUNNABLE, pc := YieldBack)), c, p);
      case Sleep(on) =>
        var unlocked := SetCpu(s, c, PopCli(s.cpus[c])).(panic := s.panic || PopPanics(s.cpus[c]));
        s' := Sched(SetSlot(unlocked, p, s.slots[p].(state := SLEEPING, chan := Other(on), pc := SleepBack)), c, p);
      case Wakeup(of) =>
        s' := Goto(Release(s.(slots := Wake(s.slots, Other(of))), c), p, Kernel(held));
    }
  }

  lemma ResumeCan(s: State, c: nat, p: nat) returns (s': State)
    requires c < |s.cpus| && p < |s.slots| && (s.slots[p].pc.ForkRet? || Resumed(s.slots[p].pc))
    ensures ResumeStep(s, s', c, p)
  {
    var cpu, slot := s.cpus[c], s.slots[p];
    var back := SetCpu(s, c, cpu.(intena := slot.saved));
    match slot.pc {
      case ForkRet => s' := SetSlot(Release(s, c), p, slot.(pc := Kernel(0), want := cpu.intena));
      case YieldBack => s' := SetSlot(Release(back, c), p, slot.(pc := Kernel(0)));
      case SleepBack =>
        s' := SetSlot(Release(back, c), p, slot.(pc := Kernel(0), pending := Relocking, chan := NoChan));
      case WaitBack => s' := SetSlot(back, p, slot.(pc := Hold(Wait, 0), chan := NoChan));
    }
  }

  lemma SchedCan(s: State, c: nat) returns (a: Action, s': State)
    requires c < |s.cpus| && !s.cpus[c].mode.Run? && CanAcquire(s, c)
    ensures SchedStep(s, s', c, a)
  {
    var cpu := s.cpus[c];
    match cpu.mode {
      case Loop =>
        a, s' := SchedTake, SetMode(Acquire(SetCpu(s, c, cpu.(iflag := true)), c), c, Scan, 0);
      case Irq(h) =>
        a, s' := Begin(Wakeup(0)), SetMode(Acquire(s, c), c, IrqHold(0, h), cpu.scan);
      case IrqHold(of, h) =>
        a, s' := Body(0), SetMode(Release(s.(slots := Wake(s.slots, Other(of))), c), c, Irq(h), cpu.scan);
      case Scan =>
        if cpu.scan >= |s.slots| {
          a, s' := SchedDrop, SetMode(Release(s, c), c, Loop, 0);
        } else if s.slots[cpu.scan].state.RUNNABLE? {
          a, s' := SchedRun, SetSlot(SetCpu(s, c, cpu.(mode := Run(cpu.scan), proc := Some(cpu.scan))), cpu.scan,
                                     s.slots[cpu.scan].(state := RUNNING));
        } else {
          a, s' := SchedSkip, SetMode(s, c, Scan, cpu.scan + 1);
        }
      case Back =>
        a, s' := SchedBack, SetCpu(s, c, cpu.(mode := Scan, proc := None, scan := cpu.scan + 1));
    }
  }

  lemma ProcCan(s: State, c: nat, p: nat) returns (a: Action, s': State)
    requires c < |s.cpus| && p < |s.slots| && CanAcquire(s, c) && !s.slots[p].pc.Nowhere?
    requires s.slots[p].pc.Hold? ==>
      && (s.slots[p].pc.op.Publish? ==> s.slots[p].pc.op.child < |s.slots|)
      && (s.slots[p].pc.op.Exit? ==> p != s.init)
    ensures ProcStep(s, s', c, p, a)
  {
    match s.slots[p].pc {
      case Kernel(h) =>
        a, s' := Begin(Wakeup(0)), Goto(Acquire(s, c), p, Hold(Wakeup(0), h));
      case Hold(op, h) =>
        var x;
        x, s' := BodyCan(s, c, p, op, h);
        a := Body(x);
      case _ =>
        s' := ResumeCan(s, c, p);
        a := Resume;
    }
  }

  /** In every state of every history a CPU can step unless another one has the lock of the process table. */
  lemma NeverStuck(run: seq<State>, labels: seq<Label>, k: nat, c: nat) returns (a: Action, s': State)
    requires IsHistory(run, labels) && k < |run| && c < |run[k].cpus| && CanAcquire(run[k], c)
    ensures Step(run[k], s', c, a)
  {
    var s := run[k];
    HistoryInv(run, labels, k);
    assert CpuOk(s, c);
    if s.cpus[c].mode.Run? {
      var p := s.cpus[c].mode.p;
      assert Fits(p, s.slots[p]) && ChildOk(TableOf(s), p);
      InitNeverExits(run, labels, k, p);
      hide IsHistory, Inv, BodyStep;
      a, s' := ProcCan(s, c, p);
      hide ProcStep;
    } else {
      hide IsHistory, Inv;
      a, s' := SchedCan(s, c);
      hide SchedStep;
    }
  }

  /** With the table lock free, a process in the kernel may call whatever the kernel's code may call there: `wakeup`
      at any time, `yield` with no other lock held, `sleep` with the one it passes, and with no other lock held and
      no fork under way `fork`, `wait` and, but for init, `exit`. */
  lemma CallsOpen(run: seq<State>, labels: seq<Label>, k: nat, c: nat, p: nat, op: Op) returns (s': State)
    requires IsHistory(run, labels) && k < |run| && Runs(run[k], c, p) && run[k].lock == None && p < |run[k].slots|
    requires run[k].slots[p].pc.Kernel? && !op.Publish?
    requires
      || op.Wakeup?
      || (op.Yield? && run[k].slots[p].pc.held == 0)
      || (run[k].slots[p].pending.Nothing? && run[k].slots[p].pc.held == (if op.Sleep? then 1 else 0)
          && (op.Exit? ==> p != run[k].init))
    ensures Step(run[k], s', c, Begin(op)) && s'.lock == Some(c)
  {
    HistoryInv(run, labels, k);
    hide IsHistory, Tree;
    s' := Goto(Acquire(run[k], c), p, Hold(op, run[k].slots[p].pc.held));
  }
}
