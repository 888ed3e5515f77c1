/** Runs of the process table with what was done at each step: who changes a slot's state and when, who sleeps on what
    and since when, which locks a process holds, and whom a pass of a scheduler serves. */
module ProcHistory {
  import opened ProcTable

  /** A step: the CPU that took it, and the action. */
  datatype Label = Label(c: nat, a: Action)

  ghost predicate IsHistory(run: seq<State>, labels: seq<Label>) {
    && |run| == |labels| + 1 && Init(run[0])
    && forall i :: 0 <= i < |labels| ==> Step(run[i], run[i + 1], labels[i].c, labels[i].a)
  }

  lemma HistoryIsRun(run: seq<State>, labels: seq<Label>)
    requires IsHistory(run, labels)
    ensures IsRun(run)
  {
    hide Step, Init;
    forall i | 0 <= i < |run| - 1 ensures Next(run[i], run[i + 1]) {
      assert Step(run[i], run[i + 1], labels[i].c, labels[i].a);
    }
  }

  lemma HistoryInv(run: seq<State>, labels: seq<Label>, k: nat)
    requires IsHistory(run, labels) && k < |run|
    ensures Inv(run[k])
  {
    hide Step, Init, Inv;
    HistoryIsRun(run, labels);
    RunInv(run, k);
  }

  // ---- what a step is ----

  /** The process `p` does the work of a critical section. */
  predicate Does(s: State, l: Label, p: nat, op: Op) {
    && l.c < |s.cpus| && s.cpus[l.c].mode == Run(p) && p < |s.slots|
    && l.a.Body? && s.slots[p].pc.Hold? && s.slots[p].pc.op == op
  }

  /** A process, or an interrupt handler on an idle CPU, wakes `ch`. */
  predicate Wakes(s: State, l: Label, ch: nat) {
    && l.c < |s.cpus| && l.a.Body?
    && match s.cpus[l.c].mode
       case Run(p) => Does(s, l, p, Wakeup(ch))
       case IrqHold(of, _) => of == ch
       case _ => false
  }

  // ---- the life of a slot ----

  predicate Allocates(s: State, l: Label, q: nat) {
    l.c < |s.cpus| && s.cpus[l.c].mode.Run? && Does(s, l, s.cpus[l.c].mode.p, Alloc) && l.a.x == q
  }

  predicate Publishes(s: State, l: Label, q: nat) {
    l.c < |s.cpus| && s.cpus[l.c].mode.Run? && Does(s, l, s.cpus[l.c].mode.p, Publish(q))
  }

  predicate GivesBack(s: State, l: Label, q: nat) {
    && l.c < |s.cpus| && s.cpus[l.c].mode.Run? && s.cpus[l.c].mode.p < |s.slots| && l.a.ForkFail?
    && s.slots[s.cpus[l.c].mode.p].pending == Building(q)
  }

  predicate Dispatches(s: State, l: Label, q: nat) {
    l.c < |s.cpus| && s.cpus[l.c].mode.Scan? && l.a.SchedRun? && s.cpus[l.c].scan == q
  }

  ghost predicate FallsAsleep(s: State, l: Label, q: nat) {
    && l.c < |s.cpus| && s.cpus[l.c].mode == Run(q) && q < |s.slots| && l.a.Body? && s.slots[q].pc.Hold?
    && (s.slots[q].pc.op.Sleep? || (s.slots[q].pc.op.Wait? && HasChild(s.slots, q) && !HasZombieChild(s.slots, q)))
  }

  /** By a wakeup of the address it sleeps on, by the exit of a child it waits for, or, for init, by an exit that hands
      it a zombie. */
  ghost predicate IsWoken(s: State, l: Label, q: nat)
    requires q < |s.slots|
  {
    && s.slots[q].state.SLEEPING? && l.c < |s.cpus|
    && match s.slots[q].chan
       case NoChan => false
       case Other(ch) => Wakes(s, l, ch)
       case OfProc(r) =>
         && s.cpus[l.c].mode.Run? && var p := s.cpus[l.c].mode.p;
            && Does(s, l, p, Exit) && (s.slots[p].parent == Some(r) || (r == s.init && HasZombieChild(s.slots, p)))
  }

  ghost predicate Reaps(s: State, l: Label, q: nat) {
    && l.c < |s.cpus| && s.cpus[l.c].mode.Run? && l.a.Body? && l.a.x == q
    && Does(s, l, s.cpus[l.c].mode.p, Wait) && HasZombieChild(s.slots, s.cpus[l.c].mode.p)
  }

  /** The state diagram of a slot: each arrow is taken exactly by the step it stands for, and there is no other. */
  ghost predicate Diagram(s: State, l: Label, f: PState, t: PState, q: nat)
    requires q < |s.slots|
  {
    && (f.UNUSED? && t.EMBRYO? <==> f.UNUSED? && Allocates(s, l, q))
    && (f.EMBRYO? && t.RUNNABLE? <==> Publishes(s, l, q))
    && (f.EMBRYO? && t.UNUSED? <==> GivesBack(s, l, q))
    && (f.RUNNABLE? && t.RUNNING? <==> Dispatches(s, l, q))
    && (f.RUNNING? && t.RUNNABLE? <==> Does(s, l, q, Yield))
    && (f.RUNNING? && t.SLEEPING? <==> FallsAsleep(s, l, q))
    && (f.SLEEPING? && t.RUNNABLE? <==> IsWoken(s, l, q))
    && (f.RUNNING? && t.ZOMBIE? <==> Does(s, l, q, Exit))
    && (f.ZOMBIE? && t.UNUSED? <==> f.ZOMBIE? && Reaps(s, l, q))
    && (f == t || Arrow(f, t))
  }

  predicate Arrow(f: PState, t: PState) {
    || (f.UNUSED? && t.EMBRYO?) || (f.EMBRYO? && t.RUNNABLE?) || (f.EMBRYO? && t.UNUSED?)
    || (f.RUNNABLE? && t.RUNNING?) || (f.RUNNING? && t.RUNNABLE?) || (f.RUNNING? && t.SLEEPING?)
    || (f.SLEEPING? && t.RUNNABLE?) || (f.RUNNING? && t.ZOMBIE?) || (f.ZOMBIE? && t.UNUSED?)
  }

  /** Which arrows the work of a critical section stands for. */
  lemma ArrowsOfBody(s: State, l: Label, p: nat, op: Op, q: nat)
    requires Does(s, l, p, op) && q < |s.slots|
    ensures !Dispatches(s, l, q) && !GivesBack(s, l, q)
    ensures Allocates(s, l, q) <==> op.Alloc? && l.a.x == q
    ensures Publishes(s, l, q) <==> op == Publish(q)
    ensures Does(s, l, q, Yield) <==> q == p && op.Yield?
    ensures Does(s, l, q, Exit) <==> q == p && op.Exit?
    ensures FallsAsleep(s, l, q) <==>
      q == p && (op.Sleep? || (op.Wait? && HasChild(s.slots, p) && !HasZombieChild(s.slots, p)))
    ensures Reaps(s, l, q) <==> op.Wait? && l.a.x == q && HasZombieChild(s.slots, p)
    ensures IsWoken(s, l, q) <==>
      && s.slots[q].state.SLEEPING? && match s.slots[q].chan
      case NoChan => false
      case Other(ch) => op == Wakeup(ch)
      case OfProc(r) => op.Exit? && (s.slots[p].parent == Some(r) || (r == s.init && HasZombieChild(s.slots, p)))
  {
    hide HasZombieChild, HasChild;
  }

  lemma SchedDiagram(s: State, s': State, l: Label, q: nat)
    requires Inv(s) && Step(s, s', l.c, l.a) && q < |s.slots| && !s.cpus[l.c].mode.Run?
    ensures |s'.slots| == |s.slots| && Diagram(s, l, s.slots[q].state, s'.slots[q].state, q)
  {
    hide Tree, PopCli, PushCli, PopPanics, HasZombieChild, HasChild;
    assert CpuOk(s, l.c);
  }

  /** Outside the critical sections nobody's state changes, nor what others sleep on. */
  lemma PlainStep(s: State, s': State, c: nat, p: nat, a: Action, q: nat)
    requires c < |s.cpus| && p < |s.slots| && ProcStep(s, s', c, p, a) && q < |s.slots| && !a.Body? && !a.ForkFail?
    ensures |s'.slots| == |s.slots| && s'.slots[q].state == s.slots[q].state && s'.slots[q].pid == s.slots[q].pid
    ensures q != p ==> s'.slots[q].chan == s.slots[q].chan
    ensures q != p ==> s'.slots[q].pc == s.slots[q].pc && s'.slots[q].pending == s.slots[q].pending
    ensures s'.slots[q].parent ==
      if a.SetParent? && s.slots[p].pending == Building(q) then Some(p) else s.slots[q].parent
  {
    hide PopCli, PushCli, PopPanics, Callable, Acquire, CanAcquire, BodyStep, ResumeStep;
    if a.Resume? {
      ResumeSlots(s, s', c, p, q);
    }
    assert |Acquire(s, c).slots| == |s.slots| && Acquire(s, c).slots == s.slots by { AcquireKeeps(s, c); }
  }

  lemma ResumeSlots(s: State, s': State, c: nat, p: nat, q: nat)
    requires c < |s.cpus| && p < |s.slots| && ResumeStep(s, s', c, p) && q < |s.slots|
    ensures |s'.slots| == |s.slots| && (q != p ==> s'.slots[q] == s.slots[q])
    ensures s'.slots[q].state == s.slots[q].state && s'.slots[q].pid == s.slots[q].pid
    ensures s'.slots[q].parent == s.slots[q].parent
  {
    hide PopCli, PopPanics;
  }

  lemma AcquireKeeps(s: State, c: nat)
    requires c < |s.cpus|
    ensures Acquire(s, c).slots == s.slots
  {
  }

  lemma PlainDiagram(s: State, s': State, l: Label, q: nat)
    requires Inv(s) && Step(s, s', l.c, l.a) && q < |s.slots| && s.cpus[l.c].mode.Run? && !l.a.Body? && !l.a.ForkFail?
    ensures |s'.slots| == |s.slots| && Diagram(s, l, s.slots[q].state, s'.slots[q].state, q)
  {
    PlainStep(s, s', l.c, s.cpus[l.c].mode.p, l.a, q);
    hide Step, Inv, HasZombieChild, HasChild;
  }

  lemma FailDiagram(s: State, s': State, l: Label, q: nat)
    requires Inv(s) && Step(s, s', l.c, l.a) && q < |s.slots| && s.cpus[l.c].mode.Run? && l.a.ForkFail?
    ensures |s'.slots| == |s.slots| && Diagram(s, l, s.slots[q].state, s'.slots[q].state, q)
  {
    var p := s.cpus[l.c].mode.p;
    assert CpuOk(s, l.c) && ChildOk(TableOf(s), p);
    hide Tree, PopCli, PushCli, PopPanics, HasZombieChild, HasChild, Callable;
  }

  lemma AllocDiagram(s: State, s': State, l: Label, q: nat, p: nat)
    requires Inv(s) && Step(s, s', l.c, l.a) && q < |s.slots| && Does(s, l, p, Alloc)
    ensures |s'.slots| == |s.slots| && Diagram(s, l, s.slots[q].state, s'.slots[q].state, q)
  {
    assert CpuOk(s, l.c);
    ArrowsOfBody(s, l, p, Alloc, q);
    hide Tree, PopCli, PushCli, PopPanics, HasZombieChild, HasChild, Callable, Allocates, Publishes, GivesBack,
      Dispatches, FallsAsleep, IsWoken, Reaps;
  }

  lemma PublishDiagram(s: State, s': State, l: Label, q: nat, p: nat, child: nat)
    requires Inv(s) && Step(s, s', l.c, l.a) && q < |s.slots| && Does(s, l, p, Publish(child))
    ensures |s'.slots| == |s.slots| && Diagram(s, l, s.slots[q].state, s'.slots[q].state, q)
  {
    assert CpuOk(s, l.c) && Fits(p, s.slots[p]) && ChildOk(TableOf(s), p);
    ArrowsOfBody(s, l, p, Publish(child), q);
    hide Tree, PopCli, PushCli, PopPanics, HasZombieChild, HasChild, Allocates, Publishes, GivesBack,
      Dispatches, FallsAsleep, IsWoken, Reaps;
  }

  lemma ExitStates(s: State, s': State, c: nat, p: nat, held: nat, x: nat, q: nat)
    requires c < |s.cpus| && p < |s.slots| && q < |s.slots| && BodyStep(s, s', c, p, Exit, held, x)
    ensures |s'.slots| == |s.slots|
    ensures s'.slots[q].state ==
      if q == p then ZOMBIE else if WokenByExit(s.slots, p, s.init, q) then RUNNABLE else s.slots[q].state
    ensures q != p ==> s'.slots[q].chan == s.slots[q].chan && s'.slots[q].pending == s.slots[q].pending
    ensures q != p ==> s'.slots[q].pc == s.slots[q].pc
  {
    ExitedSlots(TableOf(s), p, false, q);
    hide PopCli, PushCli, PopPanics, HasZombieChild, HasChild, WokenByExit;
  }

  lemma ExitDiagram(s: State, s': State, l: Label, q: nat, p: nat)
    requires Inv(s) && Step(s, s', l.c, l.a) && q < |s.slots| && Does(s, l, p, Exit)
    ensures |s'.slots| == |s.slots| && Diagram(s, l, s.slots[q].state, s'.slots[q].state, q)
  {
    assert CpuOk(s, l.c);
    ExitStates(s, s', l.c, p, s.slots[p].pc.held, l.a.x, q);
    ArrowsOfBody(s, l, p, Exit, q);
    hide Inv, Step, HasZombieChild, HasChild, Allocates, Publishes, GivesBack, Dispatches, FallsAsleep, IsWoken, Reaps,
      Does;
  }

  lemma WaitDiagram(s: State, s': State, l: Label, q: nat, p: nat)
    requires Inv(s) && Step(s, s', l.c, l.a) && q < |s.slots| && Does(s, l, p, Wait)
    ensures |s'.slots| == |s.slots| && Diagram(s, l, s.slots[q].state, s'.slots[q].state, q)
  {
    assert CpuOk(s, l.c);
    ArrowsOfBody(s, l, p, Wait, q);
    hide Tree, PopCli, PushCli, PopPanics, HasZombieChild, HasChild, Callable, Allocates, Publishes, GivesBack,
      Dispatches, FallsAsleep, IsWoken, Reaps;
  }

  lemma SwitchDiagram(s: State, s': State, l: Label, q: nat, p: nat, op: Op)
    requires Inv(s) && Step(s, s', l.c, l.a) && q < |s.slots| && Does(s, l, p, op)
    requires op.Yield? || op.Sleep? || op.Wakeup?
    ensures |s'.slots| == |s.slots| && Diagram(s, l, s.slots[q].state, s'.slots[q].state, q)
  {
    assert CpuOk(s, l.c);
    ArrowsOfBody(s, l, p, op, q);
    hide Tree, PopCli, PushCli, PopPanics, HasZombieChild, HasChild, Callable, Allocates, Publishes, GivesBack,
      Dispatches, FallsAsleep, IsWoken, Reaps;
  }

  lemma StepDiagram(s: State, s': State, l: Label, q: nat)
    requires Inv(s) && Step(s, s', l.c, l.a) && q < |s.slots|
    ensures |s'.slots| == |s.slots| && Diagram(s, l, s.slots[q].state, s'.slots[q].state, q)
  {
    hide Inv, Diagram;
    if !s.cpus[l.c].mode.Run? {
      SchedDiagram(s, s', l, q);
    } else if l.a.ForkFail? {
      FailDiagram(s, s', l, q);
    } else if !l.a.Body? {
      PlainDiagram(s, s', l, q);
    } else {
      var p := s.cpus[l.c].mode.p;
      var op := s.slots[p].pc.op;
      assert Does(s, l, p, op);
      hide Step;
      match op {
        case Alloc => AllocDiagram(s, s', l, q, p);
        case Publish(child) => PublishDiagram(s, s', l, q, p, child);
        case Exit => ExitDiagram(s, s', l, q, p);
        case Wait => WaitDiagram(s, s', l, q, p);
        case _ => SwitchDiagram(s, s', l, q, p, op);
      }
    }
  }

  /** Every step of every history takes exactly the arrow it stands for. */
  lemma StateDiagram(run: seq<State>, labels: seq<Label>, i: nat, q: nat)
    requires IsHistory(run, labels) && i < |labels| && q < |run[i].slots|
    ensures |run[i + 1].slots| == |run[i].slots|
    ensures Diagram(run[i], labels[i], run[i].slots[q].state, run[i + 1].slots[q].state, q)
  {
    HistoryInv(run, labels, i);
    assert Step(run[i], run[i + 1], labels[i].c, labels[i].a);
    hide IsHistory, Inv, Diagram, Step;
    StepDiagram(run[i], run[i + 1], labels[i], q);
  }

  // ---- who sleeps on what, and since when ----

  predicate SleepsOn(slot: Slot, ch: nat) {
    slot.state.SLEEPING? && slot.chan == Other(ch)
  }

  lemma SchedChan(s: State, s': State, c: nat, a: Action, q: nat)
    requires c < |s.cpus| && SchedStep(s, s', c, a) && q < |s.slots|
    ensures |s'.slots| == |s.slots| && s'.slots[q].chan == s.slots[q].chan
    ensures s'.slots[q].pc == s.slots[q].pc && s'.slots[q].pending == s.slots[q].pending
  {
    hide PopCli, PushCli, PopPanics;
  }

  lemma BodyChan(s: State, s': State, c: nat, p: nat, op: Op, held: nat, x: nat, q: nat)
    requires c < |s.cpus| && p < |s.slots| && BodyStep(s, s', c, p, op, held, x) && q < |s.slots| && q != p
    ensures |s'.slots| == |s.slots| && s'.slots[q].chan == s.slots[q].chan
    ensures s'.slots[q].pending == s.slots[q].pending
    ensures s'.slots[q].pc == if op == Publish(q) then ForkRet else s.slots[q].pc
  {
    if op.Exit? {
      ExitStates(s, s', c, p, held, x, q);
    } else if op.Wait? {
      WaitChan(s, s', c, p, held, x, q);
    } else {
      hide PopCli, PushCli, PopPanics, HasZombieChild, HasChild, ExitSlots, FirstZombieChild;
    }
  }

  lemma WaitChan(s: State, s': State, c: nat, p: nat, held: nat, x: nat, q: nat)
    requires c < |s.cpus| && p < |s.slots| && BodyStep(s, s', c, p, Wait, held, x) && q < |s.slots| && q != p
    ensures |s'.slots| == |s.slots| && s'.slots[q].chan == s.slots[q].chan
    ensures s'.slots[q].pending == s.slots[q].pending && s'.slots[q].pc == s.slots[q].pc
  {
    hide PopCli, PushCli, PopPanics, HasZombieChild, HasChild, ExitSlots;
  }

  /** Nobody changes what a sleeper sleeps on. */
  lemma ChanKept(s: State, s': State, l: Label, q: nat)
    requires Inv(s) && Step(s, s', l.c, l.a) && q < |s.slots| && s.slots[q].state.SLEEPING?
    ensures |s'.slots| == |s.slots| && s'.slots[q].chan == s.slots[q].chan
  {
    assert CpuOk(s, l.c);
    if !s.cpus[l.c].mode.Run? {
      SchedChan(s, s', l.c, l.a, q);
    } else {
      var p := s.cpus[l.c].mode.p;
      hide Inv, BodyStep;
      if l.a.Body? {
        BodyChan(s, s', l.c, p, s.slots[p].pc.op, s.slots[p].pc.held, l.a.x, q);
      } else if !l.a.ForkFail? {
        PlainStep(s, s', l.c, p, l.a, q);
      }
    }
  }

  /** Whoever goes to sleep in `sleep` sleeps on what it was called with, and in `wait` on itself. */
  lemma SleepChan(s: State, s': State, l: Label, q: nat)
    requires Inv(s) && Step(s, s', l.c, l.a) && q < |s.slots| && FallsAsleep(s, l, q)
    ensures |s'.slots| == |s.slots|
    ensures s'.slots[q].chan == if s.slots[q].pc.op.Sleep? then Other(s.slots[q].pc.op.on) else OfProc(q)
  {
    hide Inv, PopCli, PushCli, PopPanics, HasZombieChild, HasChild, Callable, ExitSlots;
  }

  lemma SleepStep(s: State, s': State, l: Label, q: nat, ch: nat)
    requires Inv(s) && Step(s, s', l.c, l.a) && q < |s.slots|
    ensures |s'.slots| == |s.slots|
    ensures SleepsOn(s'.slots[q], ch) ==> Does(s, l, q, Sleep(ch)) || (SleepsOn(s.slots[q], ch) && !Wakes(s, l, ch))
    ensures Does(s, l, q, Sleep(ch)) ==> SleepsOn(s'.slots[q], ch)
  {
    StepDiagram(s, s', l, q);
    if s.slots[q].state.SLEEPING? {
      ChanKept(s, s', l, q);
    } else if FallsAsleep(s, l, q) {
      SleepChan(s, s', l, q);
    }
    hide Step, Inv;
  }

  /** Whoever is asleep on `ch` called `sleep` on `ch` some time ago, has been asleep on it since, and nobody has woken
      `ch` since. */
  lemma {:induction false} AsleepSince(run: seq<State>, labels: seq<Label>, k: nat, p: nat, ch: nat) returns (j: nat)
    requires IsHistory(run, labels) && k < |run| && p < |run[k].slots| && SleepsOn(run[k].slots[p], ch)
    ensures j < k <= |labels| && Does(run[j], labels[j], p, Sleep(ch))
    ensures forall i :: j < i <= k ==> p < |run[i].slots| && SleepsOn(run[i].slots[p], ch)
    ensures forall i :: j < i < k ==> !Wakes(run[i], labels[i], ch)
    decreases k
  {
    hide IsHistory, Does, Wakes;
    HistoryStarts(run, labels, p);
    if k > 0 {
      SleptOrWoke(run, labels, k - 1, p, ch);
      if Does(run[k - 1], labels[k - 1], p, Sleep(ch)) {
        j := k - 1;
      } else {
        j := AsleepSince(run, labels, k - 1, p, ch);
      }
    }
  }

  lemma HistoryStarts(run: seq<State>, labels: seq<Label>, p: nat)
    requires IsHistory(run, labels)
    ensures |run| == |labels| + 1 && (p < |run[0].slots| ==> !run[0].slots[p].state.SLEEPING?)
  {
  }

  lemma SleptOrWoke(run: seq<State>, labels: seq<Label>, i: nat, p: nat, ch: nat)
    requires IsHistory(run, labels) && i < |labels| && p < |run[i + 1].slots| && SleepsOn(run[i + 1].slots[p], ch)
    ensures p < |run[i].slots|
    ensures Does(run[i], labels[i], p, Sleep(ch)) ||
            (SleepsOn(run[i].slots[p], ch) && !Wakes(run[i], labels[i], ch))
  {
    HistoryInv(run, labels, i);
    assert Step(run[i], run[i + 1], labels[i].c, labels[i].a);
    SameTable(run, labels, i);
    hide IsHistory, Step, Inv, Does, Wakes;
    SleepStep(run[i], run[i + 1], labels[i], p, ch);
  }

  lemma SameTable(run: seq<State>, labels: seq<Label>, i: nat)
    requires IsHistory(run, labels) && i < |labels|
    ensures |run[i + 1].slots| == |run[i].slots|
  {
    HistoryInv(run, labels, i);
    assert InitAlive(TableOf(run[i]));
    hide IsHistory, Inv, Diagram;
    StateDiagram(run, labels, i, run[i].init);
  }

  /** After a wakeup of `ch`, nobody is asleep on `ch` who did not call `sleep` on it later. */
  lemma WokenSince(run: seq<State>, labels: seq<Label>, i: nat, k: nat, p: nat, ch: nat) returns (j: nat)
    requires IsHistory(run, labels) && i < k < |run| && Wakes(run[i], labels[i], ch)
    requires p < |run[k].slots| && SleepsOn(run[k].slots[p], ch)
    ensures i < j < k && Does(run[j], labels[j], p, Sleep(ch))
  {
    hide IsHistory;
    j := AsleepSince(run, labels, k, p, ch);
  }

  /** A wakeup of `ch` makes those asleep on `ch` runnable and leaves everybody else as they are. */
  lemma WakeupWakes(run: seq<State>, labels: seq<Label>, i: nat, ch: nat, q: nat)
    requires IsHistory(run, labels) && i < |labels| && Wakes(run[i], labels[i], ch) && q < |run[i].slots|
    ensures |run[i + 1].slots| == |run[i].slots|
    ensures run[i + 1].slots[q].state == if SleepsOn(run[i].slots[q], ch) then RUNNABLE else run[i].slots[q].state
  {
    StateDiagram(run, labels, i, q);
  }

  /** Outside `sleep` a process has no channel. */
  predicate ChanCleared(slot: Slot) {
    slot.chan.NoChan? || slot.pc.SleepBack? || slot.pc.WaitBack?
  }

  lemma ChanClearedStep(s: State, s': State, l: Label, q: nat)
    requires Inv(s) && Step(s, s', l.c, l.a) && q < |s.slots| && ChanCleared(s.slots[q])
    ensures |s'.slots| == |s.slots| && ChanCleared(s'.slots[q])
  {
    if !s.cpus[l.c].mode.Run? {
      SchedChan(s, s', l.c, l.a, q);
    } else if s.cpus[l.c].mode != Run(q) {
      var p := s.cpus[l.c].mode.p;
      if l.a.Body? {
        assert Fits(p, s.slots[p]) && Fits(q, s.slots[q]) && ChildOk(TableOf(s), p);
        hide Inv, BodyStep;
        BodyChan(s, s', l.c, p, s.slots[p].pc.op, s.slots[p].pc.held, l.a.x, q);
      } else if !l.a.ForkFail? {
        hide Inv;
        PlainStep(s, s', l.c, p, l.a, q);
        hide ProcStep;
      } else {
        hide Inv;
      }
    } else if l.a.Body? {
      hide Inv;
      OwnBodyChan(s, s', l.c, q, s.slots[q].pc.op, s.slots[q].pc.held, l.a.x);
      hide BodyStep;
    } else {
      hide Inv, ProcStep;
      OwnPlainChan(s, s', l.c, q, l.a);
    }
  }

  lemma OwnPlainChan(s: State, s': State, c: nat, p: nat, a: Action)
    requires c < |s.cpus| && p < |s.slots| && ProcStep(s, s', c, p, a) && !a.Body? && ChanCleared(s.slots[p])
    ensures |s'.slots| == |s.slots| && ChanCleared(s'.slots[p])
  {
    hide BodyStep, PopCli, PushCli, PopPanics, Callable, CanAcquire;
    AcquireKeeps(s, c);
    hide Acquire;
  }

  lemma OwnBodyChan(s: State, s': State, c: nat, p: nat, op: Op, held: nat, x: nat)
    requires c < |s.cpus| && p < |s.slots| && BodyStep(s, s', c, p, op, held, x)
    requires s.slots[p].chan.NoChan?
    ensures |s'.slots| == |s.slots| && ChanCleared(s'.slots[p])
  {
    hide PopCli, PushCli, PopPanics, HasZombieChild, HasChild, ExitSlots, Wake;
    if op.Exit? {
      ExitOwnChan(s.slots, p, s.init);
    }
  }

  lemma ExitOwnChan(slots: seq<Slot>, p: nat, init: nat)
    requires p < |slots|
    ensures |ExitSlots(slots, p, init)| == |slots| && ExitSlots(slots, p, init)[p].chan == slots[p].chan
  {
    hide HasZombieChild;
  }

  lemma {:induction false} NoChanOutside(run: seq<State>, labels: seq<Label>, k: nat, p: nat)
    requires IsHistory(run, labels) && k < |run| && p < |run[k].slots|
    ensures ChanCleared(run[k].slots[p])
    decreases k
  {
    if k > 0 {
      HistoryInv(run, labels, k - 1);
      SameTable(run, labels, k - 1);
      assert Step(run[k - 1], run[k], labels[k - 1].c, labels[k - 1].a);
      NoChanOutside(run, labels, k - 1, p);
      hide IsHistory, Inv, Step, ChanCleared;
      ChanClearedStep(run[k - 1], run[k], labels[k - 1], p);
    }
  }

  // ---- pids and parents ----

  /** The forking process says whose child `q` is. */
  predicate SetsParent(s: State, l: Label, p: nat, q: nat) {
    && l.c < |s.cpus| && s.cpus[l.c].mode == Run(p) && p < |s.slots| && l.a.SetParent?
    && s.slots[p].pending == Building(q)
  }

  /** Who has which pid and which parent after a step. */
  ghost predicate Kinship(s: State, l: Label, s': State, q: nat)
    requires q < |s.slots| == |s'.slots|
  {
    var a, b := s.slots[q], s'.slots[q];
    && (if a.state.UNUSED? && Allocates(s, l, q) then b.pid == s.nextpid && s'.nextpid == s.nextpid + 1
        else if Reaps(s, l, q) then b.pid == 0
        else b.pid == a.pid)
    && (if l.c < |s.cpus| && s.cpus[l.c].mode.Run? && SetsParent(s, l, s.cpus[l.c].mode.p, q) then
          b.parent == Some(s.cpus[l.c].mode.p)
        else if a.parent.Some? && Does(s, l, a.parent.value, Exit) then b.parent == Some(s.init)
        else if Reaps(s, l, q) then b.parent == None
        else b.parent == a.parent)
  }

  lemma SchedKinship(s: State, s': State, l: Label, q: nat)
    requires Inv(s) && Step(s, s', l.c, l.a) && q < |s.slots| && !s.cpus[l.c].mode.Run?
    ensures |s'.slots| == |s.slots| && Kinship(s, l, s', q)
  {
    hide Inv, PopCli, PushCli, PopPanics, HasZombieChild, HasChild;
  }

  lemma PlainKinship(s: State, s': State, l: Label, q: nat)
    requires Inv(s) && Step(s, s', l.c, l.a) && q < |s.slots| && s.cpus[l.c].mode.Run? && !l.a.Body?
    ensures |s'.slots| == |s.slots| && Kinship(s, l, s', q)
  {
    var p := s.cpus[l.c].mode.p;
    if l.a.ForkFail? {
      hide Inv, HasZombieChild, HasChild;
    } else {
      PlainStep(s, s', l.c, p, l.a, q);
      hide Inv, HasZombieChild, HasChild, ProcStep;
    }
  }

  lemma KinKept(s: State, s': State, c: nat, p: nat, op: Op, held: nat, x: nat, q: nat)
    requires c < |s.cpus| && p < |s.slots| && BodyStep(s, s', c, p, op, held, x) && q < |s.slots|
    requires op.Publish? || op.Yield? || op.Sleep? || op.Wakeup?
    ensures |s'.slots| == |s.slots| && s'.slots[q].pid == s.slots[q].pid && s'.slots[q].parent == s.slots[q].parent
  {
    hide PopCli, PushCli, PopPanics, HasZombieChild, HasChild, ExitSlots;
  }

  lemma AllocKinship(s: State, s': State, l: Label, q: nat, p: nat)
    requires Inv(s) && Step(s, s', l.c, l.a) && q < |s.slots| && Does(s, l, p, Alloc)
    ensures |s'.slots| == |s.slots| && Kinship(s, l, s', q)
  {
    hide Inv, PopCli, PushCli, PopPanics, HasZombieChild, HasChild, Callable, ExitSlots;
  }

  lemma WaitKinship(s: State, s': State, l: Label, q: nat, p: nat)
    requires Inv(s) && Step(s, s', l.c, l.a) && q < |s.slots| && Does(s, l, p, Wait)
    ensures |s'.slots| == |s.slots| && Kinship(s, l, s', q)
  {
    hide Inv, PopCli, PushCli, PopPanics, HasZombieChild, HasChild, Callable, ExitSlots;
  }

  lemma BodyKinship(s: State, s': State, l: Label, q: nat, p: nat, op: Op)
    requires Inv(s) && Step(s, s', l.c, l.a) && q < |s.slots| && Does(s, l, p, op)
    requires op.Publish? || op.Yield? || op.Sleep? || op.Wakeup?
    ensures |s'.slots| == |s.slots| && Kinship(s, l, s', q)
  {
    KinKept(s, s', l.c, p, op, s.slots[p].pc.held, l.a.x, q);
    hide Inv, Step, HasZombieChild, HasChild;
  }

  lemma ExitKinship(s: State, s': State, l: Label, q: nat, p: nat)
    requires Inv(s) && Step(s, s', l.c, l.a) && q < |s.slots| && Does(s, l, p, Exit)
    ensures |s'.slots| == |s.slots| && Kinship(s, l, s', q)
  {
    assert CpuOk(s, l.c) && ParentOk(TableOf(s), p);
    ExitedSlots(TableOf(s), p, false, q);
    hide Inv, PopCli, PushCli, PopPanics, HasZombieChild, HasChild, Callable;
  }

  /** A new process gets the next pid, its parent is set by the process that forks it, an exit hands its children to
      init, and nothing else changes a pid or a parent but the freeing of the slot. */
  lemma KinshipOfStep(run: seq<State>, labels: seq<Label>, i: nat, q: nat)
    requires IsHistory(run, labels) && i < |labels| && q < |run[i].slots|
    ensures |run[i + 1].slots| == |run[i].slots| && Kinship(run[i], labels[i], run[i + 1], q)
  {
    HistoryInv(run, labels, i);
    var s, s', l := run[i], run[i + 1], labels[i];
    assert Step(s, s', l.c, l.a);
    hide IsHistory, Inv, Kinship;
    if !s.cpus[l.c].mode.Run? {
      SchedKinship(s, s', l, q);
    } else if !l.a.Body? {
      PlainKinship(s, s', l, q);
    } else {
      var p := s.cpus[l.c].mode.p;
      var op := s.slots[p].pc.op;
      assert Does(s, l, p, op);
      hide Step;
      match op {
        case Alloc => AllocKinship(s, s', l, q, p);
        case Exit => ExitKinship(s, s', l, q, p);
        case Wait => WaitKinship(s, s', l, q, p);
        case _ => BodyKinship(s, s', l, q, p, op);
      }
    }
  }

  // ---- which locks a process holds ----

  /** Other spinlocks taken less those given back by `p` in the first `k` steps, outside `sleep`. */
  ghost function Balance(run: seq<State>, labels: seq<Label>, p: nat, k: nat): (n: int)
    requires |run| == |labels| + 1 && k < |run|
  {
    if k == 0 then 0 else Balance(run, labels, p, k - 1) + Takes(run[k - 1], labels[k - 1], p)
  }

  function Takes(s: State, l: Label, p: nat): (n: int) {
    if l.c < |s.cpus| && s.cpus[l.c].mode == Run(p) then
      if l.a.LockOther? then 1 else if l.a.UnlockOther? then -1 else 0
    else 0
  }

  /** What the program point of a process says it holds, or will hold when `sleep` returns. */
  function Holds(slot: Slot): (n: nat) {
    var again := if slot.pending.Relocking? then 1 else 0;
    match slot.pc
    case Kernel(held) => held + again
    case Hold(_, held) => held + again
    case YieldBack => again
    case SleepBack => 1
    case _ => 0
  }

  lemma HeldByOthers(s: State, s': State, l: Label, q: nat)
    requires Inv(s) && Step(s, s', l.c, l.a) && q < |s.slots| && s.cpus[l.c].mode != Run(q)
    ensures |s'.slots| == |s.slots| && Holds(s'.slots[q]) == Holds(s.slots[q])
  {
    if !s.cpus[l.c].mode.Run? {
      SchedChan(s, s', l.c, l.a, q);
    } else {
      var p := s.cpus[l.c].mode.p;
      if l.a.Body? {
        BodyChan(s, s', l.c, p, s.slots[p].pc.op, s.slots[p].pc.held, l.a.x, q);
        assert Fits(p, s.slots[p]) && Fits(q, s.slots[q]) && ChildOk(TableOf(s), p);
        hide Inv, BodyStep;
      } else if !l.a.ForkFail? {
        PlainStep(s, s', l.c, p, l.a, q);
        hide Inv, ProcStep;
      } else {
        hide Inv;
      }
    }
  }

  lemma HeldOutside(s: State, s': State, c: nat, p: nat, a: Action)
    requires c < |s.cpus| && s.cpus[c].mode == Run(p) && p < |s.slots| && ProcStep(s, s', c, p, a)
    requires !a.Body? && !a.Resume?
    ensures |s'.slots| == |s.slots| && Holds(s'.slots[p]) == Holds(s.slots[p]) + Takes(s, Label(c, a), p)
  {
    AcquireKeeps(s, c);
    hide PopCli, PushCli, PopPanics, CanAcquire, Acquire, BodyStep, Callable;
  }

  lemma HeldOnResume(s: State, s': State, c: nat, p: nat)
    requires c < |s.cpus| && p < |s.slots| && ResumeStep(s, s', c, p) && Fits(p, s.slots[p])
    ensures |s'.slots| == |s.slots| && Holds(s'.slots[p]) == Holds(s.slots[p])
  {
    hide PopCli, PushCli, PopPanics;
  }

  lemma HeldOnExit(s: State, s': State, c: nat, p: nat, held: nat, x: nat)
    requires c < |s.cpus| && p < |s.slots| && BodyStep(s, s', c, p, Exit, held, x)
    requires s.slots[p].pc == Hold(Exit, 0) && s.slots[p].pending.Nothing?
    ensures |s'.slots| == |s.slots| && Holds(s'.slots[p]) == Holds(s.slots[p])
  {
    ExitedSlots(TableOf(s), p, false, p);
    hide PopCli, PushCli, PopPanics, HasZombieChild, HasChild;
  }

  lemma HeldInWait(s: State, s': State, c: nat, p: nat, x: nat)
    requires c < |s.cpus| && p < |s.slots| && s.slots[p].pc == Hold(Wait, 0) && s.slots[p].pending.Nothing?
    requires BodyStep(s, s', c, p, Wait, 0, x)
    ensures |s'.slots| == |s.slots| && Holds(s'.slots[p]) == Holds(s.slots[p])
  {
    hide PopCli, PushCli, PopPanics, HasZombieChild, HasChild, ExitSlots;
  }

  lemma HeldInFork(s: State, s': State, c: nat, p: nat, x: nat)
    requires c < |s.cpus| && p < |s.slots| && s.slots[p].pc.Hold? && Fits(p, s.slots[p])
    requires s.slots[p].pc.op.Alloc? || s.slots[p].pc.op.Publish?
    requires BodyStep(s, s', c, p, s.slots[p].pc.op, s.slots[p].pc.held, x)
    ensures |s'.slots| == |s.slots| && Holds(s'.slots[p]) == Holds(s.slots[p])
  {
    hide PopCli, PushCli, PopPanics, HasZombieChild, HasChild, ExitSlots, FirstZombieChild;
  }

  lemma HeldInBody(s: State, s': State, c: nat, p: nat, x: nat)
    requires c < |s.cpus| && p < |s.slots| && s.slots[p].pc.Hold? && Fits(p, s.slots[p])
    requires s.slots[p].pc.op.Yield? || s.slots[p].pc.op.Sleep? || s.slots[p].pc.op.Wakeup?
    requires BodyStep(s, s', c, p, s.slots[p].pc.op, s.slots[p].pc.held, x)
    ensures |s'.slots| == |s.slots| && Holds(s'.slots[p]) == Holds(s.slots[p])
  {
    hide PopCli, PushCli, PopPanics, HasZombieChild, HasChild, ExitSlots, FirstZombieChild;
  }

  /** What the process itself does changes what it holds as the count says. */
  lemma HeldByItself(s: State, s': State, l: Label, p: nat)
    requires Inv(s) && Step(s, s', l.c, l.a) && p < |s.slots| && s.cpus[l.c].mode == Run(p)
    ensures |s'.slots| == |s.slots| && Holds(s'.slots[p]) == Holds(s.slots[p]) + Takes(s, l, p)
  {
    assert Fits(p, s.slots[p]);
    hide Inv, Holds, BodyStep, ResumeStep;
    if !l.a.Body? && !l.a.Resume? {
      HeldOutside(s, s', l.c, p, l.a);
    } else if l.a.Resume? {
      HeldOnResume(s, s', l.c, p);
    } else if s.slots[p].pc.op.Exit? {
      HeldOnExit(s, s', l.c, p, s.slots[p].pc.held, l.a.x);
    } else if s.slots[p].pc.op.Wait? {
      HeldInWait(s, s', l.c, p, l.a.x);
    } else if s.slots[p].pc.op.Alloc? || s.slots[p].pc.op.Publish? {
      HeldInFork(s, s', l.c, p, l.a.x);
    } else {
      HeldInBody(s, s', l.c, p, l.a.x);
    }
  }

  /** In every state of every history a process holds the locks it took and did not give back; `sleep` has its lock
      again when it returns. */
  lemma {:induction false} LocksBalanced(run: seq<State>, labels: seq<Label>, k: nat, p: nat)
    requires IsHistory(run, labels) && k < |run| && p < |run[k].slots|
    ensures Holds(run[k].slots[p]) == Balance(run, labels, p, k)
    decreases k
  {
    if k > 0 {
      HistoryInv(run, labels, k - 1);
      SameTable(run, labels, k - 1);
      var s, s', l := run[k - 1], run[k], labels[k - 1];
      assert Step(s, s', l.c, l.a);
      LocksBalanced(run, labels, k - 1, p);
      hide IsHistory, Inv, Holds;
      if s.cpus[l.c].mode != Run(p) {
        HeldByOthers(s, s', l, p);
      } else {
        HeldByItself(s, s', l, p);
      }
    }
  }

  // ---- whom a pass of the scheduler serves ----

  /** CPU `c` is in the middle of a pass that has not come to slot `p`. */
  predicate Before(s: State, c: nat, p: nat) {
    && c < |s.cpus| && (s.cpus[c].mode.Scan? || s.cpus[c].mode.Run? || s.cpus[c].mode.Back?)
    && s.cpus[c].scan <= p && (s.cpus[c].scan == p ==> s.cpus[c].mode.Scan?)
  }

  lemma SchedPass(s: State, s': State, c: nat, a: Action, p: nat)
    requires c < |s.cpus| && !s.cpus[c].mode.Run? && SchedStep(s, s', c, a) && p < |s.slots| && Before(s, c, p)
    requires s.slots[p].state.RUNNABLE? && p < |s'.slots| && s'.slots[p].state.RUNNABLE? && !a.SchedTake?
    ensures Before(s', c, p) && !a.SchedDrop?
  {
    hide PopCli, PushCli, PopPanics;
  }

  /** A step of a process leaves the other CPUs alone and the scan of its own where it was. */
  ghost predicate SameScan(s: State, s': State, c: nat, d: nat)
    requires c < |s.cpus| && d < |s.cpus|
  {
    && |s'.cpus| == |s.cpus| && (d != c ==> s'.cpus[d] == s.cpus[d])
    && s'.cpus[c].scan == s.cpus[c].scan && (s'.cpus[c].mode == s.cpus[c].mode || s'.cpus[c].mode.Back?)
  }

  lemma BodyScan(s: State, s': State, c: nat, p: nat, op: Op, held: nat, x: nat, d: nat)
    requires c < |s.cpus| && d < |s.cpus| && p < |s.slots| && BodyStep(s, s', c, p, op, held, x)
    ensures SameScan(s, s', c, d)
  {
    hide HasZombieChild, HasChild, ExitSlots, PopPanics, Wake;
  }

  lemma PlainScan(s: State, s': State, c: nat, p: nat, a: Action, d: nat)
    requires c < |s.cpus| && d < |s.cpus| && p < |s.slots| && ProcStep(s, s', c, p, a) && !a.Body?
    ensures SameScan(s, s', c, d)
  {
    hide BodyStep, Callable, PopPanics;
  }

  lemma ProcScan(s: State, s': State, c: nat, p: nat, a: Action, d: nat)
    requires c < |s.cpus| && d < |s.cpus| && p < |s.slots| && ProcStep(s, s', c, p, a)
    ensures SameScan(s, s', c, d)
  {
    hide BodyStep, ResumeStep, SameScan;
    if a.Body? {
      BodyScan(s, s', c, p, s.slots[p].pc.op, s.slots[p].pc.held, a.x, d);
    } else {
      PlainScan(s, s', c, p, a, d);
    }
  }

  lemma SchedOther(s: State, s': State, c: nat, a: Action, d: nat)
    requires c < |s.cpus| && d < |s.cpus| && d != c && SchedStep(s, s', c, a)
    ensures |s'.cpus| == |s.cpus| && s'.cpus[d] == s.cpus[d]
  {
    hide PopCli, PushCli, PopPanics, Wake;
  }

  lemma PassOn(s: State, s': State, l: Label, c: nat, p: nat)
    requires Step(s, s', l.c, l.a) && p < |s.slots| && Before(s, c, p)
    requires s.slots[p].state.RUNNABLE? && p < |s'.slots| && s'.slots[p].state.RUNNABLE?
    requires l != Label(c, SchedTake)
    ensures Before(s', c, p) && l != Label(c, SchedDrop)
  {
    hide ProcStep, SchedStep;
    if s.cpus[l.c].mode.Run? {
      ProcScan(s, s', l.c, s.cpus[l.c].mode.p, l.a, c);
      RunScan(s, s', l.c, s.cpus[l.c].mode.p, l.a);
    } else if l.c != c {
      SchedOther(s, s', l.c, l.a, c);
    } else {
      SchedPass(s, s', c, l.a, p);
    }
  }

  lemma RunScan(s: State, s': State, c: nat, q: nat, a: Action)
    requires c < |s.cpus| && q < |s.slots| && ProcStep(s, s', c, q, a)
    ensures !a.SchedDrop?
  {
    hide BodyStep, ResumeStep;
  }

  /** No pass of a scheduler goes by a process that is runnable all the time. */
  lemma {:induction false} PassServes(run: seq<State>, labels: seq<Label>, i: nat, j: nat, c: nat, p: nat)
    requires IsHistory(run, labels) && i < j < |labels| && p < |run[i].slots|
    requires labels[i] == Label(c, SchedTake) && labels[j] == Label(c, SchedDrop)
    requires forall m :: i < m < j ==> labels[m] != Label(c, SchedTake)
    ensures exists m :: i <= m <= j + 1 && p < |run[m].slots| && !run[m].slots[p].state.RUNNABLE?
  {
    hide Step, Before, Init;
    if forall m :: i <= m <= j + 1 && p < |run[m].slots| ==> run[m].slots[p].state.RUNNABLE? {
      assert Step(run[i], run[i + 1], labels[i].c, labels[i].a);
      assert Step(run[i + 1], run[i + 2], labels[i + 1].c, labels[i + 1].a);
      StepGoesOn(run[i + 1], run[i + 2], labels[i + 1]);
      StartsPass(run[i], run[i + 1], c, p);
      var m := i + 1;
      SameTable(run, labels, i);
      while m < j
        invariant i < m <= j && p < |run[m].slots| && Before(run[m], c, p)
      {
        assert Step(run[m], run[m + 1], labels[m].c, labels[m].a);
        SameTable(run, labels, m);
        PassOn(run[m], run[m + 1], labels[m], c, p);
        m := m + 1;
      }
      assert Step(run[j], run[j + 1], labels[j].c, labels[j].a);
      SameTable(run, labels, j);
      PassOn(run[j], run[j + 1], labels[j], c, p);
    }
  }

  lemma StepGoesOn(s: State, s': State, l: Label)
    requires Step(s, s', l.c, l.a)
    ensures !s.panic
  {
  }

  lemma StartsPass(s: State, s': State, c: nat, p: nat)
    requires Step(s, s', c, SchedTake)
    ensures s'.panic || Before(s', c, p)
  {
    hide PopPanics;
  }

  /** The scan of CPU `c` in this pass has got to `x`, and beyond unless it is at the process there. */
  predicate Beyond(s: State, c: nat, x: nat) {
    && c < |s.cpus|
    && match s.cpus[c].mode
       case Scan => x < s.cpus[c].scan
       case Run(_) => x <= s.cpus[c].scan
       case Back => x <= s.cpus[c].scan
       case _ => true
  }

  lemma DispatchBegins(s: State, s': State, c: nat)
    requires c < |s.cpus| && SchedStep(s, s', c, SchedRun)
    ensures Beyond(s', c, s.cpus[c].scan)
  {
  }

  lemma SchedBeyond(s: State, s': State, c: nat, a: Action, x: nat)
    requires Beyond(s, c, x) && !s.cpus[c].mode.Run? && SchedStep(s, s', c, a) && !a.SchedTake?
    ensures Beyond(s', c, x)
  {
    hide PopCli, PushCli, PopPanics, Wake;
  }

  lemma BeyondKept(s: State, s': State, l: Label, c: nat, x: nat)
    requires Step(s, s', l.c, l.a) && Beyond(s, c, x) && l != Label(c, SchedTake)
    ensures Beyond(s', c, x)
  {
    hide ProcStep, SchedStep;
    if s.cpus[l.c].mode.Run? {
      ProcScan(s, s', l.c, s.cpus[l.c].mode.p, l.a, c);
    } else if l.c != c {
      SchedOther(s, s', l.c, l.a, c);
    } else {
      SchedBeyond(s, s', c, l.a, x);
    }
  }

  lemma DispatchScans(s: State, s': State, c: nat)
    requires Step(s, s', c, SchedRun)
    ensures c < |s.cpus| && s.cpus[c].mode.Scan? && SchedStep(s, s', c, SchedRun)
  {
    hide BodyStep, ResumeStep;
  }

  /** A pass of a scheduler dispatches slots in the order of the table, each at most once. */
  lemma PassInOrder(run: seq<State>, labels: seq<Label>, i: nat, j: nat, c: nat)
    requires IsHistory(run, labels) && i < j < |labels|
    requires labels[i] == Label(c, SchedRun) && labels[j] == Label(c, SchedRun)
    requires forall m :: i < m < j ==> labels[m] != Label(c, SchedTake)
    ensures c < |run[i].cpus| && c < |run[j].cpus| && run[i].cpus[c].scan < run[j].cpus[c].scan
  {
    hide Step, SchedStep, Init, Beyond;
    assert Step(run[i], run[i + 1], labels[i].c, labels[i].a);
    DispatchScans(run[i], run[i + 1], c);
    DispatchBegins(run[i], run[i + 1], c);
    var m := i + 1;
    while m < j
      invariant i < m <= j && Beyond(run[m], c, run[i].cpus[c].scan)
    {
      assert Step(run[m], run[m + 1], labels[m].c, labels[m].a);
      BeyondKept(run[m], run[m + 1], labels[m], c, run[i].cpus[c].scan);
      m := m + 1;
    }
    assert Step(run[j], run[j + 1], labels[j].c, labels[j].a);
    DispatchScans(run[j], run[j + 1], c);
    ScanBeyond(run[j], c, run[i].cpus[c].scan);
  }

  lemma ScanBeyond(s: State, c: nat, x: nat)
    requires Beyond(s, c, x) && s.cpus[c].mode.Scan?
    ensures x < s.cpus[c].scan
  {
  }
}
