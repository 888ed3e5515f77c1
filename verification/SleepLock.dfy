/** Sleeping locks over sleep and wakeup, as the atomic steps any number of processes interleave.
    A step is one acquire or release of a spinlock or the work done while holding one. */
module SleepLock {
  type Proc = nat
  type LockId = nat

  datatype Option<T> = None | Some(value: T)

  /** Who holds `ptable.lock`: nobody, a process, or a CPU's scheduler. */
  datatype Table = Free | Process(p: Proc) | Scheduler

  /** Where a process is in `acquiresleep` or `releasesleep` of a lock. */
  datatype Pc =
    | Outside
    | AcquireSpin      // acquire(&lk->lk)
    | Test             // while (lk->locked)
    | SleepSpin        // sleep: acquire(&ptable.lock), still holding lk->lk
    | SleepUnlock      // sleep: release(lk)
    | SleepMark        // sleep: chan and state, then into the scheduler
    | Asleep           // state is SLEEPING, chan is the lock
    | Runnable         // woken, waiting for a CPU
    | Awake            // running again, holding ptable.lock
    | WakeSpin         // sleep: acquire(lk) again
    | Take             // lk->locked = 1
    | TakeUnlock       // release(&lk->lk)
    | ReleaseSpin      // releasesleep: acquire(&lk->lk)
    | Clear            // lk->locked = 0
    | WakeupSpin       // wakeup: acquire(&ptable.lock)
    | Wakeup           // wakeup1
    | WakeupDone       // wakeup: release(&ptable.lock)
    | ReleaseUnlock    // release(&lk->lk)

  datatype Thread = Thread(pc: Pc, lock: LockId, owns: set<LockId>)

  /** `struct sleeplock`: the inner spinlock's holder, the flag and the owner's pid. */
  datatype Lock = Lock(inner: Option<Proc>, locked: bool, pid: Proc)

  datatype State = State(threads: map<Proc, Thread>, locks: map<LockId, Lock>, table: Table)

  predicate HoldsInner(pc: Pc) {
    pc in {Test, SleepSpin, SleepUnlock, Take, TakeUnlock, Clear, WakeupSpin, Wakeup, WakeupDone, ReleaseUnlock}
  }

  predicate HoldsTable(pc: Pc) {
    pc in {SleepUnlock, SleepMark, Awake, Wakeup, WakeupDone}
  }

  /** Asleep, or past the test and on the way there. */
  predicate Committed(pc: Pc) {
    pc in {SleepSpin, SleepUnlock, SleepMark, Asleep}
  }

  /** A releaser that has cleared the flag and not yet run `wakeup1`. */
  predicate Waking(pc: Pc) {
    pc in {WakeupSpin, Wakeup}
  }

  ghost predicate Init(s: State) {
    && (forall p :: p in s.threads ==> s.threads[p].pc == Outside && s.threads[p].owns == {})
    && (forall l :: l in s.locks ==> s.locks[l] == Lock(None, false, 0))
    && s.table.Free?
  }

  // ---- steps ----

  /** `wakeup1(lk)`: every process asleep on this lock becomes runnable. */
  function Woken(threads: map<Proc, Thread>, l: LockId): (r: map<Proc, Thread>)
    ensures r.Keys == threads.Keys
    ensures forall q :: q in threads ==>
      r[q] == if threads[q].pc.Asleep? && threads[q].lock == l then threads[q].(pc := Runnable) else threads[q]
  {
    map q | q in threads ::
      if threads[q].pc.Asleep? && threads[q].lock == l then threads[q].(pc := Runnable) else threads[q]
  }

  datatype Local = Local(thread: Thread, lock: Lock, table: Table)

  /** What process `p` does next in the call it is in, if it can: its own control state, the lock
      it is working on and `ptable.lock`. A spinning process can go on when the lock is free; a
      runnable one when a scheduler picks it, handing it `ptable.lock`. */
  function Advance(p: Proc, t: Thread, k: Lock, table: Table): (r: Option<Local>) {
    match t.pc
    case Outside => None
    case AcquireSpin => if k.inner.None? then Some(Local(t.(pc := Test), k.(inner := Some(p)), table)) else None
    case Test => Some(Local(t.(pc := if k.locked then SleepSpin else Take), k, table))
    case SleepSpin => if table.Free? then Some(Local(t.(pc := SleepUnlock), k, Process(p))) else None
    case SleepUnlock => Some(Local(t.(pc := SleepMark), k.(inner := None), table))
    case SleepMark => Some(Local(t.(pc := Asleep), k, Scheduler))
    case Asleep => None
    case Runnable => if table.Scheduler? then Some(Local(t.(pc := Awake), k, Process(p))) else None
    case Awake => Some(Local(t.(pc := WakeSpin), k, Free))
    case WakeSpin => if k.inner.None? then Some(Local(t.(pc := Test), k.(inner := Some(p)), table)) else None
    case Take => Some(Local(t.(pc := TakeUnlock, owns := t.owns + {t.lock}), k.(locked := true, pid := p), table))
    case TakeUnlock => Some(Local(t.(pc := Outside), k.(inner := None), table))
    case ReleaseSpin => if k.inner.None? then Some(Local(t.(pc := Clear), k.(inner := Some(p)), table)) else None
    case Clear => Some(Local(t.(pc := WakeupSpin, owns := t.owns - {t.lock}), k.(locked := false, pid := 0), table))
    case WakeupSpin => if table.Free? then Some(Local(t.(pc := Wakeup), k, Process(p))) else None
    case Wakeup => Some(Local(t.(pc := WakeupDone), k, table))
    case WakeupDone => Some(Local(t.(pc := ReleaseUnlock), k, Free))
    case ReleaseUnlock => Some(Local(t.(pc := Outside), k.(inner := None), table))
  }

  ghost predicate Run(s: State, s': State, p: Proc) {
    && p in s.threads && s.threads[p].lock in s.locks
    && var t := s.threads[p];
       var next := Advance(p, t, s.locks[t.lock], s.table);
       && next.Some?
       && s' == State((if t.pc.Wakeup? then Woken(s.threads, t.lock) else s.threads)[p := next.value.thread],
                      s.locks[t.lock := next.value.lock], next.value.table)
  }

  /** A call begins: acquiresleep of a lock the process does not own, releasesleep of one it owns. */
  ghost predicate Call(s: State, s': State, p: Proc, l: LockId) {
    && p in s.threads && l in s.locks && s.threads[p].pc.Outside?
    && s' == s.(threads := s.threads[p := s.threads[p].(lock := l,
                 pc := if l in s.threads[p].owns then ReleaseSpin else AcquireSpin)])
  }

  /** A CPU's scheduler takes or drops `ptable.lock`; so does any unrelated use of the table. */
  ghost predicate Schedule(s: State, s': State) {
    || (s.table.Free? && s' == s.(table := Scheduler))
    || (s.table.Scheduler? && s' == s.(table := Free))
  }

  ghost predicate Next(s: State, s': State) {
    Schedule(s, s') || (exists p :: Run(s, s', p)) || (exists p, l :: Call(s, s', p, l))
  }

  // ---- the invariant ----

  /** Process `p` and lock `l` agree on who holds what, and `p` is where the flag lets it be. */
  ghost predicate Agree(p: Proc, t: Thread, l: LockId, k: Lock) {
    && (k.inner == Some(p) <==> HoldsInner(t.pc) && t.lock == l)
    && (l in t.owns <==> k.locked && k.pid == p)
    && (t.lock == l ==>
          && (t.pc in {TakeUnlock, ReleaseSpin, Clear} ==> l in t.owns)
          && (t.pc in {AcquireSpin, Test, Runnable, Awake, WakeSpin} || Committed(t.pc) ==> l !in t.owns)
          && (t.pc in {SleepSpin, SleepUnlock} ==> k.locked)
          && (t.pc in {Take, WakeupSpin, Wakeup, WakeupDone, ReleaseUnlock} ==> !k.locked))
  }

  ghost predicate AllAgree(s: State) {
    forall p, l :: p in s.threads && l in s.locks ==> Agree(p, s.threads[p], l, s.locks[l])
  }

  ghost predicate OnTable(s: State, p: Proc)
    requires p in s.threads
  {
    && (HoldsTable(s.threads[p].pc) <==> s.table == Process(p))
    && (!s.threads[p].pc.Outside? ==> s.threads[p].lock in s.locks)
  }

  ghost predicate Rescuer(s: State, l: LockId, q: Proc) {
    q in s.threads && Waking(s.threads[q].pc) && s.threads[q].lock == l
  }

  /** No lost wakeup: for a process asleep on a lock, or past the point of no return, the lock is
      held by someone or a releaser has yet to run `wakeup1`. */
  ghost predicate Wakeable(s: State, p: Proc)
    requires p in s.threads
  {
    var l := s.threads[p].lock;
    Committed(s.threads[p].pc) ==> l in s.locks && (s.locks[l].locked || exists q :: Rescuer(s, l, q))
  }

  ghost predicate Inv(s: State) {
    && AllAgree(s)
    && (forall p :: p in s.threads ==> OnTable(s, p))
    && (forall p :: p in s.threads ==> Wakeable(s, p))
  }

  lemma InitInv(s: State)
    requires Init(s)
    ensures Inv(s)
  {
  }

  lemma AdvanceSelf(p: Proc, t: Thread, k: Lock, table: Table)
    requires Agree(p, t, t.lock, k) && (HoldsTable(t.pc) <==> table == Process(p)) && Advance(p, t, k, table).Some?
    ensures var n := Advance(p, t, k, table).value;
      && n.thread.lock == t.lock
      && Agree(p, n.thread, t.lock, n.lock)
      && (HoldsTable(n.thread.pc) <==> n.table == Process(p))
  {
  }

  lemma AdvanceOtherLock(p: Proc, t: Thread, k: Lock, table: Table, l: LockId, other: Lock)
    requires Agree(p, t, l, other) && l != t.lock && Advance(p, t, k, table).Some?
    ensures Agree(p, Advance(p, t, k, table).value.thread, l, other)
  {
  }

  lemma AdvanceOtherThread(p: Proc, t: Thread, k: Lock, table: Table, q: Proc, u: Thread)
    requires p != q && Agree(p, t, t.lock, k) && Agree(q, u, t.lock, k) && Advance(p, t, k, table).Some?
    requires HoldsTable(t.pc) <==> table == Process(p)
    ensures var n := Advance(p, t, k, table).value;
      Agree(q, u, t.lock, n.lock) && (table == Process(q) <==> n.table == Process(q))
  {
  }

  lemma WokenAgree(q: Proc, u: Thread, l: LockId, k: Lock)
    requires u.pc.Asleep? && Agree(q, u, l, k)
    ensures Agree(q, u.(pc := Runnable), l, k)
  {
  }

  lemma RunAgree(s: State, s': State, p: Proc)
    requires Inv(s) && Run(s, s', p)
    ensures AllAgree(s')
    ensures forall q :: q in s'.threads ==> OnTable(s', q)
  {
    hide Agree, Advance, HoldsTable, Wakeable;
    var t := s.threads[p];
    var l := t.lock;
    var k := s.locks[l];
    assert OnTable(s, p) && Agree(p, t, l, k);
    AdvanceSelf(p, t, k, s.table);
    forall q, m | q in s'.threads && m in s'.locks ensures Agree(q, s'.threads[q], m, s'.locks[m]) {
      var u := s.threads[q];
      assert Agree(q, u, m, s.locks[m]);
      if q == p {
        if m != l { AdvanceOtherLock(p, t, k, s.table, m, s.locks[m]); }
      } else {
        if m == l { AdvanceOtherThread(p, t, k, s.table, q, u); }
        if s'.threads[q] != u { WokenAgree(q, u, m, s'.locks[m]); }
      }
    }
    forall q | q in s'.threads ensures OnTable(s', q) {
      assert OnTable(s, q) && Agree(q, s.threads[q], l, k);
      if q != p {
        AdvanceOtherThread(p, t, k, s.table, q, s.threads[q]);
        if s.threads[q].pc.Asleep? { WokenTable(s.threads[q]); }
      }
    }
  }

  lemma WokenTable(t: Thread)
    requires t.pc.Asleep?
    ensures HoldsTable(t.pc) == HoldsTable(t.(pc := Runnable).pc)
  {
  }

  /** While a releaser runs `wakeup1`, nobody is between the test and being asleep. */
  lemma NobodyMidway(s: State, p: Proc, q: Proc)
    requires Inv(s) && p in s.threads && q in s.threads && p != q
    requires s.threads[p].pc.Wakeup? && s.threads[q].lock == s.threads[p].lock && Committed(s.threads[q].pc)
    ensures s.threads[q].pc.Asleep?
  {
    var l := s.threads[p].lock;
    assert OnTable(s, p) && OnTable(s, q);
    assert Agree(p, s.threads[p], l, s.locks[l]) && Agree(q, s.threads[q], l, s.locks[l]);
  }

  /** What an advance can do to the flag and to the advancing process's role. */
  lemma AdvanceFlag(p: Proc, t: Thread, k: Lock, table: Table)
    requires Advance(p, t, k, table).Some?
    ensures var n := Advance(p, t, k, table).value;
      && (n.lock.locked || !k.locked || Waking(n.thread.pc))
      && (Waking(t.pc) ==> Waking(n.thread.pc) || t.pc.Wakeup?)
      && (Committed(n.thread.pc) ==> Committed(t.pc) || k.locked)
      && (Committed(n.thread.pc) ==> n.lock.locked == k.locked && !t.pc.Wakeup?)
  {
  }

  lemma RunWakeable(s: State, s': State, p: Proc, q: Proc)
    requires Inv(s) && Run(s, s', p) && q in s.threads
    ensures q in s'.threads && Wakeable(s', q)
  {
    hide Agree, AllAgree, Advance, OnTable;
    var t, u := s.threads[p], s.threads[q];
    var l := t.lock;
    AdvanceFlag(p, t, s.locks[l], s.table);
    assert Wakeable(s, q);
    if Committed(s'.threads[q].pc) {
      var m := s'.threads[q].lock;
      assert m == u.lock by { AdvanceLock(p, t, s.locks[l], s.table); }
      if !s'.locks[m].locked {
        if m == l && t.pc.Wakeup? {
          NobodyMidway(s, p, q);
          assert false;
        }
        if m == l && s.locks[m].locked {
          assert Rescuer(s', m, p) by { AdvanceLock(p, t, s.locks[l], s.table); }
        } else {
          var r :| Rescuer(s, m, r);
          assert Rescuer(s', m, r) by { AdvanceLock(p, t, s.locks[l], s.table); }
        }
      }
    }
  }

  lemma AdvanceLock(p: Proc, t: Thread, k: Lock, table: Table)
    requires Advance(p, t, k, table).Some?
    ensures Advance(p, t, k, table).value.thread.lock == t.lock
  {
  }

  lemma CallInv(s: State, s': State, p: Proc, l: LockId)
    requires Inv(s) && Call(s, s', p, l)
    ensures Inv(s')
  {
    hide Wakeable;
    forall q, m | q in s'.threads && m in s'.locks ensures Agree(q, s'.threads[q], m, s'.locks[m]) {
      assert Agree(q, s.threads[q], m, s.locks[m]);
    }
    forall q | q in s'.threads ensures OnTable(s', q) {
      assert OnTable(s, q);
    }
    forall q | q in s'.threads ensures Wakeable(s', q) {
      CallWakeable(s, s', p, l, q);
    }
  }

  lemma CallWakeable(s: State, s': State, p: Proc, l: LockId, q: Proc)
    requires Inv(s) && Call(s, s', p, l) && q in s.threads
    ensures q in s'.threads && Wakeable(s', q)
  {
    hide Agree, AllAgree, OnTable;
    assert Wakeable(s, q);
    if Committed(s'.threads[q].pc) && !s'.locks[s'.threads[q].lock].locked {
      var r :| Rescuer(s, s.threads[q].lock, r);
      assert Rescuer(s', s.threads[q].lock, r);
    }
  }

  lemma NextInv(s: State, s': State)
    requires Inv(s) && Next(s, s')
    ensures Inv(s')
  {
    hide Agree, Advance;
    if Schedule(s, s') {
      forall q | q in s'.threads ensures OnTable(s', q) && Wakeable(s', q) {
        assert OnTable(s, q) && Wakeable(s, q);
        if exists r :: Rescuer(s, s.threads[q].lock, r) {
          var r :| Rescuer(s, s.threads[q].lock, r);
          assert Rescuer(s', s.threads[q].lock, r);
        }
      }
    } else if exists p :: Run(s, s', p) {
      var p :| Run(s, s', p);
      RunAgree(s, s', p);
      forall q | q in s'.threads ensures Wakeable(s', q) {
        RunWakeable(s, s', p, q);
      }
    } else {
      var p, l :| Call(s, s', p, l);
      CallInv(s, s', p, l);
    }
  }

  ghost predicate IsRun(run: seq<State>) {
    run != [] && Init(run[0]) && forall i :: 0 <= i < |run| - 1 ==> Next(run[i], run[i + 1])
  }

  lemma {:induction false} RunInv(run: seq<State>, k: nat)
    requires IsRun(run) && k < |run|
    ensures Inv(run[k])
  {
    if k == 0 {
      InitInv(run[0]);
    } else {
      RunInv(run, k - 1);
      assert Next(run[k - 1], run[k - 1 + 1]);
      NextInv(run[k - 1], run[k]);
    }
  }

  /** At most one process owns a sleeplock, at every point of every run. */
  lemma MutualExclusion(run: seq<State>, k: nat, p: Proc, q: Proc, l: LockId)
    requires IsRun(run) && k < |run| && l in run[k].locks
    requires p in run[k].threads && q in run[k].threads && l in run[k].threads[p].owns && l in run[k].threads[q].owns
    ensures p == q && run[k].locks[l].locked && run[k].locks[l].pid == p
  {
    RunInv(run, k);
    assert Agree(p, run[k].threads[p], l, run[k].locks[l]) && Agree(q, run[k].threads[q], l, run[k].locks[l]);
  }

  /** No wakeup is lost, at every point of every run: while a process sleeps on a lock or is
      committed to, the lock is held or a releaser holding the inner spinlock still has to run
      `wakeup1`. */
  lemma NoLostWakeup(run: seq<State>, k: nat, p: Proc)
    requires IsRun(run) && k < |run| && p in run[k].threads && Committed(run[k].threads[p].pc)
    ensures var s := run[k];
      var l := s.threads[p].lock;
      && l in s.locks
      && (s.locks[l].locked || exists q: Proc :: Rescuer(s, l, q) && s.locks[l].inner == Some(q))
  {
    RunInv(run, k);
    var s := run[k];
    var l := s.threads[p].lock;
    assert Wakeable(s, p);
    if !s.locks[l].locked {
      var q :| Rescuer(s, l, q);
      assert Agree(q, s.threads[q], l, s.locks[l]);
    }
  }

  /** So nobody sleeps on a lock that is free with its inner spinlock at rest. */
  lemma NobodySleepsOnFreeLock(run: seq<State>, k: nat, p: Proc, l: LockId)
    requires IsRun(run) && k < |run| && p in run[k].threads && l in run[k].locks
    requires !run[k].locks[l].locked && run[k].locks[l].inner.None?
    ensures !(run[k].threads[p].pc.Asleep? && run[k].threads[p].lock == l)
  {
    if run[k].threads[p].pc.Asleep? && run[k].threads[p].lock == l {
      NoLostWakeup(run, k, p);
    }
  }

  /** The spinlocks are never entered twice: a process that spins holds neither of them. */
  lemma SpinnersHoldNothing(run: seq<State>, k: nat, p: Proc)
    requires IsRun(run) && k < |run| && p in run[k].threads
    ensures run[k].threads[p].pc in {AcquireSpin, WakeSpin, ReleaseSpin} ==>
      run[k].table != Process(p) && forall l :: l in run[k].locks ==> run[k].locks[l].inner != Some(p)
    ensures run[k].threads[p].pc in {SleepSpin, WakeupSpin} ==> run[k].table != Process(p)
  {
    RunInv(run, k);
    var s := run[k];
    assert OnTable(s, p);
    forall l | l in s.locks ensures Agree(p, s.threads[p], l, s.locks[l]) {
    }
  }

  // ---- progress ----

  /** Whoever holds a spinlock is a process of the system. */
  ghost predicate HoldersKnown(s: State) {
    && (s.table.Process? ==> s.table.p in s.threads)
    && (forall l :: l in s.locks && s.locks[l].inner.Some? ==> s.locks[l].inner.value in s.threads)
  }

  lemma AdvanceHolders(p: Proc, t: Thread, k: Lock, table: Table)
    requires Advance(p, t, k, table).Some?
    ensures Advance(p, t, k, table).value.lock.inner in {k.inner, None, Some(p)}
    ensures Advance(p, t, k, table).value.table in {table, Free, Process(p), Scheduler}
  {
  }

  lemma RunHolders(s: State, s': State, p: Proc)
    requires Run(s, s', p) && HoldersKnown(s)
    ensures HoldersKnown(s')
  {
    hide Advance;
    var t := s.threads[p];
    AdvanceHolders(p, t, s.locks[t.lock], s.table);
    assert s'.threads.Keys == s.threads.Keys;
  }

  lemma HoldersKnownStep(s: State, s': State)
    requires Next(s, s') && HoldersKnown(s)
    ensures HoldersKnown(s')
  {
    hide Run;
    if p :| Run(s, s', p) {
      hide HoldersKnown;
      RunHolders(s, s', p);
    }
  }

  lemma {:induction false} RunHoldersKnown(run: seq<State>, k: nat)
    requires IsRun(run) && k < |run|
    ensures HoldersKnown(run[k])
  {
    if k > 0 {
      RunHoldersKnown(run, k - 1);
      assert Next(run[k - 1], run[k - 1 + 1]);
      hide Next, HoldersKnown;
      HoldersKnownStep(run[k - 1], run[k]);
    }
  }

  ghost predicate CanRun(s: State, p: Proc) {
    exists s' :: Run(s, s', p)
  }

  lemma AdvanceRuns(s: State, p: Proc)
    requires p in s.threads && s.threads[p].lock in s.locks
    requires Advance(p, s.threads[p], s.locks[s.threads[p].lock], s.table).Some?
    ensures CanRun(s, p)
  {
    var t := s.threads[p];
    var n := Advance(p, t, s.locks[t.lock], s.table).value;
    var threads := (if t.pc.Wakeup? then Woken(s.threads, t.lock) else s.threads)[p := n.thread];
    assert Run(s, State(threads, s.locks[t.lock := n.lock], n.table), p);
  }

  /** With `ptable.lock` free, a process in a call that is not waiting for a CPU can go on, or else the holder of the
      spinlock it spins on can. */
  lemma FreeTableRuns(s: State, p: Proc) returns (q: Proc)
    requires Inv(s) && HoldersKnown(s) && s.table.Free? && p in s.threads
    requires s.threads[p].pc !in {Outside, Asleep, Runnable}
    ensures CanRun(s, q)
  {
    assert OnTable(s, p);
    var l := s.threads[p].lock;
    assert Agree(p, s.threads[p], l, s.locks[l]);
    if s.threads[p].pc in {AcquireSpin, WakeSpin, ReleaseSpin} && s.locks[l].inner.Some? {
      q := s.locks[l].inner.value;
      assert Agree(q, s.threads[q], l, s.locks[l]) && OnTable(s, q);
    } else {
      q := p;
    }
    AdvanceRuns(s, q);
  }

  /** Nothing deadlocks: as long as a process is in a call and not asleep, some process can go on, if need be after a
      scheduler has taken or dropped `ptable.lock`. */
  lemma SomebodyMoves(run: seq<State>, k: nat, p: Proc) returns (mid: State, q: Proc)
    requires IsRun(run) && k < |run| && p in run[k].threads && run[k].threads[p].pc !in {Outside, Asleep}
    ensures (mid == run[k] || Schedule(run[k], mid)) && CanRun(mid, q)
  {
    var s := run[k];
    RunInv(run, k);
    RunHoldersKnown(run, k);
    hide IsRun, CanRun;
    mid, q := s, p;
    if s.table.Process? {
      q := s.table.p;
      assert OnTable(s, q);
      AdvanceRuns(s, q);
    } else if s.threads[p].pc.Runnable? {
      mid := s.(table := Scheduler);
      assert OnTable(s, p);
      AdvanceRuns(mid, p);
    } else {
      mid := s.(table := Free);
      ScheduleKeeps(s, mid);
      q := FreeTableRuns(mid, p);
    }
  }

  lemma ScheduleKeeps(s: State, mid: State)
    requires Inv(s) && HoldersKnown(s) && !s.table.Process? && !mid.table.Process? && mid == s.(table := mid.table)
    ensures Inv(mid) && HoldersKnown(mid)
  {
    forall p | p in mid.threads ensures OnTable(mid, p) && Wakeable(mid, p) {
      assert OnTable(s, p) && Wakeable(s, p);
      if Committed(s.threads[p].pc) && !s.locks[s.threads[p].lock].locked {
        var q :| Rescuer(s, s.threads[p].lock, q);
        assert Rescuer(mid, s.threads[p].lock, q);
      }
    }
    forall p, l | p in mid.threads && l in mid.locks ensures Agree(p, mid.threads[p], l, mid.locks[l]) {
      assert Agree(p, s.threads[p], l, s.locks[l]);
    }
  }
}
