/** Message passing between processes: one process's queue, its owner, and any number of senders. */
module Messages {
  import opened Bytes
  import opened PageAlloc

  const MESSAGE_MAX: nat := 64

  datatype Msg = Msg(pid: int, data: seq<byte>)

  /** A slot of the ring: the sender, the size, and the first page of the data. */
  datatype Slot = Slot(pid: int, size: nat, addr: nat)

  /** How far a sender inside the queue lock is. */
  datatype Phase = Entered | Stored | Waking | Woke

  datatype QueueLock = QueueFree | ByOwner | BySender(phase: Phase)

  datatype TableLock = TableFree | TableOwner | TableSender | TableOther

  /** Where the owner is: outside the calls, inside the queue lock, on the way to sleep, asleep, or woken. */
  datatype OwnerPc = Outside | Looking | GoingBoth | GoingTable | Asleep | Returning

  datatype State = State(
    queue: QueueLock, table: TableLock, owner: OwnerPc,
    begin: nat, end: nat, slots: seq<Slot>,
    mem: nat -> byte, pool: Pool, others: set<nat>,
    sent: seq<Msg>, got: seq<Msg>)

  // ---------------------------------------------------------------- bytes of pages

  function PagesFor(size: nat): (r: nat)
    ensures forall k: nat :: k < r <==> k * PGSIZE < size
  {
    (size + PGSIZE - 1) / PGSIZE
  }

  ghost function ReadMem(mem: nat -> byte, p: nat, n: nat): (r: seq<byte>) {
    seq(n, i requires 0 <= i < n => mem(p * PGSIZE + i))
  }

  ghost function WriteMem(mem: nat -> byte, p: nat, data: seq<byte>): (r: nat -> byte) {
    (a: nat) => if p * PGSIZE <= a < p * PGSIZE + |data| then data[a - p * PGSIZE] else mem(a)
  }

  /** The pages in `pages` hold the same bytes. */
  ghost predicate SamePages(mem: nat -> byte, mem': nat -> byte, pages: set<nat>) {
    forall a: nat :: a / PGSIZE in pages ==> mem'(a) == mem(a)
  }

  ghost function MsgPages(sl: Slot): (r: set<nat>) {
    Pages(Run(sl.addr, PagesFor(sl.size)))
  }

  lemma ReadKept(mem: nat -> byte, mem': nat -> byte, sl: Slot, pages: set<nat>)
    requires SamePages(mem, mem', pages) && MsgPages(sl) <= pages
    ensures ReadMem(mem', sl.addr, sl.size) == ReadMem(mem, sl.addr, sl.size)
  {
    forall i: nat | i < sl.size ensures ReadMem(mem', sl.addr, sl.size)[i] == ReadMem(mem, sl.addr, sl.size)[i] {
      assert (sl.addr * PGSIZE + i) / PGSIZE in MsgPages(sl);
    }
  }

  lemma WriteThenRead(mem: nat -> byte, p: nat, data: seq<byte>)
    ensures ReadMem(WriteMem(mem, p, data), p, |data|) == data
  {
  }

  lemma WriteElsewhere(mem: nat -> byte, p: nat, data: seq<byte>, pages: set<nat>)
    requires pages !! Pages(Run(p, PagesFor(|data|)))
    ensures SamePages(mem, WriteMem(mem, p, data), pages)
  {
    forall a: nat | a / PGSIZE in pages ensures WriteMem(mem, p, data)(a) == mem(a) {
      assert p * PGSIZE <= a < p * PGSIZE + |data| ==> InRun(Run(p, PagesFor(|data|)), a / PGSIZE);
    }
  }

  // ---------------------------------------------------------------- steps

  function Ahead(i: nat, k: nat): (r: nat) {
    (i + k) % MESSAGE_MAX
  }

  function Next(i: nat): (r: nat) {
    if i + 1 == MESSAGE_MAX then 0 else i + 1
  }

  ghost function Pending(s: State): (r: seq<Msg>) {
    if |s.got| <= |s.sent| then s.sent[|s.got|..] else []
  }

  datatype Step =
    | OwnerLocks | OwnerLeaves | OwnerGoes | OwnerReleases | OwnerSleeps
    | OwnerTakes(pool: Pool, mem: nat -> byte)
    | SenderLocks | SenderStores(msg: Msg, p: nat, pool: Pool, mem: nat -> byte)
    | SenderWakes | SenderWoke | SenderUnlocks
    | TableBusy | TableIdle
    | OthersTake(n: nat, p: nat, pool: Pool, mem: nat -> byte)
    | OthersGive(n: nat, p: nat, pool: Pool, mem: nat -> byte)
    | OthersWrite(mem: nat -> byte)

  ghost predicate Enabled(s: State, step: Step) {
    match step
    case OwnerLocks => s.queue.QueueFree? && (s.owner.Outside? || s.owner.Returning?)
    case OwnerLeaves => s.owner.Looking? && s.begin == s.end
    case OwnerGoes => s.owner.Looking? && s.begin == s.end && s.table.TableFree?
    case OwnerReleases => s.owner.GoingBoth?
    case OwnerSleeps => s.owner.GoingTable?
    case OwnerTakes(pool, mem) =>
      && s.owner.Looking? && s.begin != s.end && s.end < |s.slots|
      && Gives(s.pool, pool, PagesFor(s.slots[s.end].size), s.slots[s.end].addr)
      && SamePages(s.mem, mem, pool.owned)
    case SenderLocks => s.queue.QueueFree?
    case SenderStores(msg, p, pool, mem) =>
      && s.queue == BySender(Entered) && |msg.data| > 0 && s.begin < |s.slots|
      && Takes(s.pool, pool, PagesFor(|msg.data|), p)
      && SamePages(s.mem, mem, s.pool.owned)
    case SenderWakes => s.queue == BySender(Stored) && s.table.TableFree?
    case SenderWoke => s.queue == BySender(Waking)
    case SenderUnlocks => s.queue == BySender(Woke)
    case TableBusy => s.table.TableFree?
    case TableIdle => s.table.TableOther?
    case OthersTake(n, p, pool, mem) => Takes(s.pool, pool, n, p) && SamePages(s.mem, mem, s.pool.owned)
    case OthersGive(n, p, pool, mem) =>
      Gives(s.pool, pool, n, p) && Pages(Run(p, n)) <= s.others && SamePages(s.mem, mem, pool.owned)
    case OthersWrite(mem) => SamePages(s.mem, mem, s.pool.owned - s.others)
  }

  ghost function After(s: State, step: Step): (r: State)
    requires Enabled(s, step)
  {
    match step
    case OwnerLocks => s.(queue := ByOwner, owner := Looking)
    case OwnerLeaves => s.(queue := QueueFree, owner := Outside)
    case OwnerGoes => s.(table := TableOwner, owner := GoingBoth)
    case OwnerReleases => s.(queue := QueueFree, owner := GoingTable)
    case OwnerSleeps => s.(table := TableFree, owner := Asleep)
    case OwnerTakes(pool, mem) =>
      var sl := s.slots[s.end];
      s.(queue := QueueFree, owner := Outside, pool := pool, mem := mem, end := Next(s.end),
         got := s.got + [Msg(sl.pid, ReadMem(s.mem, sl.addr, sl.size))])
    case SenderLocks => s.(queue := BySender(Entered))
    case SenderStores(msg, p, pool, mem) =>
      s.(queue := BySender(Stored), slots := s.slots[s.begin := Slot(msg.pid, |msg.data|, p)], begin := Next(s.begin),
         pool := pool, mem := WriteMem(mem, p, msg.data), sent := s.sent + [msg])
    case SenderWakes => s.(queue := BySender(Waking), table := TableSender)
    case SenderWoke =>
      s.(queue := BySender(Woke), table := TableFree, owner := if s.owner.Asleep? then Returning else s.owner)
    case SenderUnlocks => s.(queue := QueueFree)
    case TableBusy => s.(table := TableOther)
    case TableIdle => s.(table := TableFree)
    case OthersTake(n, p, pool, mem) => s.(pool := pool, mem := mem, others := s.others + Pages(Run(p, n)))
    case OthersGive(n, p, pool, mem) => s.(pool := pool, mem := mem, others := s.others - Pages(Run(p, n)))
    case OthersWrite(mem) => s.(mem := mem)
  }

  // ---------------------------------------------------------------- invariants

  ghost predicate LockInv(s: State) {
    && (s.queue.ByOwner? <==> s.owner.Looking? || s.owner.GoingBoth?)
    && (s.table.TableOwner? <==> s.owner.GoingBoth? || s.owner.GoingTable?)
    && (s.table.TableSender? <==> s.queue == BySender(Waking))
  }

  ghost predicate SleepInv(s: State) {
    && (s.owner.GoingBoth? ==> Pending(s) == [])
    && (s.owner.GoingTable? || s.owner.Asleep? ==>
          Pending(s) == [] || s.queue == BySender(Stored) || s.queue == BySender(Waking))
  }

  ghost function SlotOf(s: State, k: nat): (r: Slot) {
    if |s.slots| == MESSAGE_MAX then s.slots[Ahead(s.end, k)] else Slot(0, 0, 0)
  }

  /** The `k`th pending message is in its slot, and its bytes are in its pages. */
  ghost predicate Stands(s: State, k: nat)
    requires k < |Pending(s)|
  {
    var sl := SlotOf(s, k);
    && Pending(s)[k].data != []
    && sl.pid == Pending(s)[k].pid && sl.size == |Pending(s)[k].data|
    && ReadMem(s.mem, sl.addr, sl.size) == Pending(s)[k].data
    && 0 < sl.addr && MsgPages(sl) <= s.pool.owned && MsgPages(sl) !! s.others
  }

  ghost predicate RingInv(s: State) {
    && |s.slots| == MESSAGE_MAX && |s.got| <= |s.sent| && s.end < MESSAGE_MAX
    && |Pending(s)| < MESSAGE_MAX && s.begin == Ahead(s.end, |Pending(s)|)
    && s.got == s.sent[..|s.got|]
  }

  ghost predicate PagesInv(s: State)
    requires RingInv(s)
  {
    && PoolOk(s.pool) && s.others <= s.pool.owned
    && (forall k: nat :: k < |Pending(s)| ==> Stands(s, k))
    && (forall j: nat, k: nat :: j < k < |Pending(s)| ==> MsgPages(SlotOf(s, j)) !! MsgPages(SlotOf(s, k)))
    && (forall q :: q in s.pool.owned && q !in s.others ==>
          exists k: nat :: k < |Pending(s)| && q in MsgPages(SlotOf(s, k)))
  }

  ghost predicate Inv(s: State) {
    LockInv(s) && SleepInv(s) && RingInv(s) && PagesInv(s)
  }

  // ---------------------------------------------------------------- preservation

  lemma Indices(i: nat, n: nat)
    requires i < MESSAGE_MAX && n < MESSAGE_MAX
    ensures Next(Ahead(i, n)) == Ahead(i, n + 1) && (Ahead(i, n) == i <==> n == 0)
    ensures Ahead(Next(i), n) == Ahead(i, n + 1) && Ahead(i, n) < MESSAGE_MAX && Ahead(i, 0) == i
  {
  }

  lemma AheadDiffers(i: nat, j: nat, k: nat)
    requires j < k < MESSAGE_MAX
    ensures Ahead(i, j) != Ahead(i, k)
  {
  }

  lemma LocksKept(s: State, step: Step)
    requires Inv(s) && Enabled(s, step)
    ensures LockInv(After(s, step)) && SleepInv(After(s, step))
  {
    hide PagesInv;
    Indices(s.end, |Pending(s)|);
  }

  ghost predicate SameRing(s: State, s': State) {
    s'.slots == s.slots && s'.begin == s.begin && s'.end == s.end && s'.sent == s.sent && s'.got == s.got
  }

  /** Messages stay where they are while what they occupy is left alone. */
  lemma MessagesKept(s: State, s': State)
    requires RingInv(s) && PagesInv(s) && SameRing(s, s') && PoolOk(s'.pool) && s'.others <= s'.pool.owned
    requires s'.pool.owned - s'.others == s.pool.owned - s.others
    requires SamePages(s.mem, s'.mem, s.pool.owned - s.others)
    ensures RingInv(s') && PagesInv(s')
  {
    forall k: nat | k < |Pending(s')| ensures Stands(s', k) && SlotOf(s', k) == SlotOf(s, k) {
      assert Stands(s, k);
      ReadKept(s.mem, s'.mem, SlotOf(s, k), s.pool.owned - s.others);
    }
    hide Stands, MsgPages;
    forall q | q in s'.pool.owned && q !in s'.others
      ensures exists k: nat :: k < |Pending(s')| && q in MsgPages(SlotOf(s', k))
    {
      assert q in s.pool.owned - s.others;
      var k: nat :| k < |Pending(s)| && q in MsgPages(SlotOf(s, k));
      assert q in MsgPages(SlotOf(s', k));
    }
  }

  lemma OthersTakeKept(s: State, n: nat, p: nat, pool: Pool, mem: nat -> byte)
    requires Inv(s) && Enabled(s, OthersTake(n, p, pool, mem))
    ensures RingInv(After(s, OthersTake(n, p, pool, mem))) && PagesInv(After(s, OthersTake(n, p, pool, mem)))
  {
    hide Stands, LockInv, SleepInv, RingInv;
    var s' := After(s, OthersTake(n, p, pool, mem));
    TakesKeeps(s.pool, pool, n, p);
    var pages := Pages(Run(p, n));
    assert pool.owned == s.pool.owned + pages && pages !! s.pool.owned;
    assert s'.pool.owned - s'.others == s.pool.owned - s.others;
    MessagesKept(s, s');
  }

  lemma OthersGiveKept(s: State, n: nat, p: nat, pool: Pool, mem: nat -> byte)
    requires Inv(s) && Enabled(s, OthersGive(n, p, pool, mem))
    ensures RingInv(After(s, OthersGive(n, p, pool, mem))) && PagesInv(After(s, OthersGive(n, p, pool, mem)))
  {
    hide Stands, LockInv, SleepInv, RingInv;
    var s' := After(s, OthersGive(n, p, pool, mem));
    GivesKeeps(s.pool, pool, n, p);
    assert s'.pool.owned - s'.others == s.pool.owned - s.others;
    MessagesKept(s, s');
  }

  // ---------------------------------------------------------------- a message arrives

  lemma StoredSlots(s: State, msg: Msg, p: nat, pool: Pool, mem: nat -> byte)
    requires Inv(s) && Enabled(s, SenderStores(msg, p, pool, mem)) && |Pending(s)| + 1 < MESSAGE_MAX
    ensures var s' := After(s, SenderStores(msg, p, pool, mem)); RingInv(s') && Pending(s') == Pending(s) + [msg]
    ensures var s' := After(s, SenderStores(msg, p, pool, mem));
      forall k: nat :: k <= |Pending(s)| ==>
        SlotOf(s', k) == if k < |Pending(s)| then SlotOf(s, k) else Slot(msg.pid, |msg.data|, p)
  {
    hide PagesInv, LockInv, SleepInv, WriteMem;
    var s' := After(s, SenderStores(msg, p, pool, mem));
    var n := |Pending(s)|;
    Indices(s.end, n);
    assert s'.sent[|s'.got|..] == s.sent[|s.got|..] + [msg];
    assert s'.sent[..|s.got|] == s.sent[..|s.got|];
    forall k: nat | k < n ensures Ahead(s.end, k) != Ahead(s.end, n) {
      AheadDiffers(s.end, k, n);
    }
  }

  lemma StoredStands(s: State, msg: Msg, p: nat, pool: Pool, mem: nat -> byte)
    requires Inv(s) && Enabled(s, SenderStores(msg, p, pool, mem)) && |Pending(s)| + 1 < MESSAGE_MAX
    ensures RingInv(After(s, SenderStores(msg, p, pool, mem)))
    ensures |Pending(After(s, SenderStores(msg, p, pool, mem)))| == |Pending(s)| + 1
    ensures forall k: nat :: k <= |Pending(s)| ==> Stands(After(s, SenderStores(msg, p, pool, mem)), k)
    ensures PoolOk(pool) && Pages(Run(p, PagesFor(|msg.data|))) !! s.pool.owned
  {
    StoredSlots(s, msg, p, pool, mem);
    var s' := After(s, SenderStores(msg, p, pool, mem));
    TakesKeeps(s.pool, pool, PagesFor(|msg.data|), p);
    assert Pages(Run(p, PagesFor(|msg.data|))) !! s.pool.owned;
    assert pool.owned == s.pool.owned + Pages(Run(p, PagesFor(|msg.data|)));
    WriteThenRead(mem, p, msg.data);
    WriteElsewhere(mem, p, msg.data, s.pool.owned);
    hide LockInv, SleepInv, RingInv, ReadMem, WriteMem, MsgPages;
    forall k: nat | k <= |Pending(s)| ensures Stands(s', k) {
      StoredOne(s, s', msg, p, mem, k);
    }
  }

  lemma StoredOne(s: State, s': State, msg: Msg, p: nat, mem: nat -> byte, k: nat)
    requires RingInv(s) && RingInv(s') && PagesInv(s) && Pending(s') == Pending(s) + [msg] && k <= |Pending(s)|
    requires SlotOf(s', k) == if k < |Pending(s)| then SlotOf(s, k) else Slot(msg.pid, |msg.data|, p)
    requires s'.mem == WriteMem(mem, p, msg.data) && s'.others == s.others && msg.data != [] && 0 < p
    requires SamePages(s.mem, mem, s.pool.owned) && SamePages(mem, s'.mem, s.pool.owned)
    requires s'.pool.owned == s.pool.owned + Pages(Run(p, PagesFor(|msg.data|)))
    requires Pages(Run(p, PagesFor(|msg.data|))) !! s.pool.owned
    ensures Stands(s', k)
  {
    if k < |Pending(s)| {
      assert Stands(s, k);
      ReadKept(s.mem, mem, SlotOf(s, k), s.pool.owned);
      ReadKept(mem, s'.mem, SlotOf(s, k), s.pool.owned);
    } else {
      WriteThenRead(mem, p, msg.data);
    }
  }

  lemma StoresKept(s: State, msg: Msg, p: nat, pool: Pool, mem: nat -> byte)
    requires Inv(s) && Enabled(s, SenderStores(msg, p, pool, mem)) && |Pending(s)| + 1 < MESSAGE_MAX
    ensures RingInv(After(s, SenderStores(msg, p, pool, mem))) && PagesInv(After(s, SenderStores(msg, p, pool, mem)))
  {
    hide LockInv, SleepInv, RingInv;
    StoredSlots(s, msg, p, pool, mem);
    StoredStands(s, msg, p, pool, mem);
    var s' := After(s, SenderStores(msg, p, pool, mem));
    var n := |Pending(s)|;
    var pages := Pages(Run(p, PagesFor(|msg.data|)));
    assert MsgPages(SlotOf(s', n)) == pages;
    forall j: nat, k: nat | j < k <= n ensures MsgPages(SlotOf(s', j)) !! MsgPages(SlotOf(s', k)) {
      assert Stands(s, j);
    }
    forall q | q in s'.pool.owned && q !in s'.others
      ensures exists k: nat :: k < |Pending(s')| && q in MsgPages(SlotOf(s', k))
    {
      if q in pages {
        assert q in MsgPages(SlotOf(s', n));
      } else {
        var k: nat :| k < n && q in MsgPages(SlotOf(s, k));
        assert q in MsgPages(SlotOf(s', k));
      }
    }
  }

  // ---------------------------------------------------------------- a message is taken

  /** Receiving frees pages that are allocated: the release the kernel makes is always in order. */
  lemma TakeAllowed(s: State)
    requires Inv(s) && s.owner.Looking? && s.begin != s.end
    ensures var sl := s.slots[s.end];
      0 < PagesFor(sl.size) && 0 < sl.addr && MsgPages(sl) <= s.pool.owned && Pending(s) != [] && sl == SlotOf(s, 0)
  {
    Indices(s.end, |Pending(s)|);
    assert Stands(s, 0);
  }

  lemma TakenSlots(s: State, pool: Pool, mem: nat -> byte)
    requires Inv(s) && Enabled(s, OwnerTakes(pool, mem))
    ensures var s' := After(s, OwnerTakes(pool, mem)); RingInv(s') && Pending(s) != [] && Pending(s') == Pending(s)[1..]
    ensures var s' := After(s, OwnerTakes(pool, mem));
      forall k: nat :: k + 1 < |Pending(s)| ==> SlotOf(s', k) == SlotOf(s, k + 1)
  {
    TakeAllowed(s);
    assert Stands(s, 0);
    hide PagesInv, LockInv, SleepInv, ReadMem, Ahead, Next, MsgPages;
    var s' := After(s, OwnerTakes(pool, mem));
    assert s.sent[..|s.got| + 1] == s.sent[..|s.got|] + [s.sent[|s.got|]];
    Indices(s.end, |Pending(s)| - 1);
    forall k: nat | k + 1 < |Pending(s)| ensures SlotOf(s', k) == SlotOf(s, k + 1) {
      Indices(s.end, k);
    }
  }

  lemma TakesKept(s: State, pool: Pool, mem: nat -> byte)
    requires Inv(s) && Enabled(s, OwnerTakes(pool, mem))
    ensures RingInv(After(s, OwnerTakes(pool, mem))) && PagesInv(After(s, OwnerTakes(pool, mem)))
  {
    hide LockInv, SleepInv, RingInv, ReadMem;
    TakeAllowed(s);
    TakenSlots(s, pool, mem);
    var s' := After(s, OwnerTakes(pool, mem));
    var sl := SlotOf(s, 0);
    GivesKeeps(s.pool, pool, PagesFor(sl.size), sl.addr);
    assert pool.owned == s.pool.owned - MsgPages(sl);
    assert Stands(s, 0);
    forall k: nat | k < |Pending(s')| ensures Stands(s', k) {
      assert Stands(s, k + 1);
      assert MsgPages(SlotOf(s, 0)) !! MsgPages(SlotOf(s, k + 1));
      ReadKept(s.mem, s'.mem, SlotOf(s, k + 1), pool.owned);
    }
    hide Stands;
    forall q | q in s'.pool.owned && q !in s'.others
      ensures exists k: nat :: k < |Pending(s')| && q in MsgPages(SlotOf(s', k))
    {
      var k: nat :| k < |Pending(s)| && q in MsgPages(SlotOf(s, k));
      assert q in MsgPages(SlotOf(s', k - 1));
    }
  }

  // ---------------------------------------------------------------- every run

  lemma StepInv(s: State, step: Step)
    requires Inv(s) && Enabled(s, step) && |Pending(After(s, step))| < MESSAGE_MAX
    ensures Inv(After(s, step))
  {
    LocksKept(s, step);
    assert step.SenderStores? ==> |Pending(After(s, step))| == |Pending(s)| + 1;
    hide LockInv, SleepInv, Stands, MsgPages, ReadMem;
    match step {
      case OwnerTakes(pool, mem) => TakesKept(s, pool, mem);
      case SenderStores(msg, p, pool, mem) => StoresKept(s, msg, p, pool, mem);
      case OthersTake(n, p, pool, mem) => OthersTakeKept(s, n, p, pool, mem);
      case OthersGive(n, p, pool, mem) => OthersGiveKept(s, n, p, pool, mem);
      case _ => MessagesKept(s, After(s, step));
    }
  }

  ghost predicate Init(s: State) {
    && s.queue.QueueFree? && s.table.TableFree? && s.owner.Outside?
    && s.begin == 0 && s.end == 0 && |s.slots| == MESSAGE_MAX && s.sent == [] && s.got == []
    && PoolOk(s.pool) && s.others == s.pool.owned
  }

  ghost predicate IsRun(run: seq<State>, steps: seq<Step>) {
    && |run| == |steps| + 1 && Init(run[0])
    && forall i :: 0 <= i < |steps| ==> Enabled(run[i], steps[i]) && run[i + 1] == After(run[i], steps[i])
  }

  /** Up to state `k` fewer than 64 messages were ever outstanding. A sender does not check for this. */
  ghost predicate Uncrowded(run: seq<State>, k: nat)
    requires k < |run|
  {
    forall i :: 0 <= i <= k ==> |Pending(run[i])| < MESSAGE_MAX
  }

  lemma {:induction false} RunInv(run: seq<State>, steps: seq<Step>, k: nat)
    requires IsRun(run, steps) && k < |run| && Uncrowded(run, k)
    ensures Inv(run[k])
  {
    hide Inv, Enabled, After, Pending;
    if k == 0 {
      InitInv(run[0]);
    } else {
      RunInv(run, steps, k - 1);
      assert run[k] == After(run[k - 1], steps[k - 1]);
      StepInv(run[k - 1], steps[k - 1]);
    }
  }

  lemma InitInv(s: State)
    requires Init(s)
    ensures Inv(s)
  {
  }

  /** What has been received is what was sent, in order, byte for byte; the rest is still pending. */
  lemma InOrder(run: seq<State>, steps: seq<Step>, k: nat)
    requires IsRun(run, steps) && k < |run| && Uncrowded(run, k)
    ensures run[k].sent == run[k].got + Pending(run[k])
  {
    RunInv(run, steps, k);
  }

  /** An owner found asleep while nobody holds the queue lock has nothing to receive. */
  lemma NoMessageMissed(run: seq<State>, steps: seq<Step>, k: nat)
    requires IsRun(run, steps) && k < |run| && Uncrowded(run, k)
    requires run[k].queue.QueueFree? && run[k].owner.Asleep?
    ensures Pending(run[k]) == [] && run[k].begin == run[k].end
  {
    RunInv(run, steps, k);
  }

  /** The pages held for messages are those of the pending ones, each message's its own; none is kept once all is
      read. */
  lemma PagesOfMessages(run: seq<State>, steps: seq<Step>, k: nat)
    requires IsRun(run, steps) && k < |run| && Uncrowded(run, k)
    ensures forall q :: q in run[k].pool.owned - run[k].others <==>
      exists j: nat :: j < |Pending(run[k])| && q in MsgPages(SlotOf(run[k], j))
    ensures Pending(run[k]) == [] ==> run[k].pool.owned == run[k].others
  {
    RunInv(run, steps, k);
    var s := run[k];
    forall q, j: nat | j < |Pending(s)| && q in MsgPages(SlotOf(s, j)) ensures q in s.pool.owned - s.others {
      assert Stands(s, j);
    }
  }

  /** Equal indices mean none or 64 outstanding. */
  lemma EmptyTest(end: nat, n: nat)
    requires end < MESSAGE_MAX && n <= MESSAGE_MAX
    ensures Ahead(end, n) == end <==> n == 0 || n == MESSAGE_MAX
  {
  }

  // ---------------------------------------------------------------- the 64th message

  /** The owner's test of the indices tells whether there is a message. */
  ghost predicate TestIsRight(s: State) {
    s.begin == s.end <==> Pending(s) == []
  }

  lemma {:induction false} FirstCrowded(run: seq<State>, k: nat) returns (i: nat)
    requires k < |run| && !Uncrowded(run, k) && |Pending(run[0])| < MESSAGE_MAX
    ensures 0 < i <= k && |Pending(run[i])| >= MESSAGE_MAX && Uncrowded(run, i - 1)
    decreases k
  {
    hide Pending;
    if Uncrowded(run, k - 1) {
      i := k;
    } else {
      i := FirstCrowded(run, k - 1);
    }
  }

  /** The step that makes 64 messages outstanding makes the indices equal. */
  lemma Crowds(s: State, step: Step)
    requires Inv(s) && Enabled(s, step) && |Pending(After(s, step))| >= MESSAGE_MAX
    ensures var s' := After(s, step);
      && s'.queue == BySender(Stored) && s'.begin == s'.end && |Pending(s')| == MESSAGE_MAX && LockInv(s')
  {
    LocksKept(s, step);
    hide LockInv, SleepInv, PagesInv;
    assert |Pending(After(s, step))| <= |Pending(s)| || step.SenderStores?;
    Indices(s.end, |Pending(s)|);
    EmptyTest(s.end, MESSAGE_MAX);
  }

  /** On every run, the owner's test is right in all states up to `k` exactly if fewer than 64 messages were ever
      outstanding. */
  lemma TestExact(run: seq<State>, steps: seq<Step>, k: nat)
    requires IsRun(run, steps) && k < |run|
    ensures (forall i :: 0 <= i <= k ==> TestIsRight(run[i])) <==> Uncrowded(run, k)
  {
    hide Enabled, Inv, After;
    if Uncrowded(run, k) {
      forall i | 0 <= i <= k ensures TestIsRight(run[i]) {
        RunInv(run, steps, i);
        InvTest(run[i]);
      }
    } else {
      var i := FirstCrowded(run, k);
      RunInv(run, steps, i - 1);
      assert run[i] == After(run[i - 1], steps[i - 1]);
      Crowds(run[i - 1], steps[i - 1]);
      assert !TestIsRight(run[i]);
    }
  }

  lemma InvTest(s: State)
    requires Inv(s)
    ensures TestIsRight(s)
  {
    EmptyTest(s.end, |Pending(s)|);
  }

  /** The steps lead from `s` to `s'`. */
  ghost predicate Leads(s: State, steps: seq<Step>, s': State)
    decreases |steps|
  {
    if steps == [] then s == s' else Enabled(s, steps[0]) && Leads(After(s, steps[0]), steps[1..], s')
  }

  lemma LeadsCons(s: State, step: Step, steps: seq<Step>, s': State)
    requires Enabled(s, step) && Leads(After(s, step), steps, s')
    ensures Leads(s, [step] + steps, s')
  {
    hide Enabled, After;
    assert ([step] + steps)[1..] == steps;
  }

  /** The owner, awake, finds the indices equal and goes to sleep. */
  lemma Dozes(s: State) returns (steps: seq<Step>, s': State)
    requires s.queue.QueueFree? && s.table.TableFree? && (s.owner.Outside? || s.owner.Returning?) && s.begin == s.end
    ensures Leads(s, steps, s') && s'.queue.QueueFree? && s'.owner.Asleep? && SameRing(s, s')
  {
    hide Leads;
    var s1 := After(s, OwnerLocks);
    var s2 := After(s1, OwnerGoes);
    var s3 := After(s2, OwnerReleases);
    s' := After(s3, OwnerSleeps);
    LeadsNone(s');
    LeadsCons(s3, OwnerSleeps, [], s');
    LeadsCons(s2, OwnerReleases, [OwnerSleeps] + [], s');
    LeadsCons(s1, OwnerGoes, [OwnerReleases] + ([OwnerSleeps] + []), s');
    steps := [OwnerLocks] + ([OwnerGoes] + ([OwnerReleases] + ([OwnerSleeps] + [])));
    LeadsCons(s, OwnerLocks, [OwnerGoes] + ([OwnerReleases] + ([OwnerSleeps] + [])), s');
  }

  lemma LeadsNone(s: State)
    ensures Leads(s, [], s)
  {
  }

  /** The sender finishes, and then the owner goes to sleep. */
  lemma Finishes(s: State) returns (steps: seq<Step>, s': State)
    requires s.queue == BySender(Stored) && s.table.TableFree? && s.begin == s.end
    requires s.owner.Outside? || s.owner.Returning? || s.owner.Asleep?
    ensures Leads(s, steps, s') && s'.queue.QueueFree? && s'.owner.Asleep? && SameRing(s, s')
  {
    hide Leads;
    var s1 := After(s, SenderWakes);
    var s2 := After(s1, SenderWoke);
    var s3 := After(s2, SenderUnlocks);
    steps, s' := Dozes(s3);
    LeadsCons(s2, SenderUnlocks, steps, s');
    LeadsCons(s1, SenderWoke, [SenderUnlocks] + steps, s');
    LeadsCons(s, SenderWakes, [SenderWoke] + ([SenderUnlocks] + steps), s');
    steps := [SenderWakes] + ([SenderWoke] + ([SenderUnlocks] + steps));
  }

  /** Whenever a 64th message is stored, the kernel can go on to a state in which the owner sleeps, nobody is about to
      wake it, and all 64 messages are still there. */
  lemma SixtyFourMissed(s: State, step: Step) returns (steps: seq<Step>, s': State)
    requires Inv(s) && Enabled(s, step) && |Pending(After(s, step))| >= MESSAGE_MAX
    ensures Leads(After(s, step), steps, s')
    ensures s'.queue.QueueFree? && s'.owner.Asleep? && |Pending(s')| == MESSAGE_MAX
  {
    Crowds(s, step);
    hide Leads, Inv;
    var t := After(s, step);
    hide After;
    if t.table.TableFree? {
      steps, s' := Finishes(t);
    } else {
      var first, t' := FreesTable(t);
      steps, s' := Finishes(t');
      LeadsCons(t, first, steps, s');
      steps := [first] + steps;
    }
  }

  lemma FreesTable(t: State) returns (first: Step, t': State)
    requires LockInv(t) && t.queue == BySender(Stored) && !t.table.TableFree?
    ensures Enabled(t, first) && t' == After(t, first) && t'.table.TableFree? && t'.queue == t.queue && SameRing(t, t')
    ensures t'.owner.Outside? || t'.owner.Returning? || t'.owner.Asleep?
  {
    first := if t.table.TableOther? then TableIdle else OwnerSleeps;
    t' := After(t, first);
  }
}
