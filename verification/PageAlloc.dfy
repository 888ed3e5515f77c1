/** The physical page allocator: a first-fit list of free runs whose headers live in the first page
    of each run. Pages are numbered by address; 0 is the null pointer. */
module PageAlloc {
  datatype Option<T> = None | Some(value: T)

  /** A page's contents, as far as the allocator looks: the two header words and the rest. */
  datatype Page = Page(next: nat, num: nat, rest: int)

  type Memory = map<nat, Page>

  /** A page with every byte set to 1. */
  const FILLED: Page := Page(0x0101_0101, 0x0101_0101, 1)

  datatype Run = Run(start: nat, num: nat)

  ghost predicate InRun(r: Run, p: nat) {
    r.start <= p < r.start + r.num
  }

  ghost function Pages(r: Run): (res: set<nat>) {
    set p: nat | r.start <= p < r.start + r.num && InRun(r, p)
  }

  // ---------------------------------------------------------------- the free list in memory

  ghost function StartOf(runs: seq<Run>, i: nat): (r: nat) {
    if i < |runs| then runs[i].start else 0
  }

  /** The header of the `i`th run is in place and points on. */
  ghost predicate Header(mem: Memory, runs: seq<Run>, i: nat)
    requires i < |runs|
  {
    && runs[i].start in mem
    && mem[runs[i].start].num == runs[i].num
    && mem[runs[i].start].next == StartOf(runs, i + 1)
  }

  /** Memory holds the list `runs` from `head` on. */
  ghost predicate IsList(mem: Memory, head: nat, runs: seq<Run>) {
    head == StartOf(runs, 0) && forall i: nat :: i < |runs| ==> Header(mem, runs, i)
  }

  ghost predicate Apart(a: Run, b: Run) {
    a.start + a.num <= b.start || b.start + b.num <= a.start
  }

  /** Non-empty runs of pairwise distinct pages, none of them page 0. */
  ghost predicate RunsOk(runs: seq<Run>) {
    && (forall i :: 0 <= i < |runs| ==> 0 < runs[i].start && 0 < runs[i].num)
    && (forall i, j :: 0 <= i < j < |runs| ==> Apart(runs[i], runs[j]))
  }

  ghost predicate IsFree(runs: seq<Run>, p: nat) {
    exists i :: 0 <= i < |runs| && InRun(runs[i], p)
  }

  // ---------------------------------------------------------------- allocation as a step on pools

  /** The abstract state: the free runs in list order and the pages handed out. */
  datatype Pool = Pool(runs: seq<Run>, owned: set<nat>)

  ghost predicate PoolOk(a: Pool) {
    RunsOk(a.runs) && forall p :: p in a.owned ==> !IsFree(a.runs, p)
  }

  ghost predicate Managed(a: Pool, p: nat) {
    p in a.owned || IsFree(a.runs, p)
  }

  /** `i` is the first run with room for `n` pages. */
  ghost predicate FirstFit(runs: seq<Run>, n: nat, i: nat) {
    i < |runs| && n <= runs[i].num && forall j :: 0 <= j < i ==> runs[j].num < n
  }

  /** The list after `n` pages are cut from the front of run `i`. */
  ghost function Cut(runs: seq<Run>, i: nat, n: nat): (r: seq<Run>)
    requires i < |runs| && n <= runs[i].num
  {
    if n < runs[i].num then runs[i := Run(runs[i].start + n, runs[i].num - n)] else runs[..i] + runs[i + 1..]
  }

  ghost predicate Takes(a: Pool, b: Pool, n: nat, p: nat) {
    exists i: nat :: TakesFrom(a, b, n, p, i)
  }

  ghost predicate TakesFrom(a: Pool, b: Pool, n: nat, p: nat, i: nat) {
    && FirstFit(a.runs, n, i)
    && p == a.runs[i].start
    && b == Pool(Cut(a.runs, i, n), a.owned + Pages(Run(p, n)))
  }

  ghost predicate Gives(a: Pool, b: Pool, n: nat, p: nat) {
    && 0 < n && 0 < p && Pages(Run(p, n)) <= a.owned
    && b == Pool([Run(p, n)] + a.runs, a.owned - Pages(Run(p, n)))
  }

  /** Pages that were just freed are the next to be handed out to a request of that length. */
  lemma FreeThenAlloc(a: Pool, b: Pool, c: Pool, n: nat, p: nat, q: nat)
    requires Gives(a, b, n, p) && Takes(b, c, n, q)
    ensures q == p && c == a
  {
    var i: nat :| TakesFrom(b, c, n, q, i);
    assert b.runs[0] == Run(p, n);
    assert i == 0;
    assert b.runs[..0] + b.runs[1..] == a.runs;
    assert a.owned - Pages(Run(p, n)) + Pages(Run(p, n)) == a.owned;
  }

  /** A run is handed out from its front: the next request it serves gets the pages right behind. */
  lemma AllocsAscend(a: Pool, b: Pool, c: Pool, n: nat, m: nat, p: nat, q: nat)
    requires |a.runs| == 1 && n + m <= a.runs[0].num && 0 < m && Takes(a, b, n, p) && Takes(b, c, m, q)
    ensures p == a.runs[0].start && q == p + n
    ensures n + m < a.runs[0].num ==> c.runs == [Run(q + m, a.runs[0].num - n - m)]
  {
    var i: nat :| TakesFrom(a, b, n, p, i);
    var j: nat :| TakesFrom(b, c, m, q, j);
    assert i == 0 && b.runs == [Run(p + n, a.runs[0].num - n)];
  }

  /** Where run `j` of the list goes when run `i` is cut. */
  ghost function Moved(runs: seq<Run>, i: nat, n: nat, j: nat): (r: nat)
    requires i < |runs| && n <= runs[i].num && j < |runs| && (j != i || n < runs[i].num)
    ensures Moved(runs, i, n, j) < |Cut(runs, i, n)|
    ensures j != i ==> Cut(runs, i, n)[Moved(runs, i, n, j)] == runs[j]
    ensures j == i ==> Cut(runs, i, n)[Moved(runs, i, n, j)] == Run(runs[i].start + n, runs[i].num - n)
  {
    if n == runs[i].num && j > i then j - 1 else j
  }

  ghost function MovedFrom(runs: seq<Run>, i: nat, n: nat, k: nat): (j: nat)
    requires i < |runs| && n <= runs[i].num && k < |Cut(runs, i, n)|
    ensures j < |runs| && (j != i || n < runs[i].num) && Moved(runs, i, n, j) == k
  {
    if n == runs[i].num && k >= i then k + 1 else k
  }

  lemma RunsApart(runs: seq<Run>, i: nat, j: nat)
    requires RunsOk(runs) && i < |runs| && j < |runs| && i != j
    ensures Apart(runs[i], runs[j])
  {
    assert Apart(runs[if i < j then i else j], runs[if i < j then j else i]);
  }

  /** Cutting takes exactly the pages cut out of the free ones. */
  lemma CutFree(runs: seq<Run>, i: nat, n: nat, p: nat)
    requires RunsOk(runs) && i < |runs| && n <= runs[i].num
    ensures IsFree(Cut(runs, i, n), p) <==> IsFree(runs, p) && !InRun(Run(runs[i].start, n), p)
  {
    hide Cut, RunsOk, Moved, MovedFrom;
    var after := Cut(runs, i, n);
    if IsFree(runs, p) && !InRun(Run(runs[i].start, n), p) {
      var j: nat :| 0 <= j < |runs| && InRun(runs[j], p);
      assert InRun(after[Moved(runs, i, n, j)], p);
    }
    if IsFree(after, p) {
      var k: nat :| 0 <= k < |after| && InRun(after[k], p);
      var j := MovedFrom(runs, i, n, k);
      assert InRun(runs[j], p);
      if j != i { RunsApart(runs, i, j); }
    }
  }

  lemma CutOk(runs: seq<Run>, i: nat, n: nat)
    requires RunsOk(runs) && i < |runs| && n <= runs[i].num
    ensures RunsOk(Cut(runs, i, n))
  {
    var after := Cut(runs, i, n);
    forall j: nat, k: nat | j < k < |after| ensures Apart(after[j], after[k]) {
      RunsApart(runs, MovedFrom(runs, i, n, j), MovedFrom(runs, i, n, k));
    }
  }

  /** `pgalloc` hands out pages that were free and leaves every other page as it was. */
  lemma TakesKeeps(a: Pool, b: Pool, n: nat, p: nat)
    requires PoolOk(a) && Takes(a, b, n, p)
    ensures PoolOk(b) && 0 < p
    ensures forall q :: Managed(b, q) <==> Managed(a, q)
    ensures forall q :: q in Pages(Run(p, n)) ==> IsFree(a.runs, q) && q !in a.owned && q in b.owned
  {
    var i: nat :| TakesFrom(a, b, n, p, i);
    CutOk(a.runs, i, n);
    forall q: nat ensures IsFree(b.runs, q) <==> IsFree(a.runs, q) && !InRun(Run(p, n), q) {
      CutFree(a.runs, i, n, q);
    }
    forall q | q in Pages(Run(p, n)) ensures IsFree(a.runs, q) {
      assert InRun(a.runs[i], q);
    }
  }

  /** `pgfree` of allocated pages makes exactly those pages free. */
  lemma GivesKeeps(a: Pool, b: Pool, n: nat, p: nat)
    requires PoolOk(a) && Gives(a, b, n, p)
    ensures PoolOk(b)
    ensures forall q :: Managed(b, q) <==> Managed(a, q)
    ensures forall q :: IsFree(b.runs, q) <==> IsFree(a.runs, q) || q in Pages(Run(p, n))
  {
    forall q: nat ensures IsFree(b.runs, q) <==> IsFree(a.runs, q) || q in Pages(Run(p, n)) {
      assert b.runs[0] == Run(p, n);
      if IsFree(a.runs, q) {
        var j :| 0 <= j < |a.runs| && InRun(a.runs[j], q);
        assert b.runs[j + 1] == a.runs[j];
      }
    }
    forall j | 0 <= j < |a.runs| ensures Apart(Run(p, n), a.runs[j]) {
      var r := a.runs[j];
      var low := if r.start < p then p else r.start;
      assert !(low in Pages(Run(p, n)) && InRun(a.runs[j], low));
    }
    forall j, k | 0 <= j < k < |b.runs| ensures Apart(b.runs[j], b.runs[k]) {
      assert j > 0 ==> Apart(a.runs[j - 1], a.runs[k - 1]);
    }
  }

  datatype Event = Take(n: nat, p: nat) | Give(n: nat, p: nat)

  ghost predicate Happens(a: Pool, b: Pool, e: Event) {
    match e
    case Take(n, p) => Takes(a, b, n, p)
    case Give(n, p) => Gives(a, b, n, p)
  }

  ghost predicate IsHistory(pools: seq<Pool>, events: seq<Event>) {
    && |pools| == |events| + 1 && PoolOk(pools[0])
    && forall i :: 0 <= i < |events| ==> Happens(pools[i], pools[i + 1], events[i])
  }

  /** Whatever is allocated and freed, in whatever order, no page is lost or invented. */
  lemma {:induction false} PagesConserved(pools: seq<Pool>, events: seq<Event>, k: nat)
    requires IsHistory(pools, events) && k < |pools|
    ensures PoolOk(pools[k])
    ensures forall q :: Managed(pools[k], q) <==> Managed(pools[0], q)
  {
    if k > 0 {
      PagesConserved(pools, events, k - 1);
      assert Happens(pools[k - 1], pools[k], events[k - 1]);
      match events[k - 1] {
        case Take(n, p) => TakesKeeps(pools[k - 1], pools[k], n, p);
        case Give(n, p) => GivesKeeps(pools[k - 1], pools[k], n, p);
      }
    }
  }

  ghost predicate Covers(e: Event, q: nat) {
    q in Pages(Run(e.p, e.n))
  }

  /** An allocated page stays allocated while no free covers it. */
  lemma {:induction false} StaysAllocated(pools: seq<Pool>, events: seq<Event>, i: nat, k: nat, q: nat)
    requires IsHistory(pools, events) && i <= k < |pools| && q in pools[i].owned
    requires forall j :: i <= j < k ==> !(events[j].Give? && Covers(events[j], q))
    ensures q in pools[k].owned
  {
    if i < k {
      StaysAllocated(pools, events, i, k - 1, q);
      assert Happens(pools[k - 1], pools[k], events[k - 1]);
    }
  }

  /** No page is handed out a second time unless it was freed in between. */
  lemma NoDoubleAllocation(pools: seq<Pool>, events: seq<Event>, i: nat, k: nat, q: nat)
    requires IsHistory(pools, events) && i < k < |events|
    requires events[i].Take? && Covers(events[i], q) && events[k].Take? && Covers(events[k], q)
    ensures exists j :: i < j < k && events[j].Give? && Covers(events[j], q)
  {
    PagesConserved(pools, events, i);
    PagesConserved(pools, events, k);
    assert Happens(pools[i], pools[i + 1], events[i]) && Happens(pools[k], pools[k + 1], events[k]);
    TakesKeeps(pools[i], pools[i + 1], events[i].n, events[i].p);
    TakesKeeps(pools[k], pools[k + 1], events[k].n, events[k].p);
    if forall j :: i < j < k ==> !(events[j].Give? && Covers(events[j], q)) {
      StaysAllocated(pools, events, i + 1, k, q);
    }
  }

  // ---------------------------------------------------------------- the allocator itself

  /** Memory after the cut: a header for what is left of run `i`, and its predecessor's link. */
  ghost function CutMemory(mem: Memory, runs: seq<Run>, i: nat, n: nat): (r: Memory)
    requires IsList(mem, StartOf(runs, 0), runs) && i < |runs| && n <= runs[i].num
    requires runs[i].start + n in mem || n == runs[i].num
  {
    var rest := runs[i].start + n;
    assert Header(mem, runs, i);
    var m := if n < runs[i].num then mem[rest := Page(StartOf(runs, i + 1), runs[i].num - n, mem[rest].rest)] else mem;
    if i == 0 then m
    else
      assert Header(mem, runs, i - 1);
      m[runs[i - 1].start := m[runs[i - 1].start].(next := if n < runs[i].num then rest else StartOf(runs, i + 1))]
  }

  /** The pages of a list's runs are all there. */
  ghost predicate Backed(mem: Memory, a: Pool) {
    forall p :: p in mem <==> Managed(a, p)
  }

  lemma FreePageBacked(mem: Memory, a: Pool, i: nat, n: nat)
    requires Backed(mem, a) && i < |a.runs| && n < a.runs[i].num
    ensures a.runs[i].start + n in mem
  {
    assert InRun(a.runs[i], a.runs[i].start + n);
  }

  /** Where the link of run `j` leads after the cut. */
  ghost function LinkAfter(runs: seq<Run>, i: nat, n: nat, j: nat): (r: nat)
    requires i < |runs| && n <= runs[i].num
  {
    if j + 1 == i && n < runs[i].num then runs[i].start + n
    else if j + 1 == i then StartOf(runs, i + 1)
    else StartOf(runs, j + 1)
  }

  lemma CutLinks(runs: seq<Run>, i: nat, n: nat, j: nat)
    requires i < |runs| && n <= runs[i].num && j < |runs| && (j != i || n < runs[i].num)
    ensures StartOf(Cut(runs, i, n), Moved(runs, i, n, j) + 1) == LinkAfter(runs, i, n, j)
  {
  }

  lemma StartsDiffer(runs: seq<Run>, i: nat, n: nat, j: nat)
    requires RunsOk(runs) && i < |runs| && j < |runs| && i != j && n < runs[i].num
    ensures runs[j].start != runs[i].start + n
  {
    RunsApart(runs, i, j);
  }

  lemma HeaderAt(mem: Memory, runs: seq<Run>, j: nat)
    requires IsList(mem, StartOf(runs, 0), runs) && RunsOk(runs) && j < |runs|
    ensures Header(mem, runs, j) && 0 < runs[j].num
  {
  }

  /** The header of run `j` after the cut. */
  lemma CutHeader(mem: Memory, runs: seq<Run>, i: nat, n: nat, j: nat)
    requires IsList(mem, StartOf(runs, 0), runs) && RunsOk(runs) && i < |runs| && n <= runs[i].num
    requires runs[i].start + n in mem || n == runs[i].num
    requires j < |runs| && (j != i || n < runs[i].num) && (j == i && i > 0 ==> n > 0)
    ensures Header(CutMemory(mem, runs, i, n), Cut(runs, i, n), Moved(runs, i, n, j))
  {
    hide Cut, RunsOk, IsList, Moved, StartOf;
    CutLinks(runs, i, n, j);
    HeaderAt(mem, runs, i);
    HeaderAt(mem, runs, j);
    if j != i && n < runs[i].num { StartsDiffer(runs, i, n, j); }
    if i > 0 {
      HeaderAt(mem, runs, i - 1);
      if j != i - 1 && j != i { StartsDiffer(runs, i - 1, 0, j); }
      if n < runs[i].num { StartsDiffer(runs, i, n, i - 1); }
    }
  }

  /** The rewritten headers spell the list after the cut, and no page in use is written. */
  lemma CutMemoryIsList(mem: Memory, a: Pool, i: nat, n: nat)
    requires IsList(mem, StartOf(a.runs, 0), a.runs) && PoolOk(a) && Backed(mem, a) && FirstFit(a.runs, n, i)
    ensures n < a.runs[i].num ==> a.runs[i].start + n in mem
    ensures IsList(CutMemory(mem, a.runs, i, n), StartOf(Cut(a.runs, i, n), 0), Cut(a.runs, i, n))
    ensures CutMemory(mem, a.runs, i, n).Keys == mem.Keys
    ensures forall q :: q in a.owned && q in mem ==> CutMemory(mem, a.runs, i, n)[q] == mem[q]
  {
    hide Cut, Moved, MovedFrom;
    if n < a.runs[i].num { FreePageBacked(mem, a, i, n); }
    var after := CutMemory(mem, a.runs, i, n);
    var runs := Cut(a.runs, i, n);
    assert Header(mem, a.runs, i);
    assert i > 0 ==> Header(mem, a.runs, i - 1) && a.runs[i - 1].num < n;
    forall k: nat | k < |runs| ensures Header(after, runs, k) {
      CutHeader(mem, a.runs, i, n, MovedFrom(a.runs, i, n, k));
    }
    hide IsList, RunsOk;
    forall q | q in a.owned && q in mem ensures after[q] == mem[q] {
      OwnedUntouched(mem, a, i, n, q);
    }
  }

  lemma OwnedUntouched(mem: Memory, a: Pool, i: nat, n: nat, q: nat)
    requires IsList(mem, StartOf(a.runs, 0), a.runs) && PoolOk(a) && FirstFit(a.runs, n, i)
    requires n < a.runs[i].num ==> a.runs[i].start + n in mem
    requires q in a.owned && q in mem
    ensures q in CutMemory(mem, a.runs, i, n) && CutMemory(mem, a.runs, i, n)[q] == mem[q]
  {
    assert Header(mem, a.runs, i) && InRun(a.runs[i], a.runs[i].start);
    assert n < a.runs[i].num ==> InRun(a.runs[i], a.runs[i].start + n);
    assert i > 0 ==> InRun(a.runs[i - 1], a.runs[i - 1].start) && Header(mem, a.runs, i - 1);
  }

  ghost predicate Represents(mem: Memory, head: nat, a: Pool) {
    IsList(mem, head, a.runs) && PoolOk(a) && Backed(mem, a)
  }

  lemma ReadHeader(mem: Memory, head: nat, a: Pool, i: nat)
    requires Represents(mem, head, a) && i < |a.runs|
    ensures head == StartOf(a.runs, 0) && Header(mem, a.runs, i) && 0 < a.runs[i].start
    ensures i + 1 == |a.runs| <==> StartOf(a.runs, i + 1) == 0
  {
  }

  lemma EmptyList(mem: Memory, head: nat, a: Pool)
    requires Represents(mem, head, a)
    ensures head == 0 <==> |a.runs| == 0
  {
  }

  ghost function PoolCut(a: Pool, i: nat, n: nat): (r: Pool)
    requires FirstFit(a.runs, n, i)
  {
    Pool(Cut(a.runs, i, n), a.owned + Pages(Run(a.runs[i].start, n)))
  }

  /** What one successful allocation leaves behind. */
  lemma CutRepresents(mem: Memory, head: nat, a: Pool, i: nat, n: nat)
    requires Represents(mem, head, a) && FirstFit(a.runs, n, i)
    ensures n < a.runs[i].num ==> a.runs[i].start + n in mem
    ensures IsList(mem, StartOf(a.runs, 0), a.runs)
    ensures Represents(CutMemory(mem, a.runs, i, n), StartOf(Cut(a.runs, i, n), 0), PoolCut(a, i, n))
    ensures StartOf(Cut(a.runs, i, n), 0) ==
      if i > 0 then head else if n < a.runs[i].num then head + n else StartOf(a.runs, 1)
    ensures Takes(a, PoolCut(a, i, n), n, a.runs[i].start)
    ensures CutMemory(mem, a.runs, i, n).Keys == mem.Keys
    ensures forall q :: q in a.owned && q in mem ==> CutMemory(mem, a.runs, i, n)[q] == mem[q]
  {
    CutMemoryIsList(mem, a, i, n);
    assert TakesFrom(a, PoolCut(a, i, n), n, a.runs[i].start, i);
    TakesKeeps(a, PoolCut(a, i, n), n, a.runs[i].start);
  }

  class Kmem {
    var freelist: nat
    var mem: Memory
    ghost var pool: Pool

    ghost predicate Valid()
      reads this
    {
      Represents(mem, freelist, pool)
    }

    /** `pgalloc`; `None` is the kernel panic "out of memory". */
    method PgAlloc(n: nat) returns (p: Option<nat>)
      requires Valid()
      modifies this
      ensures Valid() && mem.Keys == old(mem.Keys)
      ensures p.None? <==> forall i :: 0 <= i < |old(pool.runs)| ==> old(pool.runs)[i].num < n
      ensures p.None? ==> mem == old(mem) && pool == old(pool)
      ensures p.Some? ==> Takes(old(pool), pool, n, p.value)
      ensures p.Some? ==> exists i: nat :: FirstFit(old(pool.runs), n, i) && p.value == old(pool.runs)[i].start
      ensures forall q :: q in old(pool.owned) && q in mem ==> mem[q] == old(mem)[q]
    {
      hide Represents, Takes, Cut, IsList, PoolCut;
      ghost var a := pool;
      p := None;
      EmptyList(mem, freelist, a);
      if freelist == 0 {
        return;
      }
      ReadHeader(mem, freelist, a, 0);
      if mem[freelist].num >= n {
        CutRepresents(mem, freelist, a, 0, n);
        p := Some(freelist);
        if mem[freelist].num > n {
          var newfl := freelist + n;
          mem := mem[newfl := mem[newfl].(next := mem[freelist].next, num := mem[freelist].num - n)];
          freelist := newfl;
        } else {
          freelist := mem[freelist].next;
        }
        pool := PoolCut(a, 0, n);
      } else {
        var r := freelist;
        ghost var i := 0;
        while mem[r].next != 0
          invariant i < |a.runs| && r == a.runs[i].start && r in mem
          invariant p.None? && mem == old(mem) && freelist == old(freelist) && pool == a
          invariant forall j :: 0 <= j <= i ==> a.runs[j].num < n
          decreases |a.runs| - i
        {
          ReadHeader(mem, freelist, a, i);
          var next := mem[r].next;
          i := i + 1;
          ReadHeader(mem, freelist, a, i);
          if mem[next].num >= n {
            CutRepresents(mem, freelist, a, i, n);
            p := Some(next);
            if mem[next].num > n {
              var newrun := next + n;
              mem := mem[newrun := mem[newrun].(next := mem[next].next, num := mem[next].num - n)];
              mem := mem[r := mem[r].(next := newrun)];
            } else {
              mem := mem[r := mem[r].(next := mem[next].next)];
            }
            pool := PoolCut(a, i, n);
            return;
          }
          r := next;
        }
        ReadHeader(mem, freelist, a, i);
      }
    }

    /** `pgfree`. Freeing at least one page handed out earlier gives those pages back; "freeing" no pages
        still writes a header, and then memory holds no list of free runs any more. */
    method PgFree(p: nat, n: nat)
      requires Valid() && 0 < p && p in mem && Pages(Run(p, n)) <= pool.owned
      modifies this
      ensures (exists b: Pool :: Represents(mem, freelist, b)) <==> 0 < n
      ensures 0 < n ==> Valid() && Gives(old(pool), pool, n, p)
      ensures freelist == p && mem.Keys == old(mem.Keys)
      ensures mem[p] == (if n > 0 then FILLED else old(mem)[p]).(num := n, next := old(freelist))
      ensures forall q :: q in mem && q != p && q in Pages(Run(p, n)) ==> mem[q] == FILLED
      ensures forall q :: q in mem && q != p && q !in Pages(Run(p, n)) ==> mem[q] == old(mem)[q]
    {
      hide Represents;
      ghost var a := pool;
      mem := map q | q in mem :: if p <= q < p + n then FILLED else mem[q];
      var orighead := freelist;
      freelist := p;
      mem := mem[freelist := mem[freelist].(num := n)];
      mem := mem[freelist := mem[freelist].(next := orighead)];
      pool := Pool([Run(p, n)] + a.runs, a.owned - Pages(Run(p, n)));
      if n > 0 {
        assert p in Pages(Run(p, n));
        GivesRepresents(old(mem), mem, old(freelist), a, pool, n, p);
        assert Represents(mem, freelist, pool);
      } else {
        forall b: Pool ensures !Represents(mem, freelist, b) {
          EmptyRunHead(mem, freelist, b);
        }
      }
    }

    /** `kinit1`: one run from the first whole page of the range. */
    constructor KInit1(vstart: nat, vend: nat, pages: Memory)
      requires 0 < vstart && RoundUp(vstart) + PGSIZE <= vend
      requires pages.Keys == Pages(Range(vstart, vend))
      ensures Valid() && pool == Pool([Range(vstart, vend)], {})
    {
      var r := Range(vstart, vend);
      assert r.start in Pages(r);
      freelist := r.start;
      mem := pages[r.start := pages[r.start].(next := 0, num := r.num)];
      pool := Pool([r], {});
      new;
      assert pool.runs[0] == r;
    }

    /** `kinit2` makes a second range the successor of the list's head: whatever followed the head is lost,
        so that every page is still accounted for exactly when the head was the only run. */
    method KInit2(vstart: nat, vend: nat, pages: Memory)
      requires Valid() && |pool.runs| > 0
      requires 0 < vstart && RoundUp(vstart) + PGSIZE <= vend
      requires pages.Keys == Pages(Range(vstart, vend)) && pages.Keys !! mem.Keys
      modifies this
      ensures pool == Pool([old(pool.runs)[0], Range(vstart, vend)], old(pool.owned))
      ensures IsList(mem, freelist, pool.runs) && PoolOk(pool) && mem.Keys == old(mem.Keys) + pages.Keys
      ensures Valid() <==> |old(pool.runs)| == 1
      ensures forall q :: q in pool.owned && q in mem ==> q in old(mem) && mem[q] == old(mem)[q]
    {
      ghost var a := pool;
      var r := Range(vstart, vend);
      assert r.start in Pages(r);
      assert Header(mem, a.runs, 0) && InRun(a.runs[0], a.runs[0].start);
      mem := mem + pages;
      mem := mem[freelist := mem[freelist].(next := r.start)];
      mem := mem[r.start := mem[r.start].(next := 0, num := r.num)];
      pool := Pool([a.runs[0], r], a.owned);
      Init2Pool(old(mem), a, r);
      if |a.runs| > 1 {
        LostRun(old(mem), a, r);
      }
    }

    /** A zero-page allocation followed by its release turns a non-empty list into a loop. */
    method ZeroPageLoop()
      requires Valid() && |pool.runs| > 0
      modifies this
      ensures freelist == old(freelist) && freelist in mem && mem[freelist].next == freelist
    {
      ghost var a := pool;
      assert FirstFit(a.runs, 0, 0);
      var p := PgAlloc(0);
      ghost var i: nat :| TakesFrom(a, pool, 0, p.value, i);
      assert i == 0;
      assert Header(mem, pool.runs, 0);
      PgFree(p.value, 0);
    }
  }

  const PGSIZE := 4096

  function RoundUp(a: nat): (r: nat) {
    (a + PGSIZE - 1) / PGSIZE * PGSIZE
  }

  /** The whole pages of the address range `[vstart, vend)`. */
  function Range(vstart: nat, vend: nat): (r: Run)
    requires RoundUp(vstart) <= vend
    ensures vstart <= r.start * PGSIZE < vstart + PGSIZE
    ensures (r.start + r.num) * PGSIZE <= vend < (r.start + r.num + 1) * PGSIZE
  {
    Run(RoundUp(vstart) / PGSIZE, (vend - RoundUp(vstart)) / PGSIZE)
  }

  lemma EmptyRunHead(mem: Memory, head: nat, b: Pool)
    requires head in mem && head != 0 && mem[head].num == 0
    ensures !Represents(mem, head, b)
  {
    assert IsList(mem, head, b.runs) ==> |b.runs| > 0 && Header(mem, b.runs, 0);
  }

  lemma GivesRepresents(mem: Memory, after: Memory, head: nat, a: Pool, b: Pool, n: nat, p: nat)
    requires Represents(mem, head, a) && Gives(a, b, n, p) && after.Keys == mem.Keys
    requires p in after && after[p].num == n && after[p].next == head
    requires forall q :: q in mem && q !in Pages(Run(p, n)) ==> after[q] == mem[q]
    ensures Represents(after, p, b)
  {
    GivesKeeps(a, b, n, p);
    forall i: nat | i < |b.runs| ensures Header(after, b.runs, i) {
      if i > 0 {
        assert Header(mem, a.runs, i - 1);
        assert InRun(a.runs[i - 1], a.runs[i - 1].start);
      }
    }
  }

  lemma Init2Pool(mem: Memory, a: Pool, r: Run)
    requires PoolOk(a) && Backed(mem, a) && |a.runs| > 0 && 0 < r.start && 0 < r.num
    requires forall q :: q in Pages(r) ==> q !in mem
    ensures PoolOk(Pool([a.runs[0], r], a.owned))
    ensures |a.runs| == 1 ==> forall q :: Managed(Pool([a.runs[0], r], a.owned), q) <==> q in mem || q in Pages(r)
  {
    var b := Pool([a.runs[0], r], a.owned);
    var low := if a.runs[0].start < r.start then r.start else a.runs[0].start;
    assert !(InRun(a.runs[0], low) && low in Pages(r));
    forall q | IsFree(b.runs, q) ensures IsFree(a.runs, q) || q in Pages(r) {
      var i :| 0 <= i < |b.runs| && InRun(b.runs[i], q);
    }
    forall q | |a.runs| == 1 && (q in mem || q in Pages(r)) ensures Managed(b, q) {
      assert InRun(b.runs[0], q) || InRun(b.runs[1], q) || q in a.owned;
    }
  }

  lemma LostRun(mem: Memory, a: Pool, r: Run)
    requires PoolOk(a) && Backed(mem, a) && |a.runs| > 1
    requires forall q :: q in Pages(r) ==> q !in mem
    ensures exists q :: q in mem && !Managed(Pool([a.runs[0], r], a.owned), q)
  {
    var q := a.runs[1].start;
    assert InRun(a.runs[1], q);
    RunsApart(a.runs, 0, 1);
    assert q in mem && !InRun(a.runs[0], q) && q !in Pages(r);
    assert !Managed(Pool([a.runs[0], r], a.owned), q);
  }
}
