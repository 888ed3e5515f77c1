/** The file allocation table as a sequence of 32-bit entries: which clusters are free, which
    chain each used cluster belongs to, and what allocate, append and free do to that. */
module FatTable {
  const END_MARK: nat := 0x0fff_ffff      // what allocation writes
  const END_MIN: nat := 0x0fff_fff8       // anything from here on ends a chain
  const BAD_CLUSTER: nat := 0x0fff_fff7

  type Fat = seq<nat>
  type Chains = map<nat, seq<nat>>

  function Last(chain: seq<nat>): (c: nat)
    requires chain != []
  {
    chain[|chain| - 1]
  }

  /** The `i`th cluster of `chain` links to the next one. */
  ghost predicate Link(fat: Fat, chain: seq<nat>, i: nat)
    requires i + 1 < |chain| && chain[i] < |fat|
  {
    fat[chain[i]] == chain[i + 1]
  }

  ghost predicate InVolume(limit: nat, chain: seq<nat>) {
    forall i :: 0 <= i < |chain| ==> 2 <= chain[i] < limit
  }

  ghost predicate Distinct(chain: seq<nat>) {
    forall i, j :: 0 <= i < j < |chain| ==> chain[i] != chain[j]
  }

  /** `chain` follows the links of `fat` from its head to an end mark, through clusters of the
      volume (numbered 2 up to `limit`), without meeting a cluster twice. */
  ghost predicate IsChain(fat: Fat, limit: nat, chain: seq<nat>)
    requires limit <= |fat|
  {
    && chain != []
    && InVolume(limit, chain)
    && (forall i: nat :: i < |chain| - 1 ==> Link(fat, chain, i))
    && fat[Last(chain)] >= END_MIN
    && Distinct(chain)
  }

  ghost predicate Owns(chains: Chains, head: nat, cluster: nat) {
    head in chains && cluster in chains[head]
  }

  ghost predicate Owned(chains: Chains, cluster: nat) {
    exists head: nat :: Owns(chains, head, cluster)
  }

  ghost predicate ChainAt(fat: Fat, limit: nat, chains: Chains, h: nat)
    requires limit <= |fat| && h in chains
  {
    IsChain(fat, limit, chains[h]) && chains[h][0] == h
  }

  ghost predicate AllChains(fat: Fat, limit: nat, chains: Chains)
    requires limit <= |fat|
  {
    forall h :: h in chains ==> ChainAt(fat, limit, chains, h)
  }

  ghost predicate Disjoint(chains: Chains) {
    forall g: nat, h: nat, c: nat :: Owns(chains, g, c) && Owns(chains, h, c) ==> g == h
  }

  ghost predicate Accounted(fat: Fat, chains: Chains, c: nat)
    requires c < |fat|
  {
    fat[c] == 0 || fat[c] == BAD_CLUSTER || Owned(chains, c)
  }

  ghost predicate Bounds(fat: Fat, limit: nat) {
    && 2 <= limit <= |fat| <= END_MIN
    && limit <= BAD_CLUSTER
    && fat[0] != 0 && fat[1] != 0
  }

  /** Every cluster of the volume is free, marked bad, or on exactly one chain. The table may be longer than
      the volume has clusters, and what it holds there does not matter. */
  ghost predicate Partition(fat: Fat, limit: nat, chains: Chains) {
    && Bounds(fat, limit)
    && AllChains(fat, limit, chains)
    && Disjoint(chains)
    && (forall c: nat :: 2 <= c < limit ==> Accounted(fat, chains, c))
  }

  /** The clusters of the volume that are free. */
  ghost function FreeClusters(fat: Fat, limit: nat): (s: set<nat>) {
    set c: nat | c < limit && c < |fat| && fat[c] == 0
  }

  /** `c` is the entry the allocator's scan stops at: free, with nothing free below it. */
  predicate LowestFree(fat: Fat, c: nat) {
    c < |fat| && fat[c] == 0 && forall i :: 0 <= i < c ==> fat[i] != 0
  }

  /** The table with every entry of `chain` zeroed. */
  function Cleared(fat: Fat, chain: seq<nat>): (r: Fat)
    ensures |r| == |fat|
    ensures forall c :: 0 <= c < |fat| ==> r[c] == if c in chain then 0 else fat[c]
  {
    seq(|fat|, c requires 0 <= c < |fat| => if c in chain then 0 else fat[c])
  }

  datatype Op = Allocate | Append(first: nat, second: nat) | Free(head: nat)

  /** What `fat32_allocate_cluster` answers and does to the table: the lowest free entry, even past the end of
      the volume, or 0 when no entry is free. */
  ghost predicate Allocates(fat: Fat, c: nat, fat': Fat) {
    if exists i :: 0 <= i < |fat| && fat[i] == 0
    then LowestFree(fat, c) && fat' == fat[c := END_MARK]
    else c == 0 && fat' == fat
  }

  /** One table operation and what it does to the ghost list of chains. `Append` and `Free` take
      heads of chains, as their callers in the driver do. */
  ghost predicate Step(op: Op, limit: nat, fat: Fat, chains: Chains, fat': Fat, chains': Chains) {
    match op
    case Allocate =>
      exists c: nat :: Allocates(fat, c, fat') && chains' == if 2 <= c < limit then chains[c := [c]] else chains
    case Append(a, b) =>
      && a in chains && b in chains && a != b && chains[a] != []
      && Last(chains[a]) < |fat|
      && fat' == fat[Last(chains[a]) := b]
      && chains' == Appended(chains, a, b)
    case Free(a) =>
      && a in chains
      && fat' == Cleared(fat, chains[a])
      && chains' == chains - {a}
  }

  lemma HeadOwns(fat: Fat, limit: nat, chains: Chains, h: nat)
    requires limit <= |fat| && limit <= BAD_CLUSTER && h in chains && ChainAt(fat, limit, chains, h)
    ensures Owns(chains, h, h) && 2 <= h < limit && fat[h] != 0
  {
    var chain := chains[h];
    assert chain[0] == h;
    MemberEntry(fat, limit, chain, h);
  }

  lemma MemberEntry(fat: Fat, limit: nat, chain: seq<nat>, c: nat)
    requires limit <= |fat| && limit <= BAD_CLUSTER && IsChain(fat, limit, chain) && c in chain
    ensures 2 <= c < limit && fat[c] != 0
    ensures fat[c] >= END_MIN <==> c == Last(chain)
  {
    var i: nat :| i < |chain| && chain[i] == c;
    if i < |chain| - 1 {
      assert Link(fat, chain, i);
    }
  }

  /** A chain is unaffected by a change to an entry it does not contain. */
  lemma ChainFrame(fat: Fat, limit: nat, chain: seq<nat>, fat': Fat)
    requires limit <= |fat| == |fat'| && IsChain(fat, limit, chain)
    requires forall i :: 0 <= i < |chain| && chain[i] < |fat| ==> fat'[chain[i]] == fat[chain[i]]
    ensures IsChain(fat', limit, chain)
  {
    forall i: nat | i < |chain| - 1 ensures Link(fat', chain, i) {
      assert Link(fat, chain, i);
    }
  }

  /** The chain through a head is what the links say: the partition is determined by the table. */
  lemma ChainUnique(fat: Fat, limit: nat, p: seq<nat>, q: seq<nat>)
    requires limit <= |fat| && limit <= BAD_CLUSTER
    requires IsChain(fat, limit, p) && IsChain(fat, limit, q) && p[0] == q[0]
    ensures p == q
  {
    ChainPrefix(fat, limit, p, fat, q, |p|);
    ChainPrefix(fat, limit, q, fat, p, |q|);
  }

  /** Two chains from the same head agree as far as the first one's entries are unchanged. */
  lemma {:induction false} ChainPrefix(fat: Fat, limit: nat, p: seq<nat>, fat': Fat, q: seq<nat>, n: nat)
    requires limit <= |fat| == |fat'| && limit <= BAD_CLUSTER
    requires IsChain(fat, limit, p) && IsChain(fat', limit, q) && p[0] == q[0]
    requires n <= |p|
    requires forall i :: 0 <= i < n - 1 ==> fat'[p[i]] == fat[p[i]]
    ensures n <= |q| && p[..n] == q[..n]
  {
    if n > 1 {
      ChainPrefix(fat, limit, p, fat', q, n - 1);
      assert p[n - 2] == p[..n - 1][n - 2] == q[..n - 1][n - 2] == q[n - 2];
      assert Link(fat, p, n - 2);
      if n - 1 < |q| {
        assert Link(fat', q, n - 2);
      }
    }
  }

  lemma FreeNotOwned(fat: Fat, limit: nat, chains: Chains, c: nat)
    requires Bounds(fat, limit) && AllChains(fat, limit, chains) && c < |fat| && fat[c] == 0
    ensures !Owned(chains, c) && c !in chains && 2 <= c
  {
    if Owned(chains, c) {
      var h: nat :| Owns(chains, h, c);
      assert ChainAt(fat, limit, chains, h);
      MemberEntry(fat, limit, chains[h], c);
    }
    if c in chains {
      assert ChainAt(fat, limit, chains, c);
      HeadOwns(fat, limit, chains, c);
    }
  }

  /** A chain that does not own the changed entry is still a chain. */
  lemma OtherChain(fat: Fat, limit: nat, chains: Chains, h: nat, c: nat, v: nat)
    requires limit <= |fat| && h in chains && ChainAt(fat, limit, chains, h)
    requires c < |fat| && !Owns(chains, h, c)
    ensures IsChain(fat[c := v], limit, chains[h])
  {
    var chain := chains[h];
    forall i | 0 <= i < |chain| && chain[i] < |fat| ensures fat[c := v][chain[i]] == fat[chain[i]] {
      assert chain[i] in chain;
    }
    ChainFrame(fat, limit, chain, fat[c := v]);
  }

  lemma SingletonChain(fat: Fat, limit: nat, c: nat)
    requires 2 <= c < limit <= |fat|
    ensures IsChain(fat[c := END_MARK], limit, [c])
  {
  }

  /** The answer is a cluster of the volume exactly if the volume has a free one. */
  lemma AllocatesInVolume(fat: Fat, limit: nat, c: nat, fat': Fat)
    requires Bounds(fat, limit) && Allocates(fat, c, fat')
    ensures 2 <= c < limit <==> FreeClusters(fat, limit) != {}
    ensures FreeClusters(fat, limit) != {} ==> LowestFree(fat, c) && fat' == fat[c := END_MARK]
  {
    if FreeClusters(fat, limit) != {} {
      var i :| i in FreeClusters(fat, limit);
      assert fat[i] == 0 && LowestFree(fat, c);
    }
    if 2 <= c < limit {
      assert c in FreeClusters(fat, limit);
    }
  }

  /** Clusters are handed out in ascending order, and a chain just freed is used again from its lowest cluster on if
      that is below what would have come next. */
  lemma AllocationsAscend(fat: Fat, limit: nat, chain: seq<nat>, c: nat, fat1: Fat, d: nat, fat2: Fat)
    requires Bounds(fat, limit) && FreeClusters(fat, limit) != {} && Allocates(fat, c, fat1)
    requires forall x :: x in chain ==> 2 <= x < limit
    ensures FreeClusters(fat1, limit) != {} && Allocates(fat1, d, fat2) ==> c < d
    ensures Allocates(Cleared(fat, chain), d, fat2) ==>
      (d == c || d in chain) && d <= c && forall x :: x in chain ==> d <= x
  {
    AllocatesInVolume(fat, limit, c, fat1);
    if FreeClusters(fat1, limit) != {} && Allocates(fat1, d, fat2) {
      AllocatesInVolume(fat1, limit, d, fat2);
    }
    if Allocates(Cleared(fat, chain), d, fat2) {
      assert Cleared(fat, chain)[c] == 0;
    }
  }

  /** Allocation on a volume with a free cluster turns the lowest one into a one-cluster chain. */
  lemma AllocateKeepsPartition(fat: Fat, limit: nat, chains: Chains, c: nat)
    requires Partition(fat, limit, chains) && LowestFree(fat, c) && c < limit
    ensures 2 <= c && !Owned(chains, c) && c !in chains
    ensures Partition(fat[c := END_MARK], limit, chains[c := [c]])
    ensures FreeClusters(fat[c := END_MARK], limit) == FreeClusters(fat, limit) - {c}
  {
    FreeNotOwned(fat, limit, chains, c);
    var fat', chains' := fat[c := END_MARK], chains[c := [c]];
    SingletonChain(fat, limit, c);
    forall h | h in chains' ensures ChainAt(fat', limit, chains', h) {
      if h != c {
        assert ChainAt(fat, limit, chains, h) && !Owns(chains, h, c);
        OtherChain(fat, limit, chains, h, c, END_MARK);
      }
    }
    AllocateOwners(chains, c);
    forall x: nat | 2 <= x < limit ensures Accounted(fat', chains', x) {
      assert Accounted(fat, chains, x);
    }
  }

  /** Allocation on a volume without one changes nothing the volume can see. */
  lemma AllocateBeyond(fat: Fat, limit: nat, chains: Chains, c: nat, fat': Fat)
    requires Partition(fat, limit, chains) && Allocates(fat, c, fat') && !(2 <= c < limit)
    ensures Partition(fat', limit, chains) && FreeClusters(fat', limit) == FreeClusters(fat, limit) == {}
  {
    AllocatesInVolume(fat, limit, c, fat');
    assert forall i :: 0 <= i < limit ==> fat'[i] == fat[i];
    forall h | h in chains ensures ChainAt(fat', limit, chains, h) {
      assert ChainAt(fat, limit, chains, h);
      ChainFrame(fat, limit, chains[h], fat');
    }
    forall x: nat | 2 <= x < limit ensures Accounted(fat', chains, x) {
      assert Accounted(fat, chains, x);
    }
  }

  lemma AllocateOwners(chains: Chains, c: nat)
    requires Disjoint(chains) && !Owned(chains, c) && c !in chains
    ensures Disjoint(chains[c := [c]])
    ensures forall x: nat :: Owned(chains, x) || x == c ==> Owned(chains[c := [c]], x)
  {
    var chains' := chains[c := [c]];
    forall g: nat, h: nat, x: nat | Owns(chains', g, x) && Owns(chains', h, x) ensures g == h {
      assert g != c ==> Owns(chains, g, x);
      assert h != c ==> Owns(chains, h, x);
    }
    forall x: nat | Owned(chains, x) || x == c ensures Owned(chains', x) {
      if x == c {
        assert Owns(chains', c, x);
      } else {
        var h: nat :| Owns(chains, h, x);
        assert Owns(chains', h, x);
      }
    }
  }

  /** Linking the last cluster of one chain to the head of another concatenates the chains. */
  lemma AppendKeepsPartition(fat: Fat, limit: nat, chains: Chains, a: nat, b: nat)
    requires Partition(fat, limit, chains) && a in chains && b in chains && a != b
    ensures chains[a] != [] && Last(chains[a]) < |fat|
    ensures Partition(fat[Last(chains[a]) := b], limit, Appended(chains, a, b))
    ensures FreeClusters(fat[Last(chains[a]) := b], limit) == FreeClusters(fat, limit)
  {
    assert ChainAt(fat, limit, chains, a) && ChainAt(fat, limit, chains, b);
    var p := chains[a];
    var last := Last(p);
    var fat', chains' := fat[last := b], Appended(chains, a, b);
    assert Owns(chains, a, last);
    MemberEntry(fat, limit, p, last);
    HeadOwns(fat, limit, chains, b);
    AppendedChain(fat, limit, chains, a, b);
    forall h | h in chains' ensures ChainAt(fat', limit, chains', h) {
      if h != a {
        assert ChainAt(fat, limit, chains, h);
        assert !Owns(chains, h, last);
        OtherChain(fat, limit, chains, h, last, b);
      }
    }
    AppendOwners(chains, a, b);
    forall x: nat | 2 <= x < limit ensures Accounted(fat', chains', x) {
      assert Accounted(fat, chains, x);
    }
  }

  ghost function Appended(chains: Chains, a: nat, b: nat): (r: Chains)
    requires a in chains && b in chains
  {
    (chains - {b})[a := chains[a] + chains[b]]
  }

  lemma AppendSingleton(chains: Chains, a: nat, x: nat)
    requires a in chains && x !in chains
    ensures Appended(chains[x := [x]], a, x) == chains[a := chains[a] + [x]]
  {
  }

  lemma AppendOwners(chains: Chains, a: nat, b: nat)
    requires Disjoint(chains) && a in chains && b in chains && a != b
    ensures Disjoint(Appended(chains, a, b))
    ensures forall x: nat :: Owned(chains, x) ==> Owned(Appended(chains, a, b), x)
  {
    var chains' := Appended(chains, a, b);
    forall g: nat, h: nat, x: nat | Owns(chains', g, x) && Owns(chains', h, x) ensures g == h {
      assert Owns(chains, g, x) || (g == a && Owns(chains, b, x));
      assert Owns(chains, h, x) || (h == a && Owns(chains, b, x));
    }
    forall x: nat | Owned(chains, x) ensures Owned(chains', x) {
      var h: nat :| Owns(chains, h, x);
      assert Owns(chains', if h == b then a else h, x);
    }
  }

  lemma AppendedChain(fat: Fat, limit: nat, chains: Chains, a: nat, b: nat)
    requires limit <= |fat| && Disjoint(chains) && a in chains && b in chains && a != b
    requires ChainAt(fat, limit, chains, a) && ChainAt(fat, limit, chains, b)
    requires Last(chains[a]) < |fat|
    ensures IsChain(fat[Last(chains[a]) := b], limit, chains[a] + chains[b])
  {
    var p, q := chains[a], chains[b];
    var r := p + q;
    var last := Last(p);
    var fat' := fat[last := b];
    forall i, j | 0 <= i < |p| && 0 <= j < |q| ensures p[i] != q[j] {
      assert Owns(chains, a, p[i]) && Owns(chains, b, q[j]);
    }
    forall i: nat | i < |r| - 1 ensures Link(fat', r, i) {
      if i < |p| - 1 {
        assert Link(fat, p, i);
      } else if i >= |p| {
        assert Link(fat, q, i - |p|);
      }
    }
  }

  /** Freeing a chain frees exactly its clusters. */
  lemma FreeKeepsPartition(fat: Fat, limit: nat, chains: Chains, a: nat)
    requires Partition(fat, limit, chains) && a in chains
    ensures Partition(Cleared(fat, chains[a]), limit, chains - {a})
    ensures FreeClusters(Cleared(fat, chains[a]), limit) == FreeClusters(fat, limit) + (set c | c in chains[a])
    ensures FreeClusters(fat, limit) !! (set c | c in chains[a])
  {
    assert ChainAt(fat, limit, chains, a);
    var p := chains[a];
    var fat', chains' := Cleared(fat, p), chains - {a};
    forall c | c in p ensures 2 <= c < limit && fat[c] != 0 {
      MemberEntry(fat, limit, p, c);
    }
    forall h | h in chains' ensures ChainAt(fat', limit, chains', h) {
      assert ChainAt(fat, limit, chains, h);
      ClearedFrame(fat, limit, chains, a, h);
    }
    FreeOwners(chains, a);
    forall x: nat | 2 <= x < limit ensures Accounted(fat', chains', x) {
      assert Accounted(fat, chains, x);
    }
  }

  lemma ClearedFrame(fat: Fat, limit: nat, chains: Chains, a: nat, h: nat)
    requires limit <= |fat| && Disjoint(chains) && a in chains && h in chains && a != h
    requires ChainAt(fat, limit, chains, h)
    ensures IsChain(Cleared(fat, chains[a]), limit, chains[h])
  {
    var chain, fat' := chains[h], Cleared(fat, chains[a]);
    forall i | 0 <= i < |chain| && chain[i] < |fat| ensures fat'[chain[i]] == fat[chain[i]] {
      assert Owns(chains, h, chain[i]) && !Owns(chains, a, chain[i]);
    }
    ChainFrame(fat, limit, chain, fat');
  }

  lemma FreeOwners(chains: Chains, a: nat)
    requires Disjoint(chains) && a in chains
    ensures Disjoint(chains - {a})
    ensures forall x: nat :: x !in chains[a] && Owned(chains, x) ==> Owned(chains - {a}, x)
  {
    var chains' := chains - {a};
    forall g: nat, h: nat, x: nat | Owns(chains', g, x) && Owns(chains', h, x) ensures g == h {
      assert Owns(chains, g, x) && Owns(chains, h, x);
    }
    forall x: nat | x !in chains[a] && Owned(chains, x) ensures Owned(chains', x) {
      var h: nat :| Owns(chains, h, x);
      assert Owns(chains', h, x);
    }
  }

  lemma StepKeepsPartition(op: Op, fat: Fat, limit: nat, chains: Chains, fat': Fat, chains': Chains)
    requires Partition(fat, limit, chains) && Step(op, limit, fat, chains, fat', chains')
    ensures Partition(fat', limit, chains')
  {
    match op
    case Allocate =>
      var c: nat :| Allocates(fat, c, fat') && chains' == if 2 <= c < limit then chains[c := [c]] else chains;
      AllocatesInVolume(fat, limit, c, fat');
      if 2 <= c < limit {
        AllocateKeepsPartition(fat, limit, chains, c);
      } else {
        AllocateBeyond(fat, limit, chains, c, fat');
      }
    case Append(a, b) => AppendKeepsPartition(fat, limit, chains, a, b);
    case Free(a) => FreeKeepsPartition(fat, limit, chains, a);
  }

  datatype State = State(fat: Fat, chains: Chains)

  ghost predicate IsRun(ops: seq<Op>, limit: nat, run: seq<State>) {
    && |run| == |ops| + 1
    && forall i :: 0 <= i < |ops| ==>
         Step(ops[i], limit, run[i].fat, run[i].chains, run[i + 1].fat, run[i + 1].chains)
  }

  /** Whatever is allocated, appended and freed, the table stays a partition into free clusters
      and disjoint terminated chains. */
  lemma {:induction false} RunsKeepPartition(ops: seq<Op>, run: seq<State>, limit: nat, k: nat)
    requires IsRun(ops, limit, run) && Partition(run[0].fat, limit, run[0].chains) && k < |run|
    ensures Partition(run[k].fat, limit, run[k].chains)
  {
    if k > 0 {
      RunsKeepPartition(ops, run, limit, k - 1);
      StepKeepsPartition(ops[k - 1], run[k - 1].fat, limit, run[k - 1].chains, run[k].fat, run[k].chains);
    }
  }

  // ---- growing a file by a cluster ----

  /** `path` follows the links of the table from its first entry to one that ends a chain. */
  ghost predicate Walks(fat: Fat, path: seq<nat>) {
    && path != [] && (forall i :: 0 <= i < |path| ==> path[i] < |fat|)
    && (forall i: nat :: i < |path| - 1 ==> Link(fat, path, i) && fat[path[i]] < END_MIN)
    && fat[Last(path)] >= END_MIN
  }

  /** One round of `fat32_write` past the end of the file at `head`: allocate, then link the answer, whatever
      it is, behind the last cluster that the links lead to. */
  ghost predicate Extends(fat: Fat, head: nat, fat': Fat) {
    exists c: nat, mid: Fat, path: seq<nat> :: ExtendsBy(fat, head, fat', c, mid, path)
  }

  ghost predicate ExtendsBy(fat: Fat, head: nat, fat': Fat, c: nat, mid: Fat, path: seq<nat>) {
    Allocates(fat, c, mid) && Walks(mid, path) && path[0] == head && fat' == mid[Last(path) := c]
  }

  /** Two walks from the same entry agree as far as the table does. */
  lemma {:induction false} WalkPrefix(fat: Fat, p: seq<nat>, path: seq<nat>, n: nat)
    requires Walks(fat, path) && 0 < n <= |p| && p[0] == path[0]
    requires forall i: nat :: i < n - 1 ==> p[i] < |fat| && Link(fat, p, i) && fat[p[i]] < END_MIN
    ensures n <= |path| && p[..n] == path[..n]
  {
    if n > 1 {
      WalkPrefix(fat, p, path, n - 1);
      assert p[n - 2] == p[..n - 1][n - 2] == path[..n - 1][n - 2] == path[n - 2];
      assert Link(fat, p, n - 2);
      assert n - 1 < |path| && Link(fat, path, n - 2);
    }
  }

  lemma LastOfPrefix(p: seq<nat>, path: seq<nat>)
    requires 0 < |p| <= |path| && p == path[..|p|]
    ensures Last(p) == path[|p| - 1] && (|path| == |p| ==> path == p)
  {
  }

  lemma ChainWalks(fat: Fat, limit: nat, q: seq<nat>)
    requires limit <= |fat| && limit <= BAD_CLUSTER && IsChain(fat, limit, q)
    ensures Walks(fat, q)
  {
    forall i: nat | i < |q| - 1 ensures fat[q[i]] < END_MIN {
      assert Link(fat, q, i);
    }
  }

  /** A chain is what the walk from its head finds. */
  lemma WalkOfChain(fat: Fat, limit: nat, chain: seq<nat>, path: seq<nat>)
    requires limit <= |fat| && limit <= BAD_CLUSTER && IsChain(fat, limit, chain) && Walks(fat, path)
    requires path[0] == chain[0]
    ensures path == chain
  {
    hide IsChain;
    ChainWalks(fat, limit, chain);
    WalkPrefix(fat, chain, path, |chain|);
    assert chain[..|chain|] == chain;
    LastOfPrefix(chain, path);
  }

  /** The clusters of `p` still follow one another, but the last one leads out of the volume or to itself. */
  ghost predicate Strays(fat: Fat, limit: nat, p: seq<nat>) {
    && limit <= |fat| && limit <= BAD_CLUSTER && p != [] && InVolume(limit, p)
    && (forall i: nat :: i < |p| - 1 ==> Link(fat, p, i))
    && fat[Last(p)] < END_MIN && (fat[Last(p)] == Last(p) || !(2 <= fat[Last(p)] < limit))
  }

  /** A chain goes on inside the volume, to another cluster, until it ends. */
  lemma ChainGoesOn(fat: Fat, limit: nat, p: seq<nat>, q: seq<nat>)
    requires limit <= |fat| && limit <= BAD_CLUSTER && p != [] && InVolume(limit, p) && IsChain(fat, limit, q)
    requires p[0] == q[0]
    requires (forall i: nat :: i < |p| - 1 ==> Link(fat, p, i)) && fat[Last(p)] < END_MIN
    ensures 2 <= fat[Last(p)] < limit && fat[Last(p)] != Last(p)
  {
    ChainWalks(fat, limit, q);
    forall i: nat | i < |p| - 1 ensures p[i] < |fat| && fat[p[i]] < END_MIN {
      assert Link(fat, p, i);
    }
    WalkPrefix(fat, p, q, |p|);
    assert p[..|p|] == p;
    LastOfPrefix(p, q);
    assert Link(fat, q, |p| - 1);
  }

  /** A file that strays has no chain. */
  lemma StrayHasNoChain(fat: Fat, limit: nat, p: seq<nat>, chains: Chains)
    requires Strays(fat, limit, p) && p[0] in chains
    ensures !Partition(fat, limit, chains)
  {
    if Partition(fat, limit, chains) {
      assert ChainAt(fat, limit, chains, p[0]);
      ChainGoesOn(fat, limit, p, chains[p[0]]);
    }
  }

  /** Allocation leaves a stray file's links alone; it may take the last cluster for a free one. */
  lemma StrayAllocates(fat: Fat, limit: nat, p: seq<nat>, c: nat, mid: Fat)
    requires Strays(fat, limit, p) && Allocates(fat, c, mid)
    ensures |mid| == |fat| && forall i: nat :: i < |p| - 1 ==> p[i] < |mid| && Link(mid, p, i) && mid[p[i]] < END_MIN
    ensures mid[Last(p)] == fat[Last(p)] || (c == Last(p) && mid[Last(p)] >= END_MIN)
  {
    forall i: nat | i < |p| - 1 ensures p[i] < |mid| && Link(mid, p, i) && mid[p[i]] < END_MIN {
      assert Link(fat, p, i);
    }
  }

  /** No further round brings the file back. */
  lemma StrayStays(fat: Fat, limit: nat, p: seq<nat>, fat': Fat)
    requires Strays(fat, limit, p) && Extends(fat, p[0], fat')
    ensures Strays(fat', limit, p)
  {
    var c: nat, mid: Fat, path: seq<nat> :| ExtendsBy(fat, p[0], fat', c, mid, path);
    StrayAllocates(fat, limit, p, c, mid);
    hide Allocates;
    WalkPrefix(mid, p, path, |p|);
    assert p[..|p|] == p;
    LastOfPrefix(p, path);
    assert |p| < |path| ==> mid[path[|p| - 1]] < END_MIN;
    StrayLinks(fat, limit, p, mid, c, Last(path));
  }

  lemma StrayLinks(fat: Fat, limit: nat, p: seq<nat>, mid: Fat, c: nat, e: nat)
    requires Strays(fat, limit, p) && |mid| == |fat| && e < |mid| && mid[e] >= END_MIN
    requires forall i: nat :: i < |p| - 1 ==> p[i] < |mid| && Link(mid, p, i) && mid[p[i]] < END_MIN
    requires mid[Last(p)] == fat[Last(p)] || (c == Last(p) == e)
    ensures Strays(mid[e := c], limit, p)
  {
    var fat' := mid[e := c];
    forall i: nat | i < |p| - 1 ensures Link(fat', p, i) {
      assert Link(mid, p, i) && mid[p[i]] < END_MIN;
    }
  }

  /** A round on a volume with a free cluster appends it to the file. */
  lemma RoundGrows(fat: Fat, limit: nat, chains: Chains, a: nat, fat': Fat) returns (x: nat)
    requires Partition(fat, limit, chains) && a in chains && Extends(fat, a, fat') && FreeClusters(fat, limit) != {}
    ensures Partition(fat', limit, chains[a := chains[a] + [x]])
    ensures |FreeClusters(fat', limit)| == |FreeClusters(fat, limit)| - 1
  {
    var c: nat, mid: Fat, path: seq<nat> :| ExtendsBy(fat, a, fat', c, mid, path);
    AllocatesInVolume(fat, limit, c, mid);
    AllocateKeepsPartition(fat, limit, chains, c);
    var chains1 := chains[c := [c]];
    assert ChainAt(mid, limit, chains1, a);
    WalkOfChain(mid, limit, chains1[a], path);
    AppendKeepsPartition(mid, limit, chains1, a, c);
    AppendSingleton(chains, a, c);
    assert c in FreeClusters(fat, limit);
    x := c;
  }

  /** A round on a volume without one sends the file astray. */
  lemma RoundStrays(fat: Fat, limit: nat, chains: Chains, a: nat, fat': Fat)
    requires Partition(fat, limit, chains) && a in chains && Extends(fat, a, fat') && FreeClusters(fat, limit) == {}
    ensures Strays(fat', limit, chains[a]) && chains[a][0] == a
  {
    var c: nat, mid: Fat, path: seq<nat> :| ExtendsBy(fat, a, fat', c, mid, path);
    AllocatesInVolume(fat, limit, c, mid);
    AllocateBeyond(fat, limit, chains, c, mid);
    assert ChainAt(mid, limit, chains, a) && c < END_MIN;
    hide Partition, Walks, Strays, IsChain;
    WalkOfChain(mid, limit, chains[a], path);
    LinkOutStrays(mid, limit, chains[a], c);
  }

  lemma LinkOutStrays(fat: Fat, limit: nat, p: seq<nat>, c: nat)
    requires limit <= |fat| && limit <= BAD_CLUSTER && IsChain(fat, limit, p) && !(2 <= c < limit) && c < END_MIN
    ensures Strays(fat[Last(p) := c], limit, p)
  {
    var fat' := fat[Last(p) := c];
    forall i: nat | i < |p| - 1 ensures Link(fat', p, i) {
      assert Link(fat, p, i);
    }
  }

  ghost predicate HasChain(fat: Fat, limit: nat, head: nat) {
    exists chains: Chains :: head in chains && Partition(fat, limit, chains)
  }

  ghost predicate AreRounds(fats: seq<Fat>, head: nat) {
    fats != [] && forall i :: 0 <= i < |fats| - 1 ==> Extends(fats[i], head, fats[i + 1])
  }

  /** Growing a file by any number of clusters leaves it a chain if and only if the volume had that many free. */
  lemma {:induction false} RoundsExact(fats: seq<Fat>, limit: nat, chains: Chains, a: nat)
    requires AreRounds(fats, a) && Partition(fats[0], limit, chains) && a in chains
    ensures HasChain(fats[|fats| - 1], limit, a) <==> |fats| - 1 <= |FreeClusters(fats[0], limit)|
    decreases |fats|
  {
    if |fats| > 1 {
      var rest := fats[1..];
      assert Extends(fats[0], a, fats[1]);
      assert AreRounds(rest, a) by { RoundsTail(fats, a); }
      if FreeClusters(fats[0], limit) != {} {
        var x := RoundGrows(fats[0], limit, chains, a, fats[1]);
        RoundsExact(rest, limit, chains[a := chains[a] + [x]], a);
      } else {
        RoundStrays(fats[0], limit, chains, a, fats[1]);
        StraysOn(rest, limit, chains[a]);
      }
    }
  }

  lemma RoundsTail(fats: seq<Fat>, a: nat)
    requires AreRounds(fats, a) && |fats| > 1
    ensures AreRounds(fats[1..], a)
  {
    var rest := fats[1..];
    forall i | 0 <= i < |rest| - 1 ensures Extends(rest[i], a, rest[i + 1]) {
      assert Extends(fats[i + 1], a, fats[i + 2]);
    }
  }

  lemma {:induction false} StraysOn(fats: seq<Fat>, limit: nat, p: seq<nat>)
    requires fats != [] && Strays(fats[0], limit, p) && AreRounds(fats, p[0])
    ensures !HasChain(fats[|fats| - 1], limit, p[0])
    decreases |fats|
  {
    if |fats| > 1 {
      assert Extends(fats[0], p[0], fats[1]);
      StrayStays(fats[0], limit, p, fats[1]);
      RoundsTail(fats, p[0]);
      StraysOn(fats[1..], limit, p);
    } else {
      forall chains: Chains | p[0] in chains ensures !Partition(fats[0], limit, chains) {
        StrayHasNoChain(fats[0], limit, p, chains);
      }
    }
  }
}
