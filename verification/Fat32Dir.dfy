/** A directory as the bytes of its chain: 32-byte entries up to an end marker. Which entry a name
    resolves to, and what inserting and removing entries does to every name. */
module Fat32Dir {
  import opened Bytes
  import opened Fat32Names

  type Entry = e: seq<byte> | |e| == 32 witness seq(32, _ => 0)

  const ATTR_VOLUME_ID: byte := 0x08
  const ATTR_DIRECTORY: byte := 0x10
  const ATTR_LONG_NAME: byte := 0x0f

  predicate InDir(dir: seq<byte>, k: nat) {
    32 * k + 32 <= |dir|
  }

  function EntryAt(dir: seq<byte>, k: nat): (e: Entry)
    requires InDir(dir, k)
  {
    dir[32 * k..32 * k + 32]
  }

  predicate IsEnd(e: Entry) {
    e[0] == 0
  }

  predicate IsDeleted(e: Entry) {
    e[0] == DELETED
  }

  /** An entry the search compares with the wanted name. */
  predicate IsLive(e: Entry) {
    !IsEnd(e) && !IsDeleted(e) && e[11] != ATTR_LONG_NAME && e[11] != ATTR_VOLUME_ID
  }

  /** An entry whose name the search cannot read: its scan for the end of the base runs off the buffer. */
  predicate Blank(e: Entry) {
    IsLive(e) && !HasBase(e[..11])
  }

  /** The name the search compares, which ends at the first zero byte. */
  function EntryName(e: Entry): (name: CString) {
    Cut(FullName(e[..11]))
  }

  predicate Names(e: Entry, name: seq<byte>) {
    IsLive(e) && HasBase(e[..11]) && EntryName(e) == name
  }

  /** The search for `name` goes on to the next entry. */
  predicate Skips(e: Entry, name: seq<byte>) {
    !IsEnd(e) && !Blank(e) && !Names(e, name)
  }

  /** The entries that no name is found at: the deleted ones, the parts of long names and the volume label. */
  lemma SkippedByAll(e: Entry)
    ensures (forall n: CString :: Skips(e, n)) <==> e[0] != 0 && (e[0] == 0xE5 || e[11] == 0x0F || e[11] == 0x08)
  {
    assert Skips(e, EntryName(e)) ==> !IsLive(e);
  }

  /** The first cluster of the file an entry describes. */
  function EntryCluster(e: Entry): (c: nat) {
    (e[20] as int + 0x100 * e[21] as int) * 0x1_0000 + (e[26] as int + 0x100 * e[27] as int)
  }

  function EntrySize(e: Entry): (n: nat) {
    e[28] as int + 0x100 * (e[29] as int + 0x100 * (e[30] as int + 0x100 * e[31] as int))
  }

  /** The layout of an entry: the cluster's low half-word at byte 26 and its high one at byte 20, the size at byte 28,
      each with its low byte first. */
  lemma EntryLayout(e: Entry, k: nat)
    requires k < 4
    ensures Digit(EntryCluster(e), k) == [e[26], e[27], e[20], e[21]][k]
    ensures Digit(EntrySize(e), k) == e[28 + k]
  {
    hide Digit;
    DigitsOfFour(e[26], e[27], e[20], e[21], k);
    DigitsOfFour(e[28], e[29], e[30], e[31], k);
  }

  /** A zeroed entry with its name and first cluster filled in, as `fat32_file_create` builds it. */
  function NewEntry(raw: Raw, cluster: nat): (e: Entry)
    requires cluster < 0x1_0000_0000
    ensures e[..11] == raw && e[11] == 0 && EntryCluster(e) == cluster && EntrySize(e) == 0
    ensures forall i :: 11 <= i < 32 && i != 20 && i != 21 && i != 26 && i != 27 ==> e[i] == 0
  {
    var lo, hi := cluster % 0x1_0000, cluster / 0x1_0000;
    var e := raw + [0, 0, 0, 0, 0, 0, 0, 0, 0, hi % 0x100, hi / 0x100, 0, 0, 0, 0, lo % 0x100, lo / 0x100, 0, 0, 0, 0];
    assert e[..11] == raw;
    e
  }

  /** The search for `name` goes past every entry in `from ..< k`. */
  ghost predicate Passes(dir: seq<byte>, name: seq<byte>, from: nat, k: nat) {
    forall j: nat :: from <= j < k ==> InDir(dir, j) && Skips(EntryAt(dir, j), name)
  }

  /** From `from` on, `name` resolves to entry `k`. */
  ghost predicate FindsFrom(dir: seq<byte>, name: seq<byte>, from: nat, k: nat) {
    from <= k && Passes(dir, name, from, k) && InDir(dir, k) && Names(EntryAt(dir, k), name)
  }

  ghost predicate StopsAt(dir: seq<byte>, name: seq<byte>, from: nat, k: nat) {
    from <= k && Passes(dir, name, from, k) && (InDir(dir, k) ==> IsEnd(EntryAt(dir, k)))
  }

  /** From `from` on, no entry carries `name`. */
  ghost predicate AbsentFrom(dir: seq<byte>, name: seq<byte>, from: nat) {
    exists k: nat :: StopsAt(dir, name, from, k)
  }

  /** From `from` on, the search for `name` gets to entry `k`, which it cannot read. */
  ghost predicate OverrunsFrom(dir: seq<byte>, name: seq<byte>, from: nat, k: nat) {
    from <= k && Passes(dir, name, from, k) && InDir(dir, k) && Blank(EntryAt(dir, k))
  }

  ghost predicate Finds(dir: seq<byte>, name: seq<byte>, k: nat) {
    FindsFrom(dir, name, 0, k)
  }

  ghost predicate Absent(dir: seq<byte>, name: seq<byte>) {
    AbsentFrom(dir, name, 0)
  }

  ghost predicate Overruns(dir: seq<byte>, name: seq<byte>, k: nat) {
    OverrunsFrom(dir, name, 0, k)
  }

  /** How a search ends. */
  datatype Lookup = Hit(k: nat) | Miss | Crash(k: nat)

  ghost predicate Answers(dir: seq<byte>, name: seq<byte>, r: Lookup) {
    match r
    case Hit(k) => Finds(dir, name, k)
    case Miss => Absent(dir, name)
    case Crash(k) => Overruns(dir, name, k)
  }

  lemma FindsUnique(dir: seq<byte>, name: seq<byte>, from: nat, j: nat, k: nat)
    requires FindsFrom(dir, name, from, j)
    requires FindsFrom(dir, name, from, k) || StopsAt(dir, name, from, k) || OverrunsFrom(dir, name, from, k)
    ensures j == k && FindsFrom(dir, name, from, k)
  {
  }

  /** A search ends in exactly one way. */
  lemma LookupUnique(dir: seq<byte>, name: seq<byte>, r: Lookup, r': Lookup)
    requires Answers(dir, name, r) && Answers(dir, name, r')
    ensures r == r'
  {
    hide EntryName;
    if r.Miss? || r'.Miss? {
      var s: nat :| StopsAt(dir, name, 0, s);
    }
  }

  /** Every search ends: the name resolves, is absent, or the search gets to an entry it cannot read. */
  lemma {:induction false} FindsOrAbsent(dir: seq<byte>, name: seq<byte>, from: nat)
    ensures
      || AbsentFrom(dir, name, from)
      || (exists k: nat :: FindsFrom(dir, name, from, k))
      || (exists k: nat :: OverrunsFrom(dir, name, from, k))
    decreases |dir| - 32 * from
  {
    hide EntryName, HasBase;
    if !InDir(dir, from) || IsEnd(EntryAt(dir, from)) {
      assert StopsAt(dir, name, from, from);
    } else if Names(EntryAt(dir, from), name) {
      assert FindsFrom(dir, name, from, from);
    } else if Blank(EntryAt(dir, from)) {
      assert OverrunsFrom(dir, name, from, from);
    } else {
      var next := from + 1;
      FindsOrAbsent(dir, name, next);
      if AbsentFrom(dir, name, next) {
        var k: nat :| StopsAt(dir, name, next, k);
        assert StopsAt(dir, name, from, k);
      } else if exists k: nat :: FindsFrom(dir, name, next, k) {
        var k: nat :| FindsFrom(dir, name, next, k);
        assert FindsFrom(dir, name, from, k);
      } else {
        var k: nat :| OverrunsFrom(dir, name, next, k);
        assert OverrunsFrom(dir, name, from, k);
      }
    }
  }

  /** `k` is where a new entry goes: the first deleted or end entry, or just past the last one. */
  ghost predicate InsertsAt(dir: seq<byte>, k: nat) {
    && 32 * k <= |dir|
    && (forall j: nat :: j < k ==> InDir(dir, j) && !IsEnd(EntryAt(dir, j)) && !IsDeleted(EntryAt(dir, j)))
    && (InDir(dir, k) ==> IsEnd(EntryAt(dir, k)) || IsDeleted(EntryAt(dir, k)))
  }

  /** `after` agrees with `before` on every entry but number `k`, which is `e`. */
  ghost predicate Replaced(before: seq<byte>, after: seq<byte>, k: nat, e: Entry) {
    && |before| == |after| && InDir(after, k) && EntryAt(after, k) == e
    && forall j: nat :: j != k && InDir(before, j) ==> EntryAt(after, j) == EntryAt(before, j)
  }

  /** Removing entry `k` gives its place back: the next new entry goes there, or where it would have gone
      before if that is earlier. */
  lemma RemovalMakesRoom(before: seq<byte>, after: seq<byte>, k: nat, e: Entry, i: nat, j: nat)
    requires Replaced(before, after, k, e) && IsDeleted(e) && InsertsAt(before, i) && InsertsAt(after, j)
    ensures j == (if i < k then i else k) && InDir(after, j)
  {
    forall n: nat | n < i && n < k ensures EntryAt(after, n) == EntryAt(before, n) {
      assert InDir(before, n);
    }
    assert j <= k;
    if i < k {
      assert InDir(before, i) && EntryAt(after, i) == EntryAt(before, i);
    }
    assert j >= i || j >= k;
  }

  lemma SpliceReplaces(before: seq<byte>, after: seq<byte>, k: nat, e: Entry)
    requires InDir(before, k) && after == before[..32 * k] + e + before[32 * k + 32..]
    ensures Replaced(before, after, k, e)
  {
    forall j: nat | j != k && InDir(before, j) ensures EntryAt(after, j) == EntryAt(before, j) {
      if j < k {
        assert 32 * j + 32 <= 32 * k;
      } else {
        assert 32 * k + 32 <= 32 * j;
      }
      forall i | 0 <= i < 32 ensures EntryAt(after, j)[i] == EntryAt(before, j)[i] {
      }
    }
    assert after[32 * k..32 * k + 32] == e;
  }

  lemma PassesReplaced(before: seq<byte>, after: seq<byte>, k: nat, e: Entry, name: seq<byte>, from: nat, to: nat)
    requires Replaced(before, after, k, e) && Passes(before, name, from, to)
    requires from <= k < to ==> Skips(e, name)
    ensures Passes(after, name, from, to)
  {
    hide Skips;
    forall j: nat | from <= j < to ensures InDir(after, j) && Skips(EntryAt(after, j), name) {
      assert InDir(before, j) && Skips(EntryAt(before, j), name);
      assert j != k ==> EntryAt(after, j) == EntryAt(before, j);
    }
  }

  /** Past the inserted entry, the directory is what lies beyond it. */
  lemma PassesJoin(dir: seq<byte>, name: seq<byte>, a: nat, b: nat, c: nat)
    requires Passes(dir, name, a, b) && Passes(dir, name, b, c)
    ensures Passes(dir, name, a, c)
  {
  }

  /** Whatever does not get past the new entry ends as before. */
  lemma InsertKeeps(stale: seq<byte>, after: seq<byte>, k: nat, e: Entry, name: seq<byte>, j: nat)
    requires Replaced(stale, after, k, e) && (k < j ==> Skips(e, name)) && j != k
    ensures Finds(stale, name, j) ==> Finds(after, name, j) && EntryAt(after, j) == EntryAt(stale, j)
    ensures Overruns(stale, name, j) ==> Overruns(after, name, j)
  {
    if Passes(stale, name, 0, j) {
      PassesReplaced(stale, after, k, e, name, 0, j);
    }
  }

  /** Replacing a deleted entry makes no other name appear. */
  lemma InsertOverDeleted(stale: seq<byte>, after: seq<byte>, k: nat, e: Entry, name: seq<byte>)
    requires Replaced(stale, after, k, e) && Skips(e, name)
    requires InDir(stale, k) && IsDeleted(EntryAt(stale, k)) && Absent(stale, name)
    ensures Absent(after, name)
  {
    var s: nat :| StopsAt(stale, name, 0, s);
    assert s != k;
    PassesReplaced(stale, after, k, e, name, 0, s);
    assert StopsAt(after, name, 0, s);
  }

  /** Replacing the end marker, or filling a cluster added for the purpose, uncovers what lies
      behind: another absent name stays absent exactly if nothing there carries it. */
  lemma InsertOverEnd(stale: seq<byte>, after: seq<byte>, k: nat, e: Entry, name: seq<byte>)
    requires Replaced(stale, after, k, e) && Skips(e, name)
    requires Passes(stale, name, 0, k)
    ensures Absent(after, name) <==> AbsentFrom(stale, name, k + 1)
  {
    PassesReplaced(stale, after, k, e, name, 0, k);
    assert Passes(after, name, 0, k + 1);
    assert Replaced(after, stale, k, EntryAt(stale, k));
    if AbsentFrom(stale, name, k + 1) {
      var s: nat :| StopsAt(stale, name, k + 1, s);
      PassesReplaced(stale, after, k, e, name, k + 1, s);
      PassesJoin(after, name, 0, k + 1, s);
      assert StopsAt(after, name, 0, s);
    }
    if Absent(after, name) {
      var s: nat :| StopsAt(after, name, 0, s);
      assert s > k;
      PassesReplaced(after, stale, k, EntryAt(stale, k), name, k + 1, s);
      assert StopsAt(stale, name, k + 1, s);
    }
  }

  lemma ZeroTailIsAbsent(stale: seq<byte>, name: seq<byte>, k: nat)
    requires InDir(stale, k) ==> IsEnd(EntryAt(stale, k))
    ensures AbsentFrom(stale, name, k)
  {
    assert StopsAt(stale, name, k, k);
  }

  /** Marking entry `k` deleted: every other name resolves as before. */
  lemma RemoveKeeps(before: seq<byte>, after: seq<byte>, k: nat, e: Entry, name: seq<byte>, j: nat)
    requires Replaced(before, after, k, e) && IsDeleted(e) && j != k
    ensures Finds(before, name, j) ==> Finds(after, name, j) && EntryAt(after, j) == EntryAt(before, j)
    ensures Overruns(before, name, j) ==> Overruns(after, name, j)
  {
    InsertKeeps(before, after, k, e, name, j);
  }

  lemma RemoveKeepsAbsent(before: seq<byte>, after: seq<byte>, k: nat, e: Entry, name: seq<byte>)
    requires Replaced(before, after, k, e) && IsDeleted(e)
    requires InDir(before, k) && !IsEnd(EntryAt(before, k)) && Absent(before, name)
    ensures Absent(after, name)
  {
    var s: nat :| StopsAt(before, name, 0, s);
    PassesReplaced(before, after, k, e, name, 0, s);
    assert StopsAt(after, name, 0, s);
  }

  /** The removed name is gone exactly if no later entry carries it too. */
  lemma RemoveIsAbsent(before: seq<byte>, after: seq<byte>, k: nat, e: Entry, name: seq<byte>)
    requires Replaced(before, after, k, e) && IsDeleted(e) && Finds(before, name, k)
    ensures Absent(after, name) <==> AbsentFrom(before, name, k + 1)
  {
    EraseUncovers(before, after, k, e, name);
  }

  lemma PassesPrefix(dir: seq<byte>, longer: seq<byte>, name: seq<byte>, from: nat, to: nat)
    requires dir <= longer && Passes(dir, name, from, to)
    ensures Passes(longer, name, from, to)
  {
    hide Skips;
    forall j: nat | from <= j < to ensures InDir(longer, j) && Skips(EntryAt(longer, j), name) {
      assert InDir(dir, j) && Skips(EntryAt(dir, j), name);
      assert EntryAt(longer, j) == EntryAt(dir, j);
    }
  }

  lemma OutcomePrefix(dir: seq<byte>, longer: seq<byte>, name: seq<byte>, j: nat)
    requires dir <= longer
    ensures Finds(dir, name, j) ==> Finds(longer, name, j) && EntryAt(longer, j) == EntryAt(dir, j)
    ensures Overruns(dir, name, j) ==> Overruns(longer, name, j)
  {
    if InDir(dir, j) && Passes(dir, name, 0, j) {
      PassesPrefix(dir, longer, name, 0, j);
      assert EntryAt(longer, j) == EntryAt(dir, j);
    }
  }

  /** What happens to a name whose search goes past the entry that was inserted: `stale` is the directory with the
      bytes that lay behind it, `after` the result. */
  ghost predicate InsertLaw(dir: seq<byte>, stale: seq<byte>, after: seq<byte>, k: nat, n: seq<byte>) {
    && (forall j: nat :: Finds(dir, n, j) ==>
          Finds(after, n, j) && InDir(dir, j) && EntryAt(after, j) == EntryAt(dir, j))
    && (forall j: nat :: Overruns(dir, n, j) ==> Overruns(after, n, j))
    && (Absent(dir, n) ==>
          (Absent(after, n) <==> (InDir(dir, k) && IsDeleted(EntryAt(dir, k))) || AbsentFrom(stale, n, k + 1)))
  }

  lemma InsertObeys(dir: seq<byte>, stale: seq<byte>, after: seq<byte>, k: nat, e: Entry, n: seq<byte>)
    requires dir <= stale && |dir| % 32 == 0 && (InDir(dir, k) ==> stale == dir)
    requires InsertsAt(dir, k) && Replaced(stale, after, k, e) && Skips(e, n)
    ensures InsertLaw(dir, stale, after, k, n)
  {
    forall j: nat
      ensures Finds(dir, n, j) ==> Finds(after, n, j) && InDir(dir, j) && EntryAt(after, j) == EntryAt(dir, j)
      ensures Overruns(dir, n, j) ==> Overruns(after, n, j)
    {
      if Finds(dir, n, j) || Overruns(dir, n, j) {
        OutcomePrefix(dir, stale, n, j);
        InsertKeeps(stale, after, k, e, n, j);
      }
    }
    if Absent(dir, n) {
      if InDir(dir, k) && IsDeleted(EntryAt(dir, k)) {
        InsertOverDeleted(stale, after, k, e, n);
      } else {
        var s: nat :| StopsAt(dir, n, 0, s);
        assert s >= k;
        PassesPrefix(dir, stale, n, 0, k);
        InsertOverEnd(stale, after, k, e, n);
      }
    }
  }

  /** The search for `n` gets to entry `k`. */
  ghost predicate Reaches(dir: seq<byte>, n: seq<byte>, k: nat) {
    forall j: nat :: j < k ==> !Finds(dir, n, j) && !Overruns(dir, n, j)
  }

  lemma {:induction false} ReachesPasses(dir: seq<byte>, n: seq<byte>, k: nat, i: nat)
    requires Reaches(dir, n, k) && i <= k && forall j: nat :: j < k ==> InDir(dir, j) && !IsEnd(EntryAt(dir, j))
    ensures Passes(dir, n, 0, i)
    decreases i
  {
    if i > 0 {
      ReachesPasses(dir, n, k, i - 1);
      assert !Finds(dir, n, i - 1) && !Overruns(dir, n, i - 1);
    }
  }

  /** Whatever a search came to before entry `k` it still comes to. */
  ghost predicate EarlierKept(dir: seq<byte>, after: seq<byte>, k: nat, n: seq<byte>) {
    forall j: nat :: j < k ==>
      && (Finds(dir, n, j) ==> Finds(after, n, j) && InDir(dir, j) && EntryAt(after, j) == EntryAt(dir, j))
      && (Overruns(dir, n, j) ==> Overruns(after, n, j))
  }

  /** The search for the inserted name comes to the new entry exactly if it came to nothing before that place, whether
      or not the directory had the name further on; so does every search if the new entry cannot be read. */
  lemma InsertResolves(dir: seq<byte>, stale: seq<byte>, after: seq<byte>, k: nat, e: Entry, n: seq<byte>)
    requires dir <= stale && InsertsAt(dir, k) && Replaced(stale, after, k, e)
    ensures EarlierKept(dir, after, k, n)
    ensures Names(e, n) ==> (Finds(after, n, k) <==> Reaches(dir, n, k))
    ensures Blank(e) ==> (Overruns(after, n, k) <==> Reaches(dir, n, k))
  {
    forall j: nat | j < k
      ensures Finds(dir, n, j) ==> Finds(after, n, j) && InDir(dir, j) && EntryAt(after, j) == EntryAt(dir, j)
      ensures Overruns(dir, n, j) ==> Overruns(after, n, j)
    {
      OutcomePrefix(dir, stale, n, j);
      InsertKeeps(stale, after, k, e, n, j);
    }
    if Reaches(dir, n, k) {
      ReachesPasses(dir, n, k, k);
      PassesPrefix(dir, stale, n, 0, k);
      PassesReplaced(stale, after, k, e, n, 0, k);
    }
  }

  /** What happens to every name when entry `k`, which `name` resolves to, is marked deleted. */
  ghost predicate RemoveLaw(before: seq<byte>, after: seq<byte>, k: nat, name: seq<byte>, n: seq<byte>) {
    if n == name then Absent(after, n) <==> AbsentFrom(before, n, k + 1)
    else
      && (forall j: nat :: Finds(before, n, j) ==> Finds(after, n, j) && EntryAt(after, j) == EntryAt(before, j))
      && (forall j: nat :: Overruns(before, n, j) ==> Overruns(after, n, j))
      && (Absent(before, n) ==> Absent(after, n))
  }

  lemma RemoveObeys(before: seq<byte>, after: seq<byte>, k: nat, e: Entry, name: seq<byte>, n: seq<byte>)
    requires Replaced(before, after, k, e) && IsDeleted(e) && Finds(before, name, k)
    ensures RemoveLaw(before, after, k, name, n)
  {
    if n == name {
      RemoveIsAbsent(before, after, k, e, name);
    } else {
      forall j: nat
        ensures Finds(before, n, j) ==> Finds(after, n, j) && EntryAt(after, j) == EntryAt(before, j)
        ensures Overruns(before, n, j) ==> Overruns(after, n, j)
      {
        if j != k {
          RemoveKeeps(before, after, k, e, n, j);
        }
      }
      if Absent(before, n) {
        RemoveKeepsAbsent(before, after, k, e, n);
      }
    }
  }

  /** Inserting an entry and deleting it again leaves every name as it was, except that one may appear that an
      entry behind the old end marker carries. */
  lemma InsertThenRemove(dir: seq<byte>, stale: seq<byte>, after: seq<byte>, last: seq<byte>, k: nat, e: Entry,
                         e': Entry, n: seq<byte>)
    requires dir <= stale && |dir| % 32 == 0 && (InDir(dir, k) ==> stale == dir) && InsertsAt(dir, k)
    requires Replaced(stale, after, k, e) && Replaced(after, last, k, e') && IsDeleted(e')
    ensures forall j: nat :: Finds(dir, n, j) ==> Finds(last, n, j) && EntryAt(last, j) == EntryAt(dir, j)
    ensures forall j: nat :: Overruns(dir, n, j) ==> Overruns(last, n, j)
    ensures Absent(dir, n) ==> (Absent(last, n) <==> AbsentFrom(stale, n, k + 1))
  {
    assert Replaced(stale, last, k, e');
    forall j: nat
      ensures Finds(dir, n, j) ==> Finds(last, n, j) && EntryAt(last, j) == EntryAt(dir, j)
      ensures Overruns(dir, n, j) ==> Overruns(last, n, j)
    {
      OutcomePrefix(dir, stale, n, j);
      if j != k {
        RemoveKeeps(stale, last, k, e', n, j);
      }
    }
    if Absent(dir, n) {
      var s: nat :| StopsAt(dir, n, 0, s);
      assert s >= k;
      PassesPrefix(dir, stale, n, 0, k);
      EraseUncovers(stale, last, k, e', n);
    }
  }

  lemma EraseUncovers(stale: seq<byte>, last: seq<byte>, k: nat, e: Entry, n: seq<byte>)
    requires Replaced(stale, last, k, e) && IsDeleted(e) && Passes(stale, n, 0, k)
    ensures Absent(last, n) <==> AbsentFrom(stale, n, k + 1)
  {
    PassesReplaced(stale, last, k, e, n, 0, k);
    assert Passes(last, n, 0, k + 1);
    assert Replaced(last, stale, k, EntryAt(stale, k));
    if AbsentFrom(stale, n, k + 1) {
      var s: nat :| StopsAt(stale, n, k + 1, s);
      PassesReplaced(stale, last, k, e, n, k + 1, s);
      PassesJoin(last, n, 0, k + 1, s);
      assert StopsAt(last, n, 0, s);
    }
    if Absent(last, n) {
      var s: nat :| StopsAt(last, n, 0, s);
      assert s > k;
      PassesReplaced(last, stale, k, EntryAt(stale, k), n, k + 1, s);
      assert StopsAt(stale, n, k + 1, s);
    }
  }

  // ---- paths through directories, which `dirs` gives by first cluster ----

  /** From the directory at `from`, the names of `path` lead one by one to `to`. */
  ghost predicate LeadsTo(dirs: map<nat, seq<byte>>, from: nat, path: seq<seq<byte>>, to: nat)
    decreases |path|
  {
    if path == [] then from == to
    else from in dirs && exists k: nat :: LeadsThrough(dirs, from, path, to, k)
  }

  ghost predicate LeadsThrough(dirs: map<nat, seq<byte>>, from: nat, path: seq<seq<byte>>, to: nat, k: nat)
    requires path != [] && from in dirs
    decreases |path|, 0
  {
    Finds(dirs[from], path[0], k) && LeadsTo(dirs, EntryCluster(EntryAt(dirs[from], k)), path[1..], to)
  }

  /** Exactly the first `n` names can be followed, and they lead to `to`. */
  ghost predicate StopsAfter(dirs: map<nat, seq<byte>>, from: nat, path: seq<seq<byte>>, n: nat, to: nat) {
    n < |path| && LeadsTo(dirs, from, path[..n], to) && to in dirs && Absent(dirs[to], path[n])
  }

  /** The first `n` names can be followed, and the search for the next one gets to an entry it cannot read. */
  ghost predicate CrashesAfter(dirs: map<nat, seq<byte>>, from: nat, path: seq<seq<byte>>, n: nat, to: nat) {
    && n < |path| && LeadsTo(dirs, from, path[..n], to) && to in dirs
    && exists k: nat :: Overruns(dirs[to], path[n], k)
  }

  lemma LeadsNowhere(dirs: map<nat, seq<byte>>, from: nat)
    ensures LeadsTo(dirs, from, [], from)
  {
  }

  /** A path leads to at most one place. */
  lemma {:induction false} LeadsUnique(dirs: map<nat, seq<byte>>, from: nat, path: seq<seq<byte>>, a: nat, b: nat)
    requires LeadsTo(dirs, from, path, a) && LeadsTo(dirs, from, path, b)
    ensures a == b
    decreases |path|
  {
    hide FindsFrom, EntryCluster;
    if path != [] {
      var j: nat :| LeadsThrough(dirs, from, path, a, j);
      var k: nat :| LeadsThrough(dirs, from, path, b, k);
      FindsUnique(dirs[from], path[0], 0, j, k);
      LeadsUnique(dirs, EntryCluster(EntryAt(dirs[from], k)), path[1..], a, b);
    }
  }

  lemma {:induction false} LeadsOn(dirs: map<nat, seq<byte>>, from: nat, path: seq<seq<byte>>, mid: nat,
                                   name: seq<byte>, k: nat)
    requires LeadsTo(dirs, from, path, mid) && mid in dirs && Finds(dirs[mid], name, k)
    ensures LeadsTo(dirs, from, path + [name], EntryCluster(EntryAt(dirs[mid], k)))
    decreases |path|
  {
    hide EntryCluster, FindsFrom;
    FindsInDir(dirs[mid], name, k);
    var to := EntryCluster(EntryAt(dirs[mid], k));
    var longer := path + [name];
    if path == [] {
      assert longer[1..] == [] && longer[0] == name;
      LeadsNowhere(dirs, to);
      assert LeadsThrough(dirs, from, longer, to, k);
    } else {
      var j := LeadsFirst(dirs, from, path, mid);
      LeadsOn(dirs, EntryCluster(EntryAt(dirs[from], j)), path[1..], mid, name, k);
      assert longer[1..] == path[1..] + [name] && longer[0] == path[0];
      assert LeadsThrough(dirs, from, longer, to, j);
    }
  }

  lemma FindsInDir(dir: seq<byte>, name: seq<byte>, k: nat)
    requires Finds(dir, name, k)
    ensures InDir(dir, k) && Names(EntryAt(dir, k), name)
  {
  }

  lemma LeadsFirst(dirs: map<nat, seq<byte>>, from: nat, path: seq<seq<byte>>, to: nat) returns (k: nat)
    requires path != [] && LeadsTo(dirs, from, path, to)
    ensures from in dirs && Finds(dirs[from], path[0], k) && InDir(dirs[from], k)
    ensures LeadsTo(dirs, EntryCluster(EntryAt(dirs[from], k)), path[1..], to)
  {
    k :| LeadsThrough(dirs, from, path, to, k);
  }

  /** A path of which only the first `n` names can be followed leads nowhere. */
  lemma {:induction false} StopsOrLeads(dirs: map<nat, seq<byte>>, from: nat, path: seq<seq<byte>>, n: nat, stop: nat,
                                        to: nat)
    requires StopsAfter(dirs, from, path, n, stop) || CrashesAfter(dirs, from, path, n, stop)
    ensures !LeadsTo(dirs, from, path, to)
    decreases n
  {
    hide EntryCluster, FindsFrom, AbsentFrom, OverrunsFrom;
    if LeadsTo(dirs, from, path, to) {
      var k := LeadsFirst(dirs, from, path, to);
      if n == 0 {
        FindsExcludesAbsent(dirs[from], path[0], k);
      } else {
        var first := path[..n];
        assert first[0] == path[0] && first[1..] == path[1..][..n - 1] && path[1..][n - 1] == path[n];
        var j := LeadsFirst(dirs, from, first, stop);
        FindsUnique(dirs[from], path[0], 0, j, k);
        StopsOrLeads(dirs, EntryCluster(EntryAt(dirs[from], k)), path[1..], n - 1, stop, to);
      }
    }
  }

  lemma FindsExcludesAbsent(dir: seq<byte>, name: seq<byte>, k: nat)
    requires Finds(dir, name, k)
    ensures !Absent(dir, name) && forall j: nat :: !Overruns(dir, name, j)
  {
    if Absent(dir, name) {
      LookupUnique(dir, name, Hit(k), Miss);
    }
    forall j: nat ensures !Overruns(dir, name, j) {
      if Overruns(dir, name, j) {
        LookupUnique(dir, name, Hit(k), Crash(j));
      }
    }
  }

  /** In directory `h`, the names of `path` resolve to the same clusters in `dirs'`, but for entries that lead to
      `avoid`. */
  ghost predicate DirKept(dirs: map<nat, seq<byte>>, dirs': map<nat, seq<byte>>, avoid: set<nat>, h: nat,
                          path: seq<seq<byte>>)
    requires h in dirs
  {
    h in dirs' && forall n: seq<byte>, j: nat :: n in path ==> FindKept(dirs[h], dirs'[h], avoid, n, j)
  }

  ghost predicate FindKept(dir: seq<byte>, dir': seq<byte>, avoid: set<nat>, n: seq<byte>, j: nat) {
    Finds(dir, n, j) && EntryCluster(EntryAt(dir, j)) !in avoid ==>
      Finds(dir', n, j) && EntryCluster(EntryAt(dir', j)) == EntryCluster(EntryAt(dir, j))
  }

  /** Paths that stay away from `avoid` lead where they led. */
  lemma {:induction false} PathsKept(dirs: map<nat, seq<byte>>, dirs': map<nat, seq<byte>>, avoid: set<nat>,
                                     from: nat, path: seq<seq<byte>>, to: nat)
    requires LeadsTo(dirs, from, path, to) && to !in avoid && avoid !! dirs.Keys
    requires forall h :: h in dirs ==> DirKept(dirs, dirs', avoid, h, path)
    ensures LeadsTo(dirs', from, path, to)
    decreases |path|
  {
    hide EntryCluster, FindsFrom;
    if path != [] {
      var k := LeadsFirst(dirs, from, path, to);
      var next := EntryCluster(EntryAt(dirs[from], k));
      assert next !in avoid;
      assert path[0] in path && DirKept(dirs, dirs', avoid, from, path);
      assert FindKept(dirs[from], dirs'[from], avoid, path[0], k);
      forall h | h in dirs ensures DirKept(dirs, dirs', avoid, h, path[1..]) {
        DirKeptTail(dirs, dirs', avoid, h, path);
      }
      PathsKept(dirs, dirs', avoid, next, path[1..], to);
      assert LeadsThrough(dirs', from, path, to, k);
    }
  }

  lemma DirKeptTail(dirs: map<nat, seq<byte>>, dirs': map<nat, seq<byte>>, avoid: set<nat>, h: nat,
                    path: seq<seq<byte>>)
    requires path != [] && h in dirs && DirKept(dirs, dirs', avoid, h, path)
    ensures DirKept(dirs, dirs', avoid, h, path[1..])
  {
    hide FindKept;
    forall n: seq<byte>, j: nat | n in path[1..] ensures FindKept(dirs[h], dirs'[h], avoid, n, j) {
      assert n in path;
    }
  }
}
