/** The avail and used rings: free-running 16-bit indices, taken modulo the ring size. While fewer
    entries than slots are outstanding, the slots between two indices are a first-in first-out
    queue, across the wrap of the indices. */
module VirtRing {
  import opened DivMod

  const INDEX_LIMIT: nat := 0x1_0000

  /** `idx++` on a `uint16_t`. */
  function Succ(i: nat): (j: nat) {
    (i + 1) % INDEX_LIMIT
  }

  /** How far index `to` is ahead of index `from`. */
  function Ahead(from: nat, to: nat): (n: nat)
    requires from < INDEX_LIMIT && to < INDEX_LIMIT
    ensures n < INDEX_LIMIT
  {
    if from <= to then to - from else to + INDEX_LIMIT - from
  }

  /** Ring sizes the standard allows: powers of two, so they divide the index range. */
  ghost predicate RingSize(size: nat) {
    0 < size <= 256 && exists k: nat :: k * size == INDEX_LIMIT
  }

  /** Slot of the `i`th entry after index `from`. */
  function Slot(from: nat, i: nat, size: nat): (s: nat)
    requires size > 0
  {
    (from + i) % INDEX_LIMIT % size
  }

  /** The entries from index `from` up to index `to`. */
  ghost function Window(ring: seq<nat>, from: nat, to: nat): (w: seq<nat>)
    requires |ring| > 0 && from < INDEX_LIMIT && to < INDEX_LIMIT
    ensures |w| == Ahead(from, to)
  {
    seq(Ahead(from, to), i requires 0 <= i < Ahead(from, to) => ring[Slot(from, i, |ring|)])
  }

  lemma ModStep(x: nat, size: nat, k: nat)
    requires size > 0 && k * size == INDEX_LIMIT
    ensures x % INDEX_LIMIT % size == x % size
  {
    var q, r := x / INDEX_LIMIT, x % INDEX_LIMIT;
    assert x == q * (k * size) + r;
    assert q * (k * size) == (q * k) * size;
    var q2, r2 := r / size, r % size;
    assert r == q2 * size + r2;
    assert x == (q * k + q2) * size + r2 by {
      assert (q * k + q2) * size == (q * k) * size + q2 * size;
    }
    Quotient(x, size, q * k + q2, r2);
  }

  lemma ModsDiffer(a: nat, d: nat, m: nat)
    requires 0 < d < m
    ensures (a + d) % m != a % m
  {
    var q, r := a / m, a % m;
    if r + d < m {
      Quotient(a + d, m, q, r + d);
    } else {
      Distribute(q, -1, m);
      Quotient(a + d, m, q + 1, r + d - m);
    }
  }

  /** Entries less than a ring apart lie in different slots. */
  lemma SlotsDiffer(from: nat, i: nat, j: nat, size: nat)
    requires RingSize(size) && i < j < i + size
    ensures Slot(from, i, size) != Slot(from, j, size)
  {
    var k: nat :| k * size == INDEX_LIMIT;
    ModStep(from + i, size, k);
    ModStep(from + j, size, k);
    ModsDiffer(from + i, j - i, size);
  }

  /** Storing at index `to` and advancing it appends to the queue. */
  lemma WindowPush(ring: seq<nat>, from: nat, to: nat, x: nat)
    requires RingSize(|ring|) && from < INDEX_LIMIT && to < INDEX_LIMIT && Ahead(from, to) < |ring|
    ensures Window(ring[to % |ring| := x], from, Succ(to)) == Window(ring, from, to) + [x]
  {
    var n, size := Ahead(from, to), |ring|;
    var ring' := ring[to % size := x];
    assert (from + n) % INDEX_LIMIT == to;
    assert Slot(from, n, size) == to % size;
    assert Ahead(from, Succ(to)) == n + 1;
    forall i | 0 <= i < n ensures ring'[Slot(from, i, size)] == ring[Slot(from, i, size)] {
      SlotsDiffer(from, i, n, size);
    }
  }

  /** Reading at index `from` and advancing it takes the queue's first entry. */
  lemma WindowPop(ring: seq<nat>, from: nat, to: nat)
    requires |ring| > 0 && from < INDEX_LIMIT && to < INDEX_LIMIT && from != to
    ensures Window(ring, from, to) == [ring[from % |ring|]] + Window(ring, Succ(from), to)
  {
    var n, size := Ahead(from, to), |ring|;
    assert Ahead(Succ(from), to) == n - 1;
    assert Slot(from, 0, size) == from % size;
    forall i: nat | i < n - 1 ensures Slot(Succ(from), i, size) == Slot(from, i + 1, size) {
      SuccSlot(from, i, size);
    }
  }

  lemma SuccSlot(from: nat, i: nat, size: nat)
    requires from < INDEX_LIMIT && size > 0
    ensures Slot(Succ(from), i, size) == Slot(from, i + 1, size)
  {
    assert (Succ(from) + i) % INDEX_LIMIT == (from + i + 1) % INDEX_LIMIT;
  }
}
