/** Unsigned division by a divisor that is not a constant. `Div` and `Mod` are the machine's
    quotient and remainder (`DivModAreQuotientRemainder`), written by repeated subtraction. */
module DivMod {
  function Div(x: nat, m: nat): (q: nat)
    requires m > 0
  {
    if x < m then 0 else 1 + Div(x - m, m)
  }

  function Mod(x: nat, m: nat): (r: nat)
    requires m > 0
    ensures r < m
  {
    if x < m then x else Mod(x - m, m)
  }

  lemma {:induction false} DivModSplit(x: nat, m: nat)
    requires m > 0
    ensures x == Div(x, m) * m + Mod(x, m)
  {
    if x >= m {
      DivModSplit(x - m, m);
      Distribute(Div(x, m), 1, m);
    }
  }

  lemma DivModAreQuotientRemainder(x: nat, m: nat)
    requires m > 0
    ensures Div(x, m) == x / m && Mod(x, m) == x % m
  {
    DivModSplit(x, m);
    Quotient(x, m, Div(x, m), Mod(x, m));
  }

  lemma Quotient(x: int, m: int, q: int, r: int)
    requires m > 0 && x == q * m + r && 0 <= r < m
    ensures x / m == q && x % m == r
  {
    var k := q - x / m;
    Distribute(q, x / m, m);
    if k >= 1 {
      MulLeast(k, m);
    } else if k <= -1 {
      MulLeast(-k, m);
      Negate(k, m);
    }
  }

  lemma {:induction false} DivModUnique(x: nat, m: nat, q: nat, r: nat)
    requires m > 0 && x == q * m + r && r < m
    ensures Div(x, m) == q && Mod(x, m) == r
  {
    if q > 0 {
      MulLeast(q, m);
      Distribute(q, 1, m);
      DivModUnique(x - m, m, q - 1, r);
    }
  }

  /** Whole units shift the quotient and leave the remainder. */
  lemma DivModShift(x: nat, d: nat, m: nat)
    requires m > 0
    ensures Div(x + d * m, m) == Div(x, m) + d && Mod(x + d * m, m) == Mod(x, m)
  {
    DivModSplit(x, m);
    var shift: int := d;
    Distribute(Div(x, m), -shift, m);
    Negate(shift, m);
    DivModUnique(x + d * m, m, Div(x, m) + d, Mod(x, m));
  }

  /** Dividing by 512 and then by `s` is dividing by the product. */
  lemma DivDiv(x: nat, s: nat)
    requires s > 0
    ensures Div(x / 512, s) == Div(x, s * 512)
  {
    var q := x / 512;
    var n, t := Div(q, s), Mod(q, s);
    DivModSplit(q, s);
    assert x == n * s * 512 + (t * 512 + x % 512);
    assert n * s * 512 == n * (s * 512);
    DivModUnique(x, s * 512, n, t * 512 + x % 512);
  }

  /** The driver's copy step: up to the end of the current unit, or to `end` if that comes first. */
  function Chunk(pos: nat, end: nat, unit: nat): (n: nat)
    requires pos < end && unit > 0
    ensures 0 < n <= end - pos
    ensures Mod(pos, unit) + n <= unit
    ensures pos + n < end ==> Mod(pos, unit) + n == unit
  {
    ChunkFits(pos, end, unit);
    if Div(pos, unit) < Div(end, unit) then (Div(pos, unit) + 1) * unit - pos else end - pos
  }

  lemma ChunkFits(pos: nat, end: nat, unit: nat)
    requires pos < end && unit > 0
    ensures Div(pos, unit) < Div(end, unit) ==>
      (Div(pos, unit) + 1) * unit - pos == unit - Mod(pos, unit) <= end - pos
    ensures Div(pos, unit) >= Div(end, unit) ==> Mod(pos, unit) + (end - pos) <= unit
  {
    var q: int, e: int := Div(pos, unit), Div(end, unit);
    DivModSplit(pos, unit);
    DivModSplit(end, unit);
    Distribute(q, -1, unit);
    Distribute(e, q, unit);
    if q < e {
      MulLeast(e - q, unit);
    } else if q > e {
      MulLeast(q - e, unit);
      Negate(e - q, unit);
    }
  }

  lemma {:induction false} DivBelow(x: nat, m: nat, n: nat)
    requires m > 0
    ensures x < n * m <==> Div(x, m) < n
  {
    DivModSplit(x, m);
    var q: int := Div(x, m);
    Distribute(n, q, m);
    if q < n {
      MulLeast(n - q, m);
    } else if q > n {
      MulLeast(q - n, m);
      Negate(n - q, m);
    }
  }

  lemma MulLeast(a: int, m: int)
    requires a >= 1 && m >= 0
    ensures a * m >= m
  {
  }

  lemma Distribute(a: int, b: int, m: int)
    ensures (a - b) * m == a * m - b * m
  {
  }

  lemma Negate(a: int, m: int)
    ensures (-a) * m == -(a * m)
  {
  }
}
