/** Bytes, 512-byte sectors and the little-endian 32-bit words stored in them. */
module Bytes {
  type byte = x: int | 0 <= x < 256

  const SECTOR_SIZE: nat := 512
  const WORDS_PER_SECTOR: nat := 128

  type Sector = s: seq<byte> | |s| == 512 witness seq(512, _ => 0)

  /** `memmove(s + at, data, |data|)`. */
  function Splice<T>(s: seq<T>, at: nat, data: seq<T>): (r: seq<T>)
    requires at + |data| <= |s|
    ensures |r| == |s|
    ensures forall k :: 0 <= k < |s| ==>
      r[k] == if at <= k < at + |data| then data[k - at] else s[k]
  {
    s[..at] + data + s[at + |data|..]
  }

  /** The `i`th `uint32_t` of a sector, as an x86 load sees it. */
  function Word(s: Sector, i: nat): (v: nat)
    requires i < WORDS_PER_SECTOR
    ensures v < 0x1_0000_0000
  {
    s[4 * i] as int + 0x100 * (s[4 * i + 1] as int + 0x100 * (s[4 * i + 2] as int + 0x100 * s[4 * i + 3] as int))
  }

  /** Digit `k` of a number to the base 256. */
  function Digit(v: nat, k: nat): (d: nat) {
    if k == 0 then v % 0x100 else Digit(v / 0x100, k - 1)
  }

  lemma DigitsOfFour(a: byte, b: byte, c: byte, d: byte, k: nat)
    requires k < 4
    ensures Digit(a as int + 0x100 * (b as int + 0x100 * (c as int + 0x100 * d as int)), k) == [a, b, c, d][k]
  {
    var v: nat := a as int + 0x100 * (b as int + 0x100 * (c as int + 0x100 * d as int));
    var v1: nat := b as int + 0x100 * (c as int + 0x100 * d as int);
    var v2: nat := c as int + 0x100 * d as int;
    assert v / 0x100 == v1 && v1 / 0x100 == v2 && v2 / 0x100 == d;
    assert Digit(v, 0) == a && Digit(v1, 0) == b && Digit(v2, 0) == c && Digit(d, 0) == d;
    assert Digit(v, 1) == Digit(v1, 0) && Digit(v, 2) == Digit(v1, 1) && Digit(v1, 1) == Digit(v2, 0);
    assert Digit(v, 3) == Digit(v1, 2) && Digit(v1, 2) == Digit(v2, 1) && Digit(v2, 1) == Digit(d, 0);
  }

  /** Words are stored low byte first. */
  lemma WordDigits(s: Sector, i: nat, k: nat)
    requires i < WORDS_PER_SECTOR && k < 4
    ensures Digit(Word(s, i), k) == s[4 * i + k]
  {
    DigitsOfFour(s[4 * i], s[4 * i + 1], s[4 * i + 2], s[4 * i + 3], k);
  }

  function WordBytes(v: nat): (b: seq<byte>)
    requires v < 0x1_0000_0000
    ensures |b| == 4
    ensures b[0] as int + 0x100 * (b[1] as int + 0x100 * (b[2] as int + 0x100 * b[3] as int)) == v
  {
    var v1 := v / 0x100;
    var v2 := v1 / 0x100;
    [v % 0x100, v1 % 0x100, v2 % 0x100, v2 / 0x100]
  }

  /** A 32-bit store into a sector buffer; the other 127 words keep their value. */
  function SetWord(s: Sector, i: nat, v: nat): (r: Sector)
    requires i < WORDS_PER_SECTOR && v < 0x1_0000_0000
    ensures forall j: nat :: j < WORDS_PER_SECTOR ==> Word(r, j) == if j == i then v else Word(s, j)
  {
    Splice(s, 4 * i, WordBytes(v))
  }
}
