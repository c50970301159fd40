/**
 Unsigned 32-bit words and bytes, as the bundled JavaScript computes with them.
 On integers `x >>> 0` is `U32(x)`; on a word `x >>> k` is `x / 2^k` and
 `x & (2^k - 1)` is `x % 2^k`; `|` of numbers without common bits is `+`.
 */
module Words {
  type Word = x: int | 0 <= x < 0x1_0000_0000
  type Byte = x: int | 0 <= x < 256

  datatype Option<+T> = None | Some(value: T)

  /** The number that two halves stand for, without and with a sign. */
  function Join(lo: Word, hi: Word): nat {
    hi * 0x1_0000_0000 + lo
  }

  function Signed(lo: Word, hi: Word): int {
    if hi >= 0x8000_0000 then Join(lo, hi) - 0x1_0000_0000_0000_0000 else Join(lo, hi)
  }

  function Pow256(n: nat): (p: nat)
    ensures p > 0
  {
    if n == 0 then 1 else 256 * Pow256(n - 1)
  }

  /** All bytes of a list of runs. */
  function Concat(parts: seq<seq<Byte>>): seq<Byte> {
    if parts == [] then [] else parts[0] + Concat(parts[1..])
  }

  predicate NoRepeats(items: seq<string>) {
    forall i, j :: 0 <= i < j < |items| ==> items[i] != items[j]
  }

  function U32(x: int): Word {
    x % 0x1_0000_0000
  }

  function Mod64(x: int): (r: nat)
    ensures r < 0x1_0000_0000_0000_0000
  {
    x % 0x1_0000_0000_0000_0000
  }

  /** The remainder modulo 2^64 is the only residue in range. */
  lemma Residue64(x: int, q: int, r: int)
    requires x == q * 0x1_0000_0000_0000_0000 + r && 0 <= r < 0x1_0000_0000_0000_0000
    ensures Mod64(x) == r
  {
  }

  lemma Residue32(x: int, q: int, r: int)
    requires x == q * 0x1_0000_0000 + r && 0 <= r < 0x1_0000_0000
    ensures U32(x) == r && x / 0x1_0000_0000 == q
  {
  }

  lemma Congruent64(x: int, y: int, q: int)
    requires x == y + q * 0x1_0000_0000_0000_0000
    ensures Mod64(x) == Mod64(y)
  {
    Residue64(x, q + y / 0x1_0000_0000_0000_0000, Mod64(y));
  }

  /** Quotient and remainder are the only ones that fit. */
  lemma DivisionIsUnique(v: nat, a: nat, q: nat, r: nat)
    requires v == q * a + r && r < a
    ensures q == v / a && r == v % a
  {
    assert v == (v / a) * a + v % a;
    QuotientIsUnique(a, q, r, v / a, v % a);
  }

  lemma QuotientIsUnique(a: nat, q: int, r: nat, p: int, m: nat)
    requires q * a + r == p * a + m && r < a && m < a
    ensures q == p && r == m
  {
    assert (q - p) * a == m - r;
    if q > p {
      AtLeast(q - p, a);
    } else if q < p {
      AtLeast(p - q, a);
    }
  }

  lemma AtLeast(x: int, a: nat)
    requires x >= 1
    ensures x * a >= a
  {
  }

  lemma Distribute(x: int, y: int, z: int)
    ensures x * (y + z) == x * y + x * z
  {
  }

  lemma Assoc<T>(x: seq<T>, y: seq<T>, z: seq<T>)
    ensures (x + y) + z == x + (y + z)
  {
  }
}
