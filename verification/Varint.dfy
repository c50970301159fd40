/**
 Base-128 varints ("Base 128 Varints" in the Protocol Buffers encoding guide): the bytes of a
 number, least significant group first, with the top bit set on every byte but the last.
 */
module Varint {
  import opened Words

  function Encode(n: nat): (s: seq<Byte>)
    ensures |s| >= 1
  {
    if n < 128 then [n] else [n % 128 + 128] + Encode(n / 128)
  }

  /** The number carried by the low seven bits of each byte. */
  function Payload(s: seq<Byte>): nat {
    if s == [] then 0 else s[0] % 128 + 128 * Payload(s[1..])
  }

  function Pow128(k: nat): (p: nat)
    ensures p > 0
  {
    if k == 0 then 1 else 128 * Pow128(k - 1)
  }

  /** `s[pos..pos + k]` is one varint: only its last byte has the top bit clear. */
  ghost predicate EndsAfter(s: seq<Byte>, pos: nat, k: nat) {
    && 1 <= k && pos + k <= |s|
    && s[pos + k - 1] < 128
    && forall i :: pos <= i < pos + k - 1 ==> s[i] >= 128
  }

  lemma {:induction false} EncodeEnds(n: nat)
    ensures EndsAfter(Encode(n), 0, |Encode(n)|)
  {
    if n >= 128 {
      EncodeEnds(n / 128);
      var rest := Encode(n / 128);
      assert forall i :: 1 <= i < |Encode(n)| ==> Encode(n)[i] == rest[i - 1];
    }
  }

  lemma {:induction false} EncodeLength(n: nat, k: nat)
    requires k >= 1 && n < Pow128(k)
    ensures |Encode(n)| <= k
  {
    if n >= 128 {
      assert Pow128(k) == 128 * Pow128(k - 1) && Pow128(0) == 1;
      EncodeLength(n / 128, k - 1);
    }
  }

  lemma PowersOf128()
    ensures Pow128(1) == 0x80 && Pow128(2) == 0x4000 && Pow128(3) == 0x20_0000 && Pow128(4) == 0x1000_0000
    ensures Pow128(5) == 0x8_0000_0000 && Pow128(10) == 0x40_0000_0000_0000_0000
  {
    assert Pow128(2) == 0x4000;
    assert Pow128(4) == 0x1000_0000;
    assert Pow128(6) == 0x400_0000_0000;
    assert Pow128(8) == 0x100_0000_0000_0000;
  }

  /** A 64-bit number takes one to ten bytes, a 32-bit one at most five, and decoding undoes encoding. */
  lemma {:induction false} EncodeShape(n: nat)
    ensures EndsAfter(Encode(n), 0, |Encode(n)|)
    ensures n < 0x1_0000_0000 ==> |Encode(n)| <= 5
    ensures n < 0x1_0000_0000_0000_0000 ==> |Encode(n)| <= 10
    ensures Payload(Encode(n)) == n
  {
    EncodeEnds(n);
    PowersOf128();
    if n < 0x1_0000_0000 {
      EncodeLength(n, 5);
    }
    if n < 0x1_0000_0000_0000_0000 {
      EncodeLength(n, 10);
    }
    PayloadEncode(n);
  }

  lemma {:induction false} PayloadEncode(n: nat)
    ensures Payload(Encode(n)) == n
  {
    if n >= 128 {
      PayloadEncode(n / 128);
      assert Encode(n)[1..] == Encode(n / 128);
    } else {
      assert Payload([n]) == n % 128 + 128 * Payload([n][1..]);
    }
  }

  lemma {:induction false} PayloadConcat(s: seq<Byte>, t: seq<Byte>)
    ensures Payload(s + t) == Payload(s) + Pow128(|s|) * Payload(t)
  {
    if s == [] {
      assert s + t == t;
    } else {
      PayloadConcat(s[1..], t);
      assert (s + t)[1..] == s[1..] + t;
      assert 128 * (Pow128(|s| - 1) * Payload(t)) == Pow128(|s|) * Payload(t);
    }
  }

  lemma PayloadByte(x: Byte)
    ensures Payload([x]) == x % 128
  {
    assert Payload([x]) == x % 128 + 128 * Payload([x][1..]);
  }

  lemma PayloadAppend(s: seq<Byte>, x: Byte)
    ensures Payload(s + [x]) == Payload(s) + Pow128(|s|) * (x % 128)
  {
    hide Payload, Pow128;
    PayloadConcat(s, [x]);
    PayloadByte(x);
  }

  lemma {:induction false} PayloadBound(s: seq<Byte>)
    ensures Payload(s) < Pow128(|s|)
  {
    if s != [] {
      PayloadBound(s[1..]);
    }
  }

  /** A varint's end is unique. */
  lemma UniqueEnd(s: seq<Byte>, pos: nat, j: nat, k: nat)
    requires EndsAfter(s, pos, j) && EndsAfter(s, pos, k)
    ensures j == k
  {
  }

  /** An encoded number found inside a longer buffer is a varint there. */
  lemma EndsWithin(s: seq<Byte>, pos: nat, n: nat)
    requires pos + |Encode(n)| <= |s| && s[pos..pos + |Encode(n)|] == Encode(n)
    ensures EndsAfter(s, pos, |Encode(n)|)
  {
    hide Encode;
    EncodeEnds(n);
    var e := Encode(n);
    forall i | 0 <= i < |e| ensures s[pos + i] == e[i] {
      assert s[pos..pos + |e|][i] == e[i];
    }
  }

  // ----- reading a varint into words -----

  /** The low and the high word of a number modulo 2^64. */
  function Halves(p: nat): (Word, Word) {
    (U32(p), U32(p / 0x1_0000_0000))
  }

  lemma HalvesOfJoin(lo: Word, hi: Word)
    ensures Join(lo, hi) < 0x1_0000_0000_0000_0000
    ensures Halves(Join(lo, hi)) == (lo, hi)
  {
    Residue32(Join(lo, hi), hi, lo);
    Residue32(hi, 0, hi);
  }

  /** What the 32-bit reader returns for a varint of `k` bytes: six bytes or more are taken as signed. */
  function AsVarint32(p: nat, k: nat): int {
    if k <= 5 then U32(p) else ToInt32(p)
  }

  lemma SameInt32(p: nat, k: nat)
    ensures ToInt32(AsVarint32(p, k)) == ToInt32(p)
  {
    Residue32(U32(p), 0, U32(p));
  }

  /** One of the first four bytes: no word overflows yet. */
  lemma HalvesLowStep(s: seq<Byte>, x: Byte)
    requires |s| < 4
    ensures Halves(Payload(s)) == (Payload(s), 0)
    ensures Payload(s + [x]) == Payload(s) + (x % 128) * Pow128(|s|)
    ensures Halves(Payload(s + [x])) == (Payload(s + [x]), 0)
  {
    hide Payload, Pow128, Halves;
    PayloadAppend(s, x);
    PayloadBound(s);
    PayloadBound(s + [x]);
    SmallPowers(|s|);
    SmallPowers(|s| + 1);
    SmallHalves(Payload(s));
    SmallHalves(Payload(s + [x]));
  }

  lemma SmallHalves(p: nat)
    requires p < 0x1_0000_0000
    ensures Halves(p) == (p, 0)
  {
  }

  lemma SmallPowers(k: nat)
    ensures k <= 4 ==> Pow128(k) <= 0x1000_0000
    ensures 5 <= k <= 9 ==> Pow128(k) == 0x8_0000_0000 * Pow128(k - 5)
    ensures 5 <= k <= 9 ==> Pow128(k - 5) == [0x1, 0x80, 0x4000, 0x20_0000, 0x1000_0000][k - 5]
  {
    assert Pow128(0) == 1 && Pow128(1) == 0x80 && Pow128(2) == 0x4000;
    assert Pow128(3) == 0x20_0000 && Pow128(4) == 0x1000_0000;
    assert Pow128(5) == 0x8_0000_0000 && Pow128(6) == 0x8_0000_0000 * 0x80;
    assert Pow128(7) == 0x8_0000_0000 * 0x4000 && Pow128(8) == 0x8_0000_0000 * 0x20_0000;
    assert Pow128(9) == 0x8_0000_0000 * 0x1000_0000;
  }

  /** The fifth byte is shared between the two words. */
  lemma HalvesMiddleStep(s: seq<Byte>, x: Byte)
    requires |s| == 4
    ensures Halves(Payload(s)) == (Payload(s), 0) && Payload(s) < 0x1000_0000
    ensures Halves(Payload(s + [x])) == (Payload(s) + U32((x % 128) * 0x1000_0000), (x % 128) / 16)
  {
    hide Payload;
    PayloadAppend(s, x);
    PayloadBound(s);
    PowersOf128();
    SharedByte(Payload(s), x % 128);
  }

  lemma SharedByte(p: nat, y: nat)
    requires p < 0x1000_0000 && y < 128
    ensures Halves(p) == (p, 0)
    ensures Halves(p + 0x1000_0000 * y) == (p + U32(y * 0x1000_0000), y / 16)
  {
    Residue32(y * 0x1000_0000, y / 16, (y % 16) * 0x1000_0000);
    Residue32(p + 0x1000_0000 * y, y / 16, p + (y % 16) * 0x1000_0000);
  }

  /** The sixth to the tenth byte go to the high word; bits beyond the 64th fall off. */
  lemma HalvesHighStep(s: seq<Byte>, x: Byte)
    requires 5 <= |s| <= 9
    ensures var (lo, hi) := Halves(Payload(s));
      var w := U32((x % 128) * (8 * Pow128(|s| - 5)));
      hi + w < 0x1_0000_0000 && Halves(Payload(s + [x])) == (lo, hi + w)
  {
    hide Payload, Halves;
    PayloadAppend(s, x);
    PayloadBound(s);
    SmallPowers(|s|);
    var w := Pow128(|s| - 5);
    HighWord(Payload(s), x % 128, w);
  }

  lemma HighWord(p: nat, y: nat, w: nat)
    requires w in [0x1, 0x80, 0x4000, 0x20_0000, 0x1000_0000] && p < 0x8_0000_0000 * w && y < 128
    ensures var (lo, hi) := Halves(p);
      hi + U32(y * (8 * w)) < 0x1_0000_0000
      && Halves(p + 0x8_0000_0000 * w * y) == (lo, hi + U32(y * (8 * w)))
  {
    var lo, h := p % 0x1_0000_0000, p / 0x1_0000_0000;
    Residue32(h, 0, h);
    HighSum(h, y, w);
    var sum := h + y * (8 * w);
    assert p + 0x8_0000_0000 * w * y == sum * 0x1_0000_0000 + lo by {
      assert 0x8_0000_0000 * w * y == (y * (8 * w)) * 0x1_0000_0000;
    }
    Residue32(p + 0x8_0000_0000 * w * y, sum, lo);
  }

  lemma HighSum(h: nat, y: nat, w: nat)
    requires w in [0x1, 0x80, 0x4000, 0x20_0000, 0x1000_0000] && h < 8 * w && y < 128
    ensures h + U32(y * (8 * w)) == U32(h + y * (8 * w))
  {
    if w == 0x1000_0000 {
      Residue32(y * 0x8000_0000, y / 2, (y % 2) * 0x8000_0000);
      Residue32(h + y * 0x8000_0000, y / 2, h + (y % 2) * 0x8000_0000);
    } else {
      assert y * (8 * w) <= 127 * (8 * w);
      Residue32(y * (8 * w), 0, y * (8 * w));
      Residue32(h + y * (8 * w), 0, h + y * (8 * w));
    }
  }

  lemma PayloadFront(s: seq<Byte>)
    requires |s| >= 1
    ensures Payload(s) == s[0] % 128 + 128 * Payload(s[1..])
    ensures |s| == 1 ==> Payload(s) == s[0] % 128
  {
  }

  /** Group `i` of seven bits. */
  function Group(s: seq<Byte>, i: nat): (g: int)
    requires i < |s|
    ensures 0 <= g < 128
  {
    s[i] % 128
  }

  lemma PayloadFour(s: seq<Byte>)
    requires |s| >= 4
    ensures Payload(s) == Group(s, 0) + 0x80 * Group(s, 1) + 0x4000 * Group(s, 2) + 0x20_0000 * Group(s, 3) +
      0x1000_0000 * Payload(s[4..])
  {
    hide Payload;
    PayloadFront(s);
    PayloadFront(s[1..]);
    PayloadFront(s[2..]);
    PayloadFront(s[3..]);
    assert s[1..][1..] == s[2..] && s[2..][1..] == s[3..] && s[3..][1..] == s[4..];
  }

  lemma PayloadShort(s: seq<Byte>)
    requires 1 <= |s| <= 3
    ensures |s| == 1 ==> Payload(s) == Group(s, 0)
    ensures |s| == 2 ==> Payload(s) == Group(s, 0) + 0x80 * Group(s, 1)
    ensures |s| == 3 ==> Payload(s) == Group(s, 0) + 0x80 * Group(s, 1) + 0x4000 * Group(s, 2)
  {
    hide Payload;
    PayloadFront(s);
    if |s| >= 2 {
      PayloadFront(s[1..]);
      assert s[1..][1..] == s[2..];
    }
    if |s| == 3 {
      PayloadFront(s[2..]);
    }
  }

  /** The low 32 bits of a varint of five bytes or more come from its first five bytes. */
  lemma LowBits(s: seq<Byte>)
    requires |s| >= 5
    ensures U32(Payload(s)) == Group(s, 0) + 0x80 * Group(s, 1) + 0x4000 * Group(s, 2) + 0x20_0000 * Group(s, 3)
                            + 0x1000_0000 * (Group(s, 4) % 16)
  {
    hide Payload, U32;
    PayloadFour(s);
    PayloadFront(s[4..]);
    var low := Group(s, 0) + 0x80 * Group(s, 1) + 0x4000 * Group(s, 2) + 0x20_0000 * Group(s, 3) +
      0x1000_0000 * (Group(s, 4) % 16);
    Residue32(Payload(s), Group(s, 4) / 16 + 8 * Payload(s[4..][1..]), low);
  }

  // ----- stepping back over a varint -----

  /** 300 and 150 as protobuf's description of varints has them. */
  lemma Samples()
    ensures Encode(300) == [0xAC, 0x02] && Encode(150) == [0x96, 0x01]
  {
    assert Encode(2) == [2] && Encode(1) == [1];
  }

  /** How far `unskipVarint` moves back for a value: one byte for all up to 128, negative ones among them. */
  function UnskipDistance(a: int): nat
    decreases if a < 0 then 0 else a
  {
    if 128 < a then 1 + UnskipDistance(a / 128) else 1
  }

  /** The two leading base-128 digits of `a` are 1 and 0. */
  ghost predicate LeadsWith128(a: nat) {
    exists k: nat :: a / Pow128(k) == 128
  }

  /**
   Stepping back over a varint lands on its first byte exactly when the value does not lead with
   the digits 1, 0 in base 128; otherwise it stops one byte short.
   */
  lemma {:induction false} UnskipExact(a: nat)
    ensures UnskipDistance(a) == |Encode(a)| <==> !LeadsWith128(a)
    ensures LeadsWith128(a) ==> UnskipDistance(a) == |Encode(a)| - 1
  {
    if a > 128 {
      UnskipExact(a / 128);
      LeadsWith128Step(a);
    } else if a == 128 {
      assert a / Pow128(0) == 128;
      assert |Encode(128)| == 1 + |Encode(1)|;
    } else {
      forall k: nat ensures a / Pow128(k) != 128 {
        QuotientAtMost(a, Pow128(k));
      }
    }
  }

  /** The header of field 16 with wire type 0 takes two bytes, and stepping back over it goes back one. */
  lemma UnskipShort()
    ensures var header := 16 * 8 + 0; |Encode(header)| == 2 && UnskipDistance(header) == 1 && LeadsWith128(header)
  {
    assert Encode(1) == [1];
    assert Encode(128) == [128] + Encode(1);
    assert 128 / Pow128(0) == 128;
    UnskipExact(128);
  }

  /**
   Stepping back over a header, which comes as a signed number, lands on its first byte exactly when it is
   below 2^31 and does not lead with the digits 1, 0.  A header from 2^31 on takes five bytes, and the step
   back is one; the others that fail stop one byte short.
   */
  lemma UnskipHeaderExact(header: Word)
    ensures var distance := UnskipDistance(ToInt32(header));
      && (distance == |Encode(header)| <==> header < 0x8000_0000 && !LeadsWith128(header))
      && (header >= 0x8000_0000 ==> distance == 1 && |Encode(header)| == 5)
      && (header < 0x8000_0000 && LeadsWith128(header) ==> distance == |Encode(header)| - 1)
  {
    hide LeadsWith128;
    Residue32(header, 0, header);
    if header < 0x8000_0000 {
      UnskipExact(header);
    } else {
      FiveBytes(header);
    }
  }

  lemma FiveBytes(n: nat)
    requires 0x1000_0000 <= n < 0x8_0000_0000
    ensures |Encode(n)| == 5
  {
    assert |Encode(n)| == 1 + |Encode(n / 128)|;
    assert |Encode(n / 128)| == 1 + |Encode(n / 128 / 128)|;
    assert |Encode(n / 128 / 128)| == 1 + |Encode(n / 128 / 128 / 128)|;
    assert |Encode(n / 128 / 128 / 128)| == 1 + |Encode(n / 128 / 128 / 128 / 128)|;
  }

  /** The header of field 2^28 with wire type 0 takes five bytes, and the step back is one. */
  lemma UnskipNegative()
    ensures var header := 0x1000_0000 * 8 + 0;
      |Encode(header)| == 5 && !LeadsWith128(header) && UnskipDistance(ToInt32(header)) == 1
  {
    var header := 0x1000_0000 * 8 + 0;
    UnskipHeaderExact(header);
    assert UnskipDistance(8) == 1 && UnskipDistance(1024) == 2 && UnskipDistance(0x2_0000) == 3;
    assert UnskipDistance(0x100_0000) == 4 && UnskipDistance(header) == 5;
    UnskipExact(header);
  }

  lemma QuotientAtMost(a: nat, p: nat)
    requires p > 0
    ensures a / p <= a
  {
    var q := a / p;
    assert a == q * p + a % p;
    AtLeast(p, q);
  }

  lemma LeadsWith128Step(a: nat)
    requires a > 128
    ensures LeadsWith128(a) <==> LeadsWith128(a / 128)
  {
    if LeadsWith128(a) {
      var k: nat :| a / Pow128(k) == 128;
      assert k > 0;
      DivideTwice(a, Pow128(k - 1));
      assert a / 128 / Pow128(k - 1) == 128;
    }
    if LeadsWith128(a / 128) {
      var k: nat :| a / 128 / Pow128(k) == 128;
      DivideTwice(a, Pow128(k));
      assert a / Pow128(k + 1) == 128;
    }
  }

  lemma DivideTwice(a: nat, p: nat)
    requires p > 0
    ensures a / 128 / p == a / (128 * p)
  {
    var q, r := a / 128, a % 128;
    var q', r' := q / p, q % p;
    assert a == q' * (128 * p) + (128 * r' + r) by {
      assert q == q' * p + r';
      assert 128 * (q' * p) == q' * (128 * p);
    }
    assert 128 * r' + r < 128 * p;
    DivisionIsUnique(a, 128 * p, q', 128 * r' + r);
  }

  // ----- zigzag -----

  /** Zigzag order: 0, -1, 1, -2, 2, ... */
  function ZigZag(n: int): nat {
    if n >= 0 then 2 * n else -2 * n - 1
  }

  function UnZigZag(m: nat): int {
    if m % 2 == 0 then m / 2 else -(m / 2) - 1
  }

  /** Exclusive or with a mask of equal bits. */
  function Flip(x: Word, ones: bool): Word {
    if ones then 0xFFFF_FFFF - x else x
  }

  function ToInt32(x: int): (r: int)
    ensures -0x8000_0000 <= r < 0x8000_0000
    ensures U32(r) == U32(x)
  {
    var w := U32(x);
    if w >= 0x8000_0000 then w - 0x1_0000_0000 else w
  }

  function ZigZag32(a: int): Word
    requires -0x8000_0000 <= a < 0x8000_0000
  {
    Flip(U32(2 * a), a < 0)
  }

  function UnZigZag32(w: Word): int {
    if w % 2 == 1 then -(w / 2) - 1 else w / 2
  }

  /** The 32-bit shifts and masks compute zigzag order, and the two directions are mutual inverses. */
  lemma ZigZag32Inverse(a: int, w: Word)
    requires -0x8000_0000 <= a < 0x8000_0000
    ensures ZigZag32(a) == ZigZag(a) && UnZigZag32(ZigZag32(a)) == a
    ensures UnZigZag32(w) == UnZigZag(w) && -0x8000_0000 <= UnZigZag32(w) < 0x8000_0000
    ensures ZigZag32(UnZigZag32(w)) == w
  {
    Doubled(a);
    Doubled(UnZigZag32(w));
  }

  lemma Doubled(a: int)
    requires -0x8000_0000 <= a < 0x8000_0000
    ensures U32(2 * a) == if a < 0 then 0x1_0000_0000 + 2 * a else 2 * a
  {
    Residue32(2 * a, if a < 0 then 0 - 1 else 0, if a < 0 then 0x1_0000_0000 + 2 * a else 2 * a);
  }

  function ToZigZag64(lo: Word, hi: Word): (Word, Word) {
    var sign := hi >= 0x8000_0000;
    (Flip(U32(2 * lo), sign), Flip(U32(2 * hi) + lo / 0x8000_0000, sign))
  }

  function FromZigZag64(lo: Word, hi: Word): (Word, Word) {
    var odd := lo % 2 == 1;
    (Flip(lo / 2 + (hi % 2) * 0x8000_0000, odd), Flip(hi / 2, odd))
  }

  /** Splitting a signed number: magnitude first, then two's complement by hand. */
  function SplitInt64(v: int): (Word, Word) {
    var magnitude := if v < 0 then -v else v;
    var c: int := U32(magnitude);
    var a: int := U32((magnitude - c) / 0x1_0000_0000);
    if v < 0 then
      var a1, c1 := 0xFFFF_FFFF - a, 0xFFFF_FFFF - c + 1;
      if c1 > 0xFFFF_FFFF then (0, if a1 + 1 > 0xFFFF_FFFF then 0 else a1 + 1) else (c1, a1)
    else
      (c, a)
  }

  lemma SplitInt64Exact(v: int)
    requires -0x8000_0000_0000_0000 <= v < 0x8000_0000_0000_0000
    ensures var (lo, hi) := SplitInt64(v); Join(lo, hi) == Mod64(v) && Signed(lo, hi) == v
  {
    var m := if v < 0 then -v else v;
    Residue32(m, m / 0x1_0000_0000, m % 0x1_0000_0000);
    Residue32((m - m % 0x1_0000_0000) / 0x1_0000_0000, 0, m / 0x1_0000_0000);
    Residue64(v, if v < 0 then 0 - 1 else 0, if v < 0 then 0x1_0000_0000_0000_0000 + v else v);
  }

  lemma DoubledHalves(lo: Word, hi: Word)
    ensures U32(2 * lo) == 2 * lo - (lo / 0x8000_0000) * 0x1_0000_0000
    ensures U32(2 * hi) == 2 * hi - (hi / 0x8000_0000) * 0x1_0000_0000
  {
    Residue32(2 * lo, lo / 0x8000_0000, 2 * lo - (lo / 0x8000_0000) * 0x1_0000_0000);
    Residue32(2 * hi, hi / 0x8000_0000, 2 * hi - (hi / 0x8000_0000) * 0x1_0000_0000);
  }

  /** The 64-bit pair on split halves computes zigzag order, and back. */
  lemma ZigZag64Meaning(lo: Word, hi: Word)
    ensures var (a, b) := ToZigZag64(lo, hi); Join(a, b) == ZigZag(Signed(lo, hi))
    ensures var (a, b) := FromZigZag64(lo, hi); Signed(a, b) == UnZigZag(Join(lo, hi))
  {
    hide *;
    ToZigZag64Meaning(lo, hi);
    FromZigZag64Meaning(lo, hi);
  }

  lemma ToZigZag64Meaning(lo: Word, hi: Word)
    ensures var (a, b) := ToZigZag64(lo, hi); Join(a, b) == ZigZag(Signed(lo, hi))
  {
    hide U32;
    DoubledHalves(lo, hi);
    assert hi / 0x8000_0000 == if hi >= 0x8000_0000 then 1 else 0;
  }

  lemma FromZigZag64Meaning(lo: Word, hi: Word)
    ensures var (a, b) := FromZigZag64(lo, hi); Signed(a, b) == UnZigZag(Join(lo, hi))
  {
    hide Join;
    ParityOfJoin(lo, hi);
    var half := lo / 2 + (hi % 2) * 0x8000_0000;
    FlippedHalves(half, hi / 2);
  }

  lemma FlippedHalves(x: Word, y: Word)
    requires y < 0x8000_0000
    ensures Signed(Flip(x, true), Flip(y, true)) == -1 - Join(x, y) && Signed(x, y) == Join(x, y)
  {
  }

  lemma ParityOfJoin(lo: Word, hi: Word)
    ensures Join(lo, hi) % 2 == lo % 2
    ensures Join(lo, hi) / 2 == Join(lo / 2 + (hi % 2) * 0x8000_0000, hi / 2)
  {
  }

  lemma JoinInjective(lo: Word, hi: Word, lo': Word, hi': Word)
    ensures Join(lo, hi) == Join(lo', hi') ==> lo == lo' && hi == hi'
    ensures Signed(lo, hi) == Signed(lo', hi') ==> lo == lo' && hi == hi'
  {
  }

  lemma UnZigZagInverse(n: int, m: nat)
    ensures UnZigZag(ZigZag(n)) == n && ZigZag(UnZigZag(m)) == m
  {
  }

  /** Both directions are mutual inverses on every pair of halves. */
  lemma ZigZag64Inverse(lo: Word, hi: Word)
    ensures var (a, b) := ToZigZag64(lo, hi); FromZigZag64(a, b) == (lo, hi)
    ensures var (a, b) := FromZigZag64(lo, hi); ToZigZag64(a, b) == (lo, hi)
  {
    hide ToZigZag64, FromZigZag64, Join, Signed, ZigZag, UnZigZag;
    var there, back := ToZigZag64(lo, hi), FromZigZag64(lo, hi);
    ZigZag64Meaning(lo, hi);
    ZigZag64Meaning(there.0, there.1);
    ZigZag64Meaning(back.0, back.1);
    UnZigZagInverse(Signed(lo, hi), Join(lo, hi));
    var there', back' := FromZigZag64(there.0, there.1), ToZigZag64(back.0, back.1);
    JoinInjective(there'.0, there'.1, lo, hi);
    JoinInjective(back'.0, back'.1, lo, hi);
  }
}
