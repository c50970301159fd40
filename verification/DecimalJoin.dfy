/**
 The second pair of 64-bit decimal conversions of the protobuf runtime: a join that never
 divides a 64-bit number, and a parser that multiplies an array of eight bytes in place.
 */
module DecimalJoin {
  import opened Words
  import opened Decimal
  import opened UInt64

  /** Three limbs of base 10^7, before carrying. */
  function RawLimbs(lo: Word, hi: Word): (limbs: (nat, nat, nat)) {
    var mid := (lo / 0x100_0000 + U32(hi * 256)) % 0x100_0000;
    var top := hi / 0x1_0000;
    (lo % 0x100_0000 + 6777216 * mid + 6710656 * top, mid + 8147497 * top, 2 * top)
  }

  function Carry(limbs: (nat, nat, nat)): (nat, nat, nat) {
    var (a, d, b) := limbs;
    var (a1, d1) := if 1_0000000 <= a then (a % 1_0000000, d + a / 1_0000000) else (a, d);
    if 1_0000000 <= d1 then (a1, d1 % 1_0000000, b + d1 / 1_0000000) else (a1, d1, b)
  }

  /** One limb; a later limb is padded to seven digits when an earlier one was printed. */
  function Chunk(f: nat, padded: bool): string {
    var s := if f == 0 then "" else Print(f);
    if padded then (if |s| <= 7 then "0000000"[|s|..] else "") + s else s
  }

  function JoinUnsigned(lo: Word, hi: Word): string {
    if hi <= 2097151 then
      Print(0x1_0000_0000 * hi + lo)
    else
      var (a, d, b) := Carry(RawLimbs(lo, hi));
      Chunk(b, false) + Chunk(d, b != 0) + Chunk(a, true)
  }

  function Negated(lo: Word, hi: Word): U64 {
    var a := U32(0 - lo);
    U64(a, U32(0 - hi - 1 + if a == 0 then 1 else 0))
  }

  function JoinSigned(lo: Word, hi: Word): string {
    if hi >= 0x8000_0000 then
      var m := Negated(lo, hi);
      "-" + JoinUnsigned(m.lo, m.hi)
    else
      JoinUnsigned(lo, hi)
  }

  function LimbValue(limbs: (nat, nat, nat)): nat {
    (limbs.2 * 1_0000000 + limbs.1) * 1_0000000 + limbs.0
  }

  /** The limbs lose nothing, stay exact as IEEE doubles, and end up below 10^7. */
  lemma LimbsExact(lo: Word, hi: Word)
    ensures var (a, d, b) := RawLimbs(lo, hi);
      a < 0x20_0000_0000_0000 && d + a / 1_0000000 < 0x20_0000_0000_0000
    ensures var limbs := Carry(RawLimbs(lo, hi));
      limbs.0 < 1_0000000 && limbs.1 < 1_0000000 && LimbValue(limbs) == U64(lo, hi).Value()
  {
    hide Carry;
    MiddleBits(lo, hi);
    CarryKeepsValue(RawLimbs(lo, hi));
  }

  lemma MiddleBits(lo: Word, hi: Word)
    ensures (lo / 0x100_0000 + U32(hi * 256)) % 0x100_0000 == lo / 0x100_0000 + (hi % 0x1_0000) * 256
  {
    hide U32;
    Residue32(hi * 256, hi / 0x100_0000, (hi % 0x100_0000) * 256);
    var q := hi / 0x1_0000 % 0x100;
    assert hi % 0x100_0000 == q * 0x1_0000 + hi % 0x1_0000;
  }

  lemma CarryKeepsValue(limbs: (nat, nat, nat))
    ensures LimbValue(Carry(limbs)) == LimbValue(limbs)
    ensures Carry(limbs).0 < 1_0000000 && Carry(limbs).1 < 1_0000000
  {
  }

  lemma ChunkIsBlock(f: nat)
    requires f < 1_0000000
    ensures Chunk(f, true) == Block(f, 7)
  {
    assert Pow10(7) == 1_0000000;
    PadIsBlock(f, 7);
    SevenZeros(|Digits(f)|);
  }

  lemma SevenZeros(k: nat)
    requires k <= 7
    ensures "0000000"[k..] == Zeros(7 - k)
  {
    ZerosAt(7 - k);
  }

  lemma {:induction false} ZerosAt(n: nat)
    ensures forall i :: 0 <= i < n ==> Zeros(n)[i] == '0'
  {
    if n > 0 {
      ZerosAt(n - 1);
    }
  }

  lemma AppendBlock(q: nat, r: nat, n: nat)
    requires 0 < q && r < 1_0000000 && n == q * 1_0000000 + r
    ensures Digits(n) == Digits(q) + Chunk(r, true)
  {
    hide Chunk, Digits;
    assert Pow10(7) == 1_0000000;
    DigitsSplit(q, r, 7);
    ChunkIsBlock(r);
  }

  lemma LeadingLimb(b: nat)
    requires b > 0
    ensures Chunk(b, false) == Digits(b)
  {
  }

  lemma JoinLimbs(a: nat, d: nat, b: nat, q: nat, n: nat)
    requires 0 < b && a < 1_0000000 && d < 1_0000000 && 0 < q
    requires q == b * 1_0000000 + d && n == q * 1_0000000 + a
    ensures Chunk(b, false) + Chunk(d, true) + Chunk(a, true) == Digits(n)
  {
    hide Chunk, Digits;
    LeadingLimb(b);
    AppendBlock(b, d, q);
    AppendBlock(q, a, n);
  }

  /** The fast join prints exactly the digits that repeated division by ten prints. */
  lemma JoinUnsignedIsDecimal(lo: Word, hi: Word)
    ensures JoinUnsigned(lo, hi) == Print(U64(lo, hi).Value())
  {
    hide RawLimbs, Carry, Chunk, Digits;
    if hi > 2097151 {
      LimbsExact(lo, hi);
      var limbs := Carry(RawLimbs(lo, hi));
      JoinLimbs(limbs.0, limbs.1, limbs.2, limbs.2 * 1_0000000 + limbs.1, U64(lo, hi).Value());
    }
  }

  lemma JoinSignedIsDecimal(lo: Word, hi: Word)
    ensures JoinSigned(lo, hi) == PrintSigned(I64(lo, hi).Value())
  {
    hide JoinUnsigned, Negated, Print, U64.Value;
    if hi >= 0x8000_0000 {
      NegatedHalves(lo, hi);
      var m := Negated(lo, hi);
      JoinUnsignedIsDecimal(m.lo, m.hi);
    } else {
      JoinUnsignedIsDecimal(lo, hi);
    }
  }

  /** Complementing both halves and carrying by hand negates the number. */
  lemma NegatedHalves(lo: Word, hi: Word)
    requires hi >= 0x8000_0000
    ensures Negated(lo, hi).Value() == 0x1_0000_0000_0000_0000 - U64(lo, hi).Value()
  {
    Residue32(0 - lo, if lo == 0 then 0 else 0 - 1, if lo == 0 then 0 else 0x1_0000_0000 - lo);
    var c := if U32(0 - lo) == 0 then 1 else 0;
    Residue32(0 - hi - 1 + c, 0 - 1, 0x1_0000_0000 - hi - 1 + c);
  }

  // ----- parsing into eight bytes -----

  /** Little-endian value of a run of bytes. */
  function LittleEndian(f: seq<Byte>): (v: nat) {
    if f == [] then 0 else f[0] + 256 * LittleEndian(f[1..])
  }

  lemma {:induction false} LittleEndianConcat(f: seq<Byte>, g: seq<Byte>)
    ensures LittleEndian(f + g) == LittleEndian(f) + Pow256(|f|) * LittleEndian(g)
  {
    if f == [] {
      assert f + g == g;
    } else {
      LittleEndianConcat(f[1..], g);
      assert (f + g)[1..] == f[1..] + g;
      assert 256 * (Pow256(|f| - 1) * LittleEndian(g)) == Pow256(|f|) * LittleEndian(g);
    }
  }

  lemma OneByte(x: Byte)
    ensures LittleEndian([x]) == x
  {
    assert [x][1..] == [];
  }

  lemma LittleEndianAppend(f: seq<Byte>, x: Byte)
    ensures LittleEndian(f + [x]) == LittleEndian(f) + Pow256(|f|) * x
  {
    LittleEndianConcat(f, [x]);
    OneByte(x);
  }

  lemma {:induction false} LittleEndianBound(f: seq<Byte>)
    ensures LittleEndian(f) < Pow256(|f|)
  {
    if f != [] {
      LittleEndianBound(f[1..]);
    }
  }

  lemma Nothing()
    ensures LittleEndian([]) == 0 && Pow256(0) == 1
  {
  }

  lemma EightBytes()
    ensures Pow256(4) == 0x1_0000_0000 && Pow256(8) == 0x1_0000_0000_0000_0000
  {
    assert Pow256(2) == 0x1_0000;
    assert Pow256(4) == 0x1_0000_0000;
    assert Pow256(6) == 0x1_0000_0000_0000;
  }

  lemma {:induction false} ZeroBytes(f: seq<Byte>)
    requires forall i :: 0 <= i < |f| ==> f[i] == 0
    ensures LittleEndian(f) == 0
  {
    if f != [] {
      ZeroBytes(f[1..]);
    }
  }

  /** What is added in effect: when the first byte falls below zero, its carry as a word is 2^32 too large. */
  function Added(m: nat, first: Byte, addend: int): (sum: int)
    ensures addend >= 0 ==> sum == addend
    ensures m * first + addend >= 0 ==> sum == addend
  {
    if m * first + addend < 0 then addend + 0x1_0000_0000 else addend
  }

  /**
   Multiplies the number in `f` by `m` and adds `t`, byte by byte with a carry.  With `m == 1`
   the loop stops as soon as nothing is left to carry.
   */
  method MulAdd(f: array<Byte>, m: nat, addend: int)
    requires f.Length == 8 && (m == 1 || m == 10) && -0x1_0000 <= addend < 0x11_0000
    modifies f
    ensures m == 10 || addend >= 0 ==>
      LittleEndian(f[..]) == Mod64(m * LittleEndian(old(f[..])) + Added(m, old(f[0]), addend))
    ensures m == 1 && addend < 0 ==> f[..] == old(f[..])
  {
    hide Mod64, LittleEndian, Pow256, Added;
    var t := addend;
    var i := 0;
    ghost var was := f[..];
    ghost var added := Added(m, f[0], addend);
    Nothing();
    while i < 8 && (m != 1 || 0 < t)
      invariant 0 <= i <= 8 && f[i..] == was[i..]
      invariant if i == 0 then t == addend else 0 <= t < 0x100_0000 && (m == 10 || addend >= 0)
      invariant LittleEndian(f[..i]) + Pow256(i) * t == m * LittleEndian(was[..i]) + if i == 0 then addend else added
    {
      label Before:
      var u := m * f[i] + t;
      if i == 0 {
        FirstStep(was[0], m, addend, u);
        assert f[..0] + [u % 256] == [u % 256] && was[..1] == [was[0]];
      } else {
        CarryStep(f[..i], was[..i], was[i], m, t, added, u);
      }
      f[i] := u % 256;
      t := U32(u) / 256;
      assert f[..i + 1] == old@Before(f[..i]) + [u % 256];
      assert was[..i + 1] == was[..i] + [was[i]];
      i := i + 1;
    }
    if i == 8 {
      assert f[..8] == f[..] && was[..8] == was;
      FinishFull(f[..], t, m * LittleEndian(was) + added);
    } else if addend >= 0 {
      FinishEarly(f[..], was, i, addend);
    } else {
      assert f[..] == f[0..] && was == was[0..];
    }
  }

  /** The first byte, which may fall below zero. */
  lemma FirstStep(x: Byte, m: nat, addend: int, u: int)
    requires (m == 1 || m == 10) && u == m * x + addend && -0x1_0000 <= addend < 0x11_0000
    ensures 0 <= U32(u) / 256 < 0x100_0000
    ensures LittleEndian([u % 256]) + Pow256(1) * (U32(u) / 256) == m * LittleEndian([x]) + Added(m, x, addend)
  {
    var w := if u < 0 then u + 0x1_0000_0000 else u;
    Residue32(u, if u < 0 then -1 else 0, w);
    assert w % 256 == u % 256;
    OneByte(u % 256);
    OneByte(x);
    assert Pow256(1) == 256 * Pow256(0);
  }

  /** All eight bytes were multiplied: the carry left over is worth a multiple of 2^64. */
  lemma FinishFull(f: seq<Byte>, t: nat, x: nat)
    requires |f| == 8 && LittleEndian(f) + Pow256(8) * t == x
    ensures LittleEndian(f) == Mod64(x)
  {
    hide Mod64, Pow256, LittleEndian;
    EightBytes();
    LittleEndianBound(f);
    Residue64(x, t, LittleEndian(f));
  }

  /** The carry died after `i` bytes: the untouched bytes keep their weight. */
  lemma FinishEarly(f: seq<Byte>, was: seq<Byte>, i: nat, addend: nat)
    requires |f| == 8 == |was| && i <= 8 && f[i..] == was[i..]
    requires LittleEndian(f[..i]) == LittleEndian(was[..i]) + addend
    ensures LittleEndian(f) == Mod64(LittleEndian(was) + addend)
  {
    hide Mod64, Pow256, LittleEndian;
    EightBytes();
    LittleEndianBound(f);
    LittleEndianConcat(f[..i], f[i..]);
    LittleEndianConcat(was[..i], was[i..]);
    assert f == f[..i] + f[i..] && was == was[..i] + was[i..];
    Residue64(LittleEndian(was) + addend, 0, LittleEndian(f));
  }

  lemma CarryStep(done: seq<Byte>, was: seq<Byte>, x: Byte, m: nat, t: nat, addend: int, u: int)
    requires |done| == |was| && (m == 1 || m == 10) && u == m * x + t && t < 0x100_0000
    requires LittleEndian(done) + Pow256(|done|) * t == m * LittleEndian(was) + addend
    ensures U32(u) == u && 0 <= u / 256 < 0x100_0000
    ensures LittleEndian(done + [u % 256]) + Pow256(|done| + 1) * (u / 256) == m * LittleEndian(was + [x]) + addend
  {
    hide Mod64, LittleEndian, U32, Pow256;
    Residue32(u, 0, u);
    NextPower(|done|);
    SmallProduct(m, x, t);
    LittleEndianAppend(done, u % 256);
    LittleEndianAppend(was, x);
    CarryArithmetic(Pow256(|done|), LittleEndian(done), LittleEndian(was), m, x, t, addend, u);
  }

  lemma NextPower(n: nat)
    ensures Pow256(n + 1) == 256 * Pow256(n)
  {
  }

  lemma SmallProduct(m: nat, x: nat, t: nat)
    requires (m == 1 || m == 10) && x < 256 && t < 0x100_0000
    ensures 0 <= m * x + t < 0x200_0000 && 0 <= (m * x + t) / 256 < 0x100_0000
  {
  }

  lemma CarryArithmetic(p: nat, done: nat, was: nat, m: nat, x: nat, t: nat, addend: int, u: nat)
    requires u == m * x + t && done + p * t == m * was + addend
    ensures done + p * (u % 256) + (256 * p) * (u / 256) == m * (was + p * x) + addend
  {
    SplitProduct(p, u, m, x, t);
    Distribute(m, was, p * x);
  }

  lemma SplitProduct(p: int, u: int, m: int, x: int, t: int)
    requires u == m * x + t
    ensures p * (u % 256) + (256 * p) * (u / 256) == m * (p * x) + p * t
  {
    var r, q := u % 256, u / 256;
    assert u == r + 256 * q;
    calc {
      p * r + (256 * p) * q;
      p * r + p * (256 * q);
      p * (r + 256 * q);
      p * (m * x + t);
      p * (m * x) + p * t;
      m * (p * x) + p * t;
    }
  }

  method Complement(f: array<Byte>)
    requires f.Length == 8
    modifies f
    ensures LittleEndian(f[..]) == 0x1_0000_0000_0000_0000 - 1 - LittleEndian(old(f[..]))
  {
    hide LittleEndian;
    ghost var was := f[..];
    Nothing();
    for i := 0 to 8
      invariant f[i..] == was[i..]
      invariant LittleEndian(f[..i]) + LittleEndian(was[..i]) == Pow256(i) - 1
    {
      label Before:
      LittleEndianAppend(f[..i], 255 - was[i]);
      LittleEndianAppend(was[..i], was[i]);
      f[i] := 255 - f[i];
      assert f[..i + 1] == old@Before(f[..i]) + [255 - was[i]];
      assert was[..i + 1] == was[..i] + [was[i]];
      assert Pow256(i) * (255 - was[i]) + Pow256(i) * was[i] == Pow256(i) * 255;
    }
    EightBytes();
    assert f[..8] == f[..] && was[..8] == was;
  }

  /** The decimal text, a leading minus allowed, as eight little-endian bytes in two's complement. */
  method DecimalStringToHash64(s: string) returns (f: array<Byte>)
    requires 0 < |s|
    ensures fresh(f) && f.Length == 8
    ensures AllDigits(Unsigned(s)) ==> LittleEndian(f[..]) == Mod64(ParseSigned(s))
  {
    hide Mod64, LittleEndian;
    var negative := s[0] == '-';
    var a := if negative then s[1..] else s;
    f := new Byte[8](_ => 0);
    ZeroBytes(f[..]);
    Residue64(0, 0, 0);
    for i := 0 to |a|
      invariant AllDigits(a) ==> LittleEndian(f[..]) == Mod64(Parse(a[..i]))
    {
      assert a[..i + 1][..i] == a[..i];
      MulAdd(f, 10, DigitValue(a[i]));
      if AllDigits(a) {
        assert IsDigit(a[i]);
        HornerStep10(Parse(a[..i]), DigitValue(a[i]));
      }
    }
    assert a[..|a|] == a;
    if negative {
      Negate(f);
      NegateModulo(Parse(a));
    }
  }

  method Negate(f: array<Byte>)
    requires f.Length == 8
    modifies f
    ensures LittleEndian(f[..]) == Mod64(0 - LittleEndian(old(f[..])))
  {
    hide Mod64, LittleEndian;
    ghost var v: int := LittleEndian(f[..]);
    Complement(f);
    MulAdd(f, 1, 1);
    Congruent64(1 * (0x1_0000_0000_0000_0000 - 1 - v) + 1, 0 - v, 1);
  }

  lemma HornerStep10(p: int, d: int)
    ensures Mod64(10 * Mod64(p) + d) == Mod64(p * 10 + d)
  {
    Congruent64(p * 10 + d, 10 * Mod64(p) + d, 10 * (p / 0x1_0000_0000_0000_0000));
  }

  function JoinBytes(b0: int, b1: int, b2: int, b3: int): Word {
    U32(b0 + b1 * 0x100 + b2 * 0x1_0000 + b3 * 0x100_0000)
  }

  /** The two halves of a run of eight bytes. */
  function SplitHash64(f: seq<Byte>): (r: U64)
    requires |f| == 8
    ensures r.Value() == LittleEndian(f)
  {
    SplitIsLittleEndian(f);
    U64(JoinBytes(f[0], f[1], f[2], f[3]), JoinBytes(f[4], f[5], f[6], f[7]))
  }

  lemma SplitIsLittleEndian(f: seq<Byte>)
    requires |f| == 8
    ensures JoinBytes(f[4], f[5], f[6], f[7]) * 0x1_0000_0000 + JoinBytes(f[0], f[1], f[2], f[3]) == LittleEndian(f)
  {
    hide LittleEndian, JoinBytes, Pow256;
    LittleEndianConcat(f[..4], f[4..]);
    assert f == f[..4] + f[4..];
    FourBytes(f[..4]);
    FourBytes(f[4..]);
    EightBytes();
  }

  lemma FourBytes(f: seq<Byte>)
    requires |f| == 4
    ensures LittleEndian(f) == JoinBytes(f[0], f[1], f[2], f[3])
  {
    Unfold(f);
    Unfold(f[1..]);
    Unfold(f[2..]);
    Unfold(f[3..]);
    Residue32(LittleEndian(f), 0, LittleEndian(f));
  }

  lemma Unfold(f: seq<Byte>)
    requires f != []
    ensures LittleEndian(f) == f[0] + 256 * LittleEndian(f[1..])
    ensures |f| == 1 ==> LittleEndian(f[1..]) == 0
    ensures forall i :: 0 <= i < |f| - 1 ==> f[1..][i] == f[i + 1]
  {
  }

  function Join(lo: Word, hi: Word, signed: bool): string {
    if signed then JoinSigned(lo, hi) else JoinUnsigned(lo, hi)
  }

  lemma TextDenotes(lo: Word, hi: Word, signed: bool)
    ensures var s := Join(lo, hi, signed);
      s != "" && AllDigits(Unsigned(s)) && Mod64(ParseSigned(s)) == U64(lo, hi).Value()
  {
    hide JoinSigned, JoinUnsigned, Print, Unsigned, ParseSigned, U64.Value, I64.Value;
    if signed {
      JoinSignedIsDecimal(lo, hi);
      SignedText(I64(lo, hi).Value());
    } else {
      JoinUnsignedIsDecimal(lo, hi);
      SignedText(U64(lo, hi).Value());
      Residue64(U64(lo, hi).Value(), 0, U64(lo, hi).Value());
    }
  }

  /** Parsing the fast join's text gives back the two halves, read as unsigned or as signed. */
  method RoundTrip(lo: Word, hi: Word, signed: bool) returns (r: U64)
    ensures r == U64(lo, hi)
  {
    hide Join, U64.Value, SplitHash64, Mod64, ParseSigned, Unsigned;
    TextDenotes(lo, hi, signed);
    var f := DecimalStringToHash64(Join(lo, hi, signed));
    r := SplitHash64(f[..]);
    SameHalves(r, U64(lo, hi));
  }
}
