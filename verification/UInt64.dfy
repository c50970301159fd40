/**
 Unsigned and signed 64-bit integers held as two 32-bit halves, as `jspb.arith.UInt64`
 and `jspb.arith.Int64` hold them.
 */
module UInt64 {
  import opened Words
  import opened Decimal

  lemma Halves(x: U64)
    ensures x.Value() == x.hi * 0x1_0000_0000 + x.lo
  {
  }

  lemma OfWord(w: Word)
    ensures U64(w, 0).Value() == w
  {
  }

  lemma SmallValue(x: U64)
    requires x.Value() < 0x1_0000_0000
    ensures x.lo == x.Value()
  {
  }

  lemma LowHalf(sum: int, carry: int)
    requires 0 <= sum - carry * 0x1_0000_0000 < 0x1_0000_0000
    ensures U32(sum) == sum - carry * 0x1_0000_0000
  {
    Residue32(sum, carry, sum - carry * 0x1_0000_0000);
  }

  /** The high halves' sum, reduced and corrected by the carry, completes the 64-bit sum. */
  lemma HighHalf(sum: int, carry: int, low: int)
    requires 0 <= low - carry * 0x1_0000_0000 < 0x1_0000_0000
    ensures U32(U32(sum) + carry) * 0x1_0000_0000 + (low - carry * 0x1_0000_0000)
         == Mod64(sum * 0x1_0000_0000 + low)
  {
    hide U32, Mod64;
    var q := sum / 0x1_0000_0000;
    var r := sum - q * 0x1_0000_0000;
    Residue32(sum, q, r);
    var p := (r + carry) / 0x1_0000_0000;
    var t := r + carry - p * 0x1_0000_0000;
    Residue32(r + carry, p, t);
    Residue64(sum * 0x1_0000_0000 + low, q + p, t * 0x1_0000_0000 + (low - carry * 0x1_0000_0000));
  }

  lemma BothHalves(high: int, low: int, carry: int, whole: int)
    requires 0 <= low - carry * 0x1_0000_0000 < 0x1_0000_0000 && whole == high * 0x1_0000_0000 + low
    ensures U32(U32(high) + carry) * 0x1_0000_0000 + U32(low) == Mod64(whole)
  {
    hide U32, Mod64;
    LowHalf(low, carry);
    HighHalf(high, carry, low);
  }

  lemma SumOfHalves(x: U64, y: U64, carry: int)
    requires carry == if 0x1_0000_0000 <= x.lo + y.lo then 1 else 0
    ensures U64(U32(x.lo + y.lo), U32(U32(x.hi + y.hi) + carry)).Value() == Mod64(x.Value() + y.Value())
  {
    hide U32, Mod64;
    BothHalves(x.hi + y.hi, x.lo + y.lo, carry, x.Value() + y.Value());
  }

  lemma DifferenceOfHalves(x: U64, y: U64, borrow: int)
    requires borrow == if x.lo - y.lo < 0 then 1 else 0
    ensures U64(U32(x.lo - y.lo), U32(U32(x.hi - y.hi) - borrow)).Value() == Mod64(x.Value() - y.Value())
  {
    hide U32, Mod64;
    BothHalves(x.hi - y.hi, x.lo - y.lo, 0 - borrow, x.Value() - y.Value());
  }

  lemma MulSplit(hi: int, lo: int, a: int)
    ensures (hi * 0x1_0000_0000 + lo) * a == (hi * a) * 0x1_0000_0000 + lo * a
  {
  }

  datatype U64 = U64(lo: Word, hi: Word) {
    function Value(): (v: nat)
      ensures v < 0x1_0000_0000_0000_0000
    {
      Join(lo, hi)
    }

    function Cmp(a: U64): (r: int)
      ensures r < 0 <==> Value() < a.Value()
      ensures r == 0 <==> Value() == a.Value()
    {
      if hi < a.hi || (hi == a.hi && lo < a.lo) then -1
      else if hi == a.hi && lo == a.lo then 0
      else 1
    }

    function RightShift(): (r: U64)
      ensures r.Value() == Value() / 2
    {
      U64(lo / 2 + (hi % 2) * 0x8000_0000, hi / 2)
    }

    function LeftShift(): (r: U64)
      ensures r.Value() == Mod64(2 * Value())
    {
      Residue32(2 * lo, lo / 0x8000_0000, 2 * (lo % 0x8000_0000));
      Residue32(2 * hi, hi / 0x8000_0000, 2 * (hi % 0x8000_0000));
      var r := U64(U32(2 * lo), U32(2 * hi) + lo / 0x8000_0000);
      Residue64(2 * Value(), hi / 0x8000_0000, r.Value());
      r
    }

    predicate Msb()
      ensures Msb() <==> 2 * Value() >= 0x1_0000_0000_0000_0000
    {
      hi >= 0x8000_0000
    }

    predicate Zero()
      ensures Zero() <==> Value() == 0
    {
      lo == 0 && hi == 0
    }

    function Add(a: U64): (r: U64)
      ensures r.Value() == Mod64(Value() + a.Value())
    {
      var carry := if 0x1_0000_0000 <= lo + a.lo then 1 else 0;
      SumOfHalves(this, a, carry);
      U64(U32(lo + a.lo), U32(U32(hi + a.hi) + carry))
    }

    function Sub(a: U64): (r: U64)
      ensures r.Value() == Mod64(Value() - a.Value())
    {
      var borrow := if lo - a.lo < 0 then 1 else 0;
      DifferenceOfHalves(this, a, borrow);
      U64(U32(lo - a.lo), U32(U32(hi - a.hi) - borrow))
    }

    /** This number times a 32-bit one, modulo 2^64. */
    method Mul(a: Word) returns (r: U64)
      ensures r.Value() == Mod64(Value() * a)
    {
      hide U64.Value;
      var low := Mul32x32(lo, a);
      var high := Mul32x32(hi, a);
      r := low.Add(U64(0, high.lo));
      MulSplit(hi, lo, a);
      Halves(this);
      Halves(high);
      Halves(U64(0, high.lo));
      Congruent64(Value() * a, low.Value() + high.lo * 0x1_0000_0000, high.hi);
    }

    /** Shift-subtract long division by a nonzero word. */
    method Div(a: Word) returns (q: U64, r: U64)
      requires a != 0
      ensures q.Value() == Value() / a
      ensures r.Value() == Value() % a
    {
      q := U64(0, 0);
      r := this;
      var divisor, bit, k := Align(a);
      while !bit.Zero()
        invariant Value() == q.Value() * a + r.Value()
        invariant bit.Value() == 0 ==> r.Value() < a
        invariant bit.Value() != 0 ==> Stage(a, divisor.Value(), bit.Value(), r.Value(), k)
        decreases bit.Value()
      {
        q, r := SubtractIfFits(a, q, r, divisor, bit, Value());
        HalveStep(a, divisor.Value(), bit.Value(), r.Value(), k);
        divisor, bit := divisor.RightShift(), bit.RightShift();
        k := if k == 0 then 0 else k - 1;
      }
      DivisionIsUnique(Value(), a, q.Value(), r.Value());
    }

    /** Repeated division by ten prints the number in decimal. */
    method ToString() returns (s: string)
      ensures s == Print(Value())
    {
      hide U64.Value;
      s := "";
      var b := this;
      while !b.Zero()
        invariant Digits(Value()) == Digits(b.Value()) + s
        decreases b.Value()
      {
        var q, r := b.Div(10);
        assert Digits(b.Value()) + s == Digits(q.Value()) + ([DigitChar(r.Value())] + s);
        SmallValue(r);
        s := [DigitChar(r.lo)] + s;
        b := q;
      }
      if s == "" {
        s := "0";
      }
    }
  }

  /** Shifts a divisor left until its top bit is set, and a marker bit along with it. */
  method Align(a: Word) returns (divisor: U64, bit: U64, ghost k: nat)
    requires a != 0
    ensures bit.Value() == Pow2(k) && divisor.Value() == a * bit.Value() && divisor.Msb()
  {
    divisor, bit := U64(a, 0), U64(1, 0);
    k := 0;
    while !divisor.Msb()
      invariant bit.Value() == Pow2(k) && divisor.Value() == a * bit.Value()
      decreases 0x1_0000_0000_0000_0000 - divisor.Value()
    {
      DoubleStep(a, bit.Value(), divisor.Value());
      Residue64(2 * bit.Value(), 0, 2 * bit.Value());
      Residue64(2 * divisor.Value(), 0, 2 * divisor.Value());
      divisor, bit := divisor.LeftShift(), bit.LeftShift();
      k := k + 1;
    }
  }

  /** One step of the division: takes the aligned divisor off the remainder when it fits. */
  method SubtractIfFits(ghost a: Word, q: U64, r: U64, divisor: U64, bit: U64, ghost v: nat) returns (q': U64, r': U64)
    requires a > 0 && v < 0x1_0000_0000_0000_0000 && v == q.Value() * a + r.Value()
    requires divisor.Value() == a * bit.Value() && r.Value() < 2 * divisor.Value()
    ensures v == q'.Value() * a + r'.Value() && r'.Value() < divisor.Value()
  {
    hide U64.Value, Mod64;
    q', r' := q, r;
    if divisor.Cmp(r) <= 0 {
      SubtractStep(a, q.Value(), r.Value(), bit.Value(), v);
      Residue64(q.Value() + bit.Value(), 0, q.Value() + bit.Value());
      Residue64(r.Value() - divisor.Value(), 0, r.Value() - divisor.Value());
      q', r' := q.Add(bit), r.Sub(divisor);
    }
  }

  function Pow2(k: nat): (p: nat)
    ensures p > 0
  {
    if k == 0 then 1 else 2 * Pow2(k - 1)
  }

  lemma DoubleStep(a: nat, bit: nat, divisor: nat)
    requires a > 0 && divisor == a * bit && 2 * divisor < 0x1_0000_0000_0000_0000
    ensures 2 * bit < 0x1_0000_0000_0000_0000 && a * (2 * bit) == 2 * divisor
  {
    assert bit <= a * bit;
  }

  /** Long division looking at bit `k`: what is left is below twice the aligned divisor. */
  ghost predicate Stage(a: nat, divisor: nat, bit: nat, r: nat, k: nat) {
    bit == Pow2(k) && divisor == a * bit && r < 2 * divisor
  }

  lemma HalveStep(a: nat, divisor: nat, bit: nat, r: nat, k: nat)
    requires bit == Pow2(k) && divisor == a * bit && r < divisor
    ensures bit / 2 == 0 ==> r < a
    ensures bit / 2 != 0 ==> k > 0 && Stage(a, divisor / 2, bit / 2, r, k - 1)
  {
    if k > 0 {
      var half := Pow2(k - 1);
      assert a * (2 * half) == 2 * (a * half);
    }
  }

  lemma SubtractStep(a: nat, q: nat, r: nat, bit: nat, v: nat)
    requires a > 0 && v < 0x1_0000_0000_0000_0000 && v == q * a + r && a * bit <= r
    ensures q + bit < 0x1_0000_0000_0000_0000 && (q + bit) * a + (r - a * bit) == v
  {
    assert q + bit <= (q + bit) * a;
  }

  lemma Monotone(x: int, z: int, y: nat)
    requires x <= z
    ensures x * y <= z * y
  {
  }

  /** Schoolbook multiplication on 16-bit halves: the exact 64-bit product. */
  method Mul32x32(x: Word, y: Word) returns (r: U64)
    ensures r.Value() == x * y
  {
    var c, a := x % 0x1_0000, x / 0x1_0000;
    var d, f := y % 0x1_0000, y / 0x1_0000;
    Products(c, a, d, f);
    var b := c * d + 0x1_0000 * (c * f % 0x1_0000) + 0x1_0000 * (a * d % 0x1_0000);
    var h := a * f + c * f / 0x1_0000 + a * d / 0x1_0000;
    Columns(c * d, c * f, a * d, a * f);
    while 0x1_0000_0000 <= b
      invariant b >= 0 && h >= 0
      invariant b + h * 0x1_0000_0000 == x * y
    {
      b := b - 0x1_0000_0000;
      h := h + 1;
    }
    Residue32(b, 0, b);
    Residue32(h, 0, h);
    r := U64(U32(b), U32(h));
  }

  lemma Products(c: nat, a: nat, d: nat, f: nat)
    requires c < 0x1_0000 && a < 0x1_0000 && d < 0x1_0000 && f < 0x1_0000
    ensures (a * 0x1_0000 + c) * (f * 0x1_0000 + d)
         == c * d + 0x1_0000 * (c * f) + 0x1_0000 * (a * d) + 0x1_0000_0000 * (a * f)
    ensures 0 <= c * d && 0 <= c * f && 0 <= a * d && 0 <= a * f
    ensures (a * 0x1_0000 + c) * (f * 0x1_0000 + d) < 0x1_0000_0000_0000_0000
  {
    ProductBound(c, d);
    ProductBound(c, f);
    ProductBound(a, d);
    ProductBound(a, f);
    var y := f * 0x1_0000 + d;
    HalvesTimes(a, c, y);
    HalvesTimes(f, d, a);
    HalvesTimes(f, d, c);
    Commute(y, a);
    Commute(y, c);
    Commute(f, a);
    Commute(d, a);
    Commute(f, c);
    Commute(d, c);
  }

  lemma HalvesTimes(a: int, c: int, y: int)
    ensures (a * 0x1_0000 + c) * y == 0x1_0000 * (a * y) + c * y
  {
  }

  lemma Commute(x: int, y: int)
    ensures x * y == y * x
  {
  }

  /** Carrying the 16-bit columns into two 32-bit halves loses nothing. */
  lemma Columns(cd: nat, cf: nat, ad: nat, af: nat)
    ensures cd + 0x1_0000 * (cf % 0x1_0000) + 0x1_0000 * (ad % 0x1_0000)
            + (af + cf / 0x1_0000 + ad / 0x1_0000) * 0x1_0000_0000
         == cd + 0x1_0000 * cf + 0x1_0000 * ad + 0x1_0000_0000 * af
  {
  }

  lemma ProductBound(x: nat, y: nat)
    requires x < 0x1_0000 && y < 0x1_0000
    ensures x * y <= 0xFFFE_0001
  {
    Monotone(x, 0xFFFF, y);
  }

  /** Digit-by-digit parsing; nothing when some character is not a digit. */
  method FromString(s: string) returns (r: Option<U64>)
    ensures r.Some? <==> AllDigits(s)
    ensures r.Some? ==> r.value.Value() == Mod64(Parse(s))
  {
    hide U64.Value;
    var b, c := U64(0, 0), U64(0, 0);
    OfWord(0);
    for i := 0 to |s|
      invariant AllDigits(s[..i])
      invariant b.Value() == Mod64(Parse(s[..i]))
    {
      assert s[..i + 1][..i] == s[..i];
      if s[i] < '0' || '9' < s[i] {
        assert !IsDigit(s[..|s|][i]);
        return None;
      }
      c := U64(DigitValue(s[i]), 0);
      OfWord(DigitValue(s[i]));
      b := b.Mul(10);
      HornerStep(Parse(s[..i]), DigitValue(s[i]));
      b := b.Add(c);
    }
    assert s[..|s|] == s;
    return Some(b);
  }

  lemma HornerStep(p: int, d: int)
    ensures Mod64(Mod64(Mod64(p) * 10) + d) == Mod64(p * 10 + d)
  {
    var r := Mod64(p) * 10;
    Congruent64(p * 10 + d, Mod64(r) + d, 10 * (p / 0x1_0000_0000_0000_0000) + r / 0x1_0000_0000_0000_0000);
  }

  /** `jspb.arith.Int64`: the same two halves, read in two's complement. */
  datatype I64 = I64(lo: Word, hi: Word) {
    function Value(): (v: int)
      ensures -0x8000_0000_0000_0000 <= v < 0x8000_0000_0000_0000
      ensures Mod64(v) == U64(lo, hi).Value()
    {
      Signed(lo, hi)
    }

    method ToString() returns (s: string)
      ensures s == PrintSigned(Value())
    {
      hide U64.Value, I64.Value, Mod64, Print;
      var negative := hi >= 0x8000_0000;
      var b := U64(lo, hi);
      Magnitude(this);
      if negative {
        OfWord(0);
        b := U64(0, 0).Sub(b);
      }
      var t := b.ToString();
      s := (if negative then "-" else "") + t;
    }
  }

  lemma Magnitude(x: I64)
    ensures x.hi >= 0x8000_0000 ==> x.Value() < 0 && Mod64(0 - U64(x.lo, x.hi).Value()) == -x.Value()
    ensures x.hi < 0x8000_0000 ==> x.Value() == U64(x.lo, x.hi).Value()
  {
    if x.hi >= 0x8000_0000 {
      Residue64(0 - U64(x.lo, x.hi).Value(), 0 - 1, -x.Value());
    }
  }

  lemma SameHalves(x: U64, y: U64)
    requires x.Value() == y.Value()
    ensures x == y
  {
  }

  function PrintSigned(v: int): string {
    if v < 0 then "-" + Print(-v) else Print(v)
  }

  method I64FromString(s: string) returns (r: Option<I64>)
    ensures r.Some? <==> AllDigits(Unsigned(s))
    ensures r.Some? ==> U64(r.value.lo, r.value.hi).Value() == Mod64(ParseSigned(s))
  {
    hide U64.Value;
    var negative := 0 < |s| && s[0] == '-';
    var a := FromString(if negative then s[1..] else s);
    if a == None {
      return None;
    }
    var b := a.value;
    if negative {
      OfWord(0);
      b := U64(0, 0).Sub(b);
      NegateModulo(Parse(s[1..]));
    }
    return Some(I64(b.lo, b.hi));
  }

  lemma NegateModulo(p: int)
    ensures Mod64(0 - Mod64(p)) == Mod64(-p)
  {
    Congruent64(-p, 0 - Mod64(p), -(p / 0x1_0000_0000_0000_0000));
  }

  function Unsigned(s: string): string {
    if 0 < |s| && s[0] == '-' then s[1..] else s
  }

  function ParseSigned(s: string): int {
    if 0 < |s| && s[0] == '-' then -Parse(s[1..]) else Parse(s)
  }

  /** Every unsigned 64-bit number survives printing and parsing. */
  method RoundTripUnsigned(x: U64) returns (y: Option<U64>)
    ensures y == Some(x)
  {
    hide U64.Value;
    var s := x.ToString();
    ParsePrint(x.Value());
    Residue64(x.Value(), 0, x.Value());
    y := FromString(s);
    SameHalves(x, y.value);
  }

  lemma SignedText(v: int)
    ensures AllDigits(Unsigned(PrintSigned(v))) && ParseSigned(PrintSigned(v)) == v
    ensures PrintSigned(v) != ""
  {
    var n := if v < 0 then -v else v;
    ParsePrint(n);
    assert Print(n)[0] != '-';
    assert ("-" + Print(n))[1..] == Print(n);
  }

  /** Every signed 64-bit number, the most negative one included, survives printing and parsing. */
  method RoundTripSigned(x: I64) returns (y: Option<I64>)
    ensures y == Some(x)
  {
    hide U64.Value, I64.Value, PrintSigned, ParseSigned, Unsigned;
    var s := x.ToString();
    SignedText(x.Value());
    y := I64FromString(s);
    SameHalves(U64(x.lo, x.hi), U64(y.value.lo, y.value.hi));
  }
}
