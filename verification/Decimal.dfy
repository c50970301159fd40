/** Decimal notation of naturals: printing, parsing, and fixed-width blocks of digits. */
module Decimal {
  import opened Words

  predicate IsDigit(c: char) {
    '0' <= c <= '9'
  }

  predicate AllDigits(s: string) {
    forall i :: 0 <= i < |s| ==> IsDigit(s[i])
  }

  function DigitValue(c: char): int {
    c as int - '0' as int
  }

  function DigitChar(d: nat): (c: char)
    requires d < 10
    ensures IsDigit(c) && DigitValue(c) == d
  {
    "0123456789"[d]
  }

  /** The digits of `n` without leading zeros; nothing for zero. */
  function Digits(n: nat): (s: string)
    ensures AllDigits(s)
  {
    if n == 0 then "" else Digits(n / 10) + [DigitChar(n % 10)]
  }

  /** What JavaScript's `String(n)` prints for an integer below 2^53. */
  function Print(n: nat): string {
    if n == 0 then "0" else Digits(n)
  }

  /** The number a string of digits denotes. */
  function Parse(s: string): (n: int)
    ensures AllDigits(s) ==> n >= 0
  {
    if s == "" then 0 else Parse(s[..|s| - 1]) * 10 + DigitValue(s[|s| - 1])
  }

  /** `r` as a block of exactly `width` digits. */
  function Block(r: nat, width: nat): (s: string)
    ensures |s| == width
  {
    if width == 0 then "" else Block(r / 10, width - 1) + [DigitChar(r % 10)]
  }

  function Pow10(n: nat): (p: nat)
    ensures p > 0
  {
    if n == 0 then 1 else 10 * Pow10(n - 1)
  }

  function Zeros(n: nat): (s: string)
    ensures |s| == n
  {
    if n == 0 then "" else Zeros(n - 1) + "0"
  }

  lemma {:induction false} ParseDigits(n: nat)
    ensures Parse(Digits(n)) == n
  {
    if n > 0 {
      ParseDigits(n / 10);
      assert Digits(n)[..|Digits(n)| - 1] == Digits(n / 10);
    }
  }

  /** Parsing undoes printing, and printing writes digits only, with no leading zero. */
  lemma {:induction false} ParsePrint(n: nat)
    ensures Parse(Print(n)) == n
    ensures AllDigits(Print(n)) && Print(n) != ""
    ensures Print(n)[0] == '0' <==> n == 0
  {
    ParseDigits(n);
    if n == 0 {
      assert "0"[..0] == "";
    } else {
      NoLeadingZero(n);
    }
  }

  lemma {:induction false} NoLeadingZero(n: nat)
    requires n > 0
    ensures Digits(n) != "" && Digits(n)[0] != '0'
  {
    if n >= 10 {
      NoLeadingZero(n / 10);
    } else {
      assert Digits(n / 10) == "";
    }
  }

  /** A number is its high part followed by a full block for the low part. */
  lemma {:induction false} DigitsSplit(q: nat, r: nat, width: nat)
    requires q > 0 && r < Pow10(width)
    ensures Digits(q * Pow10(width) + r) == Digits(q) + Block(r, width)
  {
    hide Digits;
    if width > 0 {
      TimesTen(q, Pow10(width - 1));
      Positive(q, Pow10(width - 1));
      DigitsStep(q * Pow10(width - 1), r);
      DigitsSplit(q, r / 10, width - 1);
    } else {
      assert Digits(q) + "" == Digits(q);
    }
  }

  lemma TimesTen(q: int, p: int)
    ensures q * (10 * p) == 10 * (q * p)
  {
  }

  lemma Positive(x: int, y: int)
    requires x > 0 && y > 0
    ensures x * y > 0
  {
  }

  lemma DigitsStep(high: nat, r: nat)
    requires high > 0
    ensures Digits(10 * high + r) == Digits(high + r / 10) + [DigitChar(r % 10)]
  {
    var n := 10 * high + r;
    assert n / 10 == high + r / 10 && n % 10 == r % 10;
  }

  /** Left-padding the plain digits with zeros gives the block. */
  lemma {:induction false} PadIsBlock(r: nat, width: nat)
    requires r < Pow10(width)
    ensures |Digits(r)| <= width && Zeros(width - |Digits(r)|) + Digits(r) == Block(r, width)
  {
    if width > 0 {
      PadIsBlock(r / 10, width - 1);
      if r == 0 {
        assert Digits(0) == "";
        assert Zeros(width - 1) + "" == Zeros(width - 1);
        assert DigitChar(0) == '0';
      } else {
        assert Zeros(width - |Digits(r)|) + Digits(r)
            == (Zeros(width - 1 - |Digits(r / 10)|) + Digits(r / 10)) + [DigitChar(r % 10)];
      }
    }
  }
}
