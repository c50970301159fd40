/**
 UTF-8 (section 3 of RFC 3629) as `writeString` and `readString` handle it: strings are sequences of
 UTF-16 code units, and surrogates need not be paired.
 */
module Utf8 {
  import opened Words

  type Unit = x: int | 0 <= x < 0x1_0000

  predicate IsHigh(d: Unit) { 0xD800 <= d <= 0xDBFF }
  predicate IsLow(d: Unit) { 0xDC00 <= d <= 0xDFFF }

  function PairValue(high: Unit, low: Unit): (v: int)
    requires IsHigh(high) && IsLow(low)
    ensures 0x1_0000 <= v < 0x11_0000
  {
    1024 * (high - 0xD800) + low - 0xDC00 + 0x1_0000
  }

  function Encode1(d: Unit): (s: seq<Byte>)
    ensures 1 <= |s| <= 3
  {
    if d < 128 then [d]
    else if d < 2048 then [d / 64 + 192, d % 64 + 128]
    else [d / 4096 + 224, d / 64 % 64 + 128, d % 64 + 128]
  }

  function Encode2(v: int): (s: seq<Byte>)
    requires 0x1_0000 <= v < 0x11_0000
    ensures |s| == 4
  {
    [v / 0x4_0000 + 240, v / 4096 % 64 + 128, v / 64 % 64 + 128, v % 64 + 128]
  }

  /** The bytes written for a string.  A high surrogate before anything but a low one writes nothing. */
  function Encode(s: seq<Unit>): seq<Byte> {
    if s == [] then []
    else if IsHigh(s[0]) && |s| > 1 then
      if IsLow(s[1]) then Encode2(PairValue(s[0], s[1])) + Encode(s[2..]) else Encode(s[1..])
    else Encode1(s[0]) + Encode(s[1..])
  }

  /** What is left of a string once such high surrogates are dropped. */
  function Surviving(s: seq<Unit>): seq<Unit> {
    if s == [] then []
    else if IsHigh(s[0]) && |s| > 1 then
      if IsLow(s[1]) then s[..2] + Surviving(s[2..]) else Surviving(s[1..])
    else [s[0]] + Surviving(s[1..])
  }

  /** Every high surrogate that is followed by anything is followed by a low one. */
  ghost predicate HighsPaired(s: seq<Unit>) {
    forall i :: 0 <= i < |s| - 1 && IsHigh(s[i]) ==> IsLow(s[i + 1])
  }

  function Tail(buf: seq<Byte>, i: nat): (t: int)
    ensures 0 <= t < 64
  {
    if i < |buf| then buf[i] % 64 else 0
  }

  function Two(buf: seq<Byte>, c: nat): Unit
    requires c < |buf|
  {
    buf[c] % 32 * 64 + Tail(buf, c + 1)
  }

  function Three(buf: seq<Byte>, c: nat): Unit
    requires c < |buf|
  {
    buf[c] % 16 * 4096 + Tail(buf, c + 1) * 64 + Tail(buf, c + 2)
  }

  function Four(buf: seq<Byte>, c: nat): (Unit, Unit)
    requires c < |buf|
  {
    var v: int := buf[c] % 8 * 0x4_0000 + Tail(buf, c + 1) * 4096 + Tail(buf, c + 2) * 64 + Tail(buf, c + 3) - 0x1_0000;
    (v / 1024 % 1024 + 0xD800, v % 1024 + 0xDC00)
  }

  /** One step of the reader at `c`: the units it yields and where it goes on. */
  function Step(buf: seq<Byte>, c: nat): (r: (seq<Unit>, nat))
    ensures r.1 > c
  {
    if c >= |buf| then ([], c + 1)
    else if buf[c] < 128 then ([buf[c]], c + 1)
    else if buf[c] < 192 then ([], c + 1)
    else if buf[c] < 224 then ([Two(buf, c)], c + 2)
    else if buf[c] < 240 then ([Three(buf, c)], c + 3)
    else if buf[c] < 248 then ([Four(buf, c).0, Four(buf, c).1], c + 4)
    else ([], c + 1)
  }

  /** The units read between `c` and `limit`, and where the reader stops. */
  function Decode(buf: seq<Byte>, c: nat, limit: nat): (seq<Unit>, nat)
    decreases limit - c
  {
    if c >= limit then ([], c)
    else
      var (units, next) := Step(buf, c);
      var (rest, stop) := Decode(buf, next, limit);
      (units + rest, stop)
  }

  lemma StepOne(buf: seq<Byte>, c: nat, d: Unit)
    requires c + |Encode1(d)| <= |buf| && buf[c..c + |Encode1(d)|] == Encode1(d)
    ensures Step(buf, c) == ([d], c + |Encode1(d)|)
  {
    hide Two, Three;
    var e := Encode1(d);
    assert forall i :: 0 <= i < |e| ==> buf[c + i] == e[i];
    assert buf[c + 0] == e[0];
    if d >= 2048 {
      assert buf[c + 1] == e[1] && buf[c + 2] == e[2];
      ThreeBack(buf, c, d);
    } else if d >= 128 {
      assert buf[c + 1] == e[1];
      TwoBack(buf, c, d);
    }
  }

  lemma TwoBack(buf: seq<Byte>, c: nat, d: Unit)
    requires 128 <= d < 2048 && c + 2 <= |buf| && buf[c] == d / 64 + 192 && buf[c + 1] == d % 64 + 128
    ensures Two(buf, c) == d
  {
    assert (d / 64 + 192) % 32 == d / 64 && (d % 64 + 128) % 64 == d % 64;
  }

  lemma ThreeBack(buf: seq<Byte>, c: nat, d: Unit)
    requires 2048 <= d && c + 3 <= |buf|
    requires buf[c] == d / 4096 + 224 && buf[c + 1] == d / 64 % 64 + 128 && buf[c + 2] == d % 64 + 128
    ensures Three(buf, c) == d
  {
    assert (d / 4096 + 224) % 16 == d / 4096;
    assert (d / 64 % 64 + 128) % 64 == d / 64 % 64 && (d % 64 + 128) % 64 == d % 64;
    assert d / 4096 * 4096 + d / 64 % 64 * 64 + d % 64 == d;
  }

  lemma StepPair(buf: seq<Byte>, c: nat, high: Unit, low: Unit)
    requires IsHigh(high) && IsLow(low)
    requires c + 4 <= |buf| && buf[c..c + 4] == Encode2(PairValue(high, low))
    ensures Step(buf, c) == ([high, low], c + 4)
  {
    hide PairValue, Four;
    var v := PairValue(high, low);
    assert forall i :: 0 <= i < 4 ==> buf[c + i] == Encode2(v)[i];
    FourOfEncode2(buf, c, v);
    PairBack(high, low);
  }

  lemma FourOfEncode2(buf: seq<Byte>, c: nat, v: int)
    requires 0x1_0000 <= v < 0x11_0000 && c + 4 <= |buf|
    requires forall i :: 0 <= i < 4 ==> buf[c + i] == Encode2(v)[i]
    ensures Four(buf, c) == ((v - 0x1_0000) / 1024 % 1024 + 0xD800, (v - 0x1_0000) % 1024 + 0xDC00)
  {
    SixBits(v);
    Masks(v);
    var e := Encode2(v);
    assert buf[c + 0] == e[0] && buf[c + 1] == e[1] && buf[c + 2] == e[2] && buf[c + 3] == e[3];
    assert Tail(buf, c + 1) == v / 4096 % 64 && Tail(buf, c + 2) == v / 64 % 64 && Tail(buf, c + 3) == v % 64;
  }

  lemma Masks(v: int)
    requires 0x1_0000 <= v < 0x11_0000
    ensures (v / 0x4_0000 + 240) % 8 == v / 0x4_0000
    ensures (v / 4096 % 64 + 128) % 64 == v / 4096 % 64
    ensures (v / 64 % 64 + 128) % 64 == v / 64 % 64
    ensures (v % 64 + 128) % 64 == v % 64
  {
  }

  lemma PairBack(high: Unit, low: Unit)
    requires IsHigh(high) && IsLow(low)
    ensures var w := PairValue(high, low) - 0x1_0000;
      w / 1024 % 1024 + 0xD800 == high && w % 1024 + 0xDC00 == low
  {
    var x, y := high - 0xD800, low - 0xDC00;
    assert (1024 * x + y) / 1024 == x && (1024 * x + y) % 1024 == y;
  }

  lemma SixBits(v: int)
    requires 0x1_0000 <= v < 0x11_0000
    ensures v / 0x4_0000 * 0x4_0000 + v / 4096 % 64 * 4096 + v / 64 % 64 * 64 + v % 64 == v
  {
  }

  /** Reading what was written, anywhere in a buffer, returns the surviving units and stops right there. */
  lemma {:induction false} DecodeEncode(buf: seq<Byte>, c: nat, s: seq<Unit>)
    requires c + |Encode(s)| <= |buf| && buf[c..c + |Encode(s)|] == Encode(s)
    ensures Decode(buf, c, c + |Encode(s)|) == (Surviving(s), c + |Encode(s)|)
    decreases |s|
  {
    hide Step, Encode1, Encode2, PairValue, Decode;
    var limit := c + |Encode(s)|;
    if s == [] {
      DecodeNothing(buf, c);
    } else if IsHigh(s[0]) && |s| > 1 {
      if IsLow(s[1]) {
        var e, rest := Encode2(PairValue(s[0], s[1])), Encode(s[2..]);
        Slices(buf, c, e, rest);
        StepPair(buf, c, s[0], s[1]);
        DecodeEncode(buf, c + 4, s[2..]);
        assert s[..2] == [s[0], s[1]];
        DecodeStep(buf, c, limit, s[..2], c + 4, Surviving(s[2..]));
      } else {
        DecodeEncode(buf, c, s[1..]);
      }
    } else {
      var e, rest := Encode1(s[0]), Encode(s[1..]);
      Slices(buf, c, e, rest);
      StepOne(buf, c, s[0]);
      DecodeEncode(buf, c + |e|, s[1..]);
      DecodeStep(buf, c, limit, [s[0]], c + |e|, Surviving(s[1..]));
    }
  }

  lemma DecodeNothing(buf: seq<Byte>, c: nat)
    ensures Decode(buf, c, c) == ([], c)
  {
  }

  lemma DecodeStep(buf: seq<Byte>, c: nat, limit: nat, units: seq<Unit>, next: nat, rest: seq<Unit>)
    requires c < limit && Step(buf, c) == (units, next) && Decode(buf, next, limit) == (rest, limit)
    ensures Decode(buf, c, limit) == (units + rest, limit)
  {
    hide Step;
  }

  lemma Slices(buf: seq<Byte>, c: nat, e: seq<Byte>, rest: seq<Byte>)
    requires c + |e + rest| <= |buf| && buf[c..c + |e + rest|] == e + rest
    ensures buf[c..c + |e|] == e && buf[c + |e|..c + |e| + |rest|] == rest
  {
    var w := buf[c..c + |e + rest|];
    assert buf[c..c + |e|] == w[..|e|];
    assert buf[c + |e|..c + |e| + |rest|] == w[|e|..];
  }

  lemma {:induction false} SurvivingShrinks(s: seq<Unit>)
    ensures |Surviving(s)| <= |s|
    ensures !HighsPaired(s) ==> |Surviving(s)| < |s|
    decreases |s|
  {
    if s == [] {
    } else if IsHigh(s[0]) && |s| > 1 {
      if IsLow(s[1]) {
        SurvivingShrinks(s[2..]);
        if !HighsPaired(s) {
          var i :| 0 <= i < |s| - 1 && IsHigh(s[i]) && !IsLow(s[i + 1]);
          assert i >= 2 && IsHigh(s[2..][i - 2]) && !IsLow(s[2..][i - 1]);
        }
      } else {
        SurvivingShrinks(s[1..]);
      }
    } else {
      SurvivingShrinks(s[1..]);
      if !HighsPaired(s) {
        var i :| 0 <= i < |s| - 1 && IsHigh(s[i]) && !IsLow(s[i + 1]);
        assert i >= 1 && IsHigh(s[1..][i - 1]) && !IsLow(s[1..][i]);
      }
    }
  }

  lemma {:induction false} SurvivingIdentity(s: seq<Unit>)
    requires HighsPaired(s)
    ensures Surviving(s) == s
    decreases |s|
  {
    if s == [] {
    } else if IsHigh(s[0]) && |s| > 1 {
      SurvivingIdentity(s[2..]);
    } else {
      SurvivingIdentity(s[1..]);
    }
  }

  /**
   Writing and reading back keeps a string exactly when no high surrogate is followed by something
   other than a low surrogate.  A lone low surrogate, or a lone high one at the very end, is kept.
   */
  lemma RoundTripExact(s: seq<Unit>)
    ensures Decode(Encode(s), 0, |Encode(s)|).0 == s <==> HighsPaired(s)
  {
    DecodeEncode(Encode(s), 0, s);
    SurvivingShrinks(s);
    if HighsPaired(s) {
      SurvivingIdentity(s);
    }
  }

  /** One, two and three bytes for a unit, and four for a pair: the examples of section 7 of RFC 3629 and others. */
  lemma Samples()
    ensures Encode([0x41, 0x2262, 0x391, 0x2E]) == [0x41, 0xE2, 0x89, 0xA2, 0xCE, 0x91, 0x2E]
    ensures Encode([0xD84C, 0xDFB4]) == [0xF0, 0xA3, 0x8E, 0xB4]
  {
    assert Encode([0x2E]) == [0x2E];
    assert Encode([0x391, 0x2E]) == [0xCE, 0x91] + Encode([0x2E]);
    assert [0x2262, 0x391, 0x2E][1..] == [0x391, 0x2E];
    assert Encode([0x2262, 0x391, 0x2E]) == [0xE2, 0x89, 0xA2] + Encode([0x391, 0x2E]);
    assert [0x41, 0x2262, 0x391, 0x2E][1..] == [0x2262, 0x391, 0x2E];
    assert [0xD84C, 0xDFB4][2..] == [];
  }

  /** A high surrogate before a letter is lost. */
  lemma LoneHighLost()
    ensures var s := [0xD800, 0x41]; Decode(Encode(s), 0, |Encode(s)|).0 == [0x41]
  {
    var s := [0xD800, 0x41];
    DecodeEncode(Encode(s), 0, s);
    assert s[1..] == [0x41] && [0x41][1..] == [];
    assert Surviving([]) == [] && Surviving([0x41]) == [0x41];
  }
}
