/**
 Base64 (sections 4 and 5 of RFC 4648) as the gRPC-Web text mode uses it: one decoder for all alphabets
 and paddings, the request encoder, and the incremental decoding of a growing response text.
 */
module Base64 {
  import opened Words

  /** The value of a symbol: 64 for padding, -1 for white space that is skipped, -2 for anything else. */
  function Code(c: char): (v: int)
    ensures -2 <= v <= 64
  {
    if 'A' <= c <= 'Z' then c as int - 65
    else if 'a' <= c <= 'z' then c as int - 97 + 26
    else if '0' <= c <= '9' then c as int - 48 + 52
    else if c == '+' || c == '-' then 62
    else if c == '/' || c == '_' then 63
    else if c == '=' || c == '.' then 64
    else if IsSpace(c as int) then -1
    else -2
  }

  predicate IsSpace(c: int) {
    9 <= c <= 13 || c == 0x20 || c == 0xA0 || c == 0x1680 || 0x2000 <= c <= 0x200A
    || c == 0x2028 || c == 0x2029 || c == 0x202F || c == 0x205F || c == 0x3000 || c == 0xFEFF
  }

  predicate Known(text: string) {
    forall i :: 0 <= i < |text| ==> Code(text[i]) != -2
  }

  /** The symbols of a text, white space left out. */
  function Codes(text: string): (s: seq<int>)
    ensures forall i :: 0 <= i < |s| ==> -2 <= s[i] <= 64 && s[i] != -1
  {
    if text == "" then [] else (if Code(text[0]) == -1 then [] else [Code(text[0])]) + Codes(text[1..])
  }

  /** `f << 2 | g >> 4`, stored in a byte; a padding symbol in the second place overlaps the first. */
  function First(f: int, g: int): Byte {
    var high := f * 4;
    (if g == 64 then (if f % 2 == 1 then high else high + 4) else high + g / 16) % 256
  }

  /** The bytes of one group of four symbols. */
  function Group(f: int, g: int, e: int, h: int): (s: seq<Byte>)
    requires 0 <= f <= 64 && 0 <= g <= 64 && 0 <= e <= 64 && 0 <= h <= 64
    ensures 1 <= |s| <= 3
    ensures |s| == if e == 64 then 1 else if h == 64 then 2 else 3
  {
    if e == 64 then [First(f, g)]
    else if h == 64 then [First(f, g), g % 16 * 16 + e / 4]
    else [First(f, g), g % 16 * 16 + e / 4, e % 4 * 64 + h]
  }

  predicate Values(s: seq<int>) {
    forall i :: 0 <= i < |s| ==> 0 <= s[i] <= 64
  }

  /** All bytes of a run of symbols; a last group that is cut short is completed. */
  function Emit(s: seq<int>): (r: seq<Byte>)
    requires Values(s)
  {
    if s == [] then []
    else
      Group(s[0], if |s| > 1 then s[1] else 0, if |s| > 2 then s[2] else 64, if |s| > 3 then s[3] else 64)
      + (if |s| > 4 then Emit(s[4..]) else [])
  }

  /** The size of the buffer the decoder allocates, from the length and the last two characters. */
  function BufferSize(text: string): (n: nat) {
    var b := |text|;
    if b % 4 != 0 then 3 * b / 4
    else if b > 0 && IsPad(text[b - 1]) then
      if IsPad(text[b - 2]) then 3 * b / 4 - 2 else 3 * b / 4 - 1
    else 3 * b / 4
  }

  predicate IsPad(c: char) {
    c == '=' || c == '.'
  }

  function Clip(s: seq<Byte>, size: nat): (r: seq<Byte>)
    ensures |r| <= size
  {
    if |s| <= size then s else s[..size]
  }

  /** Decoding: nothing for a text with an unknown character; bytes beyond the buffer are dropped. */
  function Decode(text: string): Option<seq<Byte>> {
    if !Known(text) then None
    else
      KnownCodes(text);
      var bytes := Emit(Codes(text));
      Some(Clip(bytes, BufferSize(text)))
  }

  lemma {:induction false} KnownCodes(text: string)
    requires Known(text)
    ensures Values(Codes(text))
  {
    hide Code;
    if text != "" {
      KnownCodes(text[1..]);
    }
  }

  // ----- the decoding loop -----

  /** The next symbol from `d` on, or the default when the text is used up; fails on an unknown character. */
  method NextCode(text: string, d: nat, default: int) returns (code: int, next: nat, ok: bool)
    requires d <= |text|
    ensures d <= next <= |text|
    ensures !ok ==> !Known(text[d..])
    ensures ok ==> (Known(text[d..]) <==> Known(text[next..]))
    ensures ok && Codes(text[d..]) != [] ==>
      next > d && 0 <= code <= 64 && Codes(text[d..]) == [code] + Codes(text[next..])
    ensures ok && Codes(text[d..]) == [] ==> code == default && Codes(text[next..]) == [] && next == |text|
  {
    hide Code;
    next := d;
    while next < |text|
      invariant d <= next <= |text|
      invariant Known(text[d..]) <==> Known(text[next..])
      invariant Codes(text[d..]) == Codes(text[next..])
    {
      Unfold(text, next);
      var v := Code(text[next]);
      next := next + 1;
      if v >= 0 {
        return v, next, true;
      }
      if v == -2 {
        return v, next, false;
      }
    }
    return default, next, true;
  }

  lemma Unfold(text: string, d: nat)
    requires d < |text|
    ensures Known(text[d..]) <==> Code(text[d]) != -2 && Known(text[d + 1..])
    ensures Codes(text[d..]) == (if Code(text[d]) == -1 then [] else [Code(text[d])]) + Codes(text[d + 1..])
  {
    hide Code;
    var t := text[d..];
    assert t[1..] == text[d + 1..];
    if Known(t[1..]) && Code(t[0]) != -2 {
      forall i | 0 <= i < |t| ensures Code(t[i]) != -2 {
        if i > 0 {
          assert t[i] == t[1..][i - 1];
        }
      }
    }
    if Known(t) {
      assert forall i :: 0 <= i < |t[1..]| ==> t[1..][i] == t[i + 1];
    }
  }

  /** Writes one byte; a typed array ignores positions past its end. */
  method Put(out: array<Byte>, n: nat, x: Byte, ghost emitted: seq<Byte>)
    requires n == |emitted| && out[..|Clip(emitted, out.Length)|] == Clip(emitted, out.Length)
    modifies out
    ensures out[..|Clip(emitted + [x], out.Length)|] == Clip(emitted + [x], out.Length)
  {
    if n < out.Length {
      out[n] := x;
      assert out[..n + 1] == emitted + [x];
    } else {
      assert Clip(emitted + [x], out.Length) == emitted[..out.Length];
    }
  }

  /** The first four symbols of a run, completed when there are fewer. */
  function Quad(s: seq<int>): (q: (int, int, int, int)) {
    (if |s| > 0 then s[0] else -1, if |s| > 1 then s[1] else 0, if |s| > 2 then s[2] else 64, if |s| > 3 then s[3]
      else 64)
  }

  function Drop4(s: seq<int>): seq<int> {
    if |s| > 4 then s[4..] else []
  }

  /** Reads a group of symbols; fails on an unknown character among them. */
  method NextQuad(text: string, d: nat) returns (f: int, g: int, e: int, h: int, next: nat, ok: bool)
    requires d <= |text|
    ensures d <= next <= |text|
    ensures !ok ==> !Known(text[d..])
    ensures ok ==> (Known(text[d..]) <==> Known(text[next..]))
    ensures ok ==> (f, g, e, h) == Quad(Codes(text[d..])) && Codes(text[next..]) == Drop4(Codes(text[d..]))
    ensures ok && Codes(text[d..]) == [] ==> next == |text|
    ensures ok && Codes(text[d..]) != [] ==> next > d && 0 <= f <= 64 && 0 <= g <= 64 && 0 <= e <= 64 && 0 <= h <= 64
  {
    hide Code, Codes, Known;
    f, next, ok := NextCode(text, d, -1);
    g, e, h := 0, 64, 64;
    if ok {
      g, next, ok := NextCode(text, next, 0);
    }
    if ok {
      e, next, ok := NextCode(text, next, 64);
    }
    if ok {
      h, next, ok := NextCode(text, next, 64);
    }
  }

  lemma EmitStep(s: seq<int>)
    requires s != [] && Values(s)
    ensures Values(Drop4(s))
    ensures var (f, g, e, h) := Quad(s); Emit(s) == Group(f, g, e, h) + Emit(Drop4(s))
  {
    hide Group;
    assert Emit([]) == [];
  }

  /** The decoder: four symbols at a time, into a buffer sized beforehand. */
  method DecodeText(text: string) returns (r: Option<seq<Byte>>)
    ensures r == Decode(text)
  {
    hide Code, Emit, Codes, BufferSize, IsPad, First, Known, Quad, Drop4, Clip;
    var out := new Byte[BufferSize(text)](_ => 0);
    var n, d := 0, 0;
    ghost var emitted: seq<Byte> := [];
    NothingYet(text, out);
    if Known(text) {
      KnownCodes(text);
    }
    while true
      invariant d <= |text| && n == |emitted|
      invariant Known(text) <==> Known(text[d..])
      invariant Known(text) ==> Values(Codes(text[d..]))
      invariant Known(text) ==> Emit(Codes(text)) == emitted + Emit(Codes(text[d..]))
      invariant |Clip(emitted, out.Length)| <= out.Length &&
        out[..|Clip(emitted, out.Length)|] == Clip(emitted, out.Length)
      decreases |text| - d
    {
      ghost var rest := Codes(text[d..]);
      var f, g, e, h, next, ok := NextQuad(text, d);
      if !ok {
        return None;
      }
      if h == 64 && f == -1 {
        QuadOfNothing(rest);
        break;
      }
      QuadOfSomething(rest);
      ghost var before := emitted;
      n, emitted := PutGroup(out, n, emitted, f, g, e, h);
      if Known(text) {
        EmitStep(rest);
        Assoc(before, Group(f, g, e, h), Emit(Drop4(rest)));
      }
      d := next;
    }
    AllRead(text, d, emitted);
    ClipIsSlice(emitted, out);
    r := Some(out[..if n <= out.Length then n else out.Length]);
  }

  /** Writes the bytes of one group. */
  method PutGroup(out: array<Byte>, n: nat, ghost emitted: seq<Byte>, f: int, g: int, e: int, h: int)
    returns (n': nat, ghost emitted': seq<Byte>)
    requires 0 <= f <= 64 && 0 <= g <= 64 && 0 <= e <= 64 && 0 <= h <= 64
    requires n == |emitted| && out[..|Clip(emitted, out.Length)|] == Clip(emitted, out.Length)
    modifies out
    ensures emitted' == emitted + Group(f, g, e, h) && n' == |emitted'|
    ensures out[..|Clip(emitted', out.Length)|] == Clip(emitted', out.Length)
  {
    hide First;
    Put(out, n, First(f, g), emitted);
    emitted' := emitted + [First(f, g)];
    n' := n + 1;
    if e != 64 {
      Put(out, n', g % 16 * 16 + e / 4, emitted');
      emitted' := emitted' + [g % 16 * 16 + e / 4];
      n' := n' + 1;
      if h != 64 {
        Put(out, n', e % 4 * 64 + h, emitted');
        emitted' := emitted' + [e % 4 * 64 + h];
        n' := n' + 1;
      }
    }
  }

  lemma NothingYet(text: string, out: array<Byte>)
    ensures text[0..] == text
    ensures Known(text) ==> Values(Codes(text)) && [] + Emit(Codes(text)) == Emit(Codes(text))
    ensures |Clip([], out.Length)| <= out.Length && out[..|Clip([], out.Length)|] == Clip([], out.Length)
  {
    hide Code, Codes, Emit;
    if Known(text) {
      KnownCodes(text);
    }
  }

  lemma QuadOfNothing(s: seq<int>)
    ensures Quad(s).0 == -1 && s != [] ==> s[0] == -1
  {
  }

  lemma QuadOfSomething(s: seq<int>)
    ensures s == [] ==> Quad(s) == (-1, 0, 64, 64)
  {
  }

  lemma AllRead(text: string, d: nat, emitted: seq<Byte>)
    requires d <= |text| && Codes(text[d..]) == [] && (Known(text) <==> Known(text[d..]))
    requires Known(text) ==> Values(Codes(text)) && Emit(Codes(text)) == emitted + Emit([])
    ensures Decode(text) == Some(Clip(emitted, BufferSize(text)))
  {
    hide Code, BufferSize, Clip;
    NoCodes(text[d..]);
    assert Emit([]) == [];
    assert emitted + [] == emitted;
  }

  lemma {:induction false} NoCodes(text: string)
    requires Codes(text) == []
    ensures Known(text)
  {
    hide Code;
    if text != "" {
      NoCodes(text[1..]);
      forall i | 0 <= i < |text| ensures Code(text[i]) != -2 {
        if i > 0 {
          assert text[i] == text[1..][i - 1];
        }
      }
    }
  }

  lemma ClipIsSlice(s: seq<Byte>, out: array<Byte>)
    ensures |Clip(s, out.Length)| == if |s| <= out.Length then |s| else out.Length
  {
  }

  // ----- text without white space -----

  predicate Solid(text: string) {
    forall i :: 0 <= i < |text| ==> Code(text[i]) != -1
  }

  lemma {:induction false} SolidCodes(text: string)
    requires Solid(text)
    ensures |Codes(text)| == |text| && forall i :: 0 <= i < |text| ==> Codes(text)[i] == Code(text[i])
  {
    hide Code;
    if text != "" {
      SolidCodes(text[1..]);
      forall i | 0 <= i < |text| ensures Codes(text)[i] == Code(text[i]) {
        if i > 0 {
          assert Codes(text)[i] == Codes(text[1..])[i - 1];
        }
      }
    }
  }

  lemma {:induction false} CodesConcat(x: string, y: string)
    ensures Codes(x + y) == Codes(x) + Codes(y)
    decreases |x|
  {
    hide Code;
    if x == "" {
      assert x + y == y;
    } else {
      var first := if Code(x[0]) == -1 then [] else [Code(x[0])];
      assert (x + y)[1..] == x[1..] + y;
      CodesConcat(x[1..], y);
      assert first + (Codes(x[1..]) + Codes(y)) == (first + Codes(x[1..])) + Codes(y);
    }
  }

  lemma KnownConcat(x: string, y: string)
    ensures Known(x + y) <==> Known(x) && Known(y)
  {
    hide Code;
    assert forall i :: 0 <= i < |x| ==> (x + y)[i] == x[i];
    assert forall i :: 0 <= i < |y| ==> (x + y)[|x| + i] == y[i];
  }

  lemma {:induction false} CodesShorter(text: string)
    ensures |Codes(text)| <= |text|
  {
    hide Code;
    if text != "" {
      CodesShorter(text[1..]);
    }
  }

  /** How many bytes come out of `n` symbols, depending on whether the last two are padding. */
  function MostBytes(n: nat, lastPad: bool, bothPad: bool): (bytes: int) {
    var whole, rest := 3 * (n / 4), n % 4;
    if rest == 0 then whole - (if bothPad then 2 else if lastPad then 1 else 0)
    else if rest == 3 && !lastPad then whole + 2
    else whole + 1
  }

  lemma {:induction false} EmitBound(s: seq<int>)
    requires Values(s)
    ensures var lastPad := s != [] && s[|s| - 1] == 64;
      |Emit(s)| <= MostBytes(|s|, lastPad, lastPad && |s| > 1 && s[|s| - 2] == 64)
    decreases |s|
  {
    hide Emit, MostBytes, Group;
    SizeOfNothing();
    var lastPad := s != [] && s[|s| - 1] == 64;
    MostStep(|s|, lastPad, lastPad && |s| > 1 && s[|s| - 2] == 64);
    if s != [] {
      EmitStep(s);
      EmitBound(Drop4(s));
      if |s| == 5 {
        MostStep(1, lastPad, lastPad && s[3] == 64);
      }
    }
  }

  lemma MostStep(n: nat, lastPad: bool, bothPad: bool)
    requires bothPad ==> lastPad
    ensures n == 0 ==> MostBytes(n, false, false) == 0
    ensures n > 4 ==> MostBytes(n, lastPad, bothPad) == 3 + MostBytes(n - 4, lastPad, bothPad)
    ensures n % 4 != 0 ==> MostBytes(n, lastPad, bothPad) == MostBytes(n, lastPad, false)
    ensures MostBytes(1, lastPad, bothPad) == MostBytes(2, lastPad, bothPad) == 1
    ensures MostBytes(3, lastPad, bothPad) == if lastPad then 1 else 2
    ensures MostBytes(4, lastPad, bothPad) == if bothPad then 1 else if lastPad then 2 else 3
  {
  }

  /** A whole number of groups never outgrows the buffer, white space and padding taken into account. */
  lemma EmitSize(text: string)
    requires Known(text) && |text| % 4 == 0
    ensures Values(Codes(text)) && |Emit(Codes(text))| <= BufferSize(text)
  {
    hide Known, Code, Codes, Emit, BufferSize, MostBytes;
    KnownCodes(text);
    CodesShorter(text);
    var s := Codes(text);
    EmitBound(s);
    LastSymbols(text);
    BufferFits(text, |s|, s != [] && s[|s| - 1] == 64, |s| > 1 && s[|s| - 1] == 64 && s[|s| - 2] == 64);
  }

  /** Padding at the end of the text is padding at the end of its symbols. */
  lemma LastSymbols(text: string)
    ensures var n, s := |text|, Codes(text);
      && (n > 0 && IsPad(text[n - 1]) ==> s != [] && s[|s| - 1] == 64)
      && (n > 1 && IsPad(text[n - 1]) && IsPad(text[n - 2]) ==> |s| > 1 && s[|s| - 2] == 64)
  {
    hide Code, Codes, IsPad;
    var n := |text|;
    if n > 0 && IsPad(text[n - 1]) {
      LastPad(text[..n - 1], text[n - 1]);
      assert text[..n - 1] + [text[n - 1]] == text;
      if n > 1 && IsPad(text[n - 2]) {
        LastPad(text[..n - 2], text[n - 2]);
        assert text[..n - 2] + [text[n - 2]] == text[..n - 1];
      }
    }
  }

  lemma BufferFits(text: string, n: nat, lastPad: bool, bothPad: bool)
    requires |text| % 4 == 0 && n <= |text|
    requires |text| > 0 && IsPad(text[|text| - 1]) ==> lastPad
    requires |text| > 0 && IsPad(text[|text| - 1]) && IsPad(text[|text| - 2]) ==> bothPad
    ensures MostBytes(n, lastPad, lastPad && bothPad) <= BufferSize(text)
  {
    hide IsPad, MostBytes;
    MostFits(n, |text| / 4, lastPad, lastPad && bothPad);
  }

  lemma MostFits(n: nat, k: nat, lastPad: bool, bothPad: bool)
    requires n <= 4 * k && (bothPad ==> lastPad)
    ensures MostBytes(n, lastPad, bothPad) <= 3 * k
    ensures k > 0 ==> MostBytes(n, lastPad, bothPad) <= 3 * k - (if bothPad then 2 else if lastPad then 1 else 0)
  {
    var q, r := n / 4, n % 4;
    assert n == 4 * q + r;
    assert q == k ==> r == 0;
  }

  /** Nothing is cut off then. */
  lemma DecodeWhole(text: string)
    requires |text| % 4 == 0
    ensures Decode(text).Some? <==> Known(text)
    ensures Known(text) ==> Values(Codes(text))
    ensures Known(text) ==> Decode(text) == Some(Emit(Codes(text)))
  {
    hide Known, Codes, Emit, BufferSize;
    if Known(text) {
      EmitSize(text);
    }
  }

  lemma LastPad(front: string, c: char)
    requires IsPad(c)
    ensures Codes(front + [c]) == Codes(front) + [64]
  {
    hide IsPad, Code;
    PadCode(c);
    CodesConcat(front, [c]);
    assert Codes([c]) == [64] + Codes([c][1..]) && Codes([c][1..]) == [];
  }

  lemma SizeOfNothing()
    ensures BufferSize("") == 0 && Codes("") == [] && Emit([]) == []
  {
  }

  lemma PadCode(c: char)
    ensures Code(c) == 64 <==> IsPad(c)
  {
  }

  lemma {:induction false} EmitConcat(s: seq<int>, t: seq<int>)
    requires Values(s + t)
    requires |s| % 4 == 0
    ensures Values(s)
    ensures Values(t)
    ensures Emit(s + t) == Emit(s) + Emit(t)
    decreases |s|
  {
    hide Emit, Group, Quad, Drop4;
    ValuesOfParts(s, t);
    SizeOfNothing();
    if s == [] {
      assert s + t == t;
    } else {
      EmitStep(s + t);
      EmitStep(s);
      FirstQuad(s, t);
      if t == [] {
        assert s + t == s && Emit(s) + [] == Emit(s);
      } else {
        EmitConcat(Drop4(s), t);
      }
    }
  }

  lemma FirstQuad(s: seq<int>, t: seq<int>)
    requires |s| >= 4
    ensures Quad(s + t) == Quad(s) && |Drop4(s)| == |s| - 4
    ensures t != [] ==> Drop4(s + t) == Drop4(s) + t
  {
  }

  lemma ValuesOfParts(s: seq<int>, t: seq<int>)
    requires Values(s + t)
    ensures Values(s)
    ensures Values(t)
  {
    assert forall i :: 0 <= i < |s| ==> (s + t)[i] == s[i];
    assert forall i :: 0 <= i < |t| ==> (s + t)[|s| + i] == t[i];
  }

  /** The decoding of two texts one after the other. */
  function Join(x: Option<seq<Byte>>, y: Option<seq<Byte>>): Option<seq<Byte>> {
    if x == None || y == None then None else Some(x.value + y.value)
  }

  /** A cut after whole groups of symbols, or before a rest without symbols, leaves the decoding as it is. */
  lemma CutAligned(x: string, y: string)
    requires |x| % 4 == 0 && |y| % 4 == 0 && (|Codes(x)| % 4 == 0 || Codes(y) == [])
    ensures Decode(x + y) == Join(Decode(x), Decode(y))
  {
    hide Code, Codes, Known, Emit, Decode, Values;
    WholeQuads(|x|, |y|);
    CodesConcat(x, y);
    KnownConcat(x, y);
    DecodeWhole(x);
    DecodeWhole(y);
    DecodeWhole(x + y);
    if Known(x + y) {
      EmitCut(Codes(x), Codes(y));
    }
  }

  lemma WholeQuads(m: nat, n: nat)
    requires m % 4 == 0 && n % 4 == 0
    ensures (m + n) % 4 == 0
  {
  }

  lemma EmitCut(s: seq<int>, t: seq<int>)
    requires Values(s + t)
    requires |s| % 4 == 0 || t == []
    ensures Values(s)
    ensures Values(t)
    ensures Emit(s + t) == Emit(s) + Emit(t)
  {
    hide Emit;
    SizeOfNothing();
    if t == [] {
      assert s + t == s;
      assert Emit(s) + [] == Emit(s);
    } else {
      EmitConcat(s, t);
    }
  }

  // ----- the growing response text -----

  function Aligned(n: nat): nat {
    n - n % 4
  }

  /** What one progress event does at position `i`: the new position and the bytes delivered. */
  function Progress(i: nat, text: string): (nat, Option<seq<Byte>>) {
    var d := Aligned(|text|);
    if d <= i then (i, Some([])) else (d, Decode(text[i..d]))
  }

  /** One event after another, for a text that keeps growing. */
  function Deliver(i: nat, texts: seq<string>): Option<seq<Byte>>
    decreases |texts|
  {
    if texts == [] then Some([]) else Join(Progress(i, texts[0]).1, Deliver(Progress(i, texts[0]).0, texts[1..]))
  }

  /** Each text is a prefix of the next, and all are prefixes of `full`. */
  ghost predicate Growing(texts: seq<string>, full: string) {
    && (forall k :: 0 <= k < |texts| ==> texts[k] <= full)
    && (forall k :: 0 <= k < |texts| - 1 ==> texts[k] <= texts[k + 1])
  }

  /**
   Where the white space stands: before each multiple of four, as far as the text is decoded, there are whole
   groups of symbols, or no symbol follows.
   */
  predicate LaidOut(full: string) {
    forall p: nat :: p % 4 == 0 && p <= Aligned(|full|) ==> CutsWell(full, p)
  }

  predicate CutsWell(full: string, p: nat)
    requires p <= Aligned(|full|)
  {
    |Codes(full[..p])| % 4 == 0 || Codes(full[p..Aligned(|full|)]) == []
  }

  /** Text without white space keeps it, and so does such text with white space behind it. */
  lemma SolidLaidOut(text: string, spaces: string)
    requires Solid(text) && |text| % 4 == 0 && Codes(spaces) == []
    ensures LaidOut(text + spaces)
  {
    hide Code, Codes;
    var full := text + spaces;
    var n := Aligned(|full|);
    forall p: nat | p % 4 == 0 && p <= n ensures CutsWell(full, p) {
      if p <= |text| {
        assert full[..p] == text[..p];
        SolidCodes(text[..p]);
      } else {
        assert spaces == spaces[..p - |text|] + full[p..n] + full[n..];
        CodesConcat(spaces[..p - |text|] + full[p..n], full[n..]);
        CodesConcat(spaces[..p - |text|], full[p..n]);
      }
    }
  }

  /** However such a response arrives, what is delivered is the decoding of the whole text received. */
  lemma {:induction false} IncrementalAgrees(i: nat, texts: seq<string>, full: string)
    requires Growing(texts, full) && LaidOut(full) && i % 4 == 0
    requires texts != [] ==> i <= |texts[0]|
    ensures texts != [] ==> i <= Aligned(|texts[|texts| - 1]|) <= |full|
    ensures texts != [] ==> Deliver(i, texts) == Decode(full[i..Aligned(|texts[|texts| - 1]|)])
    decreases |texts|
  {
    hide Decode, LaidOut, Join, Progress, Codes;
    if texts != [] {
      var d := Aligned(|texts[0]|);
      ProgressStep(i, texts[0], full);
      if |texts| == 1 {
        assert Deliver(d, texts[1..]) == Some([]);
        JoinNothing(Decode(full[i..d]));
      } else {
        var rest := texts[1..];
        assert texts[0] <= texts[1];
        IncrementalAgrees(d, rest, full);
        assert rest[|rest| - 1] == texts[|texts| - 1];
        var stop := Aligned(|texts[|texts| - 1]|);
        assert full[i..stop] == full[i..d] + full[d..stop];
        CutBetween(full, i, d, stop);
        CutAligned(full[i..d], full[d..stop]);
      }
    }
  }

  lemma CutBetween(full: string, i: nat, d: nat, stop: nat)
    requires LaidOut(full) && i <= d <= stop <= Aligned(|full|) && i % 4 == 0 && d % 4 == 0
    ensures |Codes(full[i..d])| % 4 == 0 || Codes(full[d..stop]) == []
  {
    hide Codes, Known;
    var n := Aligned(|full|);
    assert CutsWell(full, i) && CutsWell(full, d);
    assert full[..d] == full[..i] + full[i..d];
    CodesConcat(full[..i], full[i..d]);
    assert full[i..n] == full[i..d] + full[d..n];
    CodesConcat(full[i..d], full[d..n]);
    assert full[d..n] == full[d..stop] + full[stop..n];
    CodesConcat(full[d..stop], full[stop..n]);
  }

  lemma ProgressStep(i: nat, text: string, full: string)
    requires text <= full && i % 4 == 0 && i <= |text|
    ensures i <= Aligned(|text|) <= |text| && Aligned(|text|) % 4 == 0
    ensures Progress(i, text) == (Aligned(|text|), Decode(full[i..Aligned(|text|)]))
  {
    hide Decode;
    DecodeNothing();
    var d := Aligned(|text|);
    assert text == full[..|text|];
    assert text[i..d] == full[i..d];
    if d == i {
      assert full[i..d] == "";
    }
  }

  lemma DecodeNothing()
    ensures Decode("") == Some([]) && Solid("")
  {
  }

  lemma JoinNothing(x: Option<seq<Byte>>)
    ensures Join(x, Some([])) == x && Join(Some([]), x) == x
  {
    if x.Some? {
      assert x.value + [] == x.value && [] + x.value == x.value;
    }
  }

  // ----- encoding -----

  function Symbol(v: int): (c: char)
    requires 0 <= v <= 64
    ensures Code(c) == v
  {
    if v < 26 then 'A' + v as char
    else if v < 52 then 'a' + (v - 26) as char
    else if v < 62 then '0' + (v - 52) as char
    else if v == 62 then '+' else if v == 63 then '/' else '='
  }

  /** The ends of the ranges of table 1 of RFC 4648, the other symbols of its table 2, and both paddings. */
  lemma Alphabet()
    ensures Symbol(0) == 'A' && Symbol(25) == 'Z' && Symbol(26) == 'a' && Symbol(51) == 'z'
    ensures Symbol(52) == '0' && Symbol(61) == '9' && Symbol(62) == '+' && Symbol(63) == '/' && Symbol(64) == '='
    ensures Code('-') == 62 && Code('_') == 63 && Code('.') == 64
  {
  }

  /** Within a range the symbols follow each other. */
  lemma NextSymbol(v: nat)
    requires v < 62 && v != 25 && v != 51 && v != 61
    ensures Symbol(v + 1) as int == Symbol(v) as int + 1
  {
  }

  function Symbols(x: Byte, y: Byte, z: Byte): string {
    [Symbol(x / 4), Symbol(x % 4 * 16 + y / 16), Symbol(y % 16 * 4 + z / 64), Symbol(z % 64)]
  }

  function Encode(b: seq<Byte>): string {
    if b == [] then ""
    else if |b| == 1 then [Symbol(b[0] / 4), Symbol(b[0] % 4 * 16), '=', '=']
    else if |b| == 2 then [Symbol(b[0] / 4), Symbol(b[0] % 4 * 16 + b[1] / 16), Symbol(b[1] % 16 * 4), '=']
    else Symbols(b[0], b[1], b[2]) + Encode(b[3..])
  }

  /** Encodes three bytes at a time and completes the rest with padding. */
  method EncodeBytes(b: seq<Byte>) returns (text: string)
    ensures text == Encode(b)
  {
    hide *;
    text := "";
    var h := 0;
    assert b[0..] == b;
    while h < |b| - 2
      invariant 0 <= h <= |b| && Encode(b) == text + Encode(b[h..])
    {
      EncodeThree(b, h);
      text := text + Symbols(b[h], b[h + 1], b[h + 2]);
      h := h + 3;
    }
    var e := 0;
    var k := '=';
    EncodeEnd(b, h);
    if |b| - h == 2 {
      e := b[h + 1];
      k := Symbol(e % 16 * 4);
    }
    if |b| - h == 2 || |b| - h == 1 {
      text := text + [Symbol(b[h] / 4), Symbol(b[h] % 4 * 16 + e / 16), k, '='];
    }
  }

  lemma EncodeThree(b: seq<Byte>, h: nat)
    requires h + 3 <= |b|
    ensures Encode(b[h..]) == Symbols(b[h], b[h + 1], b[h + 2]) + Encode(b[h + 3..])
  {
    hide Symbols, Symbol;
    assert b[h..][3..] == b[h + 3..];
  }

  lemma EncodeEnd(b: seq<Byte>, h: nat)
    requires |b| - 2 <= h <= |b|
    ensures Encode(b[h..]) == if h == |b| then "" else
      [Symbol(b[h] / 4), Symbol(b[h] % 4 * 16 + (if h + 1 < |b| then b[h + 1] / 16 else 0)),
       if h + 1 < |b| then Symbol(b[h + 1] % 16 * 4) else '=', '=']
  {
    hide Symbols, Symbol;
  }

  /** One group of symbols decodes to the bytes it was made of. */
  lemma GroupBack(x: Byte, y: Byte, z: Byte)
    ensures Group(x / 4, x % 4 * 16 + y / 16, y % 16 * 4 + z / 64, z % 64) == [x, y, z]
    ensures Group(x / 4, x % 4 * 16 + y / 16, y % 16 * 4, 64) == [x, y]
    ensures Group(x / 4, x % 4 * 16, 64, 64) == [x]
  {
    hide First;
    var g, e := x % 4 * 16 + y / 16, y % 16 * 4 + z / 64;
    assert g < 64 && e < 64 && x % 4 * 16 < 64 && y % 16 * 4 < 64;
    FirstBack(x, g);
    FirstBack(x, x % 4 * 16);
    assert g % 16 == y / 16 && e / 4 == y % 16 && y % 16 * 4 / 4 == y % 16 && e % 4 == z / 64;
  }

  lemma FirstBack(x: Byte, g: int)
    requires 0 <= g < 64 && g / 16 == x % 4
    ensures First(x / 4, g) == x
  {
  }

  /** A text of four symbols, alone. */
  lemma OneGroup(text: string, f: int, g: int, e: int, h: int)
    requires |text| == 4 && Code(text[0]) == f && Code(text[1]) == g && Code(text[2]) == e && Code(text[3]) == h
    requires 0 <= f <= 64 && 0 <= g <= 64 && 0 <= e <= 64 && 0 <= h <= 64
    ensures Solid(text) && Known(text) && Decode(text) == Some(Group(f, g, e, h))
  {
    hide Code, BufferSize, Codes, Emit, Group;
    SolidCodes(text);
    EmitSize(text);
    assert Codes(text) == [f, g, e, h];
    SizeOfNothing();
    EmitStep([f, g, e, h]);
    assert Drop4([f, g, e, h]) == [];
    assert Group(f, g, e, h) + [] == Group(f, g, e, h);
  }

  /** Decoding undoes encoding. */
  lemma {:induction false} RoundTrip(b: seq<Byte>)
    ensures Solid(Encode(b)) && |Encode(b)| % 4 == 0
    ensures Decode(Encode(b)) == Some(b)
    decreases |b|
  {
    hide Code, Decode, Symbol, Symbols, Group, Solid, Known, Codes;
    if b == [] {
      DecodeNothing();
    } else if |b| == 1 {
      OneBack(b[0]);
      assert b == [b[0]];
    } else if |b| == 2 {
      TwoBack(b[0], b[1]);
      assert b == [b[0], b[1]];
    } else {
      ThreeBack(b[0], b[1], b[2]);
      RoundTrip(b[3..]);
      OneMore(Symbols(b[0], b[1], b[2]), Encode(b[3..]));
      assert [b[0], b[1], b[2]] + b[3..] == b;
    }
  }

  lemma OneBack(x: Byte)
    ensures var text := Encode([x]); |text| == 4 && Solid(text) && Decode(text) == Some([x])
  {
    hide Code, Decode, Symbol, Group, Solid, Known, Codes;
    Pads();
    GroupBack(x, 0, 0);
    OneGroup(Encode([x]), x / 4, x % 4 * 16, 64, 64);
  }

  lemma TwoBack(x: Byte, y: Byte)
    ensures var text := Encode([x, y]); |text| == 4 && Solid(text) && Decode(text) == Some([x, y])
  {
    hide Code, Decode, Symbol, Group, Solid, Known, Codes;
    Pads();
    GroupBack(x, y, 0);
    OneGroup(Encode([x, y]), x / 4, x % 4 * 16 + y / 16, y % 16 * 4, 64);
  }

  lemma ThreeBack(x: Byte, y: Byte, z: Byte)
    ensures var text := Symbols(x, y, z); |text| == 4 && Solid(text) && Decode(text) == Some([x, y, z])
  {
    hide Code, Decode, Symbol, Group, Solid, Known, Codes;
    GroupBack(x, y, z);
    OneGroup(Symbols(x, y, z), x / 4, x % 4 * 16 + y / 16, y % 16 * 4 + z / 64, z % 64);
  }

  lemma OneMore(group: string, rest: string)
    requires Solid(group) && Solid(rest) && |group| == 4 && |rest| % 4 == 0
    ensures Solid(group + rest) && Decode(group + rest) == Join(Decode(group), Decode(rest))
  {
    hide Decode, Codes, Code;
    SolidConcat(group, rest);
    SolidCodes(group);
    CutAligned(group, rest);
  }

  lemma Pads()
    ensures Code('=') == 64
  {
  }

  lemma SolidConcat(x: string, y: string)
    requires Solid(x) && Solid(y)
    ensures Solid(x + y)
  {
  }

  // ----- white space -----

  /** White space at the same places. */
  predicate SameLayout(a: string, b: string) {
    |a| == |b| && forall i :: 0 <= i < |a| ==> (Code(a[i]) == -1 <==> Code(b[i]) == -1)
  }

  lemma {:induction false} SameCount(a: string, b: string)
    requires SameLayout(a, b)
    ensures |Codes(a)| == |Codes(b)|
    decreases |a|
  {
    hide Code;
    if a != "" {
      SameCount(a[1..], b[1..]);
    }
  }

  lemma SameLaidOut(a: string, b: string)
    requires SameLayout(a, b) && LaidOut(a)
    ensures LaidOut(b)
  {
    hide Code, Codes;
    var n := Aligned(|a|);
    forall p: nat | p % 4 == 0 && p <= n ensures CutsWell(b, p) {
      assert CutsWell(a, p);
      SameCount(a[..p], b[..p]);
      SameCount(a[p..n], b[p..n]);
    }
  }

  /** What is delivered is the decoding of what was received, whatever symbols stand between the white space. */
  ghost predicate AlwaysAgrees(full: string) {
    forall other, texts :: SameLayout(full, other) && Agreeable(texts, other) ==> Agrees(texts, other)
  }

  ghost predicate Agreeable(texts: seq<string>, full: string) {
    texts != [] && Growing(texts, full)
  }

  ghost predicate Agrees(texts: seq<string>, full: string)
    requires Agreeable(texts, full)
  {
    Deliver(0, texts) == Decode(full[..Aligned(|texts[|texts| - 1]|)])
  }

  /**
   White space is harmless exactly when it keeps that layout: with any other, there are symbols to fill it
   with, and an arrival in two parts, that make the bytes delivered differ from those of the whole text.
   */
  lemma LayoutExact(full: string)
    ensures AlwaysAgrees(full) <==> LaidOut(full)
  {
    hide SameLayout, Growing, Deliver, Decode, Codes;
    if LaidOut(full) {
      forall other, texts | SameLayout(full, other) && Agreeable(texts, other) ensures Agrees(texts, other) {
        SameLaidOut(full, other);
        IncrementalAgrees(0, texts, other);
        var n := Aligned(|texts[|texts| - 1]|);
        assert other[0..n] == other[..n];
      }
    } else {
      var p: nat :| p % 4 == 0 && p <= Aligned(|full|) && !CutsWell(full, p);
      var other := Filled(full, p);
      FilledLayout(full, p);
      FilledDiffers(full, p);
      assert SameLayout(full, other) && Agreeable([other[..p], other], other) && !Agrees([other[..p], other], other);
    }
  }

  /** The layout with one symbol before position `p` and another from there on. */
  function Filled(full: string, p: nat): (other: string)
    ensures |other| == |full|
  {
    seq(|full|, i requires 0 <= i < |full| => if Code(full[i]) == -1 then full[i] else if i < p then 'A' else '/')
  }

  lemma FilledLayout(full: string, p: nat)
    ensures SameLayout(full, Filled(full, p))
  {
    assert Code('A') == 0 && Code('/') == 63;
    hide Code;
  }

  predicate FilledWith(text: string, v: int) {
    forall i :: 0 <= i < |text| ==> Code(text[i]) == -1 || Code(text[i]) == v
  }

  lemma {:induction false} FilledCodes(text: string, v: int)
    requires FilledWith(text, v) && 0 <= v < 64
    ensures Known(text) && forall i :: 0 <= i < |Codes(text)| ==> Codes(text)[i] == v
  {
    hide Code;
    if text != "" {
      FilledCodes(text[1..], v);
    }
  }

  lemma FilledDiffers(full: string, p: nat)
    requires p % 4 == 0 && p <= Aligned(|full|) && !CutsWell(full, p)
    ensures var other := Filled(full, p);
      Agreeable([other[..p], other], other) && !Agrees([other[..p], other], other)
  {
    hide Decode, Codes, Deliver, Join, Known, Growing, Filled, FilledWith, SameLayout;
    var other, n := Filled(full, p), Aligned(|full|);
    var x, y := other[..p], other[p..n];
    FilledParts(full, p, n);
    FilledCodes(x, 0);
    FilledCodes(y, 63);
    SameCount(full[..p], x);
    SameCount(full[p..n], y);
    assert other[..n] == x + y;
    DecodesDiffer(x, y);
    TwoEvents(x, other, p, n, Decode(x), Decode(y));
  }

  lemma FilledParts(full: string, p: nat, n: nat)
    requires p <= n <= |full|
    ensures var other := Filled(full, p);
      && FilledWith(other[..p], 0) && SameLayout(full[..p], other[..p])
      && FilledWith(other[p..n], 63) && SameLayout(full[p..n], other[p..n])
  {
    assert Code('A') == 0 && Code('/') == 63;
    hide Code;
  }

  lemma DecodesDiffer(x: string, y: string)
    requires Known(x) && Known(y) && |x| % 4 == 0 && |y| % 4 == 0
    requires (forall i :: 0 <= i < |Codes(x)| ==> Codes(x)[i] == 0) && |Codes(x)| % 4 != 0
    requires (forall i :: 0 <= i < |Codes(y)| ==> Codes(y)[i] == 63) && Codes(y) != []
    ensures Decode(x + y) != Join(Decode(x), Decode(y))
  {
    hide Known, Codes, Emit, Decode;
    WholeQuads(|x|, |y|);
    CodesConcat(x, y);
    KnownConcat(x, y);
    DecodeWhole(x);
    DecodeWhole(y);
    DecodeWhole(x + y);
    EmitDiffers(Codes(x), Codes(y));
  }

  lemma {:induction false} EmitDiffers(s: seq<int>, t: seq<int>)
    requires (forall i :: 0 <= i < |s| ==> s[i] == 0) && |s| % 4 != 0
    requires (forall i :: 0 <= i < |t| ==> t[i] == 63) && t != []
    ensures Emit(s + t) != Emit(s) + Emit(t)
    decreases |s|
  {
    hide Emit, Group;
    if |s| < 4 {
      SplitGroup(s, t);
    } else {
      EmitStep(s);
      EmitStep(s + t);
      assert Drop4(s) == s[4..] && Drop4(s + t) == s[4..] + t;
      EmitDiffers(s[4..], t);
      var first := Group(0, 0, 0, 0);
      assert (first + Emit(s[4..])) + Emit(t) == first + (Emit(s[4..]) + Emit(t));
      SameRest(first, Emit(s[4..] + t), Emit(s[4..]) + Emit(t));
    }
  }

  lemma SameRest(head: seq<Byte>, left: seq<Byte>, right: seq<Byte>)
    requires left != right
    ensures head + left != head + right
  {
    assert (head + left)[|head|..] == left && (head + right)[|head|..] == right;
  }

  /** A group that is cut after one, two or three symbols. */
  lemma SplitGroup(s: seq<int>, t: seq<int>)
    requires 1 <= |s| <= 3 && (forall i :: 0 <= i < |s| ==> s[i] == 0)
    requires t != [] && forall i :: 0 <= i < |t| ==> t[i] == 63
    ensures Emit(s + t) != Emit(s) + Emit(t)
  {
    hide Emit, Group, Drop4, First;
    var (f, g, e, h) := Quad(s + t);
    var first := Quad(t);
    EmitStep(s + t);
    EmitStep(s);
    EmitStep(t);
    assert Drop4(s) == [] by { DropShort(s); }
    SizeOfNothing();
    GroupStart(f, g, e, h);
    GroupStart(0, 0, if |s| == 3 then 0 else 64, 64);
    GroupStart(first.0, first.1, first.2, first.3);
    FirstByte(g);
    FirstByte(0);
    FirstByte(first.1);
    var k := if |s| == 3 then 2 else |s| - 1;
    var whole, parts := Emit(s + t), Emit(s) + Emit(t);
    assert whole[k] == Group(f, g, e, h)[k];
    assert parts[k] == if |s| == 1 then 0 else Emit(t)[0];
  }

  lemma DropShort(s: seq<int>)
    requires |s| <= 4
    ensures Drop4(s) == []
  {
  }

  lemma GroupStart(f: int, g: int, e: int, h: int)
    requires 0 <= f < 64 && 0 <= g < 64 && 0 <= e <= 64 && 0 <= h <= 64
    ensures var bytes := Group(f, g, e, h);
      && bytes[0] == First(f, g)
      && (e != 64 ==> bytes[1] == g % 16 * 16 + e / 4)
      && (e != 64 && h != 64 ==> bytes[2] == e % 4 * 64 + h)
  {
    hide First;
  }

  lemma FirstByte(g: int)
    requires 0 <= g < 64
    ensures First(0, g) == g / 16 && First(63, g) >= 252
  {
  }

  lemma TwoEvents(one: string, two: string, p: nat, n: nat, x: Option<seq<Byte>>, y: Option<seq<Byte>>)
    requires |one| == p && p % 4 == 0 && one <= two && n == Aligned(|two|) && p <= n
    requires x == Decode(one) && y == Decode(two[p..n])
    ensures Deliver(0, [one, two]) == Join(x, y) && Agreeable([one, two], two)
  {
    hide Decode, Join;
    var texts := [one, two];
    assert texts[1..] == [two] && [two][1..] == [];
    assert one[0..p] == one;
    DecodeNothing();
    JoinNothing(y);
    assert two[p..p] == "" && one[0..0] == "";
    assert Progress(0, one) == (p, x);
    assert Progress(p, two) == (n, y);
    assert Deliver(n, []) == Some([]);
    assert Deliver(p, [two]) == Join(y, Deliver(n, []));
    assert Deliver(0, texts) == Join(x, Deliver(p, [two]));
  }
}
