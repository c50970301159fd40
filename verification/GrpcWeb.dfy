/**
 The gRPC-Web stream parser: one byte at a time it collects frames of a flag byte, a big-endian length
 and a payload (Length-Prefixed-Message of the gRPC over HTTP2 protocol document; a set top bit marks
 the trailers frame of the gRPC-Web protocol document).
 */
module GrpcWeb {
  import opened Words

  datatype Phase = Flag | Length | Body | Broken | Oversized

  datatype Frame = Frame(flag: Byte, data: seq<Byte>)

  /**
   `frames` have been completed and wait to be handed out.  `last` is what the newest frame's array holds, and
   `over` counts the bytes that came after a length of 2^31 or more.
   */
  datatype State = State(phase: Phase, flag: Byte, length: int, lengthBytes: nat, got: seq<Byte>,
                         frames: seq<Frame>, pos: nat, last: Option<seq<Byte>>, over: nat)

  const START := State(Flag, 0, 0, 0, [], [], 0, None, 0)

  /** JavaScript's `(a << 8) + x` on a 32-bit accumulator. */
  function ShiftIn(a: int, x: Byte): int {
    var w := U32(a * 256);
    (if w >= 0x8000_0000 then w - 0x1_0000_0000 else w) + x
  }

  function Finish(s: State): State {
    s.(phase := Flag, frames := s.frames + [Frame(s.flag, s.got)], last := Some(s.got))
  }

  /** A typed array takes a byte at a position, or ignores it past its end. */
  function Written(data: seq<Byte>, k: nat, x: Byte): seq<Byte> {
    if k < |data| then data[k := x] else data
  }

  /** One byte: the new state, and whether the parser throws on it. */
  function Step(s: State, x: Byte): (State, bool) {
    match s.phase
    case Flag =>
      if x == 0 || x == 128 then
        (s.(phase := Length, flag := x, length := 0, lengthBytes := 0, pos := s.pos + 1), false)
      else (s.(phase := Broken), true)
    case Length =>
      var a, n := ShiftIn(s.length, x), s.lengthBytes + 1;
      var t := s.(length := a, lengthBytes := n);
      if n != 4 then (t.(pos := s.pos + 1), false)
      else if a < 0 then (t.(phase := Oversized, over := 0), true)
      else
        var u := t.(phase := Body, got := [], pos := s.pos + 1);
        (if a == 0 then Finish(u) else u, false)
    case Body =>
      var t := s.(got := s.got + [x], pos := s.pos + 1);
      (if |t.got| == s.length then Finish(t) else t, false)
    case Broken => (s, true)
    case Oversized =>
      if s.last == None then (s, true)
      else (s.(last := Some(Written(s.last.value, s.over, x)), over := s.over + 1, pos := s.pos + 1), false)
  }

  /** Bytes up to the first one the parser throws on. */
  function Run(s: State, bytes: seq<Byte>): (State, bool)
    decreases |bytes|
  {
    if bytes == [] then (s, false)
    else
      var (t, thrown) := Step(s, bytes[0]);
      if thrown then (t, true) else Run(t, bytes[1..])
  }

  /** One call with a chunk: the frames completed so far are handed out unless the call throws. */
  function Feed(s: State, chunk: seq<Byte>): (State, Option<seq<Frame>>) {
    var (t, thrown) := Run(s, chunk);
    if thrown then (t, None) else (t.(frames := []), Some(t.frames))
  }

  /** Call after call until one throws: the frames handed out, the state, and whether one threw. */
  function FeedAll(s: State, chunks: seq<seq<Byte>>): (seq<Frame>, State, bool)
    decreases |chunks|
  {
    if chunks == [] then ([], s, false)
    else
      var (t, out) := Feed(s, chunks[0]);
      if out == None then ([], t, true)
      else
        var (frames, u, thrown) := FeedAll(t, chunks[1..]);
        (out.value + frames, u, thrown)
  }

  lemma {:induction false} RunConcat(s: State, x: seq<Byte>, y: seq<Byte>)
    ensures Run(s, x + y) == if Run(s, x).1 then Run(s, x) else Run(Run(s, x).0, y)
    decreases |x|
  {
    hide Step;
    if x == [] {
      assert x + y == y;
    } else {
      assert (x + y)[1..] == x[1..] + y;
      RunConcat(Step(s, x[0]).0, x[1..], y);
    }
  }

  /** Frames waiting to be handed out do not influence the parser. */
  lemma StepFrames(s: State, fs: seq<Frame>, x: Byte)
    ensures Step(s.(frames := fs + s.frames), x)
         == (Step(s, x).0.(frames := fs + Step(s, x).0.frames), Step(s, x).1)
  {
    hide ShiftIn;
    var f := Frame(s.flag, s.got + [x]);
    assert fs + (s.frames + [f]) == fs + s.frames + [f];
    assert fs + (s.frames + [Frame(s.flag, [])]) == fs + s.frames + [Frame(s.flag, [])];
  }

  lemma {:induction false} RunFrames(s: State, fs: seq<Frame>, bytes: seq<Byte>)
    ensures Run(s.(frames := fs + s.frames), bytes)
         == (Run(s, bytes).0.(frames := fs + Run(s, bytes).0.frames), Run(s, bytes).1)
    decreases |bytes|
  {
    hide Step;
    if bytes != [] {
      StepFrames(s, fs, bytes[0]);
      RunFrames(Step(s, bytes[0]).0, fs, bytes[1..]);
    }
  }

  /**
   Chunks do not matter: however a stream is cut, the calls throw exactly when one call with the whole
   stream throws, and they end in the same state, with the same frames handed out or still waiting.
   */
  lemma {:induction false} ChunkInvariance(s: State, chunks: seq<seq<Byte>>)
    ensures var (frames, t, thrown) := FeedAll(s, chunks);
      Run(s, Concat(chunks)) == (t.(frames := frames + t.frames), thrown)
    ensures var (frames, t, thrown) := FeedAll(s, chunks);
      !thrown && (chunks != [] || s.frames == []) ==> t.frames == []
    decreases |chunks|
  {
    hide Step;
    if chunks == [] {
      assert [] + s.frames == s.frames;
    } else {
      var x, rest := chunks[0], chunks[1..];
      RunConcat(s, x, Concat(rest));
      var (r, thrown) := Run(s, x);
      if thrown {
        assert [] + r.frames == r.frames;
      } else {
        var t := r.(frames := []);
        ChunkInvariance(t, rest);
        RunFrames(t, r.frames, Concat(rest));
        assert r.frames + [] == r.frames;
        var (frames, u, thrown') := FeedAll(t, rest);
        assert r.frames + (frames + u.frames) == r.frames + frames + u.frames;
        if rest == [] {
          assert frames + u.frames == [];
        }
      }
    }
  }

  // ----- framing -----

  function BigEndian(n: nat, width: nat): (s: seq<Byte>)
    ensures |s| == width
  {
    if width == 0 then [] else BigEndian(n / 256, width - 1) + [n % 256]
  }

  function EncodeFrame(f: Frame): seq<Byte> {
    [f.flag] + BigEndian(|f.data|, 4) + f.data
  }

  function EncodeFrames(fs: seq<Frame>): seq<Byte> {
    if fs == [] then [] else EncodeFrame(fs[0]) + EncodeFrames(fs[1..])
  }

  ghost predicate FrameFits(f: Frame) {
    (f.flag == 0 || f.flag == 128) && |f.data| < 0x8000_0000
  }

  ghost predicate Fit(fs: seq<Frame>) {
    forall i :: 0 <= i < |fs| ==> FrameFits(fs[i])
  }

  lemma {:induction false} EncodeFramesAppend(fs: seq<Frame>, f: Frame)
    ensures EncodeFrames(fs + [f]) == EncodeFrames(fs) + EncodeFrame(f)
  {
    hide EncodeFrame;
    if fs == [] {
      assert fs + [f] == [f] && [f][1..] == [];
      assert EncodeFrames([f]) == EncodeFrame(f) + EncodeFrames([]);
    } else {
      assert (fs + [f])[1..] == fs[1..] + [f];
      EncodeFramesAppend(fs[1..], f);
    }
  }

  /** The bytes of the frame being read. */
  ghost function Pending(s: State): seq<Byte> {
    match s.phase
    case Length => if s.length >= 0 then [s.flag] + BigEndian(s.length, s.lengthBytes) else []
    case Body => if s.length >= 0 then [s.flag] + BigEndian(s.length, 4) + s.got else []
    case _ => []
  }

  /** What holds between two bytes as long as nothing was thrown. */
  ghost predicate Healthy(s: State) {
    && Fit(s.frames)
    && match s.phase
       case Flag => true
       case Length => (s.flag == 0 || s.flag == 128) && s.lengthBytes < 4 && 0 <= s.length < Pow256(s.lengthBytes)
       case Body => (s.flag == 0 || s.flag == 128) && 0 <= |s.got| < s.length < 0x8000_0000
       case Broken => false
       case Oversized => false
  }

  lemma ShiftInExact(a: int, n: nat, x: Byte)
    requires n < 4 && 0 <= a < Pow256(n)
    ensures n < 3 ==> ShiftIn(a, x) == a * 256 + x
    ensures ShiftIn(a, x) >= 0 ==> ShiftIn(a, x) == a * 256 + x < 0x8000_0000
    ensures ShiftIn(a, x) < 0 ==> a * 256 + x >= 0x8000_0000
    ensures a * 256 + x < Pow256(n + 1)
  {
    assert Pow256(3) == 0x100_0000 && Pow256(2) == 0x1_0000 && Pow256(1) == 256;
    Residue32(a * 256, 0, a * 256);
  }

  lemma BigEndianSnoc(a: nat, n: nat, x: Byte)
    ensures BigEndian(a * 256 + x, n + 1) == BigEndian(a, n) + [x]
  {
    assert (a * 256 + x) / 256 == a && (a * 256 + x) % 256 == x;
  }

  /** Every byte the parser accepts is kept: it is part of a finished frame or of the pending one. */
  lemma StepKeepsBytes(s: State, x: Byte)
    requires Healthy(s) && !Step(s, x).1
    ensures Healthy(Step(s, x).0)
    ensures EncodeFrames(Step(s, x).0.frames) + Pending(Step(s, x).0) == EncodeFrames(s.frames) + Pending(s) + [x]
  {
    match s.phase
    case Flag => assert BigEndian(0, 0) == [];
    case Length => LengthKeepsBytes(s, x);
    case Body => BodyKeepsBytes(s, x);
  }

  lemma LengthKeepsBytes(s: State, x: Byte)
    requires Healthy(s) && s.phase == Length && !Step(s, x).1
    ensures Healthy(Step(s, x).0)
    ensures EncodeFrames(Step(s, x).0.frames) + Pending(Step(s, x).0) == EncodeFrames(s.frames) + Pending(s) + [x]
  {
    hide EncodeFrames, ShiftIn, BigEndian, Pow256;
    ShiftInExact(s.length, s.lengthBytes, x);
    BigEndianSnoc(s.length, s.lengthBytes, x);
    if s.lengthBytes == 3 && ShiftIn(s.length, x) == 0 {
      EncodeFramesAppend(s.frames, Frame(s.flag, []));
    }
  }

  lemma BodyKeepsBytes(s: State, x: Byte)
    requires Healthy(s) && s.phase == Body
    ensures Healthy(Step(s, x).0)
    ensures EncodeFrames(Step(s, x).0.frames) + Pending(Step(s, x).0) == EncodeFrames(s.frames) + Pending(s) + [x]
  {
    hide EncodeFrames, BigEndian;
    if |s.got| + 1 == s.length {
      EncodeFramesAppend(s.frames, Frame(s.flag, s.got + [x]));
    }
  }

  /** A stream that is accepted is exactly the encoding of the frames found, followed by the pending bytes. */
  lemma {:induction false} AcceptedStream(bytes: seq<Byte>)
    requires !Run(START, bytes).1
    ensures var s := Run(START, bytes).0; Healthy(s) && bytes == EncodeFrames(s.frames) + Pending(s)
    decreases |bytes|
  {
    if bytes != [] {
      var front, x := bytes[..|bytes| - 1], bytes[|bytes| - 1];
      assert bytes == front + [x];
      RunConcat(START, front, [x]);
      AcceptedStream(front);
      RunOne(Run(START, front).0, x);
      StepKeepsBytes(Run(START, front).0, x);
    }
  }

  lemma RunOne(s: State, x: Byte)
    ensures Run(s, [x]) == Step(s, x)
  {
    hide Step;
    assert [x][1..] == [];
  }

  lemma {:induction false} RunBody(s: State, data: seq<Byte>)
    requires s.phase == Body && |s.got| + |data| == s.length && data != []
    ensures Run(s, data) == (Finish(s.(got := s.got + data, pos := s.pos + |data|)), false)
    decreases |data|
  {
    if |data| == 1 {
      RunOne(s, data[0]);
      assert data == [data[0]];
    } else {
      var t := s.(got := s.got + [data[0]], pos := s.pos + 1);
      RunBody(t, data[1..]);
      assert t.got + data[1..] == s.got + data;
    }
  }

  lemma {:induction false} RunLength(s: State, n: nat, k: nat)
    requires s.phase == Length && s.length == 0 && s.lengthBytes == 0 && n < Pow256(k) && k <= 3
    ensures Run(s, BigEndian(n, k)) == (s.(length := n, lengthBytes := k, pos := s.pos + k), false)
    decreases k
  {
    hide ShiftIn;
    if k > 0 {
      RunLength(s, n / 256, k - 1);
      RunConcat(s, BigEndian(n / 256, k - 1), [n % 256]);
      var t := s.(length := n / 256, lengthBytes := k - 1, pos := s.pos + (k - 1));
      RunOne(t, n % 256);
      ShiftInExact(n / 256, k - 1, n % 256);
    }
  }

  lemma RunFrame(s: State, f: Frame)
    requires s.phase == Flag && FrameFits(f)
    ensures var (t, thrown) := Run(s, EncodeFrame(f));
      && !thrown && t.phase == Flag && t.frames == s.frames + [f] && t.last == Some(f.data)
      && t.pos == s.pos + |EncodeFrame(f)|
  {
    hide ShiftIn, BigEndian, Run, Step;
    var n := |f.data|;
    var head := s.(phase := Length, flag := f.flag, length := 0, lengthBytes := 0, pos := s.pos + 1);
    assert Run(s, [f.flag]) == (head, false) by {
      RunOne(s, f.flag);
      StepFlag(s, f.flag);
    }
    FourBytes(n);
    RunLength(head, n / 256, 3);
    var t := head.(length := n / 256, lengthBytes := 3, pos := s.pos + 4);
    LastLengthByte(t, n);
    RunConcat(head, BigEndian(n / 256, 3), [n % 256]);
    RunConcat(s, [f.flag], BigEndian(n, 4));
    RunConcat(s, [f.flag] + BigEndian(n, 4), f.data);
    var u := t.(phase := Body, length := n, lengthBytes := 4, got := [], pos := s.pos + 5);
    if f.data != [] {
      RunBody(u, f.data);
      assert [] + f.data == f.data;
    } else {
      RunNothing(Finish(u));
    }
  }

  lemma RunNothing(s: State)
    ensures Run(s, []) == (s, false)
  {
  }

  lemma StepFlag(s: State, x: Byte)
    requires s.phase == Flag && (x == 0 || x == 128)
    ensures Step(s, x) == (s.(phase := Length, flag := x, length := 0, lengthBytes := 0, pos := s.pos + 1), false)
  {
  }

  lemma FourBytes(n: nat)
    ensures BigEndian(n, 4) == BigEndian(n / 256, 3) + [n % 256]
    ensures n < 0x8000_0000 ==> n / 256 < Pow256(3)
  {
    assert Pow256(3) == 0x100_0000;
  }

  lemma LastLengthByte(t: State, n: nat)
    requires t.phase == Length && t.lengthBytes == 3 && t.length == n / 256 && n < 0x8000_0000
    ensures Run(t, [n % 256]) == (
      var u := t.(phase := Body, length := n, lengthBytes := 4, got := [], pos := t.pos + 1);
      (if n == 0 then Finish(u) else u, false))
  {
    assert Pow256(3) == 0x100_0000;
    ShiftInExact(t.length, 3, n % 256);
    RunOne(t, n % 256);
  }

  function LastOf(fs: seq<Frame>, before: Option<seq<Byte>>): Option<seq<Byte>> {
    if fs == [] then before else Some(fs[|fs| - 1].data)
  }

  /** Framing and then parsing, in chunks of any sizes, gives back the frames. */
  lemma {:induction false} ParseEncoded(s: State, fs: seq<Frame>)
    requires s.phase == Flag && Fit(fs)
    ensures var (t, thrown) := Run(s, EncodeFrames(fs));
      !thrown && t.phase == Flag && t.frames == s.frames + fs && t.last == LastOf(fs, s.last)
    decreases |fs|
  {
    hide EncodeFrame;
    if fs == [] {
      assert s.frames + [] == s.frames;
    } else {
      RunFrame(s, fs[0]);
      RunConcat(s, EncodeFrame(fs[0]), EncodeFrames(fs[1..]));
      ParseEncoded(Run(s, EncodeFrame(fs[0])).0, fs[1..]);
      assert s.frames + [fs[0]] + fs[1..] == s.frames + fs;
    }
  }

  lemma RoundTripInChunks(fs: seq<Frame>, chunks: seq<seq<Byte>>)
    requires Fit(fs) && Concat(chunks) == EncodeFrames(fs)
    ensures FeedAll(START, chunks).0 == fs && !FeedAll(START, chunks).2
  {
    ParseEncoded(START, fs);
    ChunkInvariance(START, chunks);
    assert START.frames + fs == fs;
    var (frames, t, thrown) := FeedAll(START, chunks);
    assert frames + [] == frames;
  }

  // ----- streams that break the parser -----

  /** After whole frames comes a byte that is no flag. */
  ghost predicate BadFlagAfter(bytes: seq<Byte>, fs: seq<Frame>, x: Byte, rest: seq<Byte>) {
    Fit(fs) && x != 0 && x != 128 && bytes == EncodeFrames(fs) + [x] + rest
  }

  ghost predicate BadFlag(bytes: seq<Byte>) {
    exists fs, x, rest :: BadFlagAfter(bytes, fs, x, rest)
  }

  /** After whole frames comes a header with a length of 2^31 or more. */
  ghost predicate TooLongAfter(bytes: seq<Byte>, fs: seq<Frame>, flag: Byte, n: nat, rest: seq<Byte>) {
    && Fit(fs) && (flag == 0 || flag == 128) && 0x8000_0000 <= n < 0x1_0000_0000
    && bytes == EncodeFrames(fs) + [flag] + BigEndian(n, 4) + rest
  }

  ghost predicate TooLong(bytes: seq<Byte>) {
    exists fs, flag, n, rest :: TooLongAfter(bytes, fs, flag, n, rest)
  }

  lemma {:induction false} ThrowingByte(s: State, bytes: seq<Byte>) returns (k: nat)
    requires Run(s, bytes).1
    ensures k < |bytes| && !Run(s, bytes[..k]).1 && Run(s, bytes) == Step(Run(s, bytes[..k]).0, bytes[k])
    ensures Step(Run(s, bytes[..k]).0, bytes[k]).1
    decreases |bytes|
  {
    hide Step;
    if Step(s, bytes[0]).1 {
      k := 0;
    } else {
      k := ThrowingByte(Step(s, bytes[0]).0, bytes[1..]);
      k := k + 1;
      assert bytes[..k][1..] == bytes[1..][..k - 1];
    }
  }

  /** Only a bad flag or a last length byte makes the parser throw. */
  lemma ThrowingStep(s: State, x: Byte)
    requires Healthy(s) && Step(s, x).1
    ensures s.phase == Flag ==> x != 0 && x != 128 && Step(s, x).0.phase == Broken && Pending(s) == []
    ensures s.phase != Flag ==>
      && Step(s, x).0.phase == Oversized && 0x8000_0000 <= s.length * 256 + x < 0x1_0000_0000
      && Pending(s) + [x] == [s.flag] + BigEndian(s.length * 256 + x, 4)
  {
    hide ShiftIn, BigEndian;
    if s.phase == Length {
      ShiftInExact(s.length, s.lengthBytes, x);
      BigEndianSnoc(s.length, s.lengthBytes, x);
      assert Pow256(4) == 0x1_0000_0000;
    }
  }

  lemma ThrownIsBad(bytes: seq<Byte>)
    requires Run(START, bytes).1
    ensures Run(START, bytes).0.phase == Broken ==> BadFlag(bytes)
    ensures Run(START, bytes).0.phase != Broken ==> Run(START, bytes).0.phase == Oversized && TooLong(bytes)
  {
    hide Run, Step, BigEndian, EncodeFrames, Pending;
    var k := ThrowingByte(START, bytes);
    var s, x, rest := Run(START, bytes[..k]).0, bytes[k], bytes[k + 1..];
    AcceptedStream(bytes[..k]);
    ThrowingStep(s, x);
    assert bytes == bytes[..k] + [x] + rest;
    if s.phase == Flag {
      assert EncodeFrames(s.frames) + [] == EncodeFrames(s.frames);
      assert BadFlagAfter(bytes, s.frames, x, rest);
    } else {
      assert EncodeFrames(s.frames) + Pending(s) + [x] + rest == EncodeFrames(s.frames) + (Pending(s) + [x]) + rest;
      assert TooLongAfter(bytes, s.frames, s.flag, s.length * 256 + x, rest);
    }
  }

  lemma BadFlagThrows(bytes: seq<Byte>, fs: seq<Frame>, x: Byte, rest: seq<Byte>)
    requires BadFlagAfter(bytes, fs, x, rest)
    ensures var (s, thrown) := Run(START, bytes); thrown && s.phase == Broken && s.frames == fs
  {
    hide Run;
    ParseEncoded(START, fs);
    RunOne(Run(START, EncodeFrames(fs)).0, x);
    RunConcat(START, EncodeFrames(fs), [x]);
    RunConcat(START, EncodeFrames(fs) + [x], rest);
    assert [] + fs == fs;
  }

  lemma TooLongThrows(bytes: seq<Byte>, fs: seq<Frame>, flag: Byte, n: nat, rest: seq<Byte>)
    requires TooLongAfter(bytes, fs, flag, n, rest)
    ensures var (s, thrown) := Run(START, bytes);
      thrown && s.phase == Oversized && s.frames == fs && s.last == LastOf(fs, None) && s.over == 0
  {
    hide Run, Step, BigEndian, EncodeFrames, ShiftIn;
    ParseEncoded(START, fs);
    var s := Run(START, EncodeFrames(fs)).0;
    var head := s.(phase := Length, flag := flag, length := 0, lengthBytes := 0, pos := s.pos + 1);
    RunOne(s, flag);
    StepFlag(s, flag);
    FourBytes(n);
    assert n / 256 < 0x100_0000 == Pow256(3);
    RunLength(head, n / 256, 3);
    var t := head.(length := n / 256, lengthBytes := 3, pos := head.pos + 3);
    RunOne(t, n % 256);
    LastByteTooLong(t, n);
    RunConcat(head, BigEndian(n / 256, 3), [n % 256]);
    RunConcat(s, [flag], BigEndian(n, 4));
    RunConcat(START, EncodeFrames(fs), [flag] + BigEndian(n, 4));
    RunConcat(START, EncodeFrames(fs) + ([flag] + BigEndian(n, 4)), rest);
    assert EncodeFrames(fs) + ([flag] + BigEndian(n, 4)) == EncodeFrames(fs) + [flag] + BigEndian(n, 4);
    assert [] + fs == fs;
  }

  lemma LastByteTooLong(t: State, n: nat)
    requires t.phase == Length && t.lengthBytes == 3 && t.length == n / 256 && 0x8000_0000 <= n < 0x1_0000_0000
    ensures Step(t, n % 256).1
    ensures var u := Step(t, n % 256).0; u.phase == Oversized && u.frames == t.frames && u.last == t.last && u.over == 0
  {
    assert Pow256(3) == 0x100_0000;
    ShiftInExact(t.length, 3, n % 256);
  }

  /** The parser breaks at exactly the streams with a byte that is no flag where a frame should begin. */
  lemma BreaksExactly(bytes: seq<Byte>)
    ensures Run(START, bytes).1 && Run(START, bytes).0.phase == Broken <==> BadFlag(bytes)
    ensures Run(START, bytes).1 && Run(START, bytes).0.phase == Oversized <==> TooLong(bytes)
    ensures Run(START, bytes).1 <==> BadFlag(bytes) || TooLong(bytes)
  {
    hide Run, BadFlagAfter, TooLongAfter;
    if Run(START, bytes).1 {
      ThrownIsBad(bytes);
    }
    if BadFlag(bytes) {
      var fs, x, rest :| BadFlagAfter(bytes, fs, x, rest);
      BadFlagThrows(bytes, fs, x, rest);
    }
    if TooLong(bytes) {
      var fs, flag, n, rest :| TooLongAfter(bytes, fs, flag, n, rest);
      TooLongThrows(bytes, fs, flag, n, rest);
    }
  }

  /** What each call of a row of calls hands out (`None` when it throws), whether or not an earlier one threw. */
  function FeedEach(s: State, chunks: seq<seq<Byte>>): (outs: seq<Option<seq<Frame>>>)
    ensures |outs| == |chunks|
    decreases |chunks|
  {
    if chunks == [] then [] else [Feed(s, chunks[0]).1] + FeedEach(Feed(s, chunks[0]).0, chunks[1..])
  }

  lemma {:induction false} BrokenCalls(s: State, chunks: seq<seq<Byte>>, i: nat)
    requires s.phase == Broken && i < |chunks|
    ensures FeedEach(s, chunks)[i] ==
      if chunks[i] != [] then None else Some(if [] in chunks[..i] then [] else s.frames)
    decreases i
  {
    if i > 0 {
      assert chunks[..i] == [chunks[0]] + chunks[1..][..i - 1];
      BrokenCalls(Feed(s, chunks[0]).0, chunks[1..], i - 1);
    }
  }

  /**
   However a stream with a bad flag is cut, a call throws at the flag.  Of the calls after it those throw
   that bring a byte; the first that brings none hands out the frames still missing, and the others nothing.
   */
  lemma BrokenForGood(chunks: seq<seq<Byte>>, fs: seq<Frame>, x: Byte, rest: seq<Byte>, later: seq<seq<Byte>>, i: nat)
    requires BadFlagAfter(Concat(chunks), fs, x, rest) && i < |later|
    ensures var (handed, t, thrown) := FeedAll(START, chunks);
      && thrown && handed <= fs
      && FeedEach(t, later)[i] ==
           if later[i] != [] then None else Some(if [] in later[..i] then [] else fs[|handed|..])
  {
    BadFlagThrows(Concat(chunks), fs, x, rest);
    ChunkInvariance(START, chunks);
    var (handed, t, thrown) := FeedAll(START, chunks);
    assert handed + t.frames == fs;
    BrokenCalls(t, later, i);
  }

  // ----- calls after a length of 2^31 or more -----

  /** The front of the array is overwritten, as far as the bytes or the array reach. */
  function Overwritten(data: seq<Byte>, bytes: seq<Byte>): (r: seq<Byte>)
    ensures |r| == |data|
  {
    if |bytes| <= |data| then bytes + data[|bytes|..] else bytes[..|data|]
  }

  /** What the array holds after `over` of the bytes have come. */
  ghost predicate Overwriting(s: State, data: seq<Byte>, bytes: seq<Byte>) {
    s.phase == Oversized && s.over == |bytes| && s.last == Some(Overwritten(data, bytes))
  }

  lemma OneMoreByte(s: State, data: seq<Byte>, bytes: seq<Byte>, x: Byte)
    requires Overwriting(s, data, bytes)
    ensures !Step(s, x).1 && Overwriting(Step(s, x).0, data, bytes + [x]) && Step(s, x).0.frames == s.frames
  {
    assert Written(Overwritten(data, bytes), |bytes|, x) == Overwritten(data, bytes + [x]);
  }

  lemma {:induction false} MoreBytes(s: State, data: seq<Byte>, bytes: seq<Byte>, more: seq<Byte>)
    requires Overwriting(s, data, bytes)
    ensures !Run(s, more).1 && Overwriting(Run(s, more).0, data, bytes + more) && Run(s, more).0.frames == s.frames
    decreases |more|
  {
    hide Step, Overwriting;
    if more == [] {
      assert bytes + more == bytes;
    } else {
      OneMoreByte(s, data, bytes, more[0]);
      MoreBytes(Step(s, more[0]).0, data, bytes + [more[0]], more[1..]);
      assert bytes + [more[0]] + more[1..] == bytes + more;
    }
  }

  /** The state after a row of calls, whether or not one of them threw. */
  function FedEach(s: State, chunks: seq<seq<Byte>>): State
    decreases |chunks|
  {
    if chunks == [] then s else FedEach(Feed(s, chunks[0]).0, chunks[1..])
  }

  lemma {:induction false} OverwritingCalls(s: State, data: seq<Byte>, bytes: seq<Byte>, chunks: seq<seq<Byte>>)
    requires Overwriting(s, data, bytes)
    ensures Overwriting(FedEach(s, chunks), data, bytes + Concat(chunks))
    ensures forall i :: 0 <= i < |chunks| ==> FeedEach(s, chunks)[i] == Some(if i == 0 then s.frames else [])
    decreases |chunks|
  {
    hide Run, Step;
    if chunks == [] {
      assert bytes + [] == bytes;
    } else {
      MoreBytes(s, data, bytes, chunks[0]);
      OverwritingCalls(Feed(s, chunks[0]).0, data, bytes + chunks[0], chunks[1..]);
      assert bytes + chunks[0] + Concat(chunks[1..]) == bytes + Concat(chunks);
    }
  }

  lemma {:induction false} NoArrayCalls(s: State, chunks: seq<seq<Byte>>, i: nat)
    requires s.phase == Oversized && s.last == None && i < |chunks|
    ensures FeedEach(s, chunks)[i] == if chunks[i] != [] then None else Some(if [] in chunks[..i] then [] else s.frames)
    decreases i
  {
    if i > 0 {
      assert chunks[..i] == [chunks[0]] + chunks[1..][..i - 1];
      NoArrayCalls(Feed(s, chunks[0]).0, chunks[1..], i - 1);
    }
  }

  /**
   However a stream with a length of 2^31 or more is cut, a call throws at the length, and no later call hands
   out any other frame than those before it.  If there was one, no later call throws, the first hands out what
   is missing, and all bytes that come go over the last frame's array from its start on; if there was none,
   each later call that brings a byte throws.
   */
  lemma TooLongForGood(chunks: seq<seq<Byte>>, fs: seq<Frame>, flag: Byte, n: nat, rest: seq<Byte>,
                       later: seq<seq<Byte>>, i: nat)
    requires TooLongAfter(Concat(chunks), fs, flag, n, rest) && i < |later|
    ensures var (handed, t, thrown) := FeedAll(START, chunks);
      && thrown && handed <= fs
      && (fs == [] ==> FeedEach(t, later)[i] == if later[i] != [] then None else Some([]))
      && (fs != [] ==>
        && FeedEach(t, later)[i] == Some(if i == 0 then fs[|handed|..] else [])
        && FedEach(t, later).last == Some(Overwritten(fs[|fs| - 1].data, Concat(later))))
  {
    hide Run, FeedEach, FedEach, TooLongAfter;
    TooLongThrows(Concat(chunks), fs, flag, n, rest);
    ChunkInvariance(START, chunks);
    var (handed, t, thrown) := FeedAll(START, chunks);
    assert handed + t.frames == fs;
    if fs == [] {
      NoArrayCalls(t, later, i);
    } else {
      var data := fs[|fs| - 1].data;
      assert [] + data[0..] == data;
      OverwritingCalls(t, data, [], later);
      assert [] + Concat(later) == Concat(later);
    }
  }

  /** The framing of a request: a zero flag and the length, its bytes filled in from the last one. */
  method FrameRequest(data: seq<Byte>) returns (h: seq<Byte>)
    ensures |data| < 0x1_0000_0000 ==> h == EncodeFrame(Frame(0, data))
  {
    hide BigEndian, U32;
    var m := new Byte[4](_ => 0);
    var d: int := |data|;
    ghost var tail: seq<Byte> := [];
    assert BigEndian(d, 4) + tail == BigEndian(d, 4);
    for e := 4 downto 0
      invariant d >= 0 && m[e..] == tail
      invariant |data| < 0x1_0000_0000 ==> d < 0x1_0000_0000 && BigEndian(|data|, 4) == BigEndian(d, e) + tail
    {
      m[e] := d % 256;
      assert m[e..] == [d % 256] + tail;
      LowestByte(d, e, tail);
      tail := [d % 256] + tail;
      d := U32(d) / 256;
    }
    NoBytes(d);
    assert m[0..] == m[..];
    h := [0] + m[..] + data;
  }

  lemma LowestByte(d: nat, e: nat, tail: seq<Byte>)
    ensures d < 0x1_0000_0000 ==>
      U32(d) / 256 < 0x1_0000_0000 && BigEndian(d, e + 1) + tail == BigEndian(U32(d) / 256, e) + ([d % 256] + tail)
  {
    if d < 0x1_0000_0000 {
      Residue32(d, 0, d);
      assert BigEndian(d, e + 1) == BigEndian(d / 256, e) + [d % 256];
    }
  }

  lemma NoBytes(d: nat)
    ensures BigEndian(d, 0) == []
  {
  }

  // ----- the parser object -----

  /** A frame as it is handed out: its data is the array the parser has filled. */
  datatype Handle = Handle(flag: Byte, data: array<Byte>)

  /** The arrays hold the frames' data, but for the last one when that has been written over since. */
  ghost predicate Shows(handles: seq<Handle>, fs: seq<Frame>, over: Option<seq<Byte>>)
    reads set h | h in handles :: h.data
  {
    && |handles| == |fs|
    && forall i :: 0 <= i < |fs| ==>
         && handles[i].flag == fs[i].flag
         && handles[i].data[..] == if over.Some? && i == |fs| - 1 then over.value else fs[i].data
  }

  class Parser {
    var phase: Phase
    var flag: Byte
    var length: int
    var lengthBytes: nat
    var body: array?<Byte>
    var count: nat
    var frames: seq<Handle>
    var pos: nat

    /** A body being filled is nobody else's; at other times it is that of the newest frame. */
    ghost predicate Valid()
      reads this
    {
      && (phase == Body ==> Filling() && count < length)
      && (phase != Body && frames != [] ==> frames[|frames| - 1].data == body)
      && (forall i, j :: 0 <= i < j < |frames| ==> frames[i].data != frames[j].data)
    }

    ghost predicate Filling()
      reads this
    {
      body != null && count <= body.Length == length && forall i :: 0 <= i < |frames| ==> frames[i].data != body
    }

    ghost function Arrays(): set<object>
      reads this
    {
      (if body == null then {} else {body}) + set h | h in frames :: h.data as object
    }

    /** The parser's fields as one value. */
    ghost predicate View(s: State)
      reads this, Arrays()
    {
      && s.phase == phase && s.flag == flag && s.length == length && s.lengthBytes == lengthBytes && s.pos == pos
      && Shows(frames, s.frames, if phase == Oversized then s.last else None)
      && (phase == Body ==> body != null && count <= body.Length && s.got == body[..count])
      && (phase != Body ==> if body == null then s.last == None else s.last == Some(body[..]))
      && (phase == Oversized ==> s.over == count)
    }

    constructor ()
      ensures Valid() && View(START) && body == null
    {
      phase, flag, length, lengthBytes := Flag, 0, 0, 0;
      body, count, frames, pos := null, 0, [], 0;
    }

    /** Hands the body over to a new frame. */
    method FinishFrame(ghost s: State)
      requires phase == Body && Filling() && count == length && View(s)
      requires forall i, j :: 0 <= i < j < |frames| ==> frames[i].data != frames[j].data
      modifies this`frames, this`phase
      ensures Valid() && View(Finish(s))
    {
      assert body[..] == body[..count];
      frames := frames + [Handle(flag, body)];
      phase := Flag;
    }

    /** Takes one byte; false when the code throws. */
    method Take(x: Byte, ghost s: State) returns (ok: bool)
      requires Valid() && View(s)
      modifies this, body
      ensures Valid() && View(Step(s, x).0) && ok == !Step(s, x).1
      ensures body == old(body) || fresh(body)
    {
      hide Step, View, Valid;
      match PhaseOf(s) {
      case Broken =>
        ok := false;
        StepBroken(s, x);
      case Flag =>
        ok := TakeFlag(x, s);
      case Length =>
        ok := TakeLength(x, s);
      case Body =>
        ok := TakeBody(x, s);
      case Oversized =>
        ok := TakeMore(x, s);
      }
    }

    function PhaseOf(ghost s: State): (p: Phase)
      requires View(s)
      reads this, Arrays()
      ensures p == phase == s.phase
    {
      phase
    }

    method TakeFlag(x: Byte, ghost s: State) returns (ok: bool)
      requires Valid() && View(s) && phase == Flag
      modifies this
      ensures Valid() && View(Step(s, x).0) && ok == !Step(s, x).1
      ensures body == old(body)
    {
      if x == 0 || x == 128 {
        flag := x;
      } else {
        phase := Broken;
        return false;
      }
      phase := Length;
      length := 0;
      lengthBytes := 0;
      pos := pos + 1;
      ok := true;
    }

    /** The last byte of a length makes the array. */
    method TakeLength(x: Byte, ghost s: State) returns (ok: bool)
      requires Valid() && View(s) && phase == Length
      modifies this
      ensures Valid() && View(Step(s, x).0) && ok == !Step(s, x).1
      ensures body == old(body) || fresh(body)
    {
      hide ShiftIn;
      lengthBytes := lengthBytes + 1;
      length := ShiftIn(length, x);
      if lengthBytes == 4 {
        ok := StartBody(s.(length := length, lengthBytes := 4));
      } else {
        pos := pos + 1;
        ok := true;
      }
    }

    /** An empty body is a frame at once. */
    method StartBody(ghost s: State) returns (ok: bool)
      requires Valid() && View(s) && phase == Length
      modifies this
      ensures Valid() && ok == (s.length >= 0)
      ensures s.length < 0 ==> View(s.(phase := Oversized, over := 0))
      ensures s.length >= 0 ==>
        var u := s.(phase := Body, got := [], pos := s.pos + 1); View(if s.length == 0 then Finish(u) else u)
      ensures body == old(body) || fresh(body)
    {
      count := 0;
      if length < 0 {
        phase := Oversized;
        return false;
      }
      phase := Body;
      body := new Byte[length](_ => 0);
      pos := pos + 1;
      if length == 0 {
        FinishFrame(s.(phase := Body, got := [], pos := s.pos + 1));
      }
      ok := true;
    }

    method TakeBody(x: Byte, ghost s: State) returns (ok: bool)
      requires Valid() && View(s) && phase == Body
      modifies this, body
      ensures Valid() && View(Step(s, x).0) && ok == !Step(s, x).1
      ensures body == old(body)
    {
      body[count] := x;
      count := count + 1;
      pos := pos + 1;
      assert body[..count] == s.got + [x];
      if count == length {
        FinishFrame(s.(got := s.got + [x], pos := s.pos + 1));
      }
      ok := true;
    }

    /** After a length of 2^31 or more the bytes go to the array of the frame before, if there is one. */
    method TakeMore(x: Byte, ghost s: State) returns (ok: bool)
      requires Valid() && View(s) && phase == Oversized
      modifies this, body
      ensures Valid() && View(Step(s, x).0) && ok == !Step(s, x).1
      ensures body == old(body)
    {
      if body == null {
        return false;
      }
      if count < body.Length {
        body[count] := x;
      }
      assert body[..] == Written(s.last.value, s.over, x);
      count := count + 1;
      pos := pos + 1;
      ok := true;
    }

    /** One call: takes a chunk and hands out the frames completed so far. */
    method Parse(chunk: seq<Byte>, ghost s: State) returns (r: Option<seq<Handle>>, ghost t: State)
      requires Valid() && View(s)
      modifies this, body
      ensures Valid() && View(t) && t == Feed(s, chunk).0 && (r.Some? <==> Feed(s, chunk).1.Some?)
      ensures r.Some? ==> Shows(r.value, Feed(s, chunk).1.value, if t.phase == Oversized then t.last else None)
      ensures r.Some? && r.value != [] && phase != Body ==> r.value[|r.value| - 1].data == body
      ensures body == old(body) || fresh(body)
    {
      hide Step, View, Valid;
      t := s;
      var k := 0;
      while k < |chunk|
        invariant 0 <= k <= |chunk| && Valid() && View(t)
        invariant body == old(body) || fresh(body)
        invariant Run(s, chunk) == Run(t, chunk[k..])
      {
        assert chunk[k..][1..] == chunk[k + 1..];
        var ok := Take(chunk[k], t);
        t := Step(t, chunk[k]).0;
        if !ok {
          return None, t;
        }
        k := k + 1;
      }
      assert Run(s, chunk) == (t, false);
      var out := HandOut(t);
      t := t.(frames := []);
      return Some(out), t;
    }

    method HandOut(ghost t: State) returns (out: seq<Handle>)
      requires Valid() && View(t)
      modifies this`frames
      ensures Valid() && View(t.(frames := []))
      ensures Shows(out, t.frames, if t.phase == Oversized then t.last else None)
      ensures out != [] && phase != Body ==> out[|out| - 1].data == body
      ensures out == old(frames) && phase == old(phase) && body == old(body)
    {
      out := frames;
      frames := [];
    }
  }

  lemma StepBroken(s: State, x: Byte)
    requires s.phase == Broken
    ensures Step(s, x) == (s, true)
  {
  }
}
