/** `jspb.BinaryEncoder` and the varint half of `jspb.BinaryDecoder`. */
module Coder {
  import opened Words
  import V = Varint
  import U = Utf8

  class Encoder {
    var bytes: seq<Byte>

    constructor ()
      ensures bytes == []
    {
      bytes := [];
    }

    /** Hands out the bytes and starts afresh. */
    method End() returns (r: seq<Byte>)
      modifies this
      ensures r == old(bytes) && bytes == []
    {
      r := bytes;
      bytes := [];
    }

    method WriteBytes(data: seq<Byte>)
      modifies this
      ensures bytes == old(bytes) + data
    {
      bytes := bytes + data;
    }

    method WriteSplitVarint64(lo: Word, hi: Word)
      modifies this
      ensures bytes == old(bytes) + V.Encode(Join(lo, hi))
    {
      var a, b := lo, hi;
      while 0 < b || 127 < a
        invariant bytes + V.Encode(Join(a, b)) == old(bytes) + V.Encode(Join(lo, hi))
        decreases Join(a, b)
      {
        hide Join, V.Encode;
        EncodeStep(a, b);
        assert bytes + V.Encode(Join(a, b)) == (bytes + [a % 128 + 128]) + V.Encode(Join(a, b) / 128);
        bytes := bytes + [a % 128 + 128];
        a, b := a / 128 + (b % 128) * 0x200_0000, b / 128;
      }
      bytes := bytes + [a];
    }

    method WriteUnsignedVarint32(value: Word)
      modifies this
      ensures bytes == old(bytes) + V.Encode(value)
    {
      var a := value;
      while 127 < a
        invariant 0 <= a && bytes + V.Encode(a) == old(bytes) + V.Encode(value)
      {
        assert V.Encode(a) == [a % 128 + 128] + V.Encode(a / 128);
        assert bytes + V.Encode(a) == (bytes + [a % 128 + 128]) + V.Encode(a / 128);
        bytes := bytes + [a % 128 + 128];
        a := a / 128;
      }
      bytes := bytes + [a];
    }

    /** Negative numbers are sign-extended to 64 bits and always take ten bytes. */
    method WriteSignedVarint32(value: int)
      requires -0x8000_0000 <= value < 0x8000_0000
      modifies this
      ensures bytes == old(bytes) + V.Encode(Mod64(value))
    {
      if 0 <= value {
        Residue64(value, 0, value);
        WriteUnsignedVarint32(value);
      } else {
        var a := value;
        ghost var rest: nat := value + 0x1_0000_0000_0000_0000;
        Residue64(value, 0 - 1, rest);
        for b := 0 to 9
          invariant -Magnitudes()[b] <= a < 0 && rest == a + Tops()[b]
          invariant bytes + V.Encode(rest) == old(bytes) + V.Encode(Mod64(value))
        {
          SignExtendStep(a, b);
          assert V.Encode(rest) == [rest % 128 + 128] + V.Encode(rest / 128);
          assert bytes + V.Encode(rest) == (bytes + [a % 128 + 128]) + V.Encode(rest / 128);
          bytes := bytes + [a % 128 + 128];
          a := a / 128;
          rest := rest / 128;
        }
        assert a == -1;
        bytes := bytes + [1];
      }
    }

    method WriteZigZagVarint32(value: int)
      requires -0x8000_0000 <= value < 0x8000_0000
      modifies this
      ensures bytes == old(bytes) + V.Encode(V.ZigZag(value))
    {
      V.ZigZag32Inverse(value, 0);
      WriteUnsignedVarint32(V.ZigZag32(value));
    }

    method WriteSplitZigZagVarint64(lo: Word, hi: Word)
      modifies this
      ensures bytes == old(bytes) + V.Encode(V.ZigZag(Signed(lo, hi)))
    {
      V.ZigZag64Meaning(lo, hi);
      var z := V.ToZigZag64(lo, hi);
      WriteSplitVarint64(z.0, z.1);
    }

    /** Writes a string as UTF-8; returns the number of bytes written. */
    method WriteString(s: seq<U.Unit>) returns (count: int)
      modifies this
      ensures bytes == old(bytes) + U.Encode(s)
      ensures count == |U.Encode(s)|
    {
      var before := |bytes|;
      var c := 0;
      assert s[0..] == s;
      while c < |s|
        invariant 0 <= c <= |s| && bytes + U.Encode(s[c..]) == old(bytes) + U.Encode(s)
      {
        var d := s[c];
        assert s[c..][1..] == s[c + 1..];
        if U.IsHigh(d) && c + 1 < |s| {
          var f := s[c + 1];
          if U.IsLow(f) {
            assert s[c..][2..] == s[c + 2..];
            var v := U.PairValue(d, f);
            assert bytes + U.Encode(s[c..]) == (bytes + U.Encode2(v)) + U.Encode(s[c + 2..]);
            bytes := bytes + [v / 0x4_0000 + 240];
            bytes := bytes + [v / 4096 % 64 + 128];
            bytes := bytes + [v / 64 % 64 + 128];
            bytes := bytes + [v % 64 + 128];
            c := c + 1;
          }
        } else {
          assert bytes + U.Encode(s[c..]) == (bytes + U.Encode1(d)) + U.Encode(s[c + 1..]);
          bytes := bytes + U.Encode1(d);
        }
        c := c + 1;
      }
      count := |bytes| - before;
    }
  }

  class Decoder {
    const buffer: seq<Byte>
    var cursor: int
    var end: int

    constructor (buffer: seq<Byte>)
      ensures this.buffer == buffer && cursor == 0 && end == |buffer|
    {
      this.buffer := buffer;
      cursor := 0;
      end := |buffer|;
    }

    /** The byte at an index; -1 stands for JavaScript's `undefined`. */
    function At(i: int): (b: int)
      ensures -1 <= b < 256
    {
      if 0 <= i < |buffer| then buffer[i] else -1
    }

    /** The bytes passed since `start`. */
    ghost function Since(start: nat): seq<Byte>
      requires start <= cursor <= |buffer|
      reads this
    {
      buffer[start..cursor]
    }

    /** `n` bytes of one varint were read from `start`; `b` is the last of them. */
    ghost predicate Midway(start: nat, n: nat, b: int)
      reads this
    {
      && cursor == start + n
      && (n == 0 ==> b == 128)
      && (n > 0 ==> b == At(cursor - 1))
      && (n > 0 && b >= 0 ==> cursor <= |buffer|)
      && (b >= 0 ==> start <= |buffer| || n == 0)
      && forall i :: start <= i < cursor - 1 ==> i < |buffer| && buffer[i] >= 128
    }

    /** The two words hold the payload of what was read so far. */
    ghost predicate Holds(start: nat, lo: int, hi: int)
      reads this
    {
      start <= cursor <= |buffer| ==> (lo, hi) == V.Halves(V.Payload(Since(start)))
    }

    /** Reads one more byte of the varint that starts at `start`. */
    method Next(ghost start: nat, ghost n: nat, ghost was: int) returns (b: int)
      requires Midway(start, n, was) && was >= 128
      modifies this`cursor
      ensures cursor == old(cursor) + 1 && Midway(start, n + 1, b) && -1 <= b < 256
      ensures b < 0 ==> |buffer| < cursor
      ensures 0 <= b ==> cursor <= |buffer| && Since(start) == buffer[start..cursor - 1] + [b]
    {
      b := At(cursor);
      cursor := cursor + 1;
    }

    lemma Finished(start: nat, n: nat, b: int)
      requires Midway(start, n, b) && 1 <= n <= 10 && (b < 128 || n == 10)
      ensures 0 <= b < 128 ==> V.EndsAfter(buffer, start, n)
      ensures forall k: nat {:trigger V.EndsAfter(buffer, start, k)} :: k <= 10 && V.EndsAfter(buffer, start, k) ==>
        0 <= b < 128 && k == n
    {
      forall k: nat | k <= 10 && V.EndsAfter(buffer, start, k)
        ensures 0 <= b < 128 && k == n
      {
        assert k >= n;
      }
    }

    /**
     Reads up to ten bytes into two words.  It succeeds exactly when a varint of at most ten bytes
     starts at the cursor, and then it passes that varint and nothing else.
     */
    method ReadSplitVarint64() returns (r: Option<(Word, Word)>)
      requires 0 <= cursor
      modifies this`cursor
      ensures forall k: nat {:trigger V.EndsAfter(buffer, old(cursor), k)} ::
        k <= 10 && V.EndsAfter(buffer, old(cursor), k) ==>
        cursor == old(cursor) + k && r == Some(V.Halves(V.Payload(buffer[old(cursor)..old(cursor) + k])))
      ensures r.Some? ==>
        old(cursor) < cursor <= old(cursor) + 10 && V.EndsAfter(buffer, old(cursor), cursor - old(cursor))
    {
      hide V.Halves, V.Payload, V.EndsAfter, At;
      ghost var start := cursor;
      var b, lo, hi, f := 128, 0, 0, 0;
      NothingRead();
      assert start <= |buffer| ==> Since(start) == [];
      while f < 4 && 128 <= b
        invariant 0 <= f <= 4 && Midway(start, f, b) && Holds(start, lo, hi)
        invariant start <= cursor <= |buffer| ==> lo == V.Payload(Since(start)) && hi == 0
      {
        b := Next(start, f, b);
        if 0 <= b {
          V.HalvesLowStep(buffer[start..cursor - 1], b);
        }
        lo := lo + Low7(b) * V.Pow128(f);
        f := f + 1;
      }
      ghost var n := f;
      if 128 <= b {
        b := Next(start, n, b);
        if 0 <= b {
          V.HalvesMiddleStep(buffer[start..cursor - 1], b);
        }
        lo := lo + U32(Low7(b) * 0x1000_0000);
        hi := hi + Low7(b) / 16;
        n := n + 1;
      }
      if 128 <= b {
        b, hi, n := ReadHighGroups(start, b, lo, hi);
      }
      Finished(start, n, b);
      if 0 <= b < 128 {
        return Some((lo, hi));
      }
      return None;
    }

    /** The sixth to the tenth byte, gathered in the high word. */
    method ReadHighGroups(ghost start: nat, was: int, ghost lo: Word, high: Word)
        returns (b: int, hi: Word, ghost n: nat)
      requires was >= 128 && Midway(start, 5, was) && Holds(start, lo, high)
      modifies this`cursor
      ensures Midway(start, n, b) && Holds(start, lo, hi) && 6 <= n <= 10 && (b < 128 || n == 10)
    {
      hide V.Halves, V.Payload, At;
      b, hi, n := was, high, 5;
      var f := 0;
      while f < 5 && 128 <= b
        invariant 0 <= f <= 5 && n == f + 5 && Midway(start, n, b) && Holds(start, lo, hi)
        invariant f == 0 ==> 128 <= b
      {
        b := Next(start, n, b);
        if 0 <= b {
          V.HalvesHighStep(buffer[start..cursor - 1], b);
        }
        Residue32(0, 0, 0);
        hi := hi + U32(Low7(b) * (8 * V.Pow128(f)));
        f := f + 1;
        n := n + 1;
      }
    }

    /** The cursor check that follows every bounded read: passing the end throws. */
    method Checked(v: int) returns (r: Option<int>)
      ensures r == if cursor <= end then Some(v) else None
    {
      r := if cursor <= end then Some(v) else None;
    }

    /** The outcome `r` of the 32-bit reader started at `start`. */
    ghost predicate Reads32(start: nat, r: Option<int>)
      reads this
    {
      && (forall k: nat {:trigger V.EndsAfter(buffer, start, k)} :: k <= 10 && V.EndsAfter(buffer, start, k) ==>
            && cursor == start + k
            && r == if cursor <= end then Some(V.AsVarint32(V.Payload(buffer[start..start + k]), k)) else None)
      && (r.Some? ==> start < cursor <= end)
      && (r.Some? && end <= |buffer| ==> cursor <= start + 10 && V.EndsAfter(buffer, start, cursor - start))
    }

    /**
     The unrolled 32-bit reader: five bytes are decoded, up to five more are skipped.  On a varint of
     at most ten bytes inside the bounds it returns the low 32 bits and passes exactly that varint.
     */
    method ReadUnsignedVarint32() returns (r: Option<int>)
      requires 0 <= cursor
      modifies this`cursor
      ensures Reads32(old(cursor), r)
    {
      hide Reads32, V.EndsAfter, At, Low7, V.ToInt32, LowWord;
      ghost var start := cursor;
      var b := At(cursor);
      var c: int := Low7(b);
      FirstGroup(start);
      if 0 <= b < 128 {
        cursor := cursor + 1;
        r := Checked(c);
        StopsEarly(start, 1, c, r);
        return;
      }
      b := At(cursor + 1);
      NextGroup(start, 1, c);
      c := c + Low7(b) * 0x80;
      if 0 <= b < 128 {
        cursor := cursor + 2;
        r := Checked(c);
        StopsEarly(start, 2, c, r);
        return;
      }
      b := At(cursor + 2);
      NextGroup(start, 2, c);
      c := c + Low7(b) * 0x4000;
      if 0 <= b < 128 {
        cursor := cursor + 3;
        r := Checked(c);
        StopsEarly(start, 3, c, r);
        return;
      }
      b := At(cursor + 3);
      NextGroup(start, 3, c);
      c := c + Low7(b) * 0x20_0000;
      if 0 <= b < 128 {
        cursor := cursor + 4;
        r := Checked(c);
        StopsEarly(start, 4, c, r);
        return;
      }
      b := At(cursor + 4);
      NextGroup(start, 4, c);
      c := c + Low7(b) % 16 * 0x1000_0000;
      if 0 <= b < 128 {
        cursor := cursor + 5;
        r := Checked(c);
        StopsEarly(start, 5, c, r);
        return;
      }
      r := SkipRest(start, c);
    }

    /** The second half of the reader: passes up to five more bytes and returns the low word as signed. */
    method SkipRest(ghost start: nat, c: int) returns (r: Option<int>)
      requires cursor == start && LowWord(start, 5, c)
      requires forall j :: start <= j < start + 5 ==> At(j) < 0 || At(j) >= 128
      modifies this`cursor
      ensures Reads32(start, r)
    {
      hide Reads32, V.EndsAfter, At, Low7, V.ToInt32, LowWord;
      cursor := cursor + 5;
      var i := 0;
      while i < 5 && 128 <= At(cursor)
        invariant 0 <= i <= 5 && cursor == start + 5 + i
        invariant forall j :: start + 5 <= j < cursor ==> At(j) >= 128
      {
        cursor := cursor + 1;
        i := i + 1;
      }
      if i == 5 {
        NeverStops(start);
        return None;
      }
      cursor := cursor + 1;
      r := Checked(V.ToInt32(c));
      RunsOn(start, 6 + i, c, r);
    }

    /** A varint stops at the first byte below 128 and nowhere else. */
    lemma StopsAt(start: nat, k: nat)
      requires 1 <= k && 0 <= At(start + k - 1) < 128
      requires forall j :: start <= j < start + k - 1 ==> At(j) < 0 || At(j) >= 128
      ensures V.EndsAfter(buffer, start, k)
      ensures forall k': nat {:trigger V.EndsAfter(buffer, start, k')} :: V.EndsAfter(buffer, start, k') ==> k' == k
    {
      forall j | start <= j < start + k - 1 ensures buffer[j] >= 128 {
        assert At(j) == buffer[j];
      }
      forall k': nat | V.EndsAfter(buffer, start, k') ensures k' == k {
        V.UniqueEnd(buffer, start, k', k);
      }
    }

    lemma StopByte(start: nat, k: nat)
      requires V.EndsAfter(buffer, start, k)
      ensures 1 <= k && 0 <= At(start + k - 1) < 128 && start + k <= |buffer|
      ensures forall j :: start <= j < start + k - 1 ==> At(j) >= 128
    {
    }

    lemma NeverStops(start: nat)
      requires forall j :: start <= j < start + 10 ==> At(j) < 0 || At(j) >= 128
      ensures Reads32(start, None)
    {
      hide At, V.EndsAfter;
      forall k: nat | k <= 10 && V.EndsAfter(buffer, start, k) ensures false {
        StopByte(start, k);
      }
    }

    /** What the first `k` bytes contribute to the low word. */
    ghost predicate LowWord(start: nat, k: nat, c: int) {
      c == Low7(At(start))
        + (if k >= 2 then Low7(At(start + 1)) * 0x80 else 0)
        + (if k >= 3 then Low7(At(start + 2)) * 0x4000 else 0)
        + (if k >= 4 then Low7(At(start + 3)) * 0x20_0000 else 0)
        + (if k >= 5 then Low7(At(start + 4)) % 16 * 0x1000_0000 else 0)
    }

    lemma FirstGroup(start: nat)
      ensures LowWord(start, 1, Low7(At(start)))
    {
    }

    lemma NextGroup(start: nat, k: nat, c: int)
      requires 1 <= k <= 4 && LowWord(start, k, c)
      ensures k == 1 ==> LowWord(start, 2, c + Low7(At(start + 1)) * 0x80)
      ensures k == 2 ==> LowWord(start, 3, c + Low7(At(start + 2)) * 0x4000)
      ensures k == 3 ==> LowWord(start, 4, c + Low7(At(start + 3)) * 0x20_0000)
      ensures k == 4 ==> LowWord(start, 5, c + Low7(At(start + 4)) % 16 * 0x1000_0000)
    {
      hide Low7, At;
    }

    lemma LowGroups(start: nat, k: nat, c: int)
      requires 1 <= k <= 5 && start + k <= |buffer| && LowWord(start, k, c)
      ensures c == V.AsVarint32(V.Payload(buffer[start..start + k]), k)
    {
      hide V.Payload;
      var s := buffer[start..start + k];
      if k <= 3 {
        V.PayloadShort(s);
        Residue32(c, 0, c);
      } else if k == 4 {
        V.PayloadFour(s);
        NothingRead();
        assert s[4..] == [];
        Residue32(c, 0, c);
      } else {
        V.LowBits(s);
      }
    }

    lemma StopsEarly(start: nat, k: nat, c: int, r: Option<int>)
      requires 1 <= k <= 5 && cursor == start + k && r == if cursor <= end then Some(c) else None
      requires 0 <= At(start + k - 1) < 128 && LowWord(start, k, c)
      requires forall j :: start <= j < start + k - 1 ==> At(j) < 0 || At(j) >= 128
      ensures Reads32(start, r)
    {
      hide LowWord, V.EndsAfter, V.Payload, V.AsVarint32;
      StopsAt(start, k);
      LowGroups(start, k, c);
    }

    /** Past the fifth byte only the stopping place is left to find. */
    lemma RunsOn(start: nat, k: nat, c: int, r: Option<int>)
      requires 6 <= k <= 10 && cursor == start + k && r == if cursor <= end then Some(V.ToInt32(c)) else None
      requires At(start + k - 1) < 128 && LowWord(start, 5, c)
      requires forall j :: start <= j < start + 5 ==> At(j) < 0 || At(j) >= 128
      requires forall j :: start + 5 <= j < start + k - 1 ==> At(j) >= 128
      ensures Reads32(start, r)
    {
      hide V.EndsAfter, V.Payload, V.ToInt32, LowWord, At;
      forall k': nat | k' <= 10 && V.EndsAfter(buffer, start, k') ensures k' == k && start + k <= |buffer| {
        StopByte(start, k');
      }
      if start + k <= |buffer| {
        LowWordPayload(start, k, c);
        Defined(start + k - 1);
        StopsAt(start, k);
      }
    }

    lemma Defined(i: nat)
      requires i < |buffer|
      ensures 0 <= At(i)
    {
    }

    lemma LowWordPayload(start: nat, k: nat, c: int)
      requires 6 <= k && start + k <= |buffer| && LowWord(start, 5, c)
      ensures V.ToInt32(c) == V.AsVarint32(V.Payload(buffer[start..start + k]), k)
    {
      hide V.Payload;
      V.LowBits(buffer[start..start + k]);
      Residue32(c, 0, c);
    }

    /** Passes a varint of any length without decoding it. */
    method SkipVarint()
      requires 0 <= cursor
      modifies this`cursor
      ensures old(cursor) < cursor
      ensures forall k: nat {:trigger V.EndsAfter(buffer, old(cursor), k)} :: V.EndsAfter(buffer, old(cursor), k) ==>
        cursor == old(cursor) + k
    {
      ghost var start := cursor;
      while 128 <= At(cursor)
        invariant start <= cursor && forall j :: start <= j < cursor ==> At(j) >= 128
        decreases |buffer| - cursor
      {
        cursor := cursor + 1;
      }
      cursor := cursor + 1;
      forall k: nat | V.EndsAfter(buffer, start, k) ensures cursor == start + k {
        StopByte(start, k);
      }
    }

    /** Moves back as over a varint of this value, which may come as a signed or as an unsigned word. */
    method UnskipVarint(value: int)
      requires -0x8000_0000 <= value < 0x1_0000_0000
      modifies this`cursor
      ensures cursor == old(cursor) - V.UnskipDistance(value)
    {
      var a := value;
      while 128 < a
        invariant -0x8000_0000 <= a && cursor - V.UnskipDistance(a) == old(cursor) - V.UnskipDistance(value)
      {
        cursor := cursor - 1;
        a := a / 128;
      }
      cursor := cursor - 1;
    }

    /** The plain signed reader: the same bits, as a signed 32-bit number. */
    method ReadSignedVarint32() returns (r: Option<int>)
      requires 0 <= cursor
      modifies this`cursor
      ensures forall k: nat {:trigger V.EndsAfter(buffer, old(cursor), k)} ::
        k <= 10 && V.EndsAfter(buffer, old(cursor), k) ==>
        && cursor == old(cursor) + k
        && r == if cursor <= end then Some(V.ToInt32(V.Payload(buffer[old(cursor)..old(cursor) + k]))) else None
      ensures r.Some? ==> old(cursor) < cursor <= end
    {
      hide V.Payload, V.ToInt32;
      ghost var start := cursor;
      var v := ReadUnsignedVarint32();
      if v == None {
        return None;
      }
      forall k: nat | k <= 10 && V.EndsAfter(buffer, start, k)
        ensures V.ToInt32(v.value) == V.ToInt32(V.Payload(buffer[start..start + k]))
      {
        V.SameInt32(V.Payload(buffer[start..start + k]), k);
      }
      return Some(V.ToInt32(v.value));
    }

    /**
     Reads UTF-8 from the cursor until `length` bytes are used up, a last sequence running past them if
     need be.  Units gather in `pending`, which is flushed whenever it reaches 8192.
     */
    method ReadString(length: nat) returns (r: seq<U.Unit>)
      requires 0 <= cursor
      modifies this`cursor
      ensures (r, cursor) == U.Decode(buffer, old(cursor), old(cursor) + length)
    {
      hide U.Step;
      var limit := cursor + length;
      var pending: seq<U.Unit> := [];
      r := [];
      var c: nat := cursor;
      assert r + pending + U.Decode(buffer, c, limit).0 == U.Decode(buffer, c, limit).0;
      while c < limit
        invariant U.Decode(buffer, cursor, limit) ==
          (r + pending + U.Decode(buffer, c, limit).0, U.Decode(buffer, c, limit).1)
        decreases limit - c
      {
        var (units, next) := U.Step(buffer, c);
        assert r + pending + (units + U.Decode(buffer, next, limit).0) == r + (pending + units) +
          U.Decode(buffer, next, limit).0;
        pending := pending + units;
        c := next;
        if 8192 <= |pending| {
          assert r + pending + U.Decode(buffer, c, limit).0 == (r + pending) + [] + U.Decode(buffer, c, limit).0;
          r := r + pending;
          pending := [];
        }
      }
      assert r + pending + [] == r + pending;
      r := r + pending;
      cursor := c;
    }
  }

  /** Reading back a split 64-bit varint, whatever follows it. */
  method RoundTripSplit64(lo: Word, hi: Word, suffix: seq<Byte>) returns (r: Option<(Word, Word)>, used: int)
    ensures r == Some((lo, hi)) && used == |V.Encode(Join(lo, hi))| <= 10
  {
    V.HalvesOfJoin(lo, hi);
    hide *;
    var e := new Encoder();
    e.WriteSplitVarint64(lo, hi);
    assert e.bytes == V.Encode(Join(lo, hi));
    EncodedPrefix(Join(lo, hi), suffix);
    var d := new Decoder(e.bytes + suffix);
    assert V.EndsAfter(d.buffer, d.cursor, |e.bytes|);
    r := d.ReadSplitVarint64();
    used := d.cursor;
  }

  /** Reading back a signed 32-bit number: negative ones come back from their ten-byte form. */
  method RoundTripSigned32(value: int, suffix: seq<Byte>) returns (r: Option<int>, used: int)
    requires -0x8000_0000 <= value < 0x8000_0000
    ensures r == Some(value) && used == |V.Encode(Mod64(value))|
    ensures value < 0 ==> used == 10
  {
    hide *;
    SignedWord(value);
    var e := new Encoder();
    e.WriteSignedVarint32(value);
    assert e.bytes == V.Encode(Mod64(value));
    EncodedPrefix(Mod64(value), suffix);
    var d := new Decoder(e.bytes + suffix);
    assert V.EndsAfter(d.buffer, d.cursor, |e.bytes|);
    r := d.ReadSignedVarint32();
    used := d.cursor;
  }

  lemma EncodedPrefix(n: nat, suffix: seq<Byte>)
    requires n < 0x1_0000_0000_0000_0000
    ensures var e := V.Encode(n);
      |e| <= 10 && V.EndsAfter(e + suffix, 0, |e|) && V.Payload((e + suffix)[0..|e|]) == n
  {
    var e := V.Encode(n);
    V.EncodeShape(n);
    assert (e + suffix)[0..|e|] == e;
    V.EndsWithin(e + suffix, 0, n);
  }

  lemma SignedWord(value: int)
    requires -0x8000_0000 <= value < 0x8000_0000
    ensures V.ToInt32(Mod64(value)) == value
    ensures value < 0 ==> |V.Encode(Mod64(value))| == 10
  {
    hide V.Encode;
    Residue64(value, if value < 0 then 0 - 1 else 0, if value < 0 then value + 0x1_0000_0000_0000_0000 else value);
    Residue32(Mod64(value), if value < 0 then 0xFFFF_FFFF else 0, if value < 0 then value + 0x1_0000_0000 else value);
    if value < 0 {
      LongForm(Mod64(value));
    }
  }

  /** Only numbers of 64 bits need the tenth byte. */
  lemma LongForm(n: nat)
    requires 0x8000_0000_0000_0000 <= n < 0x1_0000_0000_0000_0000
    ensures |V.Encode(n)| == 10
  {
    var e := V.Encode(n);
    V.EncodeShape(n);
    V.PayloadBound(e);
    PowerGrows(|e|, 9);
    V.SmallPowers(9);
  }

  lemma {:induction false} PowerGrows(j: nat, k: nat)
    ensures j <= k ==> V.Pow128(j) <= V.Pow128(k)
  {
    if j < k {
      PowerGrows(j, k - 1);
    }
  }

  function Low7(b: int): nat {
    if b < 0 then 0 else b % 128
  }

  lemma NothingRead()
    ensures V.Payload([]) == 0 && V.Halves(0) == (0, 0)
  {
  }

  lemma EncodeStep(a: Word, b: Word)
    requires 0 < b || 127 < a
    ensures a / 128 + (b % 128) * 0x200_0000 < 0x1_0000_0000
    ensures Join(a / 128 + (b % 128) * 0x200_0000, b / 128) == Join(a, b) / 128 < Join(a, b)
    ensures V.Encode(Join(a, b)) == [a % 128 + 128] + V.Encode(Join(a, b) / 128)
  {
    SplitShift(a, b);
    var n := Join(a, b);
    assert n >= 128;
    assert V.Encode(n) == [n % 128 + 128] + V.Encode(n / 128);
  }

  lemma SplitShift(a: Word, b: Word)
    ensures a / 128 + (b % 128) * 0x200_0000 < 0x1_0000_0000
    ensures (b / 128) * 0x1_0000_0000 + (a / 128 + (b % 128) * 0x200_0000) == (b * 0x1_0000_0000 + a) / 128
    ensures (b * 0x1_0000_0000 + a) % 128 == a % 128
  {
  }

  /** 2^64 after each of the nine shifts by seven. */
  function Tops(): (t: seq<nat>)
    ensures |t| == 10
  {
    [0x10000000000000000, 0x200000000000000, 0x4000000000000, 0x80000000000, 0x1000000000, 0x20000000, 0x400000,
      0x8000, 0x100, 0x2]
  }

  /** How far below zero a sign-extended 32-bit number can still be after each shift. */
  function Magnitudes(): (m: seq<nat>)
    ensures |m| == 10
  {
    [0x80000000, 0x1000000, 0x20000, 0x400, 0x8, 0x1, 0x1, 0x1, 0x1, 0x1]
  }

  lemma SignExtendStep(a: int, b: nat)
    requires b < 9 && -Magnitudes()[b] <= a < 0
    ensures -Magnitudes()[b + 1] <= a / 128 < 0
    ensures a + Tops()[b] >= 128
    ensures (a + Tops()[b]) / 128 == a / 128 + Tops()[b + 1] && (a + Tops()[b]) % 128 == a % 128
  {
    assert Tops()[b] == 128 * Tops()[b + 1];
    assert Magnitudes()[b] <= 128 * Magnitudes()[b + 1] && Tops()[b] >= 256 * Magnitudes()[b + 1];
  }
}
