/** `jspb.BinaryReader`: field headers, skipping, and the typed reads the generated code uses. */
module Reader {
  import opened Words
  import opened Coder
  import V = Varint
  import U = Utf8
  import W = Wire

  class BinaryReader {
    const decoder: Decoder
    var field: int
    var wire: int

    constructor (buffer: seq<Byte>)
      ensures fresh(decoder) && decoder.buffer == buffer
      ensures decoder.cursor == 0 && decoder.end == |buffer|
    {
      decoder := new Decoder(buffer);
      field, wire := -1, -1;
    }

    /** These bytes stand at `pos`, within the current bounds. */
    ghost predicate Placed(pos: int, bytes: seq<Byte>)
      reads decoder`end
    {
      && 0 <= pos && pos + |bytes| <= decoder.end <= |decoder.buffer|
      && decoder.buffer[pos..pos + |bytes|] == bytes
    }

    /** These bytes come next. */
    ghost predicate Ahead(bytes: seq<Byte>)
      reads decoder
    {
      Placed(decoder.cursor, bytes)
    }

    lemma PlacedParts(pos: int, x: seq<Byte>, y: seq<Byte>)
      requires Placed(pos, x + y)
      ensures Placed(pos, x) && Placed(pos + |x|, y)
    {
      var w := decoder.buffer[pos..pos + |x + y|];
      assert decoder.buffer[pos..pos + |x|] == w[..|x|];
      assert decoder.buffer[pos + |x|..pos + |x| + |y|] == w[|x|..];
    }

    method ReadVarint32(ghost n: nat) returns (r: Option<int>)
      requires 0 <= decoder.cursor
      modifies decoder`cursor
      ensures r.Some? ==> old(decoder.cursor) < decoder.cursor <= decoder.end
      ensures old(Ahead(V.Encode(n))) && n < 0x1_0000_0000 ==>
        r == Some(n) && decoder.cursor == old(decoder.cursor) + |V.Encode(n)|
    {
      hide V.Encode, V.Payload;
      ghost var start := decoder.cursor;
      if Ahead(V.Encode(n)) && n < 0x1_0000_0000 {
        V.EncodeShape(n);
        V.EndsWithin(decoder.buffer, start, n);
        Residue32(n, 0, n);
      }
      r := decoder.ReadUnsignedVarint32();
    }

    method ReadVarint64(ghost n: nat) returns (r: Option<(Word, Word)>)
      requires 0 <= decoder.cursor
      modifies decoder`cursor
      ensures r.Some? ==> old(decoder.cursor) < decoder.cursor
      ensures old(Ahead(V.Encode(n))) && n < 0x1_0000_0000_0000_0000 ==>
        r == Some(V.Halves(n)) && decoder.cursor == old(decoder.cursor) + |V.Encode(n)|
    {
      hide V.Encode, V.Payload, V.Halves;
      ghost var start := decoder.cursor;
      if Ahead(V.Encode(n)) && n < 0x1_0000_0000_0000_0000 {
        V.EncodeShape(n);
        V.EndsWithin(decoder.buffer, start, n);
      }
      r := decoder.ReadSplitVarint64();
    }

    /** Moves to the next field: `Some(false)` at the end of the bounds, nothing when the code throws. */
    method NextField(ghost num: nat, ghost w: nat) returns (r: Option<bool>)
      modifies this, decoder`cursor
      ensures old(decoder.cursor) == decoder.end ==> r == Some(false) && decoder.cursor == old(decoder.cursor)
      ensures r == Some(true) ==>
        0 <= old(decoder.cursor) < decoder.cursor <= decoder.end && 0 <= field && 0 <= wire < 6
      ensures old(Ahead(W.Tag(num, w))) && w < 6 && 8 * num + w < 0x1_0000_0000 ==>
        && r == Some(true) && field == num && wire == w
        && decoder.cursor == old(decoder.cursor) + |W.Tag(num, w)|
    {
      if decoder.cursor == decoder.end {
        return Some(false);
      }
      if decoder.cursor < 0 || decoder.end < decoder.cursor {
        return None;
      }
      hide V.Encode;
      var a := ReadVarint32(8 * num + w);
      if a == None {
        return None;
      }
      HeaderParts(num, w);
      var wireType := U32(a.value) % 8;
      if wireType != 0 && wireType != 5 && wireType != 1 && wireType != 2 && wireType != 3 && wireType != 4 {
        return None;
      }
      field := U32(a.value) / 8;
      wire := wireType;
      return Some(true);
    }

    /** Moves back over the header just read; its number and wire type are put together as a signed word. */
    method UnskipHeader()
      requires field >= 0 ==> 0 <= wire < 8
      modifies decoder`cursor
      ensures field >= 0 ==> decoder.cursor == old(decoder.cursor) - V.UnskipDistance(V.ToInt32(8 * field + wire))
      ensures field < 0 ==> decoder.cursor == old(decoder.cursor) - 1
    {
      var header := if field < 0 then -1 else V.ToInt32(8 * field + wire);
      decoder.UnskipVarint(header);
    }

    /** Reading a header and stepping back comes to where it began exactly for headers that a step back fits. */
    method NextAndBack(ghost num: nat, ghost w: nat) returns (r: Option<bool>)
      requires 0 <= decoder.cursor
      modifies this, decoder`cursor
      ensures old(Ahead(W.Tag(num, w))) && w < 6 && 8 * num + w < 0x1_0000_0000 ==>
        && r == Some(true)
        && (decoder.cursor == old(decoder.cursor) <==> 8 * num + w < 0x8000_0000 && !V.LeadsWith128(8 * num + w))
        && (8 * num + w >= 0x8000_0000 ==> decoder.cursor == old(decoder.cursor) + 4)
        && (8 * num + w < 0x8000_0000 && V.LeadsWith128(8 * num + w) ==> decoder.cursor == old(decoder.cursor) + 1)
    {
      hide V.Encode, V.UnskipDistance, V.ToInt32, V.LeadsWith128;
      r := NextField(num, w);
      if r == Some(true) {
        if w < 6 && 8 * num + w < 0x1_0000_0000 {
          V.UnskipHeaderExact(8 * num + w);
        }
        UnskipHeader();
      }
    }

    method ReadString(ghost text: seq<U.Unit>) returns (r: Option<seq<U.Unit>>)
      modifies decoder`cursor
      ensures (old(Ahead(W.Delimited(U.Encode(text)))) && wire == 2 && |U.Encode(text)| < 0x1_0000_0000) ==>
        r == Some(U.Surviving(text)) && decoder.cursor == old(decoder.cursor) + |W.Delimited(U.Encode(text))|
    {
      hide V.Encode, U.Encode, U.Decode, U.Surviving, W.Prefix;
      if wire != 2 || decoder.cursor < 0 {
        return None;
      }
      ghost var data := U.Encode(text);
      if Ahead(W.Delimited(data)) && |data| < 0x1_0000_0000 {
        W.PrefixIsVarint(|data|);
        PlacedParts(decoder.cursor, V.Encode(|data|), data);
        U.DecodeEncode(decoder.buffer, decoder.cursor + |V.Encode(|data|)|, text);
      }
      var a := ReadVarint32(|data|);
      if a == None {
        return None;
      }
      var s := decoder.ReadString(if a.value < 0 then 0 else a.value);
      return Some(s);
    }

    method ReadInt64(ghost v: nat) returns (r: Option<int>)
      modifies decoder`cursor
      ensures (old(Ahead(V.Encode(v))) && wire == 0 && v < 0x1_0000_0000_0000_0000) ==>
        r == Some(Signed(V.Halves(v).0, V.Halves(v).1)) && decoder.cursor == old(decoder.cursor) + |V.Encode(v)|
    {
      hide V.Encode, V.Halves, Signed;
      if wire != 0 || decoder.cursor < 0 {
        return None;
      }
      var a := ReadVarint64(v);
      if a == None {
        return None;
      }
      return Some(Signed(a.value.0, a.value.1));
    }

    method ReadInt32(ghost v: nat) returns (r: Option<int>)
      modifies decoder`cursor
      ensures (old(Ahead(V.Encode(v))) && wire == 0 && v < 0x1_0000_0000_0000_0000) ==>
        r == Some(V.ToInt32(v)) && decoder.cursor == old(decoder.cursor) + |V.Encode(v)|
    {
      hide V.Encode, V.ToInt32, V.Payload;
      if wire != 0 || decoder.cursor < 0 {
        return None;
      }
      ghost var start := decoder.cursor;
      if Ahead(V.Encode(v)) && v < 0x1_0000_0000_0000_0000 {
        V.EncodeShape(v);
        V.EndsWithin(decoder.buffer, start, v);
      }
      r := decoder.ReadSignedVarint32();
    }

    method Advance(count: int) returns (ok: bool)
      modifies decoder`cursor
      ensures decoder.cursor == old(decoder.cursor) + count
      ensures ok <==> decoder.cursor <= decoder.end
    {
      decoder.cursor := decoder.cursor + count;
      ok := decoder.cursor <= decoder.end;
    }

    /**
     Skips the field whose header was just read, groups included.  `fuel` bounds the fields looked at;
     the number of bytes to skip is always enough.
     */
    method SkipField(fuel: nat, ghost e: W.Elem) returns (ok: bool)
      modifies this, decoder`cursor
      ensures (old(Ahead(W.Payload(e)) && wire == W.WireType(e) && field == e.num) && W.Fits(e) &&
        fuel >= |W.Payload(e)|) ==>
        ok && decoder.cursor == old(decoder.cursor) + |W.Payload(e)|
      decreases fuel, 1
    {
      hide V.Encode, W.EncodeAll, U.Encode, W.Tag;
      if decoder.cursor < 0 {
        return false;
      }
      match wire
      case 0 =>
        ghost var start := decoder.cursor;
        if W.Fits(e) && e.Number? && Ahead(V.Encode(e.value)) {
          V.EncodeShape(e.value);
          V.EndsWithin(decoder.buffer, start, e.value);
        }
        decoder.SkipVarint();
        ok := true;
      case 1 =>
        ok := Advance(8);
      case 2 =>
        ghost var data := DelimitedData(e);
        if W.Fits(e) && W.WireType(e) == 2 && Ahead(W.Payload(e)) {
          W.PrefixIsVarint(|data|);
          PlacedParts(decoder.cursor, V.Encode(|data|), data);
        }
        var a := ReadVarint32(|data|);
        if a == None {
          return false;
        }
        ok := Advance(a.value);
      case 5 =>
        ok := Advance(4);
      case 3 =>
        ok := SkipGroup(fuel, if e.Group? then e.body else [], e.num);
      case _ =>
        ok := false;
    }

    /** Skips fields until the end of the group whose header was just read. */
    method SkipGroup(fuel: nat, ghost body: seq<W.Elem>, ghost num: nat) returns (ok: bool)
      modifies this, decoder`cursor
      ensures old(InGroup(body, num, fuel) && field == num) ==>
        ok && decoder.cursor == old(decoder.cursor) + |GroupBytes(body, num)|
      decreases fuel, 0
    {
      hide V.Encode, W.EncodeAll, W.Tag, W.Payload, W.Fits, W.AllFit, Placed, GroupBytes;
      var a := field;
      var left: nat := fuel;
      ghost var rest, stop := body, decoder.cursor + |GroupBytes(body, num)|;
      ghost var good := InGroup(body, num, fuel) && field == num;
      while left > 0
        invariant left <= fuel
        invariant good ==> InGroup(rest, num, left) && stop == decoder.cursor + |GroupBytes(rest, num)|
      {
        ghost var e := if rest == [] then W.Group(num, []) else rest[0];
        ghost var w := if rest == [] then 4 else W.WireType(e);
        ghost var here := decoder.cursor;
        if good {
          GroupStep(rest, num, left);
        }
        var more := NextField(e.num, w);
        if more == None || more == Some(false) {
          return false;
        }
        if wire == 4 {
          ok := field == a;
          return;
        }
        left := left - 1;
        ok := SkipField(left, e);
        if !ok {
          return false;
        }
        rest := if rest == [] then [] else rest[1..];
      }
      ok := false;
      if good {
        NonEmptyGroup(rest, num, left);
      }
    }

    ghost function GroupBytes(body: seq<W.Elem>, num: nat): seq<Byte> {
      W.EncodeAll(body) + W.Tag(num, 4)
    }

    /** The rest of a group comes next, and there is fuel for it. */
    ghost predicate InGroup(body: seq<W.Elem>, num: nat, fuel: nat)
      reads decoder
    {
      && Ahead(GroupBytes(body, num)) && W.AllFit(body)
      && 8 * num + 7 < 0x1_0000_0000 && fuel >= |GroupBytes(body, num)|
    }

    lemma NonEmptyGroup(rest: seq<W.Elem>, num: nat, fuel: nat)
      requires InGroup(rest, num, fuel)
      ensures fuel > 0
    {
      hide V.Encode;
    }

    lemma GroupStep(rest: seq<W.Elem>, num: nat, fuel: nat)
      requires InGroup(rest, num, fuel)
      ensures 8 * num + 7 < 0x1_0000_0000
      ensures rest == [] ==> Ahead(W.Tag(num, 4)) && GroupBytes(rest, num) == W.Tag(num, 4)
      ensures rest != [] ==>
        var e := rest[0];
        var head := |W.Tag(e.num, W.WireType(e))|;
        && Ahead(W.Tag(e.num, W.WireType(e))) && W.Fits(e) && 8 * e.num + 7 < 0x1_0000_0000
        && Placed(decoder.cursor + head, W.Payload(e))
        && Placed(decoder.cursor + head + |W.Payload(e)|, GroupBytes(rest[1..], num))
        && W.AllFit(rest[1..]) && head >= 1
        && |GroupBytes(rest, num)| == head + |W.Payload(e)| + |GroupBytes(rest[1..], num)|
    {
      hide V.Encode, W.Tag, W.Payload, Placed;
      if rest == [] {
        assert W.EncodeAll(rest) + W.Tag(num, 4) == W.Tag(num, 4);
      } else {
        W.EncodeAllSplit(rest);
        var t, p, q := W.Tag(rest[0].num, W.WireType(rest[0])), W.Payload(rest[0]), GroupBytes(rest[1..], num);
        assert GroupBytes(rest, num) == t + (p + q);
        PlacedParts(decoder.cursor, t, p + q);
        PlacedParts(decoder.cursor + |t|, p, q);
      }
    }
  }

  /** The body of a delimited field. */
  ghost function DelimitedData(e: W.Elem): seq<Byte> {
    match e
    case Text(_, text) => U.Encode(text)
    case Bytes(_, data) => data
    case Sub(_, body) => W.EncodeAll(body)
    case _ => []
  }

  lemma HeaderParts(num: nat, w: nat)
    ensures 8 * num + w < 0x1_0000_0000 && w < 8 ==> U32(8 * num + w) / 8 == num && U32(8 * num + w) % 8 == w
  {
    if 8 * num + w < 0x1_0000_0000 && w < 8 {
      Residue32(8 * num + w, 0, 8 * num + w);
    }
  }
}
