/**
 `jspb.BinaryWriter`: bytes are collected in a list of blocks.  The block that ends just before a
 delimited field's body carries, as its last item, the byte count at that point; closing the field
 takes that bookmark off again and appends the length to the same block, in place.
 */
module Writer {
  import opened Words
  import opened Coder
  import V = Varint
  import U = Utf8
  import W = Wire

  class Block {
    var items: seq<int>

    constructor (items: seq<int>)
      ensures this.items == items
    {
      this.items := items;
    }
  }

  lemma {:induction false} ConcatAppend(xs: seq<seq<Byte>>, ys: seq<seq<Byte>>)
    ensures Concat(xs + ys) == Concat(xs) + Concat(ys)
  {
    if xs == [] {
      assert xs + ys == ys;
    } else {
      assert (xs + ys)[1..] == xs[1..] + ys;
      ConcatAppend(xs[1..], ys);
    }
  }

  lemma ConcatSnoc(xs: seq<seq<Byte>>, x: seq<Byte>)
    ensures Concat(xs + [x]) == Concat(xs) + x
  {
    ConcatAppend(xs, [x]);
    assert [x][1..] == [];
    assert Concat([x]) == x + Concat([]);
  }

  /** A further block leaves every open body where it begins. */
  lemma BodiesStay(held: seq<seq<Byte>>, data: seq<Byte>, at: seq<nat>, opens: seq<nat>)
    requires |at| == |opens| && forall j :: 0 <= j < |at| ==> at[j] < |held| && opens[j] == |Concat(held[..at[j] + 1])|
    ensures forall j :: 0 <= j < |at| ==> opens[j] == |Concat((held + [data])[..at[j] + 1])|
  {
    hide Concat, Want;
    forall j | 0 <= j < |at| ensures opens[j] == |Concat((held + [data])[..at[j] + 1])| {
      assert (held + [data])[..at[j] + 1] == held[..at[j] + 1];
    }
  }

  /** So does a change behind them. */
  lemma OuterStay(held: seq<seq<Byte>>, i: nat, data: seq<Byte>, at: seq<nat>, opens: seq<nat>)
    requires i < |held| && |at| == |opens|
    requires forall j :: 0 <= j < |at| ==> at[j] < i && opens[j] == |Concat(held[..at[j] + 1])|
    ensures forall j :: 0 <= j < |at| ==> opens[j] == |Concat(held[i := data][..at[j] + 1])|
  {
    hide Concat, Want;
    forall j | 0 <= j < |at| ensures opens[j] == |Concat(held[i := data][..at[j] + 1])| {
      assert held[i := data][..at[j] + 1] == held[..at[j] + 1];
    }
  }

  /** What each block holds: those at `at` carry a bookmark, the running count when they were opened. */
  ghost function Want(held: seq<seq<Byte>>, at: seq<nat>, opens: seq<nat>, lost: nat): (want: seq<seq<int>>)
    requires |at| == |opens| && forall j :: 0 <= j < |at| ==> at[j] < |held|
    ensures |want| == |held|
  {
    if at == [] then held
    else
      var n := |at| - 1;
      Want(held, at[..n], opens[..n], lost)[at[n] := held[at[n]] + [opens[n] - lost]]
  }

  lemma WantNone(held: seq<seq<Byte>>, lost: nat)
    ensures Want(held, [], [], lost) == held
  {
  }

  lemma WantMark(held: seq<seq<Byte>>, at: seq<nat>, opens: seq<nat>, lost: nat, i: nat, open: nat)
    requires |at| == |opens| && i < |held| && forall j :: 0 <= j < |at| ==> at[j] < |held|
    ensures Want(held, at + [i], opens + [open], lost) == Want(held, at, opens, lost)[i := held[i] + [open - lost]]
  {
    assert (at + [i])[..|at|] == at && (opens + [open])[..|at|] == opens;
  }

  /** Only the innermost open block differs when its mark is gone. */
  lemma WantUnmark(held: seq<seq<Byte>>, at: seq<nat>, opens: seq<nat>, lost: nat)
    requires |at| == |opens| > 0 && (forall j :: 0 <= j < |at| ==> at[j] < |held|)
    requires forall i, j :: 0 <= i < j < |at| ==> at[i] < at[j]
    ensures var n := |at| - 1;
      && Want(held, at[..n], opens[..n], lost)[at[n]] == held[at[n]]
      && Want(held, at, opens, lost)[at[n]] == held[at[n]] + [opens[n] - lost]
      && forall k :: 0 <= k < |held| && k != at[n] ==>
        Want(held, at, opens, lost)[k] == Want(held, at[..n], opens[..n], lost)[k]
  {
    WantGrow(held, at[|at| - 1], held[at[|at| - 1]], at[..|at| - 1], opens[..|at| - 1], lost);
  }

  lemma {:induction false} WantAppend(held: seq<seq<Byte>>, data: seq<Byte>, at: seq<nat>, opens: seq<nat>, lost: nat)
    requires |at| == |opens| && forall j :: 0 <= j < |at| ==> at[j] < |held|
    ensures Want(held + [data], at, opens, lost) == Want(held, at, opens, lost) + [data]
    decreases |at|
  {
    if at != [] {
      WantAppend(held, data, at[..|at| - 1], opens[..|at| - 1], lost);
    }
  }

  lemma {:induction false} WantGrow(held: seq<seq<Byte>>, i: nat, data: seq<Byte>, at: seq<nat>, opens: seq<nat>,
    lost: nat)
    requires |at| == |opens| && i < |held| && forall j :: 0 <= j < |at| ==> at[j] < i
    ensures Want(held, at, opens, lost)[i] == held[i]
    ensures Want(held[i := data], at, opens, lost) == Want(held, at, opens, lost)[i := data]
    decreases |at|
  {
    if at != [] {
      WantGrow(held, i, data, at[..|at| - 1], opens[..|at| - 1], lost);
    }
  }

  /** `v` put in at position `p`. */
  function Insert(s: seq<Byte>, p: nat, v: seq<Byte>): seq<Byte>
    requires p <= |s|
  {
    s[..p] + v + s[p..]
  }

  /** To grow a block is to insert after it. */
  lemma InsertAtBlock(held: seq<seq<Byte>>, i: nat, tail: seq<Byte>, v: seq<Byte>)
    requires i < |held|
    ensures |Concat(held[..i + 1])| <= |Concat(held)| && |Concat(held[i := held[i] + v])| == |Concat(held)| + |v|
    ensures Concat(held[i := held[i] + v]) + tail == Insert(Concat(held) + tail, |Concat(held[..i + 1])|, v)
  {
    hide Concat, Want;
    var front, back := held[..i], held[i + 1..];
    assert held == front + [held[i]] + back && held[..i + 1] == front + [held[i]];
    assert held[i := held[i] + v] == front + [held[i] + v] + back;
    ConcatSnoc(front, held[i]);
    ConcatSnoc(front, held[i] + v);
    ConcatAppend(front + [held[i]], back);
    ConcatAppend(front + [held[i] + v], back);
  }

  /** What the length's bytes, put behind block `i`, do to the blocks and to the bodies open around it. */
  lemma BlockGrows(held: seq<seq<Byte>>, i: nat, tail: seq<Byte>, v: seq<Byte>, at: seq<nat>, opens: seq<nat>,
                   lost: nat)
    requires i < |held| && |at| == |opens|
    requires forall j :: 0 <= j < |at| ==> at[j] < i && opens[j] == |Concat(held[..at[j] + 1])|
    ensures var grown := held[i := held[i] + v];
      && |Concat(held[..i + 1])| <= |Concat(held)| && |Concat(grown)| == |Concat(held)| + |v|
      && Concat(grown) + tail == Insert(Concat(held) + tail, |Concat(held[..i + 1])|, v)
      && (forall j :: 0 <= j < |at| ==> opens[j] == |Concat(grown[..at[j] + 1])|)
      && Want(held, at, opens, lost)[i] == held[i]
      && Want(grown, at, opens, lost) == Want(held, at, opens, lost)[i := grown[i]]
  {
    hide Concat, Want, Insert;
    InsertAtBlock(held, i, tail, v);
    OuterStay(held, i, held[i] + v, at, opens);
    WantGrow(held, i, held[i] + v, at, opens, lost);
  }

  class BinaryWriter {
    var blocks: seq<Block>
    var total: nat
    const encoder: Encoder
    var bookmarks: seq<Block>

    /** The bytes of each block without its bookmark, the open blocks, and where their bodies begin. */
    ghost var held: seq<seq<Byte>>
    ghost var at: seq<nat>
    ghost var opens: seq<nat>

    /** How many bytes the running count has missed. */
    ghost var lost: nat

    ghost predicate Shape()
      reads this, blocks
    {
      && |held| == |blocks| && |at| == |opens|
      && (forall i, j :: 0 <= i < j < |blocks| ==> blocks[i] != blocks[j])
      && (forall j :: 0 <= j < |at| ==> at[j] < |blocks|)
      && (forall i, j :: 0 <= i < j < |at| ==> at[i] < at[j])
      && (forall i :: 0 <= i < |blocks| ==> blocks[i].items == Want(held, at, opens, lost)[i])
    }

    ghost predicate Valid()
      reads this, blocks
    {
      && Shape() && total + lost == |Concat(held)|
      && (forall j :: 0 <= j < |at| ==> opens[j] == |Concat(held[..at[j] + 1])|)
    }

    /** All bytes written so far, lengths of open fields not yet among them. */
    ghost function Flat(): seq<Byte>
      reads this, encoder
    {
      Concat(held) + encoder.bytes
    }

    constructor ()
      ensures Valid() && Flat() == [] && at == [] && bookmarks == [] && blocks == [] && lost == 0
      ensures fresh(encoder)
    {
      blocks, total, bookmarks := [], 0, [];
      encoder := new Encoder();
      held, at, opens, lost := [], [], [], 0;
    }

    /** Moves the encoder's bytes into a block of their own. */
    method Flush() returns (b: Block)
      requires Valid()
      modifies this`blocks, this`total, this`held, encoder
      ensures Valid() && fresh(b)
      ensures blocks == old(blocks) + [b] && held == old(held) + [old(encoder.bytes)] && encoder.bytes == []
      ensures Flat() == old(Flat())
    {
      hide Concat, Want;
      ghost var before := Concat(held);
      var bytes := encoder.End();
      b := AppendBlock(bytes);
      assert before + bytes + [] == before + bytes;
    }

    /** Adds a block that holds `data` as it is. */
    method AppendBlock(data: seq<Byte>) returns (b: Block)
      requires Valid()
      modifies this`blocks, this`total, this`held
      ensures Valid() && fresh(b) && blocks == old(blocks) + [b] && held == old(held) + [data]
      ensures Concat(held) == old(Concat(held)) + data
    {
      hide Concat, Want;
      b := new Block(data);
      ConcatSnoc(held, data);
      BodiesStay(held, data, at, opens);
      WantAppend(held, data, at, opens, lost);
      blocks := blocks + [b];
      total := total + |data|;
      held := held + [data];
    }

    /** Writes a field header. */
    method WriteTag(num: nat, wire: nat)
      requires Valid() && 1 <= num && wire < 8 && 8 * num + 7 < 0x1_0000_0000
      modifies encoder
      ensures Valid() && Flat() == old(Flat()) + W.Tag(num, wire)
    {
      encoder.WriteUnsignedVarint32(8 * num + wire);
      assert Concat(held) + (old(encoder.bytes) + W.Tag(num, wire)) == old(Flat()) + W.Tag(num, wire);
    }

    /** Opens a delimited field: its header goes out and a bookmark is left behind it. */
    method BeginDelimited(num: nat) returns (b: Block)
      requires Valid() && 1 <= num && 8 * num + 7 < 0x1_0000_0000
      modifies this`blocks, this`total, this`held, this`at, this`opens, encoder
      ensures Valid() && fresh(b) && blocks == old(blocks) + [b]
      ensures at == old(at) + [|old(blocks)|] && opens == old(opens) + [|Flat()|]
      ensures Flat() == old(Flat()) + W.Tag(num, 2)
    {
      hide Concat, Want, W.Tag;
      WriteTag(num, 2);
      b := Flush();
      Bookmark(b);
      assert Flat() == Concat(held) + [];
    }

    /** Leaves the running count behind the bytes of the newest block. */
    method Bookmark(b: Block)
      requires Valid() && blocks != [] && b == blocks[|blocks| - 1] && |blocks| - 1 !in at
      modifies this`at, this`opens, b
      ensures Valid() && at == old(at) + [|blocks| - 1] && opens == old(opens) + [|Concat(held)|]
    {
      hide Concat, Want;
      ghost var n := |blocks| - 1;
      WantMark(held, at, opens, lost, n, total + lost);
      WantGrow(held, n, held[n], at, opens, lost);
      b.items := b.items + [total];
      at, opens := at + [n], opens + [total + lost];
      assert held[..n + 1] == held;
    }

    /** Closes the innermost delimited field: its length is put in front of its body. */
    method EndDelimited(b: Block)
      requires Valid() && at != [] && b == blocks[at[|at| - 1]]
      modifies this`total, this`held, this`at, this`opens, b
      ensures Valid()
      ensures at == old(at)[..|old(at)| - 1] && opens == old(opens)[..|old(at)| - 1]
      ensures var p := old(opens)[|old(at)| - 1];
        p <= |old(Flat())| && Flat() == Insert(old(Flat()), p, W.Prefix(|old(Flat())| - p))
    {
      hide Concat, Want, W.Prefix, Insert;
      ghost var i := at[|at| - 1];
      var c := TakeMark(b);
      ghost var v := W.Prefix(c);
      AppendPrefix(b, c);
      BlockGrows(held, i, encoder.bytes, v, at, opens, lost);
      held := held[i := held[i] + v];
    }

    /** Takes the innermost bookmark off again: the bytes written since. */
    method TakeMark(b: Block) returns (length: nat)
      requires Valid() && at != [] && b == blocks[at[|at| - 1]]
      modifies this`at, this`opens, b
      ensures Valid()
      ensures at == old(at)[..|old(at)| - 1] && opens == old(opens)[..|old(at)| - 1]
      ensures length == |Flat()| - old(opens)[|old(at)| - 1]
    {
      hide Concat, Want;
      ghost var n, i := |at| - 1, at[|at| - 1];
      ConcatMonotone(held, i + 1);
      WantUnmark(held, at, opens, lost);
      length := total + |encoder.bytes| - b.items[|b.items| - 1];
      b.items := b.items[..|b.items| - 1];
      at, opens := at[..n], opens[..n];
    }

    /** The length, as a varint, goes to the end of the block; the running count follows. */
    method AppendPrefix(b: Block, length: nat)
      modifies this`total, b
      ensures b.items == old(b.items) + W.Prefix(length)
      ensures total == old(total) + |W.Prefix(length)|
    {
      var c := length;
      ghost var first := true;
      ghost var v := W.Prefix(length);
      while 127 < c
        invariant 0 <= c && (!first ==> c < 0x1_0000_0000)
        invariant b.items + (if first then W.Prefix(c) else V.Encode(c)) == old(b.items) + v
        invariant total == old(total) + |b.items| - |old(b.items)|
        decreases first, c
      {
        ghost var next := V.Encode(U32(c) / 128);
        if !first {
          Residue32(c, 0, c);
        }
        assert b.items + ([c % 128 + 128] + next) == (b.items + [c % 128 + 128]) + next;
        b.items := b.items + [c % 128 + 128];
        total := total + 1;
        c := U32(c) / 128;
        first := false;
      }
      b.items := b.items + [c];
      total := total + 1;
    }

    method WriteNumber(num: nat, lo: Word, hi: Word)
      requires Valid() && 1 <= num && 8 * num + 7 < 0x1_0000_0000
      modifies encoder
      ensures Valid() && Flat() == old(Flat()) + (W.Tag(num, 0) + V.Encode(Join(lo, hi)))
    {
      hide Concat, Want, W.Tag, Join;
      ghost var before := Flat();
      WriteTag(num, 0);
      ghost var bytes := encoder.bytes;
      encoder.WriteSplitVarint64(lo, hi);
      Assoc(Concat(held), bytes, V.Encode(Join(lo, hi)));
      Assoc(before, W.Tag(num, 0), V.Encode(Join(lo, hi)));
    }

    method WriteInt64(num: nat, value: int)
      requires Valid() && 1 <= num && 8 * num + 7 < 0x1_0000_0000
      requires -0x8000_0000_0000_0000 <= value < 0x8000_0000_0000_0000
      modifies encoder
      ensures Valid() && Flat() == old(Flat()) + (W.Tag(num, 0) + V.Encode(Mod64(value)))
    {
      V.SplitInt64Exact(value);
      hide Concat, Want, W.Tag, Join, V.SplitInt64, Mod64;
      var halves := V.SplitInt64(value);
      WriteNumber(num, halves.0, halves.1);
    }

    method WriteInt32(num: nat, value: int)
      requires Valid() && 1 <= num && 8 * num + 7 < 0x1_0000_0000
      requires -0x8000_0000 <= value < 0x8000_0000
      modifies encoder
      ensures Valid() && Flat() == old(Flat()) + (W.Tag(num, 0) + V.Encode(Mod64(value)))
    {
      hide Concat, Want, W.Tag, Mod64;
      ghost var before := Flat();
      WriteTag(num, 0);
      ghost var bytes := encoder.bytes;
      encoder.WriteSignedVarint32(value);
      Assoc(Concat(held), bytes, V.Encode(Mod64(value)));
      Assoc(before, W.Tag(num, 0), V.Encode(Mod64(value)));
    }

    method WriteText(num: nat, text: seq<U.Unit>)
      requires Valid() && 1 <= num && 8 * num + 7 < 0x1_0000_0000
      modifies this`blocks, this`total, this`held, this`at, this`opens, encoder
      ensures Valid() && Continues(old(blocks), old(at), old(opens))
      ensures Flat() == old(Flat()) + (W.Tag(num, 2) + W.Delimited(U.Encode(text)))
    {
      hide Concat, Want, Insert, W.Tag, W.Prefix, W.Delimited, U.Encode;
      ghost var before := Flat();
      var b := BeginDelimited(num);
      ghost var begun := Flat();
      ghost var bytes := encoder.bytes;
      var count := encoder.WriteString(text);
      Assoc(Concat(held), bytes, U.Encode(text));
      EndDelimited(b);
      Closed(before, W.Tag(num, 2), begun, U.Encode(text), Flat());
    }

    method WriteRaw(num: nat, data: seq<Byte>)
      requires Valid() && 1 <= num && 8 * num + 7 < 0x1_0000_0000 && |data| < 0x1_0000_0000
      modifies this`blocks, this`total, this`held, encoder
      ensures Valid() && Continues(old(blocks), old(at), old(opens))
      ensures Flat() == old(Flat()) + (W.Tag(num, 2) + W.Delimited(data))
    {
      hide Concat, Want, W.Tag, W.Prefix, V.Encode;
      ghost var before := Flat();
      W.PrefixIsVarint(|data|);
      WriteTag(num, 2);
      ghost var bytes := encoder.bytes;
      encoder.WriteUnsignedVarint32(|data|);
      Assoc(Concat(held), bytes, W.Prefix(|data|));
      Assoc(before, W.Tag(num, 2), W.Prefix(|data|));
      var head := Flush();
      assert Concat(held) + [] == Concat(held);
      var body := AppendBlock(data);
      assert Concat(held) + [] == Concat(held);
      Assoc(before, W.Tag(num, 2) + W.Prefix(|data|), data);
      Assoc(W.Tag(num, 2), W.Prefix(|data|), data);
    }

    /** Nothing that was open has been closed, and no earlier block was dropped. */
    ghost predicate Continues(blocks0: seq<Block>, at0: seq<nat>, opens0: seq<nat>)
      reads this
    {
      blocks0 <= blocks && at == at0 && opens == opens0
    }

    /** Writes one element, nested bodies included. */
    method Write(e: W.Elem)
      requires Valid() && W.Writable(e)
      modifies this`blocks, this`total, this`held, this`at, this`opens, encoder
      ensures Valid() && Continues(old(blocks), old(at), old(opens))
      ensures Flat() == old(Flat()) + W.Encode(e)
      decreases e, 1
    {
      hide Concat, Want, W.Tag, W.Prefix, W.Delimited, V.Encode, W.EncodeAll, U.Encode;
      match e
      case Number(num, value) =>
        SplitValue(value);
        WriteNumber(num, U32(value), value / 0x1_0000_0000);
      case Text(num, text) =>
        WriteText(num, text);
      case Bytes(num, data) =>
        WriteRaw(num, data);
      case Sub(num, body) =>
        WriteSub(num, body, e);
      case Group(num, body) =>
        WriteGroup(num, body, e);
      case Fixed32(num, data) =>
        WriteFixed(num, 5, data);
      case Fixed64(num, data) =>
        WriteFixed(num, 1, data);
    }

    method WriteFixed(num: nat, wire: nat, data: seq<Byte>)
      requires Valid() && 1 <= num && wire < 8 && 8 * num + 7 < 0x1_0000_0000
      modifies encoder
      ensures Valid() && Flat() == old(Flat()) + (W.Tag(num, wire) + data)
    {
      hide Concat, Want, W.Tag;
      ghost var before := Flat();
      WriteTag(num, wire);
      ghost var bytes := encoder.bytes;
      encoder.WriteBytes(data);
      Assoc(Concat(held), bytes, data);
      Assoc(before, W.Tag(num, wire), data);
    }

    /** Writes a message field around a body of its own. */
    method WriteSub(num: nat, body: seq<W.Elem>, ghost e: W.Elem)
      requires Valid() && e == W.Sub(num, body) && W.Writable(e)
      modifies this`blocks, this`total, this`held, this`at, this`opens, encoder
      ensures Valid() && Continues(old(blocks), old(at), old(opens))
      ensures Flat() == old(Flat()) + (W.Tag(num, 2) + W.Delimited(W.EncodeAll(body)))
      decreases e, 0
    {
      hide Concat, Want, Insert, W.Tag, W.Prefix, W.Delimited, W.EncodeAll;
      ghost var before := Flat();
      var b := BeginDelimited(num);
      ghost var begun := Flat();
      WriteAll(body);
      EndDelimited(b);
      Closed(before, W.Tag(num, 2), begun, W.EncodeAll(body), Flat());
    }

    method WriteGroup(num: nat, body: seq<W.Elem>, ghost e: W.Elem)
      requires Valid() && e == W.Group(num, body) && W.Writable(e)
      modifies this`blocks, this`total, this`held, this`at, this`opens, encoder
      ensures Valid() && Continues(old(blocks), old(at), old(opens))
      ensures Flat() == old(Flat()) + (W.Tag(num, 3) + (W.EncodeAll(body) + W.Tag(num, 4)))
      decreases e, 0
    {
      hide Concat, Want, W.Tag, W.EncodeAll;
      ghost var before := Flat();
      WriteTag(num, 3);
      WriteAll(body);
      WriteTag(num, 4);
      Assoc(before + W.Tag(num, 3), W.EncodeAll(body), W.Tag(num, 4));
      Assoc(before, W.Tag(num, 3), W.EncodeAll(body) + W.Tag(num, 4));
    }

    method WriteAll(es: seq<W.Elem>)
      requires Valid() && forall i :: 0 <= i < |es| ==> W.Writable(es[i])
      modifies this`blocks, this`total, this`held, this`at, this`opens, encoder
      ensures Valid() && Continues(old(blocks), old(at), old(opens))
      ensures Flat() == old(Flat()) + W.EncodeAll(es)
      decreases es, 0
    {
      hide Concat, Want, W.Encode, W.Writable;
      assert es[..0] == [];
      for i := 0 to |es|
        invariant Valid() && Continues(old(blocks), old(at), old(opens))
        invariant Flat() == old(Flat()) + W.EncodeAll(es[..i])
      {
        Write(es[i]);
        W.EncodeAllAppend(es[..i], es[i]);
        assert es[..i + 1] == es[..i] + [es[i]];
      }
      assert es[..|es|] == es;
    }

    /** Opens a delimited field and remembers it. */
    method BeginSubMessage(num: nat)
      requires Valid() && 1 <= num && 8 * num + 7 < 0x1_0000_0000
      modifies this`blocks, this`total, this`bookmarks, this`held, this`at, this`opens, encoder
      ensures Valid() && |bookmarks| == |old(bookmarks)| + 1 && bookmarks[..|old(bookmarks)|] == old(bookmarks)
      ensures at == old(at) + [|old(blocks)|] && blocks == old(blocks) + [bookmarks[|old(bookmarks)|]]
      ensures opens == old(opens) + [|Flat()|]
      ensures Flat() == old(Flat()) + W.Tag(num, 2)
    {
      hide Concat, Want, W.Tag;
      var b := BeginDelimited(num);
      bookmarks := bookmarks + [b];
    }

    /** Closes the field remembered last. */
    method EndSubMessage()
      requires Valid() && bookmarks != [] && at != [] && bookmarks[|bookmarks| - 1] == blocks[at[|at| - 1]]
      modifies this`total, this`bookmarks, this`held, this`at, this`opens, bookmarks[|bookmarks| - 1]
      ensures Valid() && bookmarks == old(bookmarks)[..|old(bookmarks)| - 1] && blocks == old(blocks)
      ensures at == old(at)[..|old(at)| - 1] && opens == old(opens)[..|old(at)| - 1]
      ensures var p := old(opens)[|old(at)| - 1];
        p <= |old(Flat())| && Flat() == Insert(old(Flat()), p, W.Prefix(|old(Flat())| - p))
    {
      hide Concat, Want, Insert, W.Prefix;
      var b := bookmarks[|bookmarks| - 1];
      bookmarks := bookmarks[..|bookmarks| - 1];
      EndDelimited(b);
    }

    /**
     Flattens all blocks into one array.  It fails when a sub-message is still open or when the running
     count has missed bytes.  Afterwards the array is the only block, but the running count is left as it
     was, so it misses what the encoder held.
     */
    method GetResultBuffer() returns (r: Option<array<Byte>>)
      requires Valid() && (bookmarks == [] ==> at == [])
      modifies this`blocks, this`held, this`lost, encoder
      ensures Valid() && lost >= old(lost)
      ensures r.Some? <==> bookmarks == [] && old(lost) == 0
      ensures r.Some? ==> fresh(r.value) && r.value[..] == old(Flat())
      ensures r.Some? ==> Flat() == old(Flat()) && encoder.bytes == [] && lost == |old(encoder.bytes)|
    {
      hide Concat, Want;
      if bookmarks != [] {
        return None;
      }
      var size := total + |encoder.bytes|;
      var out := new Byte[size](_ => 0);
      var d := CopyBlocks(out);
      if d == None {
        return None;
      }
      var tail := encoder.bytes;
      encoder.bytes := [];
      if size < d.value + |tail| {
        return None;
      }
      CopyInto(out, d.value, tail);
      if d.value + |tail| != size {
        return None;
      }
      assert out[..d.value + |tail|] == out[..];
      var whole := new Block(out[..]);
      OnePart(out[..]);
      blocks := [whole];
      held := [out[..]];
      lost := |tail|;
      WantNone(held, lost);
      return Some(out);
    }

    /** Copies all blocks to the front of the array: how far they reach, or `None` when they do not fit. */
    method CopyBlocks(out: array<Byte>) returns (d: Option<nat>)
      requires Valid() && at == []
      modifies out
      ensures d.Some? <==> |Concat(held)| <= out.Length
      ensures d.Some? ==> d.value == |Concat(held)| && out[..d.value] == Concat(held)
    {
      hide Concat, Want;
      var k := 0;
      NoParts();
      WantNone(held, lost);
      assert held[..0] == [];
      for f := 0 to |blocks|
        invariant k == |Concat(held[..f])| <= out.Length && out[..k] == Concat(held[..f])
      {
        var h := blocks[f].items;
        assert h == held[f];
        ConcatSnoc(held[..f], held[f]);
        assert held[..f + 1] == held[..f] + [held[f]];
        if out.Length < k + |h| {
          ConcatMonotone(held, f + 1);
          return None;
        }
        CopyInto(out, k, h);
        k := k + |h|;
      }
      assert held[..|blocks|] == held;
      return Some(k);
    }
  }

  /** Closing a field turns its header and body into a complete delimited field. */
  lemma Closed(before: seq<Byte>, tag: seq<Byte>, begun: seq<Byte>, body: seq<Byte>, flat: seq<Byte>)
    requires begun == before + tag
    requires flat == Insert(begun + body, |begun|, W.Prefix(|body|))
    ensures flat == before + (tag + W.Delimited(body))
  {
    hide W.Prefix;
    assert flat == begun + W.Prefix(|body|) + body;
  }

  lemma SplitValue(value: nat)
    requires value < 0x1_0000_0000_0000_0000
    ensures value / 0x1_0000_0000 < 0x1_0000_0000
    ensures Join(U32(value), value / 0x1_0000_0000) == value
  {
  }

  lemma NoParts()
    ensures Concat([]) == []
  {
  }

  lemma OnePart(x: seq<Byte>)
    ensures Concat([x]) == x && x + [] == x
  {
    assert [x][1..] == [];
    assert Concat([x]) == x + Concat([]);
  }

  lemma ConcatMonotone(xs: seq<seq<Byte>>, i: nat)
    requires i <= |xs|
    ensures |Concat(xs[..i])| <= |Concat(xs)|
  {
    ConcatAppend(xs[..i], xs[i..]);
    assert xs == xs[..i] + xs[i..];
  }

  /** Copies bytes to a position of an array, as a typed array's `set` does. */
  method CopyInto(out: array<Byte>, d: nat, data: seq<Byte>)
    requires d + |data| <= out.Length
    modifies out
    ensures out[..d + |data|] == old(out[..d]) + data
  {
    for k := 0 to |data|
      invariant out[..d] == old(out[..d]) && out[d..d + k] == data[..k]
    {
      out[d + k] := data[k];
    }
    assert out[..d + |data|] == out[..d] + out[d..d + |data|];
  }

  /**
   When the first flattening finds the encoder empty, a second one gives all that was written, before and in
   between; otherwise every later one fails, whatever is written in between.
   */
  method FlattenTwice(w: BinaryWriter, es: seq<W.Elem>) returns (again: Option<array<Byte>>, flushed: bool)
    requires w.Valid() && w.at == [] && w.bookmarks == [] && w.lost == 0
    requires forall i :: 0 <= i < |es| ==> W.Writable(es[i])
    modifies w`blocks, w`total, w`held, w`at, w`opens, w`lost, w.encoder
    ensures flushed <==> old(w.encoder.bytes) == []
    ensures again.Some? <==> flushed
    ensures again.Some? ==> again.value[..] == old(w.Flat()) + W.EncodeAll(es)
    ensures w.Valid() && (!flushed ==> w.lost > 0)
  {
    hide Concat, Want, W.EncodeAll;
    flushed := w.encoder.bytes == [];
    var first := w.GetResultBuffer();
    w.WriteAll(es);
    again := w.GetResultBuffer();
  }

  /** One number written, and the encoder holds its bytes: the second flattening fails. */
  method FlattenFails(es: seq<W.Elem>) returns (again: Option<array<Byte>>)
    requires forall i :: 0 <= i < |es| ==> W.Writable(es[i])
    ensures again == None
  {
    var w := new BinaryWriter();
    w.WriteNumber(1, 0, 0);
    var flushed;
    again, flushed := FlattenTwice(w, es);
  }
}
