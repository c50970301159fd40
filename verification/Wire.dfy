/** The elements of a protobuf message on the wire, and the bytes that stand for them. */
module Wire {
  import opened Words
  import V = Varint
  import U = Utf8

  /** One field; `Sub` and `Group` nest to any depth. */
  datatype Elem =
    | Number(num: nat, value: nat)
    | Text(num: nat, text: seq<U.Unit>)
    | Bytes(num: nat, data: seq<Byte>)
    | Sub(num: nat, body: seq<Elem>)
    | Group(num: nat, body: seq<Elem>)
    | Fixed32(num: nat, data: seq<Byte>)
    | Fixed64(num: nat, data: seq<Byte>)

  function WireType(e: Elem): (w: nat)
    ensures w < 6 && w != 4
  {
    match e
    case Number(_, _) => 0
    case Fixed64(_, _) => 1
    case Text(_, _) => 2
    case Bytes(_, _) => 2
    case Sub(_, _) => 2
    case Group(_, _) => 3
    case Fixed32(_, _) => 5
  }

  function Tag(num: nat, wire: nat): seq<Byte> {
    V.Encode(8 * num + wire)
  }

  /** The length prefix as the writer computes it: after the first group the number is cut to 32 bits. */
  function Prefix(n: nat): (s: seq<Byte>)
    ensures |s| >= 1
  {
    if n < 128 then [n] else [n % 128 + 128] + V.Encode(U32(n) / 128)
  }

  function Delimited(data: seq<Byte>): seq<Byte> {
    Prefix(|data|) + data
  }

  /** Everything of a field after its tag. */
  function Payload(e: Elem): seq<Byte>
    decreases e, 0
  {
    match e
    case Number(_, value) => V.Encode(value)
    case Text(_, text) => Delimited(U.Encode(text))
    case Bytes(_, data) => Delimited(data)
    case Sub(_, body) => Delimited(EncodeAll(body))
    case Group(num, body) => EncodeAll(body) + Tag(num, 4)
    case Fixed32(_, data) => data
    case Fixed64(_, data) => data
  }

  function Encode(e: Elem): seq<Byte>
    decreases e, 1
  {
    Tag(e.num, WireType(e)) + Payload(e)
  }

  function EncodeAll(es: seq<Elem>): seq<Byte> {
    if es == [] then [] else Encode(es[0]) + EncodeAll(es[1..])
  }

  /** Field numbers, values and explicit lengths the writer's assertions let through. */
  ghost predicate Writable(e: Elem)
  {
    && 1 <= e.num && 8 * e.num + 7 < 0x1_0000_0000
    && match e
       case Number(_, value) => value < 0x1_0000_0000_0000_0000
       case Text(_, _) => true
       case Bytes(_, data) => |data| < 0x1_0000_0000
       case Sub(_, body) => forall i :: 0 <= i < |body| ==> Writable(body[i])
       case Group(_, body) => forall i :: 0 <= i < |body| ==> Writable(body[i])
       case Fixed32(_, data) => |data| == 4
       case Fixed64(_, data) => |data| == 8
  }

  /** Writable, with every length below 2^32. */
  ghost predicate Fits(e: Elem)
  {
    && 1 <= e.num && 8 * e.num + 7 < 0x1_0000_0000
    && match e
       case Number(_, value) => value < 0x1_0000_0000_0000_0000
       case Text(_, text) => |U.Encode(text)| < 0x1_0000_0000
       case Bytes(_, data) => |data| < 0x1_0000_0000
       case Sub(_, body) => |EncodeAll(body)| < 0x1_0000_0000 && AllFit(body)
       case Group(_, body) => AllFit(body)
       case Fixed32(_, data) => |data| == 4
       case Fixed64(_, data) => |data| == 8
  }

  ghost predicate AllFit(es: seq<Elem>) {
    forall i :: 0 <= i < |es| ==> Fits(es[i])
  }

  lemma {:induction false} EncodeAllConcat(xs: seq<Elem>, ys: seq<Elem>)
    ensures EncodeAll(xs + ys) == EncodeAll(xs) + EncodeAll(ys)
  {
    hide Encode;
    if xs == [] {
      assert xs + ys == ys;
    } else {
      assert (xs + ys)[1..] == xs[1..] + ys;
      EncodeAllConcat(xs[1..], ys);
    }
  }

  lemma EncodeAllAppend(xs: seq<Elem>, e: Elem)
    ensures EncodeAll(xs + [e]) == EncodeAll(xs) + Encode(e)
  {
    EncodeAllConcat(xs, [e]);
    assert [e][1..] == [];
    assert EncodeAll([e]) == Encode(e) + EncodeAll([]);
  }

  lemma EncodeAllSplit(es: seq<Elem>)
    requires es != []
    ensures EncodeAll(es) == Tag(es[0].num, WireType(es[0])) + (Payload(es[0]) + EncodeAll(es[1..]))
    ensures |Tag(es[0].num, WireType(es[0]))| >= 1
  {
    hide Payload, WireType, Tag;
    TagNonempty(es[0].num, WireType(es[0]));
    var tag, payload, rest := Tag(es[0].num, WireType(es[0])), Payload(es[0]), EncodeAll(es[1..]);
    assert EncodeAll(es) == (tag + payload) + rest;
    assert (tag + payload) + rest == tag + (payload + rest);
  }

  lemma TagNonempty(num: nat, wire: nat)
    ensures |Tag(num, wire)| >= 1
  {
  }

  /** The prefix of a length below 2^32 is its plain varint. */
  lemma PrefixIsVarint(n: nat)
    requires n < 0x1_0000_0000
    ensures Prefix(n) == V.Encode(n)
  {
    Residue32(n, 0, n);
  }

  /** Elements whose whole encoding is shorter than 2^32 bytes fit, bodies and texts included. */
  lemma {:induction false} SmallFits(es: seq<Elem>)
    requires forall i :: 0 <= i < |es| ==> Writable(es[i])
    requires |EncodeAll(es)| < 0x1_0000_0000
    ensures AllFit(es)
    decreases es, 0
  {
    hide Tag, V.Encode, Payload;
    if es != [] {
      EncodeAllSplit(es);
      SmallFit(es[0], es);
      SmallFits(es[1..]);
      forall i | 0 <= i < |es| ensures Fits(es[i]) {
        if i > 0 {
          assert es[i] == es[1..][i - 1];
        }
      }
    }
  }

  lemma {:induction false} SmallFit(e: Elem, es: seq<Elem>)
    requires e in es && Writable(e) && |Payload(e)| < 0x1_0000_0000
    ensures Fits(e)
    decreases es, 0, e
  {
    hide Tag, V.Encode, EncodeAll, U.Encode;
    match e
    case Sub(_, body) => SmallFits(body);
    case Group(_, body) => SmallFits(body);
    case _ =>
  }
}
