/**
 The generated serializers and deserializers of `corerpc.OutboundGroupItem`, `OutboundGroup` and
 `OutboundGroupList`, and their round trip.
 */
module Messages {
  import opened Words
  import opened Coder
  import opened Reader
  import opened Writer
  import V = Varint
  import U = Utf8
  import W = Wire

  type Text = seq<U.Unit>

  datatype Item = Item(tag: Text, kind: Text, testTime: int, testDelay: int)
  datatype Group = Group(tag: Text, kind: Text, selected: Text, items: seq<Item>)
  datatype List = List(groups: seq<Group>)

  // ----- what the bytes of a message mean -----

  function Signed64(v: nat): int {
    Signed(V.Halves(v).0, V.Halves(v).1)
  }

  function ItemStep(m: Item, e: W.Elem): Item {
    match e
    case Text(num, text) =>
      if num == 1 then m.(tag := U.Surviving(text)) else if num == 2 then m.(kind := U.Surviving(text)) else m
    case Number(num, value) =>
      if num == 3 then m.(testTime := Signed64(value)) else if num == 4 then m.(testDelay := V.ToInt32(value)) else m
    case _ => m
  }

  function ItemFold(m: Item, es: seq<W.Elem>): Item
    decreases es
  {
    if es == [] then m else ItemFold(ItemStep(m, es[0]), es[1..])
  }

  const NO_ITEM := Item([], [], 0, 0)
  const NO_GROUP := Group([], [], [], [])

  /** Known field numbers carry the types the schema gives them; any other number may carry anything. */
  predicate ItemElem(e: W.Elem) {
    && (e.num == 1 || e.num == 2 ==> e.Text?)
    && (e.num == 3 || e.num == 4 ==> e.Number?)
  }

  predicate ItemSchema(es: seq<W.Elem>) {
    forall i :: 0 <= i < |es| ==> ItemElem(es[i])
  }

  function GroupStep(m: Group, e: W.Elem): Group {
    match e
    case Text(num, text) =>
      if num == 1 then m.(tag := U.Surviving(text))
      else if num == 2 then m.(kind := U.Surviving(text))
      else if num == 3 then m.(selected := U.Surviving(text))
      else m
    case Sub(num, body) => if num == 4 then m.(items := m.items + [ItemFold(NO_ITEM, body)]) else m
    case _ => m
  }

  function GroupFold(m: Group, es: seq<W.Elem>): Group
    decreases es
  {
    if es == [] then m else GroupFold(GroupStep(m, es[0]), es[1..])
  }

  predicate GroupElem(e: W.Elem) {
    && (1 <= e.num <= 3 ==> e.Text?)
    && (e.num == 4 ==> e.Sub? && ItemSchema(e.body))
  }

  predicate GroupSchema(es: seq<W.Elem>) {
    forall i :: 0 <= i < |es| ==> GroupElem(es[i])
  }

  function ListStep(m: List, e: W.Elem): List {
    match e
    case Sub(num, body) => if num == 1 then List(m.groups + [GroupFold(NO_GROUP, body)]) else m
    case _ => m
  }

  function ListFold(m: List, es: seq<W.Elem>): List
    decreases es
  {
    if es == [] then m else ListFold(ListStep(m, es[0]), es[1..])
  }

  predicate ListElem(e: W.Elem) {
    e.num == 1 ==> e.Sub? && GroupSchema(e.body)
  }

  predicate ListSchema(es: seq<W.Elem>) {
    forall i :: 0 <= i < |es| ==> ListElem(es[i])
  }

  // ----- deserializing -----

  /** These elements fill the bytes up to the end of the bounds, and there is fuel for them. */
  ghost predicate Faces(r: BinaryReader, es: seq<W.Elem>, fuel: nat)
    reads r, r.decoder
  {
    && r.Ahead(W.EncodeAll(es)) && r.decoder.cursor + |W.EncodeAll(es)| == r.decoder.end
    && W.AllFit(es) && fuel > |W.EncodeAll(es)|
  }

  lemma FacesStep(r: BinaryReader, es: seq<W.Elem>, fuel: nat)
    requires Faces(r, es, fuel)
    ensures es == [] ==> r.decoder.cursor == r.decoder.end
    ensures es != [] ==>
      var e := es[0];
      var head := |W.Tag(e.num, W.WireType(e))|;
      && r.Ahead(W.Tag(e.num, W.WireType(e))) && W.Fits(e) && 8 * e.num + 7 < 0x1_0000_0000 && head >= 1
      && r.Placed(r.decoder.cursor + head, W.Payload(e))
      && r.Placed(r.decoder.cursor + head + |W.Payload(e)|, W.EncodeAll(es[1..]))
      && W.AllFit(es[1..])
      && |W.EncodeAll(es)| == head + |W.Payload(e)| + |W.EncodeAll(es[1..])|
  {
    hide V.Encode, W.Tag, W.Payload, W.Encode, BinaryReader.Placed;
    if es != [] {
      W.EncodeAllSplit(es);
      var t, p, q := W.Tag(es[0].num, W.WireType(es[0])), W.Payload(es[0]), W.EncodeAll(es[1..]);
      r.PlacedParts(r.decoder.cursor, t, p + q);
      r.PlacedParts(r.decoder.cursor + |t|, p, q);
    }
  }

  ghost function FirstOr(es: seq<W.Elem>): W.Elem {
    if es == [] then W.Number(0, 0) else es[0]
  }

  ghost function TextOf(e: W.Elem): Text {
    if e.Text? then e.text else []
  }

  ghost function ValueOf(e: W.Elem): nat {
    if e.Number? then e.value else 0
  }

  /**
   Reads one item up to the end of the bounds.  On the bytes of any elements that respect the schema,
   unknown fields in between included, it returns exactly what they fold to.
   */
  method DeserializeItem(r: BinaryReader, fuel: nat, ghost es: seq<W.Elem>) returns (m: Option<Item>)
    modifies r, r.decoder`cursor
    ensures old(Faces(r, es, fuel)) && ItemSchema(es) ==>
      m == Some(ItemFold(NO_ITEM, es)) && r.decoder.cursor == r.decoder.end
  {
    hide V.Encode, U.Encode, W.EncodeAll, W.Tag, W.AllFit, BinaryReader.Placed, W.Prefix, U.Surviving, V.ToInt32,
      V.Halves, Signed;
    var msg := NO_ITEM;
    var left: nat := fuel;
    ghost var rest, good := es, Faces(r, es, fuel) && ItemSchema(es);
    while left > 0
      invariant good ==> Faces(r, rest, left) && ItemSchema(rest) && ItemFold(msg, rest) == ItemFold(NO_ITEM, es)
    {
      ghost var e := FirstOr(rest);
      if good {
        FacesStep(r, rest, left);
      }
      var more := r.NextField(e.num, W.WireType(e));
      if more == None {
        return None;
      }
      if more == Some(false) || r.wire == 4 {
        return Some(msg);
      }
      left := left - 1;
      if r.field == 1 || r.field == 2 {
        var s := r.ReadString(TextOf(e));
        if s == None {
          return None;
        }
        msg := if r.field == 1 then msg.(tag := s.value) else msg.(kind := s.value);
      } else if r.field == 3 {
        var v := r.ReadInt64(ValueOf(e));
        if v == None {
          return None;
        }
        msg := msg.(testTime := v.value);
      } else if r.field == 4 {
        var v := r.ReadInt32(ValueOf(e));
        if v == None {
          return None;
        }
        msg := msg.(testDelay := v.value);
      } else {
        var ok := r.SkipField(left, e);
        if !ok {
          return None;
        }
      }
      rest := if rest == [] then [] else rest[1..];
    }
    return None;
  }

  /** Reads one group; every field 4 is an item read within bounds of its own. */
  method DeserializeGroup(r: BinaryReader, fuel: nat, ghost es: seq<W.Elem>) returns (m: Option<Group>)
    modifies r, r.decoder
    ensures old(Faces(r, es, fuel)) && GroupSchema(es) ==>
      m == Some(GroupFold(NO_GROUP, es)) && r.decoder.cursor == r.decoder.end
    ensures old(Faces(r, es, fuel)) && GroupSchema(es) ==> r.decoder.end == old(r.decoder.end)
  {
    hide V.Encode, U.Encode, W.EncodeAll, W.Tag, W.AllFit, BinaryReader.Placed, W.Prefix, U.Surviving, ItemFold,
      ItemSchema;
    var msg := NO_GROUP;
    var left: nat := fuel;
    ghost var rest, good := es, Faces(r, es, fuel) && GroupSchema(es);
    while left > 0
      invariant good ==> Faces(r, rest, left) && GroupSchema(rest) && GroupFold(msg, rest) == GroupFold(NO_GROUP, es)
      invariant good ==> r.decoder.end == old(r.decoder.end)
    {
      ghost var e := FirstOr(rest);
      if good {
        FacesStep(r, rest, left);
      }
      var more := r.NextField(e.num, W.WireType(e));
      if more == None {
        return None;
      }
      if more == Some(false) || r.wire == 4 {
        return Some(msg);
      }
      left := left - 1;
      if 1 <= r.field <= 3 {
        var s := r.ReadString(TextOf(e));
        if s == None {
          return None;
        }
        msg := if r.field == 1 then msg.(tag := s.value)
               else if r.field == 2 then msg.(kind := s.value)
               else msg.(selected := s.value);
      } else if r.field == 4 {
        ghost var body := BodyOf(e);
        var bounds := EnterMessage(r, W.EncodeAll(body));
        if bounds == None {
          return None;
        }
        var item := DeserializeItem(r, left, body);
        if item == None {
          return None;
        }
        r.decoder.cursor := bounds.value.0;
        r.decoder.end := bounds.value.1;
        msg := msg.(items := msg.items + [item.value]);
      } else {
        var ok := r.SkipField(left, e);
        if !ok {
          return None;
        }
      }
      rest := if rest == [] then [] else rest[1..];
    }
    return None;
  }

  ghost function BodyOf(e: W.Elem): seq<W.Elem> {
    if e.Sub? then e.body else []
  }

  /**
   The first half of `readMessage`: takes the length of the nested message and narrows the bounds to it.
   Returns where it stops and the bounds to restore.
   */
  method EnterMessage(r: BinaryReader, ghost data: seq<Byte>) returns (bounds: Option<(int, int)>)
    modifies r.decoder
    ensures (old(r.Ahead(W.Delimited(data))) && |data| < 0x1_0000_0000 && r.wire == 2) ==>
      && r.Ahead(data) && r.decoder.cursor + |data| == r.decoder.end
      && bounds == Some((old(r.decoder.cursor) + |W.Delimited(data)|, old(r.decoder.end)))
      && r.decoder.end == bounds.value.0
  {
    hide V.Encode, W.Prefix;
    if r.wire != 2 || r.decoder.cursor < 0 {
      return None;
    }
    ghost var n := |data|;
    if r.Ahead(W.Delimited(data)) && n < 0x1_0000_0000 {
      W.PrefixIsVarint(n);
      r.PlacedParts(r.decoder.cursor, V.Encode(n), data);
    }
    var end := r.decoder.end;
    var d := r.ReadVarint32(n);
    if d == None {
      return None;
    }
    var stop := r.decoder.cursor + d.value;
    r.decoder.end := stop;
    return Some((stop, end));
  }

  method DeserializeList(r: BinaryReader, fuel: nat, ghost es: seq<W.Elem>) returns (m: Option<List>)
    modifies r, r.decoder
    ensures old(Faces(r, es, fuel)) && ListSchema(es) ==> m == Some(ListFold(List([]), es))
  {
    hide V.Encode, U.Encode, W.EncodeAll, W.Tag, W.AllFit, BinaryReader.Placed, W.Prefix, U.Surviving, GroupFold,
      GroupSchema;
    var msg := List([]);
    var left: nat := fuel;
    ghost var rest, good := es, Faces(r, es, fuel) && ListSchema(es);
    while left > 0
      invariant good ==> Faces(r, rest, left) && ListSchema(rest) && ListFold(msg, rest) == ListFold(List([]), es)
    {
      ghost var e := FirstOr(rest);
      if good {
        FacesStep(r, rest, left);
      }
      var more := r.NextField(e.num, W.WireType(e));
      if more == None {
        return None;
      }
      if more == Some(false) || r.wire == 4 {
        return Some(msg);
      }
      left := left - 1;
      if r.field == 1 {
        ghost var body := BodyOf(e);
        var bounds := EnterMessage(r, W.EncodeAll(body));
        if bounds == None {
          return None;
        }
        var group := DeserializeGroup(r, left, body);
        if group == None {
          return None;
        }
        r.decoder.cursor := bounds.value.0;
        r.decoder.end := bounds.value.1;
        msg := List(msg.groups + [group.value]);
      } else {
        var ok := r.SkipField(left, e);
        if !ok {
          return None;
        }
      }
      rest := if rest == [] then [] else rest[1..];
    }
    return None;
  }

  // ----- serializing -----

  function TextElem(num: nat, text: Text): seq<W.Elem> {
    if |text| > 0 then [W.Text(num, text)] else []
  }

  function NumberElem(num: nat, value: int): seq<W.Elem> {
    if value != 0 then [W.Number(num, Mod64(value))] else []
  }

  function ItemElems(m: Item): seq<W.Elem> {
    TextElem(1, m.tag) + TextElem(2, m.kind) + NumberElem(3, m.testTime) + NumberElem(4, m.testDelay)
  }

  function ItemBodies(items: seq<Item>): seq<W.Elem> {
    seq(|items|, i requires 0 <= i < |items| => W.Sub(4, ItemElems(items[i])))
  }

  function GroupElems(m: Group): seq<W.Elem> {
    TextElem(1, m.tag) + TextElem(2, m.kind) + TextElem(3, m.selected) + ItemBodies(m.items)
  }

  function ListElems(m: List): seq<W.Elem> {
    seq(|m.groups|, i requires 0 <= i < |m.groups| => W.Sub(1, GroupElems(m.groups[i])))
  }

  // ----- the bytes of each message -----

  /** A header byte, and the bytes behind it unless the field has its default. */
  function TextBytes(header: Byte, text: Text): seq<Byte> {
    if text == [] then [] else [header] + W.Delimited(U.Encode(text))
  }

  function NumberBytes(header: Byte, value: int): seq<Byte> {
    if value == 0 then [] else [header] + V.Encode(Mod64(value))
  }

  lemma Headers()
    ensures W.Tag(1, 2) == [0x0A] && W.Tag(2, 2) == [0x12] && W.Tag(3, 2) == [0x1A] && W.Tag(4, 2) == [0x22]
    ensures W.Tag(3, 0) == [0x18] && W.Tag(4, 0) == [0x20]
  {
  }

  lemma TextOnWire(num: nat, header: Byte, text: Text)
    requires W.Tag(num, 2) == [header]
    ensures W.EncodeAll(TextElem(num, text)) == TextBytes(header, text)
  {
    hide W.EncodeAll, W.Tag, W.Delimited, U.Encode;
    OneElem(W.Text(num, text));
  }

  lemma NumberOnWire(num: nat, header: Byte, value: int)
    requires W.Tag(num, 0) == [header]
    ensures W.EncodeAll(NumberElem(num, value)) == NumberBytes(header, value)
  {
    hide W.EncodeAll, W.Tag, V.Encode, Mod64;
    OneElem(W.Number(num, Mod64(value)));
  }

  /** Tag, type, time and delay of an item, each behind its header byte. */
  lemma ItemOnWire(m: Item)
    ensures W.EncodeAll(ItemElems(m)) ==
      TextBytes(0x0A, m.tag) + TextBytes(0x12, m.kind) + NumberBytes(0x18, m.testTime) + NumberBytes(0x20, m.testDelay)
  {
    hide W.EncodeAll, W.Tag, TextElem, NumberElem, TextBytes, NumberBytes;
    Headers();
    TextOnWire(1, 0x0A, m.tag);
    TextOnWire(2, 0x12, m.kind);
    NumberOnWire(3, 0x18, m.testTime);
    NumberOnWire(4, 0x20, m.testDelay);
    var none := ItemElems(m);
    FourParts([], TextElem(1, m.tag), TextElem(2, m.kind), NumberElem(3, m.testTime), NumberElem(4, m.testDelay));
    assert [] + W.EncodeAll(none) == W.EncodeAll(none);
    assert [] + TextBytes(0x0A, m.tag) == TextBytes(0x0A, m.tag);
  }

  /** Nested messages, each behind the same header byte and its length. */
  function NestedBytes(header: Byte, bodies: seq<seq<Byte>>): seq<Byte> {
    if bodies == [] then [] else [header] + W.Delimited(bodies[0]) + NestedBytes(header, bodies[1..])
  }

  lemma {:induction false} NestedOnWire(header: Byte, num: nat, es: seq<W.Elem>, bodies: seq<seq<Byte>>)
    requires W.Tag(num, 2) == [header] && |es| == |bodies|
    requires forall i :: 0 <= i < |es| ==> es[i].Sub? && es[i].num == num && W.EncodeAll(es[i].body) == bodies[i]
    ensures W.EncodeAll(es) == NestedBytes(header, bodies)
    decreases |es|
  {
    hide W.Tag, W.Delimited;
    if es != [] {
      NestedOnWire(header, num, es[1..], bodies[1..]);
      assert es[0].Sub?;
      assert W.Encode(es[0]) == [header] + W.Delimited(bodies[0]);
    }
  }

  function ItemBytes(m: Item): seq<Byte> {
    TextBytes(0x0A, m.tag) + TextBytes(0x12, m.kind) + NumberBytes(0x18, m.testTime) + NumberBytes(0x20, m.testDelay)
  }

  function GroupBytes(m: Group): seq<Byte> {
    TextBytes(0x0A, m.tag) + TextBytes(0x12, m.kind) + TextBytes(0x1A, m.selected)
    + NestedBytes(0x22, seq(|m.items|, i requires 0 <= i < |m.items| => ItemBytes(m.items[i])))
  }

  /** Tag, type, selected tag and items of a group. */
  lemma GroupOnWire(m: Group)
    ensures W.EncodeAll(GroupElems(m)) == GroupBytes(m)
  {
    hide W.EncodeAll, W.Tag, TextElem, TextBytes, NestedBytes, ItemBytes, ItemElems;
    Headers();
    TextOnWire(1, 0x0A, m.tag);
    TextOnWire(2, 0x12, m.kind);
    TextOnWire(3, 0x1A, m.selected);
    var bodies := seq(|m.items|, i requires 0 <= i < |m.items| => ItemBytes(m.items[i]));
    forall i | 0 <= i < |m.items| ensures W.EncodeAll(ItemElems(m.items[i])) == bodies[i] {
      ItemOnWireAs(m.items[i]);
    }
    NestedOnWire(0x22, 4, ItemBodies(m.items), bodies);
    FourParts([], TextElem(1, m.tag), TextElem(2, m.kind), TextElem(3, m.selected), ItemBodies(m.items));
    assert [] + W.EncodeAll(GroupElems(m)) == W.EncodeAll(GroupElems(m));
    assert [] + TextBytes(0x0A, m.tag) == TextBytes(0x0A, m.tag);
  }

  lemma ItemOnWireAs(m: Item)
    ensures W.EncodeAll(ItemElems(m)) == ItemBytes(m)
  {
    hide W.EncodeAll, ItemElems, TextBytes, NumberBytes;
    ItemOnWire(m);
  }

  /** A list of groups. */
  lemma ListOnWire(m: List)
    ensures W.EncodeAll(ListElems(m)) ==
      NestedBytes(0x0A, seq(|m.groups|, i requires 0 <= i < |m.groups| => GroupBytes(m.groups[i])))
  {
    hide W.EncodeAll, W.Tag, NestedBytes, GroupBytes, GroupElems;
    Headers();
    var bodies := seq(|m.groups|, i requires 0 <= i < |m.groups| => GroupBytes(m.groups[i]));
    forall i | 0 <= i < |m.groups| ensures W.EncodeAll(GroupElems(m.groups[i])) == bodies[i] {
      GroupOnWire(m.groups[i]);
    }
    NestedOnWire(0x0A, 1, ListElems(m), bodies);
  }

  /** The ranges the writer asserts. */
  predicate InRange(m: Item) {
    -0x8000_0000_0000_0000 <= m.testTime < 0x8000_0000_0000_0000 && -0x8000_0000 <= m.testDelay < 0x8000_0000
  }

  predicate GroupInRange(m: Group) {
    forall i :: 0 <= i < |m.items| ==> InRange(m.items[i])
  }

  predicate ListInRange(m: List) {
    forall i :: 0 <= i < |m.groups| ==> GroupInRange(m.groups[i])
  }

  lemma OneElem(e: W.Elem)
    ensures W.EncodeAll([e]) == W.Encode(e) && W.EncodeAll([]) == []
  {
    assert [e][1..] == [];
    assert W.EncodeAll([e]) == W.Encode(e) + W.EncodeAll([]);
  }

  /** An empty string is left out. */
  method PutText(w: BinaryWriter, num: nat, text: Text)
    requires w.Valid() && 1 <= num < 16
    modifies w`blocks, w`total, w`held, w`at, w`opens, w.encoder
    ensures w.Valid() && w.Continues(old(w.blocks), old(w.at), old(w.opens))
    ensures w.Flat() == old(w.Flat()) + W.EncodeAll(TextElem(num, text))
  {
    hide Concat, W.EncodeAll, W.Tag, W.Delimited;
    OneElem(W.Text(num, text));
    if |text| > 0 {
      w.WriteText(num, text);
    }
  }

  method SerializeItem(m: Item, w: BinaryWriter)
    requires w.Valid() && InRange(m)
    modifies w`blocks, w`total, w`held, w`at, w`opens, w.encoder
    ensures w.Valid() && w.Continues(old(w.blocks), old(w.at), old(w.opens))
    ensures w.Flat() == old(w.Flat()) + W.EncodeAll(ItemElems(m))
  {
    hide Concat, W.EncodeAll, W.Tag, W.Delimited, TextElem, Mod64;
    PutText(w, 1, m.tag);
    PutText(w, 2, m.kind);
    OneElem(W.Number(3, Mod64(m.testTime)));
    if m.testTime != 0 {
      w.WriteInt64(3, m.testTime);
    }
    OneElem(W.Number(4, Mod64(m.testDelay)));
    if m.testDelay != 0 {
      w.WriteInt32(4, m.testDelay);
    }
    FourParts(old(w.Flat()), TextElem(1, m.tag), TextElem(2, m.kind), NumberElem(3, m.testTime),
      NumberElem(4, m.testDelay));
  }

  lemma FourParts(s: seq<Byte>, a: seq<W.Elem>, b: seq<W.Elem>, c: seq<W.Elem>, d: seq<W.Elem>)
    ensures s + W.EncodeAll(a) + W.EncodeAll(b) + W.EncodeAll(c) + W.EncodeAll(d) == s + W.EncodeAll(a + b + c + d)
  {
    hide W.EncodeAll;
    W.EncodeAllConcat(a, b);
    W.EncodeAllConcat(a + b, c);
    W.EncodeAllConcat(a + b + c, d);
  }

  /** A nested item, its length in front. */
  method PutItem(w: BinaryWriter, m: Item)
    requires w.Valid() && InRange(m)
    modifies w`blocks, w`total, w`held, w`at, w`opens, w.encoder
    ensures w.Valid() && w.Continues(old(w.blocks), old(w.at), old(w.opens))
    ensures w.Flat() == old(w.Flat()) + (W.Tag(4, 2) + W.Delimited(W.EncodeAll(ItemElems(m))))
  {
    hide Concat, Insert, W.EncodeAll, W.Tag, W.Prefix, W.Delimited, ItemElems, InRange;
    ghost var before := w.Flat();
    var b := w.BeginDelimited(4);
    ghost var begun := w.Flat();
    SerializeItem(m, w);
    w.EndDelimited(b);
    Closed(before, W.Tag(4, 2), begun, W.EncodeAll(ItemElems(m)), w.Flat());
  }

  method SerializeGroup(m: Group, w: BinaryWriter)
    requires w.Valid() && GroupInRange(m)
    modifies w`blocks, w`total, w`held, w`at, w`opens, w.encoder
    ensures w.Valid() && w.Continues(old(w.blocks), old(w.at), old(w.opens))
    ensures w.Flat() == old(w.Flat()) + W.EncodeAll(GroupElems(m))
  {
    hide Concat, Insert, W.EncodeAll, W.Tag, W.Prefix, W.Delimited, TextElem, ItemElems;
    PutText(w, 1, m.tag);
    PutText(w, 2, m.kind);
    PutText(w, 3, m.selected);
    ghost var start := w.Flat();
    ghost var bodies := ItemBodies(m.items);
    OneElem(W.Number(0, 0));
    assert bodies[..0] == [];
    for d := 0 to |m.items|
      invariant w.Valid() && w.Continues(old(w.blocks), old(w.at), old(w.opens))
      invariant w.Flat() == start + W.EncodeAll(bodies[..d])
    {
      PutItem(w, m.items[d]);
      NextBody(start, bodies, d);
    }
    assert bodies[..|m.items|] == bodies;
    FourParts(old(w.Flat()), TextElem(1, m.tag), TextElem(2, m.kind), TextElem(3, m.selected), bodies);
  }

  lemma NextBody(start: seq<Byte>, bodies: seq<W.Elem>, d: nat)
    requires d < |bodies| && bodies[d].Sub?
    ensures start + W.EncodeAll(bodies[..d]) + (W.Tag(bodies[d].num, 2) + W.Delimited(W.EncodeAll(bodies[d].body)))
         == start + W.EncodeAll(bodies[..d + 1])
  {
    hide W.EncodeAll, W.Tag, W.Delimited;
    W.EncodeAllAppend(bodies[..d], bodies[d]);
    assert bodies[..d + 1] == bodies[..d] + [bodies[d]];
    Assoc(start, W.EncodeAll(bodies[..d]), W.Encode(bodies[d]));
  }

  /** A nested group, its length in front. */
  method PutGroup(w: BinaryWriter, m: Group)
    requires w.Valid() && GroupInRange(m)
    modifies w`blocks, w`total, w`held, w`at, w`opens, w.encoder
    ensures w.Valid() && w.Continues(old(w.blocks), old(w.at), old(w.opens))
    ensures w.Flat() == old(w.Flat()) + (W.Tag(1, 2) + W.Delimited(W.EncodeAll(GroupElems(m))))
  {
    hide Concat, Insert, W.EncodeAll, W.Tag, W.Prefix, W.Delimited, GroupElems, GroupInRange;
    ghost var before := w.Flat();
    var b := w.BeginDelimited(1);
    ghost var begun := w.Flat();
    SerializeGroup(m, w);
    w.EndDelimited(b);
    Closed(before, W.Tag(1, 2), begun, W.EncodeAll(GroupElems(m)), w.Flat());
  }

  method SerializeList(m: List, w: BinaryWriter)
    requires w.Valid() && ListInRange(m)
    modifies w`blocks, w`total, w`held, w`at, w`opens, w.encoder
    ensures w.Valid() && w.Continues(old(w.blocks), old(w.at), old(w.opens))
    ensures w.Flat() == old(w.Flat()) + W.EncodeAll(ListElems(m))
  {
    hide Concat, Insert, W.EncodeAll, W.Tag, W.Prefix, W.Delimited, GroupElems;
    ghost var start := w.Flat();
    ghost var bodies := ListElems(m);
    OneElem(W.Number(0, 0));
    assert bodies[..0] == [];
    for d := 0 to |m.groups|
      invariant w.Valid() && w.Continues(old(w.blocks), old(w.at), old(w.opens))
      invariant w.Flat() == start + W.EncodeAll(bodies[..d])
    {
      PutGroup(w, m.groups[d]);
      NextBody(start, bodies, d);
    }
    assert bodies[..|m.groups|] == bodies;
  }

  // ----- the round trip -----

  /** A message with every string cut down to what UTF-8 keeps of it. */
  function CleanItem(m: Item): Item {
    m.(tag := U.Surviving(m.tag), kind := U.Surviving(m.kind))
  }

  function CleanItems(items: seq<Item>): seq<Item> {
    seq(|items|, i requires 0 <= i < |items| => CleanItem(items[i]))
  }

  function CleanGroup(m: Group): Group {
    Group(U.Surviving(m.tag), U.Surviving(m.kind), U.Surviving(m.selected), CleanItems(m.items))
  }

  function Clean(m: List): List {
    List(seq(|m.groups|, i requires 0 <= i < |m.groups| => CleanGroup(m.groups[i])))
  }

  lemma {:induction false} ItemFoldConcat(m: Item, xs: seq<W.Elem>, ys: seq<W.Elem>)
    ensures ItemFold(m, xs + ys) == ItemFold(ItemFold(m, xs), ys)
    decreases xs
  {
    if xs == [] {
      assert xs + ys == ys;
    } else {
      assert (xs + ys)[1..] == xs[1..] + ys;
      ItemFoldConcat(ItemStep(m, xs[0]), xs[1..], ys);
    }
  }

  lemma {:induction false} GroupFoldConcat(m: Group, xs: seq<W.Elem>, ys: seq<W.Elem>)
    ensures GroupFold(m, xs + ys) == GroupFold(GroupFold(m, xs), ys)
    decreases xs
  {
    hide GroupStep;
    if xs == [] {
      assert xs + ys == ys;
    } else {
      assert (xs + ys)[1..] == xs[1..] + ys;
      GroupFoldConcat(GroupStep(m, xs[0]), xs[1..], ys);
    }
  }

  lemma FoldOne(e: W.Elem)
    ensures forall m :: ItemFold(m, [e]) == ItemStep(m, e) && ItemFold(m, []) == m
    ensures forall m :: GroupFold(m, [e]) == GroupStep(m, e) && GroupFold(m, []) == m
  {
    assert [e][1..] == [];
  }

  lemma NumbersBack(m: Item)
    requires InRange(m)
    ensures Signed64(Mod64(m.testTime)) == m.testTime && V.ToInt32(Mod64(m.testDelay)) == m.testDelay
  {
    hide Join, Signed, V.Halves, Mod64, V.ToInt32, V.SplitInt64;
    V.SplitInt64Exact(m.testTime);
    V.HalvesOfJoin(V.SplitInt64(m.testTime).0, V.SplitInt64(m.testTime).1);
    SignedWord(m.testDelay);
  }

  lemma ItemBack(m: Item)
    requires InRange(m)
    ensures ItemFold(NO_ITEM, ItemElems(m)) == CleanItem(m)
    ensures ItemSchema(ItemElems(m))
  {
    hide Mod64, V.ToInt32, Signed64, ItemFold, TextElem, NumberElem;
    var a, b := TextElem(1, m.tag), TextElem(2, m.kind);
    var c, d := NumberElem(3, m.testTime), NumberElem(4, m.testDelay);
    ItemFoldConcat(NO_ITEM, a + b + c, d);
    ItemFoldConcat(NO_ITEM, a + b, c);
    ItemFoldConcat(NO_ITEM, a, b);
    FoldText(1, m.tag);
    FoldText(2, m.kind);
    NumbersBack(m);
    FoldNumber(3, m.testTime);
    FoldNumber(4, m.testDelay);
  }

  lemma FoldText(num: nat, text: Text)
    ensures forall m: Item ::
      (num == 1 && m.tag == [] ==> ItemFold(m, TextElem(num, text)) == m.(tag := U.Surviving(text)))
                  && (num == 2 && m.kind == [] ==> ItemFold(m, TextElem(num, text)) == m.(kind := U.Surviving(text)))
    ensures forall m: Group ::
      (num == 1 && m.tag == [] ==> GroupFold(m, TextElem(num, text)) == m.(tag := U.Surviving(text)))
                  && (num == 2 && m.kind == [] ==> GroupFold(m, TextElem(num, text)) == m.(kind := U.Surviving(text)))
                  && (num == 3 && m.selected == [] ==>
                    GroupFold(m, TextElem(num, text)) == m.(selected := U.Surviving(text)))
    ensures forall i :: 0 <= i < |TextElem(num, text)| ==> TextElem(num, text)[i] == W.Text(num, text)
  {
    FoldOne(W.Text(num, text));
    hide ItemFold, GroupFold;
  }

  lemma FoldNumber(num: nat, value: int)
    ensures forall m: Item :: (num == 3 && m.testTime == 0 && Signed64(Mod64(value)) == value ==>
      ItemFold(m, NumberElem(num, value)) == m.(testTime := value))
                  && (num == 4 && m.testDelay == 0 && V.ToInt32(Mod64(value)) == value ==>
                    ItemFold(m, NumberElem(num, value)) == m.(testDelay := value))
    ensures forall i :: 0 <= i < |NumberElem(num, value)| ==> NumberElem(num, value)[i] == W.Number(num, Mod64(value))
  {
    FoldOne(W.Number(num, Mod64(value)));
    hide ItemFold, Signed64, V.ToInt32, Mod64;
  }

  lemma {:induction false} ItemsBack(m: Group, items: seq<Item>)
    requires forall i :: 0 <= i < |items| ==> InRange(items[i])
    ensures GroupFold(m, ItemBodies(items)) == m.(items := m.items + CleanItems(items))
    decreases |items|
  {
    hide ItemElems, ItemFold, CleanItem;
    var bodies := ItemBodies(items);
    if items == [] {
      assert m.items + CleanItems(items) == m.items;
    } else {
      ItemBack(items[0]);
      var next := GroupStep(m, bodies[0]);
      assert bodies[1..] == ItemBodies(items[1..]);
      ItemsBack(next, items[1..]);
      assert next.items == m.items + [CleanItem(items[0])];
      assert CleanItems(items) == [CleanItem(items[0])] + CleanItems(items[1..]);
      assert next.items + CleanItems(items[1..]) == m.items + CleanItems(items);
    }
  }

  lemma GroupBack(m: Group)
    requires GroupInRange(m)
    ensures GroupFold(NO_GROUP, GroupElems(m)) == CleanGroup(m)
    ensures GroupSchema(GroupElems(m))
  {
    hide GroupFold, TextElem, ItemElems, CleanItems, ItemSchema;
    var a, b, c, d := TextElem(1, m.tag), TextElem(2, m.kind), TextElem(3, m.selected), ItemBodies(m.items);
    GroupFoldConcat(NO_GROUP, a + b + c, d);
    GroupFoldConcat(NO_GROUP, a + b, c);
    GroupFoldConcat(NO_GROUP, a, b);
    FoldText(1, m.tag);
    FoldText(2, m.kind);
    FoldText(3, m.selected);
    var g := GroupFold(NO_GROUP, a + b + c);
    ItemsBack(g, m.items);
    assert g.items + CleanItems(m.items) == CleanItems(m.items);
    forall i | 0 <= i < |d| ensures GroupElem(d[i]) {
      ItemBack(m.items[i]);
    }
  }

  lemma {:induction false} ListBack(n: List, m: List)
    requires ListInRange(m)
    ensures ListFold(n, ListElems(m)) == List(n.groups + Clean(m).groups)
    ensures ListSchema(ListElems(m))
    decreases |m.groups|
  {
    hide GroupElems, GroupFold, CleanGroup, GroupSchema, GroupInRange;
    var bodies := ListElems(m);
    if m.groups == [] {
      assert n.groups + Clean(m).groups == n.groups;
    } else {
      GroupBack(m.groups[0]);
      var next, tail := ListStep(n, bodies[0]), List(m.groups[1..]);
      assert bodies[1..] == ListElems(tail);
      ListBack(next, tail);
      assert next.groups + Clean(tail).groups == n.groups + Clean(m).groups;
      assert forall i :: 1 <= i < |bodies| ==> bodies[i] == ListElems(tail)[i - 1];
    }
  }

  lemma AllWritable(m: List)
    requires ListInRange(m)
    ensures forall i :: 0 <= i < |ListElems(m)| ==> W.Writable(ListElems(m)[i])
  {
    forall i | 0 <= i < |m.groups| ensures W.Writable(ListElems(m)[i]) {
      GroupWritable(m.groups[i]);
    }
  }

  lemma GroupWritable(m: Group)
    ensures forall i :: 0 <= i < |GroupElems(m)| ==> W.Writable(GroupElems(m)[i])
  {
    forall i | 0 <= i < |m.items| ensures W.Writable(W.Sub(4, ItemElems(m.items[i]))) {
      ItemWritable(m.items[i]);
    }
  }

  lemma ItemWritable(m: Item)
    ensures forall i :: 0 <= i < |ItemElems(m)| ==> W.Writable(ItemElems(m)[i])
  {
    hide Mod64;
  }

  /** Serializing a message and deserializing the buffer gives the message back, its strings cleaned. */
  method RoundTrip(m: List) returns (r: Option<List>)
    requires ListInRange(m) && |W.EncodeAll(ListElems(m))| < 0x1_0000_0000
    ensures r == Some(Clean(m))
  {
    hide Concat, W.EncodeAll, ListElems, ListFold, Clean, W.Writable, W.AllFit, ListSchema;
    var w := new BinaryWriter();
    SerializeList(m, w);
    assert w.Flat() == W.EncodeAll(ListElems(m));
    var buffer := w.GetResultBuffer();
    var reader := new BinaryReader(buffer.value[..]);
    AllWritable(m);
    W.SmallFits(ListElems(m));
    ListBack(List([]), m);
    assert List([]).groups + Clean(m).groups == Clean(m).groups;
    r := DeserializeList(reader, buffer.value.Length + 1, ListElems(m));
  }

  // ----- unknown fields -----

  function StripItem(es: seq<W.Elem>): seq<W.Elem> {
    if es == [] then []
    else (if 1 <= es[0].num <= 4 then [es[0]] else []) + StripItem(es[1..])
  }

  function StripGroup(es: seq<W.Elem>): seq<W.Elem> {
    if es == [] then []
    else
      var e := es[0];
      (if e.num == 4 && e.Sub? then [W.Sub(4, StripItem(e.body))] else if 1 <= e.num <= 4 then [e] else []) +
        StripGroup(es[1..])
  }

  /** The elements without the fields the schemas do not know, at every level. */
  function StripList(es: seq<W.Elem>): seq<W.Elem> {
    if es == [] then []
    else
      var e := es[0];
      (if e.num == 1 && e.Sub? then [W.Sub(1, StripGroup(e.body))] else if e.num == 1 then [e] else []) +
        StripList(es[1..])
  }

  lemma {:induction false} StripItemKeeps(m: Item, es: seq<W.Elem>)
    ensures ItemFold(m, StripItem(es)) == ItemFold(m, es)
    decreases es
  {
    if es != [] {
      var head := if 1 <= es[0].num <= 4 then [es[0]] else [];
      ItemFoldConcat(m, head, StripItem(es[1..]));
      FoldOne(es[0]);
      StripItemKeeps(ItemStep(m, es[0]), es[1..]);
    }
  }

  lemma {:induction false} StripGroupKeeps(m: Group, es: seq<W.Elem>)
    ensures GroupFold(m, StripGroup(es)) == GroupFold(m, es)
    decreases es
  {
    hide ItemFold, StripItem;
    if es != [] {
      var e := es[0];
      var head := if e.num == 4 && e.Sub? then [W.Sub(4, StripItem(e.body))] else if 1 <= e.num <= 4 then [e] else [];
      GroupFoldConcat(m, head, StripGroup(es[1..]));
      FoldOne(e);
      if e.Sub? {
        StripItemKeeps(NO_ITEM, e.body);
        FoldOne(W.Sub(4, StripItem(e.body)));
      }
      StripGroupKeeps(GroupStep(m, e), es[1..]);
    }
  }

  lemma {:induction false} StripListKeeps(m: List, es: seq<W.Elem>)
    ensures ListFold(m, StripList(es)) == ListFold(m, es)
    decreases es
  {
    hide GroupFold, StripGroup;
    if es != [] {
      var e := es[0];
      var rest := StripList(es[1..]);
      if e.Sub? {
        StripGroupKeeps(NO_GROUP, e.body);
      }
      StripListKeeps(ListStep(m, e), es[1..]);
      if e.num == 1 {
        var f := if e.Sub? then W.Sub(1, StripGroup(e.body)) else e;
        assert ([f] + rest)[1..] == rest;
        assert ListStep(m, f) == ListStep(m, e);
      } else {
        assert [] + rest == rest;
      }
    }
  }

  /** Unknown fields put anywhere into a message's elements, at any level, change nothing that is read. */
  lemma UnknownFieldsIgnored(m: List, es: seq<W.Elem>)
    requires ListInRange(m) && StripList(es) == ListElems(m)
    ensures ListFold(List([]), es) == Clean(m)
  {
    StripListKeeps(List([]), es);
    ListBack(List([]), m);
    assert List([]).groups + Clean(m).groups == Clean(m).groups;
  }
}
