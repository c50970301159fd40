/**
 Turning overrides with dotted keys into nested maps.  The maps are objects that are walked down; which
 key comes first is not determined, so the order of the keys is a parameter.  A type assertion that fails
 and an index into an empty list stop the program.
 */
module FlatToNested {
  import opened Words

  type Path = seq<string>

  // ----- keys -----

  /** The parts between the dots; there is always at least one. */
  function Split(key: string): (path: Path)
    ensures path != []
  {
    if key == "" then [""]
    else
      var rest := Split(key[1..]);
      if key[0] == '.' then [""] + rest else [[key[0]] + rest[0]] + rest[1..]
  }

  function Join(path: Path): string {
    if path == [] then ""
    else if |path| == 1 then path[0]
    else path[0] + "." + Join(path[1..])
  }

  lemma {:induction false} JoinSplit(key: string)
    ensures Join(Split(key)) == key
    decreases |key|
  {
    if key != "" {
      JoinSplit(key[1..]);
      var rest := Split(key[1..]);
      if key[0] == '.' {
        assert ([""] + rest)[1..] == rest;
      } else {
        assert ([[key[0]] + rest[0]] + rest[1..])[1..] == rest[1..];
        JoinHead(key[0], rest);
      }
    }
  }

  lemma JoinHead(c: char, path: Path)
    requires path != []
    ensures Join([[c] + path[0]] + path[1..]) == [c] + Join(path)
  {
    var q := [[c] + path[0]] + path[1..];
    assert q[1..] == path[1..];
    if |path| == 1 {
      assert q == [[c] + path[0]];
    } else {
      assert ([c] + path[0]) + "." + Join(path[1..]) == [c] + (path[0] + "." + Join(path[1..]));
    }
  }

  lemma SplitInjective(a: string, b: string)
    requires Split(a) == Split(b)
    ensures a == b
  {
    JoinSplit(a);
    JoinSplit(b);
  }

  // ----- what the nested maps hold, place by place -----

  /** Where a value sits: the outermost map, or under a key of the map at another place. */
  datatype Place = Top | At(map_: Place, key: string)

  datatype Entry = Text(text: string) | Sub

  type Flat = map<Place, Entry>

  predicate Below(q: Place, p: Place) {
    q.At? && (q.map_ == p || Below(q.map_, p))
  }

  /** Nothing is left below the place. */
  function Cut(f: Flat, p: Place): Flat {
    map q | q in f && !Below(q, p) :: f[q]
  }

  function After(f: Flat, q: Place, text: string): Flat {
    Cut(f, q)[q := Text(text)]
  }

  /** Puts a text at the end of a path, making maps on the way; `None` when a text is in the way. */
  function Put(f: Flat, p: Place, path: Path, text: string): Option<Flat>
    requires path != []
    decreases |path|
  {
    var q := At(p, path[0]);
    if |path| == 1 then Some(After(f, q, text))
    else if q !in f then Put(f[q := Sub], q, path[1..], text)
    else if f[q].Text? then None
    else Put(f, q, path[1..], text)
  }

  type Overrides = map<string, seq<string>>

  /** Only the first value of a key counts. */
  function Build(overrides: Overrides, order: seq<string>): Option<Flat>
    requires forall k :: k in order ==> k in overrides
  {
    if order == [] then Some(map[])
    else
      var key := order[|order| - 1];
      match Build(overrides, order[..|order| - 1])
      case None => None
      case Some(f) => if overrides[key] == [] then None else Put(f, Top, Split(key), overrides[key][0])
  }

  // ----- the maps as objects -----

  datatype Value = Str(s: string) | Map(node: Node)

  class Node {
    var fields: map<string, Value>

    constructor ()
      ensures fields == map[]
    {
      fields := map[];
    }
  }

  ghost predicate Holds(nodes: map<Place, Node>, f: Flat, q: Place, v: Value) {
    q in f && match f[q]
              case Text(s) => v == Str(s)
              case Sub => q in nodes && v == Map(nodes[q])
  }

  type Fields = map<string, Value>

  /** Every place of a map has a node of its own, and each node has exactly the fields one step below. */
  ghost predicate Shape(root: Node, nodes: map<Place, Node>, all: map<Place, Fields>, f: Flat) {
    && Top in nodes && nodes[Top] == root && all.Keys == nodes.Keys
    && (forall p :: p in nodes ==> IsMap(f, p))
    && (forall p :: IsMap(f, p) ==> p in nodes)
    && (forall p, q :: p in nodes && q in nodes && nodes[p] == nodes[q] ==> p == q)
    && (forall p :: p in f ==> p.At? && p.map_ in nodes)
    && (forall p :: p in all ==> Exactly(nodes, f, p, all[p]))
  }

  predicate IsMap(f: Flat, p: Place) {
    p == Top || (p in f && f[p] == Sub)
  }

  ghost predicate Exactly(nodes: map<Place, Node>, f: Flat, p: Place, fields: Fields) {
    forall k :: if k in fields then Holds(nodes, f, At(p, k), fields[k]) else At(p, k) !in f
  }

  ghost function Contents(nodes: map<Place, Node>): map<Place, Fields>
    reads nodes.Values
  {
    map p | p in nodes :: nodes[p].fields
  }

  ghost predicate Rep(root: Node, nodes: map<Place, Node>, f: Flat)
    reads nodes.Values
  {
    Shape(root, nodes, Contents(nodes), f)
  }

  ghost function Kept(nodes: map<Place, Node>, q: Place): map<Place, Node> {
    map r | r in nodes && r != q && !Below(r, q) :: nodes[r]
  }

  /** A node that stays has the same fields as before, but for the one that was set. */
  lemma ExactAfterText(nodes: map<Place, Node>, f: Flat, q: Place, text: string, r: Place, was: Fields, now: Fields)
    requires q.At? && Exactly(nodes, f, r, was) && r != q && !Below(r, q)
    requires now == if r == q.map_ then was[q.key := Str(text)] else was
    ensures Exactly(Kept(nodes, q), After(f, q, text), r, now)
  {
    forall k ensures if k in now then Holds(Kept(nodes, q), After(f, q, text), At(r, k), now[k])
      else At(r, k) !in After(f, q, text) {
      hide Exactly;
      var s := At(r, k);
      assert Below(s, q) <==> r == q || Below(r, q);
      if s != q {
        ExactField(nodes, f, r, was, k);
        assert s in After(f, q, text) <==> s in f;
      }
    }
  }

  lemma ExactField(nodes: map<Place, Node>, f: Flat, r: Place, fields: Fields, k: string)
    requires Exactly(nodes, f, r, fields)
    ensures if k in fields then Holds(nodes, f, At(r, k), fields[k]) else At(r, k) !in f
  {
  }

  lemma MapsAfterText(nodes: map<Place, Node>, f: Flat, q: Place, text: string, r: Place)
    requires q.At? && (IsMap(f, r) <==> r in nodes)
    ensures IsMap(After(f, q, text), r) <==> r in Kept(nodes, q)
  {
    if r == Top {
      assert !Below(Top, q);
    }
  }

  lemma SetShape(root: Node, nodes: map<Place, Node>, all: map<Place, Fields>, f: Flat, q: Place, text: string,
    all': map<Place, Fields>)
    requires q.At? && Shape(root, nodes, all, f) && q.map_ in nodes
    requires all'.Keys == Kept(nodes, q).Keys
    requires forall r :: r in all' ==> all'[r] == if r == q.map_ then all[r][q.key := Str(text)] else all[r]
    ensures Shape(root, Kept(nodes, q), all', After(f, q, text))
  {
    hide Exactly, IsMap;
    forall r ensures IsMap(After(f, q, text), r) <==> r in Kept(nodes, q) {
      MapsAfterText(nodes, f, q, text, r);
    }
    forall r | r in all' ensures Exactly(Kept(nodes, q), After(f, q, text), r, all'[r]) {
      ExactAfterText(nodes, f, q, text, r, all[r], all'[r]);
    }
    forall r | r in After(f, q, text) ensures r.At? && r.map_ in Kept(nodes, q) {
      NotBelowItself(q.map_, q.key);
      assert r != q ==> r in f && !Below(r, q);
    }
    TopAbove(q);
  }

  lemma TopAbove(q: Place)
    requires q.At?
    ensures Top != q && !Below(Top, q)
  {
  }

  method SetText(root: Node, current: Node, key: string, text: string, ghost p: Place, ghost nodes: map<Place, Node>,
    ghost f: Flat)
      returns (ghost nodes': map<Place, Node>)
    requires Rep(root, nodes, f) && p in nodes && nodes[p] == current
    modifies current
    ensures Rep(root, nodes', After(f, At(p, key), text))
    ensures fresh(nodes'.Values - nodes.Values)
  {
    ghost var all := Contents(nodes);
    nodes' := Kept(nodes, At(p, key));
    current.fields := current.fields[key := Str(text)];
    hide Exactly, After, IsMap;
    SetShape(root, nodes, all, f, At(p, key), text, Contents(nodes'));
  }

  lemma NotBelowItself(p: Place, key: string)
    ensures !Below(p, At(p, key)) && p != At(p, key)
  {
    if Below(p, At(p, key)) {
      Shorter(p, At(p, key));
    }
  }

  function Depth(p: Place): nat {
    if p == Top then 0 else 1 + Depth(p.map_)
  }

  lemma Shorter(q: Place, p: Place)
    requires Below(q, p)
    ensures Depth(p) < Depth(q)
  {
  }

  lemma ExactAfterMap(nodes: map<Place, Node>, f: Flat, q: Place, node: Node, r: Place, was: Fields, now: Fields)
    requires q.At? && Exactly(nodes, f, r, was) && q !in f && q !in nodes
    requires now == if r == q.map_ then was[q.key := Map(node)] else was
    ensures Exactly(nodes[q := node], f[q := Sub], r, now)
  {
    forall k ensures if k in now then Holds(nodes[q := node], f[q := Sub], At(r, k), now[k])
      else At(r, k) !in f[q := Sub] {
      hide Exactly;
      ExactField(nodes, f, r, was, k);
    }
  }

  lemma EmptyExact(nodes: map<Place, Node>, f: Flat, q: Place)
    requires forall p :: p in f ==> p.At? && p.map_ in nodes
    requires q !in nodes
    ensures Exactly(nodes, f, q, map[])
  {
    forall k ensures At(q, k) !in f {
      assert At(q, k).map_ == q;
    }
  }

  lemma EnterShape(root: Node, nodes: map<Place, Node>, all: map<Place, Fields>, f: Flat, q: Place, node: Node,
    all': map<Place, Fields>)
    requires q.At? && Shape(root, nodes, all, f) && q.map_ in nodes && q.key !in all[q.map_] && node !in nodes.Values
    requires all'.Keys == nodes.Keys + {q}
    requires forall r :: r in all' ==> all'[r] == if r == q then map[]
      else if r == q.map_ then all[r][q.key := Map(node)] else all[r]
    ensures Shape(root, nodes[q := node], all', f[q := Sub])
  {
    ExactField(nodes, f, q.map_, all[q.map_], q.key);
    assert !IsMap(f, q);
    NotBelowItself(q.map_, q.key);
    var nodes', g := nodes[q := node], f[q := Sub];
    forall r ensures IsMap(g, r) <==> r in nodes' {
      assert IsMap(f, r) <==> r in nodes;
    }
    hide IsMap;
    forall r | r in all' ensures Exactly(nodes', g, r, all'[r]) {
      if r == q {
        EmptyExact(nodes, f, q);
        assert q != At(q, q.key) by {
          NotBelowItself(q, q.key);
        }
        hide Shape;
        NewIsEmpty(nodes, f, q, node);
      } else {
        hide Exactly;
        ExactAfterMap(nodes, f, q, node, r, all[r], all'[r]);
      }
    }
    hide Exactly;
    forall a, b | a in nodes' && b in nodes' && nodes'[a] == nodes'[b] ensures a == b {
      assert a != q ==> nodes[a] in nodes.Values;
      assert b != q ==> nodes[b] in nodes.Values;
    }
  }

  lemma NewIsEmpty(nodes: map<Place, Node>, f: Flat, q: Place, node: Node)
    requires Exactly(nodes, f, q, map[])
    ensures Exactly(nodes[q := node], f[q := Sub], q, map[])
  {
    forall k ensures At(q, k) !in f[q := Sub] {
      NotBelowItself(q, k);
    }
  }

  method Enter(root: Node, current: Node, key: string, ghost p: Place, ghost nodes: map<Place, Node>, ghost f: Flat)
      returns (next: Value, ghost nodes': map<Place, Node>)
    requires Rep(root, nodes, f) && p in nodes && nodes[p] == current
    modifies current
    ensures var q := At(p, key);
      var g := if q in f then f else f[q := Sub];
      Rep(root, nodes', g) && Holds(nodes', g, q, next)
    ensures fresh(nodes'.Values - nodes.Values)
  {
    nodes' := nodes;
    ghost var all := Contents(nodes);
    ExactField(nodes, f, p, all[p], key);
    hide Exactly, IsMap;
    if key !in current.fields {
      var node := new Node();
      current.fields := current.fields[key := Map(node)];
      nodes' := nodes'[At(p, key) := node];
      EnterShape(root, nodes, all, f, At(p, key), node, Contents(nodes'));
    }
    next := current.fields[key];
  }

  lemma PutStep(f: Flat, p: Place, path: Path, text: string)
    requires path != []
    ensures var q := At(p, path[0]);
      Put(f, p, path, text) ==
        if |path| == 1 then Some(After(f, q, text))
        else if q in f && f[q].Text? then None
        else Put(if q in f then f else f[q := Sub], q, path[1..], text)
  {
  }

  lemma HoldsWhat(nodes: map<Place, Node>, f: Flat, q: Place, v: Value)
    requires Holds(nodes, f, q, v)
    ensures q in f && (v.Str? <==> f[q].Text?) && (v.Map? ==> q in nodes && v.node == nodes[q])
  {
  }

  /** Walks down from the outermost map, making maps where there are none, and sets the text at the end. */
  method PutText(root: Node, path: Path, text: string, ghost nodes: map<Place, Node>, ghost f: Flat)
      returns (ok: bool, ghost nodes': map<Place, Node>)
    requires path != [] && Rep(root, nodes, f)
    modifies nodes.Values
    ensures ok <==> Put(f, Top, path, text).Some?
    ensures ok ==> Rep(root, nodes', Put(f, Top, path, text).value)
    ensures fresh(nodes'.Values - nodes.Values)
  {
    hide *;
    var current := root;
    nodes' := nodes;
    ghost var p, g := Top, f;
    var i := 0;
    TowardStart(root, nodes, f, path, text);
    while i < |path| - 1
      invariant i < |path|
      invariant p in nodes' && nodes'[p] == current && Rep(root, nodes', g) && fresh(nodes'.Values - nodes.Values)
      invariant Toward(f, path, text, g, p, i)
    {
      TowardStep(f, path, text, g, p, i);
      var next: Value;
      next, nodes' := Enter(root, current, path[i], p, nodes', g);
      p := At(p, path[i]);
      g := if p in g then g else g[p := Sub];
      HoldsWhat(nodes', g, p, next);
      if next.Str? {
        return false, nodes';
      }
      current := next.node;
      i := i + 1;
    }
    TowardStep(f, path, text, g, p, i);
    nodes' := SetText(root, current, path[i], text, p, nodes', g);
    return true, nodes';
  }

  /** What is left to do from place `p` and part `i` on gives the same as the whole. */
  ghost predicate Toward(f: Flat, path: Path, text: string, g: Flat, p: Place, i: nat) {
    i < |path| && Put(f, Top, path, text) == Put(g, p, path[i..], text)
  }

  lemma TowardStart(root: Node, nodes: map<Place, Node>, f: Flat, path: Path, text: string)
    requires path != [] && Rep(root, nodes, f)
    ensures Top in nodes && nodes[Top] == root && Toward(f, path, text, f, Top, 0)
  {
    hide Put, Exactly, IsMap;
    assert path[0..] == path;
  }

  lemma TowardStep(f: Flat, path: Path, text: string, g: Flat, p: Place, i: nat)
    requires Toward(f, path, text, g, p, i)
    ensures var q := At(p, path[i]);
      if i == |path| - 1 then Put(f, Top, path, text) == Some(After(g, q, text))
      else if q in g && g[q].Text? then Put(f, Top, path, text) == None
      else Toward(f, path, text, if q in g then g else g[q := Sub], q, i + 1)
  {
    assert path[i..][0] == path[i] && path[i..][1..] == path[i + 1..];
    PutStep(g, p, path[i..], text);
    hide Put, After;
  }

  lemma NewRep(root: Node)
    requires root.fields == map[]
    ensures Rep(root, map[Top := root], map[])
  {
  }

  lemma {:induction false} StillFails(overrides: Overrides, order: seq<string>, i: nat)
    requires i <= |order| && (forall k :: k in order ==> k in overrides) && Build(overrides, order[..i]).None?
    ensures Build(overrides, order).None?
    decreases |order|
  {
    if i == |order| {
      assert order[..i] == order;
    } else {
      assert order[..|order| - 1][..i] == order[..i];
      StillFails(overrides, order[..|order| - 1], i);
    }
  }

  lemma BuildNothing(overrides: Overrides)
    ensures Build(overrides, []) == Some(map[])
  {
  }

  lemma BuildStep(overrides: Overrides, order: seq<string>, i: nat)
    requires i < |order| && forall k :: k in order ==> k in overrides
    ensures var before, values := Build(overrides, order[..i]), overrides[order[i]];
      Build(overrides, order[..i + 1]) ==
        if before == None || values == [] then None else Put(before.value, Top, Split(order[i]), values[0])
  {
    hide Put, Split;
    assert order[..i + 1][..i] == order[..i];
  }

  /** Whether the conversion went through, and the nested maps if it did. */
  method Convert(overrides: Overrides, order: seq<string>) returns (ok: bool, root: Node, ghost nodes: map<Place, Node>)
    requires forall k :: k in order ==> k in overrides
    ensures ok <==> Build(overrides, order).Some?
    ensures ok ==> Rep(root, nodes, Build(overrides, order).value)
  {
    hide Rep, Put, Build, Split;
    root := new Node();
    nodes := map[Top := root];
    ghost var f: Flat := map[];
    NewRep(root);
    BuildNothing(overrides);
    assert order[..0] == [];
    for i := 0 to |order|
      invariant Build(overrides, order[..i]) == Some(f)
      invariant Rep(root, nodes, f) && fresh(nodes.Values)
    {
      BuildStep(overrides, order, i);
      var key := order[i];
      var value := overrides[key];
      if value == [] {
        StillFails(overrides, order, i + 1);
        return false, root, nodes;
      }
      ok, nodes := PutText(root, Split(key), value[0], nodes, f);
      if !ok {
        StillFails(overrides, order, i + 1);
        return false, root, nodes;
      }
      f := Put(f, Top, Split(key), value[0]).value;
    }
    assert order[..|order|] == order;
    ok := true;
  }

  // ----- places and paths -----

  function PathTo(p: Place): Path {
    if p == Top then [] else PathTo(p.map_) + [p.key]
  }

  function PlaceOf(p: Place, path: Path): (q: Place)
    ensures PathTo(q) == PathTo(p) + path
    decreases |path|
  {
    if path == [] then p else PlaceOf(At(p, path[0]), path[1..])
  }

  function KeyPlace(key: string): Place {
    PlaceOf(Top, Split(key))
  }

  lemma {:induction false} PathInjective(p: Place, q: Place)
    requires PathTo(p) == PathTo(q)
    ensures p == q
  {
    if p != Top && q != Top {
      var a, b := PathTo(p), PathTo(q);
      assert a[..|a| - 1] == PathTo(p.map_) && b[..|b| - 1] == PathTo(q.map_);
      assert a[|a| - 1] == p.key && b[|b| - 1] == q.key;
      PathInjective(p.map_, q.map_);
    }
  }

  lemma {:induction false} BelowIsPrefix(q: Place, p: Place)
    ensures Below(q, p) <==> PathTo(p) < PathTo(q)
  {
    if q.At? {
      BelowIsPrefix(q.map_, p);
      var a, b := PathTo(p), PathTo(q);
      assert b[..|b| - 1] == PathTo(q.map_);
      if a < b {
        if |a| == |b| - 1 {
          assert a == b[..|b| - 1];
          PathInjective(p, q.map_);
        } else {
          assert a == b[..|a|] == b[..|b| - 1][..|a|];
        }
      }
    }
  }

  lemma {:induction false} BelowTransitive(r: Place, q: Place, p: Place)
    requires Below(r, q) && Below(q, p)
    ensures Below(r, p)
  {
    if r.map_ != q {
      BelowTransitive(r.map_, q, p);
    }
  }

  // ----- when it goes through, and what it gives -----

  predicate SegmentPrefix(a: string, b: string) {
    Split(a) < Split(b)
  }

  ghost predicate PrefixFree(overrides: Overrides) {
    forall a, b :: a in overrides && b in overrides ==> !SegmentPrefix(a, b)
  }

  ghost predicate HasValues(overrides: Overrides) {
    forall k :: k in overrides ==> overrides[k] != []
  }

  /** A text exactly at the place of every key, its first value, and maps exactly on the way to keys. */
  ghost predicate Expected(overrides: Overrides, keys: set<string>, f: Flat)
    requires keys <= overrides.Keys && HasValues(overrides)
  {
    Texts(overrides, keys, f) && Maps(keys, f)
  }

  ghost predicate Texts(overrides: Overrides, keys: set<string>, f: Flat)
    requires keys <= overrides.Keys && HasValues(overrides)
  {
    && (forall k :: k in keys ==> KeyPlace(k) in f && f[KeyPlace(k)] == Text(overrides[k][0]))
    && (forall p :: p in f && f[p].Text? ==> exists k :: k in keys && p == KeyPlace(k))
  }

  ghost predicate Maps(keys: set<string>, f: Flat) {
    && (forall p, k :: k in keys && p != Top && Below(KeyPlace(k), p) ==> p in f && f[p] == Sub)
    && (forall p :: p in f && f[p] == Sub ==> p != Top && exists k :: k in keys && Below(KeyPlace(k), p))
  }

  /** Only the keys and their first values decide. */
  lemma ExpectedUnique(overrides: Overrides, keys: set<string>, f: Flat, g: Flat)
    requires keys <= overrides.Keys && HasValues(overrides)
    requires Expected(overrides, keys, f) && Expected(overrides, keys, g)
    ensures f == g
  {
    hide KeyPlace, Below;
    ExpectedWithin(overrides, keys, f, g);
    ExpectedWithin(overrides, keys, g, f);
  }

  lemma ExpectedWithin(overrides: Overrides, keys: set<string>, f: Flat, g: Flat)
    requires keys <= overrides.Keys && HasValues(overrides)
    requires Expected(overrides, keys, f) && Expected(overrides, keys, g)
    ensures forall p :: p in f ==> p in g && g[p] == f[p]
  {
    hide KeyPlace, Below;
    forall p | p in f ensures p in g && g[p] == f[p] {
      if f[p].Text? {
        var k :| k in keys && p == KeyPlace(k);
      } else {
        var k :| k in keys && Below(KeyPlace(k), p);
      }
    }
  }

  /** Nothing is in the way of a text for `q`, reached from `p`. */
  ghost predicate Open(f: Flat, p: Place, q: Place) {
    && (forall r :: r in f && Between(r, p, q) ==> f[r] == Sub)
    && (forall r :: r in f ==> !Below(r, q))
  }

  predicate Between(r: Place, p: Place, q: Place) {
    Below(q, r) && Below(r, p)
  }

  /** The first place on the way, and then the rest of it. */
  lemma NextBetween(p: Place, path: Path, r: Place)
    requires path != []
    ensures var s, q := At(p, path[0]), PlaceOf(p, path);
      Between(r, p, q) <==> |path| > 1 && (r == s || Between(r, s, q))
  {
    var s, q := At(p, path[0]), PlaceOf(p, path);
    BelowIsPrefix(q, r);
    BelowIsPrefix(r, p);
    BelowIsPrefix(r, s);
    BelowIsPrefix(q, s);
    hide Below;
    var a, b, c := PathTo(p), PathTo(r), PathTo(q);
    assert c == a + path && PathTo(s) == a + [path[0]];
    if Between(r, p, q) {
      assert b == c[..|b|];
      if |b| == |a| + 1 {
        assert b == a + [path[0]];
        PathInjective(r, s);
      } else {
        assert (a + [path[0]]) == b[..|a| + 1];
      }
    }
    if |path| > 1 && r == s {
      assert a + [path[0]] == c[..|a| + 1];
      assert a == b[..|a|];
    }
    if Between(r, s, q) {
      assert a == b[..|a|];
    }
  }

  /** With an open way the text arrives, maps are made where they are missing, and all else stays. */
  lemma {:induction false} PutOpen(f: Flat, p: Place, path: Path, text: string)
    requires path != [] && Open(f, p, PlaceOf(p, path))
    ensures Put(f, p, path, text).Some?
    ensures var q, g := PlaceOf(p, path), Put(f, p, path, text).value;
      && (forall r :: r in g <==> r in f || r == q || Between(r, p, q))
      && (forall r :: r in g ==> g[r] == if r == q then Text(text) else if Between(r, p, q) then Sub else f[r])
    decreases |path|
  {
    var s, q := At(p, path[0]), PlaceOf(p, path);
    forall r ensures Between(r, p, q) <==> |path| > 1 && (r == s || Between(r, s, q)) {
      NextBetween(p, path, r);
    }
    hide Between, Below;
    if |path| == 1 {
      assert path[1..] == [];
    } else {
      assert Between(s, p, q);
      BelowItself(q, s);
      PutOpen(if s in f then f else f[s := Sub], s, path[1..], text);
    }
  }

  lemma BelowItself(q: Place, s: Place)
    requires Below(q, s)
    ensures !Below(s, q) && q != s && !Below(s, s)
  {
    Shorter(q, s);
    if Below(s, q) {
      Shorter(s, q);
    }
    if Below(s, s) {
      Shorter(s, s);
    }
  }

  // ----- one key after another -----

  /** A key's map holds another key's text or map exactly when the one key's segments begin the other's. */
  lemma KeyBelow(a: string, b: string)
    ensures Below(KeyPlace(a), KeyPlace(b)) <==> SegmentPrefix(b, a)
    ensures KeyPlace(a) == KeyPlace(b) <==> a == b
  {
    assert [] + Split(a) == Split(a) && [] + Split(b) == Split(b);
    BelowIsPrefix(KeyPlace(a), KeyPlace(b));
    if KeyPlace(a) == KeyPlace(b) {
      SplitInjective(a, b);
    }
  }

  /** Without segment prefixes among the keys the way to a further key is open. */
  lemma WayOpen(overrides: Overrides, keys: set<string>, f: Flat, key: string)
    requires keys <= overrides.Keys && HasValues(overrides) && PrefixFree(overrides) && Expected(overrides, keys, f)
    requires key in overrides
    ensures Open(f, Top, KeyPlace(key))
  {
    hide KeyPlace, Below, SegmentPrefix;
    var q := KeyPlace(key);
    forall r | r in f && Between(r, Top, q) ensures f[r] == Sub {
      if f[r].Text? {
        var k :| k in keys && r == KeyPlace(k);
        KeyBelow(key, k);
      }
    }
    forall r | r in f ensures !Below(r, q) {
      if Below(r, q) {
        var k :| k in keys && (r == KeyPlace(k) || Below(KeyPlace(k), r));
        if r != KeyPlace(k) {
          BelowTransitive(KeyPlace(k), r, q);
        }
        KeyBelow(k, key);
      }
    }
  }

  /** A text more: at its place the text, maps on the way, and the rest as it was. */
  ghost predicate OneTextMore(f: Flat, g: Flat, q: Place, text: string) {
    && (forall r :: r in g <==> r in f || r == q || (r != Top && Below(q, r)))
    && (forall r :: r in g ==> g[r] == if r == q then Text(text) else if r != Top && Below(q, r) then Sub else f[r])
  }

  lemma PutOneMore(f: Flat, key: string, text: string)
    requires Open(f, Top, KeyPlace(key))
    ensures Put(f, Top, Split(key), text).Some? &&
      OneTextMore(f, Put(f, Top, Split(key), text).value, KeyPlace(key), text)
  {
    PutOpen(f, Top, Split(key), text);
    forall r ensures Between(r, Top, KeyPlace(key)) <==> r != Top && Below(KeyPlace(key), r) {
      if r != Top {
        EverythingBelowTop(r);
      }
    }
    hide Below, Between, Put, Split;
  }

  lemma {:induction false} EverythingBelowTop(r: Place)
    requires r != Top
    ensures Below(r, Top)
  {
    if r.map_ != Top {
      EverythingBelowTop(r.map_);
    }
  }

  lemma OneMore(overrides: Overrides, keys: set<string>, f: Flat, key: string)
    requires keys <= overrides.Keys && HasValues(overrides) && PrefixFree(overrides) && Expected(overrides, keys, f)
    requires key in overrides
    ensures var g := Put(f, Top, Split(key), overrides[key][0]);
      g.Some? && Expected(overrides, keys + {key}, g.value)
  {
    WayOpen(overrides, keys, f, key);
    PutOneMore(f, key, overrides[key][0]);
    hide KeyPlace, Put, Split, Below, SegmentPrefix, OneTextMore, Expected;
    var g := Put(f, Top, Split(key), overrides[key][0]).value;
    ExpectedAfter(overrides, keys, f, key, g);
  }

  lemma ExpectedAfter(overrides: Overrides, keys: set<string>, f: Flat, key: string, g: Flat)
    requires keys <= overrides.Keys && HasValues(overrides) && PrefixFree(overrides) && Expected(overrides, keys, f)
    requires key in overrides && OneTextMore(f, g, KeyPlace(key), overrides[key][0])
    ensures Expected(overrides, keys + {key}, g)
  {
    hide KeyPlace, Texts, Maps, OneTextMore, PrefixFree;
    TextsAfter(overrides, keys, f, key, g);
    MapsAfter(overrides, keys, f, key, g);
  }

  lemma TextsAfter(overrides: Overrides, keys: set<string>, f: Flat, key: string, g: Flat)
    requires keys <= overrides.Keys && HasValues(overrides) && PrefixFree(overrides) && Expected(overrides, keys, f)
    requires key in overrides && OneTextMore(f, g, KeyPlace(key), overrides[key][0])
    ensures Texts(overrides, keys + {key}, g)
  {
    hide KeyPlace, Below, SegmentPrefix;
    var q := KeyPlace(key);
    forall k | k in keys + {key} ensures KeyPlace(k) in g && g[KeyPlace(k)] == Text(overrides[k][0]) {
      KeyBelow(k, key);
      KeyBelow(key, k);
    }
    forall p | p in g && g[p].Text? ensures exists k :: k in keys + {key} && p == KeyPlace(k) {
      if p == q {
        assert key in keys + {key};
      } else {
        var k :| k in keys && p == KeyPlace(k);
        assert k in keys + {key};
      }
    }
  }

  lemma MapsAfter(overrides: Overrides, keys: set<string>, f: Flat, key: string, g: Flat)
    requires keys <= overrides.Keys && HasValues(overrides) && PrefixFree(overrides) && Expected(overrides, keys, f)
    requires key in overrides && OneTextMore(f, g, KeyPlace(key), overrides[key][0])
    ensures Maps(keys + {key}, g)
  {
    hide KeyPlace, Below, SegmentPrefix;
    var q := KeyPlace(key);
    forall p, k | k in keys + {key} && p != Top && Below(KeyPlace(k), p) ensures p in g && g[p] == Sub {
      if p == q {
        KeyBelow(k, key);
      }
    }
    forall p | p in g && g[p] == Sub ensures p != Top && exists k :: k in keys + {key} && Below(KeyPlace(k), p) {
      if p != Top && Below(q, p) {
        assert key in keys + {key};
      } else {
        var k :| k in keys && Below(KeyPlace(k), p);
        assert k in keys + {key};
      }
    }
  }

  // ----- every order -----

  function Elements(order: seq<string>): set<string> {
    set k | k in order
  }

  /** Each key exactly once. */
  ghost predicate IsOrder(order: seq<string>, keys: set<string>) {
    Elements(order) == keys && |order| == |keys|
  }

  lemma {:induction false} BuildExpected(overrides: Overrides, order: seq<string>)
    requires (forall k :: k in order ==> k in overrides) && HasValues(overrides) && PrefixFree(overrides)
    ensures Build(overrides, order).Some? && Expected(overrides, Elements(order), Build(overrides, order).value)
    decreases |order|
  {
    hide Put, Split, PrefixFree;
    if order != [] {
      var rest, key := order[..|order| - 1], order[|order| - 1];
      BuildExpected(overrides, rest);
      OneMore(overrides, Elements(rest), Build(overrides, rest).value, key);
      assert order == rest + [key];
      assert Elements(order) == Elements(rest) + {key};
    }
  }

  /**
   Without segment prefixes and empty lists the conversion goes through in every order, always to the same
   result: each key's first value at its place, and nothing but the maps on the way.
   */
  lemma SameInEveryOrder(overrides: Overrides, one: seq<string>, other: seq<string>)
    requires HasValues(overrides) && PrefixFree(overrides)
    requires IsOrder(one, overrides.Keys) && IsOrder(other, overrides.Keys)
    ensures forall k :: k in one || k in other ==> k in overrides
    ensures Build(overrides, one).Some? && Build(overrides, one) == Build(overrides, other)
    ensures Expected(overrides, overrides.Keys, Build(overrides, one).value)
  {
    assert forall k :: k in one ==> k in Elements(one);
    assert forall k :: k in other ==> k in Elements(other);
    BuildExpected(overrides, one);
    BuildExpected(overrides, other);
    hide Build, Expected, HasValues, PrefixFree;
    ExpectedUnique(overrides, overrides.Keys, Build(overrides, one).value, Build(overrides, other).value);
  }

  /** Joining the keys along the nested maps again gives every text back under its own key, and no other. */
  lemma FlattenBack(overrides: Overrides, f: Flat)
    requires HasValues(overrides) && Expected(overrides, overrides.Keys, f)
    ensures forall k, t :: (k in overrides && overrides[k][0] == t) <==>
      exists p :: p in f && f[p] == Text(t) && Join(PathTo(p)) == k
  {
    forall k ensures Join(PathTo(KeyPlace(k))) == k {
      assert [] + Split(k) == Split(k);
      JoinSplit(k);
    }
    hide KeyPlace, Split, Join, PathTo, Below;
    forall k, t
      ensures (k in overrides && overrides[k][0] == t) <==>
        exists p :: p in f && f[p] == Text(t) && Join(PathTo(p)) == k
    {
      if k in overrides && overrides[k][0] == t {
        assert f[KeyPlace(k)] == Text(t);
      }
    }
  }

  // ----- no other overrides -----

  /** A text on the way stops the conversion. */
  lemma {:induction false} PutBlocked(f: Flat, p: Place, path: Path, text: string, r: Place)
    requires path != [] && r in f && f[r].Text? && Between(r, p, PlaceOf(p, path))
    ensures Put(f, p, path, text).None?
    decreases |path|
  {
    NextBetween(p, path, r);
    hide Between, Below;
    var s := At(p, path[0]);
    if r != s && !(s in f && f[s].Text?) {
      PutBlocked(if s in f then f else f[s := Sub], s, path[1..], text, r);
    }
  }

  lemma EmptyListFails(overrides: Overrides, order: seq<string>, key: string)
    requires (forall k :: k in order ==> k in overrides) && key in order && overrides[key] == []
    ensures Build(overrides, order).None?
  {
    var i :| 0 <= i < |order| && order[i] == key;
    assert order[..i + 1][..i] == order[..i];
    StillFails(overrides, order, i + 1);
  }

  /** The shorter key first, then the longer one runs into its text. */
  lemma PrefixFails(overrides: Overrides, a: string, b: string, rest: seq<string>)
    requires a in overrides && b in overrides && overrides[a] != [] && SegmentPrefix(a, b)
    requires forall k :: k in rest ==> k in overrides
    ensures Build(overrides, [a, b] + rest).None?
  {
    var order := [a, b] + rest;
    assert order[..2] == [a, b] && [a, b][..1] == [a] && [a][..0] == [];
    assert Open(map[], Top, KeyPlace(a));
    PutOneMore(map[], a, overrides[a][0]);
    var f := Put(map[], Top, Split(a), overrides[a][0]).value;
    if overrides[b] != [] {
      KeyBelow(b, a);
      assert KeyPlace(a) != Top by {
        assert [] + Split(a) == Split(a) != [];
      }
      EverythingBelowTop(KeyPlace(a));
      PutBlocked(f, Top, Split(b), overrides[b][0], KeyPlace(a));
    }
    hide Put, PrefixFree, Below, Split;
    assert Build(overrides, [a]) == Some(f);
    assert Build(overrides, [a, b]).None?;
    StillFails(overrides, order, 2);
  }

  lemma {:induction false} SomeOrder(keys: set<string>) returns (order: seq<string>)
    ensures IsOrder(order, keys)
    decreases |keys|
  {
    if keys == {} {
      order := [];
    } else {
      var k :| k in keys;
      var rest := SomeOrder(keys - {k});
      order := [k] + rest;
      assert Elements(order) == {k} + Elements(rest);
    }
  }

  predicate InOverrides(order: seq<string>, overrides: Overrides) {
    forall k :: k in order ==> k in overrides
  }

  /** For all other overrides some order fails. */
  lemma SomeOrderFails(overrides: Overrides) returns (order: seq<string>)
    requires !PrefixFree(overrides) || !HasValues(overrides)
    ensures IsOrder(order, overrides.Keys) && InOverrides(order, overrides) && Build(overrides, order).None?
  {
    hide Build, SegmentPrefix;
    if !HasValues(overrides) {
      var k :| k in overrides && overrides[k] == [];
      order := SomeOrder(overrides.Keys);
      OrderWithin(order, overrides);
      assert k in Elements(order);
      EmptyListFails(overrides, order, k);
    } else {
      var a, b :| a in overrides && b in overrides && SegmentPrefix(a, b);
      NotOwnPrefix(a);
      var rest := SomeOrder(overrides.Keys - {a, b});
      order := [a, b] + rest;
      assert Elements(order) == {a, b} + Elements(rest);
      OrderWithin(order, overrides);
      assert forall k :: k in rest ==> k in order;
      PrefixFails(overrides, a, b, rest);
    }
  }

  lemma NotOwnPrefix(a: string)
    ensures !SegmentPrefix(a, a)
  {
  }

  lemma OrderWithin(order: seq<string>, overrides: Overrides)
    requires Elements(order) == overrides.Keys
    ensures InOverrides(order, overrides)
  {
    assert forall k :: k in order ==> k in Elements(order);
  }

  /** With one key a prefix of another the shorter key first stops the conversion, and the longer one first does not. */
  lemma OrderMatters(overrides: Overrides)
    requires overrides == map["a" := ["1"], "a.b" := ["2"]]
    ensures Build(overrides, ["a", "a.b"]).None?
    ensures Build(overrides, ["a.b", "a"]) == Some(map[At(Top, "a") := Text("1")])
  {
    SplitLetters();
    hide Split;
    assert SegmentPrefix("a", "a.b");
    PrefixFails(overrides, "a", "a.b", []);
    assert ["a", "a.b"] + [] == ["a", "a.b"];
    assert ["a.b", "a"][..1] == ["a.b"] && ["a.b"][..0] == [];
    assert Build(overrides, []) == Some(map[]);
    assert Build(overrides, ["a.b"]) == Put(map[], Top, ["a", "b"], "2");
    assert ["a", "b"][1..] == ["b"];
    var a := At(Top, "a");
    var f := map[a := Sub, At(a, "b") := Text("2")];
    assert !Below(a, At(a, "b")) && Cut(map[a := Sub], At(a, "b")) == map[a := Sub];
    assert Put(map[a := Sub], a, ["b"], "2") == Some(f);
    assert Build(overrides, ["a.b"]) == Some(f);
    assert Cut(f, a) == map[a := Sub];
    assert map[a := Sub][a := Text("1")] == map[a := Text("1")];
    assert Put(f, Top, ["a"], "1") == Some(map[a := Text("1")]);
  }

  lemma SplitLetters()
    ensures Split("a") == ["a"] && Split("a.b") == ["a", "b"]
  {
    assert Split("") == [""];
    LetterFirst('b', "");
    LetterFirst('a', "");
    assert "." + "b" == ".b" && ".b"[1..] == "b" && 'b' != '.';
    assert Split(".b") == [""] + Split("b");
    LetterFirst('a', ".b");
    assert ['a'] + "" == "a" && ['b'] + "" == "b" && ['a'] + ".b" == "a.b";
  }

  lemma LetterFirst(c: char, rest: string)
    requires c != '.'
    ensures Split([c] + rest) == [[c] + Split(rest)[0]] + Split(rest)[1..]
  {
    assert ([c] + rest)[1..] == rest;
  }

  /** The conversion goes through in every order exactly for these overrides. */
  lemma GoesThrough(overrides: Overrides)
    ensures (forall order :: IsOrder(order, overrides.Keys) ==>
      InOverrides(order, overrides) && Build(overrides, order).Some?)
      <==> PrefixFree(overrides) && HasValues(overrides)
  {
    hide Build, SegmentPrefix;
    if PrefixFree(overrides) && HasValues(overrides) {
      forall order | IsOrder(order, overrides.Keys)
        ensures InOverrides(order, overrides) && Build(overrides, order).Some?
      {
        OrderWithin(order, overrides);
        BuildExpected(overrides, order);
      }
    } else {
      var order := SomeOrderFails(overrides);
    }
  }
}
