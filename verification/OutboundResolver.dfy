/**
 Resolving a group of outbounds to a concrete one.  Groups name their members by tag, and the graph they
 form may have cycles and dangling tags.
 */
module OutboundResolver {
  import opened Words

  /** A group without usable options (`None`) is its own end. */
  datatype Kind =
    | Selector(options: Option<SelectorOptions>)
    | UrlTest(members: Option<seq<string>>)
    | Direct
    | Block
    | Proxy

  datatype SelectorOptions = SelectorOptions(default: string, outbounds: seq<string>)

  datatype Outbound = Outbound(tag: string, kind: Kind)

  type Index = map<string, Outbound>

  /** The last outbound of a tag wins; outbounds without a tag cannot be named. */
  function IndexOf(outbounds: seq<Outbound>): (index: Index)
    ensures "" !in index
  {
    if outbounds == [] then map[]
    else
      var o := outbounds[|outbounds| - 1];
      var rest := IndexOf(outbounds[..|outbounds| - 1]);
      if o.tag == "" then rest else rest[o.tag := o]
  }

  /** What a group tries, in order: a selector's default first. */
  function Candidates(kind: Kind): Option<seq<string>> {
    match kind
    case Selector(Some(o)) => Some((if o.default != "" then [o.default] else []) + o.outbounds)
    case UrlTest(Some(members)) => Some(members)
    case _ => None
  }

  function CandidatesOf(index: Index, tag: string): Option<seq<string>> {
    if tag in index then Candidates(index[tag].kind) else None
  }

  /** A real proxy: neither a group nor the direct or blocking outbound. */
  predicate Preferred(index: Index, tag: string) {
    tag in index && index[tag].kind.Proxy?
  }

  // ----- the reference: all simple paths, left to right -----

  /**
   The ends of all simple paths from `tag` that avoid `visited`, left to right.  A path ends at a tag
   without candidates, or at a group all of whose candidates are empty or on the path already.
   */
  ghost function Ends(index: Index, tag: string, visited: set<string>): seq<string>
    decreases |index.Keys - visited|, 1, 0
  {
    if tag == "" || tag in visited then []
    else if CandidatesOf(index, tag) == None then [tag]
    else
      Shrinks(index, tag, visited);
      var ends := AllEnds(index, CandidatesOf(index, tag).value, visited + {tag});
      if ends == [] then [tag] else ends
  }

  ghost function AllEnds(index: Index, tags: seq<string>, visited: set<string>): seq<string>
    decreases |index.Keys - visited|, 2, |tags|
  {
    if tags == [] then [] else Ends(index, tags[0], visited) + AllEnds(index, tags[1..], visited)
  }

  lemma Shrinks(index: Index, tag: string, visited: set<string>)
    requires tag in index && tag !in visited
    ensures |index.Keys - (visited + {tag})| < |index.Keys - visited|
  {
    assert index.Keys - visited == (index.Keys - (visited + {tag})) + {tag};
  }

  /** The first preferred tag of a list, or else its first tag, or else nothing. */
  ghost function Pick(index: Index, ends: seq<string>): string {
    if ends == [] then ""
    else if FirstPreferred(index, ends).Some? then FirstPreferred(index, ends).value
    else ends[0]
  }

  ghost function FirstPreferred(index: Index, ends: seq<string>): (r: Option<string>)
    ensures r.None? ==> forall i :: 0 <= i < |ends| ==> !Preferred(index, ends[i])
    ensures r.Some? ==> exists i :: IsFirstPreferred(index, ends, i) && ends[i] == r.value
  {
    if ends == [] then None
    else if Preferred(index, ends[0]) then
      assert IsFirstPreferred(index, ends, 0);
      Some(ends[0])
    else
      var r := FirstPreferred(index, ends[1..]);
      assert r.Some? ==> exists i :: IsFirstPreferred(index, ends, i) && ends[i] == r.value by {
        if r.Some? {
          var i :| IsFirstPreferred(index, ends[1..], i) && ends[1..][i] == r.value;
          assert IsFirstPreferred(index, ends, i + 1);
        }
      }
      r
  }

  ghost predicate IsFirstPreferred(index: Index, ends: seq<string>, i: int) {
    0 <= i < |ends| && Preferred(index, ends[i]) && forall j :: 0 <= j < i ==> !Preferred(index, ends[j])
  }

  lemma {:induction false} FirstPreferredConcat(index: Index, xs: seq<string>, ys: seq<string>)
    ensures FirstPreferred(index, xs + ys) == if FirstPreferred(index, xs).Some? then FirstPreferred(index, xs)
      else FirstPreferred(index, ys)
    decreases |xs|
  {
    if xs == [] {
      assert xs + ys == ys;
    } else {
      assert (xs + ys)[1..] == xs[1..] + ys;
      FirstPreferredConcat(index, xs[1..], ys);
    }
  }

  predicate LastWithTag(outbounds: seq<Outbound>, i: int, tag: string) {
    0 <= i < |outbounds| && outbounds[i].tag == tag && forall j :: i < j < |outbounds| ==> outbounds[j].tag != tag
  }

  /** The index holds exactly the last outbound of each tag that is not empty. */
  lemma {:induction false} IndexIsLast(outbounds: seq<Outbound>, tag: string)
    ensures tag in IndexOf(outbounds) <==> tag != "" && exists i :: LastWithTag(outbounds, i, tag)
    ensures forall i :: tag != "" && LastWithTag(outbounds, i, tag) ==>
      tag in IndexOf(outbounds) && IndexOf(outbounds)[tag] == outbounds[i]
    decreases |outbounds|
  {
    if outbounds != [] {
      var n := |outbounds| - 1;
      var front := outbounds[..n];
      IndexIsLast(front, tag);
      if outbounds[n].tag == tag {
        assert LastWithTag(outbounds, n, tag);
      } else {
        assert forall i :: LastWithTag(front, i, tag) <==> LastWithTag(outbounds, i, tag);
      }
    }
  }

  // ----- the resolver -----

  class Resolver {
    const outbounds: Index

    constructor (list: seq<Outbound>)
      ensures outbounds == IndexOf(list)
    {
      var index: Index := map[];
      for i := 0 to |list|
        invariant index == IndexOf(list[..i])
      {
        assert list[..i + 1][..i] == list[..i];
        if list[i].tag != "" {
          index := index[list[i].tag := list[i]];
        }
      }
      assert list[..|list|] == list;
      outbounds := index;
    }

    /** The tag itself when nothing better is found. */
    method Resolve(tag: string) returns (r: string)
      ensures r == Resolved(outbounds, tag)
    {
      if tag == "" {
        return "";
      }
      r := ResolveFrom(tag, {});
      NoEmptyEnds(outbounds, tag, {});
      EndsNonempty(outbounds, tag, {});
      if r == "" {
        return tag;
      }
    }

    method ResolveFrom(tag: string, visited: set<string>) returns (r: string)
      ensures r == Pick(outbounds, Ends(outbounds, tag, visited))
      decreases |outbounds.Keys - visited|, 1
    {
      if tag == "" || tag in visited {
        return "";
      }
      EndsNonempty(outbounds, tag, visited);
      var onPath := visited + {tag};
      if tag !in outbounds {
        return tag;
      }
      Shrinks(outbounds, tag, visited);
      match outbounds[tag].kind
      case Selector(options) =>
        if options == None {
          return tag;
        }
        var candidates: seq<string> := [];
        if options.value.default != "" {
          candidates := candidates + [options.value.default];
        }
        candidates := candidates + options.value.outbounds;
        r := ResolveCandidates(candidates, tag, onPath);
      case UrlTest(members) =>
        if members == None {
          return tag;
        }
        r := ResolveCandidates(members.value, tag, onPath);
      case _ =>
        return tag;
    }

    /** Tries the candidates in order: the first preferred leaf wins at once, otherwise the first result. */
    method ResolveCandidates(candidates: seq<string>, fallback: string, visited: set<string>) returns (r: string)
      requires fallback in outbounds && !outbounds[fallback].kind.Proxy?
      ensures var ends := AllEnds(outbounds, candidates, visited);
        r == Pick(outbounds, if ends == [] then [fallback] else ends)
      decreases |outbounds.Keys - visited|, 2
    {
      hide Ends, FirstPreferred;
      NothingPreferred(outbounds);
      var best := "";
      ghost var before: seq<string> := [];
      assert candidates[0..] == candidates;
      for i := 0 to |candidates|
        invariant before + AllEnds(outbounds, candidates[i..], visited) == AllEnds(outbounds, candidates, visited)
        invariant FirstPreferred(outbounds, before) == None
        invariant best == if before == [] then "" else before[0]
        invariant before != [] ==> best != ""
      {
        var resolved := ResolveFrom(candidates[i], visited);
        ghost var ends := Ends(outbounds, candidates[i], visited);
        FromCandidate(outbounds, candidates, i, visited);
        NothingBefore(outbounds, before, ends, AllEnds(outbounds, candidates[i + 1..], visited));
        NoEmptyEnds(outbounds, candidates[i], visited);
        before := before + ends;
        if resolved != "" {
          if Preferred(outbounds, resolved) {
            return resolved;
          }
          if best == "" {
            best := resolved;
          }
        }
      }
      assert before + [] == before;
      if best != "" {
        return best;
      }
      return fallback;
    }
  }

  lemma FromCandidate(index: Index, candidates: seq<string>, i: nat, visited: set<string>)
    requires i < |candidates|
    ensures AllEnds(index, candidates[i..], visited) ==
      Ends(index, candidates[i], visited) + AllEnds(index, candidates[i + 1..], visited)
  {
    hide Ends;
    assert candidates[i..][1..] == candidates[i + 1..];
  }

  lemma NothingBefore(index: Index, before: seq<string>, ends: seq<string>, rest: seq<string>)
    requires FirstPreferred(index, before) == None
    ensures before + (ends + rest) == (before + ends) + rest
    ensures FirstPreferred(index, before + ends) == FirstPreferred(index, ends)
    ensures FirstPreferred(index, ends).Some? ==>
      FirstPreferred(index, (before + ends) + rest) == FirstPreferred(index, ends)
  {
    hide FirstPreferred;
    FirstPreferredConcat(index, before, ends);
    FirstPreferredConcat(index, before + ends, rest);
  }

  ghost function Resolved(index: Index, tag: string): string {
    if tag == "" then "" else Pick(index, Ends(index, tag, {}))
  }

  lemma EndsNonempty(index: Index, tag: string, visited: set<string>)
    requires tag != "" && tag !in visited
    ensures Ends(index, tag, visited) != []
  {
  }

  /** Ends are tags, and never on the path already. */
  lemma {:induction false} NoEmptyEnds(index: Index, tag: string, visited: set<string>)
    ensures forall i :: 0 <= i < |Ends(index, tag, visited)| ==>
      Ends(index, tag, visited)[i] != "" && Ends(index, tag, visited)[i] !in visited
    decreases |index.Keys - visited|, 1, 0
  {
    if tag != "" && tag !in visited && CandidatesOf(index, tag) != None {
      Shrinks(index, tag, visited);
      NoEmptyAllEnds(index, CandidatesOf(index, tag).value, visited + {tag});
    }
  }

  lemma {:induction false} NoEmptyAllEnds(index: Index, tags: seq<string>, visited: set<string>)
    ensures forall i :: 0 <= i < |AllEnds(index, tags, visited)| ==>
      AllEnds(index, tags, visited)[i] != "" && AllEnds(index, tags, visited)[i] !in visited
    decreases |index.Keys - visited|, 2, |tags|
  {
    if tags != [] {
      NoEmptyEnds(index, tags[0], visited);
      NoEmptyAllEnds(index, tags[1..], visited);
    }
  }

  // ----- reachability -----

  /** A selector leads to its default and to its members, a url test to its members. */
  ghost predicate Edge(index: Index, from: string, to: string) {
    && to != "" && from in index
    && match index[from].kind
       case Selector(Some(o)) => to == o.default || to in o.outbounds
       case UrlTest(Some(members)) => to in members
       case _ => false
  }

  lemma EdgeIsCandidate(index: Index, from: string, to: string)
    ensures Edge(index, from, to) <==>
      to != "" && CandidatesOf(index, from).Some? && to in CandidatesOf(index, from).value
  {
  }

  /** A path along candidates, cycles allowed. */
  ghost predicate Path(index: Index, p: seq<string>) {
    p != [] && forall i :: 0 <= i < |p| - 1 ==> Edge(index, p[i], p[i + 1])
  }

  ghost predicate Reaches(index: Index, from: string, to: string) {
    exists p :: Path(index, p) && p[0] == from && p[|p| - 1] == to
  }

  /** Any path that avoids `visited` and ends at a proxy leaves that proxy among the ends. */
  lemma {:induction false} PathGivesEnd(index: Index, p: seq<string>, visited: set<string>)
    requires Path(index, p) && p[0] != "" && Preferred(index, p[|p| - 1])
    requires forall i :: 0 <= i < |p| ==> p[i] !in visited
    ensures p[|p| - 1] in Ends(index, p[0], visited)
    decreases |index.Keys - visited|
  {
    var tag := p[0];
    var j := LastIndex(p, tag);
    if j < |p| - 1 {
      var rest := p[j + 1..];
      assert Edge(index, p[j], p[j + 1]);
      EdgeIsCandidate(index, p[j], p[j + 1]);
      forall i | 0 <= i < |rest| - 1 ensures Edge(index, rest[i], rest[i + 1]) {
        assert Edge(index, p[j + 1 + i], p[j + 1 + i + 1]);
      }
      assert Path(index, rest);
      Shrinks(index, tag, visited);
      PathGivesEnd(index, rest, visited + {tag});
      EndOfCandidate(index, CandidatesOf(index, tag).value, rest[0], visited + {tag}, p[|p| - 1]);
    }
  }

  lemma {:induction false} LastIndex(p: seq<string>, tag: string) returns (j: nat)
    requires p != [] && p[0] == tag
    ensures j < |p| && p[j] == tag && forall i :: j < i < |p| ==> p[i] != tag
  {
    j := 0;
    for i := 1 to |p|
      invariant j < i && p[j] == tag && forall k :: j < k < i ==> p[k] != tag
    {
      if p[i] == tag {
        j := i;
      }
    }
  }

  lemma {:induction false} EndOfCandidate(index: Index, tags: seq<string>, tag: string, visited: set<string>, e: string)
    requires tag in tags && e in Ends(index, tag, visited)
    ensures e in AllEnds(index, tags, visited)
    decreases |tags|
  {
    if tags[0] != tag {
      EndOfCandidate(index, tags[1..], tag, visited, e);
    }
  }

  /** The path avoids these tags. */
  ghost predicate Avoids(p: seq<string>, tags: set<string>) {
    forall i :: 0 <= i < |p| ==> p[i] !in tags
  }

  lemma {:induction false} EndIsReached(index: Index, tag: string, visited: set<string>, e: string)
      returns (p: seq<string>)
    requires e in Ends(index, tag, visited)
    ensures Path(index, p) && p[0] == tag && p[|p| - 1] == e && Avoids(p, visited) && Reaches(index, tag, e)
    decreases |index.Keys - visited|, 1, 0
  {
    if CandidatesOf(index, tag) == None || AllEnds(index, CandidatesOf(index, tag).value, visited + {tag}) == [] {
      p := [tag];
      assert Path(index, p);
    } else {
      Shrinks(index, tag, visited);
      var c, rest := CandidateOfEnd(index, CandidatesOf(index, tag).value, visited + {tag}, e);
      p := [tag] + rest;
      EdgeIsCandidate(index, tag, c);
      forall i | 0 <= i < |p| - 1 ensures Edge(index, p[i], p[i + 1]) {
        if i > 0 {
          assert Edge(index, rest[i - 1], rest[i - 1 + 1]);
        }
      }
      assert Path(index, p);
    }
  }

  lemma {:induction false} CandidateOfEnd(index: Index, tags: seq<string>, visited: set<string>, e: string)
      returns (c: string, p: seq<string>)
    requires e in AllEnds(index, tags, visited)
    ensures c in tags && c != "" && Path(index, p) && p[0] == c && p[|p| - 1] == e && Avoids(p, visited)
    decreases |index.Keys - visited|, 2, |tags|
  {
    if e in Ends(index, tags[0], visited) {
      p := EndIsReached(index, tags[0], visited, e);
      c := tags[0];
    } else {
      c, p := CandidateOfEnd(index, tags[1..], visited, e);
    }
  }

  /**
   Where the choices `k` lead from `tag`: each takes the candidate at that place.  `None` when there is no
   such candidate, or when the path would come to a tag a second time.
   */
  ghost function Trace(index: Index, tag: string, visited: set<string>, k: seq<nat>): Option<string>
    decreases |k|
  {
    if tag == "" || tag in visited then None
    else if k == [] then Some(tag)
    else
      match CandidatesOf(index, tag)
      case None => None
      case Some(tags) => if k[0] < |tags| then Trace(index, tags[k[0]], visited + {tag}, k[1..]) else None
  }

  /** The order in which a search that goes left to right and deep first makes its choices. */
  predicate LexLeq(a: seq<nat>, b: seq<nat>)
    decreases |a|
  {
    a == [] || (b != [] && (a[0] < b[0] || (a[0] == b[0] && LexLeq(a[1..], b[1..]))))
  }

  ghost predicate ToProxy(index: Index, tag: string, visited: set<string>, k: seq<nat>) {
    Trace(index, tag, visited, k).Some? && Preferred(index, Trace(index, tag, visited, k).value)
  }

  /** The leftmost of the repetition-free paths from `tag` to a proxy. */
  ghost predicate Leftmost(index: Index, tag: string, visited: set<string>, k: seq<nat>) {
    ToProxy(index, tag, visited, k) && forall other :: ToProxy(index, tag, visited, other) ==> LexLeq(k, other)
  }

  /** A choice among candidates, and the choices that follow it. */
  type Choice = (nat, seq<nat>)

  ghost predicate LeftmostFrom(index: Index, tags: seq<string>, i: nat, visited: set<string>, k: Choice) {
    && i <= k.0 < |tags| && ToProxy(index, tags[k.0], visited, k.1)
    && forall j: nat, other: seq<nat> :: i <= j < |tags| && ToProxy(index, tags[j], visited, other) ==>
      Before(k, j, other)
  }

  predicate Before(k: Choice, j: nat, other: seq<nat>) {
    k.0 < j || (k.0 == j && LexLeq(k.1, other))
  }

  ghost predicate NoneFrom(index: Index, tags: seq<string>, i: nat, visited: set<string>) {
    forall j: nat, other: seq<nat> :: i <= j < |tags| ==> !ToProxy(index, tags[j], visited, other)
  }

  lemma {:induction false} LeastPath(index: Index, tag: string, visited: set<string>) returns (k: Option<seq<nat>>)
    ensures k.None? ==> FirstPreferred(index, Ends(index, tag, visited)) == None
    ensures k.None? ==> forall other :: !ToProxy(index, tag, visited, other)
    ensures k.Some? ==> Leftmost(index, tag, visited, k.value)
    ensures k.Some? ==> FirstPreferred(index, Ends(index, tag, visited)) == Trace(index, tag, visited, k.value)
    decreases |index.Keys - visited|, 1, 0
  {
    if tag == "" || tag in visited {
      return None;
    }
    if CandidatesOf(index, tag) == None {
      return if Preferred(index, tag) then Some([]) else None;
    }
    var tags := CandidatesOf(index, tag).value;
    Shrinks(index, tag, visited);
    assert tags[0..] == tags;
    var below := LeastChoice(index, tags, 0, visited + {tag});
    if below.None? {
      k := None;
      NoneChosen(index, tag, visited);
    } else {
      k := Some([below.value.0] + below.value.1);
      LeftmostChosen(index, tag, visited, below.value);
    }
  }

  lemma NoneChosen(index: Index, tag: string, visited: set<string>)
    requires CandidatesOf(index, tag).Some? && NoneFrom(index, CandidatesOf(index, tag).value, 0, visited + {tag})
    ensures forall k :: !ToProxy(index, tag, visited, k)
  {
    forall k | ToProxy(index, tag, visited, k) ensures false {
      FirstChoice(index, tag, visited, k);
    }
  }

  lemma LeftmostChosen(index: Index, tag: string, visited: set<string>, choice: Choice)
    requires tag != "" && tag !in visited && CandidatesOf(index, tag).Some?
    requires LeftmostFrom(index, CandidatesOf(index, tag).value, 0, visited + {tag}, choice)
    ensures Leftmost(index, tag, visited, [choice.0] + choice.1)
  {
    var k := [choice.0] + choice.1;
    assert k[1..] == choice.1;
    forall other | ToProxy(index, tag, visited, other) ensures LexLeq(k, other) {
      FirstChoice(index, tag, visited, other);
      assert Before(choice, other[0], other[1..]);
    }
  }

  lemma FirstChoice(index: Index, tag: string, visited: set<string>, k: seq<nat>)
    requires ToProxy(index, tag, visited, k) && CandidatesOf(index, tag).Some?
    ensures var tags := CandidatesOf(index, tag).value;
      k != [] && k[0] < |tags| && ToProxy(index, tags[k[0]], visited + {tag}, k[1..])
  {
  }

  /** The same for a choice among the candidates from place `i` on. */
  lemma {:induction false} LeastChoice(index: Index, tags: seq<string>, i: nat, visited: set<string>)
      returns (k: Option<Choice>)
    requires i <= |tags|
    ensures k.None? ==> FirstPreferred(index, AllEnds(index, tags[i..], visited)) == None
    ensures k.None? ==> NoneFrom(index, tags, i, visited)
    ensures k.Some? ==> LeftmostFrom(index, tags, i, visited, k.value)
    ensures k.Some? ==>
      FirstPreferred(index, AllEnds(index, tags[i..], visited)) == Trace(index, tags[k.value.0], visited, k.value.1)
    decreases |index.Keys - visited|, 2, |tags| - i
  {
    if i == |tags| {
      return None;
    }
    assert tags[i..][1..] == tags[i + 1..];
    var here := LeastPath(index, tags[i], visited);
    FirstPreferredConcat(index, Ends(index, tags[i], visited), AllEnds(index, tags[i + 1..], visited));
    if here.Some? {
      k := Some((i, here.value));
    } else {
      k := LeastChoice(index, tags, i + 1, visited);
    }
  }

  /**
   `Resolve` finds a proxy exactly when one can be reached, over whatever cycles; it is then the end of the
   leftmost repetition-free path to a proxy.
   */
  lemma ResolveComplete(index: Index, tag: string)
    requires tag != ""
    ensures Preferred(index, Resolved(index, tag)) <==> exists p :: Preferred(index, p) && Reaches(index, tag, p)
    ensures Preferred(index, Resolved(index, tag)) ==> Reaches(index, tag, Resolved(index, tag))
    ensures Preferred(index, Resolved(index, tag)) ==>
      exists k :: Leftmost(index, tag, {}, k) && Trace(index, tag, {}, k) == Some(Resolved(index, tag))
  {
    var k := LeastPath(index, tag, {});
    var ends := Ends(index, tag, {});
    EndsNonempty(index, tag, {});
    var r := Resolved(index, tag);
    if Preferred(index, r) {
      assert r in ends;
      var _ := EndIsReached(index, tag, {}, r);
    }
    if p :| Preferred(index, p) && Reaches(index, tag, p) {
      var path :| Path(index, path) && path[0] == tag && path[|path| - 1] == p;
      PathGivesEnd(index, path, {});
    }
  }

  // ----- whose turn it is -----

  /** The first candidate that is a tag not yet on the path. */
  ghost function FirstOpen(tags: seq<string>, visited: set<string>): (r: Option<string>)
    ensures r.None? ==> forall c :: c in tags ==> c == "" || c in visited
    ensures r.Some? ==> r.value in tags && r.value != "" && r.value !in visited
  {
    if tags == [] then None
    else if tags[0] != "" && tags[0] !in visited then Some(tags[0])
    else FirstOpen(tags[1..], visited)
  }

  /** A proxy can be reached without coming to one of these tags. */
  ghost predicate ProxyAhead(index: Index, from: string, avoid: set<string>) {
    from != "" && exists p :: Path(index, p) && p[0] == from && Avoids(p, avoid) && Preferred(index, p[|p| - 1])
  }

  /** The end of the leftmost repetition-free path to a proxy that avoids these tags. */
  ghost predicate LeftmostEnd(index: Index, from: string, avoid: set<string>, end: string) {
    exists k :: Leftmost(index, from, avoid, k) && Trace(index, from, avoid, k) == Some(end)
  }

  lemma AheadExactly(index: Index, from: string, avoid: set<string>)
    ensures ProxyAhead(index, from, avoid) <==> FirstPreferred(index, Ends(index, from, avoid)).Some?
  {
    var ends := Ends(index, from, avoid);
    if ProxyAhead(index, from, avoid) {
      var p :| Path(index, p) && p[0] == from && Avoids(p, avoid) && Preferred(index, p[|p| - 1]);
      PathGivesEnd(index, p, avoid);
    }
    if FirstPreferred(index, ends).Some? {
      var i :| IsFirstPreferred(index, ends, i);
      var p := EndIsReached(index, from, avoid, ends[i]);
    }
  }

  lemma AheadEnd(index: Index, from: string, avoid: set<string>)
    requires ProxyAhead(index, from, avoid)
    ensures FirstPreferred(index, Ends(index, from, avoid)).Some?
    ensures LeftmostEnd(index, from, avoid, FirstPreferred(index, Ends(index, from, avoid)).value)
    ensures Preferred(index, from) ==> FirstPreferred(index, Ends(index, from, avoid)) == Some(from)
  {
    AheadExactly(index, from, avoid);
    var k := LeastPath(index, from, avoid);
    if Preferred(index, from) {
      assert from !in avoid by {
        var p :| Path(index, p) && p[0] == from && Avoids(p, avoid);
      }
      assert Ends(index, from, avoid) == [from];
    }
  }

  /** What is found from a tag while these tags are on the path. */
  ghost function Found(index: Index, tag: string, visited: set<string>): string {
    Pick(index, Ends(index, tag, visited))
  }

  /** The members decide: the first from which a proxy can be reached, or else the first not on the path. */
  ghost predicate MembersDecide(index: Index, members: seq<string>, avoid: set<string>, fallback: string, r: string) {
    if AnyAhead(index, members, avoid) then
      exists i :: FirstAhead(index, members, avoid, i) && LeftmostEnd(index, members[i], avoid, r)
    else
      match FirstOpen(members, avoid)
      case None => r == fallback
      case Some(member) => r == Found(index, member, avoid)
  }

  ghost predicate AnyAhead(index: Index, members: seq<string>, avoid: set<string>) {
    exists i :: 0 <= i < |members| && ProxyAhead(index, members[i], avoid)
  }

  ghost predicate FirstAhead(index: Index, members: seq<string>, avoid: set<string>, i: int) {
    && 0 <= i < |members| && ProxyAhead(index, members[i], avoid)
    && forall j :: 0 <= j < i ==> !ProxyAhead(index, members[j], avoid)
  }

  lemma {:induction false} AllEndsDecide(index: Index, members: seq<string>, avoid: set<string>, fallback: string)
    ensures var ends := AllEnds(index, members, avoid);
      && MembersDecide(index, members, avoid, fallback, Pick(index, if ends == [] then [fallback] else ends))
      && (FirstPreferred(index, ends).Some? <==> AnyAhead(index, members, avoid))
      && (ends == [] <==> FirstOpen(members, avoid).None?)
    decreases |members|
  {
    hide Ends, ProxyAhead, LeftmostEnd, FirstPreferred;
    PickOne(index, fallback);
    NothingPreferred(index);
    if members != [] {
      var first, rest := Ends(index, members[0], avoid), AllEnds(index, members[1..], avoid);
      AllEndsDecide(index, members[1..], avoid, fallback);
      FirstPreferredConcat(index, first, rest);
      AheadExactly(index, members[0], avoid);
      NotOpen(index, members[0], avoid);
      if ProxyAhead(index, members[0], avoid) {
        AheadEnd(index, members[0], avoid);
        assert FirstAhead(index, members, avoid, 0);
      } else {
        LaterAhead(index, members, avoid, fallback, Pick(index, if rest == [] then [fallback] else rest));
      }
    }
  }

  lemma LaterAhead(index: Index, members: seq<string>, avoid: set<string>, fallback: string, r: string)
    requires members != [] && !ProxyAhead(index, members[0], avoid)
    requires MembersDecide(index, members[1..], avoid, fallback, r)
    ensures AnyAhead(index, members[1..], avoid) <==> AnyAhead(index, members, avoid)
    ensures AnyAhead(index, members, avoid) ==> MembersDecide(index, members, avoid, fallback, r)
  {
    hide ProxyAhead, LeftmostEnd, Found, FirstOpen;
    assert forall i :: 0 <= i < |members| - 1 ==> members[1..][i] == members[i + 1];
    if i :| FirstAhead(index, members[1..], avoid, i) && LeftmostEnd(index, members[1..][i], avoid, r) {
      assert FirstAhead(index, members, avoid, i + 1);
    }
  }

  lemma NotOpen(index: Index, tag: string, visited: set<string>)
    ensures Ends(index, tag, visited) == [] <==> tag == "" || tag in visited
  {
    if tag != "" && tag !in visited {
      EndsNonempty(index, tag, visited);
    }
  }

  lemma PickOne(index: Index, tag: string)
    ensures Pick(index, [tag]) == tag
  {
  }

  lemma NothingPreferred(index: Index)
    ensures FirstPreferred(index, []) == None
  {
  }

  /**
   A selector's default has the first turn: whenever a proxy can be reached from it, that proxy comes out,
   and the default itself when it is one.  Only when there is none do the members decide, in their order; and
   with no proxy in sight what is found from the default comes out, if it is not on the path already.
   */
  lemma DefaultFirst(index: Index, tag: string, visited: set<string>, o: SelectorOptions)
    requires tag in index && index[tag].kind == Selector(Some(o)) && tag != "" && tag !in visited
    ensures var r, avoid := Found(index, tag, visited), visited + {tag};
      && (ProxyAhead(index, o.default, avoid) ==> LeftmostEnd(index, o.default, avoid, r))
      && (o.default !in avoid && Preferred(index, o.default) && o.default != "" ==> r == o.default)
      && (!ProxyAhead(index, o.default, avoid) ==>
        if o.default == "" || o.default in avoid || exists m :: m in o.outbounds && ProxyAhead(index, m, avoid) then
          MembersDecide(index, o.outbounds, avoid, tag, r)
        else r == Found(index, o.default, avoid))
  {
    hide Ends, AllEnds, FirstPreferred, ProxyAhead, LeftmostEnd, MembersDecide, FirstOpen, AnyAhead;
    var avoid := visited + {tag};
    var first := Ends(index, o.default, avoid);
    var rest := AllEnds(index, o.outbounds, avoid);
    CandidateEnds(index, tag, visited, o);
    FirstPreferredConcat(index, first, rest);
    AheadExactly(index, o.default, avoid);
    AllEndsDecide(index, o.outbounds, avoid, tag);
    AheadByMember(index, o.outbounds, avoid);
    NotOpen(index, o.default, avoid);
    if ProxyAhead(index, o.default, avoid) {
      AheadEnd(index, o.default, avoid);
    }
    if o.default !in avoid && Preferred(index, o.default) && o.default != "" {
      OwnEnd(index, o.default, avoid);
    }
    assert [] + rest == rest;
  }

  lemma OwnEnd(index: Index, tag: string, visited: set<string>)
    requires Preferred(index, tag) && tag != "" && tag !in visited
    ensures FirstPreferred(index, Ends(index, tag, visited)) == Some(tag)
  {
    assert Ends(index, tag, visited) == [tag];
  }

  lemma AheadByMember(index: Index, members: seq<string>, avoid: set<string>)
    ensures AnyAhead(index, members, avoid) <==> exists m :: m in members && ProxyAhead(index, m, avoid)
  {
    hide ProxyAhead;
    assert forall i :: 0 <= i < |members| ==> members[i] in members;
  }

  lemma CandidateEnds(index: Index, tag: string, visited: set<string>, o: SelectorOptions)
    requires tag in index && index[tag].kind == Selector(Some(o)) && tag != "" && tag !in visited
    ensures var avoid := visited + {tag};
      var ends := Ends(index, o.default, avoid) + AllEnds(index, o.outbounds, avoid);
      Ends(index, tag, visited) == if ends == [] then [tag] else ends
  {
    var avoid := visited + {tag};
    if o.default != "" {
      assert ([o.default] + o.outbounds)[1..] == o.outbounds;
    } else {
      assert [] + o.outbounds == o.outbounds;
    }
  }

  /** The members of a url test decide in their order. */
  lemma TestMembersDecide(index: Index, tag: string, visited: set<string>, members: seq<string>)
    requires tag in index && index[tag].kind == UrlTest(Some(members)) && tag != "" && tag !in visited
    ensures MembersDecide(index, members, visited + {tag}, tag, Found(index, tag, visited))
  {
    AllEndsDecide(index, members, visited + {tag}, tag);
  }

  /** Whatever is no group with options is its own end. */
  lemma OthersStay(index: Index, tag: string, visited: set<string>)
    requires tag != "" && tag !in visited
    requires tag in index ==> !(index[tag].kind.Selector? && index[tag].kind.options.Some?)
    requires tag in index ==> !(index[tag].kind.UrlTest? && index[tag].kind.members.Some?)
    ensures Found(index, tag, visited) == tag
  {
    PickOne(index, tag);
  }

  /** The direct and the blocking outbound give way to a proxy named after them. */
  lemma ProxiesGoFirst(index: Index, s: string, d: string, b: string, p: string)
    requires "" !in index && s in index && d in index && b in index && p in index
    requires index[d].kind == Direct && index[b].kind == Block && index[p].kind == Proxy
    requires index[s].kind == UrlTest(Some([d, b, p]))
    ensures Resolved(index, s) == p
  {
    var avoid := {} + {s};
    Leaves(index, [d, b, p], avoid);
    assert [d, b, p][1..] == [b, p] && [b, p][1..] == [p];
    assert FirstPreferred(index, [d, b, p]) == FirstPreferred(index, [b, p]) == FirstPreferred(index, [p]) == Some(p);
    assert Ends(index, s, {}) == [d, b, p];
  }

  lemma {:induction false} Leaves(index: Index, tags: seq<string>, avoid: set<string>)
    requires forall t :: t in tags ==> t != "" && t !in avoid && CandidatesOf(index, t) == None
    ensures AllEnds(index, tags, avoid) == tags
    decreases |tags|
  {
    if tags != [] {
      assert forall t :: t in tags[1..] ==> t in tags;
      Leaves(index, tags[1..], avoid);
      assert tags[0] in tags;
    }
  }

  lemma ReachesTransitive(index: Index, a: string, b: string, c: string)
    requires Reaches(index, a, b) && Reaches(index, b, c)
    ensures Reaches(index, a, c)
  {
    var p :| Path(index, p) && p[0] == a && p[|p| - 1] == b;
    var q :| Path(index, q) && q[0] == b && q[|q| - 1] == c;
    var r := p + q[1..];
    forall i | 0 <= i < |r| - 1 ensures Edge(index, r[i], r[i + 1]) {
      if i < |p| - 1 {
        assert Edge(index, p[i], p[i + 1]);
      } else {
        assert Edge(index, q[i - (|p| - 1)], q[i - (|p| - 1) + 1]);
      }
    }
    assert Path(index, r);
  }

  // ----- resolving the result again -----

  /** The walk that always takes that candidate, until there is none. */
  ghost function Walk(index: Index, tag: string, visited: set<string>): (walk: seq<string>)
    requires tag !in visited
    ensures walk != [] && walk[0] == tag
    decreases |index.Keys - visited|
  {
    if CandidatesOf(index, tag) == None then [tag]
    else
      Shrinks(index, tag, visited);
      var next := FirstOpen(CandidatesOf(index, tag).value, visited + {tag});
      if next == None then [tag] else [tag] + Walk(index, next.value, visited + {tag})
  }

  /** The walk stops at a group that names an earlier tag of the walk. */
  ghost predicate Closes(index: Index, tag: string) {
    var walk := Walk(index, tag, {});
    exists i :: 0 <= i < |walk| - 1 && Edge(index, walk[|walk| - 1], walk[i])
  }

  /** The walk leads to the first of all ends, and leaves out no candidate of the tag it stops at. */
  lemma {:induction false} WalkEnds(index: Index, tag: string, visited: set<string>)
    requires tag != "" && tag !in visited
    ensures var walk, ends := Walk(index, tag, visited), Ends(index, tag, visited);
      && ends != [] && ends[0] == walk[|walk| - 1] && ends[0] !in visited
      && (forall i :: 0 <= i < |walk| - 1 ==> walk[i] != "" && walk[i] != ends[0])
      && (forall c :: Edge(index, ends[0], c) ==> c in visited || c in walk)
    decreases |index.Keys - visited|
  {
    if CandidatesOf(index, tag) != None {
      Shrinks(index, tag, visited);
      var tags := CandidatesOf(index, tag).value;
      FirstOfAllEnds(index, tags, visited + {tag});
      var next := FirstOpen(tags, visited + {tag});
      if next.Some? {
        WalkEnds(index, next.value, visited + {tag});
      }
    }
  }

  lemma {:induction false} FirstOfAllEnds(index: Index, tags: seq<string>, visited: set<string>)
    ensures FirstOpen(tags, visited).None? ==> AllEnds(index, tags, visited) == []
    ensures var open := FirstOpen(tags, visited);
      open.Some? ==>
        Ends(index, open.value, visited) != [] && Ends(index, open.value, visited) <= AllEnds(index, tags, visited)
    decreases |tags|
  {
    if tags != [] {
      FirstOfAllEnds(index, tags[1..], visited);
      if tags[0] != "" && tags[0] !in visited {
        EndsNonempty(index, tags[0], visited);
      }
    }
  }

  /** A tag that leads to no proxy stays as it is exactly when it names no other candidate. */
  lemma StaysItself(index: Index, tag: string)
    requires tag != "" && forall p :: Preferred(index, p) ==> !Reaches(index, tag, p)
    ensures Resolved(index, tag) == tag <==> !exists c :: Edge(index, tag, c) && c != tag
  {
    ResolveComplete(index, tag);
    WalkEnds(index, tag, {});
    if CandidatesOf(index, tag).Some? {
      var open := FirstOpen(CandidatesOf(index, tag).value, {} + {tag});
      assert open.Some? ==> Edge(index, tag, open.value) && |Walk(index, tag, {})| > 1;
      assert open.None? ==> Walk(index, tag, {}) == [tag];
    }
  }

  /**
   Resolving the result again gives the same tag exactly when a proxy can be reached or the walk along the
   first open candidates does not stop at a group that names an earlier tag of the walk.
   */
  lemma ResolveTwice(index: Index, tag: string)
    requires "" !in index
    ensures Resolved(index, Resolved(index, tag)) == Resolved(index, tag) <==>
      (exists p :: Preferred(index, p) && Reaches(index, tag, p)) || !Closes(index, tag)
  {
    var r := Resolved(index, tag);
    if tag == "" {
      assert CandidatesOf(index, "") == None;
    } else {
      ResolveComplete(index, tag);
      if Preferred(index, r) {
        assert Ends(index, r, {}) == [r];
      } else {
        ClosesIsOther(index, tag);
      }
    }
  }

  lemma ClosesIsOther(index: Index, tag: string)
    requires tag != "" && forall p :: Preferred(index, p) ==> !Reaches(index, tag, p)
    ensures Resolved(index, Resolved(index, tag)) == Resolved(index, tag) <==> !Closes(index, tag)
  {
    ResolveComplete(index, tag);
    WalkEnds(index, tag, {});
    var r := Resolved(index, tag);
    var walk := Walk(index, tag, {});
    assert r == Ends(index, tag, {})[0];
    var _ := EndIsReached(index, tag, {}, r);
    forall p | Preferred(index, p) ensures !Reaches(index, r, p) {
      if Reaches(index, r, p) {
        ReachesTransitive(index, tag, r, p);
      }
    }
    NoEmptyEnds(index, tag, {});
    StaysItself(index, r);
    if c :| Edge(index, r, c) && c != r {
      var i :| 0 <= i < |walk| && walk[i] == c;
    }
  }

  /** Two selectors naming each other resolve to one another, so resolving twice comes back. */
  lemma MutualSelectors()
    ensures var index := IndexOf([Outbound("a", Selector(Some(SelectorOptions("", ["b"])))),
                                  Outbound("b", Selector(Some(SelectorOptions("", ["a"]))))]);
      Resolved(index, "a") == "b" && Resolved(index, "b") == "a"
  {
    var a, b := Outbound("a", Selector(Some(SelectorOptions("", ["b"])))),
      Outbound("b", Selector(Some(SelectorOptions("", ["a"]))));
    var index := IndexOf([a, b]);
    assert [a, b][..1] == [a] && [a][..0] == [];
    assert IndexOf([a]) == map["a" := a];
    assert index == map["a" := a, "b" := b];
    assert [] + ["a"] == ["a"] && [] + ["b"] == ["b"];
    assert CandidatesOf(index, "a") == Some(["b"]) && CandidatesOf(index, "b") == Some(["a"]);
    EndsOfPair(index, "a", "b");
    EndsOfPair(index, "b", "a");
  }

  lemma EndsOfPair(index: Index, x: string, y: string)
    requires x != "" && y != "" && x != y
    requires CandidatesOf(index, x) == Some([y]) && CandidatesOf(index, y) == Some([x])
    ensures Ends(index, x, {}) == [y]
  {
    var inner := {} + {x} + {y};
    assert AllEnds(index, [x], inner) == Ends(index, x, inner) + AllEnds(index, [x][1..], inner);
    assert Ends(index, y, {} + {x}) == [y];
    assert AllEnds(index, [y], {} + {x}) == Ends(index, y, {} + {x}) + AllEnds(index, [y][1..], {} + {x});
  }
}
