/**
 Inserting a resolve rule for every inbound that has none.  The list of rules is a Go slice, a window on an
 array with spare room behind it, and the insertion appends twice: once behind the new rules, and then behind
 the leading old ones, over the place of the others.
 */
module ResolveInsertion {
  import opened Words
  import opened RouteRules

  // ----- slices -----

  datatype Slice<T> = Slice(data: array<T>, start: nat, len: nat, cap: nat)

  ghost predicate Valid<T>(s: Slice<T>) {
    s.len <= s.cap && s.start + s.cap <= s.data.Length
  }

  function Contents<T>(s: Slice<T>): (c: seq<T>)
    requires s.len <= s.cap && s.start + s.cap <= s.data.Length
    reads s.data
    ensures |c| == s.len
  {
    s.data[s.start..s.start + s.len]
  }

  /** The first `n` elements, with all the room behind them. */
  function Head<T>(s: Slice<T>, n: nat): Slice<T> {
    s.(len := n)
  }

  function Tail<T>(s: Slice<T>, n: nat): Slice<T>
    requires n <= s.len <= s.cap
  {
    Slice(s.data, s.start + n, s.len - n, s.cap - n)
  }

  /**
   Go's `append`: written in place when there is room, and otherwise into a new array with some room to
   spare.  The elements are read before any is written, so they may overlap the room they go to.
   */
  method Append<T(0)>(s: Slice<T>, more: Slice<T>, spare: nat) returns (r: Slice<T>)
    requires Valid(s) && Valid(more)
    modifies s.data
    ensures Valid(r) && Contents(r) == old(Contents(s)) + old(Contents(more))
    ensures if s.len + more.len <= s.cap then r == s.(len := s.len + more.len) else fresh(r.data)
    ensures forall k :: 0 <= k < s.data.Length && !(s.start + s.len <= k < s.start + s.len + more.len) ==>
      s.data[k] == old(s.data[k])
    ensures s.len + more.len > s.cap ==> s.data[..] == old(s.data[..])
  {
    if s.len + more.len <= s.cap {
      r := AppendInPlace(s, more);
    } else {
      r := AppendGrown(s, more, spare);
    }
  }

  method AppendInPlace<T(0)>(s: Slice<T>, more: Slice<T>) returns (r: Slice<T>)
    requires Valid(s) && Valid(more) && s.len + more.len <= s.cap
    modifies s.data
    ensures r == s.(len := s.len + more.len) && Valid(r)
    ensures Contents(r) == old(Contents(s)) + old(Contents(more))
    ensures forall k :: 0 <= k < s.data.Length && !(s.start + s.len <= k < s.start + s.len + more.len) ==>
      s.data[k] == old(s.data[k])
  {
    r := s.(len := s.len + more.len);
    forall k | 0 <= k < more.len {
      s.data[s.start + s.len + k] := more.data[more.start + k];
    }
    forall k | 0 <= k < s.len ensures Contents(r)[k] == old(Contents(s))[k] {
      assert s.data[s.start + k] == old(s.data[s.start + k]);
    }
    forall k | 0 <= k < more.len ensures Contents(r)[s.len + k] == old(Contents(more))[k] {
      assert s.data[s.start + s.len + k] == old(more.data[more.start + k]);
    }
    OfParts(Contents(r), old(Contents(s)), old(Contents(more)));
  }

  method AppendGrown<T(0)>(s: Slice<T>, more: Slice<T>, spare: nat) returns (r: Slice<T>)
    requires Valid(s) && Valid(more)
    ensures Valid(r) && fresh(r.data) && Contents(r) == Contents(s) + Contents(more)
  {
    var n := s.len + more.len;
    var data := new T[n + spare];
    forall k | 0 <= k < s.len {
      data[k] := s.data[s.start + k];
    }
    forall k | 0 <= k < more.len {
      data[s.len + k] := more.data[more.start + k];
    }
    r := Slice(data, 0, n, n + spare);
    OfParts(Contents(r), Contents(s), Contents(more));
  }

  lemma OfParts<T>(whole: seq<T>, x: seq<T>, y: seq<T>)
    requires |whole| == |x| + |y|
    requires forall k :: 0 <= k < |x| ==> whole[k] == x[k]
    requires forall k :: 0 <= k < |y| ==> whole[|x| + k] == y[k]
    ensures whole == x + y
  {
  }

  lemma HeadAndTail<T>(s: Slice<T>, i: nat)
    requires Valid(s) && i <= s.len
    ensures Valid(Head(s, i)) && Contents(Head(s, i)) == Contents(s)[..i]
    ensures Valid(Tail(s, i)) && Contents(Tail(s, i)) == Contents(s)[i..]
  {
  }

  /** `append(s[:i], append(new, s[i:]...)...)`: the new elements go in at `i`, wherever the arrays end up. */
  method Insert<T(0)>(s: Slice<T>, i: nat, added: Slice<T>, spare: nat) returns (r: Slice<T>)
    requires Valid(s) && Valid(added) && i <= s.len && s.data != added.data
    modifies s.data, added.data
    ensures Valid(r) && (r.data == s.data || fresh(r.data))
    ensures Contents(r) == old(Contents(s)[..i] + Contents(added) + Contents(s)[i..])
    ensures forall k :: 0 <= k < s.data.Length && !(s.start + i <= k < s.start + s.cap) ==> s.data[k] == old(s.data[k])
  {
    ghost var before := Contents(s);
    HeadAndTail(s, i);
    var behind := Append(added, Tail(s, i), spare);
    assert Contents(s) == before;
    HeadAndTail(s, i);
    r := Append(Head(s, i), behind, spare);
    Assoc(before[..i], old(Contents(added)), before[i..]);
  }

  // ----- the policy -----

  /** The inbound tags, without the empty one and repetitions, in order of appearance. */
  function Distinct(tags: seq<string>): (r: seq<string>)
    ensures forall t :: t in r <==> t in tags && t != ""
    ensures NoRepeats(r)
  {
    if tags == [] then []
    else
      var t := tags[|tags| - 1];
      var rest := Distinct(tags[..|tags| - 1]);
      assert tags == tags[..|tags| - 1] + [t];
      if t == "" || t in rest then rest else rest + [t]
  }

  predicate ResolvesFor(rule: Rule, tag: string) {
    rule.kind == Default && rule.def.action.kind == Resolve &&
      (rule.def.criteria.inbound == [] || tag in rule.def.criteria.inbound)
  }

  predicate Covered(rules: seq<Rule>, tag: string) {
    exists i :: 0 <= i < |rules| && ResolvesFor(rules[i], tag)
  }

  const NO_ACTION := Action(NoAction, "", "", 0)

  function ResolveRule(tag: string, strategy: int, server: string): Rule {
    Rule(Default, DefaultRule(Matchers([tag], ["dns"], [], true, 0), Action(Resolve, "", server, strategy)),
         LogicalRule(And, [], false, NO_ACTION))
  }

  function Missing(rules: seq<Rule>, tags: seq<string>): (r: seq<string>)
    ensures forall t :: t in r <==> t in tags && !Covered(rules, t)
  {
    if tags == [] then []
    else
      var t := tags[|tags| - 1];
      assert tags == tags[..|tags| - 1] + [t];
      Missing(rules, tags[..|tags| - 1]) + if Covered(rules, t) then [] else [t]
  }

  function ResolveRules(missing: seq<string>, strategy: int, server: string): (r: seq<Rule>)
    ensures |r| == |missing| && forall i :: 0 <= i < |r| ==> r[i] == ResolveRule(missing[i], strategy, server)
  {
    seq(|missing|, i requires 0 <= i < |missing| => ResolveRule(missing[i], strategy, server))
  }

  function ActionType(rule: Rule): ActionKind {
    match rule.kind
    case Default => rule.def.action.kind
    case Logical => rule.logical.action.kind
    case _ => NoAction
  }

  /** Rules that only look at a connection and let it go on. */
  predicate PassesOn(rule: Rule) {
    var a := ActionType(rule);
    a == Sniff || a == HijackDns || a == Resolve
  }

  function InsertIndex(rules: seq<Rule>): (i: nat)
    ensures i <= |rules| && (forall j :: 0 <= j < i ==> PassesOn(rules[j])) && (i < |rules| ==> !PassesOn(rules[i]))
  {
    if rules == [] || !PassesOn(rules[0]) then 0 else 1 + InsertIndex(rules[1..])
  }

  /** Strategies are numbered as sing-box does: 0 leaves the order alone, 1 to 4 are the named ones. */
  function Strategy(strategy: int): int {
    if 1 <= strategy <= 4 then strategy else 0
  }

  function WithRules(rules: seq<Rule>, tags: seq<string>, strategy: int, server: string): seq<Rule> {
    var i := InsertIndex(rules);
    rules[..i] + ResolveRules(Missing(rules, tags), Strategy(strategy), server) + rules[i..]
  }

  /** The rules after the policy; `tags` are those of the inbounds. */
  function WithResolve(rules: seq<Rule>, tags: seq<string>, strategy: int, server: string): seq<Rule> {
    WithRules(rules, Distinct(tags), strategy, server)
  }

  class Options {
    var inbounds: seq<string>
    var route: Option<Slice<Rule>>

    constructor (inbounds: seq<string>, route: Option<Slice<Rule>>)
      ensures this.inbounds == inbounds && this.route == route
    {
      this.inbounds, this.route := inbounds, route;
    }

    ghost predicate WellFormed()
      reads this
    {
      route.Some? ==> Valid(route.value)
    }

    /** No route is no rules. */
    function Rules(): seq<Rule>
      requires WellFormed()
      reads this, if route.Some? then {route.value.data} else {}
    {
      if route == None then [] else Contents(route.value)
    }

    method ApplyResolveDestination(wanted: bool, strategy: int, server: string, spare: nat)
      requires WellFormed()
      modifies this`route, if route.Some? then {route.value.data} else {}
      ensures WellFormed()
      ensures Rules() == if wanted then WithResolve(old(Rules()), inbounds, strategy, server) else old(Rules())
    {
      if !wanted {
        return;
      }
      var tags := CollectTags(inbounds);
      if |tags| == 0 {
        NothingMissing(Rules(), tags, strategy, server);
        return;
      }
      if route == None {
        var data := new Rule[0];
        route := Some(Slice(data, 0, 0, 0));
      }
      hide WithResolve, Distinct;
      var rules := InsertRules(route.value, tags, strategy, server, spare);
      route := Some(rules);
    }
  }

  lemma NothingMissing(rules: seq<Rule>, tags: seq<string>, strategy: int, server: string)
    requires Missing(rules, tags) == []
    ensures WithRules(rules, tags, strategy, server) == rules
  {
  }

  /** The rules with what is missing for the tags; the same slice when nothing is. */
  method InsertRules(rules: Slice<Rule>, tags: seq<string>, strategy: int, server: string, spare: nat)
      returns (r: Slice<Rule>)
    requires Valid(rules)
    modifies rules.data
    ensures Valid(r) && (r.data == rules.data || fresh(r.data))
    ensures Contents(r) == WithRules(old(Contents(rules)), tags, strategy, server)
  {
    ghost var before := Contents(rules);
    hide InsertIndex, Strategy, Missing, ResolveRules;
    var added := BuildRules(rules, tags, Strategy(strategy), server);
    if added.len == 0 {
      assert ResolveRules(Missing(before, tags), Strategy(strategy), server) == [];
      assert WithRules(before, tags, strategy, server) == before;
      return rules;
    }
    var i := FindInsertIndex(rules);
    r := Insert(rules, i, added, spare);
  }

  method CollectTags(inbounds: seq<string>) returns (tags: seq<string>)
    ensures tags == Distinct(inbounds)
  {
    tags := [];
    var seen: set<string> := {};
    for i := 0 to |inbounds|
      invariant tags == Distinct(inbounds[..i])
      invariant forall t :: t in seen <==> t in tags
    {
      assert inbounds[..i + 1][..i] == inbounds[..i];
      if inbounds[i] != "" && inbounds[i] !in seen {
        seen := seen + {inbounds[i]};
        tags := tags + [inbounds[i]];
      }
    }
    assert inbounds[..|inbounds|] == inbounds;
  }

  method HasResolveRule(rules: Slice<Rule>, tag: string) returns (has: bool)
    requires Valid(rules)
    ensures has <==> Covered(Contents(rules), tag)
  {
    for i := 0 to rules.len
      invariant forall j :: 0 <= j < i ==> !ResolvesFor(Contents(rules)[j], tag)
    {
      var rule := rules.data[rules.start + i];
      assert rule == Contents(rules)[i];
      if rule.kind != Default || rule.def.action.kind != Resolve {
        continue;
      }
      if |rule.def.criteria.inbound| == 0 {
        return true;
      }
      for j := 0 to |rule.def.criteria.inbound|
        invariant tag !in rule.def.criteria.inbound[..j]
      {
        if rule.def.criteria.inbound[j] == tag {
          return true;
        }
      }
      assert rule.def.criteria.inbound[..|rule.def.criteria.inbound|] == rule.def.criteria.inbound;
    }
    return false;
  }

  /** The missing rules, in a slice with room for one per tag. */
  method BuildRules(rules: Slice<Rule>, tags: seq<string>, strategy: int, server: string) returns (added: Slice<Rule>)
    requires Valid(rules)
    ensures Valid(added) && fresh(added.data) &&
      Contents(added) == ResolveRules(Missing(Contents(rules), tags), strategy, server)
  {
    var list := ListRules(rules, tags, strategy, server);
    MissingFewer(Contents(rules), tags);
    var data := new Rule[|tags|];
    forall k | 0 <= k < |list| {
      data[k] := list[k];
    }
    added := Slice(data, 0, |list|, |tags|);
  }

  method ListRules(rules: Slice<Rule>, tags: seq<string>, strategy: int, server: string) returns (list: seq<Rule>)
    requires Valid(rules)
    ensures list == ResolveRules(Missing(Contents(rules), tags), strategy, server)
  {
    list := [];
    ghost var all := Contents(rules);
    hide *;
    MissingNil(all);
    NoResolveRules(strategy, server);
    assert tags[..0] == [];
    for i := 0 to |tags|
      invariant list == ResolveRules(Missing(all, tags[..i]), strategy, server)
    {
      ListStep(all, tags, i, strategy, server);
      var has := HasResolveRule(rules, tags[i]);
      if !has {
        list := list + [ResolveRule(tags[i], strategy, server)];
      }
    }
    assert tags[..|tags|] == tags;
  }

  lemma {:induction false} MissingFewer(rules: seq<Rule>, tags: seq<string>)
    ensures |Missing(rules, tags)| <= |tags|
    decreases |tags|
  {
    if tags != [] {
      MissingFewer(rules, tags[..|tags| - 1]);
    }
  }

  lemma MissingStep(rules: seq<Rule>, tags: seq<string>, tag: string)
    ensures Missing(rules, tags + [tag]) == Missing(rules, tags) + if Covered(rules, tag) then [] else [tag]
  {
    hide Covered;
    assert (tags + [tag])[..|tags|] == tags;
  }

  lemma ListStep(rules: seq<Rule>, tags: seq<string>, i: nat, strategy: int, server: string)
    requires i < |tags|
    ensures ResolveRules(Missing(rules, tags[..i + 1]), strategy, server) ==
      if Covered(rules, tags[i]) then ResolveRules(Missing(rules, tags[..i]), strategy, server)
      else ResolveRules(Missing(rules, tags[..i]), strategy, server) + [ResolveRule(tags[i], strategy, server)]
  {
    hide *;
    assert tags[..i + 1] == tags[..i] + [tags[i]];
    MissingStep(rules, tags[..i], tags[i]);
    ResolveRulesStep(Missing(rules, tags[..i]), tags[i], strategy, server);
    assert Missing(rules, tags[..i]) + [] == Missing(rules, tags[..i]);
  }

  lemma ResolveRulesStep(tags: seq<string>, tag: string, strategy: int, server: string)
    ensures ResolveRules(tags + [tag], strategy, server) ==
      ResolveRules(tags, strategy, server) + [ResolveRule(tag, strategy, server)]
  {
    hide ResolveRule;
  }

  lemma NoResolveRules(strategy: int, server: string)
    ensures ResolveRules([], strategy, server) == []
  {
  }

  lemma MissingNil(rules: seq<Rule>)
    ensures Missing(rules, []) == []
  {
  }

  method FindInsertIndex(rules: Slice<Rule>) returns (i: nat)
    requires Valid(rules)
    ensures i == InsertIndex(Contents(rules))
  {
    i := 0;
    ghost var all := Contents(rules);
    while i < rules.len
      invariant i <= rules.len && forall j :: 0 <= j < i ==> PassesOn(all[j])
    {
      assert rules.data[rules.start + i] == all[i];
      if !PassesOn(rules.data[rules.start + i]) {
        break;
      }
      i := i + 1;
    }
    IndexIsUnique(all, i);
  }

  lemma IndexIsUnique(rules: seq<Rule>, i: nat)
    requires i <= |rules| && (forall j :: 0 <= j < i ==> PassesOn(rules[j])) && (i < |rules| ==> !PassesOn(rules[i]))
    ensures i == InsertIndex(rules)
  {
  }

  // ----- what the policy achieves -----

  lemma CoveredBy(before: seq<Rule>, added: seq<Rule>, after: seq<Rule>, k: nat, tag: string)
    requires k < |added| && ResolvesFor(added[k], tag)
    ensures Covered(before + added + after, tag)
  {
    hide ResolvesFor;
    assert (before + added + after)[|before| + k] == added[k];
  }

  /** There is a default rule that resolves, for every inbound or for this one. */
  ghost predicate HasResolve(rules: seq<Rule>, tag: string) {
    exists r :: r in rules && ForInbound(r, tag)
  }

  predicate ForInbound(r: Rule, tag: string) {
    && r.kind == Default && r.def.action.kind == Resolve
    && (r.def.criteria.inbound == [] || tag in r.def.criteria.inbound)
  }

  lemma CoveredExactly(rules: seq<Rule>, tag: string)
    ensures Covered(rules, tag) <==> HasResolve(rules, tag)
  {
    if r :| r in rules && ForInbound(r, tag) {
      var i :| 0 <= i < |rules| && rules[i] == r;
      assert ResolvesFor(rules[i], tag);
    }
    if i :| 0 <= i < |rules| && ResolvesFor(rules[i], tag) {
      assert rules[i] in rules;
    }
  }

  /** Every inbound with a tag has a resolve rule afterwards. */
  lemma AllCovered(rules: seq<Rule>, tags: seq<string>, strategy: int, server: string, tag: string)
    requires tag in tags && tag != ""
    ensures Covered(WithResolve(rules, tags, strategy, server), tag)
    ensures HasResolve(WithResolve(rules, tags, strategy, server), tag)
  {
    CoveredExactly(WithResolve(rules, tags, strategy, server), tag);
    var i := InsertIndex(rules);
    var missing := Missing(rules, Distinct(tags));
    var out := WithResolve(rules, tags, strategy, server);
    assert tag in Distinct(tags);
    assert tag !in missing ==> Covered(rules, tag);
    hide Distinct, Missing, InsertIndex, PassesOn, Strategy;
    var added := ResolveRules(missing, Strategy(strategy), server);
    if tag in missing {
      var k :| 0 <= k < |missing| && missing[k] == tag;
      assert added[k] == ResolveRule(tag, Strategy(strategy), server);
      CoveredBy(rules[..i], added, rules[i..], k, tag);
    } else {
      hide ResolveRule, ResolveRules;
      CoveredStill(rules, i, added, tag);
    }
  }

  lemma CoveredStill(rules: seq<Rule>, i: nat, added: seq<Rule>, tag: string)
    requires i <= |rules| && Covered(rules, tag)
    ensures Covered(rules[..i] + added + rules[i..], tag)
  {
    var k :| 0 <= k < |rules| && ResolvesFor(rules[k], tag);
    hide ResolvesFor;
    var at := if k < i then k else k + |added|;
    assert (rules[..i] + added + rules[i..])[at] == rules[k];
  }

  /** A second application inserts nothing. */
  lemma AgainNothing(rules: seq<Rule>, tags: seq<string>, strategy: int, server: string, later: int, other: string)
    ensures var out := WithResolve(rules, tags, strategy, server); WithResolve(out, tags, later, other) == out
  {
    var out := WithResolve(rules, tags, strategy, server);
    forall t | t in Distinct(tags) ensures Covered(out, t) {
      AllCovered(rules, tags, strategy, server, t);
    }
    hide Distinct, Covered, Missing;
    NoneMissing(out, Distinct(tags));
    NothingMissing(out, Distinct(tags), later, other);
  }

  lemma {:induction false} NoneMissing(rules: seq<Rule>, tags: seq<string>)
    requires forall t :: t in tags ==> Covered(rules, t)
    ensures Missing(rules, tags) == []
    decreases |tags|
  {
    if tags != [] {
      NoneMissing(rules, tags[..|tags| - 1]);
    }
  }

  lemma {:induction false} MissingDistinct(rules: seq<Rule>, tags: seq<string>)
    requires NoRepeats(tags)
    ensures NoRepeats(Missing(rules, tags))
    decreases |tags|
  {
    if tags != [] {
      MissingDistinct(rules, tags[..|tags| - 1]);
    }
  }

  /** A default or logical rule that sniffs, takes DNS over or resolves, and lets the connection go on. */
  predicate Looks(rule: Rule) {
    || (rule.kind == Default && rule.def.action.kind in {Sniff, HijackDns, Resolve})
    || (rule.kind == Logical && rule.logical.action.kind in {Sniff, HijackDns, Resolve})
  }

  lemma LooksExactly(rule: Rule)
    ensures PassesOn(rule) <==> Looks(rule)
  {
  }

  /** A named strategy stays, any other number leaves the order alone. */
  function Named(strategy: int): int {
    if strategy in {1, 2, 3, 4} then strategy else 0
  }

  /**
   The old rules keep their order; the new ones, one for each tag that has none, stand behind rules that only
   look and before the first that does not.
   */
  lemma Placement(rules: seq<Rule>, tags: seq<string>, strategy: int, server: string)
      returns (i: nat, missing: seq<string>)
    ensures i <= |rules| && NoRepeats(missing)
    ensures forall t :: t in missing <==> t in tags && t != "" && !HasResolve(rules, t)
    ensures var out, n := WithResolve(rules, tags, strategy, server), |missing|;
      && out[..i] == rules[..i] && |out| == |rules| + n && out[i + n..] == rules[i..]
      && (forall k :: 0 <= k < n ==> out[i + k] == ResolveRule(missing[k], Named(strategy), server))
      && (forall k :: 0 <= k < i + n ==> Looks(out[k])) && (i + n < |out| ==> !Looks(out[i + n]))
  {
    hide *;
    i, missing := InsertIndex(rules), Missing(rules, Distinct(tags));
    MissingDistinct(rules, Distinct(tags));
    forall t ensures Covered(rules, t) <==> HasResolve(rules, t) {
      CoveredExactly(rules, t);
    }
    var added := ResolveRules(missing, Named(strategy), server);
    AllPassOn(rules[..i], missing, Named(strategy), server);
    var out := WithResolve(rules, tags, strategy, server);
    PartsOf(rules, tags, strategy, server);
    forall rule: Rule ensures PassesOn(rule) <==> Looks(rule) {
      LooksExactly(rule);
    }
    Spliced(rules, i, added, out);
  }

  lemma PartsOf(rules: seq<Rule>, tags: seq<string>, strategy: int, server: string)
    ensures var i := InsertIndex(rules);
      WithResolve(rules, tags, strategy, server) ==
        rules[..i] + ResolveRules(Missing(rules, Distinct(tags)), Named(strategy), server) + rules[i..]
  {
    hide InsertIndex, ResolveRules, Missing, Distinct;
    assert Strategy(strategy) == Named(strategy);
  }

  // ----- what the new rules match -----

  /** What a connection shows of itself; other matchers it may meet or not. */
  datatype Connection = Connection(inbound: string, protocol: string, sets: set<string>, meets: int -> bool)

  /** All listed matchers must be met, and an inverted rule matches what does not meet them. */
  predicate Matched(c: Connection, m: Matchers) {
    m.invert != Met(c, m)
  }

  predicate Met(c: Connection, m: Matchers) {
    && (m.inbound == [] || c.inbound in m.inbound)
    && (m.protocol == [] || c.protocol in m.protocol)
    && (m.ruleSet == [] || exists t :: t in m.ruleSet && t in c.sets)
    && (m.rest == 0 || c.meets(m.rest))
  }

  /** Of its own inbound's connections a new rule matches all but DNS, and of other inbounds' all. */
  lemma NewRuleMatches(c: Connection, tag: string, strategy: int, server: string)
    ensures Matched(c, ResolveRule(tag, strategy, server).def.criteria) <==> !(c.inbound == tag && c.protocol == "dns")
  {
  }

  /**
   DNS traffic is spared by all new rules exactly when they are for no other inbound than its own; all other
   traffic matches every new rule.
   */
  lemma DnsIsSpared(c: Connection, missing: seq<string>, strategy: int, server: string)
    ensures var added := ResolveRules(missing, strategy, server);
      && (c.protocol == "dns" ==>
        ((forall k :: 0 <= k < |added| ==> !Matched(c, added[k].def.criteria)) <==>
          forall t :: t in missing ==> t == c.inbound))
      && (c.protocol != "dns" ==> forall k :: 0 <= k < |added| ==> Matched(c, added[k].def.criteria))
  {
    var added := ResolveRules(missing, strategy, server);
    forall k | 0 <= k < |added|
      ensures Matched(c, added[k].def.criteria) <==> !(c.inbound == missing[k] && c.protocol == "dns")
    {
      NewRuleMatches(c, missing[k], strategy, server);
    }
    hide Matched, ResolveRules;
    assert forall k :: 0 <= k < |missing| ==> missing[k] in missing;
  }

  /** With two inbounds the DNS traffic of one is resolved by the rule for the other. */
  lemma OtherInboundsDns(c: Connection, a: string, b: string, strategy: int, server: string)
    requires a != b && c.inbound == a && c.protocol == "dns"
    ensures Matched(c, ResolveRules([a, b], strategy, server)[1].def.criteria)
  {
    NewRuleMatches(c, b, strategy, server);
  }

  lemma Spliced(rules: seq<Rule>, i: nat, added: seq<Rule>, out: seq<Rule>)
    requires i <= |rules| && out == rules[..i] + added + rules[i..]
    ensures var n := |added|;
      && out[..i] == rules[..i] && |out| == |rules| + n && out[i + n..] == rules[i..]
      && (forall k :: 0 <= k < n ==> out[i + k] == added[k])
      && out[..i + n] == rules[..i] + added
      && (i < |rules| ==> out[i + n] == rules[i])
  {
  }

  lemma AllPassOn(before: seq<Rule>, tags: seq<string>, strategy: int, server: string)
    requires forall k :: 0 <= k < |before| ==> PassesOn(before[k])
    ensures var rules := before + ResolveRules(tags, strategy, server);
      forall k :: 0 <= k < |rules| ==> PassesOn(rules[k])
  {
  }
}
