/**
 Routing rules are turned to the chosen region: those for Chinese addresses and those for the rest swap
 between the direct and the selected outbound.
 */
module Region {
  import opened RouteRules

  datatype Tags = Tags(direct: string, selected: string)

  datatype OutboundKind = DirectOutbound | SelectorOutbound | OtherOutbound

  datatype Outbound = Outbound(tag: string, kind: OutboundKind)

  const SELECT_TAG := "select"
  const DIRECT_TAG := "direct"

  function CnTags(): set<string> {
    {"geoip-cn", "geosite-cn", "geosite-geolocation-cn", "geosite-netease", "geosite-bilibili"}
  }

  function OtherTags(): set<string> {
    {"geosite-geolocation-!cn"}
  }

  predicate Targets(m: Matchers, tags: set<string>) {
    exists i :: 0 <= i < |m.ruleSet| && m.ruleSet[i] in tags
  }

  predicate Routes(a: Action) {
    a.kind == Route || (a.kind == NoAction && a.outbound != "")
  }

  function ForCn(isCn: bool, tags: Tags): string {
    if isCn then tags.selected else tags.direct
  }

  function ForOthers(isCn: bool, tags: Tags): string {
    if isCn then tags.direct else tags.selected
  }

  function To(a: Action, outbound: string): Action {
    a.(kind := Route, outbound := outbound)
  }

  function RegionDefault(rule: DefaultRule, isCn: bool, tags: Tags): DefaultRule {
    if !Routes(rule.action) then rule
    else if Targets(rule.criteria, CnTags()) then rule.(action := To(rule.action, ForCn(isCn, tags)))
    else if Targets(rule.criteria, OtherTags()) then rule.(action := To(rule.action, ForOthers(isCn, tags)))
    else rule
  }

  /** "Neither Chinese sites nor Chinese addresses": inverted default rules, one on bundled sets, one on `geoip-cn`. */
  predicate Complement(rule: LogicalRule) {
    && rule.mode == And && rule.rules != []
    && (forall i :: 0 <= i < |rule.rules| ==> rule.rules[i].kind == Default && rule.rules[i].def.criteria.invert)
    && (exists i :: 0 <= i < |rule.rules| && Targets(rule.rules[i].def.criteria, CnTags() + OtherTags()))
    && (exists i :: 0 <= i < |rule.rules| && "geoip-cn" in rule.rules[i].def.criteria.ruleSet)
  }

  function RegionRule(rule: Rule, isCn: bool, tags: Tags): Rule
    decreases rule
  {
    match rule.kind
    case Logical =>
      var l := rule.logical.(rules := RegionRules(rule.logical.rules, isCn, tags));
      rule.(logical := if Routes(l.action) && Complement(l) then l.(action := To(l.action, ForOthers(isCn, tags)))
        else l)
    case OtherKind(_) => rule
    case _ => rule.(kind := Default, def := RegionDefault(rule.def, isCn, tags))
  }

  function RegionRules(rules: seq<Rule>, isCn: bool, tags: Tags): (r: seq<Rule>)
    ensures |r| == |rules|
    decreases rules
  {
    if rules == [] then [] else [RegionRule(rules[0], isCn, tags)] + RegionRules(rules[1..], isCn, tags)
  }

  // ----- what a rule matches -----

  /** A connection meets or misses any matchers, and any rule of an unknown kind. */
  datatype Connection = Connection(meets: Matchers -> bool, other: Rule -> bool)

  predicate Matches(c: Connection, rule: Rule)
    decreases rule
  {
    match rule.kind
    case Logical =>
      var l := rule.logical;
      l.invert != (if l.mode == And then MatchesAll(c, l.rules) else MatchesSome(c, l.rules))
    case OtherKind(_) => c.other(rule)
    case _ => rule.def.criteria.invert != c.meets(rule.def.criteria)
  }

  predicate MatchesAll(c: Connection, rules: seq<Rule>)
    decreases rules
  {
    rules != [] ==> Matches(c, rules[0]) && MatchesAll(c, rules[1..])
  }

  predicate MatchesSome(c: Connection, rules: seq<Rule>)
    decreases rules
  {
    rules != [] && (Matches(c, rules[0]) || MatchesSome(c, rules[1..]))
  }

  /** The first rule that the connection matches, or the number of rules. */
  function FirstMatch(c: Connection, rules: seq<Rule>): (i: nat)
    ensures i <= |rules|
  {
    if rules == [] || Matches(c, rules[0]) then 0 else 1 + FirstMatch(c, rules[1..])
  }

  lemma {:induction false} SameMatches(c: Connection, rule: Rule, isCn: bool, tags: Tags)
    ensures Matches(c, RegionRule(rule, isCn, tags)) == Matches(c, rule)
    decreases rule
  {
    hide Targets, Complement, Routes;
    if rule.kind == Logical {
      SameMatchesAll(c, rule.logical.rules, isCn, tags);
    }
  }

  lemma {:induction false} SameMatchesAll(c: Connection, rules: seq<Rule>, isCn: bool, tags: Tags)
    ensures MatchesAll(c, RegionRules(rules, isCn, tags)) == MatchesAll(c, rules)
    ensures MatchesSome(c, RegionRules(rules, isCn, tags)) == MatchesSome(c, rules)
    decreases rules
  {
    hide RegionRule, Matches;
    if rules != [] {
      SameMatches(c, rules[0], isCn, tags);
      SameMatchesAll(c, rules[1..], isCn, tags);
      assert RegionRules(rules, isCn, tags)[1..] == RegionRules(rules[1..], isCn, tags);
    }
  }

  /** Every connection still hits the same rule of the list, on trees of any depth. */
  lemma {:induction false} SameFirstMatch(c: Connection, rules: seq<Rule>, isCn: bool, tags: Tags)
    ensures FirstMatch(c, RegionRules(rules, isCn, tags)) == FirstMatch(c, rules)
    decreases rules
  {
    hide RegionRule, Matches;
    if rules != [] {
      SameMatches(c, rules[0], isCn, tags);
      SameFirstMatch(c, rules[1..], isCn, tags);
      assert RegionRules(rules, isCn, tags)[1..] == RegionRules(rules[1..], isCn, tags);
    }
  }

  // ----- the last region wins -----

  lemma {:induction false} LastRegionWins(rule: Rule, first: bool, last: bool, tags: Tags)
    ensures RegionRule(RegionRule(rule, first, tags), last, tags) == RegionRule(rule, last, tags)
    decreases rule
  {
    hide Targets, Complement;
    match rule.kind {
      case Logical =>
        var one, two := RegionRules(rule.logical.rules, first, tags), RegionRules(rule.logical.rules, last, tags);
        AllLastRegionWins(rule.logical.rules, first, last, tags);
        SameComplement(rule.logical, first, last, tags);
        ActionAside(rule.logical.(rules := two), To(rule.logical.action, ForOthers(first, tags)));
      case _ =>
    }
  }

  lemma {:induction false} AllLastRegionWins(rules: seq<Rule>, first: bool, last: bool, tags: Tags)
    ensures RegionRules(RegionRules(rules, first, tags), last, tags) == RegionRules(rules, last, tags)
    decreases rules
  {
    hide RegionRule;
    if rules != [] {
      LastRegionWins(rules[0], first, last, tags);
      AllLastRegionWins(rules[1..], first, last, tags);
      assert RegionRules(rules, first, tags)[1..] == RegionRules(rules[1..], first, tags);
    }
  }

  /** Whether a rule is a complement does not depend on the region its nested rules were turned to. */
  lemma SameComplement(rule: LogicalRule, first: bool, last: bool, tags: Tags)
    ensures Complement(rule.(rules := RegionRules(rule.rules, first, tags)))
         == Complement(rule.(rules := RegionRules(rule.rules, last, tags)))
  {
    forall i | 0 <= i < |rule.rules|
      ensures SameCriteria(RegionRules(rule.rules, first, tags)[i], RegionRules(rule.rules, last, tags)[i])
    {
      RegionAt(rule.rules, i, first, tags);
      RegionAt(rule.rules, i, last, tags);
    }
    hide RegionRules;
    Likewise(rule, RegionRules(rule.rules, first, tags), RegionRules(rule.rules, last, tags));
  }

  lemma ActionAside(rule: LogicalRule, a: Action)
    ensures Complement(rule.(action := a)) == Complement(rule)
  {
  }

  predicate SameCriteria(a: Rule, b: Rule) {
    a.kind == b.kind && a.def.criteria == b.def.criteria
  }

  lemma Likewise(rule: LogicalRule, a: seq<Rule>, b: seq<Rule>)
    requires |a| == |b| && forall i :: 0 <= i < |a| ==> SameCriteria(a[i], b[i])
    ensures Complement(rule.(rules := a)) == Complement(rule.(rules := b))
  {
    hide Targets;
  }

  lemma {:induction false} RegionAt(rules: seq<Rule>, i: nat, isCn: bool, tags: Tags)
    requires i < |rules|
    ensures RegionRules(rules, isCn, tags)[i] == RegionRule(rules[i], isCn, tags)
    decreases i
  {
    if i > 0 {
      RegionAt(rules[1..], i - 1, isCn, tags);
    }
  }

  // ----- the policy told by fields and by connections -----

  function ActionOf(rule: Rule): Action {
    if rule.kind == Logical then rule.logical.action else rule.def.action
  }

  /** The rule lists one of these sets. */
  ghost predicate Lists(rule: Rule, sets: seq<string>) {
    exists t :: t in rule.def.criteria.ruleSet && t in sets
  }

  const CHINESE_SETS := ["geoip-cn", "geosite-cn", "geosite-geolocation-cn", "geosite-netease", "geosite-bilibili"]
  const FOREIGN_SETS := ["geosite-geolocation-!cn"]

  /** It has no other action than to go to some outbound. */
  predicate GoesOut(a: Action) {
    a.kind == Route || (a.kind == NoAction && a.outbound != "")
  }

  predicate Plain(rule: Rule) {
    rule.kind == Default || rule.kind == Untyped
  }

  /** An and-rule of inverted default rules, one of which lists a bundled set and one the Chinese addresses. */
  ghost predicate NeitherNor(rule: Rule) {
    var l := rule.logical;
    && rule.kind == Logical && l.mode == And
    && (forall i :: 0 <= i < |l.rules| ==> Plain(l.rules[i]) && l.rules[i].def.criteria.invert)
    && (exists i :: 0 <= i < |l.rules| && Lists(l.rules[i], CHINESE_SETS + FOREIGN_SETS))
    && (exists i :: 0 <= i < |l.rules| && Lists(l.rules[i], ["geoip-cn"]))
  }

  lemma ListsExactly(rule: Rule)
    ensures Lists(rule, CHINESE_SETS) <==> Targets(rule.def.criteria, CnTags())
    ensures Lists(rule, FOREIGN_SETS) <==> Targets(rule.def.criteria, OtherTags())
    ensures Lists(rule, CHINESE_SETS + FOREIGN_SETS) <==> Targets(rule.def.criteria, CnTags() + OtherTags())
    ensures Lists(rule, ["geoip-cn"]) <==> "geoip-cn" in rule.def.criteria.ruleSet
  {
    SameSets();
    hide CnTags, OtherTags;
    var sets := rule.def.criteria.ruleSet;
    assert forall t :: t in sets <==> exists i :: 0 <= i < |sets| && sets[i] == t;
  }

  lemma SameSets()
    ensures forall t :: t in CHINESE_SETS <==> t in CnTags()
    ensures forall t :: t in FOREIGN_SETS <==> t in OtherTags()
  {
  }

  lemma NeitherNorExactly(rule: Rule, isCn: bool, tags: Tags)
    requires rule.kind == Logical
    ensures NeitherNor(rule) <==> Complement(rule.logical.(rules := RegionRules(rule.logical.rules, isCn, tags)))
  {
    var l := rule.logical;
    var r := RegionRules(l.rules, isCn, tags);
    forall i | 0 <= i < |r|
      ensures r[i].def.criteria == l.rules[i].def.criteria && (r[i].kind == Default <==> Plain(l.rules[i]))
    {
      RegionAt(l.rules, i, isCn, tags);
    }
    forall i | 0 <= i < |l.rules|
      ensures Lists(l.rules[i], CHINESE_SETS + FOREIGN_SETS) <==> Targets(r[i].def.criteria, CnTags() + OtherTags())
      ensures Lists(l.rules[i], ["geoip-cn"]) <==> "geoip-cn" in r[i].def.criteria.ruleSet
    {
      ListsExactly(l.rules[i]);
    }
    hide Lists, Targets, RegionRules, CnTags, OtherTags;
  }

  /**
   Where a rule sends its connections afterwards, told by its fields: Chinese destinations go to the selected
   outbound on a Chinese line and directly elsewhere, the rest the other way round; all else stays as it is.
   */
  lemma PolicyExactly(rule: Rule, isCn: bool, tags: Tags)
    ensures var was, now := ActionOf(rule), ActionOf(RegionRule(rule, isCn, tags));
      now ==
        if !GoesOut(was) then was
        else if Plain(rule) && Lists(rule, CHINESE_SETS) then
          was.(kind := Route, outbound := if isCn then tags.selected else tags.direct)
        else if (Plain(rule) && Lists(rule, FOREIGN_SETS)) || NeitherNor(rule) then
          was.(kind := Route, outbound := if isCn then tags.direct else tags.selected)
        else was
  {
    ListsExactly(rule);
    if rule.kind == Logical {
      NeitherNorExactly(rule, isCn, tags);
    }
    hide Lists, Targets, Complement, RegionRules, CnTags, OtherTags, NeitherNor;
    assert NeitherNor(rule) ==> rule.kind == Logical by { NeitherNorIsLogical(rule); }
  }

  lemma NeitherNorIsLogical(rule: Rule)
    ensures NeitherNor(rule) ==> rule.kind == Logical
  {
  }

  /**
   When the policy decides where a logical rule that is not inverted itself sends its connections, no connection
   that meets what any of its nested rules lists is among them, the Chinese addresses included.
   */
  lemma ForeignOnly(c: Connection, rule: Rule, tags: Tags, i: nat)
    requires tags.direct != tags.selected && rule.kind == Logical && !rule.logical.invert
    requires ActionOf(RegionRule(rule, true, tags)) != ActionOf(RegionRule(rule, false, tags))
    requires i < |rule.logical.rules| && c.meets(rule.logical.rules[i].def.criteria)
    ensures !Matches(c, rule)
    ensures exists j :: 0 <= j < |rule.logical.rules| && "geoip-cn" in rule.logical.rules[j].def.criteria.ruleSet
  {
    PolicyExactly(rule, true, tags);
    PolicyExactly(rule, false, tags);
    var l := rule.logical;
    assert Plain(l.rules[i]) && l.rules[i].def.criteria.invert;
    assert !Matches(c, l.rules[i]);
    OneMissed(c, l.rules, i);
    var j :| 0 <= j < |l.rules| && Lists(l.rules[j], ["geoip-cn"]);
  }

  lemma {:induction false} OneMissed(c: Connection, rules: seq<Rule>, i: nat)
    requires i < |rules| && !Matches(c, rules[i])
    ensures !MatchesAll(c, rules)
    decreases i
  {
    hide Matches;
    if i > 0 {
      OneMissed(c, rules[1..], i - 1);
    }
  }

  /** A nested rule that is not inverted keeps the policy away. */
  lemma NotInverted(rule: Rule, isCn: bool, tags: Tags, i: nat)
    requires rule.kind == Logical && i < |rule.logical.rules| && !rule.logical.rules[i].def.criteria.invert
    ensures ActionOf(RegionRule(rule, isCn, tags)) == ActionOf(rule)
  {
    PolicyExactly(rule, isCn, tags);
  }

  // ----- the decision -----

  /** A rule that the policy turns: it goes out, and its rule sets or its form tell the region. */
  ghost predicate Turns(rule: Rule, toCn: bool) {
    && GoesOut(ActionOf(rule))
    && if Plain(rule) && Lists(rule, CHINESE_SETS) then toCn
       else !toCn && ((Plain(rule) && Lists(rule, FOREIGN_SETS)) || NeitherNor(rule))
  }

  /**
   The first rule that a connection matches decides as before, except that rules for Chinese destinations go
   to the selected outbound on a Chinese line and directly otherwise, and rules for the rest the other way round.
   */
  lemma DecisionAfter(c: Connection, rules: seq<Rule>, isCn: bool, tags: Tags)
    ensures FirstMatch(c, RegionRules(rules, isCn, tags)) == FirstMatch(c, rules)
    ensures var i := FirstMatch(c, rules);
      i < |rules| ==>
        ActionOf(RegionRules(rules, isCn, tags)[i]) ==
          if Turns(rules[i], true) then To(ActionOf(rules[i]), ForCn(isCn, tags))
          else if Turns(rules[i], false) then To(ActionOf(rules[i]), ForOthers(isCn, tags))
          else ActionOf(rules[i])
  {
    SameFirstMatch(c, rules, isCn, tags);
    var i := FirstMatch(c, rules);
    if i < |rules| {
      RegionAt(rules, i, isCn, tags);
      hide NeitherNor, Lists, RegionRule, RegionRules;
      PolicyExactly(rules[i], isCn, tags);
    }
  }

  // ----- the policy itself -----

  /** An outbound under the usual tag, or else the first of the kind that has a tag, or else the usual tag anyway. */
  function Pick(outbounds: seq<Outbound>, usual: string, kind: OutboundKind): string {
    if exists i :: 0 <= i < |outbounds| && outbounds[i].tag == usual then usual
    else if FirstOfKind(outbounds, kind) != "" then FirstOfKind(outbounds, kind)
    else usual
  }

  function FirstOfKind(outbounds: seq<Outbound>, kind: OutboundKind): string {
    if outbounds == [] then ""
    else if outbounds[0].kind == kind && outbounds[0].tag != "" then outbounds[0].tag
    else FirstOfKind(outbounds[1..], kind)
  }

  function ResolvedTags(outbounds: seq<Outbound>): Tags {
    Tags(Pick(outbounds, DIRECT_TAG, DirectOutbound), Pick(outbounds, SELECT_TAG, SelectorOutbound))
  }

  predicate OwnTag(o: Outbound, kind: OutboundKind) {
    o.kind == kind && o.tag != ""
  }

  predicate FirstOwn(outbounds: seq<Outbound>, i: int, kind: OutboundKind) {
    0 <= i < |outbounds| && OwnTag(outbounds[i], kind) && forall j :: 0 <= j < i ==> !OwnTag(outbounds[j], kind)
  }

  lemma {:induction false} FirstOwnTag(outbounds: seq<Outbound>, kind: OutboundKind)
    ensures forall i :: FirstOwn(outbounds, i, kind) ==> FirstOfKind(outbounds, kind) == outbounds[i].tag
    ensures (forall i :: !FirstOwn(outbounds, i, kind)) <==> FirstOfKind(outbounds, kind) == ""
    decreases |outbounds|
  {
    if outbounds != [] {
      FirstOwnTag(outbounds[1..], kind);
      if OwnTag(outbounds[0], kind) {
        assert FirstOwn(outbounds, 0, kind);
      } else {
        assert forall i :: FirstOwn(outbounds[1..], i, kind) <==> FirstOwn(outbounds, i + 1, kind);
        assert !FirstOwn(outbounds, 0, kind);
        if i :| FirstOwn(outbounds, i, kind) {
          assert FirstOwn(outbounds[1..], i - 1, kind);
        }
      }
    }
  }

  predicate Named(outbounds: seq<Outbound>, tag: string) {
    exists i :: 0 <= i < |outbounds| && outbounds[i].tag == tag
  }

  /** The usual tag if an outbound has it or nothing else is of the kind, else that of the first one of the kind. */
  lemma TagsExactly(outbounds: seq<Outbound>, i: int)
    ensures Named(outbounds, "direct") || (forall k :: !FirstOwn(outbounds, k, DirectOutbound)) ==>
      ResolvedTags(outbounds).direct == "direct"
    ensures !Named(outbounds, "direct") && FirstOwn(outbounds, i, DirectOutbound) ==>
      ResolvedTags(outbounds).direct == outbounds[i].tag
    ensures Named(outbounds, "select") || (forall k :: !FirstOwn(outbounds, k, SelectorOutbound)) ==>
      ResolvedTags(outbounds).selected == "select"
    ensures !Named(outbounds, "select") && FirstOwn(outbounds, i, SelectorOutbound) ==>
      ResolvedTags(outbounds).selected == outbounds[i].tag
  {
    FirstOwnTag(outbounds, DirectOutbound);
    FirstOwnTag(outbounds, SelectorOutbound);
    hide FirstOfKind;
  }

  method ResolveTags(outbounds: seq<Outbound>) returns (tags: Tags)
    ensures tags == ResolvedTags(outbounds)
  {
    var direct, selected := "", "";
    for i := 0 to |outbounds|
      invariant direct == if exists j :: 0 <= j < i && outbounds[j].tag == DIRECT_TAG then DIRECT_TAG else ""
      invariant selected == if exists j :: 0 <= j < i && outbounds[j].tag == SELECT_TAG then SELECT_TAG else ""
    {
      if outbounds[i].tag == DIRECT_TAG {
        direct := outbounds[i].tag;
      } else if outbounds[i].tag == SELECT_TAG {
        selected := outbounds[i].tag;
      }
    }
    ghost var d, s := direct, selected;
    for i := 0 to |outbounds|
      invariant d != "" ==> direct == d
      invariant d == "" ==>
        FirstOfKind(outbounds, DirectOutbound) == if direct != "" then direct
          else FirstOfKind(outbounds[i..], DirectOutbound)
      invariant s != "" ==> selected == s
      invariant s == "" ==>
        FirstOfKind(outbounds, SelectorOutbound) == if selected != "" then selected
          else FirstOfKind(outbounds[i..], SelectorOutbound)
    {
      assert outbounds[i..][1..] == outbounds[i + 1..];
      match outbounds[i].kind
      case DirectOutbound =>
        if direct == "" {
          direct := outbounds[i].tag;
        }
      case SelectorOutbound =>
        if selected == "" {
          selected := outbounds[i].tag;
        }
      case OtherOutbound =>
    }
    tags := Tags(if direct == "" then DIRECT_TAG else direct, if selected == "" then SELECT_TAG else selected);
  }

  class Router {
    var rules: seq<Rule>
    var final: string

    constructor (rules: seq<Rule>, final: string)
      ensures this.rules == rules && this.final == final
    {
      this.rules, this.final := rules, final;
    }

    /** What matches no rule goes directly. */
    method ApplyRegion(outbounds: seq<Outbound>, isCn: bool)
      modifies this
      ensures rules == RegionRules(old(rules), isCn, ResolvedTags(outbounds))
      ensures final == ResolvedTags(outbounds).direct
    {
      var tags := ResolveTags(outbounds);
      rules := RewriteRules(rules, isCn, tags);
      final := tags.direct;
    }
  }

  method RewriteRules(rules: seq<Rule>, isCn: bool, tags: Tags) returns (r: seq<Rule>)
    ensures r == RegionRules(rules, isCn, tags)
    decreases rules, 1
  {
    hide RegionRule, RegionRules;
    r := rules;
    assert r[..0] + RegionRules(rules[0..], isCn, tags) == RegionRules(rules, isCn, tags) by {
      assert rules[0..] == rules;
    }
    for i := 0 to |rules|
      invariant |r| == |rules| && r[i..] == rules[i..]
      invariant RegionRules(rules, isCn, tags) == r[..i] + RegionRules(rules[i..], isCn, tags)
    {
      assert r[i] == rules[i] by {
        assert r[i] == r[i..][0] && rules[i] == rules[i..][0];
      }
      var rule := RewriteRule(r[i], isCn, tags);
      NextRule(rules, i, isCn, tags, r[..i]);
      r := r[i := rule];
      assert r[..i + 1] == r[..i] + [rule];
    }
    NoRules(rules, isCn, tags);
    assert r[..|rules|] == r;
  }

  lemma NextRule(rules: seq<Rule>, i: nat, isCn: bool, tags: Tags, done: seq<Rule>)
    requires i < |rules|
    ensures done + RegionRules(rules[i..], isCn, tags) == done + [RegionRule(rules[i], isCn, tags)] +
      RegionRules(rules[i + 1..], isCn, tags)
  {
    hide RegionRule;
    assert rules[i..][1..] == rules[i + 1..];
  }

  lemma NoRules(rules: seq<Rule>, isCn: bool, tags: Tags)
    ensures RegionRules(rules[|rules|..], isCn, tags) == []
  {
  }

  method RewriteRule(rule: Rule, isCn: bool, tags: Tags) returns (r: Rule)
    ensures r == RegionRule(rule, isCn, tags)
    decreases rule, 0
  {
    hide Targets, CnTags, OtherTags, Complement;
    match rule.kind {
      case Logical =>
        var rules := RewriteRules(rule.logical.rules, isCn, tags);
        r := rule.(logical := rule.logical.(rules := rules));
        if Routes(r.logical.action) {
          var complement := IsComplement(r.logical);
          if complement {
            r := r.(logical := r.logical.(action := To(r.logical.action, ForOthers(isCn, tags))));
          }
        }
      case OtherKind(_) =>
        r := rule;
      case _ =>
        r := rule.(kind := Default);
        if Routes(rule.def.action) {
          var cn := TargetsAny(rule.def.criteria, CnTags());
          var others := TargetsAny(rule.def.criteria, OtherTags());
          if cn {
            r := r.(def := rule.def.(action := To(rule.def.action, ForCn(isCn, tags))));
          } else if others {
            r := r.(def := rule.def.(action := To(rule.def.action, ForOthers(isCn, tags))));
          }
        }
    }
  }

  method TargetsAny(m: Matchers, tags: set<string>) returns (any: bool)
    ensures any <==> Targets(m, tags)
  {
    for i := 0 to |m.ruleSet|
      invariant forall j :: 0 <= j < i ==> m.ruleSet[j] !in tags
    {
      if m.ruleSet[i] in tags {
        return true;
      }
    }
    return false;
  }

  method IsComplement(rule: LogicalRule) returns (yes: bool)
    ensures yes <==> Complement(rule)
  {
    hide CnTags, OtherTags, Targets;
    if rule.mode != And || |rule.rules| == 0 {
      return false;
    }
    var site, address := false, false;
    for i := 0 to |rule.rules|
      invariant forall j :: 0 <= j < i ==> rule.rules[j].kind == Default && rule.rules[j].def.criteria.invert
      invariant site <==> exists j :: 0 <= j < i && Targets(rule.rules[j].def.criteria, CnTags() + OtherTags())
      invariant address <==> exists j :: 0 <= j < i && "geoip-cn" in rule.rules[j].def.criteria.ruleSet
    {
      var nested := rule.rules[i];
      if nested.kind != Default || !nested.def.criteria.invert {
        return false;
      }
      var onBundled := TargetsAny(nested.def.criteria, CnTags() + OtherTags());
      site := site || onBundled;
      for j := 0 to |nested.def.criteria.ruleSet|
        invariant address <==>
          (exists k :: 0 <= k < i && "geoip-cn" in rule.rules[k].def.criteria.ruleSet) ||
            "geoip-cn" in nested.def.criteria.ruleSet[..j]
      {
        if nested.def.criteria.ruleSet[j] == "geoip-cn" {
          address := true;
        }
      }
      assert nested.def.criteria.ruleSet[..|nested.def.criteria.ruleSet|] == nested.def.criteria.ruleSet;
    }
    return site && address;
  }
}
