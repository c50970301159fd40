/**
 What the converted DNS rules mean.  A query meets or misses any set of matchers, and a logical rule combines
 its nested rules in any way that depends only on its own fields; the first rule a query matches decides.
 */
module CompatMeaning {
  import opened Words
  import opened Text
  import opened Compat
  import opened CompatActions

  datatype Query = Query(meets: Fields -> bool, combine: (Fields, seq<bool>) -> bool)

  datatype Answer = NoRule | Server(tag: string, options: Fields) | Rcode(code: string)

  /** The fields that say what a matched rule does. */
  function ActionKeys(): set<string> {
    {"action", "server", "rcode", "answer", "ns", "extra", "method", "no_drop", "disable_cache", "rewrite_ttl",
      "client_subnet"}
  }

  function Options(rule: Fields): Fields {
    Only(rule, {"disable_cache", "rewrite_ttl", "client_subnet"})
  }

  function Matcher(rule: Fields): Fields {
    Without(rule, ActionKeys() + {"rules"})
  }

  /** What a rule tests, the two names of one option taken for the same. */
  function Tests(rule: Fields): Fields {
    Matcher(Aliased(rule))
  }

  predicate Matches(q: Query, rule: Json)
    requires rule.Obj?
    decreases rule
  {
    if Nested(rule).Some? then q.combine(Tests(rule.fields), MatchAll(q, Nested(rule).value))
    else q.meets(Tests(rule.fields))
  }

  function MatchAll(q: Query, rules: seq<Json>): seq<bool>
    decreases rules
  {
    if rules == [] then [] else [rules[0].Obj? && Matches(q, rules[0])] + MatchAll(q, rules[1..])
  }

  /** The first rule that the query matches, or the number of rules. */
  function First(matches: seq<bool>): (i: nat)
    ensures i <= |matches|
  {
    if matches == [] || matches[0] then 0 else 1 + First(matches[1..])
  }

  function ServerTag(rule: Fields): string {
    if "server" in rule && rule["server"].Str? then rule["server"].s else ""
  }

  const RCODE := "rcode://"

  /** A server whose address is a response code answers with it. */
  function Lookup(servers: seq<Json>, tag: string, options: Fields): Answer {
    if servers == [] then Server(tag, options)
    else if Bears(servers[0], tag) then
      if "address" in servers[0].fields && servers[0].fields["address"].Str? &&
        RCODE <= servers[0].fields["address"].s then
        Rcode(servers[0].fields["address"].s[|RCODE|..])
      else Server(tag, options)
    else Lookup(servers[1..], tag, options)
  }

  /** What a rule of the newer kind does with a query that matches it. */
  function Meant(servers: seq<Json>, rule: Fields): Answer {
    if Answers(ActionText(rule)) then Rcode(AnswerOf(rule)) else Lookup(servers, ServerTag(rule), Options(rule))
  }

  function Decision(q: Query, servers: seq<Json>, rules: seq<Json>): Answer {
    var i := First(MatchAll(q, rules));
    if i < |rules| && rules[i].Obj? then Meant(servers, rules[i].fields) else NoRule
  }

  /** The same in the older core, where every rule routes to its server. */
  function LegacyDecision(q: Query, servers: seq<Json>, rules: seq<Json>): Answer {
    var i := First(MatchAll(q, rules));
    if i < |rules| && rules[i].Obj? then Lookup(servers, ServerTag(rules[i].fields), Options(rules[i].fields))
      else NoRule
  }

  /**
   Only matchers the older core knows, and one of the actions route, reject by answering, and predefined
   without records.
   */
  predicate Plain(rule: Json)
    decreases rule
  {
    && rule.Obj?
    && PlainFields(rule.fields)
    && (Nested(rule).Some? ==> Nested(rule).value != [] && AllPlain(Nested(rule).value))
  }

  predicate PlainFields(m: Fields) {
    && m.Keys <= RuleKeys() + {"action", "rcode", "method", "no_drop"}
    && Shared(ActionText(m))
    && (Logical(m) || HasCondition(m) || Answers(ActionText(m)))
    && (ActionText(m) == "reject" ==> Replies(m))
    && (!Answers(ActionText(m)) ==> !IsCompat(ServerTag(m)))
  }

  /** A rejected query is answered, not dropped. */
  predicate Replies(rule: Fields) {
    StringField(rule, "method") in {"", "default"}
  }

  predicate AllPlain(rules: seq<Json>)
    decreases rules
  {
    rules != [] ==> Plain(rules[0]) && AllPlain(rules[1..])
  }

  predicate IsCompat(tag: string) {
    PREFIX <= tag
  }

  predicate NoCompatTags(servers: seq<Json>) {
    forall i :: 0 <= i < |servers| && servers[i].Obj? ==> !IsCompat(StringField(servers[i].fields, "tag"))
  }

  /** For one, a rule that rejects a domain is plain. */
  lemma BlockingRuleIsPlain(domain: string)
    requires Trimmed(domain) && domain != ""
    ensures AllPlain([Obj(map["domain" := Str(domain), "action" := Str("reject")])])
  {
    hide ActionText, Logical, ConditionKeys, RuleKeys, StringField, Aliased, Trimmed, AllPlain, AnswerOf, Nested;
    var m: Fields := map["domain" := Str(domain), "action" := Str("reject")];
    RejectIsAnAction(m);
    PlainReject(m);
    OneRule(Obj(m));
  }

  lemma PlainReject(m: Fields)
    requires m.Keys == {"domain", "action"} && ActionText(m) == "reject"
    ensures PlainFields(m) && Nested(Obj(m)).None?
  {
    hide ActionText, Logical, RuleKeys, StringField, Aliased, HasCondition, Replies;
    UntypedIsNotLogical(m);
    KnownKeys(m);
    NoMethod(m);
  }

  lemma KnownKeys(m: Fields)
    requires m.Keys == {"domain", "action"}
    ensures m.Keys <= RuleKeys() + {"action", "rcode", "method", "no_drop"}
  {
    hide RuleKeys;
    DomainIsKnown();
  }

  lemma NoMethod(m: Fields)
    requires "method" !in m
    ensures Replies(m)
  {
    assert StringField(m, "method") == "";
    hide StringField;
  }

  lemma OneRule(rule: Json)
    requires rule.Obj? && PlainFields(rule.fields) && Nested(rule).None?
    ensures AllPlain([rule])
  {
    hide PlainFields, Nested;
    assert [rule][1..] == [];
  }

  lemma DomainIsKnown()
    ensures "domain" in RuleKeys()
  {
  }

  lemma UntypedIsNotLogical(m: Fields)
    requires "type" !in m
    ensures !Logical(m)
  {
    assert StringField(m, "type") == "";
    hide StringField;
  }

  lemma RejectIsAnAction(m: Fields)
    requires "action" in m && m["action"] == Str("reject")
    ensures ActionText(m) == "reject"
  {
    hide ActionText, Trimmed, Lower;
    RejectWord();
    ActionIs(m, "reject");
  }

  lemma RejectWord()
    ensures Trimmed("reject") && Lower("reject") == "reject"
  {
  }

  // ----- a plain rule is kept, with its matchers -----

  lemma KeyFacts()
    ensures "rule_set_ipcidr_match_source" !in ActionKeys() && "rule_set_ip_cidr_match_source" !in ActionKeys()
    ensures "server" in ActionKeys() && "action" in ActionKeys()
    ensures AnswerKeys() <= ActionKeys()
    ensures {"disable_cache", "rewrite_ttl", "client_subnet"} <= RuleKeys()
  {
    OptionKeys();
    hide RuleKeys;
  }

  lemma OptionKeys()
    ensures {"disable_cache", "rewrite_ttl", "client_subnet"} <= RuleKeys()
  {
  }

  lemma ActedFacts(m: Fields)
    ensures var a := Acted(m);
      && a.Keys <= m.Keys + {"server"}
      && (forall k :: k in m && k !in ActionKeys() ==> k in a && a[k] == m[k])
      && (forall k :: k in a && k !in ActionKeys() ==> k in m)
      && (forall k :: k in {"disable_cache", "rewrite_ttl", "client_subnet"} ==>
        (k in a <==> k in m) && (k in m ==> a[k] == m[k]))
  {
    KeyFacts();
    hide ActionKeys, CodeOf, RuleKeys, Action;
  }

  /** The conversion keeps a rule's matchers and options; its server is the rule's own or that of its code. */
  predicate Corresponds(m: Fields, r: Fields) {
    && Tests(r) == Tests(m) && Options(r) == Options(m)
    && (CodeOf(m).None? ==> ServerTag(r) == ServerTag(m))
    && (CodeOf(m).Some? ==> ServerTag(r) == CompatTag(CodeOf(m).value))
  }

  lemma PlainSupported(m: Fields)
    requires Shared(ActionText(m))
    ensures !Action(m).Unsupported? && CodeOf(m).Some? == Answers(ActionText(m))
    ensures CodeOf(m).None? ==> Acted(m) == m || Acted(m) == Without(m, {"action"})
  {
    hide StringField, Action, ActionText, AnswerOf, Answers, Known;
    CodeByText(m);
    SharedKinds(m);
  }

  /** The alias is the same before and after the action goes. */
  lemma PlainAlias(m: Fields)
    ensures Tests(Aliased(Acted(m))) == Matcher(Aliased(Acted(m)))
    ensures forall k :: k !in ActionKeys() ==> (k in Aliased(Acted(m)) <==> k in Aliased(m))
    ensures forall k :: k in Aliased(m) && k !in ActionKeys() ==> Aliased(Acted(m))[k] == Aliased(m)[k]
  {
    ActedFacts(m);
    KeyFacts();
    hide ActionKeys, Acted, Matcher;
  }

  lemma AnswerKept(m: Fields, codes: seq<string>)
    requires !Action(m).Unsupported? && CodeOf(m).Some?
    ensures Finish(m, codes).keep && ServerTag(Finish(m, codes).rule) == CompatTag(CodeOf(m).value)
  {
    FinishAnswers(m, codes);
    var r := Finish(m, codes).rule;
    var tag := CompatTag(CodeOf(m).value);
    CodeIsTrimmed(m);
    CompatTagIsFilled(CodeOf(m).value);
    RuleKeyFacts();
    hide CodeOf, Action, Acted, Aliased, CompatTag, ConditionKeys, RuleKeys;
    assert "server" in ConditionKeys() && "server" in r && Filled(r["server"]);
  }

  /** Without an answer of its own only the rule's action goes. */
  lemma PlainRoute(m: Fields, codes: seq<string>)
    requires !Action(m).Unsupported? && CodeOf(m).None? && (Acted(m) == m || Acted(m) == Without(m, {"action"}))
    requires Logical(m) || HasCondition(m)
    ensures Finish(m, codes).keep && ServerTag(Finish(m, codes).rule) == ServerTag(m)
  {
    ActionIsDropped();
    hide CodeOf, Action, Acted, Aliased, ConditionKeys, RuleKeys, HasCondition, Logical, ServerTag;
    var r := Finish(m, codes).rule;
    assert Acted(m) == m ==> "action" !in m || Only(Aliased(m), RuleKeys()) == r;
    RestKept(m, Acted(m), r);
  }

  lemma RestKept(m: Fields, a: Fields, r: Fields)
    requires (a == m || a == Without(m, {"action"})) && r == Only(Aliased(a), RuleKeys())
    ensures Logical(r) == Logical(m) && (HasCondition(m) ==> HasCondition(r)) && ServerTag(r) == ServerTag(m)
  {
    RuleKeyFacts();
    AliasNames();
    hide ConditionKeys, RuleKeys, Filled, Logical;
    assert "type" in m <==> "type" in r;
    SameType(m, r);
    assert "server" in m <==> "server" in r;
    if HasCondition(m) {
      var key :| key in ConditionKeys() && key in m && Filled(m[key]);
      assert key in r && r[key] == m[key];
    }
  }

  lemma AliasNames()
    ensures "rule_set_ip_cidr_match_source" !in {"type", "server", "action"}
  {
  }

  lemma SameMatcher(m: Fields, codes: seq<string>)
    requires m.Keys <= RuleKeys() + {"action", "rcode", "method", "no_drop"}
    requires !Action(m).Unsupported?
    ensures Tests(Finish(m, codes).rule) == Tests(m) && Options(Finish(m, codes).rule) == Options(m)
  {
    ActedFacts(m);
    PlainAlias(m);
    KeyFacts();
    hide ActionKeys, RuleKeys, CodeOf, Action, Acted, HasCondition, Logical, ServerTag;
    var r := Finish(m, codes).rule;
    AliasIsKnown();
    KnownAgain(m, Acted(m), r);
    forall k | k in Aliased(m) && k !in ActionKeys() ensures k in r && r[k] == Aliased(m)[k] {
      assert k in m.Keys || k == "rule_set_ip_cidr_match_source";
    }
  }

  lemma AliasIsKnown()
    ensures "rule_set_ip_cidr_match_source" in RuleKeys() && "rule_set_ipcidr_match_source" in RuleKeys()
  {
    RuleKeyFacts();
  }

  lemma KnownAgain(m: Fields, a: Fields, r: Fields)
    requires r == Only(Aliased(a), RuleKeys()) && "rule_set_ip_cidr_match_source" in RuleKeys()
    ensures Aliased(r) == r
  {
    hide RuleKeys;
  }

  lemma FinishPlain(m: Fields, codes: seq<string>)
    requires PlainFields(m)
    ensures Finish(m, codes).keep && Corresponds(m, Finish(m, codes).rule)
  {
    PlainSupported(m);
    if CodeOf(m).Some? {
      AnswerKept(m, codes);
    } else {
      PlainRoute(m, codes);
    }
    SameMatcher(m, codes);
  }

  lemma PlainNested(m: Fields, rules: seq<Json>)
    requires PlainFields(m) && "rules" in m
    ensures var n := WithNested(m, rules);
      PlainFields(n) && Tests(n) == Tests(m) && Options(n) == Options(m) && ServerTag(n) == ServerTag(m)
  {
    hide WithNested, RuleKeys, HasCondition, ActionText, Shared, Answers, Logical, Tests, Options, ServerTag, Replies;
    var n := WithNested(m, rules);
    SameTexts(m, rules);
    SameFields(m, rules);
    SameCondition(m, rules);
    SameOutside(m, rules);
  }

  lemma SameFields(m: Fields, rules: seq<Json>)
    requires "rules" in m
    ensures var n := WithNested(m, rules); Logical(n) == Logical(m) && Replies(n) == Replies(m)
  {
    hide Trim, Sprint;
    var n := WithNested(m, rules);
    assert "method" in n <==> "method" in m;
    assert "type" in n <==> "type" in m;
    assert StringField(n, "method") == StringField(m, "method");
    assert StringField(n, "type") == StringField(m, "type");
    hide StringField;
  }

  lemma SameOutside(m: Fields, rules: seq<Json>)
    requires "rules" in m
    ensures var n := WithNested(m, rules);
      n.Keys == m.Keys && Tests(n) == Tests(m) && Options(n) == Options(m) && ServerTag(n) == ServerTag(m)
  {
    hide ActionKeys;
    var n := WithNested(m, rules);
    assert n.Keys == m.Keys;
    assert "rules" !in {"rule_set_ipcidr_match_source", "rule_set_ip_cidr_match_source"};
    assert Aliased(n) == Aliased(m)["rules" := Arr(rules)];
  }

  lemma SameCondition(m: Fields, rules: seq<Json>)
    requires "rules" in m
    ensures HasCondition(m) ==> HasCondition(WithNested(m, rules))
  {
    RulesIsNoCondition();
    hide ConditionKeys, Filled;
    if HasCondition(m) {
      var key :| key in ConditionKeys() && key in m && Filled(m[key]);
      var n := WithNested(m, rules);
      assert key in n && n[key] == m[key];
    }
  }

  lemma RulesIsNoCondition()
    ensures "rules" !in ConditionKeys()
  {
  }

  lemma {:induction false} PlainRule(rule: Json)
    requires Plain(rule)
    ensures rule.Obj? && RuleOf(rule).keep && Corresponds(rule.fields, RuleOf(rule).rule)
    ensures Nested(rule).Some? ==>
      Nested(Obj(RuleOf(rule).rule)) == Some(RulesOf(Nested(rule).value).0) &&
        |RulesOf(Nested(rule).value).0| == |Nested(rule).value|
    ensures Nested(rule).None? ==> Nested(Obj(RuleOf(rule).rule)).None?
    decreases rule
  {
    hide PlainFields, Finish, RulesOf, Corresponds, AllPlain;
    var m := rule.fields;
    if Nested(rule).Some? {
      var inner := RulesOf(Nested(rule).value);
      PlainRules(Nested(rule).value);
      var n := WithNested(m, inner.0);
      PlainNested(m, inner.0);
      FinishPlain(n, inner.1);
      FinishShape(n, inner.1);
      SameType(m, n);
      SameAction(m, inner.0);
      TransferCorresponds(m, n, Finish(n, inner.1).rule);
    } else {
      FinishPlain(m, []);
      FinishShape(m, []);
    }
  }

  lemma TransferCorresponds(m: Fields, n: Fields, r: Fields)
    requires Corresponds(n, r) && Tests(n) == Tests(m) && Options(n) == Options(m)
    requires ServerTag(n) == ServerTag(m) && CodeOf(n) == CodeOf(m)
    ensures Corresponds(m, r)
  {
    hide Tests, Options, ServerTag, CodeOf, CompatTag;
  }

  lemma {:induction false} PlainRules(rules: seq<Json>)
    requires AllPlain(rules)
    ensures |RulesOf(rules).0| == |rules|
    ensures forall i :: 0 <= i < |rules| ==>
      Plain(rules[i]) && RuleOf(rules[i]).keep && RulesOf(rules).0[i] == Obj(RuleOf(rules[i]).rule)
    decreases rules
  {
    hide Plain, RuleOf, Corresponds, Nested;
    if rules != [] {
      PlainRule(rules[0]);
      var rest := RulesOf(rules[1..]).0;
      PlainRules(rules[1..]);
      assert RulesOf(rules).0 == [Obj(RuleOf(rules[0]).rule)] + rest;
      assert forall i :: 1 <= i < |rules| ==> rules[i] == rules[1..][i - 1];
    }
  }

  // ----- the meaning is kept -----

  lemma {:induction false} MatchesKept(q: Query, rule: Json)
    requires Plain(rule)
    ensures Matches(q, Obj(RuleOf(rule).rule)) == Matches(q, rule)
    decreases rule
  {
    PlainRule(rule);
    hide PlainFields, RuleOf, RulesOf, AllPlain, CodeOf, ServerTag, Matcher, Options;
    if Nested(rule).Some? {
      AllMatchesKept(q, Nested(rule).value);
    }
  }

  lemma {:induction false} AllMatchesKept(q: Query, rules: seq<Json>)
    requires AllPlain(rules)
    ensures MatchAll(q, RulesOf(rules).0) == MatchAll(q, rules) && |MatchAll(q, rules)| == |rules|
    decreases rules
  {
    hide Plain, RuleOf, Matches;
    if rules != [] {
      PlainRule(rules[0]);
      MatchesKept(q, rules[0]);
      AllMatchesKept(q, rules[1..]);
      assert RulesOf(rules).0[1..] == RulesOf(rules[1..]).0;
    }
  }

  /** New servers have none of the old tags, so the old ones are found as before. */
  lemma LookupOld(servers: seq<Json>, codes: seq<string>, tag: string, options: Fields)
    requires !IsCompat(tag)
    ensures Lookup(servers + Extra(servers, codes), tag, options) == Lookup(servers, tag, options)
  {
    var extra := Extra(servers, codes);
    forall i | 0 <= i < |extra| ensures !Bears(extra[i], tag) {
      hide Extra, Serves, Lookup;
      ExtraIsNew(servers, codes, i);
    }
    hide Extra;
    LookupBefore(servers, extra, tag, options);
  }

  lemma {:induction false} LookupBefore(servers: seq<Json>, more: seq<Json>, tag: string, options: Fields)
    requires NoBearer(more, tag)
    ensures Lookup(servers + more, tag, options) == Lookup(servers, tag, options)
    decreases |servers|
  {
    if servers == [] {
      assert servers + more == more && more + [] == more;
      LookupPast(more, [], tag, options);
    } else {
      assert (servers + more)[1..] == servers[1..] + more;
      LookupBefore(servers[1..], more, tag, options);
    }
  }

  /** A code's tag is found among the new servers, with that code's address. */
  lemma {:induction false} LookupNew(servers: seq<Json>, codes: seq<string>, code: string, options: Fields)
    requires Codes(codes) && code in codes && NoBearer(servers, CompatTag(code)) && !Serves(servers, CompatTag(code))
    ensures Lookup(servers + Extra(servers, codes), CompatTag(code), options) == Rcode(code)
    decreases |codes|
  {
    hide Serves, CompatTag, HasTag, NoBearer, Lookup;
    var server := CompatServer(codes[0]);
    if Serves(servers, CompatTag(codes[0])) {
      LookupNew(servers, codes[1..], code, options);
    } else {
      var rest := Extra(servers + [server], codes[1..]);
      assert servers + Extra(servers, codes) == servers + ([server] + rest);
      SameTag(code, codes[0]);
      if code == codes[0] {
        LookupPast(servers, [server] + rest, CompatTag(code), options);
        LookupCompat(code, rest, options);
      } else {
        assert servers + ([server] + rest) == (servers + [server]) + rest;
        CompatServerTag(codes[0], CompatTag(code));
        NotServedStill(servers, server, CompatTag(code));
        NoBearerStill(servers, server, CompatTag(code));
        LookupNew(servers + [server], codes[1..], code, options);
      }
    }
  }

  predicate NoBearer(servers: seq<Json>, tag: string) {
    forall i :: 0 <= i < |servers| ==> !Bears(servers[i], tag)
  }

  lemma NoBearerStill(servers: seq<Json>, server: Json, tag: string)
    requires NoBearer(servers, tag) && server.Obj? && (Bears(server, tag) ==> HasTag(server, tag)) &&
      !HasTag(server, tag)
    ensures NoBearer(servers + [server], tag)
  {
  }

  lemma {:induction false} LookupPast(servers: seq<Json>, more: seq<Json>, tag: string, options: Fields)
    requires NoBearer(servers, tag)
    ensures Lookup(servers + more, tag, options) == Lookup(more, tag, options)
    decreases |servers|
  {
    if servers == [] {
      assert servers + more == more;
    } else {
      assert (servers + more)[1..] == servers[1..] + more;
      LookupPast(servers[1..], more, tag, options);
    }
  }

  lemma LookupCompat(code: string, rest: seq<Json>, options: Fields)
    ensures Lookup([CompatServer(code)] + rest, CompatTag(code), options) == Rcode(code)
  {
    var servers := [CompatServer(code)] + rest;
    assert servers[0].fields["address"].s == RCODE + code;
  }

  lemma ServersAfter(dns: Fields, typed: Typed)
    requires "rules" in dns && dns["rules"].Arr?
    ensures var out, servers := DnsOf(dns, typed), ServersIn(DnsServersOf(dns, typed));
      && "rules" in out && out["rules"] == Arr(RulesOf(dns["rules"].items).0)
      && ServersIn(out) == servers + Extra(servers, RulesOf(dns["rules"].items).1)
  {
    hide RulesOf, ServersOf, EnsuredAll, Extra;
    var d := DnsServersOf(dns, typed);
    ServersGrow(d, RulesOf(dns["rules"].items).1);
    assert ServersIn(DnsOf(dns, typed)) == ServersIn(EnsuredAll(d, RulesOf(dns["rules"].items).1));
  }

  lemma AnswerKeptAt(rules: seq<Json>, i: nat, servers: seq<Json>)
    requires i < |rules| && AllPlain(rules) && NoCompatTags(servers)
    ensures rules[i].Obj? && RuleOf(rules[i]).keep && |RulesOf(rules).0| == |rules| &&
      RulesOf(rules).0[i] == Obj(RuleOf(rules[i]).rule)
    ensures var r := RuleOf(rules[i]).rule;
      Lookup(servers + Extra(servers, RulesOf(rules).1), ServerTag(r), Options(r)) == Meant(servers, rules[i].fields)
  {
    PlainRules(rules);
    PlainRule(rules[i]);
    var m, codes := rules[i].fields, RulesOf(rules).1;
    RulesCodes(rules);
    assert PlainFields(m);
    hide Plain, PlainFields, RuleOf, RulesOf, Extra, ActionText, AnswerOf, Answers, Known, CodeOf, Action, NoCompatTags,
      AllPlain, Lookup, Options, ServerTag, Nested, CompatTag;
    CodeByText(m);
    if CodeOf(m).Some? {
      var code := CodeOf(m).value;
      OwnCode(rules[i]);
      CodeInList(rules, i, code);
      UnknownTag(servers, code);
      LookupNew(servers, codes, code, Options(m));
    } else {
      LookupOld(servers, codes, ServerTag(m), Options(m));
    }
  }

  lemma OwnCode(rule: Json)
    requires Plain(rule) && CodeOf(rule.fields).Some?
    ensures CodeOf(rule.fields).value in RuleOf(rule).codes
  {
    PlainRule(rule);
    hide Finish, CodeOf, RulesOf, Plain;
    if Nested(rule).Some? {
      var inner := RulesOf(Nested(rule).value);
      SameAction(rule.fields, inner.0);
      FinishAnswers(WithNested(rule.fields, inner.0), inner.1);
    } else {
      FinishAnswers(rule.fields, []);
    }
  }

  lemma {:induction false} CodeInList(rules: seq<Json>, i: nat, code: string)
    requires i < |rules| && rules[i].Obj? && code in RuleOf(rules[i]).codes
    ensures code in RulesOf(rules).1
    decreases i
  {
    hide RuleOf;
    if i > 0 {
      CodeInList(rules[1..], i - 1, code);
    }
  }

  lemma UnknownTag(servers: seq<Json>, code: string)
    requires NoCompatTags(servers) && CodeIsClean(code)
    ensures !Serves(servers, CompatTag(code)) && NoBearer(servers, CompatTag(code))
  {
    CompatTagIsTrimmed(code);
    hide CompatTag, CodeIsClean, Bears, StringField, IsCompat, Trimmed;
    var tag := CompatTag(code);
    forall i | 0 <= i < |servers| ensures !HasTag(servers[i], tag) && !Bears(servers[i], tag) {
      if Bears(servers[i], tag) {
        BearerHasTag(servers[i], tag);
      }
    }
  }

  lemma BearerHasTag(server: Json, tag: string)
    requires Trimmed(tag) && Bears(server, tag)
    ensures HasTag(server, tag)
  {
  }

  predicate CodeIsClean(code: string) {
    Trimmed(code) && code != ""
  }

  lemma CompatTagIsTrimmed(code: string)
    requires CodeIsClean(code)
    ensures Trimmed(CompatTag(code)) && IsCompat(CompatTag(code))
  {
    assert Trimmed(CompatTag(code));
    assert CompatTag(code)[..|PREFIX|] == PREFIX;
  }

  /**
   Plain rules mean after the conversion what they meant before: each query hits the corresponding rule and
   gets the same server with the same options, or the code that the rule's action stands for.
   */
  lemma MeaningKept(dns: Fields, typed: Typed, q: Query)
    requires "rules" in dns && dns["rules"].Arr? && AllPlain(dns["rules"].items)
    requires NoCompatTags(ServersIn(DnsServersOf(dns, typed)))
    ensures var out := DnsOf(dns, typed);
      && "rules" in out && out["rules"].Arr?
      && First(MatchAll(q, out["rules"].items)) == First(MatchAll(q, dns["rules"].items))
      && LegacyDecision(q, ServersIn(out), out["rules"].items)
         == Decision(q, ServersIn(DnsServersOf(dns, typed)), dns["rules"].items)
  {
    var rules, servers := dns["rules"].items, ServersIn(DnsServersOf(dns, typed));
    var codes, kept := RulesOf(rules).1, RulesOf(rules).0;
    ServersAfter(dns, typed);
    hide DnsOf, DnsServersOf, RulesOf, ServersIn, AllPlain, MatchAll, LegacyDecision, Decision, Extra, NoCompatTags;
    AllMatchesKept(q, rules);
    PlainRules(rules);
    var i := First(MatchAll(q, rules));
    if i < |rules| {
      hide First;
      AnswerKeptAt(rules, i, servers);
      assert LegacyDecision(q, servers + Extra(servers, codes), kept) == Decision(q, servers, rules);
    }
  }
}
