/** What becomes of a DNS rule, told by the text of its action. */
module CompatActions {
  import opened Words
  import opened Text
  import opened Compat

  /** The texts that have a counterpart in the older core. */
  predicate Known(text: string) {
    text in ["", "route", "evaluate", "route-options", "reject", "predefined"]
  }

  predicate Answers(text: string) {
    text == "reject" || text == "predefined"
  }

  /** The actions whose meaning both cores share. */
  predicate Shared(text: string) {
    text == "" || text == "route" || Answers(text)
  }

  /** The code that a rule of that kind answers with. */
  function AnswerOf(m: Fields): string {
    if ActionText(m) == "reject" then "refused"
    else if StringField(m, "rcode") == "" then "success"
    else Lower(StringField(m, "rcode"))
  }

  /** A filled condition that is not the server. */
  predicate HasMore(m: Fields) {
    exists key :: key in ConditionKeys() - {"server"} && key in m && Filled(m[key])
  }

  lemma ActionTexts(m: Fields)
    ensures Action(m) == NoAction <==> ActionText(m) == ""
    ensures Action(m) == Route <==> ActionText(m) == "route"
    ensures Action(m) == Evaluate <==> ActionText(m) == "evaluate"
    ensures Action(m) == RouteOptions <==> ActionText(m) == "route-options"
    ensures Action(m) == Reject <==> ActionText(m) == "reject"
    ensures Action(m) == Predefined <==> ActionText(m) == "predefined"
  {
    hide ActionText;
  }

  lemma CodeByText(m: Fields)
    ensures CodeOf(m) == if Answers(ActionText(m)) then Some(AnswerOf(m)) else None
    ensures !Action(m).Unsupported? <==> Known(ActionText(m))
    ensures Action(m) == RouteOptions <==> ActionText(m) == "route-options"
  {
    ActionTexts(m);
    hide Action, ActionText, StringField, Lower;
  }

  lemma SharedKinds(m: Fields)
    requires Shared(ActionText(m))
    ensures Action(m) == NoAction || Action(m) == Route || Action(m) == Reject || Action(m) == Predefined
  {
    ActionTexts(m);
    hide Action, ActionText;
  }

  /** Nested rules do not bear on the texts. */
  lemma SameTexts(m: Fields, rules: seq<Json>)
    ensures var n := WithNested(m, rules); ActionText(n) == ActionText(m) && AnswerOf(n) == AnswerOf(m)
  {
    hide Trim, Sprint, Lower;
    var n := WithNested(m, rules);
    assert StringField(n, "action") == StringField(m, "action");
    assert StringField(n, "rcode") == StringField(m, "rcode");
    hide StringField;
  }

  // ----- which rules are kept -----

  lemma RestTexts()
    ensures "server" in ConditionKeys() && "rule_set_ipcidr_match_source" in ConditionKeys()
    ensures ConditionKeys() <= RuleKeys() && "rule_set_ipcidr_match_source" != "server"
    ensures "type" in RuleKeys() && "type" != "server" && "type" != "rule_set_ip_cidr_match_source"
  {
    RuleKeyFacts();
  }

  /** What is left of a rule has a condition in these cases. */
  lemma ConditionLeft(m: Fields)
    requires !Action(m).Unsupported?
    ensures var r := Finish(m, []).rule;
      HasCondition(r) <==>
        if CodeOf(m).Some? then true else if Action(m) == RouteOptions then HasMore(m) else HasCondition(m)
  {
    hide Finish, ConditionKeys, RuleKeys, Filled, CodeOf, Action, CompatTag;
    RestTexts();
    var r := Finish(m, []).rule;
    forall key | key in ConditionKeys()
      ensures FieldOf(r, key) ==
        if key == "server" && CodeOf(m).Some? then Some(Str(CompatTag(CodeOf(m).value)))
        else if key == "server" && Action(m) == RouteOptions then None
        else if key == "rule_set_ip_cidr_match_source" && key !in m && "rule_set_ipcidr_match_source" in m then
          Some(m["rule_set_ipcidr_match_source"])
        else FieldOf(m, key)
    {
      FinishField(m, [], key);
    }
    if CodeOf(m).Some? {
      CodeIsTrimmed(m);
      CompatTagIsFilled(CodeOf(m).value);
      assert FieldOf(r, "server").Some?;
    } else {
      SameConditions(m, r);
    }
  }

  lemma SameConditions(m: Fields, r: Fields)
    requires CodeOf(m).None?
    requires "server" in ConditionKeys() && "rule_set_ipcidr_match_source" in ConditionKeys()
    requires forall key :: key in ConditionKeys() ==>
      FieldOf(r, key) ==
        if key == "server" && Action(m) == RouteOptions then None
        else if key == "rule_set_ip_cidr_match_source" && key !in m && "rule_set_ipcidr_match_source" in m then
          Some(m["rule_set_ipcidr_match_source"])
        else FieldOf(m, key)
    ensures HasCondition(r) <==> if Action(m) == RouteOptions then HasMore(m) else HasCondition(m)
  {
    hide ConditionKeys, Filled, CodeOf, Action;
    var legacy, alias := "rule_set_ipcidr_match_source", "rule_set_ip_cidr_match_source";
    assert legacy != "server" && legacy != alias;
    if HasCondition(r) {
      var key :| key in ConditionKeys() && key in r && Filled(r[key]);
      var own := if key == alias && key !in m && legacy in m then legacy else key;
      assert FieldOf(r, key).Some?;
      assert own in ConditionKeys() && own in m && Filled(m[own]);
    }
    if key :| key in ConditionKeys() && key in m && Filled(m[key]) && (Action(m) == RouteOptions ==> key != "server") {
      assert FieldOf(r, key) == FieldOf(m, key);
      assert key in r && Filled(r[key]);
    }
  }

  lemma TypeLeft(m: Fields, codes: seq<string>)
    requires !Action(m).Unsupported?
    ensures Logical(Finish(m, codes).rule) == Logical(m)
  {
    hide Finish, RuleKeys, CodeOf, Action, Logical;
    RestTexts();
    FinishField(m, codes, "type");
    SameType(m, Finish(m, codes).rule);
  }

  /**
   A rule that is not logical is kept exactly when its action's text is none, `route` or `evaluate` and it has a
   condition, `route-options` and it has one besides the server, or `reject` or `predefined`.
   */
  lemma KeptByText(m: Fields)
    requires Lower(StringField(m, "type")) != "logical"
    ensures RuleOf(Obj(m)).keep <==>
      && Known(ActionText(m))
      && (ActionText(m) in ["", "route", "evaluate"] ==> HasCondition(m))
      && (ActionText(m) == "route-options" ==> HasMore(m))
  {
    CodeByText(m);
    FinishKeeps(m, []);
    hide Action, ActionText, Finish, HasCondition, HasMore, CodeOf, AnswerOf, StringField, Lower;
    if !Action(m).Unsupported? {
      ConditionLeft(m);
      TypeLeft(m, []);
    }
  }

  lemma FinishKeeps(m: Fields, codes: seq<string>)
    ensures var o := Finish(m, codes);
      o.keep <==> !Action(m).Unsupported? && (Logical(o.rule) || HasCondition(o.rule))
  {
    hide Action, Acted, Aliased, RuleKeys, CodeOf, HasCondition, Logical;
  }

  /** A logical rule is kept exactly when its action is known and some nested rule is kept, if it has a list of them. */
  lemma LogicalKeptByText(m: Fields)
    requires Lower(StringField(m, "type")) == "logical"
    ensures RuleOf(Obj(m)).keep <==>
      Known(ActionText(m)) && ("rules" in m && m["rules"].Arr? ==> RulesOf(m["rules"].items).0 != [])
  {
    CodeByText(m);
    hide Action, ActionText, Finish, HasCondition, CodeOf, AnswerOf, StringField, Lower, RulesOf, WithNested, Known;
    if Nested(Obj(m)).Some? {
      var inner := RulesOf(m["rules"].items);
      SameAction(m, inner.0);
      StillLogical(m, inner.0);
      LogicalKept(WithNested(m, inner.0), inner.1);
    } else {
      LogicalKept(m, []);
    }
  }

  lemma StillLogical(m: Fields, rules: seq<Json>)
    ensures Logical(WithNested(m, rules)) == Logical(m)
  {
    assert "type" != "rules";
    SameType(m, WithNested(m, rules));
  }

  lemma LogicalKept(m: Fields, codes: seq<string>)
    requires Logical(m)
    ensures Finish(m, codes).keep <==> !Action(m).Unsupported?
  {
    FinishKeeps(m, codes);
    hide Finish, Action, Logical, HasCondition;
    if !Action(m).Unsupported? {
      TypeLeft(m, codes);
    }
  }

  // ----- where a kept rule leads -----

  /** The server stays, or that of the code takes its place, or there is none. */
  lemma ServerByText(rule: Json)
    requires rule.Obj? && RuleOf(rule).keep
    ensures var m := rule.fields;
      FieldOf(RuleOf(rule).rule, "server") ==
        if Answers(ActionText(m)) then Some(Str("__compat_rcode_" + AnswerOf(m)))
        else if ActionText(m) == "route-options" then None
        else FieldOf(m, "server")
  {
    RestTexts();
    CodeByText(rule.fields);
    KeptField(rule, "server");
    hide RuleOf, Action, ActionText, CodeOf, AnswerOf, ConditionKeys, RuleKeys;
    assert "server" != "rules" && "server" != "rule_set_ip_cidr_match_source";
  }

  /** The codes that a rule which is not logical needs servers for. */
  lemma CodesByText(m: Fields)
    requires Lower(StringField(m, "type")) != "logical"
    ensures RuleOf(Obj(m)).codes == if Answers(ActionText(m)) then [AnswerOf(m)] else []
  {
    CodeByText(m);
    FinishOutline(m, []);
    KnownAnswers(ActionText(m));
    hide Action, ActionText, Finish, CodeOf, AnswerOf, StringField, Lower, Known, Answers;
    if Action(m).Unsupported? {
      UnsupportedCodes(m);
    }
  }

  lemma KnownAnswers(text: string)
    ensures Answers(text) ==> Known(text)
  {
  }

  lemma UnsupportedCodes(m: Fields)
    requires Action(m).Unsupported?
    ensures Finish(m, []).codes == []
  {
    hide Action;
  }

  /** For one, a rule that routes a domain to a server is kept, with that server. */
  lemma RoutedDomain(m: Fields, domain: string, server: Json)
    requires Trimmed(domain) && domain != ""
    requires m == map["domain" := Str(domain), "action" := Str("route"), "server" := server]
    ensures RuleOf(Obj(m)).keep && FieldOf(RuleOf(Obj(m)).rule, "server") == Some(server)
  {
    hide RuleOf, ActionText, StringField, Trim, Lower, ConditionKeys, Trimmed, AnswerOf;
    RouteText(m);
    NoType(m);
    DomainCounts(m, domain);
    KeptByText(m);
    ServerByText(Obj(m));
  }

  lemma RouteText(m: Fields)
    requires "action" in m && m["action"] == Str("route")
    ensures ActionText(m) == "route"
  {
    hide ActionText, Trimmed, Lower;
    RouteWord();
    ActionIs(m, "route");
  }

  lemma RouteWord()
    ensures Trimmed("route") && Lower("route") == "route"
  {
  }

  lemma ActionIs(m: Fields, text: string)
    requires "action" in m && m["action"] == Str(text) && Trimmed(text) && Lower(text) == text
    ensures ActionText(m) == text
  {
    hide Lower, Trimmed;
  }

  lemma NoType(m: Fields)
    requires "type" !in m
    ensures Lower(StringField(m, "type")) != "logical"
  {
    assert StringField(m, "type") == "";
    hide StringField;
  }

  lemma DomainCounts(m: Fields, domain: string)
    requires "domain" in m && m["domain"] == Str(domain) && Trimmed(domain) && domain != ""
    ensures HasCondition(m)
  {
    assert "domain" in ConditionKeys();
    hide ConditionKeys;
    assert Filled(m["domain"]);
  }

  // ----- what counts as a condition, and the other fields -----

  predicate Blank(s: string) {
    forall i :: 0 <= i < |s| ==> IsSpace(s[i])
  }

  lemma {:induction false} TrimLeftBlank(s: string)
    ensures TrimLeft(s) == "" <==> Blank(s)
    ensures Blank(TrimLeft(s)) <==> Blank(s)
  {
    hide IsSpace;
    if s != "" && IsSpace(s[0]) {
      TrimLeftBlank(s[1..]);
      assert forall i :: 0 < i < |s| ==> s[i] == s[1..][i - 1];
    }
  }

  lemma {:induction false} TrimRightBlank(s: string)
    ensures TrimRight(s) == "" <==> Blank(s)
  {
    hide IsSpace;
    if s != "" && IsSpace(s[|s| - 1]) {
      TrimRightBlank(s[..|s| - 1]);
      assert forall i :: 0 <= i < |s| - 1 ==> s[i] == s[..|s| - 1][i];
    }
  }

  /** A rule of one known condition and no action is dropped exactly when the value is null, false, blank or empty. */
  lemma OneCondition(m: Fields, key: string, v: Json)
    requires m == map[key := v] && key in ConditionKeys()
    ensures RuleOf(Obj(m)).keep <==>
      !(v == Null || v == Bool(false) || v == Arr([]) || (v.Str? && Blank(v.s)))
  {
    hide RuleOf, ActionText, StringField, ConditionKeys, Blank, Trim;
    NoActionText(m, key);
    KeptByText(m);
    FilledByValue(v);
    assert HasCondition(m) <==> Filled(v);
  }

  lemma NoActionText(m: Fields, key: string)
    requires key in m && m.Keys == {key} && key in ConditionKeys()
    ensures ActionText(m) == "" && Lower(StringField(m, "type")) != "logical"
  {
    TypeIsNoCondition();
    ActionIsNoCondition();
    hide ConditionKeys;
    NoType(m);
    assert StringField(m, "action") == "";
  }

  lemma TypeIsNoCondition()
    ensures "type" !in ConditionKeys()
  {
  }

  lemma FilledByValue(v: Json)
    ensures Filled(v) <==> !(v == Null || v == Bool(false) || v == Arr([]) || (v.Str? && Blank(v.s)))
  {
    if v.Str? {
      TrimLeftBlank(v.s);
      TrimRightBlank(TrimLeft(v.s));
    }
  }

  /** A known field of the route stays, but for the Android override on other systems. */
  lemma RouteField(route: Fields, android: bool, key: string)
    ensures FieldOf(RouteOf(route, android), key) ==
      if key in RouteKeys() && (android || key != "override_android_vpn") then FieldOf(route, key) else None
  {
    hide RouteKeys;
  }

  /** An address that is given stays; otherwise the typed server's takes its place if its type has one. */
  lemma ServerAddress(server: Fields, typed: Typed)
    ensures var was, kind := StringField(server, "address"), Lower(StringField(server, "type"));
      FieldOf(Addressed(server, typed), "address") ==
        if was == "" && kind != "" && typed(kind, server).Some? then Some(Str(typed(kind, server).value))
        else FieldOf(server, "address")
  {
    hide StringField, Lower;
  }
}
