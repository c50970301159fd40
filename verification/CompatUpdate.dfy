/** The down-conversion as it changes the parsed objects in place. */
module CompatUpdate {
  import opened Words
  import opened Text
  import opened Compat

  class Object {
    var fields: Fields

    constructor (fields: Fields)
      ensures this.fields == fields
    {
      this.fields := fields;
    }

    /** Deletes every field that is not allowed. */
    method Strip(allowed: set<string>) returns (changed: bool)
      modifies this
      ensures fields == Only(old(fields), allowed)
      ensures changed <==> fields != old(fields)
    {
      changed := false;
      var rest := fields.Keys;
      ghost var was := fields;
      while rest != {}
        invariant rest <= was.Keys && fields.Keys == was.Keys * (allowed + rest)
        invariant forall k :: k in fields ==> fields[k] == was[k]
        invariant changed ==> fields.Keys != was.Keys
        invariant !changed ==> fields == was
        decreases |rest|
      {
        var key :| key in rest;
        rest := rest - {key};
        if key !in allowed {
          fields := fields - {key};
          changed := true;
        }
      }
      assert fields == Only(was, allowed);
    }

    /** Gives a field its newer name unless that name is taken. */
    method Rename(from: string, to: string) returns (changed: bool)
      modifies this
      ensures fields == Renamed(old(fields), from, to)
      ensures changed <==> from in old(fields) && Absent(old(fields), to)
    {
      changed := from in fields && (to !in fields || fields[to] == Null);
      if changed {
        fields := fields[to := fields[from]];
      }
    }
  }

  method NormalizeRoute(route: Object, android: bool) returns (changed: bool)
    modifies route
    ensures route.fields == RouteOf(old(route.fields), android)
    ensures changed <==> route.fields != old(route.fields)
  {
    changed := false;
    if !android && "override_android_vpn" in route.fields {
      route.fields := route.fields - {"override_android_vpn"};
      changed := true;
    }
    hide RouteKeys;
    ghost var part := if android then old(route.fields) else Without(old(route.fields), {"override_android_vpn"});
    assert route.fields == part;
    var stripped := route.Strip(RouteKeys());
    changed := changed || stripped;
  }

  /** Gives a typed server without an address the address of its type. */
  method Address(server: Object, typed: Typed) returns (changed: bool)
    modifies server
    ensures server.fields == Addressed(old(server.fields), typed)
    ensures changed ==> "type" in old(server.fields) && "type" in server.fields
    ensures !changed ==> server.fields == old(server.fields)
  {
    changed := false;
    AddressFacts(server.fields, typed);
    hide *;
    if StringField(server.fields, "address") == "" {
      var dnsType := Lower(StringField(server.fields, "type"));
      if dnsType != "" {
        var address := typed(dnsType, server.fields);
        if address.Some? {
          server.fields := server.fields["address" := Str(address.value)];
          changed := true;
        }
      }
    }
  }

  lemma AddressFacts(m: Fields, typed: Typed)
    ensures var dnsType := Lower(StringField(m, "type"));
      if StringField(m, "address") == "" && dnsType != "" && typed(dnsType, m).Some? then
        Addressed(m, typed) == m["address" := Str(typed(dnsType, m).value)] && "type" in m
      else Addressed(m, typed) == m
  {
    NoType(m);
    hide StringField, Lower;
  }

  lemma NoType(m: Fields)
    ensures "type" !in m ==> Lower(StringField(m, "type")) == ""
  {
  }

  method NormalizeServer(server: Object, typed: Typed) returns (changed: bool)
    modifies server
    ensures server.fields == ServerOf(old(server.fields), typed)
    ensures changed <==> server.fields != old(server.fields)
  {
    hide Renamed, Addressed;
    ghost var was := server.fields;
    var resolver := server.Rename("domain_resolver", "address_resolver");
    RenamedKeeps(was, "domain_resolver", "address_resolver");
    ghost var one := server.fields;
    var strategy := server.Rename("domain_strategy", "address_strategy");
    RenamedKeeps(one, "domain_strategy", "address_strategy");
    var addressed := Address(server, typed);
    assert resolver || strategy || addressed ==>
      exists k :: k in was && k in {"domain_resolver", "domain_strategy", "type"}
    by {
      hide Absent, ServerKeys;
    }
    NewerServerKeys();
    hide ServerKeys, Absent;
    var stripped := server.Strip(ServerKeys());
    changed := resolver || strategy || addressed || stripped;
  }

  lemma NewerServerKeys()
    ensures forall k :: k in {"domain_resolver", "domain_strategy", "type"} ==> k !in ServerKeys()
  {
  }

  lemma RenamedKeeps(m: Fields, from: string, to: string)
    ensures !(from in m && Absent(m, to)) ==> Renamed(m, from, to) == m
    ensures Renamed(m, from, to).Keys <= m.Keys + {to}
  {
  }

  method EnsureServer(dns: Object, code: string)
    modifies dns
    ensures dns.fields == Ensured(old(dns.fields), code)
  {
    hide CompatTag, HasTag;
    var servers := if "servers" in dns.fields && dns.fields["servers"].Arr? then dns.fields["servers"].items else [];
    for i := 0 to |servers|
      invariant forall j :: 0 <= j < i ==> !HasTag(servers[j], CompatTag(code))
    {
      if HasTag(servers[i], CompatTag(code)) {
        return;
      }
    }
    dns.fields := dns.fields["servers" := Arr(servers + [CompatServer(code)])];
  }

  function NormalCode(rcode: string): string {
    if Lower(Trim(rcode)) == "" then "refused" else Lower(Trim(rcode))
  }

  /** The rule now routes to the server that answers with the code. */
  method EnsureRcode(rule: Object, dns: Object, rcode: string)
    requires rule != dns
    modifies rule, dns
    ensures dns.fields == Ensured(old(dns.fields), NormalCode(rcode))
    ensures rule.fields == Answering(old(rule.fields), NormalCode(rcode))
  {
    var code := Lower(Trim(rcode));
    if code == "" {
      code := "refused";
    }
    EnsureServer(dns, code);
    rule.fields := rule.fields["server" := Str(CompatTag(code))];
    rule.fields := Without(rule.fields, AnswerKeys());
  }

  lemma {:induction false} EnsuredInTurn(dns: Fields, a: seq<string>, b: seq<string>)
    ensures EnsuredAll(dns, a + b) == EnsuredAll(EnsuredAll(dns, a), b)
    decreases |a|
  {
    hide Ensured;
    if a == [] {
      assert a + b == b;
    } else {
      assert (a + b)[1..] == a[1..] + b;
      EnsuredInTurn(Ensured(dns, a[0]), a[1..], b);
    }
  }

  lemma FinishInTurn(m: Fields, codes: seq<string>)
    ensures Finish(m, codes) == Finish(m, []).(codes := codes + Finish(m, []).codes)
  {
    hide Acted, Aliased, Only, CodeOf, HasCondition, Logical, Action;
    assert codes + [] == codes;
    if CodeOf(m).Some? {
      assert [] + [CodeOf(m).value] == [CodeOf(m).value];
    }
  }

  lemma EnsuredOne(dns: Fields, code: string)
    ensures EnsuredAll(dns, [code]) == Ensured(dns, code) && EnsuredAll(dns, []) == dns
  {
    assert [code][1..] == [];
  }

  lemma LowerIsSame(s: string)
    requires forall i :: 0 <= i < |s| ==> !('A' <= s[i] <= 'Z')
    ensures Lower(s) == s
  {
  }

  lemma CodeAgain(text: string)
    requires Trimmed(text)
    ensures NormalCode(if text == "" then "success" else text) == Rcode(text) && NormalCode("refused") == "refused"
  {
    assert Trimmed("refused") && Trimmed("success");
    LowerIsSame("refused");
    LowerIsSame("success");
  }

  /** Replaces the action, adds the newer alias and strips the rest. */
  method FinishRule(rule: Object, dns: Object) returns (keep: bool)
    requires rule != dns
    modifies rule, dns
    ensures var o := Finish(old(rule.fields), []);
      && keep == o.keep
      && (keep ==> rule.fields == o.rule)
      && dns.fields == EnsuredAll(old(dns.fields), o.codes)
  {
    FinishFacts(rule.fields);
    EnsuredOne(dns.fields, if CodeOf(rule.fields).Some? then CodeOf(rule.fields).value else "");
    keep := Act(rule, dns);
    if !keep {
      return;
    }
    hide *;
    Alias(rule);
    var _ := rule.Strip(RuleKeys());
    keep := Logical(rule.fields) || HasCondition(rule.fields);
  }

  lemma FinishFacts(m: Fields)
    ensures var o := Finish(m, []);
      && o.codes == (if CodeOf(m).Some? then [CodeOf(m).value] else [])
      && if Action(m).Unsupported? then !o.keep
         else o.rule == Only(Aliased(Acted(m)), RuleKeys()) && o.keep == (Logical(o.rule) || HasCondition(o.rule))
  {
    hide Only, Aliased, Acted, Logical, HasCondition, RuleKeys, StringField;
    if CodeOf(m).Some? {
      assert [] + [CodeOf(m).value] == [CodeOf(m).value];
    }
  }

  method Alias(rule: Object)
    modifies rule
    ensures rule.fields == Aliased(old(rule.fields))
  {
    if "rule_set_ipcidr_match_source" in rule.fields && "rule_set_ip_cidr_match_source" !in rule.fields {
      rule.fields := rule.fields["rule_set_ip_cidr_match_source" := rule.fields["rule_set_ipcidr_match_source"]];
    }
  }

  method Act(rule: Object, dns: Object) returns (keep: bool)
    requires rule != dns
    modifies rule, dns
    ensures keep == !Action(old(rule.fields)).Unsupported?
    ensures keep ==> rule.fields == Acted(old(rule.fields))
    ensures var code := CodeOf(old(rule.fields));
      dns.fields == if code.Some? then Ensured(old(dns.fields), code.value) else old(dns.fields)
  {
    var action := Action(rule.fields);
    keep := true;
    if action == NoAction {
      return;
    }
    ActFacts(rule.fields);
    hide *;
    rule.fields := Without(rule.fields, {"action"});
    match action
    case RouteOptions =>
      rule.fields := Without(rule.fields, {"server"});
    case Reject =>
      EnsureRcode(rule, dns, "refused");
    case Predefined =>
      var rcode := StringField(rule.fields, "rcode");
      if rcode == "" {
        rcode := "success";
      }
      EnsureRcode(rule, dns, rcode);
    case Unsupported =>
      keep := false;
    case _ =>
  }

  /** The action's effect, branch by branch. */
  lemma ActFacts(m: Fields)
    ensures StringField(Without(m, {"action"}), "rcode") == StringField(m, "rcode")
    ensures match Action(m)
      case NoAction => Acted(m) == m && CodeOf(m) == None
      case RouteOptions => Acted(m) == Without(Without(m, {"action"}), {"server"}) && CodeOf(m) == None
      case Reject => CodeOf(m) == Some(NormalCode("refused")) &&
        Acted(m) == Answering(Without(m, {"action"}), NormalCode("refused"))
      case Predefined =>
        var text := StringField(m, "rcode");
        var code := NormalCode(if text == "" then "success" else text);
        CodeOf(m) == Some(code) && Acted(m) == Answering(Without(m, {"action"}), code)
      case _ => Acted(m) == Without(m, {"action"}) && CodeOf(m) == None
  {
    hide *;
    SameField(m, "action", "rcode");
    CodeFacts(m);
    ActedFields(m);
  }

  lemma ActedFields(m: Fields)
    ensures CodeOf(m).Some? ==> Action(m) != NoAction && Acted(m) == Answering(Without(m, {"action"}), CodeOf(m).value)
    ensures CodeOf(m).None? ==> Acted(m) == match Action(m)
      case NoAction => m
      case RouteOptions => Without(Without(m, {"action"}), {"server"})
      case _ => Without(m, {"action"})
  {
    hide Action, StringField, Rcode, Without;
  }

  lemma CodeFacts(m: Fields)
    ensures match Action(m)
      case Reject => CodeOf(m) == Some(NormalCode("refused"))
      case Predefined => CodeOf(m) ==
        Some(NormalCode(if StringField(m, "rcode") == "" then "success" else StringField(m, "rcode")))
      case _ => CodeOf(m) == None
  {
    CodeAgain(StringField(m, "rcode"));
    hide Action, StringField, NormalCode, Rcode;
  }

  function Answering(m: Fields, code: string): Fields {
    Without(m["server" := Str(CompatTag(code))], AnswerKeys())
  }

  lemma SameField(m: Fields, gone: string, key: string)
    requires gone != key
    ensures StringField(Without(m, {gone}), key) == StringField(m, key)
  {
  }

  /**
   Rewrites a rule and, under a logical rule, its nested ones; servers for response codes are added on the
   way.  A rule that is not kept is left half-way.
   */
  method NormalizeRule(rule: Object, dns: Object) returns (keep: bool)
    requires rule != dns
    modifies rule, dns
    ensures var o := RuleOf(Obj(old(rule.fields)));
      && keep == o.keep
      && (keep ==> rule.fields == o.rule)
      && dns.fields == EnsuredAll(old(dns.fields), o.codes)
    decreases Obj(rule.fields), 1
  {
    hide Finish, EnsuredAll, RulesOf, Nested, WithNested;
    ghost var before := dns.fields;
    ghost var codes: seq<string> := [];
    assert EnsuredAll(before, []) == before by {
      EnsuredOne(before, "");
    }
    var nested := Nested(Obj(rule.fields));
    if nested.Some? {
      var rules := NormalizeRules(nested.value, dns);
      codes := RulesOf(nested.value).1;
      if rules == [] {
        return false;
      }
      rule.fields := WithNested(rule.fields, rules);
    }
    FinishInTurn(rule.fields, codes);
    EnsuredInTurn(before, codes, Finish(rule.fields, []).codes);
    keep := FinishRule(rule, dns);
  }

  method NormalizeRules(rules: seq<Json>, dns: Object) returns (kept: seq<Json>)
    modifies dns
    ensures kept == RulesOf(rules).0
    ensures dns.fields == EnsuredAll(old(dns.fields), RulesOf(rules).1)
    decreases rules, 0
  {
    hide RuleOf, Ensured;
    kept := [];
    assert rules[0..] == rules;
    for i := 0 to |rules|
      invariant kept + RulesOf(rules[i..]).0 == RulesOf(rules).0
      invariant EnsuredAll(dns.fields, RulesOf(rules[i..]).1) == EnsuredAll(old(dns.fields), RulesOf(rules).1)
    {
      assert rules[i..][1..] == rules[i + 1..] && rules[i..][0] == rules[i];
      if rules[i].Obj? {
        var rule := new Object(rules[i].fields);
        assert Obj(rule.fields) == rules[i];
        EnsuredInTurn(dns.fields, RuleOf(rules[i]).codes, RulesOf(rules[i + 1..]).1);
        ghost var rest := RulesOf(rules[i + 1..]).0;
        assert kept + ([Obj(RuleOf(rules[i]).rule)] + rest) == (kept + [Obj(RuleOf(rules[i]).rule)]) + rest;
        var keep := NormalizeRule(rule, dns);
        if keep {
          kept := kept + [Obj(rule.fields)];
        }
      }
    }
  }

  /** Whether anything changed; if not, the caller keeps the text it was given. */
  method Normalize(root: Object, android: bool, typed: Typed) returns (changed: bool)
    modifies root
    ensures root.fields == ConfigOf(old(root.fields), android, typed)
    ensures !changed ==> root.fields == old(root.fields)
  {
    changed := false;
    hide DnsOf, RouteOf;
    ghost var was := root.fields;
    var dns := "dns" in root.fields && root.fields["dns"].Obj?;
    var dnsFields: Fields := map[];
    if dns {
      var dnsObject := new Object(root.fields["dns"].fields);
      changed := NormalizeDns(dnsObject, typed);
      dnsFields := dnsObject.fields;
    }
    if "route" in root.fields && root.fields["route"].Obj? {
      var route := new Object(root.fields["route"].fields);
      var routeChanged := NormalizeRoute(route, android);
      if routeChanged {
        root.fields := root.fields["route" := Obj(route.fields)];
        changed := true;
      }
    }
    ghost var routed := root.fields;
    assert routed ==
      if "route" in was && was["route"].Obj? then was["route" := Obj(RouteOf(was["route"].fields, android))] else was;
    if changed && dns {
      root.fields := root.fields["dns" := Obj(dnsFields)];
    }
  }

  /** Rebuilding the rules always counts as a change. */
  method NormalizeDns(dns: Object, typed: Typed) returns (changed: bool)
    modifies dns
    ensures dns.fields == DnsOf(old(dns.fields), typed)
    ensures !changed ==> dns.fields == old(dns.fields)
  {
    changed := false;
    ghost var was := dns.fields;
    hide ServersOf, RulesOf, EnsuredAll;
    if "servers" in dns.fields && dns.fields["servers"].Arr? {
      var servers: seq<Json>;
      servers, changed := NormalizeServers(dns.fields["servers"].items, typed);
      dns.fields := dns.fields["servers" := Arr(servers)];
    }
    assert dns.fields == DnsServersOf(was, typed);
    if "rules" in dns.fields && dns.fields["rules"].Arr? {
      var rules := NormalizeRules(dns.fields["rules"].items, dns);
      dns.fields := dns.fields["rules" := Arr(rules)];
      changed := true;
    }
  }

  method NormalizeServers(servers: seq<Json>, typed: Typed) returns (out: seq<Json>, changed: bool)
    ensures out == ServersOf(servers, typed)
    ensures !changed ==> out == servers
  {
    hide ServerOf;
    out, changed := servers, false;
    for i := 0 to |servers|
      invariant |out| == |servers|
      invariant forall j :: 0 <= j < i ==> out[j] == ServersOf(servers, typed)[j]
      invariant forall j :: i <= j < |servers| ==> out[j] == servers[j]
      invariant !changed ==> out == servers
    {
      if servers[i].Obj? {
        var server := new Object(servers[i].fields);
        var serverChanged := NormalizeServer(server, typed);
        if serverChanged {
          out := out[i := Obj(server.fields)];
          changed := true;
        }
      }
    }
  }
}
