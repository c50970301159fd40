/**
 The down-conversion of a parsed configuration to the fields that the older core accepts.  Objects are
 changed in place; the DNS server list grows while the rules are rewritten.  The address of a typed server
 is whatever the function `typed` gives.
 */
module Compat {
  import opened Words
  import opened Text

  /** A parsed JSON value; a number is kept as its printed form and its whole part. */
  datatype Json = Null | Bool(b: bool) | Num(text: string, whole: int) | Str(s: string) | Arr(items: seq<Json>)
    | Obj(fields: Fields)

  type Fields = map<string, Json>

  type Typed = (string, Fields) -> Option<string>

  const PREFIX := "__compat_rcode_"

  function ServerKeys(): set<string> {
    {"tag", "address", "address_resolver", "address_strategy", "address_fallback_delay", "strategy", "detour",
      "client_subnet"}
  }

  /** The fields that make a rule more than an empty one. */
  function ConditionKeys(): set<string> {
    {"inbound", "ip_version", "query_type", "network", "auth_user", "protocol",
     "domain", "domain_suffix", "domain_keyword", "domain_regex", "geosite",
     "source_geoip", "geoip", "ip_cidr", "ip_is_private", "source_ip_cidr",
     "source_ip_is_private", "source_port", "source_port_range", "port",
     "port_range", "process_name", "process_path", "process_path_regex",
     "package_name", "user", "user_id", "outbound", "clash_mode", "wifi_ssid",
     "wifi_bssid", "rule_set", "rule_set_ip_cidr_match_source",
     "rule_set_ipcidr_match_source", "rule_set_ip_cidr_accept_empty", "server",
     "disable_cache", "rewrite_ttl", "client_subnet", "invert"}
  }

  function RuleKeys(): set<string> {
    ConditionKeys() + {"type", "mode", "rules", "deprecated_ruleset_ipcidr_match_source"}
  }

  function RouteKeys(): set<string> {
    {"geoip", "geosite", "rules", "rule_set", "final", "find_process", "auto_detect_interface",
     "override_android_vpn", "default_interface", "default_mark"}
  }

  /** How `fmt.Sprint` shows a value; what it shows of an object does not matter here. */
  function Sprint(v: Json): string {
    match v
    case Null => "<nil>"
    case Bool(b) => if b then "true" else "false"
    case Num(text, _) => text
    case Str(s) => s
    case Arr(items) => "[" + SprintAll(items) + "]"
    case Obj(_) => "map[]"
  }

  function SprintAll(items: seq<Json>): string {
    if items == [] then ""
    else if |items| == 1 then Sprint(items[0])
    else Sprint(items[0]) + " " + SprintAll(items[1..])
  }

  function StringField(m: Fields, key: string): (s: string)
    ensures Trimmed(s)
  {
    if key !in m || m[key] == Null then "" else Trim(Sprint(m[key]))
  }

  function Without(m: Fields, keys: set<string>): Fields {
    map k | k in m && k !in keys :: m[k]
  }

  function Only(m: Fields, keys: set<string>): Fields {
    map k | k in m && k in keys :: m[k]
  }

  // ----- what each part becomes -----

  function RouteOf(route: Fields, android: bool): Fields {
    Only(if android then route else Without(route, {"override_android_vpn"}), RouteKeys())
  }

  predicate Absent(m: Fields, key: string) {
    key !in m || m[key] == Null
  }

  function Renamed(m: Fields, from: string, to: string): Fields {
    if from in m && Absent(m, to) then m[to := m[from]] else m
  }

  function Addressed(server: Fields, typed: Typed): Fields {
    var dnsType := Lower(StringField(server, "type"));
    if StringField(server, "address") != "" || dnsType == "" || typed(dnsType, server) == None then server
    else server["address" := Str(typed(dnsType, server).value)]
  }

  function ServerOf(server: Fields, typed: Typed): Fields {
    Only(Addressed(Renamed(Renamed(server, "domain_resolver", "address_resolver"), "domain_strategy",
      "address_strategy"), typed), ServerKeys())
  }

  function ServersOf(servers: seq<Json>, typed: Typed): (r: seq<Json>)
    ensures |r| == |servers|
    ensures forall i :: 0 <= i < |r| ==> r[i] == if servers[i].Obj? then Obj(ServerOf(servers[i].fields, typed))
      else servers[i]
  {
    seq(|servers|, i requires 0 <= i < |servers| => if servers[i].Obj? then Obj(ServerOf(servers[i].fields, typed))
      else servers[i])
  }

  predicate Logical(rule: Fields) {
    Lower(StringField(rule, "type")) == "logical"
  }

  /** The nested rules of a logical rule. */
  function Nested(rule: Json): (r: Option<seq<Json>>)
    requires rule.Obj?
    ensures r.Some? ==> (rule decreases to r.value)
  {
    var m := rule.fields;
    if Logical(m) && "rules" in m && m["rules"].Arr? then Some(m["rules"].items) else None
  }

  function WithNested(m: Fields, rules: seq<Json>): Fields {
    m["rules" := Arr(rules)]
  }

  /** A non-empty text or list, true, or any number or object. */
  predicate Filled(v: Json) {
    match v
    case Null => false
    case Str(s) => Trim(s) != ""
    case Arr(items) => items != []
    case Bool(b) => b
    case _ => true
  }

  predicate HasCondition(rule: Fields) {
    exists key :: key in ConditionKeys() && key in rule && Filled(rule[key])
  }

  datatype Act = NoAction | Route | Evaluate | RouteOptions | Reject | Predefined | Unsupported

  function ActionText(rule: Fields): string {
    Lower(StringField(rule, "action"))
  }

  /** What a rule asks for; anything but these, `respond` included, has no counterpart. */
  function Action(rule: Fields): Act {
    match ActionText(rule)
    case "" => NoAction
    case "route" => Route
    case "evaluate" => Evaluate
    case "route-options" => RouteOptions
    case "reject" => Reject
    case "predefined" => Predefined
    case _ => Unsupported
  }

  /** The response code that a rejecting or predefined rule answers with. */
  function CodeOf(rule: Fields): Option<string> {
    match Action(rule)
    case Reject => Some("refused")
    case Predefined => Some(Rcode(StringField(rule, "rcode")))
    case _ => None
  }

  function Rcode(text: string): string {
    if text == "" then "success" else Lower(text)
  }

  function CompatTag(code: string): string {
    PREFIX + code
  }

  /** What a rule that answers by itself may say of its answer. */
  function AnswerKeys(): set<string> {
    {"rcode", "answer", "ns", "extra", "method", "no_drop"}
  }

  /** The rule after its action is gone. */
  function Acted(rule: Fields): Fields {
    var action := Action(rule);
    var rest := if action != NoAction then Without(rule, {"action"}) else rule;
    if CodeOf(rule).Some? then
      Without(rest["server" := Str(CompatTag(CodeOf(rule).value))], AnswerKeys())
    else if action == RouteOptions then Without(rest, {"server"})
    else rest
  }

  function Aliased(rule: Fields): Fields {
    if "rule_set_ipcidr_match_source" in rule && "rule_set_ip_cidr_match_source" !in rule then
      rule["rule_set_ip_cidr_match_source" := rule["rule_set_ipcidr_match_source"]]
    else rule
  }

  /** Whether a rule is kept, what it becomes, and the codes it needs servers for, in order. */
  datatype Outcome = Outcome(keep: bool, rule: Fields, codes: seq<string>)

  function RuleOf(rule: Json): Outcome
    requires rule.Obj?
    decreases rule
  {
    if Nested(rule).Some? then
      var inner := RulesOf(Nested(rule).value);
      if inner.0 == [] then Outcome(false, rule.fields, inner.1) else Finish(WithNested(rule.fields, inner.0), inner.1)
    else Finish(rule.fields, [])
  }

  function Finish(m: Fields, codes: seq<string>): Outcome {
    if Action(m).Unsupported? then Outcome(false, m, codes)
    else
      var all := if CodeOf(m).Some? then codes + [CodeOf(m).value] else codes;
      var r := Only(Aliased(Acted(m)), RuleKeys());
      Outcome(Logical(r) || HasCondition(r), r, all)
  }

  function RulesOf(rules: seq<Json>): (seq<Json>, seq<string>)
    decreases rules
  {
    if rules == [] then ([], [])
    else
      var rest := RulesOf(rules[1..]);
      if !rules[0].Obj? then rest
      else
        var o := RuleOf(rules[0]);
        (if o.keep then [Obj(o.rule)] + rest.0 else rest.0, o.codes + rest.1)
  }

  function ServersIn(dns: Fields): seq<Json> {
    if "servers" in dns && dns["servers"].Arr? then dns["servers"].items else []
  }

  predicate HasTag(server: Json, tag: string) {
    server.Obj? && StringField(server.fields, "tag") == tag
  }

  /** A list of servers holds one under the tag, spaces around tags aside. */
  predicate Serves(servers: seq<Json>, tag: string) {
    exists i :: 0 <= i < |servers| && HasTag(servers[i], tag)
  }

  function CompatServer(code: string): Json {
    Obj(map["tag" := Str(CompatTag(code)), "address" := Str("rcode://" + code)])
  }

  function Ensured(dns: Fields, code: string): Fields {
    if Serves(ServersIn(dns), CompatTag(code)) then dns
    else dns["servers" := Arr(ServersIn(dns) + [CompatServer(code)])]
  }

  function EnsuredAll(dns: Fields, codes: seq<string>): Fields
    decreases |codes|
  {
    if codes == [] then dns else EnsuredAll(Ensured(dns, codes[0]), codes[1..])
  }

  function DnsServersOf(dns: Fields, typed: Typed): Fields {
    if "servers" in dns && dns["servers"].Arr? then dns["servers" := Arr(ServersOf(dns["servers"].items, typed))]
      else dns
  }

  function DnsOf(dns: Fields, typed: Typed): Fields {
    var d := DnsServersOf(dns, typed);
    if "rules" in d && d["rules"].Arr? then
      var out := RulesOf(d["rules"].items);
      EnsuredAll(d, out.1)["rules" := Arr(out.0)]
    else d
  }

  function ConfigOf(root: Fields, android: bool, typed: Typed): Fields {
    var r := if "route" in root && root["route"].Obj? then root["route" := Obj(RouteOf(root["route"].fields, android))]
      else root;
    if "dns" in root && root["dns"].Obj? then r["dns" := Obj(DnsOf(root["dns"].fields, typed))] else r
  }

  // ----- what a converted rule looks like, and that converting it again changes nothing -----

  predicate OnlyKeys(m: Fields, keys: set<string>) {
    m.Keys <= keys
  }

  /** A converted rule: only known fields, a condition or nested rules, and nested rules of the same kind. */
  predicate Normal(rule: Json)
    decreases rule
  {
    && rule.Obj?
    && var m := rule.fields;
    && OnlyKeys(m, RuleKeys())
    && Aliased(m) == m
    && (Logical(m) || HasCondition(m))
    && (Nested(rule).Some? ==> Nested(rule).value != [] && AllNormal(Nested(rule).value))
  }

  predicate AllNormal(rules: seq<Json>)
    decreases rules
  {
    rules != [] ==> Normal(rules[0]) && AllNormal(rules[1..])
  }

  lemma RuleKeyFacts()
    ensures "action" !in RuleKeys() && "type" in RuleKeys() && "rules" in RuleKeys() && "mode" in RuleKeys()
    ensures "rule_set_ip_cidr_match_source" in RuleKeys() && "rule_set_ipcidr_match_source" in RuleKeys()
    ensures "server" in ConditionKeys() && ConditionKeys() <= RuleKeys()
  {
    ActionIsDropped();
  }

  lemma ActionIsDropped()
    ensures "action" !in RuleKeys()
  {
    ActionIsNoCondition();
    hide ConditionKeys;
  }

  lemma ActionIsNoCondition()
    ensures "action" !in ConditionKeys()
  {
  }

  /** What the last part of the conversion leaves: known fields, no action, `type` and `rules` untouched. */
  lemma FinishShape(m: Fields, codes: seq<string>)
    requires Finish(m, codes).keep
    ensures var r := Finish(m, codes).rule;
      && OnlyKeys(r, RuleKeys()) && Aliased(r) == r && (Logical(r) || HasCondition(r))
      && "action" !in r
      && ("type" in r <==> "type" in m) && ("type" in m ==> r["type"] == m["type"])
      && ("rules" in r <==> "rules" in m) && ("rules" in m ==> r["rules"] == m["rules"])
      && Logical(r) == Logical(m)
  {
    RuleKeyFacts();
    hide RuleKeys, ConditionKeys, HasCondition, StringField;
    var a := Acted(m);
    assert a.Keys <= m.Keys + {"server"};
    assert "type" in a <==> "type" in m;
    assert "rules" in a <==> "rules" in m;
    SameType(m, Finish(m, codes).rule);
  }

  lemma SameType(m: Fields, r: Fields)
    requires ("type" in r <==> "type" in m) && ("type" in m ==> r["type"] == m["type"])
    ensures Logical(r) == Logical(m)
  {
  }

  lemma {:induction false} KeptIsNormal(rule: Json)
    requires rule.Obj? && RuleOf(rule).keep
    ensures Normal(Obj(RuleOf(rule).rule))
    decreases rule
  {
    hide Finish, HasCondition, RuleKeys, RulesOf, AllNormal;
    var m := rule.fields;
    if Nested(rule).Some? {
      var inner := RulesOf(Nested(rule).value);
      AllKeptNormal(Nested(rule).value);
      FinishShape(WithNested(m, inner.0), inner.1);
      SameType(m, WithNested(m, inner.0));
    } else {
      FinishShape(m, []);
    }
  }

  lemma {:induction false} AllKeptNormal(rules: seq<Json>)
    ensures AllNormal(RulesOf(rules).0)
    decreases rules
  {
    hide Normal, RuleOf;
    if rules != [] {
      AllKeptNormal(rules[1..]);
      if rules[0].Obj? && RuleOf(rules[0]).keep {
        KeptIsNormal(rules[0]);
        assert RulesOf(rules).0 == [Obj(RuleOf(rules[0]).rule)] + RulesOf(rules[1..]).0;
        assert RulesOf(rules).0[1..] == RulesOf(rules[1..]).0;
      }
    }
  }

  lemma {:induction false} NormalUnchanged(rule: Json)
    requires Normal(rule)
    ensures rule.Obj? && RuleOf(rule) == Outcome(true, rule.fields, [])
    decreases rule
  {
    FinishUnchanged(rule.fields);
    hide Finish, HasCondition, RuleKeys, Logical, Aliased, RulesOf, AllNormal, WithNested, Nested;
    if Nested(rule).Some? {
      AllNormalUnchanged(Nested(rule).value);
      SameNested(rule);
    }
  }

  lemma SameNested(rule: Json)
    requires rule.Obj? && Nested(rule).Some?
    ensures WithNested(rule.fields, Nested(rule).value) == rule.fields
  {
  }

  lemma FinishUnchanged(m: Fields)
    requires OnlyKeys(m, RuleKeys()) && Aliased(m) == m && (Logical(m) || HasCondition(m))
    ensures Finish(m, []) == Outcome(true, m, [])
  {
    RuleKeyFacts();
    hide RuleKeys, ConditionKeys, HasCondition, Logical;
    assert Action(m) == NoAction by {
      assert StringField(m, "action") == "";
    }
    assert Only(m, RuleKeys()) == m;
  }

  lemma {:induction false} AllNormalUnchanged(rules: seq<Json>)
    requires AllNormal(rules)
    ensures RulesOf(rules) == (rules, [])
    decreases rules
  {
    hide RuleOf, Finish, Normal;
    if rules != [] {
      NormalUnchanged(rules[0]);
      AllNormalUnchanged(rules[1..]);
      assert [Obj(rules[0].fields)] + rules[1..] == rules;
      assert RuleOf(rules[0]).codes + RulesOf(rules[1..]).1 == [];
    }
  }

  /**
   A kept rule field by field: known fields stay as they were, but for the server of a rule that answers by
   itself, the server of a rule that only sets options, the newer alias and the kept nested rules.
   */
  lemma KeptField(rule: Json, key: string)
    requires rule.Obj? && RuleOf(rule).keep
    ensures var m, r := rule.fields, RuleOf(rule).rule;
      var aliased := key == "rule_set_ip_cidr_match_source" && key !in m && "rule_set_ipcidr_match_source" in m;
      FieldOf(r, key) ==
        if key !in RuleKeys() then None
        else if key == "server" && CodeOf(m).Some? then Some(Str(CompatTag(CodeOf(m).value)))
        else if key == "server" && Action(m) == RouteOptions then None
        else if key == "rules" && Nested(rule).Some? then Some(Arr(RulesOf(Nested(rule).value).0))
        else if aliased then Some(m["rule_set_ipcidr_match_source"])
        else FieldOf(m, key)
  {
    var m := rule.fields;
    hide Finish, Nested, RulesOf, RuleKeys;
    if Nested(rule).Some? {
      var inner := RulesOf(Nested(rule).value);
      SameAction(m, inner.0);
      FinishField(WithNested(m, inner.0), inner.1, key);
    } else {
      FinishField(m, [], key);
    }
  }

  function FieldOf(m: Fields, key: string): Option<Json> {
    if key in m then Some(m[key]) else None
  }

  lemma FinishField(m: Fields, codes: seq<string>, key: string)
    requires Finish(m, codes).keep || !Action(m).Unsupported?
    ensures var r := Finish(m, codes).rule;
      var aliased := key == "rule_set_ip_cidr_match_source" && key !in m && "rule_set_ipcidr_match_source" in m;
      FieldOf(r, key) ==
        if key !in RuleKeys() then None
        else if key == "server" && CodeOf(m).Some? then Some(Str(CompatTag(CodeOf(m).value)))
        else if key == "server" && Action(m) == RouteOptions then None
        else if aliased then Some(m["rule_set_ipcidr_match_source"])
        else FieldOf(m, key)
  {
    FinishOutline(m, codes);
    RuleKeyFacts();
    if key in RuleKeys() {
      ActedField(m, key);
      ActedField(m, "rule_set_ipcidr_match_source");
      ActedField(m, "rule_set_ip_cidr_match_source");
      AliasKeys();
    }
    hide Finish, RuleKeys, Acted, CodeOf, Action, CompatTag;
  }

  lemma AliasKeys()
    ensures "rule_set_ipcidr_match_source" != "server" && "rule_set_ip_cidr_match_source" != "server"
  {
  }

  lemma AnswerIsDropped(key: string)
    requires key in AnswerKeys() || key == "action"
    ensures key !in RuleKeys()
  {
    AnswerIsNoCondition(key);
    hide ConditionKeys;
  }

  lemma AnswerIsNoCondition(key: string)
    requires key in AnswerKeys() || key == "action"
    ensures key !in ConditionKeys()
  {
  }

  lemma ActedField(m: Fields, key: string)
    requires key in RuleKeys()
    ensures FieldOf(Acted(m), key) ==
      if key == "server" && CodeOf(m).Some? then Some(Str(CompatTag(CodeOf(m).value)))
      else if key == "server" && Action(m) == RouteOptions then None
      else FieldOf(m, key)
  {
    if key in AnswerKeys() || key == "action" {
      AnswerIsDropped(key);
    }
    hide RuleKeys, AnswerKeys, Action, Rcode, StringField, CompatTag;
  }

  // ----- servers -----

  /** A converted server field by field: newer names stand in for missing older ones, a typed server gets an address. */
  lemma ServerField(server: Fields, typed: Typed, key: string)
    ensures FieldOf(ServerOf(server, typed), key) ==
      if key !in ServerKeys() then None
      else if key == "address_resolver" && Absent(server, key) && "domain_resolver" in server then
        Some(server["domain_resolver"])
      else if key == "address_strategy" && Absent(server, key) && "domain_strategy" in server then
        Some(server["domain_strategy"])
      else if key == "address" then FieldOf(Addressed(Aliases(server), typed), key)
      else FieldOf(server, key)
  {
    hide ServerKeys, StringField, Lower;
  }

  function Aliases(server: Fields): Fields {
    Renamed(Renamed(server, "domain_resolver", "address_resolver"), "domain_strategy", "address_strategy")
  }

  predicate NormalServer(server: Json) {
    server.Obj? ==> OnlyKeys(server.fields, ServerKeys())
  }

  lemma ServerNormal(server: Fields, typed: Typed)
    ensures NormalServer(Obj(ServerOf(server, typed)))
  {
  }

  lemma ServerUnchanged(server: Fields, typed: Typed)
    requires OnlyKeys(server, ServerKeys())
    ensures ServerOf(server, typed) == server
  {
    assert "domain_resolver" !in ServerKeys() && "domain_strategy" !in ServerKeys() && "type" !in ServerKeys();
    assert "domain_resolver" !in server && "domain_strategy" !in server && "type" !in server;
    hide ServerKeys;
    assert StringField(server, "type") == "";
    assert Only(server, ServerKeys()) == server;
  }

  predicate NormalServers(servers: seq<Json>) {
    forall i :: 0 <= i < |servers| ==> NormalServer(servers[i])
  }

  lemma ServersUnchanged(servers: seq<Json>, typed: Typed)
    requires NormalServers(servers)
    ensures ServersOf(servers, typed) == servers
  {
    hide ServerOf;
    forall i | 0 <= i < |servers| ensures ServersOf(servers, typed)[i] == servers[i] {
      assert NormalServer(servers[i]);
      if servers[i].Obj? {
        ServerUnchanged(servers[i].fields, typed);
      }
    }
  }

  /** The servers that the codes call for: one for each code that has none yet, in order of need. */
  function Extra(servers: seq<Json>, codes: seq<string>): (extra: seq<Json>)
    decreases |codes|
  {
    if codes == [] then []
    else if Serves(servers, CompatTag(codes[0])) then Extra(servers, codes[1..])
    else [CompatServer(codes[0])] + Extra(servers + [CompatServer(codes[0])], codes[1..])
  }

  lemma EnsuredServers(dns: Fields, code: string)
    ensures var servers := if Serves(ServersIn(dns), CompatTag(code)) then ServersIn(dns)
      else ServersIn(dns) + [CompatServer(code)];
      && ServersIn(Ensured(dns, code)) == servers
      && Ensured(dns, code) == if servers == ServersIn(dns) then dns else dns["servers" := Arr(servers)]
  {
    hide HasTag, CompatServer, CompatTag, Serves;
  }

  /** Nothing but the server list changes, and it only grows at its end. */
  lemma {:induction false} ServersGrow(dns: Fields, codes: seq<string>)
    ensures var d := EnsuredAll(dns, codes);
      && ServersIn(d) == ServersIn(dns) + Extra(ServersIn(dns), codes)
      && d == if Extra(ServersIn(dns), codes) == [] then dns else dns["servers" := Arr(ServersIn(d))]
    decreases |codes|
  {
    hide HasTag, CompatServer, CompatTag, ServersIn, Ensured, Serves;
    if codes == [] {
      assert ServersIn(dns) + [] == ServersIn(dns);
    } else {
      EnsuredServers(dns, codes[0]);
      ServersGrow(Ensured(dns, codes[0]), codes[1..]);
      var server := CompatServer(codes[0]);
      var rest := Extra(ServersIn(dns) + [server], codes[1..]);
      assert (ServersIn(dns) + [server]) + rest == ServersIn(dns) + ([server] + rest);
    }
  }

  lemma CompatServerTag(code: string, tag: string)
    requires Trimmed(code) && code != ""
    ensures HasTag(CompatServer(code), tag) <==> tag == CompatTag(code)
    ensures NormalServer(CompatServer(code))
  {
    assert Trimmed(CompatTag(code));
    var m := CompatServer(code).fields;
    assert StringField(m, "tag") == Trim(CompatTag(code));
    assert "tag" in ServerKeys() && "address" in ServerKeys();
  }

  predicate Codes(codes: seq<string>) {
    forall i :: 0 <= i < |codes| ==> Trimmed(codes[i]) && codes[i] != ""
  }

  /** Every code is served in the end, and the new servers have known fields only. */
  lemma {:induction false} ExtraServes(servers: seq<Json>, codes: seq<string>)
    requires Codes(codes)
    ensures NormalServers(Extra(servers, codes))
    ensures forall c :: c in codes ==> Serves(servers + Extra(servers, codes), CompatTag(c))
    decreases |codes|
  {
    hide HasTag, CompatServer, CompatTag, NormalServer, Serves;
    if codes != [] {
      var extra := Extra(servers, codes);
      assert forall c :: c in codes ==> c == codes[0] || c in codes[1..];
      if Serves(servers, CompatTag(codes[0])) {
        ExtraServes(servers, codes[1..]);
        ServesMore(servers, extra, CompatTag(codes[0]));
      } else {
        var server := CompatServer(codes[0]);
        CompatServerTag(codes[0], CompatTag(codes[0]));
        ExtraServes(servers + [server], codes[1..]);
        var rest := Extra(servers + [server], codes[1..]);
        assert servers + extra == (servers + [server]) + rest;
        ServesLast(servers, server, CompatTag(codes[0]));
        ServesMore(servers + [server], rest, CompatTag(codes[0]));
      }
    }
  }

  /** A server is new for one of the codes, whose tag no server before it had. */
  ghost predicate New(before: seq<Json>, server: Json, codes: seq<string>) {
    exists c :: c in codes && server == CompatServer(c) && !Serves(before, CompatTag(c))
  }

  lemma {:induction false} ExtraIsNew(servers: seq<Json>, codes: seq<string>, i: nat)
    requires i < |Extra(servers, codes)|
    ensures New(servers + Extra(servers, codes)[..i], Extra(servers, codes)[i], codes)
    decreases |codes|
  {
    hide HasTag, CompatServer, CompatTag, Serves;
    var extra := Extra(servers, codes);
    assert forall c :: c in codes[1..] ==> c in codes;
    if Serves(servers, CompatTag(codes[0])) {
      ExtraIsNew(servers, codes[1..], i);
    } else if i == 0 {
      assert servers + extra[..0] == servers && codes[0] in codes;
    } else {
      var start := servers + [CompatServer(codes[0])];
      ExtraIsNew(start, codes[1..], i - 1);
      assert servers + extra[..i] == start + Extra(start, codes[1..])[..i - 1];
    }
  }

  lemma ServesLast(servers: seq<Json>, server: Json, tag: string)
    requires HasTag(server, tag)
    ensures Serves(servers + [server], tag)
  {
    assert (servers + [server])[|servers|] == server;
  }

  lemma ServesMore(servers: seq<Json>, more: seq<Json>, tag: string)
    requires Serves(servers, tag)
    ensures Serves(servers + more, tag)
  {
    var i :| 0 <= i < |servers| && HasTag(servers[i], tag);
    assert (servers + more)[i] == servers[i];
  }

  lemma {:induction false} RuleCodes(rule: Json)
    requires rule.Obj?
    ensures Codes(RuleOf(rule).codes)
    decreases rule
  {
    assert Codes([]);
    hide Finish, Codes, RulesOf, Nested, WithNested;
    if Nested(rule).Some? {
      var inner := RulesOf(Nested(rule).value);
      RulesCodes(Nested(rule).value);
      FinishCodes(WithNested(rule.fields, inner.0), inner.1);
    } else {
      FinishCodes(rule.fields, []);
    }
  }

  lemma CodeIsTrimmed(rule: Fields)
    requires CodeOf(rule).Some?
    ensures Trimmed(CodeOf(rule).value) && CodeOf(rule).value != ""
  {
    hide Action, StringField, Rcode, Trimmed;
    RcodeIsTrimmed(StringField(rule, "rcode"));
    RefusedIsTrimmed();
  }

  lemma RefusedIsTrimmed()
    ensures Trimmed("refused") && Trimmed("success")
  {
  }

  lemma RcodeIsTrimmed(text: string)
    requires Trimmed(text)
    ensures Trimmed(Rcode(text)) && Rcode(text) != ""
  {
    hide Trimmed, Lower;
    RefusedIsTrimmed();
    LowerKeepsTrimmed(text);
  }

  lemma CompatTagIsFilled(code: string)
    requires Trimmed(code) && code != ""
    ensures Filled(Str(CompatTag(code)))
  {
    assert Trimmed(CompatTag(code));
  }

  lemma FinishCodes(m: Fields, codes: seq<string>)
    requires Codes(codes)
    ensures Codes(Finish(m, codes).codes)
  {
    hide Finish, CodeOf, Trimmed, Only, Aliased, Acted, RuleKeys, Action;
    FinishOutline(m, codes);
    if CodeOf(m).Some? {
      CodeIsTrimmed(m);
    }
  }

  /** The codes of a rule's last part, and what is left of the rule when it is kept. */
  lemma FinishOutline(m: Fields, codes: seq<string>)
    ensures var o := Finish(m, codes);
      && o.codes == (if CodeOf(m).Some? then codes + [CodeOf(m).value] else codes)
      && (o.keep ==> !Action(m).Unsupported?)
      && (!Action(m).Unsupported? ==> o.rule == Only(Aliased(Acted(m)), RuleKeys()))
  {
    hide Acted, Aliased, HasCondition, Logical, RuleKeys, Only, StringField, Rcode;
  }

  lemma {:induction false} RulesCodes(rules: seq<Json>)
    ensures Codes(RulesOf(rules).1)
    decreases rules
  {
    hide RuleOf;
    if rules != [] {
      RulesCodes(rules[1..]);
      if rules[0].Obj? {
        RuleCodes(rules[0]);
      }
    }
  }

  // ----- the whole conversion -----

  /** Nothing the older core does not know is left in servers, rules and route. */
  predicate NormalDns(dns: Fields) {
    && NormalServers(ServersIn(dns))
    && ("rules" in dns && dns["rules"].Arr? ==> AllNormal(dns["rules"].items))
  }

  predicate NormalConfig(root: Fields, android: bool) {
    && ("dns" in root && root["dns"].Obj? ==> NormalDns(root["dns"].fields))
    && ("route" in root && root["route"].Obj? ==>
      OnlyKeys(root["route"].fields, RouteKeys()) && ("override_android_vpn" in root["route"].fields ==> android))
  }

  lemma DnsNormal(dns: Fields, typed: Typed)
    ensures NormalDns(DnsOf(dns, typed))
  {
    hide ServerOf, RulesOf, AllNormal, NormalServer, EnsuredAll, Extra, Serves;
    var d := DnsServersOf(dns, typed);
    forall i | 0 <= i < |ServersIn(d)| ensures NormalServer(ServersIn(d)[i]) {
      var server := dns["servers"].items[i];
      if server.Obj? {
        ServerNormal(server.fields, typed);
      } else {
        NotAnObject(server);
      }
    }
    if "rules" in d && d["rules"].Arr? {
      var out := RulesOf(d["rules"].items);
      AllKeptNormal(d["rules"].items);
      RulesCodes(d["rules"].items);
      ServersGrow(d, out.1);
      ExtraServes(ServersIn(d), out.1);
      assert ServersIn(DnsOf(dns, typed)) == ServersIn(EnsuredAll(d, out.1));
    }
  }

  lemma NotAnObject(server: Json)
    requires !server.Obj?
    ensures NormalServer(server)
  {
  }

  lemma DnsUnchanged(dns: Fields, typed: Typed)
    requires NormalDns(dns)
    ensures DnsOf(dns, typed) == dns
  {
    hide ServersOf, RulesOf, AllNormal, NormalServers;
    if "servers" in dns && dns["servers"].Arr? {
      ServersUnchanged(dns["servers"].items, typed);
    }
    assert DnsServersOf(dns, typed) == dns;
    if "rules" in dns && dns["rules"].Arr? {
      AllNormalUnchanged(dns["rules"].items);
    }
  }

  /** The result has no unknown field, and converting it again changes nothing, whatever the input. */
  lemma Idempotent(root: Fields, android: bool, typed: Typed)
    ensures NormalConfig(ConfigOf(root, android, typed), android)
    ensures ConfigOf(ConfigOf(root, android, typed), android, typed) == ConfigOf(root, android, typed)
  {
    hide DnsOf, NormalDns, RouteKeys;
    var out := ConfigOf(root, android, typed);
    if "dns" in root && root["dns"].Obj? {
      DnsNormal(root["dns"].fields, typed);
      DnsUnchanged(out["dns"].fields, typed);
    }
    if "route" in root && root["route"].Obj? {
      var route := out["route"].fields;
      assert RouteOf(route, android) == route;
    }
  }

  /** Converted servers keep their places; after them come only servers for codes that had none. */
  lemma ServersArePrefix(dns: Fields, typed: Typed)
    ensures var before, after := ServersIn(DnsServersOf(dns, typed)), ServersIn(DnsOf(dns, typed));
      && before == ServersOf(ServersIn(dns), typed)
      && before <= after
      && (forall i :: |before| <= i < |after| ==> New(after[..i], after[i], NeededCodes(dns)))
  {
    hide ServersOf, RulesOf, EnsuredAll, Extra, New;
    var d := DnsServersOf(dns, typed);
    var before, after := ServersIn(d), ServersIn(DnsOf(dns, typed));
    assert ServersOf([], typed) == [];
    if "rules" in d && d["rules"].Arr? {
      var codes := RulesOf(d["rules"].items).1;
      ServersGrow(d, codes);
      var extra := Extra(before, codes);
      assert after == before + extra;
      forall i | |before| <= i < |after| ensures New(after[..i], after[i], codes) {
        ExtraIsNew(before, codes, i - |before|);
        assert after[..i] == before + extra[..i - |before|];
      }
    }
  }

  function NeededCodes(dns: Fields): seq<string> {
    if "rules" in dns && dns["rules"].Arr? then RulesOf(dns["rules"].items).1 else []
  }

  // ----- rules that answer with a code -----

  /** A kept rule that answers with a code names a server that is there, and so do its nested rules. */
  predicate Answered(rule: Json, servers: seq<Json>)
    requires rule.Obj?
    decreases rule
  {
    RuleOf(rule).keep ==>
      && (CodeOf(rule.fields).Some? ==>
        var tag := CompatTag(CodeOf(rule.fields).value);
        "server" in RuleOf(rule).rule && RuleOf(rule).rule["server"] == Str(tag) && Serves(servers, tag))
      && (Nested(rule).Some? ==> AllAnswered(Nested(rule).value, servers))
  }

  predicate AllAnswered(rules: seq<Json>, servers: seq<Json>)
    decreases rules
  {
    rules != [] ==> (rules[0].Obj? ==> Answered(rules[0], servers)) && AllAnswered(rules[1..], servers)
  }

  predicate ServesAll(servers: seq<Json>, codes: seq<string>) {
    forall c :: c in codes ==> Serves(servers, CompatTag(c))
  }

  lemma FinishAnswers(m: Fields, codes: seq<string>)
    requires Finish(m, codes).keep || !Action(m).Unsupported?
    ensures CodeOf(m).Some? ==>
      var r := Finish(m, codes).rule;
      Finish(m, codes).codes == codes + [CodeOf(m).value] && "server" in r &&
        r["server"] == Str(CompatTag(CodeOf(m).value))
    ensures CodeOf(m).None? ==> Finish(m, codes).codes == codes
  {
    hide Finish, Acted, RuleKeys, ConditionKeys, CodeOf, CompatTag, Action, AnswerKeys, StringField;
    FinishOutline(m, codes);
    if CodeOf(m).Some? {
      RuleKeyFacts();
      ServerKept();
      ActedServer(m);
    }
  }

  lemma ServerKept()
    ensures "server" !in AnswerKeys() && "server" != "rule_set_ip_cidr_match_source"
  {
  }

  lemma ActedServer(m: Fields)
    requires CodeOf(m).Some?
    ensures "server" in Acted(m) && Acted(m)["server"] == Str(CompatTag(CodeOf(m).value))
  {
    ServerKept();
    hide AnswerKeys, Action, Rcode, StringField, CompatTag;
  }

  /** Nested rules do not bear on the rule's own action. */
  lemma SameAction(m: Fields, rules: seq<Json>)
    ensures var n := WithNested(m, rules); Action(n) == Action(m) && CodeOf(n) == CodeOf(m)
  {
    hide Trim, Sprint, CodeOf, Action;
    SameCode(m, WithNested(m, rules));
  }

  lemma SameCode(m: Fields, n: Fields)
    requires StringField(m, "action") == StringField(n, "action") && StringField(m, "rcode") == StringField(n, "rcode")
    ensures Action(n) == Action(m) && CodeOf(n) == CodeOf(m)
  {
    hide StringField, Lower;
  }

  lemma {:induction false} ServedIsAnswered(rule: Json, servers: seq<Json>)
    requires rule.Obj? && ServesAll(servers, RuleOf(rule).codes)
    ensures Answered(rule, servers)
    decreases rule
  {
    hide Finish, Nested, WithNested, RulesOf, Serves, CodeOf, CompatTag;
    if RuleOf(rule).keep {
      if Nested(rule).Some? {
        var inner := RulesOf(Nested(rule).value);
        FinishAnswers(WithNested(rule.fields, inner.0), inner.1);
        SameAction(rule.fields, inner.0);
        AllServedAnswered(Nested(rule).value, servers);
      } else {
        FinishAnswers(rule.fields, []);
      }
    }
  }

  lemma {:induction false} AllServedAnswered(rules: seq<Json>, servers: seq<Json>)
    requires ServesAll(servers, RulesOf(rules).1)
    ensures AllAnswered(rules, servers)
    decreases rules
  {
    hide RuleOf, Answered, Serves, CompatTag;
    if rules != [] {
      AllServedAnswered(rules[1..], servers);
      if rules[0].Obj? {
        ServedIsAnswered(rules[0], servers);
      }
    }
  }

  /** Every kept rule that rejects or is predefined, nested ones too, names a server of the final list. */
  lemma RejectsAreServed(dns: Fields, typed: Typed)
    requires "rules" in dns && dns["rules"].Arr?
    ensures AllAnswered(dns["rules"].items, ServersIn(DnsOf(dns, typed)))
  {
    hide ServersOf, RulesOf, EnsuredAll, Extra, AllAnswered, Serves, CompatTag;
    var d := DnsServersOf(dns, typed);
    var codes := RulesOf(dns["rules"].items).1;
    ServersGrow(d, codes);
    RulesCodes(dns["rules"].items);
    ExtraServes(ServersIn(d), codes);
    assert ServersIn(DnsOf(dns, typed)) == ServersIn(EnsuredAll(d, codes));
    AllServedAnswered(dns["rules"].items, ServersIn(DnsOf(dns, typed)));
  }

  /** The server's tag is the text itself, with nothing around it. */
  predicate Bears(server: Json, tag: string) {
    server.Obj? && "tag" in server.fields && server.fields["tag"] == Str(tag)
  }

  predicate Literal(servers: seq<Json>, tag: string) {
    exists i :: 0 <= i < |servers| && Bears(servers[i], tag)
  }

  /**
   A rule's code has a server whose tag is literally the one the rule names exactly when one was there already
   or no tag there was that tag with spaces around it.
   */
  lemma {:induction false} LiteralTag(servers: seq<Json>, codes: seq<string>, code: string)
    requires Codes(codes) && code in codes
    ensures var tag := CompatTag(code);
      Literal(servers + Extra(servers, codes), tag) <==> Literal(servers, tag) || !Serves(servers, tag)
    decreases |codes|
  {
    hide Serves, CompatTag, CompatServer, Bears;
    var tag := CompatTag(code);
    var extra := Extra(servers, codes);
    ExtraServes(servers, codes);
    if Literal(servers, tag) {
      var i :| 0 <= i < |servers| && Bears(servers[i], tag);
      assert (servers + extra)[i] == servers[i];
    } else if Serves(servers, tag) {
      forall i | 0 <= i < |servers + extra| ensures !Bears((servers + extra)[i], tag) {
        if i >= |servers| {
          NewIsOther(servers, codes, i - |servers|, tag);
        } else {
          assert (servers + extra)[i] == servers[i];
        }
      }
    } else {
      FirstServer(servers, codes, code);
    }
  }

  /** A server whose tag has a space in front keeps the one that a rule names from being added. */
  lemma PaddedTag(servers: seq<Json>, code: string)
    requires Trimmed(code) && code != ""
    requires servers == [Obj(map["tag" := Str(" " + CompatTag(code))])]
    ensures !Literal(servers + Extra(servers, [code]), CompatTag(code))
  {
    hide Extra, CompatTag, Trimmed, StringField;
    var tag := CompatTag(code);
    TagIsTrimmed(code);
    OneCode(code);
    SpaceBefore(servers[0].fields, tag);
    assert HasTag(servers[0], tag) && Serves(servers, tag);
    assert |" " + tag| != |tag|;
    assert !Literal(servers, tag);
    LiteralTag(servers, [code], code);
  }

  lemma OneCode(code: string)
    requires Trimmed(code) && code != ""
    ensures Codes([code]) && code in [code]
  {
  }

  lemma TagIsTrimmed(code: string)
    requires Trimmed(code) && code != ""
    ensures Trimmed(CompatTag(code))
  {
  }

  lemma SpaceBefore(m: Fields, tag: string)
    requires m == map["tag" := Str(" " + tag)] && Trimmed(tag)
    ensures StringField(m, "tag") == tag
  {
    assert (" " + tag)[1..] == tag;
  }

  lemma NewIsOther(servers: seq<Json>, codes: seq<string>, i: nat, tag: string)
    requires Codes(codes) && i < |Extra(servers, codes)| && Serves(servers, tag)
    ensures !Bears(Extra(servers, codes)[i], tag)
  {
    hide Serves, CompatTag, Extra;
    ExtraIsNew(servers, codes, i);
    ServesMore(servers, Extra(servers, codes)[..i], tag);
  }

  lemma {:induction false} FirstServer(servers: seq<Json>, codes: seq<string>, code: string)
    requires Codes(codes) && code in codes && !Serves(servers, CompatTag(code))
    ensures Literal(servers + Extra(servers, codes), CompatTag(code))
    decreases |codes|
  {
    hide Serves, CompatTag, HasTag;
    var server := CompatServer(codes[0]);
    if Serves(servers, CompatTag(codes[0])) {
      FirstServer(servers, codes[1..], code);
    } else {
      var rest := Extra(servers + [server], codes[1..]);
      assert servers + Extra(servers, codes) == (servers + [server]) + rest;
      if code == codes[0] {
        assert ((servers + [server]) + rest)[|servers|] == server;
      } else {
        CompatServerTag(codes[0], CompatTag(code));
        SameTag(code, codes[0]);
        NotServedStill(servers, server, CompatTag(code));
        FirstServer(servers + [server], codes[1..], code);
      }
    }
  }

  lemma SameTag(a: string, b: string)
    ensures CompatTag(a) == CompatTag(b) <==> a == b
  {
    if CompatTag(a) == CompatTag(b) {
      assert a == CompatTag(a)[|PREFIX|..] && b == CompatTag(b)[|PREFIX|..];
    }
  }

  lemma NotServedStill(servers: seq<Json>, server: Json, tag: string)
    requires !Serves(servers, tag) && !HasTag(server, tag)
    ensures !Serves(servers + [server], tag)
  {
  }
}
