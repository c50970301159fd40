/**
 DNS rules that send each proxy server's own name to a server reached over that proxy's detour.  The maps are
 walked in no particular order, so the rules and servers may come out in any of several.
 */
module ForceDirect {
  import opened Words

  /** A configured address: dialled, or of a kind that takes no dialling options, or not understood. */
  datatype DnsAddress = Dialed | Bare | Invalid

  datatype DnsServer = DnsServer(tag: string, detour: string, resolver: string)

  /** A rule on whole domain names, or (`other` not 0) on something else. */
  datatype DnsRule = DnsRule(domains: seq<string>, other: int, server: string)

  /** `server` is the proxy's address when it has one; the empty detour is a direct dial. */
  datatype Outbound = Outbound(tag: string, server: Option<string>, detour: string, members: seq<string>,
    default: string)

  const DIRECT := "direct \U{6402}hide\U{6402}"
  const DNS_DIRECT := "dns-direct"

  function BuildServer(tag: string, address: DnsAddress, resolver: string, detour: string): Option<DnsServer> {
    match address
    case Dialed => Some(DnsServer(tag, detour, resolver))
    case Bare => Some(DnsServer(tag, "", ""))
    case Invalid => None
  }

  /** The name of the proxy's server unless that is an IP address. */
  function Host(o: Outbound, isIp: string -> bool): Option<string> {
    if o.server.Some? && o.server.value != "" && !isIp(o.server.value) then o.server else None
  }

  function Dials(o: Outbound): string {
    if o.detour != "" then o.detour else DIRECT
  }

  // ----- the detour of a name -----

  /** The first outbound's detour, unless a later one dials directly. */
  function DetourOf(outbounds: seq<Outbound>, isIp: string -> bool, host: string): Option<string> {
    if outbounds == [] then None
    else
      var o := outbounds[|outbounds| - 1];
      var before := DetourOf(outbounds[..|outbounds| - 1], isIp, host);
      if Host(o, isIp) == Some(host) && (before == None || Dials(o) == DIRECT) then Some(Dials(o)) else before
  }

  predicate Uses(outbounds: seq<Outbound>, isIp: string -> bool, i: int, host: string) {
    0 <= i < |outbounds| && Host(outbounds[i], isIp) == Some(host)
  }

  /** Direct wins if any outbound of that name dials directly, and otherwise the first one does. */
  lemma {:induction false} DirectOrFirst(outbounds: seq<Outbound>, isIp: string -> bool, host: string)
    ensures DetourOf(outbounds, isIp, host) == None <==> forall i :: !Uses(outbounds, isIp, i, host)
    ensures DetourOf(outbounds, isIp, host) == Some(DIRECT) <==>
      exists i :: Uses(outbounds, isIp, i, host) && Dials(outbounds[i]) == DIRECT
    ensures var d := DetourOf(outbounds, isIp, host);
      d.Some? && d.value != DIRECT ==>
        exists i :: Uses(outbounds, isIp, i, host) && Dials(outbounds[i]) == d.value &&
          forall j :: j < i ==> !Uses(outbounds, isIp, j, host)
    decreases |outbounds|
  {
    hide Host, Dials;
    if outbounds != [] {
      var n := |outbounds| - 1;
      var front := outbounds[..n];
      DirectOrFirst(front, isIp, host);
      assert forall i :: Uses(front, isIp, i, host) <==> i < n && Uses(outbounds, isIp, i, host);
      var d := DetourOf(outbounds, isIp, host);
      if Uses(outbounds, isIp, n, host) && Dials(outbounds[n]) == DIRECT {
      } else if d == Some(DIRECT) {
        var i :| Uses(front, isIp, i, host) && Dials(front[i]) == DIRECT;
        assert Uses(outbounds, isIp, i, host) && outbounds[i] == front[i];
      } else if DetourOf(front, isIp, host).Some? {
        var i :| Uses(front, isIp, i, host) && Dials(front[i]) == d.value &&
          forall j :: j < i ==> !Uses(front, isIp, j, host);
        assert Uses(outbounds, isIp, i, host) && outbounds[i] == front[i];
      } else if d.Some? {
        assert Uses(outbounds, isIp, n, host);
      }
    }
  }

  method CollectDetours(outbounds: seq<Outbound>, isIp: string -> bool) returns (detours: map<string, string>)
    ensures Collected(outbounds, isIp, detours)
  {
    detours := map[];
    hide Host, Dials;
    for i := 0 to |outbounds|
      invariant Collected(outbounds[..i], isIp, detours)
    {
      assert outbounds[..i + 1][..i] == outbounds[..i];
      var host := Host(outbounds[i], isIp);
      if host.Some? {
        var detour := Dials(outbounds[i]);
        if host.value !in detours || detour == DIRECT {
          detours := detours[host.value := detour];
        }
      }
    }
    assert outbounds[..|outbounds|] == outbounds;
  }

  ghost predicate Collected(outbounds: seq<Outbound>, isIp: string -> bool, detours: map<string, string>) {
    forall host :: DetourOf(outbounds, isIp, host) == if host in detours then Some(detours[host]) else None
  }

  // ----- the rules -----

  /** The DNS server for a detour. */
  function ServerFor(detour: string): string {
    if detour == DIRECT then DNS_DIRECT else "dns-" + detour
  }

  /** The rule for one detour: its names, each once, in some order. */
  ghost predicate RuleFor(rule: DnsRule, detour: string, detours: map<string, string>) {
    && rule.other == 0 && rule.server == ServerFor(detour) && NoRepeats(rule.domains)
    && forall h :: h in rule.domains <==> h in detours && detours[h] == detour
  }

  /** One rule for each of some detours, in some order. */
  ghost predicate TakenUp(rules: seq<DnsRule>, order: seq<string>, detours: map<string, string>, done: set<string>) {
    && |rules| == |order| && NoRepeats(order)
    && (forall d :: d in order <==> d in done)
    && (forall i :: 0 <= i < |rules| ==> RuleFor(rules[i], order[i], detours))
  }

  /** One rule for each detour. */
  ghost predicate Forced(rules: seq<DnsRule>, order: seq<string>, detours: map<string, string>) {
    TakenUp(rules, order, detours, detours.Values)
  }

  /** Each name is in exactly one of the rules, once; and no other name is in any. */
  lemma ExactlyOneRule(rules: seq<DnsRule>, order: seq<string>, detours: map<string, string>, host: string)
    requires Forced(rules, order, detours)
    ensures host in detours <==> exists i :: 0 <= i < |rules| && host in rules[i].domains
    ensures forall i, j ::
      0 <= i < |rules| && 0 <= j < |rules| && host in rules[i].domains && host in rules[j].domains ==> i == j
    ensures forall i :: 0 <= i < |rules| && host in rules[i].domains ==>
      NoRepeats(rules[i].domains) && rules[i].server == ServerFor(detours[host])
  {
    hide ServerFor;
    if host in detours {
      var d := detours[host];
      assert d in detours.Values;
      var i :| 0 <= i < |order| && order[i] == d;
      assert RuleFor(rules[i], order[i], detours);
    }
    forall i, j | 0 <= i < |rules| && 0 <= j < |rules| && host in rules[i].domains && host in rules[j].domains
      ensures i == j
    {
      assert RuleFor(rules[i], order[i], detours) && RuleFor(rules[j], order[j], detours);
    }
    forall i | 0 <= i < |rules| && host in rules[i].domains
      ensures rules[i].server == ServerFor(detours[host]) && NoRepeats(rules[i].domains)
    {
      assert RuleFor(rules[i], order[i], detours);
    }
  }

  // ----- what a query gets -----

  /** A query for a name; what it meets besides names may be anything. */
  datatype Query = Query(domain: string, meets: DnsRule -> bool)

  predicate Matches(q: Query, rule: DnsRule) {
    if rule.other == 0 then q.domain in rule.domains else q.meets(rule)
  }

  function Decide(q: Query, rules: seq<DnsRule>, final: string): string {
    if rules == [] then final else if Matches(q, rules[0]) then rules[0].server else Decide(q, rules[1..], final)
  }

  lemma {:induction false} DecideIn(q: Query, rules: seq<DnsRule>, more: seq<DnsRule>, final: string, i: nat)
    requires i < |rules| && Matches(q, rules[i]) && forall j :: 0 <= j < i ==> !Matches(q, rules[j])
    ensures Decide(q, rules + more, final) == rules[i].server
    decreases i
  {
    assert (rules + more)[0] == rules[0] && (rules + more)[1..] == rules[1..] + more;
    if i > 0 {
      DecideIn(q, rules[1..], more, final, i - 1);
    }
  }

  lemma {:induction false} DecidePast(q: Query, rules: seq<DnsRule>, more: seq<DnsRule>, final: string)
    requires forall j :: 0 <= j < |rules| ==> !Matches(q, rules[j])
    ensures Decide(q, rules + more, final) == Decide(q, more, final)
    decreases |rules|
  {
    if rules == [] {
      assert rules + more == more;
    } else {
      assert (rules + more)[0] == rules[0] && (rules + more)[1..] == rules[1..] + more;
      DecidePast(q, rules[1..], more, final);
    }
  }

  /** A proxy's name goes to the server of its detour; any other query is decided as without the new rules. */
  lemma ForcedDecision(q: Query, rules: seq<DnsRule>, order: seq<string>, detours: map<string, string>,
    others: seq<DnsRule>, final: string)
    requires Forced(rules, order, detours)
    ensures Decide(q, rules + others, final) == if q.domain in detours then ServerFor(detours[q.domain])
      else Decide(q, others, final)
  {
    ExactlyOneRule(rules, order, detours, q.domain);
    forall i | 0 <= i < |rules| ensures Matches(q, rules[i]) <==> q.domain in rules[i].domains {
      assert RuleFor(rules[i], order[i], detours);
    }
    hide ServerFor, Forced, Matches;
    if q.domain in detours {
      var i :| 0 <= i < |rules| && q.domain in rules[i].domains;
      DecideIn(q, rules, others, final, i);
    } else {
      DecidePast(q, rules, others, final);
    }
  }

  /** Whatever order the maps were walked in, every query gets the same server. */
  lemma Confluent(q: Query, detours: map<string, string>, others: seq<DnsRule>, final: string,
                  rules: seq<DnsRule>, order: seq<string>, rules': seq<DnsRule>, order': seq<string>)
    requires Forced(rules, order, detours) && Forced(rules', order', detours)
    ensures Decide(q, rules + others, final) == Decide(q, rules' + others, final)
  {
    ForcedDecision(q, rules, order, detours, others, final);
    ForcedDecision(q, rules', order', detours, others, final);
  }

  // ----- the pass itself -----

  /** The servers for all detours but the direct one; the detour taken up last comes first in `order`. */
  function NewServers(order: seq<string>, address: DnsAddress): (servers: seq<DnsServer>)
    requires address != Invalid
    ensures forall s :: s in servers ==>
      exists d :: d in order && d != DIRECT && BuildServer("dns-" + d, address, DNS_DIRECT, d) == Some(s)
  {
    if order == [] then []
    else
      var d := order[0];
      NewServers(order[1..], address) + ServersFor(d, address)
  }

  /** The names that go over a detour, in the order they are come upon. */
  method NamesOf(detours: map<string, string>, detour: string) returns (domains: seq<string>)
    ensures NoRepeats(domains) && forall h :: h in domains <==> h in detours && detours[h] == detour
  {
    domains := [];
    var rest := detours.Keys;
    while rest != {}
      invariant rest <= detours.Keys && NoRepeats(domains)
      invariant forall h :: h in domains <==> h in detours.Keys - rest && detours[h] == detour
      decreases |rest|
    {
      var host :| host in rest;
      rest := rest - {host};
      if detours[host] == detour {
        domains := domains + [host];
      }
    }
  }

  lemma TakeUp(rules: seq<DnsRule>, order: seq<string>, detours: map<string, string>, done: set<string>,
    detour: string, rule: DnsRule)
    requires TakenUp(rules, order, detours, done) && detour !in done && RuleFor(rule, detour, detours)
    ensures TakenUp([rule] + rules, [detour] + order, detours, done + {detour})
  {
    hide RuleFor;
  }

  predicate AllDirect(detours: set<string>) {
    forall d :: d in detours ==> d == DIRECT
  }

  lemma NothingTakenUp(detours: map<string, string>)
    ensures TakenUp([], [], detours, {}) && Parted(detours.Values, {}, detours.Values) && AllDirect({})
    ensures NewServers([], Dialed) == [] && NewServers([], Bare) == []
  {
  }

  class DnsOptions {
    var servers: seq<DnsServer>
    var rules: seq<DnsRule>

    constructor (servers: seq<DnsServer>, rules: seq<DnsRule>)
      ensures this.servers == servers && this.rules == rules
    {
      this.servers, this.rules := servers, rules;
    }

    /**
     Fails on an address that is not understood, once a server is to be made for it.  The rules are put
     before the others one by one, so they end up in the reverse order.
     */
    method AddForceDirect(outbounds: seq<Outbound>, isIp: string -> bool, address: DnsAddress)
        returns (ok: bool, ghost detours: map<string, string>, ghost order: seq<string>, ghost forced: seq<DnsRule>)
      modifies this
      ensures Collected(outbounds, isIp, detours)
      ensures ok <==> address != Invalid || AllDirect(detours.Values)
      ensures ok ==> Forced(forced, order, detours) && rules == forced + old(rules)
      ensures ok && address != Invalid ==> servers == old(servers) + NewServers(order, address)
      ensures ok && address == Invalid ==> servers == old(servers)
    {
      hide *;
      var byHost := CollectDetours(outbounds, isIp);
      detours, order, forced := byHost, [], [];
      var rest := set h | h in byHost :: byHost[h];
      assert rest == byHost.Values;
      ghost var wasRules, wasServers, added, done := rules, servers, [], {};
      NothingTakenUp(byHost);
      while rest != {}
        invariant Parted(rest, done, byHost.Values)
        invariant TakenUp(forced, order, byHost, done)
        invariant rules == forced + wasRules && servers == wasServers + added
        invariant address != Invalid ==> added == NewServers(order, address)
        invariant address == Invalid ==> added == [] && AllDirect(done)
        decreases |rest|
      {
        var detour :| detour in rest;
        Moved(rest, done, detour, byHost.Values);
        rest := rest - {detour};
        var rule: DnsRule;
        ok, rule := TakeDetour(byHost, detour, address);
        if !ok {
          return;
        }
        NewServersStep(order, detour, address);
        TakeUp(forced, order, byHost, done, detour, rule);
        Assoc(wasServers, added, ServersFor(detour, address));
        Assoc([rule], forced, wasRules);
        done := done + {detour};
        added := added + ServersFor(detour, address);
        order := [detour] + order;
        forced := [rule] + forced;
      }
      AllDone(done, byHost.Values);
      ForcedIs(forced, order, byHost, done);
      ok := true;
    }

    /** One detour: its server, unless it is the direct one, and the rule for its names. */
    method TakeDetour(byHost: map<string, string>, detour: string, address: DnsAddress)
        returns (ok: bool, rule: DnsRule)
      modifies this
      ensures ok <==> address != Invalid || AllDirect({detour})
      ensures ok ==> RuleFor(rule, detour, byHost)
      ensures ok ==> rules == [rule] + old(rules) && servers == old(servers) + ServersFor(detour, address)
    {
      var server := DNS_DIRECT;
      rule := DnsRule([], 0, server);
      if detour != DIRECT {
        var made := BuildServer("dns-" + detour, address, DNS_DIRECT, detour);
        if made == None {
          return false, rule;
        }
        server := "dns-" + detour;
        servers := servers + [made.value];
      }
      var domains := NamesOf(byHost, detour);
      rule := DnsRule(domains, 0, server);
      RuleMade(rule, detour, byHost);
      rules := [rule] + rules;
      ok := true;
    }
  }

  /** The direct detour has its server already. */
  function ServersFor(detour: string, address: DnsAddress): seq<DnsServer>
    requires address != Invalid || AllDirect({detour})
  {
    if detour == DIRECT then [] else [BuildServer("dns-" + detour, address, DNS_DIRECT, detour).value]
  }

  predicate Parted(rest: set<string>, done: set<string>, all: set<string>) {
    rest + done == all && rest !! done
  }

  /** One more is done; all are direct only if it is. */
  lemma Moved(rest: set<string>, done: set<string>, d: string, all: set<string>)
    requires Parted(rest, done, all) && d in rest
    ensures Parted(rest - {d}, done + {d}, all) && d !in done
    ensures AllDirect(all) ==> AllDirect({d})
    ensures AllDirect(done) && AllDirect({d}) ==> AllDirect(done + {d})
  {
  }

  lemma AllDone(done: set<string>, all: set<string>)
    requires Parted({}, done, all)
    ensures done == all
  {
  }

  lemma ForcedIs(rules: seq<DnsRule>, order: seq<string>, detours: map<string, string>, done: set<string>)
    requires TakenUp(rules, order, detours, done) && done == detours.Values
    ensures Forced(rules, order, detours)
  {
  }

  lemma RuleMade(rule: DnsRule, detour: string, detours: map<string, string>)
    requires rule.other == 0 && rule.server == (if detour == DIRECT then DNS_DIRECT else "dns-" + detour) &&
      NoRepeats(rule.domains)
    requires forall h :: h in rule.domains <==> h in detours && detours[h] == detour
    ensures RuleFor(rule, detour, detours)
  {
  }

  lemma NewServersStep(order: seq<string>, detour: string, address: DnsAddress)
    requires address != Invalid || AllDirect({detour})
    ensures address != Invalid ==>
      NewServers([detour] + order, address) == NewServers(order, address) + ServersFor(detour, address)
    ensures address == Invalid ==> ServersFor(detour, address) == []
  {
    assert ([detour] + order)[1..] == order;
  }
}
