/**
 On Windows no rule may send DNS queries to a remote server: references to one are turned to a local server,
 which is added when there is none.  A DNS rule's `server` is the one it routes to, a routing rule's the one
 its resolve action asks; both kinds of rules are rewritten alike.
 */
module WindowsDns {
  import opened Words
  import opened RouteRules

  datatype ServerKind = Local | Dhcp | Udp | Tcp | Tls | Quic | Https | Http3 | OtherServer(name: string)

  datatype Server = Server(tag: string, kind: ServerKind, rest: int)

  const LOCAL_TAG := "dns-local"

  predicate LocalLike(server: Server) {
    server.kind == Local || server.kind == Dhcp
  }

  predicate Remote(server: Server) {
    server.kind.Udp? || server.kind.Tcp? || server.kind.Tls? || server.kind.Quic? || server.kind.Https? ||
      server.kind.Http3?
  }

  /** The last server of a tag is the one the tag stands for. */
  function Find(servers: seq<Server>, tag: string): (r: Option<Server>)
    ensures r.Some? ==> r.value.tag == tag && r.value in servers
  {
    if servers == [] then None
    else if servers[|servers| - 1].tag == tag then Some(servers[|servers| - 1])
    else Find(servers[..|servers| - 1], tag)
  }

  predicate Problematic(servers: seq<Server>, tag: string) {
    tag != "" && Find(servers, tag).Some? && Remote(Find(servers, tag).value)
  }

  /** The tag of the first local server that has one. */
  function FirstLocal(servers: seq<Server>): (r: string)
    ensures r != "" ==> exists i :: 0 <= i < |servers| && servers[i].tag == r && LocalLike(servers[i])
    ensures r == "" ==> forall i :: 0 <= i < |servers| && LocalLike(servers[i]) ==> servers[i].tag == ""
  {
    if servers == [] then ""
    else if servers[0].tag != "" && LocalLike(servers[0]) then servers[0].tag
    else FirstLocal(servers[1..])
  }

  function LocalTag(servers: seq<Server>): (r: string)
    ensures r != ""
  {
    if FirstLocal(servers) != "" then FirstLocal(servers) else LOCAL_TAG
  }

  function WithLocal(servers: seq<Server>): seq<Server> {
    if FirstLocal(servers) != "" then servers else [Server(LOCAL_TAG, Local, 0)] + servers
  }

  function Turned(servers: seq<Server>, tag: string): string {
    if Problematic(servers, tag) then LocalTag(servers) else tag
  }

  function TurnedRule(servers: seq<Server>, rule: Rule): Rule
    decreases rule
  {
    match rule.kind
    case Logical =>
      var l := rule.logical;
      rule.(logical :=
        l.(rules := TurnedRules(servers, l.rules), action := l.action.(server := Turned(servers, l.action.server))))
    case OtherKind(_) => rule
    case _ => rule.(kind := Default,
      def := rule.def.(action := rule.def.action.(server := Turned(servers, rule.def.action.server))))
  }

  function TurnedRules(servers: seq<Server>, rules: seq<Rule>): (r: seq<Rule>)
    ensures |r| == |rules|
    decreases rules
  {
    if rules == [] then [] else [TurnedRule(servers, rules[0])] + TurnedRules(servers, rules[1..])
  }

  /** Nothing that the rule and the rules in it refer to is remote; rules of other kinds are not looked into. */
  predicate CleanRule(servers: seq<Server>, rule: Rule)
    decreases rule
  {
    match rule.kind
    case Logical => !Problematic(servers, rule.logical.action.server) && CleanRules(servers, rule.logical.rules)
    case OtherKind(_) => true
    case _ => !Problematic(servers, rule.def.action.server)
  }

  predicate CleanRules(servers: seq<Server>, rules: seq<Rule>)
    decreases rules
  {
    rules != [] ==> CleanRule(servers, rules[0]) && CleanRules(servers, rules[1..])
  }

  /** The DNS options and what the route says of DNS. */
  datatype Options = Options(dns: Option<Dns>, route: Option<RouteDns>)

  datatype Dns = Dns(servers: seq<Server>, final: string, rules: seq<Rule>)

  datatype RouteDns = RouteDns(resolver: Option<string>, rules: seq<Rule>)

  function SanitizedDns(dns: Dns): Dns {
    var servers := WithLocal(dns.servers);
    Dns(servers, Turned(servers, dns.final), TurnedRules(servers, dns.rules))
  }

  function SanitizedRoute(servers: seq<Server>, route: RouteDns): RouteDns {
    RouteDns(
      if route.resolver.Some? then Some(Turned(servers, route.resolver.value)) else None,
      TurnedRules(servers, route.rules))
  }

  function Sanitized(options: Options): Options {
    if options.dns == None then options
    else
      var dns := SanitizedDns(options.dns.value);
      Options(Some(dns), if options.route.Some? then Some(SanitizedRoute(WithLocal(dns.servers), options.route.value))
        else None)
  }

  predicate Clean(options: Options) {
    options.dns.Some? ==>
      var servers := WithLocal(options.dns.value.servers);
      && !Problematic(servers, options.dns.value.final) && CleanRules(servers, options.dns.value.rules)
      && (options.route.Some? ==>
        && (options.route.value.resolver.Some? ==> !Problematic(servers, options.route.value.resolver.value))
        && CleanRules(servers, options.route.value.rules))
  }

  // ----- servers -----

  /** The local server found or added is found again. */
  lemma LocalAgain(servers: seq<Server>)
    ensures WithLocal(WithLocal(servers)) == WithLocal(servers)
    ensures LocalTag(WithLocal(servers)) == LocalTag(servers)
  {
  }

  /** The local tag stands for a remote server only if a later server has the same tag. */
  predicate Shadowed(servers: seq<Server>) {
    Problematic(WithLocal(servers), LocalTag(servers))
  }

  lemma DistinctNotShadowed(servers: seq<Server>)
    requires forall i, j :: 0 <= i < j < |servers| && servers[i].tag != "" ==> servers[i].tag != servers[j].tag
    requires forall i :: 0 <= i < |servers| && servers[i].tag == LOCAL_TAG ==> LocalLike(servers[i])
    ensures !Shadowed(servers)
  {
    var found := Find(WithLocal(servers), LocalTag(servers));
    if found.Some? {
      if FirstLocal(servers) != "" {
        var i :| 0 <= i < |servers| && servers[i].tag == FirstLocal(servers) && LocalLike(servers[i]);
        var j :| 0 <= j < |servers| && servers[j] == found.value;
        assert i == j;
      }
    }
  }

  /** A remote server that is already called `dns-local` hides the added one: queries still go to it. */
  lemma RemoteNamedLocal(servers: seq<Server>, dns: Dns)
    requires servers == [Server(LOCAL_TAG, Udp, 0)] && dns == Dns(servers, LOCAL_TAG, [])
    ensures Shadowed(servers) && !Clean(Sanitized(Options(Some(dns), None)))
  {
    var added := WithLocal(servers);
    assert FirstLocal(servers) == "" by {
      assert servers[1..] == [] && FirstLocal([]) == "";
    }
    assert added == [Server(LOCAL_TAG, Local, 0), servers[0]];
    assert Find(added, LOCAL_TAG) == Some(servers[0]);
    LocalAgain(servers);
  }

  // ----- rules -----

  lemma {:induction false} TurnedTwice(servers: seq<Server>, rule: Rule)
    ensures TurnedRule(servers, TurnedRule(servers, rule)) == TurnedRule(servers, rule)
    decreases rule
  {
    hide Problematic, LocalTag;
    if rule.kind == Logical {
      AllTurnedTwice(servers, rule.logical.rules);
    }
  }

  lemma {:induction false} AllTurnedTwice(servers: seq<Server>, rules: seq<Rule>)
    ensures TurnedRules(servers, TurnedRules(servers, rules)) == TurnedRules(servers, rules)
    decreases rules
  {
    hide TurnedRule;
    if rules != [] {
      TurnedTwice(servers, rules[0]);
      AllTurnedTwice(servers, rules[1..]);
      assert TurnedRules(servers, rules)[1..] == TurnedRules(servers, rules[1..]);
    }
  }

  lemma {:induction false} TurnedClean(servers: seq<Server>, rule: Rule)
    ensures CleanRule(servers, TurnedRule(servers, rule)) <==>
      CleanRule(servers, rule) || !Problematic(servers, LocalTag(servers))
    decreases rule
  {
    hide Problematic, LocalTag;
    if rule.kind == Logical {
      AllTurnedClean(servers, rule.logical.rules);
    }
  }

  lemma {:induction false} AllTurnedClean(servers: seq<Server>, rules: seq<Rule>)
    ensures CleanRules(servers, TurnedRules(servers, rules)) <==>
      CleanRules(servers, rules) || !Problematic(servers, LocalTag(servers))
    decreases rules
  {
    hide TurnedRule, Problematic, LocalTag, CleanRule;
    if rules != [] {
      TurnedClean(servers, rules[0]);
      AllTurnedClean(servers, rules[1..]);
      assert TurnedRules(servers, rules)[1..] == TurnedRules(servers, rules[1..]);
    }
  }

  /** What a rule and the rules in it refer to, in order. */
  function References(rule: Rule): seq<string>
    decreases rule
  {
    match rule.kind
    case Logical => AllReferences(rule.logical.rules) + [rule.logical.action.server]
    case OtherKind(_) => []
    case _ => [rule.def.action.server]
  }

  function AllReferences(rules: seq<Rule>): seq<string>
    decreases rules
  {
    if rules == [] then [] else References(rules[0]) + AllReferences(rules[1..])
  }

  /** The rule without its references, and with its kind spelled out. */
  function Blank(rule: Rule): Rule
    decreases rule
  {
    match rule.kind
    case Logical => rule.(logical :=
      rule.logical.(rules := AllBlank(rule.logical.rules), action := rule.logical.action.(server := "")))
    case OtherKind(_) => rule
    case _ => rule.(kind := Default, def := rule.def.(action := rule.def.action.(server := "")))
  }

  function AllBlank(rules: seq<Rule>): seq<Rule>
    decreases rules
  {
    if rules == [] then [] else [Blank(rules[0])] + AllBlank(rules[1..])
  }

  function AllTurned(servers: seq<Server>, tags: seq<string>): seq<string> {
    seq(|tags|, i requires 0 <= i < |tags| => Turned(servers, tags[i]))
  }

  /** Exactly the references to remote servers are turned, one by one, and nothing else in a rule changes. */
  lemma {:induction false} OnlyReferencesTurn(servers: seq<Server>, rule: Rule)
    ensures Blank(TurnedRule(servers, rule)) == Blank(rule)
    ensures References(TurnedRule(servers, rule)) == AllTurned(servers, References(rule))
    decreases rule
  {
    hide Turned;
    if rule.kind == Logical {
      OnlyReferencesTurnAll(servers, rule.logical.rules);
    }
  }

  lemma {:induction false} OnlyReferencesTurnAll(servers: seq<Server>, rules: seq<Rule>)
    ensures AllBlank(TurnedRules(servers, rules)) == AllBlank(rules)
    ensures AllReferences(TurnedRules(servers, rules)) == AllTurned(servers, AllReferences(rules))
    decreases rules
  {
    hide Turned, TurnedRule, Blank, References;
    if rules != [] {
      OnlyReferencesTurn(servers, rules[0]);
      OnlyReferencesTurnAll(servers, rules[1..]);
      assert TurnedRules(servers, rules)[1..] == TurnedRules(servers, rules[1..]);
    }
  }

  /**
   One pass leaves no reference to a remote server exactly when there was none before or the local tag is not
   shadowed by a remote server.
   */
  lemma CleanAfter(options: Options)
    requires options.dns.Some?
    ensures Clean(Sanitized(options)) <==> Clean(options) || !Shadowed(options.dns.value.servers)
  {
    var dns := options.dns.value;
    LocalAgain(dns.servers);
    hide Problematic, LocalTag, WithLocal, TurnedRules, CleanRules;
    var servers := WithLocal(dns.servers);
    AllTurnedClean(servers, dns.rules);
    if options.route.Some? {
      AllTurnedClean(servers, options.route.value.rules);
    }
  }

  /** A second pass changes nothing, whatever the options. */
  lemma PassTwice(options: Options)
    ensures Sanitized(Sanitized(options)) == Sanitized(options)
  {
    if options.dns.Some? {
      var dns := options.dns.value;
      LocalAgain(dns.servers);
      LocalAgain(WithLocal(dns.servers));
      hide Problematic, LocalTag, WithLocal, TurnedRules;
      var servers := WithLocal(dns.servers);
      AllTurnedTwice(servers, dns.rules);
      if options.route.Some? {
        AllTurnedTwice(servers, options.route.value.rules);
      }
    }
  }

  // ----- the result told by the kinds of servers -----

  /** The last server of a tag, which is the one that the tag stands for. */
  predicate IsLast(servers: seq<Server>, tag: string, i: int) {
    0 <= i < |servers| && servers[i].tag == tag && forall j :: i < j < |servers| ==> servers[j].tag != tag
  }

  /** The tag stands for a server that is asked over the network. */
  ghost predicate AsksNetwork(servers: seq<Server>, tag: string) {
    tag != "" &&
      exists i :: IsLast(servers, tag, i) && servers[i].kind in {Udp, Tcp, Tls, Quic, Https, Http3}
  }

  lemma {:induction false} FindIsLast(servers: seq<Server>, tag: string)
    ensures Find(servers, tag) == None <==> forall i :: 0 <= i < |servers| ==> servers[i].tag != tag
    ensures forall i :: IsLast(servers, tag, i) ==> Find(servers, tag) == Some(servers[i])
    ensures Find(servers, tag).Some? ==> exists i :: IsLast(servers, tag, i)
    decreases |servers|
  {
    if servers != [] {
      var front := servers[..|servers| - 1];
      FindIsLast(front, tag);
      LastInFront(servers, front, tag);
      hide IsLast;
      assert forall i :: 0 <= i < |front| ==> front[i] == servers[i];
    }
  }

  lemma LastInFront(servers: seq<Server>, front: seq<Server>, tag: string)
    requires servers != [] && front == servers[..|servers| - 1]
    ensures var n := |front|;
      if servers[n].tag == tag then IsLast(servers, tag, n) && forall i :: IsLast(servers, tag, i) ==> i == n
      else forall i :: IsLast(front, tag, i) <==> IsLast(servers, tag, i)
    ensures forall i :: IsLast(servers, tag, i) ==> 0 <= i < |servers| && servers[i].tag == tag
    ensures forall i :: IsLast(front, tag, i) ==> 0 <= i < |front|
  {
  }

  lemma RemoteByKinds(servers: seq<Server>, tag: string)
    ensures Problematic(servers, tag) <==> AsksNetwork(servers, tag)
  {
    FindIsLast(servers, tag);
    hide Find;
    if tag != "" && Find(servers, tag).Some? {
      var i :| IsLast(servers, tag, i);
      KindIsRemote(servers[i]);
    }
  }

  lemma KindIsRemote(server: Server)
    ensures Remote(server) <==> server.kind in {Udp, Tcp, Tls, Quic, Https, Http3}
  {
  }

  /** All tags that the options refer to. */
  function Mentioned(options: Options): seq<string> {
    if options.dns == None then []
    else
      [options.dns.value.final] + AllReferences(options.dns.value.rules)
      + if options.route == None then []
        else (if options.route.value.resolver == None then [] else [options.route.value.resolver.value])
             + AllReferences(options.route.value.rules)
  }

  /** No tag that the options refer to stands for a server that is asked over the network. */
  ghost predicate StaysLocal(options: Options) {
    options.dns.Some? ==>
      forall tag :: tag in Mentioned(options) ==> !AsksNetwork(WithLocal(options.dns.value.servers), tag)
  }

  lemma {:induction false} CleanByReferences(servers: seq<Server>, rule: Rule)
    ensures CleanRule(servers, rule) <==> forall tag :: tag in References(rule) ==> !Problematic(servers, tag)
    decreases rule
  {
    hide Problematic;
    if rule.kind == Logical {
      AllCleanByReferences(servers, rule.logical.rules);
    }
  }

  lemma {:induction false} AllCleanByReferences(servers: seq<Server>, rules: seq<Rule>)
    ensures CleanRules(servers, rules) <==> forall tag :: tag in AllReferences(rules) ==> !Problematic(servers, tag)
    decreases rules
  {
    hide Problematic, CleanRule, References;
    if rules != [] {
      CleanByReferences(servers, rules[0]);
      AllCleanByReferences(servers, rules[1..]);
    }
  }

  lemma CleanIsLocal(options: Options)
    ensures Clean(options) <==> StaysLocal(options)
  {
    hide Problematic, CleanRules, AllReferences, AsksNetwork, WithLocal;
    if options.dns.Some? {
      var servers := WithLocal(options.dns.value.servers);
      forall tag ensures Problematic(servers, tag) <==> AsksNetwork(servers, tag) {
        RemoteByKinds(servers, tag);
      }
      AllCleanByReferences(servers, options.dns.value.rules);
      if options.route.Some? {
        AllCleanByReferences(servers, options.route.value.rules);
      }
    }
  }

  /**
   After one pass nothing that the options refer to is asked over the network, exactly when that was so before
   or the local tag does not stand for such a server.
   */
  lemma LocalAfter(options: Options)
    requires options.dns.Some?
    ensures var servers := options.dns.value.servers;
      StaysLocal(Sanitized(options)) <==> StaysLocal(options) || !AsksNetwork(WithLocal(servers), LocalTag(servers))
  {
    CleanIsLocal(options);
    CleanIsLocal(Sanitized(options));
    CleanAfter(options);
    RemoteByKinds(WithLocal(options.dns.value.servers), LocalTag(options.dns.value.servers));
  }

  /** A reference is turned exactly when it is asked over the network, and then to the first local or DHCP server. */
  lemma TurnedByKinds(servers: seq<Server>, tag: string)
    ensures !AsksNetwork(servers, tag) ==> Turned(servers, tag) == tag
    ensures AsksNetwork(servers, tag) ==> Turned(servers, tag) == LocalTag(servers)
    ensures forall i :: FirstOwn(servers, i) ==> LocalTag(servers) == servers[i].tag && WithLocal(servers) == servers
    ensures (forall i :: !FirstOwn(servers, i)) ==>
      LocalTag(servers) == "dns-local" && WithLocal(servers) == [Server("dns-local", Local, 0)] + servers
  {
    RemoteByKinds(servers, tag);
    OwnIsFirst(servers);
    hide Problematic, AsksNetwork;
  }

  predicate Own(server: Server) {
    server.tag != "" && server.kind in {Local, Dhcp}
  }

  predicate FirstOwn(servers: seq<Server>, i: int) {
    0 <= i < |servers| && Own(servers[i]) && forall j :: 0 <= j < i ==> !Own(servers[j])
  }

  lemma {:induction false} OwnIsFirst(servers: seq<Server>)
    ensures forall i :: FirstOwn(servers, i) ==> FirstLocal(servers) == servers[i].tag
    ensures (forall i :: !FirstOwn(servers, i)) <==> FirstLocal(servers) == ""
    decreases |servers|
  {
    if servers != [] {
      OwnIsFirst(servers[1..]);
      if Own(servers[0]) {
        assert FirstOwn(servers, 0);
      } else {
        assert forall i :: FirstOwn(servers[1..], i) <==> FirstOwn(servers, i + 1);
        assert !FirstOwn(servers, 0);
        if i :| FirstOwn(servers, i) {
          assert FirstOwn(servers[1..], i - 1);
        }
      }
    }
  }

  // ----- the pass itself -----

  class Runtime {
    var dns: Option<Dns>
    var route: Option<RouteDns>

    constructor (dns: Option<Dns>, route: Option<RouteDns>)
      ensures State() == Options(dns, route)
    {
      this.dns, this.route := dns, route;
    }

    function State(): Options
      reads this
    {
      Options(dns, route)
    }

    /** The tag of a local server, which is put before the others when there is none. */
    method EnsureLocal() returns (tag: string)
      requires dns.Some?
      modifies this`dns
      ensures tag == LocalTag(old(dns).value.servers)
      ensures dns == Some(old(dns).value.(servers := WithLocal(old(dns).value.servers)))
    {
      var servers := dns.value.servers;
      for i := 0 to |servers|
        invariant FirstLocal(servers) == FirstLocal(servers[i..])
      {
        if servers[i].tag != "" && LocalLike(servers[i]) {
          return servers[i].tag;
        }
      }
      dns := Some(dns.value.(servers := [Server(LOCAL_TAG, Local, 0)] + servers));
      return LOCAL_TAG;
    }

    method SanitizeDns(windows: bool)
      modifies this`dns
      ensures dns == if windows && old(dns).Some? then Some(SanitizedDns(old(dns).value)) else old(dns)
    {
      if dns == None || !windows {
        return;
      }
      LocalAgain(dns.value.servers);
      hide WithLocal, LocalTag, TurnedRules;
      var localTag := EnsureLocal();
      var index := BuildIndex(dns.value.servers);
      var final := dns.value.final;
      if ShouldFallBack(index, final) {
        final := localTag;
      }
      assert final == Turned(dns.value.servers, dns.value.final) by {
        hide FirstLocal;
        IndexAgrees(index, dns.value.servers, dns.value.final);
      }
      var rules := RewriteRules(dns.value.rules, localTag, index, dns.value.servers);
      dns := Some(dns.value.(final := final, rules := rules));
    }

    method SanitizeRoute(windows: bool)
      modifies this
      ensures State() == if windows && old(dns).Some? && old(route).Some? then
        Options(Some(old(dns).value.(servers := WithLocal(old(dns).value.servers))),
                Some(SanitizedRoute(WithLocal(old(dns).value.servers), old(route).value)))
      else old(State())
    {
      if dns == None || route == None || !windows {
        return;
      }
      LocalAgain(dns.value.servers);
      hide WithLocal, LocalTag, TurnedRules;
      var localTag := EnsureLocal();
      var servers := dns.value.servers;
      var index := BuildIndex(servers);
      var resolver := route.value.resolver;
      if resolver.Some? {
        IndexAgrees(index, servers, resolver.value);
        if ShouldFallBack(index, resolver.value) {
          resolver := Some(localTag);
        }
      }
      var rules := RewriteRules(route.value.rules, localTag, index, servers);
      route := Some(RouteDns(resolver, rules));
    }

    /** Elsewhere than on Windows nothing happens. */
    method Sanitize(windows: bool)
      modifies this
      ensures State() == if windows then Sanitized(old(State())) else old(State())
    {
      SanitizeDns(windows);
      SanitizeRoute(windows);
      if windows && old(dns).Some? {
        LocalAgain(old(dns).value.servers);
      }
    }
  }

  ghost predicate Indexes(index: map<string, Server>, servers: seq<Server>) {
    forall tag :: if tag != "" && Find(servers, tag).Some? then tag in index && index[tag] == Find(servers, tag).value
      else tag !in index
  }

  method BuildIndex(servers: seq<Server>) returns (index: map<string, Server>)
    ensures Indexes(index, servers)
  {
    index := map[];
    for i := 0 to |servers|
      invariant Indexes(index, servers[..i])
    {
      assert servers[..i + 1][..i] == servers[..i];
      if servers[i].tag != "" {
        index := index[servers[i].tag := servers[i]];
      }
    }
    assert servers[..|servers|] == servers;
  }

  predicate ShouldFallBack(index: map<string, Server>, tag: string) {
    tag != "" && tag in index && Remote(index[tag])
  }

  lemma IndexAgrees(index: map<string, Server>, servers: seq<Server>, tag: string)
    requires Indexes(index, servers)
    ensures ShouldFallBack(index, tag) <==> Problematic(servers, tag)
  {
  }

  method RewriteRule(rule: Rule, localTag: string, index: map<string, Server>, ghost servers: seq<Server>)
      returns (r: Rule)
    requires Indexes(index, servers) && localTag == LocalTag(servers)
    ensures r == TurnedRule(servers, rule)
    decreases rule, 0
  {
    hide LocalTag, Indexes, Problematic, ShouldFallBack;
    match rule.kind {
      case Logical =>
        var rules := RewriteRules(rule.logical.rules, localTag, index, servers);
        r := rule.(logical := rule.logical.(rules := rules));
        IndexAgrees(index, servers, rule.logical.action.server);
        if ShouldFallBack(index, rule.logical.action.server) {
          r := r.(logical := r.logical.(action := r.logical.action.(server := localTag)));
        }
      case OtherKind(_) =>
        r := rule;
      case _ =>
        r := rule.(kind := Default);
        IndexAgrees(index, servers, rule.def.action.server);
        if ShouldFallBack(index, rule.def.action.server) {
          r := r.(def := r.def.(action := r.def.action.(server := localTag)));
        }
    }
  }

  method RewriteRules(rules: seq<Rule>, localTag: string, index: map<string, Server>, ghost servers: seq<Server>)
      returns (r: seq<Rule>)
    requires Indexes(index, servers) && localTag == LocalTag(servers)
    ensures r == TurnedRules(servers, rules)
    decreases rules, 1
  {
    hide LocalTag, Indexes, TurnedRule, TurnedRules;
    r := rules;
    assert r[..0] + TurnedRules(servers, rules[0..]) == TurnedRules(servers, rules) by {
      assert rules[0..] == rules;
    }
    for i := 0 to |rules|
      invariant |r| == |rules| && r[i..] == rules[i..]
      invariant TurnedRules(servers, rules) == r[..i] + TurnedRules(servers, rules[i..])
    {
      assert r[i] == rules[i] by {
        assert r[i] == r[i..][0] && rules[i] == rules[i..][0];
      }
      var rule := RewriteRule(r[i], localTag, index, servers);
      NextTurned(servers, rules, i, r[..i]);
      r := r[i := rule];
      assert r[..i + 1] == r[..i] + [rule];
    }
    NoneTurned(servers, rules);
    assert r[..|rules|] == r;
  }

  lemma NextTurned(servers: seq<Server>, rules: seq<Rule>, i: nat, done: seq<Rule>)
    requires i < |rules|
    ensures done + TurnedRules(servers, rules[i..]) == done + [TurnedRule(servers, rules[i])] +
      TurnedRules(servers, rules[i + 1..])
  {
    hide TurnedRule;
    assert rules[i..][1..] == rules[i + 1..];
  }

  lemma NoneTurned(servers: seq<Server>, rules: seq<Rule>)
    ensures TurnedRules(servers, rules[|rules|..]) == []
  {
  }
}
