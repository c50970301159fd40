/**
 Building a whole configuration: outbounds, DNS servers and rules, routing rules and rule sets, which name one
 another by tag.
 */
module Generate {
  import opened Words
  import opened ForceDirect

  datatype WarpMode = OverProxy | UnderProxy | OtherMode

  datatype InputKind = Proxy | Blocking | Group

  /** A given outbound; `key` is a WireGuard private key, and without `detour` it takes no dialling options. */
  datatype Input = Input(tag: string, kind: InputKind, key: Option<string>, detour: Option<string>,
    server: Option<string>)

  datatype Settings = Settings(
    warp: bool, mode: WarpMode, warpKey: string, warpValid: bool,
    remote: DnsAddress, direct: DnsAddress, fakeDns: bool, dnsRouting: bool, testHost: Option<string>, ntp: bool,
    blockAds: bool, cn: bool, bypassLan: bool, blockQuic: bool)

  /** What a routing rule asks of a connection besides its rule sets. */
  datatype Test =
    | NoTest | FromDnsInbound | ToPort(port: nat) | InTestNet | ToPrivate | ToName(name: string) | ToUdpPort(port: nat)

  /** A rule without an outbound hands the connection to DNS. */
  datatype RouteRule = RouteRule(ruleSets: seq<string>, test: Test, outbound: string)

  datatype Config = Config(
    outbounds: seq<Outbound>, servers: seq<DnsServer>, dnsRules: seq<DnsRule>, dnsFinal: string,
    routeRules: seq<RouteRule>, routeFinal: string, ruleSets: seq<string>)

  const SELECT := "select"
  const AUTO := "auto"
  const BYPASS := "bypass \U{6402}hide\U{6402}"
  const BLOCK := "block \U{6402}hide\U{6402}"
  const FRAGMENT := "direct-fragment \U{6402}hide\U{6402}"
  const WARP := "Edgegate Warp"
  const HIDE_MARK := "\U{6402}hide\U{6402}"
  const DEFAULT_MARK := "\U{6402}default\U{6402}"
  const DNS_REMOTE := "dns-remote"
  const DNS_LOCAL := "dns-local"
  const DNS_TRICK := "dns-trick-direct"
  const DNS_FAKE := "dns-fake"
  const NTP_SERVER := "time.apple.com"

  predicate Predefined(tag: string) {
    tag in [DIRECT, BYPASS, BLOCK, SELECT, AUTO, FRAGMENT]
  }

  predicate Contains(s: string, part: string) {
    part <= s || (s != [] && Contains(s[1..], part))
  }

  // ----- what is generated -----

  /** WARP switches itself off when a given outbound already has its key. */
  predicate WarpOn(s: Settings, inputs: seq<Input>) {
    s.warp && forall i :: 0 <= i < |inputs| && inputs[i].key.Some? ==>
      inputs[i].key.value != s.warpKey && inputs[i].key.value != "p1"
  }

  /** Chosen before WARP may switch itself off. */
  function MainProxy(s: Settings): string {
    if s.warp && s.mode == OverProxy then WARP else SELECT
  }

  predicate Keeps(s: Settings, on: bool, input: Input) {
    && !Predefined(input.tag) && input.kind == Proxy
    && !(on && s.mode == OverProxy && input.tag == WARP)
    && input.tag !in ["direct", "bypass", "block"]
  }

  function Kept(s: Settings, on: bool, input: Input): Outbound {
    var detour :=
      if input.detour == None then ""
      else if on && s.mode == UnderProxy && input.detour.value == "" then WARP
      else input.detour.value;
    Outbound(input.tag, input.server, detour, [], "")
  }

  function AllKept(s: Settings, on: bool, inputs: seq<Input>): seq<Outbound> {
    if inputs == [] then []
    else
      var last := inputs[|inputs| - 1];
      AllKept(s, on, inputs[..|inputs| - 1]) + if Keeps(s, on, last) then [Kept(s, on, last)] else []
  }

  /** The tags to choose from. */
  function Shown(outbounds: seq<Outbound>): (tags: seq<string>)
    ensures forall t :: t in tags ==> exists i :: 0 <= i < |outbounds| && outbounds[i].tag == t
  {
    if outbounds == [] then []
    else
      var last := outbounds[|outbounds| - 1].tag;
      assert outbounds[|outbounds| - 1].tag == last;
      Shown(outbounds[..|outbounds| - 1]) + if Contains(last, HIDE_MARK) then [] else [last]
  }

  function DefaultFor(tags: seq<string>): string {
    if exists i :: 0 <= i < |tags| && Contains(tags[i], DEFAULT_MARK) then DEFAULT_MARK else AUTO
  }

  function WarpOutbound(s: Settings): Outbound {
    Outbound(WARP, None, if s.mode == OverProxy then SELECT else DIRECT, [], "")
  }

  function Plain(tag: string): Outbound {
    Outbound(tag, None, "", [], "")
  }

  function Outbounds(s: Settings, inputs: seq<Input>): seq<Outbound> {
    var on := WarpOn(s, inputs);
    var kept := AllKept(s, on, inputs);
    var tags := Shown(kept);
    [Outbound(SELECT, None, "", [AUTO] + tags, DefaultFor(tags)), Outbound(AUTO, None, "", tags, "")]
    + (if on && s.mode != OtherMode then [WarpOutbound(s)] else []) + kept
    + [Plain(DIRECT), Plain(FRAGMENT), Plain(BYPASS), Plain(BLOCK)]
  }

  function RuleSets(): seq<string> {
    ["geoip-cn", "geosite-cn", "geosite-category-ads-all", "geosite-geolocation-cn",
     "geosite-geolocation-!cn", "geosite-netease", "geosite-bilibili"]
  }

  function When<T>(yes: bool, items: seq<T>): seq<T> {
    if yes then items else []
  }

  function FirstRules(s: Settings): seq<RouteRule> {
    [RouteRule([], FromDnsInbound, ""), RouteRule([], ToPort(53), ""), RouteRule([], InTestNet, MainProxy(s))]
  }

  function RegionRules(cn: bool): seq<RouteRule> {
    var cnSites := ["geosite-cn", "geosite-geolocation-cn", "geosite-netease", "geosite-bilibili"];
    if cn then
      [RouteRule(["geoip-cn"], NoTest, SELECT), RouteRule(cnSites, NoTest, SELECT),
        RouteRule(["geosite-geolocation-!cn"], NoTest, DIRECT)]
    else
      [RouteRule(["geosite-geolocation-!cn"], NoTest, SELECT), RouteRule(["geoip-cn"], NoTest, DIRECT),
        RouteRule(cnSites, NoTest, DIRECT)]
  }

  function AdRule(): RouteRule { RouteRule(["geosite-category-ads-all"], NoTest, BLOCK) }

  function LanRule(): RouteRule { RouteRule([], ToPrivate, BYPASS) }

  function NtpRule(): RouteRule { RouteRule([], ToName(NTP_SERVER), DIRECT) }

  function QuicRule(): RouteRule { RouteRule([], ToUdpPort(443), BLOCK) }

  function RouteRules(s: Settings): seq<RouteRule> {
    FirstRules(s) + When(s.blockAds, [AdRule()]) + RegionRules(s.cn) + When(s.bypassLan, [LanRule()])
    + When(s.ntp, [NtpRule()]) + When(s.blockQuic, [QuicRule()])
  }

  /** Rules for the test host and for the time server. */
  function NamedRules(s: Settings): seq<DnsRule> {
    (if s.testHost.Some? then [DnsRule([s.testHost.value], 0, DNS_REMOTE)] else [])
    + When(s.ntp, [DnsRule([NTP_SERVER], 0, DNS_DIRECT)])
  }

  function DnsRules(s: Settings): seq<DnsRule> {
    When(s.dnsRouting, NamedRules(s)) + When(s.fakeDns, [DnsRule([], 1, DNS_FAKE)])
  }

  /** Remote and direct DNS must be understood. */
  function Servers(s: Settings): seq<DnsServer>
    requires s.remote != Invalid && s.direct != Invalid
  {
    [BuildServer(DNS_REMOTE, s.remote, DNS_DIRECT, MainProxy(s)).value,
     DnsServer(DNS_TRICK, FRAGMENT, DNS_DIRECT),
     BuildServer(DNS_DIRECT, s.direct, DNS_LOCAL, FRAGMENT).value,
     DnsServer(DNS_LOCAL, DIRECT, "")]
    + (if s.fakeDns then [DnsServer(DNS_FAKE, "", "")] else [])
  }

  predicate Succeeds(s: Settings, inputs: seq<Input>) {
    s.remote != Invalid && s.direct != Invalid && (WarpOn(s, inputs) && s.mode != OtherMode ==> s.warpValid)
  }

  /** A configuration that the generator may build; only the order of the forced rules and their servers is open. */
  ghost predicate Built(s: Settings, inputs: seq<Input>, isIp: string -> bool, c: Config,
                        detours: map<string, string>, order: seq<string>, forced: seq<DnsRule>)
  {
    && Succeeds(s, inputs)
    && Collected(Outbounds(s, inputs), isIp, detours) && Forced(forced, order, detours)
    && c == Config(Outbounds(s, inputs), Servers(s) + NewServers(order, s.remote), forced + DnsRules(s), DNS_REMOTE,
                   RouteRules(s), DIRECT, RuleSets())
  }

  // ----- building it -----

  class Builder {
    var outbounds: seq<Outbound>
    var dns: DnsOptions
    var routeRules: seq<RouteRule>
    var warp: bool

    constructor (warp: bool)
      ensures fresh(dns) && this.warp == warp
    {
      outbounds, routeRules := [], [];
      dns := new DnsOptions([], []);
      this.warp := warp;
    }

    method SetDns(s: Settings) returns (ok: bool)
      modifies this`dns
      ensures ok <==> s.remote != Invalid && s.direct != Invalid
      ensures ok ==> fresh(dns) && dns.servers == Servers(s.(fakeDns := false)) && dns.rules == []
    {
      var remote := BuildServer(DNS_REMOTE, s.remote, DNS_DIRECT, MainProxy(s));
      if remote == None {
        return false;
      }
      var direct := BuildServer(DNS_DIRECT, s.direct, DNS_LOCAL, FRAGMENT);
      if direct == None {
        return false;
      }
      dns := new DnsOptions([remote.value, DnsServer(DNS_TRICK, FRAGMENT, DNS_DIRECT), direct.value,
        DnsServer(DNS_LOCAL, DIRECT, "")], []);
      ok := true;
    }

    method SetRouting(s: Settings)
      modifies this`routeRules, dns
      ensures routeRules == RouteRules(s)
      ensures dns.rules == old(dns.rules) + When(s.dnsRouting, NamedRules(s)) && dns.servers == old(dns.servers)
    {
      var dnsRules: seq<DnsRule> := [];
      hide AdRule, LanRule, NtpRule, QuicRule, RegionRules, FirstRules;
      var rules := FirstRules(s);
      if s.blockAds {
        rules := rules + [AdRule()];
      }
      rules := rules + RegionRules(s.cn);
      if s.bypassLan {
        rules := rules + [LanRule()];
      }
      if s.testHost.Some? {
        dnsRules := dnsRules + [DnsRule([s.testHost.value], 0, DNS_REMOTE)];
      }
      if s.ntp {
        dnsRules := dnsRules + [DnsRule([NTP_SERVER], 0, DNS_DIRECT)];
        rules := rules + [NtpRule()];
      }
      if s.blockQuic {
        rules := rules + [QuicRule()];
      }
      routeRules := rules;
      if s.dnsRouting {
        dns.rules := dns.rules + dnsRules;
      }
    }

    /** A key that is there already switches WARP off for good. */
    method SetOutbounds(s: Settings, inputs: seq<Input>) returns (ok: bool)
      requires warp == s.warp
      modifies this`outbounds, this`warp
      ensures warp == WarpOn(s, inputs)
      ensures ok <==> (warp && s.mode != OtherMode ==> s.warpValid)
      ensures ok ==> outbounds == Outbounds(s, inputs)
    {
      if warp {
        for i := 0 to |inputs|
          invariant warp && forall j :: 0 <= j < i && inputs[j].key.Some? ==>
            inputs[j].key.value != s.warpKey && inputs[j].key.value != "p1"
        {
          if inputs[i].key.Some? && (inputs[i].key.value == s.warpKey || inputs[i].key.value == "p1") {
            warp := false;
            break;
          }
        }
      }
      var first: seq<Outbound> := [];
      if warp && (s.mode == OverProxy || s.mode == UnderProxy) {
        if !s.warpValid {
          return false;
        }
        first := [WarpOutbound(s)];
      }
      var kept, tags := KeepInputs(s, warp, inputs);
      var default := AUTO;
      for i := 0 to |tags|
        invariant default == if exists j :: 0 <= j < i && Contains(tags[j], DEFAULT_MARK) then DEFAULT_MARK else AUTO
      {
        if Contains(tags[i], DEFAULT_MARK) {
          default := DEFAULT_MARK;
        }
      }
      var selector := Outbound(SELECT, None, "", [AUTO] + tags, default);
      var urlTest := Outbound(AUTO, None, "", tags, "");
      outbounds := [selector, urlTest] + first + kept + [Plain(DIRECT), Plain(FRAGMENT), Plain(BYPASS), Plain(BLOCK)];
      ok := true;
    }

    method KeepInputs(s: Settings, on: bool, inputs: seq<Input>) returns (kept: seq<Outbound>, tags: seq<string>)
      ensures kept == AllKept(s, on, inputs) && tags == Shown(kept)
    {
      kept, tags := [], [];
      hide Keeps, Kept, Contains;
      for i := 0 to |inputs|
        invariant kept == AllKept(s, on, inputs[..i]) && tags == Shown(kept)
      {
        assert inputs[..i + 1][..i] == inputs[..i];
        if Keeps(s, on, inputs[i]) {
          var outbound := Kept(s, on, inputs[i]);
          assert (kept + [outbound])[..|kept|] == kept;
          if !Contains(outbound.tag, HIDE_MARK) {
            tags := tags + [outbound.tag];
          }
          kept := kept + [outbound];
        }
      }
      assert inputs[..|inputs|] == inputs;
    }

    /** Everything but the forced rules. */
    method Fill(s: Settings, inputs: seq<Input>) returns (ok: bool)
      requires warp == s.warp
      modifies this
      ensures ok <==> Succeeds(s, inputs)
      ensures ok ==> fresh(dns) && dns.servers == Servers(s) && dns.rules == DnsRules(s)
      ensures ok ==> outbounds == Outbounds(s, inputs) && routeRules == RouteRules(s)
    {
      hide *;
      FakeDnsLast(s);
      FakeRuleLast(s);
      SucceedsWhen(s, inputs);
      ok := SetDns(s);
      if !ok {
        return;
      }
      SetRouting(s);
      assert dns.rules == When(s.dnsRouting, NamedRules(s));
      ok := SetOutbounds(s, inputs);
      if !ok {
        return;
      }
      SetFakeDns(s);
    }

    method SetFakeDns(s: Settings)
      modifies dns
      ensures dns.servers == old(dns.servers) + if s.fakeDns then [DnsServer(DNS_FAKE, "", "")] else []
      ensures dns.rules == old(dns.rules) + if s.fakeDns then [DnsRule([], 1, DNS_FAKE)] else []
    {
      if s.fakeDns {
        dns.servers := dns.servers + [DnsServer(DNS_FAKE, "", "")];
        dns.rules := dns.rules + [DnsRule([], 1, DNS_FAKE)];
      }
    }
  }

  lemma FakeDnsLast(s: Settings)
    ensures s.remote != Invalid && s.direct != Invalid ==>
      Servers(s) == Servers(s.(fakeDns := false)) + if s.fakeDns then [DnsServer(DNS_FAKE, "", "")] else []
  {
  }

  lemma FakeRuleLast(s: Settings)
    ensures DnsRules(s) == When(s.dnsRouting, NamedRules(s)) + if s.fakeDns then [DnsRule([], 1, DNS_FAKE)] else []
  {
    hide NamedRules;
  }

  lemma SucceedsWhen(s: Settings, inputs: seq<Input>)
    ensures Succeeds(s, inputs) <==>
      s.remote != Invalid && s.direct != Invalid && (WarpOn(s, inputs) && s.mode != OtherMode ==> s.warpValid)
  {
    hide WarpOn;
  }

  /** The parts, put together, are a configuration that may be built. */
  lemma Assembled(s: Settings, inputs: seq<Input>, isIp: string -> bool, c: Config,
                  detours: map<string, string>, order: seq<string>, forced: seq<DnsRule>)
    requires Succeeds(s, inputs)
    requires Collected(Outbounds(s, inputs), isIp, detours) && Forced(forced, order, detours)
    requires c.outbounds == Outbounds(s, inputs) && c.servers == Servers(s) + NewServers(order, s.remote)
    requires c.dnsRules == forced + DnsRules(s) && c.dnsFinal == DNS_REMOTE
    requires c.routeRules == RouteRules(s) && c.routeFinal == DIRECT && c.ruleSets == RuleSets()
    ensures Built(s, inputs, isIp, c, detours, order, forced)
  {
    hide Succeeds, Collected, Outbounds, Forced, Servers, NewServers, DnsRules, RouteRules, RuleSets;
  }

  method GenerateOptions(s: Settings, inputs: seq<Input>, isIp: string -> bool)
      returns (ok: bool, c: Config, ghost detours: map<string, string>, ghost order: seq<string>,
        ghost forced: seq<DnsRule>)
    ensures ok <==> Succeeds(s, inputs)
    ensures ok ==> Built(s, inputs, isIp, c, detours, order, forced)
  {
    hide *;
    detours, order, forced := map[], [], [];
    c := Config([], [], [], "", [], "", []);
    var b := new Builder(s.warp);
    SucceedsWhen(s, inputs);
    ok := b.Fill(s, inputs);
    if !ok {
      return;
    }
    ok, detours, order, forced := b.dns.AddForceDirect(b.outbounds, isIp, s.remote);
    c := Config(b.outbounds, b.dns.servers, b.dns.rules, DNS_REMOTE, b.routeRules, DIRECT, RuleSets());
    Assembled(s, inputs, isIp, c, detours, order, forced);
  }
}
