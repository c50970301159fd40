/** Where a generated configuration sends connections, and over what its outbounds and DNS servers dial. */
module Decisions {
  import opened Words
  import opened ForceDirect
  import opened Generate
  import References

  // ----- connections -----

  /** What the generated rules can tell of a connection; `sets` are the rule sets it is in. */
  datatype Connection = Connection(fromDns: bool, port: nat, udp: bool, name: string, inTestNet: bool, isPrivate: bool,
                                   sets: set<string>)

  predicate Passes(c: Connection, test: Test) {
    match test
    case NoTest => true
    case FromDnsInbound => c.fromDns
    case ToPort(port) => c.port == port
    case InTestNet => c.inTestNet
    case ToPrivate => c.isPrivate
    case ToName(name) => c.name == name
    case ToUdpPort(port) => c.udp && c.port == port
  }

  predicate InSome(c: Connection, sets: seq<string>) {
    exists t :: t in sets && t in c.sets
  }

  predicate Meets(c: Connection, r: RouteRule) {
    Passes(c, r.test) && (r.ruleSets == [] || InSome(c, r.ruleSets))
  }

  /** The first rule that the connection meets decides. */
  function Decided(c: Connection, rules: seq<RouteRule>, final: string): string {
    if rules == [] then final
    else if Meets(c, rules[0]) then rules[0].outbound
    else Decided(c, rules[1..], final)
  }

  lemma {:induction false} DecidedConcat(c: Connection, a: seq<RouteRule>, b: seq<RouteRule>, final: string)
    ensures Decided(c, a + b, final) == Decided(c, a, Decided(c, b, final))
    decreases |a|
  {
    hide Meets;
    if a == [] {
      assert a + b == b;
    } else {
      assert (a + b)[1..] == a[1..] + b;
      DecidedConcat(c, a[1..], b, final);
    }
  }

  lemma DecidedWhen(c: Connection, yes: bool, r: RouteRule, final: string)
    ensures Decided(c, When(yes, [r]), final) == if yes && Meets(c, r) then r.outbound else final
  {
    hide Meets;
    assert [r][1..] == [];
  }

  /** A connection in these sets is one for China. */
  predicate Chinese(c: Connection) {
    || "geoip-cn" in c.sets || "geosite-cn" in c.sets || "geosite-geolocation-cn" in c.sets
    || "geosite-netease" in c.sets || "geosite-bilibili" in c.sets
  }

  predicate Foreign(c: Connection) {
    "geosite-geolocation-!cn" in c.sets
  }

  lemma FirstDecide(c: Connection, s: Settings, final: string)
    ensures Decided(c, FirstRules(s), final) ==
      if c.fromDns || c.port == 53 then ""
      else if c.inTestNet then if s.warp && s.mode == OverProxy then "Edgegate Warp" else "select"
      else final
  {
    DecidedThree(c, FirstRules(s)[0], FirstRules(s)[1], FirstRules(s)[2], final);
  }

  lemma DecidedThree(c: Connection, x: RouteRule, y: RouteRule, z: RouteRule, final: string)
    ensures Decided(c, [x, y, z], final) ==
      if Meets(c, x) then x.outbound else if Meets(c, y) then y.outbound else if Meets(c, z) then z.outbound else final
  {
    hide Meets;
    assert [x, y, z][1..] == [y, z] && [y, z][1..] == [z] && [z][1..] == [];
    assert Decided(c, [z], final) == if Meets(c, z) then z.outbound else final;
    assert Decided(c, [y, z], final) == if Meets(c, y) then y.outbound else Decided(c, [z], final);
  }

  lemma RegionDecides(c: Connection, cn: bool, final: string)
    ensures Decided(c, RegionRules(cn), final) ==
      if cn then (if Chinese(c) then "select" else if Foreign(c) then DIRECT else final)
      else if Foreign(c) then "select" else if Chinese(c) then DIRECT else final
  {
    hide Decided, Meets, Chinese, Foreign;
    SetsMet(c, cn);
    var r := RegionRules(cn);
    DecidedThree(c, r[0], r[1], r[2], final);
    assert r == [r[0], r[1], r[2]];
  }

  lemma SetsMet(c: Connection, cn: bool)
    ensures var r := RegionRules(cn);
      if cn then (Meets(c, r[0]) || Meets(c, r[1]) <==> Chinese(c)) && (Meets(c, r[2]) <==> Foreign(c))
      else (Meets(c, r[0]) <==> Foreign(c)) && (Meets(c, r[1]) || Meets(c, r[2]) <==> Chinese(c))
  {
  }

  /**
   The outbound that a generated configuration gives each connection: DNS first, then the test network, ads, the
   region, the local network, the time server and QUIC, as far as they are switched on; and directly otherwise.
   */
  lemma RouteDecision(c: Connection, s: Settings)
    ensures Decided(c, RouteRules(s), DIRECT) ==
      if c.fromDns || c.port == 53 then ""
      else if c.inTestNet then (if s.warp && s.mode == OverProxy then "Edgegate Warp" else "select")
      else if s.blockAds && "geosite-category-ads-all" in c.sets then BLOCK
      else if s.cn && Chinese(c) then "select"
      else if s.cn && Foreign(c) then DIRECT
      else if !s.cn && Foreign(c) then "select"
      else if !s.cn && Chinese(c) then DIRECT
      else if s.bypassLan && c.isPrivate then BYPASS
      else if s.ntp && c.name == "time.apple.com" then DIRECT
      else if s.blockQuic && c.udp && c.port == 443 then BLOCK
      else DIRECT
  {
    hide Decided, Meets, FirstRules, AdRule, RegionRules, LanRule, NtpRule, QuicRule, When, Chinese, Foreign;
    var ads, region, lan := When(s.blockAds, [AdRule()]), RegionRules(s.cn), When(s.bypassLan, [LanRule()]);
    var ntp, quic := When(s.ntp, [NtpRule()]), When(s.blockQuic, [QuicRule()]);
    DecidedConcat(c, FirstRules(s) + ads + region + lan + ntp, quic, DIRECT);
    var d1 := Decided(c, quic, DIRECT);
    DecidedConcat(c, FirstRules(s) + ads + region + lan, ntp, d1);
    var d2 := Decided(c, ntp, d1);
    DecidedConcat(c, FirstRules(s) + ads + region, lan, d2);
    var d3 := Decided(c, lan, d2);
    DecidedConcat(c, FirstRules(s) + ads, region, d3);
    var d4 := Decided(c, region, d3);
    DecidedConcat(c, FirstRules(s), ads, d4);
    DecidedWhen(c, s.blockQuic, QuicRule(), DIRECT);
    DecidedWhen(c, s.ntp, NtpRule(), d1);
    DecidedWhen(c, s.bypassLan, LanRule(), d2);
    DecidedWhen(c, s.blockAds, AdRule(), d4);
    RegionDecides(c, s.cn, d3);
    FirstDecide(c, s, Decided(c, ads, d4));
    SingleRules(c);
  }

  lemma SingleRules(c: Connection)
    ensures AdRule().outbound == BLOCK && (Meets(c, AdRule()) <==> "geosite-category-ads-all" in c.sets)
    ensures LanRule().outbound == BYPASS && (Meets(c, LanRule()) <==> c.isPrivate)
    ensures NtpRule().outbound == DIRECT && (Meets(c, NtpRule()) <==> c.name == "time.apple.com")
    ensures QuicRule().outbound == BLOCK && (Meets(c, QuicRule()) <==> c.udp && c.port == 443)
  {
  }

  /** A connection to the local network that meets nothing else bypasses the proxies exactly when asked for. */
  lemma LocalNetwork(c: Connection, s: Settings)
    requires c.isPrivate && !c.fromDns && c.port != 53 && c.port != 443 && !c.inTestNet && c.sets == {} && c.name == ""
    ensures Decided(c, RouteRules(s), DIRECT) == if s.bypassLan then BYPASS else DIRECT
  {
    hide Decided, RouteRules;
    RouteDecision(c, s);
  }

  // ----- what outbounds and DNS servers dial over -----

  /** WARP in front of the proxies dials over the selected one, and behind them directly. */
  lemma WarpDials(s: Settings, inputs: seq<Input>)
    requires WarpOn(s, inputs)
    ensures s.mode == OverProxy ==> Outbound("Edgegate Warp", None, "select", [], "") in Outbounds(s, inputs)
    ensures s.mode == UnderProxy ==> Outbound("Edgegate Warp", None, DIRECT, [], "") in Outbounds(s, inputs)
    ensures s.mode == OtherMode ==>
      forall o :: o in Outbounds(s, inputs) && o.tag == "Edgegate Warp" ==> o in AllKept(s, true, inputs)
  {
    hide AllKept, Shown, DefaultFor, WarpOn;
    if s.mode != OtherMode {
      assert Outbounds(s, inputs)[2] == WarpOutbound(s);
    }
  }

  /** A kept outbound dials over its own detour; one that may have a detour but names none goes under WARP. */
  lemma KeptDial(s: Settings, inputs: seq<Input>, i: nat)
    requires i < |inputs| && Keeps(s, WarpOn(s, inputs), inputs[i])
    ensures var input := inputs[i];
      exists o :: o in Outbounds(s, inputs) && o.tag == input.tag && o.server == input.server &&
        o.detour ==
          if input.detour == None then ""
          else if input.detour.value != "" then input.detour.value
          else if WarpOn(s, inputs) && s.mode == UnderProxy then "Edgegate Warp" else ""
  {
    hide Outbounds, Keeps, WarpOn, AllKept, Shown, DefaultFor;
    var o := Kept(s, WarpOn(s, inputs), inputs[i]);
    References.KeptFrom(s, WarpOn(s, inputs), inputs, o);
    References.KeptTags(s, inputs);
    assert o in Outbounds(s, inputs);
  }

  /** The servers there are, by tag, and over what each dials; a bare address takes no dialling options. */
  lemma ServersDial(s: Settings, d: DnsServer)
    requires s.remote != Invalid && s.direct != Invalid
    ensures d in Servers(s) <==>
      || d == DnsServer("dns-trick-direct", FRAGMENT, "dns-direct")
      || d == DnsServer("dns-local", DIRECT, "")
      || (s.fakeDns && d == DnsServer("dns-fake", "", ""))
      || (s.remote == Bare && d == DnsServer("dns-remote", "", ""))
      || (s.remote == Dialed && s.warp && s.mode == OverProxy &&
          d == DnsServer("dns-remote", "Edgegate Warp", "dns-direct"))
      || (s.remote == Dialed && !(s.warp && s.mode == OverProxy) &&
          d == DnsServer("dns-remote", "select", "dns-direct"))
      || (s.direct == Bare && d == DnsServer("dns-direct", "", ""))
      || (s.direct == Dialed && d == DnsServer("dns-direct", FRAGMENT, "dns-local"))
  {
    var all := Servers(s);
    assert d in all <==> d == all[0] || d == all[1] || d == all[2] || d == all[3] || (s.fakeDns && d == all[4]);
  }

  // ----- DNS queries -----

  /** The server of each query: that of a server name's detour, then test host, time server and fake DNS. */
  lemma QueryDecision(s: Settings, inputs: seq<Input>, isIp: string -> bool, q: Query,
                      c: Config, detours: map<string, string>, order: seq<string>, forced: seq<DnsRule>)
    requires Built(s, inputs, isIp, c, detours, order, forced)
    ensures Decide(q, c.dnsRules, c.dnsFinal) ==
      match DetourOf(c.outbounds, isIp, q.domain)
      case Some(detour) => if detour == DIRECT then "dns-direct" else "dns-" + detour
      case None =>
        if s.dnsRouting && s.testHost == Some(q.domain) then "dns-remote"
        else if s.dnsRouting && s.ntp && q.domain == "time.apple.com" then "dns-direct"
        else if s.fakeDns && q.meets(DnsRule([], 1, "dns-fake")) then "dns-fake"
        else "dns-remote"
  {
    hide Outbounds, NewServers, Servers, Forced, Decide, DnsRules, RouteRules, RuleSets, DetourOf;
    References.SameDecisions(s, inputs, isIp, q, c, detours, order, forced, c, detours, order, forced);
    RestDecides(s, q);
  }

  lemma RestDecides(s: Settings, q: Query)
    ensures Decide(q, DnsRules(s), DNS_REMOTE) ==
      if s.dnsRouting && s.testHost == Some(q.domain) then "dns-remote"
      else if s.dnsRouting && s.ntp && q.domain == "time.apple.com" then "dns-direct"
      else if s.fakeDns && q.meets(DnsRule([], 1, "dns-fake")) then "dns-fake"
      else "dns-remote"
  {
    hide Decide, Matches;
    var test := if s.testHost.Some? then [DnsRule([s.testHost.value], 0, DNS_REMOTE)] else [];
    var ntp, fake := DnsRule([NTP_SERVER], 0, DNS_DIRECT), DnsRule([], 1, DNS_FAKE);
    NamesMatch(q, if s.testHost.Some? then s.testHost.value else "");
    DecideConcat(q, When(s.dnsRouting, NamedRules(s)), When(s.fakeDns, [fake]), DNS_REMOTE);
    DecideConcat(q, test, When(s.ntp, [ntp]), Decide(q, When(s.fakeDns, [fake]), DNS_REMOTE));
    DecideNone(q, DNS_REMOTE);
    DecideOne(q, fake, DNS_REMOTE);
    var rest := Decide(q, When(s.fakeDns, [fake]), DNS_REMOTE);
    DecideNone(q, rest);
    DecideOne(q, ntp, rest);
    if s.testHost.Some? {
      DecideOne(q, test[0], Decide(q, When(s.ntp, [ntp]), rest));
    }
    DecideNone(q, Decide(q, When(s.ntp, [ntp]), rest));
  }

  lemma NamesMatch(q: Query, host: string)
    ensures Matches(q, DnsRule([host], 0, DNS_REMOTE)) <==> q.domain == host
    ensures Matches(q, DnsRule([NTP_SERVER], 0, DNS_DIRECT)) <==> q.domain == "time.apple.com"
    ensures Matches(q, DnsRule([], 1, DNS_FAKE)) <==> q.meets(DnsRule([], 1, "dns-fake"))
  {
  }

  lemma DecideNone(q: Query, final: string)
    ensures Decide(q, [], final) == final
  {
  }

  lemma DecideOne(q: Query, r: DnsRule, final: string)
    ensures Decide(q, [r], final) == if Matches(q, r) then r.server else final
  {
    hide Matches;
    assert [r][1..] == [];
  }

  lemma {:induction false} DecideConcat(q: Query, a: seq<DnsRule>, b: seq<DnsRule>, final: string)
    ensures Decide(q, a + b, final) == Decide(q, a, Decide(q, b, final))
    decreases |a|
  {
    hide Matches;
    if a == [] {
      assert a + b == b;
    } else {
      assert (a + b)[1..] == a[1..] + b;
      DecideConcat(q, a[1..], b, final);
    }
  }

  // ----- every tag is given out once -----

  predicate UniqueTags(outbounds: seq<Outbound>) {
    forall i, j :: 0 <= i < j < |outbounds| ==> outbounds[i].tag != outbounds[j].tag
  }

  ghost predicate UniqueKept(s: Settings, on: bool, inputs: seq<Input>) {
    forall i, j :: 0 <= i < j < |inputs| && Keeps(s, on, inputs[i]) && Keeps(s, on, inputs[j]) ==>
      inputs[i].tag != inputs[j].tag
  }

  lemma {:induction false} UniqueKeptExactly(s: Settings, on: bool, inputs: seq<Input>)
    ensures UniqueTags(AllKept(s, on, inputs)) <==> UniqueKept(s, on, inputs)
    decreases |inputs|
  {
    hide Keeps;
    if inputs != [] {
      var front, last := inputs[..|inputs| - 1], inputs[|inputs| - 1];
      UniqueKeptExactly(s, on, front);
      UniqueKeptLast(s, on, inputs);
      assert front == inputs[..|inputs| - 1];
      if Keeps(s, on, last) {
        LastIsNew(s, on, front, last);
        assert AllKept(s, on, inputs) == AllKept(s, on, front) + [Kept(s, on, last)];
      } else {
        assert AllKept(s, on, inputs) == AllKept(s, on, front);
      }
    }
  }

  lemma UniqueKeptLast(s: Settings, on: bool, inputs: seq<Input>)
    requires inputs != []
    ensures var n := |inputs| - 1;
      UniqueKept(s, on, inputs) <==>
        && UniqueKept(s, on, inputs[..n])
        && (Keeps(s, on, inputs[n]) ==>
          forall i :: 0 <= i < n && Keeps(s, on, inputs[..n][i]) ==> inputs[..n][i].tag != inputs[n].tag)
  {
    hide Keeps;
    var n := |inputs| - 1;
    assert forall i :: 0 <= i < n ==> inputs[..n][i] == inputs[i];
  }

  lemma LastIsNew(s: Settings, on: bool, front: seq<Input>, last: Input)
    requires Keeps(s, on, last)
    ensures UniqueTags(AllKept(s, on, front) + [Kept(s, on, last)]) <==>
      && UniqueTags(AllKept(s, on, front))
      && forall i :: 0 <= i < |front| && Keeps(s, on, front[i]) ==> front[i].tag != last.tag
  {
    hide Keeps;
    var kept := AllKept(s, on, front);
    forall i | 0 <= i < |front| && Keeps(s, on, front[i]) && front[i].tag == last.tag
      ensures exists k :: 0 <= k < |kept| && kept[k].tag == last.tag
    {
      References.KeptFrom(s, on, front, Kept(s, on, front[i]));
      var k :| 0 <= k < |kept| && kept[k] == Kept(s, on, front[i]);
    }
    forall k | 0 <= k < |kept| && kept[k].tag == last.tag
      ensures exists i :: 0 <= i < |front| && Keeps(s, on, front[i]) && front[i].tag == last.tag
    {
      References.KeptFrom(s, on, front, kept[k]);
    }
    var all := kept + [Kept(s, on, last)];
    assert all[|kept|].tag == last.tag;
    assert forall k :: 0 <= k < |kept| ==> all[k] == kept[k];
  }

  /**
   No two generated outbounds have one tag exactly when no two kept ones have, and none of them is called WARP
   while WARP is put behind the proxies.
   */
  lemma TagsAreUnique(s: Settings, inputs: seq<Input>)
    ensures UniqueTags(Outbounds(s, inputs)) <==>
      && UniqueKept(s, WarpOn(s, inputs), inputs)
      && (WarpOn(s, inputs) && s.mode == UnderProxy ==> !References.KeptTag(s, inputs, "Edgegate Warp"))
  {
    hide *;
    var groups, warp, rest := Parts(s, inputs);
    var on := WarpOn(s, inputs);
    var kept := AllKept(s, on, inputs);
    UniqueKeptExactly(s, on, inputs);
    References.KeptTagOf(s, inputs, WARP);
    forall o | o in kept ensures FreeTag(s, on, o.tag) {
      References.KeptFrom(s, on, inputs, o);
      KeptIsFree(s, on, inputs);
    }
    UniqueConcat(groups + warp + kept, rest);
    UniqueConcat(groups + warp, kept);
    UniqueConcat(groups, warp);
    FixedAreUnique(groups, warp, rest);
    FreeFromFixed(s, on, groups, warp, kept, rest);
    WarpName();
  }

  lemma WarpName()
    ensures WARP == "Edgegate Warp"
  {
  }

  lemma Parts(s: Settings, inputs: seq<Input>) returns (groups: seq<Outbound>, warp: seq<Outbound>, rest: seq<Outbound>)
    ensures Outbounds(s, inputs) == groups + warp + AllKept(s, WarpOn(s, inputs), inputs) + rest
    ensures |groups| == 2 && groups[0].tag == SELECT && groups[1].tag == AUTO
    ensures if WarpOn(s, inputs) && s.mode != OtherMode then |warp| == 1 && warp[0].tag == WARP else warp == []
    ensures rest == [Plain(DIRECT), Plain(FRAGMENT), Plain(BYPASS), Plain(BLOCK)]
  {
    hide AllKept, Shown, DefaultFor, WarpOn;
    var on := WarpOn(s, inputs);
    var tags := Shown(AllKept(s, on, inputs));
    groups := [Outbound(SELECT, None, "", [AUTO] + tags, DefaultFor(tags)), Outbound(AUTO, None, "", tags, "")];
    warp := if on && s.mode != OtherMode then [WarpOutbound(s)] else [];
    rest := [Plain(DIRECT), Plain(FRAGMENT), Plain(BYPASS), Plain(BLOCK)];
  }

  /** A kept outbound shares its tag with no generated one but with WARP behind the proxies. */
  lemma FreeFromFixed(s: Settings, on: bool, groups: seq<Outbound>, warp: seq<Outbound>, kept: seq<Outbound>,
                      rest: seq<Outbound>)
    requires forall o :: o in kept ==> FreeTag(s, on, o.tag)
    requires |groups| == 2 && groups[0].tag == SELECT && groups[1].tag == AUTO
    requires if on && s.mode != OtherMode then |warp| == 1 && warp[0].tag == WARP else warp == []
    requires rest == [Plain(DIRECT), Plain(FRAGMENT), Plain(BYPASS), Plain(BLOCK)]
    ensures forall x, y :: x in groups + warp + kept && y in rest ==> x in groups + warp || x.tag != y.tag
    ensures (forall x, y :: x in groups + warp && y in kept ==> x.tag != y.tag) <==>
      (on && s.mode == UnderProxy ==> forall o :: o in kept ==> o.tag != WARP)
  {
  }

  /** No fixed tag, nor WARP's when it is in front. */
  predicate FreeTag(s: Settings, on: bool, tag: string) {
    && tag != SELECT && tag != AUTO && tag != DIRECT && tag != FRAGMENT && tag != BYPASS && tag != BLOCK
    && (on && s.mode == OverProxy ==> tag != WARP)
  }

  lemma KeptIsFree(s: Settings, on: bool, inputs: seq<Input>)
    ensures forall i :: 0 <= i < |inputs| && Keeps(s, on, inputs[i]) ==> FreeTag(s, on, Kept(s, on, inputs[i]).tag)
  {
  }

  lemma UniqueConcat(a: seq<Outbound>, b: seq<Outbound>)
    ensures UniqueTags(a + b) <==>
      UniqueTags(a) && UniqueTags(b) && forall x, y :: x in a && y in b ==> x.tag != y.tag
  {
    if UniqueTags(a + b) {
      assert forall i :: 0 <= i < |a| ==> (a + b)[i] == a[i];
      assert forall i :: 0 <= i < |b| ==> (a + b)[|a| + i] == b[i];
    }
  }

  /** Every tag of these lists is another. */
  lemma UniqueApart(groups: seq<Outbound>, warp: seq<Outbound>, rest: seq<Outbound>)
    requires |groups| == 2 && |warp| <= 1 && |rest| == 4
    requires groups[0].tag != groups[1].tag
    requires forall i, j :: 0 <= i < j < 4 ==> rest[i].tag != rest[j].tag
    requires forall i, j :: 0 <= i < 2 && 0 <= j < |warp| ==> groups[i].tag != warp[j].tag
    requires forall i, j :: 0 <= i < 2 && 0 <= j < 4 ==> groups[i].tag != rest[j].tag
    requires forall i, j :: 0 <= i < |warp| && 0 <= j < 4 ==> warp[i].tag != rest[j].tag
    ensures UniqueTags(groups) && UniqueTags(warp) && UniqueTags(rest)
    ensures forall x, y :: x in groups && y in warp ==> x.tag != y.tag
    ensures forall x, y :: x in groups + warp && y in rest ==> x.tag != y.tag
  {
  }

  lemma FixedTagsDiffer()
    ensures SELECT != AUTO && SELECT != WARP && AUTO != WARP
    ensures SELECT !in {DIRECT, FRAGMENT, BYPASS, BLOCK}
    ensures AUTO !in {DIRECT, FRAGMENT, BYPASS, BLOCK}
    ensures WARP !in {DIRECT, FRAGMENT, BYPASS, BLOCK}
    ensures DIRECT != FRAGMENT && DIRECT != BYPASS && DIRECT != BLOCK
    ensures FRAGMENT != BYPASS && FRAGMENT != BLOCK && BYPASS != BLOCK
  {
    assert SELECT[0] == 's' && AUTO[0] == 'a' && WARP[0] == 'E';
    assert DIRECT[0] == 'd' && FRAGMENT[0] == 'd' && BYPASS[0] == 'b' && BLOCK[0] == 'b';
    assert DIRECT[6] == ' ' && FRAGMENT[6] == '-' && BYPASS[1] == 'y' && BLOCK[1] == 'l';
  }

  lemma FixedAreUnique(groups: seq<Outbound>, warp: seq<Outbound>, rest: seq<Outbound>)
    requires |groups| == 2 && groups[0].tag == SELECT && groups[1].tag == AUTO
    requires warp == [] || (|warp| == 1 && warp[0].tag == WARP)
    requires rest == [Plain(DIRECT), Plain(FRAGMENT), Plain(BYPASS), Plain(BLOCK)]
    ensures UniqueTags(groups) && UniqueTags(warp) && UniqueTags(rest)
    ensures forall x, y :: x in groups && y in warp ==> x.tag != y.tag
    ensures forall x, y :: x in groups + warp && y in rest ==> x.tag != y.tag
  {
    FixedTagsDiffer();
    assert rest[0].tag == DIRECT && rest[1].tag == FRAGMENT && rest[2].tag == BYPASS && rest[3].tag == BLOCK;
    UniqueApart(groups, warp, rest);
  }

  // ----- what is kept and shown -----

  /** For one, a kept outbound that is given twice. */
  lemma GivenTwice(s: Settings, input: Input)
    requires Keeps(s, WarpOn(s, [input, input]), input)
    ensures !UniqueTags(Outbounds(s, [input, input]))
  {
    hide Outbounds, Keeps, WarpOn, UniqueTags;
    var inputs := [input, input];
    TagsAreUnique(s, inputs);
    assert inputs[0].tag == inputs[1].tag && Keeps(s, WarpOn(s, inputs), inputs[0]);
  }

  /** Which given outbounds are kept, by kind and tag. */
  lemma KeepsExactly(s: Settings, on: bool, input: Input)
    ensures Keeps(s, on, input) <==>
      && input.kind == Proxy
      && input.tag !in {"select", "auto", DIRECT, BYPASS, BLOCK, FRAGMENT, "direct", "bypass", "block"}
      && !(on && s.mode == OverProxy && input.tag == "Edgegate Warp")
  {
  }

  /** A text contains another when that stands somewhere in it. */
  lemma {:induction false} ContainsExactly(text: string, part: string)
    ensures Contains(text, part) <==> exists i :: 0 <= i <= |text| && part <= text[i..]
    decreases |text|
  {
    assert text[0..] == text;
    if text != "" {
      ContainsExactly(text[1..], part);
      assert forall i :: 1 <= i <= |text| ==> text[i..] == text[1..][i - 1..];
    }
  }

  /** WARP is on unless it was not asked for or a given outbound has its key or the placeholder's. */
  lemma WarpOnExactly(s: Settings, inputs: seq<Input>)
    ensures WarpOn(s, inputs) <==>
      s.warp && forall input :: input in inputs ==> input.key != Some(s.warpKey) && input.key != Some("p1")
  {
  }
}
