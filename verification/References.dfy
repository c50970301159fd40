/** Which generated configurations name only what they hold, and where their DNS resolvers lead. */
module References {
  import opened Words
  import opened ForceDirect
  import opened Generate
  import Region

  function Tags(outbounds: seq<Outbound>): set<string> {
    set o | o in outbounds :: o.tag
  }

  function ServerTags(servers: seq<DnsServer>): set<string> {
    set d | d in servers :: d.tag
  }

  predicate Named(tag: string, tags: set<string>) {
    tag == "" || tag in tags
  }

  predicate OutboundNamed(o: Outbound, tags: set<string>) {
    (forall m :: m in o.members ==> m in tags) && Named(o.default, tags) && Named(o.detour, tags)
  }

  predicate RuleNamed(r: RouteRule, tags: set<string>, sets: seq<string>) {
    Named(r.outbound, tags) && forall t :: t in r.ruleSets ==> t in sets
  }

  predicate ServerNamed(d: DnsServer, tags: set<string>, servers: set<string>) {
    Named(d.detour, tags) && Named(d.resolver, servers)
  }

  /** Every tag that something refers to is there. */
  predicate NoDangling(c: Config) {
    var tags, servers := Tags(c.outbounds), ServerTags(c.servers);
    && (forall o :: o in c.outbounds ==> OutboundNamed(o, tags))
    && (forall r :: r in c.routeRules ==> RuleNamed(r, tags, c.ruleSets)) && c.routeFinal in tags
    && (forall r :: r in c.dnsRules ==> r.server in servers) && c.dnsFinal in servers
    && (forall d :: d in c.servers ==> ServerNamed(d, tags, servers))
  }

  // ----- what the caller must see to -----

  predicate IsKept(s: Settings, inputs: seq<Input>, i: int) {
    0 <= i < |inputs| && Keeps(s, WarpOn(s, inputs), inputs[i])
  }

  ghost predicate KeptTag(s: Settings, inputs: seq<Input>, tag: string) {
    exists i :: IsKept(s, inputs, i) && inputs[i].tag == tag
  }

  /** One of the six fixed tags, that of a given outbound that is kept, or WARP's when it is on. */
  ghost predicate IsThere(s: Settings, inputs: seq<Input>, tag: string) {
    Predefined(tag) || KeptTag(s, inputs, tag) || (tag == WARP && WarpOn(s, inputs) && s.mode != OtherMode)
  }

  /** The given detours are there. */
  ghost predicate DetoursNamed(s: Settings, inputs: seq<Input>) {
    forall i :: IsKept(s, inputs, i) && inputs[i].detour.Some? && inputs[i].detour.value != "" ==>
      IsThere(s, inputs, inputs[i].detour.value)
  }

  predicate Marked(s: Settings, inputs: seq<Input>, i: int) {
    IsKept(s, inputs, i) && !Contains(inputs[i].tag, HIDE_MARK) && Contains(inputs[i].tag, DEFAULT_MARK)
  }

  /** A given outbound that is shown has the default mark in its tag only if one has the mark for its tag. */
  ghost predicate DefaultNamed(s: Settings, inputs: seq<Input>) {
    (exists i :: Marked(s, inputs, i)) ==> KeptTag(s, inputs, DEFAULT_MARK)
  }

  /** WARP in front of the proxies was not switched off, or a given outbound has its tag. */
  ghost predicate MainNamed(s: Settings, inputs: seq<Input>) {
    s.warp && s.mode == OverProxy && !WarpOn(s, inputs) ==> KeptTag(s, inputs, WARP)
  }

  // ----- outbounds -----

  lemma TagsOf(outbounds: seq<Outbound>, o: Outbound)
    requires o in outbounds
    ensures o.tag in Tags(outbounds)
  {
  }

  /** What is always there. */
  lemma FixedTags(s: Settings, inputs: seq<Input>)
    ensures var tags := Tags(Outbounds(s, inputs));
      SELECT in tags && AUTO in tags && DIRECT in tags && BYPASS in tags && BLOCK in tags && FRAGMENT in tags
  {
    var all := Outbounds(s, inputs);
    var n := |all|;
    hide DefaultFor, AllKept, Shown, WarpOn;
    TagsOf(all, all[0]);
    TagsOf(all, all[1]);
    assert all[n - 4..] == [Plain(DIRECT), Plain(FRAGMENT), Plain(BYPASS), Plain(BLOCK)];
    TagsOf(all, all[n - 4]);
    TagsOf(all, all[n - 3]);
    TagsOf(all, all[n - 2]);
    TagsOf(all, all[n - 1]);
  }

  lemma {:induction false} KeptFrom(s: Settings, on: bool, inputs: seq<Input>, o: Outbound)
    ensures o in AllKept(s, on, inputs) <==>
      exists i :: 0 <= i < |inputs| && Keeps(s, on, inputs[i]) && o == Kept(s, on, inputs[i])
    decreases |inputs|
  {
    hide Keeps, Kept;
    if inputs != [] {
      var front := inputs[..|inputs| - 1];
      KeptFrom(s, on, front, o);
      if i :| 0 <= i < |inputs| && Keeps(s, on, inputs[i]) && o == Kept(s, on, inputs[i]) && i < |front| {
        assert Keeps(s, on, front[i]);
      }
    }
  }

  lemma KeptTagOf(s: Settings, inputs: seq<Input>, tag: string)
    ensures KeptTag(s, inputs, tag) <==> exists o :: o in AllKept(s, WarpOn(s, inputs), inputs) && o.tag == tag
  {
    hide Keeps, AllKept, WarpOn;
    var on := WarpOn(s, inputs);
    if KeptTag(s, inputs, tag) {
      var i :| IsKept(s, inputs, i) && inputs[i].tag == tag;
      KeptFrom(s, on, inputs, Kept(s, on, inputs[i]));
    }
    if o :| o in AllKept(s, on, inputs) && o.tag == tag {
      KeptFrom(s, on, inputs, o);
    }
  }

  /** Which tags the generated outbounds have. */
  lemma TagsExactly(s: Settings, inputs: seq<Input>, tag: string)
    ensures tag in Tags(Outbounds(s, inputs)) <==> IsThere(s, inputs, tag)
  {
    hide Outbounds, AllKept, Shown, DefaultFor, WarpOn, KeptTag, Predefined;
    FixedTags(s, inputs);
    PredefinedTag(tag);
    KeptTagOf(s, inputs, tag);
    KeptTags(s, inputs);
    WarpTag(s, inputs);
    if o :| o in Outbounds(s, inputs) && o.tag == tag {
      Sorts(s, inputs, o);
    }
  }

  lemma PredefinedTag(tag: string)
    ensures Predefined(tag) <==>
      tag == SELECT || tag == AUTO || tag == DIRECT || tag == BYPASS || tag == BLOCK || tag == FRAGMENT
  {
  }

  lemma WarpTag(s: Settings, inputs: seq<Input>)
    ensures WarpOn(s, inputs) && s.mode != OtherMode ==> WARP in Tags(Outbounds(s, inputs))
  {
    hide AllKept, Shown, DefaultFor, WarpOn;
    if WarpOn(s, inputs) && s.mode != OtherMode {
      assert Outbounds(s, inputs)[2] == WarpOutbound(s);
      TagsOf(Outbounds(s, inputs), WarpOutbound(s));
    }
  }

  predicate DetoursThere(s: Settings, inputs: seq<Input>) {
    forall o :: o in AllKept(s, WarpOn(s, inputs), inputs) ==> Named(o.detour, Tags(Outbounds(s, inputs)))
  }

  predicate DefaultThere(s: Settings, inputs: seq<Input>) {
    DefaultFor(Shown(AllKept(s, WarpOn(s, inputs), inputs))) == DEFAULT_MARK ==>
      DEFAULT_MARK in Tags(Outbounds(s, inputs))
  }

  /** The detour of a kept outbound is the given one, but for an empty one that goes under WARP. */
  lemma DetoursOf(s: Settings, inputs: seq<Input>)
    ensures DetoursThere(s, inputs) <==> DetoursNamed(s, inputs)
  {
    hide Keeps, AllKept, WarpOn, Outbounds, Tags, IsThere;
    var on := WarpOn(s, inputs);
    WarpThere(s, inputs);
    if DetoursThere(s, inputs) {
      forall i | IsKept(s, inputs, i) && inputs[i].detour.Some? && inputs[i].detour.value != ""
        ensures IsThere(s, inputs, inputs[i].detour.value)
      {
        KeptFrom(s, on, inputs, Kept(s, on, inputs[i]));
        TagsExactly(s, inputs, inputs[i].detour.value);
      }
    }
    if DetoursNamed(s, inputs) {
      forall o | o in AllKept(s, on, inputs) ensures Named(o.detour, Tags(Outbounds(s, inputs))) {
        KeptFrom(s, on, inputs, o);
        TagsExactly(s, inputs, o.detour);
        var i :| 0 <= i < |inputs| && Keeps(s, on, inputs[i]) && o == Kept(s, on, inputs[i]);
        assert IsKept(s, inputs, i);
      }
    }
  }

  lemma WarpThere(s: Settings, inputs: seq<Input>)
    ensures WarpOn(s, inputs) && s.mode == UnderProxy ==> IsThere(s, inputs, WARP)
  {
    hide WarpOn;
  }

  lemma DefaultOf(s: Settings, inputs: seq<Input>)
    ensures DefaultThere(s, inputs) <==> DefaultNamed(s, inputs)
  {
    hide Keeps, AllKept, WarpOn, Outbounds, Tags, Shown, Contains, IsThere;
    var on := WarpOn(s, inputs);
    var kept := AllKept(s, on, inputs);
    TagsExactly(s, inputs, DEFAULT_MARK);
    MarkIsThere(s, inputs);
    if i :| Marked(s, inputs, i) {
      var o := Kept(s, on, inputs[i]);
      KeptFrom(s, on, inputs, o);
      var k :| 0 <= k < |kept| && kept[k] == o;
      ShownExactly(kept, o.tag);
      var n :| 0 <= n < |Shown(kept)| && Shown(kept)[n] == o.tag;
      assert Contains(Shown(kept)[n], DEFAULT_MARK);
    }
    if n :| 0 <= n < |Shown(kept)| && Contains(Shown(kept)[n], DEFAULT_MARK) {
      ShownExactly(kept, Shown(kept)[n]);
      var k :| 0 <= k < |kept| && kept[k].tag == Shown(kept)[n];
      KeptFrom(s, on, inputs, kept[k]);
      var i :| 0 <= i < |inputs| && Keeps(s, on, inputs[i]) && kept[k] == Kept(s, on, inputs[i]);
      assert Marked(s, inputs, i);
    }
    AutoIsNotMark();
  }

  lemma MarkIsThere(s: Settings, inputs: seq<Input>)
    ensures IsThere(s, inputs, DEFAULT_MARK) <==> KeptTag(s, inputs, DEFAULT_MARK)
  {
    hide KeptTag, WarpOn;
    assert DEFAULT_MARK[0] == '\U{6402}' && |DEFAULT_MARK| == 9;
  }

  lemma AutoIsNotMark()
    ensures AUTO != DEFAULT_MARK
  {
  }

  lemma KeptTags(s: Settings, inputs: seq<Input>)
    ensures forall o :: o in AllKept(s, WarpOn(s, inputs), inputs) ==>
      o in Outbounds(s, inputs) && o.tag in Tags(Outbounds(s, inputs))
    ensures forall t :: t in Shown(AllKept(s, WarpOn(s, inputs), inputs)) ==> t in Tags(Outbounds(s, inputs))
  {
    hide DefaultFor, AllKept, WarpOn;
    var all, kept := Outbounds(s, inputs), AllKept(s, WarpOn(s, inputs), inputs);
    forall o | o in kept ensures o in all {
    }
    forall t | t in Shown(kept) ensures t in Tags(all) {
      var i :| 0 <= i < |kept| && kept[i].tag == t;
      assert kept[i] in kept;
    }
  }

  lemma {:induction false} KeptShape(s: Settings, on: bool, inputs: seq<Input>)
    ensures forall o :: o in AllKept(s, on, inputs) ==> o.members == [] && o.default == ""
    decreases |inputs|
  {
    hide Keeps;
    if inputs != [] {
      KeptShape(s, on, inputs[..|inputs| - 1]);
    }
  }

  function Selector(tags: seq<string>): Outbound {
    Outbound(SELECT, None, "", [AUTO] + tags, DefaultFor(tags))
  }

  /** Every outbound is the selector, the test group, WARP, a given one or one that refers to nothing. */
  lemma Sorts(s: Settings, inputs: seq<Input>, o: Outbound)
    requires o in Outbounds(s, inputs)
    ensures var kept := AllKept(s, WarpOn(s, inputs), inputs);
      || o == Selector(Shown(kept)) || o == Outbound(AUTO, None, "", Shown(kept), "")
      || o in kept || (o == WarpOutbound(s) && WarpOn(s, inputs) && s.mode != OtherMode)
      || (o == Plain(o.tag) && Predefined(o.tag))
  {
    hide DefaultFor, AllKept, Shown, WarpOn;
  }

  lemma SelectorNamed(shown: seq<string>, tags: set<string>)
    requires AUTO in tags && forall t :: t in shown ==> t in tags
    ensures OutboundNamed(Selector(shown), tags) <==> (DefaultFor(shown) == DEFAULT_MARK ==> DEFAULT_MARK in tags)
  {
    assert DefaultFor(shown) == DEFAULT_MARK || DefaultFor(shown) == AUTO;
    assert DEFAULT_MARK != "";
    hide DefaultFor;
  }

  lemma OthersNamed(s: Settings, tags: set<string>, shown: seq<string>, o: Outbound)
    requires SELECT in tags && DIRECT in tags && forall t :: t in shown ==> t in tags
    requires o == Outbound(AUTO, None, "", shown, "") || o == WarpOutbound(s) || o == Plain(o.tag)
    ensures OutboundNamed(o, tags)
  {
  }

  lemma AreNamed(s: Settings, inputs: seq<Input>, o: Outbound)
    requires DetoursThere(s, inputs) && DefaultThere(s, inputs) && o in Outbounds(s, inputs)
    ensures OutboundNamed(o, Tags(Outbounds(s, inputs)))
  {
    var kept, tags := AllKept(s, WarpOn(s, inputs), inputs), Tags(Outbounds(s, inputs));
    FixedTags(s, inputs);
    KeptTags(s, inputs);
    KeptShape(s, WarpOn(s, inputs), inputs);
    Sorts(s, inputs, o);
    hide Outbounds, DefaultFor, AllKept, Shown, WarpOn, Tags, Selector, WarpOutbound, Plain;
    SelectorNamed(Shown(kept), tags);
    if o !in kept && o != Selector(Shown(kept)) {
      OthersNamed(s, tags, Shown(kept), o);
    }
  }

  lemma MustBeNamed(s: Settings, inputs: seq<Input>)
    requires forall o :: o in Outbounds(s, inputs) ==> OutboundNamed(o, Tags(Outbounds(s, inputs)))
    ensures DetoursThere(s, inputs) && DefaultThere(s, inputs)
  {
    var kept, tags := AllKept(s, WarpOn(s, inputs), inputs), Tags(Outbounds(s, inputs));
    FixedTags(s, inputs);
    KeptTags(s, inputs);
    assert Outbounds(s, inputs)[0] == Selector(Shown(kept));
    SelectorNamed(Shown(kept), tags);
    hide Outbounds, DefaultFor, AllKept, Shown, WarpOn, Tags, Selector;
  }

  // ----- DNS servers -----

  predicate IsFor(d: DnsServer, detour: string, address: DnsAddress) {
    detour != "" && detour != DIRECT && BuildServer("dns-" + detour, address, DNS_DIRECT, detour) == Some(d)
  }

  /** A new server is for some outbound's own detour. */
  lemma NewServerNamed(outbounds: seq<Outbound>, isIp: string -> bool, detours: map<string, string>, order: seq<string>,
                       forced: seq<DnsRule>, address: DnsAddress, d: DnsServer)
    requires Collected(outbounds, isIp, detours) && Forced(forced, order, detours) && address != Invalid
    requires d in NewServers(order, address)
    ensures exists o :: o in outbounds && IsFor(d, o.detour, address)
  {
    hide BuildServer, NewServers, RuleFor, DetourOf, Host, Dials;
    var detour :| detour in order && detour != DIRECT &&
      BuildServer("dns-" + detour, address, DNS_DIRECT, detour) == Some(d);
    assert detour in detours.Values;
    var host :| host in detours && detours[host] == detour;
    DirectOrFirst(outbounds, isIp, host);
    var i :| Uses(outbounds, isIp, i, host) && Dials(outbounds[i]) == detour;
    DialsItsDetour(outbounds[i]);
    assert outbounds[i] in outbounds && IsFor(d, outbounds[i].detour, address);
  }

  lemma DialsItsDetour(o: Outbound)
    ensures Dials(o) != DIRECT ==> o.detour == Dials(o) != ""
  {
  }

  function Made(detour: string, address: DnsAddress): DnsServer
    requires address != Invalid
  {
    BuildServer("dns-" + detour, address, DNS_DIRECT, detour).value
  }

  lemma {:induction false} NewServerFor(order: seq<string>, address: DnsAddress, detour: string)
    requires detour in order && detour != DIRECT && address != Invalid
    ensures Made(detour, address) in NewServers(order, address) && Made(detour, address).tag == "dns-" + detour
    decreases |order|
  {
    if order[0] == detour {
      assert Made(detour, address) in NewServers(order, address);
    } else {
      NewServerFor(order[1..], address, detour);
    }
  }

  // ----- rules -----

  lemma MainIsNamed(s: Settings, inputs: seq<Input>)
    ensures MainProxy(s) in Tags(Outbounds(s, inputs)) <==> MainNamed(s, inputs)
  {
    hide Outbounds, Tags, WarpOn, KeptTag;
    FixedTags(s, inputs);
    TagsExactly(s, inputs, WARP);
    assert !Predefined(WARP);
    WarpOnNeedsWarp(s, inputs);
  }

  lemma WarpOnNeedsWarp(s: Settings, inputs: seq<Input>)
    ensures WarpOn(s, inputs) ==> s.warp
  {
  }

  lemma RouteNamed(s: Settings, tags: set<string>)
    requires SELECT in tags && DIRECT in tags && BYPASS in tags && BLOCK in tags
    ensures (forall r :: r in RouteRules(s) ==> RuleNamed(r, tags, RuleSets())) <==> MainProxy(s) in tags
  {
    SetsNamed(s, tags);
    hide RuleSets, RegionRules, AdRule, LanRule, NtpRule, QuicRule;
    assert MainProxy(s) != "";
    var main := RouteRule([], InTestNet, MainProxy(s));
    assert FirstRules(s)[2] == main && RouteRules(s)[2] == main;
    assert RuleNamed(main, tags, RuleSets()) <==> MainProxy(s) in tags;
    forall r | r in RouteRules(s) ensures r == main || RuleNamed(r, tags, RuleSets()) {
    }
  }

  lemma SetsNamed(s: Settings, tags: set<string>)
    requires SELECT in tags && DIRECT in tags && BYPASS in tags && BLOCK in tags
    ensures forall r :: r in RegionRules(s.cn) ==> RuleNamed(r, tags, RuleSets())
    ensures RuleNamed(AdRule(), tags, RuleSets()) && RuleNamed(LanRule(), tags, RuleSets())
    ensures RuleNamed(NtpRule(), tags, RuleSets()) && RuleNamed(QuicRule(), tags, RuleSets())
  {
  }

  lemma BaseServers(s: Settings, tags: set<string>, servers: set<string>)
    requires s.remote != Invalid && s.direct != Invalid
    requires ServerTags(Servers(s)) <= servers && MainProxy(s) in tags && DIRECT in tags && FRAGMENT in tags
    ensures DNS_REMOTE in servers && DNS_DIRECT in servers && DNS_LOCAL in servers
    ensures forall d :: d in Servers(s) ==> ServerNamed(d, tags, servers)
    ensures forall r :: r in DnsRules(s) ==> r.server in servers
  {
    assert Servers(s)[0].tag == DNS_REMOTE && Servers(s)[2].tag == DNS_DIRECT && Servers(s)[3].tag == DNS_LOCAL;
    assert DNS_REMOTE in ServerTags(Servers(s)) && DNS_DIRECT in ServerTags(Servers(s)) &&
      DNS_LOCAL in ServerTags(Servers(s));
    if s.fakeDns {
      assert Servers(s)[4].tag == DNS_FAKE;
      assert DNS_FAKE in ServerTags(Servers(s));
    }
    hide MainProxy;
  }

  lemma NewServersNamed(s: Settings, inputs: seq<Input>, isIp: string -> bool, detours: map<string, string>,
    order: seq<string>,
                        forced: seq<DnsRule>, tags: set<string>, servers: set<string>, d: DnsServer)
    requires Collected(Outbounds(s, inputs), isIp, detours) && Forced(forced, order, detours) && s.remote != Invalid
    requires d in NewServers(order, s.remote) && DNS_DIRECT in servers
    requires forall o :: o in Outbounds(s, inputs) ==> OutboundNamed(o, tags)
    ensures ServerNamed(d, tags, servers)
  {
    NewServerNamed(Outbounds(s, inputs), isIp, detours, order, forced, s.remote, d);
    hide Outbounds, NewServers, Collected, Forced;
    var o :| o in Outbounds(s, inputs) && IsFor(d, o.detour, s.remote);
    assert OutboundNamed(o, tags);
  }

  lemma ForcedNamed(rules: seq<DnsRule>, order: seq<string>, detours: map<string, string>, address: DnsAddress,
    servers: set<string>)
    requires Forced(rules, order, detours) && address != Invalid
    requires DNS_DIRECT in servers && ServerTags(NewServers(order, address)) <= servers
    ensures forall r :: r in rules ==> r.server in servers
  {
    forall r | r in rules ensures r.server in servers {
      var i :| 0 <= i < |rules| && rules[i] == r;
      assert RuleFor(rules[i], order[i], detours);
      if order[i] != DIRECT {
        NewServerFor(order, address, order[i]);
        assert Made(order[i], address).tag in ServerTags(NewServers(order, address));
      }
    }
  }

  lemma ServerTagsOf(a: seq<DnsServer>, b: seq<DnsServer>)
    ensures ServerTags(a) <= ServerTags(a + b) && ServerTags(b) <= ServerTags(a + b)
  {
  }

  /**
   A generated configuration refers only to what it holds exactly when the given detours name outbounds that
   are there, no shown tag holds the default mark, and WARP was not chosen as main proxy and then switched off.
   */
  lemma NothingDangles(s: Settings, inputs: seq<Input>, isIp: string -> bool, c: Config,
                       detours: map<string, string>, order: seq<string>, forced: seq<DnsRule>)
    requires Built(s, inputs, isIp, c, detours, order, forced)
    ensures NoDangling(c) <==> DetoursNamed(s, inputs) && DefaultNamed(s, inputs) && MainNamed(s, inputs)
  {
    var all := Outbounds(s, inputs);
    var tags, servers := Tags(all), ServerTags(c.servers);
    FixedTags(s, inputs);
    MainIsNamed(s, inputs);
    DetoursOf(s, inputs);
    DefaultOf(s, inputs);
    RouteNamed(s, tags);
    ServerTagsOf(Servers(s), NewServers(order, s.remote));
    hide DetoursNamed, DefaultNamed, DetoursThere, DefaultThere;
    hide Outbounds, RouteRules, RuleSets, Servers, DnsRules, NewServers, Collected, Forced, Tags, ServerTags;
    hide MainNamed, MainProxy, OutboundNamed, ServerNamed, RuleNamed;
    if NoDangling(c) {
      MustBeNamed(s, inputs);
    }
    if DetoursNamed(s, inputs) && DefaultNamed(s, inputs) && MainNamed(s, inputs) {
      forall o | o in all ensures OutboundNamed(o, tags) {
        AreNamed(s, inputs, o);
      }
      BaseServers(s, tags, servers);
      forall d | d in c.servers ensures ServerNamed(d, tags, servers) {
        if d in NewServers(order, s.remote) {
          NewServersNamed(s, inputs, isIp, detours, order, forced, tags, servers, d);
        }
      }
      ForcedNamed(forced, order, detours, s.remote, servers);
    }
  }

  // ----- resolvers -----

  /** Whichever server bears the tag, following resolvers ends at the local one. */
  predicate LeadsToLocal(servers: seq<DnsServer>, tag: string, steps: nat)
    decreases steps
  {
    && tag in ServerTags(servers)
    && forall d :: d in servers && d.tag == tag ==>
         if d.resolver == "" then tag == DNS_LOCAL else steps > 0 && LeadsToLocal(servers, d.resolver, steps - 1)
  }

  lemma BaseResolvers(s: Settings, d: DnsServer)
    requires s.remote != Invalid && s.direct == Dialed && d in Servers(s)
    ensures ResolverIsFine(d)
  {
    assert DNS_LOCAL != DNS_DIRECT && DNS_REMOTE != DNS_DIRECT && DNS_TRICK != DNS_DIRECT;
    assert DNS_REMOTE != DNS_LOCAL && DNS_TRICK != DNS_LOCAL;
    assert DNS_FAKE != DNS_LOCAL && DNS_FAKE != DNS_DIRECT;
    hide MainProxy;
  }

  lemma NewResolver(order: seq<string>, address: DnsAddress, d: DnsServer)
    requires address != Invalid && d in NewServers(order, address)
    requires "direct" !in order && (address == Dialed ==> "local" !in order)
    ensures ResolverIsFine(d)
  {
    var detour :| detour in order && detour != DIRECT &&
      BuildServer("dns-" + detour, address, DNS_DIRECT, detour) == Some(d);
    hide NewServers;
    NewTag(detour);
    assert DNS_DIRECT != "" && DNS_DIRECT != DNS_LOCAL;
  }

  lemma NewTag(detour: string)
    ensures "dns-" + detour == DNS_LOCAL <==> detour == "local"
    ensures "dns-" + detour == DNS_DIRECT <==> detour == "direct"
  {
    assert ("dns-" + detour)[4..] == detour;
    assert DNS_LOCAL[4..] == "local" && DNS_DIRECT[4..] == "direct";
    assert DNS_LOCAL == "dns-" + "local" && DNS_DIRECT == "dns-" + "direct";
  }

  predicate ResolverIsFine(d: DnsServer) {
    && (d.resolver == "" || d.resolver == DNS_DIRECT || d.resolver == DNS_LOCAL)
    && (d.tag == DNS_LOCAL ==> d.resolver == "")
    && (d.tag == DNS_DIRECT ==> d.resolver == DNS_LOCAL)
  }

  lemma FineServersLead(servers: seq<DnsServer>)
    requires (forall d :: d in servers ==> ResolverIsFine(d)) && DNS_LOCAL in ServerTags(servers) &&
      DNS_DIRECT in ServerTags(servers)
    ensures forall d :: d in servers && d.resolver != "" ==> LeadsToLocal(servers, d.resolver, 1)
  {
    assert DNS_LOCAL != DNS_DIRECT && DNS_LOCAL != "";
    hide ServerTags;
    forall d | d in servers && d.tag == DNS_LOCAL ensures d.resolver == "" {
      assert ResolverIsFine(d);
    }
    assert LeadsToLocal(servers, DNS_LOCAL, 0);
    forall d | d in servers && d.tag == DNS_DIRECT ensures d.resolver == DNS_LOCAL {
      assert ResolverIsFine(d);
    }
    assert LeadsToLocal(servers, DNS_DIRECT, 1);
    assert LeadsToLocal(servers, DNS_LOCAL, 1);
    forall d | d in servers && d.resolver != "" ensures LeadsToLocal(servers, d.resolver, 1) {
      assert ResolverIsFine(d);
    }
  }

  /** A resolver chain that holds up leaves no room for a second server of either tag. */
  lemma ChainsExclude(servers: seq<DnsServer>, direct: DnsServer, d: DnsServer)
    requires LeadsToLocal(servers, DNS_DIRECT, 1) && direct in servers && direct.tag == DNS_DIRECT
    requires d in servers
    ensures direct.resolver != ""
    ensures direct.resolver == DNS_LOCAL ==>
      (d.tag == DNS_LOCAL ==> d.resolver == "") &&
        (d.tag == DNS_DIRECT ==> d.resolver != "" && d.resolver != DNS_DIRECT)
  {
    assert DNS_LOCAL != DNS_DIRECT && DNS_LOCAL != "";
  }

  /** A kept outbound whose server has this name. */
  predicate HasHost(s: Settings, on: bool, inputs: seq<Input>, isIp: string -> bool, i: int, host: string) {
    && 0 <= i < |inputs| && Keeps(s, on, inputs[i])
    && inputs[i].server == Some(host) && host != "" && !isIp(host)
  }

  /** The detour it is dialled over. */
  function Way(s: Settings, on: bool, input: Input): string {
    if input.detour == None then DIRECT
    else if input.detour.value != "" then input.detour.value
    else if on && s.mode == UnderProxy then WARP
    else DIRECT
  }

  /** It is the first of its server's name, goes over this detour, and none of that name is dialled directly. */
  ghost predicate LeadsOver(s: Settings, inputs: seq<Input>, isIp: string -> bool, detour: string, i: int) {
    var on := WarpOn(s, inputs);
    && 0 <= i < |inputs| && inputs[i].server.Some?
    && var host := inputs[i].server.value;
    && HasHost(s, on, inputs, isIp, i, host) && Way(s, on, inputs[i]) == detour
    && forall j :: HasHost(s, on, inputs, isIp, j, host) ==> i <= j && Way(s, on, inputs[j]) != DIRECT
  }

  ghost predicate NamesGoOver(s: Settings, inputs: seq<Input>, isIp: string -> bool, detour: string) {
    exists i :: LeadsOver(s, inputs, isIp, detour, i)
  }

  lemma {:induction false} DetourOfKept(s: Settings, on: bool, inputs: seq<Input>, isIp: string -> bool, host: string)
    ensures var d := DetourOf(AllKept(s, on, inputs), isIp, host);
      && (d == None <==> forall i :: !HasHost(s, on, inputs, isIp, i, host))
      && (d == Some(DIRECT) <==> exists i :: HasHost(s, on, inputs, isIp, i, host) && Way(s, on, inputs[i]) == DIRECT)
      && (d.Some? && d.value != DIRECT ==>
        exists i :: HasHost(s, on, inputs, isIp, i, host) && Way(s, on, inputs[i]) == d.value &&
          forall j :: HasHost(s, on, inputs, isIp, j, host) ==> i <= j)
    decreases |inputs|
  {
    hide Keeps, Way, HasHost, DetourOf, AllKept;
    if inputs == [] {
      NothingKept(s, on, isIp, host);
    } else {
      var n := |inputs| - 1;
      var front := inputs[..n];
      DetourOfKept(s, on, front, isIp, host);
      HostsInFront(s, on, inputs, isIp, host);
      KeptLast(s, on, inputs, isIp, host);
      var before, d := DetourOf(AllKept(s, on, front), isIp, host), DetourOf(AllKept(s, on, inputs), isIp, host);
      if d == Some(DIRECT) && !(HasHost(s, on, inputs, isIp, n, host) && Way(s, on, inputs[n]) == DIRECT) {
        var i :| HasHost(s, on, front, isIp, i, host) && Way(s, on, front[i]) == DIRECT;
        assert HasHost(s, on, inputs, isIp, i, host);
      } else if d.Some? && d.value != DIRECT && before.Some? {
        var i :| HasHost(s, on, front, isIp, i, host) && Way(s, on, front[i]) == d.value &&
          forall j :: HasHost(s, on, front, isIp, j, host) ==> i <= j;
        assert HasHost(s, on, inputs, isIp, i, host) && i < n;
        forall j | HasHost(s, on, inputs, isIp, j, host) ensures i <= j {
          assert j < n ==> HasHost(s, on, front, isIp, j, host);
        }
      } else if d.Some? && before.None? {
        assert HasHost(s, on, inputs, isIp, n, host);
      }
    }
  }

  lemma NothingKept(s: Settings, on: bool, isIp: string -> bool, host: string)
    ensures DetourOf(AllKept(s, on, []), isIp, host) == None && forall i :: !HasHost(s, on, [], isIp, i, host)
  {
  }

  lemma HostsInFront(s: Settings, on: bool, inputs: seq<Input>, isIp: string -> bool, host: string)
    requires inputs != []
    ensures var n := |inputs| - 1;
      && (forall i :: HasHost(s, on, inputs[..n], isIp, i, host) <==> i < n && HasHost(s, on, inputs, isIp, i, host))
      && (forall i :: HasHost(s, on, inputs, isIp, i, host) ==> 0 <= i <= n)
  {
    hide Keeps;
  }

  lemma KeptLast(s: Settings, on: bool, inputs: seq<Input>, isIp: string -> bool, host: string)
    requires inputs != []
    ensures var n := |inputs| - 1;
      var before := DetourOf(AllKept(s, on, inputs[..n]), isIp, host);
      DetourOf(AllKept(s, on, inputs), isIp, host) ==
        if HasHost(s, on, inputs, isIp, n, host) && (before == None || Way(s, on, inputs[n]) == DIRECT) then
          Some(Way(s, on, inputs[n]))
        else before
  {
    hide Keeps;
    var n := |inputs| - 1;
    var front := AllKept(s, on, inputs[..n]);
    if Keeps(s, on, inputs[n]) {
      assert AllKept(s, on, inputs)[..|front|] == front;
    } else {
      assert AllKept(s, on, inputs) == front;
    }
  }

  /** Only given outbounds have servers. */
  lemma AroundKept(s: Settings, inputs: seq<Input>) returns (first: seq<Outbound>, last: seq<Outbound>)
    ensures Outbounds(s, inputs) == first + AllKept(s, WarpOn(s, inputs), inputs) + last
    ensures forall o :: o in first || o in last ==> o.server == None
  {
    hide AllKept, Shown, DefaultFor, WarpOn;
    var all, kept := Outbounds(s, inputs), AllKept(s, WarpOn(s, inputs), inputs);
    var n := |all| - 4;
    first, last := all[..n - |kept|], all[n..];
  }

  lemma DetourOfOutbounds(s: Settings, inputs: seq<Input>, isIp: string -> bool, host: string)
    ensures DetourOf(Outbounds(s, inputs), isIp, host) ==
      DetourOf(AllKept(s, WarpOn(s, inputs), inputs), isIp, host)
  {
    hide Outbounds, AllKept, DetourOf;
    var first, last := AroundKept(s, inputs);
    var kept := AllKept(s, WarpOn(s, inputs), inputs);
    Hostless(first, kept, isIp, host);
    HostlessAfter(first + kept, last, isIp, host);
  }

  lemma {:induction false} HostlessAfter(xs: seq<Outbound>, ys: seq<Outbound>, isIp: string -> bool, host: string)
    requires forall o :: o in ys ==> o.server == None
    ensures DetourOf(xs + ys, isIp, host) == DetourOf(xs, isIp, host)
    decreases |ys|
  {
    if ys == [] {
      assert xs + ys == xs;
    } else {
      assert (xs + ys)[..|xs + ys| - 1] == xs + ys[..|ys| - 1];
      HostlessAfter(xs, ys[..|ys| - 1], isIp, host);
      assert ys[|ys| - 1] in ys;
    }
  }

  lemma {:induction false} Hostless(xs: seq<Outbound>, ys: seq<Outbound>, isIp: string -> bool, host: string)
    requires forall o :: o in xs ==> o.server == None
    ensures DetourOf(xs + ys, isIp, host) == DetourOf(ys, isIp, host)
    decreases |ys|
  {
    if ys == [] {
      assert xs + ys == [] + xs;
      HostlessAfter([], xs, isIp, host);
    } else {
      assert (xs + ys)[..|xs + ys| - 1] == xs + ys[..|ys| - 1];
      Hostless(xs, ys[..|ys| - 1], isIp, host);
    }
  }

  /** Which detours the generator collects, but for the direct one. */
  lemma CollectedOver(s: Settings, inputs: seq<Input>, isIp: string -> bool, detours: map<string, string>,
    detour: string)
    requires Collected(Outbounds(s, inputs), isIp, detours) && detour != DIRECT
    ensures detour in detours.Values <==> NamesGoOver(s, inputs, isIp, detour)
  {
    hide AllKept, Outbounds, DetourOf, Keeps, Way, WarpOn;
    var on := WarpOn(s, inputs);
    if detour in detours.Values {
      var host :| host in detours && detours[host] == detour;
      DetourOfOutbounds(s, inputs, isIp, host);
      DetourOfKept(s, on, inputs, isIp, host);
      var i :| HasHost(s, on, inputs, isIp, i, host) && Way(s, on, inputs[i]) == detour &&
        forall j :: HasHost(s, on, inputs, isIp, j, host) ==> i <= j;
      assert LeadsOver(s, inputs, isIp, detour, i);
    }
    if i :| LeadsOver(s, inputs, isIp, detour, i) {
      var host := inputs[i].server.value;
      DetourOfOutbounds(s, inputs, isIp, host);
      DetourOfKept(s, on, inputs, isIp, host);
      assert host in detours && detours[host] == detour;
    }
  }

  /**
   Every resolver chain ends at the local server, with at most one server between, exactly when the direct DNS
   address is dialled and no server name is reached over a detour called `direct`, nor over one called `local`
   unless remote DNS takes no dialling options.
   */
  lemma ResolversEndLocal(s: Settings, inputs: seq<Input>, isIp: string -> bool, c: Config,
                          detours: map<string, string>, order: seq<string>, forced: seq<DnsRule>)
    requires Built(s, inputs, isIp, c, detours, order, forced)
    ensures (forall d :: d in c.servers && d.resolver != "" ==> LeadsToLocal(c.servers, d.resolver, 1)) <==>
      && s.direct == Dialed && !NamesGoOver(s, inputs, isIp, "direct")
      && (s.remote == Dialed ==> !NamesGoOver(s, inputs, isIp, "local"))
  {
    hide NamesGoOver, Outbounds, NewServers, Servers, DnsRules, RouteRules, RuleSets, Forced, ServerTags, Collected,
      LeadsToLocal;
    EndLocal(s, inputs, isIp, c, detours, order, forced);
    NeitherIsDirect();
    CollectedOver(s, inputs, isIp, detours, "direct");
    CollectedOver(s, inputs, isIp, detours, "local");
  }

  lemma NeitherIsDirect()
    ensures "direct" != DIRECT && "local" != DIRECT
  {
  }

  lemma EndLocal(s: Settings, inputs: seq<Input>, isIp: string -> bool, c: Config,
                 detours: map<string, string>, order: seq<string>, forced: seq<DnsRule>)
    requires Built(s, inputs, isIp, c, detours, order, forced)
    ensures (forall d :: d in c.servers && d.resolver != "" ==> LeadsToLocal(c.servers, d.resolver, 1)) <==>
      s.direct == Dialed && "direct" !in detours.Values && (s.remote == Dialed ==> "local" !in detours.Values)
  {
    ServerTagsOf(Servers(s), NewServers(order, s.remote));
    BaseServers(s, {MainProxy(s), DIRECT, FRAGMENT}, ServerTags(c.servers));
    assert forall d :: d in order <==> d in detours.Values;
    hide Outbounds, NewServers, Collected, Forced, ServerTags, DnsRules, RouteRules, RuleSets;
    if s.direct == Dialed && "direct" !in detours.Values && (s.remote == Dialed ==> "local" !in detours.Values) {
      hide Servers;
      forall d | d in c.servers ensures ResolverIsFine(d) {
        if d in Servers(s) {
          BaseResolvers(s, d);
        } else {
          NewResolver(order, s.remote, d);
        }
      }
      FineServersLead(c.servers);
    } else if forall d :: d in c.servers && d.resolver != "" ==> LeadsToLocal(c.servers, d.resolver, 1) {
      NoChains(s, order, c.servers);
      assert false;
    }
  }

  lemma NoChains(s: Settings, order: seq<string>, servers: seq<DnsServer>)
    requires s.remote != Invalid && s.direct != Invalid && servers == Servers(s) + NewServers(order, s.remote)
    requires forall d :: d in servers && d.resolver != "" ==> LeadsToLocal(servers, d.resolver, 1)
    ensures s.direct == Dialed && "direct" !in order && (s.remote == Dialed ==> "local" !in order)
  {
    hide NewServers, MainProxy, LeadsToLocal;
    var trick, direct := servers[1], servers[2];
    assert trick in servers && direct in servers && direct.tag == DNS_DIRECT && DNS_DIRECT != "" &&
      trick.resolver == DNS_DIRECT;
    ChainsExclude(servers, direct, direct);
    hide Servers;
    if "direct" in order {
      assert "direct" != DIRECT;
      NewServerFor(order, s.remote, "direct");
      NewTag("direct");
      ChainsExclude(servers, direct, Made("direct", s.remote));
    }
    if "local" in order {
      assert "local" != DIRECT;
      NewServerFor(order, s.remote, "local");
      NewTag("local");
      ChainsExclude(servers, direct, Made("local", s.remote));
    }
  }

  // ----- inputs for which something is missing -----

  lemma OneInput(s: Settings, input: Input)
    requires Keeps(s, WarpOn(s, [input]), input)
    ensures forall tag :: KeptTag(s, [input], tag) <==> tag == input.tag
    ensures IsKept(s, [input], 0)
  {
    hide Keeps, WarpOn;
    assert IsKept(s, [input], 0);
  }

  lemma ProxyIsKept(s: Settings, on: bool, input: Input)
    requires input.tag == "p" && input.kind == Proxy
    ensures Keeps(s, on, input)
  {
    assert |WARP| > 1;
  }

  /** A detour that is not there. */
  lemma UnknownDetour(s: Settings, input: Input)
    requires input == Input("p", Proxy, None, Some("gone"), None)
    ensures !DetoursNamed(s, [input])
  {
    hide WarpOn, Keeps, Predefined, KeptTag;
    ProxyIsKept(s, WarpOn(s, [input]), input);
    OneInput(s, input);
    GoneIsNotFixed();
    assert IsKept(s, [input], 0);
  }

  lemma GoneIsNotFixed()
    ensures !Predefined("gone") && "gone" != WARP && "gone" != "p"
  {
    assert |WARP| > 4;
  }

  /** A tag that ends in the default mark: the selector's default is the mark alone, which is no outbound's tag. */
  lemma MarkInTag(s: Settings, input: Input)
    requires input == Input("p" + DEFAULT_MARK, Proxy, None, None, None)
    ensures !DefaultNamed(s, [input])
  {
    hide WarpOn, Keeps, Predefined, KeptTag, Contains;
    MarkedIsShown(s, WarpOn(s, [input]), input);
    OneInput(s, input);
    assert |input.tag| == |DEFAULT_MARK| + 1;
    assert Marked(s, [input], 0);
  }

  lemma MarkedIsShown(s: Settings, on: bool, input: Input)
    requires input.tag == "p" + DEFAULT_MARK && input.kind == Proxy
    ensures Keeps(s, on, input) && Contains(input.tag, DEFAULT_MARK) && !Contains(input.tag, HIDE_MARK)
  {
    MarkedTagIsFree(input.tag);
    assert input.tag[1..] == DEFAULT_MARK && Contains(DEFAULT_MARK, DEFAULT_MARK);
    NoHideMark(input.tag, 10);
    hide Contains;
  }

  lemma MarkedTagIsFree(tag: string)
    requires tag == "p" + DEFAULT_MARK
    ensures !Predefined(tag) && tag != WARP && tag !in ["direct", "bypass", "block"]
  {
    assert tag[0] == 'p' && |tag| == 10;
    assert DIRECT[0] == 'd' && BYPASS[0] == 'b' && BLOCK[0] == 'b' && SELECT[0] == 's' && AUTO[0] == 'a' &&
      FRAGMENT[0] == 'd';
    assert WARP[0] == 'E';
  }

  /** The two marks part at their second letter, so no end of the tag begins with the hide mark. */
  lemma {:induction false} NoHideMark(tag: string, n: nat)
    requires n <= 10 && tag == ("p" + DEFAULT_MARK)[10 - n..]
    ensures !Contains(tag, HIDE_MARK)
    decreases n
  {
    var whole := "p" + DEFAULT_MARK;
    assert |whole| == 10 && |tag| == n && |HIDE_MARK| == 6;
    if n >= 6 {
      assert tag[0] == whole[10 - n] && tag[1] == whole[11 - n];
      assert tag[0] != HIDE_MARK[0] || tag[1] != HIDE_MARK[1];
    }
    if n > 0 {
      NoHideMark(tag[1..], n - 1);
    }
  }

  /** A given outbound with WARP's own key switches it off, and the first rules still name it. */
  lemma WarpGone(s: Settings, input: Input)
    requires s.warp && s.mode == OverProxy && input == Input("p", Proxy, Some(s.warpKey), None, None)
    ensures !MainNamed(s, [input])
  {
    hide Keeps, KeptTag;
    ProxyIsKept(s, WarpOn(s, [input]), input);
    OneInput(s, input);
    assert !WarpOn(s, [input]);
    assert |WARP| > 1;
  }

  /** A server name reached over a detour called `direct`: the new server takes the tag of the direct one. */
  lemma DetourNamedDirect(s: Settings, input: Input, isIp: string -> bool)
    requires input == Input("p", Proxy, None, Some("direct"), Some("h")) && !isIp("h")
    ensures NamesGoOver(s, [input], isIp, "direct")
  {
    hide Keeps, WarpOn;
    ProxyIsKept(s, WarpOn(s, [input]), input);
    NeitherIsDirect();
    assert LeadsOver(s, [input], isIp, "direct", 0);
  }

  // ----- the order of maps -----

  /** Two configurations built from the same input send every DNS query to the same server. */
  lemma SameDecisions(s: Settings, inputs: seq<Input>, isIp: string -> bool, q: Query,
                      c: Config, detours: map<string, string>, order: seq<string>, forced: seq<DnsRule>,
                      c': Config, detours': map<string, string>, order': seq<string>, forced': seq<DnsRule>)
    requires Built(s, inputs, isIp, c, detours, order, forced) && Built(s, inputs, isIp, c', detours', order', forced')
    ensures Decide(q, c.dnsRules, c.dnsFinal) == Decide(q, c'.dnsRules, c'.dnsFinal)
    ensures Decide(q, c.dnsRules, c.dnsFinal) ==
      if DetourOf(c.outbounds, isIp, q.domain).Some? then ServerFor(DetourOf(c.outbounds, isIp, q.domain).value)
      else Decide(q, DnsRules(s), DNS_REMOTE)
  {
    hide Outbounds, NewServers, Servers, Forced, Decide, DnsRules, RouteRules, RuleSets, DetourOf, ServerFor;
    ForcedDecision(q, forced, order, detours, DnsRules(s), DNS_REMOTE);
    ForcedDecision(q, forced', order', detours', DnsRules(s), DNS_REMOTE);
    assert DetourOf(c.outbounds, isIp, q.domain) == if q.domain in detours then Some(detours[q.domain]) else None;
    assert DetourOf(c.outbounds, isIp, q.domain) == if q.domain in detours' then Some(detours'[q.domain]) else None;
  }

  // ----- what users get to choose, and the regions -----

  /** The selector and the test group offer exactly the kept outbounds without the hide mark. */
  lemma {:induction false} ShownExactly(outbounds: seq<Outbound>, tag: string)
    ensures tag in Shown(outbounds) <==>
      !Contains(tag, HIDE_MARK) && exists i :: 0 <= i < |outbounds| && outbounds[i].tag == tag
    decreases |outbounds|
  {
    hide Contains;
    if outbounds != [] {
      var front := outbounds[..|outbounds| - 1];
      ShownExactly(front, tag);
      if i :| 0 <= i < |outbounds| && outbounds[i].tag == tag && i < |front| {
        assert front[i].tag == tag;
      }
    }
  }

  /** Generated rules agree with the region policy: on a Chinese line Chinese sites are proxied, the rest is direct. */
  lemma RegionsAgree(s: Settings, r: RouteRule, t: string)
    requires r in RouteRules(s) && t in r.ruleSets
    ensures t in Region.CnTags() ==> r.outbound == Region.ForCn(s.cn, Region.Tags(DIRECT, SELECT))
    ensures t in Region.OtherTags() ==> r.outbound == Region.ForOthers(s.cn, Region.Tags(DIRECT, SELECT))
    ensures t in Region.CnTags() || t in Region.OtherTags() ||
      (s.blockAds && t == "geosite-category-ads-all" && r.outbound == BLOCK)
  {
    hide RegionRules, AdRule, LanRule, NtpRule, QuicRule, FirstRules, Region.CnTags, Region.OtherTags, Region.ForCn,
      Region.ForOthers;
    OthersHaveNoSets(s);
    if r in RegionRules(s.cn) {
      RegionRuleAgrees(s.cn, r, t);
    } else {
      AdIsNoRegion();
      assert r == AdRule() && s.blockAds;
    }
  }

  lemma OthersHaveNoSets(s: Settings)
    ensures forall r :: r in FirstRules(s) ==> r.ruleSets == []
    ensures LanRule().ruleSets == NtpRule().ruleSets == QuicRule().ruleSets == []
  {
    hide MainProxy;
  }

  lemma AdIsNoRegion()
    ensures AdRule() == RouteRule(["geosite-category-ads-all"], NoTest, BLOCK)
    ensures "geosite-category-ads-all" !in Region.CnTags() && "geosite-category-ads-all" !in Region.OtherTags()
  {
  }

  lemma RegionRuleAgrees(cn: bool, r: RouteRule, t: string)
    requires r in RegionRules(cn) && t in r.ruleSets
    ensures t in Region.CnTags() ==> r.outbound == Region.ForCn(cn, Region.Tags(DIRECT, SELECT))
    ensures t in Region.OtherTags() ==> r.outbound == Region.ForOthers(cn, Region.Tags(DIRECT, SELECT))
    ensures t in Region.CnTags() || t in Region.OtherTags()
  {
  }
}
