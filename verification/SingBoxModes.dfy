/**
 What a generated configuration does in each mode (packages/proxy-core/src/singbox_config.rs): where
 every connection goes, to a name or to an address, who answers every query, and which servers,
 selections and rule sets there are. The expectations are written down without the two lists.
 */
module SingBoxModes {
  import opened Wrappers
  import opened Text
  import opened SingBoxConfig

  // ---------------------------------------------------------------------
  // Connections to names
  // ---------------------------------------------------------------------

  /** Where a connection to a name should go. */
  function ExpectedRoute(f: Foreign, request: Request, s: Subject, port: nat): RouteAction {
    if port == 53 then HijackDns
    else if Overridden(request, s) then ToOutbound("direct")
    else
      match request.mode
      case DirectMode => ToOutbound("direct")
      case GlobalMode => ToOutbound("proxy")
      case RuleMode =>
        match FirstHit(f, request.customRules, s)
        case Some(Direct) => ToOutbound("direct")
        case Some(Proxy) => ToOutbound("proxy")
        case Some(Block) => ToOutbound("block")
        case None => ToOutbound(if Domestic(f, s) then "direct" else "proxy")
  }

  /** In every mode every connection to a name goes there. */
  lemma RoutesAreAsExpected(f: Foreign, request: Request, cached: bool, s: Subject, port: nat)
    ensures RouteTo(f, ConfigOf(f, request, cached), s, port) == ExpectedRoute(f, request, s, port)
  {
    if port == 53 {
      assert RouteRules(f, request)[0] == HIJACK;
    } else {
      var enabled := Enabled(request.dnsOverrides);
      var routes := OverrideRoutes(enabled);
      OverrideRoutesDecide(f, enabled, s, port);
      HijackSpares(f, s, port);
      hide Enabled, OverrideRoutes, FirstHit, ModeRoutes, FirstOverride;
      FirstRouteOfBoth(f, [HIJACK] + routes, ModeRoutes(f, request), s, port);
      FirstRouteOfBoth(f, [HIJACK], routes, s, port);
      if request.mode.RuleMode? && !Overridden(request, s) {
        RuleModeRoute(f, request, cached, s, port);
      } else if !Overridden(request, s) {
        NoModeRoutes(f, request, s, port);
      }
    }
  }

  lemma NoModeRoutes(f: Foreign, request: Request, s: Subject, port: nat)
    requires !request.mode.RuleMode?
    ensures FirstRoute(f, ModeRoutes(f, request), s, port) == None
  {
  }

  /** Rule mode, and no other, looks into a connection for its name before any of its rules decides. */
  lemma SniffedIff(f: Foreign, request: Request, s: Subject, port: nat)
    requires port != 53 && !Overridden(request, s)
    ensures
      var rules := RouteRules(f, request);
      request.mode.RuleMode? <==>
        exists k :: 0 <= k < |rules| && rules[k] == RouteRule(AnyConnection, Sniff) && FirstRoute(f, rules[..k], s, port).None?
  {
    var enabled := Enabled(request.dnsOverrides);
    var routes, rules := OverrideRoutes(enabled), RouteRules(f, request);
    OverrideRoutesDecide(f, enabled, s, port);
    HijackSpares(f, s, port);
    forall k | 0 <= k < |routes| ensures !routes[k].action.Sniff? {
      OverrideRoutesAre(enabled, k);
    }
    hide Enabled, OverrideRoutes, FirstRoute, CustomRoutes, FirstOverride;
    FirstRouteOfBoth(f, [HIJACK], routes, s, port);
    if request.mode.RuleMode? {
      var k := 1 + |routes|;
      assert rules[..k] == [HIJACK] + routes;
      assert rules[k] == RouteRule(AnyConnection, Sniff);
    } else {
      assert rules == [HIJACK] + routes;
    }
  }

  // ---------------------------------------------------------------------
  // Queries
  // ---------------------------------------------------------------------

  /** Who should answer a query. */
  function ExpectedAnswer(f: Foreign, request: Request, s: Subject, kind: string): Answer {
    var override := FirstOverride(Enabled(request.dnsOverrides), s.domain);
    if override.Some? then Answer(OverrideTag(override.value), false)
    else if request.mode.DirectMode? || kind == "PTR" || OnLan(f, s) then Answer("dns-direct", false)
    else if request.mode.RuleMode? && (SomeDirectHit(f, request.customRules, s) || Domestic(f, s)) then Answer("dns-direct", true)
    else if request.tun && kind in {"A", "AAAA"} then Answer("dns-fakeip", false)
    else Answer("dns-proxy", false)
  }

  lemma FixedAnswers(f: Foreign, s: Subject, kind: string)
    ensures FirstAnswer(f, LAN_ANSWERS, s, kind) ==
            if kind == "PTR" then Some(LAN_ANSWERS[0]) else if OnLan(f, s) then Some(LAN_ANSWERS[1]) else None
    ensures FirstAnswer(f, [DOMESTIC_ANSWER], s, kind) == if Domestic(f, s) then Some(DOMESTIC_ANSWER) else None
    ensures FirstAnswer(f, [FAKEIP_ANSWER], s, kind) == if kind in {"A", "AAAA"} then Some(FAKEIP_ANSWER) else None
    ensures FirstAnswer(f, [], s, kind) == None
  {
    TwoAnswers(f, LAN_ANSWERS[0], LAN_ANSWERS[1], s, kind);
  }

  /** What the lists say after the overrides, in the modes that have them. */
  lemma LaterAnswers(f: Foreign, request: Request, s: Subject, kind: string)
    requires !request.mode.DirectMode?
    ensures
      var last := if request.tun then [FAKEIP_ANSWER] else [];
      var answer := FirstAnswer(f, LAN_ANSWERS + ModeAnswers(f, request) + last, s, kind);
      if kind == "PTR" || OnLan(f, s) then answer.Some? && answer.value.server == "dns-direct" && !answer.value.ipv4Only
      else if request.mode.RuleMode? && (SomeDirectHit(f, request.customRules, s) || Domestic(f, s)) then
        answer.Some? && answer.value.server == "dns-direct" && answer.value.ipv4Only
      else if request.tun && kind in {"A", "AAAA"} then answer == Some(FAKEIP_ANSWER)
      else answer == None
  {
    var custom, middle := CustomAnswers(f, request.customRules), ModeAnswers(f, request);
    var last := if request.tun then [FAKEIP_ANSWER] else [];
    CustomAnswersDecide(f, request.customRules, s, kind);
    FixedAnswers(f, s, kind);
    hide CustomAnswers, FirstAnswer, SomeDirectHit, OnLan, Domestic;
    FirstAnswerOfBoth(f, LAN_ANSWERS + middle, last, s, kind);
    FirstAnswerOfBoth(f, LAN_ANSWERS, middle, s, kind);
    FirstAnswerOfBoth(f, custom, [DOMESTIC_ANSWER], s, kind);
  }

  /** In every mode every query, of whatever type, is answered by that server. */
  lemma AnswersAreAsExpected(f: Foreign, request: Request, cached: bool, s: Subject, kind: string)
    ensures AnswerBy(f, ConfigOf(f, request, cached), s, kind) == ExpectedAnswer(f, request, s, kind)
  {
    var enabled := Enabled(request.dnsOverrides);
    var overrides := OverrideAnswers(enabled);
    OverrideAnswersDecide(f, enabled, s, kind);
    FixedAnswers(f, s, kind);
    hide Enabled, OverrideAnswers, FirstAnswer, SomeDirectHit, OnLan, Domestic, OverrideTag, FirstOverride, ModeAnswers;
    if request.mode.DirectMode? {
      assert DnsRules(f, request) == overrides + [];
      FirstAnswerOfBoth(f, overrides, [], s, kind);
    } else {
      var last := if request.tun then [FAKEIP_ANSWER] else [];
      LaterAnswers(f, request, s, kind);
      FirstAnswerOfBoth(f, overrides, LAN_ANSWERS + ModeAnswers(f, request) + last, s, kind);
    }
  }

  // ---------------------------------------------------------------------
  // Connections to addresses
  // ---------------------------------------------------------------------

  /** A destination without a name: rules match it by address or by process. */
  datatype Address = Address(private: bool, domestic: bool, hits: (MatchType, string) -> bool)

  predicate MatchesAddress(m: Matcher, a: Address, port: nat) {
    match m
    case AnyConnection => true
    case Port(p) => p == port
    case PrivateAddress => a.private
    case Custom(matchType, value) => matchType in {IpCidr, ProcessName, ProcessPath} && a.hits(matchType, value)
    case InRuleSet(tag) => tag == "geoip-cn" && a.domestic
    case _ => false
  }

  predicate DecidesAddress(rule: RouteRule, a: Address, port: nat) {
    (rule.action.HijackDns? || rule.action.ToOutbound?) && MatchesAddress(rule.matcher, a, port)
  }

  function FirstAddressRoute(rules: seq<RouteRule>, a: Address, port: nat): Option<RouteAction> {
    if rules == [] then None
    else if DecidesAddress(rules[0], a, port) then Some(rules[0].action)
    else FirstAddressRoute(rules[1..], a, port)
  }

  function AddressRouteTo(config: Config, a: Address, port: nat): RouteAction {
    match FirstAddressRoute(config.rules, a, port)
    case Some(action) => action
    case None => ToOutbound(config.final)
  }

  predicate RuleHitsAddress(f: Foreign, rule: CustomRule, a: Address) {
    && rule.enabled && rule.matchType in {IpCidr, ProcessName, ProcessPath} && f.normalize(rule.matchType, rule.value).Some?
    && a.hits(rule.matchType, f.normalize(rule.matchType, rule.value).value)
  }

  function FirstAddressHit(f: Foreign, rules: seq<CustomRule>, a: Address): (r: Option<Action>)
    ensures r.None? ==> forall i :: 0 <= i < |rules| ==> !RuleHitsAddress(f, rules[i], a)
    ensures r.Some? ==> exists i :: 0 <= i < |rules| && RuleHitsAddress(f, rules[i], a) && rules[i].action == r.value
                                    && forall j :: 0 <= j < i ==> !RuleHitsAddress(f, rules[j], a)
  {
    if rules == [] then None
    else
      var last := rules[|rules| - 1];
      var earlier := FirstAddressHit(f, rules[..|rules| - 1], a);
      if earlier.Some? then earlier
      else if RuleHitsAddress(f, last, a) then Some(last.action)
      else None
  }

  function ExpectedAddressRoute(f: Foreign, request: Request, a: Address, port: nat): RouteAction {
    if port == 53 then HijackDns
    else
      match request.mode
      case DirectMode => ToOutbound("direct")
      case GlobalMode => ToOutbound("proxy")
      case RuleMode =>
        if a.private then ToOutbound("direct")
        else
          match FirstAddressHit(f, request.customRules, a)
          case Some(Direct) => ToOutbound("direct")
          case Some(Proxy) => ToOutbound("proxy")
          case Some(Block) => ToOutbound("block")
          case None => ToOutbound(if a.domestic then "direct" else "proxy")
  }

  lemma {:induction false} FirstAddressRouteOfBoth(x: seq<RouteRule>, y: seq<RouteRule>, a: Address, port: nat)
    ensures FirstAddressRoute(x + y, a, port) ==
            if FirstAddressRoute(x, a, port).Some? then FirstAddressRoute(x, a, port) else FirstAddressRoute(y, a, port)
  {
    if x == [] {
      assert x + y == y;
    } else {
      FirstAddressRouteOfBoth(x[1..], y, a, port);
      assert (x + y)[1..] == x[1..] + y;
    }
  }

  lemma {:induction false} OverridesSpareAddresses(enabled: seq<DnsOverride>, a: Address, port: nat)
    ensures FirstAddressRoute(OverrideRoutes(enabled), a, port) == None
  {
    if enabled != [] {
      hide OverrideTag;
      var i := |enabled| - 1;
      var matcher := DomainSuffixes([enabled[i].domainSuffix]);
      var pair := [RouteRule(matcher, Resolve(OverrideTag(i))), RouteRule(matcher, ToOutbound("direct"))];
      OverridesSpareAddresses(enabled[..i], a, port);
      assert pair[1..] == [pair[1]] && [pair[1]][1..] == [];
      assert FirstAddressRoute([pair[1]], a, port) == None;
      FirstAddressRouteOfBoth(OverrideRoutes(enabled[..i]), pair, a, port);
    }
  }

  lemma {:induction false} CustomRoutesDecideAddresses(f: Foreign, rules: seq<CustomRule>, a: Address, port: nat)
    ensures FirstAddressRoute(CustomRoutes(f, rules), a, port) ==
            match FirstAddressHit(f, rules, a) case None => None case Some(action) => Some(ToOutbound(OutboundOf(action)))
  {
    if rules != [] {
      var n := |rules| - 1;
      CustomRoutesDecideAddresses(f, rules[..n], a, port);
      FirstAddressRouteOfBoth(CustomRoutes(f, rules[..n]), CustomRoute(f, rules[n]), a, port);
    }
  }

  lemma FixedAddressRoutes(a: Address, port: nat)
    requires port != 53
    ensures FirstAddressRoute([HIJACK], a, port) == None && FirstAddressRoute([], a, port) == None
    ensures FirstAddressRoute([RouteRule(AnyConnection, Sniff), RouteRule(PrivateAddress, ToOutbound("direct"))], a, port)
            == if a.private then Some(ToOutbound("direct")) else None
    ensures FirstAddressRoute(DOMESTIC_ROUTES, a, port) == if a.domestic then Some(ToOutbound("direct")) else None
  {
    var sniff, private := RouteRule(AnyConnection, Sniff), RouteRule(PrivateAddress, ToOutbound("direct"));
    assert [sniff, private][1..] == [private] && [private][1..] == [];
    assert FirstAddressRoute([private], a, port) == if a.private then Some(ToOutbound("direct")) else None;
    assert |"geosite-cn"| != |"geoip-cn"|;
    assert DOMESTIC_ROUTES[1..] == [DOMESTIC_ROUTES[1]] && [DOMESTIC_ROUTES[1]][1..] == [];
    assert FirstAddressRoute([DOMESTIC_ROUTES[1]], a, port) == if a.domestic then Some(ToOutbound("direct")) else None;
  }

  /** In every mode every connection to a bare address goes where it should. */
  lemma AddressRoutesAreAsExpected(f: Foreign, request: Request, cached: bool, a: Address, port: nat)
    ensures AddressRouteTo(ConfigOf(f, request, cached), a, port) == ExpectedAddressRoute(f, request, a, port)
  {
    if port == 53 {
      assert RouteRules(f, request)[0] == HIJACK;
    } else {
      var routes := OverrideRoutes(Enabled(request.dnsOverrides));
      var custom := CustomRoutes(f, request.customRules);
      OverridesSpareAddresses(Enabled(request.dnsOverrides), a, port);
      FixedAddressRoutes(a, port);
      CustomRoutesDecideAddresses(f, request.customRules, a, port);
      hide Enabled, OverrideRoutes, CustomRoutes, FirstAddressHit, FirstAddressRoute;
      var first := [RouteRule(AnyConnection, Sniff), RouteRule(PrivateAddress, ToOutbound("direct"))];
      FirstAddressRouteOfBoth([HIJACK] + routes, ModeRoutes(f, request), a, port);
      FirstAddressRouteOfBoth([HIJACK], routes, a, port);
      FirstAddressRouteOfBoth(first + custom, DOMESTIC_ROUTES, a, port);
      FirstAddressRouteOfBoth(first, custom, a, port);
    }
  }

  // ---------------------------------------------------------------------
  // Servers, selections and rule sets
  // ---------------------------------------------------------------------

  /** The default resolver is the subscription's own server if one of its name servers can be used. */
  lemma {:induction false} SubscriptionServerIff(f: Foreign, nameservers: seq<string>)
    ensures
      var server := SubscriptionServer(f, nameservers);
      && (server.Some? <==> exists i :: 0 <= i < |nameservers| && f.httpsDnsHost(nameservers[i]).Some?)
      && (server.Some? ==> exists i ::
            && 0 <= i < |nameservers| && f.httpsDnsHost(nameservers[i]).Some?
            && (forall j :: 0 <= j < i ==> f.httpsDnsHost(nameservers[j]).None?)
            && (server.value.domainResolver == None <==> f.isAddress(f.httpsDnsHost(nameservers[i]).value)))
  {
    if nameservers != [] {
      if f.httpsDnsHost(nameservers[0]).None? {
        SubscriptionServerIff(f, nameservers[1..]);
        if SubscriptionServer(f, nameservers).Some? {
          var i :| 0 <= i < |nameservers| - 1 && f.httpsDnsHost(nameservers[1..][i]).Some?
                   && (forall j :: 0 <= j < i ==> f.httpsDnsHost(nameservers[1..][j]).None?)
                   && (SubscriptionServer(f, nameservers[1..]).value.domainResolver == None
                       <==> f.isAddress(f.httpsDnsHost(nameservers[1..][i]).value));
          forall j | 0 <= j < i + 1 ensures f.httpsDnsHost(nameservers[j]).None? {
            if j > 0 {
              assert nameservers[1..][j - 1] == nameservers[j];
            }
          }
          assert nameservers[i + 1] == nameservers[1..][i];
        }
        if i :| 0 <= i < |nameservers| && f.httpsDnsHost(nameservers[i]).Some? {
          assert nameservers[1..][i - 1] == nameservers[i];
        }
      } else {
        assert f.httpsDnsHost(nameservers[0]).Some?;
      }
    }
  }

  /** Names of outbounds without an override are resolved by the direct server in direct mode, and
      otherwise by the subscription's server, or the bootstrap server if it has none. */
  lemma DefaultResolverIs(f: Foreign, request: Request, cached: bool)
    ensures
      ConfigOf(f, request, cached).defaultDomainResolver ==
        if request.mode.DirectMode? then "dns-direct"
        else if exists i :: 0 <= i < |request.nameservers| && f.httpsDnsHost(request.nameservers[i]).Some? then "dns-subscription"
        else "dns-bootstrap"
  {
    SubscriptionServerIff(f, request.nameservers);
  }

  /** The server an override names is resolved directly, if it is a name, and never through the proxy. */
  lemma OverrideServersAre(f: Foreign, request: Request, i: nat)
    requires i < |Enabled(request.dnsOverrides)|
    ensures
      var servers := DnsServers(f, request);
      var server := Enabled(request.dnsOverrides)[i].server;
      && i + 1 < |servers|
      && servers[i + 1] == DnsServer(OverrideTag(i), None, if f.isAddress(server) then None else Some("dns-direct"))
  {
    hide OverrideTag, Enabled, SubscriptionServer;
  }

  /** A suffix covers the name itself and what is below it, and nothing that merely ends like it. */
  lemma SuffixesCoverWholeLabels(host: string, suffix: string)
    ensures UnderSuffix(host, suffix) <==> host == suffix || exists below: string :: host == below + "." + suffix
  {
    if EndsWith(host, "." + suffix) {
      assert host == host[..|host| - |suffix| - 1] + "." + suffix;
    }
    if below: string :| host == below + "." + suffix {
      assert host[|host| - |"." + suffix|..] == "." + suffix;
    }
  }

  /** Hosts are compared without trailing dots and in lower case. */
  lemma HostsAreNormalized(server: string, n: nat)
    requires n <= |server| && (n > 0 ==> server[n - 1] != '.') && All(server[n..], c => c == '.')
    ensures HostOf(server) == Lower(server[..n])
    ensures forall i :: 0 <= i < n ==> !('A' <= HostOf(server)[i] <= 'Z')
  {
    var dot := (c: char) => c == '.';
    var m := TrimRightDrops(server, dot);
    assert forall k :: n <= k < |server| ==> server[k] == server[n..][k - n];
    assert forall k :: m <= k < |server| ==> server[k] == server[m..][k - m];
    assert m == n;
  }

  /** Only the server for proxied names is reached through the proxy; the FakeIP server exists exactly
      with TUN outside direct mode. */
  lemma OnlyOneServerIsProxied(f: Foreign, request: Request, k: nat)
    requires k < |DnsServers(f, request)|
    ensures
      var server := DnsServers(f, request)[k];
      && (server.tag == "dns-proxy" <==> server.detour == Some("proxy"))
      && (server.tag != "dns-proxy" <==> server.detour == None)
  {
    hide OverrideTag, Enabled, SubscriptionServer;
    OverrideTagsDiffer(if k > 0 then k - 1 else 0, 0);
    FixedTagsDiffer();
    SubscriptionResolvesFirst(f, request.nameservers);
    var tags := ["dns-direct", "dns-bootstrap", "dns-subscription", "dns-proxy", "dns-fakeip"];
    assert tags[0] != tags[3] && tags[1] != tags[3] && tags[2] != tags[3] && tags[4] != tags[3];
  }

  lemma FakeIpServerIff(f: Foreign, request: Request)
    ensures (exists k :: 0 <= k < |DnsServers(f, request)| && DnsServers(f, request)[k].tag == "dns-fakeip") <==>
            request.tun && !request.mode.DirectMode?
  {
    hide OverrideTag, Enabled, SubscriptionServer;
    var servers := DnsServers(f, request);
    var tags := ["dns-direct", "dns-bootstrap", "dns-subscription", "dns-proxy", "dns-fakeip"];
    FixedTagsDiffer();
    assert tags[0] != tags[4] && tags[1] != tags[4] && tags[2] != tags[4] && tags[3] != tags[4];
    if request.tun && !request.mode.DirectMode? {
      assert servers[|servers| - 1].tag == "dns-fakeip";
    } else if k :| 0 <= k < |servers| && servers[k].tag == "dns-fakeip" {
      OverrideTagsDiffer(if k > 0 then k - 1 else 0, 0);
      assert false;
    }
  }

  /** The stored selection is kept as long as there is such a node; otherwise the first one is taken. */
  lemma SelectionIsKept(request: Request)
    ensures
      (exists i :: 0 <= i < |request.nodes| && request.nodes[i].tag == request.selectedTag)
      ==> SelectedTag(request) == request.selectedTag
    ensures
      request.nodes != [] && (forall i :: 0 <= i < |request.nodes| ==> request.nodes[i].tag != request.selectedTag)
      ==> SelectedTag(request) == request.nodes[0].tag
  {
    var tags := NodeTags(request.nodes);
    if i :| 0 <= i < |request.nodes| && request.nodes[i].tag == request.selectedTag {
      assert tags[i] == request.selectedTag;
    }
  }

  /** A selection that was stored for a selector becomes its default exactly if it is a member; nothing
      else changes. */
  lemma StoredSelectionsAreApplied(config: Config, selections: map<string, string>, i: nat)
    requires i < |config.outbounds|
    ensures
      var before, after := config.outbounds[i], SelectAll(config, selections).outbounds[i];
      if before.Selector? && before.tag in selections && selections[before.tag] in before.members
      then after == Selector(before.tag, before.members, selections[before.tag])
      else after == before
  {
  }

  /** The name of a node's server is resolved by the same server wherever it comes up: on the way of a
      connection to it, and by the outbound of the node. */
  lemma NodesAreResolvedByOverrides(f: Foreign, request: Request, cached: bool, k: nat, s: Subject, port: nat)
    requires k < |request.nodes| && port != 53
    requires !f.isAddress(request.nodes[k].server) && s.domain == HostOf(request.nodes[k].server)
    ensures
      var config := ConfigOf(f, request, cached);
      && k < |config.outbounds|
      && config.outbounds[k] == Endpoint(request.nodes[k].tag, ResolvedBy(f, config.rules, s, port))
  {
    OverridesAgree(f, request, cached, s, port, "A", request.nodes[k].server);
    hide DnsConfigOf, RouteRules, DefaultDomainResolver, DomainResolver, SelectedTag, ResolvedBy;
  }

  /** Cached rule sets are not downloaded, and missing ones not through the proxy. */
  lemma RuleSetsAre(f: Foreign, request: Request, cached: bool)
    ensures
      var sets := ConfigOf(f, request, cached).ruleSets;
      && (request.mode.RuleMode? <==> |sets| == 2) && (!request.mode.RuleMode? <==> sets == [])
      && forall k :: 0 <= k < |sets| ==> sets[k].downloadDetour == if cached then None else Some("direct")
  {
    hide DnsConfigOf, RouteRules, DefaultDomainResolver, Outbounds;
  }
}
