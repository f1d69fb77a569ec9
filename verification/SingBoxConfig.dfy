/**
 Generating the core's configuration (packages/proxy-core/src/singbox_config.rs).

 The configuration holds two ordered lists, one that routes connections and one that answers DNS
 queries; in each the first match decides. They are built by separate passes over the same request.
 The first part builds them as functions and says what they mean; the methods at the end build
 them as the source does.
 */
module SingBoxConfig {
  import opened Wrappers
  import opened Text

  datatype TunnelMode = RuleMode | GlobalMode | DirectMode
  datatype Action = Direct | Proxy | Block
  datatype MatchType = Domain | DomainSuffix | DomainKeyword | IpCidr | ProcessName | ProcessPath

  datatype CustomRule = CustomRule(enabled: bool, matchType: MatchType, value: string, action: Action)
  datatype DnsOverride = DnsOverride(enabled: bool, domainSuffix: string, server: string)
  datatype Node = Node(tag: string, server: string)

  datatype Request = Request(
    nodes: seq<Node>, selectedTag: string, tun: bool, mode: TunnelMode,
    customRules: seq<CustomRule>, dnsOverrides: seq<DnsOverride>, nameservers: seq<string>)

  /** What is asked about: a name that is still unresolved, and the process that asks. */
  datatype Subject = Subject(domain: string, process: string)

  /** Code outside this model: the normalization of rule values, which both lists share, what the
      core makes of a normalized value, the contents of the rule sets, and URL parsing. */
  datatype Foreign = Foreign(
    normalize: (MatchType, string) -> Option<string>,
    hits: (MatchType, string, Subject) -> bool,
    inRuleSet: (string, Subject) -> bool,
    isAddress: string -> bool,
    httpsDnsHost: string -> Option<string>)

  // ---------------------------------------------------------------------
  // The configuration
  // ---------------------------------------------------------------------

  datatype Matcher =
    | AnyConnection
    | Port(port: nat)
    | PrivateAddress
    | DomainSuffixes(suffixes: seq<string>)
    | Custom(matchType: MatchType, value: string)
    | InRuleSet(tag: string)
    | QueryTypes(kinds: seq<string>)

  datatype RouteAction = HijackDns | Sniff | Resolve(server: string) | ToOutbound(outbound: string)
  datatype RouteRule = RouteRule(matcher: Matcher, action: RouteAction)
  datatype DnsRule = DnsRule(matcher: Matcher, server: string, ipv4Only: bool)

  datatype DnsServer = DnsServer(tag: string, detour: Option<string>, domainResolver: Option<string>)
  datatype DnsConfig = DnsConfig(servers: seq<DnsServer>, rules: seq<DnsRule>, final: string)
  datatype RuleSet = RuleSet(tag: string, downloadDetour: Option<string>)
  datatype Outbound =
    | Endpoint(tag: string, domainResolver: Option<string>)
    | Selector(tag: string, members: seq<string>, default: string)
    | Builtin(tag: string)
  datatype Config = Config(
    dns: DnsConfig, outbounds: seq<Outbound>, rules: seq<RouteRule>, ruleSets: seq<RuleSet>,
    final: string, defaultDomainResolver: string)

  function OutboundOf(action: Action): string {
    match action
    case Direct => "direct"
    case Proxy => "proxy"
    case Block => "block"
  }

  // ---------------------------------------------------------------------
  // The overrides, counted once per pass
  // ---------------------------------------------------------------------

  function OverrideTag(i: nat): string {
    "dns-override-" + Decimal(i)
  }

  /** The enabled overrides; their positions here give them their tags. */
  function Enabled(overrides: seq<DnsOverride>): (r: seq<DnsOverride>)
    ensures |r| <= |overrides|
  {
    if overrides == [] then []
    else
      var last := overrides[|overrides| - 1];
      Enabled(overrides[..|overrides| - 1]) + if last.enabled then [last] else []
  }

  function OverrideServers(f: Foreign, enabled: seq<DnsOverride>): (r: seq<DnsServer>)
    ensures |r| == |enabled|
  {
    seq(|enabled|, i requires 0 <= i < |enabled| => DnsServer(OverrideTag(i), None, OverrideResolver(f, enabled[i])))
  }

  function OverrideResolver(f: Foreign, rule: DnsOverride): Option<string> {
    if f.isAddress(rule.server) then None else Some("dns-direct")
  }

  function OverrideAnswers(enabled: seq<DnsOverride>): (r: seq<DnsRule>)
    ensures |r| == |enabled|
  {
    seq(|enabled|, i requires 0 <= i < |enabled| => DnsRule(DomainSuffixes([enabled[i].domainSuffix]), OverrideTag(i), false))
  }

  function OverrideRoutes(enabled: seq<DnsOverride>): (r: seq<RouteRule>)
    ensures |r| == 2 * |enabled|
  {
    if enabled == [] then []
    else
      var i := |enabled| - 1;
      var matcher := DomainSuffixes([enabled[i].domainSuffix]);
      OverrideRoutes(enabled[..i]) +
      [RouteRule(matcher, Resolve(OverrideTag(i))), RouteRule(matcher, ToOutbound("direct"))]
  }

  predicate UnderSuffix(host: string, suffix: string) {
    host == suffix || EndsWith(host, "." + suffix)
  }

  /** The first enabled override that covers a host. */
  function FirstOverride(enabled: seq<DnsOverride>, host: string): (r: Option<nat>)
    ensures r.Some? ==> r.value < |enabled| && UnderSuffix(host, enabled[r.value].domainSuffix)
    ensures r.Some? ==> forall i :: 0 <= i < r.value ==> !UnderSuffix(host, enabled[i].domainSuffix)
    ensures r.None? ==> forall i :: 0 <= i < |enabled| ==> !UnderSuffix(host, enabled[i].domainSuffix)
  {
    if enabled == [] then None
    else
      var i := |enabled| - 1;
      var earlier := FirstOverride(enabled[..i], host);
      if earlier.Some? then earlier
      else if UnderSuffix(host, enabled[i].domainSuffix) then Some(i)
      else None
  }

  /** The host of a server as the overrides are compared with it. */
  function HostOf(server: string): string {
    Lower(TrimRight(server, c => c == '.'))
  }

  /** `dns_override_tag_for_server`. */
  function DomainResolver(f: Foreign, overrides: seq<DnsOverride>, server: string): Option<string> {
    if f.isAddress(server) then None
    else
      match FirstOverride(Enabled(overrides), HostOf(server))
      case None => None
      case Some(i) => Some(OverrideTag(i))
  }

  // ---------------------------------------------------------------------
  // The lists
  // ---------------------------------------------------------------------

  function CustomRoute(f: Foreign, rule: CustomRule): seq<RouteRule> {
    if !rule.enabled then []
    else
      match f.normalize(rule.matchType, rule.value)
      case None => []
      case Some(value) => [RouteRule(Custom(rule.matchType, value), ToOutbound(OutboundOf(rule.action)))]
  }

  function CustomRoutes(f: Foreign, rules: seq<CustomRule>): seq<RouteRule> {
    if rules == [] then []
    else CustomRoutes(f, rules[..|rules| - 1]) + CustomRoute(f, rules[|rules| - 1])
  }

  function CustomAnswer(f: Foreign, rule: CustomRule): seq<DnsRule> {
    if !rule.enabled || rule.action != Direct || rule.matchType == IpCidr then []
    else
      match f.normalize(rule.matchType, rule.value)
      case None => []
      case Some(value) => [DnsRule(Custom(rule.matchType, value), "dns-direct", true)]
  }

  function CustomAnswers(f: Foreign, rules: seq<CustomRule>): seq<DnsRule> {
    if rules == [] then []
    else CustomAnswers(f, rules[..|rules| - 1]) + CustomAnswer(f, rules[|rules| - 1])
  }

  const HIJACK := RouteRule(Port(53), HijackDns)
  const DOMESTIC_ROUTES := [
    RouteRule(InRuleSet("geosite-cn"), ToOutbound("direct")), RouteRule(InRuleSet("geoip-cn"), ToOutbound("direct"))]
  const LAN_SUFFIXES := ["lan", "local", "home.arpa"]
  const LAN_ANSWERS := [
    DnsRule(QueryTypes(["PTR"]), "dns-direct", false), DnsRule(DomainSuffixes(LAN_SUFFIXES), "dns-direct", false)]
  const DOMESTIC_ANSWER := DnsRule(InRuleSet("geosite-cn"), "dns-direct", true)
  const FAKEIP_ANSWER := DnsRule(QueryTypes(["A", "AAAA"]), "dns-fakeip", false)

  function ModeRoutes(f: Foreign, request: Request): seq<RouteRule> {
    if request.mode.RuleMode? then
      [RouteRule(AnyConnection, Sniff), RouteRule(PrivateAddress, ToOutbound("direct"))]
      + CustomRoutes(f, request.customRules) + DOMESTIC_ROUTES
    else []
  }

  function RouteRules(f: Foreign, request: Request): seq<RouteRule> {
    [HIJACK] + OverrideRoutes(Enabled(request.dnsOverrides)) + ModeRoutes(f, request)
  }

  function ModeAnswers(f: Foreign, request: Request): seq<DnsRule> {
    if request.mode.RuleMode? then CustomAnswers(f, request.customRules) + [DOMESTIC_ANSWER] else []
  }

  function DnsRules(f: Foreign, request: Request): seq<DnsRule> {
    OverrideAnswers(Enabled(request.dnsOverrides)) +
    if request.mode.DirectMode? then []
    else LAN_ANSWERS + ModeAnswers(f, request) + if request.tun then [FAKEIP_ANSWER] else []
  }

  /** The first name server of the subscription that can be used. */
  function SubscriptionServer(f: Foreign, nameservers: seq<string>): (r: Option<DnsServer>)
    ensures r.Some? ==> r.value.tag == "dns-subscription"
  {
    if nameservers == [] then None
    else
      match f.httpsDnsHost(nameservers[0])
      case None => SubscriptionServer(f, nameservers[1..])
      case Some(host) =>
        Some(DnsServer("dns-subscription", None, if f.isAddress(host) then None else Some("dns-bootstrap")))
  }

  function OneOrNone<T>(t: Option<T>): seq<T> {
    if t.Some? then [t.value] else []
  }

  function DnsServers(f: Foreign, request: Request): seq<DnsServer> {
    [DnsServer("dns-direct", None, None)] + OverrideServers(f, Enabled(request.dnsOverrides)) +
    if request.mode.DirectMode? then []
    else
      [DnsServer("dns-bootstrap", None, None)] + OneOrNone(SubscriptionServer(f, request.nameservers))
      + [DnsServer("dns-proxy", Some("proxy"), None)]
      + if request.tun then [DnsServer("dns-fakeip", None, None)] else []
  }

  function DnsConfigOf(f: Foreign, request: Request): DnsConfig {
    DnsConfig(DnsServers(f, request), DnsRules(f, request), if request.mode.DirectMode? then "dns-direct" else "dns-proxy")
  }

  function NodeTags(nodes: seq<Node>): (r: seq<string>)
    ensures |r| == |nodes|
  {
    seq(|nodes|, i requires 0 <= i < |nodes| => nodes[i].tag)
  }

  function Endpoints(f: Foreign, request: Request): (r: seq<Outbound>)
    ensures |r| == |request.nodes|
  {
    seq(|request.nodes|, i requires 0 <= i < |request.nodes| =>
      Endpoint(request.nodes[i].tag, DomainResolver(f, request.dnsOverrides, request.nodes[i].server)))
  }

  function SelectedTag(request: Request): string {
    var tags := NodeTags(request.nodes);
    if request.selectedTag in tags then request.selectedTag
    else if tags == [] then "direct" else tags[0]
  }

  function Outbounds(f: Foreign, request: Request): seq<Outbound> {
    Endpoints(f, request) +
    [Selector("proxy", NodeTags(request.nodes), SelectedTag(request)), Builtin("direct"), Builtin("block")]
  }

  /** With cached rule sets the two are local files, without they are downloaded. */
  function RuleSets(request: Request, cached: bool): seq<RuleSet> {
    if request.mode.RuleMode? then
      var detour := if cached then None else Some("direct");
      [RuleSet("geosite-cn", detour), RuleSet("geoip-cn", detour)]
    else []
  }

  function DefaultDomainResolver(f: Foreign, request: Request): string {
    if request.mode.DirectMode? then "dns-direct"
    else if SubscriptionServer(f, request.nameservers).Some? then "dns-subscription"
    else "dns-bootstrap"
  }

  /** `build_singbox_config`, as far as references and the two lists go. */
  function ConfigOf(f: Foreign, request: Request, cached: bool): Config {
    Config(DnsConfigOf(f, request), Outbounds(f, request), RouteRules(f, request), RuleSets(request, cached),
           if request.mode.DirectMode? then "direct" else "proxy", DefaultDomainResolver(f, request))
  }

  // ---------------------------------------------------------------------
  // What the lists mean
  // ---------------------------------------------------------------------

  /** Matching by name or process. A name that is unresolved is matched by no rule about addresses. */
  predicate MatchesName(f: Foreign, m: Matcher, s: Subject) {
    match m
    case DomainSuffixes(suffixes) => exists i :: 0 <= i < |suffixes| && UnderSuffix(s.domain, suffixes[i])
    case Custom(matchType, value) => matchType != IpCidr && f.hits(matchType, value, s)
    case InRuleSet(tag) => tag == "geosite-cn" && f.inRuleSet(tag, s)
    case _ => false
  }

  predicate MatchesConnection(f: Foreign, m: Matcher, s: Subject, port: nat) {
    m.AnyConnection? || m == Port(port) || MatchesName(f, m, s)
  }

  predicate MatchesQuery(f: Foreign, m: Matcher, s: Subject, kind: string) {
    (m.QueryTypes? && kind in m.kinds) || MatchesName(f, m, s)
  }

  predicate Decides(f: Foreign, rule: RouteRule, s: Subject, port: nat) {
    (rule.action.HijackDns? || rule.action.ToOutbound?) && MatchesConnection(f, rule.matcher, s, port)
  }

  /** The first rule that matches and ends the search decides; sniffing and resolving go on. */
  function FirstRoute(f: Foreign, rules: seq<RouteRule>, s: Subject, port: nat): Option<RouteAction> {
    if rules == [] then None
    else if Decides(f, rules[0], s, port) then Some(rules[0].action)
    else FirstRoute(f, rules[1..], s, port)
  }

  /** The server a connection is resolved with on its way: that of the last resolve rule passed. */
  function ResolvedBy(f: Foreign, rules: seq<RouteRule>, s: Subject, port: nat): Option<string> {
    if rules == [] || Decides(f, rules[0], s, port) then None
    else
      var later := ResolvedBy(f, rules[1..], s, port);
      if later.None? && rules[0].action.Resolve? && MatchesConnection(f, rules[0].matcher, s, port)
      then Some(rules[0].action.server) else later
  }

  function FirstAnswer(f: Foreign, rules: seq<DnsRule>, s: Subject, kind: string): Option<DnsRule> {
    if rules == [] then None
    else if MatchesQuery(f, rules[0].matcher, s, kind) then Some(rules[0])
    else FirstAnswer(f, rules[1..], s, kind)
  }

  /** How a connection to a name leaves. */
  function RouteTo(f: Foreign, config: Config, s: Subject, port: nat): RouteAction {
    match FirstRoute(f, config.rules, s, port)
    case Some(action) => action
    case None => ToOutbound(config.final)
  }

  datatype Answer = Answer(server: string, ipv4Only: bool)

  /** Who answers a query. */
  function AnswerBy(f: Foreign, config: Config, s: Subject, kind: string): Answer {
    match FirstAnswer(f, config.dns.rules, s, kind)
    case Some(rule) => Answer(rule.server, rule.ipv4Only)
    case None => Answer(config.dns.final, false)
  }

  const DIRECT_ANSWER := Answer("dns-direct", true)

  lemma {:induction false} FirstRouteOfBoth(f: Foreign, a: seq<RouteRule>, b: seq<RouteRule>, s: Subject, port: nat)
    ensures FirstRoute(f, a + b, s, port) ==
            if FirstRoute(f, a, s, port).Some? then FirstRoute(f, a, s, port) else FirstRoute(f, b, s, port)
  {
    if a == [] {
      assert a + b == b;
    } else {
      FirstRouteOfBoth(f, a[1..], b, s, port);
      assert (a + b)[1..] == a[1..] + b;
    }
  }

  lemma {:induction false} ResolvedByBoth(f: Foreign, a: seq<RouteRule>, b: seq<RouteRule>, s: Subject, port: nat)
    ensures ResolvedBy(f, a + b, s, port) ==
            if FirstRoute(f, a, s, port).None? && ResolvedBy(f, b, s, port).Some? then ResolvedBy(f, b, s, port)
            else ResolvedBy(f, a, s, port)
  {
    if a == [] {
      assert a + b == b;
    } else {
      ResolvedByBoth(f, a[1..], b, s, port);
      assert (a + b)[1..] == a[1..] + b;
    }
  }

  lemma {:induction false} FirstAnswerOfBoth(f: Foreign, a: seq<DnsRule>, b: seq<DnsRule>, s: Subject, kind: string)
    ensures FirstAnswer(f, a + b, s, kind) ==
            if FirstAnswer(f, a, s, kind).Some? then FirstAnswer(f, a, s, kind) else FirstAnswer(f, b, s, kind)
  {
    if a == [] {
      assert a + b == b;
    } else {
      FirstAnswerOfBoth(f, a[1..], b, s, kind);
      assert (a + b)[1..] == a[1..] + b;
    }
  }

  lemma TwoRoutes(f: Foreign, x: RouteRule, y: RouteRule, s: Subject, port: nat)
    ensures FirstRoute(f, [x, y], s, port) ==
            if Decides(f, x, s, port) then Some(x.action) else if Decides(f, y, s, port) then Some(y.action) else None
    ensures x.action.Resolve? && !y.action.Resolve? ==>
      ResolvedBy(f, [x, y], s, port) == if MatchesConnection(f, x.matcher, s, port) then Some(x.action.server) else None
  {
    hide MatchesConnection;
    assert [x, y][1..] == [y] && [y][1..] == [];
    assert FirstRoute(f, [y], s, port) == if Decides(f, y, s, port) then Some(y.action) else None;
    assert !y.action.Resolve? ==> ResolvedBy(f, [y], s, port) == None;
  }

  lemma TwoAnswers(f: Foreign, x: DnsRule, y: DnsRule, s: Subject, kind: string)
    ensures FirstAnswer(f, [x, y], s, kind) ==
            if MatchesQuery(f, x.matcher, s, kind) then Some(x) else if MatchesQuery(f, y.matcher, s, kind) then Some(y) else None
  {
    hide MatchesQuery;
    assert [x, y][1..] == [y] && [y][1..] == [];
    assert FirstAnswer(f, [y], s, kind) == if MatchesQuery(f, y.matcher, s, kind) then Some(y) else None;
  }

  // ---------------------------------------------------------------------
  // Overridden names
  // ---------------------------------------------------------------------

  lemma OneSuffix(f: Foreign, suffix: string, s: Subject)
    ensures MatchesName(f, DomainSuffixes([suffix]), s) <==> UnderSuffix(s.domain, suffix)
  {
    assert [suffix][0] == suffix;
  }

  lemma {:induction false} OverrideRoutesDecide(f: Foreign, enabled: seq<DnsOverride>, s: Subject, port: nat)
    ensures
      var i := FirstOverride(enabled, s.domain);
      && FirstRoute(f, OverrideRoutes(enabled), s, port) == (if i.Some? then Some(ToOutbound("direct")) else None)
      && ResolvedBy(f, OverrideRoutes(enabled), s, port) == (if i.Some? then Some(OverrideTag(i.value)) else None)
  {
    if enabled != [] {
      hide OverrideTag, UnderSuffix, MatchesName;
      var i := |enabled| - 1;
      var matcher := DomainSuffixes([enabled[i].domainSuffix]);
      var a, b := OverrideRoutes(enabled[..i]), [RouteRule(matcher, Resolve(OverrideTag(i))), RouteRule(matcher, ToOutbound("direct"))];
      OverrideRoutesDecide(f, enabled[..i], s, port);
      OneSuffix(f, enabled[i].domainSuffix, s);
      FirstRouteOfBoth(f, a, b, s, port);
      ResolvedByBoth(f, a, b, s, port);
      TwoRoutes(f, b[0], b[1], s, port);
    }
  }

  lemma {:induction false} OverrideAnswersDecide(f: Foreign, enabled: seq<DnsOverride>, s: Subject, kind: string)
    ensures
      var i := FirstOverride(enabled, s.domain);
      FirstAnswer(f, OverrideAnswers(enabled), s, kind) ==
        if i.Some? then Some(DnsRule(DomainSuffixes([enabled[i.value].domainSuffix]), OverrideTag(i.value), false)) else None
  {
    if enabled != [] {
      hide OverrideTag, UnderSuffix, MatchesName;
      var i := |enabled| - 1;
      var last := [DnsRule(DomainSuffixes([enabled[i].domainSuffix]), OverrideTag(i), false)];
      OverrideAnswersDecide(f, enabled[..i], s, kind);
      assert OverrideAnswers(enabled) == OverrideAnswers(enabled[..i]) + last;
      OneSuffix(f, enabled[i].domainSuffix, s);
      FirstAnswerOfBoth(f, OverrideAnswers(enabled[..i]), last, s, kind);
    }
  }

  /** The three passes that number the enabled overrides agree. For every name, in every mode, the
      first enabled override that covers it decides who answers queries, which server a connection
      is resolved with on its way out, that it leaves directly, and which resolver an outbound with
      this host names; and if none covers it, none of the three uses one. */
  lemma OverridesAgree(f: Foreign, request: Request, cached: bool, s: Subject, port: nat, kind: string, server: string)
    requires port != 53 && !f.isAddress(server) && s.domain == HostOf(server)
    ensures
      var config := ConfigOf(f, request, cached);
      var resolver := DomainResolver(f, request.dnsOverrides, server);
      && ResolvedBy(f, config.rules, s, port) == resolver
      && (resolver.Some? ==>
            && AnswerBy(f, config, s, kind) == Answer(resolver.value, false)
            && RouteTo(f, config, s, port) == ToOutbound("direct"))
  {
    var enabled := Enabled(request.dnsOverrides);
    OverrideRoutesDecide(f, enabled, s, port);
    OverrideAnswersDecide(f, enabled, s, kind);
    HijackSpares(f, s, port);
    var routes, rest := OverrideRoutes(enabled), ModeRoutes(f, request);
    hide Enabled, OverrideRoutes, OverrideAnswers, OverrideTag, FirstOverride, ModeRoutes, ModeAnswers, HostOf, MatchesName;
    FirstRouteOfBoth(f, [HIJACK] + routes, rest, s, port);
    FirstRouteOfBoth(f, [HIJACK], routes, s, port);
    ResolvedByBoth(f, [HIJACK] + routes, rest, s, port);
    ResolvedByBoth(f, [HIJACK], routes, s, port);
    ModeRoutesResolveNothing(f, request, s, port);
    var answers := OverrideAnswers(enabled);
    FirstAnswerOfBoth(f, answers, DnsRules(f, request)[|answers|..], s, kind);
    assert DnsRules(f, request) == answers + DnsRules(f, request)[|answers|..];
  }

  lemma HijackSpares(f: Foreign, s: Subject, port: nat)
    requires port != 53
    ensures FirstRoute(f, [HIJACK], s, port) == None && ResolvedBy(f, [HIJACK], s, port) == None
  {
  }

  lemma {:induction false} CustomRoutesGoOut(f: Foreign, rules: seq<CustomRule>, k: nat)
    requires k < |CustomRoutes(f, rules)|
    ensures
      var rule := CustomRoutes(f, rules)[k];
      rule.action.ToOutbound? && rule.action.outbound in ["direct", "proxy", "block"] && rule.matcher.Custom?
  {
    if rules != [] && k < |CustomRoutes(f, rules[..|rules| - 1])| {
      CustomRoutesGoOut(f, rules[..|rules| - 1], k);
    }
  }

  lemma {:induction false} NothingResolves(f: Foreign, rules: seq<RouteRule>, s: Subject, port: nat)
    requires forall k :: 0 <= k < |rules| ==> !rules[k].action.Resolve?
    ensures ResolvedBy(f, rules, s, port) == None
  {
    if rules != [] {
      NothingResolves(f, rules[1..], s, port);
    }
  }

  lemma ModeRoutesResolveNothing(f: Foreign, request: Request, s: Subject, port: nat)
    ensures ResolvedBy(f, ModeRoutes(f, request), s, port) == None
  {
    var routes := ModeRoutes(f, request);
    forall k | 0 <= k < |routes| ensures !routes[k].action.Resolve? {
      var custom := CustomRoutes(f, request.customRules);
      if 2 <= k < 2 + |custom| {
        CustomRoutesGoOut(f, request.customRules, k - 2);
      }
    }
    NothingResolves(f, routes, s, port);
  }

  // ---------------------------------------------------------------------
  // The DNS split against the route split
  // ---------------------------------------------------------------------

  /** A custom rule that matches by name or process. */
  predicate RuleHits(f: Foreign, rule: CustomRule, s: Subject) {
    && rule.enabled && rule.matchType != IpCidr && f.normalize(rule.matchType, rule.value).Some?
    && f.hits(rule.matchType, f.normalize(rule.matchType, rule.value).value, s)
  }

  /** What the first matching domain or process rule says. */
  function FirstHit(f: Foreign, rules: seq<CustomRule>, s: Subject): Option<Action> {
    if rules == [] then None
    else
      var last := rules[|rules| - 1];
      var earlier := FirstHit(f, rules[..|rules| - 1], s);
      if earlier.Some? then earlier
      else if RuleHits(f, last, s) then Some(last.action)
      else None
  }

  predicate SomeDirectHit(f: Foreign, rules: seq<CustomRule>, s: Subject) {
    exists i :: 0 <= i < |rules| && rules[i].action == Direct && RuleHits(f, rules[i], s)
  }

  lemma {:induction false} CustomRoutesDecide(f: Foreign, rules: seq<CustomRule>, s: Subject, port: nat)
    ensures FirstRoute(f, CustomRoutes(f, rules), s, port) ==
            match FirstHit(f, rules, s) case None => None case Some(action) => Some(ToOutbound(OutboundOf(action)))
  {
    if rules != [] {
      var n := |rules| - 1;
      CustomRoutesDecide(f, rules[..n], s, port);
      FirstRouteOfBoth(f, CustomRoutes(f, rules[..n]), CustomRoute(f, rules[n]), s, port);
    }
  }

  lemma {:induction false} CustomAnswersDecide(f: Foreign, rules: seq<CustomRule>, s: Subject, kind: string)
    ensures
      var answer := FirstAnswer(f, CustomAnswers(f, rules), s, kind);
      && (answer.Some? <==> SomeDirectHit(f, rules, s))
      && (answer.Some? ==> answer.value.server == "dns-direct" && answer.value.ipv4Only)
  {
    if rules != [] {
      var n := |rules| - 1;
      CustomAnswersDecide(f, rules[..n], s, kind);
      FirstAnswerOfBoth(f, CustomAnswers(f, rules[..n]), CustomAnswer(f, rules[n]), s, kind);
      SomeDirectHitSplits(f, rules, s);
      hide SomeDirectHit, FirstAnswer;
      LastAnswer(f, rules[n], s, kind);
    }
  }

  lemma LastAnswer(f: Foreign, rule: CustomRule, s: Subject, kind: string)
    ensures
      var answer := FirstAnswer(f, CustomAnswer(f, rule), s, kind);
      && (answer.Some? <==> rule.action == Direct && RuleHits(f, rule, s))
      && (answer.Some? ==> answer.value.server == "dns-direct" && answer.value.ipv4Only)
  {
  }

  lemma SomeDirectHitSplits(f: Foreign, rules: seq<CustomRule>, s: Subject)
    requires rules != []
    ensures
      var n := |rules| - 1;
      SomeDirectHit(f, rules, s) <==>
        SomeDirectHit(f, rules[..n], s) || (rules[n].action == Direct && RuleHits(f, rules[n], s))
  {
    hide RuleHits;
    var n := |rules| - 1;
    if SomeDirectHit(f, rules[..n], s) {
      var i :| 0 <= i < n && rules[..n][i].action == Direct && RuleHits(f, rules[..n][i], s);
      assert rules[i].action == Direct && RuleHits(f, rules[i], s);
    }
    if SomeDirectHit(f, rules, s) {
      var i :| 0 <= i < |rules| && rules[i].action == Direct && RuleHits(f, rules[i], s);
      if i < n {
        assert rules[..n][i].action == Direct && RuleHits(f, rules[..n][i], s);
      }
    }
  }

  lemma {:induction false} FirstDirectIsDirect(f: Foreign, rules: seq<CustomRule>, s: Subject)
    ensures FirstHit(f, rules, s) == Some(Direct) ==> SomeDirectHit(f, rules, s)
    ensures FirstHit(f, rules, s).None? ==> !SomeDirectHit(f, rules, s)
  {
    if rules != [] {
      hide SomeDirectHit;
      FirstDirectIsDirect(f, rules[..|rules| - 1], s);
      SomeDirectHitSplits(f, rules, s);
    } else {
      assert !SomeDirectHit(f, [], s);
    }
  }

  predicate Overridden(request: Request, s: Subject) {
    FirstOverride(Enabled(request.dnsOverrides), s.domain).Some?
  }

  predicate OnLan(f: Foreign, s: Subject) {
    MatchesName(f, DomainSuffixes(LAN_SUFFIXES), s)
  }

  predicate Domestic(f: Foreign, s: Subject) {
    f.inRuleSet("geosite-cn", s)
  }

  lemma RuleModeRoute(f: Foreign, request: Request, cached: bool, s: Subject, port: nat)
    requires request.mode.RuleMode? && port != 53 && !Overridden(request, s)
    ensures RouteTo(f, ConfigOf(f, request, cached), s, port) ==
            match FirstHit(f, request.customRules, s)
            case Some(action) => ToOutbound(OutboundOf(action))
            case None => ToOutbound(if Domestic(f, s) then "direct" else "proxy")
  {
    var enabled := Enabled(request.dnsOverrides);
    var custom := CustomRoutes(f, request.customRules);
    OverrideRoutesDecide(f, enabled, s, port);
    HijackSpares(f, s, port);
    CustomRoutesDecide(f, request.customRules, s, port);
    DomesticRoutesDecide(f, s, port);
    hide Enabled, OverrideRoutes, CustomRoutes, FirstHit, FirstRoute;
    var first := [RouteRule(AnyConnection, Sniff), RouteRule(PrivateAddress, ToOutbound("direct"))];
    var routes := OverrideRoutes(enabled);
    FirstRouteOfBoth(f, [HIJACK] + routes, first + custom + DOMESTIC_ROUTES, s, port);
    FirstRouteOfBoth(f, [HIJACK], routes, s, port);
    FirstRouteOfBoth(f, first + custom, DOMESTIC_ROUTES, s, port);
    FirstRouteOfBoth(f, first, custom, s, port);
  }

  lemma DomesticRoutesDecide(f: Foreign, s: Subject, port: nat)
    ensures FirstRoute(f, DOMESTIC_ROUTES, s, port) == if Domestic(f, s) then Some(ToOutbound("direct")) else None
    ensures FirstRoute(f, [RouteRule(AnyConnection, Sniff), RouteRule(PrivateAddress, ToOutbound("direct"))], s, port) == None
  {
    TwoRoutes(f, DOMESTIC_ROUTES[0], DOMESTIC_ROUTES[1], s, port);
    TwoRoutes(f, RouteRule(AnyConnection, Sniff), RouteRule(PrivateAddress, ToOutbound("direct")), s, port);
  }

  lemma FixedAnswersDecide(f: Foreign, s: Subject, kind: string)
    requires kind in ["A", "AAAA"]
    ensures !OnLan(f, s) ==> FirstAnswer(f, LAN_ANSWERS, s, kind) == None
    ensures FirstAnswer(f, [DOMESTIC_ANSWER], s, kind) == if Domestic(f, s) then Some(DOMESTIC_ANSWER) else None
    ensures FirstAnswer(f, [FAKEIP_ANSWER], s, kind) == Some(FAKEIP_ANSWER)
    ensures FirstAnswer(f, [], s, kind) == None
  {
    TwoAnswers(f, LAN_ANSWERS[0], LAN_ANSWERS[1], s, kind);
    assert "A"[0] != "PTR"[0] && "AAAA"[0] != "PTR"[0];
  }

  lemma RuleModeAnswer(f: Foreign, request: Request, cached: bool, s: Subject, kind: string)
    requires request.mode.RuleMode? && kind in ["A", "AAAA"] && !Overridden(request, s) && !OnLan(f, s)
    ensures AnswerBy(f, ConfigOf(f, request, cached), s, kind) ==
            if SomeDirectHit(f, request.customRules, s) || Domestic(f, s) then DIRECT_ANSWER
            else Answer(if request.tun then "dns-fakeip" else "dns-proxy", false)
  {
    var enabled := Enabled(request.dnsOverrides);
    var custom := CustomAnswers(f, request.customRules);
    OverrideAnswersDecide(f, enabled, s, kind);
    CustomAnswersDecide(f, request.customRules, s, kind);
    FixedAnswersDecide(f, s, kind);
    hide Enabled, OverrideAnswers, CustomAnswers, FirstAnswer, SomeDirectHit, OnLan, Domestic;
    var overrides, last := OverrideAnswers(enabled), if request.tun then [FAKEIP_ANSWER] else [];
    var middle := custom + [DOMESTIC_ANSWER];
    assert DnsRules(f, request) == overrides + (LAN_ANSWERS + middle + last);
    FirstAnswerOfBoth(f, overrides, LAN_ANSWERS + middle + last, s, kind);
    FirstAnswerOfBoth(f, LAN_ANSWERS + middle, last, s, kind);
    FirstAnswerOfBoth(f, LAN_ANSWERS, middle, s, kind);
    FirstAnswerOfBoth(f, custom, [DOMESTIC_ANSWER], s, kind);
  }

  /** In rule mode, for every name that no enabled override and no LAN suffix covers: what a domain
      or process rule routes directly is resolved by the direct server with IPv4 only, and never
      gets a FakeIP. The two splits agree exactly if no rule for another outbound comes before a
      direct one that matches as well. */
  lemma DirectRoutesAreResolvedDirectly(f: Foreign, request: Request, cached: bool, s: Subject, port: nat, kind: string)
    requires request.mode.RuleMode? && port != 53 && kind in ["A", "AAAA"]
    requires !Overridden(request, s) && !OnLan(f, s)
    ensures
      var config := ConfigOf(f, request, cached);
      var direct := RouteTo(f, config, s, port) == ToOutbound("direct");
      var answer := AnswerBy(f, config, s, kind);
      var shadowed := FirstHit(f, request.customRules, s) in {Some(Proxy), Some(Block)}
                      && (SomeDirectHit(f, request.customRules, s) || Domestic(f, s));
      && (direct ==> answer == DIRECT_ANSWER && answer.server != "dns-fakeip")
      && ((direct <==> answer == DIRECT_ANSWER) <==> !shadowed)
  {
    hide ConfigOf, RouteTo, AnswerBy, SomeDirectHit, FirstHit, Overridden, OnLan, Domestic;
    RuleModeRoute(f, request, cached, s, port);
    RuleModeAnswer(f, request, cached, s, kind);
    FirstDirectIsDirect(f, request.customRules, s);
    DistinctTexts();
  }

  lemma DistinctTexts()
    ensures "direct" != "proxy" && "direct" != "block" && "dns-direct" != "dns-fakeip"
  {
    assert |"direct"| != |"proxy"| && |"direct"| != |"block"| && "dns-direct"[4] != "dns-fakeip"[4];
  }

  /** The order of the route list is lost on the DNS list, which leaves out rules for other
      outbounds: behind a proxy rule that also matches, a direct rule still decides who answers. */
  lemma ShadowedDirectRulesStillAnswer(f: Foreign, s: Subject, keyword: string, suffix: string)
    requires f.normalize(DomainKeyword, keyword) == Some(keyword) && f.hits(DomainKeyword, keyword, s)
    requires f.normalize(DomainSuffix, suffix) == Some(suffix) && f.hits(DomainSuffix, suffix, s)
    requires !OnLan(f, s)
    ensures
      var rules := [CustomRule(true, DomainKeyword, keyword, Proxy), CustomRule(true, DomainSuffix, suffix, Direct)];
      var config := ConfigOf(f, Request([Node("node", "1.2.3.4")], "node", true, RuleMode, rules, [], []), true);
      RouteTo(f, config, s, 443) == ToOutbound("proxy") && AnswerBy(f, config, s, "A") == DIRECT_ANSWER
  {
    var rules := [CustomRule(true, DomainKeyword, keyword, Proxy), CustomRule(true, DomainSuffix, suffix, Direct)];
    var request := Request([Node("node", "1.2.3.4")], "node", true, RuleMode, rules, [], []);
    assert !Overridden(request, s);
    RuleModeRoute(f, request, true, s, 443);
    RuleModeAnswer(f, request, true, s, "A");
    hide ConfigOf, RouteTo, AnswerBy, OnLan, Domestic;
    assert RuleHits(f, rules[0], s) && RuleHits(f, rules[1], s);
    assert SomeDirectHit(f, rules, s);
    assert rules[..1] == [rules[0]] && rules[..1][..0] == [];
    assert FirstHit(f, rules[..1], s) == Some(Proxy);
  }

  // ---------------------------------------------------------------------
  // Closed references
  // ---------------------------------------------------------------------

  function ServerTags(config: Config): set<string> {
    set i | 0 <= i < |config.dns.servers| :: config.dns.servers[i].tag
  }

  function OutboundTags(config: Config): set<string> {
    set i | 0 <= i < |config.outbounds| :: config.outbounds[i].tag
  }

  function RuleSetTags(config: Config): set<string> {
    set i | 0 <= i < |config.ruleSets| :: config.ruleSets[i].tag
  }

  predicate Within(reference: Option<string>, tags: set<string>) {
    reference.None? || reference.value in tags
  }

  predicate MatcherDefined(m: Matcher, ruleSets: set<string>) {
    m.InRuleSet? ==> m.tag in ruleSets
  }

  /** Every DNS server, outbound and rule set that is used anywhere is defined. */
  predicate DnsClosed(config: Config) {
    && config.dns.final in ServerTags(config) && config.defaultDomainResolver in ServerTags(config)
    && (forall k :: 0 <= k < |config.dns.servers| ==>
          && Within(config.dns.servers[k].detour, OutboundTags(config))
          && Within(config.dns.servers[k].domainResolver, ServerTags(config)))
    && (forall k :: 0 <= k < |config.dns.rules| ==>
          && config.dns.rules[k].server in ServerTags(config)
          && MatcherDefined(config.dns.rules[k].matcher, RuleSetTags(config)))
  }

  predicate RouteRuleClosed(rule: RouteRule, config: Config) {
    && (rule.action.Resolve? ==> rule.action.server in ServerTags(config))
    && (rule.action.ToOutbound? ==> rule.action.outbound in OutboundTags(config))
    && MatcherDefined(rule.matcher, RuleSetTags(config))
  }

  predicate OutboundClosed(o: Outbound, config: Config) {
    match o
    case Endpoint(_, resolver) => Within(resolver, ServerTags(config))
    case Selector(_, members, default) =>
      default in OutboundTags(config) && forall k :: 0 <= k < |members| ==> members[k] in OutboundTags(config)
    case Builtin(_) => true
  }

  predicate RoutesClosed(config: Config) {
    && config.final in OutboundTags(config)
    && (forall k :: 0 <= k < |config.rules| ==> RouteRuleClosed(config.rules[k], config))
    && (forall k :: 0 <= k < |config.outbounds| ==> OutboundClosed(config.outbounds[k], config))
    && (forall k :: 0 <= k < |config.ruleSets| ==> Within(config.ruleSets[k].downloadDetour, OutboundTags(config)))
  }

  /** The tags of servers that are there for every request with this mode. */
  lemma FixedServers(f: Foreign, request: Request, cached: bool)
    ensures
      var config := ConfigOf(f, request, cached);
      var tags := ServerTags(config);
      && "dns-direct" in tags
      && (forall i :: 0 <= i < |Enabled(request.dnsOverrides)| ==> OverrideTag(i) in tags)
      && (!request.mode.DirectMode? ==>
            && "dns-bootstrap" in tags && "dns-proxy" in tags
            && (SubscriptionServer(f, request.nameservers).Some? ==> "dns-subscription" in tags)
            && (request.tun ==> "dns-fakeip" in tags))
  {
    hide OverrideTag, Enabled, SubscriptionServer, Outbounds, RouteRules, DnsRules;
    var config := ConfigOf(f, request, cached);
    var servers := config.dns.servers;
    var overrides := OverrideServers(f, Enabled(request.dnsOverrides));
    var n := 1 + |overrides|;
    assert servers[0].tag in ServerTags(config);
    forall i | 0 <= i < |overrides| ensures OverrideTag(i) in ServerTags(config) {
      assert servers[1 + i] == overrides[i];
    }
    if !request.mode.DirectMode? {
      var subscription := OneOrNone(SubscriptionServer(f, request.nameservers));
      assert servers[n].tag == "dns-bootstrap" && servers[n + 1 + |subscription|].tag == "dns-proxy";
      assert subscription != [] ==> servers[n + 1] == subscription[0];
      assert request.tun ==> servers[n + 2 + |subscription|].tag == "dns-fakeip";
    }
  }

  lemma FixedOutbounds(f: Foreign, request: Request, cached: bool)
    ensures
      var tags := OutboundTags(ConfigOf(f, request, cached));
      && "proxy" in tags && "direct" in tags && "block" in tags
      && (forall i :: 0 <= i < |request.nodes| ==> request.nodes[i].tag in tags)
  {
    hide DnsConfigOf, RouteRules, DefaultDomainResolver, DomainResolver, SelectedTag;
    var config := ConfigOf(f, request, cached);
    var n := |request.nodes|;
    assert config.outbounds[n].tag == "proxy" && config.outbounds[n + 1].tag == "direct" && config.outbounds[n + 2].tag == "block";
    forall i | 0 <= i < n ensures request.nodes[i].tag in OutboundTags(config) {
      assert config.outbounds[i].tag == request.nodes[i].tag;
    }
  }

  lemma FixedRuleSets(f: Foreign, request: Request, cached: bool)
    ensures request.mode.RuleMode? ==> {"geosite-cn", "geoip-cn"} <= RuleSetTags(ConfigOf(f, request, cached))
  {
    hide DnsConfigOf, RouteRules, DefaultDomainResolver, Outbounds;
    var config := ConfigOf(f, request, cached);
    if request.mode.RuleMode? {
      assert config.ruleSets[0].tag == "geosite-cn" && config.ruleSets[1].tag == "geoip-cn";
    }
  }

  lemma {:induction false} CustomAnswersAreDirect(f: Foreign, rules: seq<CustomRule>, k: nat)
    requires k < |CustomAnswers(f, rules)|
    ensures CustomAnswers(f, rules)[k].server == "dns-direct" && CustomAnswers(f, rules)[k].matcher.Custom?
  {
    if rules != [] && k < |CustomAnswers(f, rules[..|rules| - 1])| {
      CustomAnswersAreDirect(f, rules[..|rules| - 1], k);
    }
  }

  lemma {:induction false} OverrideRoutesAre(enabled: seq<DnsOverride>, k: nat)
    requires k < 2 * |enabled|
    ensures
      var rule := OverrideRoutes(enabled)[k];
      && rule.matcher.DomainSuffixes?
      && rule.action == if k % 2 == 0 then Resolve(OverrideTag(k / 2)) else ToOutbound("direct")
  {
    hide OverrideTag;
    if k < 2 * (|enabled| - 1) {
      OverrideRoutesAre(enabled[..|enabled| - 1], k);
    }
  }

  lemma RuleModeRoutesAre(f: Foreign, request: Request, k: nat)
    requires k < |ModeRoutes(f, request)|
    ensures
      var rule := ModeRoutes(f, request)[k];
      && !rule.action.Resolve?
      && (rule.action.ToOutbound? ==> rule.action.outbound in ["direct", "proxy", "block"])
      && (rule.matcher.InRuleSet? ==> request.mode.RuleMode? && rule.matcher.tag in ["geosite-cn", "geoip-cn"])
  {
    var custom := CustomRoutes(f, request.customRules);
    if 2 <= k < 2 + |custom| {
      CustomRoutesGoOut(f, request.customRules, k - 2);
    }
  }

  /** What a route rule may refer to. */
  predicate RouteKnown(request: Request, rule: RouteRule) {
    && (rule.action.Resolve? ==> exists i: nat :: i < |Enabled(request.dnsOverrides)| && rule.action.server == OverrideTag(i))
    && (rule.action.ToOutbound? ==> rule.action.outbound in ["direct", "proxy", "block"])
    && (rule.matcher.InRuleSet? ==> request.mode.RuleMode? && rule.matcher.tag in ["geosite-cn", "geoip-cn"])
  }

  lemma RoutesAreKnown(f: Foreign, request: Request, k: nat)
    requires k < |RouteRules(f, request)|
    ensures RouteKnown(request, RouteRules(f, request)[k])
  {
    hide OverrideTag, Enabled, OverrideRoutes, ModeRoutes;
    var enabled := Enabled(request.dnsOverrides);
    var n := |OverrideRoutes(enabled)|;
    if 1 <= k < 1 + n {
      OverrideRoutesAre(enabled, k - 1);
      assert (k - 1) / 2 < |enabled|;
    } else if 1 + n <= k {
      RuleModeRoutesAre(f, request, k - 1 - n);
    }
  }

  lemma RoutesAreClosed(f: Foreign, request: Request, cached: bool, k: nat)
    requires k < |RouteRules(f, request)|
    ensures RouteRuleClosed(RouteRules(f, request)[k], ConfigOf(f, request, cached))
  {
    hide Enabled, ServerTags, OutboundTags, RuleSetTags, RouteRules, ConfigOf, OverrideTag, SubscriptionServer;
    FixedServers(f, request, cached);
    FixedOutbounds(f, request, cached);
    FixedRuleSets(f, request, cached);
    RoutesAreKnown(f, request, k);
  }

  /** What a DNS rule may refer to. */
  predicate AnswerKnown(request: Request, rule: DnsRule) {
    && (|| rule.server == "dns-direct"
        || (exists i: nat :: i < |Enabled(request.dnsOverrides)| && rule.server == OverrideTag(i))
        || (rule.server == "dns-fakeip" && request.tun && !request.mode.DirectMode?))
    && (rule.matcher.InRuleSet? ==> request.mode.RuleMode? && rule.matcher.tag == "geosite-cn")
  }

  lemma AnswersAreKnown(f: Foreign, request: Request, k: nat)
    requires k < |DnsRules(f, request)|
    ensures AnswerKnown(request, DnsRules(f, request)[k])
  {
    hide OverrideTag, Enabled, CustomAnswers;
    var overrides := OverrideAnswers(Enabled(request.dnsOverrides));
    var custom := CustomAnswers(f, request.customRules);
    var n := |overrides| + |LAN_ANSWERS|;
    var rule := DnsRules(f, request)[k];
    if k < |overrides| {
      assert rule == overrides[k] && rule.server == OverrideTag(k);
    } else if k < n {
      assert rule == LAN_ANSWERS[k - |overrides|];
    } else if request.mode.RuleMode? && k < n + |custom| {
      CustomAnswersAreDirect(f, request.customRules, k - n);
      assert rule == custom[k - n];
    }
  }

  lemma AnswersAreClosed(f: Foreign, request: Request, cached: bool, k: nat)
    requires k < |DnsRules(f, request)|
    ensures
      var rule := DnsRules(f, request)[k];
      var config := ConfigOf(f, request, cached);
      rule.server in ServerTags(config) && MatcherDefined(rule.matcher, RuleSetTags(config))
  {
    hide Enabled, ServerTags, RuleSetTags, DnsRules, ConfigOf, OverrideTag, SubscriptionServer;
    FixedServers(f, request, cached);
    FixedRuleSets(f, request, cached);
    AnswersAreKnown(f, request, k);
  }

  lemma EndpointsAreClosed(f: Foreign, request: Request, cached: bool, k: nat)
    requires k < |Outbounds(f, request)|
    ensures OutboundClosed(Outbounds(f, request)[k], ConfigOf(f, request, cached)) <==>
            (Outbounds(f, request)[k].Selector? ==> SelectedTag(request) in OutboundTags(ConfigOf(f, request, cached)))
  {
    hide Enabled, ServerTags, OutboundTags, ConfigOf, OverrideTag, SubscriptionServer, SelectedTag;
    FixedServers(f, request, cached);
    FixedOutbounds(f, request, cached);
  }

  lemma DnsIsClosed(f: Foreign, request: Request, cached: bool)
    ensures DnsClosed(ConfigOf(f, request, cached))
  {
    hide ServerTags, OutboundTags, RuleSetTags, DnsServers, DnsRules, MatcherDefined, Enabled, SubscriptionServer, OverrideTag;
    var config := ConfigOf(f, request, cached);
    FixedServers(f, request, cached);
    forall k | 0 <= k < |config.dns.rules|
      ensures config.dns.rules[k].server in ServerTags(config) && MatcherDefined(config.dns.rules[k].matcher, RuleSetTags(config))
    {
      AnswersAreClosed(f, request, cached, k);
    }
    forall k | 0 <= k < |config.dns.servers|
      ensures Within(config.dns.servers[k].detour, OutboundTags(config)) && Within(config.dns.servers[k].domainResolver, ServerTags(config))
    {
      ServersAreClosed(f, request, cached, k);
    }
  }

  /** Whatever the request: no reference to a DNS server, an outbound or a rule set dangles. */
  lemma ReferencesAreClosed(f: Foreign, request: Request, cached: bool)
    ensures DnsClosed(ConfigOf(f, request, cached)) && RoutesClosed(ConfigOf(f, request, cached))
  {
    hide DnsClosed, OutboundTags, RouteRules, Outbounds, RuleSetTags, RouteRuleClosed, OutboundClosed;
    var config := ConfigOf(f, request, cached);
    DnsIsClosed(f, request, cached);
    FixedOutbounds(f, request, cached);
    forall k | 0 <= k < |config.rules| ensures RouteRuleClosed(config.rules[k], config) {
      RoutesAreClosed(f, request, cached, k);
    }
    forall k | 0 <= k < |config.outbounds| ensures OutboundClosed(config.outbounds[k], config) {
      EndpointsAreClosed(f, request, cached, k);
    }
  }

  lemma {:induction false} SubscriptionResolvesFirst(f: Foreign, nameservers: seq<string>)
    ensures
      var server := SubscriptionServer(f, nameservers);
      server.Some? ==> server.value.detour == None && server.value.domainResolver in [None, Some("dns-bootstrap")]
  {
    if nameservers != [] {
      SubscriptionResolvesFirst(f, nameservers[1..]);
    }
  }

  lemma ServersAreClosed(f: Foreign, request: Request, cached: bool, k: nat)
    requires k < |DnsServers(f, request)|
    ensures
      var server := DnsServers(f, request)[k];
      var config := ConfigOf(f, request, cached);
      Within(server.detour, OutboundTags(config)) && Within(server.domainResolver, ServerTags(config))
  {
    hide Enabled, ServerTags, OutboundTags, ConfigOf, OverrideTag, SubscriptionServer;
    FixedServers(f, request, cached);
    FixedOutbounds(f, request, cached);
    SubscriptionResolvesFirst(f, request.nameservers);
  }

  /** The selector's default is one of its members exactly if there is a node at all. */
  lemma SelectionIsAMember(request: Request)
    ensures SelectedTag(request) in NodeTags(request.nodes) <==> request.nodes != []
    ensures request.nodes == [] ==> SelectedTag(request) == "direct"
  {
    var tags := NodeTags(request.nodes);
    if request.nodes != [] {
      assert tags[0] in tags;
    } else {
      assert tags == [];
    }
  }

  // ---------------------------------------------------------------------
  // Distinct tags
  // ---------------------------------------------------------------------

  lemma OverrideTagsDiffer(i: nat, j: nat)
    ensures OverrideTag(i) == OverrideTag(j) ==> i == j
    ensures OverrideTag(i) !in ["dns-direct", "dns-bootstrap", "dns-subscription", "dns-proxy", "dns-fakeip"]
  {
    if OverrideTag(i) == OverrideTag(j) {
      assert OverrideTag(i)[13..] == Decimal(i) && OverrideTag(j)[13..] == Decimal(j);
      DecimalIsInjective(i, j);
    }
    assert OverrideTag(i)[4] == 'o';
  }

  /** No two DNS servers have the same tag, so every tag names one server. */
  lemma DnsServerTagsAreDistinct(f: Foreign, request: Request, i: nat, j: nat)
    requires i < j < |DnsServers(f, request)|
    ensures DnsServers(f, request)[i].tag != DnsServers(f, request)[j].tag
  {
    hide SubscriptionServer, Enabled, OverrideTag;
    var servers, n := DnsServers(f, request), |Enabled(request.dnsOverrides)|;
    forall k: nat | k < |servers| ensures servers[k].tag == TagAt(f, request, k) {
    }
    OverrideTagsDiffer(if 1 <= i <= n then i - 1 else 0, if 1 <= j <= n then j - 1 else 0);
    OverrideTagsDiffer(if 1 <= j <= n then j - 1 else 0, 0);
    FixedTagsDiffer();
  }

  /** The tags in the order of the servers. */
  function TagAt(f: Foreign, request: Request, k: nat): string {
    var n := |Enabled(request.dnsOverrides)|;
    var skip := if SubscriptionServer(f, request.nameservers).Some? then 0 else 1;
    if k == 0 then "dns-direct"
    else if k <= n then OverrideTag(k - 1)
    else if k == n + 1 then "dns-bootstrap"
    else if k + skip == n + 2 then "dns-subscription"
    else if k + skip == n + 3 then "dns-proxy"
    else "dns-fakeip"
  }

  lemma FixedTagsDiffer()
    ensures Distinct(["dns-direct", "dns-bootstrap", "dns-subscription", "dns-proxy", "dns-fakeip"])
  {
    var tags := ["dns-direct", "dns-bootstrap", "dns-subscription", "dns-proxy", "dns-fakeip"];
    assert tags[0][4] == 'd' && tags[1][4] == 'b' && tags[2][4] == 's' && tags[3][4] == 'p' && tags[4][4] == 'f';
  }

  function TagsOf(outbounds: seq<Outbound>): (r: seq<string>)
    ensures |r| == |outbounds|
  {
    seq(|outbounds|, i requires 0 <= i < |outbounds| => outbounds[i].tag)
  }

  /** The outbound tags are distinct exactly if those of the nodes are, and no node takes the name of
      the selector or of a built-in outbound. */
  lemma OutboundTagsAreDistinct(f: Foreign, request: Request)
    ensures
      Distinct(TagsOf(Outbounds(f, request))) <==>
        && Distinct(NodeTags(request.nodes))
        && forall i :: 0 <= i < |request.nodes| ==> request.nodes[i].tag !in ["proxy", "direct", "block"]
  {
    hide DomainResolver, SelectedTag;
    var n := |request.nodes|;
    var tags := TagsOf(Outbounds(f, request));
    assert tags == NodeTags(request.nodes) + ["proxy", "direct", "block"];
    assert tags[n] == "proxy" && tags[n + 1] == "direct" && tags[n + 2] == "block";
    DistinctTexts();
    forall i | 0 <= i < n ensures tags[i] == request.nodes[i].tag {
    }
    assert |"proxy"| == |"block"| && "proxy"[0] != "block"[0];
  }

  // ---------------------------------------------------------------------
  // The code
  // ---------------------------------------------------------------------

  lemma EnabledStep(overrides: seq<DnsOverride>, k: nat)
    requires k < |overrides|
    ensures Enabled(overrides[..k + 1]) ==
            if overrides[k].enabled then Enabled(overrides[..k]) + [overrides[k]] else Enabled(overrides[..k])
  {
    assert overrides[..k + 1][..k] == overrides[..k];
    assert Enabled(overrides[..k]) + [] == Enabled(overrides[..k]);
  }

  lemma ServersStep(f: Foreign, before: seq<DnsServer>, enabled: seq<DnsOverride>, next: DnsOverride)
    ensures before + OverrideServers(f, enabled + [next]) ==
            before + OverrideServers(f, enabled) + [DnsServer(OverrideTag(|enabled|), None, OverrideResolver(f, next))]
  {
    hide OverrideTag, OverrideResolver;
    assert forall k :: 0 <= k < |enabled| ==> (enabled + [next])[k] == enabled[k];
  }

  lemma AnswersStep(enabled: seq<DnsOverride>, next: DnsOverride)
    ensures OverrideAnswers(enabled + [next]) ==
            OverrideAnswers(enabled) + [DnsRule(DomainSuffixes([next.domainSuffix]), OverrideTag(|enabled|), false)]
  {
    hide OverrideTag;
    assert forall k :: 0 <= k < |enabled| ==> (enabled + [next])[k] == enabled[k];
  }

  lemma LastOverrideRoutes(enabled: seq<DnsOverride>, next: DnsOverride)
    ensures OverrideRoutes(enabled + [next]) ==
            OverrideRoutes(enabled) + [
              RouteRule(DomainSuffixes([next.domainSuffix]), Resolve(OverrideTag(|enabled|))),
              RouteRule(DomainSuffixes([next.domainSuffix]), ToOutbound("direct"))]
  {
    hide OverrideTag;
    assert (enabled + [next])[..|enabled|] == enabled;
  }

  lemma OneByOne<T>(a: seq<T>, b: seq<T>, x: T, y: T)
    ensures a + (b + [x, y]) == a + b + [x] + [y]
  {
  }

  lemma RoutesStep(before: seq<RouteRule>, enabled: seq<DnsOverride>, next: DnsOverride)
    ensures before + OverrideRoutes(enabled + [next]) ==
            before + OverrideRoutes(enabled) + [RouteRule(DomainSuffixes([next.domainSuffix]), Resolve(OverrideTag(|enabled|)))]
            + [RouteRule(DomainSuffixes([next.domainSuffix]), ToOutbound("direct"))]
  {
    hide OverrideTag, OverrideRoutes;
    LastOverrideRoutes(enabled, next);
    OneByOne(before, OverrideRoutes(enabled), RouteRule(DomainSuffixes([next.domainSuffix]), Resolve(OverrideTag(|enabled|))),
             RouteRule(DomainSuffixes([next.domainSuffix]), ToOutbound("direct")));
  }

  lemma CustomStep(f: Foreign, rules: seq<CustomRule>, k: nat)
    requires k < |rules|
    ensures CustomRoutes(f, rules[..k + 1]) == CustomRoutes(f, rules[..k]) + CustomRoute(f, rules[k])
    ensures CustomAnswers(f, rules[..k + 1]) == CustomAnswers(f, rules[..k]) + CustomAnswer(f, rules[k])
  {
    assert rules[..k + 1][..k] == rules[..k];
  }

  /** The first loop of `build_dns_config`. */
  method BuildOverrides(f: Foreign, overrides: seq<DnsOverride>) returns (servers: seq<DnsServer>, rules: seq<DnsRule>)
    ensures servers == [DnsServer("dns-direct", None, None)] + OverrideServers(f, Enabled(overrides))
    ensures rules == OverrideAnswers(Enabled(overrides))
  {
    hide OverrideServers, OverrideAnswers, OverrideTag, Enabled, OverrideResolver;
    servers := [DnsServer("dns-direct", None, None)];
    rules := [];
    var index := 0;
    assert overrides[..0] == [];
    EmptyLists(f);
    for k := 0 to |overrides|
      invariant index == |Enabled(overrides[..k])|
      invariant servers == [DnsServer("dns-direct", None, None)] + OverrideServers(f, Enabled(overrides[..k]))
      invariant rules == OverrideAnswers(Enabled(overrides[..k]))
    {
      var rule := overrides[k];
      EnabledStep(overrides, k);
      if rule.enabled {
        ServersStep(f, [DnsServer("dns-direct", None, None)], Enabled(overrides[..k]), rule);
        AnswersStep(Enabled(overrides[..k]), rule);
        var tag := OverrideTag(index);
        servers := servers + [DnsServer(tag, None, OverrideResolver(f, rule))];
        rules := rules + [DnsRule(DomainSuffixes([rule.domainSuffix]), tag, false)];
        index := index + 1;
      }
    }
    assert overrides[..|overrides|] == overrides;
  }

  method AppendCustomAnswers(f: Foreign, before: seq<DnsRule>, customRules: seq<CustomRule>) returns (rules: seq<DnsRule>)
    ensures rules == before + CustomAnswers(f, customRules)
  {
    hide CustomAnswers, CustomAnswer;
    rules := before;
    assert customRules[..0] == [];
    EmptyLists(f);
    for k := 0 to |customRules|
      invariant rules == before + CustomAnswers(f, customRules[..k])
    {
      CustomStep(f, customRules, k);
      rules := rules + CustomAnswer(f, customRules[k]);
    }
    assert customRules[..|customRules|] == customRules;
  }

  /** `build_dns_config`. */
  method BuildDnsConfig(f: Foreign, request: Request) returns (dns: DnsConfig, subscriptionDns: bool)
    ensures dns == DnsConfigOf(f, request)
    ensures subscriptionDns == (!request.mode.DirectMode? && SubscriptionServer(f, request.nameservers).Some?)
  {
    hide OverrideServers, OverrideAnswers, CustomAnswers, Enabled, SubscriptionServer;
    var servers, rules := BuildOverrides(f, request.dnsOverrides);
    if request.mode.DirectMode? {
      return DnsConfig(servers, rules, "dns-direct"), false;
    }
    servers := servers + [DnsServer("dns-bootstrap", None, None)];
    var subscription := SubscriptionServer(f, request.nameservers);
    if subscription.Some? {
      servers := servers + [subscription.value];
    }
    servers := servers + [DnsServer("dns-proxy", Some("proxy"), None)];
    rules := rules + LAN_ANSWERS;
    if request.mode.RuleMode? {
      rules := AppendCustomAnswers(f, rules, request.customRules);
      rules := rules + [DOMESTIC_ANSWER];
    }
    if request.tun {
      servers := servers + [DnsServer("dns-fakeip", None, None)];
      rules := rules + [FAKEIP_ANSWER];
    }
    dns := DnsConfig(servers, rules, "dns-proxy");
    subscriptionDns := subscription.Some?;
  }

  lemma EmptyLists(f: Foreign)
    ensures Enabled([]) == [] && OverrideServers(f, []) == [] && OverrideAnswers([]) == [] && OverrideRoutes([]) == []
    ensures CustomRoutes(f, []) == [] && CustomAnswers(f, []) == []
  {
  }

  /** The loops of `build_singbox_config` over overrides and custom rules. */
  method BuildRouteRules(f: Foreign, request: Request) returns (rules: seq<RouteRule>)
    ensures rules == RouteRules(f, request)
  {
    hide OverrideRoutes, OverrideTag, CustomRoutes, CustomRoute, Enabled;
    var overrides := request.dnsOverrides;
    rules := [HIJACK];
    var index := 0;
    assert overrides[..0] == [] && request.customRules[..0] == [];
    EmptyLists(f);
    for k := 0 to |overrides|
      invariant index == |Enabled(overrides[..k])|
      invariant rules == [HIJACK] + OverrideRoutes(Enabled(overrides[..k]))
    {
      var rule := overrides[k];
      EnabledStep(overrides, k);
      if rule.enabled {
        RoutesStep([HIJACK], Enabled(overrides[..k]), rule);
        rules := rules + [RouteRule(DomainSuffixes([rule.domainSuffix]), Resolve(OverrideTag(index)))];
        rules := rules + [RouteRule(DomainSuffixes([rule.domainSuffix]), ToOutbound("direct"))];
        index := index + 1;
      }
    }
    assert overrides[..|overrides|] == overrides;
    if request.mode.RuleMode? {
      rules := rules + [RouteRule(AnyConnection, Sniff)];
      rules := rules + [RouteRule(PrivateAddress, ToOutbound("direct"))];
      ghost var before := rules;
      for k := 0 to |request.customRules|
        invariant rules == before + CustomRoutes(f, request.customRules[..k])
      {
        CustomStep(f, request.customRules, k);
        rules := rules + CustomRoute(f, request.customRules[k]);
      }
      assert request.customRules[..|request.customRules|] == request.customRules;
      rules := rules + DOMESTIC_ROUTES;
    }
  }

  /** `dns_override_tag_for_server`: a third pass that counts the enabled overrides. */
  method FindOverrideTag(f: Foreign, overrides: seq<DnsOverride>, server: string) returns (tag: Option<string>)
    ensures tag == DomainResolver(f, overrides, server)
  {
    hide OverrideTag, Enabled, HostOf, UnderSuffix;
    if f.isAddress(server) {
      return None;
    }
    var host := HostOf(server);
    var index := 0;
    assert overrides[..0] == [];
    EmptyLists(f);
    for k := 0 to |overrides|
      invariant index == |Enabled(overrides[..k])|
      invariant FirstOverride(Enabled(overrides[..k]), host).None?
    {
      EnabledStep(overrides, k);
      if overrides[k].enabled {
        if UnderSuffix(host, overrides[k].domainSuffix) {
          FirstOverrideStays(overrides, k + 1, host);
          return Some(OverrideTag(index));
        }
        index := index + 1;
      }
    }
    assert overrides[..|overrides|] == overrides;
    tag := None;
  }

  lemma {:induction false} FirstOverrideStays(overrides: seq<DnsOverride>, k: nat, host: string)
    requires k <= |overrides| && FirstOverride(Enabled(overrides[..k]), host).Some?
    ensures FirstOverride(Enabled(overrides), host) == FirstOverride(Enabled(overrides[..k]), host)
    decreases |overrides|
  {
    hide UnderSuffix;
    if k == |overrides| {
      assert overrides[..k] == overrides;
    } else {
      var front := overrides[..|overrides| - 1];
      assert front[..k] == overrides[..k];
      FirstOverrideStays(front, k, host);
      var last := overrides[|overrides| - 1];
      if last.enabled {
        assert Enabled(overrides)[..|Enabled(front)|] == Enabled(front);
      } else {
        assert Enabled(overrides) == Enabled(front);
      }
    }
  }

  /** The outbounds of `build_singbox_config`. */
  method BuildOutbounds(f: Foreign, request: Request) returns (outbounds: seq<Outbound>)
    ensures outbounds == Outbounds(f, request)
  {
    hide DomainResolver;
    outbounds := [];
    for k := 0 to |request.nodes|
      invariant outbounds == Endpoints(f, request)[..k]
    {
      var resolver := FindOverrideTag(f, request.dnsOverrides, request.nodes[k].server);
      outbounds := outbounds + [Endpoint(request.nodes[k].tag, resolver)];
    }
    var nodeTags := NodeTags(request.nodes);
    var selected := if request.selectedTag in nodeTags then request.selectedTag else if nodeTags != [] then nodeTags[0] else "direct";
    outbounds := outbounds + [Selector("proxy", nodeTags, selected), Builtin("direct"), Builtin("block")];
  }

  /** `build_singbox_config`. */
  method BuildConfig(f: Foreign, request: Request, cached: bool) returns (config: Config)
    ensures config == ConfigOf(f, request, cached)
  {
    hide RouteRules, DnsConfigOf, Outbounds, SubscriptionServer;
    var outbounds := BuildOutbounds(f, request);
    var final := if request.mode.DirectMode? then "direct" else "proxy";
    var rules := BuildRouteRules(f, request);
    var dns, subscriptionDns := BuildDnsConfig(f, request);
    var resolver := if request.mode.DirectMode? then "dns-direct" else if subscriptionDns then "dns-subscription" else "dns-bootstrap";
    config := Config(dns, outbounds, rules, RuleSets(request, cached), final, resolver);
  }

  // ---------------------------------------------------------------------
  // Stored selections
  // ---------------------------------------------------------------------

  /** A stored selection counts only for a selector, and only if it names one of its members. */
  function Select(o: Outbound, selections: map<string, string>): (r: Outbound)
    ensures r.tag == o.tag
  {
    if o.Selector? && o.tag in selections && selections[o.tag] in o.members then o.(default := selections[o.tag]) else o
  }

  function SelectAll(config: Config, selections: map<string, string>): Config {
    config.(outbounds :=
      seq(|config.outbounds|, i requires 0 <= i < |config.outbounds| => Select(config.outbounds[i], selections)))
  }

  /** `apply_proxy_group_selections`. */
  method ApplySelections(outbounds: array<Outbound>, selections: map<string, string>)
    modifies outbounds
    ensures forall i :: 0 <= i < outbounds.Length ==> outbounds[i] == Select(old(outbounds[i]), selections)
  {
    for k := 0 to outbounds.Length
      invariant forall i :: 0 <= i < k ==> outbounds[i] == Select(old(outbounds[i]), selections)
      invariant forall i :: k <= i < outbounds.Length ==> outbounds[i] == old(outbounds[i])
    {
      var outbound := outbounds[k];
      if outbound.Selector? && outbound.tag in selections {
        var selected := selections[outbound.tag];
        var valid := false;
        for m := 0 to |outbound.members|
          invariant valid <==> selected in outbound.members[..m]
        {
          if outbound.members[m] == selected {
            valid := true;
          }
        }
        assert outbound.members[..|outbound.members|] == outbound.members;
        if valid {
          outbounds[k] := outbound.(default := selected);
        }
      }
    }
  }

  /** Whatever was stored, no reference comes to dangle: a closed configuration stays closed, and the
      default of a selector stays a member if it was one. */
  lemma SelectionsKeepReferencesClosed(config: Config, selections: map<string, string>)
    requires DnsClosed(config) && RoutesClosed(config)
    ensures
      var selected := SelectAll(config, selections);
      && DnsClosed(selected) && RoutesClosed(selected)
      && forall i :: 0 <= i < |config.outbounds| && config.outbounds[i].Selector? && config.outbounds[i].default in config.outbounds[i].members ==>
           selected.outbounds[i].Selector? && selected.outbounds[i].default in config.outbounds[i].members
  {
    var selected := SelectAll(config, selections);
    SelectionsKeepTags(config, selections);
    assert ServerTags(selected) == ServerTags(config) && RuleSetTags(selected) == RuleSetTags(config);
    hide ServerTags, OutboundTags, RuleSetTags;
    forall k | 0 <= k < |config.outbounds| ensures OutboundClosed(selected.outbounds[k], selected) {
      assert OutboundClosed(config.outbounds[k], config);
    }
    forall k | 0 <= k < |config.rules| ensures RouteRuleClosed(selected.rules[k], selected) {
      assert RouteRuleClosed(config.rules[k], config);
    }
  }

  lemma SelectionsKeepTags(config: Config, selections: map<string, string>)
    ensures OutboundTags(SelectAll(config, selections)) == OutboundTags(config)
  {
    hide Select;
    var selected := SelectAll(config, selections);
    forall tag | tag in OutboundTags(config) ensures tag in OutboundTags(selected) {
      var i :| 0 <= i < |config.outbounds| && config.outbounds[i].tag == tag;
      assert selected.outbounds[i].tag == tag;
    }
    forall tag | tag in OutboundTags(selected) ensures tag in OutboundTags(config) {
      var i :| 0 <= i < |selected.outbounds| && selected.outbounds[i].tag == tag;
      assert config.outbounds[i].tag == tag;
    }
  }
}
