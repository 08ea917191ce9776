/**
 Route sections of generated configurations, and what they mean: the first rule that matches a connection
 decides, and `final` takes what no rule matches.
 */
module Routing {
  import opened Prelude
  import opened Sequences

  datatype Action = HijackDns | Outbound(tag: string)

  /** One rule. An absent criterion is `None`, `false` or an empty list. */
  datatype Rule = Rule(
    port: Option<nat>, domain: seq<string>, domainSuffix: seq<string>, ipIsPrivate: bool, ruleSet: seq<string>,
    processPath: seq<string>, processName: seq<string>, action: Action)

  /** A remote rule set and the outbound it is downloaded through. */
  datatype RuleSet = RuleSet(tag: string, downloadDetour: string)

  datatype Route = Route(rules: seq<Rule>, ruleSets: seq<RuleSet>, final: string)

  /** Process lists of the host; absent for client configurations. */
  datatype Bypass = Bypass(processName: seq<string>, processPath: seq<string>)

  const DIRECT := "direct"
  const BLOCK := "block"

  /** A route preset as stored or submitted: one of the three known names, or any other string. */
  datatype Preset = FullTunnel | BypassLan | BypassRu | OtherPreset(name: string) {
    predicate Known() {
      !OtherPreset?
    }
  }

  const ANY := Rule(None, [], [], false, [], [], [], Outbound(DIRECT))

  const DNS_HIJACK_RULE := ANY.(port := Some(53), action := HijackDns)

  const ROUTE_GUARD_RULES: seq<Rule> := [
    ANY.(domain := ["api.oneme.ru", "calls.okcdn.ru"], action := Outbound(BLOCK)),
    ANY.(domain := ["ifconfig.me", "api.ipify.org", "checkip.amazonaws.com", "icanhazip.com", "wtfismyip.com"],
         action := Outbound(BLOCK)),
    ANY.(domainSuffix := [".ru", ".su"], domain := ["gosuslugi.ru"])
  ]

  function PresetRules(preset: Preset): seq<Rule> {
    match preset
    case BypassLan => [ANY.(ipIsPrivate := true)]
    case BypassRu => [ANY.(ruleSet := ["geoip-ru", "geosite-ru"]), ANY.(ipIsPrivate := true)]
    case _ => []
  }

  function PresetRuleSets(preset: Preset): seq<RuleSet> {
    if preset.BypassRu? then [RuleSet("geoip-ru", DIRECT), RuleSet("geosite-ru", DIRECT)] else []
  }

  predicate NonEmpty(item: string) {
    item != ""
  }

  function BuildProcessBypassRules(bypass: Option<Bypass>): seq<Rule> {
    if bypass.None? then []
    else
      var paths := Filter(bypass.value.processPath, NonEmpty);
      var names := Filter(bypass.value.processName, NonEmpty);
      (if paths != [] then [ANY.(processPath := paths)] else [])
      + (if names != [] then [ANY.(processName := names)] else [])
  }

  /** The rules every preset shares, in front of its own. */
  const GUARDS: seq<Rule> := [DNS_HIJACK_RULE] + ROUTE_GUARD_RULES

  function BuildRouteConfig(preset: Preset, bypass: Option<Bypass>): Result<Route, string> {
    if !preset.Known() then Err("Unknown route preset")
    else Ok(Route(BuildProcessBypassRules(bypass) + (GUARDS + PresetRules(preset)), PresetRuleSets(preset), ""))
  }

  /** A route is built exactly for the three known presets; where it leads by default is filled in later. */
  lemma RouteExists(preset: Preset, bypass: Option<Bypass>)
    ensures BuildRouteConfig(preset, bypass).Ok? <==> preset in {FullTunnel, BypassLan, BypassRu}
    ensures BuildRouteConfig(preset, bypass).Ok? ==> BuildRouteConfig(preset, bypass).value.final == ""
  {
  }

  // Meaning ------------------------------------------------------------------------------------------------------

  /** A connection: where it goes, what the rule sets say about it, and which process opened it. */
  datatype Connection = Connection(
    port: nat, domain: Option<string>, ipIsPrivate: bool, inRuleSets: set<string>,
    processPath: Option<string>, processName: Option<string>)

  predicate EndsWith(s: string, suffix: string) {
    |suffix| <= |s| && s[|s| - |suffix|..] == suffix
  }

  lemma EndsWithExactly(s: string, suffix: string)
    ensures EndsWith(s, suffix) <==> exists front :: s == front + suffix
  {
    if EndsWith(s, suffix) {
      assert s == s[..|s| - |suffix|] + suffix;
    }
  }

  /** The destination criteria of a rule: absent, or at least one of them holds. */
  predicate DestinationMatches(r: Rule, c: Connection) {
    || (r.domain == [] && r.domainSuffix == [] && !r.ipIsPrivate && r.ruleSet == [])
    || (c.domain.Some? && c.domain.value in r.domain)
    || (c.domain.Some? && exists i :: 0 <= i < |r.domainSuffix| && EndsWith(c.domain.value, r.domainSuffix[i]))
    || (r.ipIsPrivate && c.ipIsPrivate)
    || (exists i :: 0 <= i < |r.ruleSet| && r.ruleSet[i] in c.inRuleSets)
  }

  /** All groups of criteria that are present must match. */
  predicate Matches(r: Rule, c: Connection) {
    && DestinationMatches(r, c)
    && (r.port.Some? ==> c.port == r.port.value)
    && (r.processPath != [] ==> c.processPath.Some? && c.processPath.value in r.processPath)
    && (r.processName != [] ==> c.processName.Some? && c.processName.value in r.processName)
  }

  /** The action of the first matching rule. */
  function FirstMatch(rules: seq<Rule>, c: Connection): Option<Action> {
    if rules == [] then None
    else if Matches(rules[0], c) then Some(rules[0].action)
    else FirstMatch(rules[1..], c)
  }

  function Decide(route: Route, c: Connection): Action {
    FirstMatch(route.rules, c).GetOr(Outbound(route.final))
  }

  lemma {:induction false} FirstMatchOfConcat(a: seq<Rule>, b: seq<Rule>, c: Connection)
    ensures FirstMatch(a + b, c) == if FirstMatch(a, c).Some? then FirstMatch(a, c) else FirstMatch(b, c)
  {
    if a == [] {
      assert a + b == b;
    } else {
      assert (a + b)[1..] == a[1..] + b;
      FirstMatchOfConcat(a[1..], b, c);
    }
  }

  // Process bypass -----------------------------------------------------------------------------------------------

  /** The process that opened the connection is listed, by path or by name. */
  predicate Listed(bypass: Option<Bypass>, c: Connection) {
    && bypass.Some?
    && ((c.processPath.Some? && c.processPath.value != "" && c.processPath.value in bypass.value.processPath)
        || (c.processName.Some? && c.processName.value != "" && c.processName.value in bypass.value.processName))
  }

  lemma BypassRulesMeaning(bypass: Option<Bypass>, c: Connection)
    ensures FirstMatch(BuildProcessBypassRules(bypass), c) == if Listed(bypass, c) then Some(Outbound(DIRECT)) else None
  {
    if bypass.Some? {
      var paths := Filter(bypass.value.processPath, NonEmpty);
      var names := Filter(bypass.value.processName, NonEmpty);
      FilterMembers(bypass.value.processPath, NonEmpty);
      FilterMembers(bypass.value.processName, NonEmpty);
      var byPath := if paths != [] then [ANY.(processPath := paths)] else [];
      var byName := if names != [] then [ANY.(processName := names)] else [];
      FirstMatchOfConcat(byPath, byName, c);
      OneRule(ANY.(processPath := paths), c);
      OneRule(ANY.(processName := names), c);
    }
  }

  lemma OneRule(r: Rule, c: Connection)
    ensures FirstMatch([r], c) == if Matches(r, c) then Some(r.action) else None
  {
    assert FirstMatch([], c) == None;
  }

  /** Listed processes go direct, ahead of everything, and every other connection is routed exactly as if there
      were no process list. */
  lemma BypassOnlyAffectsListed(preset: Preset, bypass: Option<Bypass>, final: string, c: Connection)
    requires preset.Known()
    ensures var with := BuildRouteConfig(preset, bypass).value.(final := final);
            var without := BuildRouteConfig(preset, None).value.(final := final);
            Decide(with, c) == if Listed(bypass, c) then Outbound(DIRECT) else Decide(without, c)
  {
    var shared := GUARDS + PresetRules(preset);
    BypassRulesMeaning(bypass, c);
    FirstMatchOfConcat(BuildProcessBypassRules(bypass), shared, c);
    FirstMatchOfConcat(BuildProcessBypassRules(None), shared, c);
  }

  // Guards and presets -------------------------------------------------------------------------------------------

  const BLOCKED: seq<string> := [
    "api.oneme.ru", "calls.okcdn.ru",
    "ifconfig.me", "api.ipify.org", "checkip.amazonaws.com", "icanhazip.com", "wtfismyip.com"]

  /** The always-on policy, said without rules: DNS is intercepted, the blocked names are dropped even where
      they are Russian, and all other Russian names go direct. */
  function AlwaysOn(c: Connection): Option<Action> {
    if c.port == 53 then Some(HijackDns)
    else if c.domain.None? then None
    else if c.domain.value in BLOCKED then Some(Outbound(BLOCK))
    else if EndsWith(c.domain.value, ".ru") || EndsWith(c.domain.value, ".su") then Some(Outbound(DIRECT))
    else None
  }

  /** What the user picks a preset for. */
  predicate PresetSendsDirect(preset: Preset, c: Connection) {
    || (!preset.FullTunnel? && c.ipIsPrivate)
    || (preset.BypassRu? && ("geoip-ru" in c.inRuleSets || "geosite-ru" in c.inRuleSets))
  }

  lemma GuardsMeaning(c: Connection)
    ensures FirstMatch(GUARDS, c) == AlwaysOn(c)
  {
    assert GUARDS == [DNS_HIJACK_RULE] + ([ROUTE_GUARD_RULES[0]] + ([ROUTE_GUARD_RULES[1]] + [ROUTE_GUARD_RULES[2]]));
    OneRule(DNS_HIJACK_RULE, c);
    OneRule(ROUTE_GUARD_RULES[0], c);
    OneRule(ROUTE_GUARD_RULES[1], c);
    OneRule(ROUTE_GUARD_RULES[2], c);
    FirstMatchOfConcat([ROUTE_GUARD_RULES[1]], [ROUTE_GUARD_RULES[2]], c);
    FirstMatchOfConcat([ROUTE_GUARD_RULES[0]], [ROUTE_GUARD_RULES[1]] + [ROUTE_GUARD_RULES[2]], c);
    FirstMatchOfConcat([DNS_HIJACK_RULE], [ROUTE_GUARD_RULES[0]] + ([ROUTE_GUARD_RULES[1]] + [ROUTE_GUARD_RULES[2]]), c);
    var suffixes := ROUTE_GUARD_RULES[2].domainSuffix;
    assert suffixes[0] == ".ru" && suffixes[1] == ".su";
    assert EndsWith("gosuslugi.ru", ".ru");
  }

  lemma PresetMeaning(preset: Preset, c: Connection)
    requires preset.Known()
    ensures FirstMatch(PresetRules(preset), c) == if PresetSendsDirect(preset, c) then Some(Outbound(DIRECT)) else None
  {
    OneRule(ANY.(ipIsPrivate := true), c);
    var sets := ANY.(ruleSet := ["geoip-ru", "geosite-ru"]);
    OneRule(sets, c);
    assert sets.ruleSet[0] == "geoip-ru" && sets.ruleSet[1] == "geosite-ru";
    FirstMatchOfConcat([sets], [ANY.(ipIsPrivate := true)], c);
    assert [sets] + [ANY.(ipIsPrivate := true)] == [sets, ANY.(ipIsPrivate := true)];
  }

  /** What a generated route section is meant to do, said without rules. */
  function Policy(preset: Preset, bypass: Option<Bypass>, final: string, c: Connection): Action {
    if Listed(bypass, c) then Outbound(DIRECT)
    else if AlwaysOn(c).Some? then AlwaysOn(c).value
    else if PresetSendsDirect(preset, c) then Outbound(DIRECT)
    else Outbound(final)
  }

  /** The first matching rule of a generated route section, or its `final`, does just that. */
  lemma RouteMeaning(preset: Preset, bypass: Option<Bypass>, final: string, c: Connection)
    requires preset.Known()
    ensures Decide(BuildRouteConfig(preset, bypass).value.(final := final), c) == Policy(preset, bypass, final, c)
  {
    BypassRulesMeaning(bypass, c);
    GuardsMeaning(c);
    PresetMeaning(preset, c);
    FirstMatchOfConcat(GUARDS, PresetRules(preset), c);
    FirstMatchOfConcat(BuildProcessBypassRules(bypass), GUARDS + PresetRules(preset), c);
  }

  /** A connection hit by the DNS hijack or a guard is decided alike under every preset and final outbound. */
  lemma GuardsIgnorePreset(p: Preset, q: Preset, bypass: Option<Bypass>, f: string, g: string, c: Connection)
    requires p.Known() && q.Known() && FirstMatch(GUARDS, c).Some?
    ensures Decide(BuildRouteConfig(p, bypass).value.(final := f), c)
            == Decide(BuildRouteConfig(q, bypass).value.(final := g), c)
  {
    RouteMeaning(p, bypass, f, c);
    RouteMeaning(q, bypass, g, c);
    GuardsMeaning(c);
  }

  /** The preset can be read off a route: by its rule sets, or by the rule for private addresses at its end. */
  lemma PresetIsRecoverable(p: Preset, a: Option<Bypass>, q: Preset, b: Option<Bypass>)
    requires p.Known() && q.Known()
    requires BuildRouteConfig(p, a).value.rules == BuildRouteConfig(q, b).value.rules
    requires BuildRouteConfig(p, a).value.ruleSets == BuildRouteConfig(q, b).value.ruleSets
    ensures p == q
  {
    assert PresetRuleSets(BypassRu) != [];
    var rules, other := BuildProcessBypassRules(a) + (GUARDS + PresetRules(p)), BuildProcessBypassRules(b) + (GUARDS + PresetRules(q));
    LastRule(a, p);
    LastRule(b, q);
    assert rules[|rules| - 1] == other[|other| - 1];
  }

  lemma LastRule(bypass: Option<Bypass>, preset: Preset)
    requires preset.Known()
    ensures var rules := BuildProcessBypassRules(bypass) + (GUARDS + PresetRules(preset));
            rules != [] && (rules[|rules| - 1].ipIsPrivate <==> !preset.FullTunnel?)
  {
    assert GUARDS[|GUARDS| - 1] == ROUTE_GUARD_RULES[2];
  }

  // References ---------------------------------------------------------------------------------------------------

  /** Rules name only the two built-in outbounds and declared rule sets; rule sets are fetched directly. */
  ghost predicate RefersOnlyTo(route: Route, outbounds: set<string>) {
    && (forall i :: 0 <= i < |route.rules| && route.rules[i].action.Outbound? ==> route.rules[i].action.tag in outbounds)
    && (forall i :: 0 <= i < |route.ruleSets| ==> route.ruleSets[i].downloadDetour in outbounds)
    && (forall i, j :: 0 <= i < |route.rules| && 0 <= j < |route.rules[i].ruleSet| ==>
          Declared(route, route.rules[i].ruleSet[j]))
  }

  predicate Declared(route: Route, ruleSet: string) {
    exists k :: 0 <= k < |route.ruleSets| && route.ruleSets[k].tag == ruleSet
  }

  /** Rules that use no rule set and stay with the built-in outbounds. */
  ghost predicate Plain(rules: seq<Rule>) {
    forall i :: 0 <= i < |rules| ==>
      rules[i].ruleSet == [] && (rules[i].action.Outbound? ==> rules[i].action.tag == DIRECT || rules[i].action.tag == BLOCK)
  }

  lemma SharedRulesPlain(bypass: Option<Bypass>)
    ensures Plain(BuildProcessBypassRules(bypass) + GUARDS)
  {
    assert Plain(BuildProcessBypassRules(bypass));
    assert GUARDS[0] == DNS_HIJACK_RULE && GUARDS[1] == ROUTE_GUARD_RULES[0] && GUARDS[2] == ROUTE_GUARD_RULES[1]
           && GUARDS[3] == ROUTE_GUARD_RULES[2];
    assert Plain(GUARDS);
  }

  lemma PresetRulesDeclared(preset: Preset, route: Route)
    requires route.ruleSets == PresetRuleSets(preset)
    ensures forall i, j :: 0 <= i < |PresetRules(preset)| && 0 <= j < |PresetRules(preset)[i].ruleSet| ==>
              Declared(route, PresetRules(preset)[i].ruleSet[j])
    ensures forall i :: 0 <= i < |PresetRules(preset)| ==> PresetRules(preset)[i].action == Outbound(DIRECT)
    ensures forall i :: 0 <= i < |route.ruleSets| ==> route.ruleSets[i].downloadDetour == DIRECT
  {
    if preset.BypassRu? {
      assert route.ruleSets[0].tag == "geoip-ru" && route.ruleSets[1].tag == "geosite-ru";
      assert Declared(route, "geoip-ru") && Declared(route, "geosite-ru");
    }
  }

  lemma RouteReferences(preset: Preset, bypass: Option<Bypass>)
    requires preset.Known()
    ensures RefersOnlyTo(BuildRouteConfig(preset, bypass).value, {DIRECT, BLOCK})
  {
    var route := BuildRouteConfig(preset, bypass).value;
    SharedRulesPlain(bypass);
    PresetRulesDeclared(preset, route);
    JoinedReferences(route, BuildProcessBypassRules(bypass) + GUARDS, PresetRules(preset));
  }

  lemma JoinedReferences(route: Route, front: seq<Rule>, own: seq<Rule>)
    requires route.rules == front + own && Plain(front)
    requires forall i, j :: 0 <= i < |own| && 0 <= j < |own[i].ruleSet| ==> Declared(route, own[i].ruleSet[j])
    requires forall i :: 0 <= i < |own| ==> own[i].action == Outbound(DIRECT)
    requires forall i :: 0 <= i < |route.ruleSets| ==> route.ruleSets[i].downloadDetour == DIRECT
    ensures RefersOnlyTo(route, {DIRECT, BLOCK})
  {
    forall i | 0 <= i < |route.rules|
      ensures route.rules[i] == if i < |front| then front[i] else own[i - |front|]
    {
    }
  }
}
