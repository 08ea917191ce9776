/** Parsed nodes, the outbounds built from them, and the configuration of the host. */
module Generator {
  import opened Prelude
  import opened Text
  import opened Sequences
  import opened Routing

  // Nodes ----------------------------------------------------------------------------------------------------------

  datatype Node =
    | VlessNode(
        tag: string, server: string, port: nat, uuid: string, transportType: string, security: string,
        sni: Option<string>, pbk: Option<string>, sid: Option<string>, fp: Option<string>, flow: Option<string>,
        insecure: bool, path: Option<string>, host: Option<string>, serviceName: Option<string>,
        headerType: Option<string>)
    | Hysteria2Node(
        tag: string, server: string, port: nat, auth: string, sni: Option<string>, insecure: bool,
        obfsType: Option<string>, obfsPassword: Option<string>, upMbps: Option<int>, downMbps: Option<int>)
    | OtherNode(tag: string, protocol: string)

  // Outbounds ------------------------------------------------------------------------------------------------------

  datatype Reality = Reality(fingerprint: string, publicKey: string, shortId: string)
  datatype Tls = Tls(serverName: Option<string>, insecure: bool, reality: Option<Reality>)
  datatype Transport =
    | Http(hosts: seq<string>, path: Option<string>)
    | Grpc(serviceName: Option<string>)
    | Ws(path: Option<string>, hostHeader: Option<string>)
    | HttpUpgrade(host: Option<string>, path: Option<string>)
  datatype Obfs = Obfs(kind: string, password: string)

  datatype OutboundConfig =
    | Vless(tag: string, server: string, port: nat, uuid: string, flow: Option<string>,
            transport: Option<Transport>, tls: Option<Tls>)
    | Hysteria2(tag: string, server: string, port: nat, password: string, hyTls: Tls, obfs: Option<Obfs>,
                upMbps: Option<int>, downMbps: Option<int>)
    | Selector(tag: string, outbounds: seq<string>, default: string)
    | DirectOut(tag: string)
    | BlockOut(tag: string)

  datatype BuildError =
    | HttpHeaderUnsupported | XhttpUnsupported | QuicUnsupported | UnknownTransport | MissingPublicKey | NoBuilder

  function LowerChar(c: char): char {
    if 'A' <= c <= 'Z' then 'a' + (c - 'A') else c
  }

  function Clean(s: string): string {
    Map(Strip(s), LowerChar)
  }

  /** Cleaning trims, and lowers the letters from A to Z where they stand. */
  lemma CleanExactly(s: string)
    ensures |Clean(s)| == |Strip(s)|
    ensures forall i :: 0 <= i < |Clean(s)| ==>
              var c := Strip(s)[i];
              !('A' <= Clean(s)[i] <= 'Z') && Clean(s)[i] as int == c as int + (if 'A' <= c <= 'Z' then 32 else 0)
  {
  }

  function SplitHosts(value: Option<string>): seq<string> {
    if Given(value).None? then [] else Filter(Map(Split(value.value, ','), Strip), NonEmpty)
  }

  function FirstHost(value: Option<string>): Option<string> {
    if SplitHosts(value) == [] then None else Some(SplitHosts(value)[0])
  }

  function TransportKind(n: Node): string
    requires n.VlessNode?
  {
    Clean(if n.transportType == "" then "tcp" else n.transportType)
  }

  function BuildVlessTransport(n: Node): Result<Option<Transport>, BuildError>
    requires n.VlessNode?
  {
    var kind := TransportKind(n);
    if kind == "tcp" then
      if Clean(n.headerType.GetOr("")) == "http" then Err(HttpHeaderUnsupported) else Ok(None)
    else if kind == "http" then Ok(Some(Http(SplitHosts(n.host), Given(n.path))))
    else if kind == "grpc" then Ok(Some(Grpc(Given(n.serviceName))))
    else if kind == "ws" then Ok(Some(Ws(Given(n.path), FirstHost(n.host))))
    else if kind == "httpupgrade" then Ok(Some(HttpUpgrade(FirstHost(n.host), Given(n.path))))
    else if kind == "xhttp" || kind == "splithttp" then Err(XhttpUnsupported)
    else if kind == "quic" then Err(QuicUnsupported)
    else Err(UnknownTransport)
  }

  function BuildVlessTls(n: Node): Result<Option<Tls>, BuildError>
    requires n.VlessNode?
  {
    var name := Some(Given(n.sni).GetOr(n.server));
    if n.security == "reality" then
      if Given(n.pbk).None? then Err(MissingPublicKey)
      else Ok(Some(Tls(name, n.insecure, Some(Reality(Given(n.fp).GetOr("chrome"), n.pbk.value, n.sid.GetOr(""))))))
    else if n.security == "tls" then Ok(Some(Tls(name, n.insecure, None)))
    else Ok(None)
  }

  function BuildOutbound(n: Node): Result<OutboundConfig, BuildError> {
    match n
    case VlessNode(_, _, _, _, _, _, _, _, _, _, _, _, _, _, _, _) =>
      var transport := BuildVlessTransport(n);
      if transport.Err? then Err(transport.error)
      else
        var tls := BuildVlessTls(n);
        if tls.Err? then Err(tls.error)
        else Ok(Vless(n.tag, n.server, n.port, n.uuid, Given(n.flow), transport.value, tls.value))
    case Hysteria2Node(tag, server, port, auth, sni, insecure, obfsType, obfsPassword, up, down) =>
      var obfs := if Given(obfsType).None? then None else Some(Obfs(obfsType.value, obfsPassword.GetOr("")));
      Ok(Hysteria2(tag, server, port, auth, Tls(Given(sni), insecure, None), obfs, up, down))
    case OtherNode(_, _) => Err(NoBuilder)
  }

  const BUILDABLE_TRANSPORTS: set<string> := {"tcp", "http", "grpc", "ws", "httpupgrade"}

  /** The VLESS transports a sing-box configuration can be generated for; `tcp` is the default. */
  predicate BuildableTransport(n: Node)
    requires n.VlessNode?
  {
    if n.transportType == "" || Clean(n.transportType) == "tcp" then n.headerType.None? || Clean(n.headerType.value) != "http"
    else Clean(n.transportType) in BUILDABLE_TRANSPORTS
  }

  predicate BuildableTls(n: Node)
    requires n.VlessNode?
  {
    n.security == "reality" ==> n.pbk.Some? && n.pbk.value != ""
  }

  predicate Buildable(n: Node) {
    n.Hysteria2Node? || (n.VlessNode? && BuildableTransport(n) && BuildableTls(n))
  }

  lemma TransportContract(n: Node)
    requires n.VlessNode?
    ensures BuildVlessTransport(n).Ok? <==> BuildableTransport(n)
  {
    CleanExactly("tcp");
    CleanExactly("");
  }

  /** TLS is set up for `reality` and `tls` only, and with a public key exactly for `reality`. */
  lemma TlsContract(n: Node)
    requires n.VlessNode?
    ensures BuildVlessTls(n).Ok? <==> BuildableTls(n)
    ensures BuildVlessTls(n).Ok? ==>
              var tls := BuildVlessTls(n).value;
              && (tls.Some? <==> n.security == "reality" || n.security == "tls")
              && (tls.Some? && tls.value.reality.Some? <==> n.security == "reality")
  {
  }

  /** Building fails exactly for the other nodes; what is built keeps the tag and reaches the same server. */
  lemma BuildContract(n: Node)
    ensures BuildOutbound(n).Ok? <==> Buildable(n)
    ensures BuildOutbound(n).Ok? ==>
              var o := BuildOutbound(n).value;
              && (o.Vless? <==> n.VlessNode?) && (o.Hysteria2? <==> n.Hysteria2Node?) && !o.Selector?
              && o.tag == n.tag && o.server == n.server && o.port == n.port
  {
    if n.VlessNode? {
      TransportContract(n);
      TlsContract(n);
    }
  }

  // What an outbound dials ------------------------------------------------------------------------------------------

  /** The TLS handshake: the name sent, whether the certificate is checked, and key, short id and fingerprint of Reality. */
  datatype Handshake = Handshake(name: string, checked: bool, reality: Option<(string, string, string)>)

  /** What carries the connection, and the fields it is given. */
  datatype Carrier = Carrier(kind: string, path: string, hosts: seq<string>, serviceName: string)

  /** How a server is to be reached, in terms of the protocol. */
  datatype Dial = Dial(
    server: string, port: nat, credential: string, flow: string, handshake: Option<Handshake>, carrier: Carrier,
    obfuscation: Option<(string, string)>, up: Option<int>, down: Option<int>)

  function OrEmpty(v: Option<string>): string {
    v.GetOr("")
  }

  function DialledTls(tls: Tls): Handshake {
    Handshake(OrEmpty(tls.serverName), !tls.insecure,
              match tls.reality
              case None => None
              case Some(r) => Some((r.publicKey, r.shortId, r.fingerprint)))
  }

  function DialledCarrier(transport: Option<Transport>): Carrier {
    match transport
    case None => Carrier("tcp", "", [], "")
    case Some(Http(hosts, path)) => Carrier("http", OrEmpty(path), hosts, "")
    case Some(Grpc(name)) => Carrier("grpc", "", [], OrEmpty(name))
    case Some(Ws(path, host)) => Carrier("ws", OrEmpty(path), if host.Some? then [host.value] else [], "")
    case Some(HttpUpgrade(host, path)) => Carrier("httpupgrade", OrEmpty(path), if host.Some? then [host.value] else [], "")
  }

  /** What an outbound does when sing-box uses it; an absent field is empty. */
  function Dialled(o: OutboundConfig): Dial
    requires o.Vless? || o.Hysteria2?
  {
    match o
    case Vless(_, server, port, uuid, flow, transport, tls) =>
      Dial(server, port, uuid, OrEmpty(flow), if tls.None? then None else Some(DialledTls(tls.value)),
           DialledCarrier(transport), None, None, None)
    case Hysteria2(_, server, port, password, tls, obfs, up, down) =>
      Dial(server, port, password, "", Some(DialledTls(tls)), Carrier("udp", "", [], ""),
           if obfs.Some? then Some((obfs.value.kind, obfs.value.password)) else None, up, down)
  }

  /** The hosts listed in a field, separated by commas. */
  function HostList(v: Option<string>): seq<string> {
    Filter(Map(Split(OrEmpty(v), ','), Strip), NonEmpty)
  }

  function FirstOf(hosts: seq<string>): seq<string> {
    if hosts == [] then [] else [hosts[0]]
  }

  /** The handshake a VLESS link asks for: the server is the default name, and `chrome` the default fingerprint. */
  function WantedTls(n: Node): Option<Handshake>
    requires n.VlessNode?
  {
    var name := if OrEmpty(n.sni) == "" then n.server else OrEmpty(n.sni);
    if n.security == "tls" then Some(Handshake(name, !n.insecure, None))
    else if n.security == "reality" then
      Some(Handshake(name, !n.insecure,
                     Some((OrEmpty(n.pbk), OrEmpty(n.sid), if OrEmpty(n.fp) == "" then "chrome" else OrEmpty(n.fp)))))
    else None
  }

  function WantedCarrier(n: Node): Carrier
    requires n.VlessNode?
  {
    var kind := Clean(if n.transportType == "" then "tcp" else n.transportType);
    if kind == "http" then Carrier(kind, OrEmpty(n.path), HostList(n.host), "")
    else if kind == "ws" || kind == "httpupgrade" then Carrier(kind, OrEmpty(n.path), FirstOf(HostList(n.host)), "")
    else if kind == "grpc" then Carrier(kind, "", [], OrEmpty(n.serviceName))
    else Carrier(kind, "", [], "")
  }

  /** What the link of a node asks for. */
  function Wanted(n: Node): Dial
    requires !n.OtherNode?
  {
    match n
    case VlessNode(_, server, port, uuid, _, _, _, _, _, _, flow, _, _, _, _, _) =>
      Dial(server, port, uuid, OrEmpty(flow), WantedTls(n), WantedCarrier(n), None, None, None)
    case Hysteria2Node(_, server, port, auth, sni, insecure, obfsType, obfsPassword, up, down) =>
      Dial(server, port, auth, "", Some(Handshake(OrEmpty(sni), !insecure, None)), Carrier("udp", "", [], ""),
           if OrEmpty(obfsType) == "" then None else Some((OrEmpty(obfsType), OrEmpty(obfsPassword))), up, down)
  }

  lemma TlsAsWanted(n: Node)
    requires n.VlessNode? && BuildVlessTls(n).Ok?
    ensures WantedTls(n) == match BuildVlessTls(n).value case None => None case Some(tls) => Some(DialledTls(tls))
  {
  }

  /** The carriers that name hosts. */
  lemma HostedCarrierAsWanted(n: Node, kind: string)
    requires n.VlessNode? && TransportKind(n) == kind && (kind == "http" || kind == "ws" || kind == "httpupgrade")
    ensures BuildVlessTransport(n).Ok? && DialledCarrier(BuildVlessTransport(n).value) == WantedCarrier(n)
  {
    HostsAgree(n.host);
    if kind == "http" {
      assert BuildVlessTransport(n).value == Some(Http(SplitHosts(n.host), Given(n.path)));
    } else if kind == "ws" {
      assert BuildVlessTransport(n).value == Some(Ws(Given(n.path), FirstHost(n.host)));
    } else {
      assert BuildVlessTransport(n).value == Some(HttpUpgrade(FirstHost(n.host), Given(n.path)));
    }
  }

  lemma CarrierAsWanted(n: Node)
    requires n.VlessNode? && BuildVlessTransport(n).Ok?
    ensures DialledCarrier(BuildVlessTransport(n).value) == WantedCarrier(n)
  {
    var kind := TransportKind(n);
    if kind == "http" || kind == "ws" || kind == "httpupgrade" {
      HostedCarrierAsWanted(n, kind);
    } else if kind == "grpc" {
      assert BuildVlessTransport(n).value == Some(Grpc(Given(n.serviceName)));
    } else {
      assert BuildVlessTransport(n).value == None;
    }
  }

  /** The outbound that is built dials exactly as the link of its node asks. */
  lemma OutboundDialsAsWanted(n: Node)
    requires BuildOutbound(n).Ok?
    ensures Buildable(n) && Dialled(BuildOutbound(n).value) == Wanted(n)
  {
    BuildContract(n);
    if n.VlessNode? {
      TlsAsWanted(n);
      CarrierAsWanted(n);
    }
  }

  lemma HostsAgree(v: Option<string>)
    ensures SplitHosts(v) == HostList(v)
    ensures FirstOf(HostList(v)) == if FirstHost(v).Some? then [FirstHost(v).value] else []
  {
    if Given(v).None? {
      assert Split("", ',') == [""];
      assert Map([""], Strip) == [""];
      assert Filter([""], NonEmpty) == [];
    }
  }

  // The host configuration -----------------------------------------------------------------------------------------

  datatype DnsPreset = Quad9 | Cloudflare | Google | OtherDns(name: string)
  datatype LogLevel = LogError | LogWarn | LogInfo | LogDebug | OtherLevel(name: string)

  /** A configuration; the DNS section is determined by its preset, and the inbound is always the same. */
  datatype Config = Config(logLevel: LogLevel, dns: DnsPreset, route: Route, outbounds: seq<OutboundConfig>)

  datatype GenerateError =
    | NoNodes | UnknownDns | UnknownRoute | UnknownLevel
    | DuplicateTags(tags: set<string>) | ReservedTags(reserved: seq<string>)
    | Unbuildable(error: BuildError)

  const BUILT_INS: seq<OutboundConfig> := [DirectOut(DIRECT), BlockOut(BLOCK)]

  function GenerateConfig(n: Node, dns: DnsPreset, preset: Preset, level: LogLevel, bypass: Option<Bypass>)
    : Result<Config, GenerateError>
  {
    if dns.OtherDns? then Err(UnknownDns)
    else if !preset.Known() then Err(UnknownRoute)
    else
      var active := BuildOutbound(n);
      if active.Err? then Err(Unbuildable(active.error))
      else if level.OtherLevel? then Err(UnknownLevel)
      else Ok(Config(level, dns, BuildRouteConfig(preset, bypass).value.(final := active.value.tag),
                     [active.value] + BUILT_INS))
  }

  // Closed configurations -------------------------------------------------------------------------------------------

  function Tags(outbounds: seq<OutboundConfig>): seq<string> {
    Map(outbounds, (o: OutboundConfig) => o.tag)
  }

  /** Every outbound named by the route or a selector is there. */
  ghost predicate Closed(c: Config) {
    var tags := Tags(c.outbounds);
    && RefersOnlyTo(c.route, set t | t in tags)
    && c.route.final in tags
    && (forall i :: 0 <= i < |c.outbounds| && c.outbounds[i].Selector? ==>
          c.outbounds[i].default in c.outbounds[i].outbounds && forall t :: t in c.outbounds[i].outbounds ==> t in tags)
  }

  lemma OneOutboundClosed(active: OutboundConfig, dns: DnsPreset, preset: Preset, level: LogLevel, bypass: Option<Bypass>)
    requires preset.Known() && !active.Selector?
    ensures var c := Config(level, dns, BuildRouteConfig(preset, bypass).value.(final := active.tag), [active] + BUILT_INS);
            Closed(c) && (NoDuplicates(Tags(c.outbounds)) <==> active.tag !in {DIRECT, BLOCK})
  {
    var route := BuildRouteConfig(preset, bypass).value;
    RouteReferences(preset, bypass);
    var c := Config(level, dns, route.(final := active.tag), [active] + BUILT_INS);
    var tags := Tags(c.outbounds);
    assert tags == [active.tag, DIRECT, BLOCK];
    assert tags[0] == active.tag && tags[1] == DIRECT && tags[2] == BLOCK;
    if active.tag !in {DIRECT, BLOCK} {
      forall i, j | 0 <= i < j < |tags| ensures tags[i] != tags[j] {}
    }
    MoreOutbounds(route, c.route, {DIRECT, BLOCK}, set t | t in tags);
  }

  lemma MoreOutbounds(a: Route, b: Route, small: set<string>, large: set<string>)
    requires RefersOnlyTo(a, small) && small <= large && a.rules == b.rules && a.ruleSets == b.ruleSets
    ensures RefersOnlyTo(b, large)
  {
    forall i, j | 0 <= i < |b.rules| && 0 <= j < |b.rules[i].ruleSet| ensures Declared(b, b.rules[i].ruleSet[j]) {
      assert Declared(a, a.rules[i].ruleSet[j]);
    }
  }

  /** A generated host configuration is closed; its tags are distinct unless the node took a built-in one. */
  lemma HostConfigClosed(n: Node, dns: DnsPreset, preset: Preset, level: LogLevel, bypass: Option<Bypass>)
    requires GenerateConfig(n, dns, preset, level, bypass).Ok?
    ensures var c := GenerateConfig(n, dns, preset, level, bypass).value;
            Closed(c) && c.route.final == n.tag && (NoDuplicates(Tags(c.outbounds)) <==> n.tag !in {DIRECT, BLOCK})
  {
    BuildContract(n);
    OneOutboundClosed(BuildOutbound(n).value, dns, preset, level, bypass);
  }

  /** Generation fails exactly for unknown names and for nodes that cannot be built. */
  lemma GenerateExactly(n: Node, dns: DnsPreset, preset: Preset, level: LogLevel, bypass: Option<Bypass>)
    ensures GenerateConfig(n, dns, preset, level, bypass).Ok? <==>
            !dns.OtherDns? && preset.Known() && !level.OtherLevel? && Buildable(n)
  {
    BuildContract(n);
  }

  /** What a generated host configuration is and does: the settings asked for, the outbound of the node beside the two
      built-in ones, and the policy of preset, process list and node for every connection. */
  lemma HostConfigRoutes(n: Node, dns: DnsPreset, preset: Preset, level: LogLevel, bypass: Option<Bypass>, cfg: Config)
    requires GenerateConfig(n, dns, preset, level, bypass) == Ok(cfg)
    ensures forall c :: Decide(cfg.route, c) == Policy(preset, bypass, n.tag, c)
    ensures cfg.dns == dns && cfg.logLevel == level
    ensures |cfg.outbounds| == 3 && BuildOutbound(n) == Ok(cfg.outbounds[0])
    ensures cfg.outbounds[1] == DirectOut("direct") && cfg.outbounds[2] == BlockOut("block")
  {
    BuildContract(n);
    var route := BuildRouteConfig(preset, bypass).value.(final := n.tag);
    assert cfg.route == route;
    forall c ensures Decide(route, c) == Policy(preset, bypass, n.tag, c) {
      RouteMeaning(preset, bypass, n.tag, c);
    }
  }

  /** The presets can be read off a configuration. */
  lemma PresetsAreRecoverable(n: Node, dns: DnsPreset, preset: Preset, level: LogLevel, bypass: Option<Bypass>,
                              n': Node, dns': DnsPreset, preset': Preset, level': LogLevel, bypass': Option<Bypass>, cfg: Config)
    requires GenerateConfig(n, dns, preset, level, bypass) == Ok(cfg)
    requires GenerateConfig(n', dns', preset', level', bypass') == Ok(cfg)
    ensures dns == dns' && preset == preset' && level == level'
  {
    var r, r' := BuildRouteConfig(preset, bypass).value, BuildRouteConfig(preset', bypass').value;
    assert cfg.route.rules == r.rules == r'.rules && cfg.route.ruleSets == r.ruleSets == r'.ruleSets;
    PresetIsRecoverable(preset, bypass, preset', bypass');
  }
}
