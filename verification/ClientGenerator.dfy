/** Client configurations: several nodes behind one selector, in an order that does not depend on the input. */
module ClientGenerator {
  import opened Prelude
  import opened Text
  import opened Sequences
  import opened Sorting
  import opened Routing
  import opened Generator

  const RESERVED_TAGS: set<string> := {"direct", "block", "proxy"}
  const PROXY := "proxy"

  predicate ByTag(a: Node, b: Node) {
    AtMost(a.tag, b.tag)
  }

  function TagOf(n: Node): string {
    n.tag
  }

  function NodeTags(nodes: seq<Node>): seq<string> {
    Map(nodes, TagOf)
  }

  // Validation of tags ----------------------------------------------------------------------------------------------

  function Duplicates(tags: seq<string>): set<string> {
    set t | t in tags && multiset(tags)[t] >= 2
  }

  predicate IsReserved(tag: string) {
    tag in RESERVED_TAGS
  }

  function ValidTags(tags: seq<string>): Option<GenerateError> {
    if Duplicates(tags) != {} then Some(DuplicateTags(Duplicates(tags)))
    else if Filter(tags, IsReserved) != [] then Some(ReservedTags(Filter(tags, IsReserved)))
    else None
  }

  /** `_validate_node_tags` */
  method ValidateNodeTags(tags: seq<string>) returns (error: Option<GenerateError>)
    ensures error == ValidTags(tags)
  {
    var seen: set<string>, duplicates: set<string> := {}, {};
    for i := 0 to |tags|
      invariant forall t :: t in seen <==> t in tags[..i]
      invariant duplicates == Duplicates(tags[..i])
    {
      assert tags[..i + 1] == tags[..i] + [tags[i]];
      if tags[i] in seen {
        duplicates := duplicates + {tags[i]};
      }
      seen := seen + {tags[i]};
    }
    assert tags[..|tags|] == tags;
    if duplicates != {} {
      return Some(DuplicateTags(duplicates));
    }
    var reserved := Filter(tags, IsReserved);
    if reserved != [] {
      return Some(ReservedTags(reserved));
    }
    return None;
  }

  /** Tags pass exactly when they are pairwise distinct and none is reserved. */
  lemma ValidTagsMeaning(tags: seq<string>)
    ensures ValidTags(tags).None? <==> NoDuplicates(tags) && forall t :: t in tags ==> t !in RESERVED_TAGS
    ensures Duplicates(tags) == {} <==> NoDuplicates(tags)
  {
    NoDuplicatesByCount(tags);
    FilterMembers(tags, IsReserved);
    if Duplicates(tags) == {} {
      forall x ensures multiset(tags)[x] <= 1 {
        assert multiset(tags)[x] >= 2 ==> x in Duplicates(tags);
      }
    }
    if t :| t in tags && t in RESERVED_TAGS {
      assert t in Filter(tags, IsReserved);
    }
    if Filter(tags, IsReserved) != [] {
      assert Filter(tags, IsReserved)[0] in Filter(tags, IsReserved);
    }
  }

  // Generation ------------------------------------------------------------------------------------------------------

  /** The outbounds of the nodes in order, or the first failure. */
  function BuildAll(nodes: seq<Node>): Result<seq<OutboundConfig>, BuildError> {
    if nodes == [] then Ok([])
    else
      var first := BuildOutbound(nodes[0]);
      if first.Err? then Err(first.error)
      else
        var rest := BuildAll(nodes[1..]);
        if rest.Err? then Err(rest.error) else Ok([first.value] + rest.value)
  }

  /** The outbounds of nodes that are already sorted and validated: a selector joins several. */
  function ClientOutbounds(built: seq<OutboundConfig>, tags: seq<string>): seq<OutboundConfig>
    requires tags != []
  {
    (if |built| > 1 then built + [Selector(PROXY, tags, tags[0])] else built) + BUILT_INS
  }

  function FinalTag(built: seq<OutboundConfig>, tags: seq<string>): string
    requires tags != []
  {
    if |built| > 1 then PROXY else tags[0]
  }

  function Assemble(built: seq<OutboundConfig>, tags: seq<string>, preset: Preset, dns: DnsPreset, level: LogLevel): Config
    requires preset.Known() && tags != []
  {
    Config(level, dns, BuildRouteConfig(preset, None).value.(final := FinalTag(built, tags)), ClientOutbounds(built, tags))
  }

  function GenerateSorted(sorted: seq<Node>, preset: Preset, dns: DnsPreset, level: LogLevel)
    : Result<Config, GenerateError>
    requires preset.Known() && sorted != []
  {
    var tags := NodeTags(sorted);
    if ValidTags(tags).Some? then Err(ValidTags(tags).value)
    else
      var built := BuildAll(sorted);
      if built.Err? then Err(Unbuildable(built.error)) else Ok(Assemble(built.value, tags, preset, dns, level))
  }

  function GenerateClientConfig(nodes: seq<Node>, preset: Preset, dns: DnsPreset, level: LogLevel)
    : Result<Config, GenerateError>
  {
    if nodes == [] then Err(NoNodes)
    else if dns.OtherDns? then Err(UnknownDns)
    else if !preset.Known() then Err(UnknownRoute)
    else if level.OtherLevel? then Err(UnknownLevel)
    else GenerateSorted(Sort(nodes, ByTag), preset, dns, level)
  }

  // The order of the input does not matter --------------------------------------------------------------------------

  /** When the tags pass, they are distinct, and sorting forgets the order of the nodes. */
  lemma ValidSortIsCanonical(a: seq<Node>, b: seq<Node>)
    requires multiset(a) == multiset(b) && ValidTags(NodeTags(Sort(a, ByTag))).None?
    ensures Sort(a, ByTag) == Sort(b, ByTag)
  {
    var tags := NodeTags(Sort(a, ByTag));
    ValidTagsMeaning(tags);
    SortPermutes(a, ByTag);
    MapOfPermutation(Sort(a, ByTag), a, TagOf);
    NoDuplicatesOfPermutation(tags, NodeTags(a));
    SortByKeyCanonical(a, b, ByTag, TagOf);
  }

  /** Permuting the nodes changes neither the generated configuration nor the error, for any nodes at all. */
  lemma ClientConfigCanonical(a: seq<Node>, b: seq<Node>, preset: Preset, dns: DnsPreset, level: LogLevel)
    requires multiset(a) == multiset(b)
    ensures GenerateClientConfig(a, preset, dns, level) == GenerateClientConfig(b, preset, dns, level)
  {
    SameMembers(a, b);
    SortedKeysCanonical(a, b, ByTag, TagOf);
    if ValidTags(NodeTags(Sort(a, ByTag))).None? {
      ValidSortIsCanonical(a, b);
    }
  }

  // What is generated -----------------------------------------------------------------------------------------------

  ghost predicate AllBuildable(nodes: seq<Node>) {
    forall i {:trigger Buildable(nodes[i])} :: 0 <= i < |nodes| ==> Buildable(nodes[i])
  }

  /** All nodes can be built exactly when each can; the outbounds are theirs, in order. */
  lemma {:induction false} BuildAllContract(nodes: seq<Node>)
    ensures BuildAll(nodes).Ok? <==> AllBuildable(nodes)
    ensures BuildAll(nodes).Ok? ==>
              |BuildAll(nodes).value| == |nodes|
              && forall i :: 0 <= i < |nodes| ==> BuildOutbound(nodes[i]) == Ok(BuildAll(nodes).value[i])
  {
    if nodes != [] {
      BuildContract(nodes[0]);
      BuildAllContract(nodes[1..]);
      assert forall i :: 0 < i < |nodes| ==> nodes[i] == nodes[1..][i - 1];
    }
  }

  ghost predicate NoSelectors(built: seq<OutboundConfig>) {
    forall i :: 0 <= i < |built| ==> !built[i].Selector?
  }

  lemma {:induction false} BuildAllTags(nodes: seq<Node>, built: seq<OutboundConfig>)
    requires BuildAll(nodes) == Ok(built)
    ensures |built| == |nodes| && Tags(built) == NodeTags(nodes) && NoSelectors(built)
  {
    if nodes != [] {
      BuildContract(nodes[0]);
      BuildAllTags(nodes[1..], built[1..]);
      assert built == [built[0]] + built[1..];
      assert Tags(built) == [built[0].tag] + Tags(built[1..]);
      assert NodeTags(nodes) == [nodes[0].tag] + NodeTags(nodes[1..]);
    }
  }

  /** On nodes that are sorted and have valid tags, generation fails exactly when some outbound cannot be built. */
  lemma SortedFailsOnlyInBuild(nodes: seq<Node>, preset: Preset, dns: DnsPreset, level: LogLevel)
    requires nodes != [] && Sort(nodes, ByTag) == nodes && ValidTags(NodeTags(nodes)).None?
    requires preset.Known() && !dns.OtherDns? && !level.OtherLevel?
    ensures var r := GenerateClientConfig(nodes, preset, dns, level);
            (r.Ok? <==> AllBuildable(nodes)) && (r.Err? ==> r.error.Unbuildable?)
  {
    BuildAllContract(nodes);
  }

  lemma SortedParts(sorted: seq<Node>, preset: Preset, dns: DnsPreset, level: LogLevel)
    requires preset.Known() && sorted != [] && GenerateSorted(sorted, preset, dns, level).Ok?
    ensures ValidTags(NodeTags(sorted)).None? && BuildAll(sorted).Ok?
    ensures GenerateSorted(sorted, preset, dns, level).value == Assemble(BuildAll(sorted).value, NodeTags(sorted), preset, dns, level)
  {
  }

  /** What holds of the parts a generated configuration is assembled from. */
  lemma Parts(nodes: seq<Node>, preset: Preset, dns: DnsPreset, level: LogLevel) returns (sorted: seq<Node>, built: seq<OutboundConfig>)
    requires GenerateClientConfig(nodes, preset, dns, level).Ok?
    ensures sorted == Sort(nodes, ByTag) && |sorted| == |nodes| > 0 && |built| == |sorted|
    ensures multiset(sorted) == multiset(nodes)
    ensures GenerateClientConfig(nodes, preset, dns, level).value == Assemble(built, NodeTags(sorted), preset, dns, level)
    ensures NoDuplicates(NodeTags(sorted)) && forall t :: t in NodeTags(sorted) ==> t !in RESERVED_TAGS
    ensures BuildAll(sorted) == Ok(built) && Tags(built) == NodeTags(sorted) && NoSelectors(built)
  {
    sorted := Sort(nodes, ByTag);
    SortedParts(sorted, preset, dns, level);
    built := BuildAll(sorted).value;
    SortPermutes(nodes, ByTag);
    ValidTagsMeaning(NodeTags(sorted));
    BuildAllTags(sorted, built);
  }

  lemma {:induction false} TagsOfConcat(a: seq<OutboundConfig>, b: seq<OutboundConfig>)
    ensures Tags(a + b) == Tags(a) + Tags(b)
  {
    if a != [] {
      assert (a + b)[1..] == a[1..] + b;
      TagsOfConcat(a[1..], b);
    } else {
      assert a + b == b;
    }
  }

  lemma TagsOfClient(built: seq<OutboundConfig>, tags: seq<string>)
    requires tags != [] && Tags(built) == tags
    ensures Tags(ClientOutbounds(built, tags)) == tags + ((if |built| > 1 then [PROXY] else []) + [DIRECT, BLOCK])
  {
    var selector := Selector(PROXY, tags, tags[0]);
    var middle := if |built| > 1 then [selector] else [];
    assert ClientOutbounds(built, tags) == built + (middle + BUILT_INS);
    TagsOfConcat(built, middle + BUILT_INS);
    TagsOfConcat(middle, BUILT_INS);
    assert Tags(BUILT_INS) == [DIRECT, BLOCK];
    assert Tags([selector]) == [PROXY];
  }

  lemma ClientTagsDistinct(tags: seq<string>, several: bool)
    requires NoDuplicates(tags) && forall t :: t in tags ==> t !in RESERVED_TAGS
    ensures NoDuplicates(tags + ((if several then [PROXY] else []) + [DIRECT, BLOCK]))
  {
    var tail := (if several then [PROXY] else []) + [DIRECT, BLOCK];
    forall i, j | 0 <= i < j < |tags + tail| ensures (tags + tail)[i] != (tags + tail)[j] {
      if i < |tags| <= j {
        assert tags[i] in tags && tail[j - |tags|] in RESERVED_TAGS;
      }
    }
  }

  lemma ClientTagMembers(built: seq<OutboundConfig>, tags: seq<string>)
    requires tags != [] && Tags(built) == tags
    ensures var all := Tags(ClientOutbounds(built, tags));
            DIRECT in all && BLOCK in all && FinalTag(built, tags) in all && forall t :: t in tags ==> t in all
  {
    TagsOfClient(built, tags);
    var tail := (if |built| > 1 then [PROXY] else []) + [DIRECT, BLOCK];
    assert tail[|tail| - 1] == BLOCK && tail[|tail| - 2] == DIRECT && (|built| > 1 ==> tail[0] == PROXY);
    assert tags[0] in tags;
  }

  lemma ClientSelectors(built: seq<OutboundConfig>, tags: seq<string>)
    requires tags != [] && NoSelectors(built)
    ensures forall o :: o in ClientOutbounds(built, tags) && o.Selector? ==> o == Selector(PROXY, tags, tags[0])
  {
  }

  lemma ClientReferences(built: seq<OutboundConfig>, tags: seq<string>, preset: Preset, dns: DnsPreset, level: LogLevel)
    requires preset.Known() && tags != [] && Tags(built) == tags
    requires NoSelectors(built)
    ensures Closed(Assemble(built, tags, preset, dns, level))
  {
    var c := Assemble(built, tags, preset, dns, level);
    var all := Tags(c.outbounds);
    ClientTagMembers(built, tags);
    ClientSelectors(built, tags);
    RouteReferences(preset, None);
    MoreOutbounds(BuildRouteConfig(preset, None).value, c.route, {DIRECT, BLOCK}, set t | t in all);
    forall i | 0 <= i < |c.outbounds| && c.outbounds[i].Selector?
      ensures c.outbounds[i] == Selector(PROXY, tags, tags[0])
    {
      assert c.outbounds[i] in c.outbounds;
    }
  }

  /** Every generated client configuration has distinct outbound tags, and names only outbounds it has. */
  lemma ClientConfigClosed(nodes: seq<Node>, preset: Preset, dns: DnsPreset, level: LogLevel)
    requires GenerateClientConfig(nodes, preset, dns, level).Ok?
    ensures var c := GenerateClientConfig(nodes, preset, dns, level).value;
            Closed(c) && NoDuplicates(Tags(c.outbounds))
  {
    var sorted, built := Parts(nodes, preset, dns, level);
    var tags := NodeTags(sorted);
    TagsOfClient(built, tags);
    ClientTagsDistinct(tags, |built| > 1);
    ClientReferences(built, tags, preset, dns, level);
  }

  /** The outbound that unmatched traffic takes until the user picks another one. */
  function DefaultExit(c: Config): string {
    DefaultOf(c.outbounds, c.route.final)
  }

  function DefaultOf(outbounds: seq<OutboundConfig>, final: string): string {
    if outbounds == [] then final
    else if outbounds[0].Selector? && outbounds[0].tag == final then outbounds[0].default
    else DefaultOf(outbounds[1..], final)
  }

  lemma {:induction false} DefaultSkips(a: seq<OutboundConfig>, b: seq<OutboundConfig>, final: string)
    requires forall i :: 0 <= i < |a| ==> !a[i].Selector?
    ensures DefaultOf(a + b, final) == DefaultOf(b, final)
  {
    if a != [] {
      assert (a + b)[1..] == a[1..] + b;
      DefaultSkips(a[1..], b, final);
    } else {
      assert a + b == b;
    }
  }

  lemma DefaultOfClient(built: seq<OutboundConfig>, tags: seq<string>)
    requires tags != [] && NoSelectors(built)
    ensures DefaultOf(ClientOutbounds(built, tags), FinalTag(built, tags)) == tags[0]
  {
    if |built| > 1 {
      var selector := Selector(PROXY, tags, tags[0]);
      assert ClientOutbounds(built, tags) == built + ([selector] + BUILT_INS);
      DefaultSkips(built, [selector] + BUILT_INS, PROXY);
    } else {
      var all := built + BUILT_INS;
      assert all + [] == all;
      DefaultSkips(all, [], tags[0]);
    }
  }

  /** Unmatched traffic leaves through the node with the least tag, whatever the order of the input. */
  lemma DefaultExitIsLeastTag(nodes: seq<Node>, preset: Preset, dns: DnsPreset, level: LogLevel)
    requires GenerateClientConfig(nodes, preset, dns, level).Ok?
    ensures var c := GenerateClientConfig(nodes, preset, dns, level).value;
            && (exists n :: n in nodes && n.tag == DefaultExit(c))
            && (forall n :: n in nodes ==> AtMost(DefaultExit(c), n.tag))
  {
    var sorted, built := Parts(nodes, preset, dns, level);
    DefaultOfClient(built, NodeTags(sorted));
    SameMembers(sorted, nodes);
    assert sorted[0] in nodes;
    KeyIsOrder(ByTag, TagOf);
    SortSorts(nodes, ByTag);
    forall n | n in nodes ensures AtMost(sorted[0].tag, n.tag) {
      var i :| 0 <= i < |sorted| && sorted[i] == n;
      if i > 0 { assert ByTag(sorted[0], sorted[i]); } else { LessIrreflexive(n.tag); }
    }
  }

  /** What holds of every node, said of the list and of its members. */
  lemma AllOfPermutation(nodes: seq<Node>, sorted: seq<Node>)
    requires forall n :: n in nodes <==> n in sorted
    ensures AllBuildable(sorted) <==> forall n :: n in nodes ==> Buildable(n)
    ensures (forall t :: t in NodeTags(sorted) ==> t !in RESERVED_TAGS) <==> forall n :: n in nodes ==> n.tag !in RESERVED_TAGS
  {
    if AllBuildable(sorted) {
      forall n | n in nodes ensures Buildable(n) {
        var i :| 0 <= i < |sorted| && sorted[i] == n;
        assert Buildable(sorted[i]);
      }
    }
    if forall t :: t in NodeTags(sorted) ==> t !in RESERVED_TAGS {
      forall n | n in nodes ensures n.tag !in RESERVED_TAGS {
        var i :| 0 <= i < |sorted| && sorted[i] == n;
        assert NodeTags(sorted)[i] == n.tag;
      }
    }
  }

  lemma DistinctOfPermutation(nodes: seq<Node>, sorted: seq<Node>)
    requires multiset(nodes) == multiset(sorted)
    ensures NoDuplicates(NodeTags(sorted)) <==> NoDuplicates(NodeTags(nodes))
  {
    MapOfPermutation(sorted, nodes, TagOf);
    if NoDuplicates(NodeTags(nodes)) { NoDuplicatesOfPermutation(NodeTags(nodes), NodeTags(sorted)); }
    if NoDuplicates(NodeTags(sorted)) { NoDuplicatesOfPermutation(NodeTags(sorted), NodeTags(nodes)); }
  }

  lemma SortedConfigExists(sorted: seq<Node>, preset: Preset, dns: DnsPreset, level: LogLevel)
    requires preset.Known() && sorted != []
    ensures GenerateSorted(sorted, preset, dns, level).Ok? <==>
            && NoDuplicates(NodeTags(sorted)) && (forall t :: t in NodeTags(sorted) ==> t !in RESERVED_TAGS)
            && AllBuildable(sorted)
  {
    ValidTagsMeaning(NodeTags(sorted));
    BuildAllContract(sorted);
  }

  /** Generation fails exactly for an empty list, unknown names, tags that repeat or are reserved, and nodes that cannot
      be built. */
  lemma ClientConfigExists(nodes: seq<Node>, preset: Preset, dns: DnsPreset, level: LogLevel)
    ensures GenerateClientConfig(nodes, preset, dns, level).Ok? <==>
            && nodes != [] && preset.Known() && !dns.OtherDns? && !level.OtherLevel?
            && NoDuplicates(NodeTags(nodes)) && (forall n :: n in nodes ==> n.tag !in RESERVED_TAGS)
            && (forall n :: n in nodes ==> Buildable(n))
  {
    var sorted := Sort(nodes, ByTag);
    SortPermutes(nodes, ByTag);
    DistinctOfPermutation(nodes, sorted);
    AllOfPermutation(nodes, sorted);
    if nodes != [] && preset.Known() { SortedConfigExists(sorted, preset, dns, level); }
  }

  /** What unmatched traffic of a client is given to: the selector of several nodes, or the only node. */
  function Exit(nodes: seq<Node>): string
    requires nodes != []
  {
    if |nodes| > 1 then "proxy" else nodes[0].tag
  }

  lemma RoutesByPolicy(route: Route, preset: Preset, final: string)
    requires preset.Known() && route == BuildRouteConfig(preset, None).value.(final := final)
    ensures forall x :: Decide(route, x) == Policy(preset, None, final, x)
  {
    forall x ensures Decide(route, x) == Policy(preset, None, final, x) {
      RouteMeaning(preset, None, final, x);
    }
  }

  /**
   What a client configuration does: every connection is decided as the preset says, without any process list; what no
   rule decides goes to the exit; and DNS and log level are the ones asked for.
   */
  lemma ClientConfigRoutes(nodes: seq<Node>, preset: Preset, dns: DnsPreset, level: LogLevel, c: Config)
    requires GenerateClientConfig(nodes, preset, dns, level) == Ok(c)
    ensures nodes != [] && forall x :: Decide(c.route, x) == Policy(preset, None, Exit(nodes), x)
    ensures c.dns == dns && c.logLevel == level
  {
    var sorted, built := Parts(nodes, preset, dns, level);
    if |nodes| == 1 {
      SameMembers(sorted, nodes);
      assert sorted[0] in nodes;
    }
    RoutesByPolicy(c.route, preset, Exit(nodes));
  }

  lemma SortedStrictly(nodes: seq<Node>)
    requires NoDuplicates(NodeTags(Sort(nodes, ByTag)))
    ensures var sorted := Sort(nodes, ByTag); forall i, j :: 0 <= i < j < |sorted| ==> Less(sorted[i].tag, sorted[j].tag)
  {
    var sorted := Sort(nodes, ByTag);
    KeyIsOrder(ByTag, TagOf);
    SortSorts(nodes, ByTag);
    forall i, j | 0 <= i < j < |sorted| ensures Less(sorted[i].tag, sorted[j].tag) {
      assert ByTag(sorted[i], sorted[j]) && NodeTags(sorted)[i] != NodeTags(sorted)[j];
      LessTotal(sorted[i].tag, sorted[j].tag);
    }
  }

  /** What it consists of: with the nodes arranged by tag, the outbound of each; with several nodes a selector that offers
      just them and starts with the first; and the two built-in ones. */
  lemma ClientConfigOutbounds(nodes: seq<Node>, preset: Preset, dns: DnsPreset, level: LogLevel, c: Config)
    returns (arranged: seq<Node>, built: seq<OutboundConfig>)
    requires GenerateClientConfig(nodes, preset, dns, level) == Ok(c)
    ensures multiset(arranged) == multiset(nodes) && |built| == |arranged| == |nodes| > 0
    ensures forall i, j :: 0 <= i < j < |arranged| ==> Less(arranged[i].tag, arranged[j].tag)
    ensures forall i :: 0 <= i < |arranged| ==> BuildOutbound(arranged[i]) == Ok(built[i])
    ensures var selector := if |nodes| > 1 then [Selector("proxy", NodeTags(arranged), arranged[0].tag)] else [];
            c.outbounds == built + selector + [DirectOut("direct"), BlockOut("block")]
  {
    arranged, built := Parts(nodes, preset, dns, level);
    BuildAllContract(arranged);
    SortedStrictly(nodes);
    assert built + [] == built;
  }

  /** For one node the client gets the configuration the host would deploy without process rules, or, for a
      reserved tag only, nothing. */
  lemma OneNodeClientIsHost(n: Node, preset: Preset, dns: DnsPreset, level: LogLevel)
    ensures GenerateClientConfig([n], preset, dns, level).Ok? <==>
            GenerateConfig(n, dns, preset, level, None).Ok? && n.tag !in RESERVED_TAGS
    ensures GenerateClientConfig([n], preset, dns, level).Ok? ==>
            GenerateClientConfig([n], preset, dns, level) == GenerateConfig(n, dns, preset, level, None)
  {
    assert [n][1..] == [];
    assert Sort([n][1..], ByTag) == [];
    assert Sort([n], ByTag) == [n];
    assert NodeTags([n]) == [n.tag];
    ValidTagsMeaning([n.tag]);
    BuildContract(n);
    assert BuildAll([n][1..]) == Ok([]);
    var first := BuildOutbound(n);
    if first.Ok? {
      assert [first.value] + [] == [first.value];
      assert BuildAll([n]) == Ok([first.value]);
    }
  }
}
