/** The two documents a user can be sent: a client configuration, and a bundle of importable profiles. */
module ClientConfigs {
  import opened Prelude
  import opened Text
  import opened Sequences
  import opened Sorting
  import opened NodeRows
  import opened Distribution
  import Routing
  import Generator
  import ClientGenerator

  const MAX_PROFILE_NAME_LENGTH := 80

  datatype DocumentError =
    | NotAssigned(cause: AssignmentError) | NoGroupAssigned | NoNodesAssigned | Unreadable
    | Generation(error: Generator.GenerateError) | NameMissing | NameTooLong | DuplicateName

  datatype Profile = Profile(name: string, rawUrl: string, preset: Routing.Preset)
  datatype Bundle = Bundle(defaultProfile: string, profiles: seq<Profile>)

  // Client configuration --------------------------------------------------------------------------------------------

  function ParseRows(parse: UrlParser, rows: seq<NodeRow>): Option<seq<Generator.Node>> {
    if rows == [] then Some([])
    else
      var first := Deserialize(parse, rows[0]);
      var rest := ParseRows(parse, rows[1..]);
      if first.None? || rest.None? then None else Some([first.value] + rest.value)
  }

  /** `build_client_config_document`, without file name, caption and encoding. */
  function BuildClientConfig(parse: UrlParser, a: Assignment): Result<Generator.Config, DocumentError> {
    if a.error.Some? then Err(NotAssigned(a.error.value))
    else if a.group.None? then Err(NoGroupAssigned)
    else
      var nodes := ParseRows(parse, a.nodes);
      if nodes.None? then Err(Unreadable)
      else
        match ClientGenerator.GenerateClientConfig(nodes.value, a.preset, Generator.Quad9, Generator.LogWarn)
        case Err(e) => Err(Generation(e))
        case Ok(c) => Ok(c)
  }

  // Bundle ----------------------------------------------------------------------------------------------------------

  function ProfileName(p: Profile): string {
    p.name
  }

  /** What is wrong with a row on its own, if anything. */
  function RowError(parse: UrlParser, row: NodeRow): Option<DocumentError> {
    var node := Deserialize(parse, row);
    if node.None? then Some(Unreadable)
    else
      var built := Generator.BuildOutbound(node.value);
      var name := Strip(row.tag);
      if built.Err? then Some(Generation(Generator.Unbuildable(built.error)))
      else if name == "" then Some(NameMissing)
      else if |name| > MAX_PROFILE_NAME_LENGTH then Some(NameTooLong)
      else None
  }

  /** The check of rows under a given parser. */
  function RowCheck(parse: UrlParser): NodeRow -> Option<DocumentError> {
    row => RowError(parse, row)
  }

  function AddProfile(check: NodeRow -> Option<DocumentError>, profiles: seq<Profile>, row: NodeRow, preset: Routing.Preset)
    : Result<seq<Profile>, DocumentError>
  {
    var error := check(row);
    var name := Strip(row.tag);
    if error.Some? then Err(error.value)
    else if name in Map(profiles, ProfileName) then Err(DuplicateName)
    else Ok(profiles + [Profile(name, row.rawUrl, preset)])
  }

  function Profiles(check: NodeRow -> Option<DocumentError>, rows: seq<NodeRow>, preset: Routing.Preset)
    : (r: Result<seq<Profile>, DocumentError>)
    ensures r.Ok? ==> |r.value| == |rows|
  {
    if rows == [] then Ok([])
    else
      match Profiles(check, rows[..|rows| - 1], preset)
      case Err(e) => Err(e)
      case Ok(profiles) => AddProfile(check, profiles, rows[|rows| - 1], preset)
  }

  lemma {:induction false} ProfileErrorStays(check: NodeRow -> Option<DocumentError>, rows: seq<NodeRow>, k: nat, preset: Routing.Preset)
    requires k <= |rows| && Profiles(check, rows[..k], preset).Err?
    ensures Profiles(check, rows, preset) == Profiles(check, rows[..k], preset)
  {
    if k < |rows| {
      assert rows[..|rows| - 1][..k] == rows[..k];
      ProfileErrorStays(check, rows[..|rows| - 1], k, preset);
    } else {
      assert rows[..k] == rows;
    }
  }

  lemma NamesAppend(profiles: seq<Profile>, p: Profile)
    ensures Map(profiles + [p], ProfileName) == Map(profiles, ProfileName) + [p.name]
  {
    forall i | 0 <= i < |profiles| ensures Map(profiles + [p], ProfileName)[i] == Map(profiles, ProfileName)[i] {
      assert (profiles + [p])[i] == profiles[i];
    }
  }

  lemma ProfilesStep(check: NodeRow -> Option<DocumentError>, rows: seq<NodeRow>, i: nat, preset: Routing.Preset, profiles: seq<Profile>)
    requires i < |rows| && Profiles(check, rows[..i], preset) == Ok(profiles)
    ensures Profiles(check, rows[..i + 1], preset) == AddProfile(check, profiles, rows[i], preset)
  {
    assert rows[..i + 1][..i] == rows[..i];
  }

  /** `_sbclient_profiles` */
  method SbclientProfiles(check: NodeRow -> Option<DocumentError>, a: Assignment) returns (r: Result<seq<Profile>, DocumentError>)
    ensures r == Profiles(check, Sort(a.nodes, RowByTag), a.preset)
  {
    var rows := Sort(a.nodes, RowByTag);
    var profiles: seq<Profile>, seenNames: set<string> := [], {};
    for i := 0 to |rows|
      invariant Profiles(check, rows[..i], a.preset) == Ok(profiles)
      invariant forall n :: n in seenNames <==> n in Map(profiles, ProfileName)
    {
      ProfilesStep(check, rows, i, a.preset, profiles);
      var error := check(rows[i]);
      var name := Strip(rows[i].tag);
      if error.Some? || name in seenNames {
        ProfileErrorStays(check, rows, i + 1, a.preset);
        return Err(error.GetOr(DuplicateName));
      }
      var profile := Profile(name, rows[i].rawUrl, a.preset);
      NamesAppend(profiles, profile);
      seenNames := seenNames + {name};
      profiles := profiles + [profile];
    }
    assert rows[..|rows|] == rows;
    return Ok(profiles);
  }

  function BuildBundle(parse: UrlParser, a: Assignment): Result<Bundle, DocumentError> {
    if a.error.Some? then Err(NotAssigned(a.error.value))
    else if a.group.None? then Err(NoGroupAssigned)
    else if a.nodes == [] then Err(NoNodesAssigned)
    else
      match Profiles(RowCheck(parse), Sort(a.nodes, RowByTag), a.preset)
      case Err(e) => Err(e)
      case Ok(profiles) => Ok(Bundle(profiles[0].name, profiles))
  }

  // What can fail ---------------------------------------------------------------------------------------------------

  /** A group as the group service writes it: clean tags, none of them reserved. */
  ghost predicate SoundTags(tags: seq<string>) {
    CleanTags(tags) && forall t :: t in tags ==> t !in ClientGenerator.RESERVED_TAGS
  }

  /** Rows in order of tags, tags clean and not reserved, columns as the URL parses. */
  ghost predicate SoundRows(parse: UrlParser, rows: seq<NodeRow>) {
    && (forall i :: 0 <= i < |rows| ==> ReadsBack(parse, rows[i]))
    && IsSorted(rows, RowByTag) && SoundTags(RowTags(rows))
  }

  lemma {:induction false} ParseRowsContract(parse: UrlParser, rows: seq<NodeRow>)
    requires forall i :: 0 <= i < |rows| ==> ReadsBack(parse, rows[i])
    ensures ParseRows(parse, rows).Some? && |ParseRows(parse, rows).value| == |rows|
    ensures forall i :: 0 <= i < |rows| ==> Deserialize(parse, rows[i]) == Some(ParseRows(parse, rows).value[i])
    ensures ClientGenerator.NodeTags(ParseRows(parse, rows).value) == RowTags(rows)
  {
    if rows != [] {
      DeserializeKeepsTag(parse, rows[0]);
      ParseRowsContract(parse, rows[1..]);
      assert forall i :: 0 < i < |rows| ==> rows[i] == rows[1..][i - 1];
      var nodes := ParseRows(parse, rows).value;
      forall i | 0 <= i < |rows| ensures nodes[i].tag == rows[i].tag {
        DeserializeKeepsTag(parse, rows[i]);
      }
    }
  }

  /** Parsed in order of tags, the nodes are already sorted and validated. */
  lemma SortedParse(parse: UrlParser, rows: seq<NodeRow>, nodes: seq<Generator.Node>)
    requires SoundRows(parse, rows) && ParseRows(parse, rows) == Some(nodes)
    ensures Sort(nodes, ClientGenerator.ByTag) == nodes
    ensures ClientGenerator.NodeTags(nodes) == RowTags(rows) && ClientGenerator.ValidTags(RowTags(rows)).None?
  {
    ParseRowsContract(parse, rows);
    forall i, j | 0 <= i < j < |nodes| ensures ClientGenerator.ByTag(nodes[i], nodes[j]) {
      assert RowByTag(rows[i], rows[j]);
      assert ClientGenerator.NodeTags(nodes)[i] == rows[i].tag && ClientGenerator.NodeTags(nodes)[j] == rows[j].tag;
    }
    SortOfSorted(nodes, ClientGenerator.ByTag);
    ClientGenerator.ValidTagsMeaning(RowTags(rows));
  }

  ghost predicate ShortTags(rows: seq<NodeRow>) {
    forall i :: 0 <= i < |rows| ==> |rows[i].tag| <= MAX_PROFILE_NAME_LENGTH
  }

  /** One more profile, for a row whose tag is clean and new. */
  lemma AddProfileContract(parse: UrlParser, profiles: seq<Profile>, row: NodeRow, node: Generator.Node, preset: Routing.Preset)
    requires Deserialize(parse, row) == Some(node)
    requires row.tag != "" && Trimmed(row.tag) && row.tag !in Map(profiles, ProfileName)
    ensures var r := AddProfile(RowCheck(parse), profiles, row, preset);
            && (r.Ok? <==> Generator.Buildable(node) && |row.tag| <= MAX_PROFILE_NAME_LENGTH)
            && (r.Err? ==> r.error == NameTooLong || (r.error.Generation? && r.error.error.Unbuildable?))
            && (r.Ok? ==> Map(r.value, ProfileName) == Map(profiles, ProfileName) + [row.tag])
            && (r.Ok? ==> r.value == profiles + [Profile(row.tag, row.rawUrl, preset)])
  {
    StripTrims(row.tag);
    Generator.BuildContract(node);
    var profile := Profile(row.tag, row.rawUrl, preset);
    assert Map(profiles + [profile], ProfileName) == Map(profiles, ProfileName) + [row.tag];
  }

  lemma {:induction false} ParseRowsOfPrefix(parse: UrlParser, rows: seq<NodeRow>, nodes: seq<Generator.Node>)
    requires rows != [] && ParseRows(parse, rows) == Some(nodes)
    ensures |nodes| == |rows| && ParseRows(parse, rows[..|rows| - 1]) == Some(nodes[..|rows| - 1])
    ensures Deserialize(parse, rows[|rows| - 1]) == Some(nodes[|rows| - 1])
  {
    if |rows| == 1 {
      assert rows[1..] == [];
    } else {
      var init := rows[..|rows| - 1];
      ParseRowsOfPrefix(parse, rows[1..], nodes[1..]);
      assert init[0] == rows[0] && init[1..] == rows[1..][..|rows| - 2];
      assert [nodes[0]] + nodes[1..][..|rows| - 2] == nodes[..|rows| - 1];
    }
  }

  lemma CleanTagsOfPrefix(rows: seq<NodeRow>)
    requires rows != [] && CleanTags(RowTags(rows))
    ensures CleanTags(RowTags(rows[..|rows| - 1]))
    ensures RowTags(rows) == RowTags(rows[..|rows| - 1]) + [rows[|rows| - 1].tag]
    ensures rows[|rows| - 1].tag !in RowTags(rows[..|rows| - 1])
    ensures rows[|rows| - 1].tag != "" && Trimmed(rows[|rows| - 1].tag)
  {
    var tags := RowTags(rows);
    assert RowTags(rows[..|rows| - 1]) == tags[..|rows| - 1];
    assert tags[|rows| - 1] in tags;
    assert forall t :: t in tags[..|rows| - 1] ==> t in tags;
  }

  lemma BuildableByPrefix(nodes: seq<Generator.Node>)
    requires nodes != []
    ensures ClientGenerator.AllBuildable(nodes) <==>
            ClientGenerator.AllBuildable(nodes[..|nodes| - 1]) && Generator.Buildable(nodes[|nodes| - 1])
  {
    var init := nodes[..|nodes| - 1];
    assert forall i :: 0 <= i < |init| ==> init[i] == nodes[i];
  }

  /** With sound rows every profile is named after its tag, in order; the only other obstacle is a long name. */
  lemma {:induction false} ProfilesContract(parse: UrlParser, rows: seq<NodeRow>, nodes: seq<Generator.Node>, preset: Routing.Preset)
    requires CleanTags(RowTags(rows)) && ParseRows(parse, rows) == Some(nodes)
    ensures var r := Profiles(RowCheck(parse), rows, preset);
            && (r.Ok? <==> ClientGenerator.AllBuildable(nodes) && ShortTags(rows))
            && (r.Err? ==> r.error == NameTooLong || (r.error.Generation? && r.error.error.Unbuildable?))
            && (r.Ok? ==> Map(r.value, ProfileName) == RowTags(rows))
  {
    if rows != [] {
      var init, last := rows[..|rows| - 1], rows[|rows| - 1];
      ParseRowsOfPrefix(parse, rows, nodes);
      CleanTagsOfPrefix(rows);
      ProfilesContract(parse, init, nodes[..|rows| - 1], preset);
      BuildableByPrefix(nodes);
      assert ShortTags(rows) <==> ShortTags(init) && |last.tag| <= MAX_PROFILE_NAME_LENGTH;
      var before := Profiles(RowCheck(parse), init, preset);
      if before.Ok? {
        AddProfileContract(parse, before.value, last, nodes[|rows| - 1], preset);
      }
    }
  }

  /** Every profile bears the trimmed tag and the URL of its row, and the preset of the assignment. */
  lemma {:induction false} ProfilesTell(check: NodeRow -> Option<DocumentError>, rows: seq<NodeRow>, preset: Routing.Preset)
    requires Profiles(check, rows, preset).Ok?
    ensures forall i :: 0 <= i < |rows| ==>
              Profiles(check, rows, preset).value[i] == Profile(Strip(rows[i].tag), rows[i].rawUrl, preset)
  {
    if rows != [] {
      var init, last := rows[..|rows| - 1], rows[|rows| - 1];
      ProfilesTell(check, init, preset);
      var before := Profiles(check, init, preset).value;
      assert Profiles(check, rows, preset).value == before + [Profile(Strip(last.tag), last.rawUrl, preset)] by {
        assert Profiles(check, rows, preset) == AddProfile(check, before, last, preset);
      }
      forall i | 0 <= i < |init| ensures before[i] == Profile(Strip(rows[i].tag), rows[i].rawUrl, preset) {
        assert init[i] == rows[i];
      }
    }
  }

  /** What the rows of an error-free assignment of a sound group look like. */
  lemma AssignedRowsSound(parse: UrlParser, nodes: seq<NodeRow>, g: Group, user: Option<User>)
    requires NoDuplicates(RowTags(nodes)) && forall r :: r in nodes ==> ReadsBack(parse, r)
    requires SoundTags(g.storedTags) && AssignmentFromGroup(nodes, g, user).error.None?
    ensures var a := AssignmentFromGroup(nodes, g, user);
            && SoundRows(parse, a.nodes) && a.nodes != [] && a.preset.Known() && a.group == Some(g)
            && forall t :: t in g.storedTags <==> t in RowTags(a.nodes)
  {
    AssignmentIsExact(nodes, g, user);
    CleanTagsAreStable(g.storedTags);
    var a := AssignmentFromGroup(nodes, g, user);
    forall i | 0 <= i < |a.nodes| ensures ReadsBack(parse, a.nodes[i]) {
      assert a.nodes[i] in a.nodes;
    }
  }

  /** The parsed nodes of an error-free assignment of a sound group. */
  lemma AssignedNodes(parse: UrlParser, a: Assignment) returns (nodes: seq<Generator.Node>)
    requires SoundRows(parse, a.nodes)
    ensures ParseRows(parse, a.nodes) == Some(nodes) && |nodes| == |a.nodes|
    ensures Sort(nodes, ClientGenerator.ByTag) == nodes && Sort(a.nodes, RowByTag) == a.nodes
    ensures ClientGenerator.NodeTags(nodes) == RowTags(a.nodes) && ClientGenerator.ValidTags(RowTags(a.nodes)).None?
  {
    ParseRowsContract(parse, a.nodes);
    nodes := ParseRows(parse, a.nodes).value;
    SortedParse(parse, a.nodes, nodes);
    SortOfSorted(a.nodes, RowByTag);
  }

  /**
   For a group with sound tags, an assignment without error has exactly the group's tags, and then the client
   configuration fails only on a node no outbound can be built for, and the bundle only there or on a tag of
   more than eighty characters.
   */
  lemma DocumentsFailOnlyInBuild(parse: UrlParser, nodes: seq<NodeRow>, g: Group, user: Option<User>)
    requires NoDuplicates(RowTags(nodes)) && forall r :: r in nodes ==> ReadsBack(parse, r)
    requires SoundTags(g.storedTags) && AssignmentFromGroup(nodes, g, user).error.None?
    ensures var a := AssignmentFromGroup(nodes, g, user);
            var config, bundle := BuildClientConfig(parse, a), BuildBundle(parse, a);
            && (forall t :: t in g.storedTags <==> t in RowTags(a.nodes))
            && ParseRows(parse, a.nodes).Some?
            && (config.Ok? <==> ClientGenerator.AllBuildable(ParseRows(parse, a.nodes).value))
            && (config.Err? ==> config.error.Generation? && config.error.error.Unbuildable?)
            && (bundle.Ok? <==> config.Ok? && ShortTags(a.nodes))
            && (bundle.Err? ==> bundle.error == NameTooLong || (bundle.error.Generation? && bundle.error.error.Unbuildable?))
  {
    AssignedRowsSound(parse, nodes, g, user);
    var a := AssignmentFromGroup(nodes, g, user);
    var parsed := AssignedNodes(parse, a);
    ClientGenerator.SortedFailsOnlyInBuild(parsed, a.preset, Generator.Quad9, Generator.LogWarn);
    ProfilesContract(parse, a.nodes, parsed, a.preset);
  }

  /** What the client configuration of an assignment does: the preset of the assignment, without any process list, with the
      default DNS and log level, and the nodes it was assigned. */
  lemma ConfigDocumentRoutes(parse: UrlParser, a: Assignment, c: Generator.Config)
    requires BuildClientConfig(parse, a) == Ok(c)
    ensures a.error.None? && a.group.Some? && ParseRows(parse, a.nodes).Some? && ParseRows(parse, a.nodes).value != []
    ensures forall x :: Routing.Decide(c.route, x) ==
              Routing.Policy(a.preset, None, ClientGenerator.Exit(ParseRows(parse, a.nodes).value), x)
    ensures c.dns == Generator.Quad9 && c.logLevel == Generator.LogWarn
  {
    var nodes := ParseRows(parse, a.nodes).value;
    ClientGenerator.ClientConfigRoutes(nodes, a.preset, Generator.Quad9, Generator.LogWarn, c);
  }

  // When a document exists ------------------------------------------------------------------------------------------

  /** The name a row is offered under. */
  function NameOf(row: NodeRow): string {
    Strip(row.tag)
  }

  function Names(rows: seq<NodeRow>): seq<string> {
    Map(rows, NameOf)
  }

  /** What is asked of a row on its own. */
  predicate Importable(parse: UrlParser, row: NodeRow) {
    && Deserialize(parse, row).Some? && Generator.Buildable(Deserialize(parse, row).value)
    && 1 <= |NameOf(row)| <= 80
  }

  /** A row fails alone exactly where it cannot be read or built, or where its trimmed tag is empty or longer than eighty
      characters; the first of these reasons is told. */
  lemma RowErrorExactly(parse: UrlParser, row: NodeRow)
    ensures var node, error := Deserialize(parse, row), RowError(parse, row);
            && (error.None? <==> Importable(parse, row))
            && (error == Some(Unreadable) <==> node.None?)
            && (error.Some? && error.value.Generation? <==> node.Some? && !Generator.Buildable(node.value))
            && (error == Some(NameMissing) <==> node.Some? && Generator.Buildable(node.value) && NameOf(row) == "")
            && (error == Some(NameTooLong) <==> node.Some? && Generator.Buildable(node.value) && |NameOf(row)| > 80)
  {
    if Deserialize(parse, row).Some? { Generator.BuildContract(Deserialize(parse, row).value); }
  }

  lemma {:induction false} ProfilesAreNamed(check: NodeRow -> Option<DocumentError>, rows: seq<NodeRow>, preset: Routing.Preset)
    requires Profiles(check, rows, preset).Ok?
    ensures Map(Profiles(check, rows, preset).value, ProfileName) == Names(rows)
  {
    ProfilesTell(check, rows, preset);
    var profiles := Profiles(check, rows, preset).value;
    forall i | 0 <= i < |rows| ensures Map(profiles, ProfileName)[i] == Names(rows)[i] {
      assert profiles[i].name == NameOf(rows[i]);
    }
  }

  lemma OneMoreName(names: seq<string>, name: string)
    ensures NoDuplicates(names + [name]) <==> NoDuplicates(names) && name !in names
  {
    if NoDuplicates(names + [name]) {
      assert forall i :: 0 <= i < |names| ==> (names + [name])[i] == names[i] && (names + [name])[i] != (names + [name])[|names|];
    }
  }

  /** What a list of rows must satisfy under a check of single rows. */
  ghost predicate Passes(check: NodeRow -> Option<DocumentError>, rows: seq<NodeRow>) {
    NoDuplicates(Names(rows)) && forall row :: row in rows ==> check(row).None?
  }

  lemma PassesOneMore(check: NodeRow -> Option<DocumentError>, rows: seq<NodeRow>, last: NodeRow)
    ensures Passes(check, rows + [last]) <==> Passes(check, rows) && check(last).None? && NameOf(last) !in Names(rows)
  {
    MapOneMore(rows, last, NameOf);
    OneMoreName(Names(rows), NameOf(last));
    assert forall row :: row in rows + [last] <==> row in rows || row == last;
  }

  /** The profiles exist exactly if every row passes alone and no two names are the same. */
  lemma {:induction false} ProfilesExist(check: NodeRow -> Option<DocumentError>, rows: seq<NodeRow>, preset: Routing.Preset)
    ensures Profiles(check, rows, preset).Ok? <==> Passes(check, rows)
  {
    if rows == [] {
      assert Names(rows) == [];
    } else {
      var init, last := rows[..|rows| - 1], rows[|rows| - 1];
      ProfilesExist(check, init, preset);
      assert rows == init + [last];
      PassesOneMore(check, init, last);
      if Profiles(check, init, preset).Ok? {
        ProfilesAreNamed(check, init, preset);
        assert Profiles(check, rows, preset) == AddProfile(check, Profiles(check, init, preset).value, last, preset);
      }
    }
  }

  lemma NamesOfPermutation(a: seq<NodeRow>, b: seq<NodeRow>)
    requires multiset(a) == multiset(b) && NoDuplicates(Names(a))
    ensures NoDuplicates(Names(b))
  {
    MapOfPermutation(a, b, NameOf);
    NoDuplicatesOfPermutation(Names(a), Names(b));
  }

  lemma PassesOfPermutation(check: NodeRow -> Option<DocumentError>, a: seq<NodeRow>, b: seq<NodeRow>)
    requires multiset(a) == multiset(b) && Passes(check, a)
    ensures Passes(check, b)
  {
    NamesOfPermutation(a, b);
    SameMembers(a, b);
  }

  /** The order in which the rows are given does not matter. */
  lemma SortedProfilesExist(check: NodeRow -> Option<DocumentError>, rows: seq<NodeRow>, preset: Routing.Preset)
    ensures Profiles(check, Sort(rows, RowByTag), preset).Ok? <==> Passes(check, rows)
  {
    var sorted := Sort(rows, RowByTag);
    SortPermutes(rows, RowByTag);
    ProfilesExist(check, sorted, preset);
    if Passes(check, rows) { PassesOfPermutation(check, rows, sorted); }
    if Passes(check, sorted) { PassesOfPermutation(check, sorted, rows); }
  }

  /** A bundle exists exactly for an assignment without error that has rows, each of which passes, under distinct names. */
  lemma BundleExists(parse: UrlParser, a: Assignment)
    ensures BuildBundle(parse, a).Ok? <==> a.error.None? && a.group.Some? && a.nodes != [] && Passes(RowCheck(parse), a.nodes)
  {
    SortedProfilesExist(RowCheck(parse), a.nodes, a.preset);
  }

  lemma {:induction false} ParseRowsExactly(parse: UrlParser, rows: seq<NodeRow>)
    ensures ParseRows(parse, rows).Some? <==> forall i :: 0 <= i < |rows| ==> Deserialize(parse, rows[i]).Some?
    ensures ParseRows(parse, rows).Some? ==>
              && |ParseRows(parse, rows).value| == |rows|
              && forall i :: 0 <= i < |rows| ==> Deserialize(parse, rows[i]) == Some(ParseRows(parse, rows).value[i])
  {
    if rows != [] {
      ParseRowsExactly(parse, rows[1..]);
      assert forall i :: 0 < i < |rows| ==> rows[i] == rows[1..][i - 1];
    }
  }

  /** A client configuration exists exactly for an assignment without error whose rows can be read and built and bear
      distinct tags, none of them reserved. */
  lemma ConfigExists(parse: UrlParser, a: Assignment)
    ensures BuildClientConfig(parse, a).Ok? <==>
            a.error.None? && a.group.Some? && ParseRows(parse, a.nodes).Some? && Generable(ParseRows(parse, a.nodes).value, a.preset)
  {
    if ParseRows(parse, a.nodes).Some? {
      ClientGenerator.ClientConfigExists(ParseRows(parse, a.nodes).value, a.preset, Generator.Quad9, Generator.LogWarn);
    }
  }

  ghost predicate Generable(nodes: seq<Generator.Node>, preset: Routing.Preset) {
    && nodes != [] && preset.Known() && NoDuplicates(ClientGenerator.NodeTags(nodes))
    && (forall n :: n in nodes ==> n.tag !in ClientGenerator.RESERVED_TAGS)
    && (forall n :: n in nodes ==> Generator.Buildable(n))
  }

  // The documents agree ---------------------------------------------------------------------------------------------

  lemma ConfigListsTags(nodes: seq<Generator.Node>, tags: seq<string>, preset: Routing.Preset) returns (c: Generator.Config)
    requires ClientGenerator.GenerateClientConfig(nodes, preset, Generator.Quad9, Generator.LogWarn).Ok?
    requires Sort(nodes, ClientGenerator.ByTag) == nodes && ClientGenerator.NodeTags(nodes) == tags
    ensures c == ClientGenerator.GenerateClientConfig(nodes, preset, Generator.Quad9, Generator.LogWarn).value
    ensures tags != [] && tags <= Generator.Tags(c.outbounds) && ClientGenerator.DefaultExit(c) == tags[0]
  {
    var sorted, built := ClientGenerator.Parts(nodes, preset, Generator.Quad9, Generator.LogWarn);
    c := ClientGenerator.GenerateClientConfig(nodes, preset, Generator.Quad9, Generator.LogWarn).value;
    ClientGenerator.TagsOfClient(built, tags);
    ClientGenerator.DefaultOfClient(built, tags);
  }

  /** The bundle lists the nodes in the order of the configuration's outbounds, and its default profile is the
      node the configuration sends unmatched traffic to. */
  lemma DocumentsAgree(parse: UrlParser, a: Assignment)
    requires SoundRows(parse, a.nodes) && a.preset.Known() && a.error.None? && a.group.Some? && BuildBundle(parse, a).Ok?
    ensures BuildClientConfig(parse, a).Ok?
    ensures var config, bundle := BuildClientConfig(parse, a).value, BuildBundle(parse, a).value;
            && |bundle.profiles| == |a.nodes| && RowTags(a.nodes) <= Generator.Tags(config.outbounds)
            && (forall i :: 0 <= i < |a.nodes| ==>
                  bundle.profiles[i] == Profile(a.nodes[i].tag, a.nodes[i].rawUrl, a.preset))
            && bundle.defaultProfile == ClientGenerator.DefaultExit(config)
  {
    var nodes := AssignedNodes(parse, a);
    ProfilesContract(parse, a.nodes, nodes, a.preset);
    ClientGenerator.SortedFailsOnlyInBuild(nodes, a.preset, Generator.Quad9, Generator.LogWarn);
    var config := ConfigListsTags(nodes, RowTags(a.nodes), a.preset);
    var profiles := BuildBundle(parse, a).value.profiles;
    assert Map(profiles, ProfileName)[0] == profiles[0].name;
    ProfilesTell(RowCheck(parse), a.nodes, a.preset);
    forall i | 0 <= i < |a.nodes| ensures Strip(a.nodes[i].tag) == a.nodes[i].tag {
      assert RowTags(a.nodes)[i] in RowTags(a.nodes);
      StripTrims(a.nodes[i].tag);
    }
  }

  /** Permuting nodes with distinct tags changes neither the profiles nor the error. */
  lemma ProfilesCanonical(parse: UrlParser, a: seq<NodeRow>, b: seq<NodeRow>, preset: Routing.Preset)
    requires multiset(a) == multiset(b) && NoDuplicates(RowTags(a))
    ensures Profiles(RowCheck(parse), Sort(a, RowByTag), preset) == Profiles(RowCheck(parse), Sort(b, RowByTag), preset)
  {
    SortByKeyCanonical(a, b, RowByTag, RowTag);
  }
}
