/** Which nodes a managed user gets, the fingerprint of that choice, and the hourly delivery limit. */
module Distribution {
  import opened Prelude
  import opened Text
  import opened Sequences
  import opened Sorting
  import opened NodeRows
  import Routing

  // Node tags -------------------------------------------------------------------------------------------------------

  /** The tags in order of first appearance, trimmed, without blanks and repetitions. */
  function ParseNodeTags(parts: seq<string>): seq<string> {
    if parts == [] then []
    else
      var tags := ParseNodeTags(parts[..|parts| - 1]);
      var tag := Strip(parts[|parts| - 1]);
      if tag != "" && tag !in tags then tags + [tag] else tags
  }

  method ParseNodeTagList(parts: seq<string>) returns (tags: seq<string>)
    ensures tags == ParseNodeTags(parts)
  {
    tags := [];
    var seen: set<string> := {};
    for i := 0 to |parts|
      invariant tags == ParseNodeTags(parts[..i])
      invariant forall t :: t in seen <==> t in tags
    {
      assert parts[..i + 1][..i] == parts[..i];
      var tag := Strip(parts[i]);
      if tag != "" && tag !in seen {
        tags := tags + [tag];
        seen := seen + {tag};
      }
    }
    assert parts[..|parts|] == parts;
  }

  predicate NotBlank(tag: string) {
    Strip(tag) != ""
  }

  /** `decode_node_tags` of a stored list: blank elements are dropped. */
  function DecodeNodeTags(stored: seq<string>): seq<string> {
    Filter(stored, NotBlank)
  }

  /** Tags as validation leaves them: trimmed, not blank, each once. */
  ghost predicate CleanTags(tags: seq<string>) {
    NoDuplicates(tags) && forall t :: t in tags ==> t != "" && Trimmed(t)
  }

  predicate Mentions(parts: seq<string>, tag: string) {
    exists i :: 0 <= i < |parts| && Strip(parts[i]) == tag
  }

  lemma {:induction false} ParsedTagsClean(parts: seq<string>)
    ensures CleanTags(ParseNodeTags(parts))
    ensures forall t :: t in ParseNodeTags(parts) <==> t != "" && Mentions(parts, t)
  {
    if parts != [] {
      var init, last := parts[..|parts| - 1], parts[|parts| - 1];
      ParsedTagsClean(init);
      StripTrims(last);
      forall t ensures Mentions(parts, t) <==> Strip(last) == t || Mentions(init, t) {
        if i :| 0 <= i < |init| && Strip(init[i]) == t { assert Strip(parts[i]) == t; }
        if i :| 0 <= i < |init| && Strip(parts[i]) == t { assert Strip(init[i]) == t; }
      }
    }
  }

  lemma CleanPrefix(tags: seq<string>)
    requires tags != [] && CleanTags(tags)
    ensures CleanTags(tags[..|tags| - 1])
    ensures tags[|tags| - 1] !in tags[..|tags| - 1]
    ensures tags[|tags| - 1] != "" && Trimmed(tags[|tags| - 1])
  {
    var init := tags[..|tags| - 1];
    assert tags[|tags| - 1] in tags;
    forall i | 0 <= i < |init| ensures init[i] != tags[|tags| - 1] && init[i] in tags {
      assert init[i] == tags[i];
    }
  }

  /** Clean tags are fixed points of parsing and of storing. */
  lemma {:induction false} CleanTagsAreStable(tags: seq<string>)
    requires CleanTags(tags)
    ensures ParseNodeTags(tags) == tags && DecodeNodeTags(tags) == tags
  {
    if tags != [] {
      var init, last := tags[..|tags| - 1], tags[|tags| - 1];
      CleanPrefix(tags);
      CleanTagsAreStable(init);
      StripTrims(last);
      assert tags == init + [last];
      FilterOfConcat(init, [last], NotBlank);
      assert Filter([last], NotBlank) == [last];
    }
  }

  // Users, groups, assignments --------------------------------------------------------------------------------------

  datatype Group = Group(
    id: nat, name: string, enabled: bool, storedTags: seq<string>, version: nat, preset: Routing.Preset, limit: Option<int>)
  datatype User = User(id: nat, telegramId: string, enabled: bool, groupId: Option<nat>, limit: Option<int>)
  datatype Directory = Directory(nodes: seq<NodeRow>, groups: map<nat, Group>, users: seq<User>)

  datatype AssignmentError =
    | NotRegistered | UserDisabled | NoGroup | GroupMissing | GroupDisabled
    | NoTags | NodesMissing | SomeNodesMissing | InvalidPreset

  /** The hashed part of a fingerprint: the preset, and tag, protocol and URL of the nodes in order of tags. */
  datatype Payload = Payload(preset: Routing.Preset, nodes: seq<(string, string, string)>)

  const DEFAULT_LIMIT := 10

  datatype Assignment = Assignment(
    user: Option<User>, group: Option<Group>, nodes: seq<NodeRow>, error: Option<AssignmentError>,
    version: Option<nat>, fingerprint: Option<Payload>, preset: Routing.Preset, limit: int)

  function Failed(user: Option<User>, group: Option<Group>, nodes: seq<NodeRow>, error: AssignmentError): Assignment {
    Assignment(user, group, nodes, Some(error), None, None, Routing.FullTunnel, DEFAULT_LIMIT)
  }

  predicate RowByTag(a: NodeRow, b: NodeRow) {
    AtMost(a.tag, b.tag)
  }

  function RowTag(r: NodeRow): string {
    r.tag
  }

  function RowTags(rows: seq<NodeRow>): seq<string> {
    Map(rows, RowTag)
  }

  function Line(r: NodeRow): (string, string, string) {
    (r.tag, r.protocol, r.rawUrl)
  }

  function Fingerprint(rows: seq<NodeRow>, preset: Routing.Preset): Payload {
    Payload(preset, Map(Sort(rows, RowByTag), Line))
  }

  /** `group.route_preset or DEFAULT_ROUTE_PRESET` */
  function PresetOf(g: Group): Routing.Preset {
    if g.preset == Routing.OtherPreset("") then Routing.FullTunnel else g.preset
  }

  function PositiveOrNone(v: Option<int>): Option<int> {
    if v.Some? && v.value > 0 then v else None
  }

  /** The limit of the user if there is a positive one, else of the group, else ten. */
  function EffectiveLimit(user: Option<User>, g: Group): (limit: int)
    ensures limit > 0
  {
    var own := if user.None? then None else PositiveOrNone(user.value.limit);
    if own.Some? then own.value
    else if PositiveOrNone(g.limit).Some? then g.limit.value
    else DEFAULT_LIMIT
  }

  function TagIn(tags: seq<string>): NodeRow -> bool {
    (r: NodeRow) => r.tag in tags
  }

  function AssignmentFromGroup(nodes: seq<NodeRow>, g: Group, user: Option<User>): Assignment {
    var tags := DecodeNodeTags(g.storedTags);
    if tags == [] then Failed(user, Some(g), [], NoTags)
    else
      var found := Sort(Filter(nodes, TagIn(tags)), RowByTag);
      if found == [] then Failed(user, Some(g), [], NodesMissing)
      else if |found| != |set t | t in tags| then Failed(user, Some(g), found, SomeNodesMissing)
      else
        var preset := PresetOf(g);
        if !preset.Known() then Failed(user, Some(g), [], InvalidPreset)
        else Assignment(user, Some(g), found, None, Some(g.version), Some(Fingerprint(found, preset)), preset,
                        EffectiveLimit(user, g))
  }

  function FindUser(users: seq<User>, telegramId: string): Option<User> {
    if users == [] then None
    else if users[0].telegramId == telegramId then Some(users[0])
    else FindUser(users[1..], telegramId)
  }

  function GetUserAssignment(dir: Directory, telegramId: string): Assignment {
    var user := FindUser(dir.users, telegramId);
    if user.None? then Failed(None, None, [], NotRegistered)
    else if !user.value.enabled then Failed(user, None, [], UserDisabled)
    else if user.value.groupId.None? || user.value.groupId.value == 0 then Failed(user, None, [], NoGroup)
    else if user.value.groupId.value !in dir.groups then Failed(user, None, [], GroupMissing)
    else
      var g := dir.groups[user.value.groupId.value];
      if !g.enabled then Failed(user, Some(g), [], GroupDisabled) else AssignmentFromGroup(dir.nodes, g, user)
  }

  predicate IsPositive(limit: Option<int>) {
    limit.Some? && limit.value > 0
  }

  /** Whose limit counts: the positive one of the user, else the positive one of the group, else ten. */
  lemma LimitPrecedence(user: Option<User>, g: Group)
    ensures var limit := EffectiveLimit(user, g);
            if user.Some? && IsPositive(user.value.limit) then Some(limit) == user.value.limit
            else if IsPositive(g.limit) then Some(limit) == g.limit
            else limit == 10
  {
  }

  // Who gets an assignment ------------------------------------------------------------------------------------------

  /** `u` is the first user of that Telegram id. */
  ghost predicate IsUser(users: seq<User>, telegramId: string, u: User) {
    exists i :: 0 <= i < |users| && users[i] == u && u.telegramId == telegramId
                && forall j :: 0 <= j < i ==> users[j].telegramId != telegramId
  }

  lemma {:induction false} FindUserExactly(users: seq<User>, telegramId: string)
    ensures FindUser(users, telegramId).None? <==> forall i :: 0 <= i < |users| ==> users[i].telegramId != telegramId
    ensures FindUser(users, telegramId).Some? ==> IsUser(users, telegramId, FindUser(users, telegramId).value)
  {
    if users != [] && users[0].telegramId != telegramId {
      var rest := users[1..];
      FindUserExactly(rest, telegramId);
      assert forall i :: 0 < i < |users| ==> users[i] == rest[i - 1];
      if FindUser(rest, telegramId).Some? {
        var u := FindUser(rest, telegramId).value;
        var i :| 0 <= i < |rest| && rest[i] == u && forall j :: 0 <= j < i ==> rest[j].telegramId != telegramId;
        assert users[i + 1] == u;
      }
    }
  }

  /** The user has a group, and it exists. */
  predicate HasGroup(dir: Directory, u: User) {
    u.groupId.Some? && u.groupId.value != 0 && u.groupId.value in dir.groups
  }

  /** Who is refused before the nodes are looked at, and why; all others are assigned what their group says. */
  lemma AccessExactly(dir: Directory, telegramId: string)
    ensures var a := GetUserAssignment(dir, telegramId);
            && (a.error == Some(NotRegistered) <==> forall i :: 0 <= i < |dir.users| ==> dir.users[i].telegramId != telegramId)
            && (a.user.Some? <==> a.error != Some(NotRegistered))
            && (a.user.Some? ==>
                  var u := a.user.value;
                  && IsUser(dir.users, telegramId, u)
                  && (a.error == Some(UserDisabled) <==> !u.enabled)
                  && (a.error == Some(NoGroup) <==> u.enabled && (u.groupId.None? || u.groupId.value == 0))
                  && (a.error == Some(GroupMissing) <==>
                        u.enabled && u.groupId.Some? && u.groupId.value != 0 && u.groupId.value !in dir.groups)
                  && (a.error == Some(GroupDisabled) <==> u.enabled && HasGroup(dir, u) && !dir.groups[u.groupId.value].enabled)
                  && (a.group.Some? <==> u.enabled && HasGroup(dir, u)) && (a.group.Some? ==> a.group.value == dir.groups[u.groupId.value])
                  && (u.enabled && HasGroup(dir, u) && dir.groups[u.groupId.value].enabled ==>
                        a == AssignmentFromGroup(dir.nodes, dir.groups[u.groupId.value], Some(u))))
  {
    FindUserExactly(dir.users, telegramId);
  }

  // An assignment is exactly its group's tags -----------------------------------------------------------------------

  lemma SubsetOfEqualSize<T>(a: set<T>, b: set<T>)
    requires a <= b && |a| == |b|
    ensures a == b
  {
    assert |b - a| == |b| - |a|;
  }

  lemma FoundRows(nodes: seq<NodeRow>, tags: seq<string>) returns (found: seq<NodeRow>)
    requires NoDuplicates(RowTags(nodes))
    ensures found == Sort(Filter(nodes, TagIn(tags)), RowByTag)
    ensures IsSorted(found, RowByTag) && NoDuplicates(RowTags(found))
    ensures forall r :: r in found <==> r in nodes && r.tag in tags
  {
    var hits := Filter(nodes, TagIn(tags));
    found := Sort(hits, RowByTag);
    KeyIsOrder(RowByTag, RowTag);
    FilterMembers(nodes, TagIn(tags));
    SortPermutes(hits, RowByTag);
    SortSorts(hits, RowByTag);
    TagsOfFilterDistinct(nodes, TagIn(tags));
    MapOfPermutation(found, hits, RowTag);
    NoDuplicatesOfPermutation(RowTags(hits), RowTags(found));
  }

  lemma {:induction false} TagsOfFilterDistinct(rows: seq<NodeRow>, p: NodeRow -> bool)
    requires NoDuplicates(RowTags(rows))
    ensures NoDuplicates(RowTags(Filter(rows, p)))
    ensures forall t :: t in RowTags(Filter(rows, p)) ==> t in RowTags(rows)
  {
    if rows != [] {
      var rest := rows[1..];
      assert RowTags(rows) == [rows[0].tag] + RowTags(rest);
      assert RowTags(rows)[1..] == RowTags(rest);
      TagsOfFilterDistinct(rest, p);
      if p(rows[0]) {
        assert RowTags(Filter(rows, p)) == [rows[0].tag] + RowTags(Filter(rest, p));
        assert rows[0].tag !in RowTags(rest);
      } else {
        assert Filter(rows, p) == Filter(rest, p);
      }
    }
  }

  /** As many distinct tags as wanted, all of them wanted, are just the wanted ones. */
  lemma AllWantedFound(found: seq<NodeRow>, tags: seq<string>)
    requires NoDuplicates(RowTags(found)) && |found| == |set t | t in tags|
    requires forall r :: r in found ==> r.tag in tags
    ensures forall t :: t in tags <==> t in RowTags(found)
  {
    var foundTags := set t | t in RowTags(found);
    var wanted := set t | t in tags;
    SetSize(RowTags(found));
    forall t | t in foundTags ensures t in wanted {
      var i :| 0 <= i < |found| && RowTags(found)[i] == t;
      assert found[i] in found;
    }
    SubsetOfEqualSize(foundTags, wanted);
    forall t ensures t in tags <==> t in RowTags(found) {
      assert t in tags <==> t in wanted;
      assert t in RowTags(found) <==> t in foundTags;
    }
  }

  /** An assignment without error has one node for every tag of its group, no other node, and in order of tags. */
  lemma AssignmentIsExact(nodes: seq<NodeRow>, g: Group, user: Option<User>)
    requires NoDuplicates(RowTags(nodes)) && AssignmentFromGroup(nodes, g, user).error.None?
    ensures var a := AssignmentFromGroup(nodes, g, user);
            && (forall t :: t in DecodeNodeTags(g.storedTags) <==> t in RowTags(a.nodes))
            && NoDuplicates(RowTags(a.nodes)) && IsSorted(a.nodes, RowByTag)
            && (forall r :: r in a.nodes ==> r in nodes)
            && a.preset == PresetOf(g) && a.preset.Known() && a.nodes != []
  {
    var tags := DecodeNodeTags(g.storedTags);
    var found := FoundRows(nodes, tags);
    assert AssignmentFromGroup(nodes, g, user).nodes == found && |found| == |set t | t in tags|;
    AllWantedFound(found, tags);
  }

  /** Some tag of the group has a node. */
  ghost predicate SomeStored(nodes: seq<NodeRow>, tags: seq<string>) {
    exists t :: t in tags && t in RowTags(nodes)
  }

  ghost predicate AllStored(nodes: seq<NodeRow>, tags: seq<string>) {
    forall t :: t in tags ==> t in RowTags(nodes)
  }

  /** A known preset, or none at all, which stands for the full tunnel. */
  predicate UsablePreset(g: Group) {
    g.preset.Known() || g.preset == Routing.OtherPreset("")
  }

  lemma FoundCounts(nodes: seq<NodeRow>, tags: seq<string>, found: seq<NodeRow>)
    requires NoDuplicates(RowTags(found)) && forall r :: r in found <==> r in nodes && r.tag in tags
    ensures found == [] <==> !SomeStored(nodes, tags)
    ensures |found| == |set t | t in tags| <==> AllStored(nodes, tags)
  {
    var foundTags, wanted := set t | t in RowTags(found), set t | t in tags;
    SetSize(RowTags(found));
    forall t ensures t in foundTags <==> t in tags && t in RowTags(nodes) {
      if t in foundTags {
        var i :| 0 <= i < |found| && RowTags(found)[i] == t;
        assert found[i] in found;
        var k :| 0 <= k < |nodes| && nodes[k] == found[i];
        assert RowTags(nodes)[k] == t;
      }
      if t in tags && t in RowTags(nodes) {
        var k :| 0 <= k < |nodes| && RowTags(nodes)[k] == t;
        assert nodes[k] in found;
        var i :| 0 <= i < |found| && found[i] == nodes[k];
        assert RowTags(found)[i] == t;
      }
    }
    assert foundTags <= wanted;
    if |found| == |wanted| { SubsetOfEqualSize(foundTags, wanted); }
    if AllStored(nodes, tags) { assert foundTags == wanted; }
    if found != [] { assert found[0].tag in foundTags by { assert RowTags(found)[0] == found[0].tag; } }
  }

  /** What is assigned by a group, and why nothing is; the version, fingerprint and limit that go with it. */
  lemma GroupAssignmentExactly(nodes: seq<NodeRow>, g: Group, user: Option<User>)
    requires NoDuplicates(RowTags(nodes))
    ensures var a := AssignmentFromGroup(nodes, g, user);
            var tags := DecodeNodeTags(g.storedTags);
            && a.user == user && a.group == Some(g)
            && (a.error == Some(NoTags) <==> tags == [])
            && (a.error == Some(NodesMissing) <==> tags != [] && !SomeStored(nodes, tags))
            && (a.error == Some(SomeNodesMissing) <==> SomeStored(nodes, tags) && !AllStored(nodes, tags))
            && (a.error == Some(InvalidPreset) <==> tags != [] && AllStored(nodes, tags) && !UsablePreset(g))
            && (a.error.None? <==> tags != [] && AllStored(nodes, tags) && UsablePreset(g))
            && (a.error.None? ==>
                  && a.preset == (if g.preset.Known() then g.preset else Routing.FullTunnel)
                  && a.version == Some(g.version) && a.fingerprint == Some(Fingerprint(a.nodes, a.preset))
                  && a.limit == EffectiveLimit(user, g))
            && (a.error.Some? ==> a.version.None? && a.fingerprint.None?)
  {
    var tags := DecodeNodeTags(g.storedTags);
    var found := FoundRows(nodes, tags);
    FoundCounts(nodes, tags, found);
    if tags != [] && AllStored(nodes, tags) { assert tags[0] in tags; }
  }

  /**
   Somebody gets an assignment exactly when the first user of that id is enabled and has an existing, enabled group, all
   of whose tags are stored, with at least one tag and a known preset.
   */
  lemma AssignedExactly(dir: Directory, telegramId: string)
    requires NoDuplicates(RowTags(dir.nodes))
    ensures GetUserAssignment(dir, telegramId).error.None? <==>
            exists u :: IsUser(dir.users, telegramId, u) && u.enabled && HasGroup(dir, u)
              && var g := dir.groups[u.groupId.value];
                 && g.enabled && DecodeNodeTags(g.storedTags) != [] && AllStored(dir.nodes, DecodeNodeTags(g.storedTags))
                 && UsablePreset(g)
  {
    AccessExactly(dir, telegramId);
    var a := GetUserAssignment(dir, telegramId);
    if a.user.Some? && HasGroup(dir, a.user.value) {
      GroupAssignmentExactly(dir.nodes, dir.groups[a.user.value.groupId.value], a.user);
    }
  }

  // Fingerprints ----------------------------------------------------------------------------------------------------

  /** With distinct tags the order of the nodes does not enter the fingerprint. */
  lemma FingerprintCanonical(a: seq<NodeRow>, b: seq<NodeRow>, preset: Routing.Preset)
    requires multiset(a) == multiset(b) && NoDuplicates(RowTags(a))
    ensures Fingerprint(a, preset) == Fingerprint(b, preset)
  {
    SortByKeyCanonical(a, b, RowByTag, RowTag);
  }

  /** The node occurs in the other list, as far as clients are concerned. */
  ghost predicate HasTwin(r: NodeRow, rows: seq<NodeRow>) {
    exists q :: q in rows && q.tag == r.tag && q.protocol == r.protocol && q.rawUrl == r.rawUrl
  }

  lemma TwinByLine(a: seq<NodeRow>, b: seq<NodeRow>, r: NodeRow)
    requires multiset(Map(a, Line)) == multiset(Map(b, Line)) && r in a
    ensures HasTwin(r, b)
  {
    var i :| 0 <= i < |a| && a[i] == r;
    assert Map(a, Line)[i] == Line(r) && Line(r) in multiset(Map(a, Line));
    var j :| 0 <= j < |b| && Map(b, Line)[j] == Line(r);
    assert b[j] in b;
  }

  /** Equal fingerprint payloads stand for the same preset, and for nodes with the same tags, protocols and URLs. */
  lemma FingerprintIdentifies(a: seq<NodeRow>, p: Routing.Preset, b: seq<NodeRow>, q: Routing.Preset)
    requires Fingerprint(a, p) == Fingerprint(b, q)
    ensures p == q && |a| == |b|
    ensures forall r :: (r in a ==> HasTwin(r, b)) && (r in b ==> HasTwin(r, a))
  {
    SortPermutes(a, RowByTag);
    SortPermutes(b, RowByTag);
    MapOfPermutation(Sort(a, RowByTag), a, Line);
    MapOfPermutation(Sort(b, RowByTag), b, Line);
    forall r ensures (r in a ==> HasTwin(r, b)) && (r in b ==> HasTwin(r, a)) {
      if r in a { TwinByLine(a, b, r); }
      if r in b { TwinByLine(b, a, r); }
    }
  }
}
