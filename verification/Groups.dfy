/** Configuration groups: validated forms, versions that count real changes, and one notice per member. */
module Groups {
  import opened Prelude
  import opened Text
  import opened Sequences
  import opened Sorting
  import opened NodeRows
  import opened Distribution
  import opened ClientConfigs
  import opened UserCommands
  import Routing
  import ClientGenerator

  datatype LimitInput = BlankLimit | NotDigits | Digits(value: nat)

  datatype GroupForm = GroupForm(name: string, tags: seq<string>, preset: Routing.Preset, limit: LimitInput, enabled: bool)

  /** A form that passed every check. */
  datatype Checked = Checked(name: string, tags: seq<string>, preset: Routing.Preset, limit: Option<int>, enabled: bool)

  datatype GroupError =
    | NotFound | NameRequired | NameTaken | UnknownNodeTags | ReservedNodeTags | BadPreset | BadLimit

  // Validation ------------------------------------------------------------------------------------------------------

  function ValidatedTags(nodes: seq<NodeRow>, raw: seq<string>): Result<seq<string>, GroupError> {
    var tags := ParseNodeTags(raw);
    if exists t :: t in tags && t !in RowTags(nodes) then Err(UnknownNodeTags)
    else if exists t :: t in tags && t in ClientGenerator.RESERVED_TAGS then Err(ReservedNodeTags)
    else Ok(tags)
  }

  function ValidatedPreset(raw: Routing.Preset): Option<Routing.Preset> {
    var value := if raw == Routing.OtherPreset("") then Routing.FullTunnel else raw;
    if value.Known() then Some(value) else None
  }

  function ParseLimit(raw: LimitInput): Result<Option<int>, GroupError> {
    match raw
    case BlankLimit => Ok(None)
    case NotDigits => Err(BadLimit)
    case Digits(value) => if value == 0 then Err(BadLimit) else Ok(Some(value))
  }

  predicate NameUsed(groups: map<nat, Group>, name: string, except: Option<nat>) {
    exists id :: id in groups && Some(id) != except && groups[id].name == name
  }

  function CheckForm(groups: map<nat, Group>, nodes: seq<NodeRow>, form: GroupForm, except: Option<nat>): Result<Checked, GroupError> {
    var name := Strip(form.name);
    if name == "" then Err(NameRequired)
    else if NameUsed(groups, name, except) then Err(NameTaken)
    else
      var tags := ValidatedTags(nodes, form.tags);
      var preset := ValidatedPreset(form.preset);
      var limit := ParseLimit(form.limit);
      if tags.Err? then Err(tags.error)
      else if preset.None? then Err(BadPreset)
      else if limit.Err? then Err(limit.error)
      else Ok(Checked(name, tags.value, preset.value, limit.value, form.enabled))
  }

  // Effects ---------------------------------------------------------------------------------------------------------

  function NewGroup(id: nat, c: Checked): Group {
    Group(id, c.name, c.enabled, c.tags, 1, c.preset, c.limit)
  }

  function TagSet(g: Group): set<string> {
    set t | t in DecodeNodeTags(g.storedTags)
  }

  /** The update changes what members are sent: another set of tags, or another preset. */
  predicate Changes(g: Group, c: Checked) {
    TagSet(g) != (set t | t in c.tags) || PresetOf(g) != c.preset
  }

  function Updated(g: Group, c: Checked): Group {
    var version := if Changes(g, c) then (if g.version == 0 then 1 else g.version) + 1 else g.version;
    Group(g.id, c.name, c.enabled, c.tags, version, c.preset, c.limit)
  }

  function MemberOf(id: nat): User -> bool {
    (u: User) => u.enabled && u.groupId == Some(id)
  }

  function Members(users: seq<User>, id: nat): seq<User> {
    Filter(users, MemberOf(id))
  }

  function Cleared(users: seq<User>, id: nat): seq<User> {
    Map(users, (u: User) => if u.groupId == Some(id) then u.(groupId := None) else u)
  }

  /** The fingerprint a notice carries: none when the group's nodes are all gone. */
  function NoticeFingerprint(nodes: seq<NodeRow>, g: Group): Option<Payload> {
    var found := Sort(Filter(nodes, TagIn(DecodeNodeTags(g.storedTags))), RowByTag);
    if found == [] then None else Some(Fingerprint(found, PresetOf(g)))
  }

  /** A notice to one member; whether it could be sent is not determined. */
  predicate IsNotice(row: Delivery, g: Group, u: User, fingerprint: Option<Payload>, now: nat) {
    row == Delivery(Some(u.id), u.telegramId, Some(g.id), ConfigChanged, row.success, Some(g.version), fingerprint, Recorded(now))
  }

  /** `after` is `before` with one notice for each of the users, in their order. */
  ghost predicate Notified(before: seq<Delivery>, after: seq<Delivery>, g: Group, users: seq<User>, fingerprint: Option<Payload>, now: nat) {
    && |after| == |before| + |users| && before <= after
    && forall i :: 0 <= i < |users| ==> IsNotice(after[|before| + i], g, users[i], fingerprint, now)
  }

  lemma NotifiedOneMore(before: seq<Delivery>, after: seq<Delivery>, g: Group, users: seq<User>, i: nat,
                        fingerprint: Option<Payload>, now: nat, row: Delivery)
    requires i < |users| && Notified(before, after, g, users[..i], fingerprint, now)
    requires IsNotice(row, g, users[i], fingerprint, now)
    ensures Notified(before, after + [row], g, users[..i + 1], fingerprint, now)
  {
    var rows, told := after + [row], users[..i + 1];
    forall k | 0 <= k < |told| ensures IsNotice(rows[|before| + k], g, told[k], fingerprint, now) {
      if k < i {
        assert told[k] == users[..i][k] && rows[|before| + k] == after[|before| + k];
      }
    }
  }

  // The service -----------------------------------------------------------------------------------------------------

  class GroupService {
    var nodes: seq<NodeRow>
    var groups: map<nat, Group>
    var users: seq<User>
    var log: seq<Delivery>

    constructor (dir: Directory, log: seq<Delivery>)
      ensures nodes == dir.nodes && groups == dir.groups && users == dir.users && this.log == log
    {
      nodes, groups, users, this.log := dir.nodes, dir.groups, dir.users, log;
    }

    /** `create_group`; `id` is the key the database hands out. */
    method CreateGroup(form: GroupForm, id: nat) returns (error: Option<GroupError>)
      requires id !in groups
      modifies this`groups
      ensures var r := CheckForm(old(groups), nodes, form, None);
              && (error.None? <==> r.Ok?) && (error.Some? ==> error.value == r.error)
              && groups == if r.Ok? then old(groups)[id := NewGroup(id, r.value)] else old(groups)
      ensures groups == Requested(old(groups), Create(nodes, form, id))
    {
      var r := CheckForm(groups, nodes, form, None);
      if r.Err? {
        return Some(r.error);
      }
      groups := groups[id := NewGroup(id, r.value)];
      return None;
    }

    /** `update_group`: an effective change bumps the version, and tells the members if the group is enabled now. */
    method UpdateGroup(id: nat, form: GroupForm, now: nat) returns (error: Option<GroupError>)
      modifies this`groups, this`log
      ensures id !in old(groups) ==> error == Some(NotFound)
      ensures id in old(groups) ==>
                var r := CheckForm(old(groups), nodes, form, Some(id));
                && (error.None? <==> r.Ok?) && (error.Some? ==> error.value == r.error)
      ensures error.Some? ==> groups == old(groups) && log == old(log)
      ensures error.None? ==>
                var c := CheckForm(old(groups), nodes, form, Some(id)).value;
                var g := Updated(old(groups)[id], c);
                && groups == old(groups)[id := g]
                && Notified(old(log), log, g, if Changes(old(groups)[id], c) && g.enabled then Members(users, id) else [],
                            NoticeFingerprint(nodes, g), now)
      ensures groups == Requested(old(groups), Update(nodes, form, id))
    {
      if id !in groups {
        return Some(NotFound);
      }
      var r := CheckForm(groups, nodes, form, Some(id));
      if r.Err? {
        return Some(r.error);
      }
      var group := groups[id];
      var changed := Changes(group, r.value);
      groups := groups[id := Updated(group, r.value)];
      if changed && groups[id].enabled {
        NotifyGroupConfigChanged(groups[id], id, now);
      }
      return None;
    }

    /** `notify_group_config_changed`: each enabled member gets one row, whether or not the message could be sent. */
    method NotifyGroupConfigChanged(g: Group, id: nat, now: nat)
      modifies this`log
      ensures Notified(old(log), log, g, Members(users, id), NoticeFingerprint(nodes, g), now)
    {
      var members := Members(users, id);
      var fingerprint := NoticeFingerprint(nodes, g);
      for i := 0 to |members|
        invariant Notified(old(log), log, g, members[..i], fingerprint, now)
      {
        var sent: bool := *;
        var u := members[i];
        var row := Delivery(Some(u.id), u.telegramId, Some(g.id), ConfigChanged, sent, Some(g.version), fingerprint, Recorded(now));
        NotifiedOneMore(old(log), log, g, members, i, fingerprint, now, row);
        log := log + [row];
      }
      assert members[..|members|] == members;
    }

    /** `delete_group`: members lose their assignment first. */
    method DeleteGroup(id: nat) returns (error: Option<GroupError>)
      modifies this`groups, this`users
      ensures id !in old(groups) ==> error == Some(NotFound) && groups == old(groups) && users == old(users)
      ensures id in old(groups) ==> error == None && groups == old(groups) - {id} && users == Cleared(old(users), id)
      ensures groups == Requested(old(groups), Delete(id))
    {
      if id !in groups {
        return Some(NotFound);
      }
      users := Cleared(users, id);
      groups := groups - {id};
      return None;
    }
  }

  // What a form leads to --------------------------------------------------------------------------------------------

  ghost predicate TagsAccepted(nodes: seq<NodeRow>, raw: seq<string>) {
    forall t :: t != "" && Mentions(raw, t) ==> t in RowTags(nodes) && t !in ClientGenerator.RESERVED_TAGS
  }

  predicate PresetAccepted(raw: Routing.Preset) {
    raw.Known() || raw == Routing.OtherPreset("")
  }

  predicate LimitAccepted(raw: LimitInput) {
    raw.BlankLimit? || (raw.Digits? && raw.value > 0)
  }

  /** A form is accepted exactly when its name is there and free, every tag it mentions is stored and not reserved, its
      preset is known or left open, and its limit is positive or left open. */
  lemma FormAcceptedExactly(groups: map<nat, Group>, nodes: seq<NodeRow>, form: GroupForm, except: Option<nat>)
    ensures CheckForm(groups, nodes, form, except).Ok? <==>
            && Strip(form.name) != ""
            && (forall id :: id in groups && groups[id].name == Strip(form.name) ==> Some(id) == except)
            && TagsAccepted(nodes, form.tags) && PresetAccepted(form.preset) && LimitAccepted(form.limit)
  {
    ParsedTagsClean(form.tags);
    var tags := ParseNodeTags(form.tags);
    assert TagsAccepted(nodes, form.tags) <==> forall t :: t in tags ==> t in RowTags(nodes) && t !in ClientGenerator.RESERVED_TAGS;
  }

  /** The group is as the form asks: full tunnel where no preset is given, no limit where none is. */
  ghost predicate AsAsked(g: Group, form: GroupForm) {
    && g.name == Strip(form.name) && g.enabled == form.enabled
    && (forall t :: t in g.storedTags <==> t != "" && Mentions(form.tags, t)) && CleanTags(g.storedTags)
    && (form.preset.Known() ==> g.preset == form.preset) && (!form.preset.Known() ==> g.preset == Routing.FullTunnel)
    && (form.limit.BlankLimit? ==> g.limit == None) && (form.limit.Digits? ==> g.limit == Some(form.limit.value))
  }

  /** What the checks make of a form is as the form asks. */
  lemma CheckedAsAsked(groups: map<nat, Group>, nodes: seq<NodeRow>, form: GroupForm, except: Option<nat>, id: nat, version: nat)
    requires CheckForm(groups, nodes, form, except).Ok?
    ensures var c := CheckForm(groups, nodes, form, except).value;
            AsAsked(Group(id, c.name, c.enabled, c.tags, version, c.preset, c.limit), form) && CleanTags(c.tags) && c.preset.Known()
  {
    ParsedTagsClean(form.tags);
  }

  /** A new group is as asked, at version one. */
  lemma NewGroupAsAsked(groups: map<nat, Group>, nodes: seq<NodeRow>, form: GroupForm, id: nat)
    requires CheckForm(groups, nodes, form, None).Ok?
    ensures var g := NewGroup(id, CheckForm(groups, nodes, form, None).value);
            AsAsked(g, form) && g.version == 1 && g.id == id
  {
    CheckedAsAsked(groups, nodes, form, None, id, 1);
  }

  /** An updated group is as asked, keeps its key, and has a higher version exactly when the set of tags or the preset has
      changed. */
  lemma UpdatedGroupAsAsked(groups: map<nat, Group>, nodes: seq<NodeRow>, form: GroupForm, id: nat)
    requires id in groups && CheckForm(groups, nodes, form, Some(id)).Ok?
    ensures var before, after := groups[id], Updated(groups[id], CheckForm(groups, nodes, form, Some(id)).value);
            && AsAsked(after, form) && after.id == before.id && after.version >= before.version
            && (after.version == before.version <==> TagSet(before) == TagSet(after) && PresetOf(before) == PresetOf(after))
  {
    var c := CheckForm(groups, nodes, form, Some(id)).value;
    CheckedAsAsked(groups, nodes, form, Some(id), groups[id].id, Updated(groups[id], c).version);
    UnchangedKeepsMeaning(groups[id], c);
  }

  // Members ---------------------------------------------------------------------------------------------------------

  /** Those who are told are the enabled users of the group. */
  lemma MembersExactly(users: seq<User>, id: nat)
    ensures forall u :: u in Members(users, id) <==> u in users && u.enabled && u.groupId == Some(id)
  {
    FilterMembers(users, MemberOf(id));
  }

  /** Deleting a group takes it from just the users that have it, and changes nothing else about anybody. */
  lemma ClearedExactly(users: seq<User>, id: nat)
    ensures |Cleared(users, id)| == |users|
    ensures forall i :: 0 <= i < |users| ==>
              var before, after := users[i], Cleared(users, id)[i];
              && after.groupId == (if before.groupId == Some(id) then None else before.groupId)
              && after.id == before.id && after.telegramId == before.telegramId && after.enabled == before.enabled
              && after.limit == before.limit
  {
  }

  /** A notice carries the fingerprint of what its reader is assigned. */
  lemma NoticeTellsAssignment(nodes: seq<NodeRow>, g: Group, user: Option<User>)
    requires AssignmentFromGroup(nodes, g, user).error.None?
    ensures NoticeFingerprint(nodes, g) == AssignmentFromGroup(nodes, g, user).fingerprint
  {
  }

  lemma FingerprintLists(rows: seq<NodeRow>, preset: Routing.Preset, row: NodeRow)
    requires row in rows
    ensures Line(row) in Fingerprint(rows, preset).nodes
  {
    var sorted := Sort(rows, RowByTag);
    SortPermutes(rows, RowByTag);
    SameMembers(sorted, rows);
    var i :| 0 <= i < |sorted| && sorted[i] == row;
    assert Map(sorted, Line)[i] == Line(row);
  }

  /** The nodes of the group that are still stored. */
  lemma StoredNodes(nodes: seq<NodeRow>, tags: seq<string>) returns (found: seq<NodeRow>)
    ensures found == Sort(Filter(nodes, TagIn(tags)), RowByTag) && forall r :: r in found <==> r in nodes && r.tag in tags
  {
    var hits := Filter(nodes, TagIn(tags));
    found := Sort(hits, RowByTag);
    FilterMembers(nodes, TagIn(tags));
    SortPermutes(hits, RowByTag);
    SameMembers(found, hits);
  }

  /** A notice has a fingerprint exactly if some node of the group is still stored, and it covers every node that is. */
  lemma NoticeFingerprintExactly(nodes: seq<NodeRow>, g: Group)
    ensures NoticeFingerprint(nodes, g).Some? <==> exists r :: r in nodes && r.tag in DecodeNodeTags(g.storedTags)
    ensures NoticeFingerprint(nodes, g).Some? ==>
              forall r :: r in nodes && r.tag in DecodeNodeTags(g.storedTags) ==> Line(r) in NoticeFingerprint(nodes, g).value.nodes
  {
    var found := StoredNodes(nodes, DecodeNodeTags(g.storedTags));
    if found != [] {
      assert found[0] in found;
      forall r | r in found ensures Line(r) in Fingerprint(found, PresetOf(g)).nodes {
        FingerprintLists(found, PresetOf(g), r);
      }
    }
  }

  /** What a notice says: whom it is for, and which version of which group. */
  lemma NoticeSays(row: Delivery, g: Group, u: User, fingerprint: Option<Payload>, now: nat)
    requires IsNotice(row, g, u, fingerprint, now)
    ensures row.userId == Some(u.id) && row.telegramId == u.telegramId && row.groupId == Some(g.id)
    ensures row.version == Some(g.version) && row.fingerprint == fingerprint && row.action == ConfigChanged
  {
  }

  // What the service keeps ------------------------------------------------------------------------------------------

  /** Groups that can be turned into documents: sound tags, a known preset, a positive version, unique names. */
  ghost predicate SoundGroup(g: Group) {
    SoundTags(g.storedTags) && g.preset.Known() && g.version >= 1
  }

  ghost predicate SoundGroups(groups: map<nat, Group>) {
    && (forall id :: id in groups ==> SoundGroup(groups[id]) && groups[id].id == id)
    && (forall i, j :: i in groups && j in groups && groups[i].name == groups[j].name ==> i == j)
  }

  lemma CheckedTagsSound(groups: map<nat, Group>, nodes: seq<NodeRow>, form: GroupForm, except: Option<nat>)
    requires CheckForm(groups, nodes, form, except).Ok?
    ensures var c := CheckForm(groups, nodes, form, except).value;
            && SoundTags(c.tags) && c.preset.Known() && (forall t :: t in c.tags ==> t in RowTags(nodes))
            && !NameUsed(groups, c.name, except) && (c.limit.Some? ==> c.limit.value > 0)
  {
    ParsedTagsClean(form.tags);
  }

  /** Creating, updating and deleting groups keep all groups sound. */
  lemma ServiceKeepsSound(groups: map<nat, Group>, nodes: seq<NodeRow>, form: GroupForm, id: nat)
    requires SoundGroups(groups)
    ensures id !in groups && CheckForm(groups, nodes, form, None).Ok? ==>
              SoundGroups(groups[id := NewGroup(id, CheckForm(groups, nodes, form, None).value)])
    ensures id in groups && CheckForm(groups, nodes, form, Some(id)).Ok? ==>
              SoundGroups(groups[id := Updated(groups[id], CheckForm(groups, nodes, form, Some(id)).value)])
    ensures SoundGroups(groups - {id})
  {
    if id !in groups && CheckForm(groups, nodes, form, None).Ok? {
      CheckedTagsSound(groups, nodes, form, None);
      PutKeepsSound(groups, id, NewGroup(id, CheckForm(groups, nodes, form, None).value));
    }
    if id in groups && CheckForm(groups, nodes, form, Some(id)).Ok? {
      CheckedTagsSound(groups, nodes, form, Some(id));
      PutKeepsSound(groups, id, Updated(groups[id], CheckForm(groups, nodes, form, Some(id)).value));
    }
  }

  lemma PutKeepsSound(groups: map<nat, Group>, id: nat, g: Group)
    requires SoundGroups(groups) && SoundGroup(g) && g.id == id && !NameUsed(groups, g.name, Some(id))
    ensures SoundGroups(groups[id := g])
  {
  }

  /** A request to the service, with the nodes in the store at that moment. */
  datatype Request =
    | Create(nodes: seq<NodeRow>, form: GroupForm, id: nat)
    | Update(nodes: seq<NodeRow>, form: GroupForm, id: nat)
    | Delete(id: nat)

  function Requested(groups: map<nat, Group>, r: Request): map<nat, Group> {
    match r
    case Create(nodes, form, id) =>
      var c := CheckForm(groups, nodes, form, None);
      if id in groups || c.Err? then groups else groups[id := NewGroup(id, c.value)]
    case Update(nodes, form, id) =>
      var c := CheckForm(groups, nodes, form, Some(id));
      if id !in groups || c.Err? then groups else groups[id := Updated(groups[id], c.value)]
    case Delete(id) => groups - {id}
  }

  function HandledAll(groups: map<nat, Group>, run: seq<Request>): map<nat, Group> {
    if run == [] then groups else Requested(HandledAll(groups, run[..|run| - 1]), run[|run| - 1])
  }

  /** Whatever is requested, and however the nodes change meanwhile, all groups stay sound. */
  lemma {:induction false} GroupsAlwaysSound(run: seq<Request>)
    ensures SoundGroups(HandledAll(map[], run))
  {
    if run != [] {
      var init, last := run[..|run| - 1], run[|run| - 1];
      GroupsAlwaysSound(init);
      var groups := HandledAll(map[], init);
      if last.Delete? {
        ServiceKeepsSound(groups, [], GroupForm("", [], Routing.FullTunnel, BlankLimit, false), last.id);
      } else {
        ServiceKeepsSound(groups, last.nodes, last.form, last.id);
      }
    }
  }

  // Versions --------------------------------------------------------------------------------------------------------

  /** The group after the first `k` updates. */
  function After(g: Group, updates: seq<Checked>, k: nat): Group
    requires k <= |updates|
  {
    if k == 0 then g else Updated(After(g, updates, k - 1), updates[k - 1])
  }

  /** How many of the first `k` updates changed the set of tags or the preset. */
  function ChangeCount(g: Group, updates: seq<Checked>, k: nat): nat
    requires k <= |updates|
  {
    if k == 0 then 0
    else ChangeCount(g, updates, k - 1) + (if Changes(After(g, updates, k - 1), updates[k - 1]) then 1 else 0)
  }

  lemma {:induction false} VersionCountsChanges(g: Group, updates: seq<Checked>, k: nat)
    requires g.version >= 1 && k <= |updates|
    ensures After(g, updates, k).version == g.version + ChangeCount(g, updates, k)
  {
    if k > 0 { VersionCountsChanges(g, updates, k - 1); }
  }

  /** An update without effect leaves the set of tags and the preset in force. */
  lemma UnchangedKeepsMeaning(g: Group, c: Checked)
    requires CleanTags(c.tags) && c.preset.Known()
    ensures !Changes(g, c) ==> TagSet(Updated(g, c)) == TagSet(g) && PresetOf(Updated(g, c)) == PresetOf(g)
    ensures TagSet(Updated(g, c)) == (set t | t in c.tags) && PresetOf(Updated(g, c)) == c.preset
  {
    CleanTagsAreStable(c.tags);
  }

  /** Over any sequence of updates, equal versions mean the same set of tags and the same preset. */
  lemma {:induction false} EqualVersionsEqualMeaning(g: Group, updates: seq<Checked>, i: nat, j: nat)
    requires g.version >= 1 && i <= j <= |updates|
    requires forall k :: 0 <= k < |updates| ==> CleanTags(updates[k].tags) && updates[k].preset.Known()
    ensures After(g, updates, i).version <= After(g, updates, j).version
    ensures After(g, updates, i).version == After(g, updates, j).version ==>
              && TagSet(After(g, updates, i)) == TagSet(After(g, updates, j))
              && PresetOf(After(g, updates, i)) == PresetOf(After(g, updates, j))
  {
    if i < j {
      EqualVersionsEqualMeaning(g, updates, i, j - 1);
      VersionCountsChanges(g, updates, j - 1);
      UnchangedKeepsMeaning(After(g, updates, j - 1), updates[j - 1]);
    }
  }

  lemma {:induction false} FilterSameTags(nodes: seq<NodeRow>, a: seq<string>, b: seq<string>)
    requires forall t :: t in a <==> t in b
    ensures Filter(nodes, TagIn(a)) == Filter(nodes, TagIn(b))
  {
    if nodes != [] { FilterSameTags(nodes[1..], a, b); }
  }

  /** A version fixes what members get: with the same nodes in the store, two states of a group with one version
      assign the same nodes under the same fingerprint, or fail with the same error. */
  lemma EqualVersionsEqualAssignment(g: Group, updates: seq<Checked>, i: nat, j: nat, nodes: seq<NodeRow>, user: Option<User>)
    requires g.version >= 1 && i <= j <= |updates|
    requires forall k :: 0 <= k < |updates| ==> CleanTags(updates[k].tags) && updates[k].preset.Known()
    requires After(g, updates, i).version == After(g, updates, j).version
    ensures var a := AssignmentFromGroup(nodes, After(g, updates, i), user);
            var b := AssignmentFromGroup(nodes, After(g, updates, j), user);
            a.nodes == b.nodes && a.fingerprint == b.fingerprint && a.error == b.error && a.preset == b.preset
  {
    EqualVersionsEqualMeaning(g, updates, i, j);
    SameMeaningSameAssignment(nodes, After(g, updates, i), After(g, updates, j), user);
  }

  lemma SameMeaningSameAssignment(nodes: seq<NodeRow>, g: Group, h: Group, user: Option<User>)
    requires TagSet(g) == TagSet(h) && PresetOf(g) == PresetOf(h)
    ensures var a, b := AssignmentFromGroup(nodes, g, user), AssignmentFromGroup(nodes, h, user);
            a.nodes == b.nodes && a.fingerprint == b.fingerprint && a.error == b.error && a.preset == b.preset
  {
    var s, t := DecodeNodeTags(g.storedTags), DecodeNodeTags(h.storedTags);
    forall x ensures x in s <==> x in t {
      assert x in s <==> x in TagSet(g);
      assert x in t <==> x in TagSet(h);
    }
    FilterSameTags(nodes, s, t);
    assert s == [] <==> t == [] by {
      if s != [] { assert s[0] in t; }
      if t != [] { assert t[0] in s; }
    }
  }
}
