/** The services together: whatever administrators do to nodes and groups, what is assigned can be delivered. */
module Deliverable {
  import opened Prelude
  import opened Sequences
  import opened NodeRows
  import opened Distribution
  import opened ClientConfigs
  import NodeEdits
  import NodeStore
  import Groups
  import ClientGenerator

  /** An error-free assignment from `nodes` has exactly the tags of its group; its client configuration can fail only on a
      node that no outbound can be built for, and its bundle only there or on a tag of more than eighty characters. */
  ghost predicate Delivers(parse: UrlParser, nodes: seq<NodeRow>, g: Group, user: Option<User>) {
    var a := AssignmentFromGroup(nodes, g, user);
    var config, bundle := BuildClientConfig(parse, a), BuildBundle(parse, a);
    a.error.None? ==>
      && (forall t :: t in g.storedTags <==> t in RowTags(a.nodes))
      && NoDuplicates(RowTags(a.nodes)) && |a.nodes| == |g.storedTags|
      && ParseRows(parse, a.nodes).Some?
      && (config.Ok? <==> ClientGenerator.AllBuildable(ParseRows(parse, a.nodes).value))
      && (config.Err? ==> config.error.Generation? && config.error.error.Unbuildable?)
      && (bundle.Ok? <==> config.Ok? && ShortTags(a.nodes))
      && (bundle.Err? ==> bundle.error == NameTooLong || (bundle.error.Generation? && bundle.error.error.Unbuildable?))
  }

  lemma SoundGroupDelivers(parse: UrlParser, nodes: seq<NodeRow>, g: Group, user: Option<User>)
    requires NoDuplicates(RowTags(nodes)) && (forall r :: r in nodes ==> ReadsBack(parse, r)) && Groups.SoundGroup(g)
    ensures Delivers(parse, nodes, g, user)
  {
    var a := AssignmentFromGroup(nodes, g, user);
    if a.error.None? {
      DocumentsFailOnlyInBuild(parse, nodes, g, user);
      AssignmentIsExact(nodes, g, user);
      SetSize(g.storedTags);
      SetSize(RowTags(a.nodes));
      assert (set t | t in g.storedTags) == (set t | t in RowTags(a.nodes));
    }
  }

  lemma SoundStoreHasDistinctTags(parse: UrlParser, rows: seq<NodeRow>)
    requires NodeStore.SoundStore(parse, rows)
    ensures NoDuplicates(RowTags(rows)) && forall r :: r in rows ==> ReadsBack(parse, r)
  {
  }

  /** After any requests to the node store and to the group service, every group delivers. */
  lemma AssignmentsAreDeliverable(parse: UrlParser, nodeRequests: seq<NodeStore.Request>, groupRequests: seq<Groups.Request>,
                                  id: nat, user: Option<User>)
    requires NodeStore.StableParser(parse) && id in Groups.HandledAll(map[], groupRequests)
    ensures Delivers(parse, NodeStore.HandledAll(parse, nodeRequests), Groups.HandledAll(map[], groupRequests)[id], user)
  {
    var nodes := NodeStore.HandledAll(parse, nodeRequests);
    NodeStore.StoreAlwaysSound(parse, nodeRequests);
    SoundStoreHasDistinctTags(parse, nodes);
    Groups.GroupsAlwaysSound(groupRequests);
    SoundGroupDelivers(parse, nodes, Groups.HandledAll(map[], groupRequests)[id], user);
  }

  /** Some of the rows of a table, listed by distinct keys. */
  function Listed(rows: map<nat, NodeRow>, keys: seq<nat>): seq<NodeRow>
    requires forall i :: 0 <= i < |keys| ==> keys[i] in rows
  {
    seq(|keys|, i requires 0 <= i < |keys| => rows[keys[i]])
  }

  /** The same holds when edits of nodes overlap, as long as no key passes to another tag under an open edit: protocols
      that have been mixed up do no harm to deliveries. */
  lemma OverlappingEditsAreDeliverable(parse: UrlParser, tables: seq<NodeEdits.Table>, steps: seq<NodeEdits.Step>, k: nat,
                                       keys: seq<nat>, groupRequests: seq<Groups.Request>, id: nat, user: Option<User>)
    requires NodeStore.StableParser(parse) && NodeEdits.IsRun(parse, tables, steps) && k <= |steps|
    requires forall i :: 0 <= i < k ==> NodeEdits.ReusesKeysWell(tables[i], steps[i])
    requires NoDuplicates(keys) && forall i :: 0 <= i < |keys| ==> keys[i] in tables[k].rows
    requires id in Groups.HandledAll(map[], groupRequests)
    ensures Delivers(parse, Listed(tables[k].rows, keys), Groups.HandledAll(map[], groupRequests)[id], user)
  {
    var rows := tables[k].rows;
    var nodes := Listed(rows, keys);
    NodeEdits.RowsAlwaysReadBack(parse, tables, steps, k);
    forall i, j | 0 <= i < j < |nodes| ensures RowTags(nodes)[i] != RowTags(nodes)[j] {
      assert nodes[i] == rows[keys[i]] && nodes[j] == rows[keys[j]];
    }
    forall r | r in nodes ensures ReadsBack(parse, r) {
      var i :| 0 <= i < |nodes| && nodes[i] == r;
    }
    Groups.GroupsAlwaysSound(groupRequests);
    SoundGroupDelivers(parse, nodes, Groups.HandledAll(map[], groupRequests)[id], user);
  }
}
