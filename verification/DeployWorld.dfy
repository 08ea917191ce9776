/**
 Everything that happens around deploys in one event loop: activations of nodes and profiles, which
 give up control only while asleep in the health poll, and the other requests that may run meanwhile.
 */
module DeployWorld {
  import opened Prelude
  import opened BackupNames
  import opened Deployer
  import opened NodeRows
  import Generator
  import Helper
  import Routing

  type Config = Generator.Config

  datatype ProfileRow = ProfileRow(nodeTag: Option<string>, dns: Generator.DnsPreset, route: Routing.Preset, active: bool)
  datatype LogRow = LogRow(nodeTag: string, result: DeployResult<Config>)

  /** The tables and the stored settings. */
  datatype Db = Db(
    nodes: map<nat, NodeRow>, profiles: map<nat, ProfileRow>, log: seq<LogRow>,
    dns: Generator.DnsPreset, route: Routing.Preset, level: Generator.LogLevel, bypass: Routing.Bypass)

  /** What an activation was asked for: a node, on its own or on behalf of a profile. */
  datatype Target = Target(node: nat, profile: Option<nat>)

  datatype Sleeper = Sleeper(target: Target, cfg: Config, backup: Option<string>, slept: nat, since: Stamp)

  /** `asyncio.Lock`: held or not, and the calls queued for it. */
  datatype AsyncLock = AsyncLock(held: bool, waiters: seq<nat>)

  datatype World = World(
    machine: Helper.Machine<Config>, lock: AsyncLock, sleeping: map<nat, Sleeper>, db: Db,
    answers: map<nat, DeployResult<Config>>)

  /** `PressService` is a service button of the dashboard, or a service that stops by itself. An activation comes with the
      node its row deserializes to. `RewriteNode` stands for all changes to a row that keep its tag and flag: a new URL, an
      import, metadata, geo data. */
  datatype Step =
    | Activate(call: nat, target: Target, node: Generator.Node, launch: Launch)
    | Wake(call: nat, tick: Tick)
    | RestoreBackup(name: string, at: Stamp, fault: Helper.Fault, restarted: bool)
    | PressService(outcome: Helper.Outcome)
    | SaveSettings(dns: Generator.DnsPreset, route: Routing.Preset, level: Generator.LogLevel)
    | SaveBypass(bypass: Routing.Bypass)
    | AddNode(id: nat, row: NodeRow)
    | RewriteNode(id: nat, row: NodeRow)
    | DeleteNode(id: nat)
    | AddProfile(id: nat, nodeTag: Option<string>, dns: Generator.DnsPreset, route: Routing.Preset)
    | DeleteProfile(id: nat)

  // The database after an activation ---------------------------------------------------------------------------

  predicate Exists(db: Db, t: Target) {
    t.node in db.nodes && (t.profile.Some? ==> t.profile.value in db.profiles)
  }

  function Flagged(nodes: map<nat, NodeRow>, only: Option<nat>): map<nat, NodeRow> {
    map i | i in nodes :: nodes[i].(active := only == Some(i))
  }

  function FlaggedProfiles(profiles: map<nat, ProfileRow>, only: Option<nat>): map<nat, ProfileRow> {
    map i | i in profiles :: profiles[i].(active := only == Some(i))
  }

  /** `activate_node` after the deploy, and the settings `activate_profile` then writes. When the row to be
      flagged has been deleted meanwhile, the commit fails and nothing is written, not even the log row. */
  function Commit(db: Db, t: Target, tag: string, r: DeployResult<Config>): Db {
    var log := db.log + [LogRow(r.nodeTag.GetOr(tag), r)];
    if !r.success then db.(log := log)
    else if !Exists(db, t) then db
    else
      var marked := db.(nodes := Flagged(db.nodes, Some(t.node)),
                        profiles := FlaggedProfiles(db.profiles, t.profile), log := log);
      if t.profile.None? then marked
      else marked.(dns := db.profiles[t.profile.value].dns, route := db.profiles[t.profile.value].route)
  }

  /**
   A failed deploy leaves a row in the log and nothing else. A successful one leaves nothing at all when a row to be flagged
   is gone; otherwise it leaves its row, the one flagged node, the one flagged profile if it was made for a profile and
   none else, and then the presets of that profile.
   */
  lemma CommittedExactly(db: Db, t: Target, tag: string, r: DeployResult<Config>)
    ensures var after := Commit(db, t, tag, r);
            var gone := r.success && (t.node !in db.nodes || (t.profile.Some? && t.profile.value !in db.profiles));
            && after.log == (if gone then db.log else db.log + [LogRow(r.nodeTag.GetOr(tag), r)])
            && (gone || !r.success ==> after == db.(log := after.log))
            && (r.success && !gone ==>
                  && after.nodes.Keys == db.nodes.Keys && after.profiles.Keys == db.profiles.Keys
                  && (forall i :: i in db.nodes ==> after.nodes[i] == db.nodes[i].(active := i == t.node))
                  && (forall i :: i in db.profiles ==>
                        after.profiles[i] == db.profiles[i].(active := t.profile.Some? && i == t.profile.value))
                  && (t.profile.None? ==> after.dns == db.dns && after.route == db.route)
                  && (t.profile.Some? ==>
                        var p := db.profiles[t.profile.value]; after.dns == p.dns && after.route == p.route)
                  && after.level == db.level && after.bypass == db.bypass)
  {
  }

  /** `singbox_log_level`: an unknown stored level counts as `warn`. */
  function LevelOf(db: Db): Generator.LogLevel {
    if db.level.OtherLevel? then Generator.LogWarn else db.level
  }

  /** What `generate_config` makes of a node, with the presets of the profile or the stored ones. */
  function Generated(db: Db, t: Target, node: Generator.Node): Result<Config, Generator.GenerateError>
    requires Exists(db, t)
  {
    var dns := if t.profile.None? then db.dns else db.profiles[t.profile.value].dns;
    var route := if t.profile.None? then db.route else db.profiles[t.profile.value].route;
    Generator.GenerateConfig(node, dns, route, LevelOf(db), Some(db.bypass))
  }

  /**
   The configuration follows what is stored: it dials the node, resolves as the DNS preset says, logs at the stored level,
   and decides every connection by the route preset and the stored process list. The presets are those of the profile
   where there is one.
   */
  ghost predicate FollowsSettings(cfg: Config, db: Db, t: Target, node: Generator.Node)
    requires Exists(db, t)
  {
    && |cfg.outbounds| == 3 && Generator.BuildOutbound(node) == Ok(cfg.outbounds[0]) && cfg.route.final == node.tag
    && (t.profile.None? ==> cfg.dns == db.dns && DecidesBy(cfg, db.route, db.bypass, node.tag))
    && (t.profile.Some? ==>
          var p := db.profiles[t.profile.value]; cfg.dns == p.dns && DecidesBy(cfg, p.route, db.bypass, node.tag))
    && (!db.level.OtherLevel? ==> cfg.logLevel == db.level) && (db.level.OtherLevel? ==> cfg.logLevel == Generator.LogWarn)
  }

  ghost predicate DecidesBy(cfg: Config, preset: Routing.Preset, bypass: Routing.Bypass, tag: string) {
    forall x :: Routing.Decide(cfg.route, x) == Routing.Policy(preset, Some(bypass), tag, x)
  }

  lemma GeneratedFollowsSettings(db: Db, t: Target, node: Generator.Node)
    requires Exists(db, t)
    ensures Generated(db, t, node).Ok? ==> FollowsSettings(Generated(db, t, node).value, db, t, node)
    ensures Generated(db, t, node).Ok? <==>
            && Generator.Buildable(node)
            && (t.profile.None? ==> !db.dns.OtherDns? && db.route.Known())
            && (t.profile.Some? ==>
                  var p := db.profiles[t.profile.value]; !p.dns.OtherDns? && p.route.Known())
  {
    var dns := if t.profile.None? then db.dns else db.profiles[t.profile.value].dns;
    var route := if t.profile.None? then db.route else db.profiles[t.profile.value].route;
    Generator.GenerateExactly(node, dns, route, LevelOf(db), Some(db.bypass));
    if Generated(db, t, node).Ok? {
      var cfg := Generated(db, t, node).value;
      Generator.HostConfigRoutes(node, dns, route, LevelOf(db), Some(db.bypass), cfg);
      Generator.HostConfigClosed(node, dns, route, LevelOf(db), Some(db.bypass));
    }
  }

  /** The tag of the node a configuration was generated for. */
  function TagOf(cfg: Config): string {
    cfg.route.final
  }

  /** Generated for a node of that tag with those presets, under some log level and process list. */
  ghost predicate MadeFor(cfg: Config, tag: string, dns: Generator.DnsPreset, route: Routing.Preset) {
    exists n: Generator.Node, level, bypass :: n.tag == tag && Generator.GenerateConfig(n, dns, route, level, bypass) == Ok(cfg)
  }

  ghost predicate IsGenerated(cfg: Config) {
    exists dns, route :: MadeFor(cfg, TagOf(cfg), dns, route)
  }

  lemma GeneratedMadeFor(db: Db, t: Target, node: Generator.Node)
    requires Exists(db, t) && Generated(db, t, node).Ok?
    ensures var cfg := Generated(db, t, node).value;
            && TagOf(cfg) == node.tag && IsGenerated(cfg)
            && (t.profile.Some? ==>
                  MadeFor(cfg, node.tag, db.profiles[t.profile.value].dns, db.profiles[t.profile.value].route))
  {
    var dns := if t.profile.None? then db.dns else db.profiles[t.profile.value].dns;
    var route := if t.profile.None? then db.route else db.profiles[t.profile.value].route;
    Generator.HostConfigClosed(node, dns, route, LevelOf(db), Some(db.bypass));
    assert MadeFor(Generated(db, t, node).value, node.tag, dns, route);
  }

  lemma GeneratedIsClosed(db: Db, t: Target, node: Generator.Node)
    requires Exists(db, t) && Generated(db, t, node).Ok?
    ensures Generator.Closed(Generated(db, t, node).value)
  {
    var dns := if t.profile.None? then db.dns else db.profiles[t.profile.value].dns;
    var route := if t.profile.None? then db.route else db.profiles[t.profile.value].route;
    Generator.HostConfigClosed(node, dns, route, LevelOf(db), Some(db.bypass));
  }

  /** The presets a configuration was made for are those it was generated with. */
  lemma MadeForOnce(cfg: Config, db: Db, t: Target, node: Generator.Node, dns: Generator.DnsPreset, route: Routing.Preset)
    requires Exists(db, t) && Generated(db, t, node) == Ok(cfg) && MadeFor(cfg, node.tag, dns, route)
    ensures dns == cfg.dns && DecidesBy(cfg, route, db.bypass, node.tag)
  {
    var n: Generator.Node, level, b :| n.tag == node.tag && Generator.GenerateConfig(n, dns, route, level, b) == Ok(cfg);
    var dns' := if t.profile.None? then db.dns else db.profiles[t.profile.value].dns;
    var route' := if t.profile.None? then db.route else db.profiles[t.profile.value].route;
    Generator.PresetsAreRecoverable(n, dns, route, level, b, node, dns', route', LevelOf(db), Some(db.bypass), cfg);
    GeneratedFollowsSettings(db, t, node);
  }

  // Steps ------------------------------------------------------------------------------------------------------

  /** A call that stops after a segment: it leaves the lock and commits, or goes on sleeping. */
  function Stop(w: World, call: nat, t: Target, cfg: Config, since: Stamp, p: Progress<Config>): World {
    match p
    case Finished(d, r) =>
      World(d, AsyncLock(false, w.lock.waiters), w.sleeping - {call}, Commit(w.db, t, TagOf(cfg), r),
            w.answers[call := r])
    case Asleep(d, backup, slept) =>
      w.(machine := d, sleeping := w.sleeping[call := Sleeper(t, cfg, backup, slept, since)])
  }

  /** `deploy_with_rollback` up to its first sleep: turned away when the lock is held; otherwise the lock is
      free to take, unless earlier calls were queued for it. */
  function Accept(w: World, call: nat, t: Target, cfg: Config, l: Launch): World {
    if w.lock.held then
      w.(db := Commit(w.db, t, TagOf(cfg), LockedOut()), answers := w.answers[call := LockedOut()])
    else if w.lock.waiters != [] then
      w.(lock := w.lock.(waiters := w.lock.waiters + [call]))
    else
      Stop(w.(lock := w.lock.(held := true)), call, t, cfg, l.at, Begin(w.machine, cfg, TagOf(cfg), true, l))
  }

  function Wakeup(w: World, call: nat, t: Tick): World
    requires call in w.sleeping
  {
    var s := w.sleeping[call];
    Stop(w, call, s.target, s.cfg, s.since, Resume(Asleep(w.machine, s.backup, s.slept), s.cfg, TagOf(s.cfg), t))
  }

  /** `restore_backup_route`: it does not look at the deploy lock. The result of its restart is ignored. */
  function RestoredMachine(d: Helper.Machine<Config>, name: string, at: Stamp, fault: Helper.Fault, restarted: bool)
    : (Helper.Machine<Config>, bool)
  {
    var (restored, ok) := Helper.Restore(d, name, at, fault);
    (if ok then Helper.Restart(restored, restarted) else restored, ok)
  }

  /** A successful restore restarts the service on the config it has installed; a failed one leaves both alone. */
  lemma RestoredExactly(d: Helper.Machine<Config>, name: string, at: Stamp, fault: Helper.Fault, restarted: bool)
    ensures var (d', ok) := RestoredMachine(d, name, at, fault, restarted);
            && (ok <==> Helper.Restorable(d, name) && !fault.InstallFails? && (fault.BackupFails? ==> d.config.None?))
            && (ok && !Helper.HitsItself(d, name, at) ==> d'.config == Some(d.backups[name]))
            && (ok ==> d'.running == if restarted then d'.config else None)
            && (!ok ==> d'.config == d.config && d'.running == d.running)
  {
  }

  function Restored(w: World, name: string, at: Stamp, fault: Helper.Fault, restarted: bool): World {
    var (d, ok) := RestoredMachine(w.machine, name, at, fault, restarted);
    w.(machine := d, db := if ok then w.db.(nodes := Flagged(w.db.nodes, None)) else w.db)
  }

  /** Activations name existing rows, and a profile its node; their configuration can be generated from a node that
      keeps the tag of its row (`NodeRows.DeserializeKeepsTag`). New rows take unused keys and tags. */
  predicate Enabled(w: World, step: Step) {
    match step
    case Activate(call, t, node, _) =>
      && call !in w.sleeping && call !in w.answers && call !in w.lock.waiters && Exists(w.db, t)
      && (t.profile.Some? ==> w.db.profiles[t.profile.value].nodeTag == Some(w.db.nodes[t.node].tag))
      && node.tag == w.db.nodes[t.node].tag && Generated(w.db, t, node).Ok?
    case Wake(call, _) => call in w.sleeping
    case AddNode(id, row) => id !in w.db.nodes && !row.active && forall i :: i in w.db.nodes ==> w.db.nodes[i].tag != row.tag
    case RewriteNode(id, row) =>
      id in w.db.nodes && row.tag == w.db.nodes[id].tag && row.active == w.db.nodes[id].active
    case AddProfile(id, _, _, _) => id !in w.db.profiles
    case _ => true
  }

  function Next(w: World, step: Step): World
    requires Enabled(w, step)
  {
    match step
    case Activate(call, t, node, l) => Accept(w, call, t, Generated(w.db, t, node).value, l)
    case Wake(call, t) => Wakeup(w, call, t)
    case RestoreBackup(name, at, fault, restarted) => Restored(w, name, at, fault, restarted)
    case PressService(outcome) => w.(machine := Helper.Serve(w.machine, outcome))
    case SaveSettings(dns, route, level) =>
      w.(db := w.db.(dns := dns, route := route, level := level, profiles := FlaggedProfiles(w.db.profiles, None)))
    case SaveBypass(bypass) => w.(db := w.db.(bypass := bypass))
    case AddNode(id, row) => w.(db := w.db.(nodes := w.db.nodes[id := row]))
    case RewriteNode(id, row) => w.(db := w.db.(nodes := w.db.nodes[id := row]))
    case DeleteNode(id) => w.(db := w.db.(nodes := w.db.nodes - {id}))
    case AddProfile(id, nodeTag, dns, route) =>
      w.(db := w.db.(profiles := w.db.profiles[id := ProfileRow(nodeTag, dns, route, false)]))
    case DeleteProfile(id) => w.(db := w.db.(profiles := w.db.profiles - {id}))
  }

  /** A process that has just started: nobody deploys, nothing is flagged; machine and rows are arbitrary. */
  ghost predicate Initial(w: World) {
    && w.lock == AsyncLock(false, []) && w.sleeping == map[] && w.answers == map[] && w.db.log == []
    && (forall i :: i in w.db.nodes ==> !w.db.nodes[i].active)
    && (forall i :: i in w.db.profiles ==> !w.db.profiles[i].active)
    && UniqueTags(w.db)
  }

  ghost predicate UniqueTags(db: Db) {
    forall i, j :: i in db.nodes && j in db.nodes && db.nodes[i].tag == db.nodes[j].tag ==> i == j
  }

  /** A run: the worlds it passes through, one more than its steps. */
  ghost predicate IsRun(worlds: seq<World>, steps: seq<Step>) {
    && |worlds| == |steps| + 1 && Initial(worlds[0])
    && forall k {:trigger steps[k]} :: 0 <= k < |steps| ==> Enabled(worlds[k], steps[k]) && worlds[k + 1] == Next(worlds[k], steps[k])
  }

  // Mutual exclusion: every run whatsoever -----------------------------------------------------------------------

  ghost predicate Exclusive(w: World) {
    && w.lock.waiters == []
    && (w.lock.held <==> w.sleeping != map[])
    && (forall a, b :: a in w.sleeping && b in w.sleeping ==> a == b)
    && (forall a :: a in w.sleeping ==> 1 <= w.sleeping[a].slept <= ATTEMPTS)
  }

  lemma ExclusiveStep(w: World, step: Step)
    requires Exclusive(w) && Enabled(w, step)
    ensures Exclusive(Next(w, step))
    ensures step.Activate? && w.lock.held ==>
              var w' := Next(w, step);
              && w'.answers == w.answers[step.call := LockedOut()]
              && w'.machine == w.machine && w'.sleeping == w.sleeping && w'.lock == w.lock
              && w'.db.nodes == w.db.nodes && w'.db.profiles == w.db.profiles
  {
    if step.Wake? {
      assert w.sleeping.Keys == {step.call};
      assert w.sleeping - {step.call} == map[];
    }
    if step.Activate? && !w.lock.held {
      assert w.sleeping - {step.call} == map[];
    }
  }

  /** In every run, whatever is interleaved: at most one call is in the pipeline, the lock is held exactly
      while one sleeps there, and no call ever queues for it. */
  lemma {:induction false} OneDeployAtATime(worlds: seq<World>, steps: seq<Step>, k: nat)
    requires IsRun(worlds, steps) && k <= |steps|
    ensures Exclusive(worlds[k])
  {
    if k > 0 {
      OneDeployAtATime(worlds, steps, k - 1);
      ExclusiveStep(worlds[k - 1], steps[k - 1]);
    }
  }

  // To the end of a poll ------------------------------------------------------------------------

  /** The wake-ups until the deploy is over at the latest. */
  function WakeupsLeft(s: Sleeper): int {
    ATTEMPTS + 1 - s.slept
  }

  /** Wake the call as often as it goes back to sleep. */
  function WokenUntilDone(w: World, call: nat, ticks: seq<Tick>): World
    decreases |ticks|
  {
    if call !in w.sleeping || ticks == [] then w else WokenUntilDone(Wakeup(w, call, ticks[0]), call, ticks[1..])
  }

  lemma {:induction false} SleepsOnAlone(w: World, call: nat, ticks: seq<Tick>)
    requires Exclusive(w) && call in w.sleeping && |ticks| == WakeupsLeft(w.sleeping[call])
    ensures var s := w.sleeping[call];
            var end := Drive(Asleep(w.machine, s.backup, s.slept), s.cfg, TagOf(s.cfg), ticks);
            var w' := WokenUntilDone(w, call, ticks);
            && end.Finished? && w'.sleeping == map[] && !w'.lock.held && w'.machine == end.machine
            && w'.answers == w.answers[call := end.result] && w'.db == Commit(w.db, s.target, TagOf(s.cfg), end.result)
    decreases |ticks|
  {
    var s := w.sleeping[call];
    var p := Resume(Asleep(w.machine, s.backup, s.slept), s.cfg, TagOf(s.cfg), ticks[0]);
    var next := Wakeup(w, call, ticks[0]);
    ExclusiveStep(w, Wake(call, ticks[0]));
    if p.Asleep? {
      SleepsOnAlone(next, call, ticks[1..]);
      assert next.sleeping == w.sleeping[call := Sleeper(s.target, s.cfg, p.backup, p.slept, s.since)];
    }
  }

  /** Some look before the last wake-up finds the service active. */
  predicate SeenActive(ticks: seq<Tick>) {
    exists i :: 0 <= i < |ticks| - 1 && ticks[i].active
  }

  /** How the deploy in flight ends: well at the first active look, with a rollback after the sixth sleep otherwise. */
  lemma EndOfPoll(w: World, c: nat, ticks: seq<Tick>)
    requires Exclusive(w) && c in w.sleeping && |ticks| == WakeupsLeft(w.sleeping[c])
    ensures var s := w.sleeping[c];
            var w' := WokenUntilDone(w, c, ticks);
            && w'.sleeping == map[] && c in w'.answers
            && w'.db == Commit(w.db, s.target, TagOf(s.cfg), w'.answers[c])
            && if SeenActive(ticks) then w'.machine == w.machine && w'.answers[c] == Success(TagOf(s.cfg), s.backup, s.cfg)
               else
                 var (d, undone) := Rollback(w.machine, s.backup, ticks[|ticks| - 1].undo);
                 w'.machine == d && w'.answers[c] == Failure(Health, undone, s.backup, s.cfg)
  {
    var s := w.sleeping[c];
    SleepsOnAlone(w, c, ticks);
    PollOutcome(Asleep(w.machine, s.backup, s.slept), s.cfg, TagOf(s.cfg), ticks);
  }
}
