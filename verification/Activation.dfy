/** The services and request handlers that act on deploys, as the programs that change rows in place. */
module Activation {
  import opened Prelude
  import opened BackupNames
  import opened Deployer
  import opened DeployWorld
  import opened NodeRows
  import Generator
  import Helper
  import Routing

  lemma FlagOne(nodes: map<nat, NodeRow>, id: nat)
    requires id in nodes
    ensures var cleared := Flagged(nodes, None);
            cleared[id := cleared[id].(active := true)] == Flagged(nodes, Some(id))
  {
  }

  lemma FlagOneProfile(profiles: map<nat, ProfileRow>, id: nat)
    requires id in profiles
    ensures var cleared := FlaggedProfiles(profiles, None);
            cleared[id := cleared[id].(active := true)] == FlaggedProfiles(profiles, Some(id))
  {
  }

  class Manager {
    const pipeline: Pipeline<Config>
    var nodes: map<nat, NodeRow>
    var profiles: map<nat, ProfileRow>
    var log: seq<LogRow>
    var dns: Generator.DnsPreset
    var route: Routing.Preset
    var level: Generator.LogLevel
    var bypass: Routing.Bypass

    constructor (pipeline: Pipeline<Config>, db: Db)
      ensures this.pipeline == pipeline && AsDb() == db
    {
      this.pipeline := pipeline;
      nodes, profiles, log := db.nodes, db.profiles, db.log;
      dns, route, level, bypass := db.dns, db.route, db.level, db.bypass;
    }

    ghost function AsDb(): Db
      reads this
    {
      Db(nodes, profiles, log, dns, route, level, bypass)
    }

    /** The part of `activate_node` that follows the deploy: a log row; on success the flags of all nodes and
        profiles are cleared, then set for the deployed node and the profile it was deployed for. A row deleted
        meanwhile makes the commit fail and undoes all of it. `ok` tells whether the deploy was successful and
        committed. */
    method RecordDeploy(t: Target, tag: string, r: DeployResult<Config>) returns (ok: bool)
      modifies this`nodes, this`profiles, this`log
      ensures AsDb() == old(Commit(AsDb(), t, tag, r).(dns := dns, route := route))
      ensures ok <==> r.success && old(Exists(AsDb(), t))
    {
      var row := LogRow(r.nodeTag.GetOr(tag), r);
      if !r.success {
        log := log + [row];
        return false;
      }
      if t.node !in nodes || (t.profile.Some? && t.profile.value !in profiles) {
        return false;
      }
      log := log + [row];
      FlagOne(nodes, t.node);
      nodes := Flagged(nodes, None);
      nodes := nodes[t.node := nodes[t.node].(active := true)];
      if t.profile.Some? { FlagOneProfile(profiles, t.profile.value); }
      profiles := FlaggedProfiles(profiles, None);
      if t.profile.Some? {
        profiles := profiles[t.profile.value := profiles[t.profile.value].(active := true)];
      }
      return true;
    }

    /** `generate_config`, with the presets of the profile or the stored ones. */
    method Generate(t: Target, node: Generator.Node) returns (r: Result<Config, Generator.GenerateError>)
      requires Exists(AsDb(), t)
      ensures r == Generated(AsDb(), t, node)
      ensures r.Ok? ==> FollowsSettings(r.value, AsDb(), t, node)
    {
      GeneratedFollowsSettings(AsDb(), t, node);
      var known := if level.OtherLevel? then Generator.LogWarn else level;
      if t.profile.Some? {
        var profile := profiles[t.profile.value];
        return Generator.GenerateConfig(node, profile.dns, profile.route, known, Some(bypass));
      }
      return Generator.GenerateConfig(node, dns, route, known, Some(bypass));
    }

    /** The deploy, its row and flags, and the settings of the profile it was made for. */
    method DeployGenerated(t: Target, cfg: Config, l: Launch, ticks: seq<Tick>) returns (r: DeployResult<Config>)
      requires Exists(AsDb(), t) && |ticks| == ATTEMPTS && TagOf(cfg) == nodes[t.node].tag
      modifies this`nodes, this`profiles, this`log, this`dns, this`route, pipeline`locked, pipeline.host
      ensures pipeline.locked == old(pipeline.locked)
      ensures AsDb() == Commit(old(AsDb()), t, TagOf(cfg), r)
      ensures if old(pipeline.locked) then r == LockedOut() && pipeline.host.State() == old(pipeline.host.State())
              else RunAlone(old(pipeline.host.State()), cfg, TagOf(cfg), true, l, ticks) == Finished(pipeline.host.State(), r)
    {
      var tag := nodes[t.node].tag;
      r := pipeline.DeployWithRollback(cfg, tag, true, l, ticks);
      var ok := RecordDeploy(t, tag, r);
      if ok && t.profile.Some? {
        dns := profiles[t.profile.value].dns;
        route := profiles[t.profile.value].route;
      }
    }

    /** An activation nobody interferes with: `activate_node`, and what `activate_profile` does after it. `node` is what
        the row deserializes to. Nothing happens when it cannot be loaded or its configuration cannot be generated. */
    method Activate(t: Target, node: Option<Generator.Node>, l: Launch, ticks: seq<Tick>)
      returns (r: Option<DeployResult<Config>>)
      requires Exists(AsDb(), t) && |ticks| == ATTEMPTS
      requires node.Some? ==> node.value.tag == nodes[t.node].tag
      modifies this, pipeline`locked, pipeline.host
      ensures pipeline.locked == old(pipeline.locked)
      ensures r.None? <==> node.None? || old(Generated(AsDb(), t, node.value)).Err?
      ensures r.None? ==> AsDb() == old(AsDb()) && pipeline.host.State() == old(pipeline.host.State())
      ensures r.Some? ==>
                var cfg := old(Generated(AsDb(), t, node.value)).value;
                && AsDb() == Commit(old(AsDb()), t, TagOf(cfg), r.value)
                && if old(pipeline.locked) then r.value == LockedOut() && pipeline.host.State() == old(pipeline.host.State())
                   else RunAlone(old(pipeline.host.State()), cfg, TagOf(cfg), true, l, ticks)
                        == Finished(pipeline.host.State(), r.value)
    {
      if node.None? {
        return None;
      }
      var generated := Generate(t, node.value);
      if generated.Err? {
        return None;
      }
      GeneratedMadeFor(AsDb(), t, node.value);
      var result := DeployGenerated(t, generated.value, l, ticks);
      return Some(result);
    }

    /** `restore_backup_route`: a restored backup belongs to no node, so all node flags are cleared. */
    method RestoreBackupRoute(name: string, at: Stamp, fault: Helper.Fault, restarted: bool) returns (ok: bool)
      modifies this`nodes, pipeline.host
      ensures (pipeline.host.State(), ok) == RestoredMachine(old(pipeline.host.State()), name, at, fault, restarted)
      ensures nodes == if ok then Flagged(old(nodes), None) else old(nodes)
    {
      if !MatchesPattern(name) {
        return false;
      }
      ok := pipeline.host.RestoreAction(name, at, fault);
      if ok {
        pipeline.host.RestartAction(restarted);
        nodes := Flagged(nodes, None);
      }
    }

    /** `save_settings`: refused unless all three values are known; no profile describes the settings any more. */
    method SaveSettings(dns: Generator.DnsPreset, route: Routing.Preset, level: Generator.LogLevel) returns (ok: bool)
      modifies this`dns, this`route, this`level, this`profiles
      ensures ok <==> !dns.OtherDns? && route.Known() && !level.OtherLevel?
      ensures AsDb() == if ok
                then old(AsDb()).(dns := dns, route := route, level := level, profiles := FlaggedProfiles(old(profiles), None))
                else old(AsDb())
    {
      if dns.OtherDns? || !route.Known() || level.OtherLevel? {
        return false;
      }
      this.dns := dns;
      this.route := route;
      this.level := level;
      profiles := FlaggedProfiles(profiles, None);
      return true;
    }
  }

  // The program and the state machine ---------------------------------------------------------------------------------

  /** What `Manager.Activate` promises is what the state machine does with an activation that is left alone: turned away
      when the lock is held; otherwise run to its end, with machine, answer and tables as its segments leave them. */
  lemma AloneInTheWorld(w: World, step: Step, ticks: seq<Tick>)
    requires Exclusive(w) && step.Activate? && Enabled(w, step) && |ticks| == ATTEMPTS
    ensures var cfg := Generated(w.db, step.target, step.node).value;
            var w' := WokenUntilDone(Next(w, step), step.call, ticks);
            && step.call in w'.answers && w'.lock.held == w.lock.held && w'.sleeping == w.sleeping
            && w'.db == Commit(w.db, step.target, TagOf(cfg), w'.answers[step.call])
            && if w.lock.held then w'.answers[step.call] == LockedOut() && w'.machine == w.machine
               else RunAlone(w.machine, cfg, TagOf(cfg), true, step.launch, ticks)
                    == Finished(w'.machine, w'.answers[step.call])
  {
    var cfg := Generated(w.db, step.target, step.node).value;
    ExclusiveStep(w, step);
    RunsAlone(w, step.call, step.target, cfg, step.launch, ticks);
  }

  lemma RunsAlone(w: World, call: nat, t: Target, cfg: Config, l: Launch, ticks: seq<Tick>)
    requires Exclusive(w) && Exclusive(Accept(w, call, t, cfg, l)) && call !in w.sleeping && |ticks| == ATTEMPTS
    ensures var w' := WokenUntilDone(Accept(w, call, t, cfg, l), call, ticks);
            && call in w'.answers && w'.lock.held == w.lock.held && w'.sleeping == w.sleeping
            && w'.db == Commit(w.db, t, TagOf(cfg), w'.answers[call])
            && if w.lock.held then w'.answers[call] == LockedOut() && w'.machine == w.machine
               else RunAlone(w.machine, cfg, TagOf(cfg), true, l, ticks) == Finished(w'.machine, w'.answers[call])
  {
    var w1 := Accept(w, call, t, cfg, l);
    if !w.lock.held && Begin(w.machine, cfg, TagOf(cfg), true, l).Asleep? {
      SleepsOnAlone(w1, call, ticks);
    }
  }

  /** An accepted activation that is left alone is done exactly if the configuration is valid and can be installed, the
      service restarts, and one of six looks finds it active. */
  lemma AloneSucceedsExactly(w: World, step: Step, ticks: seq<Tick>)
    requires Exclusive(w) && step.Activate? && Enabled(w, step) && |ticks| == 6 && !w.lock.held
    ensures var w', l := WokenUntilDone(Next(w, step), step.call, ticks), step.launch;
            && step.call in w'.answers
            && (w'.answers[step.call].stage == Done <==>
                  && l.valid && !l.fault.InstallFails? && (l.fault.BackupFails? ==> w.machine.config.None?) && l.restartOk
                  && (l.active || exists i :: 0 <= i < 5 && ticks[i].active))
  {
    AloneInTheWorld(w, step, ticks);
    var cfg := Generated(w.db, step.target, step.node).value;
    StageTellsWhatFailed(w.machine, cfg, TagOf(cfg), true, step.launch, ticks);
  }
}
