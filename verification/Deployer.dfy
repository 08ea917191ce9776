/**
 The deploy pipeline: validate, install through the helper, restart, poll, and roll back.
 It is given twice: as segments between the points where the coroutine gives up control, and as the
 program that runs them in a row. What validation, the helper, restarts and polls answer is arbitrary.
 */
module Deployer {
  import opened Prelude
  import opened BackupNames
  import Helper

  datatype Stage = Lock | Validate | Deploy | Restart | Health | Done

  /** `hash` stands for the digest of the configuration: it is the configuration itself. */
  datatype DeployResult<+C> = DeployResult(
    success: bool, stage: Stage, rolledBack: bool,
    backupName: Option<string>, nodeTag: Option<string>, hash: Option<C>)

  /** How a rollback would go: the second it runs in, whether the file system cuts it short, and whether the
      restart that follows it works. */
  datatype Undo = Undo(at: Stamp, fault: Helper.Fault, restarted: bool)

  /** The answers met before the first sleep. */
  datatype Launch = Launch(
    valid: bool, at: Stamp, fault: Helper.Fault, noise: string, restartOk: bool, undo: Undo, active: bool)

  /** The answers met after waking from one sleep. */
  datatype Tick = Tick(active: bool, undo: Undo)

  /** Where a call stands: returned, or asleep in the health poll after `slept` sleeps. */
  datatype Progress<+C> =
    | Finished(machine: Helper.Machine<C>, result: DeployResult<C>)
    | Asleep(machine: Helper.Machine<C>, backup: Option<string>, slept: nat)

  const ATTEMPTS: nat := 6

  function LockedOut<C>(): DeployResult<C> {
    DeployResult(false, Lock, false, None, None, None)
  }

  function Failure<C>(stage: Stage, rolledBack: bool, backup: Option<string>, cfg: C): DeployResult<C> {
    DeployResult(false, stage, rolledBack, backup, None, Some(cfg))
  }

  function Success<C>(tag: string, backup: Option<string>, cfg: C): DeployResult<C> {
    DeployResult(true, Done, false, backup, Some(tag), Some(cfg))
  }

  // Segments -----------------------------------------------------------------------------------------------

  /** Restore the backup, if one is known. The restart that follows is best effort and not recorded. */
  function Rollback<C>(d: Helper.Machine<C>, backup: Option<string>, undo: Undo): (Helper.Machine<C>, bool) {
    match backup
    case None => (d, false)
    case Some(name) =>
      var (restored, ok) := Helper.Restore(d, name, undo.at, undo.fault);
      (if ok then Helper.Restart(restored, undo.restarted) else restored, ok)
  }

  /** One look at the service: done, or off to sleep. */
  function Look<C>(d: Helper.Machine<C>, cfg: C, tag: string, backup: Option<string>, slept: nat, active: bool)
    : Progress<C>
  {
    if active then Finished(d, Success(tag, backup, cfg)) else Asleep(d, backup, slept + 1)
  }

  /** The name the deployer reads off the output of a successful `deploy` on machine `d`. */
  function NamedBackup<C>(d: Helper.Machine<C>, l: Launch): Option<string> {
    FindName(DeployOutput(if d.config.None? then None else Some(BackupName(l.at)), l.noise))
  }

  /** From acceptance to the first sleep. */
  function Begin<C>(d: Helper.Machine<C>, cfg: C, tag: string, healthCheck: bool, l: Launch): Progress<C> {
    if !l.valid then Finished(d, Failure(Validate, false, None, cfg))
    else
      var (d1, ok) := Helper.Deploy(d, Helper.Present(Helper.Json(cfg)), l.at, l.fault);
      if !ok then Finished(d1, Failure(Deploy, false, None, cfg))
      else
        var backup := NamedBackup(d, l);
        var d2 := Helper.Restart(d1, l.restartOk);
        if !l.restartOk then
          var (d3, undone) := Rollback(d2, backup, l.undo);
          Finished(d3, Failure(Restart, undone, backup, cfg))
        else if healthCheck then Look(d2, cfg, tag, backup, 0, l.active)
        else Finished(d2, Success(tag, backup, cfg))
  }

  /** From waking up to the next sleep or the end. The sixth sleep is not followed by a look. */
  function Resume<C>(p: Progress<C>, cfg: C, tag: string, t: Tick): Progress<C>
    requires p.Asleep?
  {
    if p.slept < ATTEMPTS then Look(p.machine, cfg, tag, p.backup, p.slept, t.active)
    else
      var (d, undone) := Rollback(p.machine, p.backup, t.undo);
      Finished(d, Failure(Health, undone, p.backup, cfg))
  }

  function Drive<C>(p: Progress<C>, cfg: C, tag: string, ticks: seq<Tick>): Progress<C>
    decreases |ticks|
  {
    if p.Finished? || ticks == [] then p else Drive(Resume(p, cfg, tag, ticks[0]), cfg, tag, ticks[1..])
  }

  /** A call that nobody interferes with, as far as the given wake-ups take it. */
  function RunAlone<C>(d: Helper.Machine<C>, cfg: C, tag: string, healthCheck: bool, l: Launch, ticks: seq<Tick>)
    : Progress<C>
  {
    Drive(Begin(d, cfg, tag, healthCheck, l), cfg, tag, ticks)
  }

  // The program ----------------------------------------------------------------------------------------------

  class Pipeline<C(==)> {
    const host: Helper.Host<C>
    var locked: bool

    constructor (host: Helper.Host<C>)
      ensures this.host == host && !locked
    {
      this.host := host;
      locked := false;
    }

    /** `_wait_service_active`: look, sleep, and look again, at most six times. */
    method WaitServiceActive(l: Launch, ticks: seq<Tick>) returns (active: bool)
      requires |ticks| == ATTEMPTS
      ensures active <==> l.active || exists i :: 0 <= i < ATTEMPTS - 1 && ticks[i].active
    {
      for attempt := 0 to ATTEMPTS
        invariant attempt > 0 ==> !l.active
        invariant forall i :: 0 <= i < attempt - 1 ==> !ticks[i].active
      {
        var now := if attempt == 0 then l.active else ticks[attempt - 1].active;
        if now {
          return true;
        }
      }
      return false;
    }

    method DoRollback(backup: Option<string>, undo: Undo) returns (undone: bool)
      modifies host
      ensures (host.State(), undone) == Rollback(old(host.State()), backup, undo)
    {
      undone := false;
      if backup.Some? {
        undone := host.RestoreAction(backup.value, undo.at, undo.fault);
        if undone {
          host.RestartAction(undo.restarted);
        }
      }
    }

    /** `_run_deploy` */
    method RunDeploy(cfg: C, tag: string, healthCheck: bool, l: Launch, ticks: seq<Tick>)
      returns (r: DeployResult<C>)
      requires |ticks| == ATTEMPTS
      modifies host
      ensures RunAlone(old(host.State()), cfg, tag, healthCheck, l, ticks) == Finished(host.State(), r)
    {
      if !l.valid {
        return Failure(Validate, false, None, cfg);
      }
      ghost var before := host.State();
      var ok, output := host.DeployAction(Helper.Present(Helper.Json(cfg)), l.at, l.fault, l.noise);
      if !ok {
        return Failure(Deploy, false, None, cfg);
      }
      var backup := FindName(output);
      assert backup == NamedBackup(before, l);
      host.RestartAction(l.restartOk);
      if !l.restartOk {
        var undone := DoRollback(backup, l.undo);
        return Failure(Restart, undone, backup, cfg);
      }
      if healthCheck {
        var active := WaitServiceActive(l, ticks);
        if !l.active {
          PollOutcome(Asleep(host.State(), backup, 1), cfg, tag, ticks);
        }
        if !active {
          var undone := DoRollback(backup, ticks[ATTEMPTS - 1].undo);
          return Failure(Health, undone, backup, cfg);
        }
      }
      return Success(tag, backup, cfg);
    }

    /** `deploy_with_rollback`: a call that finds the lock taken is turned away at once. */
    method DeployWithRollback(cfg: C, tag: string, healthCheck: bool, l: Launch, ticks: seq<Tick>)
      returns (r: DeployResult<C>)
      requires |ticks| == ATTEMPTS
      modifies this`locked, host
      ensures locked == old(locked)
      ensures old(locked) ==> r == LockedOut() && host.State() == old(host.State())
      ensures !old(locked) ==>
                RunAlone(old(host.State()), cfg, tag, healthCheck, l, ticks) == Finished(host.State(), r)
    {
      if locked {
        return LockedOut();
      }
      locked := true;
      r := RunDeploy(cfg, tag, healthCheck, l, ticks);
      locked := false;
    }
  }

  // How the poll ends ------------------------------------------------------------------------------------------

  /** From `p` on, the first wake-up that finds the service active ends the call well; if none of those
      left does, the wake-up after the sixth sleep ends it with a rollback. */
  lemma {:induction false} PollOutcome<C>(p: Progress<C>, cfg: C, tag: string, ticks: seq<Tick>)
    requires p.Asleep? && p.slept <= ATTEMPTS && |ticks| == ATTEMPTS - p.slept + 1
    ensures (exists i :: 0 <= i < |ticks| - 1 && ticks[i].active) ==>
              Drive(p, cfg, tag, ticks) == Finished(p.machine, Success(tag, p.backup, cfg))
    ensures !(exists i :: 0 <= i < |ticks| - 1 && ticks[i].active) ==>
              var (d, undone) := Rollback(p.machine, p.backup, ticks[|ticks| - 1].undo);
              Drive(p, cfg, tag, ticks) == Finished(d, Failure(Health, undone, p.backup, cfg))
    decreases |ticks|
  {
    var next := Resume(p, cfg, tag, ticks[0]);
    if next.Asleep? {
      PollOutcome(next, cfg, tag, ticks[1..]);
      assert forall i :: 0 < i < |ticks| ==> ticks[i] == ticks[1..][i - 1];
    }
  }

  // The contract, stage by stage -----------------------------------------------------------------------------------

  /** Whether the extraction of the backup name can be misled: only without a previous config, and only by
      a backup name in unrelated output. */
  predicate Misled<C>(d: Helper.Machine<C>, l: Launch) {
    d.config.None? && FindName(l.noise).Some?
  }

  /** After a successful install from `d`: the new config is there, the old one under `backup`. */
  ghost predicate Installed<C>(d: Helper.Machine<C>, cfg: C, at: Stamp, now: Helper.Machine<C>, backup: Option<string>) {
    && now.config == Some(Helper.Json(cfg))
    && (d.config.None? ==> backup.None?)
    && (d.config.Some? ==> backup == Some(BackupName(at))
                           && BackupName(at) in now.backups && now.backups[BackupName(at)] == d.config.value)
  }

  /** A rollback from an installed state: it succeeds exactly if the older config was readable and the file system lets it,
      and brings that config back exactly when it runs in another second than the deploy, or the deploy had changed
      nothing. */
  lemma RollbackContract<C>(d: Helper.Machine<C>, cfg: C, at: Stamp, now: Helper.Machine<C>, backup: Option<string>, undo: Undo)
    requires at.Valid() && undo.at.Valid() && Installed(d, cfg, at, now, backup)
    ensures var (d', undone) := Rollback(now, backup, undo);
            && (undone <==> CanUndo(d, undo))
            && (undone ==> (d'.config == d.config <==> undo.at != at || d.config == Some(Helper.Json(cfg))))
            && (!undone ==> d'.config == Some(Helper.Json(cfg)) && d'.running == now.running)
            && (undone ==> d'.running == if undo.restarted then d'.config else None)
  {
    NameOrder(at, undo.at);
    BackupNameIsName(at);
  }

  /** There was a well-formed config before the deploy, and nothing goes wrong while it is put back. */
  predicate CanUndo<C>(d: Helper.Machine<C>, undo: Undo) {
    d.config.Some? && d.config.value.Json? && undo.fault.NoFault?
  }

  /** The part of the contract that every end of a call keeps, given how a rollback would run. */
  ghost predicate Honours<C>(d: Helper.Machine<C>, cfg: C, tag: string, at: Stamp, undo: Undo,
                             d': Helper.Machine<C>, r: DeployResult<C>)
  {
    && r.hash == Some(cfg) && r.stage != Lock && (r.success <==> r.stage == Done)
    && (r.stage == Validate ==> d' == d)
    && (r.stage == Deploy ==> d'.config == d.config)
    && (r.success ==> r.nodeTag == Some(tag) && !r.rolledBack && Installed(d, cfg, at, d', r.backupName))
    && (r.rolledBack <==> r.stage in {Restart, Health} && CanUndo(d, undo))
    && (r.rolledBack ==> (d'.config == d.config <==> undo.at != at || d.config == Some(Helper.Json(cfg))))
    && (r.stage in {Restart, Health} && !r.rolledBack ==> d'.config == Some(Helper.Json(cfg)))
  }

  /** What the service has loaded when the call ends: nothing new when the call failed before the install, what is on
      disk after a success or a rollback that could restart it. */
  ghost predicate ServiceFollows<C>(d: Helper.Machine<C>, cfg: C, undo: Undo, d': Helper.Machine<C>, r: DeployResult<C>) {
    && (r.stage in {Validate, Deploy} ==> d'.running == d.running)
    && (r.success ==> d'.running == Some(Helper.Json(cfg)) == d'.config)
    && (r.rolledBack ==> d'.running == if undo.restarted then d'.config else None)
    && (r.stage == Restart && !r.rolledBack ==> d'.running == None)
    && (r.stage == Health && !r.rolledBack ==> d'.running == Some(Helper.Json(cfg)))
  }

  /** Before the first sleep: either the call ends honouring the contract, or the install is in place. */
  lemma BeginContract<C>(d: Helper.Machine<C>, cfg: C, tag: string, healthCheck: bool, l: Launch)
    requires l.at.Valid() && l.undo.at.Valid() && !Misled(d, l)
    ensures match Begin(d, cfg, tag, healthCheck, l)
            case Finished(d', r) =>
              Honours(d, cfg, tag, l.at, l.undo, d', r) && ServiceFollows(d, cfg, l.undo, d', r) && r.stage != Health
            case Asleep(d', backup, slept) =>
              slept == 1 && Installed(d, cfg, l.at, d', backup) && d'.running == Some(Helper.Json(cfg))
  {
    if l.valid {
      var (d1, ok) := Helper.Deploy(d, Helper.Present(Helper.Json(cfg)), l.at, l.fault);
      Helper.DeployContract(d, Helper.Present(Helper.Json(cfg)), l.at, l.fault);
      if ok {
        ExtractionRecoversName(l.at, l.noise);
        var d2 := Helper.Restart(d1, l.restartOk);
        assert Installed(d, cfg, l.at, d2, NamedBackup(d, l));
        RollbackContract(d, cfg, l.at, d2, NamedBackup(d, l), l.undo);
      }
    }
  }

  /** After a wake-up: the call ends honouring the contract, or nothing has moved. */
  lemma ResumeContract<C>(d: Helper.Machine<C>, p: Progress<C>, cfg: C, tag: string, at: Stamp, t: Tick)
    requires at.Valid() && t.undo.at.Valid() && p.Asleep? && Installed(d, cfg, at, p.machine, p.backup)
    ensures match Resume(p, cfg, tag, t)
            case Finished(d', r) =>
              && Honours(d, cfg, tag, at, t.undo, d', r) && r.stage in {Health, Done}
              && (p.machine.running == Some(Helper.Json(cfg)) ==> ServiceFollows(d, cfg, t.undo, d', r))
            case Asleep(d', backup, slept) => d' == p.machine && backup == p.backup && slept == p.slept + 1
  {
    RollbackContract(d, cfg, at, p.machine, p.backup, t.undo);
  }

  /** Six wake-ups always end a call, and the end honours the contract: by the time of `l.undo` when the
      restart failed, by the time of the last wake-up when the health poll failed. */
  lemma DeployContract<C>(d: Helper.Machine<C>, cfg: C, tag: string, healthCheck: bool, l: Launch, ticks: seq<Tick>)
    requires l.at.Valid() && l.undo.at.Valid() && !Misled(d, l)
    requires |ticks| == 6 && forall i :: 0 <= i < |ticks| ==> ticks[i].undo.at.Valid()
    ensures var p := RunAlone(d, cfg, tag, healthCheck, l, ticks);
            && p.Finished?
            && var undo := if p.result.stage == Health then ticks[ATTEMPTS - 1].undo else l.undo;
               Honours(d, cfg, tag, l.at, undo, p.machine, p.result) && ServiceFollows(d, cfg, undo, p.machine, p.result)
  {
    BeginContract(d, cfg, tag, healthCheck, l);
    var p := Begin(d, cfg, tag, healthCheck, l);
    if p.Asleep? {
      PollOutcome(p, cfg, tag, ticks);
      RollbackContract(d, cfg, l.at, p.machine, p.backup, ticks[ATTEMPTS - 1].undo);
    }
  }

  /** The stage of an ended call tells which answer ended it. */
  lemma StageTellsWhatFailed<C>(d: Helper.Machine<C>, cfg: C, tag: string, healthCheck: bool, l: Launch, ticks: seq<Tick>)
    requires |ticks| == 6
    ensures var p := RunAlone(d, cfg, tag, healthCheck, l, ticks);
            var installed := l.valid && !l.fault.InstallFails? && (l.fault.BackupFails? ==> d.config.None?);
            var seenActive := l.active || exists i :: 0 <= i < 5 && ticks[i].active;
            && p.Finished?
            && (p.result.stage == Validate <==> !l.valid)
            && (p.result.stage == Deploy <==> l.valid && !installed)
            && (p.result.stage == Restart <==> installed && !l.restartOk)
            && (p.result.stage == Health <==> installed && l.restartOk && healthCheck && !seenActive)
            && (p.result.stage == Done <==> installed && l.restartOk && (healthCheck ==> seenActive))
  {
    Helper.DeployContract(d, Helper.Present(Helper.Json(cfg)), l.at, l.fault);
    var p := Begin(d, cfg, tag, healthCheck, l);
    if p.Asleep? { PollOutcome(p, cfg, tag, ticks); }
  }

  /** A restart that fails within the second of the deploy: the call reports a rollback, yet the rejected
      configuration stays in place and the previous one is gone. */
  lemma SameSecondRollbackFails<C(!new)>(previous: C, rejected: C, tag: string, at: Stamp, noise: string, restarted: bool)
    requires at.Valid() && previous != rejected
    ensures var d := Helper.Machine(Some(Helper.Json(previous)), map[], None);
            var l := Launch(true, at, Helper.NoFault, noise, false, Undo(at, Helper.NoFault, restarted), false);
            var p := RunAlone(d, rejected, tag, true, l, []);
            && p.Finished? && p.result.rolledBack
            && p.machine.config == Some(Helper.Json(rejected))
            && !Helper.Kept(p.machine, Helper.Json(previous))
  {
    ExtractionRecoversName(at, noise);
    BackupNameIsName(at);
  }
}
