/**
 The privileged helper: it keeps `/etc/sing-box/config.json` and the backup directory, and every
 action that overwrites the config copies it into the directory first, under the current second.
 */
module Helper {
  import opened Prelude
  import opened Text
  import opened Sequences
  import opened Sorting
  import opened BackupNames

  /** A file: JSON with some content, or something `json.load` refuses. */
  datatype File<+C> = Json(content: C) | Malformed

  /** The config file, the backup directory, and what the service loaded at its last restart: `None` if that failed. */
  datatype Machine<+C> = Machine(config: Option<File<C>>, backups: map<string, File<C>>, running: Option<File<C>>)

  /** Where an action may be cut short by the file system. A failing copy writes nothing. */
  datatype Fault = NoFault | BackupFails | InstallFails

  /** What the source path of `deploy` leads to. */
  datatype Source<+C> = BadPath | Missing | Present(file: File<C>)

  // Effects on the machine ------------------------------------------------------------------------------

  function TakeBackup<C>(d: Machine<C>, at: Stamp): Machine<C> {
    if d.config.None? then d else d.(backups := d.backups[BackupName(at) := d.config.value])
  }

  /** Shared tail of `deploy` and `restore`: back up, then install what `pick` finds after that. */
  function Replace<C>(d: Machine<C>, at: Stamp, fault: Fault, pick: Machine<C> -> File<C>): (Machine<C>, bool) {
    if d.config.Some? && fault.BackupFails? then (d, false)
    else
      var b := TakeBackup(d, at);
      if fault.InstallFails? then (b, false) else (b.(config := Some(pick(b))), true)
  }

  function Deploy<C>(d: Machine<C>, src: Source<C>, at: Stamp, fault: Fault): (Machine<C>, bool) {
    if !src.Present? || src.file.Malformed? then (d, false)
    else Replace(d, at, fault, b => src.file)
  }

  predicate Restorable<C>(d: Machine<C>, name: string) {
    MatchesPattern(name) && name in d.backups && d.backups[name].Json?
  }

  function Restore<C>(d: Machine<C>, name: string, at: Stamp, fault: Fault): (Machine<C>, bool) {
    if !Restorable(d, name) then (d, false)
    else Replace(d, at, fault, (b: Machine<C>) => if name in b.backups then b.backups[name] else Malformed)
  }

  /** What a service action comes to: the service runs on as it did, runs with the config on disk, or is down. */
  datatype Outcome = Unchanged | Loaded | Down

  function Serve<C>(d: Machine<C>, outcome: Outcome): Machine<C> {
    match outcome
    case Unchanged => d
    case Loaded => d.(running := d.config)
    case Down => d.(running := None)
  }

  /** `restart`: the service loads the config, or stays down. */
  function Restart<C>(d: Machine<C>, ok: bool): Machine<C> {
    Serve(d, if ok then Loaded else Down)
  }

  // The helper as the program that performs them -------------------------------------------------------

  class Host<C> {
    var config: Option<File<C>>
    var backups: map<string, File<C>>
    var running: Option<File<C>>

    constructor (d: Machine<C>)
      ensures State() == d
    {
      config, backups, running := d.config, d.backups, d.running;
    }

    ghost function State(): Machine<C>
      reads this
    {
      Machine(config, backups, running)
    }

    /** `_make_backup`: no backup without a config; a copy under the current second otherwise. */
    method MakeBackup(at: Stamp, fault: Fault) returns (r: Result<Option<string>, ()>)
      modifies `backups
      ensures r.Err? <==> config.Some? && fault.BackupFails?
      ensures r.Err? ==> State() == old(State())
      ensures r.Ok? ==> State() == TakeBackup(old(State()), at)
      ensures r.Ok? ==> r.value == if config.None? then None else Some(BackupName(at))
    {
      if config.None? {
        return Ok(None);
      }
      if fault.BackupFails? {
        return Err(());
      }
      var dest := BackupName(at);
      backups := backups[dest := config.value];
      return Ok(Some(dest));
    }

    /** `action_deploy`. On success the output names the backup, if one was made. */
    method DeployAction(src: Source<C>, at: Stamp, fault: Fault, noise: string) returns (ok: bool, output: string)
      modifies this
      ensures (State(), ok) == Deploy(old(State()), src, at, fault)
      ensures ok ==> output == DeployOutput(if old(config).None? then None else Some(BackupName(at)), noise)
    {
      if src.BadPath? || src.Missing? {
        return false, noise;
      }
      if src.file.Malformed? {
        return false, noise;
      }
      var backup := MakeBackup(at, fault);
      if backup.Err? || fault.InstallFails? {
        return false, noise;
      }
      config := Some(src.file);
      return true, DeployOutput(backup.value, noise);
    }

    /** `action_restore`: the chosen backup is read for validity before, and copied after, the pre-restore backup. */
    method RestoreAction(name: string, at: Stamp, fault: Fault) returns (ok: bool)
      modifies this
      ensures (State(), ok) == Restore(old(State()), name, at, fault)
    {
      if !MatchesPattern(name) || name !in backups {
        return false;
      }
      if backups[name].Malformed? {
        return false;
      }
      var pre := MakeBackup(at, fault);
      if pre.Err? || fault.InstallFails? {
        return false;
      }
      config := Some(backups[name]);
      return true;
    }

    /** `action_service("restart")` */
    method RestartAction(ok: bool)
      modifies `running
      ensures State() == Restart(old(State()), ok)
    {
      running := if ok then config else None;
    }
  }

  // What one action guarantees ---------------------------------------------------------------------------

  /** A failed deploy leaves the config alone; a successful one installs the source and keeps the old
      config under the second it ran in, touching no other backup. */
  lemma DeployContract<C>(d: Machine<C>, src: Source<C>, at: Stamp, fault: Fault)
    ensures var (d', ok) := Deploy(d, src, at, fault);
            && (!ok ==> d'.config == d.config)
            && (ok ==> src.Present? && src.file.Json? && d'.config == Some(src.file))
            && (ok && d.config.Some? ==>
                  BackupName(at) in d'.backups && d'.backups[BackupName(at)] == d.config.value)
            && (forall n :: n != BackupName(at) ==>
                  (n in d'.backups <==> n in d.backups) && (n in d.backups ==> d'.backups[n] == d.backups[n]))
            && (ok <==> src.Present? && src.file.Json? && !fault.InstallFails?
                        && (fault.BackupFails? ==> d.config.None?))
  {
  }

  /** The pre-restore backup lands on the very backup that is being restored. */
  predicate HitsItself<C>(d: Machine<C>, name: string, at: Stamp) {
    d.config.Some? && name == BackupName(at)
  }

  /** A successful restore brings the named backup back exactly when it does not hit itself, or when the
      backup holds the current config anyway; hitting itself leaves the config as it was. */
  lemma RestoreContract<C>(d: Machine<C>, name: string, at: Stamp, fault: Fault)
    requires Restore(d, name, at, fault).1
    ensures var d' := Restore(d, name, at, fault).0;
            && (d'.config == Some(d.backups[name]) <==>
                  !HitsItself(d, name, at) || d.config.value == d.backups[name])
            && (HitsItself(d, name, at) ==> d'.config == d.config)
            && (d.config.Some? ==> BackupName(at) in d'.backups && d'.backups[BackupName(at)] == d.config.value)
  {
  }

  /** A restore succeeds exactly for a well-named, well-formed backup when the file system goes along; it touches at most the
      slot of its own second, and never the service. */
  lemma RestoreExactly<C>(d: Machine<C>, name: string, at: Stamp, fault: Fault)
    ensures var (d', ok) := Restore(d, name, at, fault);
            && (ok <==> MatchesPattern(name) && name in d.backups && d.backups[name].Json?
                        && !fault.InstallFails? && (fault.BackupFails? ==> d.config.None?))
            && d'.running == d.running
            && (d.config.None? ==> d'.backups == d.backups)
            && (forall n :: n != BackupName(at) ==>
                  (n in d'.backups <==> n in d.backups) && (n in d.backups ==> d'.backups[n] == d.backups[n]))
  {
  }

  /** A failed restore leaves the config alone. */
  lemma FailedRestoreKeepsConfig<C>(d: Machine<C>, name: string, at: Stamp, fault: Fault)
    requires !Restore(d, name, at, fault).1
    ensures Restore(d, name, at, fault).0.config == d.config
  {
  }

  /** Restoring the backup a deploy has just made undoes the deploy, exactly when it runs in another
      second or the deploy changed nothing. */
  lemma RestoreUndoesDeploy<C>(d: Machine<C>, src: Source<C>, at: Stamp, later: Stamp, fault: Fault)
    requires at.Valid() && later.Valid() && d.config.Some? && d.config.value.Json?
    requires Deploy(d, src, at, NoFault).1
    requires Restore(Deploy(d, src, at, NoFault).0, BackupName(at), later, fault).1
    ensures Restore(Deploy(d, src, at, NoFault).0, BackupName(at), later, fault).0.config == d.config
            <==> at != later || src.file == d.config.value
  {
    NameOrder(at, later);
  }

  // Nothing is ever lost ----------------------------------------------------------------------------------

  datatype Op<+C> =
    | DeployOp(src: Source<C>, at: Stamp, fault: Fault)
    | RestoreOp(name: string, at: Stamp, fault: Fault)

  function Apply<C>(d: Machine<C>, op: Op<C>): Machine<C> {
    match op
    case DeployOp(src, at, fault) => Deploy(d, src, at, fault).0
    case RestoreOp(name, at, fault) => Restore(d, name, at, fault).0
  }

  function Run<C>(d: Machine<C>, ops: seq<Op<C>>): Machine<C>
    decreases |ops|
  {
    if ops == [] then d else Run(Apply(d, ops[0]), ops[1..])
  }

  /** `f` is the current config or one of the backups. */
  ghost predicate Kept<C>(d: Machine<C>, f: File<C>) {
    d.config == Some(f) || exists n :: n in d.backups && d.backups[n] == f
  }

  /** The action gets as far as taking a backup. */
  predicate TakesBackup<C>(d: Machine<C>, op: Op<C>) {
    && d.config.Some? && !op.fault.BackupFails?
    && match op
       case DeployOp(src, _, _) => src.Present? && src.file.Json?
       case RestoreOp(name, _, _) => Restorable(d, name)
  }

  /** No backup is overwritten, or what is overwritten stays somewhere: it equals the config being
      backed up, or another backup, or the file being installed. */
  ghost predicate OverwriteHarmless<C>(d: Machine<C>, op: Op<C>)
    requires d.config.Some?
  {
    var slot := BackupName(op.at);
    slot in d.backups ==>
      || d.backups[slot] == d.config.value
      || (exists n :: n in d.backups && n != slot && d.backups[n] == d.backups[slot])
      || (op.DeployOp? && op.src.Present? && !op.fault.InstallFails? && op.src.file == d.backups[slot])
  }

  /** One action keeps every content that is current or backed up, exactly when its overwrite is harmless. */
  lemma StepLosesNothing<C(!new)>(d: Machine<C>, op: Op<C>)
    ensures (forall f :: Kept(d, f) ==> Kept(Apply(d, op), f)) <==>
            (TakesBackup(d, op) ==> OverwriteHarmless(d, op))
  {
    var d' := Apply(d, op);
    var slot := BackupName(op.at);
    if !TakesBackup(d, op) {
      forall f | Kept(d, f) ensures Kept(d', f) {
        if d.config == Some(f) && d'.config != d.config { assert false; }
      }
    } else {
      assert d'.backups == d.backups[slot := d.config.value];
      if OverwriteHarmless(d, op) {
        forall f | Kept(d, f) ensures Kept(d', f) { StepKeeps(d, op, f); }
      } else {
        var victim := d.backups[slot];
        assert Kept(d, victim);
        assert !Kept(d', victim) by {
          forall n | n in d'.backups ensures d'.backups[n] != victim {
            assert n == slot || n in d.backups;
          }
        }
      }
    }
  }

  lemma StepKeeps<C>(d: Machine<C>, op: Op<C>, f: File<C>)
    requires Kept(d, f) && TakesBackup(d, op) && OverwriteHarmless(d, op)
    ensures Kept(Apply(d, op), f)
  {
    var d' := Apply(d, op);
    var slot := BackupName(op.at);
    assert d'.backups == d.backups[slot := d.config.value];
    if d.config == Some(f) {
      assert slot in d'.backups && d'.backups[slot] == f;
    } else {
      var n :| n in d.backups && d.backups[n] == f;
      if n != slot {
        assert n in d'.backups && d'.backups[n] == f;
      } else if m :| m in d.backups && m != slot && d.backups[m] == f {
        assert m in d'.backups && d'.backups[m] == f;
      }
    }
  }

  /** Action `i` of the run gets as far as taking a backup. */
  predicate BacksUp<C>(d: Machine<C>, ops: seq<Op<C>>, i: nat)
    requires i < |ops|
  {
    TakesBackup(Run(d, ops[..i]), ops[i])
  }

  /** The backups of the run are taken in pairwise distinct seconds, none of which names an existing backup. */
  ghost predicate FreshSeconds<C>(d: Machine<C>, ops: seq<Op<C>>) {
    && (forall i :: 0 <= i < |ops| && BacksUp(d, ops, i) ==> ops[i].at.Valid() && BackupName(ops[i].at) !in d.backups)
    && (forall i, j :: 0 <= i < j < |ops| && BacksUp(d, ops, i) && BacksUp(d, ops, j) ==> ops[i].at != ops[j].at)
  }

  lemma FreshAfterOne<C>(d: Machine<C>, ops: seq<Op<C>>)
    requires ops != [] && FreshSeconds(d, ops)
    ensures FreshSeconds(Apply(d, ops[0]), ops[1..])
    ensures TakesBackup(d, ops[0]) ==> ops[0].at.Valid() && BackupName(ops[0].at) !in d.backups
  {
    var d' := Apply(d, ops[0]);
    var rest := ops[1..];
    assert ops[..0] == [] && BacksUp(d, ops, 0) == TakesBackup(d, ops[0]);
    forall i | 0 <= i < |rest|
      ensures rest[i] == ops[i + 1] && BacksUp(d', rest, i) == BacksUp(d, ops, i + 1)
    {
      assert ops[..i + 1][0] == ops[0] && ops[..i + 1][1..] == rest[..i];
    }
    forall i | 0 <= i < |rest| && BacksUp(d', rest, i) ensures BackupName(rest[i].at) !in d'.backups {
      assert BacksUp(d, ops, i + 1);
      if TakesBackup(d, ops[0]) {
        NameOrder(ops[0].at, rest[i].at);
      }
      assert d'.backups.Keys <= d.backups.Keys + (if TakesBackup(d, ops[0]) then {BackupName(ops[0].at)} else {});
    }
  }

  /**
   Over any run that takes its backups in distinct seconds no configuration is ever lost: whatever is current or
   backed up after the first `k` actions is still current or backed up at the end.
   */
  lemma {:induction false} NothingIsEverLost<C(!new)>(d: Machine<C>, ops: seq<Op<C>>, k: nat, f: File<C>)
    requires FreshSeconds(d, ops) && k <= |ops|
    requires Kept(Run(d, ops[..k]), f)
    ensures Kept(Run(d, ops), f)
    decreases |ops|
  {
    if ops != [] {
      var d' := Apply(d, ops[0]);
      var rest := ops[1..];
      FreshAfterOne(d, ops);
      if k == 0 {
        StepLosesNothing(d, ops[0]);
        assert Kept(d', f);
        assert rest[..0] == [];
        NothingIsEverLost(d', rest, 0, f);
      } else {
        assert ops[..k][0] == ops[0] && ops[..k][1..] == rest[..k - 1];
        NothingIsEverLost(d', rest, k - 1, f);
      }
    }
  }

  /** Two deploys in one second do lose a configuration: the second backup replaces the first. */
  lemma SameSecondLosesConfig<C(!new)>(a: C, b: C, c: C, at: Stamp)
    requires a != b && b != c && a != c
    ensures var d := Machine(Some(Json(a)), map[], None);
            var ops := [DeployOp(Present(Json(b)), at, NoFault), DeployOp(Present(Json(c)), at, NoFault)];
            Kept(d, Json(a)) && !Kept(Run(d, ops), Json(a))
  {
    var d := Machine(Some(Json(a)), map[], None);
    var first := DeployOp(Present(Json(b)), at, NoFault);
    var second := DeployOp(Present(Json(c)), at, NoFault);
    var d1 := Apply(d, first);
    var d2 := Apply(d1, second);
    assert [first, second][1..] == [second] && [second][1..] == [];
    assert Run(d, [first, second]) == Run(d1, [second]) == Run(d2, []) == d2;
    assert d2 == Machine(Some(Json(c)), map[BackupName(at) := Json(b)], None);
  }

  // Listing -------------------------------------------------------------------------------------------------

  /** The order of `sorted(..., reverse=True)`. */
  predicate NotBefore(a: string, b: string) {
    AtMost(b, a)
  }

  /** `action_list_backups`, given the names the directory iterator yields. */
  function ListBackups(listing: seq<string>): seq<string> {
    Sort(Filter(listing, MatchesPattern), NotBefore)
  }

  lemma NotBeforeIsOrder()
    ensures TotalPreorder(NotBefore)
    ensures forall s: seq<string> :: AntisymmetricOn(s, NotBefore)
  {
    forall a: string, b: string, c: string
      ensures NotBefore(a, b) || NotBefore(b, a)
      ensures NotBefore(a, b) && NotBefore(b, a) ==> a == b
      ensures NotBefore(a, b) && NotBefore(b, c) ==> NotBefore(a, c)
    {
      AtMostLinear(c, b, a);
      AtMostLinear(a, b, c);
    }
  }

  /** Strictly later in time, for two names that stand for real seconds. */
  ghost predicate NewestFirst(names: seq<string>) {
    forall i, j, s: Stamp, t: Stamp ::
      0 <= i < j < |names| && s.Valid() && t.Valid() && names[i] == BackupName(s) && names[j] == BackupName(t)
      ==> t.Before(s)
  }

  /** The listing holds exactly the well-named files of the directory, newest first. */
  lemma ListingIsNewestFirst(listing: seq<string>)
    requires NoDuplicates(listing)
    ensures forall n :: n in ListBackups(listing) <==> n in listing && MatchesPattern(n)
    ensures NoDuplicates(ListBackups(listing)) && NewestFirst(ListBackups(listing))
  {
    var names := ListBackups(listing);
    NotBeforeIsOrder();
    var found := Filter(listing, MatchesPattern);
    FilterMembers(listing, MatchesPattern);
    NoDuplicatesOfFilter(listing, MatchesPattern);
    SortPermutes(found, NotBefore);
    SortSorts(found, NotBefore);
    NoDuplicatesOfPermutation(found, names);
    forall i, j, s: Stamp, t: Stamp | 0 <= i < j < |names| && s.Valid() && t.Valid()
      && names[i] == BackupName(s) && names[j] == BackupName(t)
      ensures t.Before(s)
    {
      assert NotBefore(names[i], names[j]) && names[i] != names[j];
      LessTotal(names[i], names[j]);
      NameOrder(t, s);
    }
  }

  /** The order in which the directory is read does not matter. */
  lemma ListingIgnoresDirectoryOrder(a: seq<string>, b: seq<string>)
    requires multiset(a) == multiset(b)
    ensures ListBackups(a) == ListBackups(b)
  {
    FilterOfPermutation(a, b, MatchesPattern);
    NotBeforeIsOrder();
    SortIsCanonical(Filter(a, MatchesPattern), Filter(b, MatchesPattern), NotBefore);
  }
}
