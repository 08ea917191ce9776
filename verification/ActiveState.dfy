/** What the active flags mean, in every state of every run. */
module ActiveState {
  import opened Prelude
  import opened BackupNames
  import opened Deployer
  import opened DeployWorld
  import opened NodeRows
  import Generator
  import Helper
  import Routing

  // Flags and settings --------------------------------------------------------------------------------------------

  /** At most one node and one profile are flagged, and the stored presets are those of a flagged profile. */
  ghost predicate FlagsConsistent(db: Db) {
    && (forall i, j :: i in db.nodes && j in db.nodes && db.nodes[i].active && db.nodes[j].active ==> i == j)
    && (forall i, j :: i in db.profiles && j in db.profiles && db.profiles[i].active && db.profiles[j].active ==> i == j)
    && (forall i :: i in db.profiles && db.profiles[i].active ==>
          db.dns == db.profiles[i].dns && db.route == db.profiles[i].route)
    && UniqueTags(db)
  }

  lemma CommitKeepsFlags(db: Db, t: Target, tag: string, r: DeployResult<Config>)
    requires FlagsConsistent(db)
    ensures FlagsConsistent(Commit(db, t, tag, r))
  {
  }

  lemma AcceptKeepsFlags(w: World, call: nat, t: Target, cfg: Config, l: Launch)
    requires FlagsConsistent(w.db)
    ensures FlagsConsistent(Accept(w, call, t, cfg, l).db)
  {
    CommitKeepsFlags(w.db, t, TagOf(cfg), LockedOut());
    var p := Begin(w.machine, cfg, TagOf(cfg), true, l);
    if p.Finished? { CommitKeepsFlags(w.db, t, TagOf(cfg), p.result); }
  }

  lemma WakeupKeepsFlags(w: World, call: nat, t: Tick)
    requires FlagsConsistent(w.db) && call in w.sleeping
    ensures FlagsConsistent(Wakeup(w, call, t).db)
  {
    var s := w.sleeping[call];
    var p := Resume(Asleep(w.machine, s.backup, s.slept), s.cfg, TagOf(s.cfg), t);
    if p.Finished? { CommitKeepsFlags(w.db, s.target, TagOf(s.cfg), p.result); }
  }

  lemma FlagsStep(w: World, step: Step)
    requires FlagsConsistent(w.db) && Enabled(w, step)
    ensures FlagsConsistent(Next(w, step).db)
  {
    match step
    case Activate(call, t, node, l) => AcceptKeepsFlags(w, call, t, Generated(w.db, t, node).value, l);
    case Wake(call, t) => WakeupKeepsFlags(w, call, t);
    case _ =>
  }

  lemma {:induction false} FlagsInRuns(worlds: seq<World>, steps: seq<Step>, k: nat)
    requires IsRun(worlds, steps) && k <= |steps|
    ensures FlagsConsistent(worlds[k].db)
  {
    if k > 0 {
      FlagsInRuns(worlds, steps, k - 1);
      FlagsStep(worlds[k - 1], steps[k - 1]);
    }
  }

  // A flagged profile names the flagged node ------------------------------------------------------------------------

  ghost predicate Paired(db: Db) {
    forall i, j :: i in db.nodes && j in db.profiles && db.nodes[i].active && db.profiles[j].active ==>
      db.profiles[j].nodeTag == Some(db.nodes[i].tag)
  }

  /** The profile to be flagged, if any, names the node to be flagged. */
  predicate Matched(db: Db, t: Target)
    requires Exists(db, t)
  {
    t.profile.Some? ==> db.profiles[t.profile.value].nodeTag == Some(db.nodes[t.node].tag)
  }

  /** The commit after a deploy keeps the pair exactly when the rows it flags match. */
  lemma CommitPairsExactly(db: Db, t: Target, tag: string, r: DeployResult<Config>)
    requires Paired(db)
    ensures Paired(Commit(db, t, tag, r)) <==> (r.success && Exists(db, t) ==> Matched(db, t))
  {
    var db' := Commit(db, t, tag, r);
    if r.success && Exists(db, t) {
      assert t.node in db'.nodes && db'.nodes[t.node].active;
      if t.profile.Some? { assert db'.profiles[t.profile.value].active; }
    }
  }

  /** A row added under a key that a deploy in flight is to flag, because the row it was accepted for has been deleted
      meanwhile, matches the other row to be flagged. Keys of deleted rows are handed out again. */
  predicate ReusesKeysWell(w: World, step: Step) {
    match step
    case AddNode(id, row) =>
      forall c :: c in w.sleeping && w.sleeping[c].target.node == id && w.sleeping[c].target.profile.Some?
                  && w.sleeping[c].target.profile.value in w.db.profiles ==>
        w.db.profiles[w.sleeping[c].target.profile.value].nodeTag == Some(row.tag)
    case AddProfile(id, nodeTag, _, _) =>
      forall c :: c in w.sleeping && w.sleeping[c].target.profile == Some(id)
                  && w.sleeping[c].target.node in w.db.nodes ==>
        nodeTag == Some(w.db.nodes[w.sleeping[c].target.node].tag)
    case _ => true
  }

  ghost predicate PairSound(w: World) {
    && Exclusive(w) && Paired(w.db)
    && forall c :: c in w.sleeping && Exists(w.db, w.sleeping[c].target) ==> Matched(w.db, w.sleeping[c].target)
  }

  lemma AcceptKeepsPair(w: World, call: nat, t: Target, cfg: Config, l: Launch)
    requires PairSound(w) && Exists(w.db, t) && Matched(w.db, t)
    ensures Paired(Accept(w, call, t, cfg, l).db)
  {
    CommitPairsExactly(w.db, t, TagOf(cfg), LockedOut());
    var p := Begin(w.machine, cfg, TagOf(cfg), true, l);
    if p.Finished? { CommitPairsExactly(w.db, t, TagOf(cfg), p.result); }
  }

  lemma WakeupKeepsPair(w: World, call: nat, t: Tick)
    requires PairSound(w) && call in w.sleeping
    ensures Paired(Wakeup(w, call, t).db)
  {
    var s := w.sleeping[call];
    var p := Resume(Asleep(w.machine, s.backup, s.slept), s.cfg, TagOf(s.cfg), t);
    if p.Finished? { CommitPairsExactly(w.db, s.target, TagOf(s.cfg), p.result); }
  }

  lemma PairStep(w: World, step: Step)
    requires PairSound(w) && Enabled(w, step) && ReusesKeysWell(w, step)
    ensures PairSound(Next(w, step))
  {
    ExclusiveStep(w, step);
    match step
    case Activate(call, t, node, l) => AcceptKeepsPair(w, call, t, Generated(w.db, t, node).value, l);
    case Wake(call, t) => WakeupKeepsPair(w, call, t);
    case _ =>
  }

  lemma {:induction false} PairInRuns(worlds: seq<World>, steps: seq<Step>, k: nat)
    requires IsRun(worlds, steps) && k <= |steps|
    requires forall i :: 0 <= i < k ==> ReusesKeysWell(worlds[i], steps[i])
    ensures PairSound(worlds[k])
  {
    if k > 0 {
      PairInRuns(worlds, steps, k - 1);
      PairStep(worlds[k - 1], steps[k - 1]);
    }
  }

  /** In every run, with any interleaving of deploys, deletes, restores and saves, the flags are consistent; and a flagged
      profile names the flagged node, provided the key of a row deleted under a deploy in flight goes to none but a
      matching row before that deploy ends. */
  lemma FlagsAlwaysConsistent(worlds: seq<World>, steps: seq<Step>, k: nat)
    requires IsRun(worlds, steps) && k <= |steps|
    ensures FlagsConsistent(worlds[k].db)
    ensures (forall i :: 0 <= i < k ==> ReusesKeysWell(worlds[i], steps[i])) ==> Paired(worlds[k].db)
  {
    FlagsInRuns(worlds, steps, k);
    if forall i :: 0 <= i < k ==> ReusesKeysWell(worlds[i], steps[i]) {
      PairInRuns(worlds, steps, k);
    }
  }

  /** The condition is exact: when the deploy in flight ends after a request, whenever it does, the pair is kept exactly if
      it fails or the request reused no key badly. */
  lemma KeyReuseExactly(w: World, c: nat, step: Step, ticks: seq<Tick>)
    requires PairSound(w) && c in w.sleeping && |ticks| == WakeupsLeft(w.sleeping[c])
    requires Enabled(w, step) && !step.Activate? && !step.Wake?
    ensures var w2 := WokenUntilDone(Next(w, step), c, ticks);
            && w2.sleeping == map[] && c in w2.answers && (w2.answers[c].success <==> SeenActive(ticks))
            && (Paired(w2.db) <==> (w2.answers[c].success ==> ReusesKeysWell(w, step)))
  {
    var w1 := Next(w, step);
    var s := w.sleeping[c];
    ExclusiveStep(w, step);
    assert w1.sleeping == w.sleeping && Paired(w1.db);
    EndOfPoll(w1, c, ticks);
    CommitPairsExactly(w1.db, s.target, TagOf(s.cfg), WokenUntilDone(w1, c, ticks).answers[c]);
    KeyReuseMatches(w, c, step);
  }

  lemma KeyReuseMatches(w: World, c: nat, step: Step)
    requires PairSound(w) && c in w.sleeping && Enabled(w, step) && !step.Activate? && !step.Wake?
    ensures var db' := Next(w, step).db;
            ReusesKeysWell(w, step) <==> (Exists(db', w.sleeping[c].target) ==> Matched(db', w.sleeping[c].target))
  {
  }

  /** A node deleted while a profile is being activated on it, and another node added under its key: if the deploy
      succeeds, the new node and a profile that names the old one end up flagged. */
  lemma ReusedKeyBreaksPair(w: World, c: nat, row: NodeRow, ticks: seq<Tick>)
    requires PairSound(w) && c in w.sleeping && |ticks| == WakeupsLeft(w.sleeping[c]) && SeenActive(ticks)
    requires Exists(w.db, w.sleeping[c].target) && w.sleeping[c].target.profile.Some?
    requires !row.active && forall i :: i in w.db.nodes ==> w.db.nodes[i].tag != row.tag
    ensures var id := w.sleeping[c].target.node;
            var w1 := Next(w, DeleteNode(id));
            && Enabled(w1, AddNode(id, row))
            && !Paired(WokenUntilDone(Next(w1, AddNode(id, row)), c, ticks).db)
  {
    var id := w.sleeping[c].target.node;
    var w1 := Next(w, DeleteNode(id));
    PairStep(w, DeleteNode(id));
    KeyReuseExactly(w1, c, AddNode(id, row), ticks);
  }

  // Active means deployed -------------------------------------------------------------------------------------------

  function LastSuccess(log: seq<LogRow>): Option<LogRow> {
    if log == [] then None
    else if log[|log| - 1].result.success then Some(log[|log| - 1])
    else LastSuccess(log[..|log| - 1])
  }

  /** A deploy that failed after the install and could not be undone. */
  predicate LeftBehind(r: DeployResult<Config>) {
    r.stage in {Restart, Health} && !r.rolledBack
  }

  /** No row after the last success reports such a deploy. */
  predicate Clean(log: seq<LogRow>) {
    log != [] ==>
      || log[|log| - 1].result.success
      || (!LeftBehind(log[|log| - 1].result) && Clean(log[..|log| - 1]))
  }

  /**
   If a node is flagged, the last successful deploy was for it, with the presets of the flagged profile
   if there is one, and `content` is its configuration unless a later row reports a deploy left behind.
   */
  ghost predicate Agrees(db: Db, content: Option<Helper.File<Config>>) {
    forall i :: i in db.nodes && db.nodes[i].active ==> AgreesFor(db, db.nodes[i].tag, content)
  }

  ghost predicate AgreesFor(db: Db, tag: string, content: Option<Helper.File<Config>>) {
    var last := LastSuccess(db.log);
    && last.Some? && last.value.nodeTag == tag && last.value.result.hash.Some?
    && var cfg := last.value.result.hash.value;
    && TagOf(cfg) == tag && IsGenerated(cfg)
    && (Clean(db.log) ==> content == Some(Helper.Json(cfg)))
    && (forall j :: j in db.profiles && db.profiles[j].active ==>
          db.profiles[j].nodeTag == Some(tag) && MadeFor(cfg, tag, db.profiles[j].dns, db.profiles[j].route))
  }

  predicate NothingFlagged(db: Db) {
    forall i :: i in db.nodes ==> !db.nodes[i].active
  }

  /** Where `expected` agrees, `content` agrees too: nobody looks, the log warns, or it is the same. */
  predicate Indifferent(db: Db, content: Option<Helper.File<Config>>, expected: Option<Helper.File<Config>>) {
    NothingFlagged(db) || !Clean(db.log) || content == expected
  }

  lemma AgreesExactly(db: Db, content: Option<Helper.File<Config>>, expected: Option<Helper.File<Config>>)
    requires Agrees(db, expected)
    ensures Agrees(db, content) <==> Indifferent(db, content, expected)
  {
    if !NothingFlagged(db) {
      var i :| i in db.nodes && db.nodes[i].active;
      assert AgreesFor(db, db.nodes[i].tag, expected);
      if Agrees(db, content) { assert AgreesFor(db, db.nodes[i].tag, content); }
    }
    if Indifferent(db, content, expected) {
      forall i | i in db.nodes && db.nodes[i].active ensures AgreesFor(db, db.nodes[i].tag, content) {
        assert AgreesFor(db, db.nodes[i].tag, expected);
      }
    }
  }

  /** Agreement survives when no flag is set anew and the log stays. */
  lemma SameFlagsAgree(db: Db, db': Db, content: Option<Helper.File<Config>>)
    requires Agrees(db, content) && db'.log == db.log
    requires forall i :: i in db'.nodes && db'.nodes[i].active ==>
               i in db.nodes && db.nodes[i].active && db.nodes[i].tag == db'.nodes[i].tag
    requires forall i :: i in db'.profiles && db'.profiles[i].active ==> i in db.profiles && db.profiles[i] == db'.profiles[i]
    ensures Agrees(db', content)
  {
    forall i | i in db'.nodes && db'.nodes[i].active ensures AgreesFor(db', db'.nodes[i].tag, content) {
      assert AgreesFor(db, db.nodes[i].tag, content);
    }
  }

  lemma LogAfterRow(log: seq<LogRow>, row: LogRow)
    ensures LastSuccess(log + [row]) == if row.result.success then Some(row) else LastSuccess(log)
    ensures Clean(log + [row]) <==> row.result.success || (!LeftBehind(row.result) && Clean(log))
  {
    assert (log + [row])[..|log|] == log;
  }

  /** The rows to be flagged fit the configuration. */
  ghost predicate Ready(db: Db, t: Target, cfg: Config)
    requires Exists(db, t)
  {
    && db.nodes[t.node].tag == TagOf(cfg)
    && (t.profile.Some? ==> var p := db.profiles[t.profile.value];
          p.nodeTag == Some(TagOf(cfg)) && MadeFor(cfg, TagOf(cfg), p.dns, p.route))
  }

  /** A success flags what it deployed: the commit agrees exactly when the rows fit and the configuration is there. */
  lemma SuccessAgreesExactly(db: Db, t: Target, cfg: Config, backup: Option<string>, content: Option<Helper.File<Config>>)
    requires Exists(db, t) && IsGenerated(cfg)
    ensures Agrees(Commit(db, t, TagOf(cfg), Success(TagOf(cfg), backup, cfg)), content) <==>
            Ready(db, t, cfg) && content == Some(Helper.Json(cfg))
  {
    var r := Success(TagOf(cfg), backup, cfg);
    var row := LogRow(TagOf(cfg), r);
    var db' := Commit(db, t, TagOf(cfg), r);
    LogAfterRow(db.log, row);
    assert db'.log == db.log + [row];
    assert forall i :: i in db'.nodes && db'.nodes[i].active <==> i == t.node;
    assert forall j :: j in db'.profiles && db'.profiles[j].active <==> Some(j) == t.profile;
    assert Agrees(db', content) <==> AgreesFor(db', db'.nodes[t.node].tag, content);
  }

  /** A failure agrees exactly when it is on record as left behind, or what is there now is as good as before. */
  lemma FailureAgreesExactly(db: Db, t: Target, tag: string, r: DeployResult<Config>, content: Option<Helper.File<Config>>,
                             expected: Option<Helper.File<Config>>)
    requires Agrees(db, expected) && !r.success
    ensures Agrees(Commit(db, t, tag, r), content) <==> LeftBehind(r) || Indifferent(db, content, expected)
  {
    var db' := Commit(db, t, tag, r);
    LogAfterRow(db.log, LogRow(r.nodeTag.GetOr(tag), r));
    if LeftBehind(r) || Indifferent(db, content, expected) {
      forall i | i in db'.nodes && db'.nodes[i].active ensures AgreesFor(db', db'.nodes[i].tag, content) {
        assert AgreesFor(db, db.nodes[i].tag, expected);
      }
    } else {
      var i :| i in db.nodes && db.nodes[i].active;
      assert AgreesFor(db, db.nodes[i].tag, expected);
      assert db'.nodes[i].active && !AgreesFor(db', db'.nodes[i].tag, content);
    }
  }

  // The invariant behind it -----------------------------------------------------------------------------------------

  /** Clock readings are real, rollbacks run in a later second than the install, and without a previous
      config the output of `deploy` holds no stray backup name. */
  predicate Punctual(w: World, step: Step) {
    match step
    case Activate(_, _, _, l) => l.at.Valid() && l.undo.at.Valid() && l.at.Before(l.undo.at) && !Misled(w.machine, l)
    case Wake(c, t) => c in w.sleeping ==> t.undo.at.Valid() && w.sleeping[c].since.Before(t.undo.at)
    case _ => true
  }

  /** The content that a rollback of the deploy in flight would put back. */
  ghost function Previous(w: World, s: Sleeper): Option<Helper.File<Config>> {
    match s.backup
    case None => None
    case Some(name) => if name in w.machine.backups then Some(w.machine.backups[name]) else None
  }

  /** A success would end well: the rows to be flagged fit what is on disk, or are gone, and what is on disk agrees
      without them. */
  ghost predicate CanSucceed(db: Db, t: Target, cfg: Config, content: Option<Helper.File<Config>>) {
    if Exists(db, t) then Ready(db, t, cfg) && content == Some(Helper.Json(cfg)) else Agrees(db, content)
  }

  /** A deploy in flight can end well either way: what a rollback would put back agrees, too. */
  ghost predicate SleeperSound(w: World, s: Sleeper) {
    && s.since.Valid() && IsGenerated(s.cfg)
    && (s.backup.Some? ==> s.backup.value == BackupName(s.since) && s.backup.value in w.machine.backups)
    && Agrees(w.db, Previous(w, s))
    && CanSucceed(w.db, s.target, s.cfg, w.machine.config)
  }

  ghost predicate Sound(w: World) {
    && Exclusive(w)
    && (w.sleeping == map[] ==> Agrees(w.db, w.machine.config))
    && (forall c :: c in w.sleeping ==> SleeperSound(w, w.sleeping[c]))
  }

  /** The end of an accepted call keeps the agreement: a failure puts back what was there or is on record,
      a success flags what it deployed. */
  lemma CommitAgrees(db: Db, t: Target, cfg: Config, at: Stamp, undo: Undo, before: Helper.Machine<Config>,
                     after: Helper.Machine<Config>, r: DeployResult<Config>)
    requires Agrees(db, before.config) && Exists(db, t) && Ready(db, t, cfg) && IsGenerated(cfg) && at != undo.at
    requires Honours(before, cfg, TagOf(cfg), at, undo, after, r)
    requires r.success ==> r == Success(TagOf(cfg), r.backupName, cfg)
    ensures Agrees(Commit(db, t, TagOf(cfg), r), after.config)
  {
    if r.success {
      SuccessAgreesExactly(db, t, cfg, r.backupName, after.config);
    } else {
      FailureAgreesExactly(db, t, TagOf(cfg), r, after.config, before.config);
    }
  }

  lemma TurnedAwayAgrees(db: Db, t: Target, tag: string, content: Option<Helper.File<Config>>)
    requires Agrees(db, content)
    ensures Agrees(Commit(db, t, tag, LockedOut()), content)
  {
    FailureAgreesExactly(db, t, tag, LockedOut(), content, content);
  }

  lemma TurnedAwayKeepsSound(w: World, call: nat, t: Target, cfg: Config, l: Launch)
    requires Sound(w) && w.lock.held
    ensures Sound(Accept(w, call, t, cfg, l))
  {
    var w' := Accept(w, call, t, cfg, l);
    forall c | c in w'.sleeping ensures SleeperSound(w', w'.sleeping[c]) {
      var s := w.sleeping[c];
      assert SleeperSound(w, s) && Previous(w', s) == Previous(w, s);
      TurnedAwayAgrees(w.db, t, TagOf(cfg), Previous(w, s));
      if !Exists(w.db, s.target) { TurnedAwayAgrees(w.db, t, TagOf(cfg), w.machine.config); }
    }
  }

  lemma AcceptedKeepsSound(w: World, call: nat, t: Target, cfg: Config, l: Launch)
    requires Sound(w) && !w.lock.held && Exists(w.db, t) && Ready(w.db, t, cfg) && IsGenerated(cfg)
    requires l.at.Valid() && l.undo.at.Valid() && l.at.Before(l.undo.at) && !Misled(w.machine, l)
    requires Exclusive(Accept(w, call, t, cfg, l))
    ensures Sound(Accept(w, call, t, cfg, l))
  {
    var w' := Accept(w, call, t, cfg, l);
    BeginContract(w.machine, cfg, TagOf(cfg), true, l);
    var p := Begin(w.machine, cfg, TagOf(cfg), true, l);
    if p.Finished? {
      CommitAgrees(w.db, t, cfg, l.at, l.undo, w.machine, p.machine, p.result);
    } else {
      assert Previous(w', w'.sleeping[call]) == w.machine.config;
    }
  }

  lemma AcceptKeepsSound(w: World, step: Step)
    requires Sound(w) && step.Activate? && Enabled(w, step) && Punctual(w, step)
    ensures Sound(Next(w, step))
  {
    ExclusiveStep(w, step);
    var cfg := Generated(w.db, step.target, step.node).value;
    GeneratedMadeFor(w.db, step.target, step.node);
    if w.lock.held {
      TurnedAwayKeepsSound(w, step.call, step.target, cfg, step.launch);
    } else {
      AcceptedKeepsSound(w, step.call, step.target, cfg, step.launch);
    }
  }

  /** How the deploy in flight ends at this wake-up. */
  lemma EndOfCall(w: World, c: nat, t: Tick)
    requires Exclusive(w) && c in w.sleeping && (t.active || w.sleeping[c].slept >= ATTEMPTS)
    ensures var s := w.sleeping[c];
            var w' := Wakeup(w, c, t);
            && Exclusive(w') && w'.sleeping == map[] && c in w'.answers
            && w'.db == Commit(w.db, s.target, TagOf(s.cfg), w'.answers[c])
            && if s.slept < ATTEMPTS then w'.machine == w.machine && w'.answers[c] == Success(TagOf(s.cfg), s.backup, s.cfg)
               else
                 var (d, undone) := Rollback(w.machine, s.backup, t.undo);
                 w'.machine == d && w'.answers[c] == Failure(Health, undone, s.backup, s.cfg)
  {
    ExclusiveStep(w, Wake(c, t));
  }

  /** A rollback in a later second puts the backup back, or leaves the config and is on record as left behind. */
  lemma RollbackPutsBack(w: World, s: Sleeper, undo: Undo)
    requires s.since.Valid() && undo.at.Valid() && s.since.Before(undo.at)
    requires s.backup.Some? ==> s.backup.value == BackupName(s.since)
    ensures var (d, undone) := Rollback(w.machine, s.backup, undo);
            if undone then d.config == Previous(w, s) && d.config.Some? else d.config == w.machine.config
  {
    NameOrder(s.since, undo.at);
  }

  /** A wake-up keeps the invariant; when it ends the call, the agreement is restored. */
  lemma WakeKeepsSound(w: World, step: Step)
    requires Sound(w) && step.Wake? && Enabled(w, step) && Punctual(w, step)
    ensures Sound(Next(w, step))
  {
    var w' := Next(w, step);
    var s := w.sleeping[step.call];
    ExclusiveStep(w, step);
    assert SleeperSound(w, s);
    if step.tick.active || s.slept >= ATTEMPTS {
      EndOfCall(w, step.call, step.tick);
      RollbackPutsBack(w, s, step.tick.undo);
      if s.slept >= ATTEMPTS {
        FailureAgreesExactly(w.db, s.target, TagOf(s.cfg), w'.answers[step.call], w'.machine.config, Previous(w, s));
      } else if Exists(w.db, s.target) {
        SuccessAgreesExactly(w.db, s.target, s.cfg, s.backup, w'.machine.config);
      }
    } else {
      assert Previous(w', w'.sleeping[step.call]) == Previous(w, s);
    }
  }

  // Requests while a deploy is in flight ----------------------------------------------------------------------------

  /**
   Whether the agreement survives a request made while deploy `s` is in flight, given how that ends. A successful
   restore does harm when it changes the config of a deploy that then succeeds. A failed one does when its own backup
   has overwritten the one that is then put back. Deleting a row does when the deploy then succeeds without a row to
   flag, and a row added under the key of a deleted one when it is flagged without fitting what is on disk.
   */
  ghost predicate Survives(w: World, s: Sleeper, step: Step, success: bool, rolledBack: bool) {
    match step
    case RestoreBackup(name, at, fault, _) =>
      if Helper.Restore(w.machine, name, at, fault).1 then
        success && Exists(w.db, s.target) ==>
          Some(w.machine.backups[name]) == w.machine.config || Helper.HitsItself(w.machine, name, at)
      else
        rolledBack && OverwritesFallback(w, s, step) ==> Indifferent(w.db, w.machine.config, Previous(w, s))
    case AddNode(id, row) =>
      success && id == s.target.node && Exists(AddedNode(w.db, id, row), s.target) ==>
        Ready(AddedNode(w.db, id, row), s.target, s.cfg) && w.machine.config == Some(Helper.Json(s.cfg))
    case AddProfile(id, nodeTag, dns, route) =>
      success && s.target.profile == Some(id) && s.target.node in w.db.nodes ==>
        && w.db.nodes[s.target.node].tag == TagOf(s.cfg) && nodeTag == Some(TagOf(s.cfg))
        && MadeFor(s.cfg, TagOf(s.cfg), dns, route) && w.machine.config == Some(Helper.Json(s.cfg))
    case DeleteNode(id) =>
      success && id == s.target.node ==>
        Indifferent(w.db.(nodes := w.db.nodes - {id}), w.machine.config, Previous(w, s))
    case DeleteProfile(id) =>
      success && s.target.profile == Some(id) ==> Indifferent(w.db, w.machine.config, Previous(w, s))
    case _ => true
  }

  function AddedNode(db: Db, id: nat, row: NodeRow): Db {
    db.(nodes := db.nodes[id := row])
  }

  /** A restore that gets as far as its pre-restore backup, in the second of the deploy in flight. */
  predicate OverwritesFallback(w: World, s: Sleeper, step: Step)
    requires step.RestoreBackup?
  {
    && Helper.TakesBackup(w.machine, Helper.RestoreOp(step.name, step.at, step.fault))
    && s.backup == Some(BackupName(step.at))
  }

  /** The agreement survives the request whatever the deploy in flight ends in. */
  ghost predicate Harmless(w: World, step: Step) {
    forall c :: c in w.sleeping ==>
      Survives(w, w.sleeping[c], step, true, false) && Survives(w, w.sleeping[c], step, false, true)
  }

  /** A successful restore: the flags are gone, so only a success that sets them again can disagree. */
  lemma RestoredInFlight(w: World, s: Sleeper, step: Step, w1: World)
    requires SleeperSound(w, s) && step.RestoreBackup? && w1 == Next(w, step)
    requires Helper.Restore(w.machine, step.name, step.at, step.fault).1
    ensures NothingFlagged(w1.db)
    ensures s.backup.Some? ==> s.backup.value in w1.machine.backups
    ensures Exists(w1.db, s.target) == Exists(w.db, s.target)
    ensures Exists(w.db, s.target) ==> Ready(w1.db, s.target, s.cfg)
    ensures Exists(w.db, s.target) ==>
              (w1.machine.config == Some(Helper.Json(s.cfg)) <==> Survives(w, s, step, true, false))
  {
    Helper.RestoreContract(w.machine, step.name, step.at, step.fault);
  }

  /** A failed restore changes at most the backup that the deploy in flight would put back. */
  lemma FailedRestoreInFlight(w: World, s: Sleeper, step: Step, w1: World)
    requires SleeperSound(w, s) && step.RestoreBackup? && w1 == Next(w, step)
    requires !Helper.Restore(w.machine, step.name, step.at, step.fault).1
    ensures w1.db == w.db && w1.machine.config == w.machine.config
    ensures s.backup.Some? ==> s.backup.value in w1.machine.backups
    ensures Previous(w1, s) == if OverwritesFallback(w, s, step) then w.machine.config else Previous(w, s)
  {
  }

  /** A request other than a restore touches neither files nor log, and sets no flag. */
  lemma OtherKeepsAgreement(w: World, step: Step, w1: World, content: Option<Helper.File<Config>>)
    requires Enabled(w, step) && !step.RestoreBackup? && !step.Activate? && !step.Wake? && w1 == Next(w, step)
    ensures w1.machine.config == w.machine.config && w1.machine.backups == w.machine.backups
    ensures Agrees(w.db, content) ==> Agrees(w1.db, content)
  {
    if Agrees(w.db, content) { SameFlagsAgree(w.db, w1.db, content); }
  }

  lemma NodeGone(db: Db, id: nat, t: Target, cfg: Config, content: Option<Helper.File<Config>>,
                 expected: Option<Helper.File<Config>>)
    requires CanSucceed(db, t, cfg, content)
    requires var db' := db.(nodes := db.nodes - {id});
             Agrees(db', expected) && (Agrees(db, content) ==> Agrees(db', content))
    ensures var db' := db.(nodes := db.nodes - {id});
            CanSucceed(db', t, cfg, content) <==> (id == t.node ==> Indifferent(db', content, expected))
  {
    AgreesExactly(db.(nodes := db.nodes - {id}), content, expected);
  }

  lemma ProfileGone(db: Db, id: nat, t: Target, cfg: Config, content: Option<Helper.File<Config>>,
                    expected: Option<Helper.File<Config>>)
    requires CanSucceed(db, t, cfg, content)
    requires var db' := db.(profiles := db.profiles - {id});
             Agrees(db', expected) && (Agrees(db, content) ==> Agrees(db', content))
    ensures var db' := db.(profiles := db.profiles - {id});
            CanSucceed(db', t, cfg, content) <==> (t.profile == Some(id) ==> Indifferent(db, content, expected))
  {
    AgreesExactly(db.(profiles := db.profiles - {id}), content, expected);
  }

  lemma RowAddedInFlight(w: World, s: Sleeper, step: Step, w1: World)
    requires SleeperSound(w, s) && Enabled(w, step) && (step.AddNode? || step.AddProfile?) && w1 == Next(w, step)
    requires w1.machine == w.machine
    requires Agrees(w.db, w.machine.config) ==> Agrees(w1.db, w.machine.config)
    ensures CanSucceed(w1.db, s.target, s.cfg, w1.machine.config) <==> Survives(w, s, step, true, false)
  {
  }

  /** Any other request: what the deploy in flight would put back still agrees. */
  lemma OtherInFlight(w: World, s: Sleeper, step: Step, w1: World)
    requires SleeperSound(w, s) && Enabled(w, step) && w1 == Next(w, step)
    requires !step.RestoreBackup? && !step.Activate? && !step.Wake?
    ensures w1.machine.config == w.machine.config && w1.machine.backups == w.machine.backups
    ensures Agrees(w1.db, Previous(w, s))
    ensures CanSucceed(w1.db, s.target, s.cfg, w1.machine.config) <==> Survives(w, s, step, true, false)
  {
    OtherKeepsAgreement(w, step, w1, Previous(w, s));
    OtherKeepsAgreement(w, step, w1, w.machine.config);
    if step.DeleteNode? {
      NodeGone(w.db, step.id, s.target, s.cfg, w.machine.config, Previous(w, s));
    } else if step.DeleteProfile? {
      ProfileGone(w.db, step.id, s.target, s.cfg, w.machine.config, Previous(w, s));
    } else if step.AddNode? || step.AddProfile? {
      RowAddedInFlight(w, s, step, w1);
    }
  }

  /** Every other request keeps the invariant, in flight if it is harmless. */
  lemma OtherKeepsSound(w: World, step: Step)
    requires Sound(w) && !step.Activate? && !step.Wake? && Enabled(w, step) && Harmless(w, step)
    ensures Sound(Next(w, step))
  {
    var w' := Next(w, step);
    ExclusiveStep(w, step);
    if w.sleeping == map[] {
      if step.RestoreBackup? {
        if !Helper.Restore(w.machine, step.name, step.at, step.fault).1 {
          Helper.FailedRestoreKeepsConfig(w.machine, step.name, step.at, step.fault);
        }
      } else {
        SameFlagsAgree(w.db, w'.db, w.machine.config);
      }
    }
    forall c | c in w.sleeping ensures SleeperSound(w', w.sleeping[c]) {
      InFlightKeepsSound(w, c, step);
    }
  }

  lemma InFlightKeepsSound(w: World, c: nat, step: Step)
    requires Sound(w) && c in w.sleeping && !step.Activate? && !step.Wake? && Enabled(w, step)
    requires Survives(w, w.sleeping[c], step, true, false) && Survives(w, w.sleeping[c], step, false, true)
    ensures SleeperSound(Next(w, step), w.sleeping[c])
  {
    var s := w.sleeping[c];
    var w' := Next(w, step);
    if !step.RestoreBackup? {
      OtherInFlight(w, s, step, w');
    } else if Helper.Restore(w.machine, step.name, step.at, step.fault).1 {
      RestoredInFlight(w, s, step, w');
    } else {
      FailedRestoreInFlight(w, s, step, w');
      AgreesExactly(w.db, w.machine.config, Previous(w, s));
    }
  }

  /** The rollback that may end the poll runs in a later second than the install. */
  predicate UndoneLater(s: Sleeper, ticks: seq<Tick>)
    requires ticks != []
  {
    var undo := ticks[|ticks| - 1].undo;
    undo.at.Valid() && s.since.Before(undo.at)
  }

  /**
   The conditions are exact: after the request and all wake-ups that the deploy in flight still has before it, flags, log
   and disk agree exactly if the agreement survives the request under the way the deploy has ended.
   */
  lemma InFlightExactly(w: World, c: nat, step: Step, ticks: seq<Tick>)
    requires Sound(w) && c in w.sleeping && |ticks| == WakeupsLeft(w.sleeping[c]) && UndoneLater(w.sleeping[c], ticks)
    requires Enabled(w, step) && !step.Activate? && !step.Wake?
    ensures var w2 := WokenUntilDone(Next(w, step), c, ticks);
            && w2.sleeping == map[] && c in w2.answers
            && var r := w2.answers[c];
               && (r.success <==> SeenActive(ticks))
               && (Agrees(w2.db, w2.machine.config) <==> Survives(w, w.sleeping[c], step, r.success, r.rolledBack))
  {
    var w1 := Next(w, step);
    var s := w.sleeping[c];
    ExclusiveStep(w, step);
    EndOfPoll(w1, c, ticks);
    if SeenActive(ticks) {
      SuccessInFlightExactly(w, s, step, w1);
    } else {
      FailureInFlightExactly(w, s, step, w1, ticks[|ticks| - 1].undo);
    }
  }

  lemma SuccessInFlightExactly(w: World, s: Sleeper, step: Step, w1: World)
    requires Sound(w) && SleeperSound(w, s)
    requires Enabled(w, step) && !step.Activate? && !step.Wake? && w1 == Next(w, step)
    ensures Agrees(Commit(w1.db, s.target, TagOf(s.cfg), Success(TagOf(s.cfg), s.backup, s.cfg)), w1.machine.config)
            <==> Survives(w, s, step, true, false)
  {
    if Exists(w1.db, s.target) { SuccessAgreesExactly(w1.db, s.target, s.cfg, s.backup, w1.machine.config); }
    if !step.RestoreBackup? {
      OtherInFlight(w, s, step, w1);
    } else if Helper.Restore(w.machine, step.name, step.at, step.fault).1 {
      RestoredInFlight(w, s, step, w1);
    } else {
      FailedRestoreInFlight(w, s, step, w1);
    }
  }

  lemma FailureInFlightExactly(w: World, s: Sleeper, step: Step, w1: World, undo: Undo)
    requires Sound(w) && SleeperSound(w, s) && undo.at.Valid() && s.since.Before(undo.at)
    requires Enabled(w, step) && !step.Activate? && !step.Wake? && w1 == Next(w, step)
    ensures var (d, undone) := Rollback(w1.machine, s.backup, undo);
            Agrees(Commit(w1.db, s.target, TagOf(s.cfg), Failure(Health, undone, s.backup, s.cfg)), d.config)
            <==> Survives(w, s, step, false, undone)
  {
    var (d, undone) := Rollback(w1.machine, s.backup, undo);
    var r := Failure(Health, undone, s.backup, s.cfg);
    RollbackPutsBack(w1, s, undo);
    if !step.RestoreBackup? {
      OtherInFlight(w, s, step, w1);
      FailureAgreesExactly(w1.db, s.target, TagOf(s.cfg), r, d.config, Previous(w1, s));
    } else if Helper.Restore(w.machine, step.name, step.at, step.fault).1 {
      RestoredInFlight(w, s, step, w1);
      FailureAgreesExactly(w1.db, s.target, TagOf(s.cfg), r, d.config, d.config);
    } else {
      FailedRestoreInFlight(w, s, step, w1);
      FailureAgreesExactly(w1.db, s.target, TagOf(s.cfg), r, d.config, Previous(w, s));
    }
  }

  // Whole runs ------------------------------------------------------------------------------------------------------

  lemma {:induction false} SoundInRuns(worlds: seq<World>, steps: seq<Step>, k: nat)
    requires IsRun(worlds, steps) && k <= |steps|
    requires forall i :: 0 <= i < k ==> Harmless(worlds[i], steps[i]) && Punctual(worlds[i], steps[i])
    ensures Sound(worlds[k])
  {
    if k > 0 {
      SoundInRuns(worlds, steps, k - 1);
      if steps[k - 1].Activate? { AcceptKeepsSound(worlds[k - 1], steps[k - 1]); }
      else if steps[k - 1].Wake? { WakeKeepsSound(worlds[k - 1], steps[k - 1]); }
      else { OtherKeepsSound(worlds[k - 1], steps[k - 1]); }
    }
  }

  /**
   In every reachable state with no deploy in flight, a flagged node is the one whose configuration the last
   successful deploy put on disk, and it is still there unless a later deploy is on record as left behind.
   While a deploy is in flight, the backup it would fall back to agrees, and its configuration is on disk as
   long as the rows it was accepted for are there.
   */
  lemma ActiveMeansDeployed(worlds: seq<World>, steps: seq<Step>, k: nat)
    requires IsRun(worlds, steps) && k <= |steps|
    requires forall i :: 0 <= i < k ==> Harmless(worlds[i], steps[i]) && Punctual(worlds[i], steps[i])
    ensures worlds[k].sleeping == map[] ==> Agrees(worlds[k].db, worlds[k].machine.config)
    ensures forall c :: c in worlds[k].sleeping ==>
              var s := worlds[k].sleeping[c];
              && Agrees(worlds[k].db, Previous(worlds[k], s))
              && (Exists(worlds[k].db, s.target) ==> worlds[k].machine.config == Some(Helper.Json(s.cfg)))
  {
    SoundInRuns(worlds, steps, k);
    forall c | c in worlds[k].sleeping ensures SleeperSound(worlds[k], worlds[k].sleeping[c]) {}
  }

  // Where a configuration comes from ----------------------------------------------------------------------------------

  /** The configuration is on record in the log, or being deployed. */
  ghost predicate OnRecord(w: World, cfg: Config) {
    || (exists i :: 0 <= i < |w.db.log| && w.db.log[i].result.hash == Some(cfg))
    || (exists c :: c in w.sleeping && w.sleeping[c].cfg == cfg)
  }

  lemma AcceptRecords(w: World, call: nat, t: Target, cfg: Config, l: Launch, other: Config)
    requires OnRecord(Accept(w, call, t, cfg, l), other)
    ensures OnRecord(w, other) || other == cfg
  {
    var w' := Accept(w, call, t, cfg, l);
    var p := Begin(w.machine, cfg, TagOf(cfg), true, l);
    assert p.Finished? ==> p.result.hash == Some(cfg);
    if i :| 0 <= i < |w'.db.log| && w'.db.log[i].result.hash == Some(other) {
      if i < |w.db.log| { assert w.db.log[i] == w'.db.log[i]; }
    } else {
      var c :| c in w'.sleeping && w'.sleeping[c].cfg == other;
    }
  }

  lemma WakeupRecords(w: World, call: nat, t: Tick, other: Config)
    requires call in w.sleeping && OnRecord(Wakeup(w, call, t), other)
    ensures OnRecord(w, other)
  {
    var w', s := Wakeup(w, call, t), w.sleeping[call];
    var p := Resume(Asleep(w.machine, s.backup, s.slept), s.cfg, TagOf(s.cfg), t);
    assert p.Finished? ==> p.result.hash == Some(s.cfg);
    if i :| 0 <= i < |w'.db.log| && w'.db.log[i].result.hash == Some(other) {
      if i < |w.db.log| { assert w.db.log[i] == w'.db.log[i]; }
    } else {
      var c :| c in w'.sleeping && w'.sleeping[c].cfg == other;
      assert w.sleeping[c].cfg == other;
    }
  }

  lemma StepRecords(w: World, step: Step, other: Config)
    requires Enabled(w, step) && OnRecord(Next(w, step), other)
    ensures OnRecord(w, other) || (step.Activate? && Generated(w.db, step.target, step.node) == Ok(other))
  {
    match step
    case Activate(call, t, node, l) => AcceptRecords(w, call, t, Generated(w.db, t, node).value, l, other);
    case Wake(call, t) => WakeupRecords(w, call, t, other);
    case _ => assert Next(w, step).db.log == w.db.log && Next(w, step).sleeping == w.sleeping;
  }

  /** Every configuration on record was generated for an activation of the run, from what was stored then. */
  lemma {:induction false} OriginOf(worlds: seq<World>, steps: seq<Step>, k: nat, cfg: Config) returns (j: nat)
    requires IsRun(worlds, steps) && k <= |steps| && OnRecord(worlds[k], cfg)
    ensures j < k && steps[j].Activate? && Exists(worlds[j].db, steps[j].target)
    ensures Generated(worlds[j].db, steps[j].target, steps[j].node) == Ok(cfg)
  {
    if k == 0 {
      assert false;
    } else {
      StepRecords(worlds[k - 1], steps[k - 1], cfg);
      if OnRecord(worlds[k - 1], cfg) {
        j := OriginOf(worlds, steps, k - 1, cfg);
      } else {
        j := k - 1;
      }
    }
  }

  lemma {:induction false} LastSuccessIsOnRecord(w: World, log: seq<LogRow>)
    requires log <= w.db.log && LastSuccess(log).Some? && LastSuccess(log).value.result.hash.Some?
    ensures OnRecord(w, LastSuccess(log).value.result.hash.value)
  {
    if log[|log| - 1].result.success {
      assert w.db.log[|log| - 1] == log[|log| - 1];
    } else {
      LastSuccessIsOnRecord(w, log[..|log| - 1]);
    }
  }

  /**
   What that means for traffic: with no deploy in flight and none left behind, the configuration on disk names only
   outbounds it has, and is the one generated when activation `j` of the run was accepted: it dials the flagged node, and
   follows the settings and the process list stored at that moment. The presets of the flagged profile are its presets.
   */
  lemma DiskRoutesThroughActive(worlds: seq<World>, steps: seq<Step>, k: nat, i: nat) returns (j: nat, cfg: Config)
    requires IsRun(worlds, steps) && k <= |steps|
    requires forall m :: 0 <= m < k ==> Harmless(worlds[m], steps[m]) && Punctual(worlds[m], steps[m])
    requires worlds[k].sleeping == map[] && Clean(worlds[k].db.log)
    requires i in worlds[k].db.nodes && worlds[k].db.nodes[i].active
    ensures worlds[k].machine.config == Some(Helper.Json(cfg)) && Generator.Closed(cfg)
    ensures j < k && steps[j].Activate? && Exists(worlds[j].db, steps[j].target)
    ensures FollowsSettings(cfg, worlds[j].db, steps[j].target, steps[j].node)
    ensures steps[j].node.tag == worlds[k].db.nodes[i].tag == TagOf(cfg)
    ensures forall p :: p in worlds[k].db.profiles && worlds[k].db.profiles[p].active ==>
              && worlds[k].db.profiles[p].dns == cfg.dns
              && DecidesBy(cfg, worlds[k].db.profiles[p].route, worlds[j].db.bypass, worlds[k].db.nodes[i].tag)
  {
    var db := worlds[k].db;
    ActiveMeansDeployed(worlds, steps, k);
    assert AgreesFor(db, db.nodes[i].tag, worlds[k].machine.config);
    cfg := LastSuccess(db.log).value.result.hash.value;
    LastSuccessIsOnRecord(worlds[k], db.log);
    j := OriginOf(worlds, steps, k, cfg);
    var past, t, node := worlds[j].db, steps[j].target, steps[j].node;
    GeneratedFollowsSettings(past, t, node);
    GeneratedIsClosed(past, t, node);
    forall p | p in db.profiles && db.profiles[p].active
      ensures db.profiles[p].dns == cfg.dns && DecidesBy(cfg, db.profiles[p].route, past.bypass, node.tag)
    {
      MadeForOnce(cfg, past, t, node, db.profiles[p].dns, db.profiles[p].route);
    }
  }

  // Cases that do harm ----------------------------------------------------------------------------------------------

  /** A restore during a deploy: if it changes the config and the service then comes up, the deploy reports
      success and flags its node, while the disk holds the restored file. */
  lemma RestoreInFlightBreaksAgreement(w: World, c: nat, step: Step, ticks: seq<Tick>)
    requires Sound(w) && c in w.sleeping && Exists(w.db, w.sleeping[c].target)
    requires |ticks| == WakeupsLeft(w.sleeping[c]) && UndoneLater(w.sleeping[c], ticks) && SeenActive(ticks)
    requires step.RestoreBackup? && Helper.Restore(w.machine, step.name, step.at, step.fault).1
    requires Helper.Restore(w.machine, step.name, step.at, step.fault).0.config != w.machine.config
    ensures var w2 := WokenUntilDone(Next(w, step), c, ticks);
            w2.sleeping == map[] && c in w2.answers && w2.answers[c].success && !Agrees(w2.db, w2.machine.config)
  {
    Helper.RestoreContract(w.machine, step.name, step.at, step.fault);
    InFlightExactly(w, c, step, ticks);
  }

  /** The backup that such a restore takes is what the deploy in flight rolls back to. */
  lemma FallbackOverwritten(w: World, s: Sleeper, step: Step, undo: Undo)
    requires SleeperSound(w, s) && Exists(w.db, s.target) && s.backup.Some?
    requires step.RestoreBackup? && Helper.Restorable(w.machine, step.name) && step.at == s.since && step.fault.InstallFails?
    requires undo.fault.NoFault?
    ensures Rollback(Next(w, step).machine, s.backup, undo).1 && OverwritesFallback(w, s, step)
  {
    BackupNameIsName(s.since);
  }

  /** A restore that fails after its own backup, in the first sleep of a deploy and still in the second of its install: the
      backup of the previous config is overwritten, and when the service never comes up, the rollback puts the rejected
      configuration back. */
  lemma FailedRestoreInFlightBreaksAgreement(w: World, c: nat, step: Step, ticks: seq<Tick>)
    requires Sound(w) && c in w.sleeping && Exists(w.db, w.sleeping[c].target) && w.sleeping[c].slept == 1
    requires step.RestoreBackup? && Helper.Restorable(w.machine, step.name) && step.fault.InstallFails?
    requires step.at == w.sleeping[c].since && w.sleeping[c].backup.Some?
    requires !NothingFlagged(w.db) && Clean(w.db.log) && Previous(w, w.sleeping[c]) != w.machine.config
    requires |ticks| == ATTEMPTS && (forall i :: 0 <= i < ATTEMPTS ==> !ticks[i].active)
    requires UndoneLater(w.sleeping[c], ticks) && ticks[ATTEMPTS - 1].undo.fault.NoFault?
    ensures var w2 := WokenUntilDone(Next(w, step), c, ticks);
            w2.sleeping == map[] && c in w2.answers && w2.answers[c].rolledBack && !Agrees(w2.db, w2.machine.config)
  {
    FallbackOverwritten(w, w.sleeping[c], step, ticks[ATTEMPTS - 1].undo);
    ExclusiveStep(w, step);
    EndOfPoll(Next(w, step), c, ticks);
    InFlightExactly(w, c, step, ticks);
  }

  /** A delete of the node or profile being deployed: the success cannot be committed, so the node flagged before stays
      flagged while the disk holds the new configuration. */
  lemma DeleteInFlightBreaksAgreement(w: World, c: nat, step: Step, ticks: seq<Tick>)
    requires Sound(w) && c in w.sleeping && Clean(w.db.log) && Previous(w, w.sleeping[c]) != w.machine.config
    requires || (step == DeleteNode(w.sleeping[c].target.node)
                 && exists i :: i in w.db.nodes && w.db.nodes[i].active && i != w.sleeping[c].target.node)
             || (step.DeleteProfile? && w.sleeping[c].target.profile == Some(step.id) && !NothingFlagged(w.db))
    requires |ticks| == WakeupsLeft(w.sleeping[c]) && UndoneLater(w.sleeping[c], ticks) && SeenActive(ticks)
    ensures var w2 := WokenUntilDone(Next(w, step), c, ticks);
            w2.sleeping == map[] && c in w2.answers && w2.answers[c].success && !Agrees(w2.db, w2.machine.config)
  {
    if step.DeleteNode? {
      var i :| i in w.db.nodes && w.db.nodes[i].active && i != step.id;
      assert i in w.db.nodes - {step.id};
    }
    InFlightExactly(w, c, step, ticks);
  }

  lemma SameSecondEnd(m: Helper.Machine<Config>, cfg: Config, tag: string, l: Launch)
    requires m.config.Some? && m.config.value.Json? && l.valid && l.at.Valid() && l.fault.NoFault?
    requires !l.restartOk && l.undo.at == l.at && l.undo.fault.NoFault?
    ensures var p := Begin(m, cfg, tag, true, l);
            p.Finished? && p.machine.config == Some(Helper.Json(cfg)) && p.result.rolledBack && !p.result.success
  {
    ExtractionRecoversName(l.at, l.noise);
    BackupNameIsName(l.at);
  }

  /** A restart failure rolled back within the second of the install: the log reports the rollback, the flag
      stays, and the disk holds the rejected configuration. */
  lemma SameSecondRollbackBreaksAgreement(w: World, call: nat, t: Target, cfg: Config, l: Launch)
    requires Sound(w) && w.sleeping == map[] && Clean(w.db.log) && !NothingFlagged(w.db)
    requires l.valid && l.at.Valid() && l.fault.NoFault? && !l.restartOk && l.undo.at == l.at && l.undo.fault.NoFault?
    requires w.machine.config != Some(Helper.Json(cfg))
    ensures var w' := Accept(w, call, t, cfg, l);
            w'.answers[call].rolledBack && Clean(w'.db.log) && !Agrees(w'.db, w'.machine.config)
  {
    var w' := Accept(w, call, t, cfg, l);
    var i :| i in w.db.nodes && w.db.nodes[i].active;
    assert AgreesFor(w.db, w.db.nodes[i].tag, w.machine.config);
    SameSecondEnd(w.machine, cfg, TagOf(cfg), l);
    LogAfterRow(w.db.log, LogRow(TagOf(cfg), w'.answers[call]));
    FailureAgreesExactly(w.db, t, TagOf(cfg), w'.answers[call], w'.machine.config, w.machine.config);
  }
}
