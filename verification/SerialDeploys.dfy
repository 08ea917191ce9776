/** Interleaved deploys are as good as deploys run one after another, in the order they were accepted. */
module SerialDeploys {
  import opened Prelude
  import opened Deployer
  import opened DeployWorld
  import opened BackupNames
  import Helper

  /** What reached the machine: an accepted deploy with the wake-ups it has had so far, a manual restore, or a service
      button that had an effect. */
  datatype Item =
    | Deployed(call: nat, cfg: Config, launch: Launch, ticks: seq<Tick>)
    | Manual(name: string, at: Stamp, fault: Helper.Fault, restarted: bool)
    | Pressed(outcome: Helper.Outcome)

  function Record(h: seq<Item>, w: World, step: Step): seq<Item>
    requires Enabled(w, step)
  {
    match step
    case Activate(call, t, node, l) =>
      if w.lock.held || w.lock.waiters != [] then h else h + [Deployed(call, Generated(w.db, t, node).value, l, [])]
    case Wake(_, t) =>
      if h == [] || !h[|h| - 1].Deployed? then h
      else h[..|h| - 1] + [h[|h| - 1].(ticks := h[|h| - 1].ticks + [t])]
    case RestoreBackup(name, at, fault, restarted) => h + [Manual(name, at, fault, restarted)]
    case PressService(outcome) => if outcome.Unchanged? then h else h + [Pressed(outcome)]
    case _ => h
  }

  /** The accepted work of the first `k` steps, in order of acceptance. */
  ghost function History(worlds: seq<World>, steps: seq<Step>, k: nat): seq<Item>
    requires IsRun(worlds, steps) && k <= |steps|
  {
    if k == 0 then [] else Record(History(worlds, steps, k - 1), worlds[k - 1], steps[k - 1])
  }

  /** Restores and service buttons act on the machine without looking at the deploy lock. */
  predicate Interferes(step: Step) {
    step.RestoreBackup? || (step.PressService? && !step.outcome.Unchanged?)
  }

  /** A deploy on its own, from machine `d`, with nobody else about. */
  function Alone(d: Helper.Machine<Config>, item: Item): Progress<Config>
    requires item.Deployed?
  {
    RunAlone(d, item.cfg, TagOf(item.cfg), true, item.launch, item.ticks)
  }

  /** The items one after another. */
  function Replay(d: Helper.Machine<Config>, h: seq<Item>): Helper.Machine<Config> {
    if h == [] then d
    else
      var before := Replay(d, h[..|h| - 1]);
      match h[|h| - 1]
      case Deployed(_, _, _, _) => Alone(before, h[|h| - 1]).machine
      case Manual(name, at, fault, restarted) => RestoredMachine(before, name, at, fault, restarted).0
      case Pressed(outcome) => Helper.Serve(before, outcome)
  }

  /** The `j`-th item, if it is a deploy, was answered as if run alone after its predecessors; only the last
      one may still be under way, and then it sleeps where it would be alone. */
  ghost predicate AsAlone(w: World, d: Helper.Machine<Config>, h: seq<Item>, j: nat)
    requires j < |h|
  {
    h[j].Deployed? ==>
      var p := Alone(Replay(d, h[..j]), h[j]);
      if p.Finished? then h[j].call in w.answers && w.answers[h[j].call] == p.result && h[j].call !in w.sleeping
      else
        && j == |h| - 1 && h[j].call in w.sleeping
        && var s := w.sleeping[h[j].call]; s.cfg == h[j].cfg && s.backup == p.backup && s.slept == p.slept
  }

  ghost predicate Serial(w: World, d: Helper.Machine<Config>, h: seq<Item>) {
    && w.machine == Replay(d, h)
    && (forall j :: 0 <= j < |h| ==> AsAlone(w, d, h, j))
    && (w.sleeping != map[] ==> h != [] && h[|h| - 1].Deployed? && h[|h| - 1].call in w.sleeping)
    && (forall c :: c in w.answers && w.answers[c] != LockedOut() ==>
          exists j :: 0 <= j < |h| && h[j].Deployed? && h[j].call == c)
    && (forall j :: 0 <= j < |h| && h[j].Deployed? ==> h[j].call in w.sleeping || h[j].call in w.answers)
  }

  lemma {:induction false} DriveOneMore(p: Progress<Config>, cfg: Config, tag: string, ticks: seq<Tick>, t: Tick)
    ensures Drive(p, cfg, tag, ticks + [t]) ==
            var q := Drive(p, cfg, tag, ticks); if q.Asleep? then Resume(q, cfg, tag, t) else q
    decreases |ticks|
  {
    if p.Asleep? {
      if ticks == [] {
        assert (ticks + [t])[1..] == [];
      } else {
        assert (ticks + [t])[1..] == ticks[1..] + [t];
        DriveOneMore(Resume(p, cfg, tag, ticks[0]), cfg, tag, ticks[1..], t);
      }
    }
  }

  lemma AppendSerial(w: World, w': World, d: Helper.Machine<Config>, h: seq<Item>, item: Item)
    requires Serial(w, d, h) && Exclusive(w) && w.sleeping == map[]
    requires forall c :: c in w.answers ==> c in w'.answers && w'.answers[c] == w.answers[c] && c !in w'.sleeping
    requires forall c :: c in w'.answers && w'.answers[c] != LockedOut() ==>
               c in w.answers || (item.Deployed? && item.call == c)
    requires w'.machine == Replay(d, h + [item])
    requires AsAlone(w', d, h + [item], |h|)
    requires w'.sleeping != map[] ==> item.Deployed? && item.call in w'.sleeping
    requires item.Deployed? ==> item.call in w'.sleeping || item.call in w'.answers
    ensures Serial(w', d, h + [item])
  {
    var h' := h + [item];
    forall j | 0 <= j < |h'| ensures AsAlone(w', d, h', j) {
      if j < |h| {
        assert h'[..j] == h[..j];
        assert AsAlone(w, d, h, j);
      }
    }
    forall c | c in w'.answers && w'.answers[c] != LockedOut()
      ensures exists j :: 0 <= j < |h'| && h'[j].Deployed? && h'[j].call == c
    {
      if item.Deployed? && item.call == c {
        assert h'[|h|].call == c;
      } else {
        var j :| 0 <= j < |h| && h[j].Deployed? && h[j].call == c;
        assert h'[j].call == c;
      }
    }
  }

  lemma AcceptSerial(w: World, step: Step, d: Helper.Machine<Config>, h: seq<Item>)
    requires Serial(w, d, h) && Exclusive(w) && step.Activate? && Enabled(w, step) && !w.lock.held
    ensures Serial(Next(w, step), d, Record(h, w, step))
  {
    var item := Deployed(step.call, Generated(w.db, step.target, step.node).value, step.launch, []);
    var h' := h + [item];
    assert h'[..|h|] == h;
    AppendSerial(w, Next(w, step), d, h, item);
  }

  /** The wake-up takes the last item one step further, exactly as it would go alone. */
  lemma WakeGoesOnAlone(w: World, step: Step, d: Helper.Machine<Config>, h: seq<Item>) returns (h': seq<Item>)
    requires Serial(w, d, h) && Exclusive(w) && step.Wake? && Enabled(w, step)
    ensures h' == Record(h, w, step) && |h'| == |h| > 0 && h'[..|h| - 1] == h[..|h| - 1]
    ensures h[|h| - 1].Deployed? && h[|h| - 1].call == step.call
    ensures h'[|h| - 1] == h[|h| - 1].(ticks := h[|h| - 1].ticks + [step.tick])
    ensures var s := w.sleeping[step.call];
            && h[|h| - 1].cfg == s.cfg
            && Alone(Replay(d, h[..|h| - 1]), h'[|h| - 1])
               == Resume(Asleep(w.machine, s.backup, s.slept), s.cfg, TagOf(s.cfg), step.tick)
  {
    var n := |h| - 1;
    var last := h[n];
    h' := h[..n] + [last.(ticks := last.ticks + [step.tick])];
    assert AsAlone(w, d, h, n);
    var before := Replay(d, h[..n]);
    DriveOneMore(Begin(before, last.cfg, TagOf(last.cfg), true, last.launch), last.cfg, TagOf(last.cfg), last.ticks, step.tick);
  }

  lemma WakeSerial(w: World, step: Step, d: Helper.Machine<Config>, h: seq<Item>)
    requires Serial(w, d, h) && Exclusive(w) && step.Wake? && Enabled(w, step)
    ensures Serial(Next(w, step), d, Record(h, w, step))
  {
    var w' := Next(w, step);
    var n := |h| - 1;
    var h' := WakeGoesOnAlone(w, step, d, h);
    assert forall c :: c in w'.sleeping ==> c == step.call;
    forall j | 0 <= j < |h'| ensures AsAlone(w', d, h', j) {
      if j < n {
        assert h'[j] == h'[..n][j] && h'[..j] == h'[..n][..j] && h[..j] == h[..n][..j];
        assert AsAlone(w, d, h, j);
      }
    }
    forall j | 0 <= j < |h| ensures h'[j].Deployed? == h[j].Deployed? && (h[j].Deployed? ==> h'[j].call == h[j].call) {
      assert j < n ==> h'[j] == h'[..n][j] && h[j] == h[..n][j];
    }
    forall c | c in w'.answers && w'.answers[c] != LockedOut()
      ensures exists j :: 0 <= j < |h'| && h'[j].Deployed? && h'[j].call == c
    {
      if c == step.call {
        assert h'[n].call == c;
      } else {
        var j :| 0 <= j < |h| && h[j].Deployed? && h[j].call == c;
        assert h'[j].call == c;
      }
    }
  }

  /** Restores and effective buttons with no deploy in flight. */
  lemma InterferesSerial(w: World, step: Step, d: Helper.Machine<Config>, h: seq<Item>)
    requires Serial(w, d, h) && Exclusive(w) && Interferes(step) && w.sleeping == map[]
    ensures Serial(Next(w, step), d, Record(h, w, step))
  {
    var item := if step.RestoreBackup? then Manual(step.name, step.at, step.fault, step.restarted) else Pressed(step.outcome);
    assert (h + [item])[..|h|] == h;
    AppendSerial(w, Next(w, step), d, h, item);
  }

  /** Steps that touch neither machine nor answers, except to turn a call away. */
  lemma IdleSerial(w: World, w': World, d: Helper.Machine<Config>, h: seq<Item>)
    requires Serial(w, d, h) && w'.machine == w.machine && w'.sleeping == w.sleeping
    requires forall c :: c in w.answers ==> c in w'.answers && w'.answers[c] == w.answers[c]
    requires forall c :: c in w'.answers && c !in w.answers ==> w'.answers[c] == LockedOut()
    ensures Serial(w', d, h)
  {
    forall j | 0 <= j < |h| ensures AsAlone(w', d, h, j) {
      assert AsAlone(w, d, h, j);
    }
  }

  lemma OtherSerial(w: World, step: Step, d: Helper.Machine<Config>, h: seq<Item>)
    requires Serial(w, d, h) && Exclusive(w) && Enabled(w, step)
    requires !step.Wake? && (step.Activate? ==> w.lock.held)
    requires Interferes(step) ==> w.sleeping == map[]
    ensures Serial(Next(w, step), d, Record(h, w, step))
  {
    if Interferes(step) {
      InterferesSerial(w, step, d, h);
    } else {
      IdleSerial(w, Next(w, step), d, h);
    }
  }

  lemma SerialStep(w: World, step: Step, w': World, d: Helper.Machine<Config>, h: seq<Item>, h': seq<Item>)
    requires Serial(w, d, h) && Exclusive(w) && Enabled(w, step) && w' == Next(w, step) && h' == Record(h, w, step)
    requires Interferes(step) ==> w.sleeping == map[]
    ensures Serial(w', d, h')
  {
    if step.Wake? {
      WakeSerial(w, step, d, h);
    } else if step.Activate? && !w.lock.held {
      AcceptSerial(w, step, d, h);
    } else {
      OtherSerial(w, step, d, h);
    }
  }

  /**
   For every run without a restore or an effective service button during a deploy: config, backups and service are what
   the accepted deploys, restores and buttons produce when run one after another in order of acceptance, every accepted
   call gets the answer it gets there, and every call answered otherwise was turned away at the lock.
   */
  lemma {:induction false} InterleavingIsSerial(worlds: seq<World>, steps: seq<Step>, k: nat)
    requires IsRun(worlds, steps) && k <= |steps|
    requires forall i :: 0 <= i < k && Interferes(steps[i]) ==> worlds[i].sleeping == map[]
    ensures Exclusive(worlds[k]) && Serial(worlds[k], worlds[0].machine, History(worlds, steps, k))
  {
    OneDeployAtATime(worlds, steps, k);
    if k > 0 {
      InterleavingIsSerial(worlds, steps, k - 1);
      var h, h' := History(worlds, steps, k - 1), History(worlds, steps, k);
      SerialStep(worlds[k - 1], steps[k - 1], worlds[k], worlds[0].machine, h, h');
    }
  }

  // Service buttons during a deploy -----------------------------------------------------------------------------------

  /** The machines differ at most in what the service runs. */
  predicate SameFiles(m: Helper.Machine<Config>, n: Helper.Machine<Config>) {
    m.config == n.config && m.backups == n.backups
  }

  /** The worlds differ at most in what the service runs. */
  predicate SameButService(w: World, v: World) {
    SameFiles(w.machine, v.machine) && v == w.(machine := v.machine)
  }

  lemma RollbackIgnoresService(m: Helper.Machine<Config>, n: Helper.Machine<Config>, backup: Option<string>, undo: Undo)
    requires SameFiles(m, n)
    ensures SameFiles(Rollback(m, backup, undo).0, Rollback(n, backup, undo).0)
    ensures Rollback(m, backup, undo).1 == Rollback(n, backup, undo).1
  {
  }

  /** Segments that start from the same files end alike, with the same files. */
  predicate SameProgress(p: Progress<Config>, q: Progress<Config>) {
    && SameFiles(p.machine, q.machine)
    && match p
       case Finished(_, r) => q.Finished? && q.result == r
       case Asleep(_, backup, slept) => q.Asleep? && q.backup == backup && q.slept == slept
  }

  lemma BeginIgnoresService(m: Helper.Machine<Config>, n: Helper.Machine<Config>, cfg: Config, tag: string, l: Launch)
    requires SameFiles(m, n)
    ensures SameProgress(Begin(m, cfg, tag, true, l), Begin(n, cfg, tag, true, l))
  {
    var (d, ok) := Helper.Deploy(m, Helper.Present(Helper.Json(cfg)), l.at, l.fault);
    var (e, _) := Helper.Deploy(n, Helper.Present(Helper.Json(cfg)), l.at, l.fault);
    assert SameFiles(d, e);
    RollbackIgnoresService(Helper.Restart(d, l.restartOk), Helper.Restart(e, l.restartOk), NamedBackup(m, l), l.undo);
  }

  lemma ResumeIgnoresService(p: Progress<Config>, q: Progress<Config>, cfg: Config, tag: string, t: Tick)
    requires p.Asleep? && SameProgress(p, q)
    ensures SameProgress(Resume(p, cfg, tag, t), Resume(q, cfg, tag, t))
  {
    RollbackIgnoresService(p.machine, q.machine, p.backup, t.undo);
  }

  lemma StopIgnoresService(w: World, v: World, call: nat, t: Target, cfg: Config, since: Stamp,
                           p: Progress<Config>, q: Progress<Config>)
    requires SameButService(w, v) && SameProgress(p, q)
    ensures SameButService(Stop(w, call, t, cfg, since, p), Stop(v, call, t, cfg, since, q))
  {
  }

  /** The request with the effect of a service button taken out. */
  function Silenced(step: Step): Step {
    if step.PressService? then PressService(Helper.Unchanged) else step
  }

  lemma AcceptIgnoresService(w: World, v: World, call: nat, t: Target, cfg: Config, l: Launch)
    requires SameButService(w, v)
    ensures SameButService(Accept(w, call, t, cfg, l), Accept(v, call, t, cfg, l))
  {
    BeginIgnoresService(w.machine, v.machine, cfg, TagOf(cfg), l);
    var held := AsyncLock(true, w.lock.waiters);
    StopIgnoresService(w.(lock := held), v.(lock := held), call, t, cfg, l.at,
                       Begin(w.machine, cfg, TagOf(cfg), true, l), Begin(v.machine, cfg, TagOf(cfg), true, l));
  }

  lemma WakeupIgnoresService(w: World, v: World, call: nat, t: Tick)
    requires SameButService(w, v) && call in w.sleeping
    ensures SameButService(Wakeup(w, call, t), Wakeup(v, call, t))
  {
    var s := w.sleeping[call];
    var p, q := Asleep(w.machine, s.backup, s.slept), Asleep(v.machine, s.backup, s.slept);
    ResumeIgnoresService(p, q, s.cfg, TagOf(s.cfg), t);
    StopIgnoresService(w, v, call, s.target, s.cfg, s.since, Resume(p, s.cfg, TagOf(s.cfg), t), Resume(q, s.cfg, TagOf(s.cfg), t));
  }

  lemma StepIgnoresService(w: World, v: World, step: Step)
    requires SameButService(w, v) && Enabled(w, step)
    ensures Enabled(v, Silenced(step)) && SameButService(Next(w, step), Next(v, Silenced(step)))
  {
    match step
    case Activate(call, t, node, l) => AcceptIgnoresService(w, v, call, t, Generated(w.db, t, node).value, l);
    case Wake(call, t) => WakeupIgnoresService(w, v, call, t);
    case _ =>
  }

  /** The accepted work of the first `k` steps without the service buttons. */
  ghost function QuietHistory(worlds: seq<World>, steps: seq<Step>, k: nat): seq<Item>
    requires IsRun(worlds, steps) && k <= |steps|
  {
    if k == 0 then [] else Record(QuietHistory(worlds, steps, k - 1), worlds[k - 1], Silenced(steps[k - 1]))
  }

  lemma QuietStep(w: World, step: Step, w': World, v: World, d: Helper.Machine<Config>, h: seq<Item>, h': seq<Item>)
    returns (v': World)
    requires Enabled(w, step) && w' == Next(w, step) && h' == Record(h, w, Silenced(step))
    requires SameButService(w, v) && Exclusive(v) && Serial(v, d, h)
    requires step.RestoreBackup? ==> w.sleeping == map[]
    ensures SameButService(w', v') && Exclusive(v') && Serial(v', d, h')
  {
    StepIgnoresService(w, v, step);
    v' := Next(v, Silenced(step));
    ExclusiveStep(v, Silenced(step));
    SerialStep(v, Silenced(step), v', d, h, h');
  }

  /**
   Service buttons pressed at any time, during deploys too, change nothing but what the service runs: for every run
   without a restore during a deploy, config, backups, tables and answers are those of a world in which only the accepted
   deploys and the restores have happened, one after another.
   */
  lemma {:induction false} ButtonsOnlyTouchTheService(worlds: seq<World>, steps: seq<Step>, k: nat) returns (calm: World)
    requires IsRun(worlds, steps) && k <= |steps|
    requires forall i :: 0 <= i < k && steps[i].RestoreBackup? ==> worlds[i].sleeping == map[]
    ensures SameButService(worlds[k], calm) && Exclusive(calm)
    ensures Serial(calm, worlds[0].machine, QuietHistory(worlds, steps, k))
  {
    if k == 0 {
      calm := worlds[0];
    } else {
      var v := ButtonsOnlyTouchTheService(worlds, steps, k - 1);
      var h, h' := QuietHistory(worlds, steps, k - 1), QuietHistory(worlds, steps, k);
      calm := QuietStep(worlds[k - 1], steps[k - 1], worlds[k], v, worlds[0].machine, h, h');
    }
  }
}
