/** The commands of managed users: every one is answered and recorded, deliveries within an hourly limit. */
module UserCommands {
  import opened Prelude
  import opened Sequences
  import opened NodeRows
  import opened Distribution
  import opened ClientConfigs

  datatype Command = Start | Help | Status | Config | Refresh | SbClient | Unknown(name: string)
  datatype Action = Asked(command: Command) | ConfigChanged

  /** One row of the delivery log. Times are in microseconds; `at` is what the database records. */
  datatype Delivery = Delivery(
    userId: Option<nat>, telegramId: string, groupId: Option<nat>, action: Action, success: bool,
    version: Option<nat>, fingerprint: Option<Payload>, at: nat)

  /** The answer: whether it counts as served, and whether a generated document comes with it. */
  datatype Response =
    | Denied | Failing(error: AssignmentError) | HelpText | StatusText(ok: bool) | Limited
    | Links(ok: bool, document: bool) | UnknownCommand

  const SECOND: nat := 1_000_000
  const HOUR: nat := 3600 * SECOND

  predicate IsDelivery(action: Action) {
    action.Asked? && (action.command.Config? || action.command.Refresh? || action.command.SbClient?)
  }

  /** `CURRENT_TIMESTAMP` has whole seconds. */
  function Recorded(now: nat): nat {
    now - now % SECOND
  }

  /** The rows the limiter counts. The database compares timestamps as text, where the whole seconds of a row come before
      the same second with the fraction of the cutoff: a row recorded exactly an hour ago does not count. */
  function InWindow(telegramId: string, now: nat): Delivery -> bool {
    (d: Delivery) => d.telegramId == telegramId && IsDelivery(d.action) && d.at + HOUR > now
  }

  predicate LimitExceeded(log: seq<Delivery>, a: Assignment, now: nat) {
    a.user.Some? && |Filter(log, InWindow(a.user.value.telegramId, now))| >= a.limit
  }

  function Row(actor: string, command: Command, success: bool, a: Assignment, now: nat): Delivery {
    Delivery(if a.user.None? then None else Some(a.user.value.id), actor,
             if a.group.None? then None else Some(a.group.value.id),
             Asked(command), success, a.version, a.fingerprint, Recorded(now))
  }

  /** Whether the generated document of a delivery command can be built. */
  predicate DocumentBuilt(parse: UrlParser, command: Command, a: Assignment) {
    if command.SbClient? then BuildBundle(parse, a).Ok? else BuildClientConfig(parse, a).Ok?
  }

  /** A command as it comes in, with the directory as the administrators have left it by then. */
  datatype Call = Call(dir: Directory, actor: string, command: Command, now: nat)

  /** `UserCommandHandler.handle`: the log it leaves, and the answer. */
  function Handled(parse: UrlParser, log: seq<Delivery>, c: Call): (seq<Delivery>, Response) {
    var a := GetUserAssignment(c.dir, c.actor);
    var record := (success: bool) => log + [Row(c.actor, c.command, success, a, c.now)];
    if a.user.None? then (record(false), Denied)
    else if c.command.Start? || c.command.Help? then
      if a.error.Some? then (record(false), Failing(a.error.value)) else (record(true), HelpText)
    else if c.command.Status? then (record(a.error.None?), StatusText(a.error.None?))
    else if IsDelivery(Asked(c.command)) then
      if a.error.Some? then (record(false), Links(false, false))
      else if LimitExceeded(log, a, c.now) then (record(false), Limited)
      else
        var built := DocumentBuilt(parse, c.command, a);
        (record(built), Links(true, built))
    else (record(false), UnknownCommand)
  }

  class Handler {
    const parse: UrlParser
    var log: seq<Delivery>

    constructor (parse: UrlParser, log: seq<Delivery>)
      ensures this.parse == parse && this.log == log
    {
      this.parse := parse;
      this.log := log;
    }

    method RecordDelivery(actor: string, command: Command, success: bool, a: Assignment, now: nat)
      modifies this`log
      ensures log == old(log) + [Row(actor, command, success, a, now)]
    {
      log := log + [Row(actor, command, success, a, now)];
    }

    method Handle(dir: Directory, actor: string, command: Command, now: nat) returns (response: Response)
      modifies this`log
      ensures (log, response) == Handled(parse, old(log), Call(dir, actor, command, now))
    {
      var a := GetUserAssignment(dir, actor);
      if a.user.None? {
        RecordDelivery(actor, command, false, a, now);
        return Denied;
      }
      if command.Start? || command.Help? {
        if a.error.Some? {
          RecordDelivery(actor, command, false, a, now);
          return Failing(a.error.value);
        }
        RecordDelivery(actor, command, true, a, now);
        return HelpText;
      }
      if command.Status? {
        var ok := a.error.None?;
        RecordDelivery(actor, command, ok, a, now);
        return StatusText(ok);
      }
      if command.Config? || command.Refresh? || command.SbClient? {
        if a.error.None? && LimitExceeded(log, a, now) {
          RecordDelivery(actor, command, false, a, now);
          return Limited;
        }
        var ok := a.error.None?;
        var document := false;
        if ok {
          if command.SbClient? {
            document := BuildBundle(parse, a).Ok?;
          } else {
            document := BuildClientConfig(parse, a).Ok?;
          }
        }
        RecordDelivery(actor, command, ok && document, a, now);
        return Links(ok, document);
      }
      RecordDelivery(actor, command, false, a, now);
      return UnknownCommand;
    }
  }

  // Whole runs ------------------------------------------------------------------------------------------------------

  function LogAfter(parse: UrlParser, log: seq<Delivery>, run: seq<Call>): seq<Delivery> {
    if run == [] then log else Handled(parse, LogAfter(parse, log, run[..|run| - 1]), run[|run| - 1]).0
  }

  /** A command and its answer. */
  datatype Served = Served(call: Call, response: Response)

  /** The commands of a run with their answers, in order. */
  function Transcript(parse: UrlParser, log: seq<Delivery>, run: seq<Call>): (t: seq<Served>)
    ensures |t| == |run|
  {
    if run == [] then []
    else
      var init, last := run[..|run| - 1], run[|run| - 1];
      Transcript(parse, log, init) + [Served(last, Handled(parse, LogAfter(parse, log, init), last).1)]
  }

  lemma {:induction false} TranscriptAt(parse: UrlParser, log: seq<Delivery>, run: seq<Call>, k: nat)
    requires k < |run|
    ensures Transcript(parse, log, run)[..k] == Transcript(parse, log, run[..k])
    ensures Transcript(parse, log, run)[k] == Served(run[k], Handled(parse, LogAfter(parse, log, run[..k]), run[k]).1)
  {
    var init := run[..|run| - 1];
    if k < |run| - 1 {
      TranscriptAt(parse, log, init, k);
      assert init[..k] == run[..k];
    }
  }

  // One row each ----------------------------------------------------------------------------------------------------

  /** What was asked for has been delivered, with its document where there is one. */
  predicate Delivered(r: Response) {
    r.HelpText? || (r.StatusText? && r.ok) || (r.Links? && r.ok && r.document)
  }

  /** The row that belongs to a command and its answer. */
  function RowOf(s: Served): Delivery {
    Row(s.call.actor, s.call.command, Delivered(s.response), GetUserAssignment(s.call.dir, s.call.actor), s.call.now)
  }

  lemma HandledAddsItsRow(parse: UrlParser, log: seq<Delivery>, c: Call)
    ensures Handled(parse, log, c).0 == log + [RowOf(Served(c, Handled(parse, log, c).1))]
  {
  }

  lemma {:induction false} RowsOfRun(parse: UrlParser, log: seq<Delivery>, run: seq<Call>)
    ensures LogAfter(parse, log, run) == log + Map(Transcript(parse, log, run), RowOf)
  {
    if run == [] {
      assert log + [] == log;
    } else {
      var init, last := run[..|run| - 1], run[|run| - 1];
      var before := Transcript(parse, log, init);
      RowsOfRun(parse, log, init);
      HandledAddsItsRow(parse, LogAfter(parse, log, init), last);
      var s := Served(last, Handled(parse, LogAfter(parse, log, init), last).1);
      assert Map(before + [s], RowOf) == Map(before, RowOf) + [RowOf(s)];
    }
  }

  /** The row tells who asked for what, in which second, whether it was delivered, and which user, group, version and
      fingerprint the answer was based on. */
  ghost predicate TellsOf(row: Delivery, c: Call, response: Response) {
    var a := GetUserAssignment(c.dir, c.actor);
    && row.telegramId == c.actor && row.action == Asked(c.command)
    && row.at <= c.now < row.at + 1_000_000 && row.at % 1_000_000 == 0
    && (row.success <==> Delivered(response))
    && (row.userId.Some? <==> a.user.Some?) && (a.user.Some? ==> row.userId.value == a.user.value.id)
    && (row.groupId.Some? <==> a.group.Some?) && (a.group.Some? ==> row.groupId.value == a.group.value.id)
    && row.version == a.version && row.fingerprint == a.fingerprint
  }

  lemma RowTells(s: Served)
    ensures TellsOf(RowOf(s), s.call, s.response)
  {
  }

  /** Over every run the log grows by exactly one row for each command, in order, and each row tells of its command. */
  lemma OneRowPerCommand(parse: UrlParser, log: seq<Delivery>, run: seq<Call>)
    ensures var after, t := LogAfter(parse, log, run), Transcript(parse, log, run);
            && |after| == |log| + |run| && log <= after
            && forall k :: 0 <= k < |run| ==> t[k].call == run[k] && TellsOf(after[|log| + k], run[k], t[k].response)
  {
    var t := Transcript(parse, log, run);
    var rows := Map(t, RowOf);
    RowsOfRun(parse, log, run);
    forall k | 0 <= k < |run|
      ensures t[k].call == run[k] && TellsOf((log + rows)[|log| + k], run[k], t[k].response)
    {
      TranscriptAt(parse, log, run, k);
      RowTells(t[k]);
    }
  }

  /** Every answer is given exactly under its own condition. */
  lemma AnswersExactly(parse: UrlParser, log: seq<Delivery>, c: Call)
    ensures var a := GetUserAssignment(c.dir, c.actor);
            var r := Handled(parse, log, c).1;
            var stranger := forall i :: 0 <= i < |c.dir.users| ==> c.dir.users[i].telegramId != c.actor;
            && (r == Denied <==> stranger)
            && (r == UnknownCommand <==> !stranger && c.command.Unknown?)
            && (r == HelpText <==> !stranger && (c.command.Start? || c.command.Help?) && a.error.None?)
            && (forall e :: r == Failing(e) <==> !stranger && (c.command.Start? || c.command.Help?) && a.error == Some(e))
            && (forall ok :: r == StatusText(ok) <==> !stranger && c.command.Status? && ok == a.error.None?)
            && (r.Limited? || r.Links? <==> !stranger && (c.command.Config? || c.command.Refresh? || c.command.SbClient?))
            && (r.Limited? ==> a.error.None?)
            && (r.Links? ==> (r.ok <==> a.error.None?))
            && (r.Links? && c.command.SbClient? ==> (r.document <==> a.error.None? && BuildBundle(parse, a).Ok?))
            && (r.Links? && !c.command.SbClient? ==> (r.document <==> a.error.None? && BuildClientConfig(parse, a).Ok?))
  {
    AccessExactly(c.dir, c.actor);
  }

  // The limit -------------------------------------------------------------------------------------------------------

  /** A delivery that neither failed on the assignment nor hit the limit: the caller got the nodes. */
  predicate Permitted(s: Served) {
    s.response.Links? && s.response.ok
  }

  /** The delivery commands of `actor` recorded less than an hour before `now`, whatever their answer. */
  function AttemptBy(actor: string, now: nat): Served -> bool {
    (s: Served) => s.call.actor == actor && IsDelivery(Asked(s.call.command)) && Recorded(s.call.now) + HOUR > now
  }

  /** Those of them that were permitted. */
  function PermittedTo(actor: string, now: nat): Served -> bool {
    (s: Served) => Permitted(s) && s.call.actor == actor && Recorded(s.call.now) + HOUR > now
  }

  /** The limit in force when the command comes in. */
  function LimitFor(c: Call): int {
    GetUserAssignment(c.dir, c.actor).limit
  }

  /** The rows of the window are those that were there before, and one for every attempt of the run. */
  lemma AttemptsAreCounted(parse: UrlParser, log: seq<Delivery>, run: seq<Call>, actor: string, now: nat)
    ensures |Filter(LogAfter(parse, log, run), InWindow(actor, now))|
            == |Filter(log, InWindow(actor, now))| + |Filter(Transcript(parse, log, run), AttemptBy(actor, now))|
  {
    var t := Transcript(parse, log, run);
    var rows := Map(t, RowOf);
    RowsOfRun(parse, log, run);
    FilterOfConcat(log, rows, InWindow(actor, now));
    forall i | 0 <= i < |t| ensures InWindow(actor, now)(rows[i]) == AttemptBy(actor, now)(t[i]) {
      assert rows[i] == RowOf(t[i]);
    }
    FilterDominates(t, AttemptBy(actor, now), rows, InWindow(actor, now));
    FilterDominates(rows, InWindow(actor, now), t, AttemptBy(actor, now));
  }

  lemma FindUserFinds(users: seq<User>, telegramId: string)
    ensures FindUser(users, telegramId).Some? ==> FindUser(users, telegramId).value.telegramId == telegramId
  {
  }

  /** One delivery command with an assignment is refused exactly when the window is full, and permitted otherwise. */
  lemma WindowDecides(parse: UrlParser, log: seq<Delivery>, c: Call)
    requires IsDelivery(Asked(c.command))
    requires GetUserAssignment(c.dir, c.actor).user.Some? && GetUserAssignment(c.dir, c.actor).error.None?
    ensures var s := Served(c, Handled(parse, log, c).1);
            && (s.response == Limited <==> |Filter(log, InWindow(c.actor, c.now))| >= LimitFor(c))
            && (Permitted(s) <==> s.response != Limited)
  {
    FindUserFinds(c.dir.users, c.actor);
  }

  lemma PermittedHasAssignment(parse: UrlParser, log: seq<Delivery>, c: Call)
    requires Permitted(Served(c, Handled(parse, log, c).1))
    ensures IsDelivery(Asked(c.command))
    ensures GetUserAssignment(c.dir, c.actor).user.Some? && GetUserAssignment(c.dir, c.actor).error.None?
  {
  }

  /**
   Over every run, whatever the administrators change meanwhile: a delivery command with an assignment is refused
   exactly when the caller's delivery commands recorded within the hour before, permitted, failed and refused alike,
   have reached the limit then in force.
   */
  lemma AttemptsConsumeWindow(parse: UrlParser, log: seq<Delivery>, run: seq<Call>, k: nat)
    requires k < |run| && IsDelivery(Asked(run[k].command))
    requires GetUserAssignment(run[k].dir, run[k].actor).user.Some? && GetUserAssignment(run[k].dir, run[k].actor).error.None?
    ensures var t := Transcript(parse, log, run);
            var c := run[k];
            && (t[k].response == Limited <==>
                  |Filter(log, InWindow(c.actor, c.now))| + |Filter(t[..k], AttemptBy(c.actor, c.now))| >= LimitFor(c))
            && (Permitted(t[k]) <==> t[k].response != Limited)
  {
    TranscriptAt(parse, log, run, k);
    WindowDecides(parse, LogAfter(parse, log, run[..k]), run[k]);
    AttemptsAreCounted(parse, log, run[..k], run[k].actor, run[k].now);
  }

  /** Over every run, deliveries are permitted to enabled users of enabled groups only, and at the limit of the user, else
      of the group, else ten. */
  lemma PermittedToTheEnabled(parse: UrlParser, log: seq<Delivery>, run: seq<Call>, k: nat)
    requires k < |run| && Permitted(Transcript(parse, log, run)[k])
    ensures exists u :: IsUser(run[k].dir.users, run[k].actor, u) && u.enabled && HasGroup(run[k].dir, u)
              && var g := run[k].dir.groups[u.groupId.value];
                 && g.enabled && DecodeNodeTags(g.storedTags) != []
                 && LimitFor(run[k]) == (if IsPositive(u.limit) then u.limit.value else if IsPositive(g.limit) then g.limit.value else 10)
  {
    TranscriptAt(parse, log, run, k);
    PermittedHasAssignment(parse, LogAfter(parse, log, run[..k]), run[k]);
    AccessExactly(run[k].dir, run[k].actor);
    var u := GetUserAssignment(run[k].dir, run[k].actor).user.value;
    assert u.enabled && HasGroup(run[k].dir, u);
    LimitPrecedence(Some(u), run[k].dir.groups[u.groupId.value]);
  }

  lemma PermittedAreAttempts(parse: UrlParser, log: seq<Delivery>, run: seq<Call>, actor: string, now: nat)
    ensures |Filter(Transcript(parse, log, run), PermittedTo(actor, now))|
            <= |Filter(Transcript(parse, log, run), AttemptBy(actor, now))|
  {
    var t := Transcript(parse, log, run);
    forall i | 0 <= i < |t| && PermittedTo(actor, now)(t[i]) ensures AttemptBy(actor, now)(t[i]) {
      TranscriptAt(parse, log, run, i);
      PermittedHasAssignment(parse, LogAfter(parse, log, run[..i]), run[i]);
    }
    FilterDominates(t, PermittedTo(actor, now), t, AttemptBy(actor, now));
  }

  lemma RoomForOne(t: seq<Served>, k: nat, p: Served -> bool, q: Served -> bool, limit: int)
    requires k < |t| && |Filter(t[..k], p)| <= |Filter(t[..k], q)| < limit
    ensures |Filter(t[..k + 1], p)| <= limit
  {
    assert t[..k + 1] == t[..k] + [t[k]];
    FilterOneMore(t[..k], t[k], p);
  }

  lemma PermittedHasRoom(parse: UrlParser, log: seq<Delivery>, run: seq<Call>, k: nat)
    requires k < |run| && Permitted(Transcript(parse, log, run)[k])
    ensures |Filter(Transcript(parse, log, run)[..k], AttemptBy(run[k].actor, run[k].now))| < LimitFor(run[k])
  {
    TranscriptAt(parse, log, run, k);
    PermittedHasAssignment(parse, LogAfter(parse, log, run[..k]), run[k]);
    AttemptsConsumeWindow(parse, log, run, k);
  }

  /**
   Over every run: when a delivery is permitted, the deliveries permitted to its caller and recorded within the hour
   before, this one included, are at most the limit then in force.
   */
  lemma PermittedWithinLimit(parse: UrlParser, log: seq<Delivery>, run: seq<Call>, k: nat)
    requires k < |run| && Permitted(Transcript(parse, log, run)[k])
    ensures |Filter(Transcript(parse, log, run)[..k + 1], PermittedTo(run[k].actor, run[k].now))| <= LimitFor(run[k])
  {
    var t, c := Transcript(parse, log, run), run[k];
    PermittedHasRoom(parse, log, run, k);
    TranscriptAt(parse, log, run, k);
    PermittedAreAttempts(parse, log, run[..k], c.actor, c.now);
    RoomForOne(t, k, PermittedTo(c.actor, c.now), AttemptBy(c.actor, c.now), LimitFor(c));
  }

  /** Deliveries handled less than this long ago are counted in any case. */
  const SURE_WINDOW: nat := HOUR - SECOND + 1

  /** The deliveries permitted to `actor` less than `span` before `now`, by the time they were handled. */
  function HandledWithin(actor: string, span: nat, now: nat): Served -> bool {
    (s: Served) => Permitted(s) && s.call.actor == actor && s.call.now + span > now
  }

  /**
   By the times commands are handled: over every run, the deliveries permitted to a caller number at most the limit
   in every window a second shorter than an hour. `RecordedTimesWidenWindow` shows that the window cannot be longer
   by a microsecond.
   */
  lemma PermittedWithinShortHour(parse: UrlParser, log: seq<Delivery>, run: seq<Call>, k: nat)
    requires k < |run| && Permitted(Transcript(parse, log, run)[k])
    ensures |Filter(Transcript(parse, log, run)[..k + 1], HandledWithin(run[k].actor, SURE_WINDOW, run[k].now))|
            <= LimitFor(run[k])
  {
    var head := Transcript(parse, log, run)[..k + 1];
    var p, q := HandledWithin(run[k].actor, SURE_WINDOW, run[k].now), PermittedTo(run[k].actor, run[k].now);
    forall i | 0 <= i < |head| && p(head[i]) ensures q(head[i]) {
      assert head[i].call.now < Recorded(head[i].call.now) + SECOND;
    }
    FilterDominates(head, p, head, q);
    PermittedWithinLimit(parse, log, run, k);
  }

  /** The window is one of recorded times, and recording cuts off the fraction of a second: two deliveries just
      that far apart can both pass a limit of one. */
  lemma RecordedTimesWidenWindow(parse: UrlParser, dir: Directory, actor: string)
    requires var a := GetUserAssignment(dir, actor); a.user.Some? && a.error.None? && a.limit == 1
    ensures var run := [Call(dir, actor, Config, 999_999), Call(dir, actor, Refresh, HOUR)];
            var t := Transcript(parse, [], run);
            run[1].now - run[0].now == SURE_WINDOW && Permitted(t[0]) && Permitted(t[1])
  {
    var run := [Call(dir, actor, Config, 999_999), Call(dir, actor, Refresh, HOUR)];
    var p := AttemptBy(actor, HOUR);
    AttemptsConsumeWindow(parse, [], run, 0);
    AttemptsConsumeWindow(parse, [], run, 1);
    var before := Transcript(parse, [], run)[..1];
    TranscriptAt(parse, [], run, 0);
    assert !p(before[0]) && before[1..] == [];
    assert Filter(before, p) == [];
  }
}
