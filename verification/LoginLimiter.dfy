/**
 The in-memory login limiter: five accepted attempts per address in any minute. Rejected attempts are not
 recorded, expired ones are dropped, and idle addresses are swept out once there are too many.
 */
module LoginLimiter {
  import opened Sequences

  const RATE_MAX: nat := 5
  const RATE_WINDOW := 60.0
  const CLEANUP_THRESHOLD: nat := 500

  type Attempts = map<string, seq<real>>

  /** An attempt and the reading of the monotonic clock when it came. */
  datatype Event = Event(ip: string, now: real)

  function IsRecent(now: real): real -> bool {
    t => now - t < RATE_WINDOW
  }

  function Recent(times: seq<real>, now: real): seq<real> {
    Filter(times, IsRecent(now))
  }

  function Times(a: Attempts, ip: string): seq<real> {
    if ip in a then a[ip] else []
  }

  /** Some recorded attempt of the address is still recent. */
  predicate IsFresh(a: Attempts, ip: string, now: real) {
    exists i :: 0 <= i < |Times(a, ip)| && now - Times(a, ip)[i] < RATE_WINDOW
  }

  function Swept(a: Attempts, now: real): Attempts {
    if |a| > CLEANUP_THRESHOLD then map ip | ip in a && IsFresh(a, ip, now) :: a[ip] else a
  }

  function Step(a: Attempts, e: Event): (Attempts, bool) {
    var swept := Swept(a, e.now);
    var recent := Recent(Times(swept, e.ip), e.now);
    if |recent| >= RATE_MAX then (swept[e.ip := recent], false)
    else (swept[e.ip := recent + [e.now]], true)
  }

  class Limiter {
    var attempts: Attempts

    constructor ()
      ensures attempts == map[]
    {
      attempts := map[];
    }

    method RateLimitOk(ip: string, now: real) returns (ok: bool)
      modifies this
      ensures (attempts, ok) == Step(old(attempts), Event(ip, now))
    {
      if |attempts| > CLEANUP_THRESHOLD {
        var stale := set k | k in attempts && !IsFresh(attempts, k, now);
        ghost var all := stale;
        while stale != {}
          invariant stale <= all && forall k :: k in stale ==> k in attempts
          invariant attempts == map k | k in old(attempts) && (k !in all || k in stale) :: old(attempts)[k]
        {
          var k :| k in stale;
          attempts := attempts - {k};
          stale := stale - {k};
        }
        assert forall k :: k in all <==> k in old(attempts) && !IsFresh(old(attempts), k, now);
        assert attempts == Swept(old(attempts), now);
      }
      var recent := Recent(Times(attempts, ip), now);
      if |recent| >= RATE_MAX {
        attempts := attempts[ip := recent];
        return false;
      }
      attempts := attempts[ip := recent + [now]];
      return true;
    }
  }

  // The naive limiter: every accepted attempt is remembered forever -----------------------------------------------

  /** The times of the accepted attempts of one address, oldest first. */
  function TimesOf(history: seq<Event>, ip: string): seq<real> {
    if history == [] then []
    else TimesOf(history[..|history| - 1], ip)
         + (if history[|history| - 1].ip == ip then [history[|history| - 1].now] else [])
  }

  predicate NaiveOk(history: seq<Event>, e: Event) {
    |Recent(TimesOf(history, e.ip), e.now)| < RATE_MAX
  }

  /** The accepted ones among the first `k` events of a run. */
  function Accepted(run: seq<Event>, k: nat): seq<Event>
    requires k <= |run|
  {
    if k == 0 then []
    else
      var h := Accepted(run, k - 1);
      if NaiveOk(h, run[k - 1]) then h + [run[k - 1]] else h
  }

  /** The dictionary after the first `k` events. */
  function After(run: seq<Event>, k: nat): Attempts
    requires k <= |run|
  {
    if k == 0 then map[] else Step(After(run, k - 1), run[k - 1]).0
  }

  /** The answer to event `k`. */
  predicate Answer(run: seq<Event>, k: nat)
    requires k < |run|
  {
    Step(After(run, k), run[k]).1
  }

  ghost predicate Monotonic(run: seq<Event>) {
    forall i, j :: 0 <= i <= j < |run| ==> run[i].now <= run[j].now
  }

  // Refinement ------------------------------------------------------------------------------------------------------

  /** The dictionary holds all that still matters at `now` of the full history. */
  ghost predicate Remembers(a: Attempts, history: seq<Event>, now: real) {
    forall ip :: Recent(Times(a, ip), now) == Recent(TimesOf(history, ip), now)
  }

  lemma {:induction false} RecentOfRecent(times: seq<real>, now: real, later: real)
    requires now <= later
    ensures Recent(Recent(times, now), later) == Recent(times, later)
  {
    if times != [] {
      RecentOfRecent(times[1..], now, later);
      FilterOfConcat(if IsRecent(now)(times[0]) then [times[0]] else [], Recent(times[1..], now), IsRecent(later));
    }
  }

  lemma {:induction false} NothingRecent(times: seq<real>, now: real)
    requires forall i :: 0 <= i < |times| ==> now - times[i] >= RATE_WINDOW
    ensures Recent(times, now) == []
  {
    if times != [] { NothingRecent(times[1..], now); }
  }

  /** Sweeping loses nothing that still counts. */
  lemma SweepingIsInvisible(a: Attempts, now: real, ip: string)
    ensures Recent(Times(Swept(a, now), ip), now) == Recent(Times(a, ip), now)
  {
    if !IsFresh(a, ip, now) { NothingRecent(Times(a, ip), now); }
  }

  lemma TimesOfAppend(history: seq<Event>, e: Event, ip: string)
    ensures TimesOf(history + [e], ip) == TimesOf(history, ip) + (if e.ip == ip then [e.now] else [])
  {
    assert (history + [e])[..|history|] == history;
  }

  /** The list of the calling address after a call. */
  lemma CallerRemembered(times: seq<real>, past: seq<real>, e: Event, later: real, ok: bool)
    requires Recent(times, e.now) == Recent(past, e.now) && e.now <= later
    ensures var stored := Recent(times, e.now) + (if ok then [e.now] else []);
            Recent(stored, later) == Recent(past + (if ok then [e.now] else []), later)
  {
    var extra := if ok then [e.now] else [];
    RecentOfRecent(times, e.now, later);
    RecentOfRecent(past, e.now, later);
    FilterOfConcat(Recent(times, e.now), extra, IsRecent(later));
    FilterOfConcat(past, extra, IsRecent(later));
  }

  /** One call on a dictionary that remembers enough answers as the naive limiter does, and goes on
      remembering enough for every later moment. */
  lemma StepRefines(a: Attempts, history: seq<Event>, e: Event, later: real)
    requires Remembers(a, history, e.now) && e.now <= later
    ensures Step(a, e).1 == NaiveOk(history, e)
    ensures Remembers(Step(a, e).0, if NaiveOk(history, e) then history + [e] else history, later)
  {
    var swept := Swept(a, e.now);
    SweepingIsInvisible(a, e.now, e.ip);
    var (a', ok) := Step(a, e);
    var history' := if ok then history + [e] else history;
    forall ip ensures Recent(Times(a', ip), later) == Recent(TimesOf(history', ip), later) {
      TimesOfAppend(history, e, ip);
      assert TimesOf(history, ip) + [] == TimesOf(history, ip);
      SweepingIsInvisible(a, e.now, ip);
      if ip == e.ip {
        CallerRemembered(Times(swept, ip), TimesOf(history, ip), e, later, ok);
        assert Recent(Times(swept, ip), e.now) + [] == Recent(Times(swept, ip), e.now);
      } else {
        RecentOfRecent(Times(swept, ip), e.now, later);
        RecentOfRecent(TimesOf(history, ip), e.now, later);
        assert Times(a', ip) == Times(swept, ip);
      }
    }
  }

  lemma {:induction false} RunRemembers(run: seq<Event>, k: nat, later: real)
    requires Monotonic(run) && k <= |run| && (k > 0 ==> run[k - 1].now <= later)
    ensures Remembers(After(run, k), Accepted(run, k), later)
  {
    if k > 0 {
      RunRemembers(run, k - 1, run[k - 1].now);
      StepRefines(After(run, k - 1), Accepted(run, k - 1), run[k - 1], later);
    }
  }

  /** With a clock that does not go back, the cleaned-up dictionary and the full history always agree. */
  lemma LimiterRefinesNaive(run: seq<Event>, k: nat)
    requires Monotonic(run) && k < |run|
    ensures Answer(run, k) == NaiveOk(Accepted(run, k), run[k])
  {
    RunRemembers(run, k, run[k].now);
    StepRefines(After(run, k), Accepted(run, k), run[k], run[k].now);
  }

  // What the limit means --------------------------------------------------------------------------------------------

  /** How many of the first `k` events with a positive answer came from `ip` in the half-open window [from, to). */
  function AcceptedIn(run: seq<Event>, answers: seq<bool>, k: nat, ip: string, from: real, to: real): nat
    requires |answers| == |run| && k <= |run|
  {
    if k == 0 then 0
    else AcceptedIn(run, answers, k - 1, ip, from, to)
         + (if answers[k - 1] && run[k - 1].ip == ip && from <= run[k - 1].now < to then 1 else 0)
  }

  /** The answers the limiter gives over a run. */
  ghost predicate AnswersOf(run: seq<Event>, answers: seq<bool>) {
    |answers| == |run| && forall k {:trigger answers[k]} :: 0 <= k < |run| ==> answers[k] == Answer(run, k)
  }

  ghost predicate NaiveAnswersOf(run: seq<Event>, answers: seq<bool>) {
    |answers| == |run| && forall k {:trigger answers[k]} :: 0 <= k < |run| ==> answers[k] == NaiveOk(Accepted(run, k), run[k])
  }

  function InWindow(from: real): real -> bool {
    t => from <= t
  }

  lemma CountOneMore(h: seq<Event>, e: Event, ip: string, from: real)
    ensures |Filter(TimesOf(h + [e], ip), InWindow(from))| ==
            |Filter(TimesOf(h, ip), InWindow(from))| + (if e.ip == ip && from <= e.now then 1 else 0)
  {
    TimesOfAppend(h, e, ip);
    var extra := if e.ip == ip then [e.now] else [];
    FilterOfConcat(TimesOf(h, ip), extra, InWindow(from));
    assert Filter(extra, InWindow(from)) == if e.ip == ip && from <= e.now then [e.now] else [];
  }

  /** The events with a positive answer among the first `k`. */
  function Positive(run: seq<Event>, answers: seq<bool>, k: nat): seq<Event>
    requires |answers| == |run| && k <= |run|
  {
    if k == 0 then []
    else Positive(run, answers, k - 1) + (if answers[k - 1] then [run[k - 1]] else [])
  }

  lemma {:induction false} AcceptedIsPositive(run: seq<Event>, answers: seq<bool>, k: nat)
    requires NaiveAnswersOf(run, answers) && k <= |run|
    ensures Accepted(run, k) == Positive(run, answers, k)
  {
    if k > 0 {
      AcceptedIsPositive(run, answers, k - 1);
      assert answers[k - 1] == NaiveOk(Accepted(run, k - 1), run[k - 1]);
      assert Accepted(run, k - 1) + [] == Accepted(run, k - 1);
    }
  }

  lemma {:induction false} CountsPositive(run: seq<Event>, answers: seq<bool>, k: nat, ip: string, from: real, to: real)
    requires |answers| == |run| && k <= |run| && (forall i :: 0 <= i < k ==> run[i].now < to)
    ensures AcceptedIn(run, answers, k, ip, from, to) ==
            |Filter(TimesOf(Positive(run, answers, k), ip), InWindow(from))|
  {
    if k > 0 {
      var h := Positive(run, answers, k - 1);
      CountsPositive(run, answers, k - 1, ip, from, to);
      CountOneMore(h, run[k - 1], ip, from);
      assert h + [] == h;
    }
  }

  lemma {:induction false} WindowInsideRecent(times: seq<real>, from: real, now: real)
    requires now < from + RATE_WINDOW
    ensures |Filter(times, InWindow(from))| <= |Recent(times, now)|
  {
    if times != [] { WindowInsideRecent(times[1..], from, now); }
  }

  lemma RoomByNaive(run: seq<Event>, answers: seq<bool>, k: nat)
    requires NaiveAnswersOf(run, answers) && k < |run| && answers[k]
    ensures |Recent(TimesOf(Positive(run, answers, k), run[k].ip), run[k].now)| < RATE_MAX
  {
    AcceptedIsPositive(run, answers, k);
  }

  lemma AcceptedHasRoom(run: seq<Event>, answers: seq<bool>, k: nat, from: real)
    requires Monotonic(run) && NaiveAnswersOf(run, answers)
    requires k < |run| && answers[k] && from <= run[k].now < from + RATE_WINDOW
    ensures AcceptedIn(run, answers, k, run[k].ip, from, from + RATE_WINDOW) < RATE_MAX
  {
    RoomByNaive(run, answers, k);
    var ip, now := run[k].ip, run[k].now;
    var times := TimesOf(Positive(run, answers, k), ip);
    assert forall i :: 0 <= i < k ==> run[i].now <= now;
    CountsPositive(run, answers, k, ip, from, from + RATE_WINDOW);
    WindowInsideRecent(times, from, now);
  }

  lemma {:induction false} NaiveAtMostFive(run: seq<Event>, answers: seq<bool>, k: nat, ip: string, from: real)
    requires Monotonic(run) && NaiveAnswersOf(run, answers) && k <= |run|
    ensures AcceptedIn(run, answers, k, ip, from, from + RATE_WINDOW) <= RATE_MAX
  {
    if k > 0 {
      NaiveAtMostFive(run, answers, k - 1, ip, from);
      if answers[k - 1] && run[k - 1].ip == ip && from <= run[k - 1].now < from + RATE_WINDOW {
        AcceptedHasRoom(run, answers, k - 1, from);
      }
    }
  }

  /** In any half-open window of sixty seconds, at most five attempts of one address are accepted. */
  lemma AtMostFivePerMinute(run: seq<Event>, answers: seq<bool>, k: nat, ip: string, from: real)
    requires Monotonic(run) && AnswersOf(run, answers) && k <= |run|
    ensures AcceptedIn(run, answers, k, ip, from, from + 60.0) <= 5
  {
    AnswersAreNaive(run, answers);
    NaiveAtMostFive(run, answers, k, ip, from);
  }

  lemma AnswersAreNaive(run: seq<Event>, answers: seq<bool>)
    requires Monotonic(run) && AnswersOf(run, answers)
    ensures NaiveAnswersOf(run, answers)
  {
    forall k | 0 <= k < |run| ensures answers[k] == NaiveOk(Accepted(run, k), run[k]) {
      LimiterRefinesNaive(run, k);
    }
  }

  /** How many of the first `k` events with a positive answer came from `ip` less than sixty seconds before `now`. */
  function AcceptedBefore(run: seq<Event>, answers: seq<bool>, k: nat, ip: string, now: real): nat
    requires |answers| == |run| && k <= |run|
  {
    if k == 0 then 0
    else AcceptedBefore(run, answers, k - 1, ip, now)
         + (if answers[k - 1] && run[k - 1].ip == ip && now - run[k - 1].now < 60.0 then 1 else 0)
  }

  lemma RecentOneMore(h: seq<Event>, e: Event, ip: string, now: real)
    ensures |Recent(TimesOf(h + [e], ip), now)| ==
            |Recent(TimesOf(h, ip), now)| + (if e.ip == ip && now - e.now < 60.0 then 1 else 0)
  {
    TimesOfAppend(h, e, ip);
    var extra := if e.ip == ip then [e.now] else [];
    FilterOfConcat(TimesOf(h, ip), extra, IsRecent(now));
    assert Filter(extra, IsRecent(now)) == if e.ip == ip && now - e.now < 60.0 then [e.now] else [];
  }

  lemma {:induction false} CountsRecent(run: seq<Event>, answers: seq<bool>, k: nat, ip: string, now: real)
    requires |answers| == |run| && k <= |run|
    ensures AcceptedBefore(run, answers, k, ip, now) == |Recent(TimesOf(Positive(run, answers, k), ip), now)|
  {
    if k > 0 {
      var h := Positive(run, answers, k - 1);
      CountsRecent(run, answers, k - 1, ip, now);
      RecentOneMore(h, run[k - 1], ip, now);
      assert h + [] == h;
    }
  }

  /** An attempt is accepted exactly when fewer than five attempts of its address were accepted in the sixty seconds
      before it. Rejected attempts do not count. */
  lemma AcceptedExactly(run: seq<Event>, answers: seq<bool>, k: nat)
    requires Monotonic(run) && AnswersOf(run, answers) && k < |run|
    ensures answers[k] <==> AcceptedBefore(run, answers, k, run[k].ip, run[k].now) < 5
  {
    AnswersAreNaive(run, answers);
    AcceptedIsPositive(run, answers, k);
    CountsRecent(run, answers, k, run[k].ip, run[k].now);
  }

  // Bounded memory --------------------------------------------------------------------------------------------------

  ghost predicate ShortLists(a: Attempts) {
    forall ip :: ip in a ==> |a[ip]| <= RATE_MAX
  }

  /** The addresses with a recent recorded attempt. */
  function FreshKeys(a: Attempts, now: real): set<string> {
    set ip | ip in a && IsFresh(a, ip, now)
  }

  lemma {:induction false} FilterShrinks<T>(s: seq<T>, p: T -> bool)
    ensures |Filter(s, p)| <= |s|
  {
    if s != [] { FilterShrinks(s[1..], p); }
  }

  lemma SweptKeys(a: Attempts, now: real)
    ensures Swept(a, now).Keys <= a.Keys
    ensures |a| > CLEANUP_THRESHOLD ==> Swept(a, now).Keys == FreshKeys(a, now)
    ensures ShortLists(a) ==> ShortLists(Swept(a, now))
  {
  }

  lemma OneMoreKey<K, V>(m: map<K, V>, k: K, v: V)
    ensures |m[k := v]| <= |m| + 1
  {
    var m' := m[k := v];
    assert m'.Keys == m.Keys + {k};
    if k in m.Keys { assert m'.Keys == m.Keys; }
  }

  /** After every call no list is longer than five, and there are at most 501 keys or one more than there
      were fresh addresses when the call came. */
  lemma StepBounded(a: Attempts, e: Event)
    requires ShortLists(a)
    ensures ShortLists(Step(a, e).0)
    ensures |Step(a, e).0| <= CLEANUP_THRESHOLD + 1 || |Step(a, e).0| <= |FreshKeys(a, e.now)| + 1
  {
    var swept := Swept(a, e.now);
    SweptKeys(a, e.now);
    var recent := Recent(Times(swept, e.ip), e.now);
    FilterShrinks(Times(swept, e.ip), IsRecent(e.now));
    var list := if |recent| >= RATE_MAX then recent else recent + [e.now];
    assert Step(a, e).0 == swept[e.ip := list];
    OneMoreKey(swept, e.ip, list);
    assert |swept| == |swept.Keys|;
  }

  lemma {:induction false} RunBounded(run: seq<Event>, k: nat)
    requires k <= |run|
    ensures forall ip :: ip in After(run, k) ==> |After(run, k)[ip]| <= 5
    ensures k > 0 ==> |After(run, k)| <= 501 || |After(run, k)| <= |FreshKeys(After(run, k - 1), run[k - 1].now)| + 1
  {
    if k > 0 {
      RunBounded(run, k - 1);
      StepBounded(After(run, k - 1), run[k - 1]);
    }
  }
}
