/** The polling loop of the Telegram bot: updates are taken in order, and none twice, whatever fails. */
module BotPolling {
  import opened Prelude

  /** An update; without a chat it is taken but not dispatched. */
  datatype Update = Update(id: int, hasChat: bool)

  /** How one round of polling goes: the request fails, or it yields a batch, of which some update's handler or
      answer may raise. */
  datatype Round = RequestFails | Batch(updates: seq<Update>, failsAt: Option<nat>)

  /** The offset, and what has been taken and dispatched so far. */
  datatype State = State(offset: Option<int>, taken: seq<int>, dispatched: seq<int>)

  /** One update: the offset moves past it before anything else is done with it. */
  function TakeOne(s: State, u: Update): State {
    State(Some(u.id + 1), s.taken + [u.id], if u.hasChat then s.dispatched + [u.id] else s.dispatched)
  }

  function TakeAll(s: State, updates: seq<Update>): State {
    if updates == [] then s else TakeOne(TakeAll(s, updates[..|updates| - 1]), updates[|updates| - 1])
  }

  /** How many updates of the batch are reached: a failure leaves the rest for the next request. */
  function Reached(r: Round): nat
    requires r.Batch?
  {
    if r.failsAt.Some? && r.failsAt.value < |r.updates| && r.updates[r.failsAt.value].hasChat then r.failsAt.value + 1
    else |r.updates|
  }

  function Poll(s: State, r: Round): State {
    if r.RequestFails? then s else TakeAll(s, r.updates[..Reached(r)])
  }

  class Runner {
    var offset: Option<int>
    ghost var taken: seq<int>
    ghost var dispatched: seq<int>

    constructor ()
      ensures Current() == State(None, [], [])
    {
      offset, taken, dispatched := None, [], [];
    }

    ghost function Current(): State
      reads this
    {
      State(offset, taken, dispatched)
    }

    /** `poll_once`; `ok` says whether it returned normally. `run_forever` goes on in both cases. */
    method PollOnce(r: Round) returns (ok: bool)
      modifies this
      ensures Current() == Poll(old(Current()), r)
      ensures ok <==> r.Batch? && !(r.failsAt.Some? && r.failsAt.value < |r.updates| && r.updates[r.failsAt.value].hasChat)
    {
      if r.RequestFails? {
        return false;
      }
      ghost var start := Current();
      for i := 0 to |r.updates|
        invariant r.failsAt.Some? && r.failsAt.value < i ==> !r.updates[r.failsAt.value].hasChat
        invariant Current() == TakeAll(start, r.updates[..i])
      {
        assert r.updates[..i + 1][..i] == r.updates[..i];
        var u := r.updates[i];
        offset := Some(u.id + 1);
        taken := taken + [u.id];
        if u.hasChat {
          dispatched := dispatched + [u.id];
          if r.failsAt == Some(i) {
            return false;
          }
        }
      }
      assert r.updates[..|r.updates|] == r.updates;
      return true;
    }
  }

  // The server ------------------------------------------------------------------------------------------------------

  ghost predicate Ascending(ids: seq<int>) {
    forall i, j :: 0 <= i < j < |ids| ==> ids[i] < ids[j]
  }

  ghost predicate AscendingUpdates(stream: seq<Update>) {
    forall i, j :: 0 <= i < j < |stream| ==> stream[i].id < stream[j].id
  }

  /** The server has queued `stream` so far, in ascending order, and answers with the next few updates at or above
      the offset: those from position `at` on. */
  ghost predicate Honest(stream: seq<Update>, s: State, r: Round, at: nat) {
    r.Batch? ==>
      && at + |r.updates| <= |stream| && r.updates == stream[at..at + |r.updates|]
      && (s.offset.None? ==> at == 0)
      && (s.offset.Some? ==> (forall i :: 0 <= i < at ==> stream[i].id < s.offset.value)
                             && (forall i :: at <= i < |stream| ==> stream[i].id >= s.offset.value))
  }

  function Ids(stream: seq<Update>): seq<int> {
    seq(|stream|, i requires 0 <= i < |stream| => stream[i].id)
  }

  /** The ids of the updates that carry a chat. */
  function ChatIds(stream: seq<Update>): seq<int> {
    if stream == [] then []
    else ChatIds(stream[..|stream| - 1]) + (if stream[|stream| - 1].hasChat then [stream[|stream| - 1].id] else [])
  }

  /** Exactly the first `n` updates of the stream have been taken, each once and in order, those with a chat have
      been dispatched, and the offset stands right behind the last one. */
  ghost predicate Consumed(stream: seq<Update>, n: nat, s: State) {
    && n <= |stream|
    && s.taken == Ids(stream[..n]) && s.dispatched == ChatIds(stream[..n])
    && (if n == 0 then s.offset.None? else s.offset == Some(stream[n - 1].id + 1))
  }

  lemma ServerResumes(stream: seq<Update>, n: nat, s: State, r: Round, at: nat)
    requires AscendingUpdates(stream) && Consumed(stream, n, s) && Honest(stream, s, r, at)
    requires r.Batch? && r.updates != []
    ensures at == n
  {
    assert r.updates[0] == stream[at];
    assert forall i :: 0 <= i < n ==> stream[i].id <= stream[n - 1].id;
    assert 0 < n < |stream| ==> stream[n - 1].id < stream[n].id;
    if at < n {
      assert false;
    } else if n < at {
      assert false;
    }
  }

  lemma TakeOneConsumes(stream: seq<Update>, n: nat, s: State)
    requires Consumed(stream, n, s) && n < |stream|
    ensures Consumed(stream, n + 1, TakeOne(s, stream[n]))
  {
    var head := stream[..n + 1];
    assert head[..n] == stream[..n] && head[n] == stream[n];
    assert Ids(head) == Ids(stream[..n]) + [stream[n].id];
    assert ChatIds(stream[..n]) + [] == ChatIds(stream[..n]);
  }

  lemma TakeAllOneMore(s: State, stream: seq<Update>, n: nat, m: nat)
    requires n + m < |stream|
    ensures TakeAll(s, stream[n..n + m + 1]) == TakeOne(TakeAll(s, stream[n..n + m]), stream[n + m])
  {
    var batch := stream[n..n + m + 1];
    assert batch[..m] == stream[n..n + m] && batch[m] == stream[n + m];
  }

  lemma {:induction false} TakeAllConsumes(stream: seq<Update>, n: nat, s: State, m: nat)
    requires Consumed(stream, n, s) && n + m <= |stream|
    ensures Consumed(stream, n + m, TakeAll(s, stream[n..n + m]))
  {
    if m > 0 {
      TakeAllConsumes(stream, n, s, m - 1);
      TakeAllOneMore(s, stream, n, m - 1);
      TakeOneConsumes(stream, n + (m - 1), TakeAll(s, stream[n..n + (m - 1)]));
    }
  }

  /** Handling update `j` of the batch raises, and no earlier one did. */
  predicate RaisesAt(r: Round, j: nat) {
    r.Batch? && j < |r.updates| && r.failsAt == Some(j) && r.updates[j].hasChat
  }

  /** One round, whatever fails in it, extends what has been consumed without a gap or a repetition: by nothing when the
      request fails, by the whole batch when nothing does, and up to and including the update whose handling raises, which
      is not handled again. */
  lemma PollConsumes(stream: seq<Update>, n: nat, s: State, r: Round, at: nat) returns (n': nat)
    requires AscendingUpdates(stream) && Consumed(stream, n, s) && Honest(stream, s, r, at)
    ensures n <= n' && Consumed(stream, n', Poll(s, r))
    ensures r.RequestFails? ==> n' == n
    ensures r.Batch? && (forall j :: !RaisesAt(r, j)) ==> n' == n + |r.updates|
    ensures forall j :: RaisesAt(r, j) ==> n' == n + j + 1
  {
    n' := n;
    if r.Batch? && r.updates != [] {
      ServerResumes(stream, n, s, r, at);
      n' := n + Reached(r);
      assert Reached(r) < |r.updates| ==> RaisesAt(r, Reached(r) - 1);
      assert r.failsAt.Some? ==> r.failsAt.value < |r.updates| && r.updates[r.failsAt.value].hasChat ==> RaisesAt(r, r.failsAt.value);
      assert r.updates[..Reached(r)] == stream[n..n + Reached(r)];
      TakeAllConsumes(stream, n, s, Reached(r));
    }
  }

  // Runs ------------------------------------------------------------------------------------------------------------

  /** The states of `run_forever`, with what the server had queued at each round: its queue only grows. */
  ghost predicate IsRun(streams: seq<seq<Update>>, rounds: seq<Round>, ats: seq<nat>, states: seq<State>) {
    && |states| == |rounds| + 1 && |streams| == |states| && |ats| == |rounds|
    && states[0] == State(None, [], [])
    && (forall k :: 0 <= k < |streams| ==> AscendingUpdates(streams[k]))
    && (forall k {:trigger rounds[k]} :: 0 <= k < |rounds| ==>
          && streams[k] <= streams[k + 1]
          && Honest(streams[k], states[k], rounds[k], ats[k])
          && states[k + 1] == Poll(states[k], rounds[k]))
  }

  lemma ConsumedInLonger(stream: seq<Update>, longer: seq<Update>, n: nat, s: State)
    requires Consumed(stream, n, s) && stream <= longer
    ensures Consumed(longer, n, s)
  {
    assert longer[..n] == stream[..n];
    if n > 0 { assert longer[n - 1] == stream[n - 1]; }
  }

  lemma {:induction false} RunConsumes(streams: seq<seq<Update>>, rounds: seq<Round>, ats: seq<nat>, states: seq<State>, k: nat)
    returns (n: nat)
    requires IsRun(streams, rounds, ats, states) && k <= |rounds|
    ensures Consumed(streams[k], n, states[k])
  {
    n := 0;
    if k > 0 {
      var before := RunConsumes(streams, rounds, ats, states, k - 1);
      var r := rounds[k - 1];
      n := PollConsumes(streams[k - 1], before, states[k - 1], r, ats[k - 1]);
      ConsumedInLonger(streams[k - 1], streams[k], n, states[k]);
    } else {
      assert streams[0][..0] == [];
    }
  }

  lemma {:induction false} ChatIdsAscend(stream: seq<Update>)
    requires AscendingUpdates(stream)
    ensures Ascending(ChatIds(stream))
    ensures forall id :: id in ChatIds(stream) ==> exists i :: 0 <= i < |stream| && stream[i].id == id && stream[i].hasChat
  {
    if stream != [] {
      var init, last := stream[..|stream| - 1], stream[|stream| - 1];
      ChatIdsAscend(init);
      forall id | id in ChatIds(init)
        ensures id < last.id && exists i :: 0 <= i < |stream| && stream[i].id == id && stream[i].hasChat
      {
        var i :| 0 <= i < |init| && init[i].id == id && init[i].hasChat;
        assert stream[i] == init[i];
      }
      var ids := ChatIds(init);
      forall i | 0 <= i < |ids| ensures ids[i] < last.id { assert ids[i] in ids; }
    }
  }

  lemma {:induction false} ChatIdsComplete(stream: seq<Update>)
    ensures forall i :: 0 <= i < |stream| && stream[i].hasChat ==> stream[i].id in ChatIds(stream)
  {
    if stream != [] {
      var init := stream[..|stream| - 1];
      ChatIdsComplete(init);
      assert forall i :: 0 <= i < |init| ==> init[i] == stream[i];
    }
  }

  /**
   Whatever requests, handlers and answers fail, and wherever: the ids dispatched strictly increase, so none is
   dispatched twice; an update of the queue lies below the offset exactly when it has been taken, once; and of those
   taken exactly the ones with a chat have been dispatched.
   */
  lemma PollingIsExactlyOnce(streams: seq<seq<Update>>, rounds: seq<Round>, ats: seq<nat>, states: seq<State>, k: nat)
    requires IsRun(streams, rounds, ats, states) && k <= |rounds|
    ensures Ascending(states[k].dispatched) && Ascending(states[k].taken)
    ensures forall i :: 0 <= i < |streams[k]| ==>
              (streams[k][i].id in states[k].taken <==>
                 states[k].offset.Some? && streams[k][i].id < states[k].offset.value)
    ensures forall i :: 0 <= i < |streams[k]| ==>
              (streams[k][i].id in states[k].dispatched <==> streams[k][i].id in states[k].taken && streams[k][i].hasChat)
  {
    var n := RunConsumes(streams, rounds, ats, states, k);
    var stream, s := streams[k], states[k];
    ChatIdsAscend(stream[..n]);
    forall i | 0 <= i < |stream|
      ensures stream[i].id in s.taken <==> s.offset.Some? && stream[i].id < s.offset.value
    {
      if i < n { assert s.taken[i] == stream[i].id; }
      if n > 0 && i < n - 1 { assert stream[i].id < stream[n - 1].id; }
    }
    ChatIdsComplete(stream[..n]);
    forall i | 0 <= i < |stream| ensures stream[i].id in s.dispatched <==> stream[i].id in s.taken && stream[i].hasChat {
      if stream[i].id in s.dispatched {
        var j :| 0 <= j < n && stream[..n][j].id == stream[i].id && stream[..n][j].hasChat;
        assert s.taken[j] == stream[i].id && j == i;
      }
      if i < n && stream[i].hasChat { assert stream[..n][i] == stream[i]; }
    }
  }
}
