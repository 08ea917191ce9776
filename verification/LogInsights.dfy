/** The summary of problem logs: recognised lines are counted by what they report, and the top buckets shown. */
module LogInsights {
  import opened Prelude
  import opened Text
  import opened Sequences
  import opened Sorting

  /** What two lines must share to be counted together. */
  datatype Key = Key(kind: string, protocol: Option<string>, outboundTag: Option<string>, target: Option<string>, reason: string)

  /** A recognised line, and its timestamp if it starts with one. */
  datatype Parsed = Parsed(key: Key, seen: string)

  datatype Insight = Insight(key: Key, count: nat, lastSeen: string)

  function Max(a: string, b: string): string {
    if Less(a, b) then b else a
  }

  function Count(lines: seq<Parsed>, key: Key): nat {
    if lines == [] then 0
    else Count(lines[..|lines| - 1], key) + (if lines[|lines| - 1].key == key then 1 else 0)
  }

  /** The latest timestamp of the lines of one key; empty when there is none. */
  function LastSeen(lines: seq<Parsed>, key: Key): string {
    if lines == [] then ""
    else if lines[|lines| - 1].key == key then Max(LastSeen(lines[..|lines| - 1], key), lines[|lines| - 1].seen)
    else LastSeen(lines[..|lines| - 1], key)
  }

  /** The keys in order of first appearance, as a dictionary keeps them. */
  function Keys(lines: seq<Parsed>): seq<Key> {
    if lines == [] then []
    else
      var keys := Keys(lines[..|lines| - 1]);
      if lines[|lines| - 1].key in keys then keys else keys + [lines[|lines| - 1].key]
  }

  function Bucket(lines: seq<Parsed>, key: Key): Insight {
    Insight(key, Count(lines, key), LastSeen(lines, key))
  }

  function BucketOf(lines: seq<Parsed>): Key -> Insight {
    key => Bucket(lines, key)
  }

  function Buckets(lines: seq<Parsed>): seq<Insight> {
    Map(Keys(lines), BucketOf(lines))
  }

  /** The order of `sorted(..., key=(count, last_seen), reverse=True)`. */
  predicate RankedBefore(a: Insight, b: Insight) {
    a.count > b.count || (a.count == b.count && AtMost(b.lastSeen, a.lastSeen))
  }

  function Take<T>(s: seq<T>, limit: nat): seq<T> {
    if |s| <= limit then s else s[..limit]
  }

  function Summary(lines: seq<Parsed>, limit: nat): seq<Insight> {
    Take(Sort(Buckets(lines), RankedBefore), limit)
  }

  /** The state of the loop after some lines: one bucket for each key. */
  ghost predicate Collected(lines: seq<Parsed>, order: seq<Key>, buckets: map<Key, Insight>) {
    && order == Keys(lines)
    && (forall k :: k in buckets <==> k in order)
    && (forall k :: k in buckets ==> buckets[k] == Bucket(lines, k))
  }

  lemma EmptyIsLeast(s: string)
    ensures Max("", s) == s
  {
  }

  lemma {:induction false} AbsentKey(lines: seq<Parsed>, key: Key)
    ensures key !in Keys(lines) ==> Count(lines, key) == 0 && LastSeen(lines, key) == ""
    ensures key in Keys(lines) <==> exists i :: 0 <= i < |lines| && lines[i].key == key
  {
    if lines != [] {
      var init := lines[..|lines| - 1];
      AbsentKey(init, key);
      if key in Keys(init) {
        var i :| 0 <= i < |init| && init[i].key == key;
        assert lines[i].key == key;
      }
      if i :| 0 <= i < |lines| && lines[i].key == key && i < |lines| - 1 {
        assert init[i].key == key;
      }
    }
  }

  lemma OneMoreLine(lines: seq<Parsed>, p: Parsed, key: Key)
    ensures Keys(lines + [p]) == if p.key in Keys(lines) then Keys(lines) else Keys(lines) + [p.key]
    ensures Bucket(lines + [p], key) ==
            if p.key != key then Bucket(lines, key)
            else Insight(key, Count(lines, key) + 1, Max(LastSeen(lines, key), p.seen))
  {
    var all := lines + [p];
    assert all[..|lines|] == lines && all[|lines|] == p;
  }

  lemma CollectKnown(lines: seq<Parsed>, p: Parsed, order: seq<Key>, buckets: map<Key, Insight>)
    requires Collected(lines, order, buckets) && p.key in buckets
    ensures var b := buckets[p.key];
            Collected(lines + [p], order, buckets[p.key := Insight(p.key, b.count + 1, Max(b.lastSeen, p.seen))])
  {
    var b := buckets[p.key];
    var buckets' := buckets[p.key := Insight(p.key, b.count + 1, Max(b.lastSeen, p.seen))];
    OneMoreLine(lines, p, p.key);
    forall k | k in buckets' ensures buckets'[k] == Bucket(lines + [p], k) {
      OneMoreLine(lines, p, k);
    }
  }

  lemma CollectNew(lines: seq<Parsed>, p: Parsed, order: seq<Key>, buckets: map<Key, Insight>)
    requires Collected(lines, order, buckets) && p.key !in buckets
    ensures Collected(lines + [p], order + [p.key], buckets[p.key := Insight(p.key, 1, p.seen)])
  {
    var buckets' := buckets[p.key := Insight(p.key, 1, p.seen)];
    AbsentKey(lines, p.key);
    EmptyIsLeast(p.seen);
    OneMoreLine(lines, p, p.key);
    forall k | k in buckets' ensures buckets'[k] == Bucket(lines + [p], k) {
      OneMoreLine(lines, p, k);
    }
  }

  lemma ValuesOneMore(parsed: seq<Option<Parsed>>, i: nat)
    requires i < |parsed|
    ensures Values(parsed[..i + 1]) ==
            if parsed[i].Some? then Values(parsed[..i]) + [parsed[i].value] else Values(parsed[..i])
  {
    assert parsed[..i + 1][..i] == parsed[..i];
    assert Values(parsed[..i]) + [] == Values(parsed[..i]);
  }

  /** The values of the dictionary. */
  function InOrder(order: seq<Key>, buckets: map<Key, Insight>): seq<Insight>
    requires forall k :: k in order ==> k in buckets
  {
    if order == [] then [] else [buckets[order[0]]] + InOrder(order[1..], buckets)
  }

  lemma {:induction false} InOrderIsMap(order: seq<Key>, buckets: map<Key, Insight>, f: Key -> Insight)
    requires forall k :: k in order ==> k in buckets && buckets[k] == f(k)
    ensures InOrder(order, buckets) == Map(order, f)
  {
    if order != [] {
      assert order[0] in order;
      InOrderIsMap(order[1..], buckets, f);
    }
  }

  lemma CollectedAll(lines: seq<Parsed>, order: seq<Key>, buckets: map<Key, Insight>)
    requires Collected(lines, order, buckets)
    ensures InOrder(order, buckets) == Buckets(lines)
  {
    InOrderIsMap(order, buckets, BucketOf(lines));
  }

  /** `summarize_problem_logs`, given what each line parses to. */
  method SummarizeProblemLogs(parsed: seq<Option<Parsed>>, limit: nat) returns (summary: seq<Insight>)
    ensures summary == Summary(Values(parsed), limit)
  {
    var order: seq<Key>, buckets: map<Key, Insight> := [], map[];
    for i := 0 to |parsed|
      invariant Collected(Values(parsed[..i]), order, buckets)
    {
      ValuesOneMore(parsed, i);
      if parsed[i].Some? {
        ghost var lines := Values(parsed[..i]);
        var p := parsed[i].value;
        if p.key in buckets {
          CollectKnown(lines, p, order, buckets);
          var existing := buckets[p.key];
          buckets := buckets[p.key := Insight(p.key, existing.count + 1, Max(existing.lastSeen, p.seen))];
        } else {
          CollectNew(lines, p, order, buckets);
          order := order + [p.key];
          buckets := buckets[p.key := Insight(p.key, 1, p.seen)];
        }
      }
    }
    assert parsed[..|parsed|] == parsed;
    CollectedAll(Values(parsed), order, buckets);
    return Take(Sort(InOrder(order, buckets), RankedBefore), limit);
  }

  // What a summary means --------------------------------------------------------------------------------------------

  lemma {:induction false} KeysDistinct(lines: seq<Parsed>)
    ensures NoDuplicates(Keys(lines))
  {
    if lines != [] { KeysDistinct(lines[..|lines| - 1]); }
  }

  function Total(keys: seq<Key>, lines: seq<Parsed>): nat {
    if keys == [] then 0 else Count(lines, keys[0]) + Total(keys[1..], lines)
  }

  lemma {:induction false} TotalOneMore(keys: seq<Key>, lines: seq<Parsed>)
    requires lines != [] && NoDuplicates(keys)
    ensures Total(keys, lines) ==
            Total(keys, lines[..|lines| - 1]) + (if lines[|lines| - 1].key in keys then 1 else 0)
  {
    if keys != [] {
      TotalOneMore(keys[1..], lines);
      assert keys == [keys[0]] + keys[1..];
      assert keys[0] !in keys[1..];
    }
  }

  lemma {:induction false} TotalOfConcat(a: seq<Key>, b: seq<Key>, lines: seq<Parsed>)
    ensures Total(a + b, lines) == Total(a, lines) + Total(b, lines)
  {
    if a == [] {
      assert a + b == b;
    } else {
      assert (a + b)[1..] == a[1..] + b;
      TotalOfConcat(a[1..], b, lines);
    }
  }

  /** Each recognised line is counted in exactly one bucket. */
  lemma {:induction false} CountsSumToLines(lines: seq<Parsed>)
    ensures Total(Keys(lines), lines) == |lines|
  {
    if lines != [] {
      var init, key := lines[..|lines| - 1], lines[|lines| - 1].key;
      CountsSumToLines(init);
      KeysDistinct(init);
      KeysDistinct(lines);
      TotalOneMore(Keys(lines), lines);
      if key !in Keys(init) {
        TotalOfConcat(Keys(init), [key], init);
        AbsentKey(init, key);
        assert Total([key], init) == Count(init, key) + Total([], init);
      }
    }
  }

  /** The timestamp of a bucket is the greatest among its lines. */
  lemma {:induction false} LastSeenIsMaximum(lines: seq<Parsed>, key: Key)
    ensures forall i :: 0 <= i < |lines| && lines[i].key == key ==> AtMost(lines[i].seen, LastSeen(lines, key))
    ensures key in Keys(lines) ==> exists i :: 0 <= i < |lines| && lines[i].key == key && lines[i].seen == LastSeen(lines, key)
  {
    if lines != [] {
      var init, last := lines[..|lines| - 1], lines[|lines| - 1];
      LastSeenIsMaximum(init, key);
      AbsentKey(init, key);
      var before := LastSeen(init, key);
      AtMostLinear(before, last.seen, before);
      LessIrreflexive(last.seen);
      forall i | 0 <= i < |lines| && lines[i].key == key ensures AtMost(lines[i].seen, LastSeen(lines, key)) {
        if i < |init| {
          assert init[i] == lines[i];
          AtMostLinear(lines[i].seen, before, last.seen);
        }
      }
      if key in Keys(lines) {
        if last.key == key && LastSeen(lines, key) == last.seen {
          assert lines[|lines| - 1].seen == LastSeen(lines, key);
        } else if key in Keys(init) {
          var i :| 0 <= i < |init| && init[i].key == key && init[i].seen == before;
          assert lines[i].seen == before;
        } else {
          EmptyIsLeast(last.seen);
        }
      }
    }
  }

  /** There is one bucket for each key that occurs; it counts the lines of the key and bears their greatest timestamp. */
  lemma BucketsAreTrue(lines: seq<Parsed>, b: Insight)
    ensures b in Buckets(lines) <==>
            && (exists i :: 0 <= i < |lines| && lines[i].key == b.key)
            && b.count == |Filter(lines, HasKey(b.key))| && b.lastSeen == LastSeen(lines, b.key)
  {
    AbsentKey(lines, b.key);
    CountIsFilter(lines, b.key);
    if b in Buckets(lines) {
      var i :| 0 <= i < |Keys(lines)| && Buckets(lines)[i] == b;
      assert Keys(lines)[i] in Keys(lines);
      AbsentKey(lines, Keys(lines)[i]);
      CountIsFilter(lines, Keys(lines)[i]);
    }
    if b.key in Keys(lines) {
      var i :| 0 <= i < |Keys(lines)| && Keys(lines)[i] == b.key;
      assert Buckets(lines)[i] == Bucket(lines, b.key);
    }
  }

  lemma RankingIsOrder()
    ensures TotalPreorder(RankedBefore)
  {
    forall a: Insight, b: Insight, c: Insight
      ensures RankedBefore(a, b) || RankedBefore(b, a)
      ensures RankedBefore(a, b) && RankedBefore(b, c) ==> RankedBefore(a, c)
    {
      AtMostLinear(c.lastSeen, b.lastSeen, a.lastSeen);
      AtMostLinear(a.lastSeen, b.lastSeen, c.lastSeen);
    }
  }

  /** More lines, or as many and not earlier. */
  predicate Outranks(a: Insight, b: Insight) {
    a.count >= b.count && (a.count == b.count ==> !Less(a.lastSeen, b.lastSeen))
  }

  /** The summary shows as many buckets as allowed, each once and with its true counts, from the most frequent down, among
      equally frequent ones the latest first; and no bucket it leaves out is more frequent, or as frequent and later, than
      one it shows. */
  lemma SummaryIsTop(lines: seq<Parsed>, limit: nat) returns (omitted: seq<Insight>)
    ensures multiset(Summary(lines, limit)) + multiset(omitted) == multiset(Buckets(lines))
    ensures |Summary(lines, limit)| <= limit && (omitted != [] ==> |Summary(lines, limit)| == limit)
    ensures forall i, j :: 0 <= i < j < |Summary(lines, limit)| ==> Outranks(Summary(lines, limit)[i], Summary(lines, limit)[j])
    ensures forall s, o :: s in Summary(lines, limit) && o in omitted ==> Outranks(s, o)
  {
    var sorted := Sort(Buckets(lines), RankedBefore);
    RankingIsOrder();
    SortPermutes(Buckets(lines), RankedBefore);
    SortSorts(Buckets(lines), RankedBefore);
    omitted := CutSorted(sorted, limit);
  }

  lemma CutSorted(sorted: seq<Insight>, limit: nat) returns (omitted: seq<Insight>)
    requires IsSorted(sorted, RankedBefore)
    ensures sorted == Take(sorted, limit) + omitted && (omitted != [] ==> |Take(sorted, limit)| == limit)
    ensures IsSorted(Take(sorted, limit), RankedBefore)
    ensures forall s, o :: s in Take(sorted, limit) && o in omitted ==> RankedBefore(s, o)
  {
    omitted := if |sorted| <= limit then [] else sorted[limit..];
    var shown := Take(sorted, limit);
    forall s, o | s in shown && o in omitted ensures RankedBefore(s, o) {
      var i :| 0 <= i < |shown| && shown[i] == s;
      var j :| 0 <= j < |omitted| && omitted[j] == o;
      assert sorted[i] == s && sorted[limit + j] == o;
    }
  }

  // The order of lines ----------------------------------------------------------------------------------------------

  function HasKey(key: Key): Parsed -> bool {
    (p: Parsed) => p.key == key
  }

  lemma {:induction false} CountIsFilter(lines: seq<Parsed>, key: Key)
    ensures Count(lines, key) == |Filter(lines, HasKey(key))|
  {
    if lines != [] {
      var init, last := lines[..|lines| - 1], lines[|lines| - 1];
      CountIsFilter(init, key);
      assert lines == init + [last];
      FilterOneMore(init, last, HasKey(key));
    }
  }

  lemma LastSeenOfPermutation(a: seq<Parsed>, b: seq<Parsed>, key: Key)
    requires multiset(a) == multiset(b)
    ensures key in Keys(a) <==> key in Keys(b)
    ensures LastSeen(a, key) == LastSeen(b, key)
  {
    SameMembers(a, b);
    AbsentKey(a, key);
    AbsentKey(b, key);
    KeyTransfers(a, b, key);
    KeyTransfers(b, a, key);
    if key in Keys(a) && key in Keys(b) {
      LatestTransfers(a, b, key);
      LatestTransfers(b, a, key);
      AtMostLinear(LastSeen(a, key), LastSeen(b, key), LastSeen(a, key));
    }
  }

  lemma KeyTransfers(a: seq<Parsed>, b: seq<Parsed>, key: Key)
    requires forall p :: p in a <==> p in b
    ensures (exists i :: 0 <= i < |a| && a[i].key == key) ==> exists i :: 0 <= i < |b| && b[i].key == key
  {
    if i :| 0 <= i < |a| && a[i].key == key {
      assert a[i] in b;
      var j :| 0 <= j < |b| && b[j] == a[i];
    }
  }

  lemma LatestTransfers(a: seq<Parsed>, b: seq<Parsed>, key: Key)
    requires (forall p :: p in a <==> p in b) && key in Keys(a)
    ensures AtMost(LastSeen(a, key), LastSeen(b, key))
  {
    LastSeenIsMaximum(a, key);
    LastSeenIsMaximum(b, key);
    var i :| 0 <= i < |a| && a[i].key == key && a[i].seen == LastSeen(a, key);
    assert a[i] in b;
    var j :| 0 <= j < |b| && b[j] == a[i];
  }

  lemma CountOfPermutation(a: seq<Parsed>, b: seq<Parsed>, key: Key)
    requires multiset(a) == multiset(b)
    ensures Count(a, key) == Count(b, key)
  {
    CountIsFilter(a, key);
    CountIsFilter(b, key);
    FilterOfPermutation(a, b, HasKey(key));
    SameMembers(Filter(a, HasKey(key)), Filter(b, HasKey(key)));
  }

  /** Lists without repetition and with the same members are permutations of each other. */
  lemma SameMembersPermute<T>(a: seq<T>, b: seq<T>)
    requires NoDuplicates(a) && NoDuplicates(b) && forall x :: x in a <==> x in b
    ensures multiset(a) == multiset(b)
  {
    forall x ensures multiset(a)[x] == multiset(b)[x] {
      CountOnce(a, x);
      CountOnce(b, x);
    }
  }

  lemma PointwiseMap<T, U>(s: seq<T>, f: T -> U, g: T -> U)
    requires forall x :: x in s ==> f(x) == g(x)
    ensures Map(s, f) == Map(s, g)
  {
    forall i | 0 <= i < |s| ensures Map(s, f)[i] == Map(s, g)[i] {
      assert s[i] in s;
    }
  }

  /** The buckets do not depend on the order of the lines. */
  lemma BucketsIgnoreOrder(a: seq<Parsed>, b: seq<Parsed>)
    requires multiset(a) == multiset(b)
    ensures multiset(Buckets(a)) == multiset(Buckets(b))
  {
    KeysDistinct(a);
    KeysDistinct(b);
    forall key ensures key in Keys(a) <==> key in Keys(b) {
      LastSeenOfPermutation(a, b, key);
    }
    SameMembersPermute(Keys(a), Keys(b));
    forall key | key in Keys(a) ensures BucketOf(a)(key) == BucketOf(b)(key) {
      LastSeenOfPermutation(a, b, key);
      CountOfPermutation(a, b, key);
    }
    PointwiseMap(Keys(a), BucketOf(a), BucketOf(b));
    MapOfPermutation(Keys(a), Keys(b), BucketOf(b));
  }
}
