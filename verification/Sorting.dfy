/** Python's `sorted`: a stable sort by a total preorder, and when its result is canonical. */
module Sorting {
  import opened Sequences
  import opened Text

  ghost predicate TotalPreorder<T(!new)>(leq: (T, T) -> bool) {
    && (forall x, y :: leq(x, y) || leq(y, x))
    && (forall x, y, z :: leq(x, y) && leq(y, z) ==> leq(x, z))
  }

  /** Distinct members of `s` are never equivalent under `leq`. */
  ghost predicate AntisymmetricOn<T(!new)>(s: seq<T>, leq: (T, T) -> bool) {
    forall x, y :: x in s && y in s && leq(x, y) && leq(y, x) ==> x == y
  }

  ghost predicate IsSorted<T>(s: seq<T>, leq: (T, T) -> bool) {
    forall i, j :: 0 <= i < j < |s| ==> leq(s[i], s[j])
  }

  /** Put `x` before the first member it may precede: equal members keep their order. */
  function Insert<T>(x: T, s: seq<T>, leq: (T, T) -> bool): (r: seq<T>)
    ensures |r| == |s| + 1
  {
    if s == [] || leq(x, s[0]) then [x] + s else [s[0]] + Insert(x, s[1..], leq)
  }

  function Sort<T>(s: seq<T>, leq: (T, T) -> bool): (r: seq<T>)
    ensures |r| == |s|
  {
    if s == [] then [] else Insert(s[0], Sort(s[1..], leq), leq)
  }

  lemma {:induction false} InsertPermutes<T>(x: T, s: seq<T>, leq: (T, T) -> bool)
    ensures multiset(Insert(x, s, leq)) == multiset{x} + multiset(s)
  {
    if s != [] && !leq(x, s[0]) {
      InsertPermutes(x, s[1..], leq);
      assert s == [s[0]] + s[1..];
    }
  }

  lemma {:induction false} InsertSorts<T(!new)>(x: T, s: seq<T>, leq: (T, T) -> bool)
    requires TotalPreorder(leq) && IsSorted(s, leq)
    ensures IsSorted(Insert(x, s, leq), leq)
  {
    if s != [] && !leq(x, s[0]) {
      var rest := Insert(x, s[1..], leq);
      InsertSorts(x, s[1..], leq);
      InsertPermutes(x, s[1..], leq);
      forall i | 0 <= i < |rest| ensures leq(s[0], rest[i]) {
        assert rest[i] in multiset(rest);
        assert rest[i] == x || rest[i] in s[1..];
      }
    }
  }

  lemma {:induction false} SortPermutes<T>(s: seq<T>, leq: (T, T) -> bool)
    ensures multiset(Sort(s, leq)) == multiset(s)
    ensures forall x :: x in Sort(s, leq) <==> x in s
  {
    if s != [] {
      SortPermutes(s[1..], leq);
      InsertPermutes(s[0], Sort(s[1..], leq), leq);
      assert s == [s[0]] + s[1..];
    }
    SameMembers(Sort(s, leq), s);
    assert |multiset(Sort(s, leq))| == |multiset(s)|;
  }

  lemma SameMembers<T>(a: seq<T>, b: seq<T>)
    requires multiset(a) == multiset(b)
    ensures |a| == |b|
    ensures forall x :: x in a <==> x in b
  {
    assert |multiset(a)| == |multiset(b)|;
    forall x ensures x in a <==> x in b {
      assert x in a <==> x in multiset(a);
      assert x in b <==> x in multiset(b);
    }
  }

  lemma {:induction false} SortSorts<T(!new)>(s: seq<T>, leq: (T, T) -> bool)
    requires TotalPreorder(leq)
    ensures IsSorted(Sort(s, leq), leq)
  {
    if s != [] {
      SortSorts(s[1..], leq);
      InsertSorts(s[0], Sort(s[1..], leq), leq);
    }
  }

  lemma TailSorted<T>(s: seq<T>, leq: (T, T) -> bool)
    requires s != [] && IsSorted(s, leq)
    ensures IsSorted(s[1..], leq)
  {
  }

  /** Lists with one multiset and one head have tails with one multiset. */
  lemma TailMultisets<T>(a: seq<T>, b: seq<T>)
    requires a != [] && b != [] && multiset(a) == multiset(b) && a[0] == b[0]
    ensures multiset(a[1..]) == multiset(b[1..])
    ensures a[1..] == b[1..] ==> a == b
  {
    assert a == [a[0]] + a[1..] && b == [b[0]] + b[1..];
    assert multiset(a[1..]) == multiset(a) - multiset{a[0]};
    assert multiset(b[1..]) == multiset(b) - multiset{b[0]};
  }

  lemma TailAntisymmetric<T(!new)>(s: seq<T>, leq: (T, T) -> bool)
    requires s != [] && AntisymmetricOn(s, leq)
    ensures AntisymmetricOn(s[1..], leq)
  {
    forall x, y | x in s[1..] && y in s[1..] && leq(x, y) && leq(y, x) ensures x == y {
      assert x in s && y in s;
    }
  }

  lemma HeadsAgree<T(!new)>(a: seq<T>, b: seq<T>, leq: (T, T) -> bool)
    requires a != [] && b != [] && b[0] in a && a[0] in b
    requires IsSorted(a, leq) && IsSorted(b, leq) && AntisymmetricOn(a, leq)
    ensures a[0] == b[0]
  {
    var i :| 0 <= i < |a| && a[i] == b[0];
    var j :| 0 <= j < |b| && b[j] == a[0];
  }

  /** A multiset without equivalent distinct members has one sorted arrangement. */
  lemma {:induction false} SortedIsUnique<T(!new)>(a: seq<T>, b: seq<T>, leq: (T, T) -> bool)
    requires multiset(a) == multiset(b)
    requires IsSorted(a, leq) && IsSorted(b, leq) && AntisymmetricOn(a, leq)
    ensures a == b
  {
    SameMembers(a, b);
    if a != [] {
      assert a[0] in b && b[0] in a;
      HeadsAgree(a, b, leq);
      TailMultisets(a, b);
      TailSorted(a, leq);
      TailSorted(b, leq);
      TailAntisymmetric(a, leq);
      SortedIsUnique(a[1..], b[1..], leq);
    }
  }

  /** Sorting forgets the order of its input when the key separates the members. */
  lemma SortIsCanonical<T(!new)>(a: seq<T>, b: seq<T>, leq: (T, T) -> bool)
    requires multiset(a) == multiset(b) && AntisymmetricOn(a, leq) && TotalPreorder(leq)
    ensures Sort(a, leq) == Sort(b, leq)
  {
    SortPermutes(a, leq);
    SortPermutes(b, leq);
    SortSorts(a, leq);
    SortSorts(b, leq);
    SortedIsUnique(Sort(a, leq), Sort(b, leq), leq);
  }

  /** Sorting is the identity on what is already sorted. */
  lemma {:induction false} SortOfSorted<T(!new)>(s: seq<T>, leq: (T, T) -> bool)
    requires IsSorted(s, leq)
    ensures Sort(s, leq) == s
  {
    if s != [] {
      SortOfSorted(s[1..], leq);
      assert s == [s[0]] + s[1..];
    }
  }

  // Sorting by a text key -------------------------------------------------------------------------------------------

  lemma AtMostIsOrder()
    ensures TotalPreorder(AtMost)
    ensures forall s: seq<string> :: AntisymmetricOn(s, AtMost)
  {
    forall a: string, b: string, c: string
      ensures AtMost(a, b) || AtMost(b, a)
      ensures AtMost(a, b) && AtMost(b, a) ==> a == b
      ensures AtMost(a, b) && AtMost(b, c) ==> AtMost(a, c)
    {
      AtMostLinear(a, b, c);
    }
  }

  /** `leq` compares by `key`. */
  ghost predicate ComparesBy<T(!new)>(leq: (T, T) -> bool, key: T -> string) {
    forall x, y :: leq(x, y) <==> AtMost(key(x), key(y))
  }

  lemma KeyIsOrder<T(!new)>(leq: (T, T) -> bool, key: T -> string)
    requires ComparesBy(leq, key)
    ensures TotalPreorder(leq)
  {
    forall x, y, z
      ensures leq(x, y) || leq(y, x)
      ensures leq(x, y) && leq(y, z) ==> leq(x, z)
    {
      AtMostLinear(key(x), key(y), key(z));
    }
  }

  /** The sorted keys depend on the members only, not on their order, even when keys repeat. */
  lemma SortedKeysCanonical<T(!new)>(a: seq<T>, b: seq<T>, leq: (T, T) -> bool, key: T -> string)
    requires ComparesBy(leq, key) && multiset(a) == multiset(b)
    ensures Map(Sort(a, leq), key) == Map(Sort(b, leq), key)
  {
    KeyIsOrder(leq, key);
    AtMostIsOrder();
    SortPermutes(a, leq);
    SortPermutes(b, leq);
    SortSorts(a, leq);
    SortSorts(b, leq);
    MapOfPermutation(Sort(a, leq), Sort(b, leq), key);
    SortedIsUnique(Map(Sort(a, leq), key), Map(Sort(b, leq), key), AtMost);
  }

  /** Distinct keys make the sorted list itself canonical. */
  lemma SortByKeyCanonical<T(!new)>(a: seq<T>, b: seq<T>, leq: (T, T) -> bool, key: T -> string)
    requires ComparesBy(leq, key) && multiset(a) == multiset(b) && NoDuplicates(Map(a, key))
    ensures Sort(a, leq) == Sort(b, leq)
  {
    KeyIsOrder(leq, key);
    forall x, y | x in a && y in a && leq(x, y) && leq(y, x) ensures x == y {
      AtMostLinear(key(x), key(y), key(x));
      var i :| 0 <= i < |a| && a[i] == x;
      var j :| 0 <= j < |a| && a[j] == y;
      assert Map(a, key)[i] == Map(a, key)[j];
    }
    SortIsCanonical(a, b, leq);
  }
}
