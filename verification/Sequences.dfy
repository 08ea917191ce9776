/** Comprehensions over lists: filtering, mapping, and lists without repetition. */
module Sequences {
  import opened Prelude

  function Filter<T>(s: seq<T>, p: T -> bool): seq<T> {
    if s == [] then [] else (if p(s[0]) then [s[0]] else []) + Filter(s[1..], p)
  }

  function Map<T, U>(s: seq<T>, f: T -> U): (r: seq<U>)
    ensures |r| == |s| && forall i :: 0 <= i < |s| ==> r[i] == f(s[i])
  {
    if s == [] then [] else [f(s[0])] + Map(s[1..], f)
  }

  ghost predicate NoDuplicates<T>(s: seq<T>) {
    forall i, j :: 0 <= i < j < |s| ==> s[i] != s[j]
  }

  /** Filtering keeps exactly the members that satisfy `p`, each as often as before. */
  lemma {:induction false} FilterCount<T>(s: seq<T>, p: T -> bool, x: T)
    ensures multiset(Filter(s, p))[x] == if p(x) then multiset(s)[x] else 0
  {
    if s != [] {
      FilterCount(s[1..], p, x);
      assert s == [s[0]] + s[1..];
    }
  }

  lemma FilterMembers<T>(s: seq<T>, p: T -> bool)
    ensures forall x :: x in Filter(s, p) <==> x in s && p(x)
  {
    forall x ensures x in Filter(s, p) <==> x in s && p(x) {
      FilterCount(s, p, x);
      assert x in Filter(s, p) <==> x in multiset(Filter(s, p));
      assert x in s <==> x in multiset(s);
    }
  }

  lemma FilterOfPermutation<T>(a: seq<T>, b: seq<T>, p: T -> bool)
    requires multiset(a) == multiset(b)
    ensures multiset(Filter(a, p)) == multiset(Filter(b, p))
  {
    var fa, fb := multiset(Filter(a, p)), multiset(Filter(b, p));
    forall x | x in fa + fb ensures fa[x] == fb[x] {
      FilterCount(a, p, x);
      FilterCount(b, p, x);
    }
    assert fa == fb;
  }

  lemma {:induction false} FilterOfConcat<T>(a: seq<T>, b: seq<T>, p: T -> bool)
    ensures Filter(a + b, p) == Filter(a, p) + Filter(b, p)
  {
    if a == [] {
      assert a + b == b;
    } else {
      var head := if p(a[0]) then [a[0]] else [];
      assert (a + b)[0] == a[0] && (a + b)[1..] == a[1..] + b;
      FilterOfConcat(a[1..], b, p);
      assert head + (Filter(a[1..], p) + Filter(b, p)) == head + Filter(a[1..], p) + Filter(b, p);
    }
  }

  lemma FilterOneMore<T>(s: seq<T>, x: T, p: T -> bool)
    ensures |Filter(s + [x], p)| == |Filter(s, p)| + (if p(x) then 1 else 0)
  {
    FilterOfConcat(s, [x], p);
    assert Filter([x], p) == if p(x) then [x] else [];
  }

  /** Where every hit of `p` in one list is a hit of `q` at the same place in another, `q` hits at least as often. */
  lemma {:induction false} FilterDominates<T, U>(a: seq<T>, p: T -> bool, b: seq<U>, q: U -> bool)
    requires |a| == |b| && forall i :: 0 <= i < |a| && p(a[i]) ==> q(b[i])
    ensures |Filter(a, p)| <= |Filter(b, q)|
  {
    if a != [] {
      FilterDominates(a[1..], p, b[1..], q);
    }
  }

  lemma {:induction false} CountOnce<T>(a: seq<T>, x: T)
    requires NoDuplicates(a)
    ensures multiset(a)[x] == if x in a then 1 else 0
  {
    if a != [] {
      CountOnce(a[1..], x);
      assert a == [a[0]] + a[1..];
      if a[0] == x {
        assert x !in a[1..];
      }
    }
  }

  lemma {:induction false} SetSize<T>(a: seq<T>)
    requires NoDuplicates(a)
    ensures |set x | x in a| == |a|
  {
    if a != [] {
      var rest := a[1..];
      SetSize(rest);
      var some := set x | x in rest;
      assert a == [a[0]] + rest;
      assert a[0] !in some;
      assert (set x | x in a) == some + {a[0]};
    }
  }

  /** A list repeats nothing exactly when every member occurs once. */
  lemma NoDuplicatesByCount<T>(b: seq<T>)
    ensures NoDuplicates(b) <==> forall x :: multiset(b)[x] <= 1
  {
    if NoDuplicates(b) {
      forall x ensures multiset(b)[x] <= 1 { CountOnce(b, x); }
    }
    forall i, j | 0 <= i < j < |b| && b[i] == b[j] ensures multiset(b)[b[i]] >= 2 {
      assert b == b[..i] + [b[i]] + b[i + 1..j] + [b[j]] + b[j + 1..];
    }
  }

  lemma NoDuplicatesOfPermutation<T>(a: seq<T>, b: seq<T>)
    requires NoDuplicates(a) && multiset(a) == multiset(b)
    ensures NoDuplicates(b)
  {
    NoDuplicatesByCount(a);
    NoDuplicatesByCount(b);
  }

  lemma NoDuplicatesOfFilter<T>(s: seq<T>, p: T -> bool)
    requires NoDuplicates(s)
    ensures NoDuplicates(Filter(s, p))
  {
    NoDuplicatesByCount(s);
    NoDuplicatesByCount(Filter(s, p));
    forall x ensures multiset(Filter(s, p))[x] <= 1 { FilterCount(s, p, x); }
  }

  /** The values that are present, in order. */
  function Values<T>(s: seq<Option<T>>): seq<T> {
    if s == [] then []
    else Values(s[..|s| - 1]) + (match s[|s| - 1] case None => [] case Some(v) => [v])
  }

  lemma {:induction false} ValuesShape<T>(s: seq<Option<T>>)
    ensures |Values(s)| <= |s|
    ensures |Values(s)| == |s| <==> forall i :: 0 <= i < |s| ==> s[i].Some?
    ensures |Values(s)| == |s| ==> forall i :: 0 <= i < |s| ==> s[i] == Some(Values(s)[i])
  {
    if s != [] {
      ValuesShape(s[..|s| - 1]);
      assert forall i :: 0 <= i < |s| - 1 ==> s[i] == s[..|s| - 1][i];
    }
  }

  function Without<T>(s: seq<T>, k: nat): (r: seq<T>)
    requires k < |s|
    ensures |r| == |s| - 1 && forall i :: 0 <= i < |r| ==> r[i] == s[if i < k then i else i + 1]
  {
    s[..k] + s[k + 1..]
  }

  lemma WithoutOne<T>(s: seq<T>, k: nat)
    requires k < |s|
    ensures multiset(s) == multiset(Without(s, k)) + multiset{s[k]}
  {
    assert s == s[..k] + [s[k]] + s[k + 1..];
  }

  lemma MapWithout<T, U>(s: seq<T>, k: nat, f: T -> U)
    requires k < |s|
    ensures Map(Without(s, k), f) == Without(Map(s, f), k)
  {
    var rest, images := Without(s, k), Map(s, f);
    var left, right := Map(rest, f), Without(images, k);
    forall i | 0 <= i < |rest| ensures left[i] == right[i] {
      var j := if i < k then i else i + 1;
      assert left[i] == f(rest[i]) && rest[i] == s[j];
      assert right[i] == images[j] && images[j] == f(s[j]);
    }
  }

  lemma MapWithoutOne<T, U>(s: seq<T>, k: nat, f: T -> U)
    requires k < |s|
    ensures multiset(Map(s, f)) == multiset(Map(Without(s, k), f)) + multiset{f(s[k])}
    ensures multiset(Without(s, k)) == multiset(s) - multiset{s[k]}
  {
    WithoutOne(s, k);
    MapWithout(s, k, f);
    WithoutOne(Map(s, f), k);
  }

  lemma {:induction false} MapOfPermutation<T, U>(a: seq<T>, b: seq<T>, f: T -> U)
    requires multiset(a) == multiset(b)
    ensures multiset(Map(a, f)) == multiset(Map(b, f))
  {
    if a == [] {
      assert |multiset(b)| == 0;
    } else {
      assert a[0] in multiset(b);
      var k :| 0 <= k < |b| && b[k] == a[0];
      MapWithoutOne(a, 0, f);
      MapWithoutOne(b, k, f);
      MapOfPermutation(Without(a, 0), Without(b, k), f);
    }
  }

  /** The members in order of first appearance. */
  function Distinct<T(==)>(s: seq<T>): seq<T> {
    if s == [] then []
    else
      var d := Distinct(s[..|s| - 1]);
      if s[|s| - 1] in d then d else d + [s[|s| - 1]]
  }

  lemma {:induction false} DistinctMembers<T>(s: seq<T>)
    ensures NoDuplicates(Distinct(s)) && |Distinct(s)| <= |s|
    ensures forall x :: x in Distinct(s) <==> x in s
  {
    if s != [] {
      DistinctMembers(s[..|s| - 1]);
      assert s == s[..|s| - 1] + [s[|s| - 1]];
    }
  }

  lemma DistinctOneMore<T>(s: seq<T>, x: T)
    ensures Distinct(s + [x]) == if x in s then Distinct(s) else Distinct(s) + [x]
  {
    assert (s + [x])[..|s|] == s;
    DistinctMembers(s);
  }

  lemma MapOneMore<T, U>(s: seq<T>, x: T, f: T -> U)
    ensures Map(s + [x], f) == Map(s, f) + [f(x)]
  {
    forall i | 0 <= i < |s| ensures Map(s + [x], f)[i] == Map(s, f)[i] {
      assert (s + [x])[i] == s[i];
    }
  }
}
