/** `PurePosixPath` as far as process matches need it: components, normal form, last component. */
module PosixPaths {
  import opened Text
  import opened Sequences

  /** Empty components and single dots disappear. */
  predicate Counts(part: string) {
    part != "" && part != "."
  }

  function Components(path: string): seq<string> {
    Filter(Split(path, '/'), Counts)
  }

  /** Exactly two leading slashes are kept, any other number collapses to one. */
  function Root(path: string): string {
    if |path| >= 2 && path[0] == '/' && path[1] == '/' && (|path| == 2 || path[2] != '/') then "//" else "/"
  }

  /** `str(PurePosixPath(path))` for an absolute path. */
  function Normal(path: string): string {
    Root(path) + Joined(Components(path), '/')
  }

  /** How many slashes a path starts with. */
  function LeadingSlashes(path: string): nat {
    if path == "" || path[0] != '/' then 0 else 1 + LeadingSlashes(path[1..])
  }

  /** Exactly two leading slashes are kept; any other number of them collapses to one. */
  lemma RootExactly(path: string)
    requires path != "" && path[0] == '/'
    ensures Root(path) == if LeadingSlashes(path) == 2 then "//" else "/"
  {
    var rest := path[1..];
    if rest != "" && rest[0] == '/' {
      assert LeadingSlashes(path) == 2 + LeadingSlashes(rest[1..]);
    }
  }

  predicate HasSlash(part: string) {
    '/' in part
  }

  /** What `Components` yields: proper names without slashes. */
  predicate Proper(parts: seq<string>) {
    forall i :: 0 <= i < |parts| ==> Counts(parts[i]) && !HasSlash(parts[i])
  }

  lemma {:induction false} SplitParts(s: string)
    ensures forall i :: 0 <= i < |Split(s, '/')| ==> !HasSlash(Split(s, '/')[i]) && forall c :: c in Split(s, '/')[i] ==> c in s
  {
    if s != "" {
      SplitParts(s[1..]);
      assert s == [s[0]] + s[1..];
    }
  }

  lemma ComponentsProper(path: string)
    ensures Proper(Components(path))
    ensures forall i :: 0 <= i < |Components(path)| ==> forall c :: c in Components(path)[i] ==> c in path
  {
    SplitParts(path);
    FilterMembers(Split(path, '/'), Counts);
    forall i | 0 <= i < |Components(path)|
      ensures Counts(Components(path)[i]) && !HasSlash(Components(path)[i])
      ensures forall c :: c in Components(path)[i] ==> c in path
    {
      assert Components(path)[i] in Components(path);
    }
  }

  lemma {:induction false} SplitOfName(part: string, rest: string)
    requires !HasSlash(part) && (rest == "" || rest[0] == '/')
    ensures Split(part + rest, '/') == if rest == "" then [part] else [part] + Split(rest[1..], '/')
  {
    if part == "" {
      assert part + rest == rest;
    } else {
      assert (part + rest)[1..] == part[1..] + rest;
      assert part == [part[0]] + part[1..];
      SplitOfName(part[1..], rest);
    }
  }

  lemma {:induction false} SplitOfJoin(parts: seq<string>)
    requires parts != [] && Proper(parts)
    ensures Split(Joined(parts, '/'), '/') == parts
  {
    if |parts| == 1 {
      SplitOfName(parts[0], "");
      assert parts[0] + "" == parts[0];
    } else {
      SplitOfJoin(parts[1..]);
      var rest := "/" + Joined(parts[1..], '/');
      assert Joined(parts, '/') == parts[0] + rest;
      assert rest[1..] == Joined(parts[1..], '/');
      SplitOfName(parts[0], rest);
    }
  }

  lemma {:induction false} FilterAll(parts: seq<string>)
    requires Proper(parts)
    ensures Filter(parts, Counts) == parts
  {
    if parts != [] {
      FilterAll(parts[1..]);
    }
  }

  lemma {:induction false} JoinEnds(parts: seq<string>)
    requires parts != [] && Proper(parts)
    ensures Joined(parts, '/') != "" && Joined(parts, '/')[0] == parts[0][0] && parts[0][0] != '/'
    ensures Joined(parts, '/')[|Joined(parts, '/')| - 1] == parts[|parts| - 1][|parts[|parts| - 1]| - 1]
    ensures Joined(parts, '/')[|Joined(parts, '/')| - 1] != '/'
  {
    if |parts| > 1 { JoinEnds(parts[1..]); }
  }

  lemma SlashIsInvisible(t: string)
    ensures Components("/" + t) == Components(t)
  {
    assert ("/" + t)[1..] == t;
    assert Split("/" + t, '/') == [""] + Split(t, '/');
    FilterOfConcat([""], Split(t, '/'), Counts);
    assert Filter([""], Counts) == [];
  }

  lemma RootOfNormal(names: string)
    requires names != "" && names[0] != '/'
    ensures Root("/" + names) == "/" && Root("//" + names) == "//"
  {
    assert ("//" + names)[2] == names[0];
    assert ("/" + names)[1] == names[0];
  }

  lemma PartsOfNormal(parts: seq<string>)
    requires parts != [] && Proper(parts)
    ensures Components("/" + Joined(parts, '/')) == parts && Components("//" + Joined(parts, '/')) == parts
  {
    SplitOfJoin(parts);
    FilterAll(parts);
    SlashIsInvisible(Joined(parts, '/'));
    SlashIsInvisible("/" + Joined(parts, '/'));
    assert "//" + Joined(parts, '/') == "/" + ("/" + Joined(parts, '/'));
  }

  /** The normal form has the same components and is its own normal form. */
  lemma NormalIsStable(path: string)
    requires Components(path) != []
    ensures Components(Normal(path)) == Components(path)
    ensures Normal(Normal(path)) == Normal(path)
    ensures |Normal(path)| >= 2 && Normal(path)[0] == '/' && Normal(path)[|Normal(path)| - 1] != '/'
  {
    var parts := Components(path);
    ComponentsProper(path);
    PartsOfNormal(parts);
    JoinEnds(parts);
    RootOfNormal(Joined(parts, '/'));
  }

  // Length and characters ------------------------------------------------------------------------------------------

  function Weight(parts: seq<string>): nat {
    if parts == [] then 0 else |parts[0]| + 1 + Weight(parts[1..])
  }

  lemma {:induction false} SplitWeight(s: string)
    ensures Weight(Split(s, '/')) == |s| + 1
  {
    if s != "" { SplitWeight(s[1..]); }
  }

  lemma {:induction false} FilterWeight(parts: seq<string>)
    ensures Weight(Filter(parts, Counts)) <= Weight(parts)
  {
    if parts != [] {
      FilterWeight(parts[1..]);
      assert ([parts[0]] + Filter(parts[1..], Counts))[1..] == Filter(parts[1..], Counts);
      assert [] + Filter(parts[1..], Counts) == Filter(parts[1..], Counts);
    }
  }

  lemma {:induction false} JoinWeight(parts: seq<string>)
    requires parts != []
    ensures |Joined(parts, '/')| == Weight(parts) - 1
  {
    if |parts| > 1 { JoinWeight(parts[1..]); }
  }

  /** Normalising never lengthens an absolute path. */
  lemma NormalIsNoLonger(path: string)
    requires path != "" && path[0] == '/' && Components(path) != []
    ensures |Normal(path)| <= |path|
  {
    var k := |Root(path)|;
    var rel := path[k..];
    assert path == "/" + path[1..];
    SlashIsInvisible(path[1..]);
    if k == 2 {
      assert path[1..] == "/" + rel;
      SlashIsInvisible(rel);
    }
    SplitWeight(rel);
    FilterWeight(Split(rel, '/'));
    JoinWeight(Components(path));
  }

  lemma {:induction false} JoinChars(parts: seq<string>, c: char)
    requires c in Joined(parts, '/') && c != '/'
    ensures exists i :: 0 <= i < |parts| && c in parts[i]
  {
    if |parts| == 1 {
      assert c in parts[0];
    } else if c !in parts[0] {
      JoinChars(parts[1..], c);
      var i :| 0 <= i < |parts[1..]| && c in parts[1..][i];
      assert c in parts[i + 1];
    }
  }

  /** Normalising introduces no characters but slashes. */
  lemma NormalChars(path: string, c: char)
    requires c in Normal(path) && c != '/'
    ensures c in path
  {
    ComponentsProper(path);
    assert c in Joined(Components(path), '/');
    JoinChars(Components(path), c);
  }
}
