/** Python strings as far as the system depends on them: blanks, `strip`, and code-point order. */
module Text {

  /** `str.isspace` for one character. */
  predicate IsSpace(c: char) {
    || '\t' <= c <= '\r'
    || '\U{1c}' <= c <= ' '
    || c == '\U{85}' || c == '\U{a0}' || c == '\U{1680}'
    || '\U{2000}' <= c <= '\U{200a}'
    || c == '\U{2028}' || c == '\U{2029}' || c == '\U{202f}' || c == '\U{205f}' || c == '\U{3000}'
  }

  /** The characters the application refuses in process matches: below 32, or 127. */
  predicate IsControl(c: char) {
    c < ' ' || c == '\U{7f}'
  }

  function TrimLeft(s: string): string {
    if s != "" && IsSpace(s[0]) then TrimLeft(s[1..]) else s
  }

  function TrimRight(s: string): string {
    if s != "" && IsSpace(s[|s| - 1]) then TrimRight(s[..|s| - 1]) else s
  }

  function Strip(s: string): string {
    TrimRight(TrimLeft(s))
  }

  /** No blank at either end. */
  predicate Trimmed(s: string) {
    s != "" ==> !IsSpace(s[0]) && !IsSpace(s[|s| - 1])
  }

  lemma {:induction false} TrimRightKeepsHead(s: string)
    requires s != "" && !IsSpace(s[0])
    ensures TrimRight(s) != "" && TrimRight(s)[0] == s[0]
    ensures !IsSpace(TrimRight(s)[|TrimRight(s)| - 1])
  {
    if IsSpace(s[|s| - 1]) {
      TrimRightKeepsHead(s[..|s| - 1]);
    }
  }

  lemma {:induction false} TrimLeftHead(s: string)
    ensures TrimLeft(s) == "" || !IsSpace(TrimLeft(s)[0])
  {
    if s != "" && IsSpace(s[0]) {
      TrimLeftHead(s[1..]);
    }
  }

  /** `strip` yields a trimmed string, and is the identity exactly on trimmed strings. */
  lemma StripTrims(s: string)
    ensures Trimmed(Strip(s))
    ensures Strip(s) == s <==> Trimmed(s)
  {
    TrimLeftHead(s);
    if TrimLeft(s) != "" {
      TrimRightKeepsHead(TrimLeft(s));
    }
  }

  predicate AllChars(s: string, p: char -> bool) {
    forall i :: 0 <= i < |s| ==> p(s[i])
  }

  lemma {:induction false} TrimLeftIsSuffix(s: string) returns (k: nat)
    ensures k <= |s| && TrimLeft(s) == s[k..]
  {
    k := 0;
    if s != "" && IsSpace(s[0]) {
      k := TrimLeftIsSuffix(s[1..]);
      k := k + 1;
    }
  }

  lemma {:induction false} TrimRightIsPrefix(s: string) returns (k: nat)
    ensures k <= |s| && TrimRight(s) == s[..k]
  {
    k := |s|;
    if s != "" && IsSpace(s[|s| - 1]) {
      k := TrimRightIsPrefix(s[..|s| - 1]);
    }
  }

  /** `strip` only cuts: the result is a contiguous piece of the argument. */
  lemma StripIsSlice(s: string) returns (i: nat, j: nat)
    ensures i <= j <= |s| && Strip(s) == s[i..j]
  {
    i := TrimLeftIsSuffix(s);
    var k := TrimRightIsPrefix(s[i..]);
    j := i + k;
  }

  predicate Blank(s: string) {
    AllChars(s, IsSpace)
  }

  lemma {:induction false} TrimLeftCutsBlanks(s: string) returns (cut: string)
    ensures s == cut + TrimLeft(s) && Blank(cut)
  {
    cut := "";
    if s != "" && IsSpace(s[0]) {
      var more := TrimLeftCutsBlanks(s[1..]);
      cut := [s[0]] + more;
      assert s == [s[0]] + s[1..];
    }
  }

  lemma {:induction false} TrimRightCutsBlanks(s: string) returns (cut: string)
    ensures s == TrimRight(s) + cut && Blank(cut)
  {
    cut := "";
    if s != "" && IsSpace(s[|s| - 1]) {
      var more := TrimRightCutsBlanks(s[..|s| - 1]);
      cut := more + [s[|s| - 1]];
      assert s == s[..|s| - 1] + [s[|s| - 1]];
    }
  }

  /** `strip` takes away nothing but blanks at the ends, and leaves none there. */
  lemma StripExactly(s: string) returns (left: string, right: string)
    ensures s == left + Strip(s) + right && Blank(left) && Blank(right) && Trimmed(Strip(s))
  {
    left := TrimLeftCutsBlanks(s);
    right := TrimRightCutsBlanks(TrimLeft(s));
    StripTrims(s);
  }

  // Order of strings -----------------------------------------------------------------------------

  /** Python's `<` on strings: first differing code point decides, a proper prefix is smaller. */
  predicate Less(a: string, b: string) {
    b != "" && (a == "" || a[0] < b[0] || (a[0] == b[0] && Less(a[1..], b[1..])))
  }

  predicate AtMost(a: string, b: string) {
    !Less(b, a)
  }

  lemma {:induction false} LessIrreflexive(a: string)
    ensures !Less(a, a)
  {
    if a != "" { LessIrreflexive(a[1..]); }
  }

  lemma {:induction false} LessTotal(a: string, b: string)
    ensures a == b || Less(a, b) || Less(b, a)
  {
    if a != "" && b != "" && a[0] == b[0] {
      LessTotal(a[1..], b[1..]);
      assert a == [a[0]] + a[1..] && b == [b[0]] + b[1..];
    }
  }

  lemma {:induction false} LessTransitive(a: string, b: string, c: string)
    requires Less(a, b) && Less(b, c)
    ensures Less(a, c)
  {
    if a != "" && a[0] == b[0] == c[0] {
      LessTransitive(a[1..], b[1..], c[1..]);
    }
  }

  lemma LessAsymmetric(a: string, b: string)
    requires Less(a, b)
    ensures !Less(b, a)
  {
    if Less(b, a) {
      LessTransitive(a, b, a);
      LessIrreflexive(a);
    }
  }

  /** `AtMost` is a linear order. */
  lemma AtMostLinear(a: string, b: string, c: string)
    ensures AtMost(a, b) || AtMost(b, a)
    ensures AtMost(a, b) && AtMost(b, a) ==> a == b
    ensures AtMost(a, b) && AtMost(b, c) ==> AtMost(a, c)
  {
    if Less(a, b) { LessAsymmetric(a, b); }
    LessTotal(a, b);
    LessTotal(b, c);
    if AtMost(a, b) && AtMost(b, c) && Less(c, a) {
      if a != b { LessTransitive(c, a, b); LessTotal(b, c); }
    }
  }

  /** Strings with heads of equal length compare by head first, then by tail. */
  lemma {:induction false} LessOfConcat(a: string, b: string, c: string, d: string)
    requires |a| == |c|
    ensures Less(a + b, c + d) <==> Less(a, c) || (a == c && Less(b, d))
  {
    if a == "" {
      assert a + b == b && c + d == d;
    } else {
      assert (a + b)[1..] == a[1..] + b && (c + d)[1..] == c[1..] + d;
      assert a == [a[0]] + a[1..] && c == [c[0]] + c[1..];
      LessOfConcat(a[1..], b, c[1..], d);
    }
  }

  // Splitting --------------------------------------------------------------------------------------------

  /** `str.split` at every occurrence of one character. */
  function Split(s: string, at: char): (parts: seq<string>)
    ensures |parts| >= 1
  {
    if s == "" then [""]
    else if s[0] == at then [""] + Split(s[1..], at)
    else [[s[0]] + Split(s[1..], at)[0]] + Split(s[1..], at)[1..]
  }

  function Joined(parts: seq<string>, at: char): string {
    if parts == [] then "" else if |parts| == 1 then parts[0] else parts[0] + [at] + Joined(parts[1..], at)
  }

  /** The parts are free of the separator, and put together with it they are the string again. */
  lemma {:induction false} SplitExactly(s: string, at: char)
    ensures Joined(Split(s, at), at) == s
    ensures forall i :: 0 <= i < |Split(s, at)| ==> at !in Split(s, at)[i]
  {
    if s != "" {
      var rest := Split(s[1..], at);
      SplitExactly(s[1..], at);
      assert s == [s[0]] + s[1..];
      if s[0] == at {
        assert Split(s, at)[1..] == rest;
      } else {
        var parts := Split(s, at);
        assert parts[0] == [s[0]] + rest[0] && parts[1..] == rest[1..];
        if |rest| > 1 { assert Joined(parts, at) == [s[0]] + rest[0] + [at] + Joined(rest[1..], at); }
      }
    }
  }
}
