/**
 Backup file names. The helper names a backup after the wall clock with one-second resolution
 (`config_YYYYMMDD_HHMMSS.json`); the deployer finds the name again in what the helper printed;
 the backup page relies on reverse string order being newest first.
 */
module BackupNames {
  import opened Prelude
  import opened Text

  /** Local wall-clock time, to the second. */
  datatype Stamp = Stamp(year: nat, month: nat, day: nat, hour: nat, minute: nat, second: nat) {
    /** The years for which `%Y` prints four digits, and the ranges of the other fields. */
    predicate Valid() {
      && 1000 <= year <= 9999 && 1 <= month <= 12 && 1 <= day <= 31
      && hour <= 23 && minute <= 59 && second <= 59
    }

    /** Strictly earlier. */
    predicate Before(t: Stamp) {
      || year < t.year
      || (year == t.year
          && (|| month < t.month
              || (month == t.month
                  && (|| day < t.day
                      || (day == t.day
                          && (|| hour < t.hour
                              || (hour == t.hour
                                  && (minute < t.minute || (minute == t.minute && second < t.second)))))))))
    }
  }

  predicate IsDigit(c: char) {
    '0' <= c <= '9'
  }

  function Digit(d: nat): char
    requires d < 10
  {
    '0' + d as char
  }

  function Power10(w: nat): nat {
    if w == 0 then 1 else 10 * Power10(w - 1)
  }

  /** `n` in decimal, zero-padded to `w` digits. */
  function Pad(n: nat, w: nat): (s: string)
    ensures |s| == w && AllChars(s, IsDigit)
  {
    if w == 0 then "" else Pad(n / 10, w - 1) + [Digit(n % 10)]
  }

  /** `strftime("%Y%m%d_%H%M%S")` */
  function Timestamp(t: Stamp): string {
    Pad(t.year, 4) + (Pad(t.month, 2) + (Pad(t.day, 2)
    + ("_" + (Pad(t.hour, 2) + (Pad(t.minute, 2) + Pad(t.second, 2))))))
  }

  const PREFIX := "config_"
  const SUFFIX := ".json"

  function BackupName(t: Stamp): string {
    PREFIX + (Timestamp(t) + SUFFIX)
  }

  // Names in string order are names in time order ------------------------------------------------

  /** Zero-padded numbers of one width compare like the numbers. */
  lemma {:induction false} PadOrder(n: nat, m: nat, w: nat)
    requires n < Power10(w) && m < Power10(w)
    ensures Less(Pad(n, w), Pad(m, w)) <==> n < m
    ensures Pad(n, w) == Pad(m, w) <==> n == m
  {
    if w != 0 {
      PadOrder(n / 10, m / 10, w - 1);
      var a, b := Pad(n / 10, w - 1), Pad(m / 10, w - 1);
      LessOfConcat(a, [Digit(n % 10)], b, [Digit(m % 10)]);
      assert (a + [Digit(n % 10)])[..w - 1] == a && (b + [Digit(m % 10)])[..w - 1] == b;
    }
  }

  /** Reading a concatenation of equally long heads, both for `<` and for equality. */
  lemma ConcatOrder(a: string, b: string, c: string, d: string)
    requires |a| == |c|
    ensures Less(a + b, c + d) <==> Less(a, c) || (a == c && Less(b, d))
    ensures a + b == c + d <==> a == c && b == d
  {
    LessOfConcat(a, b, c, d);
    assert (a + b)[..|a|] == a && (c + d)[..|a|] == c;
    assert (a + b)[|a|..] == b && (c + d)[|a|..] == d;
  }

  lemma PadOrder2(n: nat, m: nat)
    requires n < 100 && m < 100
    ensures Less(Pad(n, 2), Pad(m, 2)) <==> n < m
    ensures Pad(n, 2) == Pad(m, 2) <==> n == m
  {
    assert Power10(2) == 10 * Power10(1) == 100;
    PadOrder(n, m, 2);
  }

  lemma ClockPartOrder(s: Stamp, t: Stamp)
    requires s.Valid() && t.Valid()
    ensures var a := "_" + (Pad(s.hour, 2) + (Pad(s.minute, 2) + Pad(s.second, 2)));
            var b := "_" + (Pad(t.hour, 2) + (Pad(t.minute, 2) + Pad(t.second, 2)));
            && Less(a, b) == (s.hour < t.hour || (s.hour == t.hour
                && (s.minute < t.minute || (s.minute == t.minute && s.second < t.second))))
            && (a == b) == (s.hour == t.hour && s.minute == t.minute && s.second == t.second)
  {
    PadOrder2(s.second, t.second);
    PadOrder2(s.minute, t.minute);
    PadOrder2(s.hour, t.hour);
    ConcatOrder(Pad(s.minute, 2), Pad(s.second, 2), Pad(t.minute, 2), Pad(t.second, 2));
    ConcatOrder(Pad(s.hour, 2), Pad(s.minute, 2) + Pad(s.second, 2),
                Pad(t.hour, 2), Pad(t.minute, 2) + Pad(t.second, 2));
    ConcatOrder("_", Pad(s.hour, 2) + (Pad(s.minute, 2) + Pad(s.second, 2)),
                "_", Pad(t.hour, 2) + (Pad(t.minute, 2) + Pad(t.second, 2)));
    LessIrreflexive("_");
  }

  lemma TimestampOrder(s: Stamp, t: Stamp)
    requires s.Valid() && t.Valid()
    ensures Less(Timestamp(s), Timestamp(t)) <==> s.Before(t)
    ensures Timestamp(s) == Timestamp(t) <==> s == t
  {
    var a := "_" + (Pad(s.hour, 2) + (Pad(s.minute, 2) + Pad(s.second, 2)));
    var b := "_" + (Pad(t.hour, 2) + (Pad(t.minute, 2) + Pad(t.second, 2)));
    ClockPartOrder(s, t);
    PadOrder2(s.day, t.day);
    ConcatOrder(Pad(s.day, 2), a, Pad(t.day, 2), b);
    PadOrder2(s.month, t.month);
    ConcatOrder(Pad(s.month, 2), Pad(s.day, 2) + a, Pad(t.month, 2), Pad(t.day, 2) + b);
    assert Power10(4) == 100 * Power10(2) == 10000;
    PadOrder(s.year, t.year, 4);
    ConcatOrder(Pad(s.year, 4), Pad(s.month, 2) + (Pad(s.day, 2) + a),
                Pad(t.year, 4), Pad(t.month, 2) + (Pad(t.day, 2) + b));
  }

  /** The string order of backup names is the order in time, and distinct seconds give distinct names. */
  lemma NameOrder(s: Stamp, t: Stamp)
    requires s.Valid() && t.Valid()
    ensures Less(BackupName(s), BackupName(t)) <==> s.Before(t)
    ensures BackupName(s) == BackupName(t) <==> s == t
  {
    TimestampOrder(s, t);
    ConcatOrder(Timestamp(s), SUFFIX, Timestamp(t), SUFFIX);
    ConcatOrder(PREFIX, Timestamp(s) + SUFFIX, PREFIX, Timestamp(t) + SUFFIX);
    LessIrreflexive(SUFFIX);
    LessIrreflexive(PREFIX);
  }

  // The pattern config_\d{8}_\d{6}\.json -----------------------------------------------------------

  const NAME_LENGTH := 27

  /** Exactly a backup name: prefix, eight digits, underscore, six digits, suffix. */
  predicate IsName(s: string) {
    && |s| == NAME_LENGTH
    && s[..7] == PREFIX
    && AllChars(s[7..15], IsDigit) && s[15] == '_' && AllChars(s[16..22], IsDigit)
    && s[22..] == SUFFIX
  }

  /** `re.match(r'^config_\d{8}_\d{6}\.json$', s)`: `$` also matches before one final newline. */
  predicate MatchesPattern(s: string) {
    IsName(s) || (s != "" && s[|s| - 1] == '\n' && IsName(s[..|s| - 1]))
  }

  /** The pattern read the other way: a day of eight digits and a clock of six between fixed parts, and perhaps a newline. */
  lemma PatternParts(s: string) returns (day: string, clock: string, end: string)
    requires MatchesPattern(s)
    ensures |day| == 8 && |clock| == 6 && AllChars(day, IsDigit) && AllChars(clock, IsDigit) && (end == "" || end == "\n")
    ensures s == PREFIX + day + "_" + clock + SUFFIX + end
  {
    end := if IsName(s) then "" else "\n";
    var n := if IsName(s) then s else s[..|s| - 1];
    day, clock := n[7..15], n[16..22];
    assert n == n[..7] + day + [n[15]] + clock + n[22..];
    assert s == n + end;
  }

  lemma PartsMatch(day: string, clock: string, end: string)
    requires |day| == 8 && |clock| == 6 && AllChars(day, IsDigit) && AllChars(clock, IsDigit) && (end == "" || end == "\n")
    ensures MatchesPattern(PREFIX + day + "_" + clock + SUFFIX + end)
  {
    var n := PREFIX + day + "_" + clock + SUFFIX;
    assert n[..7] == PREFIX && n[7..15] == day && n[15] == '_' && n[16..22] == clock && n[22..] == SUFFIX;
    assert IsName(n);
    assert (n + end)[..|n|] == n;
    if end == "" { assert n + end == n; }
  }

  lemma BackupNameIsName(t: Stamp)
    ensures IsName(BackupName(t))
  {
    var n := BackupName(t);
    var day := Pad(t.year, 4) + (Pad(t.month, 2) + Pad(t.day, 2));
    var clock := Pad(t.hour, 2) + (Pad(t.minute, 2) + Pad(t.second, 2));
    assert n == PREFIX + day + "_" + clock + SUFFIX;
    assert n[7..15] == day && n[16..22] == clock && n[22..] == SUFFIX;
  }

  /** `re.search`: the leftmost place where a backup name occurs. */
  function FindName(output: string): Option<string> {
    if |output| < NAME_LENGTH then None
    else if IsName(output[..NAME_LENGTH]) then Some(output[..NAME_LENGTH])
    else FindName(output[1..])
  }

  predicate NameAt(output: string, i: nat) {
    i + NAME_LENGTH <= |output| && IsName(output[i..i + NAME_LENGTH])
  }

  /** A name is found exactly if there is one anywhere, and it is the first. */
  lemma {:induction false} FindNameExactly(output: string) returns (i: nat)
    ensures FindName(output).Some? ==>
              && NameAt(output, i) && FindName(output).value == output[i..i + NAME_LENGTH]
              && forall j :: 0 <= j < i ==> !NameAt(output, j)
    ensures FindName(output).None? ==> forall j: nat :: !NameAt(output, j)
  {
    i := 0;
    if |output| >= NAME_LENGTH && !NameAt(output, 0) {
      i := FindNameExactly(output[1..]);
      i := i + 1;
      forall j | 0 < j <= |output| - NAME_LENGTH ensures NameAt(output, j) == NameAt(output[1..], j - 1) {
        assert output[1..][j - 1..j - 1 + NAME_LENGTH] == output[j..j + NAME_LENGTH];
      }
    }
  }

  /** No backup name can start inside `text`: every 'c' is refuted by its next or its seventh character. */
  predicate NoNameStarts(text: string) {
    forall i :: 0 <= i < |text| ==> Refuted(text, i)
  }

  predicate Refuted(text: string, i: nat)
    requires i < |text|
  {
    || text[i] != 'c'
    || (i + 1 < |text| && text[i + 1] != 'o')
    || (i + 6 < |text| && text[i + 6] != '_')
  }

  lemma NameStart(s: string)
    requires IsName(s)
    ensures s[0] == 'c' && s[1] == 'o' && s[6] == '_'
  {
    assert s[0] == s[..7][0] && s[1] == s[..7][1] && s[6] == s[..7][6];
  }

  lemma {:induction false} FindSkips(text: string, rest: string)
    requires NoNameStarts(text)
    ensures FindName(text + rest) == FindName(rest)
  {
    if text == "" {
      assert text + rest == rest;
    } else {
      var all := text + rest;
      assert all[1..] == text[1..] + rest;
      forall i | 0 <= i < |text[1..]| ensures Refuted(text[1..], i) {
        assert Refuted(text, i + 1);
      }
      FindSkips(text[1..], rest);
      if |all| >= NAME_LENGTH && IsName(all[..NAME_LENGTH]) {
        assert Refuted(text, 0);
        NameStart(all[..NAME_LENGTH]);
        assert false;
      }
    }
  }

  const BACKUP_LINE := "Backup: /etc/sing-box/backups/"
  const DEPLOYED_LINE := "Deployed to /etc/sing-box/config.json"

  /** What `deploy` prints: the backup line when a config was there before, then the deployed line. */
  function DeployOutput(backup: Option<string>, noise: string): string {
    (match backup
     case Some(name) => BACKUP_LINE + (name + "\n")
     case None => "") + (DEPLOYED_LINE + noise)
  }

  /**
   The deployer recovers exactly the name the helper printed, whatever else (`noise`, such as
   warnings of `sudo`) follows; with no backup line it finds a name only if the noise holds one.
   */
  lemma ExtractionRecoversName(t: Stamp, noise: string)
    ensures FindName(DeployOutput(Some(BackupName(t)), noise)) == Some(BackupName(t))
    ensures FindName(DeployOutput(None, noise)) == FindName(noise)
  {
    BackupNameIsName(t);
    var n := BackupName(t);
    var rest := "\n" + (DEPLOYED_LINE + noise);
    assert DeployOutput(Some(n), noise) == BACKUP_LINE + (n + rest);
    assert (n + rest)[..NAME_LENGTH] == n;
    FindSkips(BACKUP_LINE, n + rest);
    FindSkips(DEPLOYED_LINE, noise);
    assert DeployOutput(None, noise) == DEPLOYED_LINE + noise;
  }
}
