/**
 The list of programs that bypass the tunnel: built from a form, stored as JSON, loaded again, and turned
 into the process rules of the host configuration.
 */
module AppBypass {
  import opened Prelude
  import opened Text
  import opened Sequences
  import opened PosixPaths
  import Routing

  const MAX_ENTRIES := 200
  const MAX_PROCESS_LEN := 120
  const MAX_PATH_LEN := 240
  const MAX_CUSTOM_LINES := 40
  const MAX_NAME_LEN := 80

  datatype Entry = Entry(appId: string, name: string, processName: string, processPath: Option<string>, custom: bool)

  /** An installed application, as the desktop scan reports it. */
  datatype App = App(appId: string, name: string, processName: string, processPath: Option<string>)

  datatype Error = BadMatch | InvalidPath | BadName | AppUnavailable | TooManyCustom | TooManyEntries

  // Parsing a match --------------------------------------------------------------------------------------------

  predicate HasControl(s: string) {
    exists i :: 0 <= i < |s| && IsControl(s[i])
  }

  predicate HasSpace(s: string) {
    exists i :: 0 <= i < |s| && IsSpace(s[i])
  }

  /** `_clean_process`; the empty string means refused. */
  function CleanProcess(value: string): string {
    var cleaned := Strip(value);
    if cleaned == "" || '/' in cleaned || HasControl(cleaned) then ""
    else if |cleaned| > MAX_PROCESS_LEN then ""
    else if HasSpace(cleaned) then ""
    else cleaned
  }

  datatype Match = Match(name: string, path: Option<string>)

  function ParseProcessMatch(value: string): Result<Match, Error> {
    var m := Strip(value);
    if m == "" || HasControl(m) then Err(BadMatch)
    else if m[0] == '/' then
      var parts := Components(m);
      if |m| > MAX_PATH_LEN || ".." in parts || parts == [] || m[|m| - 1] == '/' then Err(InvalidPath)
      else Ok(Match(parts[|parts| - 1], Some(Normal(m))))
    else
      var name := CleanProcess(m);
      if name == "" then Err(BadName) else Ok(Match(name, None))
  }

  /**
   A match is accepted exactly when, trimmed, it is a name of at most 120 characters without slash, blank and control
   characters, or an absolute path of at most 240 that ends in a component, goes nowhere up and has no control characters.
   */
  lemma ParseExactly(value: string)
    ensures var m := Strip(value);
            && (ParseProcessMatch(value).Ok? <==>
                  && m != "" && (forall i :: 0 <= i < |m| ==> !IsControl(m[i]))
                  && if m[0] == '/' then |m| <= 240 && Components(m) != [] && ".." !in Components(m) && m[|m| - 1] != '/'
                     else |m| <= 120 && '/' !in m && forall i :: 0 <= i < |m| ==> !IsSpace(m[i]))
            && (ParseProcessMatch(value).Ok? ==>
                  var r := ParseProcessMatch(value).value;
                  && (r.path.Some? <==> m[0] == '/')
                  && (r.path.None? ==> r.name == m)
                  && (r.path.Some? ==> r.path.value == Normal(m) && r.name == Components(m)[|Components(m)| - 1]))
  {
    StripTrims(value);
    StripTrims(Strip(value));
  }

  /** What parsing leaves of a match. */
  predicate Canonical(m: Match) {
    match m.path
    case None => m.name != "" && m.name[0] != '/' && CleanProcess(m.name) == m.name
    case Some(p) =>
      && 1 < |p| <= MAX_PATH_LEN && p[0] == '/' && p[|p| - 1] != '/' && !HasControl(p)
      && Normal(p) == p && Components(p) != [] && ".." !in Components(p)
      && m.name == Components(p)[|Components(p)| - 1]
  }

  lemma NormalPathCanonical(m: string)
    requires m != "" && m[0] == '/' && !HasControl(m) && |m| <= MAX_PATH_LEN
    requires Components(m) != [] && ".." !in Components(m)
    ensures Canonical(Match(Components(m)[|Components(m)| - 1], Some(Normal(m))))
  {
    NormalIsStable(m);
    NormalIsNoLonger(m);
    forall i | 0 <= i < |Normal(m)| ensures !IsControl(Normal(m)[i]) {
      if Normal(m)[i] != '/' {
        NormalChars(m, Normal(m)[i]);
      }
    }
  }

  lemma ParseIsCanonical(value: string)
    requires ParseProcessMatch(value).Ok?
    ensures Canonical(ParseProcessMatch(value).value)
  {
    var m := Strip(value);
    StripTrims(value);
    if m[0] == '/' {
      NormalPathCanonical(m);
    } else {
      StripTrims(m);
    }
  }

  /** The path ends in a blank: its last component did, and a "." component after it was dropped. */
  predicate EndsInBlank(m: Match) {
    m.path.Some? && m.path.value != "" && IsSpace(m.path.value[|m.path.value| - 1])
  }

  function TextOf(m: Match): string {
    m.path.GetOr(m.name)
  }

  /** Parsing is idempotent on its own output, except for paths that end in a blank, which it never returns
      unchanged. */
  lemma ParseIsIdempotent(m: Match)
    requires Canonical(m)
    ensures ParseProcessMatch(TextOf(m)) == Ok(m) <==> !EndsInBlank(m)
  {
    StripTrims(TextOf(m));
    match m.path
    case None => StripTrims(m.name);
    case Some(p) =>
      if EndsInBlank(m) {
        var i, j := StripIsSlice(p);
        var s := Strip(p);
        assert |s| < |p|;
        if ParseProcessMatch(p).Ok? && s != "" && s[0] == '/' {
          NormalIsNoLonger(s);
        }
      }
  }

  /** Such paths do get through: "/a /." is accepted, and stored as "/a ". */
  lemma BlankPathIsAccepted()
    ensures ParseProcessMatch("/a /.") == Ok(Match("a ", Some("/a ")))
    ensures EndsInBlank(Match("a ", Some("/a ")))
  {
    var m := "/a /.";
    StripTrims(m);
    assert m == "/" + "a /." && "a /." == "a " + "/." && "/."[1..] == ".";
    SlashIsInvisible("a /.");
    SplitOfName("a ", "/.");
    SplitOfName(".", "");
    assert "." + "" == ".";
    assert Split("a /.", '/') == ["a "] + ["."];
    FilterOfConcat(["a "], ["."], Counts);
    assert Filter(["a "], Counts) == ["a "] && Filter(["."], Counts) == [];
    assert Components(m) == ["a "];
    assert Normal(m) == "/a ";
  }

  // Application identifiers --------------------------------------------------------------------------------------

  predicate IsIdChar(c: char) {
    'A' <= c <= 'Z' || 'a' <= c <= 'z' || '0' <= c <= '9' || c in "_.+-"
  }

  const DESKTOP := ".desktop"

  predicate IsDesktopFile(s: string) {
    |DESKTOP| < |s| && s[|s| - |DESKTOP|..] == DESKTOP && AllChars(s[..|s| - |DESKTOP|], IsIdChar)
  }

  /** `(usr|usr-local|home):[A-Za-z0-9_.+-]+\.desktop` */
  predicate IsValidAppId(id: string) {
    || ("usr:" <= id && IsDesktopFile(id[4..]))
    || ("usr-local:" <= id && IsDesktopFile(id[10..]))
    || ("home:" <= id && IsDesktopFile(id[5..]))
  }

  /** The identifier of a desktop file in one of the scanned places. */
  function AppIdOf(place: string, name: string): string {
    place + ":" + (name + DESKTOP)
  }

  predicate PlainName(name: string) {
    name != "" && AllChars(name, IsIdChar)
  }

  lemma DesktopFileName(name: string)
    ensures IsDesktopFile(name + DESKTOP) <==> PlainName(name)
  {
    var file := name + DESKTOP;
    assert file[|file| - |DESKTOP|..] == DESKTOP && file[..|file| - |DESKTOP|] == name;
  }

  lemma ValidIn(place: string, file: string)
    requires place == "usr" || place == "usr-local" || place == "home"
    ensures IsValidAppId(place + ":" + file) <==> IsDesktopFile(file)
  {
    var id := place + ":" + file;
    assert place + ":" <= id && id[|place| + 1..] == file;
    if place == "home" {
      assert id[0] == 'h';
    } else {
      assert id[3] == if place == "usr" then ':' else '-';
    }
  }

  /** The valid identifiers are those of desktop files with a plain, non-empty name in a scanned place. */
  lemma AppIdExactly(place: string, name: string)
    requires place == "usr" || place == "usr-local" || place == "home"
    ensures IsValidAppId(AppIdOf(place, name)) <==> PlainName(name)
  {
    DesktopFileName(name);
    ValidIn(place, name + DESKTOP);
  }

  /** There are no others. */
  lemma ValidAppIdParts(id: string) returns (place: string, name: string)
    requires IsValidAppId(id)
    ensures place in {"usr", "usr-local", "home"} && PlainName(name) && id == AppIdOf(place, name)
  {
    place := if "usr:" <= id && IsDesktopFile(id[4..]) then "usr"
             else if "usr-local:" <= id && IsDesktopFile(id[10..]) then "usr-local" else "home";
    var file := id[|place| + 1..];
    name := file[..|file| - |DESKTOP|];
    assert file == name + DESKTOP;
    assert id == place + ":" + file;
  }

  // Building entries from the form ---------------------------------------------------------------------------------

  /** The catalog keeps the last application of each identifier. */
  function Catalog(apps: seq<App>): map<string, App> {
    if apps == [] then map[] else Catalog(apps[..|apps| - 1])[apps[|apps| - 1].appId := apps[|apps| - 1]]
  }

  datatype Draft = Draft(entries: seq<Entry>, seen: set<string>, customs: nat)

  function DefaultMatch(app: App): string {
    if app.processPath.Some? && app.processPath.value != "" then app.processPath.value else app.processName
  }

  function AddSelected(d: Draft, id: string, overrides: map<string, string>, catalog: map<string, App>): Result<Draft, Error> {
    if id in d.seen then Ok(d)
    else if !IsValidAppId(id) || id !in catalog then Err(AppUnavailable)
    else
      var app := catalog[id];
      match ParseProcessMatch(if id in overrides then overrides[id] else DefaultMatch(app))
      case Err(e) => Err(e)
      case Ok(m) => Ok(Draft(d.entries + [Entry(app.appId, app.name, m.name, m.path, false)], d.seen + {id}, d.customs))
  }

  function CustomId(m: Match): string {
    "custom:" + TextOf(m)
  }

  function AddCustom(d: Draft, line: string): Result<Draft, Error> {
    if Strip(line) == "" then Ok(d)
    else
      match ParseProcessMatch(line)
      case Err(e) => Err(e)
      case Ok(m) =>
        if CustomId(m) in d.seen then Ok(d)
        else if d.customs + 1 > MAX_CUSTOM_LINES then Err(TooManyCustom)
        else Ok(Draft(d.entries + [Entry(CustomId(m), m.name, m.name, m.path, true)], d.seen + {CustomId(m)}, d.customs + 1))
  }

  function SelectAll(ids: seq<string>, overrides: map<string, string>, catalog: map<string, App>): Result<Draft, Error> {
    if ids == [] then Ok(Draft([], {}, 0))
    else
      match SelectAll(ids[..|ids| - 1], overrides, catalog)
      case Err(e) => Err(e)
      case Ok(d) => AddSelected(d, ids[|ids| - 1], overrides, catalog)
  }

  function CustomAll(d: Draft, lines: seq<string>): Result<Draft, Error> {
    if lines == [] then Ok(d)
    else
      match CustomAll(d, lines[..|lines| - 1])
      case Err(e) => Err(e)
      case Ok(d') => AddCustom(d', lines[|lines| - 1])
  }

  function FormEntries(ids: seq<string>, overrides: map<string, string>, lines: seq<string>, apps: seq<App>)
    : Result<seq<Entry>, Error>
  {
    match SelectAll(ids, overrides, Catalog(apps))
    case Err(e) => Err(e)
    case Ok(d) =>
      match CustomAll(d, lines)
      case Err(e) => Err(e)
      case Ok(d') => if |d'.entries| > MAX_ENTRIES then Err(TooManyEntries) else Ok(d'.entries)
  }

  lemma {:induction false} SelectErrorStays(ids: seq<string>, k: nat, overrides: map<string, string>, catalog: map<string, App>)
    requires k <= |ids| && SelectAll(ids[..k], overrides, catalog).Err?
    ensures SelectAll(ids, overrides, catalog) == SelectAll(ids[..k], overrides, catalog)
  {
    if k < |ids| {
      assert ids[..|ids| - 1][..k] == ids[..k];
      SelectErrorStays(ids[..|ids| - 1], k, overrides, catalog);
    } else {
      assert ids[..k] == ids;
    }
  }

  lemma {:induction false} CustomErrorStays(d: Draft, lines: seq<string>, k: nat)
    requires k <= |lines| && CustomAll(d, lines[..k]).Err?
    ensures CustomAll(d, lines) == CustomAll(d, lines[..k])
  {
    if k < |lines| {
      assert lines[..|lines| - 1][..k] == lines[..k];
      CustomErrorStays(d, lines[..|lines| - 1], k);
    } else {
      assert lines[..k] == lines;
    }
  }

  method BuildCatalog(apps: seq<App>) returns (catalog: map<string, App>)
    ensures catalog == Catalog(apps)
  {
    catalog := map[];
    for i := 0 to |apps|
      invariant catalog == Catalog(apps[..i])
    {
      assert apps[..i + 1][..i] == apps[..i];
      catalog := catalog[apps[i].appId := apps[i]];
    }
    assert apps[..|apps|] == apps;
  }

  lemma SelectOneMore(ids: seq<string>, i: nat, overrides: map<string, string>, catalog: map<string, App>, d: Draft)
    requires i < |ids| && SelectAll(ids[..i], overrides, catalog) == Ok(d)
    ensures SelectAll(ids[..i + 1], overrides, catalog) == AddSelected(d, ids[i], overrides, catalog)
    ensures AddSelected(d, ids[i], overrides, catalog).Err? ==>
              SelectAll(ids, overrides, catalog) == AddSelected(d, ids[i], overrides, catalog)
  {
    assert ids[..i + 1][..i] == ids[..i];
    if AddSelected(d, ids[i], overrides, catalog).Err? {
      SelectErrorStays(ids, i + 1, overrides, catalog);
    }
  }

  /** The loop over the selected applications. */
  method SelectApps(ids: seq<string>, overrides: map<string, string>, catalog: map<string, App>) returns (r: Result<Draft, Error>)
    ensures r == SelectAll(ids, overrides, catalog)
  {
    var entries: seq<Entry> := [];
    var seen: set<string> := {};
    for i := 0 to |ids|
      invariant SelectAll(ids[..i], overrides, catalog) == Ok(Draft(entries, seen, 0))
    {
      SelectOneMore(ids, i, overrides, catalog, Draft(entries, seen, 0));
      var id := ids[i];
      if id !in seen {
        if !IsValidAppId(id) || id !in catalog {
          return Err(AppUnavailable);
        }
        var app := catalog[id];
        var m := ParseProcessMatch(if id in overrides then overrides[id] else DefaultMatch(app));
        if m.Err? {
          return Err(m.error);
        }
        entries := entries + [Entry(app.appId, app.name, m.value.name, m.value.path, false)];
        seen := seen + {id};
      }
    }
    assert ids[..|ids|] == ids;
    return Ok(Draft(entries, seen, 0));
  }

  lemma CustomOneMore(d: Draft, lines: seq<string>, i: nat, now: Draft)
    requires i < |lines| && CustomAll(d, lines[..i]) == Ok(now)
    ensures CustomAll(d, lines[..i + 1]) == AddCustom(now, lines[i])
    ensures AddCustom(now, lines[i]).Err? ==> CustomAll(d, lines) == AddCustom(now, lines[i])
  {
    assert lines[..i + 1][..i] == lines[..i];
    if AddCustom(now, lines[i]).Err? {
      CustomErrorStays(d, lines, i + 1);
    }
  }

  /** The loop over the custom lines. */
  method AddCustomLines(d: Draft, lines: seq<string>) returns (r: Result<Draft, Error>)
    ensures r == CustomAll(d, lines)
  {
    var entries, seen := d.entries, d.seen;
    var customs: nat := d.customs;
    for i := 0 to |lines|
      invariant CustomAll(d, lines[..i]) == Ok(Draft(entries, seen, customs))
    {
      CustomOneMore(d, lines, i, Draft(entries, seen, customs));
      if Strip(lines[i]) != "" {
        var m := ParseProcessMatch(lines[i]);
        if m.Err? {
          return Err(m.error);
        }
        var id := CustomId(m.value);
        if id !in seen {
          customs := customs + 1;
          if customs > MAX_CUSTOM_LINES {
            return Err(TooManyCustom);
          }
          entries := entries + [Entry(id, m.value.name, m.value.name, m.value.path, true)];
          seen := seen + {id};
        }
      }
    }
    assert lines[..|lines|] == lines;
    return Ok(Draft(entries, seen, customs));
  }

  method BuildEntriesFromForm(ids: seq<string>, overrides: map<string, string>, lines: seq<string>, apps: seq<App>)
    returns (r: Result<seq<Entry>, Error>)
    ensures r == FormEntries(ids, overrides, lines, apps)
  {
    var catalog := BuildCatalog(apps);
    var selected := SelectApps(ids, overrides, catalog);
    if selected.Err? {
      return Err(selected.error);
    }
    var all := AddCustomLines(selected.value, lines);
    if all.Err? {
      return Err(all.error);
    }
    if |all.value.entries| > MAX_ENTRIES {
      return Err(TooManyEntries);
    }
    return Ok(all.value.entries);
  }

  // What an accepted form yields ------------------------------------------------------------------------------------

  function MatchOf(e: Entry): Match {
    Match(e.processName, e.processPath)
  }

  predicate SoundEntry(e: Entry) {
    && Canonical(MatchOf(e))
    && if e.custom then e.appId == CustomId(MatchOf(e)) else IsValidAppId(e.appId)
  }

  ghost predicate SoundDraft(d: Draft) {
    && (forall i :: 0 <= i < |d.entries| ==> SoundEntry(d.entries[i]) && d.entries[i].appId in d.seen)
    && (forall i, j :: 0 <= i < j < |d.entries| ==> d.entries[i].appId != d.entries[j].appId)
  }

  lemma {:induction false} CatalogKeys(apps: seq<App>)
    ensures forall id :: id in Catalog(apps) ==> Catalog(apps)[id].appId == id
  {
    if apps != [] { CatalogKeys(apps[..|apps| - 1]); }
  }

  lemma AddSelectedSound(d: Draft, id: string, overrides: map<string, string>, apps: seq<App>)
    requires SoundDraft(d) && AddSelected(d, id, overrides, Catalog(apps)).Ok?
    ensures SoundDraft(AddSelected(d, id, overrides, Catalog(apps)).value)
  {
    CatalogKeys(apps);
    if id !in d.seen {
      var value := if id in overrides then overrides[id] else DefaultMatch(Catalog(apps)[id]);
      ParseIsCanonical(value);
      var m := ParseProcessMatch(value).value;
      AppendSound(d, Entry(id, Catalog(apps)[id].name, m.name, m.path, false));
    }
  }

  lemma AddCustomSound(d: Draft, line: string)
    requires SoundDraft(d) && AddCustom(d, line).Ok?
    ensures SoundDraft(AddCustom(d, line).value)
  {
    if Strip(line) != "" {
      ParseIsCanonical(line);
      var m := ParseProcessMatch(line).value;
      if CustomId(m) !in d.seen {
        AppendSound(d, Entry(CustomId(m), m.name, m.name, m.path, true));
      }
    }
  }

  lemma AppendSound(d: Draft, e: Entry)
    requires SoundDraft(d) && SoundEntry(e) && e.appId !in d.seen
    ensures forall customs :: SoundDraft(Draft(d.entries + [e], d.seen + {e.appId}, customs))
  {
  }

  lemma {:induction false} SelectSound(ids: seq<string>, overrides: map<string, string>, apps: seq<App>)
    requires SelectAll(ids, overrides, Catalog(apps)).Ok?
    ensures SoundDraft(SelectAll(ids, overrides, Catalog(apps)).value)
  {
    if ids != [] {
      SelectSound(ids[..|ids| - 1], overrides, apps);
      var init := SelectAll(ids[..|ids| - 1], overrides, Catalog(apps));
      AddSelectedSound(init.value, ids[|ids| - 1], overrides, apps);
    }
  }

  lemma {:induction false} CustomSound(d: Draft, lines: seq<string>)
    requires SoundDraft(d) && CustomAll(d, lines).Ok?
    ensures SoundDraft(CustomAll(d, lines).value)
  {
    if lines != [] {
      CustomSound(d, lines[..|lines| - 1]);
      AddCustomSound(CustomAll(d, lines[..|lines| - 1]).value, lines[|lines| - 1]);
    }
  }

  /** Every entry of an accepted form is canonical, and no identifier occurs twice. */
  lemma FormEntriesSound(ids: seq<string>, overrides: map<string, string>, lines: seq<string>, apps: seq<App>)
    requires FormEntries(ids, overrides, lines, apps).Ok?
    ensures var entries := FormEntries(ids, overrides, lines, apps).value;
            && |entries| <= MAX_ENTRIES
            && (forall i :: 0 <= i < |entries| ==> SoundEntry(entries[i]))
            && (forall i, j :: 0 <= i < j < |entries| ==> entries[i].appId != entries[j].appId)
  {
    SelectSound(ids, overrides, apps);
    CustomSound(SelectAll(ids, overrides, Catalog(apps)).value, lines);
  }

  // Saving and loading ----------------------------------------------------------------------------------------------

  /** One element of the stored list; absent and null fields read as empty. */
  datatype Item = NotAnObject | Object(appId: string, name: string, processName: string, processPath: string, custom: bool)

  datatype Stored = Absent | NotJson | NotAList | Items(items: seq<Item>)

  function ToItem(e: Entry): Item {
    Object(e.appId, e.name, e.processName, e.processPath.GetOr(""), e.custom)
  }

  function Save(entries: seq<Entry>): Result<Stored, Error> {
    if |entries| > MAX_ENTRIES then Err(TooManyEntries) else Ok(Items(Map(entries, ToItem)))
  }

  function OrElse(a: string, b: string): string {
    if a != "" then a else b
  }

  function EntryFromJson(item: Item): Option<Entry> {
    if item.NotAnObject? then None
    else
      var rawPath := Strip(item.processPath);
      if rawPath != "" && rawPath[0] != '/' then None
      else
        match ParseProcessMatch(OrElse(rawPath, item.processName))
        case Err(_) => None
        case Ok(m) =>
          if !item.custom && !IsValidAppId(item.appId) then None
          else
            var name := Strip(OrElse(item.name, m.name));
            var shown := if |name| > MAX_NAME_LEN then name[..MAX_NAME_LEN] else name;
            Some(Entry(if item.custom then CustomId(m) else item.appId, OrElse(shown, m.name), m.name, m.path, item.custom))
  }

  /**
   An element is loaded exactly if it is an object whose trimmed path is empty or absolute, whose path, or else name, parses,
   and which is custom or bears a valid identifier. What is loaded is the parsed match, under the first eighty characters
   of the stored name without outer blanks; the name of the process stands in for an empty one.
   */
  lemma LoadedExactly(item: Item)
    ensures EntryFromJson(item).Some? <==>
            && item.Object? && (Strip(item.processPath) == "" || Strip(item.processPath)[0] == '/')
            && ParseProcessMatch(StoredMatch(item)).Ok? && (item.custom || IsValidAppId(item.appId))
    ensures EntryFromJson(item).Some? ==>
              var e, m := EntryFromJson(item).value, ParseProcessMatch(StoredMatch(item)).value;
              && e.processName == m.name && e.processPath == m.path && e.custom == item.custom
              && e.appId == (if item.custom then "custom:" + m.path.GetOr(m.name) else item.appId)
              && var told := Strip(if item.name == "" then m.name else item.name);
                 && (told == "" ==> e.name == m.name)
                 && (told != "" ==> e.name <= told && |e.name| == if |told| < 80 then |told| else 80)
  {
  }

  function StoredMatch(item: Item): string
    requires item.Object?
  {
    if Strip(item.processPath) != "" then Strip(item.processPath) else item.processName
  }

  /** A list is saved exactly if it has at most two hundred entries. */
  lemma SavedExactly(entries: seq<Entry>)
    ensures Save(entries).Ok? <==> |entries| <= 200
    ensures Save(entries).Ok? ==> Save(entries).value == Items(Map(entries, ToItem))
  {
  }

  /** Loading drops the elements it refuses. */
  function LoadItems(items: seq<Item>): seq<Entry> {
    Values(Map(items, EntryFromJson))
  }

  function Load(stored: Stored): seq<Entry> {
    if stored.Items? then LoadItems(stored.items) else []
  }

  method LoadBypassEntries(stored: Stored) returns (entries: seq<Entry>)
    ensures entries == Load(stored)
  {
    entries := [];
    if !stored.Items? {
      return;
    }
    for i := 0 to |stored.items|
      invariant entries == LoadItems(stored.items[..i])
    {
      assert Map(stored.items[..i + 1], EntryFromJson)[..i] == Map(stored.items[..i], EntryFromJson);
      var entry := EntryFromJson(stored.items[i]);
      if entry.Some? {
        entries := entries + [entry.value];
      }
    }
    assert stored.items[..|stored.items|] == stored.items;
  }

  /** Equal but for the display name, which loading trims and cuts. */
  predicate SameEntry(a: Entry, b: Entry) {
    a.appId == b.appId && a.processName == b.processName && a.processPath == b.processPath && a.custom == b.custom
  }

  predicate SameEntries(a: seq<Entry>, b: seq<Entry>) {
    |a| == |b| && forall i :: 0 <= i < |a| ==> SameEntry(a[i], b[i])
  }

  lemma TrimmedPathStartsWithSlash(p: string)
    requires p != "" && p[0] == '/'
    ensures Strip(p) != "" && Strip(p)[0] == '/'
  {
    TrimRightKeepsHead(p);
  }

  lemma StrippedParsesAlike(value: string)
    ensures ParseProcessMatch(Strip(value)) == ParseProcessMatch(value)
  {
    StripTrims(value);
    StripTrims(Strip(value));
  }

  /** Loading an entry parses its match again. */
  lemma LoadParses(e: Entry)
    requires SoundEntry(e)
    ensures var r := ParseProcessMatch(TextOf(MatchOf(e)));
            && (EntryFromJson(ToItem(e)).Some? <==> r.Ok?)
            && (r.Ok? ==> var f := EntryFromJson(ToItem(e)).value;
                          MatchOf(f) == r.value && f.custom == e.custom
                          && f.appId == if e.custom then CustomId(r.value) else e.appId)
  {
    var text := TextOf(MatchOf(e));
    var raw := Strip(e.processPath.GetOr(""));
    if e.processPath.Some? {
      TrimmedPathStartsWithSlash(text);
      StrippedParsesAlike(text);
      assert OrElse(raw, e.processName) == Strip(text);
    } else {
      assert OrElse(raw, e.processName) == text;
    }
    assert ParseProcessMatch(OrElse(raw, e.processName)) == ParseProcessMatch(text);
  }

  lemma EntryRoundTrip(e: Entry)
    requires SoundEntry(e)
    ensures !EndsInBlank(MatchOf(e)) <==>
            EntryFromJson(ToItem(e)).Some? && SameEntry(EntryFromJson(ToItem(e)).value, e)
  {
    LoadParses(e);
    ParseIsIdempotent(MatchOf(e));
  }

  /** Saving and loading gives back the same list of matches exactly when no path ends in a blank. */
  lemma SaveLoadRoundTrip(entries: seq<Entry>)
    requires |entries| <= MAX_ENTRIES && forall i :: 0 <= i < |entries| ==> SoundEntry(entries[i])
    ensures Save(entries).Ok?
    ensures SameEntries(Load(Save(entries).value), entries) <==>
            forall i :: 0 <= i < |entries| ==> !EndsInBlank(MatchOf(entries[i]))
  {
    var items := Map(entries, ToItem);
    ValuesShape(Map(items, EntryFromJson));
    var loaded := LoadItems(items);
    assert forall i :: 0 <= i < |entries| ==> Map(items, EntryFromJson)[i] == EntryFromJson(items[i]);
    forall i | 0 <= i < |entries|
      ensures !EndsInBlank(MatchOf(entries[i])) <==>
              EntryFromJson(items[i]).Some? && SameEntry(EntryFromJson(items[i]).value, entries[i])
    {
      EntryRoundTrip(entries[i]);
    }
    if SameEntries(loaded, entries) {
      forall i | 0 <= i < |entries| ensures !EndsInBlank(MatchOf(entries[i])) {
        assert EntryFromJson(items[i]) == Some(loaded[i]);
      }
    }
  }

  // From entries to routing -----------------------------------------------------------------------------------------

  predicate HasPath(e: Entry) {
    e.processPath.Some? && e.processPath.value != ""
  }

  /** The lists handed to the route builder: paths of the entries that have one, names of the others, once each. */
  function BypassFor(entries: seq<Entry>): Routing.Bypass {
    if entries == [] then Routing.Bypass([], [])
    else
      var b := BypassFor(entries[..|entries| - 1]);
      var e := entries[|entries| - 1];
      if HasPath(e) then
        if e.processPath.value in b.processPath then b
        else b.(processPath := b.processPath + [e.processPath.value])
      else if e.processName != "" && e.processName !in b.processName then b.(processName := b.processName + [e.processName])
      else b
  }

  method ProcessBypassForConfig(entries: seq<Entry>) returns (b: Routing.Bypass)
    ensures b == BypassFor(entries)
  {
    var names: seq<string>, paths: seq<string> := [], [];
    var seenNames: set<string>, seenPaths: set<string> := {}, {};
    for i := 0 to |entries|
      invariant BypassFor(entries[..i]) == Routing.Bypass(names, paths)
      invariant (forall n :: n in seenNames <==> n in names) && (forall p :: p in seenPaths <==> p in paths)
    {
      assert entries[..i + 1][..i] == entries[..i];
      var e := entries[i];
      if HasPath(e) {
        if e.processPath.value !in seenPaths {
          paths := paths + [e.processPath.value];
          seenPaths := seenPaths + {e.processPath.value};
        }
      } else if e.processName != "" && e.processName !in seenNames {
        names := names + [e.processName];
        seenNames := seenNames + {e.processName};
      }
    }
    assert entries[..|entries|] == entries;
    return Routing.Bypass(names, paths);
  }

  /** The entry is meant for the process of the connection: its exact path, or without a path its exact name. */
  predicate Covers(e: Entry, c: Routing.Connection) {
    if HasPath(e) then c.processPath == e.processPath
    else e.processName != "" && c.processName == Some(e.processName)
  }

  lemma {:induction false} BypassListsEntries(entries: seq<Entry>, c: Routing.Connection)
    ensures Routing.Listed(Some(BypassFor(entries)), c) <==> exists i :: 0 <= i < |entries| && Covers(entries[i], c)
    ensures NoDuplicates(BypassFor(entries).processName) && NoDuplicates(BypassFor(entries).processPath)
  {
    if entries != [] {
      var init, e := entries[..|entries| - 1], entries[|entries| - 1];
      BypassListsEntries(init, c);
      assert entries == init + [e];
      if Covers(e, c) {
        assert Covers(entries[|entries| - 1], c);
        assert Routing.Listed(Some(BypassFor(entries)), c);
      }
      if i :| 0 <= i < |init| && Covers(init[i], c) {
        assert Covers(entries[i], c);
      }
    }
  }

  lemma SameEntriesCoverAlike(a: seq<Entry>, b: seq<Entry>, c: Routing.Connection)
    requires SameEntries(a, b)
    ensures (exists i :: 0 <= i < |a| && Covers(a[i], c)) <==> (exists i :: 0 <= i < |b| && Covers(b[i], c))
  {
    if i :| 0 <= i < |a| && Covers(a[i], c) { assert Covers(b[i], c); }
    if i :| 0 <= i < |b| && Covers(b[i], c) { assert Covers(a[i], c); }
  }

  /**
   From the form to the packet: once an accepted form is saved, loaded and turned into a route, a connection
   goes direct for the sake of the list exactly when some entry of the form covers its process, and is routed
   as without any list otherwise.
   */
  lemma FormDecidesRouting(ids: seq<string>, overrides: map<string, string>, lines: seq<string>, apps: seq<App>,
                           preset: Routing.Preset, final: string, c: Routing.Connection)
    requires FormEntries(ids, overrides, lines, apps).Ok? && preset.Known()
    requires var entries := FormEntries(ids, overrides, lines, apps).value;
             forall i :: 0 <= i < |entries| ==> !EndsInBlank(MatchOf(entries[i]))
    ensures var entries := FormEntries(ids, overrides, lines, apps).value;
            var bypass := BypassFor(Load(Save(entries).value));
            Routing.Decide(Routing.BuildRouteConfig(preset, Some(bypass)).value.(final := final), c) ==
            if exists i :: 0 <= i < |entries| && Covers(entries[i], c) then Routing.Outbound(Routing.DIRECT)
            else Routing.Decide(Routing.BuildRouteConfig(preset, None).value.(final := final), c)
  {
    var entries := FormEntries(ids, overrides, lines, apps).value;
    FormEntriesSound(ids, overrides, lines, apps);
    SaveLoadRoundTrip(entries);
    var loaded := Load(Save(entries).value);
    BypassListsEntries(loaded, c);
    SameEntriesCoverAlike(loaded, entries, c);
    Routing.BypassOnlyAffectsListed(preset, Some(BypassFor(loaded)), final, c);
  }
}
