/** Which forms the bypass page accepts, and the entries they yield. */
module BypassForms {
  import opened Prelude
  import opened Text
  import opened Sequences
  import opened AppBypass

  function IdOf(e: Entry): string {
    e.appId
  }

  lemma MembersOneMore(ids: seq<string>, id: string)
    ensures (set x | x in ids + [id]) == (set x | x in ids) + {id}
  {
  }

  // Applications ----------------------------------------------------------------------------------------------------

  /** `app` is the last one reported under its identifier. */
  ghost predicate Reported(apps: seq<App>, app: App) {
    exists i :: 0 <= i < |apps| && apps[i] == app && forall j :: i < j < |apps| ==> apps[j].appId != app.appId
  }

  predicate Lists(apps: seq<App>, id: string) {
    exists i :: 0 <= i < |apps| && apps[i].appId == id
  }

  lemma ListsOneMore(init: seq<App>, last: App, id: string)
    ensures Lists(init + [last], id) <==> Lists(init, id) || last.appId == id
  {
    var apps := init + [last];
    if i :| 0 <= i < |init| && init[i].appId == id { assert apps[i].appId == id; }
    if last.appId == id { assert apps[|init|].appId == id; }
  }

  lemma ReportedOneMore(init: seq<App>, last: App, app: App)
    requires app == last || (Reported(init, app) && last.appId != app.appId)
    ensures Reported(init + [last], app)
  {
    var apps := init + [last];
    if app == last {
      assert apps[|init|] == app;
    } else {
      var i :| 0 <= i < |init| && init[i] == app && forall j :: i < j < |init| ==> init[j].appId != app.appId;
      assert apps[i] == app;
    }
  }

  lemma {:induction false} CatalogExactly(apps: seq<App>, id: string)
    ensures id in Catalog(apps) <==> Lists(apps, id)
    ensures id in Catalog(apps) ==> Catalog(apps)[id].appId == id && Reported(apps, Catalog(apps)[id])
  {
    if apps != [] {
      var init, last := apps[..|apps| - 1], apps[|apps| - 1];
      CatalogExactly(init, id);
      assert apps == init + [last];
      ListsOneMore(init, last, id);
      if id in Catalog(apps) { ReportedOneMore(init, last, Catalog(apps)[id]); }
    }
  }

  /** What is to be matched for an application: what the user typed, else its path, else its name. */
  function WantedMatch(app: App, overrides: map<string, string>): string {
    if app.appId in overrides then overrides[app.appId]
    else if app.processPath == None || app.processPath == Some("") then app.processName
    else app.processPath.value
  }

  /** The entry of a selected application. */
  ghost predicate IsAppEntry(e: Entry, apps: seq<App>, overrides: map<string, string>) {
    exists app :: Reported(apps, app) && e.appId == app.appId && e.name == app.name && !e.custom
      && ParseProcessMatch(WantedMatch(app, overrides)) == Ok(MatchOf(e))
  }

  /** The application can be selected. */
  ghost predicate Selectable(id: string, apps: seq<App>, overrides: map<string, string>) {
    IsValidAppId(id) && exists app :: Reported(apps, app) && app.appId == id && ParseProcessMatch(WantedMatch(app, overrides)).Ok?
  }

  lemma ReportedOnce(apps: seq<App>, a: App, b: App)
    requires Reported(apps, a) && Reported(apps, b) && a.appId == b.appId
    ensures a == b
  {
  }

  lemma SelectableByCatalog(id: string, apps: seq<App>, overrides: map<string, string>)
    ensures Selectable(id, apps, overrides) <==>
            IsValidAppId(id) && id in Catalog(apps) && ParseProcessMatch(WantedMatch(Catalog(apps)[id], overrides)).Ok?
  {
    CatalogExactly(apps, id);
    if Selectable(id, apps, overrides) {
      var app :| Reported(apps, app) && app.appId == id && ParseProcessMatch(WantedMatch(app, overrides)).Ok?;
      ReportedOnce(apps, app, Catalog(apps)[id]);
    }
  }

  lemma SelectOne(d: Draft, id: string, overrides: map<string, string>, apps: seq<App>)
    requires id !in d.seen
    ensures var r := AddSelected(d, id, overrides, Catalog(apps));
            && (r.Ok? <==> Selectable(id, apps, overrides))
            && (r.Ok? ==>
                  && |r.value.entries| == |d.entries| + 1 && r.value.entries[..|d.entries|] == d.entries
                  && r.value.entries[|d.entries|].appId == id && IsAppEntry(r.value.entries[|d.entries|], apps, overrides)
                  && r.value.seen == d.seen + {id} && r.value.customs == d.customs)
  {
    SelectableByCatalog(id, apps, overrides);
    CatalogExactly(apps, id);
  }

  /** The draft holds the entries of the different selections, in order. */
  ghost predicate Selected(d: Draft, ids: seq<string>, overrides: map<string, string>, apps: seq<App>) {
    && Map(d.entries, IdOf) == Distinct(ids) && d.seen == (set id | id in ids) && d.customs == 0
    && forall e :: e in d.entries ==> IsAppEntry(e, apps, overrides)
  }

  lemma EntryMore(d: Draft, e: Entry, init: seq<string>, overrides: map<string, string>, apps: seq<App>)
    requires Selected(d, init, overrides, apps) && e.appId !in init && IsAppEntry(e, apps, overrides)
    ensures Selected(Draft(d.entries + [e], d.seen + {e.appId}, 0), init + [e.appId], overrides, apps)
  {
    DistinctOneMore(init, e.appId);
    MapOneMore(d.entries, e, IdOf);
    MembersOneMore(init, e.appId);
  }

  lemma SelectMore(d: Draft, init: seq<string>, last: string, overrides: map<string, string>, apps: seq<App>)
    requires Selected(d, init, overrides, apps) && (forall id :: id in init ==> Selectable(id, apps, overrides))
    ensures var r := AddSelected(d, last, overrides, Catalog(apps));
            && (r.Ok? <==> Selectable(last, apps, overrides))
            && (r.Ok? ==> Selected(r.value, init + [last], overrides, apps))
  {
    if last in d.seen {
      DistinctOneMore(init, last);
      MembersOneMore(init, last);
    } else {
      SelectOne(d, last, overrides, apps);
      var r := AddSelected(d, last, overrides, Catalog(apps));
      if r.Ok? {
        var e := r.value.entries[|d.entries|];
        assert r.value == Draft(d.entries + [e], d.seen + {last}, 0);
        EntryMore(d, e, init, overrides, apps);
      }
    }
  }

  lemma {:induction false} SelectAllExactly(ids: seq<string>, overrides: map<string, string>, apps: seq<App>)
    ensures var r := SelectAll(ids, overrides, Catalog(apps));
            && (r.Ok? <==> forall id :: id in ids ==> Selectable(id, apps, overrides))
            && (r.Ok? ==> Selected(r.value, ids, overrides, apps))
  {
    if ids != [] {
      var init, last := ids[..|ids| - 1], ids[|ids| - 1];
      SelectAllExactly(init, overrides, apps);
      assert ids == init + [last];
      var before := SelectAll(init, overrides, Catalog(apps));
      if before.Ok? { SelectMore(before.value, init, last, overrides, apps); }
    }
  }

  // Custom lines ----------------------------------------------------------------------------------------------------

  /** The identifiers of the lines that are not blank. */
  function CustomIds(lines: seq<string>): seq<string> {
    if lines == [] then []
    else
      var ids, last := CustomIds(lines[..|lines| - 1]), lines[|lines| - 1];
      if Strip(last) == "" || ParseProcessMatch(last).Err? then ids else ids + ["custom:" + TextOf(ParseProcessMatch(last).value)]
  }

  /** The entry of a custom line. */
  ghost predicate IsLineEntry(e: Entry, lines: seq<string>) {
    && e.custom && e.appId == "custom:" + TextOf(MatchOf(e)) && e.name == e.processName
    && exists i :: 0 <= i < |lines| && Strip(lines[i]) != "" && ParseProcessMatch(lines[i]) == Ok(MatchOf(e))
  }

  ghost predicate Readable(lines: seq<string>) {
    forall i :: 0 <= i < |lines| && Strip(lines[i]) != "" ==> ParseProcessMatch(lines[i]).Ok?
  }

  predicate IsCustomId(id: string) {
    "custom:" <= id
  }

  lemma AppIdsAreNotCustom(id: string)
    requires IsValidAppId(id)
    ensures !IsCustomId(id)
  {
    assert id[0] == 'u' || id[0] == 'h';
  }

  lemma {:induction false} CustomIdsAreCustom(lines: seq<string>)
    ensures forall id :: id in CustomIds(lines) ==> IsCustomId(id)
  {
    if lines != [] { CustomIdsAreCustom(lines[..|lines| - 1]); }
  }

  /** `added` has one entry for each of the different `ids`, in order, and draft `d` has counted and seen them. */
  ghost predicate Numbered(added: seq<Entry>, d: Draft, start: set<string>, ids: seq<string>) {
    Map(added, IdOf) == Distinct(ids) && d.customs == |Distinct(ids)| && d.seen == start + (set id | id in ids)
  }

  ghost predicate LinesAdded(added: seq<Entry>, d: Draft, start: set<string>, lines: seq<string>) {
    Numbered(added, d, start, CustomIds(lines)) && forall e :: e in added ==> IsLineEntry(e, lines)
  }

  lemma NumberNew(added: seq<Entry>, d: Draft, start: set<string>, ids: seq<string>, e: Entry)
    requires Numbered(added, d, start, ids) && e.appId !in ids
    ensures Numbered(added + [e], Draft(d.entries + [e], d.seen + {e.appId}, d.customs + 1), start, ids + [e.appId])
  {
    DistinctOneMore(ids, e.appId);
    MapOneMore(added, e, IdOf);
    MembersOneMore(ids, e.appId);
  }

  lemma NumberKnown(added: seq<Entry>, d: Draft, start: set<string>, ids: seq<string>, id: string)
    requires Numbered(added, d, start, ids) && id in ids
    ensures Numbered(added, d, start, ids + [id])
  {
    DistinctOneMore(ids, id);
    MembersOneMore(ids, id);
  }

  lemma LineEntryStays(e: Entry, lines: seq<string>, more: seq<string>)
    requires IsLineEntry(e, lines) && lines <= more
    ensures IsLineEntry(e, more)
  {
    var i :| 0 <= i < |lines| && Strip(lines[i]) != "" && ParseProcessMatch(lines[i]) == Ok(MatchOf(e));
    assert more[i] == lines[i];
  }

  lemma LineEntriesStay(entries: seq<Entry>, init: seq<string>, line: string)
    requires forall e :: e in entries ==> IsLineEntry(e, init)
    ensures forall e :: e in entries ==> IsLineEntry(e, init + [line])
  {
    forall e | e in entries ensures IsLineEntry(e, init + [line]) { LineEntryStays(e, init, init + [line]); }
  }

  lemma CustomIdsOneMore(init: seq<string>, line: string)
    requires Strip(line) != "" && ParseProcessMatch(line).Ok?
    ensures CustomIds(init + [line]) == CustomIds(init) + [CustomId(ParseProcessMatch(line).value)]
  {
    assert (init + [line])[..|init|] == init;
  }

  lemma SeenByLine(m: Match, start: set<string>, ids: seq<string>)
    requires forall id :: id in start ==> !IsCustomId(id)
    ensures CustomId(m) in start + (set id | id in ids) <==> CustomId(m) in ids
  {
    assert IsCustomId(CustomId(m));
  }

  lemma NewLineEntry(init: seq<string>, line: string, m: Match)
    requires ParseProcessMatch(line) == Ok(m) && Strip(line) != ""
    ensures IsLineEntry(Entry(CustomId(m), m.name, m.name, m.path, true), init + [line])
  {
    assert (init + [line])[|init|] == line;
  }

  lemma AddNewLine(added: seq<Entry>, d: Draft, start: set<string>, init: seq<string>, line: string, m: Match)
    requires LinesAdded(added, d, start, init) && ParseProcessMatch(line) == Ok(m) && Strip(line) != ""
    requires CustomId(m) !in CustomIds(init)
    ensures var e := Entry(CustomId(m), m.name, m.name, m.path, true);
            LinesAdded(added + [e], Draft(d.entries + [e], d.seen + {CustomId(m)}, d.customs + 1), start, init + [line])
  {
    var e := Entry(CustomId(m), m.name, m.name, m.path, true);
    CustomIdsOneMore(init, line);
    NumberNew(added, d, start, CustomIds(init), e);
    LineEntriesStay(added, init, line);
    NewLineEntry(init, line, m);
  }

  lemma AddKnownLine(added: seq<Entry>, d: Draft, start: set<string>, init: seq<string>, line: string, m: Match)
    requires LinesAdded(added, d, start, init) && ParseProcessMatch(line) == Ok(m) && Strip(line) != ""
    requires CustomId(m) in CustomIds(init)
    ensures LinesAdded(added, d, start, init + [line])
  {
    CustomIdsOneMore(init, line);
    NumberKnown(added, d, start, CustomIds(init), CustomId(m));
    LineEntriesStay(added, init, line);
  }

  lemma SkipLine(added: seq<Entry>, d: Draft, start: set<string>, init: seq<string>, line: string)
    requires LinesAdded(added, d, start, init) && Strip(line) == ""
    ensures LinesAdded(added, d, start, init + [line])
  {
    assert (init + [line])[..|init|] == init;
    LineEntriesStay(added, init, line);
  }

  lemma AddLine(added: seq<Entry>, d: Draft, start: set<string>, init: seq<string>, line: string) returns (more: seq<Entry>)
    requires LinesAdded(added, d, start, init) && (forall id :: id in start ==> !IsCustomId(id)) && AddCustom(d, line).Ok?
    ensures AddCustom(d, line).value.entries == d.entries + more
    ensures LinesAdded(added + more, AddCustom(d, line).value, start, init + [line])
  {
    more := [];
    assert added + [] == added && d.entries + [] == d.entries;
    if Strip(line) == "" {
      SkipLine(added, d, start, init, line);
    } else {
      var m := ParseProcessMatch(line).value;
      SeenByLine(m, start, CustomIds(init));
      if CustomId(m) in d.seen {
        AddKnownLine(added, d, start, init, line, m);
      } else {
        AddNewLine(added, d, start, init, line, m);
        more := [Entry(CustomId(m), m.name, m.name, m.path, true)];
      }
    }
  }

  /** The next line can be added exactly when it is blank, or can be read and keeps within the forty. */
  lemma LineFits(added: seq<Entry>, d: Draft, start: set<string>, init: seq<string>, line: string)
    requires LinesAdded(added, d, start, init) && (forall id :: id in start ==> !IsCustomId(id))
    requires |Distinct(CustomIds(init))| <= 40
    ensures AddCustom(d, line).Ok? <==>
            (Strip(line) != "" ==> ParseProcessMatch(line).Ok?) && |Distinct(CustomIds(init + [line]))| <= 40
  {
    assert (init + [line])[..|init|] == init;
    if ParseProcessMatch(line).Ok? { DistinctOneMore(CustomIds(init), CustomId(ParseProcessMatch(line).value)); }
  }

  lemma CustomIdsGrow(init: seq<string>, line: string)
    ensures |Distinct(CustomIds(init))| <= |Distinct(CustomIds(init + [line]))|
    ensures Readable(init + [line]) <==> Readable(init) && (Strip(line) != "" ==> ParseProcessMatch(line).Ok?)
  {
    var lines := init + [line];
    assert lines[..|init|] == init;
    if ParseProcessMatch(line).Ok? { DistinctOneMore(CustomIds(init), CustomId(ParseProcessMatch(line).value)); }
    forall i | 0 <= i < |init| ensures init[i] == lines[i] {}
    assert lines[|init|] == line;
  }

  lemma AppendTwice(a: seq<Entry>, b: seq<Entry>, c: seq<Entry>)
    ensures a + b + c == a + (b + c)
  {
  }

  /** All lines can be added, and the draft has the entries of the different ones behind its own. */
  lemma {:induction false} CustomAllExactly(d: Draft, lines: seq<string>) returns (added: seq<Entry>)
    requires d.customs == 0 && forall id :: id in d.seen ==> !IsCustomId(id)
    ensures var r := CustomAll(d, lines);
            && (r.Ok? <==> Readable(lines) && |Distinct(CustomIds(lines))| <= 40)
            && (r.Ok? ==> r.value.entries == d.entries + added && LinesAdded(added, r.value, d.seen, lines))
  {
    added := [];
    if lines == [] {
      assert d.entries + [] == d.entries;
    } else {
      var init, last := lines[..|lines| - 1], lines[|lines| - 1];
      added := CustomAllExactly(d, init);
      assert lines == init + [last];
      CustomIdsGrow(init, last);
      var before := CustomAll(d, init);
      if before.Ok? {
        LineFits(added, before.value, d.seen, init, last);
        if AddCustom(before.value, last).Ok? {
          var more := AddLine(added, before.value, d.seen, init, last);
          AppendTwice(d.entries, added, more);
          added := added + more;
        }
      }
    }
  }

  // The form --------------------------------------------------------------------------------------------------------

  lemma FormParts(ids: seq<string>, overrides: map<string, string>, lines: seq<string>, apps: seq<App>)
    returns (selected: seq<Entry>, added: seq<Entry>)
    ensures var first := SelectAll(ids, overrides, Catalog(apps));
            && (first.Ok? <==> forall id :: id in ids ==> Selectable(id, apps, overrides))
            && (first.Ok? ==>
                  var all := CustomAll(first.value, lines);
                  && (all.Ok? <==> Readable(lines) && |Distinct(CustomIds(lines))| <= 40)
                  && Selected(first.value, ids, overrides, apps) && selected == first.value.entries
                  && (all.Ok? ==> all.value.entries == selected + added && LinesAdded(added, all.value, first.value.seen, lines)))
  {
    SelectAllExactly(ids, overrides, apps);
    var first := SelectAll(ids, overrides, Catalog(apps));
    selected, added := [], [];
    if first.Ok? {
      forall id | id in first.value.seen ensures !IsCustomId(id) {
        AppIdsAreNotCustom(id);
      }
      selected := first.value.entries;
      added := CustomAllExactly(first.value, lines);
    }
  }

  /** A form is accepted exactly when every selected application is there and can be matched, every line that is not blank
      can be read, and there are at most forty different custom matches and two hundred entries. */
  lemma FormAcceptedExactly(ids: seq<string>, overrides: map<string, string>, lines: seq<string>, apps: seq<App>)
    ensures FormEntries(ids, overrides, lines, apps).Ok? <==>
            && (forall id :: id in ids ==> Selectable(id, apps, overrides)) && Readable(lines)
            && |Distinct(CustomIds(lines))| <= 40 && |Distinct(ids)| + |Distinct(CustomIds(lines))| <= 200
  {
    var selected, added := FormParts(ids, overrides, lines, apps);
  }

  /** An accepted form yields one entry for each different selection, in order, and behind them one for each different
      custom match, in order; each is the entry of its application or of its line. */
  lemma FormEntriesExactly(ids: seq<string>, overrides: map<string, string>, lines: seq<string>, apps: seq<App>)
    returns (selected: seq<Entry>, added: seq<Entry>)
    requires FormEntries(ids, overrides, lines, apps).Ok?
    ensures FormEntries(ids, overrides, lines, apps).value == selected + added
    ensures Map(selected, IdOf) == Distinct(ids) && forall e :: e in selected ==> IsAppEntry(e, apps, overrides)
    ensures Map(added, IdOf) == Distinct(CustomIds(lines)) && forall e :: e in added ==> IsLineEntry(e, lines)
  {
    selected, added := FormParts(ids, overrides, lines, apps);
  }
}
