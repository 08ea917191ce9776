/** The table of nodes: adding, deleting, and the export and import of the whole list. */
module NodeStore {
  import opened Prelude
  import opened Text
  import opened Sequences
  import opened NodeRows

  const TOPOLOGY_ROLES: set<string> := {"entry_relay", "upstream_exit"}

  /** What a geo lookup found out, field by field. */
  datatype GeoInfo = GeoInfo(countryCode: Option<string>, countryName: Option<string>, providerSuggestion: Option<string>)
  type GeoLookup = NodeRow -> GeoInfo

  /** One element of an import: absent and null fields are `None`; the role may be absent altogether. */
  datatype Item =
    | NotAnObject
    | Object(rawUrl: string, countryCode: Option<string>, countryName: Option<string>, providerName: Option<string>,
             providerSuggestion: Option<string>, notes: Option<string>, hasRole: bool, role: Option<string>)

  // Columns ---------------------------------------------------------------------------------------------------------

  function StrOrNone(v: Option<string>): Option<string> {
    if v.None? || Strip(v.value) == "" then None else Some(Strip(v.value))
  }

  function StrOrExisting(v: Option<string>, existing: Option<string>): Option<string> {
    if StrOrNone(v).Some? then StrOrNone(v) else existing
  }

  /** `normalize_topology_role` */
  function NormalizeRole(v: Option<string>): Result<Option<string>, ()> {
    var role := StrOrNone(v);
    if role.Some? && role.value !in TOPOLOGY_ROLES then Err(()) else Ok(role)
  }

  /** The geo columns a lookup fills in. */
  function Located(row: NodeRow, info: GeoInfo): NodeRow {
    row.(meta := row.meta.(
      countryCode := if Given(info.countryCode).Some? then info.countryCode else row.meta.countryCode,
      countryName := if Given(info.countryName).Some? then info.countryName else row.meta.countryName,
      providerSuggestion :=
        if Given(info.providerSuggestion).Some? then info.providerSuggestion else row.meta.providerSuggestion))
  }

  /** `_apply_import_update`: a bad role is refused after the other columns have been written. */
  function ApplyImportUpdate(row: NodeRow, p: Parsed, item: Item): (NodeRow, bool)
    requires item.Object?
  {
    var m := row.meta;
    var meta := Metadata(
      StrOrExisting(item.countryCode, m.countryCode), StrOrExisting(item.countryName, m.countryName),
      StrOrExisting(item.providerName, m.providerName), StrOrExisting(item.providerSuggestion, m.providerSuggestion),
      StrOrExisting(item.notes, m.notes), m.role);
    var written := row.(rawUrl := p.rawUrl, protocol := p.protocol, parsed := p.node, schema := p.schema, meta := meta);
    if !item.hasRole then (written, true)
    else
      var role := NormalizeRole(item.role);
      if role.Err? then (written, false) else (written.(meta := meta.(role := role.value)), true)
  }

  /** `_node_from_import`, with the lookup for rows without a country. */
  function NodeFromImport(p: Parsed, item: Item, geo: GeoLookup): Option<NodeRow>
    requires item.Object?
  {
    var role := NormalizeRole(if item.hasRole then item.role else None);
    if role.Err? then None
    else
      var row := RowOf(p, false, Metadata(
        StrOrNone(item.countryCode), StrOrNone(item.countryName), StrOrNone(item.providerName),
        StrOrNone(item.providerSuggestion), StrOrNone(item.notes), role.value));
      Some(if row.meta.countryCode.None? && row.meta.countryName.None? then Located(row, geo(row)) else row)
  }

  /** The metadata form. */
  datatype MetadataForm = MetadataForm(
    countryCode: string, countryName: string, providerName: string, notes: string, role: string)

  /** `str.upper`, an arbitrary function here. */
  type UpperCase = string -> string

  /** `update_node_metadata`: nothing is written when the role is unknown. */
  function Edited(row: NodeRow, form: MetadataForm, upper: UpperCase): Result<NodeRow, ()> {
    var role := NormalizeRole(Some(form.role));
    if role.Err? then Err(())
    else
      var code := upper(Strip(form.countryCode));
      Ok(row.(meta := row.meta.(
        countryCode := Given(Some(if |code| > 8 then code[..8] else code)), countryName := StrOrNone(Some(form.countryName)),
        providerName := StrOrNone(Some(form.providerName)), notes := StrOrNone(Some(form.notes)), role := role.value)))
  }

  // The import loop -------------------------------------------------------------------------------------------------

  function FindTag(rows: seq<NodeRow>, tag: string): (k: nat)
    ensures k <= |rows| && (k < |rows| ==> rows[k].tag == tag) && forall i :: 0 <= i < k ==> rows[i].tag != tag
  {
    if rows == [] || rows[0].tag == tag then 0 else 1 + FindTag(rows[1..], tag)
  }

  /** An import under way: the stored rows as modified so far, the rows to be added at the commit, and the counts.
      Pending rows are not seen by lookups, because the session does not flush on its own. */
  datatype Progress = Progress(rows: seq<NodeRow>, pending: seq<NodeRow>, imported: nat, errors: nat, blank: nat)

  function ImportItem(parse: UrlParser, geo: GeoLookup, s: Progress, item: Item): Progress {
    if item.NotAnObject? then s.(errors := s.errors + 1)
    else if item.rawUrl == "" then s.(blank := s.blank + 1)
    else
      match parse(item.rawUrl)
      case None => s.(errors := s.errors + 1)
      case Some(p) =>
        var k := FindTag(s.rows, p.node.tag);
        if k < |s.rows| then
          var (row, ok) := ApplyImportUpdate(s.rows[k], p, item);
          var s' := s.(rows := s.rows[k := row]);
          if ok then s'.(imported := s.imported + 1) else s'.(errors := s.errors + 1)
        else
          match NodeFromImport(p, item, geo)
          case None => s.(errors := s.errors + 1)
          case Some(row) => s.(pending := s.pending + [row], imported := s.imported + 1)
  }

  function ImportAll(parse: UrlParser, geo: GeoLookup, rows: seq<NodeRow>, items: seq<Item>): Progress {
    if items == [] then Progress(rows, [], 0, 0, 0)
    else ImportItem(parse, geo, ImportAll(parse, geo, rows, items[..|items| - 1]), items[|items| - 1])
  }

  /** The unique index on tags. */
  predicate DistinctTags(rows: seq<NodeRow>) {
    forall i, j :: 0 <= i < j < |rows| ==> rows[i].tag != rows[j].tag
  }

  function ToItem(r: NodeRow): Item {
    Object(r.rawUrl, r.meta.countryCode, r.meta.countryName, r.meta.providerName, r.meta.providerSuggestion,
           r.meta.notes, true, r.meta.role)
  }

  class Store {
    const parse: UrlParser
    var rows: seq<NodeRow>

    constructor (parse: UrlParser)
      ensures this.parse == parse && rows == []
    {
      this.parse := parse;
      rows := [];
    }

    /** `add_or_update_node`; an update keeps key, flag and metadata. */
    method AddOrUpdate(url: string, geo: GeoLookup) returns (ok: bool)
      modifies this`rows
      ensures ok <==> parse(url).Some?
      ensures rows == if ok then Added(old(rows), parse(url).value, geo) else old(rows)
      ensures rows == Handled(parse, old(rows), Add(url, geo))
    {
      var p := parse(url);
      if p.None? {
        return false;
      }
      var k := FindTag(rows, p.value.node.tag);
      if k < |rows| {
        var row := rows[k].(rawUrl := p.value.rawUrl, protocol := p.value.protocol, parsed := p.value.node, schema := p.value.schema);
        rows := rows[k := Located(row, geo(row))];
      } else {
        var row := RowOf(p.value, false, Metadata(None, None, None, None, None, None));
        rows := rows + [Located(row, geo(row))];
      }
      return true;
    }

    method Delete(k: nat) returns (ok: bool)
      modifies this`rows
      ensures ok <==> k < |old(rows)|
      ensures rows == if ok then Without(old(rows), k) else old(rows)
      ensures rows == Handled(parse, old(rows), Remove(k))
    {
      ok := k < |rows|;
      if ok {
        rows := rows[..k] + rows[k + 1..];
      }
    }

    method UpdateMetadata(k: nat, form: MetadataForm, upper: UpperCase) returns (ok: bool)
      modifies this`rows
      ensures ok <==> k < |old(rows)| && Edited(old(rows)[k], form, upper).Ok?
      ensures rows == if ok then old(rows)[k := Edited(old(rows)[k], form, upper).value] else old(rows)
      ensures rows == Handled(parse, old(rows), Edit(k, form, upper))
    {
      if k >= |rows| {
        return false;
      }
      var role := NormalizeRole(Some(form.role));
      if role.Err? {
        return false;
      }
      var code := upper(Strip(form.countryCode));
      var meta := rows[k].meta;
      meta := meta.(countryCode := Given(Some(if |code| > 8 then code[..8] else code)));
      meta := meta.(countryName := StrOrNone(Some(form.countryName)));
      meta := meta.(providerName := StrOrNone(Some(form.providerName)));
      meta := meta.(notes := StrOrNone(Some(form.notes)));
      meta := meta.(role := role.value);
      rows := rows[k := rows[k].(meta := meta)];
      return true;
    }

    /** `refresh_geo_by_id` */
    method RefreshGeo(k: nat, geo: GeoLookup) returns (ok: bool)
      modifies this`rows
      ensures ok <==> k < |old(rows)|
      ensures rows == if ok then old(rows)[k := Located(old(rows)[k], geo(old(rows)[k]))] else old(rows)
      ensures rows == Handled(parse, old(rows), Locate(k, geo))
    {
      ok := k < |rows|;
      if ok {
        rows := rows[k := Located(rows[k], geo(rows[k]))];
      }
    }

    /** `import_nodes_payload`: `None` when the commit fails, and then nothing is written. */
    method ImportNodes(items: seq<Item>, geo: GeoLookup) returns (counts: Option<(nat, nat)>)
      modifies this`rows
      ensures var s := ImportAll(parse, geo, old(rows), items);
              && (counts.Some? <==> DistinctTags(s.rows + s.pending))
              && (counts.Some? ==> counts.value == (s.imported, s.errors))
              && rows == if counts.Some? then s.rows + s.pending else old(rows)
      ensures rows == Handled(parse, old(rows), Import(items, geo))
    {
      var current, pending, imported, errors := rows, [], 0, 0;
      ghost var blank := 0;
      for i := 0 to |items|
        invariant ImportAll(parse, geo, rows, items[..i]) == Progress(current, pending, imported, errors, blank)
        invariant rows == old(rows)
      {
        assert items[..i + 1][..i] == items[..i];
        var item := items[i];
        if item.NotAnObject? {
          errors := errors + 1;
        } else if item.rawUrl == "" {
          blank := blank + 1;
        } else {
          var p := parse(item.rawUrl);
          if p.None? {
            errors := errors + 1;
          } else {
            var k := FindTag(current, p.value.node.tag);
            if k < |current| {
              var (row, ok) := ApplyImportUpdate(current[k], p.value, item);
              current := current[k := row];
              if ok { imported := imported + 1; } else { errors := errors + 1; }
            } else {
              var row := NodeFromImport(p.value, item, geo);
              if row.None? {
                errors := errors + 1;
              } else {
                pending := pending + [row.value];
                imported := imported + 1;
              }
            }
          }
        }
      }
      assert items[..|items|] == items;
      if !DistinctTags(current + pending) {
        return None;
      }
      rows := current + pending;
      return Some((imported, errors));
    }
  }

  function Added(rows: seq<NodeRow>, p: Parsed, geo: GeoLookup): seq<NodeRow> {
    var k := FindTag(rows, p.node.tag);
    if k < |rows| then
      var row := rows[k].(rawUrl := p.rawUrl, protocol := p.protocol, parsed := p.node, schema := p.schema);
      rows[k := Located(row, geo(row))]
    else
      var row := RowOf(p, false, Metadata(None, None, None, None, None, None));
      rows + [Located(row, geo(row))]
  }

  // What the single columns get -------------------------------------------------------------------------------------

  /** A lookup fills in what it found out, and leaves the rest. */
  predicate LocatedBy(before: Metadata, after: Metadata, info: GeoInfo) {
    && after.countryCode == (if Given(info.countryCode).Some? then info.countryCode else before.countryCode)
    && after.countryName == (if Given(info.countryName).Some? then info.countryName else before.countryName)
    && after.providerSuggestion ==
         (if Given(info.providerSuggestion).Some? then info.providerSuggestion else before.providerSuggestion)
    && after.providerName == before.providerName && after.notes == before.notes && after.role == before.role
  }

  /** Adding a URL rewrites the row of its tag, which keeps place, flag and metadata but for what the lookup finds out, or
      appends an inactive row; it touches no other row. */
  lemma AddedExactly(rows: seq<NodeRow>, p: Parsed, geo: GeoLookup)
    ensures var k, after := FindTag(rows, p.node.tag), Added(rows, p, geo);
            && |after| == (if k < |rows| then |rows| else |rows| + 1)
            && (forall i :: 0 <= i < |rows| && i != k ==> after[i] == rows[i])
            && var row := after[k];
               && row.rawUrl == p.rawUrl && row.protocol == p.protocol && row.parsed == p.node && row.schema == p.schema
               && row.tag == p.node.tag && (k < |rows| ==> row.active == rows[k].active) && (k == |rows| ==> !row.active)
               && exists asked: NodeRow ::
                    LocatedBy(if k < |rows| then rows[k].meta else Metadata(None, None, None, None, None, None), row.meta, geo(asked))
  {
    var k := FindTag(rows, p.node.tag);
    var row := if k < |rows| then rows[k].(rawUrl := p.rawUrl, protocol := p.protocol, parsed := p.node, schema := p.schema)
               else RowOf(p, false, Metadata(None, None, None, None, None, None));
    assert Located(row, geo(row)) == Added(rows, p, geo)[k];
    assert LocatedBy(row.meta, Located(row, geo(row)).meta, geo(row));
  }

  /** Text of a form field: trimmed, or absent when blank. */
  predicate Entered(column: Option<string>, text: string) {
    if Strip(text) == "" then column == None else column == Some(Strip(text))
  }

  /** The metadata form is refused exactly for an unknown role; otherwise each of its fields ends up in its own column, the
      country code in capitals and cut to eight, and nothing else changes. */
  lemma EditedExactly(row: NodeRow, form: MetadataForm, upper: UpperCase)
    ensures Edited(row, form, upper).Ok? <==> Strip(form.role) in {"", "entry_relay", "upstream_exit"}
    ensures Edited(row, form, upper).Ok? ==>
              var after := Edited(row, form, upper).value;
              var code := upper(Strip(form.countryCode));
              && after == row.(meta := after.meta) && after.meta.providerSuggestion == row.meta.providerSuggestion
              && (code == "" ==> after.meta.countryCode == None)
              && (code != "" ==> after.meta.countryCode.Some? && after.meta.countryCode.value <= code
                                 && |after.meta.countryCode.value| == if |code| <= 8 then |code| else 8)
              && Entered(after.meta.countryName, form.countryName) && Entered(after.meta.providerName, form.providerName)
              && Entered(after.meta.notes, form.notes) && Entered(after.meta.role, form.role)
  {
  }

  /** What an accepted element of an import writes: its own text where it has some, else what was there. */
  predicate Merged(column: Option<string>, item: Option<string>, before: Option<string>) {
    if item.None? || Strip(item.value) == "" then column == before else column == Some(Strip(item.value))
  }

  /** An element that names a stored tag changes the row of that tag only: the URL and what it parses to, every column the
      element has text for, and the role where the element has one, blank or not. */
  lemma ImportUpdatesExactly(row: NodeRow, p: Parsed, item: Item)
    requires item.Object?
    ensures var (after, ok) := ApplyImportUpdate(row, p, item);
            && (ok <==> !item.hasRole || item.role.None? || Strip(item.role.value) in {"", "entry_relay", "upstream_exit"})
            && after.rawUrl == p.rawUrl && after.protocol == p.protocol && after.parsed == p.node && after.schema == p.schema
            && after.tag == row.tag && after.active == row.active
            && Merged(after.meta.countryCode, item.countryCode, row.meta.countryCode)
            && Merged(after.meta.countryName, item.countryName, row.meta.countryName)
            && Merged(after.meta.providerName, item.providerName, row.meta.providerName)
            && Merged(after.meta.providerSuggestion, item.providerSuggestion, row.meta.providerSuggestion)
            && Merged(after.meta.notes, item.notes, row.meta.notes)
            && (ok && item.hasRole ==> Merged(after.meta.role, item.role, None))
            && (!item.hasRole || !ok ==> after.meta.role == row.meta.role)
  {
  }

  /** The element says something about the country. */
  predicate NamesCountry(item: Item)
    requires item.Object?
  {
    StrOrNone(item.countryCode).Some? || StrOrNone(item.countryName).Some?
  }

  /** An element with a new tag becomes an inactive row with its own texts, refused exactly for an unknown role. Only when it
      names no country, country and suggested provider are looked up. */
  lemma NewRowExactly(p: Parsed, item: Item, geo: GeoLookup)
    requires item.Object?
    ensures NodeFromImport(p, item, geo).Some? <==>
            !item.hasRole || item.role.None? || Strip(item.role.value) in {"", "entry_relay", "upstream_exit"}
    ensures NodeFromImport(p, item, geo).Some? ==>
              var row := NodeFromImport(p, item, geo).value;
              && row == RowOf(p, false, row.meta)
              && Merged(row.meta.providerName, item.providerName, None) && Merged(row.meta.notes, item.notes, None)
              && Merged(row.meta.role, if item.hasRole then item.role else None, None)
              && (NamesCountry(item) ==>
                    && Merged(row.meta.countryCode, item.countryCode, None) && Merged(row.meta.countryName, item.countryName, None)
                    && Merged(row.meta.providerSuggestion, item.providerSuggestion, None))
              && (!NamesCountry(item) ==>
                    exists asked: NodeRow ::
                      && asked == RowOf(p, false, asked.meta) && LocatedBy(asked.meta, row.meta, geo(asked))
                      && asked.meta.countryCode == None && asked.meta.countryName == None
                      && Merged(asked.meta.providerSuggestion, item.providerSuggestion, None))
  {
    if NodeFromImport(p, item, geo).Some? && !NamesCountry(item) {
      var role := NormalizeRole(if item.hasRole then item.role else None);
      var asked := RowOf(p, false, Metadata(None, None, StrOrNone(item.providerName), StrOrNone(item.providerSuggestion),
                                            StrOrNone(item.notes), role.value));
      assert NodeFromImport(p, item, geo).value == Located(asked, geo(asked));
    }
  }

  // What every operation keeps --------------------------------------------------------------------------------------

  /** Parsing keeps a URL that parses to the same node, of a supported protocol; the empty string is no URL. */
  ghost predicate StableParser(parse: UrlParser) {
    parse("").None? && forall u :: parse(u).Some? ==> parse(parse(u).value.rawUrl) == parse(u) && !parse(u).value.node.OtherNode?
  }

  /** A stored role is one of the two known ones, or none. */
  predicate ValidRole(m: Metadata) {
    m.role.Some? ==> m.role.value in TOPOLOGY_ROLES
  }

  /** A row is as its URL parses, under a known role. */
  predicate SoundRow(parse: UrlParser, row: NodeRow) {
    FromUrl(parse, row) && row.rawUrl != "" && ValidRole(row.meta)
  }

  ghost predicate SoundStore(parse: UrlParser, rows: seq<NodeRow>) {
    DistinctTags(rows) && forall i :: 0 <= i < |rows| ==> SoundRow(parse, rows[i])
  }

  lemma PutKeepsSound(parse: UrlParser, rows: seq<NodeRow>, k: nat, row: NodeRow)
    requires SoundStore(parse, rows) && k < |rows| && SoundRow(parse, row) && row.tag == rows[k].tag
    ensures SoundStore(parse, rows[k := row])
  {
  }

  lemma AppendKeepsSound(parse: UrlParser, rows: seq<NodeRow>, row: NodeRow)
    requires SoundStore(parse, rows) && SoundRow(parse, row) && forall i :: 0 <= i < |rows| ==> rows[i].tag != row.tag
    ensures SoundStore(parse, rows + [row])
  {
  }

  /** What an add writes is a sound row, new or in place of a sound one. */
  lemma AddedRowSound(parse: UrlParser, url: string, row: NodeRow, geo: GeoLookup)
    requires StableParser(parse) && parse(url).Some? && row.tag == parse(url).value.node.tag && ValidRole(row.meta)
    ensures var p := parse(url).value;
            var written := row.(rawUrl := p.rawUrl, protocol := p.protocol, parsed := p.node, schema := p.schema);
            SoundRow(parse, Located(written, geo(written))) && Located(written, geo(written)).tag == row.tag
  {
  }

  lemma AddKeepsSound(parse: UrlParser, rows: seq<NodeRow>, url: string, geo: GeoLookup)
    requires StableParser(parse) && SoundStore(parse, rows) && parse(url).Some?
    ensures SoundStore(parse, Added(rows, parse(url).value, geo))
  {
    var p := parse(url).value;
    var k := FindTag(rows, p.node.tag);
    if k < |rows| {
      AddedRowSound(parse, url, rows[k], geo);
      var row := rows[k].(rawUrl := p.rawUrl, protocol := p.protocol, parsed := p.node, schema := p.schema);
      PutKeepsSound(parse, rows, k, Located(row, geo(row)));
    } else {
      var row := RowOf(p, false, Metadata(None, None, None, None, None, None));
      AddedRowSound(parse, url, row, geo);
      assert row == row.(rawUrl := p.rawUrl, protocol := p.protocol, parsed := p.node, schema := p.schema);
      AppendKeepsSound(parse, rows, Located(row, geo(row)));
    }
  }

  lemma ChangeKeepsSound(parse: UrlParser, rows: seq<NodeRow>, k: nat, row: NodeRow)
    requires SoundStore(parse, rows) && k < |rows|
    requires row == rows[k].(meta := row.meta) && ValidRole(row.meta)
    ensures SoundStore(parse, rows[k := row])
  {
  }

  ghost predicate SoundProgress(parse: UrlParser, s: Progress) {
    && SoundStore(parse, s.rows) && (forall i :: 0 <= i < |s.pending| ==> SoundRow(parse, s.pending[i]))
    && (forall i, j :: 0 <= i < |s.rows| && 0 <= j < |s.pending| ==> s.rows[i].tag != s.pending[j].tag)
  }

  lemma PutRowKeepsSound(parse: UrlParser, s: Progress, k: nat, row: NodeRow)
    requires SoundProgress(parse, s) && k < |s.rows| && SoundRow(parse, row) && row.tag == s.rows[k].tag
    ensures SoundProgress(parse, s.(rows := s.rows[k := row]))
  {
  }

  lemma AppendRowKeepsSound(parse: UrlParser, s: Progress, row: NodeRow)
    requires SoundProgress(parse, s) && SoundRow(parse, row) && forall i :: 0 <= i < |s.rows| ==> s.rows[i].tag != row.tag
    ensures SoundProgress(parse, s.(pending := s.pending + [row]))
  {
  }

  lemma ImportedRowSound(parse: UrlParser, url: string, row: NodeRow, item: Item)
    requires StableParser(parse) && parse(url).Some? && item.Object?
    requires row.tag == parse(url).value.node.tag && ValidRole(row.meta)
    ensures var written := ApplyImportUpdate(row, parse(url).value, item).0;
            SoundRow(parse, written) && written.tag == row.tag
  {
  }

  lemma NewRowSound(parse: UrlParser, url: string, item: Item, geo: GeoLookup)
    requires StableParser(parse) && parse(url).Some? && item.Object?
    requires NodeFromImport(parse(url).value, item, geo).Some?
    ensures var row := NodeFromImport(parse(url).value, item, geo).value;
            SoundRow(parse, row) && row.tag == parse(url).value.node.tag
  {
  }

  lemma ImportItemKeepsSound(parse: UrlParser, geo: GeoLookup, s: Progress, item: Item)
    requires StableParser(parse) && SoundProgress(parse, s)
    ensures SoundProgress(parse, ImportItem(parse, geo, s, item))
  {
    if item.Object? && item.rawUrl != "" && parse(item.rawUrl).Some? {
      var p := parse(item.rawUrl).value;
      var k := FindTag(s.rows, p.node.tag);
      if k < |s.rows| {
        ImportedRowSound(parse, item.rawUrl, s.rows[k], item);
        PutRowKeepsSound(parse, s, k, ApplyImportUpdate(s.rows[k], p, item).0);
      } else if NodeFromImport(p, item, geo).Some? {
        NewRowSound(parse, item.rawUrl, item, geo);
        AppendRowKeepsSound(parse, s, NodeFromImport(p, item, geo).value);
      }
    }
  }

  /** An import keeps the store sound; its commit fails exactly when two new rows share a tag; and every element
      of the payload is imported, counted as an error, or skipped for its blank URL. */
  lemma {:induction false} ImportContract(parse: UrlParser, geo: GeoLookup, rows: seq<NodeRow>, items: seq<Item>)
    requires StableParser(parse) && SoundStore(parse, rows)
    ensures var s := ImportAll(parse, geo, rows, items);
            && SoundProgress(parse, s)
            && s.imported + s.errors + s.blank == |items|
            && (DistinctTags(s.rows + s.pending) <==> DistinctTags(s.pending))
            && (DistinctTags(s.pending) ==> SoundStore(parse, s.rows + s.pending))
  {
    if items != [] {
      var before := ImportAll(parse, geo, rows, items[..|items| - 1]);
      ImportContract(parse, geo, rows, items[..|items| - 1]);
      ImportItemKeepsSound(parse, geo, before, items[|items| - 1]);
      ImportItemCounts(parse, geo, before, items[|items| - 1]);
    }
    JoinKeepsSound(parse, ImportAll(parse, geo, rows, items));
  }

  lemma ImportItemCounts(parse: UrlParser, geo: GeoLookup, s: Progress, item: Item)
    ensures var s' := ImportItem(parse, geo, s, item);
            s'.imported + s'.errors + s'.blank == s.imported + s.errors + s.blank + 1
  {
  }

  lemma JoinKeepsSound(parse: UrlParser, s: Progress)
    requires SoundProgress(parse, s)
    ensures DistinctTags(s.rows + s.pending) <==> DistinctTags(s.pending)
    ensures DistinctTags(s.pending) ==> SoundStore(parse, s.rows + s.pending)
  {
    JoinDistinct(s.rows, s.pending);
  }

  lemma JoinDistinct(a: seq<NodeRow>, b: seq<NodeRow>)
    requires DistinctTags(a) && forall i, j :: 0 <= i < |a| && 0 <= j < |b| ==> a[i].tag != b[j].tag
    ensures DistinctTags(a + b) <==> DistinctTags(b)
  {
    if DistinctTags(a + b) {
      forall i, j | 0 <= i < j < |b| ensures b[i].tag != b[j].tag {
        assert (a + b)[|a| + i] == b[i] && (a + b)[|a| + j] == b[j];
      }
    }
  }

  /** A request to the store; `at` is the position of the row to delete or change. */
  datatype Request =
    | Add(url: string, geo: GeoLookup)
    | Remove(at: nat)
    | Edit(at: nat, form: MetadataForm, upper: UpperCase)
    | Locate(at: nat, geo: GeoLookup)
    | Import(items: seq<Item>, geo: GeoLookup)

  function Handled(parse: UrlParser, rows: seq<NodeRow>, r: Request): seq<NodeRow> {
    match r
    case Add(url, geo) => if parse(url).None? then rows else Added(rows, parse(url).value, geo)
    case Remove(at) => if at < |rows| then Without(rows, at) else rows
    case Edit(at, form, upper) =>
      if at < |rows| && Edited(rows[at], form, upper).Ok? then rows[at := Edited(rows[at], form, upper).value] else rows
    case Locate(at, geo) => if at < |rows| then rows[at := Located(rows[at], geo(rows[at]))] else rows
    case Import(items, geo) =>
      var s := ImportAll(parse, geo, rows, items);
      if DistinctTags(s.rows + s.pending) then s.rows + s.pending else rows
  }

  function HandledAll(parse: UrlParser, run: seq<Request>): seq<NodeRow> {
    if run == [] then [] else Handled(parse, HandledAll(parse, run[..|run| - 1]), run[|run| - 1])
  }

  /** Whatever is added, deleted, edited and imported, tags stay unique, and every row stays as its URL parses, under a
      known role. */
  lemma {:induction false} StoreAlwaysSound(parse: UrlParser, run: seq<Request>)
    requires StableParser(parse)
    ensures SoundStore(parse, HandledAll(parse, run))
  {
    if run != [] {
      var rows, last := HandledAll(parse, run[..|run| - 1]), run[|run| - 1];
      StoreAlwaysSound(parse, run[..|run| - 1]);
      match last
      case Add(url, geo) => if parse(url).Some? { AddKeepsSound(parse, rows, url, geo); }
      case Remove(at) =>
      case Edit(at, form, upper) =>
        if at < |rows| && Edited(rows[at], form, upper).Ok? {
          ChangeKeepsSound(parse, rows, at, Edited(rows[at], form, upper).value);
        }
      case Locate(at, geo) =>
        if at < |rows| { ChangeKeepsSound(parse, rows, at, Located(rows[at], geo(rows[at]))); }
      case Import(items, geo) => ImportContract(parse, geo, rows, items);
    }
  }

  // What a refused element leaves behind ------------------------------------------------------------------------------

  predicate Overwrites(v: Option<string>, column: Option<string>) {
    StrOrNone(v).Some? && StrOrNone(v) != column
  }

  /** The element brings something new for the row: another URL, or text for a column that differs. */
  predicate BringsNews(row: NodeRow, p: Parsed, item: Item)
    requires item.Object?
  {
    || row.rawUrl != p.rawUrl || row.protocol != p.protocol || row.parsed != p.node || row.schema != p.schema
    || Overwrites(item.countryCode, row.meta.countryCode) || Overwrites(item.countryName, row.meta.countryName)
    || Overwrites(item.providerName, row.meta.providerName)
    || Overwrites(item.providerSuggestion, row.meta.providerSuggestion) || Overwrites(item.notes, row.meta.notes)
  }

  /** The element names a stored tag, is refused for its role, and brings something new for that row. */
  predicate RefusedTooLate(parse: UrlParser, rows: seq<NodeRow>, item: Item) {
    && item.Object? && item.rawUrl != "" && parse(item.rawUrl).Some?
    && item.hasRole && NormalizeRole(item.role).Err?
    && var p := parse(item.rawUrl).value;
       var k := FindTag(rows, p.node.tag);
       k < |rows| && BringsNews(rows[k], p, item)
  }

  /** An element counted as an error adds no row, and changes none exactly unless it is refused too late. */
  lemma RefusedItemExactly(parse: UrlParser, geo: GeoLookup, s: Progress, item: Item)
    requires ImportItem(parse, geo, s, item).errors == s.errors + 1
    ensures var s' := ImportItem(parse, geo, s, item);
            s'.pending == s.pending && (s'.rows == s.rows <==> !RefusedTooLate(parse, s.rows, item))
  {
    if item.Object? && item.rawUrl != "" && parse(item.rawUrl).Some? {
      var p := parse(item.rawUrl).value;
      var k := FindTag(s.rows, p.node.tag);
      if k < |s.rows| {
        assert ApplyImportUpdate(s.rows[k], p, item).0 == s.rows[k] <==> !BringsNews(s.rows[k], p, item);
        assert ImportItem(parse, geo, s, item).rows[k] == ApplyImportUpdate(s.rows[k], p, item).0;
      }
    }
  }

  /** Whatever elements are refused, in whatever order: if none is refused too late, they leave no trace. */
  lemma {:induction false} RefusedImportLeavesNothing(parse: UrlParser, geo: GeoLookup, rows: seq<NodeRow>, items: seq<Item>)
    requires forall i :: 0 <= i < |items| ==> !RefusedTooLate(parse, rows, items[i])
    requires ImportAll(parse, geo, rows, items).errors == |items|
    ensures ImportAll(parse, geo, rows, items).rows == rows && ImportAll(parse, geo, rows, items).pending == []
  {
    if items != [] {
      var init, last := items[..|items| - 1], items[|items| - 1];
      ErrorsBounded(parse, geo, rows, init);
      RefusedImportLeavesNothing(parse, geo, rows, init);
      RefusedItemExactly(parse, geo, ImportAll(parse, geo, rows, init), last);
    }
  }

  lemma {:induction false} ErrorsBounded(parse: UrlParser, geo: GeoLookup, rows: seq<NodeRow>, items: seq<Item>)
    ensures ImportAll(parse, geo, rows, items).errors <= |items|
  {
    if items != [] { ErrorsBounded(parse, geo, rows, items[..|items| - 1]); }
  }

  /** Notes sent along with an unknown role are stored although the element is counted as skipped. */
  lemma RefusedItemStillWrites(parse: UrlParser, geo: GeoLookup, row: NodeRow)
    requires SoundRow(parse, row) && row.meta.notes.None?
    ensures var item := Object(row.rawUrl, None, None, None, None, Some("moved"), true, Some("relay"));
            var s := ImportAll(parse, geo, [row], [item]);
            && s.imported == 0 && s.errors == 1 && DistinctTags(s.rows + s.pending)
            && s.rows + s.pending == [row.(meta := row.meta.(notes := Some("moved")))]
  {
    var item := Object(row.rawUrl, None, None, None, None, Some("moved"), true, Some("relay"));
    StripTrims("relay");
    StripTrims("moved");
    assert [item][..0] == [];
    assert ImportAll(parse, geo, [row], []) == Progress([row], [], 0, 0, 0);
    assert FindTag([row], row.tag) == 0;
  }

  // Export, then import ---------------------------------------------------------------------------------------------

  /** A column an update with itself leaves alone: no blanks around it, or nothing but blanks. */
  predicate KeptByUpdate(v: Option<string>) {
    v.Some? ==> Trimmed(v.value) || Strip(v.value) == ""
  }

  predicate KeptMetadata(m: Metadata) {
    KeptByUpdate(m.countryCode) && KeptByUpdate(m.countryName) && KeptByUpdate(m.providerName)
    && KeptByUpdate(m.providerSuggestion) && KeptByUpdate(m.notes)
  }

  lemma RoleRoundTrip(m: Metadata)
    requires ValidRole(m)
    ensures NormalizeRole(m.role) == Ok(m.role)
  {
    StripTrims("entry_relay");
    StripTrims("upstream_exit");
  }

  lemma StrOrExistingSelf(v: Option<string>)
    ensures StrOrExisting(v, v) == v <==> KeptByUpdate(v)
  {
    if v.Some? { StripTrims(v.value); }
  }

  lemma SelfUpdate(parse: UrlParser, row: NodeRow)
    requires FromUrl(parse, row) && ValidRole(row.meta)
    ensures var (updated, ok) := ApplyImportUpdate(row, parse(row.rawUrl).value, ToItem(row));
            ok && updated.tag == row.tag && (updated == row <==> KeptMetadata(row.meta))
  {
    RoleRoundTrip(row.meta);
    StrOrExistingSelf(row.meta.countryCode);
    StrOrExistingSelf(row.meta.countryName);
    StrOrExistingSelf(row.meta.providerName);
    StrOrExistingSelf(row.meta.providerSuggestion);
    StrOrExistingSelf(row.meta.notes);
  }

  /** The row after being updated with its own export. */
  function Reimported(parse: UrlParser): NodeRow -> NodeRow {
    (row: NodeRow) =>
      if parse(row.rawUrl).None? then row else ApplyImportUpdate(row, parse(row.rawUrl).value, ToItem(row)).0
  }

  /** The first `k` rows have been updated with their own export, the others are as they were. */
  ghost predicate HalfDone(parse: UrlParser, rows: seq<NodeRow>, current: seq<NodeRow>, k: nat) {
    && |current| == |rows|
    && forall i :: 0 <= i < |rows| ==> current[i] == if i < k then Reimported(parse)(rows[i]) else rows[i]
  }

  lemma ImportOneMore(parse: UrlParser, geo: GeoLookup, rows: seq<NodeRow>, items: seq<Item>, k: nat)
    requires k < |items|
    ensures ImportAll(parse, geo, rows, items[..k + 1]) == ImportItem(parse, geo, ImportAll(parse, geo, rows, items[..k]), items[k])
  {
    assert items[..k + 1][..k] == items[..k];
  }

  /** The exported element of a stored row is imported into that row. */
  lemma ReimportOne(parse: UrlParser, geo: GeoLookup, current: seq<NodeRow>, k: nat)
    requires k < |current| && SoundRow(parse, current[k])
    requires forall i :: 0 <= i < k ==> current[i].tag != current[k].tag
    ensures ImportItem(parse, geo, Progress(current, [], k, 0, 0), ToItem(current[k]))
            == Progress(current[k := Reimported(parse)(current[k])], [], k + 1, 0, 0)
  {
    SelfUpdate(parse, current[k]);
    assert FindTag(current, current[k].tag) == k;
  }

  lemma ReimportKeepsTag(parse: UrlParser, row: NodeRow)
    ensures Reimported(parse)(row).tag == row.tag
  {
    if parse(row.rawUrl).Some? {
      var (updated, ok) := ApplyImportUpdate(row, parse(row.rawUrl).value, ToItem(row));
      assert updated.tag == row.tag;
    }
  }

  /** The next element is imported into the next row. */
  lemma ReimportStep(parse: UrlParser, geo: GeoLookup, rows: seq<NodeRow>, current: seq<NodeRow>, k: nat)
    requires SoundStore(parse, rows) && k < |rows| && HalfDone(parse, rows, current, k)
    ensures var next := current[k := Reimported(parse)(rows[k])];
            && ImportItem(parse, geo, Progress(current, [], k, 0, 0), ToItem(rows[k])) == Progress(next, [], k + 1, 0, 0)
            && HalfDone(parse, rows, next, k + 1)
  {
    assert current[k] == rows[k] && SoundRow(parse, rows[k]);
    forall i | 0 <= i < k ensures current[i].tag != current[k].tag {
      ReimportKeepsTag(parse, rows[i]);
    }
    ReimportOne(parse, geo, current, k);
  }

  lemma {:induction false} ReimportPrefix(parse: UrlParser, geo: GeoLookup, rows: seq<NodeRow>, k: nat) returns (current: seq<NodeRow>)
    requires SoundStore(parse, rows) && k <= |rows|
    ensures ImportAll(parse, geo, rows, Map(rows, ToItem)[..k]) == Progress(current, [], k, 0, 0)
    ensures HalfDone(parse, rows, current, k)
  {
    if k == 0 {
      current := rows;
    } else {
      var items := Map(rows, ToItem);
      var before := ReimportPrefix(parse, geo, rows, k - 1);
      ImportOneMore(parse, geo, rows, items, k - 1);
      ReimportStep(parse, geo, rows, before, k - 1);
      assert items[k - 1] == ToItem(rows[k - 1]);
      current := before[k - 1 := Reimported(parse)(rows[k - 1])];
    }
  }

  /** Exporting a store and importing the result into it imports every row, and is the identity exactly when no
      metadata column has blanks around its text. */
  lemma ExportImportSameStore(parse: UrlParser, geo: GeoLookup, rows: seq<NodeRow>)
    requires SoundStore(parse, rows)
    ensures var s := ImportAll(parse, geo, rows, Map(rows, ToItem));
            && s.imported == |rows| && s.errors == 0 && s.pending == [] && |s.rows| == |rows|
            && (s.rows == rows <==> forall i :: 0 <= i < |rows| ==> KeptMetadata(rows[i].meta))
  {
    var after := ReimportPrefix(parse, geo, rows, |rows|);
    assert Map(rows, ToItem)[..|rows|] == Map(rows, ToItem);
    forall i | 0 <= i < |rows| ensures after[i] == rows[i] <==> KeptMetadata(rows[i].meta) {
      SelfUpdate(parse, rows[i]);
    }
  }

  /** A column a fresh import stores unchanged: absent, or text without blanks around it. */
  predicate StoredAsIs(v: Option<string>) {
    v.Some? ==> v.value != "" && Trimmed(v.value)
  }

  predicate PlainMetadata(m: Metadata) {
    StoredAsIs(m.countryCode) && StoredAsIs(m.countryName) && StoredAsIs(m.providerName)
    && StoredAsIs(m.providerSuggestion) && StoredAsIs(m.notes)
  }

  predicate HasCountry(m: Metadata) {
    StrOrNone(m.countryCode).Some? || StrOrNone(m.countryName).Some?
  }

  lemma StrOrNoneSelf(v: Option<string>)
    ensures StrOrNone(v) == v <==> StoredAsIs(v)
  {
    if v.Some? { StripTrims(v.value); }
  }

  lemma FreshRow(parse: UrlParser, row: NodeRow, geo: GeoLookup)
    requires FromUrl(parse, row) && ValidRole(row.meta) && HasCountry(row.meta)
    ensures var made := NodeFromImport(parse(row.rawUrl).value, ToItem(row), geo);
            && made.Some? && made.value.tag == row.tag
            && (made.value == row.(active := false) <==> PlainMetadata(row.meta))
  {
    RoleRoundTrip(row.meta);
    StrOrNoneSelf(row.meta.countryCode);
    StrOrNoneSelf(row.meta.countryName);
    StrOrNoneSelf(row.meta.providerName);
    StrOrNoneSelf(row.meta.providerSuggestion);
    StrOrNoneSelf(row.meta.notes);
  }

  predicate IsFreshCopy(parse: UrlParser, geo: GeoLookup, row: NodeRow, copy: NodeRow) {
    parse(row.rawUrl).Some? && NodeFromImport(parse(row.rawUrl).value, ToItem(row), geo) == Some(copy)
  }

  lemma FreshOne(parse: UrlParser, geo: GeoLookup, row: NodeRow, s: Progress) returns (copy: NodeRow)
    requires SoundRow(parse, row) && HasCountry(row.meta) && s.rows == []
    ensures IsFreshCopy(parse, geo, row, copy)
    ensures ImportItem(parse, geo, s, ToItem(row)) == s.(pending := s.pending + [copy], imported := s.imported + 1)
  {
    FreshRow(parse, row, geo);
    copy := NodeFromImport(parse(row.rawUrl).value, ToItem(row), geo).value;
  }

  lemma {:induction false} FreshImportPrefix(parse: UrlParser, geo: GeoLookup, rows: seq<NodeRow>, k: nat) returns (copies: seq<NodeRow>)
    requires SoundStore(parse, rows) && k <= |rows| && forall i :: 0 <= i < |rows| ==> HasCountry(rows[i].meta)
    ensures ImportAll(parse, geo, [], Map(rows, ToItem)[..k]) == Progress([], copies, k, 0, 0)
    ensures |copies| == k && forall i {:trigger copies[i]} :: 0 <= i < k ==> IsFreshCopy(parse, geo, rows[i], copies[i])
  {
    copies := [];
    if k > 0 {
      var before := FreshImportPrefix(parse, geo, rows, k - 1);
      ImportOneMore(parse, geo, [], Map(rows, ToItem), k - 1);
      var copy := FreshOne(parse, geo, rows[k - 1], Progress([], before, k - 1, 0, 0));
      copies := before + [copy];
      forall i | 0 <= i < k ensures IsFreshCopy(parse, geo, rows[i], copies[i]) {
        if i < k - 1 { assert copies[i] == before[i]; }
      }
    }
  }

  /** Importing an export into an empty store rebuilds the same rows in the same order, all inactive: always as many
      with the same tags, and identical exactly when the metadata is absent or without blanks around it. */
  lemma ExportImportEmptyStore(parse: UrlParser, geo: GeoLookup, rows: seq<NodeRow>)
    requires SoundStore(parse, rows) && forall i :: 0 <= i < |rows| ==> HasCountry(rows[i].meta)
    ensures var s := ImportAll(parse, geo, [], Map(rows, ToItem));
            && s.imported == |rows| && s.errors == 0 && s.rows == [] && |s.pending| == |rows| && DistinctTags(s.pending)
            && ((forall i :: 0 <= i < |rows| ==> s.pending[i] == rows[i].(active := false)) <==>
                forall i :: 0 <= i < |rows| ==> PlainMetadata(rows[i].meta))
  {
    var copies := FreshImportPrefix(parse, geo, rows, |rows|);
    assert Map(rows, ToItem)[..|rows|] == Map(rows, ToItem);
    var s := ImportAll(parse, geo, [], Map(rows, ToItem));
    assert s.pending == copies;
    forall i | 0 <= i < |rows|
      ensures s.pending[i].tag == rows[i].tag
      ensures s.pending[i] == rows[i].(active := false) <==> PlainMetadata(rows[i].meta)
    {
      assert IsFreshCopy(parse, geo, rows[i], copies[i]);
      FreshRow(parse, rows[i], geo);
    }
  }

  /** Both round trips hold of every table that requests can lead to. */
  lemma ReachableRoundTrips(parse: UrlParser, geo: GeoLookup, run: seq<Request>)
    requires StableParser(parse)
    ensures var rows := HandledAll(parse, run);
            var same := ImportAll(parse, geo, rows, Map(rows, ToItem));
            var rebuilt := ImportAll(parse, geo, [], Map(rows, ToItem));
            && same.imported == |rows| && same.pending == []
            && (same.rows == rows <==> forall i :: 0 <= i < |rows| ==> KeptMetadata(rows[i].meta))
            && ((forall i :: 0 <= i < |rows| ==> HasCountry(rows[i].meta)) ==>
                  && rebuilt.imported == |rows| && rebuilt.rows == [] && |rebuilt.pending| == |rows|
                  && ((forall i :: 0 <= i < |rows| ==> rebuilt.pending[i] == rows[i].(active := false)) <==>
                      forall i :: 0 <= i < |rows| ==> PlainMetadata(rows[i].meta)))
  {
    var rows := HandledAll(parse, run);
    StoreAlwaysSound(parse, run);
    ExportImportSameStore(parse, geo, rows);
    if forall i :: 0 <= i < |rows| ==> HasCountry(rows[i].meta) {
      ExportImportEmptyStore(parse, geo, rows);
    }
  }
}
