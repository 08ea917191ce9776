/**
 Edits of the node table that overlap: adding, importing and refreshing wait for the geo lookup before they commit, and a
 commit writes only the columns that differ from the row as it was loaded.
 */
module NodeEdits {
  import opened Prelude
  import opened NodeRows
  import NodeStore

  /** A row as loaded by an edit, and with what the edit has assigned to it since. */
  datatype Touched = Touched(loaded: NodeRow, given: NodeRow)

  /** An open database session: the rows it has loaded, by key, and the rows it will insert. */
  datatype Edit = Edit(touched: map<nat, Touched>, added: seq<NodeRow>)

  datatype Table = Table(rows: map<nat, NodeRow>, open: map<nat, Edit>)

  datatype Step =
    | Open(e: nat)
    | Take(e: nat, url: string, found: Option<nat>, meta: Metadata)
    | Describe(e: nat, id: nat, meta: Metadata)
    | Commit(e: nat, inserted: map<nat, NodeRow>)
    | Close(e: nat)
    | Delete(id: nat)

  // What a commit writes --------------------------------------------------------------------------------------------

  function Column<T(==)>(current: T, loaded: T, given: T): T {
    if given != loaded then given else current
  }

  function WrittenMeta(current: Metadata, loaded: Metadata, given: Metadata): Metadata {
    Metadata(Column(current.countryCode, loaded.countryCode, given.countryCode),
             Column(current.countryName, loaded.countryName, given.countryName),
             Column(current.providerName, loaded.providerName, given.providerName),
             Column(current.providerSuggestion, loaded.providerSuggestion, given.providerSuggestion),
             Column(current.notes, loaded.notes, given.notes), Column(current.role, loaded.role, given.role))
  }

  /** The row under the key at commit time, with the changed columns written. The stored JSON of the node contains its
      URL; tag and flag are never assigned. */
  function Written(current: NodeRow, t: Touched): NodeRow {
    var json := Column((current.rawUrl, current.parsed), (t.loaded.rawUrl, t.loaded.parsed), (t.given.rawUrl, t.given.parsed));
    current.(
      rawUrl := Column(current.rawUrl, t.loaded.rawUrl, t.given.rawUrl),
      protocol := Column(current.protocol, t.loaded.protocol, t.given.protocol),
      parsed := json.1,
      schema := Column(current.schema, t.loaded.schema, t.given.schema),
      meta := WrittenMeta(current.meta, t.loaded.meta, t.given.meta))
  }

  function AfterEdit(rows: map<nat, NodeRow>, e: Edit): map<nat, NodeRow> {
    map id | id in rows :: if id in e.touched then Written(rows[id], e.touched[id]) else rows[id]
  }

  ghost predicate UniqueTags(rows: map<nat, NodeRow>) {
    forall i, j :: i in rows && j in rows && rows[i].tag == rows[j].tag ==> i == j
  }

  /** A commit fails, and writes nothing, when a changed row is gone or two rows would share a tag. */
  ghost predicate Succeeds(rows: map<nat, NodeRow>, e: Edit, inserted: map<nat, NodeRow>) {
    && (forall id :: id in e.touched && e.touched[id].given != e.touched[id].loaded ==> id in rows)
    && UniqueTags(AfterEdit(rows, e) + inserted)
    && (forall i, j :: 0 <= i < j < |e.added| ==> e.added[i].tag != e.added[j].tag)
  }

  // Steps -----------------------------------------------------------------------------------------------------------

  function Assigned(row: NodeRow, p: Parsed, meta: Metadata): NodeRow {
    row.(rawUrl := p.rawUrl, protocol := p.protocol, parsed := p.node, schema := p.schema, meta := meta)
  }

  /** The row as the session knows it: loaded now, or before. */
  function Known(t: Table, e: Edit, id: nat): Touched
    requires id in e.touched || id in t.rows
  {
    if id in e.touched then e.touched[id] else Touched(t.rows[id], t.rows[id])
  }

  /** `Take` handles one URL: the row of its tag is looked up in the table as it is then. `Describe` assigns metadata to a
      row. New rows get keys that are free when they are inserted. */
  ghost predicate Enabled(parse: UrlParser, t: Table, step: Step) {
    match step
    case Open(e) => e !in t.open
    case Take(e, url, found, _) =>
      && e in t.open && parse(url).Some?
      && var tag := parse(url).value.node.tag;
         if found.Some? then found.value in t.rows && t.rows[found.value].tag == tag
         else forall id :: id in t.rows ==> t.rows[id].tag != tag
    case Describe(e, id, _) => e in t.open && id in t.rows
    case Commit(e, inserted) =>
      && e in t.open && (forall id :: id in inserted ==> id !in t.rows)
      && (forall id :: id in inserted ==> inserted[id] in t.open[e].added)
      && (forall r :: r in t.open[e].added ==> exists id :: id in inserted && inserted[id] == r)
    case Close(e) => e in t.open
    case Delete(_) => true
  }

  ghost function Next(parse: UrlParser, t: Table, step: Step): Table
    requires Enabled(parse, t, step)
  {
    match step
    case Open(e) => t.(open := t.open[e := Edit(map[], [])])
    case Take(e, url, found, meta) =>
      var p, edit := parse(url).value, t.open[e];
      t.(open := t.open[e :=
        match found
        case None => edit.(added := edit.added + [RowOf(p, false, meta)])
        case Some(id) =>
          var known := Known(t, edit, id);
          edit.(touched := edit.touched[id := known.(given := Assigned(known.given, p, meta))])])
    case Describe(e, id, meta) =>
      var known := Known(t, t.open[e], id);
      var touched := t.open[e].touched[id := known.(given := known.given.(meta := meta))];
      t.(open := t.open[e := t.open[e].(touched := touched)])
    case Commit(e, inserted) =>
      Table(if Succeeds(t.rows, t.open[e], inserted) then AfterEdit(t.rows, t.open[e]) + inserted else t.rows, t.open - {e})
    case Close(e) => t.(open := t.open - {e})
    case Delete(id) => t.(rows := t.rows - {id})
  }

  // Columns ---------------------------------------------------------------------------------------------------------

  predicate Merges<T(==)>(written: T, current: T, loaded: T, given: T) {
    (given == loaded ==> written == current) && (given != loaded ==> written == given)
  }

  /** Of each column the commit writes what the edit made of it, if that is anything new, and leaves the rest to others. */
  lemma WrittenExactly(current: NodeRow, t: Touched)
    ensures var w := Written(current, t);
            && w.tag == current.tag && w.active == current.active
            && Merges(w.rawUrl, current.rawUrl, t.loaded.rawUrl, t.given.rawUrl)
            && Merges(w.protocol, current.protocol, t.loaded.protocol, t.given.protocol)
            && Merges(w.schema, current.schema, t.loaded.schema, t.given.schema)
            && Merges(w.meta.countryCode, current.meta.countryCode, t.loaded.meta.countryCode, t.given.meta.countryCode)
            && Merges(w.meta.countryName, current.meta.countryName, t.loaded.meta.countryName, t.given.meta.countryName)
            && Merges(w.meta.providerName, current.meta.providerName, t.loaded.meta.providerName, t.given.meta.providerName)
            && Merges(w.meta.providerSuggestion, current.meta.providerSuggestion, t.loaded.meta.providerSuggestion,
                      t.given.meta.providerSuggestion)
            && Merges(w.meta.notes, current.meta.notes, t.loaded.meta.notes, t.given.meta.notes)
            && Merges(w.meta.role, current.meta.role, t.loaded.meta.role, t.given.meta.role)
  {
  }

  /** The stored node goes with the URL in its JSON. */
  lemma WrittenNodeExactly(current: NodeRow, t: Touched)
    ensures Written(current, t).parsed ==
            if t.given.rawUrl == t.loaded.rawUrl && t.given.parsed == t.loaded.parsed then current.parsed else t.given.parsed
  {
  }

  /** An edit nobody interferes with leaves the row just as it made it. */
  lemma UndisturbedEdit(current: NodeRow, t: Touched)
    requires t.loaded == current && t.given.tag == current.tag && t.given.active == current.active
    ensures Written(current, t) == t.given
  {
  }

  // One row ---------------------------------------------------------------------------------------------------------

  predicate SoundTouched(parse: UrlParser, t: Touched) {
    ReadsBack(parse, t.loaded) && ReadsBack(parse, t.given) && t.loaded.tag == t.given.tag
  }

  /** The row written reads back exactly when the edit left its URL alone, or the row under the key still has the tag. */
  lemma WrittenReadsBackExactly(parse: UrlParser, current: NodeRow, t: Touched)
    requires ReadsBack(parse, current) && SoundTouched(parse, t)
    ensures ReadsBack(parse, Written(current, t)) <==> t.given.rawUrl == t.loaded.rawUrl || current.tag == t.loaded.tag
  {
  }

  /** All its columns fit exactly when, besides, protocol and schema are written or agree anyway. */
  lemma WrittenFromUrlExactly(parse: UrlParser, current: NodeRow, t: Touched)
    requires FromUrl(parse, current) && FromUrl(parse, t.loaded) && FromUrl(parse, t.given)
    requires current.tag == t.loaded.tag == t.given.tag
    ensures FromUrl(parse, Written(current, t)) <==>
            || t.given.rawUrl == t.loaded.rawUrl
            || (&& (t.given.protocol != t.loaded.protocol || current.protocol == t.loaded.protocol)
                && (t.given.schema != t.loaded.schema || current.schema == t.loaded.schema))
  {
  }

  // Whole runs ------------------------------------------------------------------------------------------------------

  ghost predicate SoundEdit(parse: UrlParser, t: Table, e: Edit) {
    && (forall id :: id in e.touched ==> SoundTouched(parse, e.touched[id]))
    && (forall id :: id in e.touched && id in t.rows ==> t.rows[id].tag == e.touched[id].loaded.tag)
    && (forall i :: 0 <= i < |e.added| ==> ReadsBack(parse, e.added[i]))
  }

  ghost predicate SoundRows(parse: UrlParser, rows: map<nat, NodeRow>) {
    UniqueTags(rows) && forall id :: id in rows ==> ReadsBack(parse, rows[id])
  }

  /** Tags are unique, every row reads back, and no key has passed to another tag under an open edit. */
  ghost predicate SoundTable(parse: UrlParser, t: Table) {
    SoundRows(parse, t.rows) && forall e :: e in t.open ==> SoundEdit(parse, t, t.open[e])
  }

  /** A key that another open edit has loaded a row under goes to a new row of the same tag only. */
  ghost predicate ReusesKeysWell(t: Table, step: Step) {
    step.Commit? ==>
      forall e, id :: e in t.open && e != step.e && id in t.open[e].touched && id in step.inserted ==>
        step.inserted[id].tag == t.open[e].touched[id].loaded.tag
  }

  lemma KnownIsSound(parse: UrlParser, t: Table, e: nat, id: nat)
    requires SoundTable(parse, t) && e in t.open && id in t.rows
    ensures SoundTouched(parse, Known(t, t.open[e], id)) && Known(t, t.open[e], id).loaded.tag == t.rows[id].tag
  {
    assert SoundEdit(parse, t, t.open[e]);
  }

  /** Putting a changed edit in place of an open one. */
  lemma PutEditKeepsSound(parse: UrlParser, t: Table, e: nat, edit: Edit)
    requires SoundTable(parse, t) && SoundEdit(parse, t, edit)
    ensures SoundTable(parse, t.(open := t.open[e := edit]))
  {
    var t' := t.(open := t.open[e := edit]);
    forall f | f in t'.open ensures SoundEdit(parse, t', t'.open[f]) {
      if f != e { assert SoundEdit(parse, t, t.open[f]); }
    }
  }

  lemma TakeKeepsSound(parse: UrlParser, t: Table, step: Step)
    requires NodeStore.StableParser(parse) && SoundTable(parse, t) && Enabled(parse, t, step) && (step.Take? || step.Describe?)
    ensures SoundTable(parse, Next(parse, t, step))
  {
    var edit := t.open[step.e];
    assert SoundEdit(parse, t, edit);
    if step.Describe? {
      KnownIsSound(parse, t, step.e, step.id);
    } else if step.found.Some? {
      KnownIsSound(parse, t, step.e, step.found.value);
    }
    PutEditKeepsSound(parse, t, step.e, Next(parse, t, step).open[step.e]);
  }

  lemma CommitKeepsSound(parse: UrlParser, t: Table, step: Step)
    requires SoundTable(parse, t) && Enabled(parse, t, step) && step.Commit? && ReusesKeysWell(t, step)
    ensures SoundTable(parse, Next(parse, t, step))
  {
    var edit, t' := t.open[step.e], Next(parse, t, step);
    assert SoundEdit(parse, t, edit);
    forall id | id in t'.rows ensures ReadsBack(parse, t'.rows[id]) {
      if id in t.rows && id in edit.touched { WrittenReadsBackExactly(parse, t.rows[id], edit.touched[id]); }
    }
    forall e | e in t'.open ensures SoundEdit(parse, t', t'.open[e]) {
      assert SoundEdit(parse, t, t.open[e]);
      forall id | id in t'.open[e].touched && id in t'.rows ensures t'.rows[id].tag == t'.open[e].touched[id].loaded.tag {
        assert id in t.rows ==> t'.rows[id].tag == t.rows[id].tag;
      }
    }
  }

  lemma StepKeepsSound(parse: UrlParser, t: Table, step: Step)
    requires NodeStore.StableParser(parse) && SoundTable(parse, t) && Enabled(parse, t, step) && ReusesKeysWell(t, step)
    ensures SoundTable(parse, Next(parse, t, step))
  {
    if step.Take? || step.Describe? {
      TakeKeepsSound(parse, t, step);
    } else if step.Commit? {
      CommitKeepsSound(parse, t, step);
    } else {
      var t' := Next(parse, t, step);
      forall e | e in t'.open ensures SoundEdit(parse, t', t'.open[e]) {
        assert e in t.open ==> SoundEdit(parse, t, t.open[e]);
      }
    }
  }

  ghost predicate IsRun(parse: UrlParser, tables: seq<Table>, steps: seq<Step>) {
    && |tables| == |steps| + 1 && tables[0] == Table(map[], map[])
    && forall k {:trigger steps[k]} :: 0 <= k < |steps| ==>
         Enabled(parse, tables[k], steps[k]) && tables[k + 1] == Next(parse, tables[k], steps[k])
  }

  /** However edits, deletes and commits overlap: tags stay unique and every row reads back as the node of its tag, as long
      as no key passes to another tag under an open edit. */
  lemma {:induction false} RowsAlwaysReadBack(parse: UrlParser, tables: seq<Table>, steps: seq<Step>, k: nat)
    requires NodeStore.StableParser(parse) && IsRun(parse, tables, steps) && k <= |steps|
    requires forall i :: 0 <= i < k ==> ReusesKeysWell(tables[i], steps[i])
    ensures SoundTable(parse, tables[k])
  {
    if k > 0 {
      RowsAlwaysReadBack(parse, tables, steps, k - 1);
      StepKeepsSound(parse, tables[k - 1], steps[k - 1]);
    }
  }

  // Cases that do harm ----------------------------------------------------------------------------------------------

  /** Two overlapping edits give a row new URLs, the first of the protocol it had, the second of another one, and commit
      in the opposite order: the row ends with the URL of the first and the protocol of the second. */
  lemma OverlapMixesProtocols(parse: UrlParser, row: NodeRow, first: Parsed, second: Parsed)
    requires FromUrl(parse, row) && parse(first.rawUrl) == Some(first) && parse(second.rawUrl) == Some(second)
    requires first.node.tag == second.node.tag == row.tag && !first.node.OtherNode? && !second.node.OtherNode?
    requires first.rawUrl != row.rawUrl && first.protocol == row.protocol != second.protocol
    ensures var between := Written(row, Touched(row, Assigned(row, second, row.meta)));
            var after := Written(between, Touched(row, Assigned(row, first, row.meta)));
            && FromUrl(parse, between) && ReadsBack(parse, after)
            && after.rawUrl == first.rawUrl && after.protocol == second.protocol && !FromUrl(parse, after)
  {
  }

  /** An edit has given a row a new URL; the row is deleted, and its key passes to a row of another tag: the commit
      writes the URL of the deleted node into that row. */
  lemma ReusedKeyTakesForeignUrl(parse: UrlParser, t: Table, e: nat, id: nat, row: NodeRow)
    requires SoundTable(parse, t) && e in t.open && id in t.open[e].touched && t.open[e].added == []
    requires t.open[e].touched[id].given.rawUrl != t.open[e].touched[id].loaded.rawUrl
    requires forall i :: i in t.open[e].touched ==> i == id
    requires id !in t.rows && ReadsBack(parse, row) && forall i :: i in t.rows ==> t.rows[i].tag != row.tag
    requires row.tag != t.open[e].touched[id].loaded.tag
    ensures var reused := t.(rows := t.rows[id := row]);
            && SoundRows(parse, reused.rows) && Enabled(parse, reused, Commit(e, map[]))
            && var after := Next(parse, reused, Commit(e, map[]));
               && id in after.rows && after.rows[id].tag == row.tag
               && after.rows[id].rawUrl == t.open[e].touched[id].given.rawUrl && !ReadsBack(parse, after.rows[id])
  {
    var reused := t.(rows := t.rows[id := row]);
    var edit := t.open[e];
    assert SoundEdit(parse, t, edit);
    WrittenReadsBackExactly(parse, row, edit.touched[id]);
    assert UniqueTags(AfterEdit(reused.rows, edit) + map[]);
  }
}
