/** Stored nodes, and how they become parsed nodes again. URL parsing itself is an arbitrary function. */
module NodeRows {
  import opened Prelude
  import Generator

  /** What `parse_url` makes of a URL. */
  datatype Parsed = Parsed(node: Generator.Node, rawUrl: string, protocol: string, schema: nat)

  /** `parse_url`; `None` stands for an exception. */
  type UrlParser = string -> Option<Parsed>

  datatype Metadata = Metadata(
    countryCode: Option<string>, countryName: Option<string>, providerName: Option<string>,
    providerSuggestion: Option<string>, notes: Option<string>, role: Option<string>)

  datatype NodeRow = NodeRow(
    tag: string, protocol: string, rawUrl: string, parsed: Generator.Node, schema: nat, active: bool, meta: Metadata)

  /** `deserialize_node`: parse the URL again where that yields the stored protocol, else trust the stored fields. */
  function Deserialize(parse: UrlParser, row: NodeRow): Option<Generator.Node> {
    if row.parsed.OtherNode? then None
    else
      match parse(row.rawUrl)
      case None => Some(row.parsed)
      case Some(p) =>
        if p.node.VlessNode? == row.parsed.VlessNode? && !p.node.OtherNode? then Some(p.node) else Some(row.parsed)
  }

  /** The row a newly parsed URL is stored as. */
  function RowOf(p: Parsed, active: bool, meta: Metadata): NodeRow {
    NodeRow(p.node.tag, p.protocol, p.rawUrl, p.node, p.schema, active, meta)
  }

  /** Parsing the stored URL yields the stored node, and the tag of the row. */
  predicate ReadsBack(parse: UrlParser, row: NodeRow) {
    && parse(row.rawUrl).Some? && !row.parsed.OtherNode?
    && parse(row.rawUrl).value.rawUrl == row.rawUrl
    && parse(row.rawUrl).value.node == row.parsed && row.parsed.tag == row.tag
  }

  /** All stored columns are what parsing the stored URL yields. */
  predicate FromUrl(parse: UrlParser, row: NodeRow) {
    && ReadsBack(parse, row)
    && row == RowOf(parse(row.rawUrl).value, row.active, row.meta)
  }

  lemma DeserializeKeepsTag(parse: UrlParser, row: NodeRow)
    requires ReadsBack(parse, row)
    ensures Deserialize(parse, row).Some? && Deserialize(parse, row).value.tag == row.tag
  {
  }

  predicate SameProtocol(a: Generator.Node, b: Generator.Node) {
    (a.VlessNode? && b.VlessNode?) || (a.Hysteria2Node? && b.Hysteria2Node?)
  }

  /** Reading a row fails only on an unknown protocol; the URL decides where it still parses to a node of the stored
      protocol, and the stored fields everywhere else. */
  lemma DeserializeExactly(parse: UrlParser, row: NodeRow)
    ensures var url, read := parse(row.rawUrl), Deserialize(parse, row);
            && (read.None? <==> row.parsed.OtherNode?)
            && (read.Some? && url.Some? && SameProtocol(url.value.node, row.parsed) ==> read.value == url.value.node)
            && (read.Some? && (url.None? || !SameProtocol(url.value.node, row.parsed)) ==> read.value == row.parsed)
  {
  }
}
