/** The editor-protocol values the outline is made of: positions, ranges, symbol kinds,
    document symbols and folding ranges, and the mapping from parser points to protocol
    positions. */
module Protocol {
  import opened Wrappers
  import opened Syntax

  /** A protocol position: zero-based line and character. */
  datatype Position = Position(line: nat, character: nat)

  datatype Range = Range(start: Position, end: Position)

  /** The symbol kinds the outline uses, with their protocol codes. */
  datatype SymbolKind = Module | Class | Method | Property | Constructor | Constant
  {
    function Code(): (c: nat)
      ensures 1 <= c <= 26
    {
      match this
      case Module => 2
      case Class => 5
      case Method => 6
      case Property => 7
      case Constructor => 9
      case Constant => 14
    }
  }

  datatype DocumentSymbol = DocumentSymbol(
    name: string,
    kind: SymbolKind,
    range: Range,
    selectionRange: Range,
    children: seq<DocumentSymbol>)

  /** A collapsible region, as the folding analyzer reports it. */
  datatype FoldingRange = FoldingRange(startLine: nat, endLine: nat, kind: Option<string>)

  /** Lexicographic order on protocol positions. */
  predicate PositionLe(a: Position, b: Position) {
    a.line < b.line || (a.line == b.line && a.character <= b.character)
  }

  /** `inner` lies within `outer`. */
  predicate RangeWithin(inner: Range, outer: Range) {
    PositionLe(outer.start, inner.start) && PositionLe(inner.end, outer.end)
  }

  /** Parser points and protocol positions are both zero-based, so the mapping keeps the
      numbers and only changes the representation. */
  function ToProtocol(p: Point): (q: Position)
    ensures q.line == p.row && q.character == p.column
  {
    Position(p.row, p.column)
  }

  function FromProtocol(q: Position): (p: Point)
    ensures p.row == q.line && p.column == q.character
  {
    Point(q.line, q.character)
  }

  /** The two coordinate systems are isomorphic, and the mapping preserves their order. */
  lemma ProtocolRoundTrip(p: Point, q: Position)
    ensures FromProtocol(ToProtocol(p)) == p && ToProtocol(FromProtocol(q)) == q
    ensures PositionLe(ToProtocol(p), q) <==> PointLe(p, FromProtocol(q))
  {
  }

  /** The full range of a node: its own start and end points. */
  function NodeRange(n: Node): (r: Range)
    ensures r.start == ToProtocol(n.start) && r.end == ToProtocol(n.end)
  {
    Range(ToProtocol(n.start), ToProtocol(n.end))
  }

  /** A node that lies within another as parser points has its range within the other's. */
  lemma NodeRangeWithin(inner: Node, outer: Node)
    requires NodeWithin(inner, outer)
    ensures RangeWithin(NodeRange(inner), NodeRange(outer))
  {
  }
}
