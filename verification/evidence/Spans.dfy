/** What a span says: its ends in bytes, lines and columns, when these fit and are in order. */
module Spans {
  import opened Sequences
  import opened SyntaxTree
  import opened Evidence

  /** The greatest line or column a span can hold. */
  predicate Holds32(p: Position) {
    p.line <= 0xFFFF_FFFF && p.column <= 0xFFFF_FFFF
  }

  /** `to` is not before `from`. */
  predicate NotAfter(from: Position, to: Position) {
    from.line < to.line || (from.line == to.line && from.column <= to.column)
  }

  /** Present with both its ends, and unavailable exactly when one end is before the other. */
  predicate IsSpan(start: nat, end: nat, from: Position, to: Position, span: SpanAvailability) {
    if start <= end && NotAfter(from, to) then span == Present(start, end, from, to) else span == NormalizerUnavailable
  }

  lemma CheckedSpanIs(start: nat, end: nat, from: Position, to: Position)
    ensures IsSpan(start, end, from, to, CheckedSpan(start, end, from, to))
  {
  }

  /** The span of a range, its lines given and its columns looked up; none when one of these is past 32 bits. */
  predicate IsRangeSpan(
    input: WalkInput, start: nat, end: nat, startRow: nat, endRow: nat, span: Option<SpanAvailability>)
  {
    var from, to := input.position(start), input.position(end);
    && (span.Some? <==> Holds32(from) && Holds32(to) && Holds32(Position(startRow, 0)) && Holds32(Position(endRow, 0)))
    && (span.Some? ==> IsSpan(start, end, Position(startRow, from.column), Position(endRow, to.column), span.value))
  }

  lemma RangeSpanIs(input: WalkInput, start: nat, end: nat, startRow: nat, endRow: nat)
    ensures IsRangeSpan(input, start, end, startRow, endRow, RangeSpan(input, start, end, startRow, endRow))
  {
  }

  /** A node's span is that of its range, its lines those of the tree. */
  lemma NodeSpanIs(input: WalkInput, node: Tree)
    ensures IsRangeSpan(input, node.start, node.end, node.startRow, node.endRow, NodeSpan(input, node))
  {
    RangeSpanIs(input, node.start, node.end, node.startRow, node.endRow);
  }
}
