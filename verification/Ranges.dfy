/** Source ranges as the symbol index stores them, and the three comparisons made
    on them (crates/symbol-index/src/lib.rs:945-973). */
module Ranges {

  /** All four fields are `u32` in the source. */
  datatype Range = Range(startLine: nat, startCol: nat, endLine: nat, endCol: nat)

  const MAX_U32: nat := 0xffff_ffff

  ghost predicate FitsU32(r: Range) {
    r.startLine <= MAX_U32 && r.startCol <= MAX_U32 && r.endLine <= MAX_U32 && r.endCol <= MAX_U32
  }

  predicate Before(line1: nat, col1: nat, line2: nat, col2: nat) {
    line1 < line2 || (line1 == line2 && col1 <= col2)
  }

  predicate WellFormed(r: Range) {
    Before(r.startLine, r.startCol, r.endLine, r.endCol)
  }

  /** Whether `outer` wholly contains `inner`. */
  predicate Encloses(outer: Range, inner: Range) {
    && Before(outer.startLine, outer.startCol, inner.startLine, inner.startCol)
    && Before(inner.endLine, inner.endCol, outer.endLine, outer.endCol)
  }

  /** Whether `range` covers `(line, col)`, the end being exclusive. */
  predicate Covers(range: Range, line: nat, col: nat) {
    if line < range.startLine || line > range.endLine then false
    else if line == range.startLine && col < range.startCol then false
    else !(line == range.endLine && col >= range.endCol)
  }

  function Cols(range: Range): nat {
    if range.endCol > range.startCol then range.endCol - range.startCol else 0
  }

  /** A comparable size: lines dominate, columns (saturating at zero) break ties. */
  function SpanLen(range: Range): nat
    requires range.startLine <= range.endLine
  {
    (range.endLine - range.startLine) * MAX_U32 + Cols(range)
  }

  /** A half-open range covers what lies between its two ends in source order. */
  lemma CoversIsBetween(r: Range, line: nat, col: nat)
    ensures Covers(r, line, col) <==>
            Before(r.startLine, r.startCol, line, col) && !Before(r.endLine, r.endCol, line, col)
  {
  }

  lemma LinesScale(a: nat, b: nat)
    ensures a <= b ==> a * MAX_U32 <= b * MAX_U32
    ensures a + 1 <= b ==> a * MAX_U32 + MAX_U32 <= b * MAX_U32
    ensures a + 2 <= b ==> a * MAX_U32 + MAX_U32 < b * MAX_U32
  {
  }

  /** An enclosing range is never smaller, and it has the same size exactly when
      the saturating column count hides the difference: both ranges sit on the
      same lines and either have equal column counts or both saturate, or the
      outer one has one line more and the column counts are at the two extremes. */
  lemma SpanLenUnderEncloses(outer: Range, inner: Range)
    requires FitsU32(outer) && WellFormed(inner) && Encloses(outer, inner) && FitsU32(inner)
    ensures outer.startLine <= outer.endLine
    ensures SpanLen(inner) <= SpanLen(outer)
    ensures SpanLen(inner) == SpanLen(outer) <==>
            || (inner.startLine == outer.startLine && inner.endLine == outer.endLine
                && (outer.endCol <= outer.startCol || inner == outer))
            || (inner.endLine - inner.startLine + 1 == outer.endLine - outer.startLine
                && Cols(inner) == MAX_U32 && Cols(outer) == 0)
  {
    var a, b := inner.endLine - inner.startLine, outer.endLine - outer.startLine;
    LinesScale(a, b);
  }

  /** "The narrowest wins" is therefore not "the innermost wins": these two ranges
      are strictly nested and compare as equally long. */
  lemma NestedSpansCanTie() returns (outer: Range, inner: Range)
    ensures Encloses(outer, inner) && WellFormed(inner) && WellFormed(outer) && inner != outer
    ensures SpanLen(inner) == SpanLen(outer)
  {
    outer, inner := Range(0, 8, 2, 4), Range(0, 9, 2, 3);
  }
}
