/** The rows a shard contributes (crates/symbol-index/src/lib.rs:102-156). */
module Definitions {
  import opened Wrappers
  import opened Ranges
  import SpanConversion

  datatype SymbolKind = Class | Interface | Enum | Method | Constructor | Field | Other

  /** A symbol's definition site. `enclosing` is the span of the whole declaration. */
  datatype Definition = Definition(
    symbol: string, name: string, kind: SymbolKind, path: string, range: Range,
    encoding: SpanConversion.ColumnUnit, implements: seq<string>, documentation: seq<string>,
    signature: string, enclosing: Option<Range>)

  predicate IsCallable(def: Definition) {
    def.kind == Method || def.kind == Constructor
  }

  /** Whether the declaration of `def` has a span, and `range` lies in it. */
  predicate Scopes(def: Definition, range: Range) {
    def.enclosing.Some? && Encloses(def.enclosing.value, range)
  }
}
