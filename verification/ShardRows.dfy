/** Decoded shards, the facts they contribute in order, and what those facts amount
    to, as plain scans (crates/symbol-index/src/lib.rs:130-183, 442-566). */
module ShardRows {
  import opened Wrappers
  import opened Ranges
  import opened Definitions
  import opened Repeats
  import SpanConversion

  /** What the document's metadata says of a symbol it declares. */
  datatype Info = Info(name: string, kind: SymbolKind, implements: seq<string>,
                       documentation: seq<string>, signature: string, enclosing: Option<Range>)

  datatype Role = Declares(info: Info) | Mentions(isImport: bool)

  /** An occurrence as the shard spells it; an unreadable range is None. */
  datatype Row = Row(symbol: string, range: Option<Range>, role: Role)

  datatype Document = Document(path: string, encoding: SpanConversion.ColumnUnit, rows: seq<Row>)

  /** A shard file's documents, or None when it cannot be read or parsed. */
  type Shard = Option<seq<Document>>

  /** A row the index takes in. */
  datatype Fact = Fact(path: string, encoding: SpanConversion.ColumnUnit, symbol: string, range: Range, role: Role)

  datatype Reference = Reference(path: string, range: Range, encoding: SpanConversion.ColumnUnit, isImport: bool)

  // ---- from shards to facts ----

  predicate IsGlobal(symbol: string) {
    symbol != "" && !("local " <= symbol)
  }

  predicate IsTaken(row: Row) {
    row.range.Some? && IsGlobal(row.symbol)
  }

  function FactOf(doc: Document, row: Row): Fact
    requires IsTaken(row)
  {
    Fact(doc.path, doc.encoding, row.symbol, row.range.value, row.role)
  }

  function RowFacts(doc: Document, rows: seq<Row>): seq<Fact> {
    if rows == [] then []
    else
      var front, last := rows[..|rows| - 1], rows[|rows| - 1];
      RowFacts(doc, front) + if IsTaken(last) then [FactOf(doc, last)] else []
  }

  function DocumentFacts(docs: seq<Document>): seq<Fact> {
    if docs == [] then []
    else
      var front, last := docs[..|docs| - 1], docs[|docs| - 1];
      DocumentFacts(front) + RowFacts(last, last.rows)
  }

  function ShardFacts(shards: seq<Shard>): seq<Fact> {
    if shards == [] then []
    else
      var front, last := shards[..|shards| - 1], shards[|shards| - 1];
      ShardFacts(front) + if last.Some? then DocumentFacts(last.value) else []
  }

  function Readable(shards: seq<Shard>): nat {
    if shards == [] then 0
    else Readable(shards[..|shards| - 1]) + if shards[|shards| - 1].Some? then 1 else 0
  }

  // ---- what the facts amount to ----

  /** `filter_map`. */
  function Gather<T>(facts: seq<Fact>, pick: Fact -> Option<T>): seq<T> {
    if facts == [] then []
    else
      var front, last := facts[..|facts| - 1], facts[|facts| - 1];
      Gather(front, pick) + if pick(last).Some? then [pick(last).value] else []
  }

  function Symbol(): Fact -> Option<string> {
    (f: Fact) => Some(f.symbol)
  }

  function MentionPath(): Fact -> Option<string> {
    (f: Fact) => if f.role.Mentions? then Some(f.path) else None
  }

  function UseOf(symbol: string): Fact -> Option<Reference> {
    (f: Fact) =>
      if f.role.Mentions? && f.symbol == symbol then Some(Reference(f.path, f.range, f.encoding, f.role.isImport))
      else None
  }

  function DefinitionOf(f: Fact): Definition
    requires f.role.Declares?
  {
    var i := f.role.info;
    Definition(f.symbol, i.name, i.kind, f.path, f.range, f.encoding, i.implements, i.documentation, i.signature, i.enclosing)
  }

  predicate SameSite(a: Definition, b: Definition) {
    a.symbol == b.symbol && a.path == b.path && a.range == b.range
  }

  predicate Known(defs: seq<Definition>, def: Definition) {
    exists i :: 0 <= i < |defs| && SameSite(defs[i], def)
  }

  function Inserted(defs: seq<Definition>, def: Definition): seq<Definition> {
    if Known(defs, def) then defs else defs + [def]
  }

  /** The declaration rows in order, without those at a site already declared. */
  function DefinitionsOf(facts: seq<Fact>): seq<Definition> {
    if facts == [] then []
    else
      var front, last := facts[..|facts| - 1], facts[|facts| - 1];
      if last.role.Declares? then Inserted(DefinitionsOf(front), DefinitionOf(last)) else DefinitionsOf(front)
  }

  ghost predicate Seen(facts: seq<Fact>, path: string, range: Range, symbol: string) {
    exists i :: 0 <= i < |facts| && facts[i].path == path && facts[i].range == range && facts[i].symbol == symbol
  }

  /** No two definitions share symbol, path and range. */
  ghost predicate NoTwins(defs: seq<Definition>) {
    forall i, j :: 0 <= i < j < |defs| ==> !SameSite(defs[i], defs[j])
  }

  // ---- one fact more ----

  lemma GatherSnoc<T>(facts: seq<Fact>, f: Fact, pick: Fact -> Option<T>)
    ensures Gather(facts + [f], pick) == Gather(facts, pick) + if pick(f).Some? then [pick(f).value] else []
  {
    Snoc(facts, f);
  }

  lemma DefinitionsSnoc(facts: seq<Fact>, f: Fact)
    ensures DefinitionsOf(facts + [f])
            == if f.role.Declares? then Inserted(DefinitionsOf(facts), DefinitionOf(f)) else DefinitionsOf(facts)
  {
    Snoc(facts, f);
  }

  lemma SeenSnoc(facts: seq<Fact>, f: Fact, path: string, range: Range, symbol: string)
    ensures Seen(facts + [f], path, range, symbol)
            <==> Seen(facts, path, range, symbol) || (f.path == path && f.range == range && f.symbol == symbol)
  {
    var more := facts + [f];
    if Seen(facts, path, range, symbol) {
      var i :| 0 <= i < |facts| && facts[i].path == path && facts[i].range == range && facts[i].symbol == symbol;
      assert more[i] == facts[i];
    }
    assert more[|facts|] == f;
  }

  // ---- facts known before ----

  lemma {:induction false} GatherHolds<T>(facts: seq<Fact>, pick: Fact -> Option<T>, x: T)
    ensures x in Gather(facts, pick) <==> exists f :: f in facts && pick(f) == Some(x)
  {
    if facts != [] {
      var front, last := facts[..|facts| - 1], facts[|facts| - 1];
      GatherHolds(front, pick, x);
      assert facts == front + [last];
    }
  }

  lemma {:induction false} GatherConcat<T>(a: seq<Fact>, b: seq<Fact>, pick: Fact -> Option<T>)
    ensures Gather(a + b, pick) == Gather(a, pick) + Gather(b, pick)
    decreases |b|
  {
    if b == [] {
      assert a + b == a;
    } else {
      GatherConcat(a, b[..|b| - 1], pick);
      assert (a + b)[..|a + b| - 1] == a + b[..|b| - 1];
    }
  }

  lemma GatherKnown<T>(a: seq<Fact>, b: seq<Fact>, pick: Fact -> Option<T>)
    requires forall f :: f in b ==> f in a
    ensures Distinct(Gather(a + b, pick)) == Distinct(Gather(a, pick))
  {
    hide Gather, Distinct;
    GatherConcat(a, b, pick);
    forall x | x in Gather(b, pick)
      ensures x in Gather(a, pick)
    {
      GatherHolds(b, pick, x);
      GatherHolds(a, pick, x);
    }
    DistinctKnown(Gather(a, pick), Gather(b, pick));
  }

  lemma {:induction false} DefinitionsHold(facts: seq<Fact>, f: Fact)
    requires f in facts && f.role.Declares?
    ensures Known(DefinitionsOf(facts), DefinitionOf(f))
  {
    var front, last := facts[..|facts| - 1], facts[|facts| - 1];
    assert facts == front + [last];
    if f in front {
      DefinitionsHold(front, f);
      KnownGrows(DefinitionsOf(front), DefinitionOf(f), if last.role.Declares? then [DefinitionOf(last)] else []);
    } else {
      assert !Known(DefinitionsOf(front), DefinitionOf(f)) ==> SameSite(DefinitionsOf(facts)[|DefinitionsOf(front)|], DefinitionOf(f));
    }
  }

  lemma KnownGrows(defs: seq<Definition>, def: Definition, more: seq<Definition>)
    requires Known(defs, def)
    ensures Known(defs + more, def)
  {
    var i :| 0 <= i < |defs| && SameSite(defs[i], def);
    assert (defs + more)[i] == defs[i];
  }

  lemma {:induction false} DefinitionsKnown(a: seq<Fact>, b: seq<Fact>)
    requires forall f :: f in b ==> f in a
    ensures DefinitionsOf(a + b) == DefinitionsOf(a)
    decreases |b|
  {
    if b == [] {
      assert a + b == a;
    } else {
      var front, last := b[..|b| - 1], b[|b| - 1];
      assert last in b;
      DefinitionsKnown(a, front);
      assert a + b == (a + front) + [last];
      DefinitionsSnoc(a + front, last);
      if last.role.Declares? {
        DefinitionsHold(a, last);
      }
    }
  }

  lemma SeenKnown(a: seq<Fact>, b: seq<Fact>, path: string, range: Range, symbol: string)
    requires forall f :: f in b ==> f in a
    ensures Seen(a + b, path, range, symbol) <==> Seen(a, path, range, symbol)
  {
    var all := a + b;
    if Seen(all, path, range, symbol) {
      var i :| 0 <= i < |all| && all[i].path == path && all[i].range == range && all[i].symbol == symbol;
      assert all[i] in a;
    }
    if Seen(a, path, range, symbol) {
      var i :| 0 <= i < |a| && a[i].path == path && a[i].range == range && a[i].symbol == symbol;
      assert all[i] == a[i];
    }
  }

  // ---- declared sites ----

  lemma {:induction false} DefinitionsHaveNoTwins(facts: seq<Fact>)
    ensures NoTwins(DefinitionsOf(facts))
  {
    if facts != [] {
      DefinitionsHaveNoTwins(facts[..|facts| - 1]);
    }
  }

  /** Each definition was declared by a fact of its site. */
  lemma {:induction false} DefinitionsAreDeclared(facts: seq<Fact>, i: nat)
    requires i < |DefinitionsOf(facts)|
    ensures exists f :: f in facts && f.role.Declares? && DefinitionOf(f) == DefinitionsOf(facts)[i]
  {
    var front, last := facts[..|facts| - 1], facts[|facts| - 1];
    assert facts == front + [last];
    if i < |DefinitionsOf(front)| {
      DefinitionsAreDeclared(front, i);
    } else {
      assert last in facts;
    }
  }
}
