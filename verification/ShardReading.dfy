/** Which rows of which shards the index takes in, and what it makes of each, said row by
    row (crates/symbol-index/src/lib.rs:442-566). */
module ShardReading {
  import opened Wrappers
  import opened Ranges
  import opened Definitions
  import opened Repeats
  import opened Buckets
  import opened ShardRows

  /** Where a row stands: in which shard, in which of its documents, and where there. */
  datatype Place = Place(shard: nat, doc: nat, row: nat)

  predicate Earlier(a: Place, b: Place) {
    a.shard < b.shard || (a.shard == b.shard && (a.doc < b.doc || (a.doc == b.doc && a.row < b.row)))
  }

  ghost predicate InSourceOrder(at: seq<Place>) {
    forall i, j :: 0 <= i < j < |at| ==> Earlier(at[i], at[j])
  }

  predicate Exists(all: seq<Shard>, p: Place) {
    && p.shard < |all| && all[p.shard].Some? && p.doc < |all[p.shard].value|
    && p.row < |all[p.shard].value[p.doc].rows|
  }

  /** The row has a readable range, and its symbol is not empty and not a local one. */
  predicate Counts(row: Row) {
    row.range.Some? && row.symbol != "" && (|row.symbol| < 6 || row.symbol[..6] != "local ")
  }

  predicate Spells(f: Fact, doc: Document, row: Row) {
    && row.range == Some(f.range) && f.symbol == row.symbol && f.role == row.role
    && f.path == doc.path && f.encoding == doc.encoding
  }

  /** The facts are the rows that count, one for each, in the order they were read. */
  ghost predicate ReadFrom(all: seq<Shard>, facts: seq<Fact>, at: seq<Place>) {
    && InSourceOrder(at) && |at| == |facts|
    && (forall k :: 0 <= k < |at| ==> IsRead(all, facts[k], at[k]))
    && (forall p :: Exists(all, p) && Counts(all[p.shard].value[p.doc].rows[p.row]) ==> p in at)
  }

  ghost predicate IsRead(all: seq<Shard>, f: Fact, p: Place) {
    && Exists(all, p)
    && var doc := all[p.shard].value[p.doc];
       Counts(doc.rows[p.row]) && Spells(f, doc, doc.rows[p.row])
  }

  lemma TakenCounts(row: Row)
    ensures IsTaken(row) <==> Counts(row)
  {
    assert "local " <= row.symbol ==> row.symbol[..6] == "local ";
    assert |row.symbol| >= 6 && row.symbol[..6] == "local " ==> row.symbol == "local " + row.symbol[6..];
  }

  // ---- row by row, document by document, shard by shard ----

  ghost predicate RowsRead(doc: Document, rows: seq<Row>, facts: seq<Fact>, at: seq<nat>) {
    && Increasing(at) && |at| == |facts|
    && (forall k :: 0 <= k < |at| ==> at[k] < |rows| && Counts(rows[at[k]]) && Spells(facts[k], doc, rows[at[k]]))
    && (forall i: nat :: i < |rows| && Counts(rows[i]) ==> i in at)
  }

  lemma {:induction false} RowPlaces(doc: Document, rows: seq<Row>) returns (at: seq<nat>)
    ensures RowsRead(doc, rows, RowFacts(doc, rows), at)
  {
    hide IsTaken, RowsRead;
    if rows == [] {
      at := [];
      NoRowsRead(doc);
      return;
    }
    var front, last := rows[..|rows| - 1], rows[|rows| - 1];
    var before := RowPlaces(doc, front);
    at := OneRowMore(doc, front, last, RowFacts(doc, front), before);
    assert front + [last] == rows;
  }

  lemma NoRowsRead(doc: Document)
    ensures RowsRead(doc, [], [], [])
  {
  }

  lemma OneRowMore(doc: Document, front: seq<Row>, last: Row, facts: seq<Fact>, before: seq<nat>)
    returns (at: seq<nat>)
    requires RowsRead(doc, front, facts, before)
    ensures RowsRead(doc, front + [last], facts + if IsTaken(last) then [FactOf(doc, last)] else [], at)
  {
    hide IsTaken, Counts, Spells;
    TakenCounts(last);
    at := before;
    if IsTaken(last) {
      TakenIsSpelled(doc, last);
      at := at + [|front|];
    }
  }

  lemma TakenIsSpelled(doc: Document, row: Row)
    requires IsTaken(row)
    ensures Spells(FactOf(doc, row), doc, row)
  {
  }

  lemma {:induction false} DocumentPlaces(docs: seq<Document>) returns (at: seq<Place>)
    ensures ReadFrom([Some(docs)], DocumentFacts(docs), at)
  {
    hide RowFacts, RowsRead;
    if docs == [] {
      return [];
    }
    var front, last := docs[..|docs| - 1], docs[|docs| - 1];
    var before := DocumentPlaces(front);
    var rows := RowPlaces(last, last.rows);
    at := OneDocumentMore(front, last, DocumentFacts(front), before, RowFacts(last, last.rows), rows);
    assert front + [last] == docs;
  }

  lemma OneDocumentMore(front: seq<Document>, last: Document, facts: seq<Fact>, before: seq<Place>,
                        more: seq<Fact>, rows: seq<nat>) returns (at: seq<Place>)
    requires ReadFrom([Some(front)], facts, before) && RowsRead(last, last.rows, more, rows)
    ensures ReadFrom([Some(front + [last])], facts + more, at)
  {
    hide Counts, Spells;
    var docs := front + [last];
    var added := seq(|rows|, k requires 0 <= k < |rows| => Place(0, |front|, rows[k]));
    at := before + added;
    forall k | 0 <= k < |at|
      ensures IsRead([Some(docs)], (facts + more)[k], at[k])
    {
      if k < |before| {
        assert IsRead([Some(front)], facts[k], before[k]);
        assert docs[before[k].doc] == front[before[k].doc];
      } else {
        assert docs[|front|] == last && at[k] == added[k - |before|];
      }
    }
    forall p | Exists([Some(docs)], p) && Counts([Some(docs)][p.shard].value[p.doc].rows[p.row])
      ensures p in at
    {
      if p.doc < |front| {
        assert docs[p.doc] == front[p.doc];
        assert Exists([Some(front)], p) && Counts([Some(front)][p.shard].value[p.doc].rows[p.row]);
      } else {
        var k :| 0 <= k < |rows| && rows[k] == p.row;
        assert added[k] == p;
      }
    }
  }

  lemma {:induction false} ShardPlaces(all: seq<Shard>) returns (at: seq<Place>)
    ensures ReadFrom(all, ShardFacts(all), at)
  {
    hide DocumentFacts, ReadFrom;
    if all == [] {
      at := [];
      NothingRead();
      return;
    }
    var front, last := all[..|all| - 1], all[|all| - 1];
    var before := ShardPlaces(front);
    var docs: seq<Place> := [];
    if last.Some? {
      docs := DocumentPlaces(last.value);
    }
    at := OneShardMore(front, last, ShardFacts(front), before, if last.Some? then DocumentFacts(last.value) else [], docs);
    assert front + [last] == all;
  }

  lemma NothingRead()
    ensures ReadFrom([], [], [])
  {
  }

  lemma OneShardMore(front: seq<Shard>, last: Shard, facts: seq<Fact>, before: seq<Place>,
                     more: seq<Fact>, docs: seq<Place>) returns (at: seq<Place>)
    requires ReadFrom(front, facts, before)
    requires if last.Some? then ReadFrom([last], more, docs) else more == [] && docs == []
    ensures ReadFrom(front + [last], facts + more, at)
  {
    hide Counts, Spells;
    var all := front + [last];
    var added := seq(|docs|, k requires 0 <= k < |docs| => docs[k].(shard := |front|));
    at := before + added;
    forall k | 0 <= k < |at|
      ensures IsRead(all, (facts + more)[k], at[k])
    {
      if k < |before| {
        assert IsRead(front, facts[k], before[k]);
        assert all[before[k].shard] == front[before[k].shard];
      } else {
        assert IsRead([last], more[k - |before|], docs[k - |before|]);
        assert all[|front|] == last && at[k] == added[k - |before|];
      }
    }
    forall p | Exists(all, p) && Counts(all[p.shard].value[p.doc].rows[p.row])
      ensures p in at
    {
      if p.shard < |front| {
        assert all[p.shard] == front[p.shard];
        assert Exists(front, p) && Counts(front[p.shard].value[p.doc].rows[p.row]);
      } else {
        var q := p.(shard := 0);
        assert Exists([last], q) && Counts([last][q.shard].value[q.doc].rows[q.row]);
        var k :| 0 <= k < |docs| && docs[k] == q;
        assert added[k] == p;
      }
    }
  }

  // ---- what the index makes of a row ----

  /** The first row that declares its symbol at its place. */
  ghost predicate DeclaresFirst(facts: seq<Fact>, i: nat) {
    && i < |facts| && facts[i].role.Declares?
    && forall j :: 0 <= j < i && facts[j].role.Declares? ==>
         facts[j].symbol != facts[i].symbol || facts[j].path != facts[i].path || facts[j].range != facts[i].range
  }

  /** Everything a definition says, it says after one row. */
  ghost predicate Says(def: Definition, f: Fact) {
    && f.role.Declares?
    && def.symbol == f.symbol && def.path == f.path && def.range == f.range && def.encoding == f.encoding
    && def.name == f.role.info.name && def.kind == f.role.info.kind && def.implements == f.role.info.implements
    && def.documentation == f.role.info.documentation && def.signature == f.role.info.signature
    && def.enclosing == f.role.info.enclosing
  }

  /** The definitions are the rows that declare something first, in their order. */
  ghost predicate DefinedBy(defs: seq<Definition>, facts: seq<Fact>, at: seq<nat>) {
    && Increasing(at) && |at| == |defs|
    && (forall k :: 0 <= k < |at| ==> DeclaresFirst(facts, at[k]) && Says(defs[k], facts[at[k]]))
    && (forall i :: DeclaresFirst(facts, i) ==> i in at)
  }

  lemma {:induction false} DefinitionsInOrder(facts: seq<Fact>) returns (at: seq<nat>)
    ensures DefinedBy(DefinitionsOf(facts), facts, at)
  {
    hide DefinedBy, DefinitionsOf, DeclaresFirst, Known;
    if facts == [] {
      at := [];
      NothingDefined();
      return;
    }
    var front, last := facts[..|facts| - 1], facts[|facts| - 1];
    var before := DefinitionsInOrder(front);
    assert facts == front + [last];
    DefinitionsSnoc(front, last);
    LastDeclares(facts);
    at := OneFactMore(front, last, DefinitionsOf(front), before, DefinitionsOf(facts));
  }

  lemma NothingDefined()
    ensures DefinedBy(DefinitionsOf([]), [], [])
  {
  }

  lemma OneFactMore(front: seq<Fact>, last: Fact, defs: seq<Definition>, before: seq<nat>,
                    defs': seq<Definition>) returns (at: seq<nat>)
    requires DefinedBy(defs, front, before)
    requires if DeclaresFirst(front + [last], |front|) then last.role.Declares? && defs' == defs + [DefinitionOf(last)]
             else defs' == defs
    ensures DefinedBy(defs', front + [last], at)
  {
    hide Says;
    var facts := front + [last];
    assert forall j :: 0 <= j < |front| ==> facts[j] == front[j];
    assert forall i: nat :: i < |front| ==> (DeclaresFirst(facts, i) <==> DeclaresFirst(front, i));
    at := before;
    if DeclaresFirst(facts, |front|) {
      SaysAll(last);
      at := at + [|front|];
    }
  }

  lemma SaysAll(f: Fact)
    requires f.role.Declares?
    ensures Says(DefinitionOf(f), f)
  {
  }

  lemma LastDeclares(facts: seq<Fact>)
    requires facts != []
    ensures var front, last := facts[..|facts| - 1], facts[|facts| - 1];
            DeclaresFirst(facts, |front|)
            <==> last.role.Declares? && !Known(DefinitionsOf(front), DefinitionOf(last))
  {
    if !facts[|facts| - 1].role.Declares? {
      return;
    }
    var front, last := facts[..|facts| - 1], facts[|facts| - 1];
    if Known(DefinitionsOf(front), DefinitionOf(last)) {
      var k :| 0 <= k < |DefinitionsOf(front)| && SameSite(DefinitionsOf(front)[k], DefinitionOf(last));
      DefinitionsAreDeclared(front, k);
      var f :| f in front && f.role.Declares? && DefinitionOf(f) == DefinitionsOf(front)[k];
      var j :| 0 <= j < |front| && front[j] == f;
      assert facts[j] == f;
    } else {
      forall j | 0 <= j < |front| && facts[j].role.Declares?
        ensures facts[j].symbol != last.symbol || facts[j].path != last.path || facts[j].range != last.range
      {
        assert facts[j] == front[j] && front[j] in front;
        DefinitionsHold(front, front[j]);
      }
    }
  }

  /** The rows that mention the symbol, in their order, and what is kept of each. */
  ghost predicate UsedBy(uses: seq<Reference>, facts: seq<Fact>, symbol: string, at: seq<nat>) {
    && Increasing(at) && |at| == |uses|
    && (forall k :: 0 <= k < |at| ==> at[k] < |facts| && IsUse(uses[k], facts[at[k]], symbol))
    && (forall i: nat :: i < |facts| && facts[i].symbol == symbol && !facts[i].role.Declares? ==> i in at)
  }

  ghost predicate IsUse(r: Reference, f: Fact, symbol: string) {
    && f.symbol == symbol && f.role.Mentions?
    && r.path == f.path && r.range == f.range && r.encoding == f.encoding && r.isImport == f.role.isImport
  }

  lemma {:induction false} UsesInOrder(facts: seq<Fact>, symbol: string) returns (at: seq<nat>)
    ensures UsedBy(Gather(facts, UseOf(symbol)), facts, symbol, at)
  {
    hide IsUse;
    if facts == [] {
      return [];
    }
    var front, last := facts[..|facts| - 1], facts[|facts| - 1];
    at := UsesInOrder(front, symbol);
    LastUse(last, symbol);
    if UseOf(symbol)(last).Some? {
      at := at + [|front|];
    }
  }

  lemma LastUse(f: Fact, symbol: string)
    ensures UseOf(symbol)(f).Some? <==> f.symbol == symbol && !f.role.Declares?
    ensures UseOf(symbol)(f).Some? ==> IsUse(UseOf(symbol)(f).value, f, symbol)
  {
  }
}
