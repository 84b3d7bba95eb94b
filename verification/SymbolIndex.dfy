/** Building the symbol index from shards (crates/symbol-index/src/lib.rs:242-270,
    400-424, 438-651). Lower-casing is a parameter. */
module SymbolIndexes {
  import opened Wrappers
  import opened Ranges
  import opened Definitions
  import opened Repeats
  import opened Buckets
  import opened Occurrences
  import opened ShardRows
  import opened IndexTables
  import opened IndexContents
  import ShardReading

  class SymbolIndex {
    const lower: string -> string

    var definitions: seq<Definition>
    var byName: Table
    var bySymbol: map<string, nat>
    var otherDefinitionSites: Table
    var references: map<string, seq<StoredReference>>
    var referencePaths: seq<string>
    /** Empty after a snapshot is read; rebuilt when it is needed again. */
    var referencePathIds: map<string, nat>
    var implementors: Table
    var byPath: Table
    var occurrences: map<string, seq<Occurrence>>
    var symbolNames: seq<string>
    var symbolIds: map<string, nat>
    var shards: nat

    /** Every row taken in, in order. */
    ghost var facts: seq<Fact>

    // ---- what the fields say of the rows taken in ----

    ghost predicate Consistent()
      reads this`definitions, this`byPath, this`byName, this`implementors, this`bySymbol, this`otherDefinitionSites
    {
      Derived(definitions, byPath, byName, implementors, bySymbol, otherDefinitionSites, lower)
    }

    ghost predicate DefinesAll(fs: seq<Fact>)
      reads this`definitions, this`byPath, this`byName, this`implementors, this`bySymbol, this`otherDefinitionSites
    {
      definitions == DefinitionsOf(fs) && Consistent()
    }

    ghost predicate NamesAll(fs: seq<Fact>)
      reads this`symbolNames, this`symbolIds
    {
      symbolNames == Distinct(Gather(fs, Symbol())) && Numbers(symbolIds, symbolNames)
    }

    ghost predicate NumbersPaths(fs: seq<Fact>)
      reads this`referencePaths, this`referencePathIds
    {
      && referencePaths == Distinct(Gather(fs, MentionPath()))
      && (referencePathIds == map[] || Numbers(referencePathIds, referencePaths))
    }

    ghost predicate ListsAll(fs: seq<Fact>, dirty: set<string>)
      reads this`references, this`referencePaths
    {
      Listed(references, referencePaths, fs, dirty)
    }

    ghost predicate PlacesAll(fs: seq<Fact>, open: Option<string>)
      reads this`occurrences, this`symbolNames
    {
      Occurring(occurrences, symbolNames, fs, open)
    }

    /** Rows are being taken in: the lists of the symbols in `dirty` may repeat
        themselves, and the occurrences of the file `open` are not sorted yet. */
    ghost predicate Ingesting(dirty: set<string>, open: Option<string>)
      reads this
    {
      DefinesAll(facts) && NamesAll(facts) && NumbersPaths(facts) && ListsAll(facts, dirty) && PlacesAll(facts, open)
    }

    ghost predicate Valid()
      reads this
    {
      Ingesting({}, None)
    }

    function Contents(): Contents
      reads this
    {
      IndexContents.Contents(definitions, byPath, byName, implementors, bySymbol, otherDefinitionSites,
                             references, referencePaths, occurrences, symbolNames, symbolIds)
    }

    lemma ValidDescribes()
      requires Valid()
      ensures Describes(Contents(), lower, facts)
    {
      hide DefinitionsOf, Gather, Distinct, Derived, Numbers, Listed, Occurring;
    }

    lemma ValidDefines()
      requires Valid()
      ensures exists at :: ShardReading.DefinedBy(definitions, facts, at)
    {
      hide DefinitionsOf, Gather, Distinct, Derived, Numbers, Listed, Occurring;
      var at := ShardReading.DefinitionsInOrder(facts);
    }

    constructor (lower: string -> string)
      ensures Valid() && facts == [] && shards == 0 && this.lower == lower
    {
      this.lower := lower;
      definitions, byName, bySymbol, otherDefinitionSites := [], map[], map[], map[];
      references, referencePaths, referencePathIds := map[], [], map[];
      implementors, byPath, occurrences, symbolNames, symbolIds := map[], map[], map[], [], map[];
      shards, facts := 0, [];
      new;
      assert Keys([], ByPath, lower) == [];
    }

    // ---- definitions ----

    method FileSupertypes(def: Definition)
      requires Tabulates(implementors, Keys(definitions, BySuper, lower))
      modifies this`implementors
      ensures Tabulates(implementors, Keys(definitions + [def], BySuper, lower))
    {
      hide Tabulates, Keys;
      var idx := |definitions|;
      ghost var rows := Keys(definitions, BySuper, lower);
      KeysLength(definitions, BySuper, lower);
      TabulatesRow(implementors, rows);
      assert def.implements[..0] == [];
      for j := 0 to |def.implements|
        invariant Tabulates(implementors, rows + [def.implements[..j]])
      {
        TabulatesKey(implementors, rows, def.implements[..j], def.implements[j]);
        assert def.implements[..j + 1] == def.implements[..j] + [def.implements[j]];
        implementors := Push(implementors, def.implements[j], idx);
      }
      assert def.implements[..|def.implements|] == def.implements;
      KeysSnoc(definitions, def, BySuper, lower);
    }

    method FileSite(def: Definition)
      requires Sited(bySymbol, otherDefinitionSites, Keys(definitions, BySymbol, lower))
      modifies this`bySymbol, this`otherDefinitionSites
      ensures Sited(bySymbol, otherDefinitionSites, Keys(definitions + [def], BySymbol, lower))
    {
      hide Sited, Keys;
      var idx := |definitions|;
      KeysLength(definitions, BySymbol, lower);
      KeysSnoc(definitions, def, BySymbol, lower);
      SitedOne(bySymbol, otherDefinitionSites, Keys(definitions, BySymbol, lower), def.symbol);
      if def.symbol in bySymbol {
        otherDefinitionSites := Push(otherDefinitionSites, def.symbol, idx);
      } else {
        bySymbol := bySymbol[def.symbol := idx];
      }
    }

    method FilePathAndName(def: Definition)
      requires Tabulates(byPath, Keys(definitions, ByPath, lower)) && Tabulates(byName, Keys(definitions, ByName, lower))
      modifies this`byPath, this`byName
      ensures Tabulates(byPath, Keys(definitions + [def], ByPath, lower))
      ensures Tabulates(byName, Keys(definitions + [def], ByName, lower))
    {
      hide Tabulates, Keys;
      var idx := |definitions|;
      KeysLength(definitions, ByPath, lower);
      KeysLength(definitions, ByName, lower);
      KeysSnoc(definitions, def, ByPath, lower);
      KeysSnoc(definitions, def, ByName, lower);
      TabulatesOne(byPath, Keys(definitions, ByPath, lower), def.path);
      TabulatesOne(byName, Keys(definitions, ByName, lower), lower(def.name));
      byPath := Push(byPath, def.path, idx);
      byName := Push(byName, lower(def.name), idx);
    }

    /** Adds a definition unless its site is declared already; every derived table
        stays the scan of the definitions in insertion order. */
    method Insert(def: Definition)
      requires Consistent()
      modifies this`definitions, this`byPath, this`byName, this`implementors, this`bySymbol, this`otherDefinitionSites
      ensures Consistent() && definitions == Inserted(old(definitions), def)
    {
      hide Tabulates, Keys, Sited, NoTwins, AnySite, Known;
      SitesKnown(definitions, byPath, lower, def);
      if def.path in byPath && AnySite(definitions, byPath[def.path], def.symbol, def.range) {
        return;
      }
      NoTwinsOne(definitions, def);
      FilePathAndName(def);
      FileSite(def);
      FileSupertypes(def);
      definitions := definitions + [def];
    }

    // ---- interning ----

    method InternSymbol(symbol: string) returns (id: nat)
      requires Numbers(symbolIds, symbolNames)
      modifies this`symbolNames, this`symbolIds
      ensures Numbers(symbolIds, symbolNames) && symbolNames == Interned(old(symbolNames), symbol)
      ensures id < |symbolNames| && symbolNames[id] == symbol
    {
      if symbol in symbolIds {
        assert symbol in symbolNames;
        return symbolIds[symbol];
      }
      id := |symbolNames|;
      symbolNames := symbolNames + [symbol];
      symbolIds := symbolIds[symbol := id];
    }

    method InternReferencePath(path: string) returns (id: nat)
      requires NoRepeats(referencePaths) && (referencePathIds == map[] || Numbers(referencePathIds, referencePaths))
      modifies this`referencePaths, this`referencePathIds
      ensures Numbers(referencePathIds, referencePaths) && referencePaths == Interned(old(referencePaths), path)
      ensures id < |referencePaths| && referencePaths[id] == path
    {
      if referencePathIds == map[] && referencePaths != [] {
        var i := 0;
        while i < |referencePaths|
          invariant 0 <= i <= |referencePaths| && referencePaths == old(referencePaths)
          invariant Numbers(referencePathIds, referencePaths[..i])
        {
          referencePathIds := referencePathIds[referencePaths[i] := i];
          i := i + 1;
        }
        assert referencePaths[..i] == referencePaths;
      }
      if path in referencePathIds {
        assert path in referencePaths;
        return referencePathIds[path];
      }
      id := |referencePaths|;
      referencePaths := referencePaths + [path];
      referencePathIds := referencePathIds[path := id];
    }

    // ---- one row ----

    method RecordOccurrence(f: Fact, ghost fs: seq<Fact>)
      requires NamesAll(fs) && PlacesAll(fs, Some(f.path))
      modifies this`symbolNames, this`symbolIds, this`occurrences
      ensures NamesAll(fs + [f]) && PlacesAll(fs + [f], Some(f.path))
    {
      hide Gather, Distinct, Numbers, Occurring;
      ghost var before := symbolNames;
      var id := InternSymbol(f.symbol);
      InternedIsDistinct(fs, f, Symbol(), before);
      OccurringOne(occurrences, before, fs, f, id);
      occurrences := occurrences[f.path := Placed(occurrences, f.path) + [Occurrence(f.range, id)]];
    }

    method RecordDefinition(f: Fact, ghost fs: seq<Fact>)
      requires f.role.Declares? && DefinesAll(fs)
      modifies this`definitions, this`byPath, this`byName, this`implementors, this`bySymbol, this`otherDefinitionSites
      ensures DefinesAll(fs + [f])
    {
      hide DefinitionsOf, Consistent, Inserted;
      DefinitionsSnoc(fs, f);
      Insert(DefinitionOf(f));
    }

    /** The path is interned once for each document that mentions anything. */
    method RecordReference(f: Fact, cached: Option<nat>, ghost fs: seq<Fact>, ghost dirty: set<string>)
      returns (pathId: nat)
      requires f.role.Mentions? && NumbersPaths(fs) && ListsAll(fs, dirty) && CachedPath(cached, f.path)
      modifies this`references, this`referencePaths, this`referencePathIds
      ensures NumbersPaths(fs + [f]) && ListsAll(fs + [f], dirty + {f.symbol}) && CachedPath(Some(pathId), f.path)
    {
      hide Gather, Distinct, Numbers, Listed;
      ghost var before := referencePaths;
      InternedIsDistinct(fs, f, MentionPath(), before);
      if cached.Some? {
        pathId := cached.value;
      } else {
        DistinctNoRepeats(Gather(fs, MentionPath()));
        pathId := InternReferencePath(f.path);
      }
      ListedOne(references, before, referencePaths, fs, dirty, f, pathId);
      var reference := StoredReference(pathId, f.range, f.encoding, f.role.isImport);
      references := references[f.symbol := Stored(references, f.symbol) + [reference]];
    }

    ghost predicate CachedPath(cached: Option<nat>, path: string)
      reads this`referencePaths
    {
      cached.Some? ==> cached.value < |referencePaths| && referencePaths[cached.value] == path
    }

    method AddRow(f: Fact, cached: Option<nat>, ghost dirty: set<string>) returns (pathId: Option<nat>)
      requires Ingesting(dirty, Some(f.path)) && CachedPath(cached, f.path)
      modifies this
      ensures Ingesting(if f.role.Mentions? then dirty + {f.symbol} else dirty, Some(f.path)) && CachedPath(pathId, f.path)
      ensures facts == old(facts) + [f] && shards == old(shards)
    {
      hide DefinesAll, NamesAll, NumbersPaths, ListsAll, PlacesAll;
      ghost var fs := facts;
      pathId := cached;
      RecordOccurrence(f, fs);
      if f.role.Declares? {
        RecordDefinition(f, fs);
        DeclaresNoUse(f, fs, dirty);
      } else {
        var id := RecordReference(f, cached, fs, dirty);
        MentionsNoDefinition(f, fs);
        pathId := Some(id);
      }
      facts := facts + [f];
    }

    lemma DeclaresNoUse(f: Fact, fs: seq<Fact>, dirty: set<string>)
      requires f.role.Declares? && NumbersPaths(fs) && ListsAll(fs, dirty)
      ensures NumbersPaths(fs + [f]) && ListsAll(fs + [f], dirty)
    {
      hide Gather, Distinct, Numbers, Shows;
      InternedIsDistinct(fs, f, MentionPath(), referencePaths);
      forall s
        ensures Gather(fs + [f], UseOf(s)) == Gather(fs, UseOf(s))
      {
        GatherSnoc(fs, f, UseOf(s));
        assert Gather(fs, UseOf(s)) + [] == Gather(fs, UseOf(s));
      }
    }

    lemma MentionsNoDefinition(f: Fact, fs: seq<Fact>)
      requires f.role.Mentions? && DefinesAll(fs)
      ensures DefinesAll(fs + [f])
    {
      hide DefinitionsOf, Consistent;
      DefinitionsSnoc(fs, f);
    }

    // ---- one document ----

    /** The sort that ends a document. */
    method SortFile(path: string)
      requires PlacesAll(facts, Some(path))
      modifies this`occurrences
      ensures PlacesAll(facts, None)
    {
      hide Seen, StrictlySorted;
      if path in occurrences {
        var list := SortDistinct(occurrences[path]);
        assert occurrences[path][0] in list;
        occurrences := occurrences[path := list];
      } else {
        NothingIsSorted();
      }
    }

    method AddDocument(doc: Document, deduplicate: bool, already: set<string>, ghost soiled: set<string>)
      returns (touched: set<string>, ghost dirty: set<string>)
      requires Ingesting(soiled, None) && (deduplicate ==> already == soiled)
      modifies this
      ensures Ingesting(dirty, None) && (deduplicate ==> touched == dirty)
      ensures facts == old(facts) + RowFacts(doc, doc.rows) && shards == old(shards)
    {
      hide DefinesAll, NamesAll, NumbersPaths, ListsAll, PlacesAll, RowFacts;
      touched, dirty := already, soiled;
      var pathId: Option<nat> := None;
      OpenFile(facts, doc.path);
      NoRows(doc);
      for i := 0 to |doc.rows|
        invariant Ingesting(dirty, Some(doc.path)) && CachedPath(pathId, doc.path) && (deduplicate ==> touched == dirty)
        invariant facts == old(facts) + RowFacts(doc, doc.rows[..i]) && shards == old(shards)
      {
        var row := doc.rows[i];
        NextRow(doc, i);
        if !IsTaken(row) {
          continue;
        }
        var f := FactOf(doc, row);
        pathId := AddRow(f, pathId, dirty);
        if f.role.Mentions? {
          dirty := dirty + {f.symbol};
          if deduplicate {
            touched := touched + {f.symbol};
          }
        }
      }
      assert doc.rows[..|doc.rows|] == doc.rows;
      SortFile(doc.path);
    }

    lemma OpenFile(fs: seq<Fact>, path: string)
      requires PlacesAll(fs, None)
      ensures PlacesAll(fs, Some(path))
    {
      hide Seen, StrictlySorted;
    }

    // ---- one shard, and all of them ----

    method SettleOne(symbol: string, ghost dirty: set<string>)
      requires ListsAll(facts, dirty) && NoRepeats(referencePaths)
      modifies this`references
      ensures ListsAll(facts, dirty - {symbol})
      ensures references.Keys == old(references.Keys)
    {
      hide Gather, Distinct, Shows;
      if symbol in references {
        ShowsSettled(references[symbol], referencePaths, Gather(facts, UseOf(symbol)), symbol in dirty);
        var list := RetainFirst(references[symbol]);
        DistinctHolds(references[symbol], references[symbol][0]);
        references := references[symbol := list];
      } else {
        NoneToSettle(referencePaths, Gather(facts, UseOf(symbol)), symbol in dirty);
      }
    }

    /** Drops repeats from the lists of these symbols, in any order. */
    method SettleAll(symbols: set<string>, ghost soiled: set<string>)
      requires ListsAll(facts, soiled) && NoRepeats(referencePaths)
      modifies this`references
      ensures ListsAll(facts, soiled - symbols)
    {
      hide ListsAll;
      var rest := symbols;
      ghost var dirty := soiled;
      while rest != {}
        invariant ListsAll(facts, dirty) && rest <= symbols && dirty - rest == soiled - symbols
        decreases |rest|
      {
        var symbol :| symbol in rest;
        SettleOne(symbol, dirty);
        rest, dirty := rest - {symbol}, dirty - {symbol};
      }
      assert dirty == soiled - symbols;
    }

    method AddShardWith(shard: Shard, deduplicate: bool, ghost soiled: set<string>)
      returns (ok: bool, ghost dirty: set<string>)
      requires Ingesting(soiled, None) && (deduplicate ==> soiled == {})
      modifies this
      ensures Ingesting(dirty, None) && (deduplicate ==> dirty == {}) && ok == shard.Some?
      ensures facts == old(facts) + (if ok then DocumentFacts(shard.value) else [])
      ensures shards == old(shards) + (if ok then 1 else 0)
    {
      hide DefinesAll, NamesAll, NumbersPaths, ListsAll, PlacesAll, DocumentFacts;
      dirty := soiled;
      if shard.None? {
        return false, dirty;
      }
      ok := true;
      shards := shards + 1;
      var docs := shard.value;
      var touched: set<string> := {};
      NoDocuments();
      for i := 0 to |docs|
        invariant Ingesting(dirty, None) && (deduplicate ==> touched == dirty)
        invariant facts == old(facts) + DocumentFacts(docs[..i]) && shards == old(shards) + 1
      {
        touched, dirty := AddDocument(docs[i], deduplicate, touched, dirty);
        NextDocument(docs, i);
        assert old(facts) + DocumentFacts(docs[..i + 1]) == old(facts) + DocumentFacts(docs[..i]) + RowFacts(docs[i], docs[i].rows);
      }
      assert docs[..|docs|] == docs;
      if deduplicate {
        PathsAreDistinct(facts);
        SettleAll(touched, dirty);
        dirty := dirty - touched;
      }
    }

    lemma PathsAreDistinct(fs: seq<Fact>)
      requires NumbersPaths(fs)
      ensures NoRepeats(referencePaths)
    {
      DistinctNoRepeats(Gather(fs, MentionPath()));
    }

    /** A symbol without a list has no repeats to drop. */
    lemma NothingElseIsDirty(dirty: set<string>)
      requires ListsAll(facts, dirty)
      ensures ListsAll(facts, dirty * references.Keys)
    {
      hide Gather, Distinct;
    }

    /** `add_shard`. A shard whose rows are all known only counts as one more. */
    method AddShard(shard: Shard) returns (ok: bool)
      requires Valid()
      modifies this
      ensures Valid() && ok == shard.Some?
      ensures facts == old(facts) + ShardFacts([shard]) && shards == old(shards) + Readable([shard])
      ensures exists added, at :: facts == old(facts) + added && ShardReading.ReadFrom([shard], added, at)
      ensures exists at :: ShardReading.DefinedBy(definitions, facts, at)
      ensures (forall f :: f in ShardFacts([shard]) ==> f in old(facts)) ==> Contents() == old(Contents())
    {
      hide Ingesting, DocumentFacts, Describes, Contents;
      ghost var before := Contents();
      ValidDescribes();
      ghost var dirty;
      ok, dirty := AddShardWith(shard, true, {});
      assert [shard][..0] == [];
      assert ok ==> [] + DocumentFacts(shard.value) == DocumentFacts(shard.value);
      assert old(facts) + [] == old(facts);
      assert facts == old(facts) + ShardFacts([shard]);
      ghost var at := ShardReading.ShardPlaces([shard]);
      ValidDefines();
      ValidDescribes();
      assert Describes(before, lower, old(facts));
      if forall f :: f in ShardFacts([shard]) ==> f in old(facts) {
        NothingNew(before, Contents(), lower, old(facts), ShardFacts([shard]));
      }
    }

    /** `load_shards`: every shard is appended first and repeats are dropped once. */
    static method LoadShards(lower: string -> string, all: seq<Shard>) returns (index: SymbolIndex, failed: seq<nat>)
      ensures fresh(index) && index.Valid() && index.lower == lower
      ensures index.facts == ShardFacts(all) && index.shards == Readable(all)
      ensures failed == Unreadable(all)
      ensures exists at :: ShardReading.ReadFrom(all, index.facts, at)
      ensures exists at :: ShardReading.DefinedBy(index.definitions, index.facts, at)
    {
      hide *;
      index := new SymbolIndex(lower);
      failed := [];
      ghost var dirty := {};
      assert all[..0] == [];
      NoShards();
      ValidIsSettled(index);
      for i := 0 to |all|
        invariant fresh(index) && index.Ingesting(dirty, None) && index.lower == lower
        invariant index.facts == ShardFacts(all[..i]) && index.shards == Readable(all[..i])
        invariant failed == Unreadable(all[..i])
      {
        NextShard(all, i);
        var ok: bool;
        ok, dirty := index.AddShardWith(all[i], false, dirty);
        if !ok {
          failed := failed + [i];
        }
      }
      assert all[..|all|] == all;
      index.SettleEverything(dirty);
      ghost var at := ShardReading.ShardPlaces(all);
      index.ValidDefines();
    }

    method SettleEverything(ghost dirty: set<string>)
      requires Ingesting(dirty, None)
      modifies this`references
      ensures Valid()
    {
      hide DefinesAll, NamesAll, NumbersPaths, PlacesAll, ListsAll;
      PathsAreDistinct(facts);
      NothingElseIsDirty(dirty);
      ghost var keys := references.Keys;
      SettleAll(references.Keys, dirty * keys);
      assert dirty * keys - keys == {};
    }
  }

  /** However the same rows got in, all at once or shard by shard, the tables are equal. */
  lemma SameRowsSameIndex(a: SymbolIndex, b: SymbolIndex)
    requires a.Valid() && b.Valid() && a.facts == b.facts && a.lower == b.lower
    ensures a.Contents() == b.Contents()
  {
    hide *;
    a.ValidDescribes();
    b.ValidDescribes();
    Determined(a.Contents(), b.Contents(), a.lower, a.facts);
  }

  /** A cold load, which drops repeats once at the end, and adding the same shards one
      after the other, which drops them each time, give the same index. */
  method ColdLoadEqualsAdding(lower: string -> string, all: seq<Shard>) returns (cold: SymbolIndex, warm: SymbolIndex)
    ensures cold.Valid() && warm.Valid()
    ensures cold.Contents() == warm.Contents() && cold.shards == warm.shards == Readable(all)
  {
    hide *;
    var failed: seq<nat>;
    cold, failed := SymbolIndex.LoadShards(lower, all);
    warm := new SymbolIndex(lower);
    NoShards();
    assert all[..0] == [];
    for i := 0 to |all|
      invariant fresh(warm) && warm.Valid() && warm.lower == lower
      invariant warm.facts == ShardFacts(all[..i]) && warm.shards == Readable(all[..i])
      invariant warm != cold && cold.Valid() && cold.lower == lower
      invariant cold.facts == ShardFacts(all) && cold.shards == Readable(all)
    {
      NextShard(all, i);
      OneShard(all[i]);
      var _ := warm.AddShard(all[i]);
    }
    assert all[..|all|] == all;
    SameRowsSameIndex(cold, warm);
  }

  lemma OneShard(shard: Shard)
    ensures ShardFacts([shard]) == if shard.Some? then DocumentFacts(shard.value) else []
    ensures Readable([shard]) == if shard.Some? then 1 else 0
  {
    assert [shard][..0] == [];
    assert shard.Some? ==> [] + DocumentFacts(shard.value) == DocumentFacts(shard.value);
  }

  lemma OccurringOne(occurrences: map<string, seq<Occurrence>>, names: seq<string>, facts: seq<Fact>, f: Fact,
                     id: nat)
    requires names == Distinct(Gather(facts, Symbol())) && Occurring(occurrences, names, facts, Some(f.path))
    requires id < |Interned(names, f.symbol)| && Interned(names, f.symbol)[id] == f.symbol
    ensures Occurring(occurrences[f.path := Placed(occurrences, f.path) + [Occurrence(f.range, id)]],
                      Interned(names, f.symbol), facts + [f], Some(f.path))
  {
    hide Gather, Distinct, Holds;
    var occurrences' := occurrences[f.path := Placed(occurrences, f.path) + [Occurrence(f.range, id)]];
    forall p
      ensures Holds(Placed(occurrences', p), Interned(names, f.symbol), facts + [f], p, Some(p) == Some(f.path))
    {
      HoldsOne(Placed(occurrences, p), names, facts, p, p == f.path, f, id);
    }
  }

  lemma ListedOne(references: map<string, seq<StoredReference>>, paths: seq<string>, paths': seq<string>,
                  facts: seq<Fact>, dirty: set<string>, f: Fact, id: nat)
    requires Listed(references, paths, facts, dirty) && paths <= paths' && f.role.Mentions?
    requires id < |paths'| && paths'[id] == f.path
    ensures var r := StoredReference(id, f.range, f.encoding, f.role.isImport);
            Listed(references[f.symbol := Stored(references, f.symbol) + [r]], paths', facts + [f], dirty + {f.symbol})
  {
    hide Gather, Distinct, Shows;
    var r := StoredReference(id, f.range, f.encoding, f.role.isImport);
    var references' := references[f.symbol := Stored(references, f.symbol) + [r]];
    forall s
      ensures Shows(Stored(references', s), paths', Gather(facts + [f], UseOf(s)), s in dirty + {f.symbol})
    {
      GatherSnoc(facts, f, UseOf(s));
      var uses := Gather(facts, UseOf(s));
      assert uses + [] == uses;
      ShowsPaths(Stored(references, s), paths, paths'[|paths|..], uses, s in dirty);
      assert paths + paths'[|paths|..] == paths';
      if s == f.symbol {
        ShowsOne(Stored(references, s), paths', uses, s in dirty, r);
      }
    }
  }

  lemma KeysLength(defs: seq<Definition>, column: Column, lower: string -> string)
    ensures |Keys(defs, column, lower)| == |defs|
  {
  }

  lemma SitesKnown(defs: seq<Definition>, byPath: Table, lower: string -> string, def: Definition)
    requires Tabulates(byPath, Keys(defs, ByPath, lower))
    ensures def.path in byPath ==> forall j :: 0 <= j < |byPath[def.path]| ==> byPath[def.path][j] < |defs|
    ensures Known(defs, def) <==> def.path in byPath && AnySite(defs, byPath[def.path], def.symbol, def.range)
  {
    PathBucket(defs, byPath, lower, def.path);
    hide Tabulates, Keys;
    AnySiteIsDeclared(defs, byPath, lower, def.path, def.symbol, def.range);
  }

  lemma NoTwinsOne(defs: seq<Definition>, def: Definition)
    requires NoTwins(defs) && !Known(defs, def)
    ensures NoTwins(defs + [def])
  {
  }

  function Unreadable(shards: seq<Shard>): seq<nat> {
    if shards == [] then []
    else Unreadable(shards[..|shards| - 1]) + if shards[|shards| - 1].None? then [|shards| - 1] else []
  }

  lemma NothingIsSorted()
    ensures StrictlySorted([])
  {
  }

  lemma NoneToSettle(paths: seq<string>, uses: seq<Reference>, dirty: bool)
    requires Shows([], paths, uses, dirty)
    ensures Shows([], paths, uses, false)
  {
  }

  lemma NoRows(doc: Document)
    ensures RowFacts(doc, doc.rows[..0]) == []
  {
  }

  lemma NextRow(doc: Document, i: nat)
    requires i < |doc.rows|
    ensures RowFacts(doc, doc.rows[..i + 1])
            == RowFacts(doc, doc.rows[..i]) + if IsTaken(doc.rows[i]) then [FactOf(doc, doc.rows[i])] else []
  {
    assert doc.rows[..i + 1][..i] == doc.rows[..i];
  }

  lemma NoDocuments()
    ensures forall docs: seq<Document> :: DocumentFacts(docs[..0]) == []
  {
  }

  lemma NextDocument(docs: seq<Document>, i: nat)
    requires i < |docs|
    ensures DocumentFacts(docs[..i + 1]) == DocumentFacts(docs[..i]) + RowFacts(docs[i], docs[i].rows)
  {
    assert docs[..i + 1][..i] == docs[..i];
  }

  lemma NoShards()
    ensures ShardFacts([]) == [] && Readable([]) == 0 && Unreadable([]) == []
  {
  }

  lemma NextShard(all: seq<Shard>, i: nat)
    requires i < |all|
    ensures ShardFacts(all[..i + 1]) == ShardFacts(all[..i]) + if all[i].Some? then DocumentFacts(all[i].value) else []
    ensures Readable(all[..i + 1]) == Readable(all[..i]) + if all[i].Some? then 1 else 0
    ensures Unreadable(all[..i + 1]) == Unreadable(all[..i]) + if all[i].None? then [i] else []
  {
    assert all[..i + 1][..i] == all[..i];
  }

  lemma ValidIsSettled(index: SymbolIndex)
    requires index.Valid()
    ensures index.Ingesting({}, None)
  {
  }
}
