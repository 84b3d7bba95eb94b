/** The index as a value: everything a snapshot persists but the shard count
    (crates/symbol-index/src/lib.rs:243-270). It is determined by the rows taken in,
    in order, however often and in whatever batches they came. */
module IndexContents {
  import opened Wrappers
  import opened Definitions
  import opened Repeats
  import opened Buckets
  import opened Occurrences
  import opened ShardRows
  import opened IndexTables

  datatype Contents = Contents(
    definitions: seq<Definition>, byPath: Table, byName: Table, implementors: Table,
    bySymbol: map<string, nat>, otherDefinitionSites: Table,
    references: map<string, seq<StoredReference>>, referencePaths: seq<string>,
    occurrences: map<string, seq<Occurrence>>, symbolNames: seq<string>, symbolIds: map<string, nat>)

  /** Every table of `c` is the scan of these rows. */
  ghost predicate Describes(c: Contents, lower: string -> string, facts: seq<Fact>) {
    && c.definitions == DefinitionsOf(facts)
    && Derived(c.definitions, c.byPath, c.byName, c.implementors, c.bySymbol, c.otherDefinitionSites, lower)
    && c.symbolNames == Distinct(Gather(facts, Symbol())) && Numbers(c.symbolIds, c.symbolNames)
    && c.referencePaths == Distinct(Gather(facts, MentionPath()))
    && Listed(c.references, c.referencePaths, facts, {})
    && Occurring(c.occurrences, c.symbolNames, facts, None)
  }

  // ---- the rows determine the tables ----

  lemma TableUnique(a: Table, b: Table, rows: seq<seq<string>>)
    requires Tabulates(a, rows) && Tabulates(b, rows)
    ensures a == b
  {
    hide Scan;
    forall k
      ensures k in a <==> k in b
      ensures k in a ==> a[k] == b[k]
    {
      assert Get(a, k) == Scan(rows, k) && Get(b, k) == Scan(rows, k);
    }
  }

  lemma SitesUnique(a: map<string, nat>, as': Table, b: map<string, nat>, bs: Table, rows: seq<seq<string>>)
    requires Sited(a, as', rows) && Sited(b, bs, rows)
    ensures a == b && as' == bs
  {
    hide Scan;
    forall k
      ensures k in a <==> k in b
      ensures k in a ==> a[k] == b[k] && Get(as', k) == Get(bs, k)
    {
      assert k in a <==> Scan(rows, k) != [];
      if k in a {
        assert ([a[k]] + Get(as', k))[0] == a[k] && ([b[k]] + Get(bs, k))[0] == b[k];
        assert ([a[k]] + Get(as', k))[1..] == Get(as', k) && ([b[k]] + Get(bs, k))[1..] == Get(bs, k);
      }
    }
    assert forall k :: k in as' <==> k in a && Get(as', k) != [];
    assert forall k :: k in bs <==> k in b && Get(bs, k) != [];
    assert forall k :: k in as' ==> as'[k] == Get(as', k) == Get(bs, k) == bs[k];
  }

  lemma NumbersUnique(a: map<string, nat>, b: map<string, nat>, names: seq<string>)
    requires Numbers(a, names) && Numbers(b, names)
    ensures a == b
  {
    forall x
      ensures x in a <==> x in b
      ensures x in a ==> a[x] == b[x]
    {
      if x in a {
        assert names[a[x]] == x;
      }
      if x in b {
        assert names[b[x]] == x;
      }
    }
  }

  lemma ShownUnique(a: seq<StoredReference>, b: seq<StoredReference>, paths: seq<string>)
    requires InRange(|paths|, a) && InRange(|paths|, b) && NoRepeats(paths) && ShowAll(paths, a) == ShowAll(paths, b)
    ensures a == b
  {
    assert |a| == |ShowAll(paths, a)| == |b|;
    forall i | 0 <= i < |a|
      ensures a[i] == b[i]
    {
      assert Show(paths, a[i]) == ShowAll(paths, a)[i] == ShowAll(paths, b)[i] == Show(paths, b[i]);
    }
  }

  lemma ListedUnique(a: map<string, seq<StoredReference>>, b: map<string, seq<StoredReference>>,
                     paths: seq<string>, facts: seq<Fact>)
    requires Listed(a, paths, facts, {}) && Listed(b, paths, facts, {}) && NoRepeats(paths)
    ensures a == b
  {
    hide Gather, Distinct, Shows, ShowAll, NoRepeats;
    forall s
      ensures Stored(a, s) == Stored(b, s)
    {
      var uses := Gather(facts, UseOf(s));
      assert Shows(Stored(a, s), paths, uses, s in {}) && Shows(Stored(b, s), paths, uses, s in {});
      SettledShows(Stored(a, s), paths, uses);
      SettledShows(Stored(b, s), paths, uses);
      SettledInRange(Stored(a, s), paths, uses);
      SettledInRange(Stored(b, s), paths, uses);
      ShownUnique(Stored(a, s), Stored(b, s), paths);
    }
    assert forall s :: s in a <==> Stored(a, s) != [];
    assert forall s :: s in b <==> Stored(b, s) != [];
    assert forall s :: s in a ==> a[s] == Stored(a, s) == Stored(b, s) == b[s];
  }

  lemma SettledInRange(list: seq<StoredReference>, paths: seq<string>, uses: seq<Reference>)
    requires Shows(list, paths, uses, false)
    ensures InRange(|paths|, list)
  {
  }

  lemma OccurringUnique(a: map<string, seq<Occurrence>>, b: map<string, seq<Occurrence>>, names: seq<string>,
                        facts: seq<Fact>)
    requires Occurring(a, names, facts, None) && Occurring(b, names, facts, None)
    ensures a == b
  {
    hide Seen, StrictlySorted;
    forall p
      ensures Placed(a, p) == Placed(b, p)
    {
      assert Holds(Placed(a, p), names, facts, p, false) && Holds(Placed(b, p), names, facts, p, false);
      SortedUnique(Placed(a, p), Placed(b, p));
    }
    assert forall p :: p in a <==> Placed(a, p) != [];
    assert forall p :: p in b <==> Placed(b, p) != [];
    assert forall p :: p in a ==> a[p] == Placed(a, p) == Placed(b, p) == b[p];
  }

  /** Two indexes of the same rows in the same order are equal. */
  lemma Determined(a: Contents, b: Contents, lower: string -> string, facts: seq<Fact>)
    requires Describes(a, lower, facts) && Describes(b, lower, facts)
    ensures a == b
  {
    var defs := a.definitions;
    TableUnique(a.byPath, b.byPath, Keys(defs, ByPath, lower));
    TableUnique(a.byName, b.byName, Keys(defs, ByName, lower));
    TableUnique(a.implementors, b.implementors, Keys(defs, BySuper, lower));
    SitesUnique(a.bySymbol, a.otherDefinitionSites, b.bySymbol, b.otherDefinitionSites, Keys(defs, BySymbol, lower));
    NumbersUnique(a.symbolIds, b.symbolIds, a.symbolNames);
    DistinctNoRepeats(Gather(facts, MentionPath()));
    hide Gather, Distinct, Tabulates, Sited, Numbers;
    ListedUnique(a.references, b.references, a.referencePaths, facts);
    OccurringUnique(a.occurrences, b.occurrences, a.symbolNames, facts);
  }

  // ---- rows taken in again ----

  lemma ListedAgain(references: map<string, seq<StoredReference>>, paths: seq<string>, facts: seq<Fact>,
                    again: seq<Fact>)
    requires Listed(references, paths, facts, {}) && forall f :: f in again ==> f in facts
    ensures Listed(references, paths, facts + again, {})
  {
    hide Gather, Distinct, NoRepeats, ShowAll;
    forall s
      ensures Shows(Stored(references, s), paths, Gather(facts + again, UseOf(s)), s in {})
    {
      GatherKnown(facts, again, UseOf(s));
      assert Shows(Stored(references, s), paths, Gather(facts, UseOf(s)), s in {});
    }
  }

  lemma OccurringAgain(occurrences: map<string, seq<Occurrence>>, names: seq<string>, facts: seq<Fact>,
                       again: seq<Fact>)
    requires Occurring(occurrences, names, facts, None) && forall f :: f in again ==> f in facts
    ensures Occurring(occurrences, names, facts + again, None)
  {
    hide Seen, StrictlySorted;
    forall p
      ensures Holds(Placed(occurrences, p), names, facts + again, p, Some(p) == None)
    {
      assert Holds(Placed(occurrences, p), names, facts, p, Some(p) == None);
      SeenAgain(facts, again, p);
    }
  }

  /** Rows already taken in change nothing. */
  lemma TakenInAgain(c: Contents, lower: string -> string, facts: seq<Fact>, again: seq<Fact>)
    requires Describes(c, lower, facts) && forall f :: f in again ==> f in facts
    ensures Describes(c, lower, facts + again)
  {
    hide Derived, Numbers, Gather, Distinct, DefinitionsOf, Listed, Occurring;
    DefinitionsKnown(facts, again);
    GatherKnown(facts, again, Symbol());
    GatherKnown(facts, again, MentionPath());
    ListedAgain(c.references, c.referencePaths, facts, again);
    OccurringAgain(c.occurrences, c.symbolNames, facts, again);
  }

  lemma SeenAgain(facts: seq<Fact>, again: seq<Fact>, path: string)
    requires forall f :: f in again ==> f in facts
    ensures forall range, symbol :: Seen(facts + again, path, range, symbol) <==> Seen(facts, path, range, symbol)
  {
    hide Seen;
    forall range, symbol
      ensures Seen(facts + again, path, range, symbol) <==> Seen(facts, path, range, symbol)
    {
      SeenKnown(facts, again, path, range, symbol);
    }
  }

  /** So an index that took in nothing new is the index it was. */
  lemma NothingNew(before: Contents, after: Contents, lower: string -> string, facts: seq<Fact>, again: seq<Fact>)
    requires Describes(before, lower, facts) && Describes(after, lower, facts + again)
    requires forall f :: f in again ==> f in facts
    ensures after == before
  {
    hide Describes;
    TakenInAgain(before, lower, facts, again);
    Determined(before, after, lower, facts + again);
  }
}
