/** What each table of the symbol index says of the rows taken in
    (crates/symbol-index/src/lib.rs:242-270), one row at a time. */
module IndexTables {
  import opened Wrappers
  import opened Ranges
  import opened Definitions
  import opened Repeats
  import opened Buckets
  import opened Occurrences
  import opened ShardRows
  import SpanConversion

  // ---- tables derived from the definitions ----

  datatype Column = ByPath | ByName | BySymbol | BySuper

  function KeysOf(def: Definition, column: Column, lower: string -> string): seq<string> {
    match column
    case ByPath => [def.path]
    case ByName => [lower(def.name)]
    case BySymbol => [def.symbol]
    case BySuper => def.implements
  }

  function Keys(defs: seq<Definition>, column: Column, lower: string -> string): seq<seq<string>> {
    seq(|defs|, i requires 0 <= i < |defs| => KeysOf(defs[i], column, lower))
  }

  lemma KeysSnoc(defs: seq<Definition>, def: Definition, column: Column, lower: string -> string)
    ensures Keys(defs + [def], column, lower) == Keys(defs, column, lower) + [KeysOf(def, column, lower)]
  {
  }

  /** The first site of each symbol in one table, its other sites in a second. */
  ghost predicate Sited(first: map<string, nat>, others: Table, rows: seq<seq<string>>) {
    forall k ::
      && (k in first <==> Scan(rows, k) != [])
      && (k in first ==> [first[k]] + Get(others, k) == Scan(rows, k))
      && (k in others ==> k in first && others[k] != [])
  }

  lemma SitedOne(first: map<string, nat>, others: Table, rows: seq<seq<string>>, key: string)
    requires Sited(first, others, rows)
    ensures key in first ==> Sited(first, Push(others, key, |rows|), rows + [[key]])
    ensures key !in first ==> Sited(first[key := |rows|], others, rows + [[key]])
  {
    hide Scan;
    var more := rows + [[key]];
    forall k
      ensures Scan(more, k) == Scan(rows, k) + if k == key then [|rows|] else []
    {
      ScanSnoc(rows, [key], k);
      TimesSnoc(|rows|, [], key, k);
      assert [] + [key] == [key];
    }
    if key in first {
      var others' := Push(others, key, |rows|);
      forall k | k in first
        ensures [first[k]] + Get(others', k) == Scan(more, k)
      {
        assert [first[k]] + (Get(others, k) + [|rows|]) == ([first[k]] + Get(others, k)) + [|rows|];
      }
    }
  }

  ghost predicate Derived(defs: seq<Definition>, byPath: Table, byName: Table, implementors: Table,
                          bySymbol: map<string, nat>, others: Table, lower: string -> string) {
    && NoTwins(defs)
    && Tabulates(byPath, Keys(defs, ByPath, lower))
    && Tabulates(byName, Keys(defs, ByName, lower))
    && Tabulates(implementors, Keys(defs, BySuper, lower))
    && Sited(bySymbol, others, Keys(defs, BySymbol, lower))
  }

  /** Whether one of these definitions is the site of `symbol` at `range`. */
  predicate AnySite(defs: seq<Definition>, sites: seq<nat>, symbol: string, range: Range)
    requires forall j :: 0 <= j < |sites| ==> sites[j] < |defs|
  {
    exists j :: 0 <= j < |sites| && defs[sites[j]].symbol == symbol && defs[sites[j]].range == range
  }

  /** A file's bucket holds exactly its definitions. */
  lemma PathBucket(defs: seq<Definition>, byPath: Table, lower: string -> string, path: string)
    requires Tabulates(byPath, Keys(defs, ByPath, lower))
    ensures forall j :: 0 <= j < |Get(byPath, path)| ==> Get(byPath, path)[j] < |defs| && defs[Get(byPath, path)[j]].path == path
    ensures forall i :: 0 <= i < |defs| && defs[i].path == path ==> i in Get(byPath, path)
    ensures Increasing(Get(byPath, path))
  {
    hide Scan;
    var keys := Keys(defs, ByPath, lower);
    var sites := Get(byPath, path);
    forall i: nat
      ensures i in sites <==> i < |defs| && defs[i].path == path
    {
      ScanHolds(keys, path, i);
      assert i < |defs| ==> keys[i] == [defs[i].path];
    }
    forall j | 0 <= j < |sites|
      ensures sites[j] < |defs| && defs[sites[j]].path == path
    {
      assert sites[j] in sites;
    }
    ScanIncreases(keys, path);
  }

  lemma AnySiteIsDeclared(defs: seq<Definition>, byPath: Table, lower: string -> string,
                          path: string, symbol: string, range: Range)
    requires Tabulates(byPath, Keys(defs, ByPath, lower))
    requires forall j :: 0 <= j < |Get(byPath, path)| ==> Get(byPath, path)[j] < |defs|
    ensures AnySite(defs, Get(byPath, path), symbol, range)
            <==> exists i :: 0 <= i < |defs| && defs[i].path == path && defs[i].symbol == symbol && defs[i].range == range
  {
    hide Tabulates, Keys;
    PathBucket(defs, byPath, lower, path);
    var sites := Get(byPath, path);
    if i :| 0 <= i < |defs| && defs[i].path == path && defs[i].symbol == symbol && defs[i].range == range {
      var j :| 0 <= j < |sites| && sites[j] == i;
    }
  }

  // ---- interning ----

  /** `ids` is the inverse of `names`. */
  ghost predicate Numbers(ids: map<string, nat>, names: seq<string>) {
    && (forall i :: 0 <= i < |names| ==> names[i] in ids && ids[names[i]] == i)
    && (forall x :: x in ids ==> ids[x] < |names| && names[ids[x]] == x)
  }

  function Interned(names: seq<string>, name: string): seq<string> {
    if name in names then names else names + [name]
  }

  lemma InternedIsDistinct(facts: seq<Fact>, f: Fact, pick: Fact -> Option<string>, names: seq<string>)
    requires names == Distinct(Gather(facts, pick))
    ensures pick(f).Some? ==> Distinct(Gather(facts + [f], pick)) == Interned(names, pick(f).value)
    ensures pick(f).None? ==> Distinct(Gather(facts + [f], pick)) == names
  {
    hide Gather, Distinct;
    GatherSnoc(facts, f, pick);
    var all := Gather(facts, pick);
    if pick(f).Some? {
      DistinctSnoc(all, pick(f).value);
      DistinctHolds(all, pick(f).value);
    } else {
      assert all + [] == all;
    }
  }

  // ---- references ----

  /** The compact row: the symbol is the table's key, the path a number. */
  datatype StoredReference = StoredReference(path: nat, range: Range, encoding: SpanConversion.ColumnUnit, isImport: bool)

  predicate InRange(n: nat, list: seq<StoredReference>) {
    forall i :: 0 <= i < |list| ==> list[i].path < n
  }

  function Show(paths: seq<string>, r: StoredReference): Reference
    requires r.path < |paths|
  {
    Reference(paths[r.path], r.range, r.encoding, r.isImport)
  }

  function ShowAll(paths: seq<string>, list: seq<StoredReference>): seq<Reference>
    requires InRange(|paths|, list)
  {
    seq(|list|, i requires 0 <= i < |list| => Show(paths, list[i]))
  }

  function Stored(references: map<string, seq<StoredReference>>, symbol: string): seq<StoredReference> {
    if symbol in references then references[symbol] else []
  }

  /** A symbol's list shows its uses; outside `dirty` each of them once. */
  ghost predicate Shows(list: seq<StoredReference>, paths: seq<string>, uses: seq<Reference>, dirty: bool) {
    && InRange(|paths|, list)
    && Distinct(ShowAll(paths, list)) == Distinct(uses)
    && (!dirty ==> NoRepeats(list))
  }

  ghost predicate Listed(references: map<string, seq<StoredReference>>, paths: seq<string>, facts: seq<Fact>,
                         dirty: set<string>) {
    && (forall s :: Shows(Stored(references, s), paths, Gather(facts, UseOf(s)), s in dirty))
    && (forall s :: s in references ==> references[s] != [])
  }

  lemma ShowsPaths(list: seq<StoredReference>, paths: seq<string>, more: seq<string>, uses: seq<Reference>,
                   dirty: bool)
    requires Shows(list, paths, uses, dirty)
    ensures Shows(list, paths + more, uses, dirty)
  {
    hide Distinct;
    assert ShowAll(paths + more, list) == ShowAll(paths, list);
  }

  lemma ShowsOne(list: seq<StoredReference>, paths: seq<string>, uses: seq<Reference>, dirty: bool,
                 r: StoredReference)
    requires Shows(list, paths, uses, dirty) && r.path < |paths|
    ensures Shows(list + [r], paths, uses + [Show(paths, r)], true)
  {
    hide Distinct;
    var shown := ShowAll(paths, list);
    assert ShowAll(paths, list + [r]) == shown + [Show(paths, r)];
    DistinctEarly(shown, [Show(paths, r)]);
    DistinctEarly(uses, [Show(paths, r)]);
  }

  lemma {:induction false} DistinctShown(list: seq<StoredReference>, paths: seq<string>)
    requires InRange(|paths|, list) && NoRepeats(paths)
    ensures InRange(|paths|, Distinct(list))
    ensures Distinct(ShowAll(paths, list)) == ShowAll(paths, Distinct(list))
  {
    hide Distinct;
    if list == [] {
      DistinctAlready(list);
      DistinctAlready(ShowAll(paths, list));
    } else {
      var front, last := list[..|list| - 1], list[|list| - 1];
      DistinctShown(front, paths);
      assert list == front + [last];
      assert ShowAll(paths, list) == ShowAll(paths, front) + [Show(paths, last)];
      DistinctSnoc(front, last);
      DistinctSnoc(ShowAll(paths, front), Show(paths, last));
      ShownOnce(front, paths, last);
      if last !in front {
        assert ShowAll(paths, Distinct(front) + [last]) == ShowAll(paths, Distinct(front)) + [Show(paths, last)];
      }
    }
  }

  lemma ShownOnce(list: seq<StoredReference>, paths: seq<string>, r: StoredReference)
    requires InRange(|paths|, list) && r.path < |paths| && NoRepeats(paths)
    ensures Show(paths, r) in ShowAll(paths, list) <==> r in list
  {
    var shown := ShowAll(paths, list);
    if Show(paths, r) in shown {
      var i :| 0 <= i < |list| && shown[i] == Show(paths, r);
      assert list[i] == r;
    }
    if r in list {
      var i :| 0 <= i < |list| && list[i] == r;
      assert shown[i] == Show(paths, r);
    }
  }

  /** Dropping repeats from a list settles it. */
  lemma ShowsSettled(list: seq<StoredReference>, paths: seq<string>, uses: seq<Reference>, dirty: bool)
    requires Shows(list, paths, uses, dirty) && NoRepeats(paths)
    ensures Shows(Distinct(list), paths, uses, false)
  {
    DistinctShown(list, paths);
    DistinctNoRepeats(list);
    hide Distinct;
    var shown := ShowAll(paths, list);
    assert shown + [] == shown && Distinct(shown) + [] == Distinct(shown);
    DistinctEarly(shown, []);
  }

  /** A settled list shows exactly the distinct uses, in order. */
  lemma SettledShows(list: seq<StoredReference>, paths: seq<string>, uses: seq<Reference>)
    requires Shows(list, paths, uses, false) && NoRepeats(paths)
    ensures ShowAll(paths, list) == Distinct(uses)
  {
    DistinctShown(list, paths);
    DistinctAlready(list);
  }

  // ---- occurrences ----

  function Placed(occurrences: map<string, seq<Occurrence>>, path: string): seq<Occurrence> {
    if path in occurrences then occurrences[path] else []
  }

  /** A file's list holds each range and symbol seen in it; it is sorted unless the
      file is still being read. */
  ghost predicate Holds(list: seq<Occurrence>, names: seq<string>, facts: seq<Fact>, path: string, open: bool) {
    && (!open ==> StrictlySorted(list))
    && (forall o :: o in list <==> o.symbol < |names| && Seen(facts, path, o.range, names[o.symbol]))
  }

  ghost predicate Occurring(occurrences: map<string, seq<Occurrence>>, names: seq<string>, facts: seq<Fact>,
                            open: Option<string>) {
    && (forall p :: Holds(Placed(occurrences, p), names, facts, p, Some(p) == open))
    && (forall p :: p in occurrences ==> occurrences[p] != [])
  }

  lemma SeenIsNamed(facts: seq<Fact>, path: string, range: Range, symbol: string)
    requires Seen(facts, path, range, symbol)
    ensures symbol in Distinct(Gather(facts, Symbol()))
  {
    var i :| 0 <= i < |facts| && facts[i].path == path && facts[i].range == range && facts[i].symbol == symbol;
    DistinctHolds(Gather(facts, Symbol()), symbol);
    GatherHolds(facts, Symbol(), symbol);
    assert facts[i] in facts && Symbol()(facts[i]) == Some(symbol);
  }

  lemma HoldsOne(list: seq<Occurrence>, names: seq<string>, facts: seq<Fact>, path: string, open: bool,
                 f: Fact, id: nat)
    requires names == Distinct(Gather(facts, Symbol())) && Holds(list, names, facts, path, open)
    requires id < |Interned(names, f.symbol)| && Interned(names, f.symbol)[id] == f.symbol
    requires f.path == path ==> open
    ensures Holds(if f.path == path then list + [Occurrence(f.range, id)] else list,
                  Interned(names, f.symbol), facts + [f], path, open)
  {
    hide Gather, Distinct, Seen, StrictlySorted;
    var names' := Interned(names, f.symbol);
    var list' := if f.path == path then list + [Occurrence(f.range, id)] else list;
    forall o: Occurrence
      ensures o in list' <==> o.symbol < |names'| && Seen(facts + [f], path, o.range, names'[o.symbol])
    {
      if o.symbol < |names'| {
        SeenSnoc(facts, f, path, o.range, names'[o.symbol]);
        if Seen(facts, path, o.range, names'[o.symbol]) {
          SeenIsNamed(facts, path, o.range, names'[o.symbol]);
        }
        NamedOnce(facts, names, f.symbol, o.symbol, id);
      }
    }
  }

  lemma NamedOnce(facts: seq<Fact>, names: seq<string>, symbol: string, i: nat, id: nat)
    requires names == Distinct(Gather(facts, Symbol()))
    requires i < |Interned(names, symbol)| && id < |Interned(names, symbol)| && Interned(names, symbol)[id] == symbol
    ensures NoRepeats(Interned(names, symbol))
    ensures Interned(names, symbol)[i] == symbol <==> i == id
  {
    DistinctNoRepeats(Gather(facts, Symbol()));
  }
}
