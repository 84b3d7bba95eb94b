/** Searching by name (crates/symbol-index/src/lib.rs:679-749). The table is visited in
    no particular order of its names. */
module Search {
  import opened Definitions
  import opened Buckets
  import opened ShardRows
  import opened IndexTables
  import opened IndexContents
  import opened SearchOrder
  import opened TopHits
  import opened Text

  predicate Contains(name: string, needle: string) {
    exists i: nat :: i <= |name| && needle <= name[i..]
  }

  /** The needle stands somewhere in the name, with anything before and after it. */
  lemma ContainsSomewhere(name: string, needle: string)
    ensures Contains(name, needle) <==> exists a, b :: name == a + needle + b
  {
    if Contains(name, needle) {
      var i: nat :| i <= |name| && needle <= name[i..];
      assert name == name[..i] + needle + name[i + |needle|..];
    }
    if a, b :| name == a + needle + b {
      assert name[|a|..] == needle + b;
    }
  }

  /** The hits of a search, without its own words. */
  lemma HitsContain(c: Contents, lower: string -> string, needle: string, wanted: Definition -> bool)
    ensures Hits(c, lower, needle, wanted)
            == set i: nat | i < |c.definitions| && wanted(c.definitions[i])
                            && exists a, b :: lower(c.definitions[i].name) == a + needle + b
  {
    hide Contains;
    forall i: nat | i < |c.definitions|
      ensures Contains(lower(c.definitions[i].name), needle)
              <==> exists a, b :: lower(c.definitions[i].name) == a + needle + b
    {
      ContainsSomewhere(lower(c.definitions[i].name), needle);
    }
  }

  function KeyOf(c: Contents, lower: string -> string, needle: string): KeyAt {
    (i: nat) =>
      if i < |c.definitions| then
        var def := c.definitions[i];
        SearchKey(Rank(lower(def.name), needle), def.name, def.path, def.symbol)
      else SearchKey(0, "", "", "")
  }

  /** `a` may stand before `b` in the results: it is no worse a match, and among equally good
      ones no longer, and after that not later by name, path and symbol. */
  ghost predicate MayPrecede(lower: string -> string, needle: string, a: Definition, b: Definition) {
    var x, y := lower(a.name), lower(b.name);
    && (y == needle ==> x == needle)
    && (x != needle && needle <= y ==> needle <= x)
    && ((x == needle <==> y == needle) && (needle <= x <==> needle <= y) ==> NoLonger(a, b))
  }

  ghost predicate NoLonger(a: Definition, b: Definition) {
    && Units(a.name, Utf8) <= Units(b.name, Utf8)
    && (Units(a.name, Utf8) == Units(b.name, Utf8) ==>
          && !StringLess(b.name, a.name)
          && (a.name == b.name ==> !StringLess(b.path, a.path))
          && (a.name == b.name && a.path == b.path ==> !StringLess(b.symbol, a.symbol)))
  }

  lemma KeysPrecede(c: Contents, lower: string -> string, needle: string, i: nat, j: nat)
    requires i < |c.definitions| && j < |c.definitions|
    ensures var key := KeyOf(c, lower, needle);
            !Less(key(j), key(i)) <==> MayPrecede(lower, needle, c.definitions[i], c.definitions[j])
  {
    hide Units, StringLess;
    StringOrders(c.definitions[i].name, c.definitions[j].name, "");
    StringOrders(c.definitions[i].path, c.definitions[j].path, "");
  }

  /** No result may stand before an earlier one. */
  ghost predicate Ordered(c: Contents, lower: string -> string, needle: string, results: seq<nat>) {
    && (forall i :: 0 <= i < |results| ==> results[i] < |c.definitions|)
    && (forall i, j :: 0 <= i < j < |results| ==>
          MayPrecede(lower, needle, c.definitions[results[i]], c.definitions[results[j]]))
  }

  lemma SortedIsOrdered(c: Contents, lower: string -> string, needle: string, results: seq<nat>)
    requires Sorted(results, KeyOf(c, lower, needle)) && forall i :: 0 <= i < |results| ==> results[i] < |c.definitions|
    ensures Ordered(c, lower, needle, results)
  {
    hide Less, KeyOf, MayPrecede;
    forall i, j | 0 <= i < j < |results|
      ensures MayPrecede(lower, needle, c.definitions[results[i]], c.definitions[results[j]])
    {
      KeysPrecede(c, lower, needle, results[i], results[j]);
    }
  }

  predicate IsHit(c: Contents, lower: string -> string, needle: string, wanted: Definition -> bool, i: nat) {
    i < |c.definitions| && Contains(lower(c.definitions[i].name), needle) && wanted(c.definitions[i])
  }

  /** A scan of all definitions. */
  function Hits(c: Contents, lower: string -> string, needle: string, wanted: Definition -> bool): set<nat> {
    set i: nat | i < |c.definitions| && IsHit(c, lower, needle, wanted, i)
  }

  lemma NameBucket(c: Contents, lower: string -> string, name: string)
    requires Tabulates(c.byName, Keys(c.definitions, ByName, lower))
    ensures forall i: nat :: i in Get(c.byName, name) <==> i < |c.definitions| && lower(c.definitions[i].name) == name
    ensures Increasing(Get(c.byName, name))
  {
    hide Scan;
    var rows := Keys(c.definitions, ByName, lower);
    ScanIncreases(rows, name);
    forall i: nat
      ensures i in Get(c.byName, name) <==> i < |c.definitions| && lower(c.definitions[i].name) == name
    {
      ScanHolds(rows, name, i);
      assert i < |c.definitions| ==> rows[i] == [lower(c.definitions[i].name)];
    }
  }

  /** The hits among the definitions with these names. */
  ghost function HitsUnder(c: Contents, lower: string -> string, needle: string, wanted: Definition -> bool,
                           names: set<string>): set<nat> {
    set i: nat | i < |c.definitions| && IsHit(c, lower, needle, wanted, i) && lower(c.definitions[i].name) in names
  }

  lemma AllNames(c: Contents, lower: string -> string, needle: string, wanted: Definition -> bool)
    requires Tabulates(c.byName, Keys(c.definitions, ByName, lower))
    ensures HitsUnder(c, lower, needle, wanted, c.byName.Keys) == Hits(c, lower, needle, wanted)
  {
    hide IsHit;
    forall i: nat | i < |c.definitions|
      ensures lower(c.definitions[i].name) in c.byName
    {
      NameBucket(c, lower, lower(c.definitions[i].name));
    }
  }

  function Included(c: Contents, bucket: seq<nat>, wanted: Definition -> bool): set<nat> {
    set i | i in bucket && i < |c.definitions| && wanted(c.definitions[i])
  }

  /** One name's hits are its bucket, filtered, or nothing. */
  lemma OneName(c: Contents, lower: string -> string, needle: string, wanted: Definition -> bool,
                names: set<string>, name: string)
    requires Tabulates(c.byName, Keys(c.definitions, ByName, lower))
    ensures var bucket := Get(c.byName, name);
            HitsUnder(c, lower, needle, wanted, names + {name})
            == HitsUnder(c, lower, needle, wanted, names)
               + if Contains(name, needle) then Included(c, bucket, wanted) else {}
  {
    hide Tabulates, Contains;
    NameBucket(c, lower, name);
  }

  function Everything(): Definition -> bool {
    (_: Definition) => true
  }

  lemma NamesTabulated(c: Contents, lower: string -> string, facts: seq<Fact>)
    requires Describes(c, lower, facts)
    ensures Tabulates(c.byName, Keys(c.definitions, ByName, lower))
  {
    hide Tabulates, Keys, DefinitionsOf, Sited, NoTwins, Listed, Occurring, Numbers;
  }

  /** `search`. */
  method SearchAll(c: Contents, ghost facts: seq<Fact>, lower: string -> string, query: string)
    returns (hits: seq<nat>)
    requires Describes(c, lower, facts)
    ensures query == "" ==> hits == []
    ensures query != "" ==>
              Enumerates(hits, Hits(c, lower, lower(query), Everything()), KeyOf(c, lower, lower(query)))
    ensures query != "" ==>
              forall i: nat :: i in hits <==>
                i < |c.definitions| && exists a, b :: lower(c.definitions[i].name) == a + lower(query) + b
    ensures query != "" ==> Ordered(c, lower, lower(query), hits)
  {
    hide *;
    if query == "" {
      return [];
    }
    var needle := lower(query);
    var found: set<nat> := {};
    var rest := c.byName.Keys;
    ghost var done: set<string> := {};
    NamesTabulated(c, lower, facts);
    NoName(c, lower, needle, Everything());
    while rest != {}
      invariant done + rest == c.byName.Keys
      invariant found == HitsUnder(c, lower, needle, Everything(), done)
      decreases |rest|
    {
      var name :| name in rest;
      OneName(c, lower, needle, Everything(), done, name);
      rest, done := rest - {name}, done + {name};
      if Contains(name, needle) {
        found := found + Included(c, Get(c.byName, name), Everything());
      }
    }
    AllNames(c, lower, needle, Everything());
    hits := SortHits(found, KeyOf(c, lower, needle));
    AllContain(c, lower, needle, hits);
  }

  lemma AllContain(c: Contents, lower: string -> string, needle: string, hits: seq<nat>)
    requires Enumerates(hits, Hits(c, lower, needle, Everything()), KeyOf(c, lower, needle))
    ensures forall i: nat :: i in hits <==>
              i < |c.definitions| && exists a, b :: lower(c.definitions[i].name) == a + needle + b
    ensures Ordered(c, lower, needle, hits)
  {
    hide Hits, KeyOf, Sorted, Ordered;
    HitsContain(c, lower, needle, Everything());
    forall i | 0 <= i < |hits|
      ensures hits[i] < |c.definitions|
    {
      assert hits[i] in hits;
    }
    SortedIsOrdered(c, lower, needle, hits);
  }

  lemma NoName(c: Contents, lower: string -> string, needle: string, wanted: Definition -> bool)
    ensures HitsUnder(c, lower, needle, wanted, {}) == {}
  {
  }

  /** The results are, in order, the `limit` least of all candidates. */
  ghost predicate AreLeast(results: seq<nat>, all: set<nat>, limit: nat, key: KeyAt) {
    exists best :: KeepsLeast(best, all, limit, key) && Enumerates(results, best, key)
  }

  /** The bounded search has met the candidates `seen`. */
  ghost predicate Tallies(best: set<nat>, total: nat, seen: set<nat>, limit: nat, key: KeyAt) {
    KeepsLeast(best, seen, limit, key) && total == |seen|
  }

  /** One definition of the bounded search. */
  method OfferOne(c: Contents, key: KeyAt, wanted: Definition -> bool, limit: nat, idx: nat,
                  already: set<nat>, before: nat, ghost seen: set<nat>)
    returns (best: set<nat>, total: nat)
    requires idx < |c.definitions| && idx !in seen && Tallies(already, before, seen, limit, key)
    ensures Tallies(best, total, if wanted(c.definitions[idx]) then seen + {idx} else seen, limit, key)
  {
    hide KeepsLeast;
    best, total := already, before;
    if !wanted(c.definitions[idx]) {
      return;
    }
    total := total + 1;
    if limit == 0 {
      KeepsNothing(best, seen, key, idx);
    } else {
      best := Consider(best, seen, limit, key, idx);
    }
  }

  /** One bucket of the bounded search. */
  method OfferBucket(c: Contents, key: KeyAt, wanted: Definition -> bool, limit: nat, bucket: seq<nat>,
                     already: set<nat>, before: nat, ghost seen: set<nat>)
    returns (best: set<nat>, total: nat)
    requires Increasing(bucket) && (forall i :: i in bucket ==> i < |c.definitions| && i !in seen)
    requires Tallies(already, before, seen, limit, key)
    ensures Tallies(best, total, seen + Included(c, bucket, wanted), limit, key)
  {
    hide *;
    best, total := already, before;
    ghost var now := seen;
    NoneIncluded(c, bucket, wanted);
    for j := 0 to |bucket|
      invariant now == seen + Included(c, bucket[..j], wanted)
      invariant Tallies(best, total, now, limit, key)
    {
      var idx := bucket[j];
      assert idx in bucket;
      IncludedOne(c, bucket, wanted, j);
      best, total := OfferOne(c, key, wanted, limit, idx, best, total, now);
      now := if wanted(c.definitions[idx]) then now + {idx} else now;
    }
    assert bucket[..|bucket|] == bucket;
  }

  lemma NoneIncluded(c: Contents, bucket: seq<nat>, wanted: Definition -> bool)
    ensures Included(c, bucket[..0], wanted) == {}
  {
  }

  lemma IncludedOne(c: Contents, bucket: seq<nat>, wanted: Definition -> bool, j: nat)
    requires Increasing(bucket) && j < |bucket| && bucket[j] < |c.definitions|
    ensures bucket[j] !in Included(c, bucket[..j], wanted)
    ensures Included(c, bucket[..j + 1], wanted)
            == Included(c, bucket[..j], wanted) + if wanted(c.definitions[bucket[j]]) then {bucket[j]} else {}
  {
    assert bucket[..j + 1] == bucket[..j] + [bucket[j]];
  }

  lemma KeepsNothing(best: set<nat>, seen: set<nat>, key: KeyAt, idx: nat)
    requires KeepsLeast(best, seen, 0, key)
    ensures KeepsLeast(best, seen + {idx}, 0, key)
  {
    assert best == {};
  }

  lemma NothingSeen(limit: nat, key: KeyAt)
    ensures Tallies({}, 0, {}, limit, key)
  {
  }

  /** One name of the bounded search. */
  method OfferName(c: Contents, ghost lower: string -> string, needle: string, key: KeyAt,
                   wanted: Definition -> bool, limit: nat,
                   name: string, already: set<nat>, before: nat, ghost done: set<string>)
    returns (best: set<nat>, total: nat)
    requires Tabulates(c.byName, Keys(c.definitions, ByName, lower)) && name !in done
    requires Tallies(already, before, HitsUnder(c, lower, needle, wanted, done), limit, key)
    ensures Tallies(best, total, HitsUnder(c, lower, needle, wanted, done + {name}), limit, key)
  {
    hide *;
    OneName(c, lower, needle, wanted, done, name);
    if !Contains(name, needle) {
      assert HitsUnder(c, lower, needle, wanted, done + {name}) == HitsUnder(c, lower, needle, wanted, done);
      return already, before;
    }
    NameBucket(c, lower, name);
    NotYet(c, lower, needle, wanted, done, name);
    best, total := OfferBucket(c, key, wanted, limit, Get(c.byName, name), already, before,
                               HitsUnder(c, lower, needle, wanted, done));
  }

  /** `search_limited`: keeps the best `limit` of the included hits and counts them all. */
  method SearchLimited(c: Contents, ghost facts: seq<Fact>, lower: string -> string, query: string, limit: nat,
                       wanted: Definition -> bool)
    returns (results: seq<nat>, total: nat)
    requires Describes(c, lower, facts)
    ensures query == "" ==> results == [] && total == 0
    ensures query != "" ==>
              var all, key := Hits(c, lower, lower(query), wanted), KeyOf(c, lower, lower(query));
              total == |all| && AreLeast(results, all, limit, key)
    ensures query != "" ==>
              var all := set i: nat | i < |c.definitions| && wanted(c.definitions[i])
                                      && exists a, b :: lower(c.definitions[i].name) == a + lower(query) + b;
              && total == |all| && Ordered(c, lower, lower(query), results)
              && (forall i :: i in results ==> i in all)
              && forall i, j :: i in results && j in all && j !in results ==>
                   MayPrecede(lower, lower(query), c.definitions[i], c.definitions[j])
  {
    hide *;
    if query == "" {
      return [], 0;
    }
    var needle := lower(query);
    var key := KeyOf(c, lower, needle);
    var best: set<nat> := {};
    total := 0;
    var rest := c.byName.Keys;
    ghost var done: set<string> := {};
    NamesTabulated(c, lower, facts);
    NoName(c, lower, needle, wanted);
    NothingSeen(limit, key);
    while rest != {}
      invariant done + rest == c.byName.Keys && forall n :: n in done ==> n !in rest
      invariant Tallies(best, total, HitsUnder(c, lower, needle, wanted, done), limit, key)
      decreases |rest|
    {
      var name :| name in rest;
      best, total := OfferName(c, lower, needle, key, wanted, limit, name, best, total, done);
      rest, done := rest - {name}, done + {name};
    }
    AllNames(c, lower, needle, wanted);
    assert done == c.byName.Keys;
    results := SortHits(best, key);
    Tallied(results, best, total, Hits(c, lower, needle, wanted), limit, key);
    HitsContain(c, lower, needle, wanted);
    LeastMayPrecede(c, lower, needle, results, Hits(c, lower, needle, wanted), limit);
  }

  lemma LeastMayPrecede(c: Contents, lower: string -> string, needle: string, results: seq<nat>, all: set<nat>,
                        limit: nat)
    requires AreLeast(results, all, limit, KeyOf(c, lower, needle))
    requires forall i :: i in all ==> i < |c.definitions|
    ensures Ordered(c, lower, needle, results)
    ensures forall i, j :: i in results && j in all && j !in results ==>
              MayPrecede(lower, needle, c.definitions[i], c.definitions[j])
  {
    hide Less, KeyOf, MayPrecede, Ordered, Sorted;
    var best :| KeepsLeast(best, all, limit, KeyOf(c, lower, needle)) && Enumerates(results, best, KeyOf(c, lower, needle));
    forall i | 0 <= i < |results|
      ensures results[i] < |c.definitions|
    {
      assert results[i] in results;
    }
    SortedIsOrdered(c, lower, needle, results);
    forall i, j | i in results && j in all && j !in results
      ensures MayPrecede(lower, needle, c.definitions[i], c.definitions[j])
    {
      KeysPrecede(c, lower, needle, i, j);
    }
  }

  lemma Tallied(results: seq<nat>, best: set<nat>, total: nat, all: set<nat>, limit: nat, key: KeyAt)
    requires Tallies(best, total, all, limit, key) && Enumerates(results, best, key)
    ensures total == |all| && AreLeast(results, all, limit, key)
    ensures forall i :: i in results ==> i in all
  {
  }

  lemma NotYet(c: Contents, lower: string -> string, needle: string, wanted: Definition -> bool,
               names: set<string>, name: string)
    requires name !in names
    ensures forall i: nat :: i < |c.definitions| && lower(c.definitions[i].name) == name ==> i !in HitsUnder(c, lower, needle, wanted, names)
  {
  }

  function Filter(c: Contents, hits: seq<nat>, wanted: Definition -> bool): seq<nat> {
    if hits == [] then []
    else
      var last := hits[|hits| - 1];
      Filter(c, hits[..|hits| - 1], wanted)
      + if last < |c.definitions| && wanted(c.definitions[last]) then [last] else []
  }

  lemma {:induction false} FilterHolds(c: Contents, hits: seq<nat>, wanted: Definition -> bool, x: nat)
    ensures x in Filter(c, hits, wanted) <==> x in hits && x < |c.definitions| && wanted(c.definitions[x])
  {
    if hits != [] {
      FilterHolds(c, hits[..|hits| - 1], wanted, x);
      assert hits == hits[..|hits| - 1] + [hits[|hits| - 1]];
    }
  }

  /** Leaving results out keeps the others in order. */
  lemma {:induction false} FilterKeepsOrder(c: Contents, hits: seq<nat>, wanted: Definition -> bool, key: KeyAt)
    requires Sorted(hits, key) && forall i, j :: 0 <= i < j < |hits| ==> hits[i] != hits[j]
    ensures Sorted(Filter(c, hits, wanted), key)
    ensures var f := Filter(c, hits, wanted); forall i, j :: 0 <= i < j < |f| ==> f[i] != f[j]
  {
    hide Less;
    if hits != [] {
      var front, last := hits[..|hits| - 1], hits[|hits| - 1];
      FilterKeepsOrder(c, front, wanted, key);
      var kept := Filter(c, front, wanted);
      forall i | 0 <= i < |kept|
        ensures kept[i] != last && !Less(key(last), key(kept[i]))
      {
        assert kept[i] in kept;
        FilterHolds(c, front, wanted, kept[i]);
        var k :| 0 <= k < |front| && front[k] == kept[i];
        assert hits[k] == kept[i];
      }
    }
  }

  /** The bounded search returns, up to the choice among equal keys, the first `limit`
      of what the full search finds and the caller includes. */
  lemma LimitedIsFirst(c: Contents, lower: string -> string, query: string, limit: nat, wanted: Definition -> bool,
                       full: seq<nat>, results: seq<nat>)
    requires Enumerates(full, Hits(c, lower, lower(query), Everything()), KeyOf(c, lower, lower(query)))
    requires AreLeast(results, Hits(c, lower, lower(query), wanted), limit, KeyOf(c, lower, lower(query)))
    ensures var key, included := KeyOf(c, lower, lower(query)), Filter(c, full, wanted);
            && |results| == (if |included| <= limit then |included| else limit)
            && KeySeq(results, key) == KeySeq(included[..|results|], key)
  {
    hide Less, KeyOf, Contains;
    var key, included, all := KeyOf(c, lower, lower(query)), Filter(c, full, wanted), Hits(c, lower, lower(query), wanted);
    FilterKeepsOrder(c, full, wanted, key);
    forall x
      ensures x in included <==> x in all
    {
      FilterHolds(c, full, wanted, x);
    }
    DistinctCount(included, all);
    var best :| KeepsLeast(best, all, limit, key) && Enumerates(results, best, key);
    KeptAreFirst(results, best, included, all, limit, key);
  }

  lemma {:induction false} DistinctCount(s: seq<nat>, all: set<nat>)
    requires Lists(s, all)
    ensures |s| == |all|
  {
    if s == [] {
      assert forall x :: x in all ==> x in s;
      assert all == {};
    } else {
      ListsFront(s, all);
      DistinctCount(s[..|s| - 1], all - {s[|s| - 1]});
    }
  }
}
