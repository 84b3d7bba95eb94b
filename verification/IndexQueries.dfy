/** Looking things up in the index (crates/symbol-index/src/lib.rs:751-878, 899-942). */
module IndexQueries {
  import opened Wrappers
  import opened Ranges
  import opened Definitions
  import opened Repeats
  import opened Buckets
  import opened Occurrences
  import opened ShardRows
  import opened IndexTables
  import opened IndexContents
  import opened SymbolIndexes
  import SpanConversion

  /** SCIP ranges start no later than they end. */
  ghost predicate RangesWellFormed(facts: seq<Fact>) {
    forall f :: f in facts ==> WellFormed(f.range)
  }

  // ---- the symbol under a cursor ----

  /** `symbol_at`: the symbol of the covering occurrence of least size. */
  method SymbolAt(index: SymbolIndex, path: string, line: nat, col: nat) returns (symbol: Option<string>)
    requires index.Valid()
    ensures symbol.None? ==> Narrowest(Placed(index.occurrences, path), line, col, None)
    ensures symbol.Some? ==>
              exists b: nat :: NarrowestIs(Placed(index.occurrences, path), index.symbolNames, line, col, b, symbol.value)
    ensures symbol.Some? <==> exists f :: f in index.facts && f.path == path && Covers(f.range, line, col)
  {
    var list := Placed(index.occurrences, path);
    PlacesHold(index, path);
    hide SymbolIndexes.SymbolIndex.Valid, Narrowest, StrictlySorted;
    var best := FindNarrowest(list, line, col);
    NarrowestFindsAny(list, index.symbolNames, index.facts, path, line, col, best);
    match best
    case None => symbol := None;
    case Some(b) =>
      symbol := Some(index.symbolNames[list[b].symbol]);
      assert NarrowestIs(list, index.symbolNames, line, col, b, symbol.value);
  }

  ghost predicate NarrowestIs(list: seq<Occurrence>, names: seq<string>, line: nat, col: nat, b: nat,
                              symbol: string) {
    && Narrowest(list, line, col, Some(b))
    && list[b].symbol < |names| && names[list[b].symbol] == symbol
  }

  lemma PlacesHold(index: SymbolIndex, path: string)
    requires index.Valid()
    ensures Holds(Placed(index.occurrences, path), index.symbolNames, index.facts, path, false)
    ensures StrictlySorted(Placed(index.occurrences, path))
  {
    hide DefinitionsOf, Gather, Distinct, Derived, Numbers, Listed, Seen, StrictlySorted;
    assert Holds(Placed(index.occurrences, path), index.symbolNames, index.facts, path, Some(path) == None);
  }

  lemma NarrowestFindsAny(list: seq<Occurrence>, names: seq<string>, facts: seq<Fact>, path: string,
                          line: nat, col: nat, best: Option<nat>)
    requires Holds(list, names, facts, path, false) && Narrowest(list, line, col, best)
    requires names == Distinct(Gather(facts, Symbol()))
    ensures best.Some? <==> exists f :: f in facts && f.path == path && Covers(f.range, line, col)
    ensures best.Some? ==> best.value < |list| && list[best.value].symbol < |names|
  {
    hide Distinct, Gather, StrictlySorted;
    if best.Some? {
      var o := list[best.value];
      assert o in list && Seen(facts, path, o.range, names[o.symbol]);
      var i :| 0 <= i < |facts| && facts[i].path == path && facts[i].range == o.range && facts[i].symbol == names[o.symbol];
      assert facts[i] in facts;
    }
    if f :| f in facts && f.path == path && Covers(f.range, line, col) {
      var o := SeenIsPlaced(list, names, facts, path, f);
      var k :| 0 <= k < |list| && list[k] == o;
      assert Under(list[k], line, col);
    }
  }

  lemma SeenIsPlaced(list: seq<Occurrence>, names: seq<string>, facts: seq<Fact>, path: string, f: Fact)
    returns (o: Occurrence)
    requires Holds(list, names, facts, path, false) && names == Distinct(Gather(facts, Symbol()))
    requires f in facts && f.path == path
    ensures o in list && o.range == f.range && o.symbol < |names| && names[o.symbol] == f.symbol
  {
    hide Distinct, Gather, StrictlySorted;
    var i :| 0 <= i < |facts| && facts[i] == f;
    assert Seen(facts, path, f.range, f.symbol);
    SeenIsNamed(facts, path, f.range, f.symbol);
    var id :| 0 <= id < |names| && names[id] == f.symbol;
    o := Occurrence(f.range, id);
  }

  // ---- the innermost callable ----

  /** A callable of the file whose declaration contains the range. */
  predicate Surrounds(def: Definition, range: Range) {
    IsCallable(def) && Scopes(def, range)
  }

  function Size(def: Definition, range: Range): nat
    requires Surrounds(def, range) && WellFormed(range)
  {
    SpanLen(def.enclosing.value)
  }

  function Smaller(defs: seq<Definition>, range: Range, best: Option<nat>, i: nat): Option<nat>
    requires WellFormed(range) && i < |defs|
    requires best.Some? ==> best.value < |defs| && Surrounds(defs[best.value], range)
  {
    if Surrounds(defs[i], range) && (best == None || Size(defs[i], range) < Size(defs[best.value], range))
    then Some(i) else best
  }

  /** `min_by_key` over one file's definitions: the first of the smallest. */
  function Smallest(defs: seq<Definition>, sites: seq<nat>, range: Range): (best: Option<nat>)
    requires WellFormed(range) && forall j :: 0 <= j < |sites| ==> sites[j] < |defs|
    ensures best.Some? ==> best.value < |defs| && Surrounds(defs[best.value], range)
  {
    if sites == [] then None
    else
      Smaller(defs, range, Smallest(defs, sites[..|sites| - 1], range), sites[|sites| - 1])
  }

  /** Against a scan of every definition: the smallest declaration around `range` in
      its file, the one declared first when several are equally small. */
  ghost predicate Innermost(defs: seq<Definition>, path: string, range: Range, best: Option<nat>)
    requires WellFormed(range)
  {
    match best
    case None => forall i :: 0 <= i < |defs| && defs[i].path == path ==> !Surrounds(defs[i], range)
    case Some(b) =>
      && b < |defs| && defs[b].path == path && Surrounds(defs[b], range)
      && (forall i :: 0 <= i < |defs| && defs[i].path == path && Surrounds(defs[i], range) ==>
            Size(defs[b], range) <= Size(defs[i], range) && (i < b ==> Size(defs[b], range) < Size(defs[i], range)))
  }

  ghost predicate SmallestOf(defs: seq<Definition>, sites: seq<nat>, range: Range, best: Option<nat>)
    requires WellFormed(range) && forall j :: 0 <= j < |sites| ==> sites[j] < |defs|
  {
    match best
    case None => forall j :: 0 <= j < |sites| ==> !Surrounds(defs[sites[j]], range)
    case Some(b) =>
      && b in sites && b < |defs| && Surrounds(defs[b], range)
      && (forall j :: 0 <= j < |sites| && Surrounds(defs[sites[j]], range) ==>
            Size(defs[b], range) <= Size(defs[sites[j]], range)
            && (sites[j] < b ==> Size(defs[b], range) < Size(defs[sites[j]], range)))
  }

  lemma SmallestSnoc(defs: seq<Definition>, sites: seq<nat>, range: Range, best: Option<nat>, i: nat)
    requires WellFormed(range) && i < |defs| && forall j :: 0 <= j < |sites| ==> sites[j] < |defs|
    requires SmallestOf(defs, sites, range, best) && forall j :: 0 <= j < |sites| ==> sites[j] < i
    ensures SmallestOf(defs, sites + [i], range, Smaller(defs, range, best, i))
  {
    hide Size, Surrounds;
    assert forall j :: 0 <= j < |sites| ==> (sites + [i])[j] == sites[j];
    if best.Some? {
      assert best.value in sites + [i];
    }
    assert i in sites + [i];
  }

  lemma {:induction false} SmallestIs(defs: seq<Definition>, sites: seq<nat>, range: Range)
    requires WellFormed(range) && Increasing(sites) && forall j :: 0 <= j < |sites| ==> sites[j] < |defs|
    ensures SmallestOf(defs, sites, range, Smallest(defs, sites, range))
  {
    hide Size, Surrounds, Smaller, SmallestOf;
    if sites == [] {
      NoneSmallest(defs, range);
    } else {
      var front := sites[..|sites| - 1];
      SmallestIs(defs, front, range);
      assert sites == front + [sites[|sites| - 1]];
      SmallestSnoc(defs, front, range, Smallest(defs, front, range), sites[|sites| - 1]);
    }
  }

  lemma NoneSmallest(defs: seq<Definition>, range: Range)
    requires WellFormed(range)
    ensures SmallestOf(defs, [], range, None)
  {
  }

  function EnclosingCallable(c: Contents, path: string, range: Range): Option<nat>
    requires WellFormed(range) && SitesInRange(c, path)
  {
    Smallest(c.definitions, Get(c.byPath, path), range)
  }

  predicate SitesInRange(c: Contents, path: string) {
    forall j :: 0 <= j < |Get(c.byPath, path)| ==> Get(c.byPath, path)[j] < |c.definitions|
  }

  /** What `Describes` says of a file's definitions. */
  lemma FileSites(c: Contents, lower: string -> string, facts: seq<Fact>, path: string)
    requires Describes(c, lower, facts)
    ensures SitesInRange(c, path) && Increasing(Get(c.byPath, path))
    ensures forall j :: 0 <= j < |Get(c.byPath, path)| ==> c.definitions[Get(c.byPath, path)[j]].path == path
    ensures forall i :: 0 <= i < |c.definitions| && c.definitions[i].path == path ==> i in Get(c.byPath, path)
  {
    hide Tabulates, Keys, DefinitionsOf, Gather, Distinct, Numbers, Listed, Occurring, Sited, NoTwins;
    PathBucket(c.definitions, c.byPath, lower, path);
  }

  /** `enclosing_callable` finds the innermost callable by size. */
  lemma EnclosingCallableIsInnermost(c: Contents, lower: string -> string, facts: seq<Fact>, path: string,
                                     range: Range)
    requires Describes(c, lower, facts) && WellFormed(range)
    ensures SitesInRange(c, path) && Innermost(c.definitions, path, range, EnclosingCallable(c, path, range))
  {
    hide Describes, Size, Surrounds, Smallest;
    FileSites(c, lower, facts, path);
    var sites := Get(c.byPath, path);
    SmallestIs(c.definitions, sites, range);
    var best := Smallest(c.definitions, sites, range);
    forall i | 0 <= i < |c.definitions| && c.definitions[i].path == path
      ensures exists j :: 0 <= j < |sites| && sites[j] == i
    {
      assert i in sites;
    }
    if best.Some? {
      var j :| 0 <= j < |sites| && sites[j] == best.value;
    }
  }

  /** The shapes of two declarations, one in the other, of which the outer one is found:
      the comparison of sizes cannot tell them apart. */
  lemma InnermostUnlessTied(defs: seq<Definition>, path: string, range: Range, b: nat, i: nat)
    requires WellFormed(range) && Innermost(defs, path, range, Some(b))
    requires i < |defs| && defs[i].path == path && Surrounds(defs[i], range)
    requires FitsU32(defs[b].enclosing.value) && FitsU32(defs[i].enclosing.value)
    requires Encloses(defs[b].enclosing.value, defs[i].enclosing.value)
    ensures var outer, inner := defs[b].enclosing.value, defs[i].enclosing.value;
            && b <= i
            && (|| inner == outer
                || (inner.startLine == outer.startLine && inner.endLine == outer.endLine && outer.endCol <= outer.startCol)
                || (inner.endLine - inner.startLine + 1 == outer.endLine - outer.startLine
                    && Cols(inner) == MAX_U32 && Cols(outer) == 0))
  {
    hide SpanLen;
    SpanLenUnderEncloses(defs[b].enclosing.value, defs[i].enclosing.value);
  }

  /** A callable lies strictly inside the one found, around the same range. */
  predicate PassedOver(defs: seq<Definition>, path: string, range: Range, b: nat, i: nat)
    requires b < |defs| && i < |defs| && Surrounds(defs[b], range)
  {
    && defs[i].path == path && Surrounds(defs[i], range)
    && StrictlyInside(defs[b].enclosing.value, defs[i].enclosing.value)
  }

  /** What the source promises of one range: the callable found is an innermost one. */
  ghost predicate InnermostFor(c: Contents, path: string, range: Range)
    requires WellFormed(range) && SitesInRange(c, path)
  {
    var best := EnclosingCallable(c, path, range);
    best.Some? ==> forall i :: 0 <= i < |c.definitions| ==> !PassedOver(c.definitions, path, range, best.value, i)
  }

  /** A callable of the file with a declaration that can contain something. */
  predicate Declares(defs: seq<Definition>, path: string, i: nat) {
    && i < |defs| && defs[i].path == path && IsCallable(defs[i])
    && defs[i].enclosing.Some? && defs[i].enclosing.value.startLine <= defs[i].enclosing.value.endLine
  }

  /** The declaration of `j` contains that of `i` and compares as equally long. */
  predicate TiedAround(defs: seq<Definition>, path: string, i: nat, j: nat) {
    && Declares(defs, path, i) && Declares(defs, path, j)
    && Encloses(defs[j].enclosing.value, defs[i].enclosing.value)
    && SpanLen(defs[j].enclosing.value) == SpanLen(defs[i].enclosing.value)
  }

  ghost predicate FirstTiedAround(defs: seq<Definition>, path: string, i: nat, j: nat) {
    TiedAround(defs, path, i, j) && forall k :: 0 <= k < j ==> !TiedAround(defs, path, i, k)
  }

  /** A test of the file's declarations: the first declared of those that tie around
      another has that one's own span. */
  ghost predicate TiesAreHarmless(defs: seq<Definition>, path: string) {
    forall i: nat, j: nat :: FirstTiedAround(defs, path, i, j) ==> SameSpan(defs, i, j)
  }

  /** Equal declarations; one that ends before it starts contains nothing to find. */
  predicate SameSpan(defs: seq<Definition>, i: nat, j: nat) {
    i < |defs| && j < |defs| && defs[i].enclosing.Some? &&
    (WellFormed(defs[i].enclosing.value) ==> defs[j].enclosing == defs[i].enclosing)
  }

  ghost predicate SpansFitU32(defs: seq<Definition>) {
    forall i :: 0 <= i < |defs| && defs[i].enclosing.Some? ==> FitsU32(defs[i].enclosing.value)
  }

  /** `enclosing_callable` finds an innermost callable for every range exactly when the
      file's declarations pass the test. */
  lemma InnermostExactly(c: Contents, lower: string -> string, facts: seq<Fact>, path: string)
    requires Describes(c, lower, facts) && SpansFitU32(c.definitions)
    ensures SitesInRange(c, path)
    ensures (forall range :: WellFormed(range) ==> InnermostFor(c, path, range)) <==> TiesAreHarmless(c.definitions, path)
  {
    hide Describes, SitesInRange, Innermost, EnclosingCallable, FirstTiedAround;
    FileSites(c, lower, facts, path);
    if forall range :: WellFormed(range) ==> InnermostFor(c, path, range) {
      forall i: nat, j: nat | FirstTiedAround(c.definitions, path, i, j)
        ensures SameSpan(c.definitions, i, j)
      {
        TiedDeclare(c.definitions, path, i, j);
        var range := c.definitions[i].enclosing.value;
        if WellFormed(range) {
          EnclosingCallableIsInnermost(c, lower, facts, path, range);
          assert InnermostFor(c, path, range);
          FirstTiedIsFound(c.definitions, path, i, j, EnclosingCallable(c, path, range));
        }
      }
    }
    if TiesAreHarmless(c.definitions, path) {
      forall range | WellFormed(range)
        ensures InnermostFor(c, path, range)
      {
        EnclosingCallableIsInnermost(c, lower, facts, path, range);
        if !InnermostFor(c, path, range) {
          MissIsHarmful(c, path, range);
        }
      }
    }
  }

  lemma TiedDeclare(defs: seq<Definition>, path: string, i: nat, j: nat)
    requires FirstTiedAround(defs, path, i, j)
    ensures TiedAround(defs, path, i, j)
  {
    hide TiedAround;
  }

  /** Asked for a whole declaration, the look-up finds the first one tied around it. */
  lemma FirstTiedIsFound(defs: seq<Definition>, path: string, i: nat, j: nat, best: Option<nat>)
    requires SpansFitU32(defs) && FirstTiedAround(defs, path, i, j) && WellFormed(defs[i].enclosing.value)
    requires Innermost(defs, path, defs[i].enclosing.value, best)
    ensures best == Some(j)
    ensures Surrounds(defs[j], defs[i].enclosing.value)
    ensures PassedOver(defs, path, defs[i].enclosing.value, j, i) || defs[j].enclosing == defs[i].enclosing
  {
    var range := defs[i].enclosing.value;
    assert Surrounds(defs[i], range) && Surrounds(defs[j], range);
    var b := best.value;
    SpanLenUnderEncloses(defs[b].enclosing.value, range);
    hide SpanLen;
    assert TiedAround(defs, path, i, b);
  }

  /** What passes a callable over is the first declaration tied around it. */
  lemma FoundIsFirstTied(defs: seq<Definition>, path: string, range: Range, b: nat, i: nat)
    requires SpansFitU32(defs) && WellFormed(range) && Innermost(defs, path, range, Some(b)) && i < |defs|
    requires PassedOver(defs, path, range, b, i)
    ensures FirstTiedAround(defs, path, i, b) && WellFormed(defs[i].enclosing.value)
    ensures defs[b].enclosing != defs[i].enclosing
  {
    var outer, inner := defs[b].enclosing.value, defs[i].enclosing.value;
    SpanLenUnderEncloses(outer, inner);
    hide SpanLen;
    assert TiedAround(defs, path, i, b);
    forall k | 0 <= k < b
      ensures !TiedAround(defs, path, i, k)
    {
      assert TiedAround(defs, path, i, k) ==> Surrounds(defs[k], range);
    }
  }

  lemma MissIsHarmful(c: Contents, path: string, range: Range)
    requires SpansFitU32(c.definitions) && WellFormed(range) && SitesInRange(c, path)
    requires Innermost(c.definitions, path, range, EnclosingCallable(c, path, range)) && !InnermostFor(c, path, range)
    ensures !TiesAreHarmless(c.definitions, path)
  {
    hide EnclosingCallable;
    var b := EnclosingCallable(c, path, range).value;
    var i :| 0 <= i < |c.definitions| && PassedOver(c.definitions, path, range, b, i);
    hide Innermost, PassedOver, FirstTiedAround;
    FoundIsFirstTied(c.definitions, path, range, b, i);
  }

  /** Two methods of one file, the second nested in the first; their declarations tie. */
  function TiedMethods(path: string, outer: Info, inner: Info, at: Range, within: Range): seq<Fact> {
    [Fact(path, SpanConversion.ColumnsUtf16, "outer", at, ShardRows.Declares(outer)),
     Fact(path, SpanConversion.ColumnsUtf16, "inner", within, ShardRows.Declares(inner))]
  }

  /** A reference inside both is given to the outer method. */
  lemma OuterCallableIsFound(c: Contents, lower: string -> string, path: string, outer: Info, inner: Info,
                             at: Range, within: Range)
    requires outer.kind == inner.kind == Method
    requires outer.enclosing == Some(Range(0, 8, 2, 4)) && inner.enclosing == Some(Range(0, 9, 2, 3))
    requires Describes(c, lower, TiedMethods(path, outer, inner, at, within))
    ensures SitesInRange(c, path) && |c.definitions| == 2
    ensures EnclosingCallable(c, path, Range(1, 0, 1, 3)) == Some(0)
    ensures Surrounds(c.definitions[0], Range(1, 0, 1, 3)) && PassedOver(c.definitions, path, Range(1, 0, 1, 3), 0, 1)
  {
    var facts := TiedMethods(path, outer, inner, at, within);
    DefinitionsAre(c, lower, facts);
    TwoDefinitions(facts[0], facts[1]);
    hide Describes, DefinitionsOf, EnclosingCallable;
    EnclosingCallableIsInnermost(c, lower, facts, path, Range(1, 0, 1, 3));
    FirstOfTwo(c.definitions, path, EnclosingCallable(c, path, Range(1, 0, 1, 3)));
  }

  lemma DefinitionsAre(c: Contents, lower: string -> string, facts: seq<Fact>)
    requires Describes(c, lower, facts)
    ensures c.definitions == DefinitionsOf(facts)
  {
    hide DefinitionsOf, Derived, Gather, Distinct, Numbers, IndexTables.Listed, Occurring;
  }

  lemma FirstOfTwo(defs: seq<Definition>, path: string, best: Option<nat>)
    requires |defs| == 2 && defs[0].path == defs[1].path == path && IsCallable(defs[0]) && IsCallable(defs[1])
    requires defs[0].enclosing == Some(Range(0, 8, 2, 4)) && defs[1].enclosing == Some(Range(0, 9, 2, 3))
    requires Innermost(defs, path, Range(1, 0, 1, 3), best)
    ensures best == Some(0) && Surrounds(defs[0], Range(1, 0, 1, 3)) && PassedOver(defs, path, Range(1, 0, 1, 3), 0, 1)
  {
    assert Surrounds(defs[0], Range(1, 0, 1, 3)) && Surrounds(defs[1], Range(1, 0, 1, 3));
  }

  lemma TwoDefinitions(f: Fact, g: Fact)
    requires f.role.Declares? && g.role.Declares? && f.symbol != g.symbol
    ensures DefinitionsOf([f, g]) == [DefinitionOf(f), DefinitionOf(g)]
  {
    DefinitionsSnoc([], f);
    assert [] + [f] == [f] && [f] + [g] == [f, g];
    DefinitionsSnoc([f], g);
  }

  // ---- declaration sites ----

  /** `definition_sites`: the first site, then the others. */
  function DefinitionSites(c: Contents, symbol: string): seq<nat> {
    if symbol in c.bySymbol then [c.bySymbol[symbol]] + Get(c.otherDefinitionSites, symbol) else []
  }

  /** All sites of the symbol, in the order they were declared, each once. */
  lemma DefinitionSitesAreAll(c: Contents, lower: string -> string, facts: seq<Fact>, symbol: string)
    requires Describes(c, lower, facts)
    ensures Increasing(DefinitionSites(c, symbol))
    ensures forall i: nat :: i in DefinitionSites(c, symbol) <==> i < |c.definitions| && c.definitions[i].symbol == symbol
  {
    hide Tabulates, DefinitionsOf, Gather, Distinct, Numbers, Listed, Occurring, NoTwins, Scan;
    var rows := Keys(c.definitions, BySymbol, lower);
    assert DefinitionSites(c, symbol) == Scan(rows, symbol);
    ScanIncreases(rows, symbol);
    forall i: nat
      ensures i in DefinitionSites(c, symbol) <==> i < |c.definitions| && c.definitions[i].symbol == symbol
    {
      ScanHolds(rows, symbol, i);
      assert i < |c.definitions| ==> rows[i] == [c.definitions[i].symbol];
    }
  }

  /** `implementors`: the definitions that name `symbol` as what they implement, in order, each
      as often as it does. */
  lemma ImplementorsAreAll(c: Contents, lower: string -> string, facts: seq<Fact>, symbol: string)
    requires Describes(c, lower, facts)
    ensures var found := Get(c.implementors, symbol);
            && (forall a, b :: 0 <= a < b < |found| ==> found[a] <= found[b])
            && forall i: nat :: multiset(found)[i]
                                == if i < |c.definitions| then multiset(c.definitions[i].implements)[symbol] else 0
  {
    hide DefinitionsOf, Gather, Distinct, Numbers, IndexTables.Listed, Occurring, Sited, NoTwins, Scan;
    var rows := Keys(c.definitions, BySuper, lower);
    ScanInOrder(rows, symbol);
    forall i: nat
      ensures multiset(Scan(rows, symbol))[i] == if i < |rows| then multiset(rows[i])[symbol] else 0
    {
      ScanCounts(rows, symbol, i);
    }
  }

  predicate IsSite(def: Definition, symbol: string, path: string, range: Range) {
    def.symbol == symbol && def.path == path && def.range == range
  }

  /** `definition_site`: tries the first site, then the others. */
  method DefinitionSite(c: Contents, ghost lower: string -> string, ghost facts: seq<Fact>,
                        symbol: string, path: string, range: Range) returns (site: Option<nat>)
    requires Describes(c, lower, facts)
    ensures site.Some? ==> site.value < |c.definitions| && IsSite(c.definitions[site.value], symbol, path, range)
    ensures site.None? ==> forall i :: 0 <= i < |c.definitions| ==> !IsSite(c.definitions[i], symbol, path, range)
  {
    hide Describes;
    DefinitionSitesAreAll(c, lower, facts, symbol);
    if symbol !in c.bySymbol {
      return None;
    }
    ghost var all := DefinitionSites(c, symbol);
    var first := c.bySymbol[symbol];
    assert all[0] == first && first in all;
    if c.definitions[first].path == path && c.definitions[first].range == range {
      return Some(first);
    }
    var others := Get(c.otherDefinitionSites, symbol);
    for j := 0 to |others|
      invariant forall k :: 0 <= k < j ==> others[k] < |c.definitions| && !IsSite(c.definitions[others[k]], symbol, path, range)
    {
      assert all[j + 1] == others[j] && others[j] in all;
      if c.definitions[others[j]].path == path && c.definitions[others[j]].range == range {
        return Some(others[j]);
      }
    }
    site := None;
    forall i | 0 <= i < |c.definitions| && c.definitions[i].symbol == symbol
      ensures !IsSite(c.definitions[i], symbol, path, range)
    {
      assert i in all;
    }
  }

  // ---- what a span mentions ----

  /** A span of a file, and the callable site the mentions in it should belong to. */
  datatype Within = Within(path: string, span: Range, owner: Option<(string, Range)>)

  predicate BelongsElsewhere(c: Contents, w: Within, range: Range)
    requires WellFormed(range) && SitesInRange(c, w.path)
  {
    w.owner.Some? &&
    var callable := EnclosingCallable(c, w.path, range);
    callable.Some? && (c.definitions[callable.value].symbol, c.definitions[callable.value].range) != w.owner.value
  }

  /** The three tests an occurrence passes to be reported. */
  predicate Wanted(c: Contents, w: Within, o: Occurrence)
    requires SitesInRange(c, w.path)
  {
    && WellFormed(o.range) && o.symbol < |c.symbolNames|
    && Encloses(w.span, o.range)
    && !BelongsElsewhere(c, w, o.range)
    && !AnySite(c.definitions, Get(c.byPath, w.path), c.symbolNames[o.symbol], o.range)
  }

  /** An occurrence is wanted exactly when it lies in the span, no callable but the owner is
      the innermost around it, and its symbol is not declared where it stands. */
  lemma WantedExactly(c: Contents, lower: string -> string, facts: seq<Fact>, w: Within, o: Occurrence)
    requires Describes(c, lower, facts) && WellFormed(o.range) && o.symbol < |c.symbolNames|
    ensures SitesInRange(c, w.path)
    ensures Wanted(c, w, o) <==>
            && Before(w.span.startLine, w.span.startCol, o.range.startLine, o.range.startCol)
            && Before(o.range.endLine, o.range.endCol, w.span.endLine, w.span.endCol)
            && !(w.owner.Some? && exists b: nat :: b < |c.definitions| && Innermost(c.definitions, w.path, o.range, Some(b))
                                                   && (c.definitions[b].symbol != w.owner.value.0
                                                       || c.definitions[b].range != w.owner.value.1))
            && !(exists i :: 0 <= i < |c.definitions|
                             && IsSite(c.definitions[i], c.symbolNames[o.symbol], w.path, o.range))
  {
    FileSites(c, lower, facts, w.path);
    BelongsElsewhereExactly(c, lower, facts, w, o.range);
    DeclaredThere(c, lower, facts, w.path, c.symbolNames[o.symbol], o.range);
    hide Describes, BelongsElsewhere, Innermost, AnySite, IsSite, SitesInRange;
  }

  lemma DeclaredThere(c: Contents, lower: string -> string, facts: seq<Fact>, path: string, symbol: string, range: Range)
    requires Describes(c, lower, facts)
    ensures SitesInRange(c, path)
    ensures AnySite(c.definitions, Get(c.byPath, path), symbol, range)
            <==> exists i :: 0 <= i < |c.definitions| && IsSite(c.definitions[i], symbol, path, range)
  {
    FileSites(c, lower, facts, path);
    PathTabulated(c, lower, facts);
    hide Describes, AnySite, Tabulates, Keys;
    AnySiteIsDeclared(c.definitions, c.byPath, lower, path, symbol, range);
    if i :| 0 <= i < |c.definitions| && c.definitions[i].path == path && c.definitions[i].symbol == symbol
            && c.definitions[i].range == range {
      assert IsSite(c.definitions[i], symbol, path, range);
    }
  }

  lemma BelongsElsewhereExactly(c: Contents, lower: string -> string, facts: seq<Fact>, w: Within, range: Range)
    requires Describes(c, lower, facts) && WellFormed(range)
    ensures SitesInRange(c, w.path)
    ensures BelongsElsewhere(c, w, range) <==>
            w.owner.Some? && exists b: nat :: b < |c.definitions| && Innermost(c.definitions, w.path, range, Some(b))
                                              && (c.definitions[b].symbol != w.owner.value.0
                                                  || c.definitions[b].range != w.owner.value.1)
  {
    FileSites(c, lower, facts, w.path);
    EnclosingCallableIsInnermost(c, lower, facts, w.path, range);
    CallableInRange(c, w.path, range);
    hide Describes, EnclosingCallable, Innermost, SitesInRange;
    InnermostIsOne(c.definitions, w.path, range, EnclosingCallable(c, w.path, range));
  }

  lemma CallableInRange(c: Contents, path: string, range: Range)
    requires WellFormed(range) && SitesInRange(c, path)
    ensures EnclosingCallable(c, path, range).Some? ==> EnclosingCallable(c, path, range).value < |c.definitions|
  {
  }

  lemma PathTabulated(c: Contents, lower: string -> string, facts: seq<Fact>)
    requires Describes(c, lower, facts)
    ensures Tabulates(c.byPath, Keys(c.definitions, ByPath, lower))
  {
    hide Tabulates, Keys, DefinitionsOf, Gather, Distinct, Numbers, IndexTables.Listed, Occurring, Sited, NoTwins;
  }

  lemma InnermostIsOne(defs: seq<Definition>, path: string, range: Range, best: Option<nat>)
    requires WellFormed(range) && Innermost(defs, path, range, best)
    ensures forall b: nat :: Innermost(defs, path, range, Some(b)) ==> best == Some(b)
  {
    hide Size, Surrounds;
  }

  /** A full scan that reports each symbol at its first wanted occurrence. */
  function Mentioned(c: Contents, w: Within, list: seq<Occurrence>): seq<Occurrence>
    requires SitesInRange(c, w.path)
  {
    if list == [] then []
    else
      var front, last := Mentioned(c, w, list[..|list| - 1]), list[|list| - 1];
      if Wanted(c, w, last) && !Reported(front, last.symbol) then front + [last] else front
  }

  predicate Reported(found: seq<Occurrence>, symbol: nat) {
    exists k :: 0 <= k < |found| && found[k].symbol == symbol
  }

  lemma MentionedSnoc(c: Contents, w: Within, list: seq<Occurrence>, o: Occurrence)
    requires SitesInRange(c, w.path)
    ensures Mentioned(c, w, list + [o])
            == Mentioned(c, w, list) + if Wanted(c, w, o) && !Reported(Mentioned(c, w, list), o.symbol) then [o] else []
  {
    assert (list + [o])[..|list + [o]| - 1] == list;
  }

  ghost predicate FirstWanted(c: Contents, w: Within, list: seq<Occurrence>, i: nat)
    requires SitesInRange(c, w.path)
  {
    && i < |list| && Wanted(c, w, list[i])
    && forall j :: 0 <= j < i && Wanted(c, w, list[j]) ==> list[j].symbol != list[i].symbol
  }

  lemma ReportedGrows(found: seq<Occurrence>, more: seq<Occurrence>, symbol: nat)
    requires Reported(found, symbol)
    ensures Reported(found + more, symbol)
  {
    var k :| 0 <= k < |found| && found[k].symbol == symbol;
    assert (found + more)[k] == found[k];
  }

  /** Each symbol with a wanted occurrence is reported, ... */
  lemma {:induction false} MentionedReports(c: Contents, w: Within, list: seq<Occurrence>, i: nat)
    requires SitesInRange(c, w.path) && i < |list| && Wanted(c, w, list[i])
    ensures Reported(Mentioned(c, w, list), list[i].symbol)
  {
    hide Wanted, Mentioned;
    var front, last := list[..|list| - 1], list[|list| - 1];
    var before := Mentioned(c, w, front);
    assert list == front + [last];
    MentionedSnoc(c, w, front, last);
    if i < |front| {
      MentionedReports(c, w, front, i);
      ReportedGrows(before, if Wanted(c, w, last) && !Reported(before, last.symbol) then [last] else [], list[i].symbol);
    } else if Reported(before, last.symbol) {
      assert before + [] == before;
    } else {
      assert (before + [last])[|before|] == last;
    }
  }

  /** ... at its first wanted occurrence, ... */
  lemma {:induction false} MentionedAtFirst(c: Contents, w: Within, list: seq<Occurrence>, k: nat) returns (i: nat)
    requires SitesInRange(c, w.path) && k < |Mentioned(c, w, list)|
    ensures FirstWanted(c, w, list, i) && list[i] == Mentioned(c, w, list)[k]
  {
    hide Wanted;
    var front, last := list[..|list| - 1], list[|list| - 1];
    var before := Mentioned(c, w, front);
    assert list == front + [last];
    if k < |before| {
      i := MentionedAtFirst(c, w, front, k);
    } else {
      i := |front|;
      forall j | 0 <= j < i && Wanted(c, w, list[j])
        ensures list[j].symbol != last.symbol
      {
        MentionedReports(c, w, front, j);
      }
    }
  }

  /** ... and once. */
  lemma {:induction false} MentionedOnce(c: Contents, w: Within, list: seq<Occurrence>, j: nat, k: nat)
    requires SitesInRange(c, w.path) && j < k < |Mentioned(c, w, list)|
    ensures Mentioned(c, w, list)[j].symbol != Mentioned(c, w, list)[k].symbol
  {
    hide Wanted;
    var before := Mentioned(c, w, list[..|list| - 1]);
    if k < |before| {
      MentionedOnce(c, w, list[..|list| - 1], j, k);
    } else {
      assert before[j] == Mentioned(c, w, list)[j];
    }
  }

  /** Altogether: the first wanted occurrences, all of them, in the order of the list. */
  lemma {:induction false} MentionedInOrder(c: Contents, w: Within, list: seq<Occurrence>) returns (at: seq<nat>)
    requires SitesInRange(c, w.path)
    ensures Increasing(at) && |at| == |Mentioned(c, w, list)|
    ensures forall k :: 0 <= k < |at| ==> FirstWanted(c, w, list, at[k]) && list[at[k]] == Mentioned(c, w, list)[k]
    ensures forall i :: FirstWanted(c, w, list, i) ==> i in at
  {
    hide Wanted;
    if list == [] {
      return [];
    }
    var front, last := list[..|list| - 1], list[|list| - 1];
    at := MentionedInOrder(c, w, front);
    LastIsFirstWanted(c, w, list);
    forall i: nat | i < |front|
      ensures FirstWanted(c, w, list, i) <==> FirstWanted(c, w, front, i)
    {
      assert list[i] == front[i];
    }
    if FirstWanted(c, w, list, |front|) {
      at := at + [|front|];
    }
  }

  lemma LastIsFirstWanted(c: Contents, w: Within, list: seq<Occurrence>)
    requires SitesInRange(c, w.path) && list != []
    ensures var front, last := list[..|list| - 1], list[|list| - 1];
            FirstWanted(c, w, list, |front|) <==> Wanted(c, w, last) && !Reported(Mentioned(c, w, front), last.symbol)
  {
    hide Wanted, Mentioned;
    var front, last := list[..|list| - 1], list[|list| - 1];
    if Reported(Mentioned(c, w, front), last.symbol) {
      var k :| 0 <= k < |Mentioned(c, w, front)| && Mentioned(c, w, front)[k].symbol == last.symbol;
      var i := MentionedAtFirst(c, w, front, k);
      assert list[i] == front[i];
    } else {
      forall j | 0 <= j < |front| && Wanted(c, w, list[j])
        ensures list[j].symbol != last.symbol
      {
        MentionedReports(c, w, front, j);
      }
    }
  }

  ghost predicate ListWellFormed(list: seq<Occurrence>, names: seq<string>) {
    forall i :: 0 <= i < |list| ==> WellFormed(list[i].range) && list[i].symbol < |names|
  }

  /** What taking shards in leaves behind is what the early exits rely on. */
  lemma IngestedIsSorted(c: Contents, lower: string -> string, facts: seq<Fact>, path: string)
    requires Describes(c, lower, facts) && RangesWellFormed(facts)
    ensures StrictlySorted(Placed(c.occurrences, path)) && ListWellFormed(Placed(c.occurrences, path), c.symbolNames)
  {
    hide DefinitionsOf, Gather, Distinct, Derived, Numbers, Listed, StrictlySorted;
    var list := Placed(c.occurrences, path);
    assert Holds(list, c.symbolNames, facts, path, Some(path) == None);
    forall i | 0 <= i < |list|
      ensures WellFormed(list[i].range) && list[i].symbol < |c.symbolNames|
    {
      assert list[i] in list && Seen(facts, path, list[i].range, c.symbolNames[list[i].symbol]);
      var k :| 0 <= k < |facts| && facts[k].path == path && facts[k].range == list[i].range
               && facts[k].symbol == c.symbolNames[list[i].symbol];
      assert facts[k] in facts;
    }
  }

  /** The loop of `references_within_owner`, which stops at the first occurrence that
      starts after the span's last line. */
  method FindMentioned(c: Contents, w: Within) returns (found: seq<Occurrence>)
    requires SitesInRange(c, w.path)
    requires StrictlySorted(Placed(c.occurrences, w.path)) && ListWellFormed(Placed(c.occurrences, w.path), c.symbolNames)
    ensures found == Mentioned(c, w, Placed(c.occurrences, w.path))
  {
    hide Less, Mentioned, AnySite, EnclosingCallable;
    var list := Placed(c.occurrences, w.path);
    var seenIds: set<nat> := {};
    found := [];
    NothingMentioned(c, w);
    assert list[..0] == [];
    var i := 0;
    while i < |list|
      invariant 0 <= i <= |list|
      invariant found == Mentioned(c, w, list[..i])
      invariant forall s :: s in seenIds <==> Reported(found, s)
    {
      var o := list[i];
      if o.range.startLine > w.span.endLine {
        NothingLater(c, w, list, i);
        return;
      }
      MentionedSnoc(c, w, list[..i], o);
      assert list[..i + 1] == list[..i] + [o];
      i := i + 1;
      if !Encloses(w.span, o.range) {
        continue;
      }
      if BelongsElsewhere(c, w, o.range) {
        continue;
      }
      if AnySite(c.definitions, Get(c.byPath, w.path), c.symbolNames[o.symbol], o.range) {
        continue;
      }
      if o.symbol !in seenIds {
        ReportedOne(found, o);
        seenIds := seenIds + {o.symbol};
        found := found + [o];
      }
    }
    assert list[..i] == list;
  }

  lemma NothingMentioned(c: Contents, w: Within)
    requires SitesInRange(c, w.path)
    ensures Mentioned(c, w, []) == []
  {
  }

  lemma ReportedOne(found: seq<Occurrence>, o: Occurrence)
    ensures forall s :: Reported(found + [o], s) <==> Reported(found, s) || s == o.symbol
  {
    forall s
      ensures Reported(found + [o], s) <==> Reported(found, s) || s == o.symbol
    {
      assert (found + [o])[|found|] == o;
      if Reported(found, s) {
        var k :| 0 <= k < |found| && found[k].symbol == s;
        assert (found + [o])[k].symbol == s;
      }
    }
  }

  /** Past the break nothing is enclosed. */
  lemma {:induction false} NothingLater(c: Contents, w: Within, list: seq<Occurrence>, i: nat)
    requires SitesInRange(c, w.path) && StrictlySorted(list) && ListWellFormed(list, c.symbolNames)
    requires i < |list| && list[i].range.startLine > w.span.endLine
    ensures Mentioned(c, w, list) == Mentioned(c, w, list[..i])
    decreases |list|
  {
    hide Less, Mentioned, AnySite, EnclosingCallable;
    var front, last := list[..|list| - 1], list[|list| - 1];
    assert list == front + [last];
    MentionedSnoc(c, w, front, last);
    if i < |front| {
      LessStartsNoLater(list[i], last);
      NothingLater(c, w, front, i);
      assert front[..i] == list[..i];
    } else {
      assert front == list[..i];
    }
    assert Mentioned(c, w, front) + [] == Mentioned(c, w, front);
  }
}
