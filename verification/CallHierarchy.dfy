/** Callers and callees (crates/jabar-server/src/handlers.rs:611-712,
    crates/symbol-index/src/lib.rs:795-878, 927-934). */
module CallHierarchy {
  import opened Wrappers
  import opened Ranges
  import opened Definitions
  import opened Repeats
  import opened Buckets
  import opened Occurrences
  import opened ShardRows
  import opened IndexTables
  import opened IndexContents
  import opened IndexQueries
  import opened CallGroups
  import ShardReading

  const CALL_HIERARCHY_LIMIT: nat := 100

  // ---- references and the callable each belongs to ----

  /** `references`, with paths for path numbers. */
  function ReferencesTo(c: Contents, symbol: string): seq<Reference>
    requires InRange(|c.referencePaths|, Stored(c.references, symbol))
  {
    ShowAll(c.referencePaths, Stored(c.references, symbol))
  }

  /** They are the distinct uses of the symbol, in the order they were taken in. */
  lemma ReferencesAreUses(c: Contents, lower: string -> string, facts: seq<Fact>, symbol: string)
    requires Describes(c, lower, facts)
    ensures InRange(|c.referencePaths|, Stored(c.references, symbol))
    ensures ReferencesTo(c, symbol) == Distinct(Gather(facts, UseOf(symbol)))
    ensures exists uses, at ::
              ShardReading.UsedBy(uses, facts, symbol, at) && ReferencesTo(c, symbol) == Distinct(uses)
  {
    var at := ShardReading.UsesInOrder(facts, symbol);
    hide Gather, Derived, Numbers, Occurring, DefinitionsOf, Distinct;
    DistinctNoRepeats(Gather(facts, MentionPath()));
    assert Shows(Stored(c.references, symbol), c.referencePaths, Gather(facts, UseOf(symbol)), symbol in {});
    SettledShows(Stored(c.references, symbol), c.referencePaths, Gather(facts, UseOf(symbol)));
  }

  ghost predicate Sound(c: Contents, refs: seq<Reference>) {
    forall i :: 0 <= i < |refs| ==> WellFormed(refs[i].range) && SitesInRange(c, refs[i].path)
  }

  lemma ReferencesAreSound(c: Contents, lower: string -> string, facts: seq<Fact>, symbol: string)
    requires Describes(c, lower, facts) && RangesWellFormed(facts)
    ensures InRange(|c.referencePaths|, Stored(c.references, symbol)) && Sound(c, ReferencesTo(c, symbol))
  {
    ReferencesAreUses(c, lower, facts, symbol);
    hide Describes, Gather, Distinct;
    var refs := ReferencesTo(c, symbol);
    forall i | 0 <= i < |refs|
      ensures WellFormed(refs[i].range) && SitesInRange(c, refs[i].path)
    {
      assert refs[i] in refs;
      var f := UseIsFact(facts, symbol, refs[i]);
      FileSites(c, lower, facts, refs[i].path);
    }
  }

  lemma UseIsFact(facts: seq<Fact>, symbol: string, r: Reference) returns (f: Fact)
    requires r in Distinct(Gather(facts, UseOf(symbol)))
    ensures f in facts && f.role.Mentions? && f.symbol == symbol && f.path == r.path && f.range == r.range
  {
    DistinctHolds(Gather(facts, UseOf(symbol)), r);
    GatherHolds(facts, UseOf(symbol), r);
    f :| f in facts && UseOf(symbol)(f) == Some(r);
  }

  lemma FactIsUse(facts: seq<Fact>, f: Fact) returns (r: Reference)
    requires f in facts && f.role.Mentions?
    ensures r in Distinct(Gather(facts, UseOf(f.symbol))) && r.path == f.path && r.range == f.range
  {
    r := Reference(f.path, f.range, f.encoding, f.role.isImport);
    assert UseOf(f.symbol)(f) == Some(r);
    GatherHolds(facts, UseOf(f.symbol), r);
    DistinctHolds(Gather(facts, UseOf(f.symbol)), r);
  }

  function CallerOf(c: Contents, r: Reference): Option<nat>
    requires WellFormed(r.range) && SitesInRange(c, r.path)
  {
    EnclosingCallable(c, r.path, r.range)
  }

  function CallersOf(c: Contents, refs: seq<Reference>): seq<Option<nat>>
    requires Sound(c, refs)
  {
    seq(|refs|, i requires 0 <= i < |refs| => CallerOf(c, refs[i]))
  }

  // ---- incoming calls ----

  predicate KeyOf(defs: seq<Definition>, d: nat, key: (string, string, Range))
    requires d < |defs|
  {
    key == (defs[d].symbol, defs[d].path, defs[d].range)
  }

  /** `callerIds` numbers the callers met so far by their sites. */
  ghost predicate Indexes(callerIds: map<(string, string, Range), nat>, callers: seq<Incoming>,
                          defs: seq<Definition>) {
    && (forall k :: 0 <= k < |callers| ==> callers[k].caller < |defs|)
    && (forall key :: key in callerIds ==> callerIds[key] < |callers| && KeyOf(defs, callers[callerIds[key]].caller, key))
    && (forall k :: 0 <= k < |callers| ==>
          var d := defs[callers[k].caller];
          (d.symbol, d.path, d.range) in callerIds && callerIds[(d.symbol, d.path, d.range)] == k)
  }

  /** The grouping loop of `incoming_calls`. */
  method GroupCalls(c: Contents, refs: seq<Reference>) returns (callers: seq<Incoming>)
    requires Sound(c, refs) && NoTwins(c.definitions)
    ensures Groups(callers, refs, CallersOf(c, refs), CALL_HIERARCHY_LIMIT)
  {
    hide Groups, CallerOf, NoTwins, Indexes, SitesInRange;
    callers := [];
    var callerIds: map<(string, string, Range), nat> := map[];
    ghost var sites: seq<Option<nat>> := [];
    NoGroups(CALL_HIERARCHY_LIMIT, c.definitions);
    assert refs[..0] == [];
    for i := 0 to |refs|
      invariant sites == CallersOf(c, refs)[..i]
      invariant Groups(callers, refs[..i], sites, CALL_HIERARCHY_LIMIT)
      invariant Indexes(callerIds, callers, c.definitions)
      invariant |callers| <= CALL_HIERARCHY_LIMIT
    {
      var site := CallerOf(c, refs[i]);
      GroupsOne(callers, refs[..i], sites, CALL_HIERARCHY_LIMIT, refs[i], site);
      assert refs[..i + 1] == refs[..i] + [refs[i]];
      sites := sites + [site];
      if site == None {
        continue;
      }
      CallerInRange(c, refs[i]);
      var caller := c.definitions[site.value];
      var key := (caller.symbol, caller.path, caller.range);
      KnownCaller(callerIds, callers, c.definitions, site.value, key);
      if key in callerIds {
        var k := callerIds[key];
        callers := callers[k := callers[k].(calls := callers[k].calls + [refs[i]])];
      } else {
        if |callers| == CALL_HIERARCHY_LIMIT {
          continue;
        }
        callerIds := callerIds[key := |callers|];
        callers := callers + [Incoming(site.value, [refs[i]])];
      }
    }
    assert refs[..|refs|] == refs && sites == CallersOf(c, refs);
  }

  /** The entries whose caller's file has a URL the client can be given. */
  function Shown(c: Contents, hasUrl: string -> bool, callers: seq<Incoming>): seq<Incoming> {
    if callers == [] then []
    else
      var last := callers[|callers| - 1];
      Shown(c, hasUrl, callers[..|callers| - 1])
      + if last.caller < |c.definitions| && hasUrl(c.definitions[last.caller].path) then [last] else []
  }

  /** The entries are those groups whose caller, a method or constructor, lies in a file with
      a URL, all of them and in order. */
  ghost predicate KeepsShown(c: Contents, hasUrl: string -> bool, groups: seq<Incoming>, callers: seq<Incoming>) {
    exists at :: KeepsShownAt(c, hasUrl, groups, callers, at)
  }

  ghost predicate KeepsShownAt(c: Contents, hasUrl: string -> bool, groups: seq<Incoming>, callers: seq<Incoming>,
                               at: seq<nat>) {
    && Increasing(at) && |at| == |callers|
    && (forall k :: 0 <= k < |at| ==>
          at[k] < |groups| && callers[k] == groups[at[k]] && HasShownCaller(c, hasUrl, callers[k]))
    && (forall i: nat :: i < |groups| && HasShownCaller(c, hasUrl, groups[i]) ==> i in at)
  }

  ghost predicate HasShownCaller(c: Contents, hasUrl: string -> bool, group: Incoming) {
    && HasCallable(c, group) && hasUrl(c.definitions[group.caller].path)
  }

  ghost predicate HasCallable(c: Contents, group: Incoming) {
    && group.caller < |c.definitions|
    && (c.definitions[group.caller].kind == SymbolKind.Method
        || c.definitions[group.caller].kind == SymbolKind.Constructor)
  }

  lemma {:induction false} ShownInOrder(c: Contents, hasUrl: string -> bool, groups: seq<Incoming>)
    returns (at: seq<nat>)
    requires forall i :: 0 <= i < |groups| ==> HasCallable(c, groups[i])
    ensures KeepsShownAt(c, hasUrl, groups, Shown(c, hasUrl, groups), at)
  {
    hide HasCallable, HasShownCaller;
    if groups == [] {
      return [];
    }
    var front, last := groups[..|groups| - 1], groups[|groups| - 1];
    at := ShownInOrder(c, hasUrl, front);
    LastShown(c, hasUrl, groups);
    if HasShownCaller(c, hasUrl, last) {
      at := at + [|front|];
    }
  }

  lemma LastShown(c: Contents, hasUrl: string -> bool, groups: seq<Incoming>)
    requires groups != [] && HasCallable(c, groups[|groups| - 1])
    ensures var front, last := groups[..|groups| - 1], groups[|groups| - 1];
            Shown(c, hasUrl, groups) == Shown(c, hasUrl, front) + if HasShownCaller(c, hasUrl, last) then [last] else []
  {
  }

  lemma CallerIsCallable(c: Contents, r: Reference, d: nat)
    requires WellFormed(r.range) && SitesInRange(c, r.path) && CallerOf(c, r) == Some(d)
    ensures d < |c.definitions|
    ensures c.definitions[d].kind == SymbolKind.Method || c.definitions[d].kind == SymbolKind.Constructor
  {
    hide SitesInRange, Smallest;
  }

  lemma LimitIsHundred()
    ensures CALL_HIERARCHY_LIMIT == 100
  {
  }

  lemma GroupsAreCallables(c: Contents, hasUrl: string -> bool, refs: seq<Reference>, groups: seq<Incoming>,
                           limit: nat)
    requires Sound(c, refs) && Groups(groups, refs, CallersOf(c, refs), limit)
    ensures KeepsShown(c, hasUrl, groups, Shown(c, hasUrl, groups))
    ensures GroupedByCaller(groups, refs, CallersOf(c, refs), limit)
  {
    GroupsExactly(groups, refs, CallersOf(c, refs), limit);
    hide CallerOf, SitesInRange, Distinct, Present, From, KeepsShownAt, Shown, GroupedByCaller;
    var sites := CallersOf(c, refs);
    forall i | 0 <= i < |groups|
      ensures HasCallable(c, groups[i])
    {
      DistinctHolds(Present(sites), groups[i].caller);
      assert groups[i].caller in Distinct(Present(sites));
      PresentHolds(sites, groups[i].caller);
      var k :| 0 <= k < |sites| && sites[k] == Some(groups[i].caller);
      CallerIsCallable(c, refs[k], groups[i].caller);
    }
    var at := ShownInOrder(c, hasUrl, groups);
  }

  /** `incoming_calls`, before ranges are converted: nothing for a site that is not
      declared, else the callers of its symbol up to the limit, without those that
      cannot be shown. */
  method IncomingCalls(c: Contents, ghost lower: string -> string, ghost facts: seq<Fact>, hasUrl: string -> bool,
                       symbol: string, path: string, range: Range)
    returns (callers: seq<Incoming>)
    requires Describes(c, lower, facts) && RangesWellFormed(facts)
    ensures InRange(|c.referencePaths|, Stored(c.references, symbol)) && Sound(c, ReferencesTo(c, symbol))
    ensures (exists i :: 0 <= i < |c.definitions| && IsSite(c.definitions[i], symbol, path, range)) ==>
              var refs := ReferencesTo(c, symbol);
              exists groups :: Groups(groups, refs, CallersOf(c, refs), CALL_HIERARCHY_LIMIT)
                               && callers == Shown(c, hasUrl, groups) && KeepsShown(c, hasUrl, groups, callers)
                               && GroupedByCaller(groups, refs, CallersOf(c, refs), 100)
    ensures !(exists i :: 0 <= i < |c.definitions| && IsSite(c.definitions[i], symbol, path, range)) ==> callers == []
  {
    hide *;
    ReferencesAreSound(c, lower, facts, symbol);
    var target := DefinitionSite(c, lower, facts, symbol, path, range);
    if target.None? {
      return [];
    }
    FileHolds(c, lower, facts, path);
    var groups := GroupCalls(c, ReferencesTo(c, symbol));
    GroupsAreCallables(c, hasUrl, ReferencesTo(c, symbol), groups, CALL_HIERARCHY_LIMIT);
    LimitIsHundred();
    callers := TakeShown(c, hasUrl, groups);
  }

  method TakeShown(c: Contents, hasUrl: string -> bool, groups: seq<Incoming>) returns (callers: seq<Incoming>)
    ensures callers == Shown(c, hasUrl, groups)
  {
    callers := [];
    assert groups[..0] == [];
    for i := 0 to |groups|
      invariant callers == Shown(c, hasUrl, groups[..i])
    {
      assert groups[..i + 1][..i] == groups[..i];
      if groups[i].caller < |c.definitions| && hasUrl(c.definitions[groups[i].caller].path) {
        callers := callers + [groups[i]];
      }
    }
    assert groups[..|groups|] == groups;
  }

  lemma NoGroups(limit: nat, defs: seq<Definition>)
    ensures Groups([], [], [], limit) && Indexes(map[], [], defs)
  {
  }

  lemma CallerInRange(c: Contents, r: Reference)
    requires WellFormed(r.range) && SitesInRange(c, r.path)
    ensures CallerOf(c, r).Some? ==> CallerOf(c, r).value < |c.definitions|
  {
  }

  /** Sites tell definitions apart. */
  lemma KnownCaller(callerIds: map<(string, string, Range), nat>, callers: seq<Incoming>, defs: seq<Definition>,
                    d: nat, key: (string, string, Range))
    requires Indexes(callerIds, callers, defs) && NoTwins(defs) && d < |defs| && KeyOf(defs, d, key)
    ensures key in callerIds ==>
              && callerIds[key] < |callers| && callers[callerIds[key]].caller == d
              && forall calls :: Indexes(callerIds, callers[callerIds[key] := Incoming(d, calls)], defs)
    ensures key !in callerIds ==>
              && (forall k :: 0 <= k < |callers| ==> callers[k].caller != d)
              && forall calls :: Indexes(callerIds[key := |callers|], callers + [Incoming(d, calls)], defs)
  {
    if key in callerIds {
      var e := callers[callerIds[key]].caller;
      assert SameSite(defs[d], defs[e]) && SameSite(defs[e], defs[d]);
    }
  }

  // ---- outgoing calls ----

  function CalleesWithin(c: Contents, d: nat): Within
    requires d < |c.definitions| && c.definitions[d].enclosing.Some?
  {
    var def := c.definitions[d];
    Within(def.path, def.enclosing.value, Some((def.symbol, def.range)))
  }

  /** `references_within_callable_site`, as a full scan. */
  function Callees(c: Contents, d: nat): seq<Occurrence>
    requires d < |c.definitions| && SitesInRange(c, c.definitions[d].path)
  {
    if c.definitions[d].enclosing.None? then []
    else Mentioned(c, CalleesWithin(c, d), Placed(c.occurrences, c.definitions[d].path))
  }

  predicate Lists(c: Contents, found: seq<Occurrence>, symbol: string) {
    exists k :: 0 <= k < |found| && found[k].symbol < |c.symbolNames| && c.symbolNames[found[k].symbol] == symbol
  }

  /** The first definition of a mentioned symbol, if it is a callable and its file has a
      URL the client can be given. */
  function Callee(c: Contents, hasUrl: string -> bool, o: Occurrence): Option<nat> {
    if o.symbol < |c.symbolNames| && c.symbolNames[o.symbol] in c.bySymbol
       && c.bySymbol[c.symbolNames[o.symbol]] < |c.definitions|
       && IsCallable(c.definitions[c.bySymbol[c.symbolNames[o.symbol]]])
       && hasUrl(c.definitions[c.bySymbol[c.symbolNames[o.symbol]]].path)
    then Some(c.bySymbol[c.symbolNames[o.symbol]])
    else None
  }

  /** `m` is where the symbol was declared first. */
  ghost predicate FirstDeclared(c: Contents, symbol: string, m: nat) {
    && m < |c.definitions| && c.definitions[m].symbol == symbol
    && forall j :: 0 <= j < m ==> c.definitions[j].symbol != symbol
  }

  /** The mention is a call of `m`: of the first declaration of its symbol, a method or
      constructor in a file with a URL. */
  ghost predicate CallsTo(c: Contents, hasUrl: string -> bool, o: Occurrence, m: nat) {
    && o.symbol < |c.symbolNames| && FirstDeclared(c, c.symbolNames[o.symbol], m)
    && (c.definitions[m].kind == SymbolKind.Method || c.definitions[m].kind == SymbolKind.Constructor)
    && hasUrl(c.definitions[m].path)
  }

  lemma FirstSiteIsFirst(c: Contents, lower: string -> string, facts: seq<Fact>, symbol: string, m: nat)
    requires Describes(c, lower, facts)
    ensures FirstDeclared(c, symbol, m) <==> symbol in c.bySymbol && c.bySymbol[symbol] == m
  {
    DefinitionSitesAreAll(c, lower, facts, symbol);
    hide Describes;
    FirstOfAll(c, symbol, DefinitionSites(c, symbol), m);
  }

  lemma FirstOfAll(c: Contents, symbol: string, all: seq<nat>, m: nat)
    requires Increasing(all)
    requires forall i: nat :: i in all <==> i < |c.definitions| && c.definitions[i].symbol == symbol
    ensures FirstDeclared(c, symbol, m) <==> all != [] && all[0] == m
  {
    if all == [] {
      assert m !in all;
    } else {
      assert all[0] in all;
      if FirstDeclared(c, symbol, m) {
        assert m in all;
        assert all[0] >= m;
      }
    }
  }

  lemma CalleeIsCalled(c: Contents, lower: string -> string, facts: seq<Fact>, hasUrl: string -> bool, o: Occurrence,
                       m: nat)
    requires Describes(c, lower, facts)
    ensures Callee(c, hasUrl, o) == Some(m) <==> CallsTo(c, hasUrl, o, m)
  {
    hide Describes, FirstDeclared;
    if o.symbol < |c.symbolNames| {
      FirstSiteIsFirst(c, lower, facts, c.symbolNames[o.symbol], m);
      if c.symbolNames[o.symbol] in c.bySymbol {
        FirstSiteIsFirst(c, lower, facts, c.symbolNames[o.symbol], c.bySymbol[c.symbolNames[o.symbol]]);
      }
      DeclaredInRange(c, c.symbolNames[o.symbol]);
    }
  }

  lemma DeclaredInRange(c: Contents, symbol: string)
    ensures forall m: nat :: FirstDeclared(c, symbol, m) ==> m < |c.definitions|
  {
  }

  datatype Outgoing = Outgoing(callee: nat, at: Range)

  function Callables(c: Contents, hasUrl: string -> bool, found: seq<Occurrence>): seq<Outgoing> {
    if found == [] then []
    else
      var last := found[|found| - 1];
      Callables(c, hasUrl, found[..|found| - 1])
      + if Callee(c, hasUrl, last).Some? then [Outgoing(Callee(c, hasUrl, last).value, last.range)] else []
  }

  lemma {:induction false} CallablesInOrder(c: Contents, hasUrl: string -> bool, found: seq<Occurrence>)
    returns (at: seq<nat>)
    ensures Increasing(at) && |at| == |Callables(c, hasUrl, found)|
    ensures forall k :: 0 <= k < |at| ==>
              && at[k] < |found| && Callee(c, hasUrl, found[at[k]]) == Some(Callables(c, hasUrl, found)[k].callee)
              && Callables(c, hasUrl, found)[k].at == found[at[k]].range
    ensures forall i: nat :: i < |found| && Callee(c, hasUrl, found[i]).Some? ==> i in at
  {
    hide Callee;
    if found == [] {
      return [];
    }
    var front, last := found[..|found| - 1], found[|found| - 1];
    at := CallablesInOrder(c, hasUrl, front);
    if Callee(c, hasUrl, last).Some? {
      at := at + [|front|];
    }
  }

  /** `entry` is the call made by mention `i`, and that is the first of its symbol. */
  ghost predicate IsCallAt(c: Contents, hasUrl: string -> bool, w: Within, list: seq<Occurrence>, i: nat,
                           entry: Outgoing)
    requires SitesInRange(c, w.path)
  {
    FirstWanted(c, w, list, i) && CallsTo(c, hasUrl, list[i], entry.callee) && entry.at == list[i].range
  }

  /** The entries are the calls among the first wanted mentions, in the order of the
      mentions, and none is missing unless a hundred come before it. */
  ghost predicate ListsCalls(c: Contents, hasUrl: string -> bool, w: Within, list: seq<Occurrence>,
                             callees: seq<Outgoing>)
    requires SitesInRange(c, w.path)
  {
    exists at :: ListsCallsAt(c, hasUrl, w, list, callees, at)
  }

  ghost predicate ListsCallsAt(c: Contents, hasUrl: string -> bool, w: Within, list: seq<Occurrence>,
                               callees: seq<Outgoing>, at: seq<nat>)
    requires SitesInRange(c, w.path)
  {
    && Increasing(at) && |at| == |callees| <= 100
    && (forall k :: 0 <= k < |at| ==> IsCallAt(c, hasUrl, w, list, at[k], callees[k]))
    && (forall i: nat, m: nat :: FirstWanted(c, w, list, i) && CallsTo(c, hasUrl, list[i], m) ==>
          i in at || (|at| == 100 && forall k :: 0 <= k < |at| ==> at[k] < i))
  }

  lemma CallablesAreCalls(c: Contents, lower: string -> string, facts: seq<Fact>, hasUrl: string -> bool,
                          w: Within, list: seq<Occurrence>, callees: seq<Outgoing>)
    requires Describes(c, lower, facts) && SitesInRange(c, w.path)
    requires var all := Callables(c, hasUrl, Mentioned(c, w, list));
             callees == if |all| <= CALL_HIERARCHY_LIMIT then all else all[..CALL_HIERARCHY_LIMIT]
    ensures ListsCalls(c, hasUrl, w, list, callees)
  {
    hide Describes, Callee, Mentioned, Callables, Wanted, CallsTo, SitesInRange;
    var found := Mentioned(c, w, list);
    var places := MentionedInOrder(c, w, list);
    var chosen := CallablesInOrder(c, hasUrl, found);
    var all := seq(|chosen|, k requires 0 <= k < |chosen| => places[chosen[k]]);
    forall o, m: nat
      ensures Callee(c, hasUrl, o) == Some(m) <==> CallsTo(c, hasUrl, o, m)
    {
      CalleeIsCalled(c, lower, facts, hasUrl, o, m);
    }
    forall i: nat, m: nat | i < |list| && FirstWanted(c, w, list, i) && CallsTo(c, hasUrl, list[i], m)
      ensures i in all
    {
      var p :| 0 <= p < |places| && places[p] == i;
      assert found[p] == list[i];
      var k :| 0 <= k < |chosen| && chosen[k] == p;
      assert all[k] == i;
    }
    FirstHundred(c, hasUrl, w, list, Callables(c, hasUrl, found), all, callees);
  }

  lemma FirstHundred(c: Contents, hasUrl: string -> bool, w: Within, list: seq<Occurrence>,
                     entries: seq<Outgoing>, all: seq<nat>, callees: seq<Outgoing>)
    requires SitesInRange(c, w.path) && Increasing(all) && |all| == |entries|
    requires forall k :: 0 <= k < |all| ==> IsCallAt(c, hasUrl, w, list, all[k], entries[k])
    requires forall i: nat, m: nat :: i < |list| && FirstWanted(c, w, list, i) && CallsTo(c, hasUrl, list[i], m) ==> i in all
    requires callees == if |entries| <= CALL_HIERARCHY_LIMIT then entries else entries[..CALL_HIERARCHY_LIMIT]
    ensures ListsCalls(c, hasUrl, w, list, callees)
  {
    hide CallsTo, Wanted, IsCallAt, SitesInRange;
    var at := if |all| <= 100 then all else all[..100];
    forall i: nat, m: nat | i < |list| && FirstWanted(c, w, list, i) && CallsTo(c, hasUrl, list[i], m)
      ensures i in at || (|at| == 100 && forall k :: 0 <= k < |at| ==> at[k] < i)
    {
      var k :| 0 <= k < |all| && all[k] == i;
      if k < |at| {
        assert at[k] == i;
      }
    }
    assert ListsCallsAt(c, hasUrl, w, list, callees, at);
  }

  /** The mentions of one callable that are callables, up to the limit. */
  method TakeCallables(c: Contents, hasUrl: string -> bool, d: nat) returns (callees: seq<Outgoing>)
    requires d < |c.definitions| && SitesInRange(c, c.definitions[d].path)
    requires StrictlySorted(Placed(c.occurrences, c.definitions[d].path))
    requires ListWellFormed(Placed(c.occurrences, c.definitions[d].path), c.symbolNames)
    ensures var all := Callables(c, hasUrl, Callees(c, d));
            callees == if |all| <= CALL_HIERARCHY_LIMIT then all else all[..CALL_HIERARCHY_LIMIT]
  {
    hide Callee, Mentioned, StrictlySorted, ListWellFormed, Callables;
    callees := [];
    NoCallables(c, hasUrl);
    if c.definitions[d].enclosing.None? {
      return;
    }
    var found := FindMentioned(c, CalleesWithin(c, d));
    assert found[..0] == [];
    for i := 0 to |found|
      invariant callees == Callables(c, hasUrl, found[..i]) && |callees| <= CALL_HIERARCHY_LIMIT
    {
      CallablesExtend(c, hasUrl, found, i);
      if |callees| == CALL_HIERARCHY_LIMIT {
        return;
      }
      var callee := Callee(c, hasUrl, found[i]);
      if callee.Some? {
        callees := callees + [Outgoing(callee.value, found[i].range)];
      }
    }
    assert found[..|found|] == found;
  }

  /** `outgoing_calls`: nothing for a site that is not declared, else the callables its
      declaration mentions, the first hundred of them that can be shown. */
  method OutgoingCalls(c: Contents, ghost lower: string -> string, ghost facts: seq<Fact>, hasUrl: string -> bool,
                       symbol: string, path: string, range: Range) returns (callees: seq<Outgoing>)
    requires Describes(c, lower, facts) && RangesWellFormed(facts)
    ensures forall d :: 0 <= d < |c.definitions| && IsSite(c.definitions[d], symbol, path, range) ==>
              SitesInRange(c, c.definitions[d].path) &&
              var all := Callables(c, hasUrl, Callees(c, d));
              callees == if |all| <= CALL_HIERARCHY_LIMIT then all else all[..CALL_HIERARCHY_LIMIT]
    ensures forall d :: 0 <= d < |c.definitions| && IsSite(c.definitions[d], symbol, path, range) ==>
              if c.definitions[d].enclosing.None? then callees == []
              else ListsCalls(c, hasUrl, CalleesWithin(c, d), Placed(c.occurrences, path), callees)
    ensures (forall d :: 0 <= d < |c.definitions| ==> !IsSite(c.definitions[d], symbol, path, range)) ==> callees == []
  {
    hide Describes, Callables, Callees, StrictlySorted, ListWellFormed, SitesInRange, NoTwins;
    var site := DefinitionSite(c, lower, facts, symbol, path, range);
    if site.None? {
      return [];
    }
    FileSites(c, lower, facts, path);
    IngestedIsSorted(c, lower, facts, path);
    FileHolds(c, lower, facts, path);
    callees := TakeCallables(c, hasUrl, site.value);
    CalleesAreCalls(c, lower, facts, hasUrl, site.value, callees);
    forall d | 0 <= d < |c.definitions| && IsSite(c.definitions[d], symbol, path, range)
      ensures d == site.value
    {
      OneSite(c.definitions, d, site.value, symbol, path, range);
    }
  }

  lemma CalleesAreCalls(c: Contents, lower: string -> string, facts: seq<Fact>, hasUrl: string -> bool, d: nat,
                        callees: seq<Outgoing>)
    requires Describes(c, lower, facts) && d < |c.definitions| && SitesInRange(c, c.definitions[d].path)
    requires var all := Callables(c, hasUrl, Callees(c, d));
             callees == if |all| <= CALL_HIERARCHY_LIMIT then all else all[..CALL_HIERARCHY_LIMIT]
    ensures if c.definitions[d].enclosing.None? then callees == []
            else ListsCalls(c, hasUrl, CalleesWithin(c, d), Placed(c.occurrences, c.definitions[d].path), callees)
  {
    hide Describes, Mentioned, ListsCalls, SitesInRange;
    if c.definitions[d].enclosing.Some? {
      CallablesAreCalls(c, lower, facts, hasUrl, CalleesWithin(c, d), Placed(c.occurrences, c.definitions[d].path), callees);
    }
  }

  lemma OneSite(defs: seq<Definition>, d: nat, e: nat, symbol: string, path: string, range: Range)
    requires NoTwins(defs) && d < |defs| && e < |defs|
    requires IsSite(defs[d], symbol, path, range) && IsSite(defs[e], symbol, path, range)
    ensures d == e
  {
    assert SameSite(defs[d], defs[e]) && SameSite(defs[e], defs[d]);
  }

  lemma NoCallables(c: Contents, hasUrl: string -> bool)
    ensures Callables(c, hasUrl, []) == []
  {
  }

  lemma CallablesExtend(c: Contents, hasUrl: string -> bool, found: seq<Occurrence>, i: nat)
    requires i < |found|
    ensures Callables(c, hasUrl, found[..i + 1])
            == Callables(c, hasUrl, found[..i])
               + if Callee(c, hasUrl, found[i]).Some? then [Outgoing(Callee(c, hasUrl, found[i]).value, found[i].range)]
                 else []
    ensures Callables(c, hasUrl, found[..i]) <= Callables(c, hasUrl, found)
  {
    hide Callee;
    assert found[..i + 1][..i] == found[..i];
    CallablesPrefix(c, hasUrl, found, i);
  }

  lemma {:induction false} CallablesPrefix(c: Contents, hasUrl: string -> bool, found: seq<Occurrence>, i: nat)
    requires i <= |found|
    ensures Callables(c, hasUrl, found[..i]) <= Callables(c, hasUrl, found)
  {
    hide Callee;
    if i == |found| {
      assert found[..i] == found;
    } else {
      var front := found[..|found| - 1];
      CallablesPrefix(c, hasUrl, front, i);
      assert front[..i] == found[..i];
    }
  }

  // ---- callers and callees agree ----

  /** Whether `r` sits at a declaration of the symbol it refers to. */
  ghost predicate AtDeclaration(c: Contents, symbol: string, r: Reference) {
    exists i :: 0 <= i < |c.definitions| && IsSite(c.definitions[i], symbol, r.path, r.range)
  }

  /** A reference that makes `d` a caller of `symbol`. */
  ghost predicate CallsFrom(c: Contents, d: nat, r: Reference) {
    WellFormed(r.range) && SitesInRange(c, r.path) && CallerOf(c, r) == Some(d)
  }

  lemma NoSiteNoDeclaration(c: Contents, lower: string -> string, facts: seq<Fact>, path: string,
                            symbol: string, range: Range)
    requires Describes(c, lower, facts)
    ensures SitesInRange(c, path)
    ensures AnySite(c.definitions, Get(c.byPath, path), symbol, range)
            <==> exists i :: 0 <= i < |c.definitions| && IsSite(c.definitions[i], symbol, path, range)
    ensures !AnySite(c.definitions, Get(c.byPath, path), symbol, range) ==>
              forall f :: f in facts && f.symbol == symbol && f.path == path && f.range == range ==> f.role.Mentions?
  {
    FileSites(c, lower, facts, path);
    AnySiteIsDeclared(c.definitions, c.byPath, lower, path, symbol, range);
    hide Tabulates, Keys, Gather, Distinct, Numbers, Listed, Occurring, Sited, NoTwins, DefinitionsOf, AnySite;
    if i :| 0 <= i < |c.definitions| && c.definitions[i].path == path && c.definitions[i].symbol == symbol && c.definitions[i].range == range {
      assert IsSite(c.definitions[i], symbol, path, range);
    }
    forall f | f in facts && f.symbol == symbol && f.path == path && f.range == range && f.role.Declares?
      ensures exists i :: 0 <= i < |c.definitions| && IsSite(c.definitions[i], symbol, path, range)
    {
      DefinitionsHold(facts, f);
      var i :| 0 <= i < |c.definitions| && SameSite(c.definitions[i], DefinitionOf(f));
      assert IsSite(c.definitions[i], symbol, path, range);
    }
  }

  lemma FileHolds(c: Contents, lower: string -> string, facts: seq<Fact>, path: string)
    requires Describes(c, lower, facts)
    ensures Holds(Placed(c.occurrences, path), c.symbolNames, facts, path, false)
    ensures NoTwins(c.definitions) && c.symbolNames == Distinct(Gather(facts, Symbol()))
  {
    hide Gather, Distinct, Numbers, Listed, DefinitionsOf, Tabulates, Keys, Sited, Seen, StrictlySorted;
    assert Holds(Placed(c.occurrences, path), c.symbolNames, facts, path, Some(path) == None);
  }

  /** In its own declaration a callable has a caller, so the test that a mention belongs
      elsewhere leaves only its own. */
  lemma OwnMention(c: Contents, lower: string -> string, facts: seq<Fact>, d: nat, o: Occurrence)
    requires Describes(c, lower, facts) && d < |c.definitions| && IsCallable(c.definitions[d])
    requires c.definitions[d].enclosing.Some? && SitesInRange(c, c.definitions[d].path)
    requires Wanted(c, CalleesWithin(c, d), o)
    ensures EnclosingCallable(c, c.definitions[d].path, o.range) == Some(d)
  {
    var def, path := c.definitions[d], c.definitions[d].path;
    hide Describes, Gather, Distinct, AnySite, EnclosingCallable, Holds, Innermost, NoTwins, SitesInRange;
    FileHolds(c, lower, facts, path);
    EnclosingCallableIsInnermost(c, lower, facts, path, o.range);
    FindsSome(c.definitions, path, o.range, EnclosingCallable(c, path, o.range), d);
    OneSite(c.definitions, d, EnclosingCallable(c, path, o.range).value, def.symbol, path, def.range);
  }

  lemma FindsSome(defs: seq<Definition>, path: string, range: Range, best: Option<nat>, d: nat)
    requires WellFormed(range) && Innermost(defs, path, range, best)
    requires d < |defs| && defs[d].path == path && Surrounds(defs[d], range)
    ensures best.Some? && best.value < |defs| && defs[best.value].path == path
  {
    hide Size, Surrounds;
  }

  lemma ListedIsCalled(c: Contents, lower: string -> string, facts: seq<Fact>, d: nat, o: Occurrence)
    returns (r: Reference)
    requires Describes(c, lower, facts) && d < |c.definitions| && IsCallable(c.definitions[d])
    requires c.definitions[d].enclosing.Some? && SitesInRange(c, c.definitions[d].path)
    requires o in Placed(c.occurrences, c.definitions[d].path) && Wanted(c, CalleesWithin(c, d), o)
    ensures var symbol := c.symbolNames[o.symbol];
            && r in Distinct(Gather(facts, UseOf(symbol)))
            && CallsFrom(c, d, r) && !AtDeclaration(c, symbol, r)
  {
    hide Describes, Gather, Distinct, AnySite, EnclosingCallable, StrictlySorted;
    var path, symbol := c.definitions[d].path, c.symbolNames[o.symbol];
    OwnMention(c, lower, facts, d, o);
    FileHolds(c, lower, facts, path);
    NoSiteNoDeclaration(c, lower, facts, path, symbol, o.range);
    assert Seen(facts, path, o.range, symbol);
    var i :| 0 <= i < |facts| && facts[i].path == path && facts[i].range == o.range && facts[i].symbol == symbol;
    assert facts[i] in facts;
    r := FactIsUse(facts, facts[i]);
  }

  lemma CalledIsListed(c: Contents, lower: string -> string, facts: seq<Fact>, d: nat, symbol: string, r: Reference)
    requires Describes(c, lower, facts) && d < |c.definitions| && IsCallable(c.definitions[d])
    requires SitesInRange(c, c.definitions[d].path)
    requires r in Distinct(Gather(facts, UseOf(symbol))) && CallsFrom(c, d, r) && !AtDeclaration(c, symbol, r)
    ensures Lists(c, Callees(c, d), symbol)
  {
    EnclosingCallableIsInnermost(c, lower, facts, r.path, r.range);
    var path := r.path;
    FileHolds(c, lower, facts, path);
    NoSiteNoDeclaration(c, lower, facts, path, symbol, r.range);
    hide Describes, Gather, Distinct, AnySite, EnclosingCallable, StrictlySorted, Size, Mentioned;
    assert c.definitions[d].path == path && Surrounds(c.definitions[d], r.range);
    var list := Placed(c.occurrences, path);
    var f := UseIsFact(facts, symbol, r);
    var o := SeenIsPlaced(list, c.symbolNames, facts, path, f);
    var i :| 0 <= i < |list| && list[i] == o;
    assert Wanted(c, CalleesWithin(c, d), o);
    MentionedReports(c, CalleesWithin(c, d), list, i);
    var k :| 0 <= k < |Callees(c, d)| && Callees(c, d)[k].symbol == o.symbol;
  }

  /** A callable mentions a symbol exactly when it is the caller of some reference to
      it that is not also a declaration of it: the two directions of the hierarchy, one
      from the reference table and one from the occurrences, tell the same story. */
  lemma CalleesAreCalled(c: Contents, lower: string -> string, facts: seq<Fact>, d: nat, symbol: string)
    requires Describes(c, lower, facts) && RangesWellFormed(facts)
    requires d < |c.definitions| && IsCallable(c.definitions[d])
    ensures SitesInRange(c, c.definitions[d].path)
    ensures InRange(|c.referencePaths|, Stored(c.references, symbol))
    ensures Lists(c, Callees(c, d), symbol)
            <==> exists r :: r in ReferencesTo(c, symbol) && CallsFrom(c, d, r) && !AtDeclaration(c, symbol, r)
  {
    FileSites(c, lower, facts, c.definitions[d].path);
    ReferencesAreUses(c, lower, facts, symbol);
    hide Describes;
    if Lists(c, Callees(c, d), symbol) {
      var k :| 0 <= k < |Callees(c, d)| && Callees(c, d)[k].symbol < |c.symbolNames| && c.symbolNames[Callees(c, d)[k].symbol] == symbol;
      var i := MentionedAtFirst(c, CalleesWithin(c, d), Placed(c.occurrences, c.definitions[d].path), k);
      var r := ListedIsCalled(c, lower, facts, d, Placed(c.occurrences, c.definitions[d].path)[i]);
      assert r in ReferencesTo(c, symbol) && CallsFrom(c, d, r) && !AtDeclaration(c, symbol, r);
    }
    if r :| r in ReferencesTo(c, symbol) && CallsFrom(c, d, r) && !AtDeclaration(c, symbol, r) {
      CalledIsListed(c, lower, facts, d, symbol, r);
    }
  }

  /** No row is a reference to the symbol where another declares it. */
  ghost predicate NeverBoth(facts: seq<Fact>, symbol: string) {
    forall f, g :: f in facts && g in facts && f.role.Declares? && g.role.Mentions? && f.symbol == g.symbol == symbol ==>
      !(f.path == g.path && f.range == g.range)
  }

  lemma NotAtDeclaration(c: Contents, lower: string -> string, facts: seq<Fact>, symbol: string, r: Reference)
    requires Describes(c, lower, facts) && NeverBoth(facts, symbol) && r in Distinct(Gather(facts, UseOf(symbol)))
    ensures !AtDeclaration(c, symbol, r)
  {
    var g := UseIsFact(facts, symbol, r);
    hide Derived, Gather, Distinct, Numbers, Listed, Occurring, DefinitionsOf;
    forall i | 0 <= i < |c.definitions|
      ensures !IsSite(c.definitions[i], symbol, r.path, r.range)
    {
      DefinitionsAreDeclared(facts, i);
      var f :| f in facts && f.role.Declares? && DefinitionOf(f) == c.definitions[i];
      assert f.symbol == symbol ==> !(f.path == g.path && f.range == g.range);
    }
  }

  /** A definition is a caller exactly when some reference lies in it. */
  lemma CallerOfSome(c: Contents, refs: seq<Reference>, d: nat)
    requires Sound(c, refs)
    ensures d in Distinct(Present(CallersOf(c, refs))) <==> exists r :: r in refs && CallsFrom(c, d, r)
  {
    var sites := CallersOf(c, refs);
    DistinctHolds(Present(sites), d);
    PresentHolds(sites, d);
    hide Distinct, Present, CallerOf, SitesInRange;
    if Some(d) in sites {
      var i :| 0 <= i < |sites| && sites[i] == Some(d);
      assert refs[i] in refs && CallsFrom(c, d, refs[i]);
    }
    if r :| r in refs && CallsFrom(c, d, r) {
      var i :| 0 <= i < |refs| && refs[i] == r;
      assert sites[i] == Some(d);
    }
  }

  /** Before the limits, and when no reference to the symbol sits at a declaration of
      it, `d` is among the symbol's callers exactly when the symbol is among its callees. */
  lemma CallersAndCalleesAgree(c: Contents, lower: string -> string, facts: seq<Fact>, d: nat, symbol: string)
    requires Describes(c, lower, facts) && RangesWellFormed(facts) && NeverBoth(facts, symbol)
    requires d < |c.definitions| && IsCallable(c.definitions[d])
    ensures SitesInRange(c, c.definitions[d].path)
    ensures InRange(|c.referencePaths|, Stored(c.references, symbol)) && Sound(c, ReferencesTo(c, symbol))
    ensures d in Distinct(Present(CallersOf(c, ReferencesTo(c, symbol)))) <==> Lists(c, Callees(c, d), symbol)
  {
    hide Describes, Gather, Distinct, Present, Callees, Lists, CallsFrom, ReferencesTo, AtDeclaration, NeverBoth, Sound, SitesInRange;
    ReferencesAreSound(c, lower, facts, symbol);
    ReferencesAreUses(c, lower, facts, symbol);
    CalleesAreCalled(c, lower, facts, d, symbol);
    var refs := ReferencesTo(c, symbol);
    CallerOfSome(c, refs, d);
    forall r | r in refs
      ensures !AtDeclaration(c, symbol, r)
    {
      NotAtDeclaration(c, lower, facts, symbol, r);
    }
  }
}
