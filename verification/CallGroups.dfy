/** Grouping references by the callable each lies in (crates/jabar-server/src/
    handlers.rs:625-645). `sites` gives each reference its caller, if it has one. */
module CallGroups {
  import opened Wrappers
  import opened Repeats
  import opened Buckets
  import opened ShardRows

  function Present(sites: seq<Option<nat>>): seq<nat> {
    if sites == [] then []
    else Present(sites[..|sites| - 1]) + if sites[|sites| - 1].Some? then [sites[|sites| - 1].value] else []
  }

  /** The references whose caller is `d`. */
  function From(refs: seq<Reference>, sites: seq<Option<nat>>, d: nat): seq<Reference>
    requires |refs| == |sites|
  {
    if refs == [] then []
    else
      From(refs[..|refs| - 1], sites[..|sites| - 1], d)
      + if sites[|sites| - 1] == Some(d) then [refs[|refs| - 1]] else []
  }

  datatype Incoming = Incoming(caller: nat, calls: seq<Reference>)

  /** One entry per caller, in the order they first call, with all its calls; of the
      callers beyond the limit nothing is kept. */
  ghost predicate Groups(callers: seq<Incoming>, refs: seq<Reference>, sites: seq<Option<nat>>, limit: nat)
    requires |refs| == |sites|
  {
    var all := Distinct(Present(sites));
    && |callers| == (if |all| <= limit then |all| else limit)
    && forall k :: 0 <= k < |callers| ==> callers[k] == Incoming(all[k], From(refs, sites, all[k]))
  }

  /** One reference more. */
  lemma GroupsOne(callers: seq<Incoming>, refs: seq<Reference>, sites: seq<Option<nat>>, limit: nat,
                  r: Reference, site: Option<nat>)
    requires |refs| == |sites| && Groups(callers, refs, sites, limit)
    ensures site.None? ==> Groups(callers, refs + [r], sites + [site], limit)
    ensures forall k :: 0 <= k < |callers| && site == Some(callers[k].caller) ==>
              Groups(callers[k := callers[k].(calls := callers[k].calls + [r])], refs + [r], sites + [site], limit)
    ensures site.Some? && (forall k :: 0 <= k < |callers| ==> callers[k].caller != site.value) ==>
              Groups(if |callers| == limit then callers else callers + [Incoming(site.value, [r])], refs + [r], sites + [site], limit)
  {
    hide Distinct, From, Present;
    var all := Distinct(Present(sites));
    var all' := Distinct(Present(sites + [site]));
    PresentSnoc(sites, site);
    if site.Some? {
      DistinctSnoc(Present(sites), site.value);
      DistinctHolds(Present(sites), site.value);
    } else {
      assert Present(sites) + [] == Present(sites);
    }
    DistinctNoRepeats(Present(sites));
    assert all' == all || (site.Some? && all' == all + [site.value]);
    forall d: nat
      ensures From(refs + [r], sites + [site], d) == From(refs, sites, d) + if site == Some(d) then [r] else []
    {
      FromSnoc(refs, sites, r, site, d);
    }
    forall d: nat
      ensures From(refs, sites, d) + [] == From(refs, sites, d)
    {
    }
    if site.Some? && site.value !in all {
      NotFrom(refs, sites, site.value);
      assert [] + [r] == [r];
    }
  }

  lemma PresentSnoc(sites: seq<Option<nat>>, site: Option<nat>)
    ensures Present(sites + [site]) == Present(sites) + if site.Some? then [site.value] else []
  {
    assert (sites + [site])[..|sites + [site]| - 1] == sites;
  }

  lemma FromSnoc(refs: seq<Reference>, sites: seq<Option<nat>>, r: Reference, site: Option<nat>, d: nat)
    requires |refs| == |sites|
    ensures From(refs + [r], sites + [site], d) == From(refs, sites, d) + if site == Some(d) then [r] else []
  {
    assert (refs + [r])[..|refs + [r]| - 1] == refs && (sites + [site])[..|sites + [site]| - 1] == sites;
  }

  lemma {:induction false} NotFrom(refs: seq<Reference>, sites: seq<Option<nat>>, d: nat)
    requires |refs| == |sites| && d !in Distinct(Present(sites))
    ensures From(refs, sites, d) == []
  {
    DistinctHolds(Present(sites), d);
    if refs != [] {
      DistinctHolds(Present(sites[..|sites| - 1]), d);
      NotFrom(refs[..|refs| - 1], sites[..|sites| - 1], d);
    }
  }

  /** The calls of an entry: the references of which this is the caller, all of them, in order. */
  ghost predicate AllFrom(calls: seq<Reference>, refs: seq<Reference>, sites: seq<Option<nat>>, d: nat, at: seq<nat>)
    requires |refs| == |sites|
  {
    && Increasing(at) && |at| == |calls|
    && (forall k :: 0 <= k < |at| ==> at[k] < |refs| && sites[at[k]] == Some(d) && calls[k] == refs[at[k]])
    && (forall i: nat :: i < |refs| && sites[i] == Some(d) ==> i in at)
  }

  lemma {:induction false} FromInOrder(refs: seq<Reference>, sites: seq<Option<nat>>, d: nat) returns (at: seq<nat>)
    requires |refs| == |sites|
    ensures AllFrom(From(refs, sites, d), refs, sites, d, at)
  {
    hide AllFrom;
    if refs == [] {
      at := [];
      NoneFrom(d);
    } else {
      var last := |refs| - 1;
      var before := FromInOrder(refs[..last], sites[..last], d);
      assert refs == refs[..last] + [refs[last]] && sites == sites[..last] + [sites[last]];
      at := AllFromSnoc(From(refs[..last], sites[..last], d), refs[..last], sites[..last], d, before, refs[last], sites[last]);
    }
  }

  lemma NoneFrom(d: nat)
    ensures AllFrom([], [], [], d, [])
  {
  }

  lemma AllFromSnoc(calls: seq<Reference>, refs: seq<Reference>, sites: seq<Option<nat>>, d: nat, before: seq<nat>,
                    r: Reference, site: Option<nat>) returns (at: seq<nat>)
    requires |refs| == |sites| && AllFrom(calls, refs, sites, d, before)
    ensures AllFrom(calls + if site == Some(d) then [r] else [], refs + [r], sites + [site], d, at)
  {
    at := before;
    if site == Some(d) {
      at := at + [|refs|];
    } else {
      assert calls + [] == calls;
    }
  }

  /** `i` is the first call of a caller. */
  ghost predicate OpensEntry(sites: seq<Option<nat>>, i: nat) {
    i < |sites| && sites[i].Some? && forall j :: 0 <= j < i ==> sites[j] != sites[i]
  }

  /** The entries are opened by the first calls of their callers, in order; a first call that
      opens none has a full list before it. */
  ghost predicate OpenedBy(callers: seq<Incoming>, sites: seq<Option<nat>>, limit: nat, at: seq<nat>) {
    && Increasing(at) && |at| == |callers| <= limit
    && (forall k :: 0 <= k < |at| ==> OpensEntry(sites, at[k]) && sites[at[k]] == Some(callers[k].caller))
    && (forall i :: OpensEntry(sites, i) ==> i in at || (|at| == limit && forall k :: 0 <= k < |at| ==> at[k] < i))
  }

  ghost predicate PresentAt(sites: seq<Option<nat>>, present: seq<nat>, at: seq<nat>) {
    && Increasing(at) && |at| == |present|
    && (forall k :: 0 <= k < |at| ==> at[k] < |sites| && sites[at[k]] == Some(present[k]))
    && (forall i: nat :: i < |sites| && sites[i].Some? ==> i in at)
  }

  lemma {:induction false} PresentPlaces(sites: seq<Option<nat>>) returns (at: seq<nat>)
    ensures PresentAt(sites, Present(sites), at)
  {
    hide PresentAt;
    if sites == [] {
      at := [];
      NonePresent();
    } else {
      var last := |sites| - 1;
      var before := PresentPlaces(sites[..last]);
      assert sites == sites[..last] + [sites[last]];
      at := PresentAtSnoc(sites[..last], Present(sites[..last]), before, sites[last]);
    }
  }

  lemma NonePresent()
    ensures PresentAt([], [], [])
  {
  }

  lemma PresentAtSnoc(sites: seq<Option<nat>>, present: seq<nat>, before: seq<nat>, site: Option<nat>)
    returns (at: seq<nat>)
    requires PresentAt(sites, present, before)
    ensures PresentAt(sites + [site], present + if site.Some? then [site.value] else [], at)
  {
    at := before;
    if site.Some? {
      at := at + [|sites|];
    } else {
      assert present + [] == present;
    }
  }

  /** First occurrences among the callers are first calls. */
  lemma FirstCalls(sites: seq<Option<nat>>) returns (at: seq<nat>)
    ensures Increasing(at) && |at| == |Distinct(Present(sites))|
    ensures forall k :: 0 <= k < |at| ==> OpensEntry(sites, at[k]) && sites[at[k]] == Some(Distinct(Present(sites))[k])
    ensures forall i :: OpensEntry(sites, i) ==> i in at
  {
    hide Distinct, Present, IsFirst, OpensEntry;
    var all := Present(sites);
    var places := PresentPlaces(sites);
    var firsts := DistinctInOrder(all);
    FirstsAreInRange(all, firsts);
    at := seq(|firsts|, k requires 0 <= k < |firsts| => places[firsts[k]]);
    forall p: nat | p < |places|
      ensures OpensEntry(sites, places[p]) <==> IsFirst(all, p)
    {
      FirstCall(sites, all, places, p);
    }
    OpenersArePlaces(sites, places);
    forall i | OpensEntry(sites, i)
      ensures i in at
    {
      var p :| 0 <= p < |places| && places[p] == i;
      var k :| 0 <= k < |firsts| && firsts[k] == p;
      assert at[k] == i;
    }
  }

  lemma FirstsAreInRange(all: seq<nat>, firsts: seq<nat>)
    requires FirstsOf(all, Distinct(all), firsts)
    ensures forall k :: 0 <= k < |firsts| ==> firsts[k] < |all|
  {
  }

  lemma OpenersArePlaces(sites: seq<Option<nat>>, places: seq<nat>)
    requires forall i: nat :: i < |sites| && sites[i].Some? ==> i in places
    ensures forall i :: OpensEntry(sites, i) ==> i in places
  {
  }

  lemma FirstCall(sites: seq<Option<nat>>, all: seq<nat>, places: seq<nat>, p: nat)
    requires PresentAt(sites, all, places) && p < |places|
    ensures OpensEntry(sites, places[p]) <==> IsFirst(all, p)
  {
    if IsFirst(all, p) {
      forall j | 0 <= j < places[p]
        ensures sites[j] != sites[places[p]]
      {
        if sites[j].Some? {
          var q :| 0 <= q < |places| && places[q] == j;
          assert q < p;
        }
      }
    } else {
      var q :| 0 <= q < p && all[q] == all[p];
      assert places[q] < places[p];
    }
  }

  ghost predicate HasAllCalls(entry: Incoming, refs: seq<Reference>, sites: seq<Option<nat>>)
    requires |refs| == |sites|
  {
    exists at :: AllFrom(entry.calls, refs, sites, entry.caller, at)
  }

  /** One entry per caller, opened by its first call, with all its calls in order. */
  ghost predicate GroupedByCaller(callers: seq<Incoming>, refs: seq<Reference>, sites: seq<Option<nat>>, limit: nat)
    requires |refs| == |sites|
  {
    && (exists at :: OpenedBy(callers, sites, limit, at))
    && forall k :: 0 <= k < |callers| ==> HasAllCalls(callers[k], refs, sites)
  }

  /** What the grouping comes to. */
  lemma GroupsExactly(callers: seq<Incoming>, refs: seq<Reference>, sites: seq<Option<nat>>, limit: nat)
    requires |refs| == |sites| && Groups(callers, refs, sites, limit)
    ensures GroupedByCaller(callers, refs, sites, limit)
  {
    hide Distinct, From, Present, AllFrom, OpenedBy;
    EntriesOpened(callers, refs, sites, limit);
    forall k | 0 <= k < |callers|
      ensures HasAllCalls(callers[k], refs, sites)
    {
      assert callers[k].calls == From(refs, sites, callers[k].caller);
      var places := FromInOrder(refs, sites, callers[k].caller);
    }
  }

  lemma EntriesOpened(callers: seq<Incoming>, refs: seq<Reference>, sites: seq<Option<nat>>, limit: nat)
    requires |refs| == |sites| && Groups(callers, refs, sites, limit)
    ensures exists at :: OpenedBy(callers, sites, limit, at)
  {
    hide Distinct, From, Present, OpensEntry, OpenedBy;
    var first := FirstCalls(sites);
    FirstOnes(callers, Distinct(Present(sites)), sites, limit, first);
  }

  lemma FirstOnes(callers: seq<Incoming>, all: seq<nat>, sites: seq<Option<nat>>, limit: nat, first: seq<nat>)
    requires Increasing(first) && |first| == |all| && |callers| == (if |all| <= limit then |all| else limit)
    requires forall k :: 0 <= k < |first| ==> OpensEntry(sites, first[k]) && sites[first[k]] == Some(all[k])
    requires forall i :: OpensEntry(sites, i) ==> i in first
    requires forall k :: 0 <= k < |callers| ==> callers[k].caller == all[k]
    ensures exists at :: OpenedBy(callers, sites, limit, at)
  {
    LaterThanAll(sites, first, limit);
    hide OpensEntry;
    var at := if |first| <= limit then first else first[..limit];
    OpenersInRange(sites, first);
    assert OpenedBy(callers, sites, limit, at);
  }

  lemma OpenersInRange(sites: seq<Option<nat>>, first: seq<nat>)
    requires forall k :: 0 <= k < |first| ==> OpensEntry(sites, first[k])
    ensures forall k :: 0 <= k < |first| ==> first[k] < |sites|
  {
  }

  lemma LaterThanAll(sites: seq<Option<nat>>, first: seq<nat>, limit: nat)
    requires Increasing(first) && forall i :: OpensEntry(sites, i) ==> i in first
    ensures var at := if |first| <= limit then first else first[..limit];
            forall i :: OpensEntry(sites, i) ==> i in at || (|at| == limit && forall k :: 0 <= k < |at| ==> at[k] < i)
  {
    hide OpensEntry;
    var at := if |first| <= limit then first else first[..limit];
    forall i | OpensEntry(sites, i)
      ensures i in at || (|at| == limit && forall k :: 0 <= k < |at| ==> at[k] < i)
    {
      var k :| 0 <= k < |first| && first[k] == i;
      assert k < |at| ==> at[k] == i;
    }
  }

  lemma {:induction false} PresentHolds(sites: seq<Option<nat>>, d: nat)
    ensures d in Present(sites) <==> Some(d) in sites
  {
    if sites != [] {
      PresentHolds(sites[..|sites| - 1], d);
      assert sites == sites[..|sites| - 1] + [sites[|sites| - 1]];
    }
  }
}
