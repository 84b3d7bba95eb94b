/** A file's definitions in source order (crates/symbol-index/src/lib.rs:885-897), as
    the outline needs them. */
module FileOutline {
  import opened Wrappers
  import opened Ranges
  import opened Definitions
  import opened Buckets
  import opened IndexContents
  import opened IndexQueries
  import opened ShardRows
  import DocumentSymbols

  /** The order of a stable sort by where names start. */
  predicate Earlier(defs: seq<Definition>, i: nat, j: nat)
    requires i < |defs| && j < |defs|
  {
    var a, b := defs[i].range, defs[j].range;
    || a.startLine < b.startLine
    || (a.startLine == b.startLine && (a.startCol < b.startCol || (a.startCol == b.startCol && i < j)))
  }

  ghost predicate StablySorted(defs: seq<Definition>, order: seq<nat>) {
    && (forall k :: 0 <= k < |order| ==> order[k] < |defs|)
    && (forall k, l :: 0 <= k < l < |order| ==> Earlier(defs, order[k], order[l]))
  }

  function Place(defs: seq<Definition>, order: seq<nat>, i: nat): seq<nat>
    requires i < |defs| && forall k :: 0 <= k < |order| ==> order[k] < |defs|
  {
    if order == [] || Earlier(defs, order[|order| - 1], i) then order + [i]
    else Place(defs, order[..|order| - 1], i) + [order[|order| - 1]]
  }

  lemma {:induction false} PlaceHolds(defs: seq<Definition>, order: seq<nat>, i: nat, x: nat)
    requires i < |defs| && forall k :: 0 <= k < |order| ==> order[k] < |defs|
    ensures x in Place(defs, order, i) <==> x in order || x == i
  {
    hide Earlier;
    if order != [] {
      PlaceHolds(defs, order[..|order| - 1], i, x);
      assert order == order[..|order| - 1] + [order[|order| - 1]];
    }
  }

  lemma {:induction false} PlaceSorts(defs: seq<Definition>, order: seq<nat>, i: nat)
    requires i < |defs| && i !in order && StablySorted(defs, order)
    ensures StablySorted(defs, Place(defs, order, i))
  {
    if order != [] {
      var front, last := order[..|order| - 1], order[|order| - 1];
      if Earlier(defs, last, i) {
        assert forall k :: 0 <= k < |front| ==> Earlier(defs, order[k], last);
      } else {
        assert last in order;
        PlaceSorts(defs, front, i);
        var placed := Place(defs, front, i);
        forall k | 0 <= k < |placed|
          ensures placed[k] < |defs| && Earlier(defs, placed[k], last)
        {
          PlaceHolds(defs, front, i, placed[k]);
          if placed[k] in front {
            var j :| 0 <= j < |front| && front[j] == placed[k];
            assert Earlier(defs, order[j], order[|order| - 1]);
          }
        }
      }
    }
  }

  /** `definitions_in`: exactly the file's definitions, by position, ties in the order
      they were taken in. */
  method DefinitionsIn(c: Contents, ghost lower: string -> string, ghost facts: seq<Fact>, path: string)
    returns (order: seq<nat>)
    requires Describes(c, lower, facts)
    ensures StablySorted(c.definitions, order)
    ensures forall i: nat :: i in order <==> i < |c.definitions| && c.definitions[i].path == path
    ensures forall k, l :: 0 <= k < l < |order| ==>
              var a, b := c.definitions[order[k]].range, c.definitions[order[l]].range;
              && Before(a.startLine, a.startCol, b.startLine, b.startCol)
              && (a.startLine == b.startLine && a.startCol == b.startCol ==> order[k] < order[l])
  {
    hide Describes, Earlier, Place;
    FileSites(c, lower, facts, path);
    var sites := Get(c.byPath, path);
    order := [];
    for j := 0 to |sites|
      invariant StablySorted(c.definitions, order)
      invariant forall x :: x in order <==> x in sites[..j]
    {
      assert sites[..j + 1] == sites[..j] + [sites[j]];
      PlaceSorts(c.definitions, order, sites[j]);
      forall x
        ensures x in Place(c.definitions, order, sites[j]) <==> x in sites[..j + 1]
      {
        PlaceHolds(c.definitions, order, sites[j], x);
      }
      order := Place(c.definitions, order, sites[j]);
    }
    assert sites[..|sites|] == sites;
    SortedByStart(c.definitions, order);
  }

  lemma SortedByStart(defs: seq<Definition>, order: seq<nat>)
    requires StablySorted(defs, order)
    ensures forall k, l :: 0 <= k < l < |order| ==>
              var a, b := defs[order[k]].range, defs[order[l]].range;
              && Before(a.startLine, a.startCol, b.startLine, b.startCol)
              && (a.startLine == b.startLine && a.startCol == b.startCol ==> order[k] < order[l])
  {
  }

  function Listed(defs: seq<Definition>, order: seq<nat>): seq<Definition>
    requires forall k :: 0 <= k < |order| ==> order[k] < |defs|
  {
    seq(|order|, k requires 0 <= k < |order| => defs[order[k]])
  }

  /** Names are words of the file: not empty, and two of them are the same or apart. */
  ghost predicate NamesApart(defs: seq<Definition>, path: string) {
    && (forall i :: 0 <= i < |defs| && defs[i].path == path ==>
          WellFormed(defs[i].range) && !Before(defs[i].range.endLine, defs[i].range.endCol, defs[i].range.startLine, defs[i].range.startCol))
    && (forall i, j :: 0 <= i < |defs| && 0 <= j < |defs| && defs[i].path == defs[j].path == path ==>
          Apart(defs[i].range, defs[j].range))
  }

  ghost predicate Apart(a: Range, b: Range) {
    a == b || Before(a.endLine, a.endCol, b.startLine, b.startCol) || Before(b.endLine, b.endCol, a.startLine, a.startCol)
  }

  /** Then the sorted definitions are in the source order the outline relies on to give
      every symbol its innermost parent. */
  lemma OutlineIsSourceOrdered(defs: seq<Definition>, order: seq<nat>, path: string)
    requires StablySorted(defs, order) && NamesApart(defs, path)
    requires forall k :: 0 <= k < |order| ==> defs[order[k]].path == path
    requires forall i :: 0 <= i < |defs| && defs[i].path == path && defs[i].enclosing.Some? ==>
               Before(defs[i].enclosing.value.startLine, defs[i].enclosing.value.startCol, defs[i].range.startLine, defs[i].range.startCol)
    ensures DocumentSymbols.SourceOrdered(Listed(defs, order))
  {
    var listed := Listed(defs, order);
    forall k, l | 0 <= k < l < |listed|
      ensures Before(listed[k].range.startLine, listed[k].range.startCol, listed[l].range.startLine, listed[l].range.startCol)
      ensures Before(listed[k].range.endLine, listed[k].range.endCol, listed[l].range.endLine, listed[l].range.endCol)
    {
      assert Earlier(defs, order[k], order[l]);
      assert Apart(defs[order[k]].range, defs[order[l]].range);
    }
  }
}
