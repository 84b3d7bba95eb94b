/** One file's occurrences, sorted so that lookups by position can stop early
    (crates/symbol-index/src/lib.rs:236-240, 545-558, 763-784). */
module Occurrences {
  import opened Wrappers
  import opened Ranges

  datatype Occurrence = Occurrence(range: Range, symbol: nat)

  function Key(o: Occurrence): seq<nat> {
    [o.range.startLine, o.range.startCol, o.range.endLine, o.range.endCol, o.symbol]
  }

  predicate LessFrom(a: seq<nat>, b: seq<nat>, i: nat)
    requires |a| == |b| && i <= |a|
    decreases |a| - i
  {
    i < |a| && (a[i] < b[i] || (a[i] == b[i] && LessFrom(a, b, i + 1)))
  }

  /** The order `sort_by_key` uses. */
  predicate Less(a: Occurrence, b: Occurrence) {
    LessFrom(Key(a), Key(b), 0)
  }

  lemma {:induction false} LessFromOrders(a: seq<nat>, b: seq<nat>, c: seq<nat>, i: nat)
    requires |a| == |b| == |c| && i <= |a|
    ensures !LessFrom(a, a, i)
    ensures LessFrom(a, b, i) && LessFrom(b, c, i) ==> LessFrom(a, c, i)
    ensures LessFrom(a, b, i) || LessFrom(b, a, i) || forall k :: i <= k < |a| ==> a[k] == b[k]
    decreases |a| - i
  {
    if i < |a| {
      LessFromOrders(a, b, c, i + 1);
    }
  }

  lemma LessOrders(a: Occurrence, b: Occurrence, c: Occurrence)
    ensures !Less(a, a)
    ensures Less(a, b) && Less(b, c) ==> Less(a, c)
    ensures Less(a, b) || Less(b, a) || a == b
  {
    hide LessFrom;
    LessFromOrders(Key(a), Key(b), Key(c), 0);
    if forall k :: 0 <= k < |Key(a)| ==> Key(a)[k] == Key(b)[k] {
      assert Key(a)[0] == Key(b)[0] && Key(a)[1] == Key(b)[1] && Key(a)[2] == Key(b)[2]
          && Key(a)[3] == Key(b)[3] && Key(a)[4] == Key(b)[4];
    }
  }

  lemma LessStartsNoLater(a: Occurrence, b: Occurrence)
    requires Less(a, b)
    ensures a.range.startLine <= b.range.startLine
  {
  }

  ghost predicate StrictlySorted(s: seq<Occurrence>) {
    forall i, j :: 0 <= i < j < |s| ==> Less(s[i], s[j])
  }

  /** An occurrence comes before another that starts later, among those with one start before
      one that ends later, and among those of one range before a symbol met later. */
  lemma LessIsBySource(a: Occurrence, b: Occurrence)
    ensures Less(a, b) <==>
            var r, q := a.range, b.range;
            || !Before(q.startLine, q.startCol, r.startLine, r.startCol)
            || (r.startLine == q.startLine && r.startCol == q.startCol && !Before(q.endLine, q.endCol, r.endLine, r.endCol))
            || (r == q && a.symbol < b.symbol)
  {
    var k, l := Key(a), Key(b);
    assert LessFrom(k, l, 4) <==> a.symbol < b.symbol;
    assert LessFrom(k, l, 3) <==> k[3] < l[3] || (k[3] == l[3] && LessFrom(k, l, 4));
    assert LessFrom(k, l, 2) <==> k[2] < l[2] || (k[2] == l[2] && LessFrom(k, l, 3));
    assert LessFrom(k, l, 1) <==> k[1] < l[1] || (k[1] == l[1] && LessFrom(k, l, 2));
  }

  /** Puts `o` in its place, unless it is there already. */
  function Place(s: seq<Occurrence>, o: Occurrence): seq<Occurrence> {
    if s == [] then [o]
    else
      var front, last := s[..|s| - 1], s[|s| - 1];
      if last == o then s
      else if Less(last, o) then s + [o]
      else Place(front, o) + [last]
  }

  lemma {:induction false} PlaceHolds(s: seq<Occurrence>, o: Occurrence, x: Occurrence)
    ensures x in Place(s, o) <==> x in s || x == o
  {
    hide Less;
    if s != [] {
      PlaceHolds(s[..|s| - 1], o, x);
      assert s == s[..|s| - 1] + [s[|s| - 1]];
    }
  }

  lemma {:induction false} PlaceSorts(s: seq<Occurrence>, o: Occurrence)
    requires StrictlySorted(s)
    ensures StrictlySorted(Place(s, o))
  {
    hide Less;
    if s != [] {
      var front, last := s[..|s| - 1], s[|s| - 1];
      LessOrders(last, o, o);
      if Less(last, o) {
        forall i | 0 <= i < |s|
          ensures Less(s[i], o)
        {
          LessOrders(s[i], last, o);
        }
      } else if last != o {
        PlaceSorts(front, o);
        var placed := Place(front, o);
        forall i | 0 <= i < |placed|
          ensures Less(placed[i], last)
        {
          PlaceHolds(front, o, placed[i]);
          if placed[i] in front {
            var k :| 0 <= k < |front| && front[k] == placed[i];
            assert Less(s[k], s[|s| - 1]);
          }
        }
      }
    }
  }

  /** The sort and the removal of repeats that end each document. */
  method SortDistinct(s: seq<Occurrence>) returns (r: seq<Occurrence>)
    ensures StrictlySorted(r)
    ensures forall o :: o in r <==> o in s
  {
    hide Less, Place;
    r := [];
    for i := 0 to |s|
      invariant StrictlySorted(r)
      invariant forall o :: o in r <==> o in s[..i]
    {
      PlaceSorts(r, s[i]);
      forall o
        ensures o in Place(r, s[i]) <==> o in s[..i + 1]
      {
        PlaceHolds(r, s[i], o);
        assert s[..i + 1] == s[..i] + [s[i]];
      }
      r := Place(r, s[i]);
    }
    assert s[..|s|] == s;
  }

  /** The result does not depend on how it was sorted. */
  lemma {:induction false} SortedUnique(a: seq<Occurrence>, b: seq<Occurrence>)
    requires StrictlySorted(a) && StrictlySorted(b)
    requires forall o :: o in a <==> o in b
    ensures a == b
    decreases |a| + |b|
  {
    hide Less;
    assert (a != [] ==> a[0] in a) && (b != [] ==> b[0] in b);
    if a != [] && b != [] {
      var fa, la, fb, lb := a[..|a| - 1], a[|a| - 1], b[..|b| - 1], b[|b| - 1];
      LastIsGreatest(a, b);
      LastIsGreatest(b, a);
      LessOrders(la, lb, la);
      forall o
        ensures o in fa <==> o in fb
      {
        FrontHolds(a, o);
        FrontHolds(b, o);
      }
      SortedUnique(fa, fb);
      assert a == fa + [la] && b == fb + [lb];
    }
  }

  lemma FrontHolds(a: seq<Occurrence>, o: Occurrence)
    requires a != [] && StrictlySorted(a)
    ensures o in a[..|a| - 1] <==> o in a && o != a[|a| - 1]
  {
    hide Less;
    LessOrders(o, o, o);
    assert a == a[..|a| - 1] + [a[|a| - 1]];
  }

  lemma LastIsGreatest(a: seq<Occurrence>, b: seq<Occurrence>)
    requires a != [] && b != [] && StrictlySorted(b) && forall o :: o in a ==> o in b
    ensures a[|a| - 1] == b[|b| - 1] || Less(a[|a| - 1], b[|b| - 1])
  {
    hide Less;
    assert a[|a| - 1] in b;
  }

  // ---- the occurrence under a cursor ----

  predicate Under(o: Occurrence, line: nat, col: nat) {
    Covers(o.range, line, col)
  }

  /** A scan of the whole list: the covering occurrence of least size, the first of
      them when several are equally small. */
  ghost predicate Narrowest(s: seq<Occurrence>, line: nat, col: nat, best: Option<nat>) {
    match best
    case None => forall i :: 0 <= i < |s| ==> !Under(s[i], line, col)
    case Some(b) =>
      && b < |s| && Under(s[b], line, col)
      && (forall i :: 0 <= i < |s| && Under(s[i], line, col) ==> SpanLen(s[b].range) <= SpanLen(s[i].range))
      && (forall i :: 0 <= i < b && Under(s[i], line, col) ==> SpanLen(s[b].range) < SpanLen(s[i].range))
  }

  /** The loop of `symbol_at`, which stops at the first start past the cursor's line. */
  method FindNarrowest(s: seq<Occurrence>, line: nat, col: nat) returns (best: Option<nat>)
    requires StrictlySorted(s)
    ensures Narrowest(s, line, col, best)
  {
    hide Less, SpanLen;
    best := None;
    var i := 0;
    while i < |s|
      invariant 0 <= i <= |s|
      invariant Narrowest(s[..i], line, col, best)
    {
      if s[i].range.startLine > line {
        forall k | i <= k < |s|
          ensures !Under(s[k], line, col)
        {
          if k > i {
            LessStartsNoLater(s[i], s[k]);
          }
        }
        break;
      }
      if Under(s[i], line, col) && (best == None || SpanLen(s[i].range) < SpanLen(s[best.value].range)) {
        best := Some(i);
      }
      i := i + 1;
    }
  }

  // ---- when the narrowest is the innermost ----

  datatype Cursor = Cursor(line: nat, col: nat)

  predicate UpTo(p: Cursor, q: Cursor) {
    Before(p.line, p.col, q.line, q.col)
  }

  predicate StrictlyInside(outer: Range, inner: Range) {
    Encloses(outer, inner) && outer != inner
  }

  /** What the source promises of one cursor: no occurrence under it lies strictly inside
      the one found. */
  ghost predicate InnermostAt(s: seq<Occurrence>, at: Cursor) {
    forall b: nat, i: nat :: Narrowest(s, at.line, at.col, Some(b)) && i < |s| && Under(s[i], at.line, at.col) ==>
      !StrictlyInside(s[b].range, s[i].range)
  }

  /** Both places where the set of covering occurrences can change for each of them. */
  function Bounds(s: seq<Occurrence>): seq<Cursor> {
    if s == [] then []
    else
      var r := s[|s| - 1].range;
      Bounds(s[..|s| - 1]) + [Cursor(r.startLine, r.startCol), Cursor(r.endLine, r.endCol)]
  }

  /** Occurrence `i` lies strictly inside `j`, and the sizes do not tell. */
  predicate Tied(s: seq<Occurrence>, j: nat, i: nat) {
    && j < |s| && i < |s| && WellFormed(s[i].range)
    && StrictlyInside(s[j].range, s[i].range)
    && SpanLen(s[j].range) == SpanLen(s[i].range)
  }

  /** At this place some occurrence is smaller than `j`, or as small and stored before. */
  predicate Beaten(s: seq<Occurrence>, j: nat, at: Cursor) {
    j < |s| && s[j].range.startLine <= s[j].range.endLine &&
    exists k :: 0 <= k < |s| && Under(s[k], at.line, at.col)
                && (SpanLen(s[k].range) < SpanLen(s[j].range)
                    || (SpanLen(s[k].range) == SpanLen(s[j].range) && k < j))
  }

  predicate TiedUnder(s: seq<Occurrence>, i: nat, j: nat, at: Cursor) {
    Tied(s, j, i) && Under(s[i], at.line, at.col)
  }

  /** A finite test of the stored list: wherever a tied pair could decide a look-up,
      another occurrence decides it. */
  ghost predicate TiesAreHidden(s: seq<Occurrence>) {
    forall i: nat, j: nat, m: nat :: m < |Bounds(s)| && TiedUnder(s, i, j, Bounds(s)[m]) ==> Beaten(s, j, Bounds(s)[m])
  }

  ghost predicate AllFitU32(s: seq<Occurrence>) {
    forall i :: 0 <= i < |s| ==> FitsU32(s[i].range)
  }

  /** `symbol_at` finds an innermost occurrence under every cursor exactly when the
      stored list passes the test. */
  lemma NarrowestIsInnermostExactly(s: seq<Occurrence>)
    requires AllFitU32(s)
    ensures (forall at: Cursor :: InnermostAt(s, at)) <==> TiesAreHidden(s)
  {
    hide Narrowest, Bounds, Tied, Beaten, Under;
    if forall at: Cursor :: InnermostAt(s, at) {
      forall i: nat, j: nat, m: nat | m < |Bounds(s)| && TiedUnder(s, i, j, Bounds(s)[m])
        ensures Beaten(s, j, Bounds(s)[m])
      {
        assert InnermostAt(s, Bounds(s)[m]);
        TieDecides(s, j, i, Bounds(s)[m]);
      }
    }
    if TiesAreHidden(s) {
      forall at: Cursor
        ensures InnermostAt(s, at)
      {
        if !InnermostAt(s, at) {
          MissIsVisible(s, at);
        }
      }
    }
  }

  /** A tied pair that nothing beats at a place is a look-up that misses the inner one. */
  lemma TieDecides(s: seq<Occurrence>, j: nat, i: nat, at: Cursor)
    requires Tied(s, j, i) && Under(s[i], at.line, at.col) && InnermostAt(s, at)
    ensures Beaten(s, j, at)
  {
    hide SpanLen;
    CoversIsBetween(s[i].range, at.line, at.col);
    CoversIsBetween(s[j].range, at.line, at.col);
    assert Under(s[j], at.line, at.col);
    assert !Beaten(s, j, at) ==> Narrowest(s, at.line, at.col, Some(j));
  }

  /** A look-up that misses an inner occurrence is decided by a tie, and by the same tie at
      the last bound before the cursor, where the same occurrences are found. */
  lemma DecidingBound(s: seq<Occurrence>, at: Cursor, b: nat, i: nat) returns (m: nat)
    requires AllFitU32(s) && Narrowest(s, at.line, at.col, Some(b)) && i < |s| && Under(s[i], at.line, at.col)
    requires StrictlyInside(s[b].range, s[i].range)
    ensures Tied(s, b, i)
    ensures m < |Bounds(s)| && Under(s[i], Bounds(s)[m].line, Bounds(s)[m].col) && !Beaten(s, b, Bounds(s)[m])
  {
    CoversIsBetween(s[i].range, at.line, at.col);
    SpanLenUnderEncloses(s[b].range, s[i].range);
    assert Tied(s, b, i);
    hide SpanLen, Tied;
    BoundsHold(s, i);
    m := LastBound(Bounds(s), at, Cursor(s[i].range.startLine, s[i].range.startCol));
    var y := Bounds(s)[m];
    forall k | 0 <= k < |s|
      ensures Under(s[k], y.line, y.col) <==> Under(s[k], at.line, at.col)
    {
      BoundsHold(s, k);
      SameCover(s[k].range, y, at);
    }
  }

  lemma MissIsVisible(s: seq<Occurrence>, at: Cursor)
    requires AllFitU32(s) && !InnermostAt(s, at)
    ensures !TiesAreHidden(s)
  {
    var b: nat, i: nat :| Narrowest(s, at.line, at.col, Some(b)) && i < |s| && Under(s[i], at.line, at.col)
                          && StrictlyInside(s[b].range, s[i].range);
    hide Narrowest, Bounds, Tied, Beaten, Under;
    var m := DecidingBound(s, at, b, i);
    assert TiedUnder(s, i, b, Bounds(s)[m]);
  }

  lemma {:induction false} BoundsHold(s: seq<Occurrence>, k: nat)
    requires k < |s|
    ensures Cursor(s[k].range.startLine, s[k].range.startCol) in Bounds(s)
    ensures Cursor(s[k].range.endLine, s[k].range.endCol) in Bounds(s)
  {
    if k < |s| - 1 {
      BoundsHold(s[..|s| - 1], k);
    }
  }

  lemma SameCover(r: Range, y: Cursor, at: Cursor)
    requires UpTo(y, at)
    requires UpTo(Cursor(r.startLine, r.startCol), at) ==> UpTo(Cursor(r.startLine, r.startCol), y)
    requires UpTo(Cursor(r.endLine, r.endCol), at) ==> UpTo(Cursor(r.endLine, r.endCol), y)
    ensures Covers(r, y.line, y.col) <==> Covers(r, at.line, at.col)
  {
    CoversIsBetween(r, y.line, y.col);
    CoversIsBetween(r, at.line, at.col);
  }

  /** The last of these places up to a cursor. */
  lemma {:induction false} LastBound(places: seq<Cursor>, at: Cursor, some: Cursor) returns (m: nat)
    requires some in places && UpTo(some, at)
    ensures m < |places| && UpTo(places[m], at)
    ensures forall p :: p in places && UpTo(p, at) ==> UpTo(p, places[m])
  {
    var front, last := places[..|places| - 1], places[|places| - 1];
    assert places == front + [last];
    if p :| p in front && UpTo(p, at) {
      m := LastBound(front, at, p);
      if UpTo(last, at) && UpTo(places[m], last) {
        m := |front|;
      }
    } else {
      m := |front|;
    }
  }

  /** Two occurrences whose sizes tie: with the cursor in both, the outer one is found. */
  lemma OuterOccurrenceIsFound(outer: nat, inner: nat)
    ensures var s := [Occurrence(Range(0, 8, 2, 4), outer), Occurrence(Range(0, 9, 2, 3), inner)];
            StrictlySorted(s) && Narrowest(s, 1, 0, Some(0)) && Under(s[1], 1, 0) && !InnermostAt(s, Cursor(1, 0))
  {
    var s := [Occurrence(Range(0, 8, 2, 4), outer), Occurrence(Range(0, 9, 2, 3), inner)];
    assert Less(s[0], s[1]);
    assert Under(s[0], 1, 0) && Under(s[1], 1, 0) && SpanLen(s[0].range) == SpanLen(s[1].range);
    assert Narrowest(s, 1, 0, Some(0)) && StrictlyInside(s[0].range, s[1].range);
  }
}
