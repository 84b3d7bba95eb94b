/** Keeping the first of each repeated element
    (crates/symbol-index/src/lib.rs:568-582). */
module Repeats {

  function Distinct<T(==)>(s: seq<T>): seq<T> {
    if s == [] then []
    else
      var front, last := s[..|s| - 1], s[|s| - 1];
      if last in front then Distinct(front) else Distinct(front) + [last]
  }

  ghost predicate NoRepeats<T>(s: seq<T>) {
    forall i, j :: 0 <= i < j < |s| ==> s[i] != s[j]
  }

  lemma Snoc<T>(s: seq<T>, x: T)
    ensures (s + [x])[..|s + [x]| - 1] == s && (s + [x])[|s + [x]| - 1] == x
  {
  }

  lemma {:induction false} DistinctHolds<T>(s: seq<T>, x: T)
    ensures x in Distinct(s) <==> x in s
  {
    if s != [] {
      var front := s[..|s| - 1];
      DistinctHolds(front, x);
      assert s == front + [s[|s| - 1]];
    }
  }

  lemma {:induction false} DistinctNoRepeats<T>(s: seq<T>)
    ensures NoRepeats(Distinct(s))
  {
    if s != [] {
      var front := s[..|s| - 1];
      DistinctNoRepeats(front);
      DistinctHolds(front, s[|s| - 1]);
    }
  }

  lemma {:induction false} DistinctAlready<T>(s: seq<T>)
    requires NoRepeats(s)
    ensures Distinct(s) == s
  {
    if s != [] {
      var front := s[..|s| - 1];
      DistinctAlready(front);
      assert s == front + [s[|s| - 1]];
    }
  }

  lemma DistinctSnoc<T>(s: seq<T>, x: T)
    ensures Distinct(s + [x]) == if x in s then Distinct(s) else Distinct(s) + [x]
  {
    Snoc(s, x);
  }

  /** `at` holds the places of the first occurrences in `s`, in order, and `firsts` what stands
      there. */
  ghost predicate FirstsOf<T(!new)>(s: seq<T>, firsts: seq<T>, at: seq<nat>) {
    && |at| == |firsts|
    && (forall i, j :: 0 <= i < j < |at| ==> at[i] < at[j])
    && (forall k :: 0 <= k < |at| ==> IsFirst(s, at[k]) && firsts[k] == s[at[k]])
    && (forall i :: IsFirst(s, i) ==> i in at)
  }

  ghost predicate IsFirst<T(!new)>(s: seq<T>, i: nat) {
    i < |s| && forall j :: 0 <= j < i ==> s[j] != s[i]
  }

  /** The elements are kept in the order in which they first occur. */
  lemma {:induction false} DistinctInOrder<T(!new)>(s: seq<T>) returns (at: seq<nat>)
    ensures FirstsOf(s, Distinct(s), at)
  {
    hide FirstsOf, Distinct;
    if s == [] {
      at := [];
      NoFirsts<T>();
    } else {
      var front, last := s[..|s| - 1], s[|s| - 1];
      var before := DistinctInOrder(front);
      assert s == front + [last];
      DistinctSnoc(front, last);
      at := FirstsSnoc(front, Distinct(front), before, last);
    }
  }

  lemma NoFirsts<T(!new)>()
    ensures FirstsOf<T>([], Distinct<T>([]), [])
  {
  }

  lemma FirstsSnoc<T(!new)>(s: seq<T>, firsts: seq<T>, before: seq<nat>, x: T) returns (at: seq<nat>)
    requires FirstsOf(s, firsts, before)
    ensures FirstsOf(s + [x], if x in s then firsts else firsts + [x], at)
  {
    FirstSnoc(s, x);
    hide IsFirst;
    at := if x in s then before else before + [|s|];
  }

  lemma FirstSnoc<T(!new)>(s: seq<T>, x: T)
    ensures forall i: nat :: IsFirst(s, i) ==> i < |s|
    ensures forall i: nat :: IsFirst(s + [x], i) <==> IsFirst(s, i) || (i == |s| && x !in s)
  {
    forall i: nat
      ensures IsFirst(s + [x], i) <==> IsFirst(s, i) || (i == |s| && x !in s)
    {
      FirstSnocAt(s, x, i);
    }
  }

  lemma FirstSnocAt<T(!new)>(s: seq<T>, x: T, i: nat)
    ensures IsFirst(s + [x], i) <==> IsFirst(s, i) || (i == |s| && x !in s)
  {
    assert forall j :: 0 <= j < |s| ==> (s + [x])[j] == s[j];
  }

  /** Removing repeats early changes nothing. */
  lemma {:induction false} DistinctEarly<T>(a: seq<T>, b: seq<T>)
    ensures Distinct(Distinct(a) + b) == Distinct(a + b)
    decreases |b|
  {
    if b == [] {
      assert Distinct(a) + b == Distinct(a) && a + b == a;
      DistinctNoRepeats(a);
      DistinctAlready(Distinct(a));
    } else {
      var front, last := b[..|b| - 1], b[|b| - 1];
      DistinctEarly(a, front);
      DistinctHolds(a, last);
      assert a + b == (a + front) + [last] && Distinct(a) + b == (Distinct(a) + front) + [last];
      DistinctSnoc(a + front, last);
      DistinctSnoc(Distinct(a) + front, last);
    }
  }

  /** Elements seen before leave no trace. */
  lemma {:induction false} DistinctKnown<T>(a: seq<T>, b: seq<T>)
    requires forall x :: x in b ==> x in a
    ensures Distinct(a + b) == Distinct(a)
    decreases |b|
  {
    if b == [] {
      assert a + b == a;
    } else {
      var front, last := b[..|b| - 1], b[|b| - 1];
      assert last in b;
      DistinctKnown(a, front);
      assert a + b == (a + front) + [last];
      DistinctSnoc(a + front, last);
    }
  }

  /** `deduplicate_references`: retain what was not seen before. */
  method RetainFirst<T(==)>(s: seq<T>) returns (r: seq<T>)
    ensures r == Distinct(s)
  {
    hide Distinct;
    if |s| < 2 {
      DistinctAlready(s);
      return s;
    }
    var seen: set<T> := {};
    r := [];
    DistinctAlready<T>([]);
    assert s[..0] == [];
    for i := 0 to |s|
      invariant r == Distinct(s[..i])
      invariant forall x :: x in seen <==> x in s[..i]
    {
      assert s[..i + 1] == s[..i] + [s[i]];
      DistinctSnoc(s[..i], s[i]);
      if s[i] !in seen {
        seen := seen + {s[i]};
        r := r + [s[i]];
      }
    }
    assert s[..|s|] == s;
  }

  lemma NoMoreThan<T>(a: set<T>, b: set<T>)
    requires a <= b
    ensures |a| <= |b|
  {
    assert b == a + (b - a);
  }
}
