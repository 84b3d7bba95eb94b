/** Keeping the best few of many candidates, and sorting them
    (crates/symbol-index/src/lib.rs:701-702, 720, 737-747). Candidates are numbers of
    definitions, compared by a key; which of several equal ones the heap gives up, and
    in what order the sort leaves equal ones, is not determined. */
module TopHits {
  import opened Repeats
  import opened SearchOrder

  type KeyAt = nat -> SearchKey

  ghost predicate Sorted(s: seq<nat>, key: KeyAt) {
    forall i, j :: 0 <= i < j < |s| ==> !Less(key(s[j]), key(s[i]))
  }

  /** The sequence has each element of the set, once. */
  ghost predicate Lists(s: seq<nat>, all: set<nat>) {
    (forall i, j :: 0 <= i < j < |s| ==> s[i] != s[j]) && (forall x :: x in s <==> x in all)
  }

  ghost predicate Enumerates(s: seq<nat>, all: set<nat>, key: KeyAt) {
    Sorted(s, key) && Lists(s, all) && |s| == |all|
  }

  /** `best` holds the `limit` least candidates of those seen. */
  ghost predicate KeepsLeast(best: set<nat>, seen: set<nat>, limit: nat, key: KeyAt) {
    && best <= seen
    && |best| == (if |seen| <= limit then |seen| else limit)
    && (forall x, y :: x in seen - best && y in best ==> !Less(key(x), key(y)))
  }

  // ---- one candidate more ----

  lemma {:induction false} WorstExists(best: set<nat>, key: KeyAt) returns (worst: nat)
    requires best != {}
    ensures worst in best && forall y :: y in best ==> !Less(key(worst), key(y))
    decreases |best|
  {
    hide Less;
    var x :| x in best;
    worst := x;
    LessOrders(key(x), key(x), key(x));
    if best != {x} {
      var w := WorstExists(best - {x}, key);
      if Less(key(x), key(w)) {
        worst := w;
      } else {
        forall y | y in best
          ensures !Less(key(x), key(y))
        {
          if y != x {
            LessOrders(key(x), key(y), key(w));
            LessOrders(key(y), key(w), key(w));
          }
        }
      }
      if worst == w {
        forall y | y in best
          ensures !Less(key(w), key(y))
        {
          LessOrders(key(x), key(w), key(x));
        }
      }
    }
  }

  /** The body of the loop: push while there is room, else replace the worst if the
      candidate is better. */
  method Consider(best: set<nat>, ghost seen: set<nat>, limit: nat, key: KeyAt, candidate: nat) returns (r: set<nat>)
    requires KeepsLeast(best, seen, limit, key) && candidate !in seen && limit > 0
    ensures KeepsLeast(r, seen + {candidate}, limit, key)
  {
    hide Less;
    if |best| < limit {
      BestIsAll(best, seen, limit, key);
      return best + {candidate};
    }
    var worst := Peek(best, key);
    if Less(key(candidate), key(worst)) {
      Replaced(best, seen, limit, key, candidate, worst);
      r := best - {worst} + {candidate};
    } else {
      NotBetter(best, seen, limit, key, candidate, worst);
      r := best;
    }
  }

  /** Some candidate that none in the heap exceeds. */
  method Peek(best: set<nat>, key: KeyAt) returns (worst: nat)
    requires best != {}
    ensures worst in best && forall y :: y in best ==> !Less(key(worst), key(y))
  {
    ghost var w := WorstExists(best, key);
    worst :| worst in best && forall y :: y in best ==> !Less(key(worst), key(y));
  }

  lemma BestIsAll(best: set<nat>, seen: set<nat>, limit: nat, key: KeyAt)
    requires KeepsLeast(best, seen, limit, key) && |best| < limit
    ensures best == seen
  {
    hide Less;
    assert seen == best + (seen - best);
    assert |seen - best| == 0;
  }

  lemma Replaced(best: set<nat>, seen: set<nat>, limit: nat, key: KeyAt, candidate: nat, worst: nat)
    requires KeepsLeast(best, seen, limit, key) && candidate !in seen && |best| == limit
    requires worst in best && (forall y :: y in best ==> !Less(key(worst), key(y))) && Less(key(candidate), key(worst))
    ensures KeepsLeast(best - {worst} + {candidate}, seen + {candidate}, limit, key)
  {
    hide Less;
    var r := best - {worst} + {candidate};
    forall x, y | x in seen + {candidate} - r && y in r
      ensures !Less(key(x), key(y))
    {
      LessOrders(key(candidate), key(worst), key(x));
      LessOrders(key(x), key(candidate), key(worst));
      LessOrders(key(x), key(y), key(worst));
    }
    assert |best - {worst}| == limit - 1;
    NoMoreThan(best, seen);
  }

  lemma NotBetter(best: set<nat>, seen: set<nat>, limit: nat, key: KeyAt, candidate: nat, worst: nat)
    requires KeepsLeast(best, seen, limit, key) && candidate !in seen && |best| == limit
    requires worst in best && (forall y :: y in best ==> !Less(key(worst), key(y))) && !Less(key(candidate), key(worst))
    ensures KeepsLeast(best, seen + {candidate}, limit, key)
  {
    hide Less;
    forall y | y in best
      ensures !Less(key(candidate), key(y))
    {
      LessOrders(key(candidate), key(y), key(worst));
      LessOrders(key(y), key(candidate), key(worst));
      LessOrders(key(worst), key(y), key(candidate));
    }
    NoMoreThan(best, seen);
  }

  // ---- sorting ----

  /** `into_sorted_vec` and `sort_unstable`: takes the worst first. */
  method SortHits(all: set<nat>, key: KeyAt) returns (r: seq<nat>)
    ensures Enumerates(r, all, key)
  {
    hide Less;
    r := [];
    var rest := all;
    while rest != {}
      invariant rest <= all
      invariant Enumerates(r, all - rest, key)
      invariant forall x, y :: x in rest && y in r ==> !Less(key(y), key(x))
      decreases |rest|
    {
      var worst := Peek(rest, key);
      EnumeratesOne(r, all - rest, key, worst);
      assert all - (rest - {worst}) == all - rest + {worst};
      r := [worst] + r;
      rest := rest - {worst};
    }
    assert all - rest == all;
  }

  lemma EnumeratesOne(s: seq<nat>, all: set<nat>, key: KeyAt, x: nat)
    requires Enumerates(s, all, key) && x !in all
    requires forall y :: y in s ==> !Less(key(y), key(x))
    ensures Enumerates([x] + s, all + {x}, key)
  {
    hide Less;
    assert forall i :: 0 < i < |[x] + s| ==> ([x] + s)[i] == s[i - 1];
  }

  // ---- the kept candidates are the first of all ----

  ghost function KeysOf(all: set<nat>, key: KeyAt): multiset<SearchKey> {
    if all == {} then multiset{}
    else
      var x :| x in all;
      KeysOf(all - {x}, key) + multiset{key(x)}
  }

  lemma {:induction false} KeysOfAny(all: set<nat>, key: KeyAt, x: nat)
    requires x in all
    ensures KeysOf(all, key) == KeysOf(all - {x}, key) + multiset{key(x)}
    decreases |all|
  {
    var y :| y in all && KeysOf(all, key) == KeysOf(all - {y}, key) + multiset{key(y)};
    if y != x {
      KeysOfAny(all - {y}, key, x);
      KeysOfAny(all - {x}, key, y);
      assert all - {y} - {x} == all - {x} - {y};
    }
  }

  function KeySeq(s: seq<nat>, key: KeyAt): seq<SearchKey> {
    seq(|s|, i requires 0 <= i < |s| => key(s[i]))
  }

  lemma ListsFront(s: seq<nat>, all: set<nat>)
    requires Lists(s, all) && s != []
    ensures s[|s| - 1] in all && Lists(s[..|s| - 1], all - {s[|s| - 1]})
  {
    assert s == s[..|s| - 1] + [s[|s| - 1]];
  }

  lemma ListsNothing(s: seq<nat>, all: set<nat>, key: KeyAt)
    requires Lists(s, all) && s == []
    ensures multiset(KeySeq(s, key)) == KeysOf(all, key)
  {
    assert forall x :: x in all ==> x in s;
    assert all == {};
  }

  lemma {:induction false} KeySeqHolds(s: seq<nat>, all: set<nat>, key: KeyAt)
    requires Lists(s, all)
    ensures multiset(KeySeq(s, key)) == KeysOf(all, key)
  {
    hide Lists, KeysOf;
    if s == [] {
      ListsNothing(s, all, key);
    } else {
      var front, last := s[..|s| - 1], s[|s| - 1];
      ListsFront(s, all);
      KeySeqHolds(front, all - {last}, key);
      KeysOfAny(all, key, last);
      assert KeySeq(s, key) == KeySeq(front, key) + [key(last)];
    }
  }

  ghost predicate SortedKeys(s: seq<SearchKey>) {
    forall i, j :: 0 <= i < j < |s| ==> !Less(s[j], s[i])
  }

  lemma {:induction false} SortedKeysUnique(a: seq<SearchKey>, b: seq<SearchKey>)
    requires SortedKeys(a) && SortedKeys(b) && multiset(a) == multiset(b)
    ensures a == b
  {
    hide Less, SortedKeys;
    SameSize(a, b);
    if a != [] {
      var fa, la, fb, lb := a[..|a| - 1], a[|a| - 1], b[..|b| - 1], b[|b| - 1];
      WithoutLast(a);
      WithoutLast(b);
      LastIsWorst(a, lb);
      LastIsWorst(b, la);
      LessOrders(la, lb, la);
      SortedKeysUnique(fa, fb);
    }
  }

  lemma SameSize(a: seq<SearchKey>, b: seq<SearchKey>)
    requires multiset(a) == multiset(b)
    ensures |a| == |b|
  {
    assert |a| == |multiset(a)| == |multiset(b)| == |b|;
  }

  lemma WithoutLast(a: seq<SearchKey>)
    requires a != []
    ensures multiset(a[..|a| - 1]) == multiset(a) - multiset{a[|a| - 1]} && a[|a| - 1] in multiset(a)
    ensures a == a[..|a| - 1] + [a[|a| - 1]]
    ensures SortedKeys(a) ==> SortedKeys(a[..|a| - 1])
  {
    assert a == a[..|a| - 1] + [a[|a| - 1]];
  }

  lemma LastIsWorst(a: seq<SearchKey>, k: SearchKey)
    requires a != [] && SortedKeys(a) && k in multiset(a)
    ensures !Less(a[|a| - 1], k)
  {
    hide Less;
    assert k in a;
    var i :| 0 <= i < |a| && a[i] == k;
    LessOrders(k, k, k);
  }

  /** Whatever was kept on equal keys, the kept candidates have the keys of the first
      ones of the whole list. */
  lemma KeptAreFirst(kept: seq<nat>, best: set<nat>, full: seq<nat>, all: set<nat>, limit: nat, key: KeyAt)
    requires KeepsLeast(best, all, limit, key) && Enumerates(kept, best, key) && Enumerates(full, all, key)
    ensures |kept| <= |full| && KeySeq(kept, key) == KeySeq(full[..|kept|], key)
  {
    hide Less;
    var rest := SomeOrder(all - best, key);
    Joined(kept, best, rest, all, limit, key);
    SortedHasSortedKeys(full, key);
    hide Sorted, Lists, SortedKeys;
    NoMoreThan(best, all);
    KeySeqHolds(kept + rest, all, key);
    KeySeqHolds(full, all, key);
    SortedKeysUnique(KeySeq(kept + rest, key), KeySeq(full, key));
    assert KeySeq(kept, key) == KeySeq(kept + rest, key)[..|kept|];
    assert KeySeq(full[..|kept|], key) == KeySeq(full, key)[..|kept|];
  }

  lemma SortedHasSortedKeys(s: seq<nat>, key: KeyAt)
    requires Sorted(s, key)
    ensures SortedKeys(KeySeq(s, key))
  {
    hide Less;
  }

  lemma Joined(kept: seq<nat>, best: set<nat>, rest: seq<nat>, all: set<nat>, limit: nat, key: KeyAt)
    requires KeepsLeast(best, all, limit, key) && Enumerates(kept, best, key) && Enumerates(rest, all - best, key)
    ensures Lists(kept + rest, all) && SortedKeys(KeySeq(kept + rest, key))
  {
    hide Less;
    var joined := kept + rest;
    assert forall x :: x in joined <==> x in kept || x in rest;
    forall i, j | 0 <= i < j < |joined|
      ensures joined[i] != joined[j] && !Less(key(joined[j]), key(joined[i]))
    {
      if i >= |kept| {
        assert joined[i] == rest[i - |kept|] && joined[j] == rest[j - |kept|];
      } else if j >= |kept| {
        assert joined[i] == kept[i] && kept[i] in kept && joined[j] == rest[j - |kept|] && rest[j - |kept|] in rest;
      }
    }
    SortedHasSortedKeys(joined, key);
  }

  lemma {:induction false} SomeOrder(all: set<nat>, key: KeyAt) returns (s: seq<nat>)
    ensures Enumerates(s, all, key)
    decreases |all|
  {
    hide Less;
    if all == {} {
      s := [];
    } else {
      var worst := WorstExists(all, key);
      var front := SomeOrder(all - {worst}, key);
      s := front + [worst];
      assert forall i :: 0 <= i < |front| ==> front[i] in front && s[i] == front[i];
    }
  }
}
