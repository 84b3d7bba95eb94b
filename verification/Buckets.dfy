/** Tables from a key to the rows carrying it, kept up to date row by row
    (crates/symbol-index/src/lib.rs:639-650), against plain scans of the rows. */
module Buckets {

  type Table = map<string, seq<nat>>

  function Get(table: Table, k: string): seq<nat> {
    if k in table then table[k] else []
  }

  /** `entry(k).or_default().push(i)`. */
  function Push(table: Table, k: string, i: nat): Table {
    table[k := Get(table, k) + [i]]
  }

  function Times(i: nat, ks: seq<string>, k: string): seq<nat> {
    if ks == [] then [] else Times(i, ks[..|ks| - 1], k) + (if ks[|ks| - 1] == k then [i] else [])
  }

  /** The rows carrying `k`, in order, each as often as it carries it. */
  function Scan(rows: seq<seq<string>>, k: string): seq<nat> {
    if rows == [] then []
    else Scan(rows[..|rows| - 1], k) + Times(|rows| - 1, rows[|rows| - 1], k)
  }

  /** The table is the scan, for every key. */
  ghost predicate Tabulates(table: Table, rows: seq<seq<string>>) {
    && (forall k :: Get(table, k) == Scan(rows, k))
    && (forall k :: k in table ==> table[k] != [])
  }

  lemma ScanSnoc(rows: seq<seq<string>>, ks: seq<string>, k: string)
    ensures Scan(rows + [ks], k) == Scan(rows, k) + Times(|rows|, ks, k)
  {
    assert (rows + [ks])[..|rows + [ks]| - 1] == rows;
  }

  lemma TimesSnoc(i: nat, ks: seq<string>, key: string, k: string)
    ensures Times(i, ks + [key], k) == Times(i, ks, k) + (if key == k then [i] else [])
  {
    assert (ks + [key])[..|ks + [key]| - 1] == ks;
  }

  /** A row begins with no keys ... */
  lemma TabulatesRow(table: Table, rows: seq<seq<string>>)
    requires Tabulates(table, rows)
    ensures Tabulates(table, rows + [[]])
  {
    hide Scan;
    forall k
      ensures Get(table, k) == Scan(rows + [[]], k)
    {
      ScanSnoc(rows, [], k);
    }
  }

  /** ... and is given one at a time. */
  lemma TabulatesKey(table: Table, rows: seq<seq<string>>, ks: seq<string>, key: string)
    requires Tabulates(table, rows + [ks])
    ensures Tabulates(Push(table, key, |rows|), rows + [ks + [key]])
  {
    hide Scan, Times;
    forall k
      ensures Get(Push(table, key, |rows|), k) == Scan(rows + [ks + [key]], k)
    {
      ScanSnoc(rows, ks, k);
      ScanSnoc(rows, ks + [key], k);
      TimesSnoc(|rows|, ks, key, k);
      assert Get(table, k) == Scan(rows + [ks], k);
    }
  }

  lemma TabulatesOne(table: Table, rows: seq<seq<string>>, key: string)
    requires Tabulates(table, rows)
    ensures Tabulates(Push(table, key, |rows|), rows + [[key]])
  {
    hide Tabulates;
    TabulatesRow(table, rows);
    TabulatesKey(table, rows, [], key);
    assert [] + [key] == [key];
  }

  lemma {:induction false} TimesHolds(i: nat, ks: seq<string>, k: string, j: nat)
    ensures j in Times(i, ks, k) <==> j == i && k in ks
  {
    if ks != [] {
      TimesHolds(i, ks[..|ks| - 1], k, j);
      assert ks == ks[..|ks| - 1] + [ks[|ks| - 1]];
    }
  }

  /** What a scan finds. */
  lemma {:induction false} ScanHolds(rows: seq<seq<string>>, k: string, i: nat)
    ensures i in Scan(rows, k) <==> i < |rows| && k in rows[i]
  {
    if rows != [] {
      var front, last := rows[..|rows| - 1], rows[|rows| - 1];
      ScanHolds(front, k, i);
      TimesHolds(|front|, last, k, i);
      ScanSnoc(front, last, k);
      hide Scan, Times;
      assert rows == front + [last];
      assert Scan(rows, k) == Scan(front, k) + Times(|front|, last, k);
    }
  }

  lemma {:induction false} TimesCounts(i: nat, ks: seq<string>, k: string, j: nat)
    ensures multiset(Times(i, ks, k))[j] == if j == i then multiset(ks)[k] else 0
  {
    if ks != [] {
      TimesCounts(i, ks[..|ks| - 1], k, j);
      assert ks == ks[..|ks| - 1] + [ks[|ks| - 1]];
    }
  }

  /** A row is found as often as it carries the key, and rows are found in order. */
  lemma {:induction false} ScanCounts(rows: seq<seq<string>>, k: string, i: nat)
    ensures multiset(Scan(rows, k))[i] == if i < |rows| then multiset(rows[i])[k] else 0
  {
    if rows != [] {
      ScanCounts(rows[..|rows| - 1], k, i);
      TimesCounts(|rows| - 1, rows[|rows| - 1], k, i);
    }
  }

  lemma {:induction false} ScanInOrder(rows: seq<seq<string>>, k: string)
    ensures forall a, b :: 0 <= a < b < |Scan(rows, k)| ==> Scan(rows, k)[a] <= Scan(rows, k)[b]
  {
    if rows != [] {
      var front, last := rows[..|rows| - 1], |rows| - 1;
      ScanInOrder(front, k);
      var before, more := Scan(front, k), Times(last, rows[last], k);
      forall a | 0 <= a < |before|
        ensures before[a] < last
      {
        ScanHolds(front, k, before[a]);
      }
      forall b | 0 <= b < |more|
        ensures more[b] == last
      {
        TimesHolds(last, rows[last], k, more[b]);
      }
    }
  }

  ghost predicate Increasing(s: seq<nat>) {
    forall i, j :: 0 <= i < j < |s| ==> s[i] < s[j]
  }

  /** Rows with a single key are found once each, in order. */
  lemma {:induction false} ScanIncreases(rows: seq<seq<string>>, k: string)
    requires forall i :: 0 <= i < |rows| ==> |rows[i]| == 1
    ensures Increasing(Scan(rows, k))
  {
    if rows != [] {
      var front, last := rows[..|rows| - 1], rows[|rows| - 1];
      ScanIncreases(front, k);
      var found := Scan(front, k);
      forall i | 0 <= i < |found|
        ensures found[i] < |rows| - 1
      {
        ScanHolds(front, k, found[i]);
      }
      assert last == [last[0]] && [] + [last[0]] == last;
      TimesSnoc(|rows| - 1, [], last[0], k);
    }
  }
}
