/** The order of search results (crates/symbol-index/src/lib.rs:975-1017). */
module SearchOrder {
  import opened Text

  /** 0 for an exact match, 1 for a prefix match, 2 otherwise. */
  function Rank(name: string, needle: string): nat {
    if name == needle then 0 else if needle <= name then 1 else 2
  }

  /** What two results are compared by. The length is in UTF-8 bytes, and UTF-8 bytes
      sort as the characters do. */
  datatype SearchKey = SearchKey(rank: nat, name: string, path: string, symbol: string)

  predicate StringLess(a: string, b: string) {
    b != [] && (a == [] || a[0] < b[0] || (a[0] == b[0] && StringLess(a[1..], b[1..])))
  }

  lemma {:induction false} StringOrders(a: string, b: string, c: string)
    ensures !StringLess(a, a)
    ensures StringLess(a, b) && StringLess(b, c) ==> StringLess(a, c)
    ensures StringLess(a, b) || StringLess(b, a) || a == b
    decreases |a| + |b| + |c|
  {
    if a != [] && b != [] {
      StringOrders(a[1..], b[1..], if c == [] then [] else c[1..]);
      assert a[0] == b[0] && a[1..] == b[1..] ==> a == [b[0]] + b[1..] == b;
    } else if a != [] {
      StringOrders(a[1..], b, c);
    }
  }

  predicate Less(a: SearchKey, b: SearchKey) {
    var n, m := Units(a.name, Utf8), Units(b.name, Utf8);
    || a.rank < b.rank
    || (a.rank == b.rank &&
        (|| n < m
         || (n == m &&
             (|| StringLess(a.name, b.name)
              || (a.name == b.name &&
                  (|| StringLess(a.path, b.path)
                   || (a.path == b.path && StringLess(a.symbol, b.symbol))))))))
  }

  /** A total order on keys: results that compare as equal have equal keys. */
  lemma LessOrders(a: SearchKey, b: SearchKey, c: SearchKey)
    ensures !Less(a, a)
    ensures Less(a, b) && Less(b, c) ==> Less(a, c)
    ensures Less(a, b) || Less(b, a) || a == b
  {
    hide StringLess, Units;
    StringOrders(a.name, b.name, c.name);
    StringOrders(a.path, b.path, c.path);
    StringOrders(a.symbol, b.symbol, c.symbol);
  }

  /** Exact matches come first, then prefix matches, then the rest; among equals of that
      kind the shorter name does. */
  lemma BestMatchFirst(a: SearchKey, b: SearchKey, lower: string -> string, needle: string)
    requires a.rank == Rank(lower(a.name), needle) && b.rank == Rank(lower(b.name), needle)
    ensures lower(a.name) == needle != lower(b.name) ==> Less(a, b)
    ensures needle <= lower(a.name) && !(needle <= lower(b.name)) ==> Less(a, b)
    ensures lower(a.name) == lower(b.name) && Units(a.name, Utf8) < Units(b.name, Utf8) ==> Less(a, b)
  {
    hide Units, StringLess;
  }

  /** Strings are compared as in a dictionary: at the first place where they differ, where the
      one that has ended comes first. */
  lemma {:induction false} StringLessIsDictionary(a: string, b: string)
    ensures StringLess(a, b) <==>
            exists k: nat :: k <= |a| && k < |b| && a[..k] == b[..k] && (k == |a| || a[k] < b[k])
  {
    if a != [] && b != [] && a[0] == b[0] {
      StringLessIsDictionary(a[1..], b[1..]);
      if StringLess(a[1..], b[1..]) {
        var k: nat :| k <= |a[1..]| && k < |b[1..]| && a[1..][..k] == b[1..][..k] && (k == |a[1..]| || a[1..][k] < b[1..][k]);
        assert a[..k + 1] == [a[0]] + a[1..][..k] && b[..k + 1] == [b[0]] + b[1..][..k];
      }
      if k: nat :| k <= |a| && k < |b| && a[..k] == b[..k] && (k == |a| || a[k] < b[k]) {
        assert k > 0;
        assert a[1..][..k - 1] == a[..k][1..] && b[1..][..k - 1] == b[..k][1..];
      }
    } else if b != [] {
      assert a[..0] == b[..0];
      forall k: nat | 0 < k <= |a| && k < |b|
        ensures a[..k] != b[..k]
      {
        assert a[..k][0] == a[0] && b[..k][0] == b[0];
      }
    }
  }

  /** Equally good matches of equal length come by name, then path, then symbol. */
  lemma ThenNamePathSymbol(a: SearchKey, b: SearchKey)
    requires a.rank == b.rank && Units(a.name, Utf8) == Units(b.name, Utf8)
    ensures a.name != b.name ==> (Less(a, b) <==> StringLess(a.name, b.name))
    ensures a.name == b.name && a.path != b.path ==> (Less(a, b) <==> StringLess(a.path, b.path))
    ensures a.name == b.name && a.path == b.path ==> (Less(a, b) <==> StringLess(a.symbol, b.symbol))
  {
    hide Units;
    StringOrders(a.name, b.name, a.name);
    StringOrders(a.path, b.path, a.path);
  }
}
