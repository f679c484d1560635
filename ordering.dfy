/** Orders and sequence facts shared by the node agent and the dashboard:
    Python's ordering of `str` values, duplicate-free lists, and the stable
    sort used by `sorted(...)` in the agent and `Array.prototype.sort` in
    the dashboard page. */
module Ordering {

  /** Python's `a < b` on `str`: lexicographic by code point, a proper
      prefix being smaller. Addresses compare as text, so "10.0.0.10" is
      below "10.0.0.9". */
  predicate Below(a: string, b: string)
    decreases |a|
  {
    if |a| == 0 then |b| > 0
    else if |b| == 0 then false
    else if a[0] != b[0] then a[0] < b[0]
    else Below(a[1..], b[1..])
  }

  /** Python's `a <= b` on `str`. */
  predicate AtMost(a: string, b: string) {
    a == b || Below(a, b)
  }

  lemma {:induction false} BelowTransitive(a: string, b: string, c: string)
    requires Below(a, b) && Below(b, c)
    ensures Below(a, c)
  {
    if |a| > 0 && a[0] == b[0] && b[0] == c[0] {
      BelowTransitive(a[1..], b[1..], c[1..]);
    }
  }

  lemma {:induction false} BelowAsymmetric(a: string, b: string)
    requires Below(a, b)
    ensures !Below(b, a)
  {
    if |a| > 0 && a[0] == b[0] {
      BelowAsymmetric(a[1..], b[1..]);
    }
  }

  lemma {:induction false} BelowTotal(a: string, b: string)
    ensures a == b || Below(a, b) || Below(b, a)
  {
    if |a| > 0 && |b| > 0 && a[0] == b[0] {
      BelowTotal(a[1..], b[1..]);
      if a[1..] == b[1..] {
        assert a == [a[0]] + a[1..] && b == [b[0]] + b[1..];
      }
    }
  }

  lemma AtMostAntisymmetric(a: string, b: string)
    requires AtMost(a, b) && AtMost(b, a)
    ensures a == b
  {
    if a != b {
      BelowAsymmetric(a, b);
    }
  }

  lemma AtMostTransitive(a: string, b: string, c: string)
    requires AtMost(a, b) && AtMost(b, c)
    ensures AtMost(a, c)
  {
    if a != b && b != c {
      BelowTransitive(a, b, c);
    }
  }

  lemma AtMostTotal(a: string, b: string)
    ensures AtMost(a, b) || AtMost(b, a)
  {
    BelowTotal(a, b);
  }

  /** No element occurs twice (what `list(set(...))` guarantees). */
  predicate Distinct<T(==)>(s: seq<T>) {
    forall i, j :: 0 <= i < j < |s| ==> s[i] != s[j]
  }

  /** `s` is in ascending order of `key`, equal keys allowed. */
  ghost predicate SortedBy<T>(s: seq<T>, key: T -> string) {
    forall i, j :: 0 <= i < j < |s| ==> AtMost(key(s[i]), key(s[j]))
  }

  /** Inserts `x` before the first element whose key is not below its
      own, keeping elements of equal key in their original order. */
  function InsertBy<T>(x: T, s: seq<T>, key: T -> string): (r: seq<T>)
    requires SortedBy(s, key)
    ensures multiset(r) == multiset(s) + multiset{x}
    ensures SortedBy(r, key)
  {
    if |s| == 0 then [x]
    else if AtMost(key(x), key(s[0])) then
      InsertFrontKeepsOrder(x, s, key);
      [x] + s
    else
      var rest := InsertBy(x, s[1..], key);
      assert s == [s[0]] + s[1..];
      AtMostTotal(key(x), key(s[0]));
      InsertBehindKeepsOrder(s[0], rest, s[1..], x, key);
      [s[0]] + rest
  }

  lemma InsertFrontKeepsOrder<T>(x: T, s: seq<T>, key: T -> string)
    requires SortedBy(s, key) && |s| > 0 && AtMost(key(x), key(s[0]))
    ensures SortedBy([x] + s, key)
  {
    var r := [x] + s;
    forall i, j | 0 <= i < j < |r| ensures AtMost(key(r[i]), key(r[j])) {
      if i == 0 && j > 1 {
        AtMostTransitive(key(x), key(s[0]), key(s[j - 1]));
      }
    }
  }

  lemma InsertBehindKeepsOrder<T>(h: T, rest: seq<T>, tail: seq<T>, x: T, key: T -> string)
    requires SortedBy(rest, key) && SortedBy([h] + tail, key)
    requires multiset(rest) == multiset(tail) + multiset{x}
    requires AtMost(key(h), key(x))
    ensures SortedBy([h] + rest, key)
  {
    var r := [h] + rest;
    forall j | 1 <= j < |r| ensures AtMost(key(h), key(r[j])) {
      var y := rest[j - 1];
      assert y in multiset(rest);
      if y != x {
        assert y in multiset(tail);
        var k :| 0 <= k < |tail| && tail[k] == y;
        assert ([h] + tail)[0] == h && ([h] + tail)[k + 1] == y;
      }
      assert r[j] == y;
    }
  }

  /** The elements of `s` whose key is `k`, in their order in `s`. */
  function WithKey<T>(s: seq<T>, key: T -> string, k: string): seq<T>
    decreases |s|
  {
    if |s| == 0 then []
    else (if key(s[0]) == k then [s[0]] else []) + WithKey(s[1..], key, k)
  }

  /** `InsertBy` puts `x` in front of every element with the same key. */
  lemma {:induction false} InsertByStable<T>(x: T, s: seq<T>, key: T -> string, k: string)
    requires SortedBy(s, key)
    ensures WithKey(InsertBy(x, s, key), key, k) == (if key(x) == k then [x] else []) + WithKey(s, key, k)
  {
    if |s| == 0 {
    } else if AtMost(key(x), key(s[0])) {
      assert ([x] + s)[1..] == s;
    } else {
      var tail := s[1..];
      assert SortedBy(tail, key);
      var rest := InsertBy(x, tail, key);
      assert InsertBy(x, s, key) == [s[0]] + rest;
      InsertByStable(x, tail, key, k);
      var xs: seq<T> := if key(x) == k then [x] else [];
      var hs: seq<T> := if key(s[0]) == k then [s[0]] else [];
      assert ([s[0]] + rest)[0] == s[0] && ([s[0]] + rest)[1..] == rest;
      assert WithKey([s[0]] + rest, key, k) == hs + (xs + WithKey(tail, key, k));
      assert WithKey(s, key, k) == hs + WithKey(tail, key, k);
      assert key(s[0]) != key(x);
      assert xs == [] || hs == [];
    }
  }

  /** A stable sort by `key`: the result is a permutation of the input in
      ascending key order, and elements with equal keys keep their input
      order. */
  function SortBy<T>(s: seq<T>, key: T -> string): (r: seq<T>)
    ensures multiset(r) == multiset(s)
    ensures |r| == |s|
    ensures SortedBy(r, key)
    ensures forall k :: WithKey(r, key, k) == WithKey(s, key, k)
  {
    if |s| == 0 then []
    else
      assert s == [s[0]] + s[1..];
      var sortedTail := SortBy(s[1..], key);
      assert forall k :: WithKey(InsertBy(s[0], sortedTail, key), key, k) == WithKey(s, key, k) by {
        forall k ensures WithKey(InsertBy(s[0], sortedTail, key), key, k) == WithKey(s, key, k) {
          InsertByStable(s[0], sortedTail, key, k);
        }
      }
      InsertBy(s[0], sortedTail, key)
  }

  /** The first element of a sorted sequence has the least key. */
  lemma SortedHeadIsLeast<T>(s: seq<T>, key: T -> string, x: T)
    requires SortedBy(s, key) && x in s
    ensures AtMost(key(s[0]), key(x))
  {
    var j :| 0 <= j < |s| && s[j] == x;
    if j == 0 {
    }
  }
}
