/**
 The order of JavaScript's `<` on strings, and the stable sort by a string key that the archive writer, the
 manifest and the canonical JSON all use.
 */
module Ordering {
  import opened Prelude

  /** Lexicographic by code unit; a proper prefix comes first. */
  predicate Below(a: Text, b: Text) {
    if b == [] then false
    else if a == [] then true
    else a[0] < b[0] || (a[0] == b[0] && Below(a[1..], b[1..]))
  }

  predicate AtMost(a: Text, b: Text) {
    !Below(b, a)
  }

  /** The texts agree up to here, where the first ends or has the lower unit. */
  ghost predicate DivergeAt(a: Text, b: Text, k: nat) {
    && k <= |a| && k < |b| && a[..k] == b[..k]
    && (k == |a| || a[k] < b[k])
  }

  /** The order of strings: by the first unit that differs, a proper prefix before what it begins. */
  lemma {:induction false} BelowIff(a: Text, b: Text)
    ensures Below(a, b) <==> exists k: nat :: DivergeAt(a, b, k)
  {
    if a != [] && b != [] && a[0] == b[0] {
      BelowIff(a[1..], b[1..]);
      if Below(a[1..], b[1..]) {
        var k: nat :| DivergeAt(a[1..], b[1..], k);
        assert a[..k + 1] == [a[0]] + a[1..][..k] && b[..k + 1] == [b[0]] + b[1..][..k];
        assert DivergeAt(a, b, k + 1);
      }
      if k: nat :| DivergeAt(a, b, k) {
        assert a[1..][..k - 1] == a[..k][1..] && b[1..][..k - 1] == b[..k][1..];
        assert DivergeAt(a[1..], b[1..], k - 1);
      }
    } else {
      forall k: nat | DivergeAt(a, b, k) ensures k == 0 {
      }
      assert Below(a, b) <==> DivergeAt(a, b, 0);
    }
  }

  lemma {:induction false} BelowTotal(a: Text, b: Text)
    ensures Below(a, b) || Below(b, a) || a == b
  {
    if a != [] && b != [] && a[0] == b[0] {
      BelowTotal(a[1..], b[1..]);
      assert a == [a[0]] + a[1..] && b == [b[0]] + b[1..];
    }
  }

  lemma {:induction false} BelowAsymmetric(a: Text, b: Text)
    requires Below(a, b)
    ensures !Below(b, a) && a != b
  {
    if a != [] && a[0] == b[0] {
      BelowAsymmetric(a[1..], b[1..]);
    }
  }

  lemma {:induction false} BelowTransitive(a: Text, b: Text, c: Text)
    requires Below(a, b) && Below(b, c)
    ensures Below(a, c)
  {
    if a != [] && a[0] == b[0] == c[0] {
      BelowTransitive(a[1..], b[1..], c[1..]);
    }
  }

  lemma AtMostTransitive(a: Text, b: Text, c: Text)
    requires AtMost(a, b) && AtMost(b, c)
    ensures AtMost(a, c)
  {
    if Below(c, a) {
      BelowTotal(a, b);
      BelowTotal(b, c);
      if a != b && b != c {
        BelowTransitive(a, b, c);
        BelowAsymmetric(c, a);
      }
    }
  }

  // ----- sorting by a key

  ghost predicate Sorted<T>(key: T -> Text, s: seq<T>) {
    forall i, j :: 0 <= i < j < |s| ==> AtMost(key(s[i]), key(s[j]))
  }

  ghost predicate DistinctKeys<T>(key: T -> Text, s: seq<T>) {
    forall i, j :: 0 <= i < j < |s| ==> key(s[i]) != key(s[j])
  }

  /** Put `x` before the first item whose key is not below its own. */
  function Insert<T>(key: T -> Text, x: T, s: seq<T>): seq<T> {
    if s == [] || AtMost(key(x), key(s[0])) then [x] + s
    else [s[0]] + Insert(key, x, s[1..])
  }

  function SortBy<T>(key: T -> Text, s: seq<T>): seq<T> {
    if s == [] then [] else Insert(key, s[0], SortBy(key, s[1..]))
  }

  lemma {:induction false} InsertKeeps<T>(key: T -> Text, x: T, s: seq<T>)
    ensures multiset(Insert(key, x, s)) == multiset(s) + multiset{x}
    ensures |Insert(key, x, s)| == |s| + 1
  {
    if s != [] && !AtMost(key(x), key(s[0])) {
      InsertKeeps(key, x, s[1..]);
      assert s == [s[0]] + s[1..];
    }
  }

  lemma InInsert<T>(key: T -> Text, x: T, s: seq<T>, y: T)
    requires y in Insert(key, x, s)
    ensures y == x || y in s
  {
  }

  lemma {:induction false} InsertSorts<T>(key: T -> Text, x: T, s: seq<T>)
    requires Sorted(key, s)
    ensures Sorted(key, Insert(key, x, s))
  {
    var r := Insert(key, x, s);
    if s == [] {
    } else if AtMost(key(x), key(s[0])) {
      forall i, j | 0 <= i < j < |r| ensures AtMost(key(r[i]), key(r[j])) {
        if i == 0 && j > 1 {
          AtMostTransitive(key(x), key(s[0]), key(s[j - 1]));
        }
      }
    } else {
      InsertSorts(key, x, s[1..]);
      BelowAsymmetric(key(s[0]), key(x));
      forall i, j | 0 <= i < j < |r| ensures AtMost(key(r[i]), key(r[j])) {
        if i == 0 {
          InInsert(key, x, s[1..], r[j]);
          assert r[j] == x || exists k :: 0 < k < |s| && s[k] == r[j];
        } else {
          assert r[1..] == Insert(key, x, s[1..]);
          assert r[i] == r[1..][i - 1] && r[j] == r[1..][j - 1];
        }
      }
    }
  }

  /** Sorting orders the items by key and keeps every one of them. */
  lemma {:induction false} SortBySorts<T>(key: T -> Text, s: seq<T>)
    ensures Sorted(key, SortBy(key, s))
    ensures multiset(SortBy(key, s)) == multiset(s)
    ensures |SortBy(key, s)| == |s|
  {
    hide Below, Insert;
    if s != [] {
      SortBySorts(key, s[1..]);
      InsertSorts(key, s[0], SortBy(key, s[1..]));
      InsertKeeps(key, s[0], SortBy(key, s[1..]));
      assert s == [s[0]] + s[1..];
    }
  }

  /** Sorting keeps membership. */
  lemma SortByMembers<T>(key: T -> Text, s: seq<T>, x: T)
    ensures x in SortBy(key, s) <==> x in s
  {
    SortBySorts(key, s);
    assert x in multiset(SortBy(key, s)) <==> x in multiset(s);
  }

  ghost function KeysOf<T>(key: T -> Text, s: seq<T>): set<Text> {
    set i | 0 <= i < |s| :: key(s[i])
  }

  lemma KeysOfCons<T>(key: T -> Text, x: T, s: seq<T>)
    ensures KeysOf(key, [x] + s) == KeysOf(key, s) + {key(x)}
  {
    var r := [x] + s;
    forall k | k in KeysOf(key, s) + {key(x)} ensures k in KeysOf(key, r) {
      if k == key(x) {
        assert r[0] == x;
      } else {
        var i :| 0 <= i < |s| && key(s[i]) == k;
        assert r[i + 1] == s[i];
      }
    }
  }

  lemma {:induction false} InsertKeys<T>(key: T -> Text, x: T, s: seq<T>)
    ensures KeysOf(key, Insert(key, x, s)) == KeysOf(key, s) + {key(x)}
  {
    KeysOfCons(key, x, s);
    if s != [] && !AtMost(key(x), key(s[0])) {
      InsertKeys(key, x, s[1..]);
      KeysOfCons(key, s[0], Insert(key, x, s[1..]));
      KeysOfCons(key, s[0], s[1..]);
      assert s == [s[0]] + s[1..];
    }
  }

  lemma DistinctCons<T>(key: T -> Text, x: T, s: seq<T>)
    ensures DistinctKeys(key, [x] + s) <==> DistinctKeys(key, s) && key(x) !in KeysOf(key, s)
  {
    var r := [x] + s;
    if DistinctKeys(key, r) {
      forall i, j | 0 <= i < j < |s| ensures key(s[i]) != key(s[j]) {
        assert s[i] == r[i + 1] && s[j] == r[j + 1];
      }
      forall i | 0 <= i < |s| ensures key(s[i]) != key(x) {
        assert key(r[0]) != key(r[i + 1]);
      }
    }
  }

  lemma {:induction false} InsertDistinct<T>(key: T -> Text, x: T, s: seq<T>)
    ensures DistinctKeys(key, Insert(key, x, s)) <==> DistinctKeys(key, s) && key(x) !in KeysOf(key, s)
  {
    DistinctCons(key, x, s);
    if s != [] && !AtMost(key(x), key(s[0])) {
      InsertDistinct(key, x, s[1..]);
      InsertKeys(key, x, s[1..]);
      DistinctCons(key, s[0], Insert(key, x, s[1..]));
      DistinctCons(key, s[0], s[1..]);
      KeysOfCons(key, s[0], s[1..]);
      assert s == [s[0]] + s[1..];
    }
  }

  /** Sorting keeps the keys, and neither makes nor removes a repeated one. */
  lemma {:induction false} SortByDistinct<T>(key: T -> Text, s: seq<T>)
    ensures KeysOf(key, SortBy(key, s)) == KeysOf(key, s)
    ensures DistinctKeys(key, SortBy(key, s)) <==> DistinctKeys(key, s)
  {
    if s != [] {
      SortByDistinct(key, s[1..]);
      InsertDistinct(key, s[0], SortBy(key, s[1..]));
      InsertKeys(key, s[0], SortBy(key, s[1..]));
      DistinctCons(key, s[0], s[1..]);
      KeysOfCons(key, s[0], s[1..]);
      assert s == [s[0]] + s[1..];
    }
  }

  lemma SameKey(a: Text, b: Text)
    requires AtMost(a, b) && AtMost(b, a)
    ensures a == b
  {
    BelowTotal(a, b);
  }

  lemma FirstIsFirst<T>(key: T -> Text, s: seq<T>, t: seq<T>)
    requires s != [] && t != [] && Sorted(key, s) && Sorted(key, t) && DistinctKeys(key, t)
    requires s[0] in t && t[0] in s
    ensures s[0] == t[0]
  {
    var i, j :| 0 <= i < |s| && s[i] == t[0] && 0 <= j < |t| && t[j] == s[0];
    if i > 0 && j > 0 {
      assert AtMost(key(s[0]), key(s[i])) && AtMost(key(t[0]), key(t[j]));
      SameKey(key(s[0]), key(t[0]));
    }
  }

  /** Distinct keys leave one sorted order for the same items. */
  lemma {:induction false} SortedIsUnique<T>(key: T -> Text, s: seq<T>, t: seq<T>)
    requires Sorted(key, s) && Sorted(key, t) && DistinctKeys(key, s) && DistinctKeys(key, t)
    requires forall x :: x in s <==> x in t
    ensures s == t
  {
    if s != [] {
      assert s[0] in s;
    }
    if t != [] {
      assert t[0] in t;
    }
    if s != [] && t != [] {
      FirstIsFirst(key, s, t);
      assert s == [s[0]] + s[1..] && t == [s[0]] + t[1..];
      forall x ensures x in s[1..] <==> x in t[1..] {
        assert x in s[1..] ==> x != s[0] && x in t;
        assert x in t[1..] ==> x != t[0] && x in s;
      }
      SortedIsUnique(key, s[1..], t[1..]);
    }
  }

  // ----- stability

  ghost function WithKey<T>(key: T -> Text, s: seq<T>, k: Text): seq<T> {
    if s == [] then [] else (if key(s[0]) == k then [s[0]] else []) + WithKey(key, s[1..], k)
  }

  lemma {:induction false} InsertIsStable<T>(key: T -> Text, x: T, s: seq<T>, k: Text)
    ensures WithKey(key, Insert(key, x, s), k) == (if key(x) == k then [x] else []) + WithKey(key, s, k)
  {
    hide Below;
    if s == [] || AtMost(key(x), key(s[0])) {
      WithKeyCons(key, x, s, k);
    } else {
      InsertIsStable(key, x, s[1..], k);
      WithKeyCons(key, s[0], Insert(key, x, s[1..]), k);
      BelowAsymmetric(key(s[0]), key(x));
    }
  }

  lemma WithKeyCons<T>(key: T -> Text, x: T, s: seq<T>, k: Text)
    ensures WithKey(key, [x] + s, k) == (if key(x) == k then [x] else []) + WithKey(key, s, k)
  {
    assert ([x] + s)[1..] == s;
  }

  /** Sorting keeps items with the same key in their order. */
  lemma {:induction false} SortIsStable<T>(key: T -> Text, s: seq<T>, k: Text)
    ensures WithKey(key, SortBy(key, s), k) == WithKey(key, s, k)
  {
    if s != [] {
      SortIsStable(key, s[1..], k);
      InsertIsStable(key, s[0], SortBy(key, s[1..]), k);
    }
  }
}
