/** The orders pandas `sort_values` uses here: Python's code-point
    lexicographic order on strings, the (text, time) key order of a
    two-column sort, and a stable insertion sort by such a key. */
module Ordering {

  /** Python's `a <= b` on strings. */
  predicate LexLe(a: string, b: string)
    decreases |a|
  {
    if |a| == 0 then true
    else if |b| == 0 then false
    else if a[0] < b[0] then true
    else if a[0] > b[0] then false
    else LexLe(a[1..], b[1..])
  }

  lemma {:induction false} LexTotal(a: string, b: string)
    ensures LexLe(a, b) || LexLe(b, a)
    decreases |a|
  {
    if |a| > 0 && |b| > 0 && a[0] == b[0] {
      LexTotal(a[1..], b[1..]);
    }
  }

  lemma {:induction false} LexAntisymmetric(a: string, b: string)
    requires LexLe(a, b) && LexLe(b, a)
    ensures a == b
    decreases |a|
  {
    if |a| > 0 && |b| > 0 {
      LexAntisymmetric(a[1..], b[1..]);
      assert a == [a[0]] + a[1..] && b == [b[0]] + b[1..];
    }
  }

  lemma {:induction false} LexTransitive(a: string, b: string, c: string)
    requires LexLe(a, b) && LexLe(b, c)
    ensures LexLe(a, c)
    decreases |a|
  {
    if |a| > 0 && |b| > 0 && |c| > 0 && a[0] == b[0] && b[0] == c[0] {
      LexTransitive(a[1..], b[1..], c[1..]);
    }
  }

  /** The key of a sort by two columns: a text column, then a time column. */
  datatype SortKey = SortKey(text: string, time: real)

  /** Lexicographic order on keys: text first, time breaks ties. */
  predicate KeyLe(x: SortKey, y: SortKey) {
    (x.text != y.text && LexLe(x.text, y.text)) || (x.text == y.text && x.time <= y.time)
  }

  lemma {:induction false} KeyTotal(x: SortKey, y: SortKey)
    ensures KeyLe(x, y) || KeyLe(y, x)
  {
    LexTotal(x.text, y.text);
  }

  lemma {:induction false} KeyTransitive(x: SortKey, y: SortKey, z: SortKey)
    requires KeyLe(x, y) && KeyLe(y, z)
    ensures KeyLe(x, z)
  {
    if x.text != y.text && y.text != z.text {
      LexTransitive(x.text, y.text, z.text);
      if x.text == z.text {
        LexAntisymmetric(x.text, y.text);
      }
    }
  }

  predicate SortedBy<T>(s: seq<T>, key: T -> SortKey) {
    forall i, j :: 0 <= i < j < |s| ==> KeyLe(key(s[i]), key(s[j]))
  }

  /** Putting an element no greater than every other in front keeps a
      sequence sorted. */
  lemma {:induction false} PrependSorted<T>(y: T, t: seq<T>, key: T -> SortKey)
    requires SortedBy(t, key)
    requires forall k :: 0 <= k < |t| ==> KeyLe(key(y), key(t[k]))
    ensures SortedBy([y] + t, key)
  {
    forall i, j | 0 <= i < j < |[y] + t| ensures KeyLe(key(([y] + t)[i]), key(([y] + t)[j])) {
      if i > 0 {
        assert ([y] + t)[i] == t[i - 1] && ([y] + t)[j] == t[j - 1];
      }
    }
  }

  /** An element no greater than the head of a sorted sequence is no greater
      than any of its elements. */
  lemma {:induction false} BelowHead<T>(x: T, s: seq<T>, key: T -> SortKey)
    requires SortedBy(s, key) && (|s| == 0 || KeyLe(key(x), key(s[0])))
    ensures forall k :: 0 <= k < |s| ==> KeyLe(key(x), key(s[k]))
  {
    forall k | 0 < k < |s| ensures KeyLe(key(x), key(s[k])) {
      KeyTransitive(key(x), key(s[0]), key(s[k]));
    }
  }

  /** The head of a sorted sequence is no greater than anything an insertion
      into its tail of an element above the head produces. */
  lemma {:induction false} HeadBelowInsertion<T>(x: T, s: seq<T>, rest: seq<T>, key: T -> SortKey)
    requires SortedBy(s, key) && |s| > 0 && KeyLe(key(s[0]), key(x))
    requires multiset(rest) == multiset(s[1..]) + multiset{x}
    ensures forall k :: 0 <= k < |rest| ==> KeyLe(key(s[0]), key(rest[k]))
  {
    forall k | 0 <= k < |rest| ensures KeyLe(key(s[0]), key(rest[k])) {
      assert rest[k] in multiset(rest);
      if rest[k] != x {
        assert rest[k] in multiset(s[1..]);
        var m :| 0 <= m < |s[1..]| && s[1..][m] == rest[k];
        assert s[m + 1] == rest[k];
      }
    }
  }

  /** Inserts `x` before the first element whose key is not below it. */
  function Insert<T(==)>(x: T, s: seq<T>, key: T -> SortKey): (r: seq<T>)
    requires SortedBy(s, key)
    ensures SortedBy(r, key)
    ensures multiset(r) == multiset(s) + multiset{x}
    ensures |r| == |s| + 1
  {
    if |s| == 0 || KeyLe(key(x), key(s[0])) then
      BelowHead(x, s, key);
      PrependSorted(x, s, key);
      [x] + s
    else
      var rest := Insert(x, s[1..], key);
      KeyTotal(key(x), key(s[0]));
      HeadBelowInsertion(x, s, rest, key);
      PrependSorted(s[0], rest, key);
      assert s == [s[0]] + s[1..];
      [s[0]] + rest
  }

  /** Stable sort by `key`: ascending, and equal keys keep their input order. */
  function SortBy<T(==)>(s: seq<T>, key: T -> SortKey): (r: seq<T>)
    ensures SortedBy(r, key)
    ensures multiset(r) == multiset(s)
    ensures |r| == |s|
  {
    if |s| == 0 then []
    else
      assert s == [s[0]] + s[1..];
      Insert(s[0], SortBy(s[1..], key), key)
  }

  /** The elements of `s` whose key is `k`, in their order in `s`. */
  function WithKey<T>(s: seq<T>, key: T -> SortKey, k: SortKey): (r: seq<T>)
    ensures |r| <= |s|
    ensures forall i :: 0 <= i < |r| ==> key(r[i]) == k
  {
    if |s| == 0 then []
    else (if key(s[0]) == k then [s[0]] else []) + WithKey(s[1..], key, k)
  }

  /** The elements with key `k` of `[y] + t`. */
  lemma {:induction false} WithKeyCons<T>(y: T, t: seq<T>, key: T -> SortKey, k: SortKey)
    ensures WithKey([y] + t, key, k) == (if key(y) == k then [y] else []) + WithKey(t, key, k)
  {
    assert ([y] + t)[0] == y && ([y] + t)[1..] == t;
  }

  /** `Insert` puts `x` in front of every element with the same key. */
  lemma {:induction false} InsertWithKey<T>(x: T, s: seq<T>, key: T -> SortKey, k: SortKey)
    requires SortedBy(s, key)
    ensures WithKey(Insert(x, s, key), key, k) == (if key(x) == k then [x] else []) + WithKey(s, key, k)
  {
    if |s| == 0 || KeyLe(key(x), key(s[0])) {
      assert Insert(x, s, key) == [x] + s;
      WithKeyCons(x, s, key, k);
    } else {
      assert SortedBy(s[1..], key) by {
        forall i, j | 0 <= i < j < |s[1..]| ensures KeyLe(key(s[1..][i]), key(s[1..][j])) {
          assert s[1..][i] == s[i + 1] && s[1..][j] == s[j + 1];
        }
      }
      InsertWithKey(x, s[1..], key, k);
      var rest := Insert(x, s[1..], key);
      assert Insert(x, s, key) == [s[0]] + rest;
      PassOverWithKey(x, s, rest, key, k);
    }
  }

  /** Passing over a head whose key differs from `x`'s keeps `x` in front
      of the elements that share its key. */
  lemma {:induction false} PassOverWithKey<T>(x: T, s: seq<T>, rest: seq<T>, key: T -> SortKey, k: SortKey)
    requires |s| > 0 && key(s[0]) != key(x)
    requires WithKey(rest, key, k) == (if key(x) == k then [x] else []) + WithKey(s[1..], key, k)
    ensures WithKey([s[0]] + rest, key, k) == (if key(x) == k then [x] else []) + WithKey(s, key, k)
  {
    WithKeyCons(s[0], rest, key, k);
    assert s == [s[0]] + s[1..];
    WithKeyCons(s[0], s[1..], key, k);
    var w := WithKey(s[1..], key, k);
    if key(s[0]) == k {
      assert [] + w == w;
      assert [] + ([s[0]] + w) == [s[0]] + w;
    } else {
      var mine := if key(x) == k then [x] else [];
      assert [] + (mine + w) == mine + w;
      assert [] + w == w;
    }
  }

  /** Stability: for every key, the sorted sequence holds the elements with
      that key in the order they have in the input. */
  lemma {:induction false} SortByStable<T>(s: seq<T>, key: T -> SortKey, k: SortKey)
    ensures WithKey(SortBy(s, key), key, k) == WithKey(s, key, k)
  {
    if |s| > 0 {
      SortByStable(s[1..], key, k);
      InsertWithKey(s[0], SortBy(s[1..], key), key, k);
    }
  }
}
