/** Sequence facts the three pipelines share: counting, first-occurrence
    de-duplication (pandas `unique`), sums and means, order-preserving
    selection, and decimal rendering of natural numbers (Python `str`). */
module Seqs {

  /** Number of indices below `n` that satisfy `p`. */
  function CountWhere(n: nat, p: nat -> bool): (c: nat)
    ensures c <= n
  {
    if n == 0 then 0 else CountWhere(n - 1, p) + (if p(n - 1) then 1 else 0)
  }

  /** Counting is monotone in the predicate. */
  lemma {:induction false} CountMono(n: nat, p: nat -> bool, q: nat -> bool)
    requires forall k :: 0 <= k < n && p(k) ==> q(k)
    ensures CountWhere(n, p) <= CountWhere(n, q)
  {
    if n > 0 {
      CountMono(n - 1, p, q);
    }
  }

  /** A witness that `q` holds where `p` fails makes the count strictly larger. */
  lemma {:induction false} CountStrict(n: nat, p: nat -> bool, q: nat -> bool, w: nat)
    requires forall k :: 0 <= k < n && p(k) ==> q(k)
    requires w < n && !p(w) && q(w)
    ensures CountWhere(n, p) < CountWhere(n, q)
  {
    if w == n - 1 {
      CountMono(n - 1, p, q);
    } else {
      CountStrict(n - 1, p, q, w);
    }
  }

  predicate NoDuplicates<T(==)>(s: seq<T>) {
    forall i, j :: 0 <= i < j < |s| ==> s[i] != s[j]
  }

  /** Position of `x` in a sequence that holds it. */
  function IndexOf<T(==)>(s: seq<T>, x: T): (i: nat)
    requires x in s
    ensures i < |s| && s[i] == x
    ensures forall j :: 0 <= j < i ==> s[j] != x
  {
    if s[0] == x then 0 else 1 + IndexOf(s[1..], x)
  }

  /** The distinct elements of `s` in order of first occurrence (pandas
      `unique`); `DistinctFirstOccurrence` states the order. */
  function Distinct<T(==)>(s: seq<T>): (r: seq<T>)
    ensures forall i :: 0 <= i < |r| ==> r[i] in s
    ensures forall i :: 0 <= i < |s| ==> s[i] in r
    ensures NoDuplicates(r)
    ensures |r| <= |s|
  {
    if |s| == 0 then []
    else
      var p := s[..|s| - 1];
      var d := Distinct(p);
      assert s == p + [s[|s| - 1]];
      if s[|s| - 1] in d then d else d + [s[|s| - 1]]
  }

  /** The distinct elements come in the order of their first occurrences. */
  lemma {:induction false} DistinctFirstOccurrence<T>(s: seq<T>)
    ensures forall i, j :: 0 <= i < j < |Distinct(s)| ==> IndexOf(s, Distinct(s)[i]) < IndexOf(s, Distinct(s)[j])
  {
    if |s| > 0 {
      var p := s[..|s| - 1];
      DistinctFirstOccurrence(p);
      assert s == p + [s[|s| - 1]];
      DistinctOrder(p, s[|s| - 1], Distinct(p), Distinct(s));
    }
  }

  /** Appending an element keeps the first-occurrence order. */
  lemma {:induction false} DistinctOrder<T>(p: seq<T>, x: T, d: seq<T>, r: seq<T>)
    requires forall i :: 0 <= i < |d| ==> d[i] in p
    requires forall i :: 0 <= i < |p| ==> p[i] in d
    requires forall i, j :: 0 <= i < j < |d| ==> IndexOf(p, d[i]) < IndexOf(p, d[j])
    requires r == if x in d then d else d + [x]
    requires forall i :: 0 <= i < |r| ==> r[i] in p + [x]
    ensures forall i, j :: 0 <= i < j < |r| ==> IndexOf(p + [x], r[i]) < IndexOf(p + [x], r[j])
  {
    forall i | 0 <= i < |d| ensures IndexOf(p + [x], d[i]) == IndexOf(p, d[i]) < |p| {
      IndexOfAppend(p, x, d[i]);
    }
    if x !in d {
      IndexOfNew(p, x);
      forall i, j | 0 <= i < j < |r| ensures IndexOf(p + [x], r[i]) < IndexOf(p + [x], r[j]) {
        assert r[i] == d[i];
        if j < |d| {
          assert r[j] == d[j];
        }
      }
    }
  }

  /** An element already present keeps its first position when another is appended. */
  lemma {:induction false} IndexOfAppend<T>(p: seq<T>, x: T, y: T)
    requires y in p
    ensures IndexOf(p + [x], y) == IndexOf(p, y) < |p|
  {
    if p[0] != y {
      assert (p + [x])[1..] == p[1..] + [x];
      IndexOfAppend(p[1..], x, y);
    }
  }

  /** A new element appended lands at the end. */
  lemma {:induction false} IndexOfNew<T>(p: seq<T>, x: T)
    requires x !in p
    ensures IndexOf(p + [x], x) == |p|
  {
    if |p| > 0 {
      assert (p + [x])[1..] == p[1..] + [x];
      IndexOfNew(p[1..], x);
    }
  }

  /** How many of the first `n` entries of `keys` equal `k`. */
  function Occurrences<K(==)>(keys: seq<K>, k: K, n: nat): (c: nat)
    requires n <= |keys|
    ensures c <= n
  {
    if n == 0 then 0 else Occurrences(keys, k, n - 1) + (if keys[n - 1] == k then 1 else 0)
  }

  /** `x` is the value of the `m`-th of the first `n` rows whose key is `k`. */
  predicate ComesFrom<K(==), T(==)>(vals: seq<T>, keys: seq<K>, k: K, n: nat, m: nat, x: T)
    requires |vals| == |keys| && n <= |keys|
  {
    exists i :: 0 <= i < n && keys[i] == k && Occurrences(keys, k, i) == m && x == vals[i]
  }

  /** The elements of `vals` at the positions where `keys` holds `k`, in
      row order (`df[df[key] == k][column]`); `SelectExact` says which. */
  function Select<K(==), T(==)>(vals: seq<T>, keys: seq<K>, k: K): (r: seq<T>)
    requires |vals| == |keys|
    ensures |r| == Occurrences(keys, k, |keys|)
    ensures |r| > 0 <==> k in keys
  {
    OccurrencesPositive(keys, k, |keys|);
    SelectFirst(vals, keys, k, |keys|)
  }

  /** The selection among the first `n` rows. */
  function SelectFirst<K(==), T(==)>(vals: seq<T>, keys: seq<K>, k: K, n: nat): (r: seq<T>)
    requires |vals| == |keys| && n <= |keys|
    ensures |r| == Occurrences(keys, k, n)
  {
    if n == 0 then []
    else
      var init := SelectFirst(vals, keys, k, n - 1);
      if keys[n - 1] == k then init + [vals[n - 1]] else init
  }

  /** Some of the first `n` keys is `k` exactly when the count is positive. */
  lemma {:induction false} OccurrencesPositive<K>(keys: seq<K>, k: K, n: nat)
    requires n <= |keys|
    ensures Occurrences(keys, k, n) > 0 <==> k in keys[..n]
  {
    if n > 0 {
      OccurrencesPositive(keys, k, n - 1);
      assert keys[..n] == keys[..n - 1] + [keys[n - 1]];
    }
  }

  /** The selection is exact: the row of the `m`-th match lands at position
      `m`, there are as many entries as matches, and every entry is the value
      of a matching row. */
  lemma {:induction false} SelectExact<K, T>(vals: seq<T>, keys: seq<K>, k: K)
    requires |vals| == |keys|
    ensures |Select(vals, keys, k)| == Occurrences(keys, k, |keys|)
    ensures forall i :: 0 <= i < |keys| && keys[i] == k ==>
              Occurrences(keys, k, i) < |Select(vals, keys, k)| &&
              Select(vals, keys, k)[Occurrences(keys, k, i)] == vals[i]
    ensures forall m :: 0 <= m < |Select(vals, keys, k)| ==>
              ComesFrom(vals, keys, k, |keys|, m, Select(vals, keys, k)[m])
  {
    SelectFirstExact(vals, keys, k, |keys|);
  }

  lemma {:induction false} SelectFirstExact<K, T>(vals: seq<T>, keys: seq<K>, k: K, n: nat)
    requires |vals| == |keys| && n <= |keys|
    ensures forall i :: 0 <= i < n && keys[i] == k ==>
              Occurrences(keys, k, i) < |SelectFirst(vals, keys, k, n)| &&
              SelectFirst(vals, keys, k, n)[Occurrences(keys, k, i)] == vals[i]
    ensures forall m :: 0 <= m < |SelectFirst(vals, keys, k, n)| ==>
              ComesFrom(vals, keys, k, n, m, SelectFirst(vals, keys, k, n)[m])
  {
    if n > 0 {
      SelectFirstExact(vals, keys, k, n - 1);
      var init := SelectFirst(vals, keys, k, n - 1);
      var r := SelectFirst(vals, keys, k, n);
      forall m | 0 <= m < |r| ensures ComesFrom(vals, keys, k, n, m, r[m]) {
        if m < |init| {
          assert r[m] == init[m];
          var i :| 0 <= i < n - 1 && keys[i] == k && Occurrences(keys, k, i) == m && init[m] == vals[i];
        } else {
          assert keys[n - 1] == k && r[m] == vals[n - 1] && Occurrences(keys, k, n - 1) == m;
        }
      }
    }
  }

  /** Joining two duplicate-free sequences with no value in common gives a
      duplicate-free sequence. */
  lemma {:induction false} AppendNoDuplicates<T>(a: seq<T>, b: seq<T>)
    requires NoDuplicates(a) && NoDuplicates(b)
    requires forall x :: x in a ==> x !in b
    ensures NoDuplicates(a + b)
  {
    forall i, j | 0 <= i < j < |a + b| ensures (a + b)[i] != (a + b)[j] {
      if j < |a| {
        assert (a + b)[i] == a[i] && (a + b)[j] == a[j];
      } else if i < |a| {
        assert (a + b)[i] == a[i] && (a + b)[j] == b[j - |a|] && a[i] in a;
      } else {
        assert (a + b)[i] == b[i - |a|] && (a + b)[j] == b[j - |a|];
      }
    }
  }

  /** The rest of a duplicate-free sequence is duplicate-free and does not
      hold its first value. */
  lemma {:induction false} NoDuplicatesTail<T>(s: seq<T>)
    requires |s| > 0 && NoDuplicates(s)
    ensures NoDuplicates(s[1..]) && s[0] !in s[1..]
  {
    forall i, j | 0 <= i < j < |s| - 1 ensures s[1..][i] != s[1..][j] {
      assert s[1..][i] == s[i + 1] && s[1..][j] == s[j + 1];
    }
  }

  /** A duplicate-free sequence holds each value at most once. */
  lemma {:induction false} NoDuplicatesAtMostOnce<T>(s: seq<T>, x: T)
    requires NoDuplicates(s)
    ensures multiset(s)[x] <= 1
  {
    if |s| > 0 {
      assert s == [s[0]] + s[1..];
      NoDuplicatesTail(s);
      NoDuplicatesAtMostOnce(s[1..], x);
    }
  }

  /** A value at two positions occurs at least twice. */
  lemma {:induction false} TwoPositions<T>(s: seq<T>, i: nat, j: nat)
    requires i < j < |s|
    ensures s[i] == s[j] ==> multiset(s)[s[i]] >= 2
  {
    assert s == s[..j] + s[j..];
    assert s[i] == s[..j][i] && s[j] == s[j..][0];
  }

  /** A permutation of a duplicate-free sequence is duplicate-free. */
  lemma {:induction false} PermutationKeepsNoDuplicates<T>(a: seq<T>, b: seq<T>)
    requires multiset(a) == multiset(b) && NoDuplicates(a)
    ensures NoDuplicates(b)
  {
    forall i, j | 0 <= i < j < |b| ensures b[i] != b[j] {
      TwoPositions(b, i, j);
      NoDuplicatesAtMostOnce(a, b[i]);
    }
  }

  /** A slice of the back of a concatenation is the same slice of the back,
      shifted by the front's length. */
  lemma {:induction false} ShiftedSlice<T>(front: seq<T>, back: seq<T>, a: nat, len: nat)
    requires a + len <= |back|
    ensures (front + back)[|front| + a..|front| + a + len] == back[a..a + len]
  {
  }

  /** The blocks joined end to end. */
  function Concat<T>(blocks: seq<seq<T>>): seq<T> {
    if |blocks| == 0 then [] else blocks[0] + Concat(blocks[1..])
  }

  /** The total length of the blocks. */
  function TotalLength<T>(blocks: seq<seq<T>>): nat {
    if |blocks| == 0 then 0 else |blocks[0]| + TotalLength(blocks[1..])
  }

  /** Block `k` sits in the concatenation right after the blocks before it,
      and nothing else is there. */
  lemma {:induction false} ConcatPlacement<T>(blocks: seq<seq<T>>)
    ensures |Concat(blocks)| == TotalLength(blocks)
    ensures forall k :: 0 <= k < |blocks| ==>
              TotalLength(blocks[..k]) + |blocks[k]| <= |Concat(blocks)| &&
              Concat(blocks)[TotalLength(blocks[..k])..TotalLength(blocks[..k]) + |blocks[k]|] == blocks[k]
  {
    if |blocks| > 0 {
      var head, tail := blocks[0], blocks[1..];
      ConcatPlacement(tail);
      forall k | 0 <= k < |blocks|
        ensures TotalLength(blocks[..k]) + |blocks[k]| <= |Concat(blocks)| &&
                Concat(blocks)[TotalLength(blocks[..k])..TotalLength(blocks[..k]) + |blocks[k]|] == blocks[k]
      {
        if k == 0 {
          assert blocks[..0] == [];
          assert (head + Concat(tail))[0..|head|] == head;
        } else {
          assert blocks[..k][0] == head && blocks[..k][1..] == tail[..k - 1];
          assert tail[k - 1] == blocks[k];
          ShiftedSlice(head, Concat(tail), TotalLength(tail[..k - 1]), |blocks[k]|);
        }
      }
    }
  }

  /** An injective map from one finite set into another: the first is no
      larger than the second. */
  lemma {:induction false} InjectionBound<X, Y>(A: set<X>, B: set<Y>, f: X --> Y)
    requires forall x :: x in A ==> f.requires(x) && f(x) in B
    requires forall x, y :: x in A && y in A && f(x) == f(y) ==> x == y
    ensures |A| <= |B|
    decreases A
  {
    if A != {} {
      var x :| x in A;
      InjectionBound(A - {x}, B - {f(x)}, f);
    }
  }

  /** Later matches land further along: the selection keeps row order. */
  lemma {:induction false} OccurrencesMono<K>(keys: seq<K>, k: K, i: nat, j: nat)
    requires i < j <= |keys| && keys[i] == k
    ensures Occurrences(keys, k, i) < Occurrences(keys, k, j)
  {
    if j > i + 1 {
      OccurrencesMono(keys, k, i, j - 1);
    }
  }

  /** The selection keeps row order: over values ordered by `key`, the
      selected values are ordered by `key` too. */
  lemma {:induction false} SelectSorted<K, T>(vals: seq<T>, keys: seq<K>, k: K, key: T -> real)
    requires |vals| == |keys|
    requires forall i, j :: 0 <= i < j < |vals| ==> key(vals[i]) <= key(vals[j])
    ensures forall a, b :: 0 <= a < b < |Select(vals, keys, k)| ==>
              key(Select(vals, keys, k)[a]) <= key(Select(vals, keys, k)[b])
  {
    var r := Select(vals, keys, k);
    SelectExact(vals, keys, k);
    forall a, b | 0 <= a < b < |r| ensures key(r[a]) <= key(r[b]) {
      assert ComesFrom(vals, keys, k, |keys|, a, r[a]) && ComesFrom(vals, keys, k, |keys|, b, r[b]);
      var i :| 0 <= i < |keys| && keys[i] == k && Occurrences(keys, k, i) == a && r[a] == vals[i];
      var j :| 0 <= j < |keys| && keys[j] == k && Occurrences(keys, k, j) == b && r[b] == vals[j];
      if j < i {
        OccurrencesMono(keys, k, j, i);
      }
      assert i != j;
    }
  }

  function Sum(s: seq<real>): real {
    if |s| == 0 then 0.0 else Sum(s[..|s| - 1]) + s[|s| - 1]
  }

  /** Arithmetic mean (numpy `mean`) of a non-empty sequence. */
  function Mean(s: seq<real>): real
    requires |s| > 0
  {
    Sum(s) / (|s| as real)
  }

  lemma {:induction false} SumBounds(s: seq<real>, lo: real, hi: real)
    requires forall i :: 0 <= i < |s| ==> lo <= s[i] <= hi
    ensures lo * (|s| as real) <= Sum(s) <= hi * (|s| as real)
  {
    if |s| > 0 {
      SumBounds(s[..|s| - 1], lo, hi);
    }
  }

  /** The mean of values in `[lo, hi]` lies in `[lo, hi]`. */
  lemma {:induction false} MeanBounds(s: seq<real>, lo: real, hi: real)
    requires |s| > 0
    requires forall i :: 0 <= i < |s| ==> lo <= s[i] <= hi
    ensures lo <= Mean(s) <= hi
  {
    SumBounds(s, lo, hi);
    var n := |s| as real;
    assert lo * n <= Sum(s) <= hi * n;
    assert Mean(s) * n == Sum(s);
  }

  lemma {:induction false} SumPositive(s: seq<real>)
    requires |s| > 0
    requires forall i :: 0 <= i < |s| ==> s[i] > 0.0
    ensures Sum(s) > 0.0
  {
    if |s| > 1 {
      SumPositive(s[..|s| - 1]);
    }
  }

  /** The mean of positive values is positive. */
  lemma {:induction false} MeanPositive(s: seq<real>)
    requires |s| > 0
    requires forall i :: 0 <= i < |s| ==> s[i] > 0.0
    ensures Mean(s) > 0.0
  {
    SumPositive(s);
  }

  /** `a` can be obtained from `b` by deleting elements: the order of `a`
      is the relative order the elements had in `b`. */
  predicate SubsequenceOf<T(==)>(a: seq<T>, b: seq<T>)
    decreases |b|
  {
    |a| == 0 ||
    (|b| > 0 && ((a[0] == b[0] && SubsequenceOf(a[1..], b[1..])) || SubsequenceOf(a, b[1..])))
  }

  /** The character of a decimal digit. */
  function DigitChar(d: nat): (c: char)
    requires d < 10
    ensures '0' <= c <= '9'
  {
    (48 + d) as char
  }

  /** Decimal rendering without leading zeros, as Python's `str` of a non-negative int. */
  function NatToString(n: nat): (s: string)
    ensures |s| >= 1
    ensures n >= 10 ==> |s| >= 2
    ensures forall i :: 0 <= i < |s| ==> '0' <= s[i] <= '9'
  {
    if n < 10 then [DigitChar(n)] else NatToString(n / 10) + [DigitChar(n % 10)]
  }

  /** Distinct numbers render to distinct strings. */
  lemma {:induction false} NatToStringInjective(a: nat, b: nat)
    requires NatToString(a) == NatToString(b)
    ensures a == b
  {
    var sa, sb := NatToString(a), NatToString(b);
    if a < 10 && b < 10 {
      assert sa[0] == DigitChar(a) && sb[0] == DigitChar(b);
    } else if a >= 10 && b >= 10 {
      assert sa[|sa| - 1] == DigitChar(a % 10) && sb[|sb| - 1] == DigitChar(b % 10);
      assert sa[..|sa| - 1] == NatToString(a / 10);
      assert sb[..|sb| - 1] == NatToString(b / 10);
      NatToStringInjective(a / 10, b / 10);
    }
  }
}
