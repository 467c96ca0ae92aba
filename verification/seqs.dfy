/** The query operators the database applies to a collection, as pure functions on
    sequences: filtering, summing, sorting by a key (descending) and skip/limit windows.
    Folds recurse on the LAST element, the order in which `reduce` and `$group` see documents. */
module Seqs {

  /** `f` applied to every element, as `Array.prototype.map` (and a projection such as
      `distinct("_id")`). */
  function Map<T, U>(s: seq<T>, f: T -> U): (r: seq<U>)
    ensures |r| == |s|
    ensures forall k :: 0 <= k < |s| ==> r[k] == f(s[k])
  {
    seq(|s|, k requires 0 <= k < |s| => f(s[k]))
  }

  /** The elements of `s` that satisfy `p`, in their original order. */
  function Filter<T>(s: seq<T>, p: T -> bool): (r: seq<T>)
    ensures |r| <= |s|
    ensures forall x :: x in r ==> x in s && p(x)
    ensures forall x :: x in s && p(x) ==> x in r
    ensures forall k :: 0 <= k < |r| ==> p(r[k])
    decreases |s|
  {
    if |s| == 0 then []
    else Filter(s[..|s| - 1], p) + (if p(s[|s| - 1]) then [s[|s| - 1]] else [])
  }

  /** Nothing passes the filter when no element satisfies the predicate. */
  lemma {:induction false} FilterNone<T>(s: seq<T>, p: T -> bool)
    requires forall x :: x in s ==> !p(x)
    ensures Filter(s, p) == []
    decreases |s|
  {
    if |s| > 0 {
      assert s[|s| - 1] in s;
      FilterNone(s[..|s| - 1], p);
    }
  }

  /** The last element that passes the filter sits at some position `j` of `s`; nothing
      after `j` passes, and what passes before `j` is the rest of the filtered sequence. */
  lemma {:induction false} FilterLast<T>(s: seq<T>, p: T -> bool) returns (j: nat)
    requires |Filter(s, p)| >= 1
    ensures j < |s| && p(s[j]) && s[j] == Filter(s, p)[|Filter(s, p)| - 1]
    ensures forall m :: j < m < |s| ==> !p(s[m])
    ensures Filter(s[..j], p) == Filter(s, p)[..|Filter(s, p)| - 1]
    decreases |s|
  {
    var prefix := s[..|s| - 1];
    var f := Filter(s, p);
    if p(s[|s| - 1]) {
      j := |s| - 1;
      assert s[..j] == prefix;
      assert f == Filter(prefix, p) + [s[j]];
      assert f[..|f| - 1] == Filter(prefix, p);
    } else {
      assert f == Filter(prefix, p);
      j := FilterLast(prefix, p);
      FilterLastSkipsLast(s, p, j);
    }
  }

  /** When the last element of `s` fails `p`, the last passing element of the prefix
      is the last passing element of `s`. */
  lemma FilterLastSkipsLast<T>(s: seq<T>, p: T -> bool, j: nat)
    requires |s| > 0 && !p(s[|s| - 1])
    requires var prefix := s[..|s| - 1];
      && |Filter(prefix, p)| >= 1
      && j < |prefix| && p(prefix[j]) && prefix[j] == Filter(prefix, p)[|Filter(prefix, p)| - 1]
      && (forall m :: j < m < |prefix| ==> !p(prefix[m]))
      && Filter(prefix[..j], p) == Filter(prefix, p)[..|Filter(prefix, p)| - 1]
    ensures j < |s| && p(s[j]) && s[j] == Filter(s, p)[|Filter(s, p)| - 1]
    ensures forall m :: j < m < |s| ==> !p(s[m])
    ensures Filter(s[..j], p) == Filter(s, p)[..|Filter(s, p)| - 1]
  {
    var prefix := s[..|s| - 1];
    assert Filter(s, p) == Filter(prefix, p);
    assert s[..j] == prefix[..j];
    assert forall m :: 0 <= m < |prefix| ==> s[m] == prefix[m];
  }

  /** Filtering distributes over concatenation. */
  lemma {:induction false} FilterConcat<T>(a: seq<T>, b: seq<T>, p: T -> bool)
    ensures Filter(a + b, p) == Filter(a, p) + Filter(b, p)
    decreases |b|
  {
    if |b| == 0 {
      assert a + b == a;
    } else {
      var b' := b[..|b| - 1];
      assert (a + b)[..|a + b| - 1] == a + b';
      FilterConcat(a, b', p);
    }
  }

  /** The sum of `f` over `s`, as `s.reduce((sum, x) => sum + f(x), 0)`. */
  function SumOf<T>(s: seq<T>, f: T -> real): real
    decreases |s|
  {
    if |s| == 0 then 0.0 else SumOf(s[..|s| - 1], f) + f(s[|s| - 1])
  }

  lemma {:induction false} SumConcat<T>(a: seq<T>, b: seq<T>, f: T -> real)
    ensures SumOf(a + b, f) == SumOf(a, f) + SumOf(b, f)
    decreases |b|
  {
    if |b| == 0 {
      assert a + b == a;
    } else {
      var b' := b[..|b| - 1];
      assert (a + b)[..|a + b| - 1] == a + b';
      SumConcat(a, b', f);
    }
  }

  /** One more element adds its term to the sum over the filtered elements exactly
      when it passes the filter. */
  lemma FilterSumAppend<T>(s: seq<T>, x: T, p: T -> bool, f: T -> real)
    ensures SumOf(Filter(s + [x], p), f) == SumOf(Filter(s, p), f) + (if p(x) then f(x) else 0.0)
  {
    var kept := Filter(s, p);
    assert (s + [x])[..|s|] == s;
    if p(x) {
      assert (kept + [x])[..|kept|] == kept;
    } else {
      assert kept + [] == kept;
    }
  }

  /** A sum of terms all below `c` is below `c` times their number. */
  lemma {:induction false} SumBelowAll<T>(s: seq<T>, f: T -> real, c: real)
    requires |s| > 0 && forall k :: 0 <= k < |s| ==> f(s[k]) < c
    ensures SumOf(s, f) < (|s| as real) * c
    decreases |s|
  {
    var prefix := s[..|s| - 1];
    if |prefix| > 0 {
      SumBelowAll(prefix, f, c);
      assert (|prefix| as real) * c + c == (|s| as real) * c;
    }
  }

  /** A sum of terms all above `c` is above `c` times their number. */
  lemma {:induction false} SumAboveAll<T>(s: seq<T>, f: T -> real, c: real)
    requires |s| > 0 && forall k :: 0 <= k < |s| ==> f(s[k]) > c
    ensures SumOf(s, f) > (|s| as real) * c
    decreases |s|
  {
    var prefix := s[..|s| - 1];
    if |prefix| > 0 {
      SumAboveAll(prefix, f, c);
      assert (|prefix| as real) * c + c == (|s| as real) * c;
    }
  }

  /** The mean of a non-empty collection lies between its smallest and its largest term. */
  lemma MeanWithinRange<T>(s: seq<T>, f: T -> real)
    requires |s| > 0
    ensures exists i :: 0 <= i < |s| && f(s[i]) <= SumOf(s, f) / (|s| as real)
    ensures exists j :: 0 <= j < |s| && SumOf(s, f) / (|s| as real) <= f(s[j])
  {
    var n := |s| as real;
    var mean := SumOf(s, f) / n;
    assert n * mean == SumOf(s, f);
    if forall k :: 0 <= k < |s| ==> f(s[k]) > mean {
      SumAboveAll(s, f, mean);
      assert false;
    }
    if forall k :: 0 <= k < |s| ==> f(s[k]) < mean {
      SumBelowAll(s, f, mean);
      assert false;
    }
  }

  /** Taking one term out of a sum. */
  lemma SumRemove<T>(b: seq<T>, j: nat, f: T -> real)
    requires j < |b|
    ensures SumOf(b, f) == SumOf(b[..j] + b[j + 1..], f) + f(b[j])
  {
    var before, here, after := b[..j], [b[j]], b[j + 1..];
    assert b == before + (here + after);
    SumConcat(before, here + after, f);
    SumConcat(here, after, f);
    SumConcat(before, after, f);
    assert SumOf(here, f) == f(b[j]) by {
      assert here[..0] == [];
    }
  }

  /** Removing the element at `j` removes exactly one copy of it from the multiset. */
  lemma MultisetRemove<T>(b: seq<T>, j: nat)
    requires j < |b|
    ensures multiset(b[..j] + b[j + 1..]) == multiset(b) - multiset{b[j]}
  {
    assert b == b[..j] + [b[j]] + b[j + 1..];
  }

  /** A sum does not depend on the order of its terms: a sorted copy of a
      collection has the same total as the collection. */
  lemma {:induction false} SumPermutation<T>(a: seq<T>, b: seq<T>, f: T -> real)
    requires multiset(a) == multiset(b)
    ensures SumOf(a, f) == SumOf(b, f)
    decreases |a|
  {
    if |a| == 0 {
      assert |b| == |multiset(b)| == 0;
    } else {
      var x := a[|a| - 1];
      var a' := a[..|a| - 1];
      assert x in multiset(b);
      var j :| 0 <= j < |b| && b[j] == x;
      MultisetRemove(a, |a| - 1);
      MultisetRemove(b, j);
      assert a[..|a| - 1] + a[|a|..] == a';
      SumPermutation(a', b[..j] + b[j + 1..], f);
      SumRemove(b, j, f);
    }
  }

  /** `s` is ordered by `key`, largest first (a `$sort` with direction -1). */
  predicate SortedDesc<T>(s: seq<T>, key: T -> real) {
    forall i, j :: 0 <= i < j < |s| ==> key(s[i]) >= key(s[j])
  }

  /** Inserts `x` into a descending sequence, before the first element it is not smaller than. */
  function Insert<T>(x: T, s: seq<T>, key: T -> real): (r: seq<T>)
    requires SortedDesc(s, key)
    ensures SortedDesc(r, key)
    ensures multiset(r) == multiset(s) + multiset{x}
    ensures |r| == |s| + 1
    decreases |s|
  {
    if |s| == 0 || key(x) >= key(s[0]) then [x] + s
    else
      var rest := Insert(x, s[1..], key);
      assert s == [s[0]] + s[1..];
      InsertedBelowHead(x, s, rest, key);
      [s[0]] + rest
  }

  /** What `Insert` places after the head of `s` has a key no larger than the head's. */
  lemma InsertedBelowHead<T>(x: T, s: seq<T>, rest: seq<T>, key: T -> real)
    requires |s| > 0 && SortedDesc(s, key) && key(x) < key(s[0])
    requires multiset(rest) == multiset(s[1..]) + multiset{x}
    ensures forall k :: 0 <= k < |rest| ==> key(rest[k]) <= key(s[0])
  {
    forall k | 0 <= k < |rest|
      ensures key(rest[k]) <= key(s[0])
    {
      var y := rest[k];
      assert y in multiset(rest);
      if y != x {
        assert y in multiset(s[1..]);
        var i :| 0 <= i < |s[1..]| && s[1..][i] == y;
        assert s[i + 1] == y;
      }
    }
  }

  /** Sorts `s` by `key`, largest first; the result is a permutation of `s`. */
  function SortDesc<T>(s: seq<T>, key: T -> real): (r: seq<T>)
    ensures SortedDesc(r, key)
    ensures multiset(r) == multiset(s)
    ensures |r| == |s|
    decreases |s|
  {
    if |s| == 0 then []
    else
      assert s == s[..|s| - 1] + [s[|s| - 1]];
      Insert(s[|s| - 1], SortDesc(s[..|s| - 1], key), key)
  }

  /** Every element of a permutation is an element of the original. */
  lemma PermutationMembers<T>(a: seq<T>, b: seq<T>)
    requires multiset(a) == multiset(b)
    ensures forall x :: x in a <==> x in b
  {
    forall x
      ensures x in a <==> x in b
    {
      assert x in a <==> x in multiset(a);
      assert x in b <==> x in multiset(b);
    }
  }

  function Min(a: int, b: int): int {
    if a <= b then a else b
  }

  /** `cursor.skip(skip).limit(limit)` for a non-negative skip: the elements of `s`
      at positions skip .. skip+limit-1 that exist. */
  function Window<T>(s: seq<T>, skip: nat, limit: nat): (r: seq<T>)
    ensures |r| <= limit
    ensures |r| == if skip >= |s| then 0 else Min(limit, |s| - skip)
    ensures forall k :: 0 <= k < |r| ==> r[k] == s[skip + k]
  {
    if skip >= |s| then [] else s[skip..skip + Min(limit, |s| - skip)]
  }

  /** How `Array.prototype.slice` reads an index into a sequence of length `len`: a
      negative index counts back from the end, and the position is clamped to 0 .. len. */
  function SliceIndex(i: int, len: nat): (k: nat)
    ensures k <= len
  {
    if i < 0 then (if len + i < 0 then 0 else len + i) else Min(i, len)
  }

  /** `s.slice(start, end)`: the elements from the position `start` resolves to up to
      (not including) the one `end` resolves to; nothing when they cross. */
  function Slice<T>(s: seq<T>, start: int, end: int): (r: seq<T>)
    ensures var from, to := SliceIndex(start, |s|), SliceIndex(end, |s|);
      && |r| == (if from < to then to - from else 0)
      && forall k :: 0 <= k < |r| ==> r[k] == s[from + k]
  {
    var from, to := SliceIndex(start, |s|), SliceIndex(end, |s|);
    if from < to then s[from..to] else []
  }

  /** With a non-negative start, `slice(skip, skip + limit)` takes the same elements
      as the database's `skip(skip).limit(limit)`. */
  lemma SliceFromNatural<T>(s: seq<T>, skip: nat, limit: nat)
    ensures Slice(s, skip, skip + limit) == Window(s, skip, limit)
  {
  }

  /** With a negative start, `slice` counts back from the end: it takes what the
      same span shifted by the length would take, clipped at the front. */
  lemma SliceFromEnd<T>(s: seq<T>, start: int, end: int)
    requires start < 0 && end < 0
    ensures var lo := if |s| + start < 0 then 0 else |s| + start;
      var hi := |s| + end;
      && |Slice(s, start, end)| == (if lo < hi then hi - lo else 0)
      && forall k :: 0 <= k < |Slice(s, start, end)| ==> Slice(s, start, end)[k] == s[lo + k]
  {
  }
}
