/** Sequence helpers shared by the catalog builder and the result views. */
module Seqs {

  /** Concatenation is associative (stated once so that proofs need not rediscover it). */
  lemma AppendAssoc<T>(a: seq<T>, b: seq<T>, c: seq<T>)
    ensures a + (b + c) == (a + b) + c
  {
  }

  /** A slice inside the front part of a concatenation is a slice of that part. */
  lemma FrontSlice<T>(x: seq<T>, y: seq<T>, i: nat, j: nat)
    requires i <= j <= |x|
    ensures (x + y)[i..j] == x[i..j]
  {
  }

  /** The back part of a concatenation slices back out. */
  lemma BackSlice<T>(x: seq<T>, y: seq<T>)
    ensures (x + y)[|x|..|x| + |y|] == y
  {
  }

  /** No element occurs twice. */
  predicate NoDups<T(==)>(s: seq<T>) {
    forall i, j :: 0 <= i < j < |s| ==> s[i] != s[j]
  }

  /** In a sequence without duplicates every element occurs at most once. */
  lemma {:induction false} NoDupsCount<T>(s: seq<T>, x: T)
    requires NoDups(s)
    ensures multiset(s)[x] <= 1
    decreases |s|
  {
    if s != [] {
      var init := s[..|s| - 1];
      assert s == init + [s[|s| - 1]];
      NoDupsCount(init, x);
      if x == s[|s| - 1] {
        assert x !in init;
      }
    }
  }

  /** Two positions holding the same element make it occur twice. */
  lemma RepeatCount<T>(t: seq<T>, i: nat, j: nat)
    requires i < j < |t|
    ensures t[i] == t[j] ==> multiset(t)[t[i]] >= 2
  {
    assert t == t[..j] + [t[j]] + t[j + 1..];
    assert t[..j][i] == t[i];
    assert t[i] in multiset(t[..j]);
  }

  /** A permutation of a sequence without duplicates has none either. */
  lemma PermutationNoDups<T>(s: seq<T>, t: seq<T>)
    requires NoDups(s) && multiset(s) == multiset(t)
    ensures NoDups(t)
  {
    forall i, j | 0 <= i < j < |t|
      ensures t[i] != t[j]
    {
      RepeatCount(t, i, j);
      NoDupsCount(s, t[i]);
    }
  }

  /** The elements of `s` in order of first appearance, each once: what iterating
      `new Set(s)` yields, and what a push guarded by `includes` builds. */
  function Dedup<T(==)>(s: seq<T>): (r: seq<T>)
    ensures NoDups(r)
    ensures forall i :: 0 <= i < |s| ==> s[i] in r
    ensures forall i :: 0 <= i < |r| ==> r[i] in s
    ensures |r| <= |s|
  {
    if s == [] then []
    else
      var d := Dedup(s[..|s| - 1]);
      if s[|s| - 1] in d then d else d + [s[|s| - 1]]
  }

  lemma DedupSnoc<T>(s: seq<T>, x: T)
    ensures Dedup(s + [x]) == if x in Dedup(s) then Dedup(s) else Dedup(s) + [x]
  {
    assert (s + [x])[..|s|] == s;
  }

  /** A duplicate-free sequence is its own `Dedup`. */
  lemma {:induction false} DedupOfNoDups<T>(s: seq<T>)
    requires NoDups(s)
    ensures Dedup(s) == s
  {
    if s != [] {
      var p := s[..|s| - 1];
      assert NoDups(p);
      DedupOfNoDups(p);
      assert s == p + [s[|s| - 1]];
      assert s[|s| - 1] !in p;
    }
  }

  /** Appending elements only appends to the ordered union: what was there keeps its place. */
  lemma {:induction false} DedupAppendExtends<T>(a: seq<T>, b: seq<T>)
    ensures |Dedup(a)| <= |Dedup(a + b)|
    ensures Dedup(a + b)[..|Dedup(a)|] == Dedup(a)
    decreases |b|
  {
    if b == [] {
      assert a + b == a;
    } else {
      var b' := b[..|b| - 1];
      var x := b[|b| - 1];
      DedupAppendExtends(a, b');
      SnocSplit(a, b);
      DedupSnoc(a + b', x);
      PrefixOfSnoc(Dedup(a + b'), x, |Dedup(a)|);
    }
  }

  /** Appending a non-empty sequence is appending all of it but its last element, then that element. */
  lemma SnocSplit<T>(a: seq<T>, b: seq<T>)
    requires b != []
    ensures a + b == (a + b[..|b| - 1]) + [b[|b| - 1]]
  {
    assert b == b[..|b| - 1] + [b[|b| - 1]];
  }

  lemma PrefixOfSnoc<T>(s: seq<T>, x: T, n: nat)
    requires n <= |s|
    ensures (s + [x])[..n] == s[..n]
  {
  }

  /** Taking the ordered union step by step is the same as taking it once:
      `Dedup(Dedup(a) + b) == Dedup(a + b)`. */
  lemma {:induction false} DedupOfDedupAppend<T>(a: seq<T>, b: seq<T>)
    ensures Dedup(Dedup(a) + b) == Dedup(a + b)
  {
    if b == [] {
      assert a + b == a;
      assert Dedup(a) + b == Dedup(a);
      DedupOfNoDups(Dedup(a));
    } else {
      var b' := b[..|b| - 1];
      var x := b[|b| - 1];
      DedupOfDedupAppend(a, b');
      SnocSplit(Dedup(a), b);
      SnocSplit(a, b);
      DedupSnoc(Dedup(a) + b', x);
      DedupSnoc(a + b', x);
    }
  }

  /** The elements of a sequence of sequences, concatenated in order. */
  function Flatten<T>(ss: seq<seq<T>>): (r: seq<T>)
    ensures forall i :: 0 <= i < |ss| ==> forall x :: x in ss[i] ==> x in r
    ensures forall j :: 0 <= j < |r| ==> exists i :: 0 <= i < |ss| && r[j] in ss[i]
  {
    if ss == [] then []
    else
      var r := Flatten(ss[..|ss| - 1]) + ss[|ss| - 1];
      assert forall i :: 0 <= i < |ss| - 1 ==> ss[..|ss| - 1][i] == ss[i];
      r
  }

  lemma FlattenSnoc<T>(ss: seq<seq<T>>, s: seq<T>)
    ensures Flatten(ss + [s]) == Flatten(ss) + s
  {
    assert (ss + [s])[..|ss|] == ss;
  }

  // ---------------------------------------------------------------------------
  // Ordering by a real-valued key (latencies, averages)

  predicate SortedBy<T>(s: seq<T>, key: T -> real) {
    forall i, j :: 0 <= i < j < |s| ==> key(s[i]) <= key(s[j])
  }

  /** Appending an element no smaller than any other keeps a sequence sorted. */
  lemma SnocSorted<T>(t: seq<T>, x: T, key: T -> real)
    requires SortedBy(t, key)
    requires forall i :: 0 <= i < |t| ==> key(t[i]) <= key(x)
    ensures SortedBy(t + [x], key)
  {
  }
  /** Stable insertion of `x` into an already sorted `t`: after every element whose key is not larger. */
  function InsertBy<T>(t: seq<T>, x: T, key: T -> real): (r: seq<T>)
    requires SortedBy(t, key)
    ensures SortedBy(r, key)
    ensures multiset(r) == multiset(t) + multiset{x}
    ensures |r| == |t| + 1
  {
    if t == [] then [x]
    else if key(t[|t| - 1]) <= key(x) then
      SnocSorted(t, x, key);
      t + [x]
    else
      var last := t[|t| - 1];
      var t' := t[..|t| - 1];
      assert t == t' + [last];
      var p := InsertBy(t', x, key);
      assert forall i :: 0 <= i < |p| ==> key(p[i]) <= key(last) by {
        forall i | 0 <= i < |p| ensures key(p[i]) <= key(last) {
          assert p[i] in multiset(p);
          if p[i] != x {
            assert p[i] in multiset(t');
            var j :| 0 <= j < |t'| && t'[j] == p[i];
            assert t[j] == p[i];
          }
        }
      }
      SnocSorted(p, last, key);
      p + [last]
  }

  /** The stable sort that `Array.prototype.sort` and Rust's `sort_by` perform, as an insertion sort. */
  function SortBy<T>(s: seq<T>, key: T -> real): (r: seq<T>)
    ensures SortedBy(r, key)
    ensures multiset(r) == multiset(s)
    ensures |r| == |s|
  {
    if s == [] then []
    else
      assert s == s[..|s| - 1] + [s[|s| - 1]];
      InsertBy(SortBy(s[..|s| - 1], key), s[|s| - 1], key)
  }

  /** Inserting into a sorted sequence puts `x` in front only when its key is strictly smaller than the
      first element's. */
  lemma {:induction false} InsertByHead<T>(t: seq<T>, x: T, key: T -> real)
    requires SortedBy(t, key) && t != []
    ensures InsertBy(t, x, key)[0] == if key(x) < key(t[0]) then x else t[0]
    decreases |t|
  {
    if key(t[|t| - 1]) > key(x) && |t| > 1 {
      var t' := t[..|t| - 1];
      InsertByHead(t', x, key);
      assert t'[0] == t[0];
    }
  }

  /** The position of the earliest element with the least key. */
  function EarliestMin<T>(s: seq<T>, key: T -> real): (j: nat)
    requires s != []
    ensures j < |s|
    ensures forall i :: 0 <= i < |s| ==> key(s[j]) <= key(s[i])
    ensures forall i :: 0 <= i < j ==> key(s[j]) < key(s[i])
  {
    if |s| == 1 then 0
    else
      var init := s[..|s| - 1];
      var j := EarliestMin(init, key);
      assert forall i :: 0 <= i < |s| - 1 ==> init[i] == s[i];
      if key(s[|s| - 1]) < key(s[j]) then |s| - 1 else j
  }

  /** The first element after a stable sort is the earliest element with the least key. */
  lemma {:induction false} SortByHead<T>(s: seq<T>, key: T -> real)
    requires s != []
    ensures SortBy(s, key)[0] == s[EarliestMin(s, key)]
    decreases |s|
  {
    var init := s[..|s| - 1];
    var x := s[|s| - 1];
    if |s| > 1 {
      SortByHead(init, key);
      InsertByHead(SortBy(init, key), x, key);
      assert init[EarliestMin(init, key)] == s[EarliestMin(init, key)];
    }
  }

  // ---------------------------------------------------------------------------
  // Sums, minima and maxima of samples

  function Sum(s: seq<real>): real {
    if s == [] then 0.0 else Sum(s[..|s| - 1]) + s[|s| - 1]
  }

  lemma SumSnoc(s: seq<real>, x: real)
    ensures Sum(s + [x]) == Sum(s) + x
  {
    assert (s + [x])[..|s|] == s;
  }

  /** The sum depends only on the multiset of samples. */
  lemma {:induction false} SumOfPermutation(s: seq<real>, t: seq<real>)
    requires multiset(s) == multiset(t)
    ensures Sum(s) == Sum(t)
    decreases |s|
  {
    if s == [] {
      assert |t| == |multiset(t)| == 0;
    } else {
      var x := s[|s| - 1];
      var p := s[..|s| - 1];
      assert s == p + [x];
      assert x in multiset(t);
      var k :| 0 <= k < |t| && t[k] == x;
      var q := t[..k] + t[k + 1..];
      assert t == t[..k] + [x] + t[k + 1..];
      assert multiset(s) == multiset(p) + multiset{x};
      assert multiset(t) == multiset(t[..k]) + multiset{x} + multiset(t[k + 1..]);
      assert multiset(q) == multiset(t[..k]) + multiset(t[k + 1..]);
      assert multiset(p) == multiset(s) - multiset{x};
      assert multiset(q) == multiset(t) - multiset{x};
      SumOfPermutation(p, q);
      SumSplit(t[..k], x, t[k + 1..]);
      SumAppend(t[..k], t[k + 1..]);
    }
  }

  lemma {:induction false} SumAppend(a: seq<real>, b: seq<real>)
    ensures Sum(a + b) == Sum(a) + Sum(b)
    decreases |b|
  {
    if b == [] {
      assert a + b == a;
    } else {
      var b' := b[..|b| - 1];
      assert a + b == (a + b') + [b[|b| - 1]];
      SumAppend(a, b');
      SumSnoc(a + b', b[|b| - 1]);
    }
  }

  lemma SumSplit(a: seq<real>, x: real, b: seq<real>)
    ensures Sum(a + [x] + b) == Sum(a) + x + Sum(b)
  {
    SumAppend(a + [x], b);
    SumSnoc(a, x);
  }

  /** Every sample lies between `lo` and `hi`, so the sum lies between `n * lo` and `n * hi`. */
  lemma {:induction false} SumBounds(s: seq<real>, lo: real, hi: real)
    requires forall i :: 0 <= i < |s| ==> lo <= s[i] <= hi
    ensures (|s| as real) * lo <= Sum(s) <= (|s| as real) * hi
  {
    if s != [] {
      SumBounds(s[..|s| - 1], lo, hi);
    }
  }

  /** The smallest sample (`Math.min(...s)` on a non-empty list). */
  function MinOf(s: seq<real>): (m: real)
    requires s != []
    ensures m in s
    ensures forall i :: 0 <= i < |s| ==> m <= s[i]
  {
    if |s| == 1 then s[0]
    else
      var m := MinOf(s[..|s| - 1]);
      assert forall i :: 0 <= i < |s| - 1 ==> s[..|s| - 1][i] == s[i];
      if s[|s| - 1] < m then s[|s| - 1] else m
  }

  /** The largest sample (`Math.max(...s)` on a non-empty list). */
  function MaxOf(s: seq<real>): (m: real)
    requires s != []
    ensures m in s
    ensures forall i :: 0 <= i < |s| ==> s[i] <= m
  {
    if |s| == 1 then s[0]
    else
      var m := MaxOf(s[..|s| - 1]);
      assert forall i :: 0 <= i < |s| - 1 ==> s[..|s| - 1][i] == s[i];
      if s[|s| - 1] > m then s[|s| - 1] else m
  }

  /** The arithmetic mean of samples that all lie in `[lo, hi]` lies there too. */
  lemma MeanBetween(s: seq<real>, lo: real, hi: real)
    requires s != []
    requires forall i :: 0 <= i < |s| ==> lo <= s[i] <= hi
    ensures lo <= Sum(s) / (|s| as real) <= hi
  {
    SumBounds(s, lo, hi);
    QuotientBounds(lo, Sum(s), hi, |s| as real);
  }

  lemma QuotientBounds(lo: real, x: real, hi: real, n: real)
    requires n > 0.0 && n * lo <= x <= n * hi
    ensures lo <= x / n <= hi
  {
    assert x == n * (x / n);
  }
}
