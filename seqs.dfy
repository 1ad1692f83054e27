/**
 * Sequence operations shared by both stores: the two-step `splice` that moves
 * one element, first-seen de-duplication (the key order of a JavaScript `Map`),
 * `Array.prototype.filter`, and occurrence counting.
 */
module Seqs {

  function RemoveAt<T>(s: seq<T>, i: nat): (r: seq<T>)
    requires i < |s|
    ensures |r| == |s| - 1
  {
    s[..i] + s[i + 1..]
  }

  /** Where `splice(j, 0, x)` puts `x` in the sequence left after the removal: an index past the end appends. */
  function Landing(n: nat, j: nat): (p: nat)
    requires n > 0
    ensures p < n
  {
    if j < n - 1 then j else n - 1
  }

  /**
   * `const [moved] = a.splice(i, 1); a.splice(j, 0, moved)` on a copy: take the
   * element at `i` out and put it back at `j`.
   */
  function Move<T>(s: seq<T>, i: nat, j: nat): (r: seq<T>)
    requires i < |s|
    ensures |r| == |s|
    ensures r[Landing(|s|, j)] == s[i]
    ensures RemoveAt(r, Landing(|s|, j)) == RemoveAt(s, i)
    ensures multiset(r) == multiset(s)
  {
    var rest := RemoveAt(s, i);
    var p := Landing(|s|, j);
    var r := rest[..p] + [s[i]] + rest[p..];
    assert RemoveAt(r, p) == rest by {
      assert r[..p] == rest[..p] && r[p + 1..] == rest[p..];
    }
    InsertMultiset(rest, p, s[i]);
    RemoveMultiset(s, i);
    r
  }

  /** Putting `x` back anywhere gives the same multiset as appending it. */
  lemma InsertMultiset<T>(rest: seq<T>, p: nat, x: T)
    requires p <= |rest|
    ensures multiset(rest[..p] + [x] + rest[p..]) == multiset(rest) + multiset{x}
  {
    assert rest == rest[..p] + rest[p..];
  }

  /** Taking element `i` out takes one copy of it out of the multiset. */
  lemma RemoveMultiset<T>(s: seq<T>, i: nat)
    requires i < |s|
    ensures multiset(RemoveAt(s, i)) + multiset{s[i]} == multiset(s)
  {
    assert s == s[..i] + [s[i]] + s[i + 1..];
  }

  /** The two facts above determine the result: any sequence with them is the move. */
  lemma MoveUnique<T>(s: seq<T>, i: nat, j: nat, r: seq<T>)
    requires i < |s| && |r| == |s|
    requires r[Landing(|s|, j)] == s[i]
    requires RemoveAt(r, Landing(|s|, j)) == RemoveAt(s, i)
    ensures r == Move(s, i, j)
  {
    var p := Landing(|s|, j);
    var m := Move(s, i, j);
    forall k | 0 <= k < |r| ensures r[k] == m[k] {
      if k < p {
        assert r[k] == RemoveAt(r, p)[k] && m[k] == RemoveAt(m, p)[k];
      } else if k > p {
        assert r[k] == RemoveAt(r, p)[k - 1] && m[k] == RemoveAt(m, p)[k - 1];
      }
    }
  }

  /** Moving an element onto its own position leaves the sequence as it was. */
  lemma MoveSame<T>(s: seq<T>, i: nat)
    requires i < |s|
    ensures Move(s, i, i) == s
  {
    assert Landing(|s|, i) == i;
    assert RemoveAt(s, i) == RemoveAt(s, i);
    MoveUnique(s, i, i, s);
  }

  /** Dragging the element back to where it came from undoes the move. */
  lemma MoveBack<T>(s: seq<T>, i: nat, j: nat)
    requires i < |s|
    ensures Move(Move(s, i, j), Landing(|s|, j), i) == s
  {
    var m := Move(s, i, j);
    var p := Landing(|s|, j);
    assert Landing(|s|, i) == i;
    MoveUnique(m, p, i, s);
  }

  /** `true` when no value occurs twice. */
  predicate Distinct<T(==)>(s: seq<T>) {
    forall a, b | 0 <= a < b < |s| :: s[a] != s[b]
  }

  /** The values of `s` in the order they first occur: the key order of a JavaScript `Map` filled from `s`. */
  function Dedup<T(==,!new)>(s: seq<T>): (d: seq<T>)
    ensures forall x :: x in d <==> x in s
    ensures Distinct(d)
  {
    if s == [] then []
    else
      var p := Dedup(s[..|s| - 1]);
      var x := s[|s| - 1];
      if x in s[..|s| - 1] then p else p + [x]
  }

  /** Adding one value appends it to the key order exactly when it is new. */
  lemma DedupSnoc<T(!new)>(s: seq<T>, x: T)
    ensures Dedup(s + [x]) == if x in s then Dedup(s) else Dedup(s) + [x]
  {
    assert (s + [x])[..|s|] == s;
  }

  function FirstIndex<T(==)>(s: seq<T>, x: T): (k: nat)
    requires x in s
    ensures k < |s| && s[k] == x
    ensures forall m | 0 <= m < k :: s[m] != x
  {
    if s[0] == x then 0 else 1 + FirstIndex(s[1..], x)
  }

  lemma FirstIndexPrefix<T>(s: seq<T>, n: nat, x: T)
    requires n <= |s| && x in s[..n]
    ensures FirstIndex(s, x) == FirstIndex(s[..n], x)
  {
    var k, k' := FirstIndex(s[..n], x), FirstIndex(s, x);
    assert s[k] == s[..n][k];
    assert k' <= k;
    assert s[..n][k'] == s[k'];
  }

  /** The keys come out in the order of their first occurrence in the input. */
  lemma {:induction false} DedupFirstSeen<T(!new)>(s: seq<T>, a: nat, b: nat)
    requires a < b < |Dedup(s)|
    ensures FirstIndex(s, Dedup(s)[a]) < FirstIndex(s, Dedup(s)[b])
  {
    var n := |s| - 1;
    var init := s[..n];
    assert s == init + [s[n]];
    DedupSnoc(init, s[n]);
    var d := Dedup(s);
    assert d[a] in init by {
      assert d[a] in Dedup(init);
    }
    FirstIndexPrefix(s, n, d[a]);
    if b < |Dedup(init)| {
      assert d[b] in Dedup(init);
      FirstIndexPrefix(s, n, d[b]);
      DedupFirstSeen(init, a, b);
    } else {
      assert d[b] == s[n] && s[n] !in init;
    }
  }

  /** `s.filter(keep)`. */
  function Filter<T(!new)>(s: seq<T>, keep: T -> bool): (r: seq<T>)
    ensures |r| <= |s|
    ensures forall x :: x in r <==> x in s && keep(x)
  {
    if s == [] then []
    else
      var rest := Filter(s[..|s| - 1], keep);
      var x := s[|s| - 1];
      assert forall y :: y in s <==> y in s[..|s| - 1] || y == x by {
        assert s == s[..|s| - 1] + [x];
      }
      if keep(x) then rest + [x] else rest
  }

  /** Filtering works piece by piece, so the survivors keep their relative order. */
  lemma {:induction false} FilterAppend<T(!new)>(a: seq<T>, b: seq<T>, keep: T -> bool)
    ensures Filter(a + b, keep) == Filter(a, keep) + Filter(b, keep)
  {
    if b == [] {
      assert a + b == a;
    } else {
      var n := |b| - 1;
      assert (a + b)[..|a + b| - 1] == a + b[..n];
      FilterAppend(a, b[..n], keep);
    }
  }

  /** Filtering keeps everything when everything passes. */
  lemma {:induction false} FilterAll<T(!new)>(s: seq<T>, keep: T -> bool)
    requires forall k | 0 <= k < |s| :: keep(s[k])
    ensures Filter(s, keep) == s
  {
    if s != [] {
      FilterAll(s[..|s| - 1], keep);
    }
  }

  /** Filtering twice by the same test is filtering once. */
  lemma FilterIdempotent<T(!new)>(s: seq<T>, keep: T -> bool)
    ensures Filter(Filter(s, keep), keep) == Filter(s, keep)
  {
    var r := Filter(s, keep);
    forall k | 0 <= k < |r| ensures keep(r[k]) {
      assert r[k] in r;
    }
    FilterAll(r, keep);
  }

  /** `sum over d in ds of (occurrences of d in ks)`. */
  function SumCounts<T(==)>(ks: seq<T>, ds: seq<T>): nat {
    if ds == [] then 0 else SumCounts(ks, ds[..|ds| - 1]) + multiset(ks)[ds[|ds| - 1]]
  }

  lemma {:induction false} SumCountsSnocKey<T>(ks: seq<T>, x: T, ds: seq<T>)
    ensures SumCounts(ks + [x], ds) == SumCounts(ks, ds) + multiset(ds)[x]
  {
    if ds != [] {
      var n := |ds| - 1;
      SumCountsSnocKey(ks, x, ds[..n]);
      assert ds == ds[..n] + [ds[n]];
    }
  }

  lemma {:induction false} DistinctCount<T>(d: seq<T>, x: T)
    requires Distinct(d)
    ensures multiset(d)[x] == if x in d then 1 else 0
  {
    if d != [] {
      var n := |d| - 1;
      assert d == d[..n] + [d[n]];
      DistinctCount(d[..n], x);
      if d[n] == x {
        assert x !in d[..n];
      }
    }
  }

  /** A value at two positions occurs at least twice. */
  lemma TwiceCounted<T>(s: seq<T>, a: nat, b: nat)
    requires a < b < |s| && s[a] == s[b]
    ensures multiset(s)[s[a]] >= 2
  {
    assert s == s[..b] + [s[b]] + s[b + 1..];
    assert s[a] in s[..b];
  }

  /** Rearranging a sequence without repeats gives a sequence without repeats. */
  lemma DistinctPermutation<T>(x: seq<T>, y: seq<T>)
    requires multiset(x) == multiset(y) && Distinct(y)
    ensures Distinct(x)
  {
    forall a, b | 0 <= a < b < |x| ensures x[a] != x[b] {
      if x[a] == x[b] {
        TwiceCounted(x, a, b);
        DistinctCount(y, x[a]);
      }
    }
  }

  /** Grouping by key loses nothing: the group sizes over the distinct keys add up to the input length. */
  lemma {:induction false} DedupCountsSum<T(!new)>(ks: seq<T>)
    ensures SumCounts(ks, Dedup(ks)) == |ks|
  {
    if ks != [] {
      var n := |ks| - 1;
      var init, x := ks[..n], ks[n];
      assert ks == init + [x];
      DedupSnoc(init, x);
      DedupCountsSum(init);
      var d := Dedup(init);
      if x in init {
        SumCountsSnocKey(init, x, d);
        DistinctCount(d, x);
      } else {
        SumCountsSnocKey(init, x, d);
        DistinctCount(d, x);
        assert (d + [x])[..|d|] == d;
      }
    }
  }
}
