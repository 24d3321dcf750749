/**
  Order-preserving list operations: filtering (the list comprehension
  `[x for x in s if p(x)]`) and first-occurrence de-duplication (the
  `if x not in out: out.append(x)` loop).
*/
module Seqs {

  /** `a` can be obtained from `b` by deleting elements, keeping the order of the rest. */
  ghost predicate IsSubseq<T>(a: seq<T>, b: seq<T>)
    decreases |b|
  {
    |a| == 0 || (|b| > 0 && ((a[0] == b[0] && IsSubseq(a[1..], b[1..])) || IsSubseq(a, b[1..])))
  }

  /** A subsequence of a suffix is a subsequence of the whole. */
  lemma {:induction false} IsSubseqOfSuffix<T>(a: seq<T>, b: seq<T>, k: nat)
    requires k <= |b| && IsSubseq(a, b[k..])
    ensures IsSubseq(a, b)
    decreases k
  {
    if k > 0 {
      assert b[1..][k - 1..] == b[k..];
      IsSubseqOfSuffix(a, b[1..], k - 1);
    } else {
      assert b[0..] == b;
    }
  }

  /** The elements of `s` that satisfy `p`, in their original order. */
  function Filter<T>(s: seq<T>, p: T -> bool): (r: seq<T>)
    ensures |r| <= |s|
    ensures forall i :: 0 <= i < |r| ==> p(r[i])
    ensures forall i :: 0 <= i < |r| ==> r[i] in s
    ensures forall i :: 0 <= i < |s| && p(s[i]) ==> s[i] in r
    ensures IsSubseq(r, s)
    decreases |s|
  {
    if |s| == 0 then []
    else
      var rest := Filter(s[1..], p);
      if p(s[0]) then
        assert ([s[0]] + rest)[1..] == rest;
        [s[0]] + rest
      else
        rest
  }

  /** Filtering a list with one more element at the front. */
  lemma FilterCons<T>(s: seq<T>, p: T -> bool)
    requires |s| > 0
    ensures Filter(s, p) == (if p(s[0]) then [s[0]] else []) + Filter(s[1..], p)
  {
  }

  /** Filtering an already filtered list changes nothing. */
  lemma {:induction false} FilterIdempotent<T>(s: seq<T>, p: T -> bool)
    ensures Filter(Filter(s, p), p) == Filter(s, p)
    decreases |s|
  {
    if |s| > 0 {
      FilterIdempotent(s[1..], p);
      var rest := Filter(s[1..], p);
      if p(s[0]) {
        assert ([s[0]] + rest)[1..] == rest;
      }
    }
  }

  /** Filtering keeps every element when every element passes. */
  lemma {:induction false} FilterAll<T>(s: seq<T>, p: T -> bool)
    requires forall i :: 0 <= i < |s| ==> p(s[i])
    ensures Filter(s, p) == s
    decreases |s|
  {
    if |s| > 0 {
      FilterAll(s[1..], p);
      assert s == [s[0]] + s[1..];
    }
  }

  predicate NoDup<T(==)>(s: seq<T>) {
    forall i, j :: 0 <= i < j < |s| ==> s[i] != s[j]
  }

  /** Position of the first occurrence of `x` in `s`. */
  function FirstIndex<T(==)>(s: seq<T>, x: T): (i: nat)
    requires x in s
    ensures i < |s| && s[i] == x && x !in s[..i]
    decreases |s|
  {
    if s[0] == x then 0
    else
      var j := FirstIndex(s[1..], x);
      assert s[..j + 1] == [s[0]] + s[1..][..j];
      j + 1
  }

  /** A position holding `x` with no `x` before it is the first occurrence. */
  lemma {:induction false} FirstIndexAt<T>(s: seq<T>, x: T, n: nat)
    requires n < |s| && s[n] == x && x !in s[..n]
    ensures FirstIndex(s, x) == n
    decreases n
  {
    if n > 0 {
      assert s[..n][0] == s[0];
      assert s[1..][..n - 1] == s[1..n];
      assert s[1..n] == s[..n][1..];
      FirstIndexAt(s[1..], x, n - 1);
    }
  }

  /** The first occurrence of `x` is the same in `s` and in any longer list that starts with `s`. */
  lemma FirstIndexInPrefix<T>(s: seq<T>, n: nat, x: T)
    requires n <= |s| && x in s[..n]
    ensures x in s && FirstIndex(s, x) == FirstIndex(s[..n], x)
  {
    var i := FirstIndex(s[..n], x);
    var k := FirstIndex(s, x);
    assert s[..n][..i] == s[..i];
  }

  /** Every element of `r` appears in `s`, and their first occurrences in `s` come in
      the same order as in `r`. */
  predicate InFirstOccurrenceOrder<T(==)>(r: seq<T>, s: seq<T>) {
    && (forall i :: 0 <= i < |r| ==> r[i] in s)
    && (forall i, j :: 0 <= i < j < |r| ==> FirstIndex(s, r[i]) < FirstIndex(s, r[j]))
  }

  /** The distinct elements of `s`, each kept at its first occurrence: the list built by
      walking `s` and appending each element not yet collected. */
  function Dedup<T(==)>(s: seq<T>): (r: seq<T>)
    ensures NoDup(r)
    ensures forall i :: 0 <= i < |r| ==> r[i] in s
    ensures forall i :: 0 <= i < |s| ==> s[i] in r
    ensures |r| <= |s|
    decreases |s|
  {
    if |s| == 0 then []
    else
      var n := |s| - 1;
      var r := Dedup(s[..n]);
      assert s == s[..n] + [s[n]];
      if s[n] in r then r else r + [s[n]]
  }

  /** A non-empty list of copies of one value de-duplicates to that value alone. */
  lemma {:induction false} DedupConstant<T>(s: seq<T>, v: T)
    requires |s| > 0
    requires forall i :: 0 <= i < |s| ==> s[i] == v
    ensures Dedup(s) == [v]
    decreases |s|
  {
    var n := |s| - 1;
    if n > 0 {
      assert forall i :: 0 <= i < n ==> s[..n][i] == s[i];
      DedupConstant(s[..n], v);
    }
  }

  /** The de-duplicated list keeps the order of first occurrences. */
  lemma {:induction false} DedupOrder<T>(s: seq<T>)
    ensures InFirstOccurrenceOrder(Dedup(s), s)
    decreases |s|
  {
    if |s| > 0 {
      var n := |s| - 1;
      var r := Dedup(s[..n]);
      DedupOrder(s[..n]);
      OrderInLonger(r, s, n);
      if s[n] !in r {
        DedupLast(s);
        DedupOrderAppend(r, s, s[n], n);
      }
    }
  }

  /** A last element not seen before is appended, at its first occurrence. */
  lemma DedupLast<T>(s: seq<T>)
    requires |s| > 0 && s[|s| - 1] !in Dedup(s[..|s| - 1])
    ensures Dedup(s) == Dedup(s[..|s| - 1]) + [s[|s| - 1]]
    ensures FirstIndex(s, s[|s| - 1]) == |s| - 1
  {
    var n := |s| - 1;
    assert s[n] !in s[..n];
    FirstIndexAt(s, s[n], n);
  }

  /** First occurrences in a prefix stay first occurrences in the whole list. */
  lemma OrderInLonger<T>(r: seq<T>, s: seq<T>, n: nat)
    requires n <= |s| && InFirstOccurrenceOrder(r, s[..n])
    ensures forall i :: 0 <= i < |r| ==> r[i] in s && FirstIndex(s, r[i]) < n
    ensures InFirstOccurrenceOrder(r, s)
  {
    forall i | 0 <= i < |r|
      ensures r[i] in s && FirstIndex(s, r[i]) == FirstIndex(s[..n], r[i]) < n
    {
      FirstIndexInPrefix(s, n, r[i]);
    }
  }

  lemma DedupOrderAppend<T>(r: seq<T>, s: seq<T>, x: T, n: nat)
    requires n < |s| && s[n] == x && FirstIndex(s, x) == n
    requires forall i :: 0 <= i < |r| ==> r[i] in s && FirstIndex(s, r[i]) < n
    requires forall i, j :: 0 <= i < j < |r| ==> FirstIndex(s, r[i]) < FirstIndex(s, r[j])
    ensures InFirstOccurrenceOrder(r + [x], s)
  {
    var q := r + [x];
    assert forall i :: 0 <= i < |r| ==> q[i] == r[i];
  }

  /** A list without repeats is its own de-duplication. */
  lemma {:induction false} DedupOfDistinct<T>(s: seq<T>)
    requires NoDup(s)
    ensures Dedup(s) == s
    decreases |s|
  {
    if |s| > 0 {
      var n := |s| - 1;
      var front := s[..n];
      assert NoDup(front);
      DedupOfDistinct(front);
      assert s[n] !in front;
      assert s == front + [s[n]];
    }
  }

  // ---------------------------------------------------------------------------
  // Small facts about slicing, concatenation and filtering
  // ---------------------------------------------------------------------------

  lemma FrontAndLast<T>(s: seq<T>)
    requires |s| > 0
    ensures s == s[..|s| - 1] + [s[|s| - 1]]
  {
  }

  lemma TakeNext<T>(s: seq<T>, m: nat)
    requires m < |s|
    ensures s[..m + 1] == s[..m] + [s[m]]
  {
  }

  lemma AppendAssoc<T>(a: seq<T>, b: seq<T>, c: seq<T>)
    ensures (a + b) + c == a + (b + c)
  {
  }

  /** A scan that copies `s[0]` and then, by induction, the next `i - 1` elements has
      copied the first `i`. */
  lemma ConsPrefix<T>(s: seq<T>, i: nat, r: seq<T>, r1: seq<T>, rest: seq<T>)
    requires 0 < i <= |s| && r == [s[0]] + r1 && r1 == s[1..][..i - 1] + rest
    ensures r == s[..i] + rest
  {
    assert s[..i] == [s[0]] + s[1..][..i - 1];
  }

  lemma FilterPrefixStep<T>(s: seq<T>, n: nat, p: T -> bool)
    requires n < |s|
    ensures Filter(s[..n + 1], p) == Filter(s[..n], p) + (if p(s[n]) then [s[n]] else [])
  {
    assert s[..n + 1] == s[..n] + [s[n]];
    FilterSnoc(s[..n], s[n], p);
  }

  /** Filtering a list with one more element at the end. */
  lemma {:induction false} FilterSnoc<T>(s: seq<T>, x: T, p: T -> bool)
    ensures Filter(s + [x], p) == Filter(s, p) + (if p(x) then [x] else [])
    decreases |s|
  {
    if |s| == 0 {
      assert [x][1..] == [];
    } else {
      assert (s + [x])[1..] == s[1..] + [x];
      FilterSnoc(s[1..], x, p);
    }
  }
}
