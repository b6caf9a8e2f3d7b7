/** Searching and counting a pattern in a text, as Python's `find`, `rfind` and `count` do. */
module Occurrences {
  import opened Text

  /** First occurrence at or after `from`, or -1. */
  function Find(s: string, p: string, from: nat): (r: int)
    ensures r >= -1
    ensures r >= 0 ==> r >= from && OccursAt(s, p, r)
    ensures forall j :: from <= j && (r < 0 || j < r) ==> !OccursAt(s, p, j)
    decreases |s| - from
  {
    if from + |p| > |s| then -1
    else if OccursAt(s, p, from) then from
    else Find(s, p, from + 1)
  }

  /** Last occurrence that ends at or before `end`, or -1. */
  function RFind(s: string, p: string, end: nat): (r: int)
    ensures r >= -1
    ensures r >= 0 ==> r + |p| <= end && OccursAt(s, p, r)
    ensures forall j: nat :: j > r && j + |p| <= end ==> !OccursAt(s, p, j)
  {
    if end < |p| then -1
    else if OccursAt(s, p, end - |p|) then end - |p|
    else if end == 0 then -1
    else RFind(s, p, end - 1)
  }

  /** Non-overlapping occurrences from the left, starting the search at `from`. */
  function CountFrom(s: string, p: string, from: nat): nat
    requires p != []
    decreases |s| - from
  {
    var f := Find(s, p, from);
    if f < 0 then 0 else 1 + CountFrom(s, p, f + |p|)
  }

  function Count(s: string, p: string): nat
    requires p != []
  {
    CountFrom(s, p, 0)
  }

  /** The last character of `p` occurs nowhere else in it, so `p` cannot overlap itself. */
  predicate EndsUniquely(p: string) {
    p != [] && forall i :: 0 <= i < |p| - 1 ==> p[i] != p[|p| - 1]
  }

  lemma CharAt(s: string, p: string, i: nat, k: nat)
    requires OccursAt(s, p, i) && k < |p|
    ensures i + k < |s| && s[i + k] == p[k]
  {
    assert s[i..i + |p|][k] == s[i + k];
  }

  lemma NoSelfOverlap(s: string, p: string, i: nat, j: nat)
    requires EndsUniquely(p) && OccursAt(s, p, i) && OccursAt(s, p, j) && i < j
    ensures i + |p| <= j
  {
    hide OccursAt;
    if j < i + |p| {
      CharAt(s, p, i, |p| - 1);
      CharAt(s, p, j, i + |p| - 1 - j);
      assert false;
    }
  }

  /** The number of places in [lo, hi) where `p` occurs. */
  function NumIn(s: string, p: string, lo: nat, hi: nat): nat
    decreases hi - lo
  {
    if lo >= hi then 0 else (if OccursAt(s, p, lo) then 1 else 0) + NumIn(s, p, lo + 1, hi)
  }

  lemma {:induction false} NumInSplit(s: string, p: string, lo: nat, mid: nat, hi: nat)
    requires lo <= mid <= hi
    ensures NumIn(s, p, lo, hi) == NumIn(s, p, lo, mid) + NumIn(s, p, mid, hi)
    decreases mid - lo
  {
    if lo < mid {
      NumInSplit(s, p, lo + 1, mid, hi);
    }
  }

  lemma {:induction false} NumInNone(s: string, p: string, lo: nat, hi: nat)
    requires forall j :: lo <= j < hi ==> !OccursAt(s, p, j)
    ensures NumIn(s, p, lo, hi) == 0
    decreases hi - lo
  {
    if lo < hi {
      NumInNone(s, p, lo + 1, hi);
    }
  }

  /** Counting is local: it gives the same number where the occurrences are the same. */
  lemma {:induction false} NumInSame(s: string, s': string, p: string, lo: nat, hi: nat, d: int)
    requires lo + d >= 0
    requires forall j :: lo <= j < hi ==> (OccursAt(s, p, j) <==> OccursAt(s', p, j + d))
    ensures NumIn(s, p, lo, hi) == NumIn(s', p, lo + d, if hi + d >= 0 then hi + d else 0)
    decreases hi - lo
  {
    if lo < hi {
      NumInSame(s, s', p, lo + 1, hi, d);
    }
  }

  /** For a pattern that cannot overlap itself, counting from the left counts every occurrence. */
  lemma {:induction false} CountsAll(s: string, p: string, from: nat)
    requires EndsUniquely(p) && from <= |s| + |p|
    ensures CountFrom(s, p, from) == NumIn(s, p, from, |s| + |p|)
    decreases |s| + |p| - from
  {
    hide OccursAt;
    var f := Find(s, p, from);
    var hi := |s| + |p|;
    if f < 0 {
      NumInNone(s, p, from, hi);
    } else {
      OccursInside(s, p, f);
      NumInSplit(s, p, from, f, hi);
      NumInNone(s, p, from, f);
      NumInSplit(s, p, f, f + |p|, hi);
      forall j | f + 1 <= j < f + |p| ensures !OccursAt(s, p, j) {
        if OccursAt(s, p, j) {
          NoSelfOverlap(s, p, f, j);
        }
      }
      NumInNone(s, p, f + 1, f + |p|);
      CountsAll(s, p, f + |p|);
    }
  }

  lemma OccursInside(s: string, p: string, i: nat)
    requires OccursAt(s, p, i)
    ensures i + |p| <= |s|
  {
  }
}
