/** das_stable_merge_r: insertion-sorted runs, merged bottom-up between two buffers. */
module StableMerge {
  import opened Arith
  import opened StableOrder

  const RUN: nat := 32

  // ----- insertion_run

  /** The elements from `lo` to i are in order; those from i to hi are where they were. */
  ghost predicate Inserted<T>(less: Less<T>, orig: seq<T>, p: seq<nat>, s: seq<T>, lo: nat, i: nat, hi: nat)
    requires |s| == |orig| == |p| && lo <= i <= hi <= |s|
  {
    && StableRun(less, orig, p, s, lo, i)
    && forall k :: i <= k < hi ==> p[k] == k && s[k] == orig[k]
  }

  ghost predicate MovedUp<T>(less: Less<T>, p: seq<nat>, s: seq<T>, p': seq<nat>, s': seq<T>, i: nat, k: int)
    requires |s| == |p| == |s'| == |p'| && 0 < k <= i < |s|
  {
    s'[k] == s[k - 1] && p'[k] == p[k - 1] && less(s[i], s[k - 1])
  }

  /** Element i is being inserted: it belongs at j or below, and the elements from j to i have moved up by one. */
  ghost predicate Hole<T>(less: Less<T>, p: seq<nat>, s: seq<T>, p': seq<nat>, s': seq<T>, lo: nat, j: nat, i: nat)
    requires |s| == |p| == |s'| == |p'| && lo <= j <= i < |s|
  {
    && (forall k :: 0 <= k < |s| && (k < j || k > i) ==> s'[k] == s[k] && p'[k] == p[k])
    && (forall k :: j < k <= i ==> MovedUp(less, p, s, p', s', i, k))
  }

  lemma NextUntouched<T>(less: Less<T>, orig: seq<T>, p: seq<nat>, s: seq<T>, lo: nat, i: nat, hi: nat)
    requires |s| == |orig| == |p| && lo <= i < hi <= |s| && Inserted(less, orig, p, s, lo, i, hi)
    ensures p[i] == i
  {
  }

  lemma NoHole<T>(less: Less<T>, p: seq<nat>, s: seq<T>, lo: nat, i: nat)
    requires |s| == |p| && lo <= i < |s|
    ensures Hole(less, p, s, p, s, lo, i, i)
  {
  }

  lemma HoleMoves<T>(less: Less<T>, p: seq<nat>, s: seq<T>, p': seq<nat>, s': seq<T>, lo: nat, j: nat, i: nat)
    requires |s| == |p| == |s'| == |p'| && lo < j <= i < |s| && Hole(less, p, s, p', s', lo, j, i)
    requires less(s[i], s[j - 1])
    ensures s'[j - 1] == s[j - 1] && (j - 1 > lo ==> s'[j - 2] == s[j - 2])
    ensures Hole(less, p, s, p'[j := p'[j - 1]], s'[j := s'[j - 1]], lo, j - 1, i)
  {
    var q, t := p'[j := p'[j - 1]], s'[j := s'[j - 1]];
    assert s'[j - 1] == s[j - 1] && p'[j - 1] == p[j - 1];
    forall k | 0 <= k < |s| && (k < j - 1 || k > i) ensures t[k] == s[k] && q[k] == p[k] {
    }
    forall k | j - 1 < k <= i ensures MovedUp(less, p, s, q, t, i, k) {
      if k > j { assert MovedUp(less, p, s, p', s', i, k); }
    }
  }

  lemma HoleFilled<T>(less: Less<T>, p: seq<nat>, s: seq<T>, p': seq<nat>, s': seq<T>, lo: nat, j: nat, i: nat)
    requires |s| == |p| == |s'| == |p'| && lo <= j <= i < |s| && Hole(less, p, s, p', s', lo, j, i)
    ensures forall k :: 0 <= k < |s| && !(lo <= k < i + 1) ==> s'[k] == s[k] && p'[k] == p[k]
  {
  }

  lemma InsertKeepsOrder<T(!new)>(less: Less<T>, orig: seq<T>, p: seq<nat>, s: seq<T>, p': seq<nat>, s': seq<T>,
      lo: nat, j: nat, i: nat, hi: nat)
    requires StrictWeak(less) && |s| == |orig| == |p| == |s'| == |p'| && lo <= j <= i < hi <= |s|
    requires Inserted(less, orig, p, s, lo, i, hi) && Hole(less, p, s, p', s', lo, j, i)
    requires j == lo || !less(s[i], s[j - 1])
    ensures Inserted(less, orig, p'[j := i], s'[j := s[i]], lo, i + 1, hi)
  {
    var q, t := p'[j := i], s'[j := s[i]];
    forall x | lo <= x < j ensures Before(less, orig, p[x], i) {
      if x < j - 1 { assert Before(less, orig, p[x], p[j - 1]); }
      assert Before(less, orig, p[j - 1], i);
      BeforeTransitiveOrSame(less, orig, p[x], p[j - 1], i);
    }
    forall x | j <= x < i ensures Before(less, orig, i, p[x]) {
      assert MovedUp(less, p, s, p', s', i, x + 1);
    }
    forall k | j < k <= i ensures q[k] == p[k - 1] && t[k] == s[k - 1] {
      assert MovedUp(less, p, s, p', s', i, k);
    }
    InsertedOrder(less, orig, p, q, lo, j, i);
    forall k | lo <= k < i + 1 ensures lo <= q[k] < i + 1 && t[k] == orig[q[k]] {
    }
  }

  /** A position put between those before and those after it. */
  lemma InsertedOrder<T>(less: Less<T>, orig: seq<T>, p: seq<nat>, q: seq<nat>, lo: nat, j: nat, i: nat)
    requires |orig| == |p| == |q| && lo <= j <= i < |p| && q[j] == i
    requires forall k :: lo <= k < j ==> q[k] == p[k]
    requires forall k :: j < k <= i ==> q[k] == p[k - 1]
    requires forall x :: lo <= x < i ==> p[x] < |orig|
    requires forall x, y :: lo <= x < y < i ==> Before(less, orig, p[x], p[y])
    requires forall x :: lo <= x < j ==> Before(less, orig, p[x], i)
    requires forall x :: j <= x < i ==> Before(less, orig, i, p[x])
    ensures forall x, y :: lo <= x < y < i + 1 ==> q[x] < |orig| && q[y] < |orig| && Before(less, orig, q[x], q[y])
  {
    hide Before;
    forall x, y | lo <= x < y < i + 1 ensures q[x] < |orig| && q[y] < |orig| && Before(less, orig, q[x], q[y]) {
      if x == j {
        assert q[y] == p[y - 1];
      } else if y == j {
        assert q[x] == p[x];
      } else {
        assert Before(less, orig, p[if x < j then x else x - 1], p[if y < j then y else y - 1]);
      }
    }
  }

  lemma BeforeTransitiveOrSame<T(!new)>(less: Less<T>, s: seq<T>, i: nat, j: nat, k: nat)
    requires StrictWeak(less) && i < |s| && j < |s| && k < |s|
    requires i == j || Before(less, s, i, j)
    requires Before(less, s, j, k)
    ensures Before(less, s, i, k)
  {
  }

  method InsertionRun<T(!new)>(a: array<T>, lo: nat, hi: nat, less: Less<T>, ghost orig: seq<T>, ghost before: seq<nat>)
      returns (ghost p: seq<nat>)
    requires StrictWeak(less) && |orig| == |before| == a.Length && lo < hi <= a.Length
    requires forall k :: lo <= k < hi ==> before[k] == k && a[k] == orig[k]
    modifies a
    ensures |p| == a.Length && StableRun(less, orig, p, a[..], lo, hi)
    ensures forall k :: 0 <= k < a.Length && !(lo <= k < hi) ==> a[k] == old(a[k]) && p[k] == before[k]
  {
    p := before;
    var i := lo + 1;
    while i < hi
      invariant lo < i <= hi && |p| == a.Length && Inserted(less, orig, p, a[..], lo, i, hi)
      invariant forall k :: 0 <= k < a.Length && !(lo <= k < hi) ==> a[k] == old(a[k]) && p[k] == before[k]
    {
      p := InsertOne(a, lo, i, hi, less, orig, p);
      i := i + 1;
    }
  }

  /** One turn of the outer loop: element i goes down to its place. */
  method InsertOne<T(!new)>(a: array<T>, lo: nat, i: nat, hi: nat, less: Less<T>,
      ghost orig: seq<T>, ghost before: seq<nat>) returns (ghost p: seq<nat>)
    requires StrictWeak(less) && |orig| == |before| == a.Length && lo < i < hi <= a.Length
    requires Inserted(less, orig, before, a[..], lo, i, hi)
    modifies a
    ensures |p| == a.Length && Inserted(less, orig, p, a[..], lo, i + 1, hi)
    ensures forall k :: 0 <= k < a.Length && !(lo <= k < hi) ==> a[k] == old(a[k]) && p[k] == before[k]
  {
    hide Inserted, StrictWeak, Hole;
    p := before;
    ghost var s := a[..];
    NoHole(less, p, s, lo, i);
    NextUntouched(less, orig, p, s, lo, i, hi);
    if !less(a[i], a[i - 1]) {
      InsertKeepsOrder(less, orig, p, s, p, s, lo, i, i, hi);
      assert p[i := i] == p && s[i := s[i]] == s;
      return;
    }
    var tmp := a[i];
    var j := i;
    while true
      invariant lo < j <= i && |p| == a.Length && Hole(less, before, s, p, a[..], lo, j, i)
      invariant less(tmp, s[j - 1])
      decreases j
    {
      ghost var s', p' := a[..], p;
      HoleMoves(less, before, s, p, s', lo, j, i);
      a[j] := a[j - 1];
      p := p[j := p[j - 1]];
      assert a[..] == s'[j := s'[j - 1]];
      j := j - 1;
      if !(j > lo && less(tmp, a[j - 1])) { break; }
    }
    ghost var s' := a[..];
    InsertKeepsOrder(less, orig, before, s, p, s', lo, j, i, hi);
    HoleFilled(less, before, s, p, s', lo, j, i);
    a[j] := tmp;
    p := p[j := i];
    assert a[..] == s'[j := tmp];
  }

  // ----- merge_runs

  /** Everything merged so far comes before everything left in a run. */
  ghost predicate AllBefore<T>(less: Less<T>, orig: seq<T>, q: seq<nat>, l: nat, k: nat,
      p: seq<nat>, from: nat, to: nat)
    requires l <= k <= |q| && from <= to <= |p|
  {
    forall x, y :: l <= x < k && from <= y < to ==>
      q[x] < |orig| && p[y] < |orig| && Before(less, orig, q[x], p[y])
  }

  /** The state of the merge of [l,m) and [m,r): [i,m) and [j,r) are left, [l,k) of the target is written. */
  ghost predicate Merging<T>(less: Less<T>, orig: seq<T>, p: seq<nat>, q: seq<nat>, out: seq<T>,
      l: nat, m: nat, r: nat, i: nat, j: nat, k: nat)
    requires |out| == |orig| == |p| == |q| && l <= i <= m <= j <= r <= |p| && l <= k <= r
  {
    && k - l == (i - l) + (j - m)
    && (forall x :: l <= x < k ==> l <= q[x] < r && out[x] == orig[q[x]])
    && (forall x, y :: l <= x < y < k ==> q[x] < |orig| && q[y] < |orig| && Before(less, orig, q[x], q[y]))
    && AllBefore(less, orig, q, l, k, p, i, m) && AllBefore(less, orig, q, l, k, p, j, r)
  }

  lemma TakeLeft<T(!new)>(less: Less<T>, orig: seq<T>, p: seq<nat>, s: seq<T>, q: seq<nat>, out: seq<T>,
      l: nat, m: nat, r: nat, i: nat, j: nat, k: nat)
    requires StrictWeak(less) && |s| == |out| == |orig| == |p| == |q| && l <= i < m <= j <= r <= |p| && l <= k < r
    requires StableRun(less, orig, p, s, l, m) && StableRun(less, orig, p, s, m, r)
    requires Merging(less, orig, p, q, out, l, m, r, i, j, k)
    requires j < r ==> !less(s[j], s[i])
    ensures Merging(less, orig, p, q[k := p[i]], out[k := s[i]], l, m, r, i + 1, j, k + 1)
  {
    forall y | j <= y < r ensures Before(less, orig, p[i], p[y]) {
      assert p[i] < p[j] && Before(less, orig, p[i], p[j]);
      if j < y { BeforeTransitive(less, orig, p[i], p[j], p[y]); }
    }
  }

  lemma TakeRight<T(!new)>(less: Less<T>, orig: seq<T>, p: seq<nat>, s: seq<T>, q: seq<nat>, out: seq<T>,
      l: nat, m: nat, r: nat, i: nat, j: nat, k: nat)
    requires StrictWeak(less) && |s| == |out| == |orig| == |p| == |q| && l <= i <= m <= j < r <= |p| && l <= k < r
    requires StableRun(less, orig, p, s, l, m) && StableRun(less, orig, p, s, m, r)
    requires Merging(less, orig, p, q, out, l, m, r, i, j, k)
    requires i < m ==> less(s[j], s[i])
    ensures Merging(less, orig, p, q[k := p[j]], out[k := s[j]], l, m, r, i, j + 1, k + 1)
  {
    forall y | i <= y < m ensures Before(less, orig, p[j], p[y]) {
      assert Before(less, orig, p[j], p[i]);
      if i < y { BeforeTransitive(less, orig, p[j], p[i], p[y]); }
    }
  }

  method MergeRuns<T(!new)>(src: array<T>, dst: array<T>, l: nat, m: nat, r: nat, less: Less<T>,
      ghost orig: seq<T>, ghost p: seq<nat>, ghost q0: seq<nat>) returns (ghost q: seq<nat>)
    requires StrictWeak(less) && src != dst && src.Length == dst.Length == |orig| == |p| == |q0|
    requires l <= m <= r <= src.Length
    requires StableRun(less, orig, p, src[..], l, m) && StableRun(less, orig, p, src[..], m, r)
    modifies dst
    ensures |q| == |q0| && StableRun(less, orig, q, dst[..], l, r)
    ensures forall k :: 0 <= k < dst.Length && !(l <= k < r) ==> dst[k] == old(dst[k]) && q[k] == q0[k]
  {
    hide Merging, StableRun;
    q := q0;
    var i, j, k := l, m, l;
    ghost var s := src[..];
    MergeStarts(less, orig, p, q, dst[..], l, m, r);
    while i < m && j < r
      invariant l <= i <= m <= j <= r && k - l == (i - l) + (j - m) && |q| == |q0|
      invariant Merging(less, orig, p, q, dst[..], l, m, r, i, j, k) && src[..] == s
      invariant forall x :: 0 <= x < dst.Length && !(l <= x < r) ==> dst[x] == old(dst[x]) && q[x] == q0[x]
      decreases (m - i) + (r - j)
    {
      ghost var out := dst[..];
      if less(src[j], src[i]) {
        TakeRight(less, orig, p, s, q, out, l, m, r, i, j, k);
        dst[k] := src[j];
        q := q[k := p[j]];
        j := j + 1;
      } else {
        TakeLeft(less, orig, p, s, q, out, l, m, r, i, j, k);
        dst[k] := src[i];
        q := q[k := p[i]];
        i := i + 1;
      }
      assert dst[..] == out[k := dst[k]];
      k := k + 1;
    }
    while i < m
      invariant l <= i <= m <= j <= r && k - l == (i - l) + (j - m) && |q| == |q0| && (i < m ==> j == r)
      invariant Merging(less, orig, p, q, dst[..], l, m, r, i, j, k) && src[..] == s
      invariant forall x :: 0 <= x < dst.Length && !(l <= x < r) ==> dst[x] == old(dst[x]) && q[x] == q0[x]
    {
      ghost var out := dst[..];
      TakeLeft(less, orig, p, s, q, out, l, m, r, i, j, k);
      dst[k] := src[i];
      assert dst[..] == out[k := dst[k]];
      q := q[k := p[i]];
      i, k := i + 1, k + 1;
    }
    while j < r
      invariant i == m <= j <= r && k - l == (i - l) + (j - m) && |q| == |q0|
      invariant Merging(less, orig, p, q, dst[..], l, m, r, i, j, k) && src[..] == s
      invariant forall x :: 0 <= x < dst.Length && !(l <= x < r) ==> dst[x] == old(dst[x]) && q[x] == q0[x]
    {
      ghost var out := dst[..];
      TakeRight(less, orig, p, s, q, out, l, m, r, i, j, k);
      dst[k] := src[j];
      assert dst[..] == out[k := dst[k]];
      q := q[k := p[j]];
      j, k := j + 1, k + 1;
    }
    MergeEnds(less, orig, p, q, dst[..], l, m, r);
  }

  lemma MergeStarts<T>(less: Less<T>, orig: seq<T>, p: seq<nat>, q: seq<nat>, out: seq<T>, l: nat, m: nat, r: nat)
    requires |out| == |orig| == |p| == |q| && l <= m <= r <= |p|
    ensures Merging(less, orig, p, q, out, l, m, r, l, m, l)
  {
  }

  lemma MergeEnds<T>(less: Less<T>, orig: seq<T>, p: seq<nat>, q: seq<nat>, out: seq<T>, l: nat, m: nat, r: nat)
    requires |out| == |orig| == |p| == |q| && l <= m <= r <= |p| && Merging(less, orig, p, q, out, l, m, r, m, r, r)
    ensures StableRun(less, orig, q, out, l, r)
  {
  }

  // ----- das_stable_merge_r

  predicate IsStart(lo: nat, runLen: nat)
    requires runLen > 0
  {
    lo % runLen == 0
  }

  lemma StartsStep(lo: nat, runLen: nat)
    requires runLen > 0 && IsStart(lo, runLen)
    ensures IsStart(0, runLen) && IsStart(lo + runLen, runLen)
    ensures forall k: nat :: lo < k < lo + runLen ==> !IsStart(k, runLen)
  {
    var q := lo / runLen;
    DivModDefinition(lo, runLen);
    forall k: nat | lo < k < lo + runLen ensures !IsStart(k, runLen) {
      DivModUnique(k, runLen, q, k - lo);
    }
    MulDistributes(q, 1, runLen);
    DivModUnique(lo + runLen, runLen, q + 1, 0);
    DivModUnique(0, runLen, 0, 0);
  }

  lemma DoubleStart(lo: nat, runLen: nat)
    requires runLen > 0 && IsStart(lo, 2 * runLen)
    ensures IsStart(lo, runLen)
  {
    var q := lo / (2 * runLen);
    DivModDefinition(lo, 2 * runLen);
    MulAssoc(q, 2, runLen);
    DivModUnique(lo, runLen, q * 2, 0);
  }

  /** Every run of runLen elements that starts before `upto` is sorted. */
  ghost predicate Runs<T>(less: Less<T>, orig: seq<T>, p: seq<nat>, s: seq<T>, runLen: nat, upto: nat)
    requires |s| == |orig| == |p| && runLen > 0
  {
    forall lo: nat :: lo < upto && lo < |s| && IsStart(lo, runLen) ==>
      StableRun(less, orig, p, s, lo, Min(lo + runLen, |s|))
  }

  /** A sorted run is not disturbed by changes elsewhere. */
  lemma RunStays<T>(less: Less<T>, orig: seq<T>, p: seq<nat>, s: seq<T>, p': seq<nat>, s': seq<T>, lo: nat, hi: nat)
    requires |s| == |orig| == |p| == |s'| == |p'| && lo <= hi <= |s| && StableRun(less, orig, p, s, lo, hi)
    requires forall k :: lo <= k < hi ==> p'[k] == p[k] && s'[k] == s[k]
    ensures StableRun(less, orig, p', s', lo, hi)
  {
  }

  /** One more run sorted. */
  lemma RunsStep<T>(less: Less<T>, orig: seq<T>, p: seq<nat>, s: seq<T>, p': seq<nat>, s': seq<T>, runLen: nat, lo: nat)
    requires |s| == |orig| == |p| == |s'| == |p'| && runLen > 0 && lo < |s| && IsStart(lo, runLen)
    requires Runs(less, orig, p, s, runLen, lo)
    requires StableRun(less, orig, p', s', lo, Min(lo + runLen, |s|))
    requires forall k :: 0 <= k < lo ==> p'[k] == p[k] && s'[k] == s[k]
    ensures Runs(less, orig, p', s', runLen, lo + runLen)
  {
    hide StableRun, IsStart;
    StartsStep(lo, runLen);
    forall l: nat | l < lo + runLen && l < |s| && IsStart(l, runLen)
      ensures StableRun(less, orig, p', s', l, Min(l + runLen, |s|))
    {
      if l < lo {
        StartsStep(l, runLen);
        RunStays(less, orig, p, s, p', s', l, Min(l + runLen, |s|));
      }
    }
  }

  /** The insertion-sorted runs. */
  method SortRuns<T(!new)>(a: array<T>, less: Less<T>) returns (ghost p: seq<nat>)
    requires StrictWeak(less)
    modifies a
    ensures |p| == a.Length && Runs(less, old(a[..]), p, a[..], RUN, a.Length)
  {
    hide Runs, StableRun, IsStart;
    ghost var orig := a[..];
    p := seq(a.Length, k requires 0 <= k < a.Length => k);
    var lo := 0;
    NoRuns(less, orig, p, a[..], RUN);
    while lo < a.Length
      invariant |p| == a.Length && IsStart(lo, RUN) && Runs(less, orig, p, a[..], RUN, lo)
      invariant forall k :: lo <= k < a.Length ==> p[k] == k && a[k] == orig[k]
    {
      ghost var q, s := p, a[..];
      p := InsertionRun(a, lo, Min(lo + RUN, a.Length), less, orig, p);
      StartsStep(lo, RUN);
      RunsStep(less, orig, q, s, p, a[..], RUN, lo);
      lo := lo + RUN;
    }
    RunsAll(less, orig, p, a[..], RUN, lo);
  }

  lemma NoRuns<T>(less: Less<T>, orig: seq<T>, p: seq<nat>, s: seq<T>, runLen: nat)
    requires |s| == |orig| == |p| && runLen > 0
    ensures IsStart(0, runLen) && Runs(less, orig, p, s, runLen, 0)
  {
  }

  lemma RunsAll<T>(less: Less<T>, orig: seq<T>, p: seq<nat>, s: seq<T>, runLen: nat, upto: nat)
    requires |s| == |orig| == |p| && runLen > 0 && upto >= |s| && Runs(less, orig, p, s, runLen, upto)
    ensures Runs(less, orig, p, s, runLen, |s|)
  {
  }

  /** One pass: pairs of runs of src are merged into dst. */
  method MergePass<T(!new)>(src: array<T>, dst: array<T>, runLen: nat, less: Less<T>,
      ghost orig: seq<T>, ghost p: seq<nat>) returns (ghost q: seq<nat>)
    requires StrictWeak(less) && src != dst && src.Length == dst.Length == |orig| == |p| && runLen > 0
    requires Runs(less, orig, p, src[..], runLen, src.Length)
    modifies dst
    ensures |q| == |p| && Runs(less, orig, q, dst[..], 2 * runLen, dst.Length)
  {
    hide Runs, StableRun, IsStart;
    var nel := src.Length;
    q := p;
    var lo := 0;
    NoRuns(less, orig, q, dst[..], 2 * runLen);
    while lo < nel
      invariant |q| == |p| && IsStart(lo, 2 * runLen) && Runs(less, orig, q, dst[..], 2 * runLen, lo)
      invariant src[..] == old(src[..])
      decreases nel - lo
    {
      ghost var q0, out := q, dst[..];
      var m, r := Min(lo + runLen, nel), Min(lo + 2 * runLen, nel);
      TwoRuns(less, orig, p, src[..], runLen, lo);
      if m >= r {
        q := CopyRun(src, dst, lo, r, less, orig, p, q);
      } else {
        q := MergeRuns(src, dst, lo, m, r, less, orig, p, q);
      }
      StartsStep(lo, 2 * runLen);
      RunsStep(less, orig, q0, out, q, dst[..], 2 * runLen, lo);
      lo := lo + 2 * runLen;
    }
    RunsAll(less, orig, q, dst[..], 2 * runLen, lo);
  }

  lemma TwoRuns<T>(less: Less<T>, orig: seq<T>, p: seq<nat>, s: seq<T>, runLen: nat, lo: nat)
    requires |s| == |orig| == |p| && runLen > 0 && lo < |s| && IsStart(lo, 2 * runLen)
    requires Runs(less, orig, p, s, runLen, |s|)
    ensures StableRun(less, orig, p, s, lo, Min(lo + runLen, |s|))
    ensures StableRun(less, orig, p, s, Min(lo + runLen, |s|), Min(lo + 2 * runLen, |s|))
  {
    DoubleStart(lo, runLen);
    StartsStep(lo, runLen);
    hide IsStart;
  }

  /** The lone tail run: memcpy. */
  method CopyRun<T(!new)>(src: array<T>, dst: array<T>, lo: nat, hi: nat, less: Less<T>, ghost orig: seq<T>,
      ghost p: seq<nat>, ghost q0: seq<nat>) returns (ghost q: seq<nat>)
    requires src != dst && src.Length == dst.Length == |orig| == |p| == |q0| && lo <= hi <= src.Length
    requires StableRun(less, orig, p, src[..], lo, hi)
    modifies dst
    ensures |q| == |q0| && StableRun(less, orig, q, dst[..], lo, hi)
    ensures forall k :: 0 <= k < dst.Length && !(lo <= k < hi) ==> dst[k] == old(dst[k]) && q[k] == q0[k]
  {
    forall k | lo <= k < hi {
      dst[k] := src[k];
    }
    q := q0[..lo] + p[lo..hi] + q0[hi..];
    RunStays(less, orig, p, src[..], q, dst[..], lo, hi);
  }

  /** Sorts in place, stably: whatever the length, and whichever buffer the last pass ends in. */
  method DasStableMerge<T(!new)>(a: array<T>, less: Less<T>)
    requires StrictWeak(less)
    modifies a
    ensures StableSorted(less, old(a[..]), a[..])
  {
    hide Runs, StableRun, IsStart, StableSorted;
    var nel := a.Length;
    if nel <= 1 {
      ShortIsSorted(less, a[..]);
      return;
    }
    ghost var orig := a[..];
    var first := a[0];
    var buf := new T[nel](_ => first);
    ghost var p := SortRuns(a, less);
    var src, dst := a, buf;
    var runLen := RUN;
    while runLen < nel
      invariant runLen > 0 && |p| == nel && src.Length == nel && dst.Length == nel
      invariant (src == a && dst == buf) || (src == buf && dst == a)
      invariant Runs(less, orig, p, src[..], runLen, nel)
      decreases nel - runLen
    {
      p := MergePass(src, dst, runLen, less, orig, p);
      src, dst := dst, src;
      runLen := runLen * 2;
    }
    OneRun(less, orig, p, src[..], runLen);
    ghost var sorted := src[..];
    if src != a {
      forall k | 0 <= k < nel {
        a[k] := src[k];
      }
    }
    assert a[..] == sorted;
  }

  lemma OneRun<T>(less: Less<T>, orig: seq<T>, p: seq<nat>, s: seq<T>, runLen: nat)
    requires |s| == |orig| == |p| && 0 < |s| <= runLen && Runs(less, orig, p, s, runLen, |s|)
    ensures StableSorted(less, orig, s)
  {
    DivModUnique(0, runLen, 0, 0);
    var lo: nat := 0;
    assert IsStart(lo, runLen);
    assert StableRun(less, orig, p, s, lo, Min(lo + runLen, |s|));
  }

  lemma ShortIsSorted<T>(less: Less<T>, s: seq<T>)
    requires |s| <= 1
    ensures StableSorted(less, s, s)
  {
    var p: seq<nat> := seq(|s|, _ => 0);
    assert StableRun(less, s, p, s, 0, |s|);
  }
}
