/** das_stable_index_r: sort the positions with ties broken, then permute the elements in place, cycle by cycle. */
module StableIndex {
  import opened StableOrder

  /** The mark of a slot that holds its final element. */
  const DONE: nat := 0xFFFF_FFFF

  function Iota(n: nat): (s: seq<nat>)
    ensures |s| == n && forall k :: 0 <= k < n ==> s[k] == k
  {
    seq(n, k => k)
  }

  /** The comparator given to the sort. */
  function TieBroken<T>(less: Less<T>, s: seq<T>): (nat, nat) -> bool {
    (i: nat, j: nat) => i < |s| && j < |s| && Before(less, s, i, j)
  }

  /** das_qsort_r, which need not be stable: a rearrangement in which no element is less than an earlier one. */
  type Sorter = (seq<nat>, (nat, nat) -> bool) -> seq<nat>

  ghost predicate Sorts(before: seq<nat>, lt: (nat, nat) -> bool, after: seq<nat>) {
    multiset(after) == multiset(before) && forall x, y :: 0 <= x < y < |after| ==> !lt(after[y], after[x])
  }

  lemma {:induction false} IotaOnce(n: nat, v: nat)
    ensures multiset(Iota(n))[v] == if v < n then 1 else 0
  {
    if n > 0 {
      IotaOnce(n - 1, v);
      assert Iota(n) == Iota(n - 1) + [n - 1];
    }
  }

  lemma TwiceInMultiset(s: seq<nat>, x: nat, y: nat)
    requires x < y < |s| && s[x] == s[y]
    ensures multiset(s)[s[x]] >= 2
  {
    assert s == s[..y] + [s[y]] + s[y + 1..];
    assert s[x] in s[..y];
    assert multiset(s) == multiset(s[..y]) + multiset([s[y]]) + multiset(s[y + 1..]);
  }

  /** What the sort returns is a permutation of the positions in which each comes before the next. */
  lemma SortedPositions<T(!new)>(less: Less<T>, orig: seq<T>, p: seq<nat>)
    requires StrictWeak(less) && Sorts(Iota(|orig|), TieBroken(less, orig), p)
    ensures |p| == |orig| && Permutation(p)
    ensures forall x, y :: 0 <= x < y < |p| ==> Before(less, orig, p[x], p[y])
  {
    assert |multiset(p)| == |p| && |multiset(Iota(|orig|))| == |orig|;
    forall k | 0 <= k < |p| ensures p[k] < |p| {
      assert p[k] in multiset(p);
      IotaOnce(|orig|, p[k]);
    }
    forall x, y | 0 <= x < y < |p| ensures p[x] != p[y] {
      IotaOnce(|orig|, p[x]);
      if p[x] == p[y] { TwiceInMultiset(p, x, y); }
    }
    DistinctIsPermutation(p);
    forall x, y | 0 <= x < y < |p| ensures Before(less, orig, p[x], p[y]) {
      BeforeTotal(less, orig, p[x], p[y]);
      assert !TieBroken(less, orig)(p[y], p[x]);
    }
  }

  // ----- the cycles

  /** Slots marked done hold their final element; the others still hold their own, and are named by p. */
  ghost predicate Partly<T>(orig: seq<T>, p: seq<nat>, s: seq<T>, marks: seq<nat>)
    requires |orig| == |p| == |s| == |marks|
  {
    forall k :: 0 <= k < |p| ==>
      && p[k] < |p| && p[k] < DONE
      && if marks[k] == DONE then s[k] == orig[p[k]] else marks[k] == p[k] && s[k] == orig[k]
  }

  /** The element of a done slot came from a slot that is done, except for the slot `parked`, whose own was parked. */
  ghost predicate Closed(p: seq<nat>, marks: seq<nat>, parked: nat)
    requires |p| == |marks|
  {
    forall k :: 0 <= k < |p| && p[k] < |p| && p[k] != parked && marks[p[k]] == DONE ==> marks[k] == DONE
  }

  /** Between cycles there is no exception. */
  ghost predicate AllClosed(p: seq<nat>, marks: seq<nat>)
    requires |p| == |marks|
  {
    forall k :: 0 <= k < |p| && p[k] < |p| && marks[p[k]] == DONE ==> marks[k] == DONE
  }

  lemma MarkFixed<T>(orig: seq<T>, p: seq<nat>, s: seq<T>, marks: seq<nat>, k: nat)
    requires |orig| == |p| == |s| == |marks| && k < |p| && Permutation(p)
    requires Partly(orig, p, s, marks) && AllClosed(p, marks) && (marks[k] == DONE || marks[k] == k)
    ensures Partly(orig, p, s, marks[k := DONE]) && AllClosed(p, marks[k := DONE])
  {
  }

  /** The cycle from k has come to cur, whose element is still there but has been copied already, or parked. */
  ghost predicate InCycle<T>(orig: seq<T>, p: seq<nat>, s: seq<T>, marks: seq<nat>, k: nat, cur: nat)
    requires |orig| == |p| == |s| == |marks|
  {
    && cur < |p| && Partly(orig, p, s, marks) && Closed(p, marks, k) && marks[cur] != DONE
    && forall x :: 0 <= x < |p| && p[x] == cur && cur != k ==> marks[x] == DONE
  }

  ghost predicate OnlyMarks(marks: seq<nat>, marks': seq<nat>)
    requires |marks| == |marks'|
  {
    forall x :: 0 <= x < |marks| && marks[x] == DONE ==> marks'[x] == DONE
  }

  /** The slots still to be done. */
  function Left(marks: seq<nat>): set<int> {
    set x | 0 <= x < |marks| && marks[x] != DONE
  }

  lemma LeftShrinks(marks: seq<nat>, cur: nat)
    requires cur < |marks| && marks[cur] != DONE
    ensures |Left(marks[cur := DONE])| < |Left(marks)|
  {
    assert Left(marks[cur := DONE]) == Left(marks) - {cur};
  }

  lemma CycleStarts<T>(orig: seq<T>, p: seq<nat>, s: seq<T>, marks: seq<nat>, k: nat)
    requires |orig| == |p| == |s| == |marks| && k < |p|
    requires Partly(orig, p, s, marks) && AllClosed(p, marks) && marks[k] != DONE
    ensures s[k] == orig[k] && InCycle(orig, p, s, marks, k, k) && OnlyMarks(marks, marks)
  {
  }

  /** One element of a cycle moves to its place. */
  lemma CycleStep<T>(orig: seq<T>, p: seq<nat>, s: seq<T>, marks: seq<nat>, k: nat, cur: nat)
    requires |orig| == |p| == |s| == |marks| && k < |p| && Permutation(p)
    requires InCycle(orig, p, s, marks, k, cur)
    ensures cur < |p| && marks[cur] == p[cur] < |p|
    ensures p[cur] != k ==> InCycle(orig, p, s[cur := s[p[cur]]], marks[cur := DONE], k, p[cur])
  {
  }

  /** The last one gets the parked element. */
  lemma CycleEnds<T>(orig: seq<T>, p: seq<nat>, s: seq<T>, marks: seq<nat>, k: nat, cur: nat)
    requires |orig| == |p| == |s| == |marks| && k < |p| && Permutation(p)
    requires InCycle(orig, p, s, marks, k, cur) && p[cur] == k
    ensures Partly(orig, p, s[cur := orig[k]], marks[cur := DONE]) && AllClosed(p, marks[cur := DONE])
  {
  }

  lemma MarkOne(marks0: seq<nat>, marks: seq<nat>, cur: nat)
    requires |marks0| == |marks| && cur < |marks| && OnlyMarks(marks0, marks)
    ensures OnlyMarks(marks0, marks[cur := DONE])
  {
  }

  /** The inner loop: from slot k on, each slot gets the element that belongs there. */
  method MoveCycle<T(!new)>(a: array<T>, perm: array<nat>, k: nat, ghost orig: seq<T>, ghost p: seq<nat>)
    requires a as object != perm as object
    requires a.Length == perm.Length == |orig| == |p| && k < a.Length && Permutation(p)
    requires Partly(orig, p, a[..], perm[..]) && AllClosed(p, perm[..]) && perm[k] != DONE
    modifies a, perm
    ensures Partly(orig, p, a[..], perm[..]) && AllClosed(p, perm[..])
    ensures perm[k] == DONE && OnlyMarks(old(perm[..]), perm[..])
  {
    hide Partly, Closed, AllClosed, Permutation, InCycle, OnlyMarks, Left;
    var tmp := a[k];
    var cur := k;
    ghost var s, marks := a[..], perm[..];
    ghost var marks0 := marks;
    CycleStarts(orig, p, s, marks, k);
    while true
      invariant cur < a.Length && a[..] == s && perm[..] == marks && InCycle(orig, p, s, marks, k, cur)
      invariant OnlyMarks(marks0, marks) && (cur != k ==> marks[k] == DONE)
      decreases |Left(marks)|
    {
      CycleStep(orig, p, s, marks, k, cur);
      MarkOne(marks0, marks, cur);
      assert perm[cur] == marks[cur];
      var src := perm[cur];
      if src == k {
        CycleEnds(orig, p, s, marks, k, cur);
        a[cur] := tmp;
        perm[cur] := DONE;
        assert a[..] == s[cur := tmp] && perm[..] == marks[cur := DONE];
        break;
      }
      InCycleMarks(orig, p, s, marks, k, cur);
      LeftShrinks(marks, cur);
      a[cur] := a[src];
      perm[cur] := DONE;
      s, marks := s[cur := s[src]], marks[cur := DONE];
      cur := src;
    }
  }

  lemma InCycleMarks<T>(orig: seq<T>, p: seq<nat>, s: seq<T>, marks: seq<nat>, k: nat, cur: nat)
    requires |orig| == |p| == |s| == |marks| && InCycle(orig, p, s, marks, k, cur)
    ensures cur < |p| && marks[cur] != DONE
  {
  }

  /** The outer loop: afterwards every slot k holds orig[p[k]]. */
  method ApplyPermutation<T(!new)>(a: array<T>, perm: array<nat>, ghost orig: seq<T>, ghost p: seq<nat>)
    requires a as object != perm as object && a.Length == perm.Length <= DONE
    requires orig == a[..] && p == perm[..] && Permutation(p)
    modifies a, perm
    ensures forall k :: 0 <= k < |p| ==> p[k] < |p| && a[k] == orig[p[k]]
  {
    hide Partly, AllClosed, Permutation, OnlyMarks;
    NothingDone(orig, p);
    var k := 0;
    ghost var marks := p;
    while k < perm.Length
      invariant 0 <= k <= perm.Length && perm[..] == marks
      invariant Partly(orig, p, a[..], marks) && AllClosed(p, marks) && DoneTo(marks, k)
    {
      ghost var before := marks;
      if perm[k] == DONE || perm[k] == k {
        MarkFixed(orig, p, a[..], marks, k);
        perm[k] := DONE;
        MarkOne(before, before, k);
      } else {
        MoveCycle(a, perm, k, orig, p);
      }
      marks := perm[..];
      assert perm[k] == marks[k];
      DoneOneMore(before, marks, k);
      k := k + 1;
    }
    AllDone(orig, p, a[..], marks);
  }

  ghost predicate DoneTo(marks: seq<nat>, k: nat) {
    k <= |marks| && forall x :: 0 <= x < k ==> marks[x] == DONE
  }

  lemma DoneOneMore(before: seq<nat>, after: seq<nat>, k: nat)
    requires |before| == |after| && k < |after| && DoneTo(before, k) && OnlyMarks(before, after) && after[k] == DONE
    ensures DoneTo(after, k + 1)
  {
  }

  lemma NothingDone<T>(orig: seq<T>, p: seq<nat>)
    requires |orig| == |p| <= DONE && Permutation(p)
    ensures Partly(orig, p, orig, p) && AllClosed(p, p)
  {
  }

  lemma AllDone<T>(orig: seq<T>, p: seq<nat>, s: seq<T>, marks: seq<nat>)
    requires |orig| == |p| == |s| == |marks| && Partly(orig, p, s, marks) && DoneTo(marks, |marks|)
    ensures forall k :: 0 <= k < |p| ==> p[k] < |p| && s[k] == orig[p[k]]
  {
  }

  // ----- the sort

  method DasStableIndex<T(!new)>(a: array<T>, less: Less<T>, qsort: Sorter)
    requires StrictWeak(less) && a.Length <= DONE
    requires Sorts(Iota(a.Length), TieBroken(less, a[..]), qsort(Iota(a.Length), TieBroken(less, a[..])))
    modifies a
    ensures StableSorted(less, old(a[..]), a[..])
  {
    var nel := a.Length;
    ghost var orig := a[..];
    if nel <= 1 {
      assert StableRun(less, orig, Iota(nel), orig, 0, nel);
      return;
    }
    var sorted := qsort(Iota(nel), TieBroken(less, a[..]));
    SortedPositions(less, orig, sorted);
    var perm := new nat[nel](k requires 0 <= k < nel => sorted[k]);
    assert perm[..] == sorted;
    ApplyPermutation(a, perm, orig, sorted);
    assert StableRun(less, orig, sorted, a[..], 0, nel);
  }
}
