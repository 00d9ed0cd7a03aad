/** What a stable sort is: the order of the elements, ties broken by position, has exactly one sorted arrangement. */
module StableOrder {

  type Less<!T> = (T, T) -> bool

  /** A strict weak order, as comparators must be. */
  ghost predicate StrictWeak<T(!new)>(less: Less<T>) {
    && (forall x :: !less(x, x))
    && (forall x, y, z :: less(x, y) && less(y, z) ==> less(x, z))
    && (forall x, y, z :: less(x, y) ==> less(x, z) || less(z, y))
  }

  /** The tie-broken comparator of das_stable_index_r: by element, and by position among equal elements. */
  predicate Before<T>(less: Less<T>, s: seq<T>, i: nat, j: nat)
    requires i < |s| && j < |s|
  {
    if less(s[i], s[j]) then true
    else if less(s[j], s[i]) then false
    else i < j
  }

  lemma BeforeTransitive<T(!new)>(less: Less<T>, s: seq<T>, i: nat, j: nat, k: nat)
    requires StrictWeak(less) && i < |s| && j < |s| && k < |s|
    requires Before(less, s, i, j) && Before(less, s, j, k)
    ensures Before(less, s, i, k)
  {
  }

  lemma BeforeTotal<T(!new)>(less: Less<T>, s: seq<T>, i: nat, j: nat)
    requires StrictWeak(less) && i < |s| && j < |s|
    ensures i != j ==> Before(less, s, i, j) || Before(less, s, j, i)
    ensures !(Before(less, s, i, j) && Before(less, s, j, i))
  {
  }

  /** The slots lo to hi of s hold the elements lo to hi of the original, in order; p says where each came from. */
  ghost predicate StableRun<T>(less: Less<T>, orig: seq<T>, p: seq<nat>, s: seq<T>, lo: nat, hi: nat)
    requires |s| == |orig| == |p| && lo <= hi <= |s|
  {
    && (forall k :: lo <= k < hi ==> lo <= p[k] < hi && s[k] == orig[p[k]])
    && (forall x, y :: lo <= x < y < hi ==> p[x] < |orig| && p[y] < |orig| && Before(less, orig, p[x], p[y]))
  }

  /** s is the original, stably sorted. */
  ghost predicate StableSorted<T>(less: Less<T>, orig: seq<T>, s: seq<T>) {
    |s| == |orig| && exists p: seq<nat> :: |p| == |s| && StableRun(less, orig, p, s, 0, |s|)
  }

  /** p names every position exactly once. */
  ghost predicate Permutation(p: seq<nat>) {
    && (forall k :: 0 <= k < |p| ==> p[k] < |p|)
    && (forall x, y :: 0 <= x < y < |p| ==> p[x] != p[y])
    && (forall v: nat :: v < |p| ==> v in p)
  }

  // ----- pigeonhole

  function Positions(n: nat): (r: set<nat>)
    ensures forall v: nat :: v in r <==> v < n
    ensures |r| == n
  {
    if n == 0 then {} else Positions(n - 1) + {n - 1}
  }

  function Elements(p: seq<nat>): set<nat> {
    set v | v in p
  }

  lemma {:induction false} ElementsCount(p: seq<nat>)
    requires forall x, y :: 0 <= x < y < |p| ==> p[x] != p[y]
    ensures |Elements(p)| == |p|
  {
    if p != [] {
      var n := |p| - 1;
      ElementsCount(p[..n]);
      assert p == p[..n] + [p[n]];
      assert Elements(p) == Elements(p[..n]) + {p[n]};
    }
  }

  lemma SubsetOfSameSize(a: set<nat>, b: set<nat>)
    requires a <= b && |a| == |b|
    ensures a == b
  {
    assert |b - a| == |b| - |a|;
  }

  /** Distinct positions, as many as there are: all of them. */
  lemma DistinctIsPermutation(p: seq<nat>)
    requires forall k :: 0 <= k < |p| ==> p[k] < |p|
    requires forall x, y :: 0 <= x < y < |p| ==> p[x] != p[y]
    ensures Permutation(p)
  {
    ElementsCount(p);
    SubsetOfSameSize(Elements(p), Positions(|p|));
    forall v: nat | v < |p| ensures v in p {
      assert v in Positions(|p|);
    }
  }

  // ----- what StableSorted means

  /** A permutation of the original, sorted, with equal elements in their original order. */
  lemma StableSortedMeans<T(!new)>(less: Less<T>, orig: seq<T>, s: seq<T>) returns (p: seq<nat>)
    requires StrictWeak(less) && StableSorted(less, orig, s)
    ensures |p| == |s| == |orig| && Permutation(p) && forall k :: 0 <= k < |s| ==> s[k] == orig[p[k]]
    ensures forall x, y :: 0 <= x < y < |s| ==> !less(s[y], s[x])
    ensures forall x, y :: 0 <= x < y < |s| && !less(s[x], s[y]) ==> p[x] < p[y]
  {
    p :| |p| == |s| && StableRun(less, orig, p, s, 0, |s|);
    StableRunDistinct(less, orig, p, s);
    DistinctIsPermutation(p);
    forall x, y | 0 <= x < y < |s|
      ensures !less(s[y], s[x]) && (!less(s[x], s[y]) ==> p[x] < p[y])
    {
      assert Before(less, orig, p[x], p[y]);
      BeforeTotal(less, orig, p[x], p[y]);
    }
  }

  lemma StableRunDistinct<T(!new)>(less: Less<T>, orig: seq<T>, p: seq<nat>, s: seq<T>)
    requires StrictWeak(less) && |s| == |orig| == |p| && StableRun(less, orig, p, s, 0, |s|)
    ensures forall x, y :: 0 <= x < y < |p| ==> p[x] != p[y]
  {
    forall x, y | 0 <= x < y < |p| ensures p[x] != p[y] {
      BeforeTotal(less, orig, p[x], p[y]);
    }
  }

  /** Two strictly sorted arrangements of the same positions are the same. */
  lemma {:induction false} SameFrom<T(!new)>(less: Less<T>, orig: seq<T>, p: seq<nat>, q: seq<nat>, k: nat)
    requires StrictWeak(less) && |p| == |q| == |orig| && k <= |p| && p[..k] == q[..k]
    requires Permutation(p) && Permutation(q)
    requires forall x, y :: 0 <= x < y < |p| ==> Before(less, orig, p[x], p[y]) && Before(less, orig, q[x], q[y])
    ensures p == q
    decreases |p| - k
  {
    if k < |p| {
      NextIsNotLater(less, orig, p, q, k);
      NextIsNotLater(less, orig, q, p, k);
      BeforeTotal(less, orig, p[k], q[k]);
      assert p[..k + 1] == p[..k] + [p[k]] && q[..k + 1] == q[..k] + [q[k]];
      SameFrom(less, orig, p, q, k + 1);
    }
  }

  lemma NextIsNotLater<T>(less: Less<T>, orig: seq<T>, p: seq<nat>, q: seq<nat>, k: nat)
    requires |p| == |q| == |orig| && k < |p| && p[..k] == q[..k] && Permutation(p) && Permutation(q)
    requires forall x, y :: 0 <= x < y < |p| ==> Before(less, orig, q[x], q[y])
    ensures q[k] == p[k] || Before(less, orig, q[k], p[k])
  {
    assert p[k] in q;
    var x :| 0 <= x < |q| && q[x] == p[k];
    assert x >= k by {
      assert forall y :: 0 <= y < k ==> q[y] == q[..k][y] == p[..k][y] == p[y];
    }
  }

  /** There is only one stably sorted arrangement. */
  lemma StableSortedUnique<T(!new)>(less: Less<T>, orig: seq<T>, s: seq<T>, s': seq<T>)
    requires StrictWeak(less) && StableSorted(less, orig, s) && StableSorted(less, orig, s')
    ensures s == s'
  {
    var p: seq<nat> :| |p| == |s| && StableRun(less, orig, p, s, 0, |s|);
    var q: seq<nat> :| |q| == |s'| && StableRun(less, orig, q, s', 0, |s'|);
    StableRunDistinct(less, orig, p, s);
    StableRunDistinct(less, orig, q, s');
    DistinctIsPermutation(p);
    DistinctIsPermutation(q);
    SameFrom(less, orig, p, q, 0);
  }
}
