/** The two stable sorts, side by side. */
module StableSorts {
  import opened StableOrder
  import opened StableMerge
  import opened StableIndex

  /** On the same input both sorts leave the same array, whatever the sort of the positions does with equal keys. */
  method SortBoth<T(!new)>(a: array<T>, b: array<T>, less: Less<T>, qsort: Sorter)
    requires StrictWeak(less) && a != b && a[..] == b[..] && a.Length <= DONE
    requires Sorts(Iota(a.Length), TieBroken(less, a[..]), qsort(Iota(a.Length), TieBroken(less, a[..])))
    modifies a, b
    ensures a[..] == b[..] && StableSorted(less, old(a[..]), a[..])
  {
    ghost var orig := a[..];
    assert a.Length == b.Length;
    DasStableMerge(a, less);
    DasStableIndex(b, less, qsort);
    StableSortedUnique(less, orig, a[..], b[..]);
  }
}
