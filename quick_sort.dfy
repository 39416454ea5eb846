/**
 * The index-carrying quicksort of EigenFaceComputation: doubleQuickSort sorts
 * a[lo0..hi0] (both bounds inclusive) in place and calls swap, which was meant
 * to keep index[] pointing at the original position of every value.
 *
 * As written, swap stores each slot's own position in index[] instead of
 * exchanging the two index entries, so the sort never moves index entries:
 * it can only overwrite index[k] with k. DoubleQuickSort models that code;
 * DoubleQuickSortTracked is the corrected sort whose index does follow the values.
 */
module QuickSort {

  /** s[lo..hi] (inclusive) is ascending. */
  ghost predicate SortedBetween(s: seq<real>, lo: int, hi: int)
  {
    forall i, j :: lo <= i < j <= hi && 0 <= i && j < |s| ==> s[i] <= s[j]
  }

  /** s and t agree everywhere outside lo..hi (inclusive). */
  ghost predicate SameOutside(s: seq<real>, t: seq<real>, lo: int, hi: int)
  {
    |s| == |t| && forall k :: 0 <= k < |s| && !(lo <= k <= hi) ==> s[k] == t[k]
  }

  /**
   * What the as-written swap can do to index[]: every slot keeps its previous
   * value, or, inside lo..hi, has been overwritten with its own position.
   */
  ghost predicate IndexTrace(idx: seq<int>, prev: seq<int>, lo: int, hi: int)
  {
    |idx| == |prev| &&
    forall k :: 0 <= k < |idx| ==> idx[k] == prev[k] || (lo <= k <= hi && idx[k] == k)
  }

  ghost predicate IsIdentity(idx: seq<int>)
  {
    forall k :: 0 <= k < |idx| ==> idx[k] == k
  }

  /** idx[k] names the position in orig of the value now at sorted[k]. */
  ghost predicate TracksOrigin(sorted: seq<real>, orig: seq<real>, idx: seq<int>)
  {
    |idx| == |sorted| &&
    forall k :: 0 <= k < |idx| ==> 0 <= idx[k] < |orig| && sorted[k] == orig[idx[k]]
  }

  /** swap as written: exchanges a[i] and a[j], but sets index[i] := i and index[j] := j. */
  method Swap(a: array<real>, index: array<int>, i: int, j: int)
    requires 0 <= i < a.Length && 0 <= j < a.Length
    requires i < index.Length && j < index.Length
    modifies a, index
    ensures a[i] == old(a[j]) && a[j] == old(a[i])
    ensures forall k :: 0 <= k < a.Length && k != i && k != j ==> a[k] == old(a[k])
    ensures index[i] == i && index[j] == j
    ensures forall k :: 0 <= k < index.Length && k != i && k != j ==> index[k] == old(index[k])
    ensures multiset(a[..]) == multiset(old(a[..]))
  {
    Exchange(a, i, j);
    index[i] := i;
    index[j] := j;
  }

  /**
   * The left scan of doubleQuickSort (lines 372-374): from lo, the first
   * position holding a value of at least mid. The sentinel p, a position at
   * or right of lo holding such a value, keeps the scan in range.
   */
  method ScanUp(a: array<real>, lo: int, hi0: int, mid: real, ghost p: int) returns (stop: int)
    requires 0 <= lo <= p <= hi0 < a.Length && mid <= a[p]
    ensures lo <= stop <= p && mid <= a[stop]
    ensures forall k :: lo <= k < stop ==> a[k] < mid
  {
    stop := lo;
    while stop < hi0 && a[stop] < mid
      invariant lo <= stop <= p
      invariant forall k :: lo <= k < stop ==> a[k] < mid
    {
      stop := stop + 1;
    }
  }

  /**
   * The right scan of doubleQuickSort (lines 380-382): from hi, the first
   * position going left holding a value of at most mid. The sentinel q, a
   * position at or left of hi holding such a value, keeps the scan in range.
   */
  method ScanDown(a: array<real>, hi: int, lo0: int, mid: real, ghost q: int) returns (stop: int)
    requires 0 <= lo0 <= q <= hi < a.Length && a[q] <= mid
    ensures q <= stop <= hi && a[stop] <= mid
    ensures forall k :: stop < k <= hi ==> mid < a[k]
  {
    stop := hi;
    while stop > lo0 && a[stop] > mid
      invariant q <= stop <= hi
      invariant forall k :: stop < k <= hi ==> mid < a[k]
    {
      stop := stop - 1;
    }
  }

  /**
   * The partition loop of doubleQuickSort (lines 365-390): pivot value mid is
   * a[(lo0 + hi0) / 2]; on return lo > hi, everything left of lo is at most
   * mid, everything right of hi is at least mid, and both recursive ranges
   * lo0..hi and lo..hi0 are strictly smaller than lo0..hi0.
   */
  method Partition(a: array<real>, index: array<int>, lo0: int, hi0: int)
    returns (lo: int, hi: int, mid: real)
    requires 0 <= lo0 < hi0 < a.Length && hi0 < index.Length
    modifies a, index
    ensures lo0 < lo <= hi0 + 1 && lo0 - 1 <= hi < hi0 && hi < lo
    ensures forall k :: lo0 <= k < lo ==> a[k] <= mid
    ensures forall k :: hi < k <= hi0 ==> mid <= a[k]
    ensures multiset(a[..]) == multiset(old(a[..]))
    ensures SameOutside(a[..], old(a[..]), lo0, hi0)
    ensures IndexTrace(index[..], old(index[..]), lo0, hi0)
  {
    lo, hi := lo0, hi0;
    mid := a[(lo0 + hi0) / 2];
    // p and q are sentinels: a value >= mid at or right of lo, a value <= mid at or left of hi
    ghost var p, q := (lo0 + hi0) / 2, (lo0 + hi0) / 2;
    while lo <= hi
      invariant lo0 <= lo <= hi0 + 1 && lo0 - 1 <= hi <= hi0
      invariant (lo == lo0 && hi == hi0 && p == q) || (lo0 < lo && hi < hi0)
      invariant lo <= hi ==> lo <= p <= hi0 && mid <= a[p] && lo0 <= q <= hi && a[q] <= mid
      invariant forall k :: lo0 <= k < lo ==> a[k] <= mid
      invariant forall k :: hi < k <= hi0 ==> mid <= a[k]
      invariant multiset(a[..]) == multiset(old(a[..]))
      invariant SameOutside(a[..], old(a[..]), lo0, hi0)
      invariant IndexTrace(index[..], old(index[..]), lo0, hi0)
      decreases hi - lo + hi0 - lo0 + 2
    {
      lo := ScanUp(a, lo, hi0, mid, p);
      hi := ScanDown(a, hi, lo0, mid, q);
      if lo <= hi {
        Swap(a, index, lo, hi);
        p, q := hi, lo;
        lo := lo + 1;
        hi := hi - 1;
      }
    }
  }

  /** Rearranging within lo..hi (inclusive) keeps the multiset of that range. */
  lemma MiddleKept(s: seq<real>, t: seq<real>, lo: int, hi: int)
    requires 0 <= lo <= hi < |s|
    requires multiset(s) == multiset(t) && SameOutside(s, t, lo, hi)
    ensures multiset(s[lo..hi + 1]) == multiset(t[lo..hi + 1])
  {
    var left, right := s[..lo], s[hi + 1..];
    var inS, inT := s[lo..hi + 1], t[lo..hi + 1];
    assert s == left + inS + right;
    assert t == left + inT + right by {
      assert t[..lo] == left && t[hi + 1..] == right;
      assert t == t[..lo] + t[lo..hi + 1] + t[hi + 1..];
    }
    var outer := multiset(left) + multiset(right);
    assert multiset(s) == multiset(inS) + outer;
    assert multiset(t) == multiset(inT) + outer;
    assert multiset(inS) == multiset(s) - outer;
  }

  /** Elements of t[lo..hi] (inclusive) keep a common bound once rearranged within lo..hi. */
  lemma BoundsKept(s: seq<real>, t: seq<real>, lo: int, hi: int, x: real, above: bool)
    requires 0 <= lo && hi < |s|
    requires multiset(s) == multiset(t) && SameOutside(s, t, lo, hi)
    requires forall k :: lo <= k <= hi ==> if above then x <= t[k] else t[k] <= x
    ensures forall k :: lo <= k <= hi ==> if above then x <= s[k] else s[k] <= x
  {
    if lo <= hi {
      MiddleKept(s, t, lo, hi);
      forall k | lo <= k <= hi
        ensures if above then x <= s[k] else s[k] <= x
      {
        assert s[k] == s[lo..hi + 1][k - lo];
        assert s[k] in multiset(t[lo..hi + 1]);
        var i :| 0 <= i < hi + 1 - lo && t[lo..hi + 1][i] == s[k];
        assert t[lo + i] == s[k];
      }
    }
  }

  /** Two sorted runs separated by the pivot join into one sorted run. */
  lemma JoinSorted(s: seq<real>, lo0: int, hi: int, lo: int, hi0: int, mid: real)
    requires hi < lo
    requires SortedBetween(s, lo0, hi) && SortedBetween(s, lo, hi0)
    requires forall k :: lo0 <= k < lo && 0 <= k < |s| ==> s[k] <= mid
    requires forall k :: hi < k <= hi0 && 0 <= k < |s| ==> mid <= s[k]
    ensures SortedBetween(s, lo0, hi0)
  {
  }

  /** doubleQuickSort as written (lines 354-406), with the as-written swap. */
  method DoubleQuickSort(a: array<real>, index: array<int>, lo0: int, hi0: int)
    requires lo0 < hi0 ==> 0 <= lo0 && hi0 < a.Length && hi0 < index.Length
    modifies a, index
    ensures SortedBetween(a[..], lo0, hi0)
    ensures multiset(a[..]) == multiset(old(a[..]))
    ensures SameOutside(a[..], old(a[..]), lo0, hi0)
    ensures IndexTrace(index[..], old(index[..]), lo0, hi0)
    ensures IsIdentity(old(index[..])) ==> IsIdentity(index[..])
    decreases hi0 - lo0
  {
    if hi0 > lo0 {
      var lo, hi, mid := Partition(a, index, lo0, hi0);
      ghost var a1 := a[..];
      if lo0 < hi {
        DoubleQuickSort(a, index, lo0, hi);
        BoundsKept(a[..], a1, lo0, hi, mid, false);
      }
      ghost var a2 := a[..];
      if lo < hi0 {
        DoubleQuickSort(a, index, lo, hi0);
        BoundsKept(a[..], a2, lo, hi0, mid, true);
      }
      JoinSorted(a[..], lo0, hi, lo, hi0, mid);
    }
  }

  /** swap as evidently intended: exchanges both the values and their index entries. */
  method SwapTracked(a: array<real>, index: array<int>, i: int, j: int, ghost orig: seq<real>)
    requires 0 <= i < a.Length && 0 <= j < a.Length
    requires i < index.Length && j < index.Length
    modifies a, index
    ensures a[i] == old(a[j]) && a[j] == old(a[i])
    ensures forall k :: 0 <= k < a.Length && k != i && k != j ==> a[k] == old(a[k])
    ensures index[i] == old(index[j]) && index[j] == old(index[i])
    ensures forall k :: 0 <= k < index.Length && k != i && k != j ==> index[k] == old(index[k])
    ensures multiset(a[..]) == multiset(old(a[..]))
    ensures multiset(index[..]) == multiset(old(index[..]))
    ensures TracksOrigin(old(a[..]), orig, old(index[..])) ==> TracksOrigin(a[..], orig, index[..])
  {
    ghost var values, entries := a[..], index[..];
    Exchange(a, i, j);
    Exchange(index, i, j);
    if TracksOrigin(values, orig, entries) {
      SwapKeepsTracking(values, entries, orig, i, j);
    }
  }

  /** Exchanges arr[i] and arr[j] and changes nothing else. */
  method Exchange<T>(arr: array<T>, i: int, j: int)
    requires 0 <= i < arr.Length && 0 <= j < arr.Length
    modifies arr
    ensures arr[..] == old(arr[..])[i := old(arr[j])][j := old(arr[i])]
    ensures arr[i] == old(arr[j]) && arr[j] == old(arr[i])
    ensures forall k :: 0 <= k < arr.Length && k != i && k != j ==> arr[k] == old(arr[k])
    ensures multiset(arr[..]) == multiset(old(arr[..]))
  {
    ghost var before := arr[..];
    arr[i], arr[j] := arr[j], arr[i];
    SwapKeepsMultiset(before, i, j);
  }

  /** Exchanging two elements keeps the multiset. */
  lemma SwapKeepsMultiset<T>(s: seq<T>, i: int, j: int)
    requires 0 <= i < |s| && 0 <= j < |s|
    ensures multiset(s[i := s[j]][j := s[i]]) == multiset(s)
  {
    var t := s[i := s[j]];
    assert multiset(t) == multiset(s) - multiset{s[i]} + multiset{s[j]};
    assert multiset(t[j := s[i]]) == multiset(t) - multiset{t[j]} + multiset{s[i]};
  }

  /** Exchanging two values together with their index entries keeps every entry naming its value's origin. */
  lemma SwapKeepsTracking(values: seq<real>, entries: seq<int>, orig: seq<real>, i: int, j: int)
    requires 0 <= i < |values| && 0 <= j < |values|
    requires TracksOrigin(values, orig, entries)
    ensures TracksOrigin(values[i := values[j]][j := values[i]], orig, entries[i := entries[j]][j := entries[i]])
  {
    var a, index := values[i := values[j]][j := values[i]], entries[i := entries[j]][j := entries[i]];
    forall k | 0 <= k < |index|
      ensures 0 <= index[k] < |orig| && a[k] == orig[index[k]]
    {
      var from := if k == j then i else if k == i then j else k;
      assert a[k] == values[from] && index[k] == entries[from];
    }
  }

  /** The partition loop of doubleQuickSort, calling the corrected swap. */
  method PartitionTracked(a: array<real>, index: array<int>, lo0: int, hi0: int, ghost orig: seq<real>)
    returns (lo: int, hi: int, mid: real)
    requires 0 <= lo0 < hi0 < a.Length && hi0 < index.Length
    modifies a, index
    ensures lo0 < lo <= hi0 + 1 && lo0 - 1 <= hi < hi0 && hi < lo
    ensures forall k :: lo0 <= k < lo ==> a[k] <= mid
    ensures forall k :: hi < k <= hi0 ==> mid <= a[k]
    ensures multiset(a[..]) == multiset(old(a[..]))
    ensures SameOutside(a[..], old(a[..]), lo0, hi0)
    ensures TracksOrigin(old(a[..]), orig, old(index[..])) ==> TracksOrigin(a[..], orig, index[..])
    ensures multiset(index[..]) == multiset(old(index[..]))
  {
    lo, hi := lo0, hi0;
    mid := a[(lo0 + hi0) / 2];
    ghost var p, q := (lo0 + hi0) / 2, (lo0 + hi0) / 2;
    ghost var tracked := TracksOrigin(a[..], orig, index[..]);
    while lo <= hi
      invariant lo0 <= lo <= hi0 + 1 && lo0 - 1 <= hi <= hi0
      invariant (lo == lo0 && hi == hi0 && p == q) || (lo0 < lo && hi < hi0)
      invariant lo <= hi ==> lo <= p <= hi0 && mid <= a[p] && lo0 <= q <= hi && a[q] <= mid
      invariant forall k :: lo0 <= k < lo ==> a[k] <= mid
      invariant forall k :: hi < k <= hi0 ==> mid <= a[k]
      invariant multiset(a[..]) == multiset(old(a[..]))
      invariant SameOutside(a[..], old(a[..]), lo0, hi0)
      invariant tracked ==> TracksOrigin(a[..], orig, index[..])
      invariant multiset(index[..]) == multiset(old(index[..]))
      decreases hi - lo + hi0 - lo0 + 2
    {
      lo := ScanUp(a, lo, hi0, mid, p);
      hi := ScanDown(a, hi, lo0, mid, q);
      if lo <= hi {
        SwapTracked(a, index, lo, hi, orig);
        p, q := hi, lo;
        lo := lo + 1;
        hi := hi - 1;
      }
    }
  }

  /**
   * doubleQuickSort with the corrected swap: besides sorting, it keeps every
   * index entry attached to its value, so index[k] still names the original
   * position of the value sorted into slot k.
   */
  method DoubleQuickSortTracked(a: array<real>, index: array<int>, lo0: int, hi0: int, ghost orig: seq<real>)
    requires lo0 < hi0 ==> 0 <= lo0 && hi0 < a.Length && hi0 < index.Length
    modifies a, index
    ensures SortedBetween(a[..], lo0, hi0)
    ensures multiset(a[..]) == multiset(old(a[..]))
    ensures SameOutside(a[..], old(a[..]), lo0, hi0)
    ensures TracksOrigin(old(a[..]), orig, old(index[..])) ==> TracksOrigin(a[..], orig, index[..])
    ensures multiset(index[..]) == multiset(old(index[..]))
    decreases hi0 - lo0
  {
    if hi0 > lo0 {
      var lo, hi, mid := PartitionTracked(a, index, lo0, hi0, orig);
      ghost var a1 := a[..];
      if lo0 < hi {
        DoubleQuickSortTracked(a, index, lo0, hi, orig);
        BoundsKept(a[..], a1, lo0, hi, mid, false);
      }
      ghost var a2 := a[..];
      if lo < hi0 {
        DoubleQuickSortTracked(a, index, lo, hi0, orig);
        BoundsKept(a[..], a2, lo, hi0, mid, true);
      }
      JoinSorted(a[..], lo0, hi, lo, hi0, mid);
    }
  }

  /**
   * The discrepancy the as-written swap causes. Sorting [2.0, 1.0] must yield
   * [1.0, 2.0]; DoubleQuickSort then leaves an identity index, which claims
   * slot 0 came from position 0, where the value was 2.0.
   */
  lemma IdentityIndexMisnames(sorted: seq<real>, idx: seq<int>)
    requires |sorted| == 2 && multiset(sorted) == multiset([2.0, 1.0])
    requires SortedBetween(sorted, 0, 1)
    requires |idx| == 2 && IsIdentity(idx)
    ensures sorted == [1.0, 2.0] && idx == [0, 1]
    ensures !TracksOrigin(sorted, [2.0, 1.0], idx)
  {
    assert sorted[0] in multiset(sorted) && sorted[1] in multiset(sorted);
    assert idx[0] == 0 && idx[1] == 1;
  }

  /**
   * The same discrepancy on arrays: doubleQuickSort as written, run on the
   * eigenvalues [2.0, 1.0] with the index [0, 1] that submit builds.
   */
  method SortTwoAsWritten() returns (sorted: seq<real>, idx: seq<int>)
    ensures sorted == [1.0, 2.0] && idx == [0, 1]
    ensures !TracksOrigin(sorted, [2.0, 1.0], idx)
  {
    var a := new real[2];
    a[0], a[1] := 2.0, 1.0;
    var index := new int[2];
    index[0], index[1] := 0, 1;
    assert a[..] == [2.0, 1.0] && IsIdentity(index[..]);
    DoubleQuickSort(a, index, 0, 1);
    sorted, idx := a[..], index[..];
    IdentityIndexMisnames(sorted, idx);
  }
}
