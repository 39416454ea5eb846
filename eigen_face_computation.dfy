/**
 * The comparison-driven parts of EigenFaceComputation: the vector helpers
 * max, sum and diag, and the step of submit that sorts the eigenvalues and
 * reorders the eigenvector columns by the sorted index (lines 142-173).
 * Eigenvalues and matrix entries are Java doubles, modelled as reals.
 */
module EigenFaceComputation {
  import opened QuickSort

  /** The exact sum of the elements of s. */
  function SeqSum(s: seq<real>): real
  {
    if |s| == 0 then 0.0 else SeqSum(s[..|s| - 1]) + s[|s| - 1]
  }

  /** The identity permutation 0, 1, ..., n - 1. */
  function Identity(n: nat): (idx: seq<int>)
    ensures |idx| == n && IsIdentity(idx)
  {
    seq(n, k => k)
  }

  /** max (lines 332-339): the largest element, an element of a that no element exceeds. */
  method Max(a: array<real>) returns (b: real)
    requires a.Length > 0
    ensures exists k :: 0 <= k < a.Length && a[k] == b
    ensures forall k :: 0 <= k < a.Length ==> a[k] <= b
  {
    b := a[0];
    ghost var at := 0;
    for i := 0 to a.Length
      invariant 0 <= at < a.Length && a[at] == b
      invariant forall k :: 0 <= k < i ==> a[k] <= b
    {
      if a[i] > b {
        b := a[i];
        at := i;
      }
    }
  }

  /**
   * sum as written (lines 314-322): the accumulator starts at a[0] and the
   * loop then adds every element, a[0] included, so the result exceeds the
   * sum of the elements by a[0].
   */
  method Sum(a: array<real>) returns (b: real)
    requires a.Length > 0
    ensures b == a[0] + SeqSum(a[..])
    ensures b - SeqSum(a[..]) == a[0]
  {
    b := a[0];
    for i := 0 to a.Length
      invariant b == a[0] + SeqSum(a[..i])
    {
      assert a[..i + 1][..i] == a[..i];
      b := b + a[i];
    }
    assert a[..a.Length] == a[..];
  }

  /** sum as its doc comment describes it: the accumulator starts at zero. */
  method SumCorrected(a: array<real>) returns (b: real)
    ensures b == SeqSum(a[..])
  {
    b := 0.0;
    for i := 0 to a.Length
      invariant b == SeqSum(a[..i])
    {
      assert a[..i + 1][..i] == a[..i];
      b := b + a[i];
    }
    assert a[..a.Length] == a[..];
  }

  /** diag (lines 279-285): the main diagonal of a matrix with at least as many columns as rows. */
  method Diag(m: array2<real>) returns (d: array<real>)
    requires m.Length0 <= m.Length1
    ensures d.Length == m.Length0
    ensures forall i :: 0 <= i < m.Length0 ==> d[i] == m[i, i]
  {
    d := new real[m.Length0];
    for i := 0 to m.Length0
      invariant forall k :: 0 <= k < i ==> d[k] == m[k, k]
    {
      d[i] := m[i, i];
    }
  }

  /**
   * The index reversal of submit (lines 155-157): slot n - 1 - j receives
   * index[j], so the ascending order becomes a descending one. From the
   * identity index it yields n - 1, ..., 1, 0.
   */
  method ReverseIndex(index: array<int>) returns (reversed: array<int>)
    ensures reversed.Length == index.Length
    ensures forall k :: 0 <= k < index.Length ==> reversed[k] == index[index.Length - 1 - k]
    ensures multiset(reversed[..]) == multiset(index[..])
    ensures IsIdentity(index[..]) ==> forall k :: 0 <= k < index.Length ==> reversed[k] == index.Length - 1 - k
  {
    var n := index.Length;
    reversed := new int[n];
    for j := 0 to n
      invariant forall k :: n - j <= k < n ==> reversed[k] == index[n - 1 - k]
    {
      reversed[n - 1 - j] := index[j];
    }
    ReversalKeepsMultiset(index[..], reversed[..]);
  }

  /** Reading a sequence backwards does not change which values it holds. */
  lemma {:induction false} ReversalKeepsMultiset(s: seq<int>, t: seq<int>)
    requires |s| == |t|
    requires forall k :: 0 <= k < |s| ==> t[k] == s[|s| - 1 - k]
    ensures multiset(t) == multiset(s)
  {
    if |s| > 0 {
      var n := |s|;
      ReversalKeepsMultiset(s[1..], t[..n - 1]);
      assert s == [s[0]] + s[1..];
      assert t == t[..n - 1] + [t[n - 1]];
    }
  }

  /**
   * The column reordering of submit (lines 168-172), filled from the last
   * column down: column c of the result is column index[c] of eigVector.
   */
  method ReorderColumns(eigVector: array2<real>, index: array<int>) returns (sorted: array2<real>)
    requires index.Length <= eigVector.Length0
    requires forall c :: 0 <= c < index.Length ==> 0 <= index[c] < eigVector.Length1
    ensures sorted.Length0 == index.Length && sorted.Length1 == index.Length
    ensures forall r, c :: 0 <= r < index.Length && 0 <= c < index.Length ==>
      sorted[r, c] == eigVector[r, index[c]]
  {
    var n := index.Length;
    sorted := new real[n, n];
    var col := n - 1;
    while col >= 0
      invariant -1 <= col < n
      invariant forall r, c :: 0 <= r < n && col < c < n ==> sorted[r, c] == eigVector[r, index[c]]
    {
      for rows := 0 to n
        invariant forall r, c :: 0 <= r < n && col < c < n ==> sorted[r, c] == eigVector[r, index[c]]
        invariant forall r :: 0 <= r < rows ==> sorted[r, col] == eigVector[r, index[col]]
      {
        sorted[rows, col] := eigVector[rows, index[col]];
      }
      col := col - 1;
    }
  }

  /**
   * Lines 142-152 of submit as written: index starts as the identity and the
   * eigenvalues are sorted ascending. Because swap never moves index entries,
   * the index comes back as the identity, whatever the eigenvalues were.
   */
  method SortEigenvalues(eigValue: array<real>) returns (index: array<int>)
    modifies eigValue
    ensures SortedBetween(eigValue[..], 0, eigValue.Length - 1)
    ensures multiset(eigValue[..]) == multiset(old(eigValue[..]))
    ensures index.Length == eigValue.Length && IsIdentity(index[..])
  {
    var n := eigValue.Length;
    index := new int[n];
    for i := 0 to n
      modifies index
      invariant forall k :: 0 <= k < i ==> index[k] == k
    {
      index[i] := i;
    }
    assert eigValue[..] == old(eigValue[..]);
    DoubleQuickSort(eigValue, index, 0, n - 1);
  }

  /**
   * Lines 142-173 of submit as written: the eigenvalues end up ascending,
   * and since the sorted index is the identity, the eigenvector columns are
   * merely reversed, whatever the eigenvalues are.
   */
  method OrderEigenvectors(eigValue: array<real>, eigVector: array2<real>) returns (sorted: array2<real>)
    requires eigVector.Length0 == eigValue.Length && eigVector.Length1 == eigValue.Length
    modifies eigValue
    ensures SortedBetween(eigValue[..], 0, eigValue.Length - 1)
    ensures multiset(eigValue[..]) == multiset(old(eigValue[..]))
    ensures sorted.Length0 == eigValue.Length && sorted.Length1 == eigValue.Length
    ensures forall r, c :: 0 <= r < eigValue.Length && 0 <= c < eigValue.Length ==>
      sorted[r, c] == eigVector[r, eigValue.Length - 1 - c]
  {
    var index := SortEigenvalues(eigValue);
    ghost var ascending := eigValue[..];
    var reversed := ReverseIndex(index);
    sorted := ReorderColumns(eigVector, reversed);
    assert eigValue[..] == ascending;
  }

  /**
   * Lines 142-152 of submit with the corrected swap: index ends as a
   * permutation of 0 .. n - 1 with eigValue[k] == old(eigValue)[index[k]].
   */
  method SortEigenvaluesTracked(eigValue: array<real>) returns (index: array<int>)
    modifies eigValue
    ensures SortedBetween(eigValue[..], 0, eigValue.Length - 1)
    ensures multiset(eigValue[..]) == multiset(old(eigValue[..]))
    ensures TracksOrigin(eigValue[..], old(eigValue[..]), index[..])
    ensures multiset(index[..]) == multiset(Identity(eigValue.Length))
  {
    var n := eigValue.Length;
    index := new int[n];
    for i := 0 to n
      modifies index
      invariant forall k :: 0 <= k < i ==> index[k] == k
    {
      index[i] := i;
    }
    assert eigValue[..] == old(eigValue[..]);
    assert index[..] == Identity(n);
    DoubleQuickSortTracked(eigValue, index, 0, n - 1, old(eigValue[..]));
  }

  /**
   * Lines 142-173 of submit with the corrected swap: column c of the result
   * is the eigenvector whose eigenvalue is the c-th largest; order, the
   * reversed index, is a permutation of 0 .. n - 1 naming where each column came from.
   */
  method OrderEigenvectorsTracked(eigValue: array<real>, eigVector: array2<real>)
    returns (sorted: array2<real>, order: array<int>)
    requires eigVector.Length0 == eigValue.Length && eigVector.Length1 == eigValue.Length
    modifies eigValue
    ensures SortedBetween(eigValue[..], 0, eigValue.Length - 1)
    ensures multiset(eigValue[..]) == multiset(old(eigValue[..]))
    ensures order.Length == eigValue.Length && multiset(order[..]) == multiset(Identity(eigValue.Length))
    ensures forall c :: 0 <= c < order.Length ==>
      0 <= order[c] < order.Length && old(eigValue[..])[order[c]] == eigValue[eigValue.Length - 1 - c]
    ensures sorted.Length0 == eigValue.Length && sorted.Length1 == eigValue.Length
    ensures forall r, c :: 0 <= r < eigValue.Length && 0 <= c < eigValue.Length ==>
      sorted[r, c] == eigVector[r, order[c]]
  {
    var index := SortEigenvaluesTracked(eigValue);
    ghost var ascending, origin := eigValue[..], index[..];
    order := ReverseIndex(index);
    ReversedTracking(ascending, old(eigValue[..]), origin, order[..]);
    sorted := ReorderColumns(eigVector, order);
    assert eigValue[..] == ascending;
  }

  /**
   * Reading a tracking index backwards pairs position c with the origin of
   * the value c places from the end.
   */
  lemma ReversedTracking(sorted: seq<real>, orig: seq<real>, idx: seq<int>, reversed: seq<int>)
    requires TracksOrigin(sorted, orig, idx)
    requires |reversed| == |idx| && forall k :: 0 <= k < |idx| ==> reversed[k] == idx[|idx| - 1 - k]
    ensures forall c :: 0 <= c < |reversed| ==>
      0 <= reversed[c] < |orig| && orig[reversed[c]] == sorted[|sorted| - 1 - c]
  {
  }
}
