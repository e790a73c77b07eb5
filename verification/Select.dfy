/** Sorting and partial selection by a comparison function that returns a sign. */
module Select {

  /** "Not greater": `compare(y, x)` is not negative. */
  ghost predicate Leq<T>(compare: (T, T) -> int, x: T, y: T) { compare(y, x) >= 0 }

  ghost predicate TotalPreorder<T(!new)>(compare: (T, T) -> int) {
    (forall x, y :: Leq(compare, x, y) || Leq(compare, y, x))
    && (forall x, y, z :: Leq(compare, x, y) && Leq(compare, y, z) ==> Leq(compare, x, z))
  }

  // ----- partial selection in place

  ghost predicate InStretch<T>(s: seq<T>, lo: int, hi: int, x: T) {
    exists j :: 0 <= j < |s| && lo <= j <= hi && s[j] == x
  }

  /** `s1` is `s0` with the positions from `lo` to `hi` rearranged among themselves. */
  ghost predicate Rearranged<T>(s0: seq<T>, s1: seq<T>, lo: int, hi: int) {
    |s0| == |s1| && multiset(s0) == multiset(s1)
    && (forall i :: 0 <= i < |s0| && !(lo <= i <= hi) ==> s1[i] == s0[i])
    && (forall i :: 0 <= i < |s0| && lo <= i <= hi ==> InStretch(s0, lo, hi, s1[i]))
  }

  function Swap<T>(s: seq<T>, i: nat, j: nat): seq<T>
    requires i < |s| && j < |s|
  {
    s[i := s[j]][j := s[i]]
  }

  lemma SwapRearranges<T>(s0: seq<T>, s1: seq<T>, lo: nat, hi: nat, i: nat, j: nat)
    requires Rearranged(s0, s1, lo, hi) && lo <= i <= hi < |s1| && lo <= j <= hi
    ensures Rearranged(s0, Swap(s1, i, j), lo, hi)
  {
    var s2 := Swap(s1, i, j);
    assert multiset(s2) == multiset(s1);
    forall m | 0 <= m < |s0| && lo <= m <= hi
      ensures InStretch(s0, lo, hi, s2[m])
    {
      var n := if m == i then j else if m == j then i else m;
      assert s2[m] == s1[n] && InStretch(s0, lo, hi, s1[n]);
    }
  }

  /** Everything before `lo` is not greater than anything from `lo` on. */
  ghost predicate LowDone<T>(compare: (T, T) -> int, s: seq<T>, lo: int) {
    forall i, j :: 0 <= i < lo <= j < |s| ==> Leq(compare, s[i], s[j])
  }

  lemma RearrangedKeepsLow<T>(compare: (T, T) -> int, s0: seq<T>, s1: seq<T>, lo: int, hi: int, b: int)
    requires Rearranged(s0, s1, lo, hi) && LowDone(compare, s0, b) && (b <= lo || hi < b)
    ensures LowDone(compare, s1, b)
  {
    forall i, j | 0 <= i < b <= j < |s1| ensures Leq(compare, s1[i], s1[j]) {
      var i' :| 0 <= i' < b && s0[i'] == s1[i];
      var j' :| b <= j' < |s0| && s0[j'] == s1[j];
      assert Leq(compare, s0[i'], s0[j']);
    }
  }

  /** Around position `p` of the rearranged stretch: smaller before, not smaller after. */
  ghost predicate Split<T>(compare: (T, T) -> int, s: seq<T>, lo: int, hi: int, p: int)
    requires 0 <= lo <= p <= hi < |s|
  {
    (forall i :: lo <= i < p ==> compare(s[i], s[p]) < 0) && (forall i :: p < i <= hi ==> compare(s[i], s[p]) >= 0)
  }

  lemma SplitDone<T(!new)>(compare: (T, T) -> int, s: seq<T>, lo: int, hi: int, p: int)
    requires TotalPreorder(compare) && 0 <= lo <= p <= hi < |s| && Split(compare, s, lo, hi, p)
    requires LowDone(compare, s, lo) && LowDone(compare, s, hi + 1)
    ensures LowDone(compare, s, p) && LowDone(compare, s, p + 1)
  {
    forall i, j | 0 <= i < |s| && 0 <= j < |s| && i <= p <= j ensures Leq(compare, s[i], s[j]) {
      assert Leq(compare, s[p], s[p]);
      assert Leq(compare, s[i], s[p]) by {
        if lo <= i < p { assert Leq(compare, s[i], s[p]) || Leq(compare, s[p], s[i]); }
      }
      assert Leq(compare, s[p], s[j]) by {
        if p < j <= hi { assert compare(s[j], s[p]) >= 0; }
      }
    }
  }

  /** The scan has put the elements up to `i` that are smaller than the last one before `p`. */
  ghost predicate Scanned<T>(compare: (T, T) -> int, s0: seq<T>, s: seq<T>, lo: int, hi: int, p: int, i: int) {
    0 <= lo <= p <= i <= hi < |s| && Rearranged(s0, s, lo, hi)
    && (forall m :: lo <= m < p ==> compare(s[m], s[hi]) < 0) && (forall m :: p <= m < i ==> compare(s[m], s[hi]) >= 0)
  }

  lemma ScanStarts<T>(compare: (T, T) -> int, s0: seq<T>, lo: int, hi: int, q: int)
    requires 0 <= lo <= q <= hi < |s0|
    ensures Scanned(compare, s0, Swap(s0, q, hi), lo, hi, lo, lo)
  {
    assert forall i :: 0 <= i < |s0| && lo <= i <= hi ==> s0[i] == s0[i] && InStretch(s0, lo, hi, s0[i]);
    SwapRearranges(s0, s0, lo, hi, q, hi);
  }

  lemma ScanNotSmaller<T>(compare: (T, T) -> int, s0: seq<T>, s: seq<T>, lo: int, hi: int, p: int, i: int)
    requires Scanned(compare, s0, s, lo, hi, p, i) && i < hi && compare(s[i], s[hi]) >= 0
    ensures Scanned(compare, s0, s, lo, hi, p, i + 1)
  {
  }

  lemma ScanSmaller<T>(compare: (T, T) -> int, s0: seq<T>, s: seq<T>, lo: int, hi: int, p: int, i: int)
    requires Scanned(compare, s0, s, lo, hi, p, i) && i < hi && compare(s[i], s[hi]) < 0
    ensures Scanned(compare, s0, Swap(s, p, i), lo, hi, p + 1, i + 1)
  {
    SwapRearranges(s0, s, lo, hi, p, i);
  }

  lemma ScanEnds<T>(compare: (T, T) -> int, s0: seq<T>, s: seq<T>, lo: int, hi: int, p: int)
    requires Scanned(compare, s0, s, lo, hi, p, hi)
    ensures Rearranged(s0, Swap(s, p, hi), lo, hi) && Split(compare, Swap(s, p, hi), lo, hi, p)
  {
    SwapRearranges(s0, s, lo, hi, p, hi);
    var s1 := Swap(s, p, hi);
    forall m | p < m <= hi ensures compare(s1[m], s1[p]) >= 0 {
      assert s1[m] == s[if m == hi then p else m];
    }
  }

  method SwapIn<T>(arr: array<T>, i: nat, j: nat)
    requires i < arr.Length && j < arr.Length
    modifies arr
    ensures arr[..] == Swap(old(arr[..]), i, j)
  {
    arr[i], arr[j] := arr[j], arr[i];
  }

  /** Moves the middle element to its place between smaller and not smaller ones. */
  method Partition<T>(arr: array<T>, lo: int, hi: int, compare: (T, T) -> int) returns (p: int)
    requires 0 <= lo < hi < arr.Length
    modifies arr
    ensures lo <= p <= hi
    ensures Rearranged(old(arr[..]), arr[..], lo, hi) && Split(compare, arr[..], lo, hi, p)
  {
    ghost var before := arr[..];
    var pivotIdx := lo + (hi - lo) / 2;
    var pivot := arr[pivotIdx];
    ScanStarts(compare, before, lo, hi, pivotIdx);
    SwapIn(arr, pivotIdx, hi);
    p := lo;
    for i := lo to hi
      invariant Scanned(compare, before, arr[..], lo, hi, p, i) && arr[hi] == pivot
    {
      if compare(arr[i], pivot) < 0 {
        ScanSmaller(compare, before, arr[..], lo, hi, p, i);
        SwapIn(arr, p, i);
        p := p + 1;
      } else {
        ScanNotSmaller(compare, before, arr[..], lo, hi, p, i);
      }
    }
    ScanEnds(compare, before, arr[..], lo, hi, p);
    SwapIn(arr, p, hi);
  }

  /** Rearranges the array; for a total preorder, with ties or not, the first `k` elements are the `k` smallest. */
  method PartialSelect<T(!new)>(arr: array<T>, k: int, compare: (T, T) -> int)
    modifies arr
    ensures multiset(arr[..]) == multiset(old(arr[..]))
    ensures TotalPreorder(compare) ==> LowDone(compare, arr[..], k)
  {
    if k <= 0 || k >= arr.Length { return; }
    var lo, hi := 0, arr.Length - 1;
    while lo < hi
      invariant 0 <= lo <= k - 1 <= hi < arr.Length
      invariant multiset(arr[..]) == multiset(old(arr[..]))
      invariant TotalPreorder(compare) ==> LowDone(compare, arr[..], lo) && LowDone(compare, arr[..], hi + 1)
      decreases hi - lo
    {
      ghost var s := arr[..];
      var p := Partition(arr, lo, hi, compare);
      if TotalPreorder(compare) {
        RearrangedKeepsLow(compare, s, arr[..], lo, hi, lo);
        RearrangedKeepsLow(compare, s, arr[..], lo, hi, hi + 1);
        SplitDone(compare, arr[..], lo, hi, p);
      }
      if p < k - 1 {
        lo := p + 1;
      } else if p > k - 1 {
        hi := p - 1;
      } else {
        break;
      }
    }
  }

  // ----- stable sort

  function InsertAfterTies<T>(s: seq<T>, x: T, compare: (T, T) -> int): seq<T> {
    if s == [] || compare(s[|s| - 1], x) <= 0 then s + [x]
    else InsertAfterTies(s[..|s| - 1], x, compare) + [s[|s| - 1]]
  }

  /** The stable sort by a comparison function. */
  function StableSort<T>(s: seq<T>, compare: (T, T) -> int): seq<T> {
    if s == [] then [] else InsertAfterTies(StableSort(s[..|s| - 1], compare), s[|s| - 1], compare)
  }

  ghost predicate SortedBy<T>(compare: (T, T) -> int, s: seq<T>) {
    forall i, j :: 0 <= i < j < |s| ==> Leq(compare, s[i], s[j])
  }

  /** The sign of the comparison says which of two elements is greater. */
  ghost predicate SignsAgree<T(!new)>(compare: (T, T) -> int) {
    forall x, y :: (compare(x, y) <= 0 <==> compare(y, x) >= 0)
  }

  lemma AppendSorted<T(!new)>(s: seq<T>, x: T, compare: (T, T) -> int)
    requires SortedBy(compare, s) && forall i :: 0 <= i < |s| ==> Leq(compare, s[i], x)
    ensures SortedBy(compare, s + [x])
  {
  }

  lemma LastIsGreatest<T(!new)>(s: seq<T>, x: T, compare: (T, T) -> int)
    requires TotalPreorder(compare) && SortedBy(compare, s) && s != [] && Leq(compare, s[|s| - 1], x)
    ensures forall i :: 0 <= i < |s| ==> Leq(compare, s[i], x)
  {
    forall i | 0 <= i < |s| ensures Leq(compare, s[i], x) {
      assert i < |s| - 1 ==> Leq(compare, s[i], s[|s| - 1]);
    }
  }

  lemma InsertedBelow<T(!new)>(s: seq<T>, r: seq<T>, x: T, last: T, compare: (T, T) -> int)
    requires multiset(r) == multiset(s) + multiset{x} && Leq(compare, x, last)
             && forall i :: 0 <= i < |s| ==> Leq(compare, s[i], last)
    ensures forall i :: 0 <= i < |r| ==> Leq(compare, r[i], last)
  {
    forall i | 0 <= i < |r| ensures Leq(compare, r[i], last) {
      assert r[i] in multiset(r);
      assert r[i] == x || r[i] in multiset(s);
    }
  }

  lemma {:induction false} InsertSorted<T(!new)>(s: seq<T>, x: T, compare: (T, T) -> int)
    requires TotalPreorder(compare) && SignsAgree(compare) && SortedBy(compare, s)
    ensures SortedBy(compare, InsertAfterTies(s, x, compare))
    ensures multiset(InsertAfterTies(s, x, compare)) == multiset(s) + multiset{x}
  {
    if s == [] {
    } else if compare(s[|s| - 1], x) <= 0 {
      LastIsGreatest(s, x, compare);
      AppendSorted(s, x, compare);
    } else {
      var init, last := s[..|s| - 1], s[|s| - 1];
      assert s == init + [last];
      InsertSorted(init, x, compare);
      InsertedBelow(init, InsertAfterTies(init, x, compare), x, last, compare);
      AppendSorted(InsertAfterTies(init, x, compare), last, compare);
    }
  }

  lemma {:induction false} SortCorrect<T(!new)>(s: seq<T>, compare: (T, T) -> int)
    requires TotalPreorder(compare) && SignsAgree(compare)
    ensures SortedBy(compare, StableSort(s, compare))
    ensures multiset(StableSort(s, compare)) == multiset(s)
  {
    if s != [] {
      var init, last := s[..|s| - 1], s[|s| - 1];
      SortCorrect(init, compare);
      InsertSorted(StableSort(init, compare), last, compare);
      LastCounted(s);
    }
  }

  lemma LastCounted<T>(s: seq<T>)
    requires s != []
    ensures multiset(s) == multiset(s[..|s| - 1]) + multiset{s[|s| - 1]}
  {
    assert s == s[..|s| - 1] + [s[|s| - 1]];
  }
}
