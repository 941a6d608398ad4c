/** lib/sort.c: quicksort with Hoare's partition, where the pivot is a pointer into the array. */
module Sort {

  /** A comparison function as qsort demands it: a total preorder. */
  ghost predicate Comparator<T(!new)>(cmp: (T, T) -> int) {
    && (forall x, y :: cmp(x, y) < 0 <==> cmp(y, x) > 0)
    && (forall x, y, z {:trigger Through(x, y, z)} ::
          Through(x, y, z) && cmp(x, y) <= 0 && cmp(y, z) <= 0 ==> cmp(x, z) <= 0)
  }

  /** Always true; it only marks where a proof uses transitivity. */
  ghost predicate Through<T>(x: T, y: T, z: T) { true }

  /** Positions lo..hi-1 are in order. */
  ghost predicate Sorted<T(!new)>(cmp: (T, T) -> int, s: seq<T>, lo: int, hi: int) {
    0 <= lo && hi <= |s| && forall i, j :: lo <= i < j < hi ==> InOrder(cmp, s, i, j)
  }

  ghost predicate InOrder<T(!new)>(cmp: (T, T) -> int, s: seq<T>, i: int, j: int)
    requires 0 <= i < |s| && 0 <= j < |s|
  {
    cmp(s[i], s[j]) <= 0
  }

  lemma SortedStays<T(!new)>(cmp: (T, T) -> int, s: seq<T>, s': seq<T>, lo: nat, hi: nat)
    requires hi <= |s| == |s'| && Sorted(cmp, s, lo, hi) && forall i :: lo <= i < hi ==> s'[i] == s[i]
    ensures Sorted(cmp, s', lo, hi)
  {
    forall i, j | lo <= i < j < hi ensures InOrder(cmp, s', i, j) { assert InOrder(cmp, s, i, j); }
  }

  /** Positions lo..hi-1 hold values at most v, or at least v. */
  ghost predicate AtMost<T(!new)>(cmp: (T, T) -> int, s: seq<T>, lo: int, hi: int, v: T) {
    forall i :: 0 <= lo <= i < hi && i < |s| ==> cmp(s[i], v) <= 0
  }

  ghost predicate AtLeast<T(!new)>(cmp: (T, T) -> int, s: seq<T>, lo: int, hi: int, v: T) {
    forall i :: 0 <= lo <= i < hi && i < |s| ==> cmp(v, s[i]) <= 0
  }

  /** Only positions lo..hi-1 changed, and they hold the same values in another order. */
  ghost predicate Permuted<T(!new)>(s: seq<T>, s': seq<T>, lo: nat, hi: nat) {
    && lo <= hi <= |s| && |s'| == |s|
    && (forall i :: 0 <= i < |s| && !(lo <= i < hi) ==> s'[i] == s[i])
    && multiset(s'[lo..hi]) == multiset(s[lo..hi])
  }

  lemma PermutedTrans<T(!new)>(s: seq<T>, s1: seq<T>, s2: seq<T>, lo: nat, hi: nat)
    requires Permuted(s, s1, lo, hi) && Permuted(s1, s2, lo, hi)
    ensures Permuted(s, s2, lo, hi)
  {}

  /** A permutation of a part is a permutation of the whole. */
  lemma PermutedWider<T(!new)>(s: seq<T>, s': seq<T>, lo: nat, hi: nat, lo': nat, hi': nat)
    requires Permuted(s, s', lo, hi) && lo' <= lo && hi <= hi' <= |s|
    ensures Permuted(s, s', lo', hi')
  {
    assert s[lo'..hi'] == s[lo'..lo] + s[lo..hi] + s[hi..hi'];
    assert s'[lo'..hi'] == s'[lo'..lo] + s'[lo..hi] + s'[hi..hi'];
    assert s'[lo'..lo] == s[lo'..lo] && s'[hi..hi'] == s[hi..hi'];
  }

  /** A permutation of the whole, then of a part. */
  lemma PermutedThen<T(!new)>(s: seq<T>, s1: seq<T>, s2: seq<T>, lo: nat, hi: nat, lo': nat, hi': nat)
    requires Permuted(s, s1, lo', hi') && Permuted(s1, s2, lo, hi) && lo' <= lo && hi <= hi'
    ensures Permuted(s, s2, lo', hi')
  {
    PermutedWider(s1, s2, lo, hi, lo', hi');
    PermutedTrans(s, s1, s2, lo', hi');
  }

  lemma SwapPermutes<T(!new)>(s: seq<T>, i: nat, j: nat, lo: nat, hi: nat)
    requires lo <= i < j < hi <= |s|
    ensures Permuted(s, s[i := s[j]][j := s[i]], lo, hi)
  {
    var s' := s[i := s[j]][j := s[i]];
    var t := s[lo..hi];
    assert s'[lo..hi] == t[i - lo := s[j]][j - lo := s[i]];
  }

  /** swap on two elements of the array; `orig` are its contents at some earlier time. */
  method Swap<T(!new)>(a: array<T>, i: nat, j: nat, ghost orig: seq<T>, ghost lo: nat, ghost hi: nat)
    requires lo <= i < j < hi <= a.Length && Permuted(orig, a[..], lo, hi)
    modifies a
    ensures a[..] == old(a[..])[i := old(a[j])][j := old(a[i])]
    ensures Permuted(orig, a[..], lo, hi)
  {
    ghost var s := a[..];
    SwapPermutes(s, i, j, lo, hi);
    a[i], a[j] := a[j], a[i];
    assert a[..] == s[i := s[j]][j := s[i]];
    PermutedTrans(orig, s, a[..], lo, hi);
  }

  /** What partition's loop keeps once it has swapped: the pivot slot holds a value that stays,
      everything up to l is at most that value, and everything from r on is at least it. */
  ghost predicate Parted<T(!new)>(cmp: (T, T) -> int, s: seq<T>, left: nat, l: int, r: int, right: nat) {
    && left <= l < r <= right < |s|
    && AtMost(cmp, s, left, l + 1, s[left]) && AtLeast(cmp, s, r, right + 1, s[left])
  }

  /** The do-while loop that moves left_idx up; the pivot is re-read each time. */
  method ScanUp<T(!new)>(a: array<T>, left: nat, l0: int, ghost stop: nat, cmp: (T, T) -> int) returns (l: nat)
    requires left - 1 <= l0 < stop < a.Length && left < a.Length && cmp(a[stop], a[left]) >= 0
    ensures l0 < l <= stop && cmp(a[l], a[left]) >= 0
    ensures forall i :: l0 < i < l ==> cmp(a[i], a[left]) < 0
  {
    l := l0 + 1;
    while cmp(a[l], a[left]) < 0
      invariant l0 < l <= stop
      invariant forall i :: l0 < i < l ==> cmp(a[i], a[left]) < 0
      decreases stop - l
    {
      l := l + 1;
    }
  }

  /** The do-while loop that moves right_idx down. */
  method ScanDown<T(!new)>(a: array<T>, left: nat, r0: nat, cmp: (T, T) -> int) returns (r: nat)
    requires left < r0 <= a.Length && cmp(a[left], a[left]) <= 0
    ensures left <= r < r0 && cmp(a[r], a[left]) <= 0
    ensures forall i :: r < i < r0 ==> cmp(a[i], a[left]) > 0
  {
    r := r0 - 1;
    while cmp(a[r], a[left]) > 0
      invariant left <= r < r0
      invariant forall i :: r < i < r0 ==> cmp(a[i], a[left]) > 0
      decreases r
    {
      r := r - 1;
    }
  }

  /** The first swap moves the pivot away and leaves a smaller or equal value in its slot;
      everything behind the swap is above the old pivot, hence above the new one. */
  lemma FirstSwap<T(!new)>(cmp: (T, T) -> int, s: seq<T>, left: nat, r: nat, right: nat)
    requires Comparator(cmp) && left < r <= right < |s| && cmp(s[r], s[left]) <= 0
    requires forall i :: r < i <= right ==> cmp(s[i], s[left]) > 0
    ensures Parted(cmp, s[left := s[r]][r := s[left]], left, left, r, right)
  {
    var s' := s[left := s[r]][r := s[left]];
    forall i | r <= i <= right ensures cmp(s'[left], s'[i]) <= 0 {
      if i > r { assert Through(s[r], s[left], s[i]) && cmp(s[left], s[i]) <= 0; }
    }
  }

  /** Later swaps do not touch the pivot slot. */
  lemma LaterSwap<T(!new)>(cmp: (T, T) -> int, s: seq<T>, left: nat, l0: int, r0: int, l: nat, r: nat, right: nat)
    requires Comparator(cmp) && Parted(cmp, s, left, l0, r0, right) && l0 < l < r < r0
    requires cmp(s[l], s[left]) >= 0 && cmp(s[r], s[left]) <= 0
    requires forall i :: l0 < i < l ==> cmp(s[i], s[left]) < 0
    requires forall i :: r < i < r0 ==> cmp(s[i], s[left]) > 0
    ensures Parted(cmp, s[l := s[r]][r := s[l]], left, l, r, right)
  {
    var s' := s[l := s[r]][r := s[l]];
    assert s'[left] == s[left];
    forall i | left <= i <= l ensures cmp(s'[i], s'[left]) <= 0 {}
    forall i | r <= i <= right ensures cmp(s'[left], s'[i]) <= 0 {}
  }

  /** When the scans meet, the array is split around the pivot value. */
  lemma Meet<T(!new)>(cmp: (T, T) -> int, s: seq<T>, left: nat, l0: int, r0: int, l: nat, r: nat, right: nat)
    requires Comparator(cmp) && Parted(cmp, s, left, l0, r0, right) && l0 < l && left <= r < r0 && l >= r
    requires cmp(s[r], s[left]) <= 0
    requires forall i :: l0 < i < l && i < |s| ==> cmp(s[i], s[left]) < 0
    requires forall i :: r < i < r0 ==> cmp(s[i], s[left]) > 0
    ensures AtMost(cmp, s, left, r + 1, s[left]) && AtLeast(cmp, s, r + 1, right + 1, s[left])
  {}

  /** What partition's loop keeps: nothing is known before the first turn but the indices. */
  ghost predicate Turning<T(!new)>(cmp: (T, T) -> int, s: seq<T>, left: nat, l: int, r: int, right: nat) {
    (l == left - 1 && r == right + 1 && left < right < |s|) || Parted(cmp, s, left, l, r, right)
  }

  /** The range is split after position p around the value of the pivot slot. */
  ghost predicate SplitAt<T(!new)>(cmp: (T, T) -> int, s: seq<T>, left: nat, p: int, right: nat) {
    && left <= p < right < |s|
    && AtMost(cmp, s, left, p + 1, s[left]) && AtLeast(cmp, s, p + 1, right + 1, s[left])
  }

  /** Both scans of one turn. */
  method Scan<T(!new)>(a: array<T>, left: nat, right: nat, l0: int, r0: int, cmp: (T, T) -> int)
    returns (l: nat, r: nat)
    requires Comparator(cmp) && Turning(cmp, a[..], left, l0, r0, right)
    ensures l >= r ==> SplitAt(cmp, a[..], left, r, right)
    ensures l < r ==> left <= l < r < r0 && r <= right < a.Length
    ensures l < r ==> Parted(cmp, a[..][l := a[r]][r := a[l]], left, l, r, right)
  {
    ghost var first, s := l0 == left - 1, a[..];
    l := ScanUp(a, left, l0, if first then left else r0, cmp);
    r := ScanDown(a, left, r0, cmp);
    if l >= r {
      if !first { Meet(cmp, s, left, l0, r0, l, r, right); }
    } else {
      if first { FirstSwap(cmp, s, left, r, right); } else { LaterSwap(cmp, s, left, l0, r0, l, r, right); }
    }
  }

  /** partition: the result splits the range into two non-empty parts, with no value of
      the first above the value of the pivot slot and no value of the second below it. */
  method Partition<T(!new)>(a: array<T>, left: nat, right: nat, cmp: (T, T) -> int) returns (p: nat)
    requires Comparator(cmp) && left < right < a.Length
    modifies a
    ensures SplitAt(cmp, a[..], left, p, right)
    ensures Permuted(old(a[..]), a[..], left, right + 1)
  {
    var l: int, r: int := left - 1, right + 1;
    while true
      invariant Turning(cmp, a[..], left, l, r, right) && Permuted(old(a[..]), a[..], left, right + 1)
      decreases r
    {
      l, r := Scan(a, left, right, l, r, cmp);
      if l >= r {
        return r;
      }
      Swap(a, l, r, old(a[..]), left, right + 1);
    }
  }

  /** Reordering a part keeps bounds on its values. */
  lemma PermutedBounds<T(!new)>(cmp: (T, T) -> int, s: seq<T>, s': seq<T>, lo: nat, hi: nat, v: T)
    requires Permuted(s, s', lo, hi)
    ensures AtMost(cmp, s, lo, hi, v) ==> AtMost(cmp, s', lo, hi, v)
    ensures AtLeast(cmp, s, lo, hi, v) ==> AtLeast(cmp, s', lo, hi, v)
  {
    forall i | lo <= i < hi ensures exists j :: lo <= j < hi && s[j] == s'[i] {
      assert s'[i] == s'[lo..hi][i - lo];
      assert s'[i] in multiset(s'[lo..hi]);
      assert s'[i] in s[lo..hi];
    }
  }

  lemma JoinSorted<T(!new)>(cmp: (T, T) -> int, s: seq<T>, left: nat, p: nat, right: nat, v: T)
    requires Comparator(cmp) && left <= p < right < |s|
    requires Sorted(cmp, s, left, p + 1) && Sorted(cmp, s, p + 1, right + 1)
    requires AtMost(cmp, s, left, p + 1, v) && AtLeast(cmp, s, p + 1, right + 1, v)
    ensures Sorted(cmp, s, left, right + 1)
  {
    forall i, j | left <= i <= p < j <= right ensures InOrder(cmp, s, i, j) {
      assert Through(s[i], v, s[j]) && cmp(s[i], v) <= 0 && cmp(v, s[j]) <= 0;
    }
  }

  /** _qsort. */
  method SortRange<T(!new)>(a: array<T>, left: nat, right: nat, cmp: (T, T) -> int)
    requires Comparator(cmp) && right < a.Length && left <= right + 1
    modifies a
    ensures Permuted(old(a[..]), a[..], left, right + 1)
    ensures Sorted(cmp, a[..], left, right + 1)
    decreases right + 1 - left
  {
    if left >= right {
      return;
    }
    var p := Partition(a, left, right, cmp);
    ghost var v, s0 := a[left], a[..];
    SortRange(a, left, p, cmp);
    ghost var s1 := a[..];
    SortRange(a, p + 1, right, cmp);
    ghost var s2 := a[..];
    BothHalves(cmp, s0, s1, s2, left, p, right, v);
    assert Permuted(old(a[..]), s2, left, right + 1) by { PermutedTrans(old(a[..]), s0, s2, left, right + 1); }
  }

  /** Values on the two sides of v stay there. */
  lemma BoundsBoth<T(!new)>(cmp: (T, T) -> int, s0: seq<T>, s1: seq<T>, s2: seq<T>,
                            left: nat, mid: nat, right: nat, v: T)
    requires left <= mid <= right <= |s0| && Permuted(s0, s1, left, mid) && Permuted(s1, s2, mid, right)
    requires AtMost(cmp, s0, left, mid, v) && AtLeast(cmp, s0, mid, right, v)
    ensures AtMost(cmp, s2, left, mid, v) && AtLeast(cmp, s2, mid, right, v)
  {
    PermutedBounds(cmp, s0, s1, left, mid, v);
    PermutedBounds(cmp, s1, s2, mid, right, v);
  }

  lemma PermutedParts<T(!new)>(s0: seq<T>, s1: seq<T>, s2: seq<T>, left: nat, mid: nat, right: nat)
    requires left <= mid <= right <= |s0| && Permuted(s0, s1, left, mid) && Permuted(s1, s2, mid, right)
    ensures Permuted(s0, s2, left, right)
  {
    PermutedWider(s0, s1, left, mid, left, right);
    PermutedThen(s0, s1, s2, mid, right, left, right);
  }

  /** The two recursive calls leave the whole range sorted. */
  lemma SortedBoth<T(!new)>(cmp: (T, T) -> int, s0: seq<T>, s1: seq<T>, s2: seq<T>, left: nat, p: nat, right: nat, v: T)
    requires Comparator(cmp) && left <= p < right < |s0|
    requires Permuted(s0, s1, left, p + 1) && Permuted(s1, s2, p + 1, right + 1)
    requires AtMost(cmp, s0, left, p + 1, v) && AtLeast(cmp, s0, p + 1, right + 1, v)
    requires Sorted(cmp, s1, left, p + 1) && Sorted(cmp, s2, p + 1, right + 1)
    ensures Sorted(cmp, s2, left, right + 1)
  {
    BoundsBoth(cmp, s0, s1, s2, left, p + 1, right + 1, v);
    SortedStays(cmp, s1, s2, left, p + 1);
    JoinSorted(cmp, s2, left, p, right, v);
  }

  /** And they leave a permutation of it. */
  lemma BothHalves<T(!new)>(cmp: (T, T) -> int, s0: seq<T>, s1: seq<T>, s2: seq<T>, left: nat, p: nat, right: nat, v: T)
    requires Comparator(cmp) && left <= p < right < |s0|
    requires Permuted(s0, s1, left, p + 1) && Permuted(s1, s2, p + 1, right + 1)
    requires AtMost(cmp, s0, left, p + 1, v) && AtLeast(cmp, s0, p + 1, right + 1, v)
    requires Sorted(cmp, s1, left, p + 1) && Sorted(cmp, s2, p + 1, right + 1)
    ensures Permuted(s0, s2, left, right + 1) && Sorted(cmp, s2, left, right + 1)
  {
    SortedBoth(cmp, s0, s1, s2, left, p, right, v);
    assert Permuted(s0, s2, left, right + 1) by { PermutedParts(s0, s1, s2, left, p + 1, right + 1); }
  }

  /** qsort. With no elements nmemb - 1 wraps around and the source reads outside the array. */
  method Qsort<T(!new)>(a: array<T>, cmp: (T, T) -> int)
    requires Comparator(cmp) && a.Length >= 1
    modifies a
    ensures multiset(a[..]) == multiset(old(a[..]))
    ensures Sorted(cmp, a[..], 0, a.Length)
  {
    SortRange(a, 0, a.Length - 1, cmp);
    assert a[0..a.Length] == a[..] && old(a[..])[0..a.Length] == old(a[..]);
  }
}
