/**
 * mdb_midl_sort: quicksort with median of three, insertion sort for short segments and an
 * explicit stack of 64 entries.  A list is a count at a[o] followed by its IDs; the list of loose
 * pages that mdb_freelist_save builds sits at the tail of another list's array, hence the offset.
 *
 * The proof follows cut points.  A cut at b says that nothing left of b is smaller than anything
 * right of it.  Every position is a cut unless it lies strictly inside a pending segment, so when
 * no segment is pending the list is sorted.
 */
module IdSort {
  import opened Common

  const SMALL := 8
  const SAFE_LENGTH := 0x4000_0003    // the longest list in which no midpoint can overflow
  const STACK_SIZE := 64

  /** The part [l, r) of s is in descending order. */
  ghost predicate Sorted(s: seq<nat>, l: int, r: int) {
    0 <= l && r <= |s| && forall x, y :: l <= x < y < r ==> s[x] >= s[y]
  }

  /** t is s with the elements of [l, r) permuted. */
  ghost predicate Permuted(s: seq<nat>, t: seq<nat>, l: int, r: int) {
    && 0 <= l <= r <= |s| == |t|
    && s[..l] == t[..l]
    && s[r..] == t[r..]
    && multiset(s[l..r]) == multiset(t[l..r])
  }

  /** Nothing in [lo, b) is smaller than anything in [b, hi). */
  ghost predicate Cut(s: seq<nat>, lo: int, hi: int, b: int) {
    0 <= lo <= b <= hi <= |s| && forall x, y :: lo <= x < b <= y < hi ==> s[x] >= s[y]
  }

  lemma PermutedTrans(s: seq<nat>, t: seq<nat>, u: seq<nat>, l: int, r: int)
    requires Permuted(s, t, l, r) && Permuted(t, u, l, r)
    ensures Permuted(s, u, l, r)
  {
  }

  lemma PermutedWider(s: seq<nat>, t: seq<nat>, l: int, r: int, l': int, r': int)
    requires Permuted(s, t, l, r) && 0 <= l' <= l && r <= r' <= |s|
    ensures Permuted(s, t, l', r')
  {
    assert s[..l'] == s[..l][..l'] && t[..l'] == t[..l][..l'];
    assert s[r'..] == s[r..][r'-r..] && t[r'..] == t[r..][r'-r..];
    assert s[l'..r'] == s[..l][l'..] + s[l..r] + s[r..][..r'-r];
    assert t[l'..r'] == t[..l][l'..] + t[l..r] + t[r..][..r'-r];
  }

  lemma SwapPermutes(s: seq<nat>, i: int, j: int, l: int, r: int)
    requires 0 <= l <= i < r <= |s| && l <= j < r
    ensures Permuted(s, s[i := s[j]][j := s[i]], l, r)
  {
    var t := s[i := s[j]][j := s[i]];
    var u := s[l..r];
    assert t[l..r] == u[i-l := u[j-l]][j-l := u[i-l]];
    assert s[..l] == t[..l] && s[r..] == t[r..];
  }

  /** An element of the permuted part comes from the permuted part. */
  lemma PermutedElement(s: seq<nat>, t: seq<nat>, l: int, r: int, y: int) returns (y': int)
    requires Permuted(s, t, l, r) && 0 <= y < |s|
    ensures 0 <= y' < |s| && s[y'] == t[y]
    ensures l <= y < r ==> l <= y' < r
    ensures !(l <= y < r) ==> y' == y
  {
    if l <= y < r {
      assert t[y] == t[l..r][y-l];
      assert t[y] in multiset(t[l..r]);
      assert t[y] in s[l..r];
      var k :| 0 <= k < |s[l..r]| && s[l..r][k] == t[y];
      return l + k;
    } else if y < l {
      assert s[..l][y] == t[..l][y];
      return y;
    } else {
      assert s[r..][y-r] == t[r..][y-r];
      return y;
    }
  }

  /** Permuting a segment keeps every cut that is not strictly inside it. */
  lemma CutKept(s: seq<nat>, t: seq<nat>, l: int, r: int, lo: int, hi: int, b: int)
    requires Permuted(s, t, l, r) && lo <= l && r <= hi && Cut(s, lo, hi, b)
    requires b <= l || r <= b
    ensures Cut(t, lo, hi, b)
  {
    forall x, y | lo <= x < b <= y < hi ensures t[x] >= t[y] {
      var x' := PermutedElement(s, t, l, r, x);
      var y' := PermutedElement(s, t, l, r, y);
    }
  }

  /** MIDL_SWAP inside a segment that has so far been permuted from s. */
  method Swap(a: array<nat>, i: int, j: int, ghost s: seq<nat>, ghost l: int, ghost r: int)
    requires 0 <= l <= i < r <= a.Length && l <= j < r && Permuted(s, a[..], l, r)
    modifies a
    ensures Permuted(s, a[..], l, r)
    ensures a[i] == old(a[j]) && a[j] == old(a[i])
    ensures forall k :: 0 <= k < a.Length && k != i && k != j ==> a[k] == old(a[k])
  {
    ghost var t := a[..];
    SwapPermutes(t, i, j, l, r);
    a[i], a[j] := a[j], a[i];
    assert a[..] == t[i := t[j]][j := t[i]];
  }

  method SwapIfLess(a: array<nat>, i: int, j: int, ghost s: seq<nat>, ghost l: int, ghost r: int)
    requires 0 <= l <= i < r <= a.Length && l <= j < r && Permuted(s, a[..], l, r)
    modifies a
    ensures Permuted(s, a[..], l, r)
    ensures a[i] >= a[j]
    ensures if old(a[i] < a[j]) then a[i] == old(a[j]) && a[j] == old(a[i])
            else a[i] == old(a[i]) && a[j] == old(a[j])
    ensures forall k :: 0 <= k < a.Length && k != i && k != j ==> a[k] == old(a[k])
  {
    hide Permuted;
    if a[i] < a[j] {
      Swap(a, i, j, s, l, r);
    }
  }

  /** s[j] moved down to position p, the elements between shifted up by one. */
  ghost predicate Inserted(s: seq<nat>, t: seq<nat>, p: int, j: int) {
    && 0 <= p <= j < |s| == |t|
    && t[p] == s[j]
    && (forall k :: 0 <= k < p || j < k < |s| ==> t[k] == s[k])
    && (forall k :: p < k <= j ==> t[k] == s[k-1])
  }

  lemma InsertedPermutes(s: seq<nat>, t: seq<nat>, p: int, j: int, l: int)
    requires Inserted(s, t, p, j) && 0 <= l <= p
    ensures Permuted(s, t, l, j + 1)
  {
    assert s[l..j+1] == s[l..p] + s[p..j] + [s[j]];
    assert t[l..j+1] == s[l..p] + [s[j]] + s[p..j];
    assert s[..l] == t[..l] && s[j+1..] == t[j+1..];
  }

  lemma InsertedSorted(s: seq<nat>, t: seq<nat>, p: int, j: int, l: int)
    requires Inserted(s, t, p, j) && 0 <= l <= p && Sorted(s, l, j)
    requires l < p ==> s[p-1] >= s[j]
    requires p < j ==> s[p] <= s[j]
    ensures Sorted(t, l, j + 1)
  {
    forall x, y | l <= x < y < j + 1 ensures t[x] >= t[y] {
      assert x < p ==> t[x] == s[x];
    }
  }

  /** Insert a[j] into the sorted run a[l..j); the scan runs down to lo, not to l. */
  method InsertOne(a: array<nat>, lo: int, l: int, j: int)
    requires 0 <= lo <= l < j < a.Length
    requires Sorted(a[..], l, j)
    requires forall x :: lo <= x < l ==> a[x] >= a[j]
    modifies a
    ensures Permuted(old(a[..]), a[..], l, j + 1) && Sorted(a[..], l, j + 1)
  {
    hide Permuted, Sorted;
    ghost var s := a[..];
    var i := ShiftUp(a, lo, l, j);
    ghost var t := a[..];
    InsertedPermutes(s, t, i + 1, j, l);
    InsertedSorted(s, t, i + 1, j, l);
  }

  method ShiftUp(a: array<nat>, lo: int, l: int, j: int) returns (i: int)
    requires 0 <= lo <= l < j < a.Length
    requires forall x :: lo <= x < l ==> a[x] >= a[j]
    modifies a
    ensures l - 1 <= i < j && Inserted(old(a[..]), a[..], i + 1, j)
    ensures l <= i ==> old(a[i]) >= old(a[j])
    ensures i + 1 < j ==> old(a[i+1]) < old(a[j])
  {
    var v := a[j];
    i := j - 1;
    while i >= lo && a[i] < v
      invariant l - 1 <= i <= j - 1
      invariant forall k :: 0 <= k <= i || j < k < a.Length ==> a[k] == old(a[k])
      invariant forall k :: i + 1 < k <= j ==> a[k] == old(a[k-1])
      invariant i + 1 < j ==> old(a[i+1]) < v
    {
      a[i+1] := a[i];
      i := i - 1;
    }
    a[i+1] := v;
  }

  lemma CutAbove(s: seq<nat>, t: seq<nat>, l: int, r: int, lo: int, j: int)
    requires Permuted(s, t, l, r) && Cut(s, lo, r, l) && l <= j < r
    ensures forall x :: lo <= x < l ==> t[x] >= t[j]
  {
    CutKept(s, t, l, r, lo, r, l);
  }

  method InsertionSort(a: array<nat>, lo: int, l: int, ir: int, ghost s: seq<nat>)
    requires 0 <= lo <= l && l - 1 <= ir < a.Length
    requires Permuted(s, a[..], l, ir + 1) && Cut(s, lo, ir + 1, l)
    modifies a
    ensures Permuted(s, a[..], l, ir + 1) && Sorted(a[..], l, ir + 1)
  {
    var j := l + 1;
    assert Sorted(a[..], l, if ir < l then ir + 1 else j);
    hide Permuted, Sorted, Cut;
    while j <= ir
      invariant l + 1 <= j && (j <= ir + 1 || ir < l)
      invariant Permuted(s, a[..], l, ir + 1)
      invariant Sorted(a[..], l, if ir < l then ir + 1 else j)
    {
      ghost var t := a[..];
      CutAbove(s, t, l, ir + 1, lo, j);
      InsertOne(a, lo, l, j);
      PermutedWider(t, a[..], l, j + 1, l, ir + 1);
      PermutedTrans(s, t, a[..], l, ir + 1);
      j := j + 1;
    }
  }

  /** Median of three moved to a[l+1], with a[l] and a[ir] as the sentinels of the scans below. */
  method ChooseMedian(a: array<nat>, l: int, ir: int, ghost s: seq<nat>)
    requires 0 <= l && ir < a.Length && ir - l >= SMALL && Permuted(s, a[..], l, ir + 1)
    modifies a
    ensures Permuted(s, a[..], l, ir + 1)
    ensures a[l] >= a[l+1] >= a[ir]
  {
    hide Permuted;
    Swap(a, (l + ir) / 2, l + 1, s, l, ir + 1);
    SwapIfLess(a, l, ir, s, l, ir + 1);
    SwapIfLess(a, l + 1, ir, s, l, ir + 1);
    SwapIfLess(a, l, l + 1, s, l, ir + 1);
  }

  /** Positions l..i hold nothing below p and positions j..ir nothing above it. */
  ghost predicate Scanned(s: seq<nat>, l: int, ir: int, i: int, j: int, p: nat) {
    && 0 <= l <= ir < |s| && i < |s| && 0 <= j
    && (forall k :: l <= k <= i ==> s[k] >= p)
    && (forall k :: j <= k <= ir ==> s[k] <= p)
  }

  /** The two scans have no bounds test of their own; the array accesses show they stay inside. */
  method Partition(a: array<nat>, l: int, ir: int, ghost s: seq<nat>) returns (i: int, j: int)
    requires 0 <= l && ir < a.Length && ir - l >= SMALL && Permuted(s, a[..], l, ir + 1)
    modifies a
    ensures Permuted(s, a[..], l, ir + 1)
    ensures l < j < i <= ir + 1
    ensures Scanned(a[..], l, ir, i - 1, j, a[j])
  {
    hide Permuted;
    ChooseMedian(a, l, ir, s);
    i, j := l + 1, ir;
    var p := a[l+1];
    while true
      invariant l + 1 <= i <= j <= ir && i < ir && l + 1 < j
      invariant Permuted(s, a[..], l, ir + 1)
      invariant Scanned(a[..], l, ir, i, j, p) && a[l+1] == p
      decreases ir - i
    {
      i, j := Scan(a, l, ir, i, j, p);
      if j < i {
        break;
      }
      Swap(a, i, j, s, l, ir + 1);
    }
    Swap(a, l + 1, j, s, l, ir + 1);
  }

  method Scan(a: array<nat>, l: int, ir: int, i0: int, j0: int, p: nat) returns (i: int, j: int)
    requires 0 <= l < i0 <= j0 <= ir < a.Length && i0 < ir && l + 1 < j0
    requires Scanned(a[..], l, ir, i0, j0, p)
    ensures i0 < i <= ir && l < j < j0 && a[i] <= p <= a[j]
    ensures Scanned(a[..], l, ir, i - 1, j + 1, p)
  {
    i := i0 + 1;
    while a[i] > p
      invariant i0 < i <= ir && (i <= j0 || i == i0 + 1)
      invariant forall k :: i0 < k < i ==> a[k] >= p
      decreases ir - i
    {
      i := i + 1;
    }
    j := j0 - 1;
    while a[j] < p
      invariant l < j < j0 && (i0 <= j || j == j0 - 1)
      invariant forall k :: j < k < j0 ==> a[k] <= p
      decreases j
    {
      j := j - 1;
    }
  }

  // The segments still to be sorted: those on the stack, then the current one.

  datatype Seg = Seg(l: int, r: int)

  ghost predicate Pending(ss: seq<Seg>, b: int) {
    exists k :: 0 <= k < |ss| && ss[k].l < b <= ss[k].r
  }

  ghost predicate Segments(ss: seq<Seg>, lo: int, hi: int) {
    && (forall k :: 0 <= k < |ss| ==> lo <= ss[k].l && ss[k].l - 1 <= ss[k].r < hi)
    && (forall i, j :: 0 <= i < j < |ss| ==> ss[i].r < ss[j].l || ss[j].r < ss[i].l)
  }

  ghost predicate CutsOutside(s: seq<nat>, lo: int, hi: int, ss: seq<Seg>) {
    forall b :: lo <= b <= hi && !Pending(ss, b) ==> Cut(s, lo, hi, b)
  }

  lemma SegmentEndsAreCuts(s: seq<nat>, lo: int, hi: int, ss: seq<Seg>, k: int)
    requires Segments(ss, lo, hi) && CutsOutside(s, lo, hi, ss) && 0 <= k < |ss|
    ensures Cut(s, lo, hi, ss[k].l) && Cut(s, lo, hi, ss[k].r + 1)
  {
    assert !Pending(ss, ss[k].l);
    assert !Pending(ss, ss[k].r + 1);
  }

  lemma SortedCuts(t: seq<nat>, lo: int, hi: int, l: int, r: int, b: int)
    requires Cut(t, lo, hi, l) && Cut(t, lo, hi, r + 1) && Sorted(t, l, r + 1) && l < b <= r
    ensures Cut(t, lo, hi, b)
  {
    forall x, y | lo <= x < b <= y < hi ensures t[x] >= t[y] {
      if x < l {
      } else if y > r {
      }
    }
  }

  lemma ScannedCuts(t: seq<nat>, lo: int, hi: int, l: int, ir: int, i: int, j: int, b: int)
    requires Cut(t, lo, hi, l) && Cut(t, lo, hi, ir + 1)
    requires l < j < i <= ir + 1 && Scanned(t, l, ir, i - 1, j, t[j]) && j <= b <= i
    ensures Cut(t, lo, hi, b)
  {
    forall x, y | lo <= x < b <= y < hi ensures t[x] >= t[y] {
      if x < l {
      } else if y > ir {
      }
    }
  }

  lemma PendingLast(ss: seq<Seg>, cur: Seg, b: int)
    ensures Pending(ss + [cur], b) <==> Pending(ss, b) || cur.l < b <= cur.r
  {
    var all := ss + [cur];
    assert all[|ss|] == cur;
    assert forall k :: 0 <= k < |ss| ==> all[k] == ss[k];
  }

  lemma SegmentsLast(ss: seq<Seg>, cur: Seg, lo: int, hi: int)
    requires Segments(ss + [cur], lo, hi)
    ensures Segments(ss, lo, hi)
    ensures lo <= cur.l && cur.l - 1 <= cur.r < hi
    ensures forall k :: 0 <= k < |ss| ==> ss[k].r < cur.l || cur.r < ss[k].l
  {
    var all := ss + [cur];
    assert all[|ss|] == cur;
    assert forall k :: 0 <= k < |ss| ==> all[k] == ss[k];
  }

  lemma SegmentsAdd(ss: seq<Seg>, cur: Seg, lo: int, hi: int)
    requires Segments(ss, lo, hi)
    requires lo <= cur.l && cur.l - 1 <= cur.r < hi
    requires forall k :: 0 <= k < |ss| ==> ss[k].r < cur.l || cur.r < ss[k].l
    ensures Segments(ss + [cur], lo, hi)
  {
  }

  lemma SegmentKept(s: seq<nat>, t: seq<nat>, lo: int, hi: int, ss: seq<Seg>, cur: Seg)
    requires Segments(ss + [cur], lo, hi) && CutsOutside(s, lo, hi, ss + [cur])
    requires Permuted(s, t, cur.l, cur.r + 1)
    ensures CutsOutside(t, lo, hi, ss + [cur])
    ensures Cut(t, lo, hi, cur.l) && Cut(t, lo, hi, cur.r + 1)
  {
    SegmentsLast(ss, cur, lo, hi);
    assert (ss + [cur])[|ss|] == cur;
    SegmentEndsAreCuts(s, lo, hi, ss + [cur], |ss|);
    hide Permuted, Cut, Segments;
    CutKept(s, t, cur.l, cur.r + 1, lo, hi, cur.l);
    CutKept(s, t, cur.l, cur.r + 1, lo, hi, cur.r + 1);
    forall b | lo <= b <= hi && !Pending(ss + [cur], b) ensures Cut(t, lo, hi, b) {
      PendingLast(ss, cur, b);
      CutKept(s, t, cur.l, cur.r + 1, lo, hi, b);
    }
  }

  lemma SegmentDone(s: seq<nat>, t: seq<nat>, lo: int, hi: int, ss: seq<Seg>, cur: Seg)
    requires Segments(ss + [cur], lo, hi) && CutsOutside(s, lo, hi, ss + [cur])
    requires Permuted(s, t, cur.l, cur.r + 1) && Sorted(t, cur.l, cur.r + 1)
    ensures Segments(ss, lo, hi) && CutsOutside(t, lo, hi, ss)
  {
    hide Permuted, Sorted, Cut, Segments, Pending;
    SegmentsLast(ss, cur, lo, hi);
    SegmentKept(s, t, lo, hi, ss, cur);
    forall b | lo <= b <= hi && !Pending(ss, b) ensures Cut(t, lo, hi, b) {
      PendingLast(ss, cur, b);
      if cur.l < b <= cur.r { SortedCuts(t, lo, hi, cur.l, cur.r, b); }
    }
  }

  lemma SegmentDivided(s: seq<nat>, t: seq<nat>, lo: int, hi: int, ss: seq<Seg>, cur: Seg,
                       i: int, j: int, p: Seg, q: Seg)
    requires Segments(ss + [cur], lo, hi) && CutsOutside(s, lo, hi, ss + [cur])
    requires Permuted(s, t, cur.l, cur.r + 1)
    requires cur.l < j < i <= cur.r + 1 && Scanned(t, cur.l, cur.r, i - 1, j, t[j])
    requires Halves(cur, i, j, p, q)
    ensures Segments(ss + [p] + [q], lo, hi) && CutsOutside(t, lo, hi, ss + [p] + [q])
  {
    hide Permuted, Cut, Scanned, Segments, Pending;
    SegmentsLast(ss, cur, lo, hi);
    SegmentsAdd(ss, p, lo, hi);
    SegmentsAdd(ss + [p], q, lo, hi);
    SegmentKept(s, t, lo, hi, ss, cur);
    forall b | lo <= b <= hi && !Pending(ss + [p] + [q], b) ensures Cut(t, lo, hi, b) {
      PendingLast(ss, cur, b);
      PendingLast(ss, p, b);
      PendingLast(ss + [p], q, b);
      if j <= b <= i { ScannedCuts(t, lo, hi, cur.l, cur.r, i, j, b); }
    }
  }

  /** p and q are the two parts left of cur by a partition, the larger one first. */
  ghost predicate Halves(cur: Seg, i: int, j: int, p: Seg, q: Seg) {
    if cur.r - i + 1 >= j - cur.l then p == Seg(i, cur.r) && q == Seg(cur.l, j - 1)
    else p == Seg(cur.l, j - 1) && q == Seg(i, cur.r)
  }

  // Stack depth: a segment met at depth k has at most n / 2^k elements.

  ghost function Pow2(k: nat): (r: nat)
    ensures r >= 1
  {
    if k == 0 then 1 else 2 * Pow2(k - 1)
  }

  ghost function Weight(g: Seg, k: nat): int {
    (g.r - g.l + 1) * Pow2(k)
  }

  ghost predicate Halving(ss: seq<Seg>, n: int) {
    forall k :: 0 <= k < |ss| ==> Weight(ss[k], k) <= n
  }

  lemma Pow2Monotone(j: nat, k: nat)
    requires j <= k
    ensures Pow2(j) <= Pow2(k)
    decreases k - j
  {
    if j < k { Pow2Monotone(j, k - 1); }
  }

  lemma DepthBounded(ss: seq<Seg>, n: int)
    requires Halving(ss, n) && 0 < |ss| && n <= INT_MAX
    requires ss[|ss|-1].r - ss[|ss|-1].l >= SMALL
    ensures |ss| <= 28
  {
    var d := |ss| - 1;
    if d >= 28 {
      Pow2Monotone(28, d);
      assert Pow2(28) == 0x1000_0000 by {
        assert Pow2(7) == 128; assert Pow2(14) == 128 * 128 by { Pow2Product(7, 7); }
        Pow2Product(14, 14);
      }
      assert Weight(ss[d], d) >= 9 * Pow2(d);
      assert false;
    }
  }

  lemma Pow2Product(j: nat, k: nat)
    ensures Pow2(j + k) == Pow2(j) * Pow2(k)
  {
    if k > 0 { Pow2Product(j, k - 1); }
  }

  ghost function Work(ss: seq<Seg>): int {
    if ss == [] then 0 else Work(ss[..|ss|-1]) + 2 * (ss[|ss|-1].r - ss[|ss|-1].l + 1) + 1
  }

  /** jstack counts the used entries; entry k is at istack[2k+1..2k+2]. */
  ghost predicate OnStack(istack: seq<int>, jstack: int, ss: seq<Seg>) {
    && |istack| == STACK_SIZE && jstack == 2 * |ss| < STACK_SIZE
    && forall k :: 0 <= k < |ss| ==> istack[2*k+1] == ss[k].l && istack[2*k+2] == ss[k].r
  }

  /** s is s0 with [lo, hi) permuted, and every position outside the pending segments is a cut. */
  ghost predicate Sorting(s0: seq<nat>, s: seq<nat>, lo: int, hi: int, ss: seq<Seg>) {
    && Segments(ss, lo, hi) && Halving(ss, hi - lo)
    && Permuted(s0, s, lo, hi) && CutsOutside(s, lo, hi, ss)
  }

  lemma SortingStart(s: seq<nat>, lo: int, hi: int)
    requires 0 <= lo <= hi <= |s|
    ensures Sorting(s, s, lo, hi, [Seg(lo, hi - 1)])
  {
    var ss := [Seg(lo, hi - 1)];
    forall b | lo <= b <= hi && !Pending(ss, b) ensures Cut(s, lo, hi, b) {
      assert ss[0].l < b <= ss[0].r ==> Pending(ss, b);
    }
    assert Pow2(0) == 1;
  }

  lemma SortingDone(s0: seq<nat>, s: seq<nat>, t: seq<nat>, lo: int, hi: int, ss: seq<Seg>, cur: Seg)
    requires Sorting(s0, s, lo, hi, ss + [cur])
    requires Permuted(s, t, cur.l, cur.r + 1) && Sorted(t, cur.l, cur.r + 1)
    ensures Sorting(s0, t, lo, hi, ss)
    ensures 0 <= Work(ss) < Work(ss + [cur])
  {
    SegmentsLast(ss, cur, lo, hi);
    HalvingLast(hi - lo, ss, cur);
    WorkLast(ss, cur, lo, hi);
    hide Permuted, Sorted, Cut, CutsOutside, Segments, Halving, Work;
    SegmentDone(s, t, lo, hi, ss, cur);
    PermutedWider(s, t, cur.l, cur.r + 1, lo, hi);
    PermutedTrans(s0, s, t, lo, hi);
  }

  lemma WorkLast(ss: seq<Seg>, cur: Seg, lo: int, hi: int)
    requires Segments(ss, lo, hi)
    ensures Work(ss + [cur]) == Work(ss) + 2 * (cur.r - cur.l + 1) + 1
    ensures Work(ss) >= 0
  {
    assert (ss + [cur])[..|ss|] == ss;
    if ss != [] {
      var init, last := ss[..|ss|-1], ss[|ss|-1];
      assert ss == init + [last];
      SegmentsLast(init, last, lo, hi);
      WorkLast(init, last, lo, hi);
    }
  }

  lemma HalvingLast(n: int, ss: seq<Seg>, cur: Seg)
    ensures Halving(ss + [cur], n) <==> Halving(ss, n) && Weight(cur, |ss|) <= n
  {
    hide Weight;
    var all := ss + [cur];
    assert all[|ss|] == cur;
    assert forall k :: 0 <= k < |ss| ==> all[k] == ss[k];
  }

  lemma HalvesWeigh(cur: Seg, i: int, j: int, p: Seg, q: Seg, k: nat)
    requires cur.l < j < i <= cur.r + 1 && Halves(cur, i, j, p, q)
    ensures Weight(p, k) <= Weight(cur, k) && Weight(q, k + 1) <= Weight(cur, k)
  {
    var x, y, z := p.r - p.l + 1, q.r - q.l + 1, cur.r - cur.l + 1;
    assert Pow2(k + 1) == 2 * Pow2(k);
    TimesMonotone(x, z, Pow2(k));
    TimesMonotone(2 * y, z, Pow2(k));
  }

  lemma TimesMonotone(x: int, z: int, p: nat)
    requires x <= z
    ensures x * p <= z * p
  {
  }

  lemma SortingDivided(s0: seq<nat>, s: seq<nat>, t: seq<nat>, lo: int, hi: int, ss: seq<Seg>,
                       cur: Seg, i: int, j: int, p: Seg, q: Seg)
    requires Sorting(s0, s, lo, hi, ss + [cur])
    requires Permuted(s, t, cur.l, cur.r + 1)
    requires cur.l < j < i <= cur.r + 1 && Scanned(t, cur.l, cur.r, i - 1, j, t[j])
    requires Halves(cur, i, j, p, q)
    ensures Sorting(s0, t, lo, hi, ss + [p] + [q])
    ensures 0 <= Work(ss + [p] + [q]) < Work(ss + [cur])
  {
    HalvesCount(ss, cur, i, j, p, q, lo, hi);
    hide Permuted, Cut, CutsOutside, Scanned, Segments, Halving, Work, Halves;
    SegmentDivided(s, t, lo, hi, ss, cur, i, j, p, q);
    SegmentsLast(ss, cur, lo, hi);
    PermutedWider(s, t, cur.l, cur.r + 1, lo, hi);
    PermutedTrans(s0, s, t, lo, hi);
  }

  lemma HalvesCount(ss: seq<Seg>, cur: Seg, i: int, j: int, p: Seg, q: Seg, lo: int, hi: int)
    requires Segments(ss + [cur], lo, hi) && Halving(ss + [cur], hi - lo)
    requires cur.l < j < i <= cur.r + 1 && Halves(cur, i, j, p, q)
    ensures Halving(ss + [p] + [q], hi - lo)
    ensures 0 <= Work(ss + [p] + [q]) < Work(ss + [cur])
  {
    hide Segments, Halving, Work, Weight;
    HalvesWeigh(cur, i, j, p, q, |ss|);
    HalvingLast(hi - lo, ss, cur);
    HalvingLast(hi - lo, ss, p);
    HalvingLast(hi - lo, ss + [p], q);
    SegmentsLast(ss, cur, lo, hi);
    SegmentsAdd(ss, p, lo, hi);
    WorkLast(ss, cur, lo, hi);
    WorkLast(ss, p, lo, hi);
    WorkLast(ss + [p], q, lo, hi);
  }

  lemma CurrentSegment(s0: seq<nat>, s: seq<nat>, lo: int, hi: int, ss: seq<Seg>, l: int, ir: int)
    requires Sorting(s0, s, lo, hi, ss + [Seg(l, ir)]) && hi - lo <= INT_MAX
    ensures 0 <= lo <= l && l - 1 <= ir < hi <= |s|
    ensures Permuted(s, s, l, ir + 1) && Cut(s, lo, ir + 1, l)
    ensures ir - l >= SMALL ==> |ss| < 28
  {
    var all := ss + [Seg(l, ir)];
    assert all[|ss|] == Seg(l, ir);
    SegmentEndsAreCuts(s, lo, hi, all, |ss|);
    if ir - l >= SMALL { DepthBounded(all, hi - lo); }
  }

  lemma SortingFinished(s0: seq<nat>, s: seq<nat>, lo: int, hi: int)
    requires Sorting(s0, s, lo, hi, [])
    ensures Permuted(s0, s, lo, hi) && Sorted(s, lo, hi)
  {
    forall x, y | lo <= x < y < hi ensures s[x] >= s[y] {
      assert !Pending([], y);
      assert Cut(s, lo, hi, y);
    }
  }

  method Push(istack: array<int>, jstack: int, l: int, r: int, ghost ss: seq<Seg>) returns (jstack': int)
    requires OnStack(istack[..], jstack, ss) && |ss| < 28
    modifies istack
    ensures OnStack(istack[..], jstack', ss + [Seg(l, r)]) && jstack' == jstack + 2
  {
    jstack' := jstack + 2;
    istack[jstack'] := r;
    istack[jstack'-1] := l;
  }

  method Pop(istack: array<int>, jstack: int, ghost ss: seq<Seg>) returns (l: int, r: int, jstack': int)
    requires OnStack(istack[..], jstack, ss) && jstack != 0
    ensures ss != [] && OnStack(istack[..], jstack', ss[..|ss|-1]) && jstack' == jstack - 2
    ensures ss == ss[..|ss|-1] + [Seg(l, r)]
  {
    r := istack[jstack];
    l := istack[jstack-1];
    jstack' := jstack - 2;
  }

  /** Partition the current segment, push the larger part and go on with the smaller one. */
  method Divide(a: array<nat>, istack: array<int>, l: int, ir: int, jstack: int,
                ghost s0: seq<nat>, ghost lo: int, ghost hi: int, ghost ss: seq<Seg>)
    returns (l': int, ir': int, jstack': int, ghost ss': seq<Seg>)
    requires OnStack(istack[..], jstack, ss) && hi - lo <= INT_MAX
    requires Sorting(s0, a[..], lo, hi, ss + [Seg(l, ir)]) && ir - l >= SMALL
    modifies a, istack
    ensures OnStack(istack[..], jstack', ss')
    ensures Sorting(s0, a[..], lo, hi, ss' + [Seg(l', ir')])
    ensures 0 <= Work(ss' + [Seg(l', ir')]) < Work(ss + [Seg(l, ir)])
  {
    hide Sorting, Permuted, Cut, Scanned, Work, OnStack;
    ghost var s, cur := a[..], Seg(l, ir);
    CurrentSegment(s0, s, lo, hi, ss, l, ir);
    var i, j := Partition(a, l, ir, s);
    ghost var t := a[..];
    if ir - i + 1 >= j - l {
      jstack' := Push(istack, jstack, i, ir, ss);
      SortingDivided(s0, s, t, lo, hi, ss, cur, i, j, Seg(i, ir), Seg(l, j - 1));
      ss' := ss + [Seg(i, ir)];
      l', ir' := l, j - 1;
    } else {
      jstack' := Push(istack, jstack, l, j - 1, ss);
      SortingDivided(s0, s, t, lo, hi, ss, cur, i, j, Seg(l, j - 1), Seg(i, ir));
      ss' := ss + [Seg(l, j - 1)];
      l', ir' := i, ir;
    }
  }

  method Small(a: array<nat>, l: int, ir: int, o: nat,
               ghost s0: seq<nat>, ghost hi: int, ghost ss: seq<Seg>)
    requires Sorting(s0, a[..], o + 1, hi, ss + [Seg(l, ir)]) && hi - o - 1 <= INT_MAX
    modifies a
    ensures Sorting(s0, a[..], o + 1, hi, ss)
    ensures 0 <= Work(ss) < Work(ss + [Seg(l, ir)])
  {
    hide Sorting, Permuted, Sorted, Cut, Work;
    ghost var s := a[..];
    CurrentSegment(s0, s, o + 1, hi, ss, l, ir);
    InsertionSort(a, o + 1, l, ir, s);
    SortingDone(s0, s, a[..], o + 1, hi, ss, Seg(l, ir));
  }

  /**
   * The midpoint of a segment is computed as (l + ir) >> 1 in int.  The sum cannot overflow, whichever
   * segments long enough to be divided come up, exactly in lists of up to SAFE_LENGTH IDs.
   */
  lemma SafeLengths(n: nat)
    ensures (forall l: int, ir: int :: 1 <= l && l + SMALL <= ir <= n ==> Midpoint(l, ir)) <==> n <= SAFE_LENGTH
  {
    if n > SAFE_LENGTH { assert !Midpoint(n - SMALL, n); }
  }

  /** l + ir is an int. */
  predicate Midpoint(l: int, ir: int) { l + ir <= INT_MAX }

  /**
   * A segment of the list at offset o, with n IDs, that is long enough to be divided and closed in itself:
   * nothing in it is larger than what is before it or smaller than what is after it.  Its midpoint
   * overflows.
   */
  ghost predicate OverflowsIn(s: seq<nat>, o: nat, n: nat, l: int, ir: int) {
    && o + n < |s| && 1 <= l && l + SMALL <= ir <= n && l + ir > INT_MAX
    && Cut(s, o + 1, o + 1 + n, o + l) && Cut(s, o + 1, o + 1 + n, o + ir + 1)
  }

  ghost predicate Overflowed(s: seq<nat>, o: nat, n: nat) {
    exists l: int, ir: int :: OverflowsIn(s, o, n, l, ir)
  }

  lemma SegmentOverflows(s0: seq<nat>, s: seq<nat>, o: nat, lo: int, hi: int, ss: seq<Seg>, l: int, ir: int)
    requires Sorting(s0, s, lo, hi, ss + [Seg(l, ir)]) && lo == o + 1 && lo <= hi <= |s|
    requires ir - l >= SMALL && !Midpoint(l - o, ir - o)
    ensures Overflowed(s, o, hi - lo)
  {
    var all := ss + [Seg(l, ir)];
    assert all[|ss|] == Seg(l, ir);
    SegmentEndsAreCuts(s, lo, hi, all, |ss|);
    assert OverflowsIn(s, o, hi - lo, l - o, ir - o);
  }

  /**
   * Sorts the list at offset o in place.  The stack accesses are bounds-checked against the 64 entries of the
   * original for every list an int can count.  The result is false if a midpoint overflows: never in a list of
   * up to SAFE_LENGTH IDs, always in one of INT_MAX, and in between as the IDs have it.
   */
  method Sort(a: array<nat>, o: nat) returns (ok: bool)
    requires o < a.Length && o + a[o] < a.Length && a[o] <= INT_MAX
    modifies a
    ensures old(a[o]) <= SAFE_LENGTH ==> ok
    ensures old(a[o]) == INT_MAX ==> !ok
    ensures Permuted(old(a[..]), a[..], o + 1, o + 1 + old(a[o]))
    ensures ok ==> Sorted(a[..], o + 1, o + 1 + old(a[o]))
    ensures !ok ==> Overflowed(a[..], o, old(a[o]))
  {
    hide Overflowed, Sorting, Permuted, Sorted, Work, OnStack;
    var istack := new int[STACK_SIZE];
    var ir, l, jstack := o + a[o], o + 1, 0;
    ghost var lo, hi, s0, ss := o + 1, o + a[o] + 1, a[..], [];
    SortingStart(s0, lo, hi);
    assert ss + [Seg(l, ir)] == [Seg(l, ir)];
    EmptyStack(istack[..]);
    while true
      invariant fresh(istack) && OnStack(istack[..], jstack, ss)
      invariant Sorting(s0, a[..], lo, hi, ss + [Seg(l, ir)])
      invariant hi - lo == INT_MAX ==> l == lo && ir + 1 == hi
      decreases Work(ss + [Seg(l, ir)])
    {
      SortingKept(s0, a[..], lo, hi, ss, l, ir);
      if ir - l < SMALL {
        Small(a, l, ir, o, s0, hi, ss);
        if jstack == 0 {
          NoSegments(istack[..], jstack, ss);
          break;
        }
        l, ir, jstack := Pop(istack, jstack, ss);
        ss := ss[..|ss|-1];
      } else if !Midpoint(l - o, ir - o) {
        SegmentOverflows(s0, a[..], o, lo, hi, ss, l, ir);
        return false;
      } else {
        l, ir, jstack, ss := Divide(a, istack, l, ir, jstack, s0, lo, hi, ss);
      }
    }
    SortingFinished(s0, a[..], lo, hi);
    ok := true;
  }

  lemma EmptyStack(istack: seq<int>)
    requires |istack| == STACK_SIZE
    ensures OnStack(istack, 0, [])
  {
  }

  lemma NoSegments(istack: seq<int>, jstack: int, ss: seq<Seg>)
    requires OnStack(istack, jstack, ss) && jstack == 0
    ensures ss == []
  {
  }

  /** Nothing has left the list yet, and the current segment is part of it. */
  lemma SortingKept(s0: seq<nat>, s: seq<nat>, lo: int, hi: int, ss: seq<Seg>, l: int, ir: int)
    requires Sorting(s0, s, lo, hi, ss + [Seg(l, ir)])
    ensures Permuted(s0, s, lo, hi) && lo <= l && ir < hi
  {
    assert (ss + [Seg(l, ir)])[|ss|] == Seg(l, ir);
  }
}
