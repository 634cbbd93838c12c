/**
 * ID lists of midl.c other than sorting: an array with the count in element 0, the IDs after it in
 * descending order.  The word before element 0 holds the room of the list; here that is the length
 * of the array less one.
 */
module IdLists {
  import opened Common
  import opened PageNumbers

  predicate Desc(s: seq<nat>) {
    forall i, j :: 0 <= i < j < |s| ==> s[i] > s[j]
  }

  /** A descending list holds every ID at most once. */
  lemma {:induction false} DescOnce(s: seq<nat>, x: nat)
    requires Desc(s)
    ensures multiset(s)[x] == if x in s then 1 else 0
  {
    if s != [] {
      var init := s[..|s|-1];
      assert s == init + [s[|s|-1]];
      DescOnce(init, x);
    }
  }

  // ---- mdb_midl_search ----

  /** Descending, perhaps with repetitions. */
  ghost predicate Falling(s: seq<nat>) {
    forall i, j :: 0 <= i < j < |s| ==> s[i] >= s[j]
  }

  /** IDs before position x are not below id, those from it on not above. */
  ghost predicate IsPosition(s: seq<nat>, id: nat, x: nat) {
    && 1 <= x <= |s| + 1
    && (forall i :: 0 <= i < x - 1 ==> s[i] >= id)
    && (forall i :: x - 1 <= i < |s| ==> s[i] <= id)
  }

  method Search(ids: array<nat>, id: nat) returns (x: nat)
    requires ids.Length > 0 && ids[0] < ids.Length && Falling(ids[1..ids[0]+1])
    ensures IsPosition(ids[1..ids[0]+1], id, x)
    ensures id in ids[1..ids[0]+1] <==> x <= ids[0] && ids[x] == id
  {
    var base, cursor, n, val := 0, 1, ids[0], 0;
    ghost var s := ids[1..ids[0]+1];
    while 0 < n
      invariant 0 <= base && 0 <= n && base + n <= |s| && 1 <= cursor <= |s| + 1
      invariant forall i :: 0 <= i < base ==> s[i] > id
      invariant forall i :: base + n <= i < |s| ==> s[i] < id
      invariant n == 0 ==> cursor + (if val > 0 then 1 else 0) == base + 1
      decreases n
    {
      var pivot := n / 2;
      cursor := base + pivot + 1;
      val := if ids[cursor] < id then -1 else if ids[cursor] > id then 1 else 0;
      assert s[cursor-1] == ids[cursor];
      if val < 0 {
        n := pivot;
      } else if val > 0 {
        base := cursor;
        n := n - (pivot + 1);
      } else {
        return cursor;
      }
    }
    x := if val > 0 then cursor + 1 else cursor;
  }

  // ---- mdb_midl_xmerge ----

  /**
   * W holds, in order, what has been placed when i IDs of M and j of A are still to be placed; the low ends of
   * both lists come first.
   */
  ghost predicate Merged(W: seq<nat>, A: seq<nat>, M: seq<nat>, i: nat, j: nat) {
    && i <= |M| && j <= |A| && |W| == |A| - j + |M| - i
    && Desc(W) && multiset(W) == multiset(A[j..]) + multiset(M[i..])
    && (W != [] && j > 0 ==> W[0] < A[j-1]) && (W != [] && i > 0 ==> W[0] < M[i-1])
  }

  lemma DescCons(x: nat, W: seq<nat>)
    requires Desc(W) && (W != [] ==> W[0] < x)
    ensures Desc([x] + W) && multiset([x] + W) == multiset{x} + multiset(W)
  {
    forall i, j | 0 <= i < j < |[x] + W| ensures ([x] + W)[i] > ([x] + W)[j] {
      if i == 0 && j > 1 { assert W[0] > W[j-1]; }
    }
  }

  lemma Shuffle(x: multiset<nat>, a: multiset<nat>, m: multiset<nat>)
    ensures x + (a + m) == a + (x + m) && x + (a + m) == (x + a) + m
  {
  }

  lemma SuffixStep(s: seq<nat>, j: nat)
    requires 0 < j <= |s|
    ensures multiset(s[j-1..]) == multiset{s[j-1]} + multiset(s[j..])
  {
    assert s[j-1..] == [s[j-1]] + s[j..];
  }

  lemma FromOld(W: seq<nat>, A: seq<nat>, M: seq<nat>, i: nat, j: nat)
    requires Merged(W, A, M, i, j) && Desc(A) && j > 0 && i > 0 && A[j-1] < M[i-1]
    ensures Merged([A[j-1]] + W, A, M, i, j - 1)
  {
    hide Desc;
    DescCons(A[j-1], W);
    SuffixStep(A, j);
    if j > 1 { DescAt(A, j - 2, j - 1); }
    Shuffle(multiset{A[j-1]}, multiset(A[j..]), multiset(M[i..]));
  }

  lemma FromMerge(W: seq<nat>, A: seq<nat>, M: seq<nat>, i: nat, j: nat)
    requires Merged(W, A, M, i, j) && Desc(M) && i > 0 && (j > 0 ==> A[j-1] > M[i-1])
    ensures Merged([M[i-1]] + W, A, M, i - 1, j)
  {
    hide Desc;
    DescCons(M[i-1], W);
    SuffixStep(M, i);
    if i > 1 { DescAt(M, i - 2, i - 1); }
    Shuffle(multiset{M[i-1]}, multiset(A[j..]), multiset(M[i..]));
  }

  lemma DescAt(s: seq<nat>, i: nat, j: nat)
    requires Desc(s) && i < j < |s|
    ensures s[i] > s[j]
  {
  }

  lemma Joined(a: seq<nat>, b: seq<nat>)
    requires Desc(a) && Desc(b) && (a != [] && b != [] ==> b[0] < a[|a|-1])
    ensures Desc(a + b)
  {
    forall i, j | 0 <= i < j < |a + b| ensures (a + b)[i] > (a + b)[j] {
      if i < |a| <= j {
        assert a[i] >= a[|a|-1] && b[0] >= b[j-|a|];
      }
    }
  }

  lemma MergeDone(W: seq<nat>, A: seq<nat>, M: seq<nat>, j: nat)
    requires Merged(W, A, M, 0, j) && Desc(A)
    ensures Desc(A[..j] + W) && multiset(A[..j] + W) == multiset(A) + multiset(M) && j + |W| == |A| + |M|
  {
    DescPrefix(A, j);
    hide Desc;
    Joined(A[..j], W);
    PrefixBags(A, j, W, M);
  }

  lemma DescPrefix(A: seq<nat>, j: nat)
    requires Desc(A) && j <= |A|
    ensures Desc(A[..j])
  {
  }

  lemma PrefixBags(A: seq<nat>, j: nat, W: seq<nat>, M: seq<nat>)
    requires j <= |A| && multiset(W) == multiset(A[j..]) + multiset(M[0..])
    ensures multiset(A[..j] + W) == multiset(A) + multiset(M)
  {
    assert A == A[..j] + A[j..] && M[0..] == M;
    assert multiset(A) == multiset(A[..j]) + multiset(A[j..]);
  }

  /** The array while merging: j IDs of A in their old places, a gap of i, and the placed ones. */
  ghost predicate Holds(s: seq<nat>, A: seq<nat>, W: seq<nat>, i: nat, j: nat) {
    && j <= |A| && i + j + |W| < |s|
    && (forall x :: 0 <= x < j ==> s[x+1] == A[x])
    && (forall x :: 0 <= x < |W| ==> s[x+(i+j+1)] == W[x])
  }

  lemma HoldsStep(s: seq<nat>, A: seq<nat>, W: seq<nat>, i: nat, j: nat, x: nat, i': nat, j': nat)
    requires Holds(s, A, W, i, j) && i + j > 0 && i' + j' == i + j - 1 && j' <= j
    ensures Holds(s[i+j := x], A, [x] + W, i', j')
  {
    var u, V, k := s[i+j := x], [x] + W, i' + j' + 1;
    forall y | 0 <= y < |V| ensures u[y+k] == V[y] {
      if y > 0 { assert s[y-1+(i+j+1)] == W[y-1]; }
    }
  }

  /**
   * Merges the list at offset o of m into the list a.  The two may share their array, as the list of loose
   * pages does at the tail of me_pghead, if it lies beyond the room the merged list takes.
   */
  method Xmerge(a: array<nat>, m: array<nat>, o: nat)
    requires a.Length > 0 && o < m.Length && o + m[o] < m.Length && a[0] + m[o] < a.Length
    requires a == m ==> a[0] + m[o] < o
    requires Desc(a[1..a[0]+1]) && Desc(m[o+1..o+1+m[o]]) && multiset(a[1..a[0]+1]) !! multiset(m[o+1..o+1+m[o]])
    requires forall i :: o < i <= o + m[o] ==> m[i] <= MAX_ID
    modifies a
    ensures a[0] == old(a[0] + m[o]) && Desc(a[1..a[0]+1])
    ensures multiset(a[1..a[0]+1]) == old(multiset(a[1..a[0]+1]) + multiset(m[o+1..o+1+m[o]]))
    ensures forall i :: a[0] < i < a.Length ==> a[i] == old(a[i])
  {
    hide Desc, Merged, Holds;
    ghost var A, M := a[1..a[0]+1], m[o+1..o+1+m[o]];
    var i, j := m[o], a[0];
    var total := i + j;
    a[0] := MAX_ID;
    assert a[1..j+1] == A;
    ghost var W;
    j, W := MergeAll(a, m, o, i, j, A, M);
    MergeDone(W, A, M, j);
    ghost var was := a[..];
    a[0] := total;
    assert a[..][0 := MAX_ID] == was;
    ListOf(a[..], A, W, j, total);
    assert a[1..total+1] == A[..j] + W;
  }

  /** The outer loop: every ID of the other list finds its place. */
  method MergeAll(a: array<nat>, m: array<nat>, o: nat, i0: nat, j0: nat, ghost A: seq<nat>, ghost M: seq<nat>)
    returns (j: nat, ghost W: seq<nat>)
    requires i0 == |M| && j0 == |A| && |A| + |M| < a.Length && o + |M| < m.Length && (a == m ==> |A| + |M| < o)
    requires a[0] == MAX_ID && a[1..j0+1] == A && (forall x :: 0 <= x < |M| ==> m[o+x+1] == M[x] <= MAX_ID)
    requires Desc(A) && Desc(M) && multiset(A) !! multiset(M)
    modifies a
    ensures j <= |A| && a[0] == MAX_ID && Merged(W, A, M, 0, j) && Holds(a[..], A, W, 0, j)
    ensures forall x :: |A| + |M| < x < a.Length ==> a[x] == old(a[x])
  {
    hide Desc, Merged, Holds;
    var i, k := i0, i0 + j0;
    j, W := j0, [];
    MergeStart(a[..], A, M);
    var oldId := a[j];
    while i > 0
      invariant 0 <= i <= |M| && j <= |A| && k == i + j && Merged(W, A, M, i, j) && Holds(a[..], A, W, i, j)
      invariant a[0] == MAX_ID && oldId == a[j]
      invariant forall x :: |A| + |M| < x < a.Length ==> a[x] == old(a[x])
      invariant forall x :: 0 <= x < |M| ==> m[o+x+1] == M[x]
    {
      var mergeId := m[o+i];
      assert mergeId == m[o+(i-1)+1];
      j, k, oldId, W := ShiftLower(a, i, j, mergeId, A, M, W);
      OldAt(a[..], A, W, i, j);
      NotBoth(A, M, i, j);
      FromMerge(W, A, M, i, j);
      HoldsStep(a[..], A, W, i, j, mergeId, i - 1, j);
      W := [mergeId] + W;
      ghost var was := a[..];
      a[k] := mergeId;
      assert a[..] == was[k := mergeId];
      k, i := k - 1, i - 1;
    }
  }

  /** The inner loop: IDs of the list that are lower than the one to be placed move up. */
  method ShiftLower(a: array<nat>, i: nat, j0: nat, mergeId: nat, ghost A: seq<nat>, ghost M: seq<nat>,
                    ghost W0: seq<nat>)
    returns (j: nat, k: nat, oldId: nat, ghost W: seq<nat>)
    requires 0 < i <= |M| && j0 <= |A| && |A| + |M| < a.Length && a[0] == MAX_ID && mergeId == M[i-1] <= MAX_ID
    requires Desc(A) && Merged(W0, A, M, i, j0) && Holds(a[..], A, W0, i, j0)
    modifies a
    ensures j <= |A| && k == i + j && a[0] == MAX_ID && oldId == a[j] >= mergeId
    ensures Merged(W, A, M, i, j) && Holds(a[..], A, W, i, j)
    ensures forall x :: |A| + |M| < x < a.Length ==> a[x] == old(a[x])
  {
    hide Desc, Merged, Holds;
    j, k, oldId, W := j0, i + j0, a[j0], W0;
    while oldId < mergeId
      invariant j <= |A| && k == i + j && Merged(W, A, M, i, j) && Holds(a[..], A, W, i, j)
      invariant a[0] == MAX_ID && oldId == a[j]
      invariant forall x :: |A| + |M| < x < a.Length ==> a[x] == old(a[x])
      decreases j
    {
      OldAt(a[..], A, W, i, j);
      FromOld(W, A, M, i, j);
      HoldsStep(a[..], A, W, i, j, oldId, i, j - 1);
      W := [oldId] + W;
      ghost var was := a[..];
      a[k] := oldId;
      assert a[..] == was[k := oldId];
      k, j := k - 1, j - 1;
      oldId := a[j];
    }
  }

  lemma MergeStart(s: seq<nat>, A: seq<nat>, M: seq<nat>)
    requires |A| + |M| < |s| && s[1..|A|+1] == A
    ensures Merged([], A, M, |M|, |A|) && Holds(s, A, [], |M|, |A|)
  {
    assert A[|A|..] == [] && M[|M|..] == [];
    forall x | 0 <= x < |A| ensures s[x+1] == A[x] { assert s[1..|A|+1][x] == A[x]; }
  }

  lemma ListOf(s: seq<nat>, A: seq<nat>, W: seq<nat>, j: nat, total: nat)
    requires |s| > 0 && j <= |A| && total == j + |W| < |s| && Holds(s[0 := MAX_ID], A, W, 0, j)
    ensures s[1..total+1] == A[..j] + W
  {
    var u := s[0 := MAX_ID];
    forall x | 0 <= x < total ensures s[1..total+1][x] == (A[..j] + W)[x] {
      assert s[x+1] == u[x+1];
      if x >= j { assert u[(x-j)+(0+j+1)] == W[x-j]; }
    }
  }

  lemma OldAt(s: seq<nat>, A: seq<nat>, W: seq<nat>, i: nat, j: nat)
    requires Holds(s, A, W, i, j)
    ensures j > 0 ==> s[j] == A[j-1]
  {
    if j > 0 {
      assert s[(j-1)+1] == A[j-1];
    }
  }

  lemma NotBoth(A: seq<nat>, M: seq<nat>, i: nat, j: nat)
    requires multiset(A) !! multiset(M) && 0 < i <= |M| && j <= |A|
    ensures j > 0 ==> A[j-1] != M[i-1]
  {
    if j > 0 {
      assert A[j-1] in multiset(A) && M[i-1] in multiset(M);
    }
  }

  // ---- Contiguous ranges in me_pghead ----

  ghost predicate IsList(ids: array<nat>)
    reads ids
  {
    ids.Length > 0 && ids[0] < ids.Length
  }

  ghost function ListIn(ids: array<nat>): seq<nat>
    requires IsList(ids)
    reads ids
  {
    ids[1..ids[0]+1]
  }

  /** All of pg .. pg + num - 1 are in the list. */
  ghost predicate HasRun(s: seq<nat>, pg: nat, num: nat) {
    forall x :: pg <= x < pg + num ==> x in s
  }

  ghost predicate NoRun(s: seq<nat>, num: nat) {
    forall pg :: !HasRun(s, pg, num)
  }

  lemma {:induction false} DescGap(s: seq<nat>, i: nat, d: nat)
    requires Desc(s) && d <= i < |s|
    ensures s[i-d] >= s[i] + d
  {
    if d > 0 { DescGap(s, i, d - 1); }
  }

  /** If the IDs n apart in position are n apart in value, all in between are there. */
  lemma TwoEndpoints(s: seq<nat>, i: nat, n: nat, d: nat)
    requires Desc(s) && n <= i < |s| && s[i-n] == s[i] + n && d <= n
    ensures s[i-d] == s[i] + d
  {
    DescGap(s, i, d);
    DescGap(s, i - d, n - d);
  }

  /** If all of them are there, they stand together. */
  lemma {:induction false} RunTogether(s: seq<nat>, pg: nat, n: nat, i: nat)
    requires Desc(s) && i < |s| && s[i] == pg && HasRun(s, pg, n + 1)
    ensures n <= i && s[i-n] == pg + n
  {
    if n > 0 {
      RunTogether(s, pg, n - 1, i);
      assert pg + n in s;
      var j :| 0 <= j < |s| && s[j] == pg + n;
      assert j <= i - n;
      assert s[i-n] > s[i-(n-1)];
    }
  }

  lemma RunAt(s: seq<nat>, i: nat, num: nat)
    requires Desc(s) && 0 < num <= i <= |s| && s[i-num] == s[i-1] + num - 1
    ensures s[i-num..i] == Run(s[i-1], num)
  {
    forall k | i - num <= k < i ensures s[k] == s[i-1] + (i - 1 - k) {
      TwoEndpoints(s, i - 1, num - 1, i - 1 - k);
    }
  }

  lemma NoRunAnywhere(s: seq<nat>, num: nat)
    requires Desc(s) && 0 < num && forall i :: num <= i <= |s| ==> !EndsRun(s, i, num)
    ensures NoRun(s, num)
  {
    forall pg ensures !HasRun(s, pg, num) {
      if HasRun(s, pg, num) {
        assert pg in s;
        var i :| 0 <= i < |s| && s[i] == pg;
        RunTogether(s, pg, num - 1, i);
        assert EndsRun(s, i + 1, num);
      }
    }
  }

  /** A run of num IDs starts at pg, and none at a lower ID. */
  ghost predicate Lowest(s: seq<nat>, pg: nat, num: nat) {
    HasRun(s, pg, num) && forall x: nat :: HasRun(s, x, num) ==> pg <= x
  }

  lemma LowestRun(s: seq<nat>, i: nat, num: nat)
    requires Desc(s) && 0 < num <= i <= |s| && EndsRun(s, i, num)
    requires forall k :: i < k <= |s| ==> !EndsRun(s, k, num)
    ensures Lowest(s, s[i-1], num)
  {
    RunAt(s, i, num);
    var r := Run(s[i-1], num);
    forall x: nat | s[i-1] <= x < s[i-1] + num ensures x in s {
      assert s[i-num..i] == r && r[s[i-1] + num - 1 - x] == x;
    }
    forall x: nat | HasRun(s, x, num) ensures s[i-1] <= x {
      assert x in s;
      var j :| 0 <= j < |s| && s[j] == x;
      RunTogether(s, x, num - 1, j);
      assert EndsRun(s, j + 1, num);
    }
  }

  ghost predicate EndsRun(s: seq<nat>, i: nat, num: nat)
    requires 0 < num <= i <= |s|
  {
    s[i-num] == s[i-1] + num - 1
  }

  /** The num IDs up to position i are consecutive. */
  ghost predicate RunEndsAt(mop: array<nat>, i: nat, num: nat)
    reads mop
  {
    IsList(mop) && 0 < num <= i <= mop[0] && ListIn(mop)[i-num..i] == Run(mop[i], num)
  }

  /** Looks for num consecutive IDs from the tail on; 0 says there are none. */
  method FindRun(mop: array<nat>, num: nat) returns (i: nat)
    requires IsList(mop) && Desc(ListIn(mop)) && num > 0
    ensures i > 0 ==> RunEndsAt(mop, i, num) && Lowest(ListIn(mop), mop[i], num)
    ensures i == 0 ==> NoRun(ListIn(mop), num)
  {
    hide ListIn, Run, Desc, EndsRun;
    ghost var s := ListIn(mop);
    var n2, len := num - 1, mop[0];
    ListSize(mop);
    if len > n2 {
      i := len;
      while i > n2
        invariant n2 <= i <= len
        invariant forall k :: i < k <= len ==> !EndsRun(s, k, num)
      {
        var pgno := mop[i];
        ListAt(mop, i);
        ListAt(mop, i - n2);
        RunEnds(s, i, num);
        if mop[i-n2] == pgno + n2 {
          RunAt(s, i, num);
          LowestRun(s, i, num);
          return;
        }
        i := i - 1;
      }
    }
    i := 0;
    NoRunAnywhere(s, num);
  }

  lemma ListSize(ids: array<nat>)
    requires IsList(ids)
    ensures |ListIn(ids)| == ids[0]
  {
  }

  lemma ListAt(ids: array<nat>, i: nat)
    requires IsList(ids) && 1 <= i <= ids[0]
    ensures |ListIn(ids)| == ids[0] && ListIn(ids)[i-1] == ids[i]
  {
  }

  lemma RunEnds(s: seq<nat>, i: nat, num: nat)
    requires 0 < num <= i <= |s|
    ensures EndsRun(s, i, num) <==> s[i-num] == s[i-1] + num - 1
  {
  }

  /** s without the num IDs that end at position i. */
  ghost function WithoutRun(s: seq<nat>, i: nat, num: nat): seq<nat>
    requires num <= i <= |s|
  {
    s[..i-num] + s[i..]
  }

  /** Takes the num IDs that end at position i out of the list; those after them move down. */
  method RemoveRun(mop: array<nat>, i0: nat, num: nat)
    requires IsList(mop) && 0 < num <= i0 <= mop[0]
    modifies mop
    ensures IsList(mop) && ListIn(mop) == WithoutRun(old(ListIn(mop)), i0, num)
  {
    ghost var s := ListIn(mop);
    var len := mop[0] - num;
    mop[0] := len;
    var i, j := i0, i0 - num;
    while j < len
      invariant i0 - num <= j <= len && i == j + num
      invariant mop[0] == len
      invariant forall k :: 1 <= k <= i0 - num ==> mop[k] == s[k-1]
      invariant forall k :: i0 - num < k <= j ==> mop[k] == s[k+num-1]
      invariant forall k :: i < k <= len + num ==> mop[k] == s[k-1]
    {
      j, i := j + 1, i + 1;
      mop[j] := mop[i];
    }
    forall k | 0 <= k < len ensures ListIn(mop)[k] == WithoutRun(s, i0, num)[k] {
      assert ListIn(mop)[k] == mop[k+1];
    }
  }

  lemma RemovedRun(s: seq<nat>, i: nat, num: nat)
    requires Desc(s) && 0 < num <= i <= |s|
    ensures Desc(WithoutRun(s, i, num))
    ensures multiset(s) == multiset(WithoutRun(s, i, num)) + multiset(s[i-num..i])
  {
    assert s == s[..i-num] + s[i-num..i] + s[i..];
  }

  /** The place of a run in a descending list that has none of its IDs. */
  ghost predicate RunPlace(s: seq<nat>, pg: nat, n: nat, p: nat) {
    p <= |s| && (forall k :: 0 <= k < p ==> s[k] >= pg + n) && (forall k :: p <= k < |s| ==> s[k] < pg)
  }

  /** mdb_ovpage_free: the pages of an overflow run go back into me_pghead. */
  method InsertRun(mop: array<nat>, pg: nat, n: nat) returns (ghost p: nat)
    requires IsList(mop) && mop[0] + n < mop.Length && Desc(ListIn(mop))
    requires forall x :: pg <= x < pg + n ==> x !in ListIn(mop)
    modifies mop
    ensures IsList(mop) && RunPlace(old(ListIn(mop)), pg, n, p)
    ensures ListIn(mop) == old(ListIn(mop)[..p]) + Run(pg, n) + old(ListIn(mop)[p..])
  {
    ghost var s := ListIn(mop);
    var i := MakeGap(mop, pg, n, s);
    p := i;
    PlaceFound(s, pg, n, i);
    FillGap(mop, pg, n, i, s);
    mop[0] := mop[0] + n;
    RunInserted(mop[..], s, pg, n, i);
  }

  /** Lower IDs move up by n. */
  method MakeGap(mop: array<nat>, pg: nat, n: nat, ghost s: seq<nat>) returns (i: nat)
    requires IsList(mop) && mop[0] + n < mop.Length && s == ListIn(mop)
    modifies mop
    ensures i <= |s| && mop[0] == |s| && (i > 0 ==> s[i-1] >= pg) && forall k :: i <= k < |s| ==> s[k] < pg
    ensures forall k :: 1 <= k <= i ==> mop[k] == s[k-1]
    ensures forall k :: i + n < k <= |s| + n ==> mop[k] == s[k-n-1]
  {
    i := mop[0];
    var j := mop[0] + n;
    while i > 0 && mop[i] < pg
      invariant 0 <= i <= |s| && j == i + n && mop[0] == |s|
      invariant forall k :: 1 <= k <= i ==> mop[k] == s[k-1]
      invariant forall k :: i + n < k <= |s| + n ==> mop[k] == s[k-n-1]
      invariant forall k :: i <= k < |s| ==> s[k] < pg
    {
      mop[j] := mop[i];
      j, i := j - 1, i - 1;
    }
  }

  /** The run goes into the gap, lowest ID last. */
  method FillGap(mop: array<nat>, pg: nat, n: nat, i: nat, ghost s: seq<nat>)
    requires i <= |s| && |s| + n < mop.Length && mop[0] == |s|
    requires forall k :: 1 <= k <= i ==> mop[k] == s[k-1]
    requires forall k :: i + n < k <= |s| + n ==> mop[k] == s[k-n-1]
    modifies mop
    ensures mop[0] == |s|
    ensures forall k :: 1 <= k <= i ==> mop[k] == s[k-1]
    ensures forall k :: i < k <= i + n ==> mop[k] == pg + (i + n - k)
    ensures forall k :: i + n < k <= |s| + n ==> mop[k] == s[k-n-1]
  {
    var j, next := i + n, pg;
    while j > i
      invariant i <= j <= i + n && next == pg + (i + n - j) && mop[0] == |s|
      invariant forall k :: 1 <= k <= i ==> mop[k] == s[k-1]
      invariant forall k :: j < k <= i + n ==> mop[k] == pg + (i + n - k)
      invariant forall k :: i + n < k <= |s| + n ==> mop[k] == s[k-n-1]
    {
      mop[j] := next;
      j, next := j - 1, next + 1;
    }
  }

  lemma PlaceFound(s: seq<nat>, pg: nat, n: nat, i: nat)
    requires Desc(s) && i <= |s| && (i > 0 ==> s[i-1] >= pg) && (forall k :: i <= k < |s| ==> s[k] < pg)
    requires forall x :: pg <= x < pg + n ==> x !in s
    ensures RunPlace(s, pg, n, i)
  {
    forall k | 0 <= k < i ensures s[k] >= pg + n {
      assert s[k] >= s[i-1];
      assert s[k] in s;
    }
  }

  lemma RunInserted(m: seq<nat>, s: seq<nat>, pg: nat, n: nat, i: nat)
    requires i <= |s| && |s| + n < |m| && m[0] == |s| + n
    requires forall k :: 1 <= k <= i ==> m[k] == s[k-1]
    requires forall k :: i < k <= i + n ==> m[k] == pg + (i + n - k)
    requires forall k :: i + n < k <= |s| + n ==> m[k] == s[k-n-1]
    ensures m[1..m[0]+1] == s[..i] + Run(pg, n) + s[i..]
  {
  }

  /** The list stays in order and gains exactly the run. */
  lemma InsertedRun(s: seq<nat>, pg: nat, n: nat, p: nat)
    requires Desc(s) && RunPlace(s, pg, n, p)
    ensures Desc(s[..p] + Run(pg, n) + s[p..])
    ensures multiset(s[..p] + Run(pg, n) + s[p..]) == multiset(s) + multiset(Run(pg, n))
  {
    hide Desc, Run, RunPlace;
    InsertedDesc(s, pg, n, p);
    Bags(s[..p], Run(pg, n), s[p..]);
    assert s == s[..p] + s[p..];
  }

  lemma InsertedDesc(s: seq<nat>, pg: nat, n: nat, p: nat)
    requires Desc(s) && RunPlace(s, pg, n, p)
    ensures p <= |s| && Desc(s[..p] + Run(pg, n) + s[p..])
  {
    hide Desc, Run;
    var a, r, b := s[..p], Run(pg, n), s[p..];
    DescParts(s, p);
    RunDesc(pg, n);
    assert a != [] ==> a[|a|-1] == s[p-1];
    assert b != [] ==> b[0] == s[p];
    Joined(a, r);
    if r == [] {
      if a != [] && b != [] { DescAt(s, p - 1, p); }
      assert a + r == a;
    } else {
      assert (a + r)[|a + r| - 1] == r[|r|-1];
    }
    Joined(a + r, b);
  }

  lemma DescParts(s: seq<nat>, p: nat)
    requires Desc(s) && p <= |s|
    ensures Desc(s[..p]) && Desc(s[p..])
  {
  }

  lemma RunDesc(pg: nat, n: nat)
    ensures Desc(Run(pg, n)) && (n > 0 ==> Run(pg, n)[0] == pg + n - 1 && Run(pg, n)[n-1] == pg)
  {
  }

  lemma Bags(a: seq<nat>, r: seq<nat>, b: seq<nat>)
    ensures multiset(a + r + b) == multiset(a + b) + multiset(r)
  {
  }

  // ---- Room ----

  /** mdb_midl_alloc */
  method Alloc(num: nat) returns (ids: array<nat>)
    ensures fresh(ids) && ids.Length == num + 1 && IsList(ids) && ListIn(ids) == []
  {
    ids := new nat[num + 1];
    ids[0] := 0;
  }

  /** A larger copy (realloc). */
  method Resize(ids: array<nat>, room: nat) returns (r: array<nat>)
    requires IsList(ids) && ids[0] <= room
    ensures fresh(r) && r.Length == room + 1 && IsList(r) && ListIn(r) == ListIn(ids)
  {
    r := new nat[room + 1];
    var i := 0;
    while i <= ids[0]
      invariant i <= ids[0] + 1
      invariant forall k :: 0 <= k < i ==> r[k] == ids[k]
    {
      r[i] := ids[i];
      i := i + 1;
    }
  }

  /** mdb_midl_need: room for num more, rounded to a multiple of 256 words. */
  method Need(ids: array<nat>, num: nat) returns (r: array<nat>)
    requires IsList(ids)
    ensures (r == ids || fresh(r)) && IsList(r) && ListIn(r) == ListIn(ids) && r[0] + num < r.Length
  {
    r := ids;
    var total := num + ids[0];
    if total > ids.Length - 1 {
      var words := total + total / 4 + (256 + 2);
      words := words - words % 256;
      r := Resize(ids, words - 2);
    }
  }

  /** mdb_midl_append */
  method Append(ids: array<nat>, id: nat) returns (r: array<nat>)
    requires IsList(ids)
    modifies ids
    ensures (r == ids || fresh(r)) && IsList(r) && ListIn(r) == old(ListIn(ids)) + [id]
  {
    r := ids;
    if ids[0] >= ids.Length - 1 {
      r := Resize(ids, ids.Length - 1 + UM_MAX);
    }
    r[0] := r[0] + 1;
    r[r[0]] := id;
  }

  /** n | MDB_IDL_UM_MAX */
  function OrUmMax(n: nat): (r: nat)
    ensures r >= n && r >= UM_MAX
  {
    n - n % (UM_MAX + 1) + UM_MAX
  }

  lemma ListElements(ids: array<nat>)
    requires IsList(ids)
    ensures |ListIn(ids)| == ids[0] && forall x :: 1 <= x <= ids[0] ==> ids[x] == ListIn(ids)[x-1]
  {
  }

  lemma ListIs(ids: array<nat>)
    requires IsList(ids)
    ensures ListIn(ids) == ids[..][1..ids[0]+1]
  {
  }

  lemma Appended(m: seq<nat>, s: seq<nat>, t: seq<nat>)
    requires |s| + |t| < |m| && forall x :: 1 <= x <= |s| ==> m[x] == s[x-1]
    requires forall x :: |s| < x <= |s| + |t| ==> m[x] == t[x-|s|-1]
    ensures m[1..|s|+|t|+1] == s + t
  {
  }

  /** mdb_midl_append_range */
  method AppendRange(ids: array<nat>, id: nat, n: nat) returns (r: array<nat>)
    requires IsList(ids)
    modifies ids
    ensures (r == ids || fresh(r)) && IsList(r) && ListIn(r) == old(ListIn(ids)) + Run(id, n)
  {
    ghost var s := ListIn(ids);
    r := ids;
    var len := ids[0];
    if len + n > ids.Length - 1 {
      r := Resize(ids, ids.Length - 1 + OrUmMax(n));
    }
    assert ListIn(r) == s;
    r[0] := len + n;
    var k, next := n, id;
    while k > 0
      invariant 0 <= k <= n && next == id + (n - k) && r[0] == len + n
      invariant forall x :: 1 <= x <= len ==> r[x] == s[x-1]
      invariant forall x :: len + k < x <= len + n ==> r[x] == id + (len + n - x)
    {
      r[len + k] := next;
      k, next := k - 1, next + 1;
    }
    Appended(r[..], s, Run(id, n));
  }

  /** mdb_midl_append_list */
  method AppendList(ids: array<nat>, app: array<nat>) returns (r: array<nat>)
    requires IsList(ids) && IsList(app) && ids != app
    modifies ids
    ensures (r == ids || fresh(r)) && IsList(r) && ListIn(r) == old(ListIn(ids) + ListIn(app))
  {
    hide ListIn;
    ghost var s, t := ListIn(ids), ListIn(app);
    ListElements(ids);
    ListElements(app);
    r := ids;
    if ids[0] + app[0] >= ids.Length - 1 {
      r := Resize(ids, ids.Length - 1 + app[0]);
    }
    ListElements(r);
    assert ListIn(r) == s && r != app && |s| + |t| < r.Length;
    var len, i := r[0], 0;
    while i < app[0]
      invariant i <= app[0] && r[0] == len && app[0] == |t| && forall x :: 1 <= x <= |t| ==> app[x] == t[x-1]
      invariant forall x :: 1 <= x <= len ==> r[x] == s[x-1]
      invariant forall x :: len < x <= len + i ==> r[x] == t[x-len-1]
    {
      r[len + i + 1] := app[i + 1];
      i := i + 1;
    }
    r[0] := len + app[0];
    Appended(r[..], s, t);
    ListIs(r);
  }

  method FromSeq(s: seq<nat>) returns (ids: array<nat>)
    ensures fresh(ids) && IsList(ids) && ids.Length == |s| + 1 && ids[0] == |s| && ListIn(ids) == s
  {
    ids := new nat[|s| + 1];
    ids[0] := |s|;
    var i := 0;
    while i < |s|
      invariant i <= |s| && ids[0] == |s|
      invariant forall x :: 1 <= x <= i ==> ids[x] == s[x-1]
    {
      ids[i + 1] := s[i];
      i := i + 1;
    }
  }
}
