/**
 * Lists of dirty pages: arrays of (page number, page) in ascending order with the count in element 0, and how
 * mdb_txn_commit merges those of a nested transaction into its parent's, in place.
 */
module DirtyLists {
  import opened Common

  /** MDB_ID2: a page number and what the page holds. */
  datatype Id2 = Id2(mid: nat, page: nat)

  ghost predicate Asc(s: seq<Id2>) {
    forall i, j :: 0 <= i < j < |s| ==> s[i].mid < s[j].mid
  }

  ghost predicate IsList2(a: array<Id2>)
    reads a
  {
    a.Length > 0 && a[0].mid < a.Length
  }

  ghost function List2(a: array<Id2>): seq<Id2>
    requires IsList2(a)
    reads a
  {
    a[1..a[0].mid+1]
  }

  // ---- The map a list stands for ----

  ghost function ToPages(s: seq<Id2>): map<nat, nat> {
    if s == [] then map[] else ToPages(s[..|s|-1])[s[|s|-1].mid := s[|s|-1].page]
  }

  ghost predicate At(s: seq<Id2>, n: nat, i: nat) {
    i < |s| && s[i].mid == n
  }

  lemma {:induction false} PagesDomain(s: seq<Id2>, n: nat)
    ensures n in ToPages(s) <==> exists i: nat :: At(s, n, i)
  {
    if s != [] {
      var init := s[..|s|-1];
      PagesDomain(init, n);
      if n in ToPages(s) {
        if n == s[|s|-1].mid {
          assert At(s, n, |s| - 1);
        } else {
          var i: nat :| At(init, n, i);
          assert At(s, n, i);
        }
      }
      if i: nat :| At(s, n, i) {
        if i < |s| - 1 { assert At(init, n, i); }
      }
    }
  }

  lemma {:induction false} PagesValue(s: seq<Id2>, i: nat)
    requires Asc(s) && i < |s|
    ensures s[i].mid in ToPages(s) && ToPages(s)[s[i].mid] == s[i].page
  {
    if i < |s| - 1 { PagesValue(s[..|s|-1], i); }
  }

  lemma {:induction false} PagesCount(s: seq<Id2>)
    requires Asc(s)
    ensures |ToPages(s)| == |s|
  {
    if s != [] {
      var init, n := s[..|s|-1], s[|s|-1].mid;
      PagesCount(init);
      PagesDomain(init, n);
      assert n !in ToPages(init);
      assert ToPages(s).Keys == ToPages(init).Keys + {n};
      assert |ToPages(s).Keys| == |ToPages(s)| && |ToPages(init).Keys| == |ToPages(init)|;
    }
  }

  // ---- mdb_mid2l_search and mdb_mid2l_insert ----

  /** The first position from 1 on whose page number is not below id. */
  ghost predicate IsPosition2(s: seq<Id2>, id: nat, x: nat) {
    && 1 <= x <= |s| + 1
    && (forall i :: 0 <= i < x - 1 ==> s[i].mid < id)
    && (forall i :: x - 1 <= i < |s| ==> s[i].mid >= id)
  }

  method Search2(ids: array<Id2>, id: nat) returns (x: nat)
    requires IsList2(ids) && Asc(List2(ids))
    ensures IsPosition2(List2(ids), id, x)
  {
    var base, cursor, n, val := 0, 1, ids[0].mid, 0;
    ghost var s := List2(ids);
    while 0 < n
      invariant 0 <= base && 0 <= n && base + n <= |s| && 1 <= cursor <= |s| + 1
      invariant forall i :: 0 <= i < base ==> s[i].mid < id
      invariant forall i :: base + n <= i < |s| ==> s[i].mid > id
      invariant n == 0 ==> cursor + (if val > 0 then 1 else 0) == base + 1
      decreases n
    {
      var pivot := n / 2;
      cursor := base + pivot + 1;
      val := if id < ids[cursor].mid then -1 else if id > ids[cursor].mid then 1 else 0;
      assert s[cursor-1] == ids[cursor];
      if val < 0 {
        n := pivot;
      } else if val > 0 {
        base := cursor;
        n := n - (pivot + 1);
      } else {
        return cursor;
      }
    }
    x := if val > 0 then cursor + 1 else cursor;
  }

  datatype Inserted = Done | Duplicate | TooBig

  /** mdb_mid2l_insert: the entry goes to its place; those after it move up. */
  method Insert2(ids: array<Id2>, id: Id2) returns (rc: Inserted)
    requires IsList2(ids) && Asc(List2(ids)) && ids.Length > UM_MAX
    modifies ids
    ensures IsList2(ids) && Asc(List2(ids))
    ensures rc == Duplicate <==> exists i: nat :: At(old(List2(ids)), id.mid, i)
    ensures rc == TooBig <==> |old(List2(ids))| >= UM_MAX && !exists i: nat :: At(old(List2(ids)), id.mid, i)
    ensures rc == Done ==>
              var s := old(List2(ids)); exists x: nat :: x <= |s| && List2(ids) == s[..x] + [id] + s[x..]
    ensures rc != Done ==> List2(ids) == old(List2(ids))
  {
    hide List2, Asc, IsPosition2;
    ghost var s := List2(ids);
    var x := Search2(ids, id.mid);
    List2Size(ids);
    PlaceOf(s, id.mid, x);
    if x <= ids[0].mid {
      List2At(ids, x);
    }
    if x <= ids[0].mid && ids[x].mid == id.mid {
      assert At(s, id.mid, x - 1);
      return Duplicate;
    }
    if ids[0].mid >= UM_MAX {
      return TooBig;
    }
    OpenPlace(ids, x, id, s);
    AscInserted(s, id, x);
    rc := Done;
  }

  lemma PlaceOf(s: seq<Id2>, n: nat, x: nat)
    requires Asc(s) && IsPosition2(s, n, x)
    ensures 1 <= x <= |s| + 1
    ensures (exists i: nat :: At(s, n, i)) <==> x <= |s| && s[x-1].mid == n
  {
    if x <= |s| && s[x-1].mid == n { assert At(s, n, x - 1); }
  }

  lemma AscInserted(s: seq<Id2>, e: Id2, x: nat)
    requires Asc(s) && IsPosition2(s, e.mid, x) && !(x <= |s| && s[x-1].mid == e.mid)
    ensures Asc(s[..x-1] + [e] + s[x-1..])
  {
    var u := s[..x-1] + [e] + s[x-1..];
    assert forall i :: x <= i < |u| ==> u[i] == s[i-1];
    assert x <= |s| ==> s[x-1].mid > e.mid;
    assert forall i :: x - 1 <= i < |s| ==> s[i].mid > e.mid;
  }

  /** The loop of mdb_mid2l_insert. */
  method OpenPlace(ids: array<Id2>, x: nat, id: Id2, ghost s: seq<Id2>)
    requires IsList2(ids) && s == List2(ids) && 1 <= x <= ids[0].mid + 1 < ids.Length
    modifies ids
    ensures IsList2(ids) && List2(ids) == s[..x-1] + [id] + s[x-1..]
  {
    ids[0] := ids[0].(mid := ids[0].mid + 1);
    var n := ids[0].mid;
    var i := n;
    while i > x
      invariant x <= i <= n && ids[0].mid == n == |s| + 1
      invariant forall k :: 1 <= k < i ==> ids[k] == s[k-1]
      invariant forall k :: i < k <= n ==> ids[k] == s[k-2]
    {
      ids[i] := ids[i-1];
      i := i - 1;
    }
    ids[x] := id;
    Placed2(ids[..], s, id, x);
  }

  lemma Placed2(m: seq<Id2>, s: seq<Id2>, e: Id2, x: nat)
    requires 1 <= x <= |s| + 1 < |m| && m[x] == e
    requires (forall k :: 1 <= k < x ==> m[k] == s[k-1]) && (forall k :: x < k <= |s| + 1 ==> m[k] == s[k-2])
    ensures m[1..|s|+2] == s[..x-1] + [e] + s[x-1..]
  {
  }

  /** Takes the entry at position y out; those after it move down. */
  method Remove2(dst: array<Id2>, y0: nat)
    requires IsList2(dst) && 0 < y0 <= dst[0].mid
    modifies dst
    ensures IsList2(dst) && List2(dst) == old(List2(dst)[..y0-1] + List2(dst)[y0..])
  {
    ghost var s := List2(dst);
    var n := dst[0].mid;
    var y := y0;
    while y < n
      invariant y0 <= y <= n && dst[0] == old(dst[0])
      invariant forall k :: 1 <= k < y0 ==> dst[k] == s[k-1]
      invariant forall k :: y0 <= k < y ==> dst[k] == s[k]
      invariant forall k :: y < k <= n ==> dst[k] == s[k-1]
    {
      dst[y] := dst[y+1];
      y := y + 1;
    }
    dst[0] := dst[0].(mid := n - 1);
    forall k | 0 <= k < n - 1 ensures List2(dst)[k] == (s[..y0-1] + s[y0..])[k] {
      assert List2(dst)[k] == dst[k+1];
    }
  }

  // ---- Merging two dirty lists ----

  /** Both lists together, that of the child taking precedence. */
  ghost function Union(d: seq<Id2>, s: seq<Id2>): seq<Id2>
    decreases |d| + |s|
  {
    if s == [] then d
    else if d == [] then s
    else
      var a, b := d[|d|-1], s[|s|-1];
      if b.mid < a.mid then Union(d[..|d|-1], s) + [a]
      else if b.mid == a.mid then Union(d[..|d|-1], s[..|s|-1]) + [b]
      else Union(d, s[..|s|-1]) + [b]
  }

  ghost function Shared(d: seq<Id2>, s: seq<Id2>): nat
    decreases |d| + |s|
  {
    if s == [] || d == [] then 0
    else
      var a, b := d[|d|-1], s[|s|-1];
      if b.mid < a.mid then Shared(d[..|d|-1], s)
      else if b.mid == a.mid then Shared(d[..|d|-1], s[..|s|-1]) + 1
      else Shared(d, s[..|s|-1])
  }

  lemma {:induction false} UnionSize(d: seq<Id2>, s: seq<Id2>)
    ensures |Union(d, s)| + Shared(d, s) == |d| + |s|
    decreases |d| + |s|
  {
    if s != [] && d != [] {
      var a, b := d[|d|-1], s[|s|-1];
      if b.mid < a.mid { UnionSize(d[..|d|-1], s); }
      else if b.mid == a.mid { UnionSize(d[..|d|-1], s[..|s|-1]); }
      else { UnionSize(d, s[..|s|-1]); }
    }
  }

  ghost predicate BelowAll(s: seq<Id2>, n: nat) {
    forall i :: 0 <= i < |s| ==> s[i].mid < n
  }

  lemma AscSnoc(s: seq<Id2>, e: Id2)
    requires Asc(s) && BelowAll(s, e.mid)
    ensures Asc(s + [e])
  {
  }

  lemma AscInit(s: seq<Id2>)
    requires Asc(s) && s != []
    ensures Asc(s[..|s|-1]) && BelowAll(s[..|s|-1], s[|s|-1].mid)
  {
  }

  lemma {:induction false} UnionBelow(d: seq<Id2>, s: seq<Id2>, n: nat)
    requires BelowAll(d, n) && BelowAll(s, n)
    ensures BelowAll(Union(d, s), n)
    decreases |d| + |s|
  {
    if s != [] && d != [] {
      var a, b := d[|d|-1], s[|s|-1];
      if b.mid < a.mid { UnionBelow(d[..|d|-1], s, n); }
      else if b.mid == a.mid { UnionBelow(d[..|d|-1], s[..|s|-1], n); }
      else { UnionBelow(d, s[..|s|-1], n); }
    }
  }

  lemma AllBelow(s: seq<Id2>, n: nat)
    requires Asc(s) && (s != [] ==> s[|s|-1].mid < n)
    ensures BelowAll(s, n)
  {
  }

  lemma {:induction false} UnionAsc(d: seq<Id2>, s: seq<Id2>)
    requires Asc(d) && Asc(s)
    ensures Asc(Union(d, s))
    decreases |d| + |s|
  {
    if s != [] && d != [] {
      var a, b := d[|d|-1], s[|s|-1];
      AscInit(d);
      AscInit(s);
      hide Asc, BelowAll;
      if b.mid < a.mid {
        UnionAsc(d[..|d|-1], s);
        AllBelow(s, a.mid);
        UnionBelow(d[..|d|-1], s, a.mid);
        AscSnoc(Union(d[..|d|-1], s), a);
      } else if b.mid == a.mid {
        UnionAsc(d[..|d|-1], s[..|s|-1]);
        UnionBelow(d[..|d|-1], s[..|s|-1], b.mid);
        AscSnoc(Union(d[..|d|-1], s[..|s|-1]), b);
      } else {
        UnionAsc(d, s[..|s|-1]);
        AllBelow(d, b.mid);
        UnionBelow(d, s[..|s|-1], b.mid);
        AscSnoc(Union(d, s[..|s|-1]), b);
      }
    }
  }

  lemma PagesSnoc(s: seq<Id2>, e: Id2)
    ensures ToPages(s + [e]) == ToPages(s)[e.mid := e.page]
  {
    assert (s + [e])[..|s|] == s;
  }

  lemma NotBelow(s: seq<Id2>, n: nat)
    requires BelowAll(s, n)
    ensures n !in ToPages(s)
  {
    PagesDomain(s, n);
  }

  /** The merged list stands for the parent's map overridden by the child's. */
  lemma {:induction false} UnionPages(d: seq<Id2>, s: seq<Id2>)
    requires Asc(d) && Asc(s)
    ensures ToPages(Union(d, s)) == ToPages(d) + ToPages(s)
    decreases |d| + |s|
  {
    if s != [] && d != [] {
      var a, b := d[|d|-1], s[|s|-1];
      var d', s' := d[..|d|-1], s[..|s|-1];
      AscInit(d);
      AscInit(s);
      assert d == d' + [a] && s == s' + [b];
      PagesSnoc(d', a);
      PagesSnoc(s', b);
      hide Asc, BelowAll, ToPages;
      if b.mid < a.mid {
        UnionPages(d', s);
        PagesSnoc(Union(d', s), a);
        AllBelow(s, a.mid);
        NotBelow(s, a.mid);
        SetLeft(ToPages(d'), ToPages(s), a.mid, a.page);
      } else if b.mid == a.mid {
        UnionPages(d', s');
        PagesSnoc(Union(d', s'), b);
        SetBoth(ToPages(d'), ToPages(s'), b.mid, a.page, b.page);
      } else {
        UnionPages(d, s');
        PagesSnoc(Union(d, s'), b);
        SetRight(ToPages(d), ToPages(s'), b.mid, b.page);
      }
    }
  }

  lemma SetLeft(d: map<nat, nat>, s: map<nat, nat>, n: nat, v: nat)
    requires n !in s
    ensures (d + s)[n := v] == d[n := v] + s
  {
  }

  lemma SetBoth(d: map<nat, nat>, s: map<nat, nat>, n: nat, u: nat, v: nat)
    ensures (d + s)[n := v] == d[n := u] + s[n := v]
  {
  }

  lemma SetRight(d: map<nat, nat>, s: map<nat, nat>, n: nat, v: nat)
    ensures (d + s)[n := v] == d + s[n := v]
  {
  }

  /** The list d at the start of an array whose count was set to 0, to stop the scans. */
  ghost predicate Starts(m: seq<Id2>, d: seq<Id2>, x: nat) {
    x == |d| < |m| && m[0].mid == 0 && forall k :: 0 <= k < x ==> m[k+1] == d[k]
  }

  /** What the two loops of mdb_txn_commit see when x entries of d and y of s are left. */
  lemma UnionStep(d: seq<Id2>, s: seq<Id2>, x: nat, y: nat)
    requires 0 < y <= |s| && x <= |d|
    ensures var u := Union(d[..x], s[..y]);
            && (x > 0 && s[y-1].mid < d[x-1].mid ==> u == Union(d[..x-1], s[..y]) + [d[x-1]])
            && (x > 0 && s[y-1].mid == d[x-1].mid ==> u == Union(d[..x-1], s[..y-1]) + [s[y-1]])
            && ((x > 0 ==> s[y-1].mid > d[x-1].mid) ==> u == Union(d[..x], s[..y-1]) + [s[y-1]])
            && (x > 0 && s[y-1].mid < d[x-1].mid ==> Shared(d[..x], s[..y]) == Shared(d[..x-1], s[..y]))
            && (x > 0 && s[y-1].mid == d[x-1].mid ==> Shared(d[..x], s[..y]) == Shared(d[..x-1], s[..y-1]) + 1)
            && ((x > 0 ==> s[y-1].mid > d[x-1].mid) ==> Shared(d[..x], s[..y]) == Shared(d[..x], s[..y-1]))
  {
    assert s[..y][..y-1] == s[..y-1];
    if x > 0 { assert d[..x][..x-1] == d[..x-1]; }
    if x == 0 {
      assert d[..x] == [];
      assert s[..y] == s[..y-1] + [s[y-1]];
      assert Union([], s[..y]) == s[..y] && Union([], s[..y-1]) == s[..y-1];
    }
  }

  /** The array while merging: x entries of d where they were, then a gap, then what was placed. */
  ghost predicate Merging2(m: seq<Id2>, d: seq<Id2>, s: seq<Id2>, x: nat, y: nat, len: nat) {
    && x <= |d| && y <= |s| && len < |m| && x <= |Union(d[..x], s[..y])| <= len == |Union(d, s)|
    && (forall k :: 0 <= k < x ==> m[k+1] == d[k])
    && Union(d, s) == Union(d[..x], s[..y]) + m[|Union(d[..x], s[..y])|+1..len+1]
  }

  lemma Placed(m: seq<Id2>, d: seq<Id2>, s: seq<Id2>, x: nat, y: nat, len: nat, x': nat, y': nat, e: Id2)
    requires Merging2(m, d, s, x, y, len) && x' <= x && y' <= y
             && Union(d[..x], s[..y]) == Union(d[..x'], s[..y']) + [e]
    requires x' <= |Union(d[..x'], s[..y'])|
    ensures Merging2(m[|Union(d[..x'], s[..y'])| + 1 := e], d, s, x', y', len)
  {
    hide Union;
    var u := Union(d[..x'], s[..y']);
    SetBefore(m, |u| + 1, len + 1, e);
    assert u + ([e] + m[|u|+2..len+1]) == u + [e] + m[|u|+2..len+1];
  }

  lemma SetBefore(m: seq<Id2>, i: nat, n: nat, e: Id2)
    requires i < n <= |m|
    ensures m[i := e][i..n] == [e] + m[i+1..n]
  {
  }

  lemma {:induction false} UnionAtLeast(d: seq<Id2>, s: seq<Id2>)
    ensures |Union(d, s)| >= |d|
    decreases |d| + |s|
  {
    if s != [] && d != [] {
      var a, b := d[|d|-1], s[|s|-1];
      if b.mid < a.mid { UnionAtLeast(d[..|d|-1], s); }
      else if b.mid == a.mid { UnionAtLeast(d[..|d|-1], s[..|s|-1]); }
      else { UnionAtLeast(d, s[..|s|-1]); }
    }
  }

  /**
   * Merges src into dst from the high end, in place.  len is the length of the merged list; that it is exact is
   * what makes the two indices meet at the end.
   */
  method MergeInPlace(dst: array<Id2>, src: array<Id2>, x0: nat, len: nat, ghost d: seq<Id2>)
    requires dst != src && dst.Length > 0 && Starts(dst[..], d, x0) && IsList2(src) && len < dst.Length
    requires len == |Union(d, List2(src))| && forall k :: 1 <= k <= src[0].mid ==> src[k].mid > 0
    modifies dst
    ensures IsList2(dst) && List2(dst) == old(Union(d, List2(src)))
  {
    hide Merging2, Union, Starts, List2;
    ghost var s := List2(src);
    var x, y, i := x0, src[0].mid, len;
    StartsZero(dst[..], d, x0);
    List2Size(src);
    MergeStart2(dst[..], d, s, len);
    while y > 0
      invariant 0 <= x <= |d| && 0 <= y <= |s| && Merging2(dst[..], d, s, x, y, len) && i == |Union(d[..x], s[..y])|
      invariant dst[0].mid == 0 && src[..] == old(src[..])
      decreases y
    {
      List2At(src, y);
      x, i := ShiftUp(dst, x, y, i, src[y].mid, d, s, len);
      x, i := PlaceNext(dst, src[y], x, y, i, d, s, len);
      y := y - 1;
    }
    MergeEnd(dst[..], d, s, x, len);
    assert i == x;
    SetLength(dst, len);
  }

  lemma List2Size(a: array<Id2>)
    requires IsList2(a)
    ensures |List2(a)| == a[0].mid
  {
  }

  lemma List2At(a: array<Id2>, k: nat)
    requires IsList2(a) && 1 <= k <= a[0].mid
    ensures |List2(a)| == a[0].mid && List2(a)[k-1] == a[k]
  {
  }

  lemma StartsZero(m: seq<Id2>, d: seq<Id2>, x: nat)
    requires Starts(m, d, x)
    ensures x == |d| < |m| && m[0].mid == 0
  {
  }

  method SetLength(dst: array<Id2>, len: nat)
    requires len < dst.Length
    modifies dst
    ensures IsList2(dst) && List2(dst) == old(dst[..])[1..len+1]
  {
    dst[0] := dst[0].(mid := len);
    assert dst[1..len+1] == old(dst[..])[1..len+1];
  }

  /** The child's entry goes to its place; the parent's for the same page is dropped. */
  method PlaceNext(dst: array<Id2>, e: Id2, x0: nat, y: nat, i0: nat, ghost d: seq<Id2>, ghost s: seq<Id2>,
                   ghost len: nat)
    returns (x: nat, i: nat)
    requires 0 < y <= |s| && x0 <= |d| && e == s[y-1] && e.mid > 0 && x0 < dst.Length && dst[x0].mid <= e.mid
    requires Merging2(dst[..], d, s, x0, y, len) && i0 == |Union(d[..x0], s[..y])| && dst[0].mid == 0
    modifies dst
    ensures x <= x0 && Merging2(dst[..], d, s, x, y - 1, len) && i == |Union(d[..x], s[..y-1])| && dst[0].mid == 0
  {
    hide Merging2, Union;
    UnionStep(d, s, x0, y);
    EntryAt(dst[..], d, s, x0, y, len);
    Fits2(dst[..], d, s, x0, y, len);
    x := if e.mid == dst[x0].mid then x0 - 1 else x0;
    UnionAtLeast(d[..x], s[..y-1]);
    Placed(dst[..], d, s, x0, y, len, x, y - 1, e);
    ghost var was := dst[..];
    dst[i0] := e;
    assert dst[..] == was[i0 := e];
    i := i0 - 1;
  }

  lemma MergeStart2(m: seq<Id2>, d: seq<Id2>, s: seq<Id2>, len: nat)
    requires len == |Union(d, s)| < |m| && Starts(m, d, |d|)
    ensures Merging2(m, d, s, |d|, |s|, len) && |Union(d[..|d|], s[..|s|])| == len
  {
    UnionAtLeast(d, s);
    assert d[..|d|] == d && s[..|s|] == s;
    assert m[len+1..len+1] == [];
  }

  lemma EntryAt(m: seq<Id2>, d: seq<Id2>, s: seq<Id2>, x: nat, y: nat, len: nat)
    requires Merging2(m, d, s, x, y, len)
    ensures x > 0 ==> m[x] == d[x-1]
  {
    if x > 0 { assert m[(x-1)+1] == d[x-1]; }
  }

  /** With the child's list used up, what is left of the parent's is in place already. */
  lemma MergeEnd(m: seq<Id2>, d: seq<Id2>, s: seq<Id2>, x: nat, len: nat)
    requires Merging2(m, d, s, x, 0, len)
    ensures |Union(d[..x], s[..0])| == x && m[1..len+1] == Union(d, s)
  {
    assert s[..0] == [];
    assert Union(d[..x], []) == d[..x];
    assert m[1..x+1] == d[..x] by {
      forall k | 0 <= k < x ensures m[1..x+1][k] == d[..x][k] { assert m[k+1] == d[k]; }
    }
    assert m[1..len+1] == m[1..x+1] + m[x+1..len+1];
  }

  /** Entries of the parent that are higher than the child's next one move up. */
  method ShiftUp(dst: array<Id2>, x0: nat, y: nat, i0: nat, yp: nat, ghost d: seq<Id2>, ghost s: seq<Id2>,
                 ghost len: nat)
    returns (x: nat, i: nat)
    requires 0 < y <= |s| && x0 <= |d| && yp == s[y-1].mid && yp > 0
    requires Merging2(dst[..], d, s, x0, y, len) && i0 == |Union(d[..x0], s[..y])| && dst.Length > 0 && dst[0].mid == 0
    modifies dst
    ensures x <= x0 && Merging2(dst[..], d, s, x, y, len) && i == |Union(d[..x], s[..y])| && dst[0].mid == 0
    ensures x < dst.Length && dst[x].mid <= yp
  {
    hide Merging2, Union;
    x, i := x0, i0;
    Fits2(dst[..], d, s, x, y, len);
    while yp < dst[x].mid
      invariant x <= x0 && x < dst.Length && Merging2(dst[..], d, s, x, y, len) && i == |Union(d[..x], s[..y])|
                && dst[0].mid == 0
      decreases x
    {
      EntryAt(dst[..], d, s, x, y, len);
      UnionStep(d, s, x, y);
      UnionAtLeast(d[..x-1], s[..y]);
      Fits2(dst[..], d, s, x, y, len);
      Placed(dst[..], d, s, x, y, len, x - 1, y, d[x-1]);
      ghost var was := dst[..];
      dst[i] := dst[x];
      assert dst[..] == was[i := d[x-1]];
      i, x := i - 1, x - 1;
    }
  }

  lemma Fits2(m: seq<Id2>, d: seq<Id2>, s: seq<Id2>, x: nat, y: nat, len: nat)
    requires Merging2(m, d, s, x, y, len)
    ensures x <= |Union(d[..x], s[..y])| <= len < |m|
  {
  }

  lemma {:induction false} CommonTail(d: seq<Id2>, s: seq<Id2>, y: nat)
    requires Asc(d) && y <= |s| && forall k :: y <= k < |s| ==> BelowAll(d, s[k].mid)
    ensures Shared(d, s) == Shared(d, s[..y])
    decreases |s|
  {
    if y < |s| {
      var s' := s[..|s|-1];
      assert s'[..y] == s[..y];
      CommonTail(d, s', y);
    } else {
      assert s[..y] == s;
    }
  }

  /** The length of the merged list, counted by going through both lists from the high end. */
  method MergeLength(dst: array<Id2>, src: array<Id2>, x: nat, ghost d: seq<Id2>) returns (len: nat)
    requires dst.Length > 0 && Starts(dst[..], d, x) && Asc(d) && IsList2(src) && Asc(List2(src))
    requires forall k :: 1 <= k <= src[0].mid ==> src[k].mid > 0
    ensures len == |Union(d, List2(src))|
  {
    hide Union, Shared, Asc, Starts, List2;
    ghost var s := List2(src);
    List2Size(src);
    StartsZero(dst[..], d, x);
    UnionSize(d, s);
    var total := x + src[0].mid;
    LastAt(dst[..], d, x);
    var y := Search2(src, dst[x].mid + 1);
    y := y - 1;
    HighOnes(d, s, y);
    CommonTail(d, s, y);
    var i := x;
    assert d[..x] == d;
    while y > 0 && i > 0
      invariant 0 <= y <= |s| && 0 <= i <= x && total - Shared(d[..i], s[..y]) == |Union(d, s)|
      decreases y
    {
      List2At(src, y);
      i, total := CountOne(dst, src[y].mid, i, y, total, d, s, x);
      y := y - 1;
    }
    NoCommon(d[..i], s[..y]);
    len := total;
  }

  /** One entry of the child's list: is there one for the same page in the parent's? */
  method CountOne(dst: array<Id2>, yp: nat, i0: nat, y: nat, total0: int, ghost d: seq<Id2>, ghost s: seq<Id2>,
                  ghost x: nat)
    returns (i: nat, total: int)
    requires 0 < y <= |s| && i0 <= x && dst.Length > 0 && Starts(dst[..], d, x) && yp == s[y-1].mid > 0
    ensures i <= i0 && total - Shared(d[..i], s[..y-1]) == total0 - Shared(d[..i0], s[..y])
  {
    hide Union, Shared;
    i, total := i0, total0;
    while yp < dst[i].mid
      invariant i <= i0 && Shared(d[..i], s[..y]) == Shared(d[..i0], s[..y])
      decreases i
    {
      LastAt(dst[..], d[..i], i);
      UnionStep(d, s, i, y);
      i := i - 1;
    }
    LastAt(dst[..], d[..i], i);
    UnionStep(d, s, i, y);
    if yp == dst[i].mid {
      i, total := i - 1, total - 1;
    }
  }

  lemma LastAt(m: seq<Id2>, d: seq<Id2>, x: nat)
    requires Starts(m, d, x)
    ensures if x == 0 then m[x].mid == 0 else m[x] == d[x-1]
  {
    if x > 0 { assert m[(x-1)+1] == d[x-1]; }
  }

  lemma NoCommon(d: seq<Id2>, s: seq<Id2>)
    requires d == [] || s == []
    ensures Shared(d, s) == 0
  {
  }

  lemma HighOnes(d: seq<Id2>, s: seq<Id2>, y: nat)
    requires Asc(d) && y <= |s| && forall k :: y <= k < |s| ==> s[k].mid >= (if d == [] then 1 else d[|d|-1].mid + 1)
    ensures forall k :: y <= k < |s| ==> BelowAll(d, s[k].mid)
  {
  }

  /**
   * The parent's dirty list takes over the child's.  For a parent without ancestors the length is not counted
   * but taken from the child's mt_dirty_room.
   */
  method MergeDirty(dst: array<Id2>, src: array<Id2>, nested: bool, room: nat)
    requires dst != src && IsList2(dst) && IsList2(src) && Asc(List2(dst)) && Asc(List2(src))
             && dst.Length == UM_MAX + 1
    requires forall k :: 1 <= k <= src[0].mid ==> src[k].mid > 0
    requires |Union(List2(dst), List2(src))| <= UM_MAX
    requires !nested ==> room == UM_MAX - |Union(List2(dst), List2(src))|
    modifies dst
    ensures IsList2(dst) && List2(dst) == old(Union(List2(dst), List2(src)))
  {
    hide Union, Asc;
    ghost var d := List2(dst);
    var x := dst[0].mid;
    dst[0] := dst[0].(mid := 0);
    assert Starts(dst[..], d, x);
    var len;
    if nested {
      len := MergeLength(dst, src, x, d);
    } else {
      len := UM_MAX - room;
    }
    MergeInPlace(dst, src, x, len, d);
  }
}
