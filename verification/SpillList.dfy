/**
 * Spill lists: page numbers, shifted left by one, in descending order; an entry with its low bit set was
 * deleted.  mdb_txn_commit takes the pages a nested transaction made dirty again off its parent's spill list,
 * and those it spilled off the parent's dirty list.
 */
module SpillLists {
  import opened Common
  import opened PageNumbers
  import opened IdLists
  import opened DirtyLists

  /** Descending; deleted entries may be repeated, others not. */
  ghost predicate Order(s: seq<nat>) {
    forall i, j :: 0 <= i < j < |s| ==> s[i] >= s[j] && (s[j] % 2 == 0 ==> s[i] > s[j])
  }

  /** Page p is spilled according to list s. */
  ghost predicate Alive(s: seq<nat>, p: nat) { 2 * p in s }

  // ---- What is kept ----

  /** The entries that are neither deleted nor for a page of drop. */
  ghost function Kept(s: seq<nat>, drop: set<nat>): seq<nat> {
    if s == [] then []
    else Kept(s[..|s|-1], drop) + (if Stays(s[|s|-1], drop) then [s[|s|-1]] else [])
  }

  ghost predicate Stays(pn: nat, drop: set<nat>) { pn % 2 == 0 && pn / 2 !in drop }

  lemma {:induction false} KeptIn(s: seq<nat>, drop: set<nat>, pn: nat)
    ensures pn in Kept(s, drop) <==> pn in s && Stays(pn, drop)
  {
    if s != [] {
      KeptIn(s[..|s|-1], drop, pn);
      assert s == s[..|s|-1] + [s[|s|-1]];
    }
  }

  lemma {:induction false} KeptDesc(s: seq<nat>, drop: set<nat>)
    requires Order(s)
    ensures Order(Kept(s, drop))
  {
    if s != [] {
      var init, e := s[..|s|-1], s[|s|-1];
      KeptDesc(init, drop);
      if Stays(e, drop) {
        forall i | 0 <= i < |Kept(init, drop)| ensures Kept(init, drop)[i] > e {
          KeptIn(init, drop, Kept(init, drop)[i]);
        }
      }
    }
  }

  lemma KeptSnoc(s: seq<nat>, y: nat, x: nat, drop: set<nat>)
    requires y <= x < |s|
    ensures Kept(s[y..x+1], drop) == Kept(s[y..x], drop) + (if Stays(s[x], drop) then [s[x]] else [])
  {
    assert s[y..x+1][..x-y] == s[y..x];
  }

  /** A prefix without anything to drop, then what is kept of the rest. */
  lemma KeptFrom(s: seq<nat>, y: nat, drop: set<nat>)
    requires Order(s) && y <= |s| && forall k :: 0 <= k < y ==> !(s[k] % 2 == 0 && s[k] / 2 in drop)
    ensures var t := s[..y] + Kept(s[y..], drop);
            Order(t) && forall p: nat :: Alive(t, p) <==> Alive(s, p) && p !in drop
  {
    var t := s[..y] + Kept(s[y..], drop);
    KeptDesc(s[y..], drop);
    forall i, j | 0 <= i < y && 0 <= j < |Kept(s[y..], drop)| ensures s[i] > Kept(s[y..], drop)[j] {
      KeptIn(s[y..], drop, Kept(s[y..], drop)[j]);
    }
    forall p: nat ensures Alive(t, p) <==> Alive(s, p) && p !in drop {
      KeptIn(s[y..], drop, 2 * p);
      assert s == s[..y] + s[y..];
      if 2 * p in s[..y] {
        var k :| 0 <= k < y && s[k] == 2 * p;
      }
    }
  }

  // ---- Taking dirty pages off the parent's spill list ----

  ghost function Mids(s: seq<Id2>): set<nat> {
    set i | 0 <= i < |s| :: s[i].mid
  }

  /** An entry that is to go has 1 written over it. */
  function Mark(pn: nat, drop: set<nat>): nat { if pn % 2 == 0 && pn / 2 in drop then 1 else pn }

  /** The array after the pages in drop were marked from position x + 1 on. */
  ghost predicate Marked(a: seq<nat>, s: seq<nat>, x: nat, drop: set<nat>) {
    && |s| < |a| && x <= |s|
    && (forall k :: 1 <= k <= x ==> a[k] == s[k-1])
    && (forall k :: x < k <= |s| ==> a[k] == Mark(s[k-1], drop))
  }

  /** Entries up to x are for higher pages than those processed, entries after it for lower ones than the rest. */
  ghost predicate Between(s: seq<nat>, m: seq<Id2>, i: nat, x: nat) {
    && i <= |m| && x <= |s|
    && (forall k, j :: 0 <= k < x && 0 <= j < i ==> s[k] > 2 * m[j].mid)
    && (forall k, j :: x <= k < |s| && i <= j < |m| ==> s[k] < 2 * m[j].mid)
  }

  /**
   * Marks the pages of src in the list and squeezes out marked and deleted entries.  The list is searched from
   * its low end; the count, set to the highest ID, stops the search.
   */
  method DropDirty(pspill: array<nat>, src: array<Id2>)
    requires IsList(pspill) && Order(ListIn(pspill)) && IsList2(src) && Asc(List2(src))
    requires forall k :: 1 <= k <= src[0].mid ==> 2 * src[k].mid < MAX_ID
    modifies pspill
    ensures IsList(pspill) && Order(ListIn(pspill)) && pspill[0] <= old(pspill[0])
    ensures forall p: nat :: Alive(ListIn(pspill), p) <==> Alive(old(ListIn(pspill)), p) && p !in Mids(List2(src))
  {
    ghost var s, m := ListIn(pspill), List2(src);
    ghost var drop := Mids(m);
    var len := pspill[0];
    var y := MarkAll(pspill, src, s, m);
    var y' := Squeeze(pspill, y, len, s, drop);
    KeptFrom(s, y, drop);
    pspill[0] := y';
    assert ListIn(pspill) == s[..y] + Kept(s[y..], drop);
  }

  method MarkAll(pspill: array<nat>, src: array<Id2>, ghost s: seq<nat>, ghost m: seq<Id2>) returns (y: nat)
    requires IsList(pspill) && ListIn(pspill) == s && Order(s) && IsList2(src) && List2(src) == m && Asc(m)
    requires forall k :: 1 <= k <= src[0].mid ==> 2 * src[k].mid < MAX_ID
    modifies pspill
    ensures Marked(pspill[..], s, 0, Mids(m)) && y <= |s|
    ensures forall k :: 0 <= k < y ==> !(s[k] % 2 == 0 && s[k] / 2 in Mids(m))
  {
    var x: nat, i: nat, len := pspill[0], 0, src[0].mid;
    y := x;
    pspill[0] := MAX_ID;
    ghost var drop: set<nat> := {};
    assert Marked(pspill[..], s, x, drop);
    hide Marked, Between, Order, Asc;
    MarkStart(s, m);
    while i < len
      invariant 0 <= i <= len && x <= y <= |s| && pspill.Length > |s| && pspill[0] == MAX_ID
      invariant Marked(pspill[..], s, x, drop) && Between(s, m, i, x) && drop == Mids(m[..i])
      invariant Untouched(s, y, drop)
    {
      i := i + 1;
      var pn := 2 * src[i].mid;
      assert src[i] == m[i-1];
      x := Descend(pspill, pn, x, s, m, i - 1, drop);
      NextMid(m, i);
      if pn == pspill[x] {
        MarkOne(pspill[..], s, m, i, x, drop, y);
        ghost var was := pspill[..];
        pspill[x] := 1;
        assert pspill[..] == was[x := 1];
        x := x - 1;
        y := x;
      } else {
        SkipOne(pspill[..], s, m, i, x, drop, y);
      }
      drop := Mids(m[..i]);
    }
    assert m[..i] == m;
    MarkEnd(pspill[..], s, m, x, y);
  }

  ghost predicate Untouched(s: seq<nat>, y: nat, drop: set<nat>) {
    y <= |s| && forall k :: 0 <= k < y ==> !(s[k] % 2 == 0 && s[k] / 2 in drop)
  }

  lemma MarkStart(s: seq<nat>, m: seq<Id2>)
    ensures Between(s, m, 0, |s|) && Mids(m[..0]) == {}
  {
  }

  lemma NextMid(m: seq<Id2>, i: nat)
    requires 0 < i <= |m|
    ensures Mids(m[..i]) == Mids(m[..i-1]) + {m[i-1].mid}
  {
    assert m[..i] == m[..i-1] + [m[i-1]];
    forall n ensures n in Mids(m[..i]) <==> n in Mids(m[..i-1]) + {m[i-1].mid} {
      if n in Mids(m[..i]) {
        var k :| 0 <= k < i && m[..i][k].mid == n;
        if k < i - 1 { assert m[..i-1][k].mid == n; }
      }
      if n in Mids(m[..i-1]) {
        var k :| 0 <= k < i - 1 && m[..i-1][k].mid == n;
        assert m[..i][k].mid == n;
      }
      assert m[..i][i-1] == m[i-1];
    }
  }

  lemma InMids(m: seq<Id2>, i: nat, n: nat) returns (j: nat)
    requires i <= |m| && n in Mids(m[..i])
    ensures j < i && m[j].mid == n
  {
    var k :| 0 <= k < i && m[..i][k].mid == n;
    j := k;
  }

  /** The search for a page in the list. */
  method Descend(a: array<nat>, pn: nat, x0: nat, ghost s: seq<nat>, ghost m: seq<Id2>, ghost i: nat,
                 ghost drop: set<nat>) returns (x: nat)
    requires x0 <= |s| < a.Length && a[0] == MAX_ID && Order(s) && Asc(m) && i < |m| && pn == 2 * m[i].mid < MAX_ID
    requires Marked(a[..], s, x0, drop) && Between(s, m, i, x0) && drop == Mids(m[..i])
    ensures x <= x0 && Marked(a[..], s, x, drop) && Between(s, m, i, x) && pn <= a[x]
  {
    x := x0;
    while pn > a[x]
      invariant x <= x0 && Marked(a[..], s, x, drop) && Between(s, m, i, x)
      decreases x
    {
      Lower(a[..], s, m, i, x, drop);
      x := x - 1;
    }
  }

  lemma Lower(a: seq<nat>, s: seq<nat>, m: seq<Id2>, i: nat, x: nat, drop: set<nat>)
    requires Marked(a, s, x, drop) && Between(s, m, i, x) && Asc(m) && i < |m| && drop == Mids(m[..i])
    requires x > 0 && 2 * m[i].mid > a[x]
    ensures Marked(a, s, x - 1, drop) && Between(s, m, i, x - 1)
  {
    var v := s[x-1];
    assert a[x] == v;
    if v % 2 == 0 && v / 2 in drop {
      var j := InMids(m, i, v / 2);
    }
    forall j | i <= j < |m| ensures v < 2 * m[j].mid {
      assert m[i].mid <= m[j].mid;
    }
  }

  lemma NotDropped(s: seq<nat>, m: seq<Id2>, i: nat, x: nat, k: nat)
    requires Between(s, m, i, x) && k < x
    ensures !(s[k] % 2 == 0 && s[k] / 2 in Mids(m[..i]))
  {
    forall n | n in Mids(m[..i]) ensures s[k] > 2 * n {
      var j := InMids(m, i, n);
    }
  }

  lemma MarkOne(a: seq<nat>, s: seq<nat>, m: seq<Id2>, i: nat, x: nat, drop: set<nat>, y: nat)
    requires 0 < i <= |m| && Marked(a, s, x, drop) && Between(s, m, i - 1, x) && Asc(m) && Order(s)
             && drop == Mids(m[..i-1])
    requires |a| > 0 && a[0] == MAX_ID && x < |a| && 2 * m[i-1].mid == a[x] < MAX_ID && x <= y <= |s|
             && Mids(m[..i]) == drop + {m[i-1].mid}
    ensures x > 0 && Marked(a[x := 1], s, x - 1, Mids(m[..i])) && Between(s, m, i, x - 1)
            && Untouched(s, x - 1, Mids(m[..i]))
  {
    var n := m[i-1].mid;
    assert s[x-1] == 2 * n;
    forall k, j | 0 <= k < x - 1 && 0 <= j < i ensures s[k] > 2 * m[j].mid {
      assert s[k] > s[x-1] && m[j].mid <= n;
    }
    forall k, j | x - 1 <= k < |s| && i <= j < |m| ensures s[k] < 2 * m[j].mid {
      assert n < m[j].mid && s[k] <= s[x-1];
    }
    assert Between(s, m, i, x - 1);
    forall k | 0 <= k < x - 1 ensures !(s[k] % 2 == 0 && s[k] / 2 in Mids(m[..i])) { NotDropped(s, m, i, x - 1, k); }
    forall k | x < k <= |s| ensures a[k] == if s[k-1] % 2 == 0 && s[k-1] / 2 in Mids(m[..i]) then 1 else s[k-1] {
      assert s[k-1] < s[x-1];
    }
  }

  lemma SkipOne(a: seq<nat>, s: seq<nat>, m: seq<Id2>, i: nat, x: nat, drop: set<nat>, y: nat)
    requires 0 < i <= |m| && Marked(a, s, x, drop) && Between(s, m, i - 1, x) && Asc(m) && Order(s)
             && drop == Mids(m[..i-1])
    requires x < |a| && 2 * m[i-1].mid < a[x] && x <= y && Untouched(s, y, drop) && Mids(m[..i]) == drop + {m[i-1].mid}
    ensures Marked(a, s, x, Mids(m[..i])) && Between(s, m, i, x) && Untouched(s, y, Mids(m[..i]))
  {
    var n := m[i-1].mid;
    forall k, j | 0 <= k < x && 0 <= j < i ensures s[k] > 2 * m[j].mid {
      assert a[x] == s[x-1];
      assert s[k] >= s[x-1];
    }
    forall k | x <= k < |s| ensures s[k] < 2 * n {
      assert s[k] < 2 * m[i-1].mid;
    }
    forall k | 0 <= k < x ensures s[k] > 2 * n {
      assert s[k] > 2 * m[i-1].mid;
    }
  }

  lemma MarkEnd(a: seq<nat>, s: seq<nat>, m: seq<Id2>, x: nat, y: nat)
    requires Marked(a, s, x, Mids(m)) && Between(s, m, |m|, x) && Untouched(s, y, Mids(m))
    ensures Marked(a, s, 0, Mids(m)) && forall k :: 0 <= k < y ==> !(s[k] % 2 == 0 && s[k] / 2 in Mids(m))
  {
    assert m[..|m|] == m;
    forall k | 0 <= k < x ensures !(s[k] % 2 == 0 && s[k] / 2 in Mids(m)) {
      NotDropped(s, m, |m|, x, k);
    }
  }

  /** Entries with their low bit set are left out; the others move down. */
  method Squeeze(a: array<nat>, y0: nat, len: nat, ghost s: seq<nat>, ghost drop: set<nat>) returns (y: nat)
    requires len == |s| < a.Length && y0 <= len && Marked(a[..], s, 0, drop) && Untouched(s, y0, drop)
    modifies a
    ensures y0 <= y <= len && y == y0 + |Kept(s[y0..], drop)| && a[1..y+1] == s[..y0] + Kept(s[y0..], drop)
  {
    hide Kept, Stays, Mark, Marked, Untouched, Squeezing;
    y := y0;
    var x := y0;
    SqueezeStart(a[..], y0, s, drop);
    ghost var head, tail := s[..y0], [];
    ghost var out := head;
    while x < len
      invariant y0 <= y == |out| <= x <= len && out == head + tail && tail == Kept(s[y0..x], drop)
      invariant Squeezing(a[..], s, out, x, drop)
    {
      x := x + 1;
      KeptSnoc(s, y0, x - 1, drop);
      ghost var m := a[..];
      SqueezeStep(m, s, out, x - 1, drop);
      assert out + [s[x-1]] == head + (tail + [s[x-1]]);
      if a[x] % 2 == 0 {
        y := y + 1;
        a[y] := a[x];
        assert a[..] == m[y := m[x]];
        tail := tail + [s[x-1]];
        out := head + tail;
      }
    }
    assert s[y0..len] == s[y0..];
    SqueezeEnd(a[..], s, out, drop);
    assert a[1..y+1] == a[..][1..y+1];
  }

  /** With x entries of s looked at, out is what was kept of them. */
  ghost predicate Squeezing(m: seq<nat>, s: seq<nat>, out: seq<nat>, x: nat, drop: set<nat>) {
    && |out| <= x <= |s| < |m|
    && (forall k :: 0 <= k < |out| ==> m[k+1] == out[k])
    && (forall k :: x < k <= |s| ==> m[k] == Mark(s[k-1], drop))
  }

  lemma SqueezeStep(m: seq<nat>, s: seq<nat>, out: seq<nat>, x: nat, drop: set<nat>)
    requires Squeezing(m, s, out, x, drop) && x < |s|
    ensures |out| + 1 < |m| && x + 1 < |m|
    ensures m[x+1] % 2 == 0 <==> Stays(s[x], drop)
    ensures if Stays(s[x], drop) then Squeezing(m[|out| + 1 := m[x+1]], s, out + [s[x]], x + 1, drop)
            else Squeezing(m, s, out, x + 1, drop)
  {
    MarkStays(s[x], drop);
    hide Mark, Stays;
    assert m[x+1] == Mark(s[x], drop);
  }

  lemma SqueezeEnd(m: seq<nat>, s: seq<nat>, out: seq<nat>, drop: set<nat>)
    requires Squeezing(m, s, out, |s|, drop)
    ensures |out| < |m| && m[1..|out|+1] == out
  {
  }

  lemma MarkStays(pn: nat, drop: set<nat>)
    ensures Mark(pn, drop) % 2 == 0 <==> Stays(pn, drop)
    ensures Stays(pn, drop) ==> Mark(pn, drop) == pn
  {
  }

  lemma SqueezeStart(m: seq<nat>, y0: nat, s: seq<nat>, drop: set<nat>)
    requires |s| < |m| && y0 <= |s| && Marked(m, s, 0, drop) && Untouched(s, y0, drop)
    ensures Kept(s[y0..y0], drop) == [] && Squeezing(m, s, s[..y0], y0, drop)
  {
    assert s[y0..y0] == [];
  }
}
