/** The dirty and spill lists of nested transactions: mdb_page_get, and the merge in mdb_txn_commit. */
module NestedTxns {
  import opened Common
  import opened PageNumbers
  import opened IdLists
  import opened DirtyLists
  import opened SpillLists
  import opened PageViews
  import IdSort

  ghost function SpillSet(s: seq<nat>): set<nat> {
    set i | 0 <= i < |s| && s[i] % 2 == 0 :: s[i] / 2
  }

  lemma SpillSetIs(s: seq<nat>, p: nat)
    ensures p in SpillSet(s) <==> Alive(s, p)
  {
    if Alive(s, p) {
      var i :| 0 <= i < |s| && s[i] == 2 * p;
      assert s[i] % 2 == 0 && s[i] / 2 == p;
    }
  }

  class TxnLists {
    var dirty: array<Id2>     // mt_u.dirty_list
    var spill: array?<nat>    // mt_spill_pgs
    var room: nat             // mt_dirty_room

    constructor ()
      ensures Valid() && fresh(dirty) && spill == null && room == UM_MAX
      ensures LayerOf() == Layer(map[], {})
    {
      dirty := new Id2[UM_MAX + 1](_ => Id2(0, 0));
      spill, room := null, UM_MAX;
    }

    ghost predicate Valid()
      reads this, dirty, spill
    {
      && IsList2(dirty) && dirty.Length == UM_MAX + 1 && Asc(List2(dirty))
      && Bounded(List2(dirty))
      && (spill != null ==> IsList(spill) && Order(ListIn(spill)))
    }

    ghost function Spills(): seq<nat>
      requires spill != null ==> IsList(spill)
      reads this, spill
    {
      if spill == null then [] else ListIn(spill)
    }

    ghost function LayerOf(): Layer
      requires Valid()
      reads this, dirty, spill
    {
      Layer(ToPages(List2(dirty)), SpillSet(Spills()))
    }
  }

  /** A transaction and its ancestors, the innermost first. */
  ghost function Layers(chain: seq<TxnLists>): (ls: Stack)
    requires forall t :: t in chain ==> t.Valid()
    reads chain, set i | 0 <= i < |chain| ::
            chain[i].dirty, set i | 0 <= i < |chain| && chain[i].spill != null :: chain[i].spill
    ensures |ls| == |chain|
  {
    if chain == [] then [] else [chain[0].LayerOf()] + Layers(chain[1..])
  }

  datatype Where = InSpill | InDirty(page: nat) | Nowhere

  /** Look in the lists of one transaction, the spill list first. */
  method Look(t: TxnLists, pgno: nat) returns (w: Where)
    requires t.Valid()
    ensures var l := t.LayerOf();
            match w
            case InSpill => pgno in l.spill
            case InDirty(page) => pgno !in l.spill && pgno in l.dirty && l.dirty[pgno] == page
            case Nowhere => pgno !in l.spill && pgno !in l.dirty
  {
    SpillSetIs(t.Spills(), pgno);
    if t.spill != null {
      OrderFalls(ListIn(t.spill));
      var x := IdLists.Search(t.spill, 2 * pgno);
      if x <= t.spill[0] && t.spill[x] == 2 * pgno {
        return InSpill;
      }
    }
    ghost var s := List2(t.dirty);
    var y := Search2(t.dirty, pgno);
    FoundAt(s, pgno, y);
    if y <= t.dirty[0].mid && t.dirty[y].mid == pgno {
      w := InDirty(t.dirty[y].page);
    } else {
      w := Nowhere;
    }
  }

  lemma OrderFalls(s: seq<nat>)
    requires Order(s)
    ensures Falling(s)
  {
  }

  lemma FoundAt(s: seq<Id2>, n: nat, y: nat)
    requires Asc(s) && IsPosition2(s, n, y)
    ensures n in ToPages(s) <==> y <= |s| && s[y-1].mid == n
    ensures n in ToPages(s) ==> ToPages(s)[n] == s[y-1].page
  {
    PagesDomain(s, n);
    if n in ToPages(s) {
      var i: nat :| At(s, n, i);
      assert i == y - 1;
    }
    if y <= |s| && s[y-1].mid == n {
      assert At(s, n, y - 1);
      PagesValue(s, y - 1);
    }
  }

  /** No transaction before the one at level has page p on a list, and that one does; level 0 is the file. */
  ghost predicate FromLevel(ls: Stack, p: nat, level: nat) {
    && level <= |ls|
    && (forall k :: 0 <= k < (if level == 0 then |ls| else level - 1) ==> p !in ls[k].spill && p !in ls[k].dirty)
    && (level > 0 ==> p in ls[level-1].spill || p in ls[level-1].dirty)
  }

  /** mdb_page_get: the first transaction that has the page on a list decides; otherwise the file does. */
  method PageGet(chain: seq<TxnLists>, disk: map<nat, nat>, pgno: nat) returns (page: Option<nat>, level: nat)
    requires forall t :: t in chain ==> t.Valid()
    ensures page == View(Layers(chain), disk, pgno)
    ensures level <= |chain| && FromLevel(Layers(chain), pgno, level)
  {
    hide *;
    ghost var ls := Layers(chain);
    var i := 0;
    assert ls[0..] == ls;
    ViewEnd(disk, pgno);
    while i < |chain|
      invariant i <= |chain| && View(ls, disk, pgno) == View(ls[i..], disk, pgno)
      invariant forall k :: 0 <= k < i ==> pgno !in ls[k].spill && pgno !in ls[k].dirty
    {
      LayerAt(chain, i);
      var w := Look(chain[i], pgno);
      ViewStep(ls, i, disk, pgno);
      match w {
        case InSpill =>
          LevelIs(ls, pgno, i + 1);
          return (if pgno in disk then Some(disk[pgno]) else None), i + 1;
        case InDirty(p) =>
          LevelIs(ls, pgno, i + 1);
          return Some(p), i + 1;
        case Nowhere =>
      }
      i := i + 1;
    }
    assert ls[i..] == [];
    LevelIs(ls, pgno, 0);
    page, level := if pgno in disk then Some(disk[pgno]) else None, 0;
  }

  lemma LevelIs(ls: Stack, p: nat, level: nat)
    requires level <= |ls| && (level > 0 ==> p in ls[level-1].spill || p in ls[level-1].dirty)
    requires forall k :: 0 <= k < (if level == 0 then |ls| else level - 1) ==> p !in ls[k].spill && p !in ls[k].dirty
    ensures FromLevel(ls, p, level)
  {
  }

  lemma ViewEnd(disk: map<nat, nat>, p: nat)
    ensures View([], disk, p) == if p in disk then Some(disk[p]) else None
  {
  }

  lemma ViewStep(ls: Stack, i: nat, disk: map<nat, nat>, p: nat)
    requires i < |ls|
    ensures var fromFile := if p in disk then Some(disk[p]) else None;
            View(ls[i..], disk, p) ==
              if p in ls[i].spill then fromFile
              else if p in ls[i].dirty then Some(ls[i].dirty[p])
              else View(ls[i+1..], disk, p)
  {
    assert ls[i..][1..] == ls[i+1..];
  }

  lemma {:induction false} LayerAt(chain: seq<TxnLists>, i: nat)
    requires i < |chain| && forall t :: t in chain ==> t.Valid()
    ensures chain[i] in chain && Layers(chain)[i] == chain[i].LayerOf()
  {
    if i > 0 { LayerAt(chain[1..], i - 1); }
  }

  // ---- mdb_txn_commit of a nested transaction ----

  lemma {:induction false} RemovedPages(s: seq<Id2>, i: nat)
    requires Asc(s) && i < |s|
    ensures Asc(s[..i] + s[i+1..]) && ToPages(s[..i] + s[i+1..]) == ToPages(s) - {s[i].mid}
    decreases |s|
  {
    hide ToPages, BelowAll;
    var n := |s| - 1;
    var init, e, u := s[..n], s[n], s[..i] + s[i+1..];
    AscInit(s);
    assert s == init + [e] && (i < n ==> s[i].mid < e.mid);
    PagesSnoc(init, e);
    hide Asc;
    if i == n {
      assert u == init;
      NotBelow(init, e.mid);
      Unset(ToPages(init), e.mid, e.page);
    } else {
      RemovedPages(init, i);
      var v := init[..i] + init[i+1..];
      assert u == v + [e];
      PagesSnoc(v, e);
      SetUnset(ToPages(init), s[i].mid, e.mid, e.page);
      SubBelow(init, i, e.mid);
      AscSnoc(v, e);
    }
  }

  lemma SubBelow(s: seq<Id2>, i: nat, n: nat)
    requires i < |s| && BelowAll(s, n)
    ensures BelowAll(s[..i] + s[i+1..], n)
  {
  }

  lemma Unset(m: map<nat, nat>, k: nat, v: nat)
    requires k !in m
    ensures m[k := v] - {k} == m
  {
  }

  lemma SetUnset(m: map<nat, nat>, k: nat, e: nat, v: nat)
    requires k != e
    ensures (m - {k})[e := v] == m[e := v] - {k}
  {
  }

  lemma InsertedPages(s: seq<Id2>, u: seq<Id2>, e: Id2, x: nat)
    requires x <= |s| && u == s[..x] + [e] + s[x..] && Asc(u)
    ensures ToPages(u) == ToPages(s)[e.mid := e.page]
  {
    hide Asc, ToPages;
    assert u[..x] + u[x+1..] == s && u[x] == e;
    RemovedPages(u, x);
    PagesValue(u, x);
    Reset(ToPages(u), e.mid, e.page);
  }

  lemma Reset(m: map<nat, nat>, k: nat, v: nat)
    requires k in m && m[k] == v
    ensures (m - {k})[k := v] == m
  {
  }

  /** mdb_page_dirty: a new page goes on the dirty list, for which there is room. */
  method PageDirty(t: TxnLists, pg: nat, page: nat)
    requires t.Valid() && pg !in t.LayerOf().dirty && 0 < 2 * pg < MAX_ID
    requires 0 < t.room && t.room + |t.LayerOf().dirty| <= UM_MAX
    modifies t, t.dirty
    ensures t.Valid() && t.dirty == old(t.dirty) && t.spill == old(t.spill)
    ensures t.LayerOf() == old(t.LayerOf()).(dirty := old(t.LayerOf()).dirty[pg := page]) && t.room == old(t.room) - 1
  {
    hide Asc, ToPages, SpillSet, Order, List2, Bounded, ListIn;
    AddDirty(t.dirty, pg, page);
    t.room := t.room - 1;
  }

  method AddDirty(dirty: array<Id2>, pg: nat, page: nat)
    requires IsList2(dirty) && Asc(List2(dirty)) && Bounded(List2(dirty)) && dirty.Length == UM_MAX + 1
    requires pg !in ToPages(List2(dirty)) && 0 < 2 * pg < MAX_ID && |ToPages(List2(dirty))| < UM_MAX
    modifies dirty
    ensures IsList2(dirty) && Asc(List2(dirty)) && Bounded(List2(dirty))
    ensures ToPages(List2(dirty)) == old(ToPages(List2(dirty)))[pg := page]
  {
    hide Asc, ToPages, List2, Bounded, At;
    ghost var s := List2(dirty);
    var e := Id2(pg, page);
    PagesCount(s);
    PagesDomain(s, pg);
    var rc := Insert2(dirty, e);
    ghost var u := List2(dirty);
    ghost var x: nat :| x <= |s| && u == s[..x] + [e] + s[x..];
    InsertedPages(s, u, e, x);
    BoundedMore(s, u, e, x);
  }

  lemma BoundedMore(s: seq<Id2>, u: seq<Id2>, e: Id2, x: nat)
    requires Bounded(s) && x <= |s| && u == s[..x] + [e] + s[x..] && 0 < 2 * e.mid < MAX_ID
    ensures Bounded(u)
  {
  }

  /** The entry of page pn, if there is one, is taken off the dirty list. */
  method DropPage(dst: array<Id2>, pn: nat)
    requires IsList2(dst) && Asc(List2(dst))
    modifies dst
    ensures IsList2(dst) && Asc(List2(dst)) && ToPages(List2(dst)) == old(ToPages(List2(dst))) - {pn}
    ensures dst[0].mid <= old(dst[0].mid) && forall k :: 1 <= k <= dst[0].mid ==> dst[k] in old(List2(dst))
  {
    hide Asc, ToPages, List2, IsPosition2;
    ghost var s := List2(dst);
    var y := Search2(dst, pn);
    SearchRange(s, pn, y);
    List2Size(dst);
    FoundAt(s, pn, y);
    if y <= dst[0].mid {
      List2At(dst, y);
    }
    if y <= dst[0].mid && dst[y].mid == pn {
      RemovedPages(s, y - 1);
      Remove2(dst, y);
      List2Size(dst);
      Members(dst);
      FromRest(s, y - 1);
    } else {
      NoneRemoved(ToPages(s), pn);
      Members(dst);
    }
  }

  lemma SearchRange(s: seq<Id2>, n: nat, y: nat)
    requires IsPosition2(s, n, y)
    ensures 1 <= y <= |s| + 1
  {
  }

  lemma Members(a: array<Id2>)
    requires IsList2(a)
    ensures forall k :: 1 <= k <= a[0].mid ==> a[k] in List2(a)
  {
    forall k | 1 <= k <= a[0].mid ensures a[k] in List2(a) { assert a[k] == List2(a)[k-1]; }
  }

  lemma FromRest(s: seq<Id2>, i: nat)
    requires i < |s|
    ensures forall e :: e in s[..i] + s[i+1..] ==> e in s
  {
  }

  lemma NoneRemoved(m: map<nat, nat>, n: nat)
    requires n !in m
    ensures m - {n} == m
  {
  }

  lemma SpillSetSnoc(s: seq<nat>, i: nat)
    requires i < |s|
    ensures SpillSet(s[..i+1]) == SpillSet(s[..i]) + (if s[i] % 2 == 0 then {s[i] / 2} else {})
  {
    assert s[..i+1] == s[..i] + [s[i]];
    var rhs := SpillSet(s[..i]) + (if s[i] % 2 == 0 then {s[i] / 2} else {});
    forall p: nat ensures p in SpillSet(s[..i+1]) <==> p in rhs {
      SpillSetIs(s[..i+1], p);
      SpillSetIs(s[..i], p);
    }
  }

  /** Pages that the child spilled are taken off the parent's dirty list. */
  method DropSpilled(dst: array<Id2>, spill: array<nat>)
    requires IsList2(dst) && Asc(List2(dst)) && IsList(spill)
    modifies dst
    ensures IsList2(dst) && Asc(List2(dst)) && ToPages(List2(dst)) == old(ToPages(List2(dst))) - SpillSet(ListIn(spill))
    ensures forall k :: 1 <= k <= dst[0].mid ==> dst[k] in old(List2(dst))
  {
    ghost var s, d := ListIn(spill), List2(dst);
    hide Asc, ToPages, SpillSet;
    var i := 0;
    Nothing(ToPages(d));
    forall k | 1 <= k <= dst[0].mid ensures dst[k] in d { assert dst[k] == d[k-1]; }
    while i < spill[0]
      invariant i <= |s| && IsList2(dst) && Asc(List2(dst)) && ToPages(List2(dst)) == ToPages(d) - SpillSet(s[..i])
      invariant forall k :: 1 <= k <= dst[0].mid ==> dst[k] in d
    {
      var pn := spill[i + 1];
      assert pn == s[i];
      SpillSetSnoc(s, i);
      if pn % 2 == 0 {
        MinusBoth(ToPages(d), SpillSet(s[..i]), pn / 2);
        ghost var cur := List2(dst);
        StillIn(dst, d);
        DropPage(dst, pn / 2);
        forall k | 1 <= k <= dst[0].mid ensures dst[k] in d { assert dst[k] in cur; }
      }
      i := i + 1;
    }
    assert s[..i] == s;
  }

  lemma StillIn(dst: array<Id2>, d: seq<Id2>)
    requires IsList2(dst) && forall k :: 1 <= k <= dst[0].mid ==> dst[k] in d
    ensures forall e :: e in List2(dst) ==> e in d
  {
  }

  lemma Nothing(m: map<nat, nat>)
    ensures m - SpillSet([]) == m
  {
  }

  lemma MinusBoth(m: map<nat, nat>, a: set<nat>, p: nat)
    ensures m - a - {p} == m - (a + {p})
  {
  }

  lemma SpillSetConcat(a: seq<nat>, b: seq<nat>, t: seq<nat>)
    requires multiset(t) == multiset(a) + multiset(b)
    ensures SpillSet(t) == SpillSet(a) + SpillSet(b)
  {
    forall p: nat ensures p in SpillSet(t) <==> p in SpillSet(a) + SpillSet(b) {
      SpillSetIs(t, p);
      SpillSetIs(a, p);
      SpillSetIs(b, p);
      assert 2 * p in t <==> 2 * p in multiset(t);
      assert 2 * p in a <==> 2 * p in multiset(a);
      assert 2 * p in b <==> 2 * p in multiset(b);
    }
  }

  lemma {:induction false} EvenOnce(s: seq<nat>, x: nat)
    requires Order(s) && x % 2 == 0
    ensures multiset(s)[x] <= 1 && (x !in s ==> multiset(s)[x] == 0)
  {
    if s != [] {
      var init, e := s[..|s|-1], s[|s|-1];
      assert s == init + [e];
      EvenOnce(init, x);
      if e == x { assert x !in init; }
    }
  }

  lemma Twice(t: seq<nat>, i: nat, j: nat)
    requires i < j < |t| && t[i] == t[j]
    ensures multiset(t)[t[i]] >= 2
  {
    assert t == t[..i] + [t[i]] + t[i+1..j] + [t[j]] + t[j+1..];
  }

  lemma MergedOrder(a: seq<nat>, b: seq<nat>, t: seq<nat>)
    requires multiset(t) == multiset(a) + multiset(b) && Falling(t) && Order(a) && Order(b)
             && SpillSet(a) !! SpillSet(b)
    ensures Order(t)
  {
    forall i, j | 0 <= i < j < |t| && t[j] % 2 == 0 ensures t[i] > t[j] {
      if t[i] == t[j] {
        SpillSetIs(a, t[j] / 2);
        SpillSetIs(b, t[j] / 2);
        Twice(t, i, j);
        EvenOnce(a, t[j]);
        EvenOnce(b, t[j]);
      }
    }
  }

  /** The parent's spill list takes over the child's. */
  method MergeSpill(pspill: array?<nat>, cspill: array?<nat>) returns (r: array?<nat>)
    requires (pspill != null ==> IsList(pspill) && Order(ListIn(pspill)))
             && (cspill != null ==> IsList(cspill) && Order(ListIn(cspill)))
    requires pspill != null && cspill != null ==>
               pspill != cspill && SpillSet(ListIn(pspill)) !! SpillSet(ListIn(cspill))
                 && pspill[0] + cspill[0] <= IdSort.SAFE_LENGTH
    modifies pspill
    ensures (r != null ==> IsList(r) && Order(ListIn(r))) && (r == pspill || r == cspill || fresh(r))
    ensures SpillSet(if r == null then [] else ListIn(r)) ==
            old(SpillSet(if pspill == null then [] else ListIn(pspill)))
              + old(SpillSet(if cspill == null then [] else ListIn(cspill)))
  {
    if cspill == null {
      return pspill;
    }
    if pspill == null {
      return cspill;
    }
    ghost var a, b := ListIn(pspill), ListIn(cspill);
    var merged := AppendList(pspill, cspill);
    hide Order, SpillSet;
    SortSpill(merged, a, b);
    r := merged;
  }

  method SortSpill(r: array<nat>, ghost a: seq<nat>, ghost b: seq<nat>)
    requires IsList(r) && ListIn(r) == a + b && Order(a) && Order(b) && SpillSet(a) !! SpillSet(b)
             && r[0] <= IdSort.SAFE_LENGTH
    modifies r
    ensures IsList(r) && Order(ListIn(r)) && SpillSet(ListIn(r)) == SpillSet(a) + SpillSet(b)
  {
    hide Order, SpillSet, IdSort.Permuted, IdSort.Sorted;
    ghost var before, n := r[..], r[0];
    var _ := IdSort.Sort(r, 0);
    SortedList(before, r[..], n, a + b);
    ghost var t := ListIn(r);
    assert multiset(t) == multiset(a) + multiset(b);
    MergedOrder(a, b, t);
    SpillSetConcat(a, b, t);
  }

  lemma SortedList(m: seq<nat>, m': seq<nat>, n: nat, s: seq<nat>)
    requires n + 1 <= |m| && m[0] == n && m[1..n+1] == s
    requires IdSort.Permuted(m, m', 1, 1 + n) && IdSort.Sorted(m', 1, 1 + n)
    ensures |m'| == |m| && m'[0] == n && multiset(m'[1..n+1]) == multiset(s) && Falling(m'[1..n+1])
  {
    assert m'[0] == m'[..1][0] == m[..1][0];
  }

  lemma {:induction false} UnionIn(d: seq<Id2>, s: seq<Id2>, e: Id2)
    requires e in Union(d, s)
    ensures e in d || e in s
    decreases |d| + |s|
  {
    if s != [] && d != [] {
      var a, b := d[|d|-1], s[|s|-1];
      if b.mid < a.mid {
        if e != a { UnionIn(d[..|d|-1], s, e); }
      } else if b.mid == a.mid {
        if e != b { UnionIn(d[..|d|-1], s[..|s|-1], e); }
      } else {
        if e != b { UnionIn(d, s[..|s|-1], e); }
      }
    }
  }

  ghost predicate Bounded(s: seq<Id2>) {
    forall e :: e in s ==> 0 < 2 * e.mid < MAX_ID
  }

  lemma UnionBounded(d: seq<Id2>, s: seq<Id2>)
    requires Bounded(d) && Bounded(s)
    ensures Bounded(Union(d, s))
  {
    forall e | e in Union(d, s) ensures 0 < 2 * e.mid < MAX_ID { UnionIn(d, s, e); }
  }

  /** The two dirty lists of a commit, as maps: parent's less what the child spilled, overridden by the child's. */
  method CommitDirty(dst: array<Id2>, src: array<Id2>, cspill: array?<nat>, nested: bool, room: nat, ghost c: Layer,
                     ghost p: Layer)
    requires dst != src && IsList2(dst) && IsList2(src) && Asc(List2(dst)) && Asc(List2(src))
             && dst.Length == UM_MAX + 1
    requires Bounded(List2(dst)) && Bounded(List2(src)) && (cspill != null ==> IsList(cspill))
    requires p.dirty == ToPages(List2(dst))
             && c == Layer(ToPages(List2(src)), SpillSet(if cspill == null then [] else ListIn(cspill)))
    requires |Merge(c, p).dirty| <= UM_MAX && (!nested ==> room == UM_MAX - |Merge(c, p).dirty|)
    modifies dst
    ensures IsList2(dst) && Asc(List2(dst)) && Bounded(List2(dst)) && ToPages(List2(dst)) == Merge(c, p).dirty
  {
    hide Asc, ToPages, SpillSet, Union;
    ghost var d0, s := List2(dst), List2(src);
    if cspill != null {
      DropSpilled(dst, cspill);
      forall e | e in List2(dst) ensures e in d0 {
        var k :| 0 <= k < |List2(dst)| && List2(dst)[k] == e;
        assert dst[k+1] == e;
      }
    } else {
      Nothing(ToPages(d0));
    }
    ghost var d := List2(dst);
    assert Bounded(d) && ToPages(d) == p.dirty - c.spill;
    UnionAsc(d, s);
    UnionPages(d, s);
    UnionBounded(d, s);
    PagesCount(Union(d, s));
    SourceBound(src);
    MergeDirty(dst, src, nested, room);
  }

  lemma SourceBound(src: array<Id2>)
    requires IsList2(src) && Bounded(List2(src))
    ensures forall k :: 1 <= k <= src[0].mid ==> src[k].mid > 0 && 2 * src[k].mid < MAX_ID
  {
    forall k | 1 <= k <= src[0].mid ensures src[k].mid > 0 && 2 * src[k].mid < MAX_ID {
      assert src[k] == List2(src)[k-1];
    }
  }

  /** Pages the child has dirty again are taken off the parent's spill list. */
  method CommitSpill(pspill: array?<nat>, src: array<Id2>, cspill: array?<nat>, ghost c: Layer,
                     ghost p: Layer) returns (r: array?<nat>)
    requires IsList2(src) && Asc(List2(src)) && Bounded(List2(src))
    requires (pspill != null ==> IsList(pspill) && Order(ListIn(pspill)))
             && (cspill != null ==> IsList(cspill) && Order(ListIn(cspill)))
    requires c == Layer(ToPages(List2(src)), SpillSet(if cspill == null then [] else ListIn(cspill)))
    requires p.spill == SpillSet(if pspill == null then [] else ListIn(pspill)) && c.spill !! p.spill
    requires pspill != null && cspill != null ==> pspill != cspill && pspill[0] + cspill[0] <= IdSort.SAFE_LENGTH
    modifies pspill
    ensures (r != null ==> IsList(r) && Order(ListIn(r))) && (r == pspill || r == cspill || fresh(r))
    ensures SpillSet(if r == null then [] else ListIn(r)) == Merge(c, p).spill
  {
    hide Asc, ToPages, SpillSet, Order;
    if pspill != null && pspill[0] > 0 {
      ghost var s := ListIn(pspill);
      SourceBound(src);
      DropDirty(pspill, src);
      AfterDrop(s, ListIn(pspill), List2(src));
    } else {
      NoSpills(c.dirty.Keys);
    }
    r := MergeSpill(pspill, cspill);
  }

  lemma NoSpills(keys: set<nat>)
    ensures SpillSet([]) == {} && {} - keys == {}
  {
  }

  lemma AfterDrop(s: seq<nat>, t: seq<nat>, m: seq<Id2>)
    requires forall p: nat :: Alive(t, p) <==> Alive(s, p) && p !in Mids(m)
    ensures SpillSet(t) == SpillSet(s) - ToPages(m).Keys
  {
    var rhs := SpillSet(s) - ToPages(m).Keys;
    forall p: nat ensures p in SpillSet(t) <==> p in rhs {
      SpillSetIs(t, p);
      SpillSetIs(s, p);
      PagesDomain(m, p);
      if p in Mids(m) {
        var i :| 0 <= i < |m| && m[i].mid == p;
        assert At(m, p, i);
      }
      if i: nat :| At(m, p, i) { assert m[i].mid in Mids(m); }
    }
  }

  /**
   * A nested transaction commits: its lists are merged into its parent's in place.  With the room accounted for
   * exactly, the merged dirty list has the computed length whether or not the parent has ancestors of its own.
   */
  method Commit(child: TxnLists, parent: TxnLists, nested: bool)
    requires child.Valid() && parent.Valid() && child != parent && child.dirty != parent.dirty
    requires child.spill != null && parent.spill != null ==>
               child.spill != parent.spill && parent.spill[0] + child.spill[0] <= IdSort.SAFE_LENGTH
    requires child.LayerOf().spill !! parent.LayerOf().spill
    requires |Merge(child.LayerOf(), parent.LayerOf()).dirty| <= UM_MAX
    requires !nested ==> child.room == UM_MAX - |Merge(child.LayerOf(), parent.LayerOf()).dirty|
    modifies parent, parent.dirty, parent.spill
    ensures parent.Valid() && parent.LayerOf() == Merge(old(child.LayerOf()), old(parent.LayerOf()))
    ensures parent.room == child.room
  {
    hide Asc, ToPages, SpillSet, Order, Merge, Bounded;
    ghost var c, p := child.LayerOf(), parent.LayerOf();
    var spill := CommitSpill(parent.spill, child.dirty, child.spill, c, p);
    CommitDirty(parent.dirty, child.dirty, child.spill, nested, child.room, c, p);
    parent.spill, parent.room := spill, child.room;
  }

  // ---- A chain of transactions ----

  /** No two transactions of a chain share a list. */
  ghost predicate Separate(chain: seq<TxnLists>)
    reads chain
  {
    forall i, j :: 0 <= i < j < |chain| ==>
      && chain[i] != chain[j] && chain[i].dirty != chain[j].dirty
      && (chain[i].spill != null ==> chain[i].spill != chain[j].spill)
  }

  /** What PageViews.Inv says of the innermost transaction and its lists. */
  ghost predicate Exact(ls: Stack, room: nat) {
    ls != [] && Apart(ls) && room + |Visible(ls)| == UM_MAX
  }

  /** The spill lists of two transactions together can be sorted. */
  ghost predicate Sortable(c: array?<nat>, p: array?<nat>)
    reads c, p
  {
    c != null && p != null ==> c.Length > 0 && p.Length > 0 && p[0] + c[0] <= IdSort.SAFE_LENGTH
  }

  lemma TopLayers(chain: seq<TxnLists>)
    requires |chain| >= 2 && forall t :: t in chain ==> t.Valid()
    ensures chain[0].Valid() && chain[1].Valid()
    ensures Layers(chain) == [chain[0].LayerOf()] + ([chain[1].LayerOf()] + Layers(chain[2..]))
    ensures Layers(chain[1..]) == [chain[1].LayerOf()] + Layers(chain[2..])
  {
    hide TxnLists.Valid, TxnLists.LayerOf;
    assert chain[0] in chain && chain[1] in chain;
    assert chain[1..][1..] == chain[2..] && chain[1..][0] == chain[1];
  }

  /** With the room exact, the merged list fits, and has the length the child's room says if the parent is the last. */
  lemma CommitFits(ls: Stack, c: Layer, p: Layer, rest: Stack, room: nat)
    requires ls == [c] + ([p] + rest) && Exact(ls, room)
    ensures c.spill !! p.spill && |Merge(c, p).dirty| <= UM_MAX
    ensures rest == [] ==> room == UM_MAX - |Merge(c, p).dirty|
    ensures Committed(ls) == [Merge(c, p)] + rest && Exact(Committed(ls), room)
  {
    hide Merge, Visible, Exact, Apart;
    assert ls[0] == c && ls[1] == p && ls[2..] == rest;
    ExactApart(ls, room);
    SpillsApart(ls, c, p);
    CommitExact(ls, room);
    MergedCount(Merge(c, p), rest, room);
    if rest == [] {
      assert ls == [c, p];
      ExactLength(c, p, room);
    }
  }

  lemma CommitExact(ls: Stack, room: nat)
    requires |ls| >= 2 && Exact(ls, room)
    ensures Exact(Committed(ls), room)
  {
    hide Merge, Visible;
    CommitVisible(ls);
    CommitApart(ls);
  }

  lemma MergedCount(m: Layer, rest: Stack, room: nat)
    requires Exact([m] + rest, room)
    ensures |m.dirty| <= UM_MAX
  {
    MergedVisible(m, rest);
    hide Visible, Apart;
    Fewer(m.dirty.Keys, Visible([m] + rest));
    assert |m.dirty.Keys| == |m.dirty|;
  }

  lemma ExactLength(c: Layer, p: Layer, room: nat)
    requires Exact([c, p], room)
    ensures room == UM_MAX - |Merge(c, p).dirty|
  {
    hide Merge, Visible, Apart;
    MergedLength(c, p, room);
  }

  lemma SpillsApart(ls: Stack, c: Layer, p: Layer)
    requires |ls| >= 2 && Apart(ls) && ls[0] == c && ls[1] == p
    ensures c.spill !! p.spill
  {
    assert ls[1..][0] == p;
  }

  lemma MergedVisible(m: Layer, rest: Stack)
    ensures m.dirty.Keys <= Visible([m] + rest)
  {
    assert ([m] + rest)[0] == m;
  }

  lemma Fewer(a: set<nat>, b: set<nat>)
    requires a <= b
    ensures |a| <= |b|
  {
    assert b == a + (b - a);
  }

  /**
   * The innermost transaction of a chain commits.  The chain without it reads every page as the whole chain did,
   * whatever is in the file, and the room of the new innermost transaction is exact again.
   */
  method CommitInnermost(chain: seq<TxnLists>)
    requires |chain| >= 2 && (forall t :: t in chain ==> t.Valid()) && Separate(chain)
    requires Exact(Layers(chain), chain[0].room) && Sortable(chain[0].spill, chain[1].spill)
    modifies chain[1], chain[1].dirty, chain[1].spill
    ensures forall t :: t in chain[1..] ==> t.Valid()
    ensures Layers(chain[1..]) == Committed(old(Layers(chain))) && Exact(Layers(chain[1..]), chain[1].room)
    ensures forall disk: map<nat, nat>, p: nat :: View(Layers(chain[1..]), disk, p) == old(View(Layers(chain), disk, p))
  {
    hide TxnLists.Valid, TxnLists.LayerOf, Layers, Merge, View, Committed, Exact;
    ghost var ls, rest := Layers(chain), Layers(chain[2..]);
    TopLayers(chain);
    ghost var c, p := chain[0].LayerOf(), chain[1].LayerOf();
    CommitFits(ls, c, p, rest, chain[0].room);
    Commit(chain[0], chain[1], |chain| > 2);
    assert forall i :: 0 <= i < |chain| && i != 1 ==> chain[i].Valid();
    assert Layers(chain[2..]) == rest;
    TopLayers(chain);
    ExactApart(ls, old(chain[0].room));
    forall disk: map<nat, nat>, q: nat ensures View(Layers(chain[1..]), disk, q) == View(ls, disk, q) {
      CommitView(ls, disk, q);
    }
  }

  lemma ExactApart(ls: Stack, room: nat)
    requires Exact(ls, room)
    ensures Apart(ls)
  {
  }

  /** Around a commit mdb_page_get answers the same, in the child before and in the parent after. */
  method CommitThenGet(chain: seq<TxnLists>, disk: map<nat, nat>, pgno: nat) returns (before: Option<nat>,
                       after: Option<nat>)
    requires |chain| >= 2 && (forall t :: t in chain ==> t.Valid()) && Separate(chain)
    requires Exact(Layers(chain), chain[0].room) && Sortable(chain[0].spill, chain[1].spill)
    modifies chain[1], chain[1].dirty, chain[1].spill
    ensures before == old(View(Layers(chain), disk, pgno)) && after == before
  {
    hide *;
    var level;
    before, level := PageGet(chain, disk, pgno);
    CommitInnermost(chain);
    after, level := PageGet(chain[1..], disk, pgno);
  }
}
