/**
 * Whether there is room for a put or a delete: a condition on the sizes of the nodes along the way to the key, which
 * is exactly when mdb_put and mdb_del do not give MDB_PAGE_FULL.
 */
module Rooms {
  import opened Common
  import opened Tree
  import opened Paths
  import opened Search
  import opened BTree
  import opened Reshape
  import opened Halving
  import opened Grow
  import opened Shrink
  import opened Touch
  import opened Leaves
  import Split

  const PAGE_HEADER := 16

  /** me_nodemax */
  function NodeMax(pmax: nat): int { pmax / 2 - (pmax / 2) % 2 - 2 }

  /** The number of overflow pages that size bytes need. */
  function OverflowPages(size: nat, pmax: nat): nat {
    (PAGE_HEADER - 1 + size) / (pmax + PAGE_HEADER) + 1
  }

  /** They hold the data after the header of the first page, and one page less would not. */
  lemma OverflowFits(size: nat, pmax: nat)
    ensures (OverflowPages(size, pmax) - 1) * (pmax + PAGE_HEADER) < PAGE_HEADER + size
    ensures PAGE_HEADER + size <= OverflowPages(size, pmax) * (pmax + PAGE_HEADER)
  {
    var page, q := pmax + PAGE_HEADER, (PAGE_HEADER - 1 + size) / (pmax + PAGE_HEADER);
    assert q * page <= PAGE_HEADER - 1 + size < q * page + page;
    assert (q + 1) * page == q * page + page;
  }

  lemma RunWrittenOver(nd: Node, data: string, pmax: nat)
    requires nd.value.Big? && nd.value.pages >= OverflowPages(|data|, pmax)
    ensures RunHolds(Node(nd.key, nd.value.(data := data)), pmax)
  {
    OverflowFits(|data|, pmax);
    hide OverflowPages;
    Times(OverflowPages(|data|, pmax), nd.value.pages, pmax + 16);
  }

  /** The overflow pages of an entry are enough for its data. */
  ghost predicate RunHolds(nd: Node, pmax: nat) {
    nd.value.Big? ==> 16 + |nd.value.data| <= nd.value.pages * (pmax + 16)
  }

  /** One page less would not be enough. */
  ghost predicate RunTight(nd: Node, pmax: nat) {
    nd.value.Big? ==> (nd.value.pages - 1) * (pmax + 16) < 16 + |nd.value.data|
  }

  lemma InlineHolds(nd: Node, pmax: nat)
    requires nd.value.Inline?
    ensures RunHolds(nd, pmax)
  {
  }

  ghost predicate RunsHold(s: seq<Node>, pmax: nat) {
    forall i :: 0 <= i < |s| ==> RunHolds(s[i], pmax)
  }

  lemma RunsInsert(s: seq<Node>, i: nat, nd: Node, pmax: nat)
    requires RunsHold(s, pmax) && i <= |s| && RunHolds(nd, pmax)
    ensures RunsHold(Split.Insert(s, i, nd), pmax)
  {
    hide RunHolds;
    var u := Split.Insert(s, i, nd);
    forall j | 0 <= j < |u| ensures RunHolds(u[j], pmax) {
      if j > i { assert u[j] == s[j-1]; }
    }
  }

  lemma RunsReplace(s: seq<Node>, i: nat, nd: Node, pmax: nat)
    requires RunsHold(s, pmax) && i < |s| && RunHolds(nd, pmax)
    ensures RunsHold(s[i := nd], pmax)
  {
    hide RunHolds;
  }

  lemma RunsRemove(s: seq<Node>, i: nat, pmax: nat)
    requires RunsHold(s, pmax) && i < |s|
    ensures RunsHold(Split.Remove(s, i), pmax)
  {
    hide RunHolds;
    var u := Split.Remove(s, i);
    forall j | 0 <= j < |u| ensures RunHolds(u[j], pmax) {
      if j >= i { assert u[j] == s[j+1]; }
    }
  }

  /** Data of that many bytes goes to overflow pages. */
  predicate IsBig(key: Key, len: nat, pmax: nat) {
    Split.NODESIZE + key.size + len > NodeMax(pmax)
  }

  /** Bytes of a new node on its leaf. */
  function NewBytes(key: Key, len: nat, pmax: nat): nat {
    Split.Even(Split.NODESIZE + key.size + (if IsBig(key, len, pmax) then PGNO_BYTES else len)) + Split.SLOT
  }

  /** Data of that many bytes is written over the old data, without a new node. */
  predicate WritesOver(nd: Node, len: nat, dirty: set<nat>, pmax: nat) {
    match nd.value
    case Big(pg, pages, _) => pages >= OverflowPages(len, pmax) && pg in dirty
    case Inline(data) => |data| == len
    case _ => false
  }

  /** The keys of a leaf once a key is put in slot i, and the sizes of its nodes. */
  function KeysWith(nodes: seq<Node>, i: nat, key: Key, len: nat, dirty: set<nat>, pmax: nat): seq<Key>
    requires i <= |nodes|
  {
    if i == |nodes| || nodes[i].key.rank != key.rank then Split.Insert(LeafKeys(nodes), i, key)
    else if WritesOver(nodes[i], len, dirty, pmax) then LeafKeys(nodes)
    else LeafKeys(nodes)[i := key]
  }

  function SizesWith(nodes: seq<Node>, i: nat, key: Key, len: nat, dirty: set<nat>, pmax: nat): seq<nat>
    requires i <= |nodes|
  {
    if i == |nodes| || nodes[i].key.rank != key.rank then Split.Insert(LeafSizes(nodes), i, NewBytes(key, len, pmax))
    else if WritesOver(nodes[i], len, dirty, pmax) then LeafSizes(nodes)
    else LeafSizes(nodes)[i := NewBytes(key, len, pmax)]
  }

  /** The leaf at path takes the node in slot i, or can be split for it. */
  ghost predicate RoomAt(t: Tree, path: seq<nat>, i: nat, key: Key, len: nat, append: bool, dirty: set<nat>, pmax: nat)
    requires IsPath(t, path) && At(t, path).Leaf? && i <= |At(t, path).nodes|
  {
    var nodes := At(t, path).nodes;
    var keys, sizes := KeysWith(nodes, i, key, len, dirty, pmax), SizesWith(nodes, i, key, len, dirty, pmax);
    Split.Sum(sizes) <= pmax || CanSplit(t, path, keys, sizes, true, i, append, pmax)
  }

  /** A key can be put into a tree of height h. */
  ghost predicate CanPut(t: Tree, h: nat, key: Key, len: nat, append: bool, dirty: set<nat>, pmax: nat) {
    exists path: seq<nat>, i: nat ::
      Place(t, path, i, key.rank, h) && IsPath(t, path) && RoomAt(t, path, i, key, len, append, dirty, pmax)
  }

  /** The leaf at path does without the node in slot i. */
  ghost predicate SettlesAt(t: Tree, path: seq<nat>, i: nat, pmax: nat)
    requires IsPath(t, path) && At(t, path).Leaf? && i < |At(t, path).nodes|
  {
    pmax > 0 && CanSettle(t, path, true, LeafSizes(Split.Remove(At(t, path).nodes, i)), pmax)
  }

  /** A key can be deleted from a tree of height h. */
  ghost predicate CanDel(t: Tree, h: nat, key: real, pmax: nat) {
    exists path: seq<nat>, i: nat ::
      && Place(t, path, i, key, h) && IsPath(t, path) && i < |At(t, path).nodes| && SettlesAt(t, path, i, pmax)
  }

  // ---- The place of a key is unique ----

  lemma PlaceUnique(t: Tree, path: seq<nat>, i: nat, path': seq<nat>, i': nat, key: real, h: nat)
    requires Ordered(t, None, None) && Place(t, path, i, key, h) && Place(t, path', i', key, h)
    ensures path == path' && i == i'
  {
    RoutedUnique(t, path, path', key);
    hide Ordered, Routed, IsLowerBound;
    LowerBoundUnique(At(t, path).nodes, key, i, i');
  }

  lemma PutAt(t: Tree, path: seq<nat>, i: nat, h: nat, key: Key, len: nat, append: bool, dirty: set<nat>, pmax: nat)
    requires Ordered(t, None, None) && Place(t, path, i, key.rank, h) && IsPath(t, path)
    ensures CanPut(t, h, key, len, append, dirty, pmax) <==> RoomAt(t, path, i, key, len, append, dirty, pmax)
  {
    hide Ordered, RoomAt, Routed, IsPath, At;
    if CanPut(t, h, key, len, append, dirty, pmax) {
      var path': seq<nat>, i': nat :| Place(t, path', i', key.rank, h) && IsPath(t, path')
                                      && RoomAt(t, path', i', key, len, append, dirty, pmax);
      PlaceUnique(t, path, i, path', i', key.rank, h);
    }
  }

  lemma DelAt(t: Tree, path: seq<nat>, i: nat, h: nat, key: real, pmax: nat)
    requires Ordered(t, None, None) && Place(t, path, i, key, h) && IsPath(t, path) && i < |At(t, path).nodes|
    ensures CanDel(t, h, key, pmax) <==> SettlesAt(t, path, i, pmax)
  {
    hide Ordered, SettlesAt, Routed, IsPath, At;
    if CanDel(t, h, key, pmax) {
      var path': seq<nat>, i': nat :| Place(t, path', i', key, h) && IsPath(t, path') && i' < |At(t, path').nodes|
                                      && SettlesAt(t, path', i', pmax);
      PlaceUnique(t, path, i, path', i', key, h);
    }
  }

  // ---- Page numbers do not matter ----

  lemma {:induction false} SameSplits(t: Tree, u: Tree, path: seq<nat>, keys: seq<Key>, sizes: seq<nat>, leaf: bool,
                                      newindx: nat, append: bool, pmax: nat)
    requires Same(t, u) && IsPath(t, path)
    ensures CanSplit(t, path, keys, sizes, leaf, newindx, append, pmax) <==>
            CanSplit(u, path, keys, sizes, leaf, newindx, append, pmax)
    decreases |path|
  {
    SameAt(t, u, path);
    if newindx < |sizes| == |keys| && |sizes| >= 3 {
      hide Cuttable, CutFor, CanSplit, TakesKey, Same;
      SplitStep(t, path, keys, sizes, leaf, newindx, append, pmax);
      SplitStep(u, path, keys, sizes, leaf, newindx, append, pmax);
      if path != [] { SameTakes(t, u, path, keys[CutFor(sizes, newindx, append, leaf, pmax)], pmax); }
    }
  }

  lemma {:induction false} SameTakes(t: Tree, u: Tree, path: seq<nat>, sep: Key, pmax: nat)
    requires Same(t, u) && IsPath(t, path) && IsPath(u, path) && path != []
    ensures TakesKey(t, path, sep, pmax) <==> TakesKey(u, path, sep, pmax)
    decreases |path|, 0
  {
    var init, i := path[..|path|-1], path[|path|-1];
    SameAt(t, u, init);
    assert Same(At(t, init), At(u, init));
    var keys := At(t, init).keys;
    hide CanSplit, Same, Split.Sum;
    if i < |keys| {
      var keys' := Split.Insert(keys, i + 1, sep);
      SameSplits(t, u, init, keys', BranchSizes(keys'), false, i + 1, false, pmax);
    }
  }

  lemma SameRoom(t: Tree, u: Tree, path: seq<nat>, i: nat, key: Key, len: nat, append: bool, dirty: set<nat>, pmax: nat)
    requires Same(t, u) && IsPath(t, path) && At(t, path).Leaf? && i <= |At(t, path).nodes|
    ensures IsPath(u, path) && At(u, path).Leaf? && At(u, path).nodes == At(t, path).nodes
    ensures RoomAt(t, path, i, key, len, append, dirty, pmax) <==> RoomAt(u, path, i, key, len, append, dirty, pmax)
  {
    SameAt(t, u, path);
    assert Same(At(t, path), At(u, path));
    var nodes := At(t, path).nodes;
    hide CanSplit, Same, Split.Sum, KeysWith, SizesWith;
    SameSplits(t, u, path, KeysWith(nodes, i, key, len, dirty, pmax), SizesWith(nodes, i, key, len, dirty, pmax), true,
      i, append, pmax);
  }

  lemma {:induction false} SameSettles(t: Tree, u: Tree, path: seq<nat>, leaf: bool, sizes: seq<nat>, pmax: nat)
    requires Same(t, u) && IsPath(t, path) && pmax > 0
    ensures CanSettle(t, path, leaf, sizes, pmax) <==> CanSettle(u, path, leaf, sizes, pmax)
    decreases |path|
  {
    SameAt(t, u, path);
    hide SettlesAbove, Same, EnoughNodes;
    if path != [] { SameAbove(t, u, path, pmax); }
  }

  lemma {:induction false} SameAbove(t: Tree, u: Tree, path: seq<nat>, pmax: nat)
    requires Same(t, u) && IsPath(t, path) && IsPath(u, path) && path != [] && pmax > 0
    ensures SettlesAbove(t, path, pmax) <==> SettlesAbove(u, path, pmax)
    decreases |path|, 0
  {
    hide CanSettle, TakesInstead, Same, Rich, SparedKey, BranchSizes, Split.Remove, At, IsPath;
    var init, last := path[..|path|-1], path[|path|-1];
    SamePage(t, u, path);
    var p, p', i := At(t, init), At(u, init), if last > 0 then last - 1 else 0;
    if i + 1 < |p.kids| == |p.keys| {
      var nb, nb' := if last > 0 then p.kids[i] else p.kids[i+1], if last > 0 then p'.kids[i] else p'.kids[i+1];
      SameKeys(nb, nb', pmax);
      SameInstead(t, u, init, p.keys, i + 1, SparedKey(nb, last > 0), pmax);
      SameSettles(t, u, init, false, BranchSizes(Split.Remove(p.keys, i + 1)), pmax);
    }
  }

  lemma SamePage(t: Tree, u: Tree, path: seq<nat>)
    requires Same(t, u) && IsPath(t, path) && IsPath(u, path) && path != []
    ensures var init := path[..|path|-1];
            && IsPath(t, init) && IsPath(u, init) && At(t, init).Branch? && At(u, init).Branch?
            && var p, p' := At(t, init), At(u, init);
            && p.keys == p'.keys && |p.kids| == |p'.kids|
            && forall i :: 0 <= i < |p.kids| ==> Same(p.kids[i], p'.kids[i])
  {
    SameAt(t, u, path[..|path|-1]);
  }

  lemma SameKeys(x: Tree, y: Tree, pmax: nat)
    requires Same(x, y) && pmax > 0
    ensures KeysOf(x) == KeysOf(y) && (Rich(x, pmax) <==> Rich(y, pmax))
    ensures SparedKey(x, true) == SparedKey(y, true) && SparedKey(x, false) == SparedKey(y, false)
  {
  }

  lemma SameInstead(t: Tree, u: Tree, path: seq<nat>, keys: seq<Key>, j: nat, sep: Key, pmax: nat)
    requires Same(t, u) && IsPath(t, path) && j < |keys|
    ensures TakesInstead(t, path, keys, j, sep, pmax) <==> TakesInstead(u, path, keys, j, sep, pmax)
  {
    hide CanSplit, Same, Split.Sum;
    SameSplits(t, u, path, keys[j := sep], BranchSizes(keys[j := sep]), false, j, false, pmax);
  }

  // ---- Where there is always room ----

  lemma TwoFit(sizes: seq<nat>, pmax: nat)
    requires |sizes| <= 2 && forall i :: 0 <= i < |sizes| ==> 2 * sizes[i] <= pmax
    ensures Split.Sum(sizes) <= pmax
  {
    if |sizes| == 2 {
      assert sizes == [sizes[0], sizes[1]];
      Split.SumPair(sizes[0], sizes[1]);
    } else if |sizes| == 1 {
      assert sizes == [sizes[0]];
      Split.SumOne(sizes[0]);
    }
  }

  /** A leaf with the new node has room if the cuts are searched for. */
  lemma GuardedRoom(t: Tree, path: seq<nat>, i: nat, h: nat, key: Key, len: nat, append: bool, dirty: set<nat>,
                    pmax: nat)
    requires Good(t, h, None, None, pmax) && IsPath(t, path) && |path| == h && At(t, path).Leaf?
             && i <= |At(t, path).nodes|
    requires 2 * NewBytes(key, len, pmax) <= pmax && Guarded(t, path)
    requires var nodes := At(t, path).nodes;
             Spared(|SizesWith(nodes, i, key, len, dirty, pmax)| - 1, i)
    ensures RoomAt(t, path, i, key, len, append, dirty, pmax)
  {
    var nodes := At(t, path).nodes;
    LeafSmall(t, path, h, pmax);
    WithSmall(nodes, i, key, len, dirty, pmax);
    var keys, sizes := KeysWith(nodes, i, key, len, dirty, pmax), SizesWith(nodes, i, key, len, dirty, pmax);
    hide Good, KeysWith, SizesWith, Guarded, Spared, CanSplit, LeafSizes, Split.Sum;
    if |sizes| <= 2 {
      TwoFit(sizes, pmax);
    } else {
      GuardedSplits(t, path, keys, sizes, true, i, append, pmax, h);
    }
  }

  /**
   * A new node of more than a sixteenth of a page is always accepted on its leaf: it fits, or the leaf can be cut.
   * So it is on a tree of one leaf.
   */
  lemma LargeNodeAccepted(t: Tree, path: seq<nat>, i: nat, h: nat, key: Key, len: nat, dirty: set<nat>, pmax: nat)
    requires Good(t, h, None, None, pmax) && IsPath(t, path) && |path| == h && At(t, path).Leaf?
             && i <= |At(t, path).nodes| && (i < |At(t, path).nodes| ==> At(t, path).nodes[i].key.rank != key.rank)
    requires pmax < 16 * NewBytes(key, len, pmax) && 2 * NewBytes(key, len, pmax) <= pmax
    ensures var sizes := SizesWith(At(t, path).nodes, i, key, len, dirty, pmax);
            && i < |sizes| && (Split.Sum(sizes) <= pmax || (|sizes| >= 3 && Cuttable(sizes, i, false, true, pmax)))
    ensures h == 0 ==> RoomAt(t, path, i, key, len, false, dirty, pmax)
  {
    var nodes := At(t, path).nodes;
    LeafSmall(t, path, h, pmax);
    WithSmall(nodes, i, key, len, dirty, pmax);
    var keys, sizes := KeysWith(nodes, i, key, len, dirty, pmax), SizesWith(nodes, i, key, len, dirty, pmax);
    SizeCount(nodes);
    assert sizes[i] == NewBytes(key, len, pmax);
    hide Good, NewBytes, LeafSizes, Split.Sum, Split.Fits, KeysWith, SizesWith, CanSplit;
    if |sizes| <= 2 {
      TwoFit(sizes, pmax);
    } else {
      SplitStep(t, path, keys, sizes, true, i, false, pmax);
    }
  }

  lemma LeafSmall(t: Tree, path: seq<nat>, h: nat, pmax: nat)
    requires Good(t, h, None, None, pmax) && IsPath(t, path) && |path| == h && At(t, path).Leaf?
    ensures At(t, path).nodes != []
    ensures forall i :: 0 <= i < |At(t, path).nodes| ==> 2 * LeafSizes(At(t, path).nodes)[i] <= pmax
  {
    GoodAt(t, path, h, pmax);
  }

  lemma WithSmall(nodes: seq<Node>, i: nat, key: Key, len: nat, dirty: set<nat>, pmax: nat)
    requires i <= |nodes| && nodes != [] && 2 * NewBytes(key, len, pmax) <= pmax
    requires forall j :: 0 <= j < |nodes| ==> 2 * LeafSizes(nodes)[j] <= pmax
    ensures var keys, sizes := KeysWith(nodes, i, key, len, dirty, pmax), SizesWith(nodes, i, key, len, dirty, pmax);
            && i < |sizes| == |keys| && forall j :: 0 <= j < |sizes| ==> 2 * sizes[j] <= pmax
  {
    hide NewBytes, LeafSizes, WritesOver;
    SizeCount(nodes);
  }

  lemma WithCount(nodes: seq<Node>, i: nat, key: Key, len: nat, dirty: set<nat>, pmax: nat)
    requires i <= |nodes|
    ensures |SizesWith(nodes, i, key, len, dirty, pmax)| ==
            if i == |nodes| || nodes[i].key.rank != key.rank then |nodes| + 1 else |nodes|
  {
    hide NewBytes, WritesOver;
  }

  /** Which pages are dirty matters only for overflow pages that are written over. */
  lemma SameDirty(t: Tree, path: seq<nat>, i: nat, key: Key, len: nat, append: bool, d: set<nat>, d': set<nat>,
                  pmax: nat)
    requires IsPath(t, path) && At(t, path).Leaf? && i <= |At(t, path).nodes|
    requires var nodes := At(t, path).nodes;
             i < |nodes| && nodes[i].key.rank == key.rank && nodes[i].value.Big? && nodes[i].value.pages > 0 ==>
               (nodes[i].value.pg in d <==> nodes[i].value.pg in d')
    ensures RoomAt(t, path, i, key, len, append, d, pmax) <==> RoomAt(t, path, i, key, len, append, d', pmax)
  {
    hide IsPath, At, CanSplit, Split.Sum, NewBytes, LeafSizes, LeafKeys, Split.Insert;
  }

  lemma SizeCount(nodes: seq<Node>)
    ensures |LeafSizes(nodes)| == |LeafKeys(nodes)| == |nodes|
  {
  }

  /** A tree without a page of twenty nodes lets any key go. */
  lemma {:induction false} NarrowSettles(t: Tree, path: seq<nat>, leaf: bool, sizes: seq<nat>, pmax: nat, h: nat)
    requires Good(t, h, None, None, pmax) && Narrow(t) && IsPath(t, path) && |path| <= h && pmax > 0
    ensures CanSettle(t, path, leaf, sizes, pmax)
    decreases |path|
  {
    hide Good, Narrow, TakesInstead, Rich, SparedKey, BranchSizes, Split.Remove, EnoughNodes, Split.Sum, IsPath, At,
         Guarded, SmallNodes, WellFormed;
    if path != [] {
      var init, last := path[..|path|-1], path[|path|-1];
      PathUp(t, path);
      var p, i := At(t, init), if last > 0 then last - 1 else 0;
      NarrowParent(t, init, pmax, h);
      var nb := if last > 0 then p.kids[i] else p.kids[i+1];
      if Rich(nb, pmax) {
        NarrowTakes(t, init, i + 1, nb, last > 0, pmax, h);
      } else {
        NarrowSettles(t, init, false, BranchSizes(Split.Remove(p.keys, i + 1)), pmax, h);
      }
    }
  }

  lemma NarrowParent(t: Tree, path: seq<nat>, pmax: nat, h: nat)
    requires Good(t, h, None, None, pmax) && Narrow(t) && IsPath(t, path) && |path| < h
    ensures Guarded(t, path)
    ensures var p := At(t, path);
            && p.Branch? && |p.keys| == |p.kids| && 2 <= |p.kids| < 20
            && forall i :: 0 <= i < |p.kids| ==> WellFormed(p.kids[i]) && SmallNodes(p.kids[i], pmax)
  {
    hide Good, Guarded, IsPath, At, SmallNodes;
    NarrowGuarded(t, path);
    GoodAt(t, path, h, pmax);
    GoodKids(At(t, path), h - |path|, LoAt(t, path), HiAt(t, path), pmax);
  }

  lemma GoodKids(p: Tree, h: nat, lo: Option<real>, hi: Option<real>, pmax: nat)
    requires Good(p, h, lo, hi, pmax) && h > 0
    ensures p.Branch? && |p.keys| == |p.kids| && |p.kids| >= 2
    ensures forall i :: 0 <= i < |p.kids| ==> WellFormed(p.kids[i]) && SmallNodes(p.kids[i], pmax)
  {
    assert WellFormed(p) && |p.kids| >= 2 && KidsOk(p, pmax);
    forall i | 0 <= i < |p.kids| ensures WellFormed(p.kids[i]) && SmallNodes(p.kids[i], pmax) {
      assert Balanced(p.kids[i], h - 1) && AllOk(p.kids[i], pmax);
      hide Ordered, SmallNodes, Used, KidsOk;
    }
  }

  lemma PathUp(t: Tree, path: seq<nat>)
    requires IsPath(t, path) && path != []
    ensures var init, last := path[..|path|-1], path[|path|-1];
            IsPath(t, init) && At(t, init).Branch? && last < |At(t, init).kids|
  {
  }

  lemma NarrowTakes(t: Tree, path: seq<nat>, j: nat, nb: Tree, left: bool, pmax: nat, h: nat)
    requires Good(t, h, None, None, pmax) && Guarded(t, path) && |path| < h && IsPath(t, path) && At(t, path).Branch?
    requires 0 < j < |At(t, path).keys| < 20 && WellFormed(nb) && SmallNodes(nb, pmax) && pmax > 0 && Rich(nb, pmax)
    ensures TakesInstead(t, path, At(t, path).keys, j, SparedKey(nb, left), pmax)
  {
    var sep := SparedKey(nb, left);
    var keys' := At(t, path).keys[j := sep];
    var sizes := BranchSizes(keys');
    if |keys'| == 2 {
      SparedSmall(nb, left, pmax);
      TwoFit(sizes, pmax);
    } else {
      hide Good, Guarded, SparedKey, CanSplit, Split.Sum, IsPath, At;
      GuardedSplits(t, path, keys', sizes, false, j, false, pmax, h);
    }
  }

  lemma SparedSmall(nb: Tree, left: bool, pmax: nat)
    requires WellFormed(nb) && SmallNodes(nb, pmax) && nb.NumKeys() > 1
    ensures SmallKey(SparedKey(nb, left), pmax)
  {
  }
}
