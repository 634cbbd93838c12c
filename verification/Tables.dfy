/**
 * One database inside a write transaction: mdb_get, mdb_put and mdb_del without duplicates.  The tree
 * refines a finite map, pages are copied before they are written, and every page is accounted for.
 */
module Tables {
  import opened Common
  import opened PageNumbers
  import opened Tree
  import opened Paths
  import opened Search
  import opened Update
  import opened Cursors
  import opened BTree
  import opened Reshape
  import opened CopyOnWrite
  import opened Halving
  import opened Grow
  import opened Shrink
  import opened Touch
  import opened Contents
  import opened Leaves
  import opened Rooms
  import Split

  const MAXKEY := 511              // MDB_MAXKEYSIZE
  const MAXDATA := 0xffff_ffff     // MAXDATASIZE
  const MIN_PMAX := 4080           // what a page of 4096 bytes leaves for nodes

  datatype Status = Ok | KeyExist | NotFound | BadValSize | Incompatible | PageFull

  // ---- Nodes ----

  lemma SmallNew(key: Key, data: string, pg: nat, pages: nat, pmax: nat)
    requires pmax >= MIN_PMAX && key.size <= MAXKEY
    ensures SmallKey(key, pmax) && SmallNode(Node(key, Big(pg, pages, data)), pmax)
    ensures Split.NODESIZE + key.size + |data| <= NodeMax(pmax) ==> SmallNode(Node(key, Inline(data)), pmax)
  {
    if Split.NODESIZE + key.size + |data| <= NodeMax(pmax) {
      EvenBound(Split.NODESIZE + key.size + |data|, NodeMax(pmax));
    }
  }

  lemma NewSmall(key: Key, len: nat, pmax: nat)
    requires pmax >= MIN_PMAX && key.size <= MAXKEY
    ensures 2 * NewBytes(key, len, pmax) <= pmax
  {
    if !IsBig(key, len, pmax) { EvenBound(Split.NODESIZE + key.size + len, NodeMax(pmax)); }
  }

  lemma EvenBound(n: nat, m: int)
    requires m % 2 == 0 && n <= m
    ensures Split.Even(n) <= m
  {
  }

  /** me_nodemax is set so that two nodes of that size fit on a page (MDB_MINKEYS). */
  lemma InlineIff(key: Key, data: string, pmax: nat)
    ensures IsBig(key, |data|, pmax) <==> 2 * NodeBytes(Node(key, Inline(data))) > pmax
  {
    var n := Split.NODESIZE + key.size + |data|;
    assert NodeBytes(Node(key, Inline(data))) == Split.Even(n) + 2;
    HalfPage(n, pmax);
  }

  lemma HalfPage(n: nat, pmax: nat)
    ensures n > NodeMax(pmax) <==> 2 * (Split.Even(n) + 2) > pmax
  {
  }

  /**
   * New data for a key: on the leaf if two such nodes fit on a page, otherwise on a run of as many overflow pages as
   * the data needs.
   */
  method AddNode(key: Key, data: string, pmax: nat, txn: Txn) returns (nd: Node, txn': Txn)
    requires pmax >= MIN_PMAX && key.size <= MAXKEY
    ensures SmallNode(nd, pmax) && nd.key == key && Data(nd.value) == Some(data)
            && Tally(RunOf(nd.value), multiset{}, txn, txn')
    ensures NodeBytes(nd) == NewBytes(key, |data|, pmax)
    ensures nd.value.Inline? <==> 2 * NodeBytes(Node(key, Inline(data))) <= pmax
    ensures RunHolds(nd, pmax) && RunTight(nd, pmax)
  {
    hide SmallNode, Tally, Supplied, Span;
    InlineIff(key, data, pmax);
    OverflowFits(|data|, pmax);
    hide NodeMax, IsBig, OverflowPages;
    if IsBig(key, |data|, pmax) {
      var pages := OverflowPages(|data|, pmax);
      var pg;
      pg, txn' := AllocRun(txn, pages);
      SmallNew(key, data, pg, pages, pmax);
      nd := Node(key, Big(pg, pages, data));
      SuppliedTally(txn, txn', pg, pages);
    } else {
      SmallNew(key, data, 0, 0, pmax);
      nd, txn' := Node(key, Inline(data)), txn;
      TallyNone(multiset{}, txn);
    }
  }

  /**
   * The overflow pages of a node that is deleted (mdb_ovpage_free): pages of this transaction may go back to
   * me_pghead, if there is one and the transaction is not nested; others go to the free list.
   */
  method FreeOverflow(nd: Node, txn: Txn) returns (txn': Txn)
    ensures Tally(multiset{}, RunOf(nd.value), txn, txn')
  {
    hide Tally, Span;
    TallyNone(multiset{}, txn);
    txn' := txn;
    if nd.value.Big? {
      var pg, n := nd.value.pg, nd.value.pages;
      var pghead: bool := *;
      if pghead && Range(pg, pg + n) <= txn.dirty {
        txn' := txn.(spare := txn.spare + Span(pg, pg + n));
        TallySpare(txn, pg, n);
      } else {
        txn' := txn.(free := txn.free + Run(pg, n));
        TallyFreed(txn, pg, n);
      }
    }
  }

  lemma TallySpare(a: Txn, pg: nat, n: nat)
    requires Range(pg, pg + n) <= a.dirty
    ensures Tally(multiset{}, Span(pg, pg + n), a, a.(spare := a.spare + Span(pg, pg + n)))
  {
    SpanOne(a.next);
    hide Span;
    var b, s := a.(spare := a.spare + Span(pg, pg + n)), Span(pg, pg + n);
    forall x: nat | x in b.dirty || x in Pool(b) ensures x in a.dirty || x in Pool(a) || a.next <= x < b.next {
      SpanAt(pg, pg + n, x);
    }
    assert Outside(b) == s + Outside(a);
  }

  lemma TallyFreed(a: Txn, pg: nat, n: nat)
    ensures Tally(multiset{}, Span(pg, pg + n), a, a.(free := a.free + Run(pg, n)))
  {
    SpanOne(a.next);
    RunSpan(pg, n);
    hide Span;
    var b, s := a.(free := a.free + Run(pg, n)), Span(pg, pg + n);
    assert multiset(b.free) == multiset(a.free) + s;
    assert Outside(b) == s + Outside(a);
  }

  /** Data of the same size, or for overflow pages of this transaction that are enough, is written over the old. */
  method OverwriteNode(nd: Node, key: Key, data: string, pmax: nat, txn: Txn) returns (nd': Node, txn': Txn)
    requires pmax >= MIN_PMAX && key.size <= MAXKEY && SmallNode(nd, pmax) && key.rank == nd.key.rank
             && Data(nd.value).Some?
    ensures SmallNode(nd', pmax) && nd'.key.rank == key.rank && Data(nd'.value) == Some(data)
    ensures Tally(RunOf(nd'.value), RunOf(nd.value), txn, txn')
    ensures if WritesOver(nd, |data|, txn.dirty, pmax) then nd'.key == nd.key && NodeBytes(nd') == NodeBytes(nd)
            else nd'.key == key && NodeBytes(nd') == NewBytes(key, |data|, pmax)
    ensures RunHolds(nd, pmax) ==> RunHolds(nd', pmax)
  {
    hide OverflowPages, RunHolds, RunTight, NodeMax, SmallKey;
    if nd.value.Big? && nd.value.pages >= OverflowPages(|data|, pmax) && nd.value.pg in txn.dirty {
      RunWrittenOver(nd, data, pmax);
      nd', txn' := Node(nd.key, nd.value.(data := data)), txn;
      TallyNone(RunOf(nd.value), txn);
    } else if nd.value.Inline? && |nd.value.data| == |data| {
      nd', txn' := Node(nd.key, Inline(data)), txn;
      InlineHolds(nd', pmax);
      TallyNone(multiset{}, txn);
    } else {
      hide SmallNode, RunOf, Tally, NodeBytes, NewBytes;
      var txn1 := FreeOverflow(nd, txn);
      nd', txn' := AddNode(key, data, pmax, txn1);
      TallyThen(RunOf(nd.value), multiset{}, RunOf(nd'.value), txn, txn1, txn');
    }
  }

  // ---- Places ----

  lemma {:induction false} OkNoEmptyLeaf(t: Tree, pmax: nat)
    requires AllOk(t, pmax)
    ensures NoEmptyLeaf(t)
    decreases t
  {
    if t.Branch? {
      forall i | 0 <= i < |t.kids| ensures NoEmptyLeaf(t.kids[i]) { OkNoEmptyLeaf(t.kids[i], pmax); }
    }
  }

  lemma SetPlace(t: Tree, h: nat, key: real, rc: Rc, ki: seq<nat>)
    requires SetOutcome(t, h, key, false, rc, ki)
    ensures |ki| == h + 1 && Place(t, ki[..h], ki[h], key, h) && IsPath(t, ki[..h])
    ensures var nodes, i := At(t, ki[..h]).nodes, ki[h];
            rc.Found? <==> i < |nodes| && nodes[i].key.rank == key
  {
    var path: seq<nat>, i: nat :| OutcomeAt(t, h, key, false, rc, ki, path, i);
    assert ki == path + [i];
    assert ki[..h] == path;
  }

  /** A leaf without a right neighbour has no upper bound. */
  lemma {:induction false} LastUnbounded(t: Tree, path: seq<nat>)
    requires Ordered(t, None, None) && IsPath(t, path) && Neighbour(t, path, true).None?
    ensures HiAt(t, path) == None
    decreases |path|
  {
    if path != [] {
      LastUnbounded(t, path[..|path|-1]);
      OrderedAt(t, path[..|path|-1]);
    }
  }

  /** A key above all entries belongs at the end of the last leaf. */
  lemma AppendPlace(t: Tree, path: seq<nat>, key: real, h: nat, pmax: nat)
    requires Good(t, h, None, None, pmax) && IsPath(t, path) && |path| == h && Neighbour(t, path, true).None?
    requires forall i :: 0 <= i < |InOrder(t)| ==> InOrder(t)[i].key.rank < key
    ensures At(t, path).Leaf? && Place(t, path, |At(t, path).nodes|, key, h)
  {
    LeafOf(t, path, h, pmax);
    LastUnbounded(t, path);
    var nodes := At(t, path).nodes;
    forall i | 0 <= i < |nodes| ensures nodes[i].key.rank < key {
      EntryAtPos(t, path, i, h);
    }
    assert Above(LoAt(t, path), nodes[0].key.rank);
    hide Good, Neighbour, InOrder, IsPath, At, LeafFor;
    RoutedWithin(t, path, key);
  }

  /** And nowhere else. */
  lemma LastPlace(t: Tree, path: seq<nat>, i: nat, key: real, h: nat, pmax: nat)
    requires Good(t, h, None, None, pmax) && Place(t, path, i, key, h)
    requires forall k :: 0 <= k < |InOrder(t)| ==> InOrder(t)[k].key.rank < key
    ensures Rightmost(t, path) && i == |At(t, path).nodes|
  {
    var q := RightEdge(t, h, h);
    RightmostUnbounded(t, q);
    AppendPlace(t, q, key, h, pmax);
    hide Good, InOrder, Neighbour, Routed, Rightmost, At, IsPath, IsLowerBound;
    RoutedUnique(t, path, q, key);
    LowerBoundUnique(At(t, q).nodes, key, i, |At(t, q).nodes|);
  }

  /** The place of a key where nothing can go wrong: the tree has no page of twenty nodes, or the key is the last. */
  lemma GuardedPlace(t: Tree, path: seq<nat>, i: nat, key: real, h: nat, pmax: nat)
    requires Good(t, h, None, None, pmax) && Place(t, path, i, key, h)
    requires Narrow(t) || forall k :: 0 <= k < |InOrder(t)| ==> InOrder(t)[k].key.rank < key
    ensures Guarded(t, path) && (|At(t, path).nodes| < 20 || i == |At(t, path).nodes|)
  {
    hide Good, InOrder, Narrow, Guarded, Rightmost;
    if Narrow(t) {
      NarrowAt(t, path);
    } else {
      LastPlace(t, path, i, key, h, pmax);
      RightmostGuarded(t, path);
    }
  }

  lemma NarrowAt(t: Tree, path: seq<nat>)
    requires Narrow(t) && IsPath(t, path)
    ensures Guarded(t, path) && At(t, path).NumKeys() < 20
  {
    NarrowGuarded(t, path);
  }

  lemma PlaceLookup(t: Tree, path: seq<nat>, i: nat, key: real, h: nat, pmax: nat)
    requires Good(t, h, None, None, pmax) && Place(t, path, i, key, h)
    ensures IsPath(t, path) && Sorted(InOrder(t)) && i <= |At(t, path).nodes|
    ensures key in ToMap(InOrder(t)) <==> i < |At(t, path).nodes| && At(t, path).nodes[i].key.rank == key
    ensures key in ToMap(InOrder(t)) ==> ToMap(InOrder(t))[key] == Data(At(t, path).nodes[i].value)
  {
    EntriesSorted(t, None, None);
    LowerBoundGlobal(t, path, key, i, h);
    EntryAtPos(t, path, i, h);
    BeyondThePage(t, path, key, h);
    hide Good, InOrder, Sorted, ToMap, IsLowerBound, Routed;
    Lookup(InOrder(t), key, Pos(t, path, i));
  }

  lemma WritableLeaf(u: Tree, path: seq<nat>, x: Tree, known: set<Tree>, dirty: set<nat>, dirty': set<nat>)
    requires IsPath(u, path) && Closed(known) && Frozen(u, known, dirty) && PathDirty(u, path, dirty) && dirty <= dirty'
    requires x.Leaf? && x.pgno in dirty
    ensures Writable(u, path, x, known, dirty')
  {
    FrozenMore(u, known, dirty, dirty');
    PathDirtyMore(u, path, dirty, dirty');
  }

  /** The place of a key is the same in the touched tree. */
  lemma SamePlace(t: Tree, u: Tree, path: seq<nat>, i: nat, key: real, h: nat, pmax: nat)
    requires Same(t, u) && Good(t, h, None, None, pmax) && Place(t, path, i, key, h)
    ensures IsPath(t, path) && Good(u, h, None, None, pmax) && Place(u, path, i, key, h)
            && At(u, path).nodes == At(t, path).nodes
    ensures InOrder(u) == InOrder(t) && Pos(u, path, i) == Pos(t, path, i)
  {
    SameGood(t, u, h, None, None, pmax);
    SameAt(t, u, path);
    SameInOrder(t, u);
    RoutedWithin(t, path, key);
    RoutedWithin(u, path, key);
    SameAround(t, u, path);
    AllSameInOrder(Left(t, path), Left(u, path));
    hide Good, InOrder, InOrders, AllSame, PathDirty;
    assert Same(At(t, path), At(u, path));
  }

  // ---- Putting and deleting, on trees ----

  /** r is a good tree for the given entries, with its pages accounted for and clean pages untouched. */
  ghost predicate Stored(r: Tree, h: nat, entries: seq<Node>, t: Tree, txn: Txn, txn': Txn, known: set<Tree>,
                         pmax: nat) {
    && Good(r, h, None, None, pmax) && InOrder(r) == entries && Frozen(r, known, txn'.dirty)
    && Tally(Pages(r) + Over(entries), Pages(t) + Over(InOrder(t)), txn, txn')
  }

  /** Touched and ready to be written: u is t with new numbers on the way to the leaf at path. */
  ghost predicate Ready(u: Tree, path: seq<nat>, known: set<Tree>, dirty: set<nat>) {
    && IsPath(u, path) && Closed(known) && Frozen(u, known, dirty) && PathDirty(u, path, dirty)
         && At(u, path).pgno in dirty
  }

  lemma ReadyPath(u: Tree, path: seq<nat>, known: set<Tree>, dirty: set<nat>)
    requires Ready(u, path, known, dirty)
    ensures IsPath(u, path)
  {
  }

  lemma TallyOver(p': multiset<nat>, p: multiset<nat>, o': multiset<nat>, o: multiset<nat>, run': multiset<nat>,
                  run: multiset<nat>, a: Txn, b: Txn, c: Txn)
    requires Tally(run', run, a, b) && o' + run == o + run' && Tally(p', p, b, c)
    ensures Tally(p' + o', p + o, a, c)
  {
    hide Tally;
    TallySwap(o', o, run', run, a, b);
    TallyPlus(o', o, p, a, b);
    TallyPlus(p', p, o', b, c);
    assert o + p == p + o && o' + p == p + o';
    TallyThen(p + o, p + o', p' + o', a, b, c);
  }

  method InsertAt(u: Tree, path: seq<nat>, i: nat, key: Key, data: string, append: bool, pmax: nat, txn: Txn, h: nat,
                  ghost known: set<Tree>)
    returns (ok: bool, r: Tree, h': nat, txn': Txn, ghost nd: Node)
    requires pmax >= MIN_PMAX && key.size <= MAXKEY && Good(u, h, None, None, pmax) && Place(u, path, i, key.rank, h)
    requires Ready(u, path, known, txn.dirty) && (append ==> i == |At(u, path).nodes|)
    requires i < |At(u, path).nodes| ==> At(u, path).nodes[i].key.rank != key.rank
    ensures nd.key == key && Data(nd.value) == Some(data) && Pos(u, path, i) <= |InOrder(u)| && RunHolds(nd, pmax)
    ensures ok ==> Stored(r, h', Split.Insert(InOrder(u), Pos(u, path, i), nd), u, txn, txn', known, pmax)
    ensures ok <==> RoomAt(u, path, i, key, |data|, append, txn.dirty, pmax)
  {
    LeafOf(u, path, h, pmax);
    KeyInBounds(u, path, i, key.rank, h);
    assert |path| == h && IsLowerBound(At(u, path).nodes, key.rank, i) && Balanced(u, h);
    hide Good, Place, Routed, InOrder, IsLowerBound, Shaped, Split.Insert, Split.Remove, Sizes, SmallNode, RunOf, Tally,
         Frozen, Pages, Pos, Over, EntriesWith, LoAt, HiAt, Data, RoomAt, CanSplit, NodeBytes, NewBytes, LeafKeys,
         LeafSizes, RunHolds;
    var leaf := At(u, path);
    var node, txn1 := AddNode(key, data, pmax, txn);
    nd := node;
    var x := leaf.(nodes := Split.Insert(leaf.nodes, i, node));
    InsertedShaped(leaf, i, node, LoAt(u, path), HiAt(u, path), pmax);
    InsertIndex(leaf.nodes, i, node);
    TallyGrows(RunOf(node.value), multiset{}, txn, txn1);
    WritableLeaf(u, path, x, known, txn.dirty, txn1.dirty);
    InsertedRoom(u, path, i, node, |data|, append, txn.dirty, pmax);
    ok, r, h', txn' := StoreLeaf(u, path, x, i, append, pmax, txn1, h, known);
    InsertedEntries(u, path, i, node, h);
    if ok {
      var b := Pos(u, path, i);
      OverInsert(InOrder(u), b, node);
      NoRun(Over(Split.Insert(InOrder(u), b, node)));
      TallyOver(Pages(r), Pages(u), Over(Split.Insert(InOrder(u), b, node)), Over(InOrder(u)), RunOf(node.value),
        multiset{}, txn, txn1, txn');
    }
  }

  lemma NoRun(m: multiset<nat>)
    ensures m + multiset{} == m
  {
  }

  method OverwriteAt(u: Tree, path: seq<nat>, i: nat, key: Key, data: string, pmax: nat, txn: Txn, h: nat,
                     ghost known: set<Tree>)
    returns (ok: bool, r: Tree, h': nat, txn': Txn, ghost nd: Node)
    requires pmax >= MIN_PMAX && key.size <= MAXKEY && Good(u, h, None, None, pmax) && |path| == h
             && Ready(u, path, known, txn.dirty)
    requires At(u, path).Leaf? && i < |At(u, path).nodes| && At(u, path).nodes[i].key.rank == key.rank
             && Data(At(u, path).nodes[i].value).Some?
    ensures nd.key.rank == key.rank && Data(nd.value) == Some(data) && Pos(u, path, i) < |InOrder(u)|
    ensures RunHolds(At(u, path).nodes[i], pmax) ==> RunHolds(nd, pmax)
    ensures ok ==> Stored(r, h', InOrder(u)[Pos(u, path, i) := nd], u, txn, txn', known, pmax)
    ensures ok <==> RoomAt(u, path, i, key, |data|, false, txn.dirty, pmax)
  {
    LeafOf(u, path, h, pmax);
    SmallAt(At(u, path), i, pmax);
    assert Balanced(u, h);
    hide Good, InOrder, Shaped, Split.Remove, Sizes, SmallNode, RunOf, Tally, Frozen, Pages, Pos, Over, EntriesWith,
         LoAt, HiAt, Data, RoomAt, CanSplit, NodeBytes, NewBytes, LeafKeys, LeafSizes, WritesOver, RunHolds;
    var leaf := At(u, path);
    var node, txn1 := OverwriteNode(leaf.nodes[i], key, data, pmax, txn);
    nd := node;
    var x := leaf.(nodes := leaf.nodes[i := node]);
    ReplacedShaped(leaf, i, node, LoAt(u, path), HiAt(u, path), pmax);
    WithoutLess(Sizes(leaf), i);
    TallyGrows(RunOf(node.value), RunOf(leaf.nodes[i].value), txn, txn1);
    WritableLeaf(u, path, x, known, txn.dirty, txn1.dirty);
    ReplacedRoom(u, path, i, node, key, |data|, txn.dirty, pmax);
    ok, r, h', txn' := StoreLeaf(u, path, x, i, false, pmax, txn1, h, known);
    ReplacedEntries(u, path, i, node, h);
    if ok {
      var b := Pos(u, path, i);
      OverReplace(InOrder(u), b, node);
      TallyOver(Pages(r), Pages(u), Over(InOrder(u)[b := node]), Over(InOrder(u)), RunOf(node.value),
        RunOf(leaf.nodes[i].value), txn, txn1, txn');
    }
  }

  /** The condition on sizes, for the leaf with the node that was made. */
  lemma InsertedRoom(t: Tree, path: seq<nat>, i: nat, nd: Node, len: nat, append: bool, dirty: set<nat>, pmax: nat)
    requires IsPath(t, path) && At(t, path).Leaf? && i <= |At(t, path).nodes|
             && NodeBytes(nd) == NewBytes(nd.key, len, pmax)
    requires i < |At(t, path).nodes| ==> At(t, path).nodes[i].key.rank != nd.key.rank
    ensures var leaf := At(t, path);
            var x := leaf.(nodes := Split.Insert(leaf.nodes, i, nd));
            RoomAt(t, path, i, nd.key, len, append, dirty, pmax) <==>
            Used(x) <= pmax || CanSplit(t, path, LeafKeys(x.nodes), LeafSizes(x.nodes), true, i, append, pmax)
  {
    hide NodeBytes, NewBytes, CanSplit, Split.Sum, IsPath, At;
    var nodes := At(t, path).nodes;
    assert LeafSizes(Split.Insert(nodes, i, nd)) == Split.Insert(LeafSizes(nodes), i, NewBytes(nd.key, len, pmax));
    assert LeafKeys(Split.Insert(nodes, i, nd)) == Split.Insert(LeafKeys(nodes), i, nd.key);
  }

  lemma ReplacedRoom(t: Tree, path: seq<nat>, i: nat, nd: Node, key: Key, len: nat, dirty: set<nat>, pmax: nat)
    requires IsPath(t, path) && At(t, path).Leaf? && i < |At(t, path).nodes|
             && At(t, path).nodes[i].key.rank == key.rank
    requires var was := At(t, path).nodes[i];
             if WritesOver(was, len, dirty, pmax) then nd.key == was.key && NodeBytes(nd) == NodeBytes(was)
             else nd.key == key && NodeBytes(nd) == NewBytes(key, len, pmax)
    ensures var leaf := At(t, path);
            var x := leaf.(nodes := leaf.nodes[i := nd]);
            RoomAt(t, path, i, key, len, false, dirty, pmax) <==>
            Used(x) <= pmax || CanSplit(t, path, LeafKeys(x.nodes), LeafSizes(x.nodes), true, i, false, pmax)
  {
    hide NodeBytes, NewBytes, CanSplit, Split.Sum, IsPath, At, WritesOver;
    var nodes := At(t, path).nodes;
    assert LeafSizes(nodes[i := nd]) == LeafSizes(nodes)[i := NodeBytes(nd)];
    assert LeafKeys(nodes[i := nd]) == LeafKeys(nodes)[i := nd.key];
    if WritesOver(nodes[i], len, dirty, pmax) {
      assert LeafSizes(nodes)[i := NodeBytes(nd)] == LeafSizes(nodes);
      assert LeafKeys(nodes)[i := nd.key] == LeafKeys(nodes);
    }
  }

  lemma SameSettled(t: Tree, u: Tree, path: seq<nat>, i: nat, pmax: nat)
    requires Same(t, u) && IsPath(t, path) && At(t, path).Leaf? && i < |At(t, path).nodes|
    ensures IsPath(u, path) && At(u, path).Leaf? && At(u, path).nodes == At(t, path).nodes
    ensures SettlesAt(t, path, i, pmax) <==> SettlesAt(u, path, i, pmax)
  {
    SameAt(t, u, path);
    assert Same(At(t, path), At(u, path));
    hide CanSettle, Same;
    if pmax > 0 {
      SameSettles(t, u, path, true, LeafSizes(Split.Remove(At(t, path).nodes, i)), pmax);
    }
  }

  lemma SmallAt(x: Tree, i: nat, pmax: nat)
    requires x.Leaf? && (exists lo, hi :: Shaped(x, 0, lo, hi, pmax)) && i < |x.nodes|
    ensures SmallNode(x.nodes[i], pmax)
  {
  }

  method RemoveAt(u: Tree, path: seq<nat>, i: nat, pmax: nat, txn: Txn, h: nat, ghost known: set<Tree>)
    returns (ok: bool, r: Option<Tree>, h': nat, txn': Txn)
    requires pmax > 0 && Good(u, h, None, None, pmax) && |path| == h && Ready(u, path, known, txn.dirty)
    requires At(u, path).Leaf? && i < |At(u, path).nodes|
    ensures Pos(u, path, i) < |InOrder(u)|
    ensures ok && r.Some? ==> Stored(r.value, h', Split.Remove(InOrder(u), Pos(u, path, i)), u, txn, txn', known, pmax)
    ensures ok && r.None? ==>
              Split.Remove(InOrder(u), Pos(u, path, i)) == []
              && Tally(multiset{}, Pages(u) + Over(InOrder(u)), txn, txn')
    ensures ok <==> SettlesAt(u, path, i, pmax)
  {
    hide Good, InOrder, Shaped, Sizes, RunOf, Tally, Frozen, Pages, Pos, Over, EntriesWith, LoAt, HiAt, Split.Remove,
         Settles, Sparse, CanSettle, Used, Replace, At, IsPath, Balanced, LeafSizes;
    LeafOf(u, path, h, pmax);
    GoodBalanced(u, h, pmax);
    var leaf := At(u, path);
    var x := leaf.(nodes := Split.Remove(leaf.nodes, i));
    LeafInOrder(x);
    KeysAndSizes(x);
    SamePages(leaf, x);
    var txn1 := FreeOverflow(leaf.nodes[i], txn);
    RemovedSparse(leaf, i, LoAt(u, path), HiAt(u, path), pmax);
    TallyGrows(multiset{}, RunOf(leaf.nodes[i].value), txn, txn1);
    WritableLeaf(u, path, x, known, txn.dirty, txn1.dirty);
    ok, r, h', txn' := Rebalance(u, path, x, pmax, txn1, h, known);
    RemovedEntries(u, path, i, h);
    if ok {
      var e, b := InOrder(u), Pos(u, path, i);
      OverRemove(e, b);
      NoRun(Over(e));
      SettlesSameIn(r, u, path, x, txn1, txn', known);
      TallyOver(PagesIn(r), Pages(u), Over(Split.Remove(e, b)), Over(e), multiset{}, RunOf(leaf.nodes[i].value), txn,
        txn1, txn');
      if r.None? {
        NoOver(Split.Remove(e, b));
        NoRun(PagesIn(r));
      }
    }
  }

  lemma GoodBalanced(t: Tree, h: nat, pmax: nat)
    requires Good(t, h, None, None, pmax)
    ensures Balanced(t, h)
  {
  }

  lemma SamePages(x: Tree, y: Tree)
    requires x.Leaf? && y.Leaf? && x.pgno == y.pgno
    ensures Pages(x) == Pages(y)
  {
  }

  lemma NoOver(s: seq<Node>)
    ensures s == [] ==> Over(s) == multiset{}
  {
  }

  lemma SettlesSameIn(r: Option<Tree>, t: Tree, path: seq<nat>, x: Tree, txn: Txn, txn': Txn, known: set<Tree>)
    requires Settles(r, t, path, x, txn, txn', known) && IsPath(t, path) && Pages(At(t, path)) == Pages(x)
    ensures Tally(PagesIn(r), Pages(t), txn, txn') && (r.Some? ==> Frozen(r.value, known, txn'.dirty))
  {
    hide Pages, Frozen, Tally, IsPath, At, PagesIn;
    var m := Pages(x);
    assert PagesIn(r) + (Pages(t) + m) == Pages(t) + (PagesIn(r) + m);
    TallySwap(PagesIn(r), Pages(t), PagesIn(r) + m, Pages(t) + m, txn, txn');
  }

  // ---- The database ----

  ghost predicate SomeNotBelow(m: Mapping, k: real) {
    exists x :: x in m && k <= x
  }

  class Table {
    const pmax: nat            // me_psize - PAGEHDRSZ
    const db: Database         // md_root and md_depth
    var entries: nat           // md_entries
    var txn: Txn
    var error: bool            // MDB_TXN_ERROR

    ghost const known: set<Tree>       // the pages of the tree when the transaction began
    ghost const base: multiset<nat>    // their numbers, and those of overflow pages
    ghost const begun: Txn             // mt_next_pgno and the pages that may be used again, then

    /** A write transaction begins; spare are the pages of freeDB records that no reader needs. */
    constructor (db: Database, pmax: nat, entries: nat, next: nat, spare: multiset<nat>)
      requires pmax >= MIN_PMAX && entries == |db.Entries()| && (db.root.None? ==> db.depth == 0)
      requires db.root.Some? ==> db.depth > 0 && Good(db.root.value, db.depth - 1, None, None, pmax)
      requires RunsHold(db.Entries(), pmax)
      ensures Valid() && this.db == db && this.pmax == pmax && txn == begun == Txn(next, spare, [], {}, [])
      ensures known == if db.root.Some? then Subs(db.root.value) else {}
      ensures base == PagesIn(db.root) + Over(db.Entries())
    {
      this.db, this.pmax, this.entries := db, pmax, entries;
      txn, error := Txn(next, spare, [], {}, []), false;
      begun, base := Txn(next, spare, [], {}, []), PagesIn(db.root) + Over(db.Entries());
      known := if db.root.Some? then Subs(db.root.value) else {};
      new;
      if db.root.Some? { SubsClosed(db.root.value); }
      TallyNone(base, txn);
    }

    ghost predicate Valid()
      reads this, db
    {
      && pmax >= MIN_PMAX && !error && Closed(known) && entries == |db.Entries()| && RunsHold(db.Entries(), pmax)
      && (db.root.None? ==> db.depth == 0)
      && (db.root.Some? ==>
            && db.depth > 0 && Good(db.root.value, db.depth - 1, None, None, pmax)
            && Frozen(db.root.value, known, txn.dirty))
      && begun.dirty == {} && begun.loose == [] && begun.free == [] && Tally(Total(), base, begun, txn)
    }

    /** The pages of the tree and of its overflow data. */
    ghost function Total(): multiset<nat>
      reads this, db
    {
      PagesIn(db.root) + Over(db.Entries())
    }

    ghost function Contents(): Mapping
      reads this, db
    {
      ToMap(db.Entries())
    }

    /** The sizes of the nodes on the way to the key let it in. */
    ghost predicate HasRoom(key: Key, len: nat, append: bool)
      reads this, db
    {
      db.root.Some? ==> db.depth > 0 && CanPut(db.root.value, db.depth - 1, key, len, append, txn.dirty, pmax)
    }

    /** And let it go. */
    ghost predicate LetsGo(key: real)
      reads this, db
    {
      db.root.Some? && db.depth > 0 && CanDel(db.root.value, db.depth - 1, key, pmax)
    }

    /** Some page has twenty nodes or more. */
    ghost predicate Wide()
      reads this, db
    {
      db.root.Some? && !Narrow(db.root.value)
    }

    lemma Facts()
      requires Valid()
      ensures db.Valid() && Sorted(db.Entries()) && |Contents()| == entries
    {
      if db.root.Some? {
        OkNoEmptyLeaf(db.root.value, pmax);
        EntriesSorted(db.root.value, None, None);
      }
      MapSize(db.Entries());
    }

    /** mdb_get */
    method Get(key: Key) returns (rc: Status, data: Option<string>)
      requires Valid()
      ensures key.size == 0 <==> rc == Status.BadValSize
      ensures key.size > 0 ==>
                (rc == Ok <==> key.rank in Contents()) && (rc == Status.NotFound <==> key.rank !in Contents())
      ensures rc == Ok ==> data == Contents()[key.rank]
    {
      Facts();
      var mc := new Cursor(db);
      var r := mc.Set(key, false);
      data := None;
      match r
      case BadValSize => rc := Status.BadValSize;
      case NotFound =>
        rc := Status.NotFound;
        if db.root.Some? { GetPlace(mc, key, r); }
      case Found(nd) =>
        GetPlace(mc, key, r);
        rc, data := Ok, Data(nd.value);
    }

    lemma GetPlace(mc: Cursor, key: Key, rc: Rc)
      requires Valid() && mc.db == db && db.root.Some?
               && SetOutcome(db.root.value, db.depth - 1, key.rank, false, rc, mc.ki)
      ensures rc.Found? <==> key.rank in Contents()
      ensures rc.Found? ==> Contents()[key.rank] == Data(rc.node.value)
    {
      var t, h := db.root.value, db.depth - 1;
      var path: seq<nat>, i: nat :| OutcomeAt(t, h, key.rank, false, rc, mc.ki, path, i);
      hide Good, Frozen, Tally, ToMap, InOrder, Over, PagesIn, Sorted, IsPath, At, Routed, IsLowerBound;
      PlaceLookup(t, path, i, key.rank, h, pmax);
    }

    /** The new tree becomes the database's; the accounts since the beginning still add up. */
    method Adopt(r: Option<Tree>, depth: nat, count: nat, txn': Txn, ghost was: multiset<nat>)
      requires Valid() && was == Total() && (r.None? ==> depth == 0)
      requires var e := if r.Some? then InOrder(r.value) else [];
               count == |e| && Tally(PagesIn(r) + Over(e), was, txn, txn') && RunsHold(e, pmax)
      requires r.Some? ==> depth > 0 && Good(r.value, depth - 1, None, None, pmax) && Frozen(r.value, known, txn'.dirty)
      modifies this, db
      ensures Valid() && db.root == r && db.depth == depth && txn == txn'
    {
      hide Good, Frozen, Over, InOrder, Tally, PagesIn, Closed, RunsHold;
      ghost var e := if r.Some? then InOrder(r.value) else [];
      TallyThen(base, was, PagesIn(r) + Over(e), begun, txn, txn');
      db.root, db.depth, entries, txn := r, depth, count, txn';
    }

    /** Where a key is to be appended; it is not if some key is not below it. */
    method LocateEnd(key: Key) returns (exist: bool, path: seq<nat>, i: nat)
      requires Valid() && db.root.Some?
      ensures exist <==> SomeNotBelow(Contents(), key.rank)
      ensures !exist ==>
                && Place(db.root.value, path, i, key.rank, db.depth - 1) && key.rank !in Contents()
                && At(db.root.value, path).Leaf? && i == |At(db.root.value, path).nodes|
    {
      hide Good, Frozen, Tally, ToMap, InOrder, Over, PagesIn, Sorted, Neighbour, NoEmptyLeaf, Balanced, Ordered,
           IsPath, At, Pos;
      Facts();
      var mc := new Cursor(db);
      var rc := mc.MoveLast();
      path := mc.ki[..|mc.ki|-1];
      i := |mc.Top().nodes|;
      exist := key.rank <= rc.node.key.rank;
      LastKey(db.Entries(), key.rank);
      if !exist { AppendPlace(db.root.value, path, key.rank, db.depth - 1, pmax); }
    }

    /** Where a key is, or is to be inserted. */
    method LocateKey(key: Key) returns (there: bool, path: seq<nat>, i: nat)
      requires Valid() && db.root.Some? && key.size > 0
      ensures Place(db.root.value, path, i, key.rank, db.depth - 1) && (there <==> key.rank in Contents())
    {
      hide Good, Frozen, Tally, ToMap, InOrder, Over, PagesIn, Sorted, Neighbour, NoEmptyLeaf, Balanced, Ordered,
           IsPath, At, SetOutcome, Place;
      Facts();
      var mc := new Cursor(db);
      var rc := mc.Set(key, false);
      GetPlace(mc, key, rc);
      SetPlace(db.root.value, db.depth - 1, key.rank, rc, mc.ki);
      there := rc.Found?;
      path, i := mc.ki[..|mc.ki|-1], mc.ki[|mc.ki|-1];
    }

    /** The first entry of an empty database. */
    method PutFirst(key: Key, data: string)
      requires Valid() && db.root.None? && key.size <= MAXKEY
      modifies this, db
      ensures Valid() && Contents() == old(Contents())[key.rank := Some(data)]
    {
      ghost var was := Total();
      assert was == multiset{};
      hide SmallNode, Good, Frozen, Tally, Supplied, Over, RunOf, RunHolds;
      var pg, txn1 := AllocPage(txn);
      var nd, txn2 := AddNode(key, data, pmax, txn1);
      var r := Leaf(pg, [nd]);
      TallyGrows(RunOf(nd.value), multiset{}, txn1, txn2);
      FirstLeaf(r, nd, pmax, known, txn2.dirty);
      assert RunsHold([nd], pmax);
      TallyBoth(multiset{pg}, multiset{}, RunOf(nd.value), multiset{}, txn, txn1, txn2);
      assert was + was == was;
      Adopt(Some(r), 1, 1, txn2, was);
    }

    /** Touch the pages on the way to a place (mdb_cursor_touch). */
    method TouchFor(path: seq<nat>, ghost i: nat, ghost key: real) returns (u: Tree, txn': Txn)
      requires Valid() && db.root.Some? && Place(db.root.value, path, i, key, db.depth - 1)
      ensures var t, h := db.root.value, db.depth - 1;
              && Good(u, h, None, None, pmax) && Place(u, path, i, key, h) && InOrder(u) == InOrder(t)
              && Ready(u, path, known, txn'.dirty) && Tally(Pages(u) + Over(InOrder(u)), Total(), txn, txn')
              && IsPath(t, path) && At(u, path).Leaf? && At(t, path).Leaf? && At(u, path).nodes == At(t, path).nodes
              && Same(t, u)
    {
      ghost var t, h := db.root.value, db.depth - 1;
      assert IsPath(t, path);
      u, txn' := TouchPath(db.root.value, path, txn, known);
      SamePlace(t, u, path, i, key, h, pmax);
      hide Good, Place, InOrder, Same, Tally, Pages, Over, Frozen;
      TallyPlus(Pages(u), Pages(t), Over(InOrder(t)), txn, txn');
    }

    method PutNew(path: seq<nat>, i: nat, key: Key, data: string, append: bool) returns (ok: bool)
      requires Valid() && db.root.Some? && key.size <= MAXKEY && key.rank !in Contents()
      requires Place(db.root.value, path, i, key.rank, db.depth - 1)
      requires append ==> IsPath(db.root.value, path) && i == |At(db.root.value, path).nodes|
      modifies this, db
      ensures ok ==> Valid() && Contents() == old(Contents())[key.rank := Some(data)]
      ensures ok <==> old(RoomAt(db.root.value, path, i, key, |data|, append, txn.dirty, pmax))
      ensures !ok ==> error
    {
      hide Place, Good, Stored, InOrder, Pos, Frozen, Tally, Pages, Over, ToMap, Split.Insert, Data, Ready, IsPath, At,
           Sorted, RoomAt, Same, RunsHold;
      ghost var t, h := db.root.value, db.depth - 1;
      PlaceLookup(t, path, i, key.rank, h, pmax);
      var u, txn1 := TouchFor(path, i, key.rank);
      SameRoom(t, u, path, i, key, |data|, append, txn.dirty, pmax);
      SameDirty(u, path, i, key, |data|, append, txn.dirty, txn1.dirty, pmax);
      ReadyPath(u, path, known, txn1.dirty);
      var r, h', txn2;
      ghost var nd;
      ok, r, h', txn2, nd := InsertAt(u, path, i, key, data, append, pmax, txn1, db.depth - 1, known);
      if ok {
        StoredSorted(r, h', Split.Insert(InOrder(t), Pos(u, path, i), nd), u, txn1, txn2, known, pmax);
        InsertMap(InOrder(t), Pos(u, path, i), nd);
        InsertIndex(InOrder(t), Pos(u, path, i), nd);
        RunsInsert(InOrder(t), Pos(u, path, i), nd, pmax);
        AdoptStored(r, h', Split.Insert(InOrder(t), Pos(u, path, i), nd), entries + 1, u, txn1, txn2);
      } else {
        error := true;
      }
    }

    /** Where there is no room, there is a page of twenty nodes, and the key is not the last. */
    lemma NoRoom(path: seq<nat>, i: nat, key: Key, len: nat, append: bool, dirty: set<nat>)
      requires Valid() && db.root.Some? && key.size <= MAXKEY
      requires Place(db.root.value, path, i, key.rank, db.depth - 1)
      ensures RoomAt(db.root.value, path, i, key, len, append, dirty, pmax)
              || (Wide() && SomeNotBelow(Contents(), key.rank))
    {
      var t, h := db.root.value, db.depth - 1;
      EntriesSorted(t, None, None);
      LeafOf(t, path, h, pmax);
      EntryAtPos(t, path, 0, h);
      NewSmall(key, len, pmax);
      WithCount(At(t, path).nodes, i, key, len, dirty, pmax);
      hide Good, InOrder, Guarded, Narrow, SomeNotBelow, ToMap, RoomAt, SizesWith, NewBytes, Routed, IsLowerBound;
      LastKey(InOrder(t), key.rank);
      if !Wide() || !SomeNotBelow(Contents(), key.rank) {
        GuardedPlace(t, path, i, key.rank, h, pmax);
        GuardedRoom(t, path, i, h, key, len, append, dirty, pmax);
      }
    }

    method PutOver(path: seq<nat>, i: nat, key: Key, data: string) returns (rc: Status)
      requires Valid() && db.root.Some? && key.size <= MAXKEY && key.rank in Contents()
      requires Place(db.root.value, path, i, key.rank, db.depth - 1)
      modifies this, db
      ensures rc in {Ok, Incompatible, PageFull}
      ensures rc == Ok ==> Valid() && Contents() == old(Contents())[key.rank := Some(data)]
      ensures rc == Incompatible <==> old(Contents())[key.rank] == None
      ensures rc == Incompatible ==> Valid() && Contents() == old(Contents())
      ensures rc == PageFull ==> error && old(Wide()) && SomeNotBelow(old(Contents()), key.rank)
      ensures rc != Incompatible && Started(base, begun) ==>
                (rc == Ok <==> old(RoomAt(db.root.value, path, i, key, |data|, false, txn.dirty, pmax)))
    {
      hide Narrow, Place, Good, Stored, InOrder, Pos, Frozen, Tally, Pages, Over, ToMap, Data, IsPath, At,
           Sorted, Closed, PathDirty, RoomAt, Same, Started, Wide, SomeNotBelow;
      ghost var t, h := db.root.value, db.depth - 1;
      PlaceLookup(t, path, i, key.rank, h, pmax);
      ghost var was := Total();
      var u, txn1 := TouchFor(path, i, key.rank);
      PlaceLength(u, path, i, key.rank, h);
      if Data(At(u, path).nodes[i].value).None? {
        Adopt(Some(u), db.depth, entries, txn1, was);
        return Incompatible;
      }
      SameRoom(t, u, path, i, key, |data|, false, txn1.dirty, pmax);
      NoRoom(path, i, key, |data|, false, txn1.dirty);
      if Started(base, begun) { OverflowKept(path, i, key, |data|, u, txn1); }
      rc := Overwrite(u, txn1, path, i, key, data);
    }

    /** Touching the pages on the way to a key does not make its overflow pages dirty. */
    lemma OverflowKept(path: seq<nat>, i: nat, key: Key, len: nat, u: Tree, txn1: Txn)
      requires Valid() && Started(base, begun) && db.root.Some?
      requires IsPath(db.root.value, path) && At(db.root.value, path).Leaf? && i < |At(db.root.value, path).nodes|
      requires Tally(Pages(u) + Over(InOrder(u)), Total(), txn, txn1)
      ensures RoomAt(db.root.value, path, i, key, len, false, txn.dirty, pmax) <==>
              RoomAt(db.root.value, path, i, key, len, false, txn1.dirty, pmax)
    {
      hide RoomAt, IsPath, At, Valid, Tally, Pages, Over, InOrder, Started;
      var t, nd := db.root.value, At(db.root.value, path).nodes[i];
      if nd.value.Big? && nd.value.pages > 0 {
        RunInUse(path, i);
        InUseBelow(this, nd.value.pg);
        StaysClean(Pages(u) + Over(InOrder(u)), Total(), txn, txn1, nd.value.pg);
      }
      SameDirty(t, path, i, key, len, false, txn.dirty, txn1.dirty, pmax);
    }

    lemma RunInUse(path: seq<nat>, i: nat)
      requires Valid() && db.root.Some? && IsPath(db.root.value, path) && At(db.root.value, path).Leaf?
      requires var nodes := At(db.root.value, path).nodes;
               i < |nodes| && nodes[i].value.Big? && nodes[i].value.pages > 0
      ensures At(db.root.value, path).nodes[i].value.pg in Total()
    {
      hide Frozen, InOrder, Over, PagesIn, Closed, Pos, Span, Tally, RunsHold;
      var t, nd := db.root.value, At(db.root.value, path).nodes[i];
      var pg := nd.value.pg;
      EntryAtPos(t, path, i, db.depth - 1);
      SpanAt(pg, pg + nd.value.pages, pg);
      hide Good, IsPath, At;
      OverHas(InOrder(t), Pos(t, path, i), pg);
    }

    method Overwrite(u: Tree, txn1: Txn, path: seq<nat>, i: nat, key: Key, data: string) returns (rc: Status)
      requires Valid() && db.root.Some? && key.size <= MAXKEY
      requires Good(u, db.depth - 1, None, None, pmax) && InOrder(u) == db.Entries() && Sorted(db.Entries())
               && |path| == db.depth - 1
      requires Ready(u, path, known, txn1.dirty) && Tally(Pages(u) + Over(InOrder(u)), Total(), txn, txn1)
      requires At(u, path).Leaf? && i < |At(u, path).nodes| && At(u, path).nodes[i].key.rank == key.rank
               && Data(At(u, path).nodes[i].value).Some?
      modifies this, db
      ensures rc == if RoomAt(u, path, i, key, |data|, false, txn1.dirty, pmax) then Ok else PageFull
      ensures rc == Ok ==> Valid() && Contents() == old(Contents())[key.rank := Some(data)]
      ensures rc == PageFull ==> error
    {
      hide RoomAt, Good, Stored, InOrder, Pos, Frozen, Tally, Pages, Over, ToMap, Data, IsPath, At, Sorted, Closed,
           PathDirty, RunHolds;
      ghost var t, h := db.root.value, db.depth - 1;
      SameKeyAt(u, path, i, h, pmax);
      var ok, r, h', txn2;
      ghost var nd;
      ok, r, h', txn2, nd := OverwriteAt(u, path, i, key, data, pmax, txn1, db.depth - 1, known);
      if !ok {
        error := true;
        return PageFull;
      }
      ReplaceMap(InOrder(t), Pos(u, path, i), nd);
      RunsReplace(InOrder(t), Pos(u, path, i), nd, pmax);
      AdoptStored(r, h', InOrder(t)[Pos(u, path, i) := nd], entries, u, txn1, txn2);
      rc := Ok;
    }

    /** A tree made from the touched one becomes the database's. */
    method AdoptStored(r: Tree, h': nat, ghost e: seq<Node>, count: nat, ghost u: Tree, ghost txn1: Txn, txn2: Txn)
      requires Valid() && count == |e| && Stored(r, h', e, u, txn1, txn2, known, pmax) && RunsHold(e, pmax)
      requires Tally(Pages(u) + Over(InOrder(u)), Total(), txn, txn1)
      modifies this, db
      ensures Valid() && db.Entries() == e
    {
      hide Good, Stored, InOrder, Frozen, Tally, Pages, Over, Sorted, Closed, RunsHold;
      ghost var was := Total();
      StoredSorted(r, h', e, u, txn1, txn2, known, pmax);
      TallyThen(was, Pages(u) + Over(InOrder(u)), Pages(r) + Over(InOrder(r)), txn, txn1, txn2);
      Adopt(Some(r), h' + 1, count, txn2, was);
    }

    static predicate Legal(key: Key, data: string) {
      0 < key.size <= MAXKEY && |data| <= MAXDATA
    }

    /**
     * mdb_put, plain or with MDB_NOOVERWRITE or MDB_APPEND: the map gets the binding.  MDB_PAGE_FULL, which a
     * page split that is not searched for can give, leaves the transaction in error.  It comes exactly if there is
     * no room, which takes a page of twenty nodes or more and does not happen to a key above all others.
     */
    method Put(key: Key, data: string, noOverwrite: bool, append: bool) returns (rc: Status)
      requires Valid()
      modifies this, db
      ensures rc == Status.BadValSize <==> !Legal(key, data)
      ensures rc == KeyExist <==>
                Legal(key, data) && (if append then SomeNotBelow(old(Contents()), key.rank)
                                     else noOverwrite && key.rank in old(Contents()))
      ensures rc == Incompatible <==>
                Legal(key, data) && !append && !noOverwrite && key.rank in old(Contents())
                  && old(Contents())[key.rank] == None
      ensures rc in {Status.BadValSize, KeyExist} ==> unchanged(this) && unchanged(db)
      ensures rc == Incompatible ==> Valid() && Contents() == old(Contents())
      ensures rc == Ok ==> Valid() && Contents() == old(Contents())[key.rank := Some(data)]
      ensures rc in {Ok, KeyExist, Status.BadValSize, Incompatible} || (rc == PageFull && error)
      ensures rc == PageFull ==> old(Wide()) && SomeNotBelow(old(Contents()), key.rank)
      ensures rc in {Ok, PageFull} && (key.rank in old(Contents()) ==> Started(base, begun)) ==>
                (rc == Ok <==> old(HasRoom(key, |data|, append)))
    {
      hide Wide, SomeNotBelow, RoomAt, CanPut, Started, Ordered, Good, Frozen, Tally, ToMap, InOrder, Over, PagesIn,
           Place, IsPath, At;
      if !Legal(key, data) {
        return Status.BadValSize;
      }
      var path, i, exist, there, ok := [], 0, false, false, true;
      if db.root.None? {
        NoEntries();
        PutFirst(key, data);
        return Ok;
      }
      if append {
        exist, path, i := LocateEnd(key);
      } else {
        there, path, i := LocateKey(key);
      }
      if exist || (there && noOverwrite) {
        return KeyExist;
      }
      PlacePath(path, i, key.rank);
      RootOrdered();
      PutAt(db.root.value, path, i, db.depth - 1, key, |data|, append, txn.dirty, pmax);
      if there {
        rc := PutOver(path, i, key, data);
      } else {
        NoRoom(path, i, key, |data|, append, txn.dirty);
        ok := PutNew(path, i, key, data, append);
        rc := if ok then Ok else PageFull;
      }
    }

    lemma RootOrdered()
      requires Valid() && db.root.Some?
      ensures Ordered(db.root.value, None, None)
    {
    }

    lemma NoEntries()
      requires db.root.None?
      ensures Contents() == map[] && forall k: real :: !SomeNotBelow(Contents(), k)
    {
    }

    lemma PlacePath(path: seq<nat>, i: nat, key: real)
      requires db.root.Some? && db.depth > 0 && Place(db.root.value, path, i, key, db.depth - 1)
      ensures IsPath(db.root.value, path)
    {
    }

    /** mdb_del: the map loses the binding. */
    method Del(key: Key) returns (rc: Status)
      requires Valid()
      modifies this, db
      ensures rc == Status.BadValSize <==> key.size == 0
      ensures rc == Status.NotFound <==> key.size > 0 && key.rank !in old(Contents())
      ensures rc == Incompatible <==> key.size > 0 && key.rank in old(Contents()) && old(Contents())[key.rank] == None
      ensures rc in {Status.BadValSize, Status.NotFound} ==> unchanged(this) && unchanged(db)
      ensures rc == Ok ==> Valid() && Contents() == old(Contents()) - {key.rank}
      ensures rc in {Ok, Status.NotFound, Status.BadValSize} || (rc in {Incompatible, PageFull} && error)
      ensures rc == PageFull ==> old(Wide())
      ensures rc in {Ok, PageFull} ==> (rc == Ok <==> old(LetsGo(key.rank)))
    {
      hide Good, Frozen, Tally, ToMap, InOrder, Over, PagesIn, Place, IsPath, At, SettlesAt, CanDel, Wide, Ordered;
      if key.size == 0 {
        return Status.BadValSize;
      }
      if db.root.None? {
        NoEntries();
        return Status.NotFound;
      }
      var there, path, i := LocateKey(key);
      if !there {
        return Status.NotFound;
      }
      PlacePath(path, i, key.rank);
      RootOrdered();
      PlaceLookup(db.root.value, path, i, key.rank, db.depth - 1, pmax);
      Rooms.DelAt(db.root.value, path, i, db.depth - 1, key.rank, pmax);
      rc := DelAt(path, i, key.rank);
    }

    /** mdb_cursor_del and mdb_cursor_del0: the data goes, the leaf is rebalanced. */
    method DelAt(path: seq<nat>, i: nat, ghost key: real) returns (rc: Status)
      requires Valid() && db.root.Some? && key in Contents() && Place(db.root.value, path, i, key, db.depth - 1)
      modifies this, db
      ensures rc == Ok ==> Valid() && Contents() == old(Contents()) - {key}
      ensures rc == Incompatible <==> old(Contents())[key] == None
      ensures rc == Ok || (rc in {Incompatible, PageFull} && error)
      ensures rc == PageFull ==> old(Wide())
      ensures rc in {Ok, PageFull} ==>
                old(IsPath(db.root.value, path) && At(db.root.value, path).Leaf? && i < |At(db.root.value, path).nodes|)
                && (rc == Ok <==> old(SettlesAt(db.root.value, path, i, pmax)))
    {
      ghost var t, h := db.root.value, db.depth - 1;
      PlaceLookup(t, path, i, key, h, pmax);
      WideUnlessSettled(path, i, key);
      hide Place, Good, Stored, InOrder, Pos, Frozen, Tally, Pages, Over, ToMap, Data, IsPath, At, Sorted, Closed,
           PathDirty, Split.Remove, SettlesAt, Same, Wide, Narrow;
      var u, txn1 := TouchFor(path, i, key);
      PlaceLength(u, path, i, key, h);
      SameSettled(t, u, path, i, pmax);
      if Data(At(u, path).nodes[i].value).None? {
        error := true;
        return Incompatible;
      }
      SameKeyAt(u, path, i, h, pmax);
      RemoveMap(InOrder(t), Pos(u, path, i));
      PutBack(InOrder(t), Pos(u, path, i));
      rc := Unstore(u, txn1, path, i);
    }

    lemma WideUnlessSettled(path: seq<nat>, i: nat, key: real)
      requires Valid() && db.root.Some? && Place(db.root.value, path, i, key, db.depth - 1)
      requires IsPath(db.root.value, path) && i < |At(db.root.value, path).nodes|
      ensures SettlesAt(db.root.value, path, i, pmax) || Wide()
    {
      hide Good, Narrow, CanSettle, Routed;
      if !Wide() {
        NarrowSettles(db.root.value, path, true, LeafSizes(Split.Remove(At(db.root.value, path).nodes, i)), pmax,
          db.depth - 1);
      }
    }

    method Unstore(u: Tree, txn1: Txn, path: seq<nat>, i: nat) returns (rc: Status)
      requires Valid() && db.root.Some? && Good(u, db.depth - 1, None, None, pmax) && InOrder(u) == db.Entries()
               && |path| == db.depth - 1
      requires Ready(u, path, known, txn1.dirty) && Tally(Pages(u) + Over(InOrder(u)), Total(), txn, txn1)
      requires At(u, path).Leaf? && i < |At(u, path).nodes| && Pos(u, path, i) < |InOrder(u)|
      requires |Split.Remove(InOrder(u), Pos(u, path, i))| == |InOrder(u)| - 1
      modifies this, db
      ensures rc == Ok ==> Valid() && db.Entries() == Split.Remove(InOrder(u), Pos(u, path, i))
      ensures rc == Ok || (rc == PageFull && error)
      ensures rc == Ok <==> SettlesAt(u, path, i, pmax)
    {
      hide SettlesAt, Good, Stored, InOrder, Pos, Frozen, Tally, Pages, Over, IsPath, At, Closed, PathDirty,
           Split.Remove, RunHolds;
      ghost var e := Split.Remove(InOrder(u), Pos(u, path, i));
      RunsRemove(InOrder(u), Pos(u, path, i), pmax);
      var ok, r, h', txn2 := RemoveAt(u, path, i, pmax, txn1, db.depth - 1, known);
      if !ok {
        error := true;
        return PageFull;
      }
      rc := Ok;
      if r.Some? {
        AdoptStored(r.value, h', e, entries - 1, u, txn1, txn2);
      } else {
        ghost var was := Total();
        NoOver([]);
        assert PagesIn(None) + Over([]) == multiset{};
        TallyThen(was, Pages(u) + Over(InOrder(u)), multiset{}, txn, txn1, txn2);
        Adopt(None, 0, 0, txn2, was);
      }
    }
  }

  /** Some key is not below k exactly if the last one is not. */
  lemma LastKey(s: seq<Node>, k: real)
    requires Sorted(s) && s != []
    ensures SomeNotBelow(ToMap(s), k) <==> k <= s[|s|-1].key.rank
    ensures s[|s|-1].key.rank < k ==> k !in ToMap(s) && forall i :: 0 <= i < |s| ==> s[i].key.rank < k
  {
    MapValue(s, |s| - 1);
    forall x | x in ToMap(s) ensures x <= s[|s|-1].key.rank {
      MapDomain(s, x);
      var i: nat :| HasKey(s, x, i);
    }
  }

  lemma FirstLeaf(r: Tree, nd: Node, pmax: nat, known: set<Tree>, dirty: set<nat>)
    requires r == Leaf(r.pgno, [nd]) && SmallNode(nd, pmax) && r.pgno in dirty
    ensures Good(r, 0, None, None, pmax) && InOrder(r) == [nd] && Frozen(r, known, dirty)
    ensures Pages(r) == multiset{r.pgno} && Over([nd]) == RunOf(nd.value)
            && ToMap([nd]) == map[nd.key.rank := Data(nd.value)]
  {
    assert Sizes(r) == [NodeBytes(nd)];
    assert [NodeBytes(nd)][..0] == [];
    assert Used(r) == Split.Sum([]) + NodeBytes(nd);
    OverOne(nd);
    assert [nd][..0] == [];
    assert ToMap([nd]) == ToMap([])[nd.key.rank := Data(nd.value)];
  }

  lemma PlaceLength(t: Tree, path: seq<nat>, i: nat, key: real, h: nat)
    requires Place(t, path, i, key, h)
    ensures |path| == h
  {
  }

  lemma SameKeyAt(t: Tree, path: seq<nat>, i: nat, h: nat, pmax: nat)
    requires Good(t, h, None, None, pmax) && IsPath(t, path) && At(t, path).Leaf? && i < |At(t, path).nodes|
    ensures Pos(t, path, i) < |InOrder(t)| && InOrder(t)[Pos(t, path, i)] == At(t, path).nodes[i]
  {
    EntryAtPos(t, path, i, h);
  }

  lemma StoredSorted(r: Tree, h: nat, entries: seq<Node>, t: Tree, txn: Txn, txn': Txn, known: set<Tree>, pmax: nat)
    requires Stored(r, h, entries, t, txn, txn', known, pmax)
    ensures Good(r, h, None, None, pmax) && InOrder(r) == entries && Frozen(r, known, txn'.dirty) && Sorted(entries)
    ensures Tally(Pages(r) + Over(entries), Pages(t) + Over(InOrder(t)), txn, txn')
  {
    EntriesSorted(r, None, None);
  }

  // ---- What holds throughout a transaction ----

  /** The pages in use when the transaction began, and those it may use again, are distinct and below mt_next_pgno. */
  ghost predicate Started(base: multiset<nat>, a: Txn) {
    forall m: nat :: (base + Outside(a))[m] <= 1 && (m in base + Outside(a) ==> m < a.next)
  }

  /**
   * Every page number is at any time in exactly one place: the tree and its overflow pages, me_pghead and the
   * records not read yet, the loose pages, or the free list.
   */
  lemma EveryPageOnce(table: Table, n: nat)
    requires table.Valid() && Started(table.base, table.begun)
    ensures var t := table.txn;
            table.Total()[n] + t.spare[n] + multiset(t.loose)[n] + multiset(t.free)[n]
            == if n in table.base || n in table.begun.spare || table.begun.next <= n < t.next then 1 else 0
  {
    var a, b := table.begun, table.txn;
    hide Span, Good, Frozen, PagesIn, Over;
    SpanAt(a.next, b.next, n);
    assert (table.Total() + Outside(b))[n] == (table.base + Outside(a) + Span(a.next, b.next))[n];
  }

  lemma StaysClean(after: multiset<nat>, before: multiset<nat>, a: Txn, b: Txn, n: nat)
    requires Tally(after, before, a, b) && n !in Pool(a) && n < a.next
    ensures n in b.dirty <==> n in a.dirty
  {
    hide Span, Outside;
  }

  lemma InUseBelow(table: Table, n: nat)
    requires table.Valid() && Started(table.base, table.begun) && n in table.Total()
    ensures n !in Pool(table.txn) && n < table.txn.next
  {
    EveryPageOnce(table, n);
    assert (table.base + Outside(table.begun))[n] == table.base[n] + table.begun.spare[n];
    hide Good, Frozen, PagesIn, Over;
  }

  /** The overflow pages of an entry are among those of all entries. */
  lemma {:induction false} OverHas(s: seq<Node>, i: nat, n: nat)
    requires i < |s| && n in RunOf(s[i].value)
    ensures n in Over(s)
  {
    if i < |s| - 1 { OverHas(s[..|s|-1], i, n); }
  }

  /**
   * No page in use at the beginning is ever written: a page of the tree is one of those at the beginning,
   * with all that hangs off it, or has a number that was not in use then.
   */
  lemma CleanPagesKept(table: Table, path: seq<nat>)
    requires table.Valid() && table.db.root.Some? && IsPath(table.db.root.value, path)
             && Started(table.base, table.begun)
    ensures var page := At(table.db.root.value, path);
            page in table.known || (page.pgno in table.txn.dirty && page.pgno !in table.base)
  {
    var a, b, page := table.begun, table.txn, At(table.db.root.value, path);
    FrozenAt(table.db.root.value, path, table.known, b.dirty);
    hide Good, Frozen, PagesIn, Over;
    if page.pgno in b.dirty {
      assert (table.base + Outside(a))[page.pgno] <= 1;
    }
  }

  /** Nor are those pages handed out later: nothing that can be allocated was in use at the beginning. */
  lemma PoolIsFree(table: Table, n: nat)
    requires table.Valid() && Started(table.base, table.begun) && n in table.base
    ensures n !in Pool(table.txn) && n !in table.txn.dirty && n < table.begun.next
  {
    hide Good, Frozen, PagesIn, Over;
    assert (table.base + Outside(table.begun))[n] <= 1;
  }
}
