/** Changing one leaf of a good tree, and what that means for the entries, the map and the page accounts. */
module Leaves {
  import opened Common
  import opened PageNumbers
  import opened Tree
  import opened Paths
  import opened Search
  import opened Update
  import opened BTree
  import opened Reshape
  import opened CopyOnWrite
  import opened Halving
  import opened Grow
  import opened Shrink
  import opened Contents
  import Split

  /** The place of a key: the leaf it belongs to and its lower bound there. */
  ghost predicate Place(t: Tree, path: seq<nat>, i: nat, key: real, h: nat) {
    |path| == h && Routed(t, path, key) && At(t, path).Leaf? && IsLowerBound(At(t, path).nodes, key, i)
  }

  /** Leaf x standing at path is in order and has nodes of the right size. */
  ghost predicate LeafFor(t: Tree, path: seq<nat>, x: Tree, pmax: nat) {
    IsPath(t, path) && x.Leaf? && Shaped(x, 0, LoAt(t, path), HiAt(t, path), pmax)
  }

  lemma LeafOf(t: Tree, path: seq<nat>, h: nat, pmax: nat)
    requires Good(t, h, None, None, pmax) && IsPath(t, path) && |path| == h
    ensures At(t, path).Leaf? && LeafFor(t, path, At(t, path), pmax) && Used(At(t, path)) <= pmax
            && At(t, path).nodes != []
  {
    GoodAt(t, path, h, pmax);
  }

  lemma KeyInBounds(t: Tree, path: seq<nat>, i: nat, key: real, h: nat)
    requires Ordered(t, None, None) && Place(t, path, i, key, h)
    ensures IsPath(t, path) && Above(LoAt(t, path), key) && Below(key, HiAt(t, path))
  {
    RoutedWithin(t, path, key);
  }

  lemma InsertedShaped(x: Tree, i: nat, nd: Node, lo: Option<real>, hi: Option<real>, pmax: nat)
    requires x.Leaf? && Shaped(x, 0, lo, hi, pmax) && IsLowerBound(x.nodes, nd.key.rank, i) && SmallNode(nd, pmax)
    requires i < |x.nodes| ==> x.nodes[i].key.rank != nd.key.rank
    requires Above(lo, nd.key.rank) && Below(nd.key.rank, hi)
    ensures var x' := x.(nodes := Split.Insert(x.nodes, i, nd));
            Shaped(x', 0, lo, hi, pmax) && |Sizes(x')| == |x.nodes| + 1 && Split.Remove(Sizes(x'), i) == Sizes(x)
  {
    var x' := x.(nodes := Split.Insert(x.nodes, i, nd));
    hide Split.Insert, SmallNode, Sizes, Split.Remove;
    InsertIndex(x.nodes, i, nd);
    InsertedOrdered(x.nodes, Split.Insert(x.nodes, i, nd), i, nd, lo, hi);
    InsertedSizes(x.nodes, i, nd);
    assert Sizes(x') == LeafSizes(x'.nodes) && Sizes(x) == LeafSizes(x.nodes) by { SizesOf(x); SizesOf(x'); }
  }

  lemma SizesOf(x: Tree)
    ensures x.Leaf? ==> Sizes(x) == LeafSizes(x.nodes)
  {
  }

  lemma InsertedOrdered(s: seq<Node>, u: seq<Node>, i: nat, nd: Node, lo: Option<real>, hi: Option<real>)
    requires Sorted(s) && Within(s, lo, hi) && IsLowerBound(s, nd.key.rank, i)
             && (i < |s| ==> s[i].key.rank != nd.key.rank)
    requires |u| == |s| + 1 && u[i] == nd && (forall j :: 0 <= j < i ==> u[j] == s[j])
             && (forall j :: i < j < |u| ==> u[j] == s[j-1])
    requires Above(lo, nd.key.rank) && Below(nd.key.rank, hi)
    ensures Sorted(u) && Within(u, lo, hi)
  {
    assert forall j :: i <= j < |s| ==> nd.key.rank < s[j].key.rank;
  }

  lemma InsertedSizes(s: seq<Node>, i: nat, nd: Node)
    requires i <= |s|
    ensures |LeafSizes(Split.Insert(s, i, nd))| == |s| + 1
            && Split.Remove(LeafSizes(Split.Insert(s, i, nd)), i) == LeafSizes(s)
  {
    hide NodeBytes;
  }

  lemma ReplacedShaped(x: Tree, i: nat, nd: Node, lo: Option<real>, hi: Option<real>, pmax: nat)
    requires x.Leaf? && Shaped(x, 0, lo, hi, pmax) && i < |x.nodes| && nd.key.rank == x.nodes[i].key.rank
             && SmallNode(nd, pmax)
    ensures var x' := x.(nodes := x.nodes[i := nd]);
            Shaped(x', 0, lo, hi, pmax) && |Sizes(x')| == |Sizes(x)| == |x.nodes|
              && Split.Remove(Sizes(x'), i) == Split.Remove(Sizes(x), i)
  {
    hide SmallNode, NodeBytes;
  }

  lemma RemovedSparse(x: Tree, i: nat, lo: Option<real>, hi: Option<real>, pmax: nat)
    requires x.Leaf? && Shaped(x, 0, lo, hi, pmax) && Used(x) <= pmax && i < |x.nodes|
    ensures Sparse(x.(nodes := Split.Remove(x.nodes, i)), 0, lo, hi, pmax)
  {
    var x' := x.(nodes := Split.Remove(x.nodes, i));
    RemoveIndex(x.nodes, i);
    RemovedUsed(x, x', i);
    LeafOrdered(x, lo, hi);
    LeafOrdered(x', lo, hi);
    hide Split.Remove, SmallNodes, Skips, Used, Ordered, Sorted, Within;
    RemovedOrdered(x.nodes, x'.nodes, i, lo, hi);
    RemovedSmall(x, x', i, pmax);
  }

  lemma LeafOrdered(x: Tree, lo: Option<real>, hi: Option<real>)
    requires x.Leaf?
    ensures Ordered(x, lo, hi) <==> Sorted(x.nodes) && Within(x.nodes, lo, hi)
  {
  }

  lemma RemovedUsed(x: Tree, x': Tree, i: nat)
    requires x.Leaf? && i < |x.nodes| && x' == x.(nodes := Split.Remove(x.nodes, i))
    ensures Used(x') <= Used(x)
  {
    RemovedSizes(x.nodes, i);
    SizesCount(x);
    hide Split.Remove;
    WithoutLess(LeafSizes(x.nodes), i);
  }

  lemma SizesCount(x: Tree)
    ensures x.Leaf? ==> |Sizes(x)| == |x.nodes|
  {
  }

  lemma RemovedOrdered(s: seq<Node>, u: seq<Node>, i: nat, lo: Option<real>, hi: Option<real>)
    requires i < |s| && Sorted(s) && Within(s, lo, hi) && |u| == |s| - 1
    requires Skips(s, u, i)
    ensures Sorted(u) && Within(u, lo, hi)
  {
  }

  lemma RemovedSmall(x: Tree, x': Tree, i: nat, pmax: nat)
    requires x.Leaf? && x'.Leaf? && i < |x.nodes| && |x'.nodes| == |x.nodes| - 1 && SmallNodes(x, pmax)
    requires Skips(x.nodes, x'.nodes, i)
    ensures SmallNodes(x', pmax)
  {
    hide SmallNode;
  }

  ghost predicate Skips(s: seq<Node>, u: seq<Node>, i: nat) {
    |u| == |s| - 1 && i < |s| && (forall j :: 0 <= j < i ==> u[j] == s[j])
      && (forall j :: i <= j < |u| ==> u[j] == s[j+1])
  }

  lemma RemoveIndex(s: seq<Node>, i: nat)
    requires i < |s|
    ensures |Split.Remove(s, i)| == |s| - 1 && Skips(s, Split.Remove(s, i), i)
  {
  }

  lemma RemovedSizes(s: seq<Node>, i: nat)
    requires i < |s|
    ensures LeafSizes(Split.Remove(s, i)) == Split.Remove(LeafSizes(s), i)
  {
    hide NodeBytes;
  }

  lemma WithoutLess(c: seq<nat>, i: nat)
    requires i < |c|
    ensures Split.Sum(Split.Remove(c, i)) <= Split.Sum(c)
  {
    WithoutAt(c, i);
    Split.InsertSum(Split.Remove(c, i), i, c[i]);
  }

  // ---- The entries of the whole tree ----

  lemma InsertedEntries(t: Tree, path: seq<nat>, i: nat, nd: Node, h: nat)
    requires Balanced(t, h) && IsPath(t, path) && At(t, path).Leaf? && i <= |At(t, path).nodes|
    ensures Pos(t, path, i) <= |InOrder(t)|
    ensures EntriesWith(t, path, Split.Insert(At(t, path).nodes, i, nd))
            == Split.Insert(InOrder(t), Pos(t, path, i), nd)
  {
    hide Balanced, InOrder, InOrders, Left, Right, IsPath, At, Split.Insert;
    PathBalanced(t, path, h);
    LeafInOrder(At(t, path));
    var l, r := InOrders(Left(t, path)), InOrders(Right(t, path));
    InsertMiddle(l, At(t, path).nodes, r, i, nd);
  }

  lemma InsertMiddle(l: seq<Node>, s: seq<Node>, r: seq<Node>, i: nat, nd: Node)
    requires i <= |s|
    ensures l + Split.Insert(s, i, nd) + r == Split.Insert(l + s + r, |l| + i, nd)
  {
    assert (l + s + r)[..|l|+i] == l + s[..i] && (l + s + r)[|l|+i..] == s[i..] + r;
  }

  lemma ReplacedEntries(t: Tree, path: seq<nat>, i: nat, nd: Node, h: nat)
    requires Balanced(t, h) && IsPath(t, path) && At(t, path).Leaf? && i < |At(t, path).nodes|
    ensures Pos(t, path, i) < |InOrder(t)| && InOrder(t)[Pos(t, path, i)] == At(t, path).nodes[i]
    ensures EntriesWith(t, path, At(t, path).nodes[i := nd]) == InOrder(t)[Pos(t, path, i) := nd]
  {
    hide Balanced, InOrder, InOrders, Left, Right, IsPath, At;
    PathBalanced(t, path, h);
    LeafInOrder(At(t, path));
  }

  lemma RemovedEntries(t: Tree, path: seq<nat>, i: nat, h: nat)
    requires Balanced(t, h) && IsPath(t, path) && At(t, path).Leaf? && i < |At(t, path).nodes|
    ensures Pos(t, path, i) < |InOrder(t)| && InOrder(t)[Pos(t, path, i)] == At(t, path).nodes[i]
    ensures EntriesWith(t, path, Split.Remove(At(t, path).nodes, i)) == Split.Remove(InOrder(t), Pos(t, path, i))
  {
    hide Balanced, InOrder, InOrders, Left, Right, IsPath, At, Split.Remove;
    PathBalanced(t, path, h);
    LeafInOrder(At(t, path));
    var l, s, r := InOrders(Left(t, path)), At(t, path).nodes, InOrders(Right(t, path));
    RemoveMiddle(l, s, r, i);
  }

  lemma RemoveMiddle(l: seq<Node>, s: seq<Node>, r: seq<Node>, i: nat)
    requires i < |s|
    ensures l + Split.Remove(s, i) + r == Split.Remove(l + s + r, |l| + i)
  {
    assert (l + s + r)[..|l|+i] == l + s[..i] && (l + s + r)[|l|+i+1..] == s[i+1..] + r;
  }

  // ---- Putting a changed leaf in its place ----

  /** Leaf x, changed in slot i and otherwise as it was, is stored; it is split if it has become too full. */
  method StoreLeaf(t: Tree, path: seq<nat>, x: Tree, i: nat, append: bool, pmax: nat, txn: Txn, h: nat,
                   ghost known: set<Tree>)
    returns (ok: bool, r: Tree, h': nat, txn': Txn)
    requires Good(t, h, None, None, pmax) && |path| == h && LeafFor(t, path, x, pmax)
             && Writable(t, path, x, known, txn.dirty)
    requires i < |x.nodes| == |Sizes(x)| && Split.Sum(Split.Remove(Sizes(x), i)) <= pmax
             && (append ==> i == |x.nodes| - 1)
    requires At(t, path).Leaf? && x.pgno == At(t, path).pgno
    ensures ok ==> Good(r, h', None, None, pmax) && InOrder(r) == EntriesWith(t, path, x.nodes)
    ensures ok ==> Tally(Pages(r), Pages(t), txn, txn') && Frozen(r, known, txn'.dirty)
    ensures ok <==>
            Used(x) <= pmax || CanSplit(t, path, LeafKeys(x.nodes), LeafSizes(x.nodes), true, i, append, pmax)
  {
    ghost var old' := At(t, path);
    assert Pages(old') == Pages(x);
    assert InOrder(x) == x.nodes;
    hide Good, Shaped, Writable, Frozen, Pages, Settles, Sizes, Overfull, InOrder, EntriesWith, Accounted, Tally,
         Replace, LoAt, HiAt, CanSplit, KeysOf, LeafKeys, LeafSizes;
    r, h', txn' := t, h, txn;
    ok := true;
    KeysAndSizes(x);
    if Used(x) <= pmax {
      LeafGood(t, path, x, pmax);
      ReplaceGood(t, path, x, h, pmax);
      SettlesInPlace(t, path, x, txn, known);
      r := Replace(t, path, x);
    } else {
      LeafOverfull(x, i, LoAt(t, path), HiAt(t, path), pmax);
      ok, r, h', txn' := SplitUp(t, path, x, i, append, pmax, txn, h, known);
      if ok { SettlesSplit(r, t, path, x, txn, txn', known); }
    }
    if ok { SettlesSame(r, t, path, x, txn, txn', known); }
  }

  lemma KeysAndSizes(x: Tree)
    ensures x.Leaf? ==> KeysOf(x) == LeafKeys(x.nodes) && Sizes(x) == LeafSizes(x.nodes)
  {
  }

  lemma LeafGood(t: Tree, path: seq<nat>, x: Tree, pmax: nat)
    requires LeafFor(t, path, x, pmax) && x.nodes != [] && Used(x) <= pmax
    ensures Good(x, 0, LoAt(t, path), HiAt(t, path), pmax)
  {
  }

  lemma LeafOverfull(x: Tree, i: nat, lo: Option<real>, hi: Option<real>, pmax: nat)
    requires x.Leaf? && Shaped(x, 0, lo, hi, pmax) && i < |x.nodes| == |Sizes(x)|
             && Split.Sum(Split.Remove(Sizes(x), i)) <= pmax < Used(x)
    ensures Overfull(x, i, 0, lo, hi, pmax)
  {
  }

  lemma SettlesSame(r: Tree, t: Tree, path: seq<nat>, x: Tree, txn: Txn, txn': Txn, known: set<Tree>)
    requires Settles(Some(r), t, path, x, txn, txn', known) && IsPath(t, path) && Pages(At(t, path)) == Pages(x)
    ensures Tally(Pages(r), Pages(t), txn, txn') && Frozen(r, known, txn'.dirty)
  {
    hide Pages, Frozen, Tally, IsPath, At;
    var m := Pages(x);
    assert Pages(r) + (Pages(t) + m) == Pages(t) + (Pages(r) + m);
    TallySwap(Pages(r), Pages(t), Pages(r) + m, Pages(t) + m, txn, txn');
  }

  // ---- Overflow pages ----

  function RunOf(v: Value): multiset<nat> {
    match v
    case Big(pg, pages, _) => Span(pg, pg + pages)
    case Inline(_) => multiset{}
    case SubDb(_, _) => multiset{}
    case SubEmpty => multiset{}
  }

  /** The pages outside the tree that hold data of its entries. */
  function Over(s: seq<Node>): multiset<nat> {
    if s == [] then multiset{} else Over(s[..|s|-1]) + RunOf(s[|s|-1].value)
  }

  lemma {:induction false} OverConcat(a: seq<Node>, b: seq<Node>)
    ensures Over(a + b) == Over(a) + Over(b)
  {
    if b == [] {
      assert a + b == a;
    } else {
      assert (a + b)[..|a + b| - 1] == a + b[..|b|-1];
      OverConcat(a, b[..|b|-1]);
    }
  }

  lemma OverInsert(s: seq<Node>, b: nat, nd: Node)
    requires b <= |s|
    ensures Over(Split.Insert(s, b, nd)) == Over(s) + RunOf(nd.value)
  {
    hide Over, RunOf;
    OverOne(nd);
    OverConcat(s[..b] + [nd], s[b..]);
    OverConcat(s[..b], [nd]);
    OverConcat(s[..b], s[b..]);
    assert s == s[..b] + s[b..];
    Reorder(Over(s[..b]), RunOf(nd.value), Over(s[b..]));
  }

  lemma OverOne(nd: Node)
    ensures Over([nd]) == RunOf(nd.value)
  {
    assert [nd][..0] == [];
    assert Over([nd]) == Over([]) + RunOf(nd.value);
  }

  lemma Reorder(a: multiset<nat>, b: multiset<nat>, c: multiset<nat>)
    ensures a + b + c == a + c + b
  {
  }

  lemma OverRemove(s: seq<Node>, b: nat)
    requires b < |s|
    ensures Over(Split.Remove(s, b)) + RunOf(s[b].value) == Over(s)
  {
    PutBack(s, b);
    hide Over, Split.Insert, Split.Remove;
    OverInsert(Split.Remove(s, b), b, s[b]);
  }

  lemma OverReplace(s: seq<Node>, b: nat, nd: Node)
    requires b < |s|
    ensures Over(s[b := nd]) + RunOf(s[b].value) == Over(s) + RunOf(nd.value)
  {
    OverRemove(s, b);
    OverRemove(s[b := nd], b);
    hide Over;
    assert Split.Remove(s[b := nd], b) == Split.Remove(s, b);
    var m, x, y := Over(Split.Remove(s, b)), RunOf(s[b].value), RunOf(nd.value);
    assert m + y + x == m + x + y;
  }
}
