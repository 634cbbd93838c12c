/**
 * B+tree pages as values, and the places in a tree that a cursor stack denotes.
 *
 * A comparator is a total order on byte strings.  There are only countably many byte strings, so
 * every such order embeds in the reals; a key is modelled by its place in the order and its size.
 */
module Tree {
  import opened Common
  datatype Key = Key(rank: real, size: nat)

  /** F_BIGDATA data lives on its own run of overflow pages, F_SUBDATA data is another tree of md_depth depth. */
  datatype Value =
    | Inline(data: string)
    | Big(pg: nat, pages: nat, data: string)
    | SubDb(sub: Tree, depth: nat)
    | SubEmpty

  datatype Node = Node(key: Key, value: Value)

  /** keys[0] of a branch page is never looked at: the leftmost key is implicit. */
  datatype Tree =
    | Leaf(pgno: nat, nodes: seq<Node>)
    | Branch(pgno: nat, keys: seq<Key>, kids: seq<Tree>)
  {
    function NumKeys(): nat {
      match this
      case Leaf(_, nodes) => |nodes|
      case Branch(_, _, kids) => |kids|
    }
  }

  function InOrder(t: Tree): seq<Node>
    decreases t, 1
  {
    match t
    case Leaf(_, nodes) => nodes
    case Branch(_, _, kids) => InOrders(kids)
  }

  function InOrders(ts: seq<Tree>): seq<Node>
    decreases ts, 0
  {
    if ts == [] then [] else InOrder(ts[0]) + InOrders(ts[1..])
  }

  lemma {:induction false} InOrdersConcat(a: seq<Tree>, b: seq<Tree>)
    ensures InOrders(a + b) == InOrders(a) + InOrders(b)
  {
    if a == [] {
      assert a + b == b;
    } else {
      assert (a + b)[1..] == a[1..] + b;
      InOrdersConcat(a[1..], b);
    }
  }

  lemma InOrdersOne(t: Tree)
    ensures InOrders([t]) == InOrder(t)
  {
    assert InOrders([t]) == InOrder(t) + InOrders([]);
  }

  lemma LeafInOrder(t: Tree)
    ensures t.Leaf? ==> InOrder(t) == t.nodes
  {
  }

  /** All leaves at depth h, no branch without children. */
  predicate Balanced(t: Tree, h: nat)
    decreases t
  {
    match t
    case Leaf(_, _) => h == 0
    case Branch(_, keys, kids) =>
      h > 0 && |keys| == |kids| > 0 && forall i :: 0 <= i < |kids| ==> Balanced(kids[i], h - 1)
  }

  // ---- Paths: the indices mc_ki[0..top) that lead to page mc_pg[top] ----

  predicate IsPath(t: Tree, path: seq<nat>)
    decreases |path|, 0
  {
    path == [] ||
    var init, last := path[..|path|-1], path[|path|-1];
    IsPath(t, init) && At(t, init).Branch? && last < |At(t, init).kids|
  }

  function At(t: Tree, path: seq<nat>): Tree
    requires IsPath(t, path)
    decreases |path|, 1
  {
    if path == [] then t else At(t, path[..|path|-1]).kids[path[|path|-1]]
  }

  function KidsOf(ts: seq<Tree>): seq<Tree> {
    if ts == [] then [] else (if ts[0].Branch? then ts[0].kids else []) + KidsOf(ts[1..])
  }

  lemma {:induction false} KidsOfConcat(a: seq<Tree>, b: seq<Tree>)
    ensures KidsOf(a + b) == KidsOf(a) + KidsOf(b)
  {
    if a == [] {
      assert a + b == b;
    } else {
      assert (a + b)[1..] == a[1..] + b;
      KidsOfConcat(a[1..], b);
    }
  }

  /** The pages at depth d, left to right. */
  function Level(t: Tree, d: nat): seq<Tree> {
    if d == 0 then [t] else KidsOf(Level(t, d - 1))
  }

  /** The pages left of a path at the same depth. */
  function Left(t: Tree, path: seq<nat>): seq<Tree>
    requires IsPath(t, path)
    decreases |path|
  {
    if path == [] then []
    else
      var init := path[..|path|-1];
      KidsOf(Left(t, init)) + At(t, init).kids[..path[|path|-1]]
  }

  /** The pages right of a path at the same depth. */
  function Right(t: Tree, path: seq<nat>): seq<Tree>
    requires IsPath(t, path)
    decreases |path|
  {
    if path == [] then []
    else
      var init := path[..|path|-1];
      At(t, init).kids[path[|path|-1] + 1..] + KidsOf(Right(t, init))
  }

  lemma {:induction false} LevelSplit(t: Tree, path: seq<nat>)
    requires IsPath(t, path)
    ensures Level(t, |path|) == Left(t, path) + [At(t, path)] + Right(t, path)
    decreases |path|
  {
    if path != [] {
      hide KidsOf;
      var init, last := path[..|path|-1], path[|path|-1];
      var parent := At(t, init);
      LevelSplit(t, init);
      KidsOfConcat(Left(t, init) + [parent], Right(t, init));
      KidsOfConcat(Left(t, init), [parent]);
      KidsOfOne(parent);
      Splice(KidsOf(Left(t, init)), parent.kids, last, KidsOf(Right(t, init)));
    }
  }

  lemma KidsOfOne(p: Tree)
    ensures p.Branch? ==> KidsOf([p]) == p.kids
  {
    assert KidsOf([p]) == (if p.Branch? then p.kids else []) + KidsOf([]);
  }

  lemma Splice<T>(a: seq<T>, s: seq<T>, i: nat, b: seq<T>)
    requires i < |s|
    ensures a + s + b == (a + s[..i]) + [s[i]] + (s[i+1..] + b)
  {
    assert s == s[..i] + [s[i]] + s[i+1..];
  }

  /** Every page on the same level as a path into a balanced tree has the same height. */
  ghost predicate AllBalanced(ts: seq<Tree>, h: nat) {
    forall i :: 0 <= i < |ts| ==> Balanced(ts[i], h)
  }

  lemma {:induction false} KidsBalanced(ts: seq<Tree>, h: nat)
    requires AllBalanced(ts, h) && h > 0
    ensures AllBalanced(KidsOf(ts), h - 1)
    ensures InOrders(KidsOf(ts)) == InOrders(ts)
    ensures ts != [] ==> KidsOf(ts) != []
  {
    if ts != [] {
      KidsBalanced(ts[1..], h);
      InOrdersConcat(ts[0].kids, KidsOf(ts[1..]));
    }
  }

  lemma {:induction false} LevelBalanced(t: Tree, d: nat, h: nat)
    requires Balanced(t, h) && d <= h
    ensures AllBalanced(Level(t, d), h - d) && InOrders(Level(t, d)) == InOrder(t)
  {
    if d == 0 {
      InOrdersOne(t);
    } else {
      LevelBalanced(t, d - 1, h);
      KidsBalanced(Level(t, d - 1), h - (d - 1));
    }
  }

  lemma {:induction false} PathDepth(t: Tree, path: seq<nat>, h: nat)
    requires IsPath(t, path) && Balanced(t, h)
    ensures |path| <= h && Balanced(At(t, path), h - |path|)
    decreases |path|
  {
    if path != [] { PathDepth(t, path[..|path|-1], h); }
  }

  lemma PathBalanced(t: Tree, path: seq<nat>, h: nat)
    requires IsPath(t, path) && Balanced(t, h)
    ensures |path| <= h && Balanced(At(t, path), h - |path|)
    ensures AllBalanced(Left(t, path), h - |path|) && AllBalanced(Right(t, path), h - |path|)
    ensures InOrder(t) == InOrders(Left(t, path)) + InOrder(At(t, path)) + InOrders(Right(t, path))
  {
    PathDepth(t, path, h);
    LevelSplit(t, path);
    LevelBalanced(t, |path|, h);
    SplitBalanced(Level(t, |path|), Left(t, path), At(t, path), Right(t, path), h - |path|);
  }

  lemma SplitBalanced(all: seq<Tree>, l: seq<Tree>, p: Tree, r: seq<Tree>, h: nat)
    requires all == l + [p] + r && AllBalanced(all, h)
    ensures AllBalanced(l, h) && AllBalanced(r, h)
    ensures InOrders(all) == InOrders(l) + InOrder(p) + InOrders(r)
  {
    hide Balanced, InOrders, InOrder;
    assert forall i :: 0 <= i < |l| ==> all[i] == l[i];
    assert forall i :: 0 <= i < |r| ==> all[|l| + 1 + i] == r[i];
    InOrdersConcat(l + [p], r);
    InOrdersConcat(l, [p]);
    InOrdersOne(p);
  }

  /** A page of maximal depth is a leaf, and only those are. */
  lemma PathToLeaf(t: Tree, path: seq<nat>, h: nat)
    requires IsPath(t, path) && Balanced(t, h)
    ensures |path| <= h && (At(t, path).Leaf? <==> |path| == h)
  {
    PathDepth(t, path, h);
  }

  // ---- Search order ----

  /** Keys of t lie in [lo, hi) and every separator bounds the subtrees on both its sides. */
  ghost predicate Ordered(t: Tree, lo: Option<real>, hi: Option<real>)
    decreases t
  {
    match t
    case Leaf(_, nodes) =>
      && (forall i, j :: 0 <= i < j < |nodes| ==> nodes[i].key.rank < nodes[j].key.rank)
      && (forall i :: 0 <= i < |nodes| ==> Above(lo, nodes[i].key.rank) && Below(nodes[i].key.rank, hi))
    case Branch(_, keys, kids) =>
      && |keys| == |kids|
      && (forall i, j :: 1 <= i < j < |keys| ==> keys[i].rank < keys[j].rank)
      && (forall i :: 1 <= i < |keys| ==> Above(lo, keys[i].rank) && Below(keys[i].rank, hi))
      && (forall i :: 0 <= i < |kids| ==> Ordered(kids[i], KidLo(t, lo, i), KidHi(t, hi, i)))
  }

  ghost predicate Above(lo: Option<real>, x: real) { lo.Some? ==> lo.value <= x }

  ghost predicate Below(x: real, hi: Option<real>) { hi.Some? ==> x < hi.value }

  ghost function KidLo(t: Tree, lo: Option<real>, i: nat): Option<real>
    requires t.Branch? && i < |t.keys|
  {
    if i == 0 then lo else Some(t.keys[i].rank)
  }

  ghost function KidHi(t: Tree, hi: Option<real>, i: nat): Option<real>
    requires t.Branch? && i < |t.keys|
  {
    if i + 1 == |t.keys| then hi else Some(t.keys[i+1].rank)
  }

  ghost predicate Sorted(s: seq<Node>) {
    forall i, j :: 0 <= i < j < |s| ==> s[i].key.rank < s[j].key.rank
  }

  ghost predicate Within(s: seq<Node>, lo: Option<real>, hi: Option<real>) {
    forall i :: 0 <= i < |s| ==> Above(lo, s[i].key.rank) && Below(s[i].key.rank, hi)
  }
}
