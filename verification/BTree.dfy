/**
 * Changing a tree: mdb_page_split carried up to the root, mdb_rebalance, and the put and delete paths
 * of mdb_cursor_put and mdb_cursor_del0 for databases without duplicates.
 *
 * A change is described by a good tree t, a path into it and the page x that is to stand there.
 */
module BTree {
  import opened Common
  import opened Tree
  import opened Paths
  import opened Search
  import opened Update
  import Split

  const PGNO_BYTES := 8
  const DB_RECORD := 48
  const FILL_THRESHOLD := 250

  function DataBytes(v: Value): nat {
    match v
    case Inline(data) => |data|
    case Big(_, _, _) => PGNO_BYTES
    case SubDb(_, _) => DB_RECORD
    case SubEmpty => DB_RECORD
  }

  /** Bytes a leaf node takes on its page, its slot included. */
  function NodeBytes(nd: Node): nat {
    Split.Even(Split.NODESIZE + nd.key.size + DataBytes(nd.value)) + Split.SLOT
  }

  function KeyBytes(key: Key): nat {
    Split.Even(Split.NODESIZE + key.size) + Split.SLOT
  }

  function LeafSizes(nodes: seq<Node>): seq<nat> {
    seq(|nodes|, i requires 0 <= i < |nodes| => NodeBytes(nodes[i]))
  }

  /** The first node of a branch page has no key. */
  function BranchSizes(keys: seq<Key>): seq<nat> {
    seq(|keys|, i requires 0 <= i < |keys| => if i == 0 then Split.NULL_NODE else KeyBytes(keys[i]))
  }

  function Sizes(page: Tree): seq<nat> {
    match page
    case Leaf(_, nodes) => LeafSizes(nodes)
    case Branch(_, keys, _) => BranchSizes(keys)
  }

  function Used(page: Tree): nat {
    Split.Sum(Sizes(page))
  }

  /** Keys of at most a quarter of a page: 511 bytes on pages of 4096 or more. */
  predicate SmallKey(key: Key, pmax: nat) { 4 * KeyBytes(key) <= pmax }

  /** Nodes of at most half a page each, as me_nodemax demands. */
  predicate SmallNode(nd: Node, pmax: nat) { SmallKey(nd.key, pmax) && 2 * NodeBytes(nd) <= pmax }

  ghost predicate SmallNodes(page: Tree, pmax: nat) {
    match page
    case Leaf(_, nodes) => forall i :: 0 <= i < |nodes| ==> SmallNode(nodes[i], pmax)
    case Branch(_, keys, _) => 4 * Split.NULL_NODE <= pmax && forall i :: 1 <= i < |keys| ==> SmallKey(keys[i], pmax)
  }

  ghost predicate PageFits(page: Tree, pmax: nat) {
    SmallNodes(page, pmax) && Used(page) <= pmax
  }

  /** A page of a tree at rest: a leaf holds an entry, a branch has a choice of children. */
  ghost predicate PageOk(page: Tree, pmax: nat) {
    && PageFits(page, pmax)
    && (if page.Leaf? then page.nodes != [] else |page.kids| >= 2)
  }

  ghost predicate KidsOk(page: Tree, pmax: nat)
    decreases page, 0
  {
    page.Branch? ==> forall i :: 0 <= i < |page.kids| ==> AllOk(page.kids[i], pmax)
  }

  ghost predicate AllOk(t: Tree, pmax: nat)
    decreases t, 1
  {
    PageOk(t, pmax) && KidsOk(t, pmax)
  }

  ghost predicate Good(t: Tree, h: nat, lo: Option<real>, hi: Option<real>, pmax: nat) {
    Balanced(t, h) && Ordered(t, lo, hi) && AllOk(t, pmax)
  }

  /** Good except that the page itself may hold too little. */
  ghost predicate Sparse(x: Tree, h: nat, lo: Option<real>, hi: Option<real>, pmax: nat) {
    Balanced(x, h) && Ordered(x, lo, hi) && KidsOk(x, pmax) && PageFits(x, pmax)
  }

  lemma GoodAt(t: Tree, path: seq<nat>, h: nat, pmax: nat)
    requires Good(t, h, None, None, pmax) && IsPath(t, path)
    ensures |path| <= h && Good(At(t, path), h - |path|, LoAt(t, path), HiAt(t, path), pmax)
  {
    hide Balanced, Ordered, AllOk;
    PathDepth(t, path, h);
    OrderedAt(t, path);
    AllOkAt(t, path, pmax);
  }

  lemma {:induction false} ReplaceOk(t: Tree, path: seq<nat>, x: Tree, pmax: nat)
    requires IsPath(t, path) && AllOk(t, pmax) && AllOk(x, pmax)
    ensures AllOk(Replace(t, path, x), pmax)
    decreases |path|
  {
    if path != [] {
      var init, last := path[..|path|-1], path[|path|-1];
      AllOkAt(t, init, pmax);
      var parent := At(t, init);
      var parent' := parent.(kids := parent.kids[last := x]);
      assert Sizes(parent') == Sizes(parent);
      ReplaceOk(t, init, parent', pmax);
    }
  }

  lemma {:induction false} AllOkAt(t: Tree, path: seq<nat>, pmax: nat)
    requires IsPath(t, path) && AllOk(t, pmax)
    ensures AllOk(At(t, path), pmax)
    decreases |path|
  {
    if path != [] { AllOkAt(t, path[..|path|-1], pmax); }
  }

  /** What the entries of the whole tree become when x stands at path. */
  ghost function EntriesWith(t: Tree, path: seq<nat>, mid: seq<Node>): seq<Node>
    requires IsPath(t, path)
  {
    InOrders(Left(t, path)) + mid + InOrders(Right(t, path))
  }

  lemma ReplaceGood(t: Tree, path: seq<nat>, x: Tree, h: nat, pmax: nat)
    requires Good(t, h, None, None, pmax) && IsPath(t, path) && |path| <= h
    requires Good(x, h - |path|, LoAt(t, path), HiAt(t, path), pmax)
    ensures Good(Replace(t, path, x), h, None, None, pmax)
    ensures InOrder(Replace(t, path, x)) == EntriesWith(t, path, InOrder(x))
  {
    hide InOrder, InOrders, Balanced, Ordered, AllOk, Left, Right;
    ReplaceAt(t, path, x, h);
    ReplaceOrdered(t, path, x);
    ReplaceOk(t, path, x, pmax);
  }
}
