/**
 * The sizes that the operations on trees count with are those that nodes take on a page: SIZELEFT of a page in bytes
 * is what BTree.Used leaves.
 */
module Layout {
  import opened Tree
  import opened BTree
  import opened SlottedPages
  import Split

  /** Cell c is node nd of a leaf: the size of its key and data, and whether the data is on overflow pages. */
  ghost predicate LeafCell(nd: Node, c: Cell) {
    && |c.key| == nd.key.size && (nd.value.Big? <==> c.flags % 2 == 1)
    && c.size == match nd.value
                 case Inline(data) => |data|
                 case Big(_, _, data) => |data|
                 case SubDb(_, _) => 48
                 case SubEmpty => 48
  }

  /** Such a cell holds the data itself or the number of the overflow page, and takes what the tree counts with. */
  lemma LeafCellBytes(nd: Node, c: Cell)
    requires LeafCell(nd, c) && |c.data| == DataLength(c.size, c.flags, true)
    ensures |c.data| == match nd.value case Inline(data) => |data| case Big(_, _, _) => 8 case _ => 48
    ensures NodeBytes(nd) == Split.Even(8 + |c.key| + |c.data|) + 2
  {
  }

  /** Cell c holds node i of a branch page; the first has no key. */
  ghost predicate BranchCell(key: Key, i: nat, c: Cell) {
    |c.key| == (if i == 0 then 0 else key.size) && c.data == []
  }

  lemma CellSize(m: seq<Byte>, o: nat, n: nat, c: Cell, leaf: bool)
    requires CellAt(m, o, n, c, leaf)
    ensures n == Split.Even(8 + |c.key| + |c.data|) && |c.data| == DataLength(c.size, c.flags, leaf)
  {
  }

  lemma {:induction false} SumSlots(z: seq<nat>, w: seq<nat>)
    requires |z| == |w| && forall i :: 0 <= i < |z| ==> w[i] == z[i] + 2
    ensures Split.Sum(w) == Split.Sum(z) + 2 * |z|
  {
    if z != [] { SumSlots(z[..|z|-1], w[..|w|-1]); }
  }

  /** What is left on a page whose nodes have sizes w, their slots included. */
  lemma RoomLeft(page: SlottedPage, w: seq<nat>)
    requires page.Valid() && |w| == |page.cells|
    requires forall i :: 0 <= i < |w| ==> w[i] == Split.Even(8 + |page.cells[i].key| + |page.cells[i].data|) + 2
    ensures page.upper - page.lower == page.psize - 16 - Split.Sum(w)
  {
    hide Split.Sum, CellAt;
    var n := |page.cells|;
    forall i | 0 <= i < n ensures w[i] == page.sizes[i] + 2 {
      CellSize(page.mem[..], page.ptrs[..n][i], page.sizes[i], page.cells[i], page.leaf);
    }
    SumSlots(page.sizes, w);
  }

  lemma LeafRoom(page: SlottedPage, pgno: nat, nodes: seq<Node>)
    requires page.Valid() && page.leaf && |nodes| == |page.cells|
    requires forall i :: 0 <= i < |nodes| ==> LeafCell(nodes[i], page.cells[i])
    ensures page.upper - page.lower == page.psize - 16 - Used(Leaf(pgno, nodes))
  {
    hide Split.Sum, Split.Even, CellAt, LeafCell, NodeBytes;
    var n := |page.cells|;
    forall i | 0 <= i < n
      ensures LeafSizes(nodes)[i] == Split.Even(8 + |page.cells[i].key| + |page.cells[i].data|) + 2
    {
      CellSize(page.mem[..], page.ptrs[..n][i], page.sizes[i], page.cells[i], true);
      LeafCellBytes(nodes[i], page.cells[i]);
    }
    hide SlottedPage.Valid;
    RoomLeft(page, LeafSizes(nodes));
  }

  lemma BranchRoom(page: SlottedPage, pgno: nat, keys: seq<Key>, kids: seq<Tree>)
    requires page.Valid() && |keys| == |page.cells|
    requires forall i :: 0 <= i < |keys| ==> BranchCell(keys[i], i, page.cells[i])
    ensures page.upper - page.lower == page.psize - 16 - Used(Branch(pgno, keys, kids))
  {
    hide SlottedPage.Valid, Split.Sum;
    RoomLeft(page, BranchSizes(keys));
  }

  /** So mdb_node_add has room for a node exactly if the tree operations think so. */
  lemma AddFits(page: SlottedPage, pgno: nat, nodes: seq<Node>, nd: Node, c: Cell)
    requires page.Valid() && page.leaf && |nodes| == |page.cells| && LeafCell(nd, c) && WellSized(c, true)
    requires forall i :: 0 <= i < |nodes| ==> LeafCell(nodes[i], page.cells[i])
    ensures CellBytes(c) + 2 <= page.upper - page.lower <==>
            Used(Leaf(pgno, nodes)) + NodeBytes(nd) <= page.psize - 16
  {
    hide SlottedPage.Valid, Split.Sum, Split.Even;
    LeafRoom(page, pgno, nodes);
    LeafCellBytes(nd, c);
  }
}
