/**
 * Cursors that stay on their entries while another one edits the leaf they are on: the adjustments in
 * mdb_cursor_put and mdb_cursor_del0 when no page is split or merged.
 */
module Tracked {
  import opened Common
  import opened Tree
  import opened Paths
  import opened Search
  import opened Update
  import opened Cursors
  import opened Contents
  import BTree
  import Leaves
  import Shrink
  import Split

  // ---- Trees that differ in the contents of leaves only ----

  ghost predicate Alike(t: Tree, u: Tree)
    decreases t
  {
    match t
    case Leaf(_, _) => u.Leaf?
    case Branch(_, _, kids) =>
      u.Branch? && |u.kids| == |kids| && forall i :: 0 <= i < |kids| ==> Alike(kids[i], u.kids[i])
  }

  lemma {:induction false} AlikeRefl(t: Tree)
    ensures Alike(t, t)
    decreases t
  {
    if t.Branch? {
      forall i | 0 <= i < |t.kids| ensures Alike(t.kids[i], t.kids[i]) { AlikeRefl(t.kids[i]); }
    }
  }

  lemma {:induction false} ReplaceAlike(t: Tree, path: seq<nat>, x: Tree)
    requires IsPath(t, path) && Alike(At(t, path), x)
    ensures Alike(t, Replace(t, path, x))
    decreases |path|
  {
    if path != [] {
      var init, last := path[..|path|-1], path[|path|-1];
      var parent := At(t, init);
      var parent' := parent.(kids := parent.kids[last := x]);
      forall i | 0 <= i < |parent.kids| ensures Alike(parent.kids[i], parent'.kids[i]) { AlikeRefl(parent.kids[i]); }
      ReplaceAlike(t, init, parent');
    }
  }

  /** The same paths exist, and the same ones have nothing to their right. */
  lemma {:induction false} AlikeAt(t: Tree, u: Tree, path: seq<nat>)
    requires Alike(t, u) && IsPath(t, path)
    ensures IsPath(u, path) && Alike(At(t, path), At(u, path))
    ensures Neighbour(t, path, true).None? <==> Neighbour(u, path, true).None?
    decreases |path|
  {
    if path != [] {
      AlikeAt(t, u, path[..|path|-1]);
    }
  }

  /** Exchanging one page changes no other page of its level, and nothing left of it. */
  lemma {:induction false} ReplacedPage(t: Tree, path: seq<nat>, x: Tree, q: seq<nat>)
    requires IsPath(t, path) && IsPath(t, q) && |q| == |path|
    ensures var u := Replace(t, path, x);
            && IsPath(u, q) && At(u, q) == (if q == path then x else At(t, q))
            && (q == path ==> Left(u, path) == Left(t, path))
    decreases |path|
  {
    if path != [] {
      hide IsPath, At, Left, Replace, KidsOf;
      var n := |path| - 1;
      ParentPage(t, path);
      ParentPage(t, q);
      var parent := At(t, path[..n]);
      var parent' := parent.(kids := parent.kids[path[n] := x]);
      ReplacedPage(t, path[..n], parent', q[..n]);
      ReplaceUp(t, path, x);
      PathParts(t, path);
      PathParts(t, q);
      PathParts(Replace(t, path, x), q);
      LastDiffers(path, q);
    }
  }

  lemma LastDiffers(p: seq<nat>, q: seq<nat>)
    requires |p| == |q| > 0
    ensures p == q <==> p[..|p|-1] == q[..|q|-1] && p[|p|-1] == q[|q|-1]
  {
    assert p == p[..|p|-1] + [p[|p|-1]] && q == q[..|q|-1] + [q[|q|-1]];
  }

  /** The definition of Replace, for one step up. */
  lemma ReplaceUp(t: Tree, path: seq<nat>, x: Tree)
    requires IsPath(t, path) && path != []
    ensures var init, last := path[..|path|-1], path[|path|-1];
            && IsPath(t, init) && At(t, init).Branch? && last < |At(t, init).kids|
            && Replace(t, path, x) == Replace(t, init, At(t, init).(kids := At(t, init).kids[last := x]))
  {
  }

  lemma {:induction false} ReplaceNoEmptyLeaf(t: Tree, path: seq<nat>, x: Tree)
    requires IsPath(t, path) && NoEmptyLeaf(t) && NoEmptyLeaf(x)
    ensures NoEmptyLeaf(Replace(t, path, x))
    decreases |path|
  {
    if path != [] {
      var init, last := path[..|path|-1], path[|path|-1];
      NoEmptyLeafAt(t, init);
      var parent := At(t, init);
      ReplaceNoEmptyLeaf(t, init, parent.(kids := parent.kids[last := x]));
    }
  }

  // ---- One leaf exchanged ----

  /** A tree that cursors can walk. */
  ghost predicate Sound(t: Tree, h: nat) {
    Balanced(t, h) && Ordered(t, None, None) && NoEmptyLeaf(t)
  }

  /** A leaf x that can stand at path. */
  ghost predicate LeafFits(t: Tree, path: seq<nat>, x: Tree, h: nat) {
    IsPath(t, path) && |path| == h && x.Leaf? && x.nodes != [] && Ordered(x, LoAt(t, path), HiAt(t, path))
  }

  lemma LeafExchanged(t: Tree, path: seq<nat>, x: Tree, h: nat)
    requires Sound(t, h) && LeafFits(t, path, x, h)
    ensures Sound(Replace(t, path, x), h)
    ensures InOrder(Replace(t, path, x)) == BTree.EntriesWith(t, path, x.nodes)
  {
    ReplaceAt(t, path, x, h);
    ReplaceOrdered(t, path, x);
    ReplaceNoEmptyLeaf(t, path, x);
  }

  /** The stack of an initialized cursor. */
  ghost predicate OnLeaf(t: Tree, ki: seq<nat>, h: nat) {
    |ki| == h + 1 && IsPath(t, ki[..h]) && At(t, ki[..h]).Leaf? && ki[h] <= |At(t, ki[..h]).nodes|
  }

  /** Stacks that lead to other leaves are not affected. */
  lemma OtherLeaf(t: Tree, path: seq<nat>, x: Tree, ki: seq<nat>, h: nat)
    requires LeafFits(t, path, x, h) && At(t, path).Leaf? && OnLeaf(t, ki, h)
    ensures var u := Replace(t, path, x);
            && IsPath(u, ki[..h]) && At(u, ki[..h]) == (if ki[..h] == path then x else At(t, ki[..h]))
            && (Neighbour(t, ki[..h], true).None? <==> Neighbour(u, ki[..h], true).None?)
            && (ki[..h] == path ==> Left(u, path) == Left(t, path))
  {
    hide Replace, IsPath, At, Neighbour, Left, Ordered;
    ReplacedPage(t, path, x, ki[..h]);
    assert Alike(At(t, path), x);
    ReplaceAlike(t, path, x);
    AlikeAt(t, Replace(t, path, x), ki[..h]);
  }

  // ---- What a cursor denotes ----

  ghost predicate OnSlot(c: Cursor)
    reads c, c.db
  {
    c.Valid() && c.init && c.ki[|c.ki|-1] < |c.Top().nodes|
  }

  ghost function Entry(c: Cursor): Node
    requires OnSlot(c)
    reads c, c.db
  {
    c.Top().nodes[c.ki[|c.ki|-1]]
  }

  /** The entry is the one in the database that has Position() entries before it. */
  lemma EntryInOrder(c: Cursor)
    requires OnSlot(c)
    ensures c.Position() < |c.db.Entries()| && c.db.Entries()[c.Position()] == Entry(c)
  {
    EntryAtPos(c.db.root.value, c.ki[..|c.ki|-1], c.ki[|c.ki|-1], c.db.depth - 1);
  }

  // ---- Inserting ----

  /** Where m3 goes when a node has been added at slot i of the page at path. */
  function Raised(ki: seq<nat>, path: seq<nat>, i: nat): seq<nat>
    requires |ki| == |path| + 1
  {
    var h := |path|;
    if ki[..h] == path && ki[h] >= i then ki[h := ki[h] + 1] else ki
  }

  lemma InsertFits(t: Tree, path: seq<nat>, i: nat, nd: Node, h: nat)
    requires Sound(t, h) && Leaves.Place(t, path, i, nd.key.rank, h)
    requires i < |At(t, path).nodes| ==> At(t, path).nodes[i].key.rank != nd.key.rank
    ensures LeafFits(t, path, Leaf(At(t, path).pgno, Split.Insert(At(t, path).nodes, i, nd)), h)
  {
    var s := At(t, path).nodes;
    Leaves.KeyInBounds(t, path, i, nd.key.rank, h);
    OrderedAt(t, path);
    Leaves.InsertedOrdered(s, Split.Insert(s, i, nd), i, nd, LoAt(t, path), HiAt(t, path));
  }

  /** A stack raised past the new node leads to the node it led to before. */
  lemma RaisedKeeps(t: Tree, path: seq<nat>, i: nat, nd: Node, ki: seq<nat>, h: nat)
    requires Sound(t, h) && IsPath(t, path) && At(t, path).Leaf? && i <= |At(t, path).nodes| && OnLeaf(t, ki, h)
    requires LeafFits(t, path, Leaf(At(t, path).pgno, Split.Insert(At(t, path).nodes, i, nd)), h)
    ensures var u := Replace(t, path, Leaf(At(t, path).pgno, Split.Insert(At(t, path).nodes, i, nd)));
            var k := Raised(ki, path, i);
            && OnLeaf(u, k, h) && k[..h] == ki[..h]
            && (Neighbour(t, ki[..h], true).None? <==> Neighbour(u, k[..h], true).None?)
            && (ki[h] < |At(t, ki[..h]).nodes| ==>
                   k[h] < |At(u, k[..h]).nodes| && At(u, k[..h]).nodes[k[h]] == At(t, ki[..h]).nodes[ki[h]])
  {
    var x := Leaf(At(t, path).pgno, Split.Insert(At(t, path).nodes, i, nd));
    OtherLeaf(t, path, x, ki, h);
    hide Replace, IsPath, At, Neighbour, Left, Ordered, LeafFits, Sound;
    assert Raised(ki, path, i)[..h] == ki[..h];
  }

  ghost predicate Distinct(cs: seq<Cursor>) {
    forall i, j :: 0 <= i < j < |cs| ==> cs[i] != cs[j]
  }

  /** All cursors open on one database. */
  ghost predicate AllOf(db: Database, cs: seq<Cursor>)
    reads db, cs
  {
    Distinct(cs) && forall c :: c in cs ==> c.db == db && c.Valid()
  }

  /** The loop over mt_cursors in mdb_cursor_put. */
  method RaiseAll(mc: Cursor, cs: seq<Cursor>, path: seq<nat>, i: nat)
    requires Distinct(cs) && forall c :: c in cs && c.init ==> |c.ki| == |path| + 1
    modifies cs`ki
    ensures forall c :: c in cs ==> c.ki == if c == mc || !c.init then old(c.ki) else Raised(old(c.ki), path, i)
  {
    var h := |path|;
    for n := 0 to |cs|
      invariant forall m :: 0 <= m < n ==>
        cs[m].ki == if cs[m] == mc || !cs[m].init then old(cs[m].ki) else Raised(old(cs[m].ki), path, i)
      invariant forall m :: n <= m < |cs| ==> cs[m].ki == old(cs[m].ki)
    {
      var m3 := cs[n];
      if m3 != mc && m3.init && m3.ki[..h] == path && m3.ki[h] >= i {
        m3.ki := m3.ki[h := m3.ki[h] + 1];
      }
    }
  }

  /** The leaf of the cursor has room for one more node, so that mdb_cursor_put does not split it. */
  ghost predicate RoomFor(mc: Cursor, nd: Node, pmax: nat)
    requires mc.Valid() && mc.init
    reads mc, mc.db
  {
    BTree.Used(mc.Top()) + BTree.NodeBytes(nd) <= pmax
  }

  /** mdb_cursor_put where the new node fits the leaf: the other cursors on that page are adjusted. */
  method InsertTracked(mc: Cursor, cs: seq<Cursor>, nd: Node, ghost pmax: nat)
    requires AllOf(mc.db, cs) && mc.Valid() && mc.init && RoomFor(mc, nd, pmax)
    requires Leaves.Place(mc.db.root.value, mc.ki[..|mc.ki|-1], mc.ki[|mc.ki|-1], nd.key.rank, mc.db.depth - 1)
    requires OnSlot(mc) ==> Entry(mc).key.rank != nd.key.rank
    modifies mc.db`root, cs`ki
    ensures AllOf(mc.db, cs) && OnSlot(mc) && mc.ki == old(mc.ki) && Entry(mc) == nd
    ensures old(mc.Position()) <= |old(mc.db.Entries())|
    ensures mc.db.Entries() == Split.Insert(old(mc.db.Entries()), old(mc.Position()), nd)
    ensures BTree.Used(mc.Top()) == old(BTree.Used(mc.Top())) + BTree.NodeBytes(nd) <= pmax
    ensures forall c :: c in cs && c != mc && old(OnSlot(c)) ==> OnSlot(c) && Entry(c) == old(Entry(c))
  {
    hide Leaves.Place, IsPath, At, Neighbour, Left, Right, Replace, Balanced, Ordered, NoEmptyLeaf, InOrder, InOrders,
         Raised, Split.Insert, BTree.EntriesWith, BTree.Used, BTree.NodeBytes;
    ghost var t, h := mc.db.root.value, mc.db.depth - 1;
    var path, i, page := mc.ki[..|mc.ki|-1], mc.ki[|mc.ki|-1], mc.Top();
    var x := Leaf(page.pgno, Split.Insert(page.nodes, i, nd));
    InsertFits(t, path, i, nd, h);
    LeafExchanged(t, path, x, h);
    mc.db.root := Some(Replace(mc.db.root.value, path, x));
    RaiseAll(mc, cs, path, i);
    forall c | c in cs && c != mc && c.init
      ensures c.Valid() && (old(OnSlot(c)) ==> OnSlot(c) && Entry(c) == old(Entry(c)))
    {
      RaisedKeeps(t, path, i, nd, old(c.ki), h);
    }
    OtherLeaf(t, path, x, mc.ki, h);
    Leaves.InsertedEntries(t, path, i, nd, h);
    NewNode(page.nodes, i, nd);
    MoreUsed(page.pgno, page.nodes, i, nd);
  }

  lemma MoreUsed(pgno: nat, s: seq<Node>, i: nat, nd: Node)
    requires i <= |s|
    ensures BTree.Used(Leaf(pgno, Split.Insert(s, i, nd))) == BTree.Used(Leaf(pgno, s)) + BTree.NodeBytes(nd)
  {
    hide BTree.NodeBytes, Split.Sum;
    var sizes := BTree.LeafSizes(s);
    assert BTree.LeafSizes(Split.Insert(s, i, nd)) == Split.Insert(sizes, i, BTree.NodeBytes(nd));
    Split.InsertSum(sizes, i, BTree.NodeBytes(nd));
  }

  lemma NewNode(s: seq<Node>, i: nat, nd: Node)
    requires i <= |s|
    ensures i < |Split.Insert(s, i, nd)| && Split.Insert(s, i, nd)[i] == nd
  {
  }

  // ---- Deleting ----

  /** Where m3 goes when the node at slot i of the page at path has been removed. */
  function Lowered(ki: seq<nat>, path: seq<nat>, i: nat): seq<nat>
    requires |ki| == |path| + 1
  {
    var h := |path|;
    if ki[..h] == path && ki[h] > i then ki[h := ki[h] - 1] else ki
  }

  lemma RemoveFits(t: Tree, path: seq<nat>, i: nat, h: nat)
    requires Sound(t, h) && IsPath(t, path) && |path| == h && At(t, path).Leaf? && i < |At(t, path).nodes|
             && |At(t, path).nodes| > 1
    ensures LeafFits(t, path, Leaf(At(t, path).pgno, Split.Remove(At(t, path).nodes, i)), h)
  {
    var s := At(t, path).nodes;
    OrderedAt(t, path);
    Leaves.RemoveIndex(s, i);
    Leaves.RemovedOrdered(s, Split.Remove(s, i), i, LoAt(t, path), HiAt(t, path));
  }

  lemma LoweredSlot(ki: seq<nat>, path: seq<nat>, i: nat, h: nat)
    requires |ki| == h + 1 && |path| == h
    ensures var k := Lowered(ki, path, i);
            && |k| == h + 1 && k[..h] == ki[..h] && k[h] == (if ki[..h] == path && ki[h] > i then ki[h] - 1 else ki[h])
            && (ki == path + [i] <==> ki[..h] == path && ki[h] == i) && (ki == path + [i] ==> k == ki)
  {
    assert ki == ki[..h] + [ki[h]];
  }

  /** A stack lowered below the removed node leads to the node it led to before; the others to its successor. */
  lemma LoweredKeeps(t: Tree, path: seq<nat>, i: nat, ki: seq<nat>, h: nat)
    requires Sound(t, h) && IsPath(t, path) && At(t, path).Leaf? && i < |At(t, path).nodes| && OnLeaf(t, ki, h)
    requires LeafFits(t, path, Leaf(At(t, path).pgno, Split.Remove(At(t, path).nodes, i)), h)
    ensures var u := Replace(t, path, Leaf(At(t, path).pgno, Split.Remove(At(t, path).nodes, i)));
            var k := Lowered(ki, path, i);
            && OnLeaf(u, k, h) && k[..h] == ki[..h]
            && (Neighbour(t, ki[..h], true).None? <==> Neighbour(u, k[..h], true).None?)
            && (ki[h] < |At(t, ki[..h]).nodes| && ki != path + [i] ==>
                  k[h] < |At(u, k[..h]).nodes| && At(u, k[..h]).nodes[k[h]] == At(t, ki[..h]).nodes[ki[h]])
            && (ki == path + [i] ==> k == ki && Pos(u, path, i) == Pos(t, path, i))
  {
    var x := Leaf(At(t, path).pgno, Split.Remove(At(t, path).nodes, i));
    hide Replace, IsPath, At, Neighbour, Left, LeafFits, Sound, InOrders, Split.Remove, Lowered, OnLeaf;
    assert IsPath(t, ki[..h]) && At(t, ki[..h]).Leaf? && |path| == h;
    OtherLeaf(t, path, x, ki, h);
    LoweredSlot(ki, path, i, h);
    Leaves.RemoveIndex(At(t, path).nodes, i);
  }

  /** The first loop over mt_cursors in mdb_cursor_del0. */
  method LowerAll(mc: Cursor, cs: seq<Cursor>, path: seq<nat>, i: nat)
    requires Distinct(cs) && forall c :: c in cs && c.init ==> |c.ki| == |path| + 1
    modifies cs`ki, cs`del
    ensures forall c :: c in cs && c != mc && c.init ==>
              c.ki == Lowered(old(c.ki), path, i) && c.del == (old(c.del) || old(c.ki) == path + [i])
    ensures forall c :: c in cs && (c == mc || !c.init) ==> c.ki == old(c.ki) && c.del == old(c.del)
  {
    var h := |path|;
    for n := 0 to |cs|
      invariant forall m :: 0 <= m < n && cs[m] != mc && cs[m].init ==>
        cs[m].ki == Lowered(old(cs[m].ki), path, i) && cs[m].del == (old(cs[m].del) || old(cs[m].ki) == path + [i])
      invariant forall m :: 0 <= m < |cs| && (n <= m || cs[m] == mc || !cs[m].init) ==>
        cs[m].ki == old(cs[m].ki) && cs[m].del == old(cs[m].del)
    {
      var m3 := cs[n];
      if m3 != mc && m3.init && m3.ki[..h] == path {
        assert m3.ki == path + [m3.ki[h]];
        if m3.ki[h] == i {
          m3.del := true;
        } else if m3.ki[h] > i {
          m3.ki := m3.ki[h := m3.ki[h] - 1];
        }
      }
    }
  }

  /** c, once at ki, did not move in the sequence of entries, and is not left past the page at path. */
  ghost predicate Skipped(c: Cursor, path: seq<nat>, ki: seq<nat>, eof: bool)
    reads c, c.db
  {
    && c.Valid() && c.init && OnLeaf(c.db.root.value, ki, c.db.depth - 1)
    && var t, n, k := c.db.root.value, |ki| - 1, ki[|ki|-1];
    && c.Position() == Pos(t, ki[..n], k)
    && (ki[..n] == path ==> OnSlot(c) || (c.eof && c.Position() == |c.db.Entries()|))
    && (k < |At(t, ki[..n]).nodes| ==> c.ki == ki && c.eof == eof)
    && (eof ==> c.eof) && (c.eof && !eof ==> c.Position() == |c.db.Entries()|)
  }

  /** A cursor past the last node of the page finds the next sibling. */
  method SkipPastEnd(c: Cursor, path: seq<nat>)
    requires c.Valid() && c.init && |c.ki| == |path| + 1
    modifies c`ki, c`eof
    ensures Skipped(c, path, old(c.ki), old(c.eof))
  {
    hide IsPath, At, Neighbour, Left, Balanced, Ordered, NoEmptyLeaf, InOrder, InOrders;
    var h := |path|;
    AcrossRight(c.db.root.value, c.ki[..h], c.db.depth - 1);
    if c.ki[..h] == path && c.ki[h] >= c.Top().NumKeys() {
      var ok := c.Sibling(true);
      if !ok {
        c.eof := true;
      }
    }
  }

  /** The second loop over mt_cursors in mdb_cursor_del0. */
  method SkipAll(cs: seq<Cursor>, path: seq<nat>, db: Database)
    requires AllOf(db, cs) && (db.root.Some? ==> |path| + 1 == db.depth)
    modifies cs`ki, cs`eof
    ensures forall c :: c in cs && c.init ==> Skipped(c, path, old(c.ki), old(c.eof))
    ensures forall c :: c in cs && !c.init ==> c.ki == old(c.ki) && c.eof == old(c.eof)
  {
    hide Skipped, IsPath, At, Neighbour, Database.Valid;
    for n := 0 to |cs|
      invariant forall m :: 0 <= m < n && cs[m].init ==> Skipped(cs[m], path, old(cs[m].ki), old(cs[m].eof))
      invariant forall m ::
                  0 <= m < |cs| && (n <= m || !cs[m].init) ==> cs[m].ki == old(cs[m].ki) && cs[m].eof == old(cs[m].eof)
    {
      if cs[n].init {
        SkipPastEnd(cs[n], path);
      }
    }
  }

  /**
   * Without the entry the cursor is on, its leaf is left as it is by mdb_rebalance: it is the root and not
   * empty, or it holds enough.
   */
  ghost predicate NoRebalance(mc: Cursor, pmax: nat)
    reads mc, mc.db
  {
    && OnSlot(mc) && pmax > 0 && |mc.Top().nodes| > 1
    && var page := mc.Top();
    (|mc.ki| == 1 || Shrink.Enough(Leaf(page.pgno, Split.Remove(page.nodes, mc.ki[|mc.ki|-1])), pmax))
  }

  /** The first half of mdb_cursor_del0, up to mdb_rebalance, which has nothing to do here. */
  method RemoveNode(mc: Cursor, cs: seq<Cursor>)
    requires AllOf(mc.db, cs) && mc in cs && OnSlot(mc) && |mc.Top().nodes| > 1
    modifies mc.db`root, cs`ki, cs`del
    ensures AllOf(mc.db, cs) && mc.ki == old(mc.ki) && mc.db.root.Some?
    ensures old(mc.Position()) < |old(mc.db.Entries())| && mc.Position() == old(mc.Position())
    ensures mc.db.Entries() == Split.Remove(old(mc.db.Entries()), old(mc.Position()))
    ensures forall c :: c in cs && old(OnSlot(c)) && old(c.ki) != old(mc.ki) ==>
              OnSlot(c) && Entry(c) == old(Entry(c)) && c.del == old(c.del)
    ensures forall c :: c in cs && c.init && old(c.ki) == old(mc.ki) ==>
              c.ki == mc.ki && c.OnPage() && c.Position() == old(mc.Position()) && (c.del || c == mc)
  {
    hide IsPath, At, Neighbour, Left, Right, Replace, Balanced, Ordered, NoEmptyLeaf, InOrder, InOrders, Lowered,
         Split.Remove, BTree.EntriesWith;
    ghost var t, h := mc.db.root.value, mc.db.depth - 1;
    var path, i, page := mc.ki[..|mc.ki|-1], mc.ki[|mc.ki|-1], mc.Top();
    var x := Leaf(page.pgno, Split.Remove(page.nodes, i));
    RemoveFits(t, path, i, h);
    LeafExchanged(t, path, x, h);
    mc.db.root := Some(Replace(mc.db.root.value, path, x));
    LowerAll(mc, cs, path, i);
    assert mc.ki == path + [i];
    forall c | c in cs && c.init
      ensures c.Valid() && (old(c.ki) == old(mc.ki) ==> c.ki == mc.ki)
      ensures old(OnSlot(c)) && old(c.ki) != old(mc.ki) ==> OnSlot(c) && Entry(c) == old(Entry(c))
    {
      LoweredKeeps(t, path, i, old(c.ki), h);
    }
    LoweredKeeps(t, path, i, mc.ki, h);
    Leaves.RemovedEntries(t, path, i, h);
  }

  /** The second half of mdb_cursor_del0, after mdb_rebalance. */
  method FinishDelete(mc: Cursor, cs: seq<Cursor>, path: seq<nat>)
    requires AllOf(mc.db, cs) && mc in cs && mc.init && mc.db.root.Some? && |path| + 1 == mc.db.depth
    modifies cs`ki, cs`eof, mc`del
    ensures AllOf(mc.db, cs) && mc.del
    ensures forall c :: c in cs && old(OnSlot(c)) ==> OnSlot(c) && Entry(c) == old(Entry(c)) && c.eof == old(c.eof)
    ensures forall c :: c in cs && c.init && old(c.ki[..|c.ki|-1]) == path ==>
              && c.OnPage() && c.Position() == old(c.Position())
              && (OnSlot(c) || (c.eof && c.Position() == |c.db.Entries()|))
              && (old(c.eof) ==> c.eof) && (c.eof && !old(c.eof) ==> c.Position() == |c.db.Entries()|)
  {
    hide IsPath, At, Neighbour, Database.Valid, Database.Entries, Pos, Skipped;
    SkipAll(cs, path, mc.db);
    forall c | c in cs && c.init
      ensures c.Valid()
      ensures old(OnSlot(c)) ==> OnSlot(c) && Entry(c) == old(Entry(c)) && c.eof == old(c.eof)
      ensures old(c.ki[..|c.ki|-1]) == path ==>
              && c.OnPage() && c.Position() == old(c.Position())
              && (OnSlot(c) || (c.eof && c.Position() == |c.db.Entries()|))
              && (old(c.eof) ==> c.eof) && (c.eof && !old(c.eof) ==> c.Position() == |c.db.Entries()|)
    {
      SkippedMeans(c, path, old(c.ki), old(c.eof));
    }
    mc.del := true;
  }

  lemma SkippedMeans(c: Cursor, path: seq<nat>, ki: seq<nat>, eof: bool)
    requires Skipped(c, path, ki, eof)
    ensures c.Valid() && c.init && OnLeaf(c.db.root.value, ki, c.db.depth - 1)
    ensures var n := |ki| - 1;
            && c.Position() == Pos(c.db.root.value, ki[..n], ki[n])
            && (ki[..n] == path ==> OnSlot(c) || (c.eof && c.Position() == |c.db.Entries()|))
            && (ki[n] < |At(c.db.root.value, ki[..n]).nodes| ==> c.ki == ki && c.eof == eof && OnSlot(c))
            && (eof ==> c.eof) && (c.eof && !eof ==> c.Position() == |c.db.Entries()|)
  {
  }

  lemma TrackedFacts(mc: Cursor, cs: seq<Cursor>, pmax: nat)
    requires AllOf(mc.db, cs) && NoRebalance(mc, pmax)
    ensures mc.ki != [] && |mc.ki| == mc.db.depth && mc.init && mc.OnPage() && OnSlot(mc)
    ensures mc.Top().Leaf? && |mc.Top().nodes| > 1 && forall c :: c in cs ==> c.db == mc.db
  {
  }

  /**
   * mdb_cursor_del0 where the page keeps enough nodes.  A cursor on another entry stays on it; a cursor
   * on the deleted entry is marked and stands before the old successor, on whichever page that is.
   */
  method DeleteTracked(mc: Cursor, cs: seq<Cursor>, ghost pmax: nat)
    requires AllOf(mc.db, cs) && mc in cs && NoRebalance(mc, pmax)
    modifies mc.db`root, cs`ki, cs`del, cs`eof
    ensures AllOf(mc.db, cs) && mc.db.root.Some?
    ensures old(mc.Position()) < |old(mc.db.Entries())|
    ensures mc.db.Entries() == Split.Remove(old(mc.db.Entries()), old(mc.Position()))
    ensures forall c :: c in cs && old(OnSlot(c)) && old(c.ki) != old(mc.ki) ==>
              OnSlot(c) && Entry(c) == old(Entry(c)) && c.del == old(c.del) && c.eof == old(c.eof)
    ensures forall c :: c in cs && c.init && old(c.ki) == old(mc.ki) ==>
              && c.del && c.Position() == old(mc.Position())
              && (OnSlot(c) || (c.eof && c.Position() == |c.db.Entries()|))
              && (old(c.eof) ==> c.eof) && (c.eof && !old(c.eof) ==> c.Position() == |c.db.Entries()|)
  {
    hide *;
    TrackedFacts(mc, cs, pmax);
    var path := mc.ki[..|mc.ki|-1];
    RemoveNode(mc, cs);
    FinishDelete(mc, cs, path);
  }

  /**
   * The next MDB_NEXT of a cursor whose entry was deleted returns the old successor, across a page
   * boundary too, unless C_EOF was left on the cursor: then, and at the end, it finds nothing.
   */
  method DeleteThenNext(mc: Cursor, cs: seq<Cursor>, c: Cursor, ghost pmax: nat) returns (rc: Rc)
    requires AllOf(mc.db, cs) && mc in cs && NoRebalance(mc, pmax)
    requires c in cs && c.init && c.ki == mc.ki
    modifies mc.db`root, cs
    ensures c.Valid() && c.init && !c.del
    ensures old(mc.Position()) < |old(mc.db.Entries())|
    ensures mc.db.Entries() == Split.Remove(old(mc.db.Entries()), old(mc.Position()))
    ensures var b, e := old(mc.Position()), old(mc.db.Entries());
            if !old(c.eof) && b + 1 < |e| then rc == Found(e[b + 1]) && c.Position() == b && !c.eof && OnSlot(c)
            else rc == NotFound && c.eof
  {
    hide IsPath, At, Neighbour, Left, Right, Replace, Balanced, Ordered, NoEmptyLeaf, InOrder, InOrders, NoRebalance,
         Split.Remove;
    ghost var b, e := mc.Position(), mc.db.Entries();
    NoRebalanceMeans(mc, pmax);
    DeleteTracked(mc, cs, pmax);
    RemovedAt(e, b);
    rc := c.GetNext();
  }

  lemma NoRebalanceMeans(mc: Cursor, pmax: nat)
    requires NoRebalance(mc, pmax)
    ensures OnSlot(mc)
  {
  }

  lemma RemovedAt(e: seq<Node>, b: nat)
    requires b < |e|
    ensures |Split.Remove(e, b)| == |e| - 1
    ensures forall i :: b <= i < |e| - 1 ==> Split.Remove(e, b)[i] == e[i+1]
  {
  }

  /**
   * A cursor whose entry was deleted, moved on with MDB_NEXT until it finds nothing, returns just the entries
   * that followed the deleted one, in order.
   */
  method DeleteThenRest(mc: Cursor, cs: seq<Cursor>, c: Cursor, ghost pmax: nat) returns (out: seq<Node>)
    requires AllOf(mc.db, cs) && mc in cs && NoRebalance(mc, pmax)
    requires c in cs && c.init && c.ki == mc.ki && !c.eof
    modifies mc.db`root, cs
    ensures old(mc.Position()) < |old(mc.db.Entries())|
    ensures out == old(mc.db.Entries())[old(mc.Position()) + 1..]
  {
    hide IsPath, At, Neighbour, Left, Right, Replace, Balanced, Ordered, NoEmptyLeaf, InOrder, InOrders, NoRebalance,
         Split.Remove;
    ghost var b, e := mc.Position(), mc.db.Entries();
    NoRebalanceMeans(mc, pmax);
    EntryInOrder(mc);
    var rc := DeleteThenNext(mc, cs, c, pmax);
    ghost var e' := c.db.Entries();
    RemovedAt(e, b);
    ghost var k := b;
    out := [];
    while rc.Found?
      invariant c.Valid() && c.init && !c.del && c.db.Entries() == e' && b <= k <= |e'| && out == e[b+1..k+1]
      invariant if rc.Found? then k < |e'| && rc == Found(e'[k]) && c.Position() == k && !c.eof && OnSlot(c)
                else rc == NotFound && k == |e'|
      decreases |e'| - k, rc.Found?
    {
      out := out + [rc.node];
      k := k + 1;
      rc := c.GetNext();
    }
    assert e[b+1..|e|] == e[b+1..];
  }
}
