/** Whole databases with pages of 4096 bytes on which a put and a delete give MDB_PAGE_FULL. */
module Failures {
  import opened Common
  import opened Tree
  import opened Paths
  import opened Search
  import opened Cursors
  import opened BTree
  import opened Reshape
  import opened Contents
  import opened Halving
  import opened Shrink
  import opened Leaves
  import opened Rooms
  import opened Tables
  import Split

  const PMAX := 4080

  function Text(n: nat): string { seq(n, _ => 'x') }

  /** A node with a key of two bytes that takes 12 more bytes than its data. */
  function Plain(rank: real, data: nat): Node {
    Node(Key(rank, 2), Inline(Text(data)))
  }

  // ---- A put ----

  /** A leaf with ten nodes of 12 bytes and ten of 396. */
  function FullNodes(): seq<Node> {
    seq(20, i requires 0 <= i < 20 => Plain(i as real, if i < 10 then 0 else 384))
  }

  const PUT_KEY := Key(14.5, 2)
  const PUT_SIZE := 188

  lemma FullSizes()
    ensures LeafSizes(FullNodes()) == seq(10, i => 12) + seq(10, i => 396)
    ensures Split.Sum(LeafSizes(FullNodes())) == PMAX
  {
    assert LeafSizes(FullNodes()) == seq(10, i => 12) + seq(10, i => 396);
    hide Split.Sum;
    Split.SumConst(10, 12);
    Split.SumConst(10, 396);
    Split.SumConcat(seq(10, i => 12), seq(10, i => 396));
  }

  lemma FullLeafGood()
    ensures Good(Leaf(2, FullNodes()), 0, None, None, PMAX)
  {
    FullSizes();
    hide Split.Sum;
  }

  /** The place of the new key is slot 15, and there is no room for it. */
  lemma NoRoomOnLeaf()
    ensures !CanPut(Leaf(2, FullNodes()), 0, PUT_KEY, PUT_SIZE, false, {}, PMAX)
    ensures PUT_KEY.rank !in ToMap(FullNodes())
  {
    var t := Leaf(2, FullNodes());
    FullLeafGood();
    NewPlace();
    LeafInOrder(t);
    hide FullNodes, CanPut, RoomAt, Place, ToMap, InOrder, Balanced, AllOk;
    PlaceLookup(t, [], 15, PUT_KEY.rank, 0, PMAX);
    PutAt(t, [], 15, 0, PUT_KEY, PUT_SIZE, false, {}, PMAX);
    NoRoomInSlot();
  }

  lemma NewPlace()
    ensures Place(Leaf(2, FullNodes()), [], 15, PUT_KEY.rank, 0) && |FullNodes()| == 20
    ensures FullNodes()[15].key.rank != PUT_KEY.rank
  {
  }

  lemma NoRoomInSlot()
    ensures |FullNodes()| == 20 && !RoomAt(Leaf(2, FullNodes()), [], 15, PUT_KEY, PUT_SIZE, false, {}, PMAX)
  {
    FullSizes();
    NewPlace();
    hide FullNodes, Split.Sum, LeafSizes, Split.Insert, Split.Fits, Place, LeafKeys;
    var sz, nsize, newindx, pmax := Split.HalvingCanFail();
    assert NewBytes(PUT_KEY, PUT_SIZE, PMAX) == nsize;
    Split.InsertSum(sz, newindx, nsize);
    Split.InsertedAt(sz, newindx, nsize);
  }

  lemma BalancedLeaf(pgno: nat, nodes: seq<Node>)
    ensures Balanced(Leaf(pgno, nodes), 0)
  {
  }

  method FullLeaf() returns (table: Table)
    ensures fresh(table) && fresh(table.db) && table.pmax == PMAX && table.Valid() && PUT_KEY.rank !in table.Contents()
    ensures !table.HasRoom(PUT_KEY, PUT_SIZE, false)
  {
    FullLeafGood();
    NoRoomOnLeaf();
    LeafInOrder(Leaf(2, FullNodes()));
    assert RunsHold(FullNodes(), PMAX);
    hide FullNodes, CanPut, ToMap, InOrder, Good, Table.Valid, RunsHold;
    BalancedLeaf(2, FullNodes());
    var db := new Database(Some(Leaf(2, FullNodes())), 1);
    table := new Table(db, PMAX, |FullNodes()|, 3, multiset{});
  }

  /** A put into a database of one leaf with 20 entries. */
  method PutCanFail() returns (table: Table, rc: Status)
    ensures fresh(table) && table.pmax == PMAX && rc == PageFull && table.error
  {
    table := FullLeaf();
    hide Table.Valid, Table.HasRoom, Table.Contents, SomeNotBelow, Table.Wide;
    rc := table.Put(PUT_KEY, Text(PUT_SIZE), false, false);
  }

  // ---- A delete ----

  function SepSize(i: nat): nat { if i <= 10 || i == 15 then 2 else if i < 20 then 426 else 438 }

  function Seps(): seq<Key> {
    seq(21, i requires 0 <= i < 21 => Key(i as real, SepSize(i)))
  }

  /** Leaf 14 can spare its last node, which has a key of 244 bytes; leaf 15 has two small ones. */
  function LeafNodes(i: nat): seq<Node> {
    if i == 14 then [Plain(14.0, 1100), Node(LONG_KEY, Inline(""))]
    else if i == 15 then [Plain(15.0, 0), Plain(DEL_KEY.rank, 0)]
    else [Plain(i as real, 0)]
  }

  const LONG_KEY := Key(14.5, 244)
  const DEL_KEY := Key(15.5, 2)

  function Kids(): seq<Tree> {
    seq(21, i requires 0 <= i < 21 => Leaf(3 + i, LeafNodes(i)))
  }

  function TwoLevels(): Tree { Branch(2, Seps(), Kids()) }

  /** The sizes on the root but for the one in slot 15. */
  function SepSizes(): seq<nat> {
    [Split.NULL_NODE] + seq(10, i => 12) + seq(8, i => 436) + [448]
  }

  lemma SeparatorSizes(k: Key)
    ensures |Seps()| == 21 && |SepSizes()| == 20
    ensures BranchSizes(Seps()[15 := k]) == Split.Insert(SepSizes(), 15, KeyBytes(k))
  {
    hide KeyBytes;
    var a, b := BranchSizes(Seps()[15 := k]), Split.Insert(SepSizes(), 15, KeyBytes(k));
    forall i | 0 <= i < 21 ensures a[i] == b[i] {
      SeparatorBytes(i);
    }
  }

  lemma SeparatorBytes(i: nat)
    ensures KeyBytes(Key(i as real, SepSize(i))) ==
            if i <= 10 || i == 15 then 12 else if i < 20 then 436 else 448
  {
  }

  lemma RootSizes()
    ensures Split.Sum(BranchSizes(Seps())) <= PMAX
  {
    var sz, nsize, newindx, pmax := Split.HalvingCanFailOnSeparator();
    var k := Key(15.0, 2);
    assert Seps()[15 := k] == Seps();
    SeparatorSizes(k);
    hide Split.Sum, Split.Insert, Split.Fits, BranchSizes, Seps;
    Split.InsertSum(sz, 15, KeyBytes(k));
  }

  lemma LeafIsGood(i: nat)
    requires i < 21
    ensures var x := Leaf(3 + i, LeafNodes(i));
            && Ordered(x, Some(i as real), Some((i + 1) as real)) && AllOk(x, PMAX) && Balanced(x, 0)
            && Ordered(x, None, Some((i + 1) as real)) && Ordered(x, Some(i as real), None)
  {
    var x := Leaf(3 + i, LeafNodes(i));
    LeafUsed(i);
    hide Used;
  }

  lemma LeafUsed(i: nat)
    ensures Used(Leaf(3 + i, LeafNodes(i))) == if i == 14 then 1366 else if i == 15 then 24 else 12
  {
    var c := Sizes(Leaf(3 + i, LeafNodes(i)));
    hide Split.Sum;
    if i == 14 {
      assert c == [1112, 254];
      Split.SumPair(1112, 254);
    } else if i == 15 {
      assert c == [12, 12];
      Split.SumPair(12, 12);
    } else {
      assert c == [12];
      Split.SumOne(12);
    }
  }

  lemma TwoLevelsGood()
    ensures Good(TwoLevels(), 1, None, None, PMAX)
  {
    var t := TwoLevels();
    RootSizes();
    hide LeafNodes, Split.Sum, BranchSizes;
    forall i | 0 <= i < 21
      ensures Ordered(t.kids[i], KidLo(t, None, i), KidHi(t, None, i)) && AllOk(t.kids[i], PMAX)
              && Balanced(t.kids[i], 0)
    {
      LeafIsGood(i);
    }
  }

  lemma DelPlace()
    ensures var t := TwoLevels();
            && IsPath(t, [15]) && At(t, [15]) == Leaf(18, LeafNodes(15)) && Place(t, [15], 1, DEL_KEY.rank, 1)
  {
    var t := TwoLevels();
    assert [15][..0] == [];
    assert IsPath(t, []) && At(t, []) == t;
    assert Routed(t, [], DEL_KEY.rank) && IsChoice(t, DEL_KEY.rank, 15);
  }

  /** Without the entry leaf 15 takes a node from leaf 14, and the root cannot take the long key. */
  lemma CannotSettle()
    ensures var t := TwoLevels(); IsPath(t, [15]) && At(t, [15]).Leaf? && |At(t, [15]).nodes| == 2
                                  && !SettlesAt(t, [15], 1, PMAX)
  {
    DelPlace();
    var t := TwoLevels();
    var left := LeafSizes(Split.Remove(LeafNodes(15), 1));
    assert left == [12];
    Split.SumOne(12);
    CannotTake();
    NeighbourIsRich();
    assert [15][..0] == [] && IsPath(t, []) && At(t, []) == t;
    hide LeafNodes, Split.Sum, LeafSizes, TakesInstead, Rich, SparedKey, Place, CanSettle, At, IsPath;
    SettleOnLeaf(t, left);
  }

  lemma SettleOnLeaf(t: Tree, sizes: seq<nat>)
    requires IsPath(t, [15]) && IsPath(t, []) && At(t, []) == t == TwoLevels() && !EnoughNodes(true, sizes, PMAX)
    requires Rich(t.kids[14], PMAX) && !TakesInstead(t, [], Seps(), 15, SparedKey(t.kids[14], true), PMAX)
    ensures !CanSettle(t, [15], true, sizes, PMAX)
  {
    assert [15][..0] == [];
    hide TakesInstead, Rich, SparedKey, EnoughNodes, At, IsPath;
  }

  lemma NeighbourIsRich()
    ensures Rich(TwoLevels().kids[14], PMAX) && SparedKey(TwoLevels().kids[14], true) == LONG_KEY
  {
    LeafUsed(14);
    hide Used;
  }

  lemma CannotTake()
    ensures !TakesInstead(TwoLevels(), [], Seps(), 15, LONG_KEY, PMAX)
  {
    var sz, nsize, newindx, pmax := Split.HalvingCanFailOnSeparator();
    SeparatorSizes(LONG_KEY);
    hide Split.Sum, Split.Insert, Split.Fits, BranchSizes, TwoLevels;
    assert KeyBytes(LONG_KEY) == nsize;
    Split.InsertSum(sz, newindx, nsize);
    Split.InsertedAt(sz, newindx, nsize);
  }

  lemma {:induction false} NoRuns(kids: seq<Tree>)
    requires forall i :: 0 <= i < |kids| ==> kids[i].Leaf? && RunsHold(kids[i].nodes, PMAX)
    ensures RunsHold(InOrders(kids), PMAX)
  {
    if kids != [] {
      NoRuns(kids[1..]);
      LeafInOrder(kids[0]);
    }
  }

  lemma RootRuns()
    ensures RunsHold(InOrder(TwoLevels()), PMAX)
  {
    forall i | 0 <= i < 21 ensures RunsHold(LeafNodes(i), PMAX) {}
    hide RunsHold, LeafNodes;
    NoRuns(Kids());
  }

  method FullRoot() returns (table: Table)
    ensures fresh(table) && fresh(table.db) && table.pmax == PMAX && table.Valid() && !table.LetsGo(DEL_KEY.rank)
    ensures DEL_KEY.rank in table.Contents() && table.Contents()[DEL_KEY.rank].Some?
  {
    TwoLevelsGood();
    DelPlace();
    CannotSettle();
    ghost var t := TwoLevels();
    RootRuns();
    assert LeafNodes(15)[1].key.rank == DEL_KEY.rank && Data(LeafNodes(15)[1].value).Some?;
    hide TwoLevels, LeafNodes, CanDel, SettlesAt, ToMap, InOrder, AllOk, Place, Table.Valid, IsPath, At, Data,
         RunsHold;
    PlaceLookup(t, [15], 1, DEL_KEY.rank, 1, PMAX);
    Rooms.DelAt(t, [15], 1, 1, DEL_KEY.rank, PMAX);
    var db := new Database(Some(TwoLevels()), 2);
    table := new Table(db, PMAX, |InOrder(TwoLevels())|, 24, multiset{});
  }

  /** A delete from a database of 21 leaves under one root. */
  method DelCanFail() returns (table: Table, rc: Status)
    ensures fresh(table) && table.pmax == PMAX && rc == PageFull && table.error
  {
    table := FullRoot();
    hide Table.Valid, Table.LetsGo, Table.Contents, Table.Wide;
    rc := table.Del(DEL_KEY);
  }
}
