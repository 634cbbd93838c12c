/**
 * mdb_drop0: walk a tree level by level from the leaves up and put every page on the free list.
 * A branch page accounts for its children; overflow runs and sub-databases hang off the leaves.
 */
module Drop {
  import opened Common
  import opened PageNumbers
  import opened Tree
  import opened Paths
  import opened Search
  import opened Cursors

  // ---- Every page of a tree ----

  /** Page numbers used by a tree, its overflow runs and, if subs is set, its sub-databases. */
  function AllPages(t: Tree, subs: bool): seq<nat>
    decreases t, 1
  {
    match t
    case Leaf(pgno, nodes) => [pgno] + NodePages(nodes, subs)
    case Branch(pgno, _, kids) => [pgno] + AllPagesOf(kids, subs)
  }

  function AllPagesOf(ts: seq<Tree>, subs: bool): seq<nat>
    decreases ts, 0
  {
    if ts == [] then [] else AllPages(ts[0], subs) + AllPagesOf(ts[1..], subs)
  }

  function NodePages(nodes: seq<Node>, subs: bool): seq<nat>
    decreases nodes, 0
  {
    if nodes == [] then [] else NodePages(nodes[..|nodes|-1], subs) + DataPages(nodes[|nodes|-1], subs)
  }

  /** The pages outside the leaf that hold the data of a node. */
  function DataPages(nd: Node, subs: bool): seq<nat>
    decreases nd, 0
  {
    match nd.value
    case Inline(_) => []
    case Big(pg, pages, _) => Run(pg, pages)
    case SubDb(sub, _) => if subs then AllPages(sub, false) else []
    case SubEmpty => []
  }

  // ---- What the walk appends ----

  function Numbers(ts: seq<Tree>): seq<nat> {
    if ts == [] then [] else [ts[0].pgno] + Numbers(ts[1..])
  }

  /** What processing one page appends. */
  function PageWork(t: Tree, subs: bool): seq<nat> {
    match t
    case Leaf(_, nodes) => NodePages(nodes, subs)
    case Branch(_, _, kids) => Numbers(kids)
  }

  function LevelWork(ts: seq<Tree>, subs: bool): seq<nat> {
    if ts == [] then [] else PageWork(ts[0], subs) + LevelWork(ts[1..], subs)
  }

  lemma {:induction false} LevelWorkSnoc(ts: seq<Tree>, t: Tree, subs: bool)
    ensures LevelWork(ts + [t], subs) == LevelWork(ts, subs) + PageWork(t, subs)
  {
    if ts == [] {
      assert ts + [t] == [t];
      assert LevelWork([t], subs) == PageWork(t, subs) + LevelWork([], subs);
    } else {
      assert (ts + [t])[1..] == ts[1..] + [t];
      LevelWorkSnoc(ts[1..], t, subs);
    }
  }

  /** Levels d .. h-1 counted from the root, lowest level first. */
  function LevelsWork(t: Tree, d: nat, h: nat, subs: bool): seq<nat>
    requires d <= h
    decreases h - d
  {
    if d == h then [] else LevelsWork(t, d + 1, h, subs) + LevelWork(Level(t, d), subs)
  }

  // ---- Each page exactly once ----

  lemma {:induction false} NumbersConcat(a: seq<Tree>, b: seq<Tree>)
    ensures Numbers(a + b) == Numbers(a) + Numbers(b)
  {
    if a == [] {
      assert a + b == b;
    } else {
      assert (a + b)[1..] == a[1..] + b;
      NumbersConcat(a[1..], b);
    }
  }

  lemma {:induction false} AllPagesOfConcat(a: seq<Tree>, b: seq<Tree>, subs: bool)
    ensures AllPagesOf(a + b, subs) == AllPagesOf(a, subs) + AllPagesOf(b, subs)
  {
    if a == [] {
      assert a + b == b;
    } else {
      assert (a + b)[1..] == a[1..] + b;
      AllPagesOfConcat(a[1..], b, subs);
    }
  }

  /** The pages under a level are the numbers on that level and the pages under the next one. */
  lemma {:induction false} BranchLevel(ts: seq<Tree>, h: nat, subs: bool)
    requires AllBalanced(ts, h) && h > 0
    ensures multiset(AllPagesOf(ts, subs)) == multiset(Numbers(ts)) + multiset(AllPagesOf(KidsOf(ts), subs))
    ensures LevelWork(ts, subs) == Numbers(KidsOf(ts))
  {
    if ts != [] {
      BranchLevel(ts[1..], h, subs);
      AllPagesOfConcat(ts[0].kids, KidsOf(ts[1..]), subs);
      NumbersConcat(ts[0].kids, KidsOf(ts[1..]));
    }
  }

  lemma {:induction false} LeafLevel(ts: seq<Tree>, subs: bool)
    requires AllBalanced(ts, 0)
    ensures multiset(AllPagesOf(ts, subs)) == multiset(Numbers(ts)) + multiset(LevelWork(ts, subs))
  {
    if ts != [] {
      LeafLevel(ts[1..], subs);
    }
  }

  lemma LevelsWorkStep(t: Tree, d: nat, h: nat, subs: bool)
    requires d < h
    ensures multiset(LevelsWork(t, d, h, subs))
            == multiset(LevelsWork(t, d + 1, h, subs)) + multiset(LevelWork(Level(t, d), subs))
    ensures Level(t, d + 1) == KidsOf(Level(t, d))
    ensures LevelsWork(t, h, h, subs) == []
  {
  }

  /** The walk over levels d and below appends every page below level d exactly once. */
  lemma {:induction false} WalkIsComplete(t: Tree, d: nat, h: nat, subs: bool)
    requires Balanced(t, h) && d <= h
    ensures multiset(AllPagesOf(Level(t, d), subs))
            == multiset(Numbers(Level(t, d))) + multiset(LevelsWork(t, d, h + 1, subs))
    decreases h - d
  {
    hide LevelsWork, LevelWork, AllPagesOf, Numbers, KidsOf, Level, Balanced;
    LevelBalanced(t, d, h);
    LevelsWorkStep(t, d, h + 1, subs);
    if d == h {
      LeafLevel(Level(t, d), subs);
    } else {
      BranchLevel(Level(t, d), h - d, subs);
      WalkIsComplete(t, d + 1, h, subs);
    }
  }

  /** From the root: together with the root itself, every page of the tree exactly once. */
  lemma WalkFromRoot(t: Tree, h: nat, subs: bool)
    requires Balanced(t, h)
    ensures multiset(AllPages(t, subs)) == multiset(LevelsWork(t, 0, h + 1, subs)) + multiset{t.pgno}
  {
    WalkIsComplete(t, 0, h, subs);
    assert Level(t, 0) == [t];
    assert AllPagesOf([t], subs) == AllPages(t, subs) + AllPagesOf([], subs);
    assert Numbers([t]) == [t.pgno] + Numbers([]);
    assert AllPagesOf([t], subs) == AllPages(t, subs) && Numbers([t]) == [t.pgno];
  }

  // ---- The walk itself ----

  /** Sub-databases of duplicates hold no overflow runs and no further databases. */
  predicate InlineOnly(t: Tree)
    decreases t
  {
    match t
    case Leaf(_, nodes) => forall i :: 0 <= i < |nodes| ==> nodes[i].value.Inline?
    case Branch(_, _, kids) => forall i :: 0 <= i < |kids| ==> InlineOnly(kids[i])
  }

  /** A sub-database that is followed is one of duplicates: a tree of its depth with nothing outside it. */
  predicate GoodValue(v: Value, subs: bool) {
    subs && v.SubDb? ==> v.depth > 0 && Balanced(v.sub, v.depth - 1) && InlineOnly(v.sub)
  }

  predicate GoodValues(t: Tree, subs: bool)
    decreases t
  {
    match t
    case Leaf(_, nodes) => forall i :: 0 <= i < |nodes| ==> GoodValue(nodes[i].value, subs)
    case Branch(_, _, kids) => forall i :: 0 <= i < |kids| ==> GoodValues(kids[i], subs)
  }

  lemma {:induction false} GoodValuesAt(t: Tree, path: seq<nat>, subs: bool)
    requires GoodValues(t, subs) && IsPath(t, path)
    ensures GoodValues(At(t, path), subs)
    decreases |path|
  {
    if path != [] { GoodValuesAt(t, path[..|path|-1], subs); }
  }

  lemma {:induction false} InlineLevels(t: Tree, d: nat, h: nat)
    requires InlineOnly(t) && Balanced(t, h) && d <= h
    ensures forall i :: 0 <= i < |Level(t, d)| ==> InlineOnly(Level(t, d)[i])
  {
    if d > 0 {
      InlineLevels(t, d - 1, h);
      InlineKids(Level(t, d - 1));
    }
  }

  lemma {:induction false} InlineKids(ts: seq<Tree>)
    requires forall i :: 0 <= i < |ts| ==> InlineOnly(ts[i])
    ensures forall i :: 0 <= i < |KidsOf(ts)| ==> InlineOnly(KidsOf(ts)[i])
  {
    if ts != [] { InlineKids(ts[1..]); }
  }

  lemma {:induction false} InlineNoWork(ts: seq<Tree>, subs: bool)
    requires AllBalanced(ts, 0) && forall i :: 0 <= i < |ts| ==> InlineOnly(ts[i])
    ensures LevelWork(ts, subs) == []
  {
    if ts != [] {
      InlineNodes(ts[0].nodes, subs);
      InlineNoWork(ts[1..], subs);
    }
  }

  lemma {:induction false} InlineNodes(nodes: seq<Node>, subs: bool)
    requires forall i :: 0 <= i < |nodes| ==> nodes[i].value.Inline?
    ensures NodePages(nodes, subs) == []
  {
    if nodes != [] { InlineNodes(nodes[..|nodes|-1], subs); }
  }

  /** Leaving the leaf level out of a tree without extra pages changes nothing. */
  lemma {:induction false} LeafLevelSkipped(t: Tree, d: nat, h: nat, subs: bool)
    requires InlineOnly(t) && Balanced(t, h) && d <= h
    ensures LevelsWork(t, d, h + 1, subs) == LevelsWork(t, d, h, subs)
    decreases h - d
  {
    if d == h {
      LevelBalanced(t, h, h);
      InlineLevels(t, h, h);
      InlineNoWork(Level(t, h), subs);
      assert LevelsWork(t, h + 1, h + 1, subs) == [];
    } else {
      LeafLevelSkipped(t, d + 1, h, subs);
    }
  }

  function Zeros(n: nat): seq<nat> {
    seq(n, i => 0)
  }

  lemma {:induction false} ZerosLeftmost(t: Tree, h: nat, n: nat)
    requires Balanced(t, h) && n <= h
    ensures Leftmost(t, Zeros(n))
  {
    if n > 0 {
      ZerosLeftmost(t, h, n - 1);
      assert Zeros(n)[..n-1] == Zeros(n - 1);
      PathDepth(t, Zeros(n - 1), h);
    }
  }

  lemma NodePagesStep(nodes: seq<Node>, i: nat, subs: bool)
    requires i < |nodes|
    ensures multiset(NodePages(nodes[..i+1], subs))
            == multiset(NodePages(nodes[..i], subs)) + multiset(DataPages(nodes[i], subs))
  {
    assert nodes[..i+1][..i] == nodes[..i] && nodes[..i+1][i] == nodes[i];
  }

  /** The part of the loop body for a leaf page. */
  method DropLeaf(nodes: seq<Node>, subs: bool, free: seq<nat>) returns (free': seq<nat>)
    requires forall i :: 0 <= i < |nodes| ==> GoodValue(nodes[i].value, subs)
    ensures multiset(free') == multiset(free) + multiset(NodePages(nodes, subs))
    decreases subs, 1
  {
    free' := free;
    var i := 0;
    while i < |nodes|
      invariant 0 <= i <= |nodes|
      invariant multiset(free') == multiset(free) + multiset(NodePages(nodes[..i], subs))
    {
      hide NodePages, GoodValue;
      free' := DropData(nodes[i], subs, free');
      NodePagesStep(nodes, i, subs);
      i := i + 1;
    }
    assert nodes[..i] == nodes;
  }

  method DropData(nd: Node, subs: bool, free: seq<nat>) returns (free': seq<nat>)
    requires GoodValue(nd.value, subs)
    ensures multiset(free') == multiset(free) + multiset(DataPages(nd, subs))
    decreases subs, 0
  {
    free' := free;
    match nd.value {
      case Big(pg, pages, _) =>
        free' := free + Run(pg, pages);
      case SubDb(sub, depth) =>
        if subs {
          var db := new Database(Some(sub), depth);
          var mx := new Cursor(db);
          NothingFollowed(sub);
          free' := Drop0(mx, false, true, free);
        }
      case Inline(_) =>
      case SubEmpty =>
    }
  }

  lemma {:induction false} NothingFollowed(t: Tree)
    ensures GoodValues(t, false)
    decreases t
  {
    if t.Branch? {
      forall i | 0 <= i < |t.kids| ensures GoodValues(t.kids[i], false) { NothingFollowed(t.kids[i]); }
    }
  }

  method DropPage(mp: Tree, subs: bool, free: seq<nat>) returns (free': seq<nat>)
    requires GoodValues(mp, subs)
    ensures multiset(free') == multiset(free) + multiset(PageWork(mp, subs))
    decreases subs, 2
  {
    match mp {
      case Leaf(_, nodes) => free' := DropLeaf(nodes, subs, free);
      case Branch(_, _, kids) => free' := free + Numbers(kids);
    }
  }

  /** What has been appended when the cursor is about to process the page on top. */
  ghost function Appended(t: Tree, path: seq<nat>, top: nat, subs: bool): multiset<nat>
    requires IsPath(t, path) && |path| < top
  {
    multiset(LevelsWork(t, |path| + 1, top, subs)) + multiset(LevelWork(Left(t, path), subs))
  }

  lemma AppendedNext(t: Tree, path: seq<nat>, q: seq<nat>, top: nat, subs: bool)
    requires NextPage(t, path, q) && |path| < top
    ensures Appended(t, q, top, subs) == Appended(t, path, top, subs) + multiset(PageWork(At(t, path), subs))
  {
    LevelWorkSnoc(Left(t, path), At(t, path), subs);
  }

  lemma AppendedLevel(t: Tree, path: seq<nat>, top: nat, subs: bool)
    requires IsPath(t, path) && |path| < top && Right(t, path) == []
    ensures multiset(LevelsWork(t, |path|, top, subs))
            == Appended(t, path, top, subs) + multiset(PageWork(At(t, path), subs))
  {
    LevelSplit(t, path);
    LevelWorkSnoc(Left(t, path), At(t, path), subs);
    LevelsWorkStep(t, |path|, top, subs);
    assert Left(t, path) + [At(t, path)] + Right(t, path) == Left(t, path) + [At(t, path)];
    hide LevelsWork, LevelWork, PageWork, Left, Right, At, IsPath, Level;
  }

  lemma AppendedStart(t: Tree, path: seq<nat>, top: nat, subs: bool)
    requires Leftmost(t, path) && |path| < top
    ensures Appended(t, path, top, subs) == multiset(LevelsWork(t, |path| + 1, top, subs))
  {
    LeftmostFirst(t, path);
    assert LevelWork([], subs) == [];
  }

  /** On to the next page of the level, or to the first page of the level above. */
  method MoveOn(mc: Cursor, ghost top: nat, ghost subs: bool)
    requires mc.OnPage() && 1 < |mc.ki| <= top
    modifies mc
    ensures mc.OnPage() && |mc.ki| <= old(|mc.ki|)
    ensures var t, p, q := mc.db.root.value, old(mc.ki[..|mc.ki|-1]), mc.ki[..|mc.ki|-1];
            && Appended(t, q, top, subs) == Appended(t, p, top, subs) + multiset(PageWork(At(t, p), subs))
            && (|mc.ki| == old(|mc.ki|) ==> |Right(t, q)| < |Right(t, p)|)
  {
    hide Appended, PageWork, Balanced, Neighbour, IsPath, At, Left, Right;
    ghost var t, path := mc.db.root.value, mc.ki[..|mc.ki|-1];
    MovedOn(t, path, mc.db.depth - 1, top, subs);
    var ok := mc.Sibling(true);
    if ok {
      assert mc.ki[..|mc.ki|-1] == Neighbour(t, path, true).value;
    } else {
      mc.ki := Zeros(|mc.ki| - 1);
      assert mc.ki[..|mc.ki|-1] == Zeros(|path| - 1);
    }
  }

  /** The page visited after the one at path. */
  lemma MovedOn(t: Tree, path: seq<nat>, h: nat, top: nat, subs: bool)
    requires Balanced(t, h) && IsPath(t, path) && 1 <= |path| < top
    ensures var q := match Neighbour(t, path, true) case None => Zeros(|path| - 1) case Some(r) => r;
            && IsPath(t, q) && |q| < top
            && Appended(t, q, top, subs) == Appended(t, path, top, subs) + multiset(PageWork(At(t, path), subs))
            && (Neighbour(t, path, true).Some? ==> |q| == |path| && |Right(t, q)| < |Right(t, path)|)
  {
    hide Appended, PageWork, Balanced, Neighbour, IsPath, At, Left, Right;
    NeighbourCorrect(t, path, h, true);
    match Neighbour(t, path, true) {
      case Some(q) => AppendedNext(t, path, q, top, subs);
      case None =>
        AppendedLevel(t, path, top, subs);
        PathDepth(t, path, h);
        ZerosLeftmost(t, h, |path| - 1);
        AppendedStart(t, Zeros(|path| - 1), top, subs);
    }
  }

  /** The loop of mdb_drop0, from a page to the root. */
  method DropLevels(mc: Cursor, subs: bool, free: seq<nat>, ghost top: nat,
                    ghost m: multiset<nat>) returns (free': seq<nat>)
    requires mc.OnPage() && |mc.ki| <= top && GoodValues(mc.db.root.value, subs)
    requires multiset(free) == m + Appended(mc.db.root.value, mc.ki[..|mc.ki|-1], top, subs)
    modifies mc
    ensures multiset(free') == m + multiset(LevelsWork(mc.db.root.value, 0, top, subs))
    decreases subs, 3
  {
    hide LevelsWork, PageWork, Right, GoodValues, Appended, At, IsPath, Balanced;
    ghost var t := mc.db.root.value;
    free' := free;
    while |mc.ki| > 1
      invariant |mc.ki| <= top && mc.OnPage()
      invariant multiset(free') == m + Appended(t, mc.ki[..|mc.ki|-1], top, subs)
      decreases |mc.ki|, |Right(t, mc.ki[..|mc.ki|-1])|
    {
      GoodValuesAt(t, mc.ki[..|mc.ki|-1], subs);
      free' := DropPage(mc.Top(), subs, free');
      MoveOn(mc, top, subs);
    }
    ghost var path := mc.ki[..|mc.ki|-1];
    assert path == [];
    GoodValuesAt(t, path, subs);
    free' := DropPage(mc.Top(), subs, free');
    RootIsAlone(t, path);
    AppendedLevel(t, path, top, subs);
  }

  lemma RootIsAlone(t: Tree, path: seq<nat>)
    requires path == []
    ensures IsPath(t, path) && Right(t, path) == []
  {
  }

  /** mdb_drop0; inSub is C_SUB, subs says whether to follow sub-databases of duplicates. */
  method Drop0(mc: Cursor, subs: bool, inSub: bool, free: seq<nat>) returns (free': seq<nat>)
    requires mc.db.Shape()
    requires mc.db.root.Some? ==> GoodValues(mc.db.root.value, subs) && (inSub ==> InlineOnly(mc.db.root.value))
    modifies mc
    ensures mc.db.root.None? ==> free' == free
    ensures mc.db.root.Some? ==> multiset(free') == multiset(free) + multiset(AllPages(mc.db.root.value, subs))
    decreases subs, 4
  {
    hide LevelsWork, AllPages, Leftmost, GoodValues, InlineOnly, IsPath, Appended, Balanced;
    free' := free;
    var ok := mc.PageSearch(First);
    if !ok {
      return;
    }
    ghost var t, h := mc.db.root.value, mc.db.depth - 1;
    ghost var top := if inSub then h else h + 1;
    if inSub {
      LeftmostPrefix(t, mc.ki[..|mc.ki|-1]);
      mc.ki := mc.ki[..|mc.ki|-1];
    }
    DropTotal(t, h, subs, inSub);
    if |mc.ki| > 0 {
      DropStart(t, mc.ki[..|mc.ki|-1], top, subs);
      free' := DropLevels(mc, subs, free, top, multiset(free));
    }
    free' := free' + [mc.db.root.value.pgno];
    mc.init := false;
  }

  lemma DropStart(t: Tree, path: seq<nat>, top: nat, subs: bool)
    requires Leftmost(t, path) && |path| + 1 == top
    ensures IsPath(t, path) && Appended(t, path, top, subs) == multiset{}
  {
    AppendedStart(t, path, top, subs);
  }

  /** All pages of the tree from the levels the walk visits. */
  lemma DropTotal(t: Tree, h: nat, subs: bool, inSub: bool)
    requires Balanced(t, h) && (inSub ==> InlineOnly(t))
    ensures var top := if inSub then h else h + 1;
            && multiset(AllPages(t, subs)) == multiset(LevelsWork(t, 0, top, subs)) + multiset{t.pgno}
            && (top == 0 ==> LevelsWork(t, 0, top, subs) == [])
  {
    WalkFromRoot(t, h, subs);
    if inSub { LeafLevelSkipped(t, 0, h, subs); }
  }

  lemma LeftmostPrefix(t: Tree, path: seq<nat>)
    requires Leftmost(t, path)
    ensures path != [] ==> Leftmost(t, path[..|path|-1])
  {
  }
}
