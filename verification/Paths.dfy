/**
 * Moving between the pages of one level (the specification of mdb_cursor_sibling), the order of the
 * entries a path leads to, and the page a key belongs to (the specification of mdb_page_search).
 */
module Paths {
  import opened Common
  import opened Tree

  // ---- Neighbours ----

  /** The slot at which a move to the page at path arrives. */
  function Edge(t: Tree, path: seq<nat>, right: bool): nat {
    if right || !IsPath(t, path) || At(t, path).NumKeys() == 0 then 0 else At(t, path).NumKeys() - 1
  }

  /** The path to the page right or left of path on the same level, if there is one. */
  function Neighbour(t: Tree, path: seq<nat>, right: bool): Option<seq<nat>>
    requires IsPath(t, path)
    decreases |path|
  {
    if path == [] then None
    else
      var init, last := path[..|path|-1], path[|path|-1];
      if right && last + 1 < |At(t, init).kids| then Some(init + [last + 1])
      else if !right && last > 0 then Some(init + [last - 1])
      else match Neighbour(t, init, right)
        case None => None
        case Some(q) => Some(q + [Edge(t, q, right)])
  }

  /** q leads to the page immediately right of the one p leads to. */
  ghost predicate NextPage(t: Tree, p: seq<nat>, q: seq<nat>) {
    && IsPath(t, p) && IsPath(t, q) && |p| == |q|
    && Left(t, q) == Left(t, p) + [At(t, p)]
    && Right(t, p) == [At(t, q)] + Right(t, q)
  }

  lemma NextPageIsPath(t: Tree, p: seq<nat>, q: seq<nat>)
    requires NextPage(t, p, q)
    ensures IsPath(t, p) && IsPath(t, q) && |p| == |q|
  {
  }

  lemma PathSnoc(t: Tree, init: seq<nat>, i: nat)
    requires IsPath(t, init) && At(t, init).Branch? && i < |At(t, init).kids|
    ensures IsPath(t, init + [i]) && At(t, init + [i]) == At(t, init).kids[i]
    ensures Left(t, init + [i]) == KidsOf(Left(t, init)) + At(t, init).kids[..i]
    ensures Right(t, init + [i]) == At(t, init).kids[i+1..] + KidsOf(Right(t, init))
  {
    hide IsPath, At, Left, Right, KidsOf;
    SnocParts(init, i);
    PathParts(t, init + [i]);
  }

  lemma SnocParts(init: seq<nat>, i: nat)
    ensures var path := init + [i]; path[..|path|-1] == init && path[|path|-1] == i
  {
  }

  /** The definitions, for one step up. */
  lemma PathParts(t: Tree, path: seq<nat>)
    requires path != [] && IsPath(t, path[..|path|-1])
    requires var p := At(t, path[..|path|-1]); p.Branch? && path[|path|-1] < |p.kids|
    ensures var init, i := path[..|path|-1], path[|path|-1];
            && IsPath(t, path) && At(t, path) == At(t, init).kids[i]
            && Left(t, path) == KidsOf(Left(t, init)) + At(t, init).kids[..i]
            && Right(t, path) == At(t, init).kids[i+1..] + KidsOf(Right(t, init))
  {
    hide KidsOf;
  }

  lemma NextInSameParent(t: Tree, init: seq<nat>, i: nat)
    requires IsPath(t, init) && At(t, init).Branch? && i + 1 < |At(t, init).kids|
    ensures NextPage(t, init + [i], init + [i + 1])
  {
    PathSnoc(t, init, i);
    PathSnoc(t, init, i + 1);
    SliceStep(KidsOf(Left(t, init)), At(t, init).kids, KidsOf(Right(t, init)), i);
    hide IsPath, At, Left, Right, KidsOf;
  }

  lemma SliceStep(l: seq<Tree>, kids: seq<Tree>, r: seq<Tree>, i: nat)
    requires i + 1 < |kids|
    ensures l + kids[..i+1] == (l + kids[..i]) + [kids[i]]
    ensures kids[i+1..] + r == [kids[i+1]] + (kids[i+2..] + r)
  {
  }

  lemma SliceLast(l: seq<Tree>, p: Tree, q: Tree, r: seq<Tree>)
    requires p.Branch? && q.Branch? && |p.kids| > 0 && |q.kids| > 0
    ensures var i := |p.kids| - 1;
            && KidsOf(l + [p]) + q.kids[..0] == (KidsOf(l) + p.kids[..i]) + [p.kids[i]]
            && p.kids[i+1..] + KidsOf([q] + r) == [q.kids[0]] + (q.kids[1..] + KidsOf(r))
  {
    var i := |p.kids| - 1;
    KidsOfConcat(l, [p]);
    KidsOfConcat([q], r);
    assert KidsOf([p]) == p.kids + KidsOf([]) && KidsOf([q]) == q.kids + KidsOf([]);
    hide KidsOf;
    assert p.kids == p.kids[..i] + [p.kids[i]];
    assert q.kids == [q.kids[0]] + q.kids[1..];
  }

  lemma NextInNextParent(t: Tree, init: seq<nat>, init': seq<nat>)
    requires NextPage(t, init, init')
    requires At(t, init).Branch? && At(t, init').Branch? && |At(t, init).kids| > 0 && |At(t, init').kids| > 0
    ensures NextPage(t, init + [|At(t, init).kids| - 1], init' + [0])
  {
    PathSnoc(t, init, |At(t, init).kids| - 1);
    PathSnoc(t, init', 0);
    SliceLast(Left(t, init), At(t, init), At(t, init'), Right(t, init'));
    hide IsPath, At, Left, Right, KidsOf;
  }

  lemma EndOfLevel(t: Tree, init: seq<nat>, last: nat)
    requires IsPath(t, init) && At(t, init).Branch? && last < |At(t, init).kids|
    ensures Right(t, init) == [] && last + 1 == |At(t, init).kids| ==> Right(t, init + [last]) == []
    ensures Left(t, init) == [] && last == 0 ==> Left(t, init + [last]) == []
  {
    PathSnoc(t, init, last);
    hide IsPath, At, Left, Right;
    assert KidsOf([]) == [];
  }

  lemma ParentPage(t: Tree, path: seq<nat>)
    requires IsPath(t, path) && path != []
    ensures var init, last := path[..|path|-1], path[|path|-1];
            IsPath(t, init) && At(t, init).Branch? && last < |At(t, init).kids| && At(t, path) == At(t, init).kids[last]
  {
  }

  /** Pages on one level of a balanced tree are all leaves or all branches with children. */
  lemma HasKids(t: Tree, p: seq<nat>, q: seq<nat>, h: nat)
    requires IsPath(t, p) && IsPath(t, q) && Balanced(t, h) && |p| == |q| && At(t, q).Branch?
    ensures At(t, p).Branch? && |At(t, p).kids| > 0 && |At(t, q).kids| > 0
  {
    PathDepth(t, p, h);
    PathDepth(t, q, h);
  }

  /** The neighbour found is the page next to path, and none is found only at the end of the level. */
  lemma {:induction false} NeighbourCorrect(t: Tree, path: seq<nat>, h: nat, right: bool)
    requires IsPath(t, path) && Balanced(t, h)
    ensures match Neighbour(t, path, right)
            case None => if right then Right(t, path) == [] else Left(t, path) == []
            case Some(q) => if right then NextPage(t, path, q) else NextPage(t, q, path)
    decreases |path|
  {
    hide IsPath, At, Left, Right, NextPage, Balanced, Neighbour, Edge;
    if path == [] {
      RootAlone(t);
    } else {
      var init, last := path[..|path|-1], path[|path|-1];
      assert path == init + [last];
      ParentPage(t, path);
      NeighbourCorrect(t, init, h, right);
      NeighbourStep(t, path, right);
      if right && last + 1 < |At(t, init).kids| {
        NextInSameParent(t, init, last);
      } else if !right && last > 0 {
        NextInSameParent(t, init, last - 1);
      } else if Neighbour(t, init, right).Some? {
        NeighbourAcross(t, init, last, Neighbour(t, init, right).value, h, right);
      } else {
        EndOfLevel(t, init, last);
      }
    }
  }

  lemma RootAlone(t: Tree)
    ensures IsPath(t, []) && Left(t, []) == [] && Right(t, []) == []
    ensures Neighbour(t, [], true) == None && Neighbour(t, [], false) == None
  {
  }

  /** The definition of Neighbour, for one step up. */
  lemma NeighbourStep(t: Tree, path: seq<nat>, right: bool)
    requires IsPath(t, path) && path != []
    ensures var init, last := path[..|path|-1], path[|path|-1];
            && IsPath(t, init) && At(t, init).Branch?
            && Neighbour(t, path, right) ==
               if right && last + 1 < |At(t, init).kids| then Some(init + [last + 1])
               else if !right && last > 0 then Some(init + [last - 1])
               else match Neighbour(t, init, right)
                 case None => None
                 case Some(q) => Some(q + [Edge(t, q, right)])
  {
  }

  /** The next page under the next parent. */
  lemma NeighbourAcross(t: Tree, init: seq<nat>, last: nat, q: seq<nat>, h: nat, right: bool)
    requires Balanced(t, h) && IsPath(t, init) && At(t, init).Branch? && last < |At(t, init).kids|
    requires if right then NextPage(t, init, q) && last + 1 == |At(t, init).kids| else NextPage(t, q, init) && last == 0
    ensures IsPath(t, q) && var next := q + [Edge(t, q, right)];
            if right then NextPage(t, init + [last], next) else NextPage(t, next, init + [last])
  {
    hide IsPath, At, Left, Right, NextPage, Balanced;
    if right { NextPageIsPath(t, init, q); } else { NextPageIsPath(t, q, init); }
    HasKids(t, q, init, h);
    if right { NextInNextParent(t, init, q); } else { NextInNextParent(t, q, init); }
  }

  lemma NeighbourIsPath(t: Tree, path: seq<nat>, h: nat, right: bool)
    requires IsPath(t, path) && Balanced(t, h)
    ensures |path| <= h && Balanced(At(t, path), h - |path|)
    ensures Neighbour(t, path, right).Some? ==>
              var q := Neighbour(t, path, right).value;
              IsPath(t, q) && |q| == |path| && Balanced(At(t, q), h - |path|)
  {
    hide Neighbour;
    NeighbourCorrect(t, path, h, right);
    PathDepth(t, path, h);
    if Neighbour(t, path, right).Some? { PathDepth(t, Neighbour(t, path, right).value, h); }
  }

  // ---- Positions in the sequence of all entries ----

  /** The number of entries left of slot k of the page at path. */
  function Pos(t: Tree, path: seq<nat>, k: nat): nat
    requires IsPath(t, path)
  {
    |InOrders(Left(t, path))| + k
  }

  /** Slot k of a leaf holds the entry with that many entries before it. */
  lemma EntryAtPos(t: Tree, path: seq<nat>, k: nat, h: nat)
    requires IsPath(t, path) && Balanced(t, h) && At(t, path).Leaf? && k <= |At(t, path).nodes|
    ensures Pos(t, path, k) <= |InOrder(t)|
    ensures k < |At(t, path).nodes| ==>
              Pos(t, path, k) < |InOrder(t)| && InOrder(t)[Pos(t, path, k)] == At(t, path).nodes[k]
    ensures Right(t, path) == [] ==> Pos(t, path, |At(t, path).nodes|) == |InOrder(t)|
    ensures Left(t, path) == [] ==> Pos(t, path, 0) == 0
  {
    PathBalanced(t, path, h);
  }

  /** Slot 0 of the next page follows the last slot of this one. */
  lemma NextPagePos(t: Tree, p: seq<nat>, q: seq<nat>)
    requires NextPage(t, p, q) && At(t, p).Leaf?
    ensures Pos(t, q, 0) == Pos(t, p, |At(t, p).nodes|)
  {
    InOrdersConcat(Left(t, p), [At(t, p)]);
    InOrdersOne(At(t, p));
  }
}
