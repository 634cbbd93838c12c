/**
 * When mdb_page_split gives MDB_PAGE_FULL.  It halves a page of many small nodes without looking for the place to cut,
 * and only then can the cut fail.
 */
module Halving {
  import opened Common
  import opened Tree
  import opened Paths
  import opened Search
  import opened BTree
  import opened Reshape
  import Split

  /** The keys of a page; the first one of a branch page is never looked at. */
  function KeysOf(x: Tree): seq<Key> {
    match x
    case Leaf(_, nodes) => LeafKeys(nodes)
    case Branch(_, keys, _) => keys
  }

  function LeafKeys(nodes: seq<Node>): seq<Key> {
    seq(|nodes|, i requires 0 <= i < |nodes| => nodes[i].key)
  }

  /** A page too full by its node newindx can be cut: the cut is searched for, or both halves happen to fit. */
  ghost predicate Cuttable(sizes: seq<nat>, newindx: nat, append: bool, leaf: bool, pmax: nat)
    requires newindx < |sizes|
  {
    || append || Split.Searched(|sizes| - 1, sizes[newindx], newindx, pmax)
    || Split.Fits(sizes, |sizes| / 2, leaf, pmax)
  }

  /** Where it is cut. */
  ghost function CutFor(sizes: seq<nat>, newindx: nat, append: bool, leaf: bool, pmax: nat): (cut: nat)
    requires newindx < |sizes| && |sizes| >= 3
    ensures cut < |sizes|
  {
    if append then newindx else Split.CutIndex(sizes, newindx, leaf, pmax)
  }

  /**
   * A page with the given keys and sizes of nodes, too full by its node newindx, is to stand at path.  It can be cut,
   * and its parent takes the separator or can be cut in turn, and so on up to the root.
   */
  ghost predicate CanSplit(t: Tree, path: seq<nat>, keys: seq<Key>, sizes: seq<nat>, leaf: bool, newindx: nat,
                           append: bool, pmax: nat)
    decreases |path|
  {
    && IsPath(t, path) && newindx < |sizes| == |keys| && |sizes| >= 3
    && Cuttable(sizes, newindx, append, leaf, pmax)
    && (path == [] || TakesKey(t, path, keys[CutFor(sizes, newindx, append, leaf, pmax)], pmax))
  }

  /** The page above path takes sep as the separator after the child at path, or can be split for it. */
  ghost predicate TakesKey(t: Tree, path: seq<nat>, sep: Key, pmax: nat)
    requires IsPath(t, path) && path != []
    decreases |path|, 0
  {
    var init, i := path[..|path|-1], path[|path|-1];
    var keys := At(t, init).keys;
    && i < |keys|
    && var keys' := Split.Insert(keys, i + 1, sep);
    Split.Sum(BranchSizes(keys')) <= pmax || CanSplit(t, init, keys', BranchSizes(keys'), false, i + 1, false, pmax)
  }

  /** The page at path takes sep in the place of its separator j, or can be split for it (mdb_update_key). */
  ghost predicate TakesInstead(t: Tree, path: seq<nat>, keys: seq<Key>, j: nat, sep: Key, pmax: nat)
    requires j < |keys|
  {
    var keys' := keys[j := sep];
    Split.Sum(BranchSizes(keys')) <= pmax || CanSplit(t, path, keys', BranchSizes(keys'), false, j, false, pmax)
  }

  lemma InsteadStep(t: Tree, path: seq<nat>, keys: seq<Key>, j: nat, sep: Key, parent: Tree, pmax: nat)
    requires j < |keys| && parent.Branch? && parent.keys == keys[j := sep]
    ensures TakesInstead(t, path, keys, j, sep, pmax) <==>
            Used(parent) <= pmax || CanSplit(t, path, KeysOf(parent), Sizes(parent), parent.Leaf?, j, false, pmax)
  {
    hide CanSplit, Split.Sum, BranchSizes;
  }

  /** The definitions, for a page and for the parent with its two halves. */
  lemma SplitStep(t: Tree, path: seq<nat>, keys: seq<Key>, sizes: seq<nat>, leaf: bool, newindx: nat, append: bool,
                  pmax: nat)
    requires IsPath(t, path) && newindx < |sizes| == |keys| && |sizes| >= 3
    ensures CanSplit(t, path, keys, sizes, leaf, newindx, append, pmax) <==>
            && Cuttable(sizes, newindx, append, leaf, pmax)
            && (path == [] || TakesKey(t, path, keys[CutFor(sizes, newindx, append, leaf, pmax)], pmax))
  {
    hide Cuttable, TakesKey, CutFor;
  }

  lemma ParentStep(t: Tree, path: seq<nat>, l: Tree, sep: Key, r: Tree, pmax: nat)
    requires IsPath(t, path) && path != [] && WellFormed(At(t, path[..|path|-1]))
    ensures var init, i := path[..|path|-1], path[|path|-1];
            var parent := InsertKid(At(t, init), i, l, sep, r);
            TakesKey(t, path, sep, pmax) <==>
            Used(parent) <= pmax || CanSplit(t, init, KeysOf(parent), Sizes(parent), parent.Leaf?, i + 1, false, pmax)
  {
    hide CanSplit, Split.Sum, BranchSizes;
  }

  /** The cut of a page that had nkeys nodes is searched for, whatever the size of the node that goes to newindx. */
  predicate Spared(nkeys: nat, newindx: nat) {
    nkeys < 20 || newindx >= nkeys
  }

  /** So it is on each page above path, if a child there is cut in two. */
  ghost predicate Guarded(t: Tree, path: seq<nat>)
    decreases |path|
  {
    IsPath(t, path) &&
    (path == [] ||
     var init := path[..|path|-1];
     Guarded(t, init) && Spared(At(t, init).NumKeys(), path[|path|-1] + 1))
  }

  /** No page has twenty nodes. */
  ghost predicate Narrow(t: Tree) {
    t.NumKeys() < 20 && (t.Branch? ==> forall i :: 0 <= i < |t.kids| ==> Narrow(t.kids[i]))
  }

  /** Where the cuts are searched for nothing fails. */
  lemma {:induction false} GuardedSplits(t: Tree, path: seq<nat>, keys: seq<Key>, sizes: seq<nat>, leaf: bool,
                                         newindx: nat, append: bool, pmax: nat, h: nat)
    requires Good(t, h, None, None, pmax) && Guarded(t, path) && |path| <= h
    requires newindx < |sizes| == |keys| && |sizes| >= 3 && (append || Spared(|sizes| - 1, newindx))
    ensures CanSplit(t, path, keys, sizes, leaf, newindx, append, pmax)
    decreases |path|
  {
    hide Good, Guarded, CanSplit, TakesKey, CutFor, Split.Insert, Split.Fits, Split.Sum, BranchSizes, IsPath, At;
    GuardedPath(t, path);
    SplitStep(t, path, keys, sizes, leaf, newindx, append, pmax);
    if path != [] {
      var init, i := path[..|path|-1], path[|path|-1];
      GuardedParent(t, path, pmax, h);
      var sep := keys[CutFor(sizes, newindx, append, leaf, pmax)];
      TakesStep(t, path, sep, pmax);
      var keys' := Split.Insert(At(t, init).keys, i + 1, sep);
      GuardedSplits(t, init, keys', BranchSizes(keys'), false, i + 1, false, pmax, h);
    }
  }

  lemma GuardedPath(t: Tree, path: seq<nat>)
    requires Guarded(t, path)
    ensures IsPath(t, path)
  {
  }

  lemma GuardedParent(t: Tree, path: seq<nat>, pmax: nat, h: nat)
    requires Good(t, h, None, None, pmax) && Guarded(t, path) && path != [] && |path| <= h
    ensures var init, i := path[..|path|-1], path[|path|-1];
            && Guarded(t, init) && IsPath(t, init) && At(t, init).Branch? && i < |At(t, init).keys|
            && |At(t, init).keys| >= 2 && Spared(|At(t, init).keys|, i + 1)
  {
    GoodAt(t, path[..|path|-1], h, pmax);
  }

  lemma TakesStep(t: Tree, path: seq<nat>, sep: Key, pmax: nat)
    requires IsPath(t, path) && path != [] && path[|path|-1] < |At(t, path[..|path|-1]).keys|
    ensures var init, i := path[..|path|-1], path[|path|-1];
            var keys' := Split.Insert(At(t, init).keys, i + 1, sep);
            && |keys'| == |BranchSizes(keys')| == |At(t, init).keys| + 1
            && (CanSplit(t, init, keys', BranchSizes(keys'), false, i + 1, false, pmax) ==>
                  TakesKey(t, path, sep, pmax))
  {
    hide CanSplit, Split.Sum;
  }

  lemma {:induction false} NarrowGuarded(t: Tree, path: seq<nat>)
    requires Narrow(t) && IsPath(t, path)
    ensures Guarded(t, path) && Narrow(At(t, path))
    decreases |path|
  {
    if path != [] {
      NarrowGuarded(t, path[..|path|-1]);
    }
  }

  lemma {:induction false} RightmostGuarded(t: Tree, path: seq<nat>)
    requires Rightmost(t, path)
    ensures Guarded(t, path)
    decreases |path|
  {
    if path != [] {
      RightmostGuarded(t, path[..|path|-1]);
    }
  }

  /** A path along the right edge. */
  lemma {:induction false} RightEdge(t: Tree, n: nat, h: nat) returns (path: seq<nat>)
    requires Balanced(t, h) && n <= h
    ensures Rightmost(t, path) && |path| == n
    decreases n
  {
    path := [];
    if n > 0 {
      var init := RightEdge(t, n - 1, h);
      PathToLeaf(t, init, h);
      PathDepth(t, init, h);
      var last := |At(t, init).kids| - 1;
      PathSnoc(t, init, last);
      SnocParts(init, last);
      path := init + [last];
    }
  }
}
