/** mdb_page_split: a page too full for one more node is cut, and the cut is carried up to the root. */
module Grow {
  import opened Common
  import opened Tree
  import opened Paths
  import opened Search
  import opened Update
  import opened BTree
  import opened Reshape
  import opened CopyOnWrite
  import opened Halving
  import Split

  /** A page that is full once its node newindx is added. */
  ghost predicate Overfull(x: Tree, newindx: nat, h: nat, lo: Option<real>, hi: Option<real>, pmax: nat) {
    && Shaped(x, h, lo, hi, pmax) && WellFormed(x) && newindx < x.NumKeys() == |Sizes(x)| && (x.Branch? ==> newindx > 0)
    && Split.Sum(Split.Remove(Sizes(x), newindx)) <= pmax < Used(x)
  }

  lemma SizesBounded(x: Tree, pmax: nat)
    requires WellFormed(x) && SmallNodes(x, pmax)
    ensures |Sizes(x)| == x.NumKeys()
    ensures forall i :: 0 <= i < |Sizes(x)| ==> Split.NULL_NODE <= Sizes(x)[i] && 2 * Sizes(x)[i] <= pmax
    ensures x.Branch? ==> Split.Quarter(Sizes(x), pmax)
  {
  }

  lemma OverfullPage(x: Tree, newindx: nat, h: nat, lo: Option<real>, hi: Option<real>, pmax: nat)
    requires Overfull(x, newindx, h, lo, hi, pmax)
    ensures var c := Sizes(x); var sz := Split.Remove(c, newindx);
            && Split.FullPage(sz, c[newindx], newindx, pmax) && Split.Insert(sz, newindx, c[newindx]) == c
            && (x.Branch? ==> Split.Quarter(c, pmax))
  {
    hide Sizes, Split.Sum, Balanced, Ordered, KidsOk, SmallNodes;
    SizesBounded(x, pmax);
    FullByOne(Sizes(x), newindx, pmax);
  }

  lemma FullByOne(c: seq<nat>, i: nat, pmax: nat)
    requires i < |c| && forall j :: 0 <= j < |c| ==> Split.NULL_NODE <= c[j] && 2 * c[j] <= pmax
    requires Split.Sum(Split.Remove(c, i)) <= pmax < Split.Sum(c)
    ensures Split.FullPage(Split.Remove(c, i), c[i], i, pmax) && Split.Insert(Split.Remove(c, i), i, c[i]) == c
  {
    WithoutBounds(c, i, pmax);
    hide *;
    WithoutAt(c, i);
    Split.InsertSum(Split.Remove(c, i), i, c[i]);
    FullWith(Split.Remove(c, i), c[i], i, pmax);
  }

  lemma WithoutBounds(c: seq<nat>, i: nat, pmax: nat)
    requires i < |c| && forall j :: 0 <= j < |c| ==> Split.NULL_NODE <= c[j] && 2 * c[j] <= pmax
    ensures var sz := Split.Remove(c, i);
            i <= |sz| && forall j :: 0 <= j < |sz| ==> Split.NULL_NODE <= sz[j] && 2 * sz[j] <= pmax
  {
  }

  lemma FullWith(sz: seq<nat>, n: nat, i: nat, pmax: nat)
    requires i <= |sz| && forall j :: 0 <= j < |sz| ==> Split.NULL_NODE <= sz[j] && 2 * sz[j] <= pmax
    requires Split.NULL_NODE <= n && 2 * n <= pmax && Split.Sum(sz) <= pmax < Split.Sum(sz) + n
    ensures Split.FullPage(sz, n, i, pmax)
  {
  }

  lemma WithoutAt(c: seq<nat>, i: nat)
    requires i < |c|
    ensures |Split.Remove(c, i)| == |c| - 1 && Split.Insert(Split.Remove(c, i), i, c[i]) == c
    ensures forall j :: 0 <= j < |c| - 1 ==> Split.Remove(c, i)[j] == if j < i then c[j] else c[j+1]
  {
  }

  /** The two halves of a page cut at i are good if they fit. */
  lemma HalvesGood(x: Tree, i: nat, rp: nat, h: nat, lo: Option<real>, hi: Option<real>, pmax: nat)
    requires Shaped(x, h, lo, hi, pmax) && WellFormed(x) && 0 < i < x.NumKeys()
             && (x.Branch? ==> 2 <= i < x.NumKeys() - 1)
    requires Split.Fits(Sizes(x), i, x.Leaf?, pmax)
    ensures var s := SepKey(x, i);
            && Good(LeftPart(x, i), h, lo, Some(s.rank), pmax) && Good(RightPart(x, i, rp), h, Some(s.rank), hi, pmax)
            && SmallKey(s, pmax) && (lo.Some? ==> lo.value < s.rank) && Below(s.rank, hi)
  {
    hide Shaped, Good, SmallKey, Sizes, Split.RightSize;
    CutShaped(x, i, rp, h, lo, hi, pmax);
    LeftUsed(x, i);
    RightUsed(x, i, rp);
    HalfGood(LeftPart(x, i), h, lo, Some(SepKey(x, i).rank), pmax);
    HalfGood(RightPart(x, i, rp), h, Some(SepKey(x, i).rank), hi, pmax);
  }

  lemma HalfGood(x: Tree, h: nat, lo: Option<real>, hi: Option<real>, pmax: nat)
    requires Shaped(x, h, lo, hi, pmax) && Used(x) <= pmax && (if x.Leaf? then x.nodes != [] else |x.kids| >= 2)
    ensures Good(x, h, lo, hi, pmax)
  {
    hide Balanced, Ordered, Sizes, SmallNodes, KidsOk;
  }

  /** The nodes of a page, moved one by one to two pages. */
  method CutPage(x: Tree, i: nat, rp: nat, pmax: nat) returns (ok: bool, left: Tree, right: Tree)
    requires WellFormed(x) && 0 < i < x.NumKeys() == |Sizes(x)|
    ensures ok <==> Split.Fits(Sizes(x), i, x.Leaf?, pmax)
    ensures ok ==> left == LeftPart(x, i) && right == RightPart(x, i, rp)
  {
    left, right := x, x;
    match x
    case Leaf(pgno, nodes) =>
      var a, b;
      ok, a, b := Split.MoveNodes(nodes, Sizes(x), i, true, pmax);
      left, right := Leaf(pgno, a), Leaf(rp, b);
    case Branch(pgno, keys, kids) =>
      var pairs := seq(|keys|, j requires 0 <= j < |keys| => (keys[j], kids[j]));
      var a, b;
      ok, a, b := Split.MoveNodes(pairs, Sizes(x), i, false, pmax);
      left, right := FromPairs(pgno, a), FromPairs(rp, b);
  }

  function FromPairs(pgno: nat, pairs: seq<(Key, Tree)>): Tree {
    Branch(pgno, seq(|pairs|, i requires 0 <= i < |pairs| => pairs[i].0),
      seq(|pairs|, i requires 0 <= i < |pairs| => pairs[i].1))
  }

  /**
   * One page is cut.  Where the cut is searched for, or the page is split by MDB_APPEND, this cannot fail; otherwise
   * it depends on whether both halves fit.
   */
  method SplitPage(x: Tree, newindx: nat, append: bool, rp: nat, pmax: nat, ghost h: nat, ghost lo: Option<real>,
                   ghost hi: Option<real>)
    returns (ok: bool, left: Tree, sep: Key, right: Tree, ghost cut: nat)
    requires Overfull(x, newindx, h, lo, hi, pmax) && (append ==> x.Leaf? && newindx == x.NumKeys() - 1)
    ensures newindx < |Sizes(x)| == |KeysOf(x)| == x.NumKeys() && |Sizes(x)| >= 3
    ensures ok <==> Cuttable(Sizes(x), newindx, append, x.Leaf?, pmax)
    ensures cut == CutFor(Sizes(x), newindx, append, x.Leaf?, pmax) && sep == KeysOf(x)[cut]
    ensures ok ==> Good(left, h, lo, Some(sep.rank), pmax) && Good(right, h, Some(sep.rank), hi, pmax)
    ensures ok ==> InOrder(left) + InOrder(right) == InOrder(x)
    ensures ok ==> SmallKey(sep, pmax) && (lo.Some? ==> lo.value < sep.rank) && Below(sep.rank, hi)
    ensures ok && x.Leaf? ==> right.Leaf? && right.nodes != [] && sep == right.nodes[0].key
    ensures WellFormed(x) && 0 < cut < x.NumKeys() && (append ==> cut == newindx)
    ensures ok ==> left == LeftPart(x, cut) && right == RightPart(x, cut, rp)
  {
    hide Overfull, Shaped, Good, InOrder, SmallKey, Split.Fits, Sizes, Used, LeftPart, RightPart, SepKey, CutFor,
         KeysOf, Split.Searched;
    var split := ChooseCut(x, newindx, append, pmax, h, lo, hi);
    cut := split;
    sep := SepKey(x, split);
    SepIsKey(x, split);
    ok, left, right := CutPage(x, split, rp, pmax);
    if ok {
      OverfullShaped(x, newindx, h, lo, hi, pmax);
      HalvesGood(x, split, rp, h, lo, hi, pmax);
      CutInOrder(x, split, rp);
      LeafSeparator(x, split, rp);
    }
  }

  lemma SepIsKey(x: Tree, i: nat)
    requires WellFormed(x) && i < x.NumKeys()
    ensures |KeysOf(x)| == x.NumKeys() && SepKey(x, i) == KeysOf(x)[i]
  {
  }

  lemma OverfullShaped(x: Tree, newindx: nat, h: nat, lo: Option<real>, hi: Option<real>, pmax: nat)
    requires Overfull(x, newindx, h, lo, hi, pmax)
    ensures Shaped(x, h, lo, hi, pmax)
  {
  }

  lemma LeafSeparator(x: Tree, i: nat, rp: nat)
    requires WellFormed(x) && i < x.NumKeys()
    ensures x.Leaf? ==> var r := RightPart(x, i, rp); r.Leaf? && r.nodes != [] && SepKey(x, i) == r.nodes[0].key
  {
  }

  /** The new node itself starts the right page with MDB_APPEND. */
  method ChooseCut(x: Tree, newindx: nat, append: bool, pmax: nat, ghost h: nat, ghost lo: Option<real>,
                   ghost hi: Option<real>)
    returns (split: nat)
    requires Overfull(x, newindx, h, lo, hi, pmax) && (append ==> x.Leaf? && newindx == x.NumKeys() - 1)
    ensures WellFormed(x) && newindx < |Sizes(x)| == x.NumKeys() && |Sizes(x)| >= 3
    ensures split == CutFor(Sizes(x), newindx, append, x.Leaf?, pmax)
    ensures 0 < split < x.NumKeys() && (append ==> split == newindx) && (x.Branch? ==> 2 <= split < x.NumKeys() - 1)
    ensures append || Split.Searched(x.NumKeys() - 1, Sizes(x)[newindx], newindx, pmax) ==>
              Split.Fits(Sizes(x), split, x.Leaf?, pmax)
    ensures !append && !Split.Searched(x.NumKeys() - 1, Sizes(x)[newindx], newindx, pmax) ==> split == x.NumKeys() / 2
  {
    hide Shaped, Sizes, Split.FullPage, Split.Searched, Split.Quarter, Split.Insert, Split.CutIndex;
    OverfullPage(x, newindx, h, lo, hi, pmax);
    var c := Sizes(x);
    WithoutAt(c, newindx);
    Split.AtLeastTwo(Split.Remove(c, newindx), c[newindx], newindx, pmax);
    if append {
      split := newindx;
      AppendFits(c, newindx, pmax);
    } else {
      split := Split.SplitPoint(Split.Remove(c, newindx), c[newindx], newindx, x.Leaf?, pmax);
    }
  }

  lemma AppendFits(c: seq<nat>, n: nat, pmax: nat)
    requires n == |c| - 1 && Split.FullPage(Split.Remove(c, n), c[n], n, pmax)
    ensures Split.Fits(c, n, true, pmax)
  {
    Split.AtLeastTwo(Split.Remove(c, n), c[n], n, pmax);
    assert Split.Remove(c, n) == c[..n] && c[n..] == [c[n]] && [c[n]][..0] == [];
    assert Split.Sum([c[n]]) == Split.Sum([]) + c[n];
  }

  // ---- Up to the root ----

  /** A root with two children. */
  lemma NewRoot(pgno: nat, l: Tree, k: Key, sep: Key, r: Tree, h: nat, pmax: nat)
    requires Good(l, h, None, Some(sep.rank), pmax) && Good(r, h, Some(sep.rank), None, pmax) && SmallKey(sep, pmax)
    ensures var q := Branch(pgno, [k, sep], [l, r]);
            Good(q, h + 1, None, None, pmax) && InOrder(q) == InOrder(l) + InOrder(r)
  {
    hide Balanced, Ordered, AllOk, InOrder, SmallKey;
    var q := Branch(pgno, [k, sep], [l, r]);
    RootInOrder(pgno, [k, sep], l, r);
    RootOk(pgno, l, k, sep, r, pmax);
    RootOrdered(q);
    RootBalanced(pgno, [k, sep], l, r, h);
  }

  lemma RootInOrder(pgno: nat, keys: seq<Key>, l: Tree, r: Tree)
    ensures InOrder(Branch(pgno, keys, [l, r])) == InOrder(l) + InOrder(r)
  {
    assert [l, r] == [l] + [r];
    InOrdersConcat([l], [r]);
    InOrdersOne(l);
    InOrdersOne(r);
  }

  lemma RootOk(pgno: nat, l: Tree, k: Key, sep: Key, r: Tree, pmax: nat)
    requires AllOk(l, pmax) && AllOk(r, pmax) && SmallKey(sep, pmax)
    ensures AllOk(Branch(pgno, [k, sep], [l, r]), pmax)
  {
    var q := Branch(pgno, [k, sep], [l, r]);
    assert Sizes(q) == [Split.NULL_NODE, KeyBytes(sep)];
    Split.SumPair(Split.NULL_NODE, KeyBytes(sep));
    assert PageOk(q, pmax) by { hide AllOk; }
    hide PageOk;
  }

  lemma RootBalanced(pgno: nat, keys: seq<Key>, l: Tree, r: Tree, h: nat)
    requires Balanced(l, h) && Balanced(r, h) && |keys| == 2
    ensures Balanced(Branch(pgno, keys, [l, r]), h + 1)
  {
  }

  lemma RootOrdered(q: Tree)
    requires q.Branch? && |q.keys| == |q.kids| == 2
    requires Ordered(q.kids[0], None, Some(q.keys[1].rank)) && Ordered(q.kids[1], Some(q.keys[1].rank), None)
    ensures Ordered(q, None, None)
  {
    assert KidLo(q, None, 0) == None && KidHi(q, None, 0) == Some(q.keys[1].rank);
    assert KidLo(q, None, 1) == Some(q.keys[1].rank) && KidHi(q, None, 1) == None;
  }

  /** The bounds of a page are those its parent gives it. */
  lemma BoundsFromParent(t: Tree, path: seq<nat>)
    requires IsPath(t, path) && path != [] && WellFormed(At(t, path[..|path|-1]))
    ensures var init, i := path[..|path|-1], path[|path|-1];
            LoAt(t, path) == KidLo(At(t, init), LoAt(t, init), i)
              && HiAt(t, path) == KidHi(At(t, init), HiAt(t, init), i)
  {
  }

  lemma KidsFromAll(p: Tree, i: nat, pmax: nat)
    requires p.Branch? && AllOk(p, pmax)
    ensures KidsOkBut(p, i, pmax) && SmallNodes(p, pmax) && Used(p) <= pmax && |p.kids| >= 2
  {
  }

  /** A good parent takes the halves of one of its children; it has good children, and may be overfull. */
  lemma ParentTakesHalves(p: Tree, i: nat, l: Tree, sep: Key, r: Tree, h: nat, lo: Option<real>, hi: Option<real>,
                          pmax: nat)
    requires p.Branch? && Balanced(p, h) && Ordered(p, lo, hi) && KidsOkBut(p, i, pmax) && SmallNodes(p, pmax)
             && i < |p.kids|
    requires Used(p) <= pmax
    requires Good(l, h - 1, KidLo(p, lo, i), Some(sep.rank), pmax)
             && Good(r, h - 1, Some(sep.rank), KidHi(p, hi, i), pmax)
    requires SmallKey(sep, pmax) && (KidLo(p, lo, i).Some? ==> KidLo(p, lo, i).value < sep.rank)
             && Below(sep.rank, KidHi(p, hi, i))
    ensures var q := InsertKid(p, i, l, sep, r);
            && (Used(q) <= pmax ==> Good(q, h, lo, hi, pmax))
            && (Used(q) > pmax ==> Overfull(q, i + 1, h, lo, hi, pmax))
            && InOrder(q) == InOrders(p.kids[..i]) + (InOrder(l) + InOrder(r)) + InOrders(p.kids[i+1..])
  {
    BranchShape(p, h);
    hide Balanced, Ordered, KidsOk, KidsOkBut, SmallNodes, Sizes, InOrder, InOrders, AllOk, KidLo, KidHi, SmallKey;
    var q := InsertKid(p, i, l, sep, r);
    InsertKidBalanced(p, i, l, sep, r, h);
    InsertKidOk(p, i, l, sep, r, pmax);
    InsertKidSizes(p, i, l, sep, r, pmax);
    InsertKidOrdered(p, i, l, sep, r, lo, hi);
    InsertKidInOrder(p, i, l, sep, r);
    SizesLength(p);
    InsertKidVerdict(p, q, i, sep, h, lo, hi, pmax);
  }

  lemma SizesLength(x: Tree)
    requires WellFormed(x)
    ensures |Sizes(x)| == x.NumKeys()
  {
  }

  lemma InsertKidVerdict(p: Tree, q: Tree, i: nat, sep: Key, h: nat, lo: Option<real>, hi: Option<real>, pmax: nat)
    requires p.Branch? && q.Branch? && i < |Sizes(p)| && |q.kids| == |q.keys| == |Sizes(p)| + 1 && |Sizes(p)| > 0
    requires Balanced(q, h) && Ordered(q, lo, hi) && KidsOk(q, pmax) && SmallNodes(q, pmax)
    requires Sizes(q) == Split.Insert(Sizes(p), i + 1, KeyBytes(sep)) && Used(p) <= pmax
    ensures Used(q) <= pmax ==> Good(q, h, lo, hi, pmax)
    ensures Used(q) > pmax ==> Overfull(q, i + 1, h, lo, hi, pmax)
  {
    hide Balanced, Ordered, KidsOk, SmallNodes, Sizes, Split.Sum, KeyBytes;
    assert Split.Remove(Sizes(q), i + 1) == Sizes(p);
  }

  // ---- Page numbers ----

  lemma CutPages(x: Tree, i: nat, rp: nat)
    requires WellFormed(x) && i <= x.NumKeys()
    ensures Pages(LeftPart(x, i)) + Pages(RightPart(x, i, rp)) == Pages(x) + multiset{rp}
  {
    if x.Branch? {
      assert x.kids == x.kids[..i] + x.kids[i..];
      PagesConcat(x.kids[..i], x.kids[i..]);
    }
  }

  lemma CutFrozen(x: Tree, i: nat, rp: nat, known: set<Tree>, dirty: set<nat>)
    requires WellFormed(x) && i <= x.NumKeys() && KidsFrozen(x, known, dirty) && x.pgno in dirty && rp in dirty
    ensures Frozen(LeftPart(x, i), known, dirty) && Frozen(RightPart(x, i, rp), known, dirty)
  {
  }

  lemma InsertKidPages(p: Tree, i: nat, l: Tree, sep: Key, r: Tree)
    requires p.Branch? && WellFormed(p) && i < |p.kids|
    ensures Pages(InsertKid(p, i, l, sep, r)) + Pages(p.kids[i]) == Pages(p) + (Pages(l) + Pages(r))
  {
    var q := InsertKid(p, i, l, sep, r);
    assert Pages(q) == multiset{p.pgno} + PagesOf(q.kids) && Pages(p) == multiset{p.pgno} + PagesOf(p.kids);
    hide Pages, PagesOf;
    assert q.kids == p.kids[..i] + ([l] + [r]) + p.kids[i+1..];
    PagesConcat(p.kids[..i] + ([l] + [r]), p.kids[i+1..]);
    PagesConcat(p.kids[..i], [l] + [r]);
    PagesConcat([l], [r]);
    PagesOne(l);
    PagesOne(r);
    KidPages(p.kids, i);
  }

  lemma InsertKidFrozen(p: Tree, i: nat, l: Tree, sep: Key, r: Tree, known: set<Tree>, dirty: set<nat>)
    requires p.Branch? && WellFormed(p) && i < |p.kids| && KidsFrozen(p, known, dirty) && Frozen(l, known, dirty)
             && Frozen(r, known, dirty)
    ensures KidsFrozen(InsertKid(p, i, l, sep, r), known, dirty)
  {
    hide Frozen;
    var q := InsertKid(p, i, l, sep, r);
    forall j | 0 <= j < |q.kids| ensures Frozen(q.kids[j], known, dirty) {
      if j > i + 1 { assert q.kids[j] == p.kids[j-1]; }
    }
  }

  lemma RootPages(pgno: nat, k: Key, l: Tree, sep: Key, r: Tree, known: set<Tree>, dirty: set<nat>)
    requires Frozen(l, known, dirty) && Frozen(r, known, dirty) && pgno in dirty
    ensures var q := Branch(pgno, [k, sep], [l, r]);
            Pages(q) == multiset{pgno} + (Pages(l) + Pages(r)) && Frozen(q, known, dirty)
  {
    assert [l, r] == [l] + [r];
    PagesConcat([l], [r]);
    PagesOne(l);
    PagesOne(r);
  }

  /** Nothing is lost and nothing comes from nowhere when x takes the place of the page at path. */
  ghost predicate Accounted(r: multiset<nat>, t: Tree, path: seq<nat>, x: Tree, txn: Txn, txn': Txn) {
    IsPath(t, path) && Tally(r + Pages(At(t, path)), Pages(t) + Pages(x), txn, txn')
  }

  /** A page rp was allocated for the half of x that is now in the parent q, which is accounted for. */
  lemma AccountedUp(r: multiset<nat>, t: Tree, path: seq<nat>, x: Tree, q: Tree, rp: nat, txn: Txn, txn1: Txn,
                    txn': Txn)
    requires IsPath(t, path) && path != [] && Tally(multiset{rp}, multiset{}, txn, txn1)
    requires var p := At(t, path[..|path|-1]);
             Pages(q) + Pages(p.kids[path[|path|-1]]) == Pages(p) + (Pages(x) + multiset{rp})
    requires Accounted(r, t, path[..|path|-1], q, txn1, txn')
    ensures Accounted(r, t, path, x, txn, txn')
  {
    hide Tally, Pages;
    var p, old', n := At(t, path[..|path|-1]), At(t, path), multiset{rp};
    TallyBoth(n, multiset{}, r + Pages(p), Pages(t) + Pages(q), txn, txn1, txn');
    assert multiset{} + (Pages(t) + Pages(q)) == Pages(t) + Pages(q);
    Chain(r, Pages(t), Pages(p), Pages(q), Pages(old'), Pages(x), n);
    TallySwap(r + Pages(old'), Pages(t) + Pages(x), n + (r + Pages(p)), Pages(t) + Pages(q), txn, txn');
  }

  lemma Chain(r: multiset<nat>, t: multiset<nat>, p: multiset<nat>, q: multiset<nat>, old': multiset<nat>,
              x: multiset<nat>,
              n: multiset<nat>)
    requires q + old' == p + (x + n)
    ensures (r + old') + (t + q) == (t + x) + (n + (r + p))
  {
    forall e: nat ensures ((r + old') + (t + q))[e] == ((t + x) + (n + (r + p)))[e] {
      assert (q + old')[e] == (p + (x + n))[e];
    }
  }

  /** The pages on the way to x, and x itself, are dirty. */
  ghost predicate Writable(t: Tree, path: seq<nat>, x: Tree, known: set<Tree>, dirty: set<nat>) {
    && IsPath(t, path) && Closed(known) && Frozen(t, known, dirty) && PathDirty(t, path, dirty)
    && x.pgno in dirty && KidsFrozen(x, known, dirty)
  }

  lemma WritableUp(t: Tree, path: seq<nat>, x: Tree, l: Tree, sep: Key, r: Tree, known: set<Tree>, dirty: set<nat>,
                   dirty': set<nat>)
    requires Writable(t, path, x, known, dirty) && dirty <= dirty' && path != [] && WellFormed(At(t, path[..|path|-1]))
    requires Frozen(l, known, dirty') && Frozen(r, known, dirty')
    ensures var init, i := path[..|path|-1], path[|path|-1];
            Writable(t, init, InsertKid(At(t, init), i, l, sep, r), known, dirty')
  {
    var init, i := path[..|path|-1], path[|path|-1];
    hide Frozen, KidsFrozen, Closed;
    FrozenMore(t, known, dirty, dirty');
    PathDirtyMore(t, path, dirty, dirty');
    FrozenAt(t, init, known, dirty');
    FrozenKids(At(t, init), known, dirty');
    InsertKidFrozen(At(t, init), i, l, sep, r, known, dirty');
  }

  /** x stands at path and nothing above needs to change. */
  lemma InPlace(t: Tree, path: seq<nat>, x: Tree, known: set<Tree>, txn: Txn)
    requires Writable(t, path, x, known, txn.dirty)
    ensures Frozen(Replace(t, path, x), known, txn.dirty) && Accounted(Pages(Replace(t, path, x)), t, path, x, txn, txn)
  {
    hide Tally, Frozen, Pages;
    ReplaceFrozen(t, path, x, known, txn.dirty);
    ReplacePages(t, path, x);
    TallyNone(Pages(t) + Pages(x), txn);
  }

  /**
   * The page x, overfull by its node newindx, is to stand at path: it is cut in two, and so are the
   * pages above it as far as they run full.  The entries of the tree are those with x in its place.  It
   * succeeds exactly if every page that has to be cut can be.
   */
  method SplitUp(t: Tree, path: seq<nat>, x: Tree, newindx: nat, append: bool, pmax: nat, txn: Txn, h: nat,
                 ghost known: set<Tree>)
    returns (ok: bool, r: Tree, h': nat, txn': Txn)
    requires Good(t, h, None, None, pmax) && IsPath(t, path) && |path| <= h
    requires Overfull(x, newindx, h - |path|, LoAt(t, path), HiAt(t, path), pmax)
             && Writable(t, path, x, known, txn.dirty)
    requires append ==> x.Leaf? && newindx == x.NumKeys() - 1
    ensures h <= h' <= h + 1
    ensures ok ==> Good(r, h', None, None, pmax) && InOrder(r) == EntriesWith(t, path, InOrder(x))
    ensures ok ==> Accounted(Pages(r), t, path, x, txn, txn') && Frozen(r, known, txn'.dirty)
    ensures ok <==> CanSplit(t, path, KeysOf(x), Sizes(x), x.Leaf?, newindx, append, pmax)
    decreases |path|
  {
    hide Overfull, InOrder, InOrders, EntriesWith, Ordered, Balanced, AllOk, LoAt, HiAt, Replace, IsPath, At, KidLo,
         KidHi,
      Writable, Accounted, Frozen, Pages, LeftPart, RightPart, KidsFrozen, Tally, Supplied,
      CanSplit, TakesKey, Cuttable, CutFor, KeysOf, Sizes, Used, InsertKid, WellFormed, SmallKey, KidsOk;
    var rp, txn1 := AllocPage(txn);
    var left, sep, right;
    ghost var cut;
    ok, left, sep, right, cut := SplitPage(x, newindx, append, rp, pmax, h - |path|, LoAt(t, path), HiAt(t, path));
    SplitStep(t, path, KeysOf(x), Sizes(x), x.Leaf?, newindx, append, pmax);
    r, h', txn' := t, h, txn1;
    if !ok {
      return;
    }
    HalvesFrozen(t, path, x, cut, rp, known, txn.dirty);
    CutPages(x, cut, rp);
    if path == [] {
      var pp;
      pp, txn' := AllocPage(txn1);
      RootSplit(t, x, left, sep, right, pp, h, pmax);
      RootAccount(t, x, left, sep, right, rp, pp, known, txn, txn1, txn');
      r, h' := Branch(pp, [Key(0.0, 0), sep], [left, right]), h + 1;
    } else {
      var init, i := path[..|path|-1], path[|path|-1];
      ParentOf(t, path, h, pmax);
      SplitParent(t, path, x, left, sep, right, h, pmax, known, txn.dirty, txn1.dirty);
      ParentStep(t, path, left, sep, right, pmax);
      var parent := InsertKid(At(t, init), i, left, sep, right);
      if Used(parent) <= pmax {
        ReplaceGood(t, init, parent, h, pmax);
        InPlace(t, init, parent, known, txn1);
        r := Replace(t, init, parent);
      } else {
        ok, r, h', txn' := SplitUp(t, init, parent, i + 1, false, pmax, txn1, h, known);
      }
      if ok {
        AccountedUp(Pages(r), t, path, x, parent, rp, txn, txn1, txn');
      }
    }
  }

  /** The parent with both halves of x in the place of one child. */
  lemma SplitParent(t: Tree, path: seq<nat>, x: Tree, l: Tree, sep: Key, r: Tree, h: nat, pmax: nat,
                    known: set<Tree>, dirty: set<nat>, dirty': set<nat>)
    requires Good(t, h, None, None, pmax) && IsPath(t, path) && path != [] && |path| <= h
    requires Good(l, h - |path|, LoAt(t, path), Some(sep.rank), pmax)
             && Good(r, h - |path|, Some(sep.rank), HiAt(t, path), pmax)
    requires SmallKey(sep, pmax) && (LoAt(t, path).Some? ==> LoAt(t, path).value < sep.rank)
             && Below(sep.rank, HiAt(t, path))
    requires InOrder(l) + InOrder(r) == InOrder(x)
    requires Writable(t, path, x, known, dirty) && dirty <= dirty' && Frozen(l, known, dirty')
             && Frozen(r, known, dirty')
    ensures var init, i := path[..|path|-1], path[|path|-1];
            && IsPath(t, init) && At(t, init).Branch? && WellFormed(At(t, init)) && i < |At(t, init).kids|
            && var parent := InsertKid(At(t, init), i, l, sep, r);
            && (Used(parent) <= pmax ==> Good(parent, h - |init|, LoAt(t, init), HiAt(t, init), pmax))
            && (Used(parent) > pmax ==> Overfull(parent, i + 1, h - |init|, LoAt(t, init), HiAt(t, init), pmax))
            && Writable(t, init, parent, known, dirty')
            && EntriesWith(t, init, InOrder(parent)) == EntriesWith(t, path, InOrder(x))
            && Pages(parent) + Pages(At(t, init).kids[i]) == Pages(At(t, init)) + (Pages(l) + Pages(r))
  {
    hide Overfull, InOrder, InOrders, EntriesWith, Ordered, Balanced, AllOk, LoAt, HiAt, IsPath, At, KidLo, KidHi,
      Writable, Frozen, Pages, SmallKey, Used, InsertKid;
    var init, i := path[..|path|-1], path[|path|-1];
    ParentOf(t, path, h, pmax);
    CarryUp(At(t, init), i, l, sep, r, h - |init|, LoAt(t, init), HiAt(t, init), pmax);
    EntriesUp(t, path, InOrder(x), h);
    WritableUp(t, path, x, l, sep, r, known, dirty, dirty');
    InsertKidPages(At(t, init), i, l, sep, r);
  }

  lemma HalvesFrozen(t: Tree, path: seq<nat>, x: Tree, i: nat, rp: nat, known: set<Tree>, dirty: set<nat>)
    requires Writable(t, path, x, known, dirty) && WellFormed(x) && i <= x.NumKeys()
    ensures Frozen(LeftPart(x, i), known, dirty + {rp}) && Frozen(RightPart(x, i, rp), known, dirty + {rp})
  {
    KidsFrozenMore(x, known, dirty, dirty + {rp});
    hide KidsFrozen, Frozen;
    CutFrozen(x, i, rp, known, dirty + {rp});
  }

  lemma KidsFrozenMore(x: Tree, known: set<Tree>, dirty: set<nat>, dirty': set<nat>)
    requires KidsFrozen(x, known, dirty) && dirty <= dirty'
    ensures KidsFrozen(x, known, dirty')
  {
    if x.Branch? {
      forall i | 0 <= i < |x.kids| ensures Frozen(x.kids[i], known, dirty') {
        FrozenMore(x.kids[i], known, dirty, dirty');
      }
    }
  }

  lemma RootAccount(t: Tree, x: Tree, l: Tree, sep: Key, r: Tree, rp: nat, pp: nat, known: set<Tree>, txn: Txn,
                    txn1: Txn, txn2: Txn)
    requires Frozen(l, known, txn1.dirty) && Frozen(r, known, txn1.dirty) && pp in txn2.dirty
    requires Pages(l) + Pages(r) == Pages(x) + multiset{rp}
    requires Tally(multiset{rp}, multiset{}, txn, txn1) && Tally(multiset{pp}, multiset{}, txn1, txn2)
    ensures var q := Branch(pp, [Key(0.0, 0), sep], [l, r]);
            Accounted(Pages(q), t, [], x, txn, txn2) && Frozen(q, known, txn2.dirty)
  {
    hide Frozen, Pages, Tally;
    TallyGrows(multiset{pp}, multiset{}, txn1, txn2);
    FrozenMore(l, known, txn1.dirty, txn2.dirty);
    FrozenMore(r, known, txn1.dirty, txn2.dirty);
    RootPages(pp, Key(0.0, 0), l, sep, r, known, txn2.dirty);
    TallyBoth(multiset{rp}, multiset{}, multiset{pp}, multiset{}, txn, txn1, txn2);
    RootSum(Pages(t), Pages(x), Pages(l) + Pages(r), rp, pp);
    var none: multiset<nat> := multiset{};
    assert none + none == none;
    TallySwap(multiset{pp} + (Pages(l) + Pages(r)) + Pages(t), Pages(t) + Pages(x),
      multiset{rp} + multiset{pp}, multiset{}, txn, txn2);
  }

  lemma RootSum(t: multiset<nat>, x: multiset<nat>, lr: multiset<nat>, rp: nat, pp: nat)
    requires lr == x + multiset{rp}
    ensures multiset{pp} + lr + t + multiset{} == t + x + (multiset{rp} + multiset{pp})
  {
  }

  lemma RootSplit(t: Tree, x: Tree, l: Tree, sep: Key, r: Tree, pgno: nat, h: nat, pmax: nat)
    requires Good(l, h, LoAt(t, []), Some(sep.rank), pmax) && Good(r, h, Some(sep.rank), HiAt(t, []), pmax)
             && SmallKey(sep, pmax)
    requires InOrder(l) + InOrder(r) == InOrder(x)
    ensures var q := Branch(pgno, [Key(0.0, 0), sep], [l, r]);
            Good(q, h + 1, None, None, pmax) && InOrder(q) == EntriesWith(t, [], InOrder(x))
  {
    NewRoot(pgno, l, Key(0.0, 0), sep, r, h, pmax);
    assert Left(t, []) == [] && Right(t, []) == [];
  }

  /** What is known of the parent of a page in a good tree. */
  lemma ParentOf(t: Tree, path: seq<nat>, h: nat, pmax: nat)
    requires Good(t, h, None, None, pmax) && IsPath(t, path) && path != []
    ensures var init, i := path[..|path|-1], path[|path|-1];
            && |path| <= h && IsPath(t, init) && At(t, init).Branch? && WellFormed(At(t, init))
                 && i < |At(t, init).kids|
            && Good(At(t, init), h - |init|, LoAt(t, init), HiAt(t, init), pmax)
            && LoAt(t, path) == KidLo(At(t, init), LoAt(t, init), i)
                 && HiAt(t, path) == KidHi(At(t, init), HiAt(t, init), i)
  {
    hide Ordered, AllOk, Balanced, IsPath, At, LoAt, HiAt, KidLo, KidHi, WellFormed;
    var init := path[..|path|-1];
    ParentPage(t, path);
    PathDepth(t, path, h);
    GoodAt(t, init, h, pmax);
    BranchShape(At(t, init), h - |init|);
    BoundsFromParent(t, path);
  }

  lemma CarryUp(p: Tree, i: nat, l: Tree, sep: Key, r: Tree, h: nat, lo: Option<real>, hi: Option<real>, pmax: nat)
    requires p.Branch? && WellFormed(p) && i < |p.kids| && Good(p, h, lo, hi, pmax) && h > 0
    requires Good(l, h - 1, KidLo(p, lo, i), Some(sep.rank), pmax)
             && Good(r, h - 1, Some(sep.rank), KidHi(p, hi, i), pmax)
    requires SmallKey(sep, pmax) && (KidLo(p, lo, i).Some? ==> KidLo(p, lo, i).value < sep.rank)
             && Below(sep.rank, KidHi(p, hi, i))
    ensures var q := InsertKid(p, i, l, sep, r);
            && (Used(q) <= pmax ==> Good(q, h, lo, hi, pmax))
            && (Used(q) > pmax ==> Overfull(q, i + 1, h, lo, hi, pmax))
            && InOrder(q) == InOrders(p.kids[..i]) + (InOrder(l) + InOrder(r)) + InOrders(p.kids[i+1..])
  {
    hide Ordered, Balanced, AllOk, KidsOkBut, SmallNodes, Used, InOrder, InOrders, Overfull, KidLo, KidHi, SmallKey;
    KidsFromAll(p, i, pmax);
    ParentTakesHalves(p, i, l, sep, r, h, lo, hi, pmax);
  }
}
