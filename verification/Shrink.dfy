/** mdb_node_move, mdb_page_merge and mdb_rebalance: a page that holds too little after a deletion. */
module Shrink {
  import opened Common
  import opened Tree
  import opened Paths
  import opened Search
  import opened Update
  import opened BTree
  import opened Reshape
  import opened CopyOnWrite
  import opened Halving
  import opened Grow
  import Split

  // ---- Bounds ----

  /** Raising the upper bound of a subtree changes nothing in it. */
  lemma {:induction false} Loosen(t: Tree, lo: Option<real>, hi: real, hi': real)
    requires Ordered(t, lo, Some(hi)) && hi <= hi'
    ensures Ordered(t, lo, Some(hi'))
    decreases t
  {
    if t.Branch? {
      forall i | 0 <= i < |t.kids| ensures Ordered(t.kids[i], KidLo(t, lo, i), KidHi(t, Some(hi'), i)) {
        if i + 1 == |t.kids| { Loosen(t.kids[i], KidLo(t, lo, i), hi, hi'); }
      }
    }
  }

  lemma {:induction false} FirstEntry(t: Tree, h: nat, pmax: nat)
    requires Balanced(t, h) && AllOk(t, pmax)
    ensures InOrder(t) != []
    ensures SmallKey(InOrder(t)[0].key, pmax)
    ensures t.Branch? ==> InOrder(t.kids[0]) != [] && InOrder(t)[0] == InOrder(t.kids[0])[0]
    decreases t
  {
    if t.Branch? {
      FirstEntry(t.kids[0], h - 1, pmax);
    } else {
      assert SmallNode(t.nodes[0], pmax);
    }
  }

  /** The first key of a subtree can be its lower bound. */
  lemma {:induction false} Tighten(t: Tree, lo: Option<real>, hi: Option<real>, h: nat, pmax: nat)
    requires Balanced(t, h) && AllOk(t, pmax) && Ordered(t, lo, hi)
    ensures InOrder(t) != []
    ensures var k := InOrder(t)[0].key.rank;
            Ordered(t, Some(k), hi) && Above(lo, k) && Below(k, hi)
    decreases t
  {
    FirstEntry(t, h, pmax);
    EntriesSorted(t, lo, hi);
    if t.Branch? {
      var k := InOrder(t)[0].key.rank;
      Tighten(t.kids[0], lo, KidHi(t, hi, 0), h - 1, pmax);
      hide InOrder, InOrders, AllOk, Balanced;
      forall i | 0 <= i < |t.kids| ensures Ordered(t.kids[i], KidLo(t, Some(k), i), KidHi(t, hi, i)) {
        assert Ordered(t.kids[i], KidLo(t, lo, i), KidHi(t, hi, i));
      }
    }
  }

  // ---- Joining two neighbours ----

  /** The page that holds the nodes of both; k is the key that the first child of b gets. */
  function Join(a: Tree, k: Key, b: Tree): Tree
    requires a.Leaf? == b.Leaf? && (b.Branch? ==> |b.keys| > 0)
  {
    match a
    case Leaf(pgno, nodes) => Leaf(pgno, nodes + b.nodes)
    case Branch(pgno, keys, kids) => Branch(pgno, keys + [k] + b.keys[1..], kids + b.kids)
  }

  /** k lies between two neighbours and may serve as the key of the first child of b. */
  ghost predicate Between(a: Tree, m: real, k: Key, b: Tree, hi: Option<real>, pmax: nat) {
    b.Branch? ==>
      && |b.keys| == |b.kids| > 0 && m <= k.rank && SmallKey(k, pmax)
      && Ordered(b.kids[0], Some(k.rank), KidHi(b, hi, 0)) && Below(k.rank, KidHi(b, hi, 0))
  }

  lemma JoinInOrder(a: Tree, k: Key, b: Tree)
    requires a.Leaf? == b.Leaf? && (b.Branch? ==> |b.keys| > 0)
    ensures InOrder(Join(a, k, b)) == InOrder(a) + InOrder(b)
  {
    if a.Branch? { InOrdersConcat(a.kids, b.kids); }
  }

  lemma JoinKeys(a: Tree, m: real, k: Key, b: Tree, lo: Option<real>, hi: Option<real>, pmax: nat)
    requires a.Branch? && b.Branch? && Ordered(a, lo, Some(m)) && Ordered(b, Some(m), hi)
             && Between(a, m, k, b, hi, pmax)
    requires |a.keys| > 0 && Above(lo, m)
    ensures var keys := Join(a, k, b).keys;
            && (forall i, j :: 1 <= i < j < |keys| ==> keys[i].rank < keys[j].rank)
            && (forall i :: 1 <= i < |keys| ==> Above(lo, keys[i].rank) && Below(keys[i].rank, hi))
  {
    hide KidLo;
    var keys, n := Join(a, k, b).keys, |a.keys|;
    assert keys == a.keys + [k] + b.keys[1..];
    assert forall i :: 1 <= i < n ==> a.keys[i].rank < m && Above(lo, a.keys[i].rank);
    assert forall i :: 1 <= i < |b.keys| ==> k.rank < b.keys[i].rank && Below(b.keys[i].rank, hi);
    assert Below(k.rank, hi);
    KeysChained(a.keys, m, k, b.keys, keys, lo, hi);
  }

  lemma KeysChained(a: seq<Key>, m: real, k: Key, b: seq<Key>, keys: seq<Key>, lo: Option<real>, hi: Option<real>)
    requires a != [] && b != [] && keys == a + [k] + b[1..] && m <= k.rank && Above(lo, m) && Below(k.rank, hi)
    requires forall i :: 1 <= i < |a| ==> a[i].rank < m && Above(lo, a[i].rank)
    requires forall i :: 1 <= i < |b| ==> k.rank < b[i].rank && Below(b[i].rank, hi)
    requires forall i, j :: 1 <= i < j < |a| ==> a[i].rank < a[j].rank
    requires forall i, j :: 1 <= i < j < |b| ==> b[i].rank < b[j].rank
    ensures forall i, j :: 1 <= i < j < |keys| ==> keys[i].rank < keys[j].rank
    ensures forall i :: 1 <= i < |keys| ==> Above(lo, keys[i].rank) && Below(keys[i].rank, hi)
  {
    assert forall i :: 1 <= i < |a| ==> keys[i] == a[i];
    assert keys[|a|] == k;
    assert forall i :: |a| < i < |keys| ==> keys[i] == b[i-|a|];
  }

  lemma JoinKids(a: Tree, m: real, k: Key, b: Tree, lo: Option<real>, hi: Option<real>, pmax: nat, j: nat)
    requires a.Branch? && b.Branch? && Ordered(a, lo, Some(m)) && Ordered(b, Some(m), hi)
             && Between(a, m, k, b, hi, pmax)
    requires 0 < |a.keys| && j < |a.kids| + |b.kids|
    ensures var q := Join(a, k, b); Ordered(q.kids[j], KidLo(q, lo, j), KidHi(q, hi, j))
  {
    var q, n := Join(a, k, b), |a.kids|;
    if j < n {
      assert Ordered(a.kids[j], KidLo(a, lo, j), KidHi(a, Some(m), j));
      assert KidLo(q, lo, j) == KidLo(a, lo, j);
      if j + 1 == n {
        Loosen(a.kids[j], KidLo(a, lo, j), m, k.rank);
      } else {
        assert KidHi(q, hi, j) == KidHi(a, Some(m), j);
      }
    } else {
      assert KidHi(q, hi, j) == KidHi(b, hi, j - n);
      if j > n {
        assert Ordered(b.kids[j-n], KidLo(b, Some(m), j - n), KidHi(b, hi, j - n));
      }
    }
  }

  lemma JoinShaped(a: Tree, m: real, k: Key, b: Tree, h: nat, lo: Option<real>, hi: Option<real>, pmax: nat)
    requires Shaped(a, h, lo, Some(m), pmax) && Shaped(b, h, Some(m), hi, pmax) && a.Leaf? == b.Leaf?
    requires Between(a, m, k, b, hi, pmax) && Above(lo, m) && Below(m, hi)
    ensures Shaped(Join(a, k, b), h, lo, hi, pmax) && WellFormed(Join(a, k, b))
  {
    var q := Join(a, k, b);
    if a.Branch? {
      JoinKeys(a, m, k, b, lo, hi, pmax);
      forall j | 0 <= j < |q.kids| ensures Ordered(q.kids[j], KidLo(q, lo, j), KidHi(q, hi, j)) {
        JoinKids(a, m, k, b, lo, hi, pmax, j);
      }
      JoinRest(a, k, b, h, pmax);
      assert Ordered(q, lo, hi) by { hide KidLo, KidHi, Balanced, KidsOk, SmallNodes; }
    }
  }

  lemma JoinRest(a: Tree, k: Key, b: Tree, h: nat, pmax: nat)
    requires a.Branch? && b.Branch? && Balanced(a, h) && Balanced(b, h) && KidsOk(a, pmax) && KidsOk(b, pmax)
    requires SmallNodes(a, pmax) && SmallNodes(b, pmax) && SmallKey(k, pmax)
    ensures var q := Join(a, k, b); Balanced(q, h) && KidsOk(q, pmax) && SmallNodes(q, pmax)
  {
    hide SmallKey, AllOk;
  }

  lemma JoinUsed(a: Tree, k: Key, b: Tree)
    requires a.Leaf? == b.Leaf? && (b.Branch? ==> |b.keys| > 0 && |a.keys| > 0)
    ensures Used(Join(a, k, b)) + (if a.Leaf? then 0 else Split.NULL_NODE)
            == Used(a) + Used(b) + (if a.Leaf? then 0 else KeyBytes(k))
  {
    var q := Join(a, k, b);
    if a.Leaf? {
      assert Sizes(q) == Sizes(a) + Sizes(b);
      Split.SumConcat(Sizes(a), Sizes(b));
    } else {
      assert Sizes(q) == Sizes(a) + ([KeyBytes(k)] + Sizes(b)[1..]);
      Split.SumConcat(Sizes(a), [KeyBytes(k)] + Sizes(b)[1..]);
      Split.SumHead(Sizes(b), KeyBytes(k));
    }
  }

  // ---- The parent of two pages that were joined ----

  /** The children in slots i and i + 1 give way to j. */
  function JoinKid(p: Tree, i: nat, j: Tree): Tree
    requires p.Branch? && WellFormed(p) && i + 1 < |p.kids|
  {
    Branch(p.pgno, p.keys[..i+1] + p.keys[i+2..], p.kids[..i] + [j] + p.kids[i+2..])
  }

  lemma JoinKidBounds(p: Tree, i: nat, j: Tree, lo: Option<real>, hi: Option<real>, n: nat)
    requires p.Branch? && WellFormed(p) && i + 1 < |p.kids| && n + 1 < |p.kids|
    ensures var q := JoinKid(p, i, j);
            && (n < i ==>
                   q.kids[n] == p.kids[n] && KidLo(q, lo, n) == KidLo(p, lo, n) && KidHi(q, hi, n) == KidHi(p, hi, n))
            && (n == i ==>
                   q.kids[n] == j && KidLo(q, lo, n) == KidLo(p, lo, i) && KidHi(q, hi, n) == KidHi(p, hi, i + 1))
            && (n > i ==>
                   q.kids[n] == p.kids[n+1] && KidLo(q, lo, n) == KidLo(p, lo, n + 1)
                   && KidHi(q, hi, n) == KidHi(p, hi, n + 1))
  {
  }

  lemma KeysJoined(p: Tree, i: nat, keys: seq<Key>, lo: Option<real>, hi: Option<real>)
    requires p.Branch? && Ordered(p, lo, hi) && i + 1 < |p.kids| && keys == p.keys[..i+1] + p.keys[i+2..]
    ensures forall j, k :: 1 <= j < k < |keys| ==> keys[j].rank < keys[k].rank
    ensures forall j :: 1 <= j < |keys| ==> Above(lo, keys[j].rank) && Below(keys[j].rank, hi)
  {
  }

  lemma JoinKidOrdered(p: Tree, i: nat, j: Tree, lo: Option<real>, hi: Option<real>)
    requires p.Branch? && Ordered(p, lo, hi) && i + 1 < |p.kids| && Ordered(j, KidLo(p, lo, i), KidHi(p, hi, i + 1))
    ensures Ordered(JoinKid(p, i, j), lo, hi)
  {
    var q := JoinKid(p, i, j);
    KeysJoined(p, i, q.keys, lo, hi);
    forall n | 0 <= n < |q.kids| ensures Ordered(q.kids[n], KidLo(q, lo, n), KidHi(q, hi, n)) {
      JoinKidBounds(p, i, j, lo, hi, n);
      hide JoinKid, KidLo, KidHi;
    }
    hide KidLo, KidHi, Above, Below;
  }

  lemma JoinKidBalanced(p: Tree, i: nat, j: Tree, h: nat)
    requires p.Branch? && Balanced(p, h) && i + 1 < |p.kids| && Balanced(j, h - 1)
    ensures Balanced(JoinKid(p, i, j), h)
  {
    var q := JoinKid(p, i, j);
    forall n | 0 <= n < |q.kids| ensures Balanced(q.kids[n], h - 1) {
      if n > i { assert q.kids[n] == p.kids[n+1]; }
    }
  }

  /** p's children are good but for the two in slots i and i + 1. */
  ghost predicate OthersOk(p: Tree, i: nat, pmax: nat) {
    p.Branch? && forall j :: 0 <= j < |p.kids| && j != i && j != i + 1 ==> AllOk(p.kids[j], pmax)
  }

  lemma JoinKidOk(p: Tree, i: nat, j: Tree, pmax: nat)
    requires p.Branch? && WellFormed(p) && i + 1 < |p.kids| && OthersOk(p, i, pmax)
    ensures KidsOkBut(JoinKid(p, i, j), i, pmax)
  {
    hide AllOk;
    var q := JoinKid(p, i, j);
    forall n | 0 <= n < |q.kids| && n != i ensures AllOk(q.kids[n], pmax) {
      if n > i { assert q.kids[n] == p.kids[n+1]; }
    }
  }

  lemma JoinKidSizes(p: Tree, i: nat, j: Tree, pmax: nat)
    requires p.Branch? && WellFormed(p) && i + 1 < |p.kids| && SmallNodes(p, pmax) && Used(p) <= pmax
    ensures var q := JoinKid(p, i, j); SmallNodes(q, pmax) && Used(q) <= pmax
  {
    hide SmallKey, KeyBytes;
    var q := JoinKid(p, i, j);
    var c := Sizes(p);
    assert Sizes(q) == Split.Remove(c, i + 1);
    assert c == Split.Insert(Split.Remove(c, i + 1), i + 1, c[i+1]);
    Split.InsertSum(Split.Remove(c, i + 1), i + 1, c[i+1]);
  }

  lemma JoinKidInOrder(p: Tree, i: nat, j: Tree)
    requires p.Branch? && WellFormed(p) && i + 1 < |p.kids| && InOrder(j) == InOrder(p.kids[i]) + InOrder(p.kids[i+1])
    ensures InOrder(JoinKid(p, i, j)) == InOrder(p)
  {
    var q := JoinKid(p, i, j);
    assert InOrder(q) == InOrders(q.kids) && InOrder(p) == InOrders(p.kids);
    hide InOrder, InOrders;
    KidsInOrder(q.kids, i);
    assert q.kids[..i] == p.kids[..i] && q.kids[i+1..] == p.kids[i+2..];
    TwoKidsInOrder(p.kids, i);
  }

  lemma TwoKidsInOrder(kids: seq<Tree>, i: nat)
    requires i + 1 < |kids|
    ensures InOrders(kids) == InOrders(kids[..i]) + (InOrder(kids[i]) + InOrder(kids[i+1])) + InOrders(kids[i+2..])
  {
    hide InOrder, InOrders;
    KidsInOrder(kids, i);
    HeadInOrder(kids[i+1..]);
    assert kids[i+1..][0] == kids[i+1] && kids[i+1..][1..] == kids[i+2..];
    GroupTwo(InOrders(kids[..i]), InOrder(kids[i]), InOrder(kids[i+1]), InOrders(kids[i+2..]));
  }

  lemma HeadInOrder(kids: seq<Tree>)
    requires kids != []
    ensures InOrders(kids) == InOrder(kids[0]) + InOrders(kids[1..])
  {
  }

  lemma GroupTwo(l: seq<Node>, a: seq<Node>, b: seq<Node>, r: seq<Node>)
    ensures l + a + (b + r) == l + (a + b) + r
  {
  }

  /** After a merge the parent has good children; it may be left with one. */
  lemma ParentMerged(p: Tree, i: nat, j: Tree, h: nat, lo: Option<real>, hi: Option<real>, pmax: nat)
    requires p.Branch? && Balanced(p, h) && Ordered(p, lo, hi) && OthersOk(p, i, pmax) && SmallNodes(p, pmax)
             && Used(p) <= pmax
    requires i + 1 < |p.kids| && h > 0 && WellFormed(p)
    requires Good(j, h - 1, KidLo(p, lo, i), KidHi(p, hi, i + 1), pmax)
             && InOrder(j) == InOrder(p.kids[i]) + InOrder(p.kids[i+1])
    ensures var q := JoinKid(p, i, j); Sparse(q, h, lo, hi, pmax) && InOrder(q) == InOrder(p)
  {
    hide Balanced, Ordered, OthersOk, SmallNodes, Used, InOrder, AllOk, KidLo, KidHi;
    JoinKidBalanced(p, i, j, h);
    JoinKidOrdered(p, i, j, lo, hi);
    JoinKidOk(p, i, j, pmax);
    JoinKidSizes(p, i, j, pmax);
    JoinKidInOrder(p, i, j);
  }

  /** After a move the parent has good children and a new separator; that may make it overfull. */
  lemma ParentMoved(p: Tree, i: nat, j: Tree, l: Tree, sep: Key, r: Tree, h: nat, lo: Option<real>, hi: Option<real>,
                    pmax: nat)
    requires p.Branch? && Balanced(p, h) && Ordered(p, lo, hi) && OthersOk(p, i, pmax) && SmallNodes(p, pmax)
             && Used(p) <= pmax
    requires i + 1 < |p.kids| && h > 0 && WellFormed(p)
    requires Balanced(j, h - 1) && Ordered(j, KidLo(p, lo, i), KidHi(p, hi, i + 1))
             && InOrder(j) == InOrder(p.kids[i]) + InOrder(p.kids[i+1])
    requires Good(l, h - 1, KidLo(p, lo, i), Some(sep.rank), pmax)
             && Good(r, h - 1, Some(sep.rank), KidHi(p, hi, i + 1), pmax)
    requires SmallKey(sep, pmax) && (KidLo(p, lo, i).Some? ==> KidLo(p, lo, i).value < sep.rank)
             && Below(sep.rank, KidHi(p, hi, i + 1))
    requires InOrder(l) + InOrder(r) == InOrder(j)
    ensures var q := Branch(p.pgno, p.keys[i+1 := sep], p.kids[i := l][i+1 := r]);
            && (Used(q) <= pmax ==> Good(q, h, lo, hi, pmax))
            && (Used(q) > pmax ==> Overfull(q, i + 1, h, lo, hi, pmax))
            && InOrder(q) == InOrder(p)
  {
    hide Balanced, Ordered, OthersOk, SmallNodes, Used, InOrder, AllOk, KidLo, KidHi, KidsOkBut, Overfull, SmallKey;
    var q0 := JoinKid(p, i, j);
    JoinKidBalanced(p, i, j, h);
    JoinKidOrdered(p, i, j, lo, hi);
    JoinKidOk(p, i, j, pmax);
    JoinKidSizes(p, i, j, pmax);
    JoinKidInOrder(p, i, j);
    JoinKidBounds(p, i, j, lo, hi, i);
    ParentTakesHalves(q0, i, l, sep, r, h, lo, hi, pmax);
    SplitAgain(p, i, j, l, sep, r);
    MovedInOrder(q0, i, j);
  }

  lemma SplitAgain(p: Tree, i: nat, j: Tree, l: Tree, sep: Key, r: Tree)
    requires p.Branch? && WellFormed(p) && i + 1 < |p.kids|
    ensures Branch(p.pgno, p.keys[i+1 := sep], p.kids[i := l][i+1 := r]) == InsertKid(JoinKid(p, i, j), i, l, sep, r)
  {
  }

  lemma MovedInOrder(q: Tree, i: nat, j: Tree)
    requires q.Branch? && i < |q.kids| && q.kids[i] == j
    ensures InOrder(q) == InOrders(q.kids[..i]) + InOrder(j) + InOrders(q.kids[i+1..])
  {
    KidsInOrder(q.kids, i);
  }

  // ---- Two neighbours in their parent ----

  /** p is good but for its children i and i + 1, which may hold little. */
  ghost predicate Pair(p: Tree, i: nat, h: nat, lo: Option<real>, hi: Option<real>, pmax: nat) {
    && p.Branch? && h > 0 && WellFormed(p) && i + 1 < |p.kids|
    && Balanced(p, h) && Ordered(p, lo, hi) && OthersOk(p, i, pmax) && SmallNodes(p, pmax) && Used(p) <= pmax
    && Sparse(p.kids[i], h - 1, KidLo(p, lo, i), Some(p.keys[i+1].rank), pmax)
    && Sparse(p.kids[i+1], h - 1, Some(p.keys[i+1].rank), KidHi(p, hi, i + 1), pmax)
  }

  lemma PairShape(p: Tree, i: nat, h: nat, lo: Option<real>, hi: Option<real>, pmax: nat)
    requires Pair(p, i, h, lo, hi, pmax)
    ensures p.Branch? && WellFormed(p) && i + 1 < |p.kids| && h > 0
    ensures var a, b, m := p.kids[i], p.kids[i+1], p.keys[i+1].rank;
            && a.Leaf? == b.Leaf? && WellFormed(a) && WellFormed(b)
            && (a.Branch? ==> |a.kids| > 0 && |b.kids| > 0 && Balanced(b.kids[0], h - 2) && AllOk(b.kids[0], pmax))
            && Above(KidLo(p, lo, i), m) && Below(m, KidHi(p, hi, i + 1))
  {
    BranchShape(p.kids[i], h - 1);
    BranchShape(p.kids[i+1], h - 1);
  }

  /** The lowest key under b, found by going down slot 0 (mdb_page_search_lowest). */
  method Lowest(t: Tree, ghost h: nat, ghost pmax: nat) returns (key: Key)
    requires Balanced(t, h) && AllOk(t, pmax)
    ensures InOrder(t) != [] && key == InOrder(t)[0].key
  {
    var page := t;
    ghost var d := h;
    FirstEntry(page, d, pmax);
    while page.Branch?
      invariant Balanced(page, d) && AllOk(page, pmax)
      invariant InOrder(t) != [] && InOrder(page) != [] && InOrder(page)[0] == InOrder(t)[0]
      decreases page
    {
      FirstEntry(page, d, pmax);
      page, d := page.kids[0], d - 1;
    }
    key := page.nodes[0].key;
  }

  lemma FirstKid(b: Tree, m: real, hi: Option<real>, h: nat, pmax: nat)
    requires Sparse(b, h, Some(m), hi, pmax) && b.Branch?
    ensures h > 0 && |b.keys| == |b.kids| > 0
    ensures Balanced(b.kids[0], h - 1) && AllOk(b.kids[0], pmax) && Ordered(b.kids[0], Some(m), KidHi(b, hi, 0))
  {
    assert KidLo(b, Some(m), 0) == Some(m);
  }

  lemma LowestBetween(a: Tree, b: Tree, m: real, hi: Option<real>, h: nat, pmax: nat)
    requires Sparse(b, h, Some(m), hi, pmax) && b.Branch?
    ensures |b.kids| > 0 && InOrder(b.kids[0]) != [] && Between(a, m, InOrder(b.kids[0])[0].key, b, hi, pmax)
  {
    hide Balanced, Ordered, AllOk, InOrder, KidsOk, PageFits, KidHi;
    FirstKid(b, m, hi, h, pmax);
    FirstEntry(b.kids[0], h - 1, pmax);
    Tighten(b.kids[0], Some(m), KidHi(b, hi, 0), h - 1, pmax);
  }

  // ---- Thresholds ----

  /** Tenths of a percent of the page in use. */
  function Fill(x: Tree, pmax: nat): nat
    requires pmax > 0
  {
    1000 * Used(x) / pmax
  }

  function MinKeys(x: Tree): nat { if x.Branch? then 2 else 1 }

  function Threshold(x: Tree): nat { if x.Branch? then 1 else FILL_THRESHOLD }

  predicate Enough(x: Tree, pmax: nat)
    requires pmax > 0
  {
    Fill(x, pmax) >= Threshold(x) && x.NumKeys() >= MinKeys(x)
  }

  /**
   * A leaf with a node on it holds enough exactly if at least a quarter of the page is in use, and can spare a node
   * exactly if it also has another.
   */
  lemma QuarterFull(x: Tree, pmax: nat)
    requires x.Leaf? && x.nodes != [] && pmax > 0
    ensures Enough(x, pmax) <==> 4 * Used(x) >= pmax
    ensures Rich(x, pmax) <==> 4 * Used(x) >= pmax && |x.nodes| > 1
  {
    QuarterIff(Used(x), pmax);
  }

  lemma QuarterIff(used: nat, pmax: nat)
    requires pmax > 0
    ensures 1000 * used / pmax >= 250 <==> 4 * used >= pmax
  {
    var q := 1000 * used / pmax;
    Quotient(1000 * used, pmax, q);
    if q >= 250 {
      Times(250, q, pmax);
    } else {
      Times(q + 1, 250, pmax);
    }
  }

  lemma Quotient(a: nat, b: nat, q: nat)
    requires b > 0 && q == a / b
    ensures q * b <= a < (q + 1) * b
  {
  }

  lemma Times(m: nat, n: nat, b: nat)
    requires m <= n
    ensures m * b <= n * b
  {
  }

  /** A neighbour that can spare a node. */
  predicate Rich(x: Tree, pmax: nat)
    requires pmax > 0
  {
    Fill(x, pmax) >= Threshold(x) && x.NumKeys() > MinKeys(x)
  }

  /** Enough, for a page with nodes of the given sizes. */
  predicate EnoughNodes(leaf: bool, sizes: seq<nat>, pmax: nat)
    requires pmax > 0
  {
    1000 * Split.Sum(sizes) / pmax >= (if leaf then FILL_THRESHOLD else 1) && |sizes| >= (if leaf then 1 else 2)
  }

  /** The separator after a neighbour gave a node: its last key if it is the left one, otherwise its second. */
  function SparedKey(nb: Tree, left: bool): Key {
    var keys := KeysOf(nb);
    if |keys| < 2 then Key(0.0, 0) else if left then keys[|keys|-1] else keys[1]
  }

  /**
   * A page with nodes of the given sizes can take the place of the one at path, which lost a node: it holds enough, or
   * the parent can take the separator of a move, or the parent, less one node after a merge, can be settled in turn.
   */
  ghost predicate CanSettle(t: Tree, path: seq<nat>, leaf: bool, sizes: seq<nat>, pmax: nat)
    requires pmax > 0
    decreases |path|
  {
    && IsPath(t, path)
    && (EnoughNodes(leaf, sizes, pmax) || path == [] || SettlesAbove(t, path, pmax))
  }

  ghost predicate SettlesAbove(t: Tree, path: seq<nat>, pmax: nat)
    requires pmax > 0 && IsPath(t, path) && path != []
    decreases |path|, 0
  {
    var init, last := path[..|path|-1], path[|path|-1];
    var p, i := At(t, init), if last > 0 then last - 1 else 0;
    && i + 1 < |p.kids| == |p.keys|
    && var nb := if last > 0 then p.kids[i] else p.kids[i+1];
    if Rich(nb, pmax) then TakesInstead(t, init, p.keys, i + 1, SparedKey(nb, last > 0), pmax)
    else CanSettle(t, init, false, BranchSizes(Split.Remove(p.keys, i + 1)), pmax)
  }

  lemma EnoughStep(t: Tree, path: seq<nat>, x: Tree, pmax: nat)
    requires pmax > 0 && IsPath(t, path) && WellFormed(x)
    ensures CanSettle(t, path, x.Leaf?, Sizes(x), pmax) <==>
            Enough(x, pmax) || path == [] || SettlesAbove(t, path, pmax)
  {
    hide SettlesAbove, Split.Sum;
  }

  lemma AboveStep(t: Tree, path: seq<nat>, x: Tree, pmax: nat)
    requires pmax > 0 && IsPath(t, path) && path != [] && WellFormed(At(t, path[..|path|-1]))
             && |At(t, path[..|path|-1]).kids| >= 2
    ensures var init, last := path[..|path|-1], path[|path|-1];
            var q, i := Child(At(t, init), last, x), if last > 0 then last - 1 else 0;
            && q.Branch? && i + 1 < |q.kids| == |q.keys|
            && var nb := if last > 0 then q.kids[i] else q.kids[i+1];
            SettlesAbove(t, path, pmax) <==>
            if Rich(nb, pmax) then TakesInstead(t, init, q.keys, i + 1, SparedKey(nb, last > 0), pmax)
            else CanSettle(t, init, false, BranchSizes(Split.Remove(q.keys, i + 1)), pmax)
  {
    hide TakesInstead, CanSettle, Rich, SparedKey, Split.Remove, BranchSizes;
  }

  lemma FewNodes(x: Tree, pmax: nat)
    requires WellFormed(x) && SmallNodes(x, pmax) && (x.Branch? ==> |x.kids| > 0)
    ensures x.NumKeys() < MinKeys(x) ==> 4 * Used(x) <= pmax
    ensures x.NumKeys() <= MinKeys(x) ==> 2 * Used(x) <= pmax
  {
    SizesBounded(x, pmax);
    var c := Sizes(x);
    if |c| == 1 {
      assert c[..0] == [];
      assert Split.Sum(c) == c[0];
    } else if |c| == 2 {
      assert c == [c[0], c[1]];
      Split.SumPair(c[0], c[1]);
    }
  }

  lemma ThinUsed(x: Tree, pmax: nat)
    requires pmax > 0 && WellFormed(x) && SmallNodes(x, pmax) && (x.Branch? ==> |x.kids| > 0)
    ensures !Enough(x, pmax) ==> 4 * Used(x) <= pmax
    ensures !Rich(x, pmax) ==> 2 * Used(x) <= pmax
  {
    FewNodes(x, pmax);
    hide Used, SmallNodes;
    if Fill(x, pmax) < Threshold(x) { LowFill(Used(x), pmax, Threshold(x)); }
  }

  lemma LowFill(u: nat, pmax: nat, thresh: nat)
    requires pmax > 0 && thresh <= 250 && 1000 * u / pmax < thresh
    ensures 4 * u <= pmax
  {
    var q := 1000 * u / pmax;
    DivBound(1000 * u, pmax);
    AtMost(q, 249, pmax);
  }

  lemma DivBound(n: nat, d: nat)
    requires d > 0
    ensures n < (n / d) * d + d
  {
  }

  lemma AtMost(x: nat, y: nat, d: nat)
    requires x <= y
    ensures x * d <= y * d
  {
  }

  // ---- mdb_page_merge ----

  function Pairs(x: Tree): seq<(Key, Tree)>
    requires x.Branch? && WellFormed(x)
  {
    seq(|x.keys|, i requires 0 <= i < |x.keys| => (x.keys[i], x.kids[i]))
  }

  /** One of two neighbours holds too little, and the other has nothing to spare. */
  ghost predicate MustMerge(a: Tree, b: Tree, pmax: nat) {
    pmax > 0 && ((!Enough(a, pmax) && !Rich(b, pmax)) || (!Rich(a, pmax) && !Enough(b, pmax)))
  }

  lemma MergeFits(a: Tree, k: Key, b: Tree, pmax: nat)
    requires MustMerge(a, b, pmax) && WellFormed(a) && WellFormed(b) && a.Leaf? == b.Leaf? && SmallNodes(a, pmax)
             && SmallNodes(b, pmax)
    requires a.Branch? ==> |a.kids| > 0 && |b.kids| > 0 && SmallKey(k, pmax)
    ensures Used(Join(a, k, b)) <= pmax
  {
    ThinUsed(a, pmax);
    ThinUsed(b, pmax);
    JoinUsed(a, k, b);
    hide Used, Enough, Rich, SmallNodes, Join;
  }

  /** The key the first node of b needs where it is not the first: the lowest one under it. */
  method FirstKey(ghost a: Tree, b: Tree, pmax: nat, ghost m: real, ghost h: nat,
                  ghost hi: Option<real>) returns (k: Key)
    requires Sparse(b, h, Some(m), hi, pmax)
    ensures Between(a, m, k, b, hi, pmax)
  {
    hide Between, Balanced, Ordered, KidsOk, SmallNodes, InOrder, AllOk, KidHi, Used;
    k := Key(0.0, 0);
    LeafBetween(a, m, k, b, hi, pmax);
    if b.Branch? {
      FirstKid(b, m, hi, h, pmax);
      k := Lowest(b.kids[0], h - 1, pmax);
      LowestBetween(a, b, m, hi, h, pmax);
    }
  }

  /** The loop of mdb_page_merge: every node of b is added to a as long as there is room. */
  method AddAll(a: Tree, k: Key, b: Tree, pmax: nat) returns (ok: bool, j: Tree)
    requires a.Leaf? == b.Leaf? && WellFormed(a) && WellFormed(b) && (b.Branch? ==> |b.kids| > 0 && |a.kids| > 0)
             && Used(a) <= pmax
    ensures ok <==> Used(Join(a, k, b)) <= pmax
    ensures ok ==> j == Join(a, k, b)
  {
    AddedSizes(a, k, b);
    if a.Leaf? {
      var nodes;
      ok, nodes := Split.AddNodes(a.nodes, b.nodes, Sizes(b), pmax - Used(a));
      j := Leaf(a.pgno, nodes);
    } else {
      hide Used, KeyBytes;
      var pairs;
      ok, pairs := Split.AddNodes(Pairs(a), [(k, b.kids[0])] + Pairs(b)[1..], [KeyBytes(k)] + Sizes(b)[1..],
        pmax - Used(a));
      j := FromPairs(a.pgno, pairs);
      if ok { PairsJoined(a, k, b, pairs); }
    }
  }

  /** The nodes of b are added to a; there is always room. */
  method MergePages(a: Tree, b: Tree, pmax: nat, ghost m: real, ghost h: nat, ghost lo: Option<real>,
                    ghost hi: Option<real>)
    returns (ok: bool, j: Tree, ghost key: Key)
    requires Sparse(a, h, lo, Some(m), pmax) && Sparse(b, h, Some(m), hi, pmax) && Above(lo, m) && Below(m, hi)
    requires MustMerge(a, b, pmax) && InOrder(a) + InOrder(b) != []
    ensures ok && Good(j, h, lo, hi, pmax) && InOrder(j) == InOrder(a) + InOrder(b)
    ensures a.Leaf? == b.Leaf? && (b.Branch? ==> |b.keys| > 0) && j == Join(a, key, b)
  {
    BranchShape(a, h);
    BranchShape(b, h);
    hide Balanced, Ordered, KidsOk, SmallNodes, InOrder, AllOk, MustMerge, KidHi, Used, Sizes, SmallKey;
    var k := FirstKey(a, b, pmax, m, h, hi);
    ok, j := AddAll(a, k, b, pmax);
    MergeFits(a, k, b, pmax);
    JoinShaped(a, m, k, b, h, lo, hi, pmax);
    JoinInOrder(a, k, b);
    JoinedGood(j, h, lo, hi, pmax);
    key := k;
  }

  lemma PairsJoined(a: Tree, k: Key, b: Tree, pairs: seq<(Key, Tree)>)
    requires a.Branch? && b.Branch? && WellFormed(a) && WellFormed(b) && |b.kids| > 0
    requires pairs == Pairs(a) + ([(k, b.kids[0])] + Pairs(b)[1..])
    ensures FromPairs(a.pgno, pairs) == Join(a, k, b)
  {
  }

  lemma AddedSizes(a: Tree, k: Key, b: Tree)
    requires a.Leaf? == b.Leaf? && (b.Branch? ==> |b.keys| > 0 && |a.keys| > 0)
    ensures a.Leaf? ==> Used(Join(a, k, b)) == Used(a) + Split.Sum(Sizes(b))
    ensures a.Branch? ==> Used(Join(a, k, b)) == Used(a) + Split.Sum([KeyBytes(k)] + Sizes(b)[1..])
  {
    JoinUsed(a, k, b);
    if a.Branch? {
      assert Sizes(b) != [] && Sizes(b)[0] == Split.NULL_NODE;
      hide KeyBytes, Join, Sizes, Split.Sum;
      Split.SumHead(Sizes(b), KeyBytes(k));
    }
  }

  lemma JoinedGood(j: Tree, h: nat, lo: Option<real>, hi: Option<real>, pmax: nat)
    requires Shaped(j, h, lo, hi, pmax) && Used(j) <= pmax && (if j.Leaf? then InOrder(j) != [] else |j.kids| >= 2)
    ensures Good(j, h, lo, hi, pmax)
  {
  }

  // ---- mdb_node_move ----

  /** One of two neighbours, the left one unless fromLeft, holds too little, and the other can spare a node. */
  ghost predicate CanMove(a: Tree, b: Tree, fromLeft: bool, pmax: nat) {
    pmax > 0 && (if fromLeft then Rich(a, pmax) && !Enough(b, pmax) else !Enough(a, pmax) && Rich(b, pmax))
  }

  /** Where the boundary between the pages is after the move. */
  function NewCut(a: Tree, fromLeft: bool): int { if fromLeft then a.NumKeys() - 1 else a.NumKeys() + 1 }

  /** What the nodes of b take once its first one has a key of its own. */
  function KeyedSizes(k: Key, b: Tree): seq<nat>
    requires b.Branch? ==> |b.keys| > 0
  {
    if b.Leaf? then Sizes(b) else [KeyBytes(k)] + Sizes(b)[1..]
  }

  lemma JoinSizes(a: Tree, k: Key, b: Tree)
    requires a.Leaf? == b.Leaf? && (b.Branch? ==> |b.keys| > 0 && |a.keys| > 0)
    ensures Sizes(Join(a, k, b)) == Sizes(a) + KeyedSizes(k, b) && Join(a, k, b).Leaf? == a.Leaf?
  {
    hide KeyBytes, NodeBytes;
  }

  lemma MoveRightFits(ca: seq<nat>, cb: seq<nat>, x: nat, leaf: bool, pmax: nat)
    requires |cb| > 1 && 4 * Split.Sum(ca) <= pmax && Split.Sum(cb) <= pmax && 2 * x <= pmax
    requires forall i :: 0 <= i < |cb| ==> cb[i] >= Split.NULL_NODE
    ensures Split.Fits(ca + ([x] + cb[1..]), |ca| + 1, leaf, pmax)
  {
    hide Split.Sum, Split.RightSize;
    var c := ca + ([x] + cb[1..]);
    assert c[..|ca|+1] == ca + [x] && c[|ca|+1..] == cb[1..];
    Split.SumConcat(ca, [x]);
    Split.SumOne(x);
    Split.RightSizeBound(cb[1..], leaf);
    Split.SumSplit(cb, 1);
  }

  lemma MoveLeftFits(ca: seq<nat>, sb: seq<nat>, ub: nat, leaf: bool, pmax: nat)
    requires |ca| > 1 && Split.Sum(ca) <= pmax && 4 * ub <= pmax && 2 * ca[|ca|-1] <= pmax
    requires leaf ==> Split.Sum(sb) == ub
    requires !leaf ==> 4 * (Split.Sum(sb) + Split.NULL_NODE) <= 4 * ub + pmax
    ensures Split.Fits(ca + sb, |ca| - 1, leaf, pmax)
  {
    var n := |ca|;
    assert (ca + sb)[..n-1] == ca[..n-1] && (ca + sb)[n-1..] == [ca[n-1]] + sb;
    Split.SumSplit(ca, n - 1);
    Split.SumConcat([ca[n-1]], sb);
    assert [ca[n-1]][..0] == [];
    assert Split.Sum([ca[n-1]]) == Split.Sum([]) + ca[n-1];
    assert ([ca[n-1]] + sb)[1..] == sb;
  }

  lemma MoveFits(a: Tree, k: Key, b: Tree, fromLeft: bool, pmax: nat)
    requires CanMove(a, b, fromLeft, pmax) && a.Leaf? == b.Leaf? && WellFormed(a) && WellFormed(b)
    requires PageFits(a, pmax) && PageFits(b, pmax)
    requires a.Branch? ==> |a.kids| > 0 && |b.kids| > 0 && SmallKey(k, pmax)
    ensures var j := Join(a, k, b); Split.Fits(Sizes(j), NewCut(a, fromLeft), j.Leaf?, pmax)
  {
    hide Sizes, Split.Sum, SmallNodes, Fill, Split.Fits, Join, KeyBytes, KeyedSizes;
    ThinUsed(a, pmax);
    ThinUsed(b, pmax);
    JoinSizes(a, k, b);
    SizesBounded(a, pmax);
    SizesBounded(b, pmax);
    KeyedSum(k, b);
    if fromLeft {
      MoveLeftFits(Sizes(a), KeyedSizes(k, b), Used(b), b.Leaf?, pmax);
    } else {
      KeyedFirst(k, b, pmax);
      MoveRightFits(Sizes(a), Sizes(b), KeyedSizes(k, b)[0], b.Leaf?, pmax);
    }
  }

  lemma KeyedFirst(k: Key, b: Tree, pmax: nat)
    requires WellFormed(b) && b.NumKeys() > 0 && SmallNodes(b, pmax) && (b.Branch? ==> SmallKey(k, pmax))
    ensures KeyedSizes(k, b) != [] && KeyedSizes(k, b) == [KeyedSizes(k, b)[0]] + Sizes(b)[1..]
    ensures 2 * KeyedSizes(k, b)[0] <= pmax
  {
    SizesBounded(b, pmax);
  }

  lemma KeyedSum(k: Key, b: Tree)
    requires b.Branch? ==> |b.keys| > 0
    ensures |KeyedSizes(k, b)| == |Sizes(b)|
    ensures b.Leaf? ==> Split.Sum(KeyedSizes(k, b)) == Used(b)
    ensures b.Branch? ==> Split.Sum(KeyedSizes(k, b)) + Split.NULL_NODE == Used(b) + KeyBytes(k)
  {
    if b.Branch? {
      assert Sizes(b) != [] && Sizes(b)[0] == Split.NULL_NODE;
      hide KeyBytes, Sizes, Split.Sum;
      Split.SumHead(Sizes(b), KeyBytes(k));
    }
  }

  /** The pages after one node went over: the two sides of the joined page, cut at another place. */
  lemma MovedParts(a: Tree, k: Key, b: Tree, fromLeft: bool)
    requires a.Leaf? == b.Leaf? && WellFormed(a) && WellFormed(b) && (b.Branch? ==> |b.kids| > 0 && |a.kids| > 0)
    requires (if fromLeft then a.NumKeys() else b.NumKeys()) > 1
    ensures var j, c := Join(a, k, b), NewCut(a, fromLeft);
            && WellFormed(j) && 0 < c < j.NumKeys()
            && (a.Leaf? && fromLeft ==>
                LeftPart(j, c) == a.(nodes := a.nodes[..c])
                  && RightPart(j, c, b.pgno) == b.(nodes := [a.nodes[c]] + b.nodes)
                && SepKey(j, c) == a.nodes[c].key)
            && (a.Leaf? && !fromLeft ==>
                LeftPart(j, c) == a.(nodes := a.nodes + [b.nodes[0]])
                  && RightPart(j, c, b.pgno) == b.(nodes := b.nodes[1..])
                && SepKey(j, c) == b.nodes[1].key)
            && (a.Branch? && fromLeft ==>
                LeftPart(j, c) == Branch(a.pgno, a.keys[..c], a.kids[..c])
                && RightPart(j, c, b.pgno) == Branch(b.pgno, [a.keys[c]] + [k] + b.keys[1..], [a.kids[c]] + b.kids)
                && SepKey(j, c) == a.keys[c])
            && (a.Branch? && !fromLeft ==>
                LeftPart(j, c) == Branch(a.pgno, a.keys + [k], a.kids + [b.kids[0]])
                && RightPart(j, c, b.pgno) == Branch(b.pgno, b.keys[1..], b.kids[1..])
                && SepKey(j, c) == b.keys[1])
  {
  }

  /**
   * One node goes over from the neighbour.  The first child of a branch page gets the lowest key under it
   * when it stops being the first, and the separator in the parent becomes the first key of the right page.
   */
  method MoveNode(a: Tree, b: Tree, fromLeft: bool, pmax: nat, ghost m: real, ghost h: nat, ghost lo: Option<real>,
                  ghost hi: Option<real>)
    returns (ok: bool, l: Tree, sep: Key, r: Tree, ghost j: Tree, ghost key: Key)
    requires Sparse(a, h, lo, Some(m), pmax) && Sparse(b, h, Some(m), hi, pmax) && Above(lo, m) && Below(m, hi)
    requires CanMove(a, b, fromLeft, pmax) && a.Leaf? == b.Leaf?
    ensures ok && Good(l, h, lo, Some(sep.rank), pmax) && Good(r, h, Some(sep.rank), hi, pmax)
    ensures InOrder(l) + InOrder(r) == InOrder(a) + InOrder(b)
    ensures (b.Branch? ==> |b.keys| > 0) && j == Join(a, key, b) && WellFormed(j)
            && 0 < NewCut(a, fromLeft) < j.NumKeys()
    ensures l == LeftPart(j, NewCut(a, fromLeft)) && r == RightPart(j, NewCut(a, fromLeft), b.pgno)
    ensures SmallKey(sep, pmax) && (lo.Some? ==> lo.value < sep.rank) && Below(sep.rank, hi)
    ensures Balanced(j, h) && Ordered(j, lo, hi) && InOrder(j) == InOrder(a) + InOrder(b)
    ensures sep == SparedKey(if fromLeft then a else b, fromLeft)
  {
    BranchShape(a, h);
    BranchShape(b, h);
    EnoughKeys(a, b, fromLeft, pmax);
    hide Sparse, Good, Between, Balanced, Ordered, InOrder, AllOk, CanMove, Used, Join, LeftPart, RightPart, SepKey,
         SmallKey, SparedKey;
    var k := FirstKey(a, b, pmax, m, h, hi);
    key := k;
    j := Join(a, k, b);
    l, sep, r := MovePages(a, k, b, fromLeft);
    MoveGood(a, m, k, b, fromLeft, h, lo, hi, pmax);
    ok := Used(if fromLeft then r else l) <= pmax;
    GoodFits(l, h, lo, Some(sep.rank), pmax);
    GoodFits(r, h, Some(sep.rank), hi, pmax);
  }

  lemma LeafBetween(a: Tree, m: real, k: Key, b: Tree, hi: Option<real>, pmax: nat)
    ensures b.Leaf? ==> Between(a, m, k, b, hi, pmax)
  {
  }

  lemma JoinCount(a: Tree, k: Key, b: Tree)
    requires a.Leaf? == b.Leaf? && WellFormed(a) && WellFormed(b) && (b.Branch? ==> |b.kids| > 0)
    ensures var j := Join(a, k, b); WellFormed(j) && j.Leaf? == a.Leaf? && j.NumKeys() == a.NumKeys() + b.NumKeys()
  {
  }

  lemma LeftCount(x: Tree, i: nat)
    requires WellFormed(x) && i <= x.NumKeys()
    ensures LeftPart(x, i).NumKeys() == i
  {
  }

  lemma MoveGood(a: Tree, m: real, k: Key, b: Tree, fromLeft: bool, h: nat, lo: Option<real>, hi: Option<real>,
                 pmax: nat)
    requires Sparse(a, h, lo, Some(m), pmax) && Sparse(b, h, Some(m), hi, pmax) && Above(lo, m) && Below(m, hi)
    requires CanMove(a, b, fromLeft, pmax) && a.Leaf? == b.Leaf? && WellFormed(a) && WellFormed(b)
    requires Between(a, m, k, b, hi, pmax) && (a.Branch? ==> |a.kids| > 0)
    ensures var j, c := Join(a, k, b), NewCut(a, fromLeft);
            && WellFormed(j) && 0 < c < j.NumKeys()
            && var l, s, r := LeftPart(j, c), SepKey(j, c), RightPart(j, c, b.pgno);
            && Good(l, h, lo, Some(s.rank), pmax) && Good(r, h, Some(s.rank), hi, pmax) && l.NumKeys() == c
            && InOrder(l) + InOrder(r) == InOrder(a) + InOrder(b) == InOrder(j) && Balanced(j, h) && Ordered(j, lo, hi)
            && SmallKey(s, pmax) && (lo.Some? ==> lo.value < s.rank) && Below(s.rank, hi)
  {
    EnoughKeys(a, b, fromLeft, pmax);
    MoveJoined(a, m, k, b, fromLeft, h, lo, hi, pmax);
    hide Sparse, Good, Between, Shaped, Balanced, Ordered, InOrder, CanMove, Split.Fits, Join, LeftPart, RightPart,
         SepKey, SmallKey;
    var j, c := Join(a, k, b), NewCut(a, fromLeft);
    LeftCount(j, c);
    HalvesGood(j, c, b.pgno, h, lo, hi, pmax);
    CutInOrder(j, c, b.pgno);
  }

  lemma MoveJoined(a: Tree, m: real, k: Key, b: Tree, fromLeft: bool, h: nat, lo: Option<real>, hi: Option<real>,
                   pmax: nat)
    requires Sparse(a, h, lo, Some(m), pmax) && Sparse(b, h, Some(m), hi, pmax) && Above(lo, m) && Below(m, hi)
    requires CanMove(a, b, fromLeft, pmax) && a.Leaf? == b.Leaf? && WellFormed(a) && WellFormed(b)
    requires Between(a, m, k, b, hi, pmax) && (a.Branch? ==> |a.kids| > 0)
    ensures var j := Join(a, k, b);
            && WellFormed(j) && j.Leaf? == a.Leaf? && j.NumKeys() == a.NumKeys() + b.NumKeys()
            && Shaped(j, h, lo, hi, pmax) && Balanced(j, h) && Ordered(j, lo, hi)
                 && InOrder(j) == InOrder(a) + InOrder(b)
            && Split.Fits(Sizes(j), NewCut(a, fromLeft), j.Leaf?, pmax)
  {
    assert a.Branch? ==> |b.kids| > 0 && SmallKey(k, pmax);
    hide Balanced, Ordered, KidsOk, SmallNodes, InOrder, AllOk, CanMove, Used, Split.Fits, Join, Between, SmallKey,
         Sizes;
    JoinCount(a, k, b);
    MoveFits(a, k, b, fromLeft, pmax);
    JoinShaped(a, m, k, b, h, lo, hi, pmax);
    JoinInOrder(a, k, b);
  }

  lemma GoodFits(x: Tree, h: nat, lo: Option<real>, hi: Option<real>, pmax: nat)
    requires Good(x, h, lo, hi, pmax)
    ensures Used(x) <= pmax
  {
  }

  lemma EnoughKeys(a: Tree, b: Tree, fromLeft: bool, pmax: nat)
    requires CanMove(a, b, fromLeft, pmax)
    ensures (if fromLeft then a else b).NumKeys() > MinKeys(if fromLeft then a else b)
  {
  }

  /** The node itself: added at the near end of one page, deleted at the near end of the other. */
  method MovePages(a: Tree, k: Key, b: Tree, fromLeft: bool) returns (l: Tree, sep: Key, r: Tree)
    requires a.Leaf? == b.Leaf? && WellFormed(a) && WellFormed(b) && (b.Branch? ==> |b.kids| > 0 && |a.kids| > 0)
    requires (if fromLeft then a.NumKeys() else b.NumKeys()) > 1
    ensures var j, c := Join(a, k, b), NewCut(a, fromLeft);
            && WellFormed(j) && 0 < c < j.NumKeys()
            && l == LeftPart(j, c) && sep == SepKey(j, c) && r == RightPart(j, c, b.pgno)
    ensures sep == SparedKey(if fromLeft then a else b, fromLeft)
  {
    MovedParts(a, k, b, fromLeft);
    hide Join, LeftPart, RightPart, SepKey;
    var n := a.NumKeys();
    if a.Leaf? {
      if fromLeft {
        l, r := a.(nodes := a.nodes[..n-1]), b.(nodes := [a.nodes[n-1]] + b.nodes);
      } else {
        l, r := a.(nodes := a.nodes + [b.nodes[0]]), b.(nodes := b.nodes[1..]);
      }
      sep := r.nodes[0].key;
    } else {
      if fromLeft {
        l := Branch(a.pgno, a.keys[..n-1], a.kids[..n-1]);
        r := Branch(b.pgno, [a.keys[n-1]] + [k] + b.keys[1..], [a.kids[n-1]] + b.kids);
      } else {
        l := Branch(a.pgno, a.keys + [k], a.kids + [b.kids[0]]);
        r := Branch(b.pgno, b.keys[1..], b.kids[1..]);
      }
      sep := r.keys[0];
    }
  }

  // ---- mdb_rebalance ----

  function Child(p: Tree, i: nat, x: Tree): Tree
    requires p.Branch? && i < |p.kids|
  {
    p.(kids := p.kids[i := x])
  }

  /** A good parent in which one child was exchanged for one that may hold too little. */
  lemma ChildExchanged(p: Tree, i: nat, x: Tree, h: nat, lo: Option<real>, hi: Option<real>, pmax: nat)
    requires p.Branch? && WellFormed(p) && i < |p.kids| && Good(p, h, lo, hi, pmax) && h > 0
    requires Sparse(x, h - 1, KidLo(p, lo, i), KidHi(p, hi, i), pmax)
    ensures var q := Child(p, i, x);
            && |p.kids| >= 2 && WellFormed(q)
            && Balanced(q, h) && Ordered(q, lo, hi) && KidsOkBut(q, i, pmax) && SmallNodes(q, pmax) && Used(q) <= pmax
            && InOrder(q) == InOrders(p.kids[..i]) + InOrder(x) + InOrders(p.kids[i+1..])
  {
    hide Ordered, Balanced, InOrders, InOrder, SmallKey, AllOk, Sizes, KidLo, KidHi;
    KidReplaced(p, lo, hi, i, x);
    ChildInOrder(p, i, x);
    ChildBalanced(p, i, x, h);
    KidsFromAll(p, i, pmax);
    ChildSizes(p, i, x);
  }

  lemma ChildInOrder(p: Tree, i: nat, x: Tree)
    requires p.Branch? && i < |p.kids|
    ensures InOrder(Child(p, i, x)) == InOrders(p.kids[..i]) + InOrder(x) + InOrders(p.kids[i+1..])
  {
    var q := Child(p, i, x);
    assert InOrder(q) == InOrders(q.kids);
    hide InOrders, InOrder;
    KidsInOrder(q.kids, i);
    assert q.kids[..i] == p.kids[..i] && q.kids[i+1..] == p.kids[i+1..];
  }

  lemma ChildBalanced(p: Tree, i: nat, x: Tree, h: nat)
    requires p.Branch? && i < |p.kids| && Balanced(p, h) && Balanced(x, h - 1)
    ensures Balanced(Child(p, i, x), h)
  {
  }

  lemma ChildSizes(p: Tree, i: nat, x: Tree)
    requires p.Branch? && i < |p.kids|
    ensures Sizes(Child(p, i, x)) == Sizes(p)
  {
  }

  lemma KidSparse(q: Tree, i: nat, h: nat, lo: Option<real>, hi: Option<real>, pmax: nat)
    requires q.Branch? && WellFormed(q) && i < |q.kids| && Balanced(q, h) && Ordered(q, lo, hi) && h > 0
             && AllOk(q.kids[i], pmax)
    ensures Sparse(q.kids[i], h - 1, KidLo(q, lo, i), KidHi(q, hi, i), pmax)
  {
  }

  lemma PairFound(q: Tree, last: nat, i: nat, h: nat, lo: Option<real>, hi: Option<real>, pmax: nat)
    requires q.Branch? && WellFormed(q) && h > 0 && i + 1 < |q.kids| && (last == i || last == i + 1)
    requires Balanced(q, h) && Ordered(q, lo, hi) && KidsOkBut(q, last, pmax) && SmallNodes(q, pmax) && Used(q) <= pmax
    requires Sparse(q.kids[last], h - 1, KidLo(q, lo, last), KidHi(q, hi, last), pmax)
    ensures Pair(q, i, h, lo, hi, pmax)
  {
    hide Balanced, Ordered, SmallNodes, Used, AllOk, Sparse, KidLo, KidHi;
    MiddleBound(q, i, lo, hi);
    if last == i {
      KidSparse(q, i + 1, h, lo, hi, pmax);
    } else {
      KidSparse(q, i, h, lo, hi, pmax);
    }
  }

  lemma MiddleBound(q: Tree, i: nat, lo: Option<real>, hi: Option<real>)
    requires q.Branch? && WellFormed(q) && i + 1 < |q.kids|
    ensures KidHi(q, hi, i) == Some(q.keys[i+1].rank) && KidLo(q, lo, i + 1) == Some(q.keys[i+1].rank)
  {
  }

  /** The outcome for the whole tree: its entries, in a good tree, or no tree if there are none. */
  ghost predicate Rebalanced(r: Option<Tree>, h: nat, entries: seq<Node>, pmax: nat) {
    match r
    case None => entries == []
    case Some(t) => Good(t, h, None, None, pmax) && InOrder(t) == entries
  }

  // ---- Page numbers ----

  lemma JoinPages(a: Tree, k: Key, b: Tree)
    requires a.Leaf? == b.Leaf? && (b.Branch? ==> |b.keys| > 0)
    ensures Pages(Join(a, k, b)) + multiset{b.pgno} == Pages(a) + Pages(b)
  {
    if a.Branch? { PagesConcat(a.kids, b.kids); }
  }

  lemma JoinFrozen(a: Tree, k: Key, b: Tree, known: set<Tree>, dirty: set<nat>)
    requires a.Leaf? == b.Leaf? && (b.Branch? ==> |b.keys| > 0) && KidsFrozen(a, known, dirty)
             && KidsFrozen(b, known, dirty)
    ensures KidsFrozen(Join(a, k, b), known, dirty)
  {
    hide Frozen;
  }

  lemma JoinKidPages(p: Tree, i: nat, j: Tree)
    requires p.Branch? && WellFormed(p) && i + 1 < |p.kids|
    ensures Pages(JoinKid(p, i, j)) + (Pages(p.kids[i]) + Pages(p.kids[i+1])) == Pages(p) + Pages(j)
  {
    var q := JoinKid(p, i, j);
    assert Pages(q) == multiset{p.pgno} + PagesOf(q.kids) && Pages(p) == multiset{p.pgno} + PagesOf(p.kids);
    hide Pages, PagesOf;
    KidPages(q.kids, i);
    assert q.kids[..i] == p.kids[..i] && q.kids[i+1..] == p.kids[i+2..];
    TwoKidPages(p.kids, i);
    MergedSum(multiset{p.pgno}, PagesOf(p.kids[..i]), Pages(p.kids[i]), Pages(p.kids[i+1]), Pages(j),
      PagesOf(p.kids[i+2..]));
  }

  lemma TwoKidPages(kids: seq<Tree>, i: nat)
    requires i + 1 < |kids|
    ensures PagesOf(kids) == PagesOf(kids[..i]) + Pages(kids[i]) + (Pages(kids[i+1]) + PagesOf(kids[i+2..]))
  {
    hide Pages, PagesOf;
    KidPages(kids, i);
    assert kids[i+1..] == [kids[i+1]] + kids[i+2..];
    PagesConcat([kids[i+1]], kids[i+2..]);
    PagesOne(kids[i+1]);
  }

  lemma MergedSum(n: multiset<nat>, l: multiset<nat>, a: multiset<nat>, b: multiset<nat>, j: multiset<nat>,
                  r: multiset<nat>)
    ensures n + (l + j + r) + (a + b) == n + (l + a + (b + r)) + j
  {
  }

  lemma JoinKidFrozen(p: Tree, i: nat, j: Tree, known: set<Tree>, dirty: set<nat>)
    requires p.Branch? && WellFormed(p) && i + 1 < |p.kids| && KidsFrozen(p, known, dirty) && Frozen(j, known, dirty)
    ensures KidsFrozen(JoinKid(p, i, j), known, dirty)
  {
    hide Frozen;
    var q := JoinKid(p, i, j);
    forall n | 0 <= n < |q.kids| ensures Frozen(q.kids[n], known, dirty) {
      if n > i { assert q.kids[n] == p.kids[n+1]; }
    }
  }

  lemma MovedPages(p: Tree, i: nat, keys: seq<Key>, l: Tree, r: Tree)
    requires p.Branch? && i + 1 < |p.kids|
    ensures Pages(Branch(p.pgno, keys, p.kids[i := l][i+1 := r])) + (Pages(p.kids[i]) + Pages(p.kids[i+1]))
            == Pages(p) + (Pages(l) + Pages(r))
  {
    var q := Branch(p.pgno, keys, p.kids[i := l][i+1 := r]);
    assert Pages(q) == multiset{p.pgno} + PagesOf(q.kids) && Pages(p) == multiset{p.pgno} + PagesOf(p.kids);
    hide Pages, PagesOf;
    KidSwapped(p.kids, i, l);
    KidSwapped(p.kids[i := l], i + 1, r);
    Swap(PagesOf(q.kids), PagesOf(p.kids[i := l]), PagesOf(p.kids), Pages(p.kids[i]), Pages(p.kids[i+1]), Pages(l),
      Pages(r));
    Under(multiset{p.pgno}, PagesOf(q.kids), PagesOf(p.kids), Pages(p.kids[i]) + Pages(p.kids[i+1]),
      Pages(l) + Pages(r));
  }

  lemma Under(n: multiset<nat>, q: multiset<nat>, p: multiset<nat>, a: multiset<nat>, b: multiset<nat>)
    requires q + a == p + b
    ensures n + q + a == n + p + b
  {
    assert n + q + a == n + (q + a) && n + p + b == n + (p + b);
  }

  lemma Swap(q: multiset<nat>, q1: multiset<nat>, p: multiset<nat>, a: multiset<nat>, b: multiset<nat>,
             l: multiset<nat>, r: multiset<nat>)
    requires q1 + a == p + l && q + b == q1 + r
    ensures q + (a + b) == p + (l + r)
  {
    forall e: nat ensures (q + (a + b))[e] == (p + (l + r))[e] {
      assert (q1 + a)[e] == (p + l)[e] && (q + b)[e] == (q1 + r)[e];
    }
  }

  lemma Renumbered(x: Tree, n: nat, h: nat, lo: Option<real>, hi: Option<real>, pmax: nat)
    requires Sparse(x, h, lo, hi, pmax)
    ensures var x' := x.(pgno := n);
            && Sparse(x', h, lo, hi, pmax) && InOrder(x') == InOrder(x) && Used(x') == Used(x)
                 && x'.NumKeys() == x.NumKeys()
            && (pmax > 0 ==> (Enough(x', pmax) <==> Enough(x, pmax)) && (Rich(x', pmax) <==> Rich(x, pmax)))
  {
    var x' := x.(pgno := n);
    if x.Branch? {
      assert Ordered(x', lo, hi) by { RenumberedOrdered(x, n, lo, hi); }
    }
    assert Sizes(x') == Sizes(x);
    hide Ordered;
  }

  lemma RenumberedOrdered(x: Tree, n: nat, lo: Option<real>, hi: Option<real>)
    requires x.Branch? && Ordered(x, lo, hi)
    ensures Ordered(Branch(n, x.keys, x.kids), lo, hi)
  {
    var x' := Branch(n, x.keys, x.kids);
    forall i | 0 <= i < |x'.kids| ensures Ordered(x'.kids[i], KidLo(x', lo, i), KidHi(x', hi, i)) {
      assert KidLo(x', lo, i) == KidLo(x, lo, i) && KidHi(x', hi, i) == KidHi(x, hi, i);
    }
  }

  lemma RenumberedFrozen(x: Tree, n: nat, known: set<Tree>, dirty: set<nat>, dirty': set<nat>)
    requires Frozen(x, known, dirty) && Closed(known) && dirty <= dirty'
    ensures KidsFrozen(x.(pgno := n), known, dirty')
  {
    FrozenKids(x, known, dirty);
    KidsFrozenMore(x, known, dirty, dirty');
    hide Frozen;
  }

  /** q's children are frozen, and q may be written. */
  ghost predicate Open(q: Tree, known: set<Tree>, dirty: set<nat>) {
    Closed(known) && q.pgno in dirty && KidsFrozen(q, known, dirty)
  }

  /** The tree with x at path, x being all right or the root. */
  lemma Settled(t: Tree, path: seq<nat>, x: Tree, h: nat, pmax: nat)
    requires Good(t, h, None, None, pmax) && IsPath(t, path) && |path| <= h
    requires Sparse(x, h - |path|, LoAt(t, path), HiAt(t, path), pmax) && x.NumKeys() >= MinKeys(x)
    ensures Rebalanced(Some(Replace(t, path, x)), h, EntriesWith(t, path, InOrder(x)), pmax)
  {
    assert AllOk(x, pmax) by { hide Balanced, Ordered, PageFits, InOrder; }
    hide Balanced, Ordered, AllOk, InOrder, EntriesWith;
    ReplaceGood(t, path, x, h, pmax);
  }

  lemma AllEntries(t: Tree, mid: seq<Node>)
    ensures EntriesWith(t, [], mid) == mid
  {
    assert Left(t, []) == [] && Right(t, []) == [];
  }

  lemma OnlyChild(x: Tree, h: nat, pmax: nat)
    requires Sparse(x, h, None, None, pmax) && x.Branch? && |x.kids| == 1
    ensures h > 0 && Good(x.kids[0], h - 1, None, None, pmax) && InOrder(x.kids[0]) == InOrder(x)
  {
    assert x.kids == [x.kids[0]];
    InOrdersOne(x.kids[0]);
    assert KidLo(x, None, 0) == None && KidHi(x, None, 0) == None;
  }

  function PagesIn(r: Option<Tree>): multiset<nat> {
    match r
    case None => multiset{}
    case Some(t) => Pages(t)
  }

  /** Every page is accounted for when r has x in the place of the page at path, and clean pages are as they were. */
  ghost predicate Settles(r: Option<Tree>, t: Tree, path: seq<nat>, x: Tree, txn: Txn, txn': Txn, known: set<Tree>) {
    && Accounted(PagesIn(r), t, path, x, txn, txn')
    && (r.Some? ==> Frozen(r.value, known, txn'.dirty))
  }

  lemma SettlesInPlace(t: Tree, path: seq<nat>, x: Tree, txn: Txn, known: set<Tree>)
    requires Writable(t, path, x, known, txn.dirty)
    ensures Settles(Some(Replace(t, path, x)), t, path, x, txn, txn, known)
  {
    hide Frozen, Pages, Tally;
    InPlace(t, path, x, known, txn);
  }

  lemma SettlesSplit(r: Tree, t: Tree, path: seq<nat>, x: Tree, txn: Txn, txn': Txn, known: set<Tree>)
    requires Accounted(Pages(r), t, path, x, txn, txn') && Frozen(r, known, txn'.dirty)
    ensures Settles(Some(r), t, path, x, txn, txn', known)
  {
  }

  /** What was done to the parent, added to what is done above it. */
  lemma SettlesUp(r: Option<Tree>, t: Tree, path: seq<nat>, x: Tree, q: Tree, parent: Tree, a: Txn, b: Txn, c: Txn,
                  known: set<Tree>)
    requires IsPath(t, path) && path != [] && At(t, path[..|path|-1]).Branch?
             && path[|path|-1] < |At(t, path[..|path|-1]).kids|
    requires q == Child(At(t, path[..|path|-1]), path[|path|-1], x)
    requires Tally(Pages(parent), Pages(q), a, b) && Settles(r, t, path[..|path|-1], parent, b, c, known)
    ensures Settles(r, t, path, x, a, c, known)
  {
    var p, i := At(t, path[..|path|-1]), path[|path|-1];
    ChildPages(p, i, x);
    hide Frozen, Pages, Tally;
    TallyPlus(Pages(parent), Pages(q), Pages(t), a, b);
    assert Pages(parent) + Pages(t) == Pages(t) + Pages(parent);
    TallyThen(Pages(q) + Pages(t), Pages(t) + Pages(parent), PagesIn(r) + Pages(p), a, b, c);
    Exchange(PagesIn(r), Pages(p), Pages(q), Pages(t), Pages(At(t, path)), Pages(x));
    TallySwap(PagesIn(r) + Pages(At(t, path)), Pages(t) + Pages(x), PagesIn(r) + Pages(p), Pages(q) + Pages(t), a, c);
  }

  lemma Exchange(r: multiset<nat>, p: multiset<nat>, q: multiset<nat>, t: multiset<nat>, old': multiset<nat>,
                 x: multiset<nat>)
    requires q + old' == p + x
    ensures (r + old') + (q + t) == (t + x) + (r + p)
  {
    forall e: nat ensures ((r + old') + (q + t))[e] == ((t + x) + (r + p))[e] {
      assert (q + old')[e] == (p + x)[e];
    }
  }

  lemma ChildPages(p: Tree, i: nat, x: Tree)
    requires p.Branch? && i < |p.kids|
    ensures Pages(Child(p, i, x)) + Pages(p.kids[i]) == Pages(p) + Pages(x)
  {
    KidSwapped(p.kids, i, x);
    assert Pages(Child(p, i, x)) == multiset{p.pgno} + PagesOf(p.kids[i := x])
           && Pages(p) == multiset{p.pgno} + PagesOf(p.kids);
    hide Pages, PagesOf;
    forall e: nat ensures (Pages(Child(p, i, x)) + Pages(p.kids[i]))[e] == (Pages(p) + Pages(x))[e] {
      assert (PagesOf(p.kids[i := x]) + Pages(p.kids[i]))[e] == (PagesOf(p.kids) + Pages(x))[e];
    }
  }

  lemma ChildOpen(t: Tree, path: seq<nat>, x: Tree, known: set<Tree>, dirty: set<nat>)
    requires Writable(t, path, x, known, dirty) && path != []
    ensures var init, i := path[..|path|-1], path[|path|-1];
            IsPath(t, init) && At(t, init).Branch? && i < |At(t, init).kids|
              && Open(Child(At(t, init), i, x), known, dirty)
  {
    var init := path[..|path|-1];
    FrozenAt(t, init, known, dirty);
    FrozenKids(At(t, init), known, dirty);
    assert Frozen(x, known, dirty);
    hide Frozen;
  }

  lemma ParentWritable(t: Tree, path: seq<nat>, x: Tree, parent: Tree, known: set<Tree>, dirty: set<nat>,
                       dirty': set<nat>)
    requires Writable(t, path, x, known, dirty) && path != [] && Open(parent, known, dirty') && dirty <= dirty'
    ensures Writable(t, path[..|path|-1], parent, known, dirty')
  {
    hide Frozen, KidsFrozen, Closed;
    FrozenMore(t, known, dirty, dirty');
    PathDirtyMore(t, path, dirty, dirty');
  }

  lemma RootEmpty(t: Tree, x: Tree, pmax: nat, txn: Txn, h: nat, known: set<Tree>)
    requires Good(t, h, None, None, pmax) && Sparse(x, h, LoAt(t, []), HiAt(t, []), pmax) && x.NumKeys() == 0
    ensures Rebalanced(None, 0, EntriesWith(t, [], InOrder(x)), pmax)
    ensures Settles(None, t, [], x, txn, txn.(free := txn.free + [x.pgno]), known)
  {
    AllEntries(t, InOrder(x));
    BranchShape(x, h);
    hide Good, Sparse;
    RootDropped(t, x, None, txn, known);
  }

  lemma RootSingle(t: Tree, x: Tree, pmax: nat, txn: Txn, h: nat, known: set<Tree>)
    requires Good(t, h, None, None, pmax) && Sparse(x, h, LoAt(t, []), HiAt(t, []), pmax)
             && Writable(t, [], x, known, txn.dirty)
    requires x.Branch? && x.NumKeys() == 1
    ensures h > 0 && Rebalanced(Some(x.kids[0]), h - 1, EntriesWith(t, [], InOrder(x)), pmax)
    ensures Settles(Some(x.kids[0]), t, [], x, txn, txn.(free := txn.free + [x.pgno]), known)
  {
    AllEntries(t, InOrder(x));
    BranchShape(x, h);
    OnlyChild(x, h, pmax);
    hide Good, Sparse, InOrder;
    OnlyPages(x);
    RootDropped(t, x, Some(x.kids[0]), txn, known);
  }

  lemma RootStays(t: Tree, x: Tree, pmax: nat, txn: Txn, h: nat, known: set<Tree>)
    requires Good(t, h, None, None, pmax) && Sparse(x, h, LoAt(t, []), HiAt(t, []), pmax)
             && Writable(t, [], x, known, txn.dirty)
    requires x.NumKeys() > 0 && (x.Branch? ==> x.NumKeys() > 1)
    ensures Rebalanced(Some(x), h, EntriesWith(t, [], InOrder(x)), pmax) && Settles(Some(x), t, [], x, txn, txn, known)
  {
    AllEntries(t, InOrder(x));
    BranchShape(x, h);
    hide Good, Sparse, InOrder, Writable;
    Settled(t, [], x, h, pmax);
    SettlesInPlace(t, [], x, txn, known);
  }

  /** The root: an empty one is dropped, a branch with a single child gives way to it. */
  method RebalanceRoot(t: Tree, x: Tree, pmax: nat, txn: Txn, h: nat, ghost known: set<Tree>) returns (r: Option<Tree>,
                       h': nat, txn': Txn)
    requires Good(t, h, None, None, pmax) && Sparse(x, h, LoAt(t, []), HiAt(t, []), pmax)
             && Writable(t, [], x, known, txn.dirty)
    ensures Rebalanced(r, h', EntriesWith(t, [], InOrder(x)), pmax) && Settles(r, t, [], x, txn, txn', known)
  {
    BranchShape(x, h);
    hide Good, Sparse, Writable, Rebalanced, Settles, EntriesWith, InOrder;
    if x.NumKeys() == 0 {
      RootEmpty(t, x, pmax, txn, h, known);
      r, h', txn' := None, 0, txn.(free := txn.free + [x.pgno]);
    } else if x.Branch? && x.NumKeys() == 1 {
      RootSingle(t, x, pmax, txn, h, known);
      r, h', txn' := Some(x.kids[0]), h - 1, txn.(free := txn.free + [x.pgno]);
    } else {
      RootStays(t, x, pmax, txn, h, known);
      r, h', txn' := Some(x), h, txn;
    }
  }

  lemma OnlyPages(x: Tree)
    requires x.Branch? && |x.kids| == 1
    ensures Pages(x) == Pages(x.kids[0]) + multiset{x.pgno}
  {
    assert x.kids == [x.kids[0]];
    PagesOne(x.kids[0]);
  }

  lemma RootDropped(t: Tree, x: Tree, r: Option<Tree>, txn: Txn, known: set<Tree>)
    requires PagesIn(r) + multiset{x.pgno} == Pages(x) && (r.Some? ==> Frozen(r.value, known, txn.dirty))
    ensures Settles(r, t, [], x, txn, txn.(free := txn.free + [x.pgno]), known)
  {
    assert At(t, []) == t;
    hide Frozen, Pages, PagesIn;
    assert PagesIn(r) + Pages(t) + multiset{x.pgno} == Pages(t) + Pages(x);
    TallyDrop(PagesIn(r) + Pages(t), Pages(t) + Pages(x), x.pgno, txn);
  }

  lemma SomeEntry(q: Tree, i: nat, last: nat, h: nat, lo: Option<real>, hi: Option<real>, pmax: nat)
    requires Pair(q, i, h, lo, hi, pmax) && (last == i || last == i + 1) && KidsOkBut(q, last, pmax)
    ensures InOrder(q.kids[i]) + InOrder(q.kids[i+1]) != []
  {
    FirstEntry(q.kids[if last == i then i + 1 else i], h - 1, pmax);
  }

  // ---- The two steps on a pair of neighbours ----

  /** Touching a page of a pair leaves it what it was but for its number. */
  method TouchKid(x: Tree, txn: Txn, pmax: nat, ghost h: nat, ghost lo: Option<real>, ghost hi: Option<real>,
                  ghost known: set<Tree>, ghost dirty: set<nat>)
    returns (x': Tree, txn': Txn)
    requires Sparse(x, h, lo, hi, pmax) && Frozen(x, known, dirty) && Closed(known) && dirty <= txn.dirty
    ensures Sparse(x', h, lo, hi, pmax) && InOrder(x') == InOrder(x) && x'.Leaf? == x.Leaf?
            && Tally(Pages(x'), Pages(x), txn, txn')
    ensures pmax > 0 ==> (Enough(x', pmax) <==> Enough(x, pmax)) && (Rich(x', pmax) <==> Rich(x, pmax))
    ensures x'.pgno in txn'.dirty && KidsFrozen(x', known, txn'.dirty) && KeysOf(x') == KeysOf(x)
  {
    hide Sparse, InOrder, Pages, Frozen, Enough, Rich, KidsFrozen;
    x', txn' := TouchPage(x, txn);
    Renumbered(x, x'.pgno, h, lo, hi, pmax);
    RenumberedFrozen(x, x'.pgno, known, dirty, txn'.dirty);
  }

  /** The right page of a pair goes into the left one: the parent loses a slot. */
  method MergeStep(q: Tree, i: nat, pmax: nat, txn: Txn, ghost last: nat, ghost h: nat, ghost lo: Option<real>,
                   ghost hi: Option<real>, ghost known: set<Tree>)
    returns (ok: bool, parent: Tree, txn': Txn)
    requires Pair(q, i, h, lo, hi, pmax) && MustMerge(q.kids[i], q.kids[i+1], pmax) && Open(q, known, txn.dirty)
    requires (last == i || last == i + 1) && KidsOkBut(q, last, pmax)
    ensures ok && Sparse(parent, h, lo, hi, pmax) && InOrder(parent) == InOrder(q)
    ensures q.Branch? && i + 1 < |q.keys| && parent.Branch? && parent.keys == Split.Remove(q.keys, i + 1)
    ensures Tally(Pages(parent), Pages(q), txn, txn') && Open(parent, known, txn'.dirty)
  {
    hide Pair, Sparse, InOrder, KidLo, KidHi, KidsOkBut, Pages, Frozen, Open, Tally, Closed, Join, Enough, Rich;
    PairShape(q, i, h, lo, hi, pmax);
    PairKids(q, i, h, lo, hi, pmax);
    SomeEntry(q, i, last, h, lo, hi, pmax);
    OpenKid(q, i, known, txn.dirty);
    var a, j;
    ghost var key;
    a, txn' := TouchKid(q.kids[i], txn, pmax, h - 1, KidLo(q, lo, i), Some(q.keys[i+1].rank), known, txn.dirty);
    ok, j, key := MergePages(a, q.kids[i+1], pmax, q.keys[i+1].rank, h - 1, KidLo(q, lo, i), KidHi(q, hi, i + 1));
    PairMerged(q, i, j, h, lo, hi, pmax);
    parent := JoinKid(q, i, j);
    MergeAccount(q, i, a, key, txn, txn', known);
    txn' := Loosened(q.kids[i+1].pgno, txn');
  }

  lemma PairMerged(q: Tree, i: nat, j: Tree, h: nat, lo: Option<real>, hi: Option<real>, pmax: nat)
    requires Pair(q, i, h, lo, hi, pmax)
    requires Good(j, h - 1, KidLo(q, lo, i), KidHi(q, hi, i + 1), pmax)
             && InOrder(j) == InOrder(q.kids[i]) + InOrder(q.kids[i+1])
    ensures var p := JoinKid(q, i, j); Sparse(p, h, lo, hi, pmax) && InOrder(p) == InOrder(q)
  {
    hide Balanced, Ordered, OthersOk, SmallNodes, Used, InOrder, Good, KidLo, KidHi;
    ParentMerged(q, i, j, h, lo, hi, pmax);
  }

  lemma OpenKid(q: Tree, i: nat, known: set<Tree>, dirty: set<nat>)
    requires Open(q, known, dirty) && q.Branch? && i < |q.kids|
    ensures Frozen(q.kids[i], known, dirty) && Closed(known)
  {
  }

  lemma PairKids(q: Tree, i: nat, h: nat, lo: Option<real>, hi: Option<real>, pmax: nat)
    requires Pair(q, i, h, lo, hi, pmax)
    ensures q.Branch? && h > 0 && WellFormed(q) && i + 1 < |q.kids|
    ensures Sparse(q.kids[i], h - 1, KidLo(q, lo, i), Some(q.keys[i+1].rank), pmax)
    ensures Sparse(q.kids[i+1], h - 1, Some(q.keys[i+1].rank), KidHi(q, hi, i + 1), pmax)
  {
  }

  lemma MergeAccount(q: Tree, i: nat, a: Tree, key: Key, txn: Txn, txn1: Txn, known: set<Tree>)
    requires q.Branch? && WellFormed(q) && i + 1 < |q.kids| && Open(q, known, txn.dirty)
    requires a.Leaf? == q.kids[i+1].Leaf? && (a.Branch? ==> |q.kids[i+1].keys| > 0)
    requires Tally(Pages(a), Pages(q.kids[i]), txn, txn1) && a.pgno in txn1.dirty && KidsFrozen(a, known, txn1.dirty)
    ensures var b := q.kids[i+1];
            var parent := JoinKid(q, i, Join(a, key, b));
            Tally(Pages(parent), Pages(q), txn, Loosened(b.pgno, txn1)) && Open(parent, known, txn1.dirty)
  {
    var b := q.kids[i+1];
    var j, txn2 := Join(a, key, b), Loosened(b.pgno, txn1);
    MergeFrozen(q, i, a, key, txn, txn1, known);
    JoinPages(a, key, b);
    JoinKidPages(q, i, j);
    hide Pages, Tally, Open, JoinKid, Join;
    TallyLoose(Pages(j), Pages(a) + Pages(b), b.pgno, txn1);
    TallyPlus(Pages(a), Pages(q.kids[i]), Pages(b), txn, txn1);
    TallyThen(Pages(q.kids[i]) + Pages(b), Pages(a) + Pages(b), Pages(j), txn, txn1, txn2);
    TallySwap(Pages(JoinKid(q, i, j)), Pages(q), Pages(j), Pages(q.kids[i]) + Pages(b), txn, txn2);
  }

  lemma MergeFrozen(q: Tree, i: nat, a: Tree, key: Key, txn: Txn, txn1: Txn, known: set<Tree>)
    requires q.Branch? && WellFormed(q) && i + 1 < |q.kids| && Open(q, known, txn.dirty)
    requires a.Leaf? == q.kids[i+1].Leaf? && (a.Branch? ==> |q.kids[i+1].keys| > 0)
    requires Tally(Pages(a), Pages(q.kids[i]), txn, txn1) && a.pgno in txn1.dirty && KidsFrozen(a, known, txn1.dirty)
    ensures Open(JoinKid(q, i, Join(a, key, q.kids[i+1])), known, txn1.dirty)
  {
    var b := q.kids[i+1];
    KidsFrozenMore(q, known, txn.dirty, txn1.dirty);
    assert Frozen(b, known, txn1.dirty);
    FrozenKids(b, known, txn1.dirty);
    JoinFrozen(a, key, b, known, txn1.dirty);
    assert Frozen(Join(a, key, b), known, txn1.dirty);
    hide Frozen, Pages, Join, KidsFrozen;
    JoinKidFrozen(q, i, Join(a, key, b), known, txn1.dirty);
  }

  /** A node goes over between the pages of a pair: the parent gets a new separator, and may be overfull by it. */
  method MovePair(q: Tree, i: nat, fromLeft: bool, pmax: nat, txn: Txn, ghost h: nat, ghost lo: Option<real>,
                  ghost hi: Option<real>, ghost known: set<Tree>)
    returns (ok: bool, parent: Tree, txn': Txn)
    requires Pair(q, i, h, lo, hi, pmax) && CanMove(q.kids[i], q.kids[i+1], fromLeft, pmax) && Open(q, known, txn.dirty)
    ensures ok && InOrder(parent) == InOrder(q) && parent.Branch? && q.Branch? && i + 1 < |q.keys| == |q.kids|
    ensures parent.keys == q.keys[i+1 := SparedKey(if fromLeft then q.kids[i] else q.kids[i+1], fromLeft)]
    ensures Used(parent) <= pmax ==> Good(parent, h, lo, hi, pmax)
    ensures Used(parent) > pmax ==> Overfull(parent, i + 1, h, lo, hi, pmax)
    ensures Tally(Pages(parent), Pages(q), txn, txn') && Open(parent, known, txn'.dirty)
  {
    hide Pair, Sparse, InOrder, KidLo, KidHi, Pages, Frozen, Open, Tally, Closed, Join, Enough, Rich, Overfull, Good,
         LeftPart, RightPart, KeysOf, Used, Balanced, Ordered, KidsFrozen;
    PairShape(q, i, h, lo, hi, pmax);
    PairKids(q, i, h, lo, hi, pmax);
    OpenKid(q, i, known, txn.dirty);
    OpenKid(q, i + 1, known, txn.dirty);
    ghost var m := q.keys[i+1].rank;
    var a, txn1 := TouchKid(q.kids[i], txn, pmax, h - 1, KidLo(q, lo, i), Some(m), known, txn.dirty);
    TallyGrows(Pages(a), Pages(q.kids[i]), txn, txn1);
    var b;
    b, txn' := TouchKid(q.kids[i+1], txn1, pmax, h - 1, Some(m), KidHi(q, hi, i + 1), known, txn.dirty);
    var l, sep, r;
    ghost var j, key;
    ok, l, sep, r, j, key := MoveNode(a, b, fromLeft, pmax, m, h - 1, KidLo(q, lo, i), KidHi(q, hi, i + 1));
    PairMoved(q, i, j, l, sep, r, h, lo, hi, pmax);
    parent := Branch(q.pgno, q.keys[i+1 := sep], q.kids[i := l][i+1 := r]);
    MoveAccount(q, i, a, b, key, NewCut(a, fromLeft), q.keys[i+1 := sep], txn, txn1, txn', known);
  }

  lemma PairMoved(q: Tree, i: nat, j: Tree, l: Tree, sep: Key, r: Tree, h: nat, lo: Option<real>, hi: Option<real>,
                  pmax: nat)
    requires Pair(q, i, h, lo, hi, pmax) && q.Branch? && i + 1 < |q.kids| && h > 0 && WellFormed(q)
    requires Balanced(j, h - 1) && Ordered(j, KidLo(q, lo, i), KidHi(q, hi, i + 1))
             && InOrder(j) == InOrder(q.kids[i]) + InOrder(q.kids[i+1])
    requires Good(l, h - 1, KidLo(q, lo, i), Some(sep.rank), pmax)
             && Good(r, h - 1, Some(sep.rank), KidHi(q, hi, i + 1), pmax)
    requires SmallKey(sep, pmax) && (KidLo(q, lo, i).Some? ==> KidLo(q, lo, i).value < sep.rank)
             && Below(sep.rank, KidHi(q, hi, i + 1))
    requires InOrder(l) + InOrder(r) == InOrder(j)
    ensures var p := Branch(q.pgno, q.keys[i+1 := sep], q.kids[i := l][i+1 := r]);
            && (Used(p) <= pmax ==> Good(p, h, lo, hi, pmax))
            && (Used(p) > pmax ==> Overfull(p, i + 1, h, lo, hi, pmax))
            && InOrder(p) == InOrder(q)
  {
    hide Balanced, Ordered, OthersOk, SmallNodes, Used, InOrder, Good, KidLo, KidHi, Overfull, SmallKey;
    ParentMoved(q, i, j, l, sep, r, h, lo, hi, pmax);
  }

  lemma MoveAccount(q: Tree, i: nat, a: Tree, b: Tree, key: Key, c: nat, keys: seq<Key>, txn: Txn, txn1: Txn, txn2: Txn,
                    known: set<Tree>)
    requires q.Branch? && i + 1 < |q.kids| && Open(q, known, txn.dirty)
    requires a.Leaf? == b.Leaf? && (b.Branch? ==> |b.keys| > 0) && WellFormed(Join(a, key, b))
             && c <= Join(a, key, b).NumKeys()
    requires Tally(Pages(a), Pages(q.kids[i]), txn, txn1) && a.pgno in txn1.dirty && KidsFrozen(a, known, txn1.dirty)
    requires Tally(Pages(b), Pages(q.kids[i+1]), txn1, txn2) && b.pgno in txn2.dirty && KidsFrozen(b, known, txn2.dirty)
    ensures var j := Join(a, key, b);
            var parent := Branch(q.pgno, keys, q.kids[i := LeftPart(j, c)][i+1 := RightPart(j, c, b.pgno)]);
            Tally(Pages(parent), Pages(q), txn, txn2) && Open(parent, known, txn2.dirty)
  {
    var j := Join(a, key, b);
    var l, r := LeftPart(j, c), RightPart(j, c, b.pgno);
    var parent := Branch(q.pgno, keys, q.kids[i := l][i+1 := r]);
    MoveFrozen(q, i, a, b, key, c, keys, txn.dirty, txn1.dirty, txn2.dirty, known);
    JoinPages(a, key, b);
    CutPages(j, c, b.pgno);
    MovedPages(q, i, keys, l, r);
    hide Pages, Tally, Open, Join, LeftPart, RightPart, KidsFrozen;
    TallyBoth(Pages(a), Pages(q.kids[i]), Pages(b), Pages(q.kids[i+1]), txn, txn1, txn2);
    TallySwap(Pages(parent), Pages(q), Pages(a) + Pages(b), Pages(q.kids[i]) + Pages(q.kids[i+1]), txn, txn2);
  }

  lemma MoveFrozen(q: Tree, i: nat, a: Tree, b: Tree, key: Key, c: nat, keys: seq<Key>, d: set<nat>, d1: set<nat>,
                   d2: set<nat>, known: set<Tree>)
    requires q.Branch? && i + 1 < |q.kids| && Open(q, known, d) && d <= d1 <= d2
    requires a.Leaf? == b.Leaf? && (b.Branch? ==> |b.keys| > 0) && WellFormed(Join(a, key, b))
             && c <= Join(a, key, b).NumKeys()
    requires a.pgno in d1 && KidsFrozen(a, known, d1) && b.pgno in d2 && KidsFrozen(b, known, d2)
    ensures var j := Join(a, key, b);
            Open(Branch(q.pgno, keys, q.kids[i := LeftPart(j, c)][i+1 := RightPart(j, c, b.pgno)]), known, d2)
  {
    KidsFrozenMore(q, known, d, d2);
    KidsFrozenMore(a, known, d1, d2);
    JoinFrozen(a, key, b, known, d2);
    CutFrozen(Join(a, key, b), c, b.pgno, known, d2);
    hide Frozen, LeftPart, RightPart, Join;
  }

  /** A move and its consequences: the parent is split if its new separator does not fit (mdb_update_key). */
  method MoveStep(t: Tree, init: seq<nat>, q: Tree, i: nat, fromLeft: bool, pmax: nat, txn: Txn, h: nat,
                  ghost known: set<Tree>, ghost path: seq<nat>, ghost x: Tree)
    returns (ok: bool, r: Tree, h': nat, txn': Txn)
    requires Good(t, h, None, None, pmax) && IsPath(t, init) && |init| < h && path != [] && init == path[..|path|-1]
    requires Pair(q, i, h - |init|, LoAt(t, init), HiAt(t, init), pmax)
             && CanMove(q.kids[i], q.kids[i+1], fromLeft, pmax)
    requires IsPath(t, path) && Writable(t, path, x, known, txn.dirty) && Open(q, known, txn.dirty)
    requires At(t, init).Branch? && path[|path|-1] < |At(t, init).kids| && q == Child(At(t, init), path[|path|-1], x)
    ensures ok ==> Good(r, h', None, None, pmax) && InOrder(r) == EntriesWith(t, init, InOrder(q))
    ensures ok ==> Settles(Some(r), t, path, x, txn, txn', known)
    ensures q.Branch? && i + 1 < |q.keys| == |q.kids|
    ensures ok <==>
            TakesInstead(t, init, q.keys, i + 1, SparedKey(if fromLeft then q.kids[i] else q.kids[i+1], fromLeft), pmax)
  {
    hide Balanced, Ordered, InOrder, AllOk, CanMove, Used, EntriesWith, LoAt, HiAt, Replace, Overfull, IsPath, At, Pair,
         Open, Frozen, Pages, Writable, Settles, Accounted, Child, Tally, TakesInstead, CanSplit, KeysOf, Sizes,
         SparedKey;
    var parent, txn1;
    ok, parent, txn1 := MovePair(q, i, fromLeft, pmax, txn, h - |init|, LoAt(t, init), HiAt(t, init), known);
    InsteadStep(t, init, q.keys, i + 1, SparedKey(if fromLeft then q.kids[i] else q.kids[i+1], fromLeft), parent, pmax);
    TallyGrows(Pages(parent), Pages(q), txn, txn1);
    ParentWritable(t, path, x, parent, known, txn.dirty, txn1.dirty);
    r, h', txn' := t, h, txn1;
    if Used(parent) <= pmax {
      ReplaceGood(t, init, parent, h, pmax);
      r := Replace(t, init, parent);
      SettlesInPlace(t, init, parent, txn1, known);
    } else {
      ok, r, h', txn' := SplitUp(t, init, parent, i + 1, false, pmax, txn1, h, known);
      if ok { SettlesSplit(r, t, init, parent, txn1, txn', known); }
    }
    if ok { SettlesUp(Some(r), t, path, x, q, parent, txn, txn1, txn', known); }
  }

  /** The neighbour of a page with too little, both as children of one parent with the rest of it good. */
  lemma NeighbourPair(p: Tree, last: nat, x: Tree, i: nat, h: nat, lo: Option<real>, hi: Option<real>, pmax: nat)
    requires p.Branch? && WellFormed(p) && last < |p.kids| && Good(p, h, lo, hi, pmax) && h > 0
    requires Sparse(x, h - 1, KidLo(p, lo, last), KidHi(p, hi, last), pmax) && i == if last == 0 then 0 else last - 1
    ensures var q := Child(p, last, x);
            && Pair(q, i, h, lo, hi, pmax) && KidsOkBut(q, last, pmax)
            && InOrder(q) == InOrders(p.kids[..last]) + InOrder(x) + InOrders(p.kids[last+1..])
  {
    hide Balanced, Ordered, Sparse, InOrder, InOrders, AllOk, Used, KidLo, KidHi, SmallNodes, Pair, KidsOkBut, Child;
    ChildExchanged(p, last, x, h, lo, hi, pmax);
    ChildAt(p, last, x);
    SameBounds(p, last, x, lo, hi, last);
    PairFound(Child(p, last, x), last, i, h, lo, hi, pmax);
  }

  lemma SameBounds(p: Tree, i: nat, x: Tree, lo: Option<real>, hi: Option<real>, j: nat)
    requires p.Branch? && WellFormed(p) && i < |p.kids| && j < |p.kids|
    ensures KidLo(Child(p, i, x), lo, j) == KidLo(p, lo, j) && KidHi(Child(p, i, x), hi, j) == KidHi(p, hi, j)
  {
  }

  /**
   * x stands at path and may hold too little.  A node is moved to it, or it is merged with a neighbour and
   * its parent rebalanced in turn.  The entries of the tree are those with x in its place.  It
   * succeeds exactly if the separator of a move can be taken.
   */
  method Rebalance(t: Tree, path: seq<nat>, x: Tree, pmax: nat, txn: Txn, h: nat, ghost known: set<Tree>)
    returns (ok: bool, r: Option<Tree>, h': nat, txn': Txn)
    requires pmax > 0 && Good(t, h, None, None, pmax) && IsPath(t, path) && |path| <= h
    requires Sparse(x, h - |path|, LoAt(t, path), HiAt(t, path), pmax) && Writable(t, path, x, known, txn.dirty)
    ensures ok ==> Rebalanced(r, h', EntriesWith(t, path, InOrder(x)), pmax) && Settles(r, t, path, x, txn, txn', known)
    ensures ok <==> CanSettle(t, path, x.Leaf?, Sizes(x), pmax)
    ensures x.Leaf? && x.nodes != [] && 4 * Used(x) >= pmax ==> ok && r == Some(Replace(t, path, x)) && txn' == txn
    decreases |path|
  {
    hide Balanced, Ordered, KidsOk, InOrder, InOrders, AllOk, Used, KidLo, KidHi, SmallNodes, EntriesWith, LoAt, HiAt,
         IsPath, At, Replace, PageFits, Fill, KidsOkBut, OthersOk, Settles, Writable, Open, Pair, Child, Pages, Tally,
         CanSettle, SettlesAbove, TakesInstead, SparedKey, Sizes, Rich, Split.Remove;
    ok, r, h', txn' := true, None, h, txn;
    SparseShape(x, h - |path|, LoAt(t, path), HiAt(t, path), pmax);
    EnoughStep(t, path, x, pmax);
    if x.Leaf? && x.nodes != [] { QuarterFull(x, pmax); }
    if Enough(x, pmax) {
      Settled(t, path, x, h, pmax);
      SettlesInPlace(t, path, x, txn, known);
      r := Some(Replace(t, path, x));
    } else if path == [] {
      r, h', txn' := RebalanceRoot(t, x, pmax, txn, h, known);
    } else {
      var init, last := path[..|path|-1], path[|path|-1];
      var fromLeft := last > 0;
      var i := if fromLeft then last - 1 else 0;
      ParentOf(t, path, h, pmax);
      NeighbourPair(At(t, init), last, x, i, h - |init|, LoAt(t, init), HiAt(t, init), pmax);
      EntriesUp(t, path, InOrder(x), h);
      ChildOpen(t, path, x, known, txn.dirty);
      var q := Child(At(t, init), last, x);
      PairShape(q, i, h - |init|, LoAt(t, init), HiAt(t, init), pmax);
      ChildAt(At(t, init), last, x);
      AboveStep(t, path, x, pmax);
      if Rich(if fromLeft then q.kids[i] else q.kids[i+1], pmax) {
        var tree;
        ok, tree, h', txn' := MoveStep(t, init, q, i, fromLeft, pmax, txn, h, known, path, x);
        r := Some(tree);
      } else {
        var parent, txn1;
        ok, parent, txn1 := MergeStep(q, i, pmax, txn, last, h - |init|, LoAt(t, init), HiAt(t, init), known);
        TallyGrows(Pages(parent), Pages(q), txn, txn1);
        ParentWritable(t, path, x, parent, known, txn.dirty, txn1.dirty);
        BranchSizesOf(parent);
        ok, r, h', txn' := Rebalance(t, init, parent, pmax, txn1, h, known);
        if ok { SettlesUp(r, t, path, x, q, parent, txn, txn1, txn', known); }
      }
    }
  }

  lemma SparseShape(x: Tree, h: nat, lo: Option<real>, hi: Option<real>, pmax: nat)
    requires Sparse(x, h, lo, hi, pmax)
    ensures WellFormed(x)
  {
  }

  lemma BranchSizesOf(x: Tree)
    ensures x.Branch? ==> Sizes(x) == BranchSizes(x.keys)
  {
  }

  lemma ChildAt(p: Tree, i: nat, x: Tree)
    requires p.Branch? && i < |p.kids|
    ensures Child(p, i, x).Branch? && |Child(p, i, x).kids| == |p.kids| && Child(p, i, x).kids[i] == x
  {
  }
}
