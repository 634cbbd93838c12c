/** Cutting a page in two, joining two pages, and what either does to the parent. */
module Reshape {
  import opened Common
  import opened Tree
  import opened Paths
  import opened Search
  import opened Update
  import opened BTree
  import Split

  /** A page of the right height and order with good children; it may hold too much or too little. */
  ghost predicate Shaped(x: Tree, h: nat, lo: Option<real>, hi: Option<real>, pmax: nat) {
    Balanced(x, h) && Ordered(x, lo, hi) && KidsOk(x, pmax) && SmallNodes(x, pmax)
  }

  ghost predicate WellFormed(x: Tree) { x.Branch? ==> |x.keys| == |x.kids| }

  lemma BranchShape(p: Tree, h: nat)
    requires Balanced(p, h)
    ensures WellFormed(p) && (p.Branch? ==> h > 0 && |p.kids| > 0) && (p.Leaf? ==> h == 0)
  {
  }

  // ---- Cutting ----

  function SepKey(x: Tree, i: nat): Key
    requires WellFormed(x) && i < x.NumKeys()
  {
    match x
    case Leaf(_, nodes) => nodes[i].key
    case Branch(_, keys, _) => keys[i]
  }

  function LeftPart(x: Tree, i: nat): Tree
    requires WellFormed(x) && i <= x.NumKeys()
  {
    match x
    case Leaf(pgno, nodes) => Leaf(pgno, nodes[..i])
    case Branch(pgno, keys, kids) => Branch(pgno, keys[..i], kids[..i])
  }

  function RightPart(x: Tree, i: nat, pgno: nat): Tree
    requires WellFormed(x) && i <= x.NumKeys()
  {
    match x
    case Leaf(_, nodes) => Leaf(pgno, nodes[i..])
    case Branch(_, keys, kids) => Branch(pgno, keys[i..], kids[i..])
  }

  lemma CutInOrder(x: Tree, i: nat, pgno: nat)
    requires WellFormed(x) && i <= x.NumKeys()
    ensures InOrder(x) == InOrder(LeftPart(x, i)) + InOrder(RightPart(x, i, pgno))
  {
    if x.Branch? {
      InOrdersConcat(x.kids[..i], x.kids[i..]);
      assert x.kids == x.kids[..i] + x.kids[i..];
    }
  }

  lemma CutLeafShaped(x: Tree, i: nat, pgno: nat, h: nat, lo: Option<real>, hi: Option<real>, pmax: nat)
    requires Shaped(x, h, lo, hi, pmax) && x.Leaf? && 0 < i < |x.nodes|
    ensures var s := SepKey(x, i);
            && Shaped(LeftPart(x, i), h, lo, Some(s.rank), pmax)
                 && Shaped(RightPart(x, i, pgno), h, Some(s.rank), hi, pmax)
            && SmallKey(s, pmax) && (lo.Some? ==> lo.value < s.rank) && Below(s.rank, hi)
  {
    assert x.nodes[0].key.rank < x.nodes[i].key.rank;
    assert SmallNode(x.nodes[i], pmax);
    hide SmallNode, SmallKey;
  }

  lemma CutBranchOrdered(x: Tree, i: nat, pgno: nat, lo: Option<real>, hi: Option<real>)
    requires x.Branch? && Ordered(x, lo, hi) && 2 <= i < |x.kids|
    ensures var s := x.keys[i];
            && Ordered(LeftPart(x, i), lo, Some(s.rank)) && Ordered(RightPart(x, i, pgno), Some(s.rank), hi)
            && (lo.Some? ==> lo.value < s.rank) && Below(s.rank, hi)
  {
    var s, l, r := x.keys[i], LeftPart(x, i), RightPart(x, i, pgno);
    assert x.keys[1].rank < s.rank && Above(lo, x.keys[1].rank);
    forall j | 0 <= j < |l.kids| ensures Ordered(l.kids[j], KidLo(l, lo, j), KidHi(l, Some(s.rank), j)) {
      assert KidLo(l, lo, j) == KidLo(x, lo, j) && KidHi(l, Some(s.rank), j) == KidHi(x, hi, j);
    }
    forall j | 0 <= j < |r.kids| ensures Ordered(r.kids[j], KidLo(r, Some(s.rank), j), KidHi(r, hi, j)) {
      assert KidLo(r, Some(s.rank), j) == KidLo(x, lo, i + j) && KidHi(r, hi, j) == KidHi(x, hi, i + j);
    }
  }

  lemma CutShaped(x: Tree, i: nat, pgno: nat, h: nat, lo: Option<real>, hi: Option<real>, pmax: nat)
    requires Shaped(x, h, lo, hi, pmax) && WellFormed(x) && 0 < i < x.NumKeys() && (x.Branch? ==> i >= 2)
    ensures var s := SepKey(x, i);
            && Shaped(LeftPart(x, i), h, lo, Some(s.rank), pmax)
                 && Shaped(RightPart(x, i, pgno), h, Some(s.rank), hi, pmax)
            && SmallKey(s, pmax) && (lo.Some? ==> lo.value < s.rank) && Below(s.rank, hi)
  {
    if x.Leaf? {
      CutLeafShaped(x, i, pgno, h, lo, hi, pmax);
    } else {
      CutBranchOrdered(x, i, pgno, lo, hi);
      hide Ordered, SmallKey;
    }
  }

  lemma LeftUsed(x: Tree, i: nat)
    requires WellFormed(x) && i <= x.NumKeys()
    ensures Used(LeftPart(x, i)) == Split.Sum(Sizes(x)[..i])
  {
    assert Sizes(LeftPart(x, i)) == Sizes(x)[..i];
  }

  lemma RightUsed(x: Tree, i: nat, pgno: nat)
    requires WellFormed(x) && i < x.NumKeys()
    ensures Used(RightPart(x, i, pgno)) == Split.RightSize(Sizes(x)[i..], x.Leaf?)
  {
    var r := RightPart(x, i, pgno);
    if x.Leaf? {
      assert Sizes(r) == Sizes(x)[i..];
    } else {
      assert Sizes(r) == [Split.NULL_NODE] + Sizes(x)[i..][1..];
      Split.SumConcat([Split.NULL_NODE], Sizes(x)[i..][1..]);
      assert [Split.NULL_NODE][..0] == [];
    }
  }

  // ---- The parent of a page that was cut ----

  /** The child in slot i gives way to l and r with separator sep between them. */
  function InsertKid(p: Tree, i: nat, l: Tree, sep: Key, r: Tree): Tree
    requires p.Branch? && WellFormed(p) && i < |p.kids|
  {
    Branch(p.pgno, p.keys[..i+1] + [sep] + p.keys[i+1..], p.kids[..i] + [l, r] + p.kids[i+1..])
  }

  ghost predicate KidsOkBut(p: Tree, i: nat, pmax: nat) {
    p.Branch? && forall j :: 0 <= j < |p.kids| && j != i ==> AllOk(p.kids[j], pmax)
  }

  lemma InsertKidBalanced(p: Tree, i: nat, l: Tree, sep: Key, r: Tree, h: nat)
    requires p.Branch? && Balanced(p, h) && i < |p.kids| && Balanced(l, h - 1) && Balanced(r, h - 1)
    ensures Balanced(InsertKid(p, i, l, sep, r), h)
  {
    var q := InsertKid(p, i, l, sep, r);
    forall j | 0 <= j < |q.kids| ensures Balanced(q.kids[j], h - 1) {
      if j > i + 1 { assert q.kids[j] == p.kids[j-1]; }
    }
  }

  lemma InsertKidOk(p: Tree, i: nat, l: Tree, sep: Key, r: Tree, pmax: nat)
    requires p.Branch? && WellFormed(p) && i < |p.kids| && KidsOkBut(p, i, pmax) && AllOk(l, pmax) && AllOk(r, pmax)
    ensures KidsOk(InsertKid(p, i, l, sep, r), pmax)
  {
    var q := InsertKid(p, i, l, sep, r);
    forall j | 0 <= j < |q.kids| ensures AllOk(q.kids[j], pmax) {
      hide AllOk;
      if j > i + 1 { assert q.kids[j] == p.kids[j-1]; }
    }
    hide AllOk;
  }

  lemma InsertKidSizes(p: Tree, i: nat, l: Tree, sep: Key, r: Tree, pmax: nat)
    requires p.Branch? && WellFormed(p) && i < |p.kids| && SmallNodes(p, pmax) && SmallKey(sep, pmax)
    ensures var q := InsertKid(p, i, l, sep, r);
            SmallNodes(q, pmax) && Sizes(q) == Split.Insert(Sizes(p), i + 1, KeyBytes(sep))
  {
    hide SmallKey, KeyBytes;
  }

  lemma InsertKidBounds(p: Tree, i: nat, l: Tree, sep: Key, r: Tree, lo: Option<real>, hi: Option<real>, j: nat)
    requires p.Branch? && WellFormed(p) && i < |p.kids| && j <= |p.kids|
    ensures var q := InsertKid(p, i, l, sep, r);
            && (j < i ==>
                   q.kids[j] == p.kids[j] && KidLo(q, lo, j) == KidLo(p, lo, j) && KidHi(q, hi, j) == KidHi(p, hi, j))
            && (j == i ==> q.kids[j] == l && KidLo(q, lo, j) == KidLo(p, lo, j) && KidHi(q, hi, j) == Some(sep.rank))
            && (j == i + 1 ==>
                   q.kids[j] == r && KidLo(q, lo, j) == Some(sep.rank) && KidHi(q, hi, j) == KidHi(p, hi, i))
            && (j > i + 1 ==>
                   q.kids[j] == p.kids[j-1] && KidLo(q, lo, j) == KidLo(p, lo, j - 1)
                   && KidHi(q, hi, j) == KidHi(p, hi, j - 1))
  {
  }

  lemma InsertKidOrdered(p: Tree, i: nat, l: Tree, sep: Key, r: Tree, lo: Option<real>, hi: Option<real>)
    requires p.Branch? && Ordered(p, lo, hi) && i < |p.kids|
    requires Ordered(l, KidLo(p, lo, i), Some(sep.rank)) && Ordered(r, Some(sep.rank), KidHi(p, hi, i))
    requires KidLo(p, lo, i).Some? ==> KidLo(p, lo, i).value < sep.rank
    requires Below(sep.rank, KidHi(p, hi, i))
    ensures Ordered(InsertKid(p, i, l, sep, r), lo, hi)
  {
    var q := InsertKid(p, i, l, sep, r);
    KeysInserted(p, i, sep, q.keys, lo, hi);
    forall j | 0 <= j < |q.kids| ensures Ordered(q.kids[j], KidLo(q, lo, j), KidHi(q, hi, j)) {
      InsertKidBounds(p, i, l, sep, r, lo, hi, j);
      hide InsertKid, KidLo, KidHi;
    }
    InsertedCount(p, i, l, sep, r);
    hide KidLo, KidHi, Above, Below, InsertKid;
  }

  lemma InsertedCount(p: Tree, i: nat, l: Tree, sep: Key, r: Tree)
    requires p.Branch? && WellFormed(p) && i < |p.kids|
    ensures var q := InsertKid(p, i, l, sep, r); q.Branch? && |q.keys| == |q.kids| == |p.kids| + 1
  {
  }

  lemma KeysInserted(p: Tree, i: nat, sep: Key, keys: seq<Key>, lo: Option<real>, hi: Option<real>)
    requires p.Branch? && Ordered(p, lo, hi) && i < |p.kids| && keys == p.keys[..i+1] + [sep] + p.keys[i+1..]
    requires KidLo(p, lo, i).Some? ==> KidLo(p, lo, i).value < sep.rank
    requires Below(sep.rank, KidHi(p, hi, i))
    ensures forall j, k :: 1 <= j < k < |keys| ==> keys[j].rank < keys[k].rank
    ensures forall j :: 1 <= j < |keys| ==> Above(lo, keys[j].rank) && Below(keys[j].rank, hi)
  {
    SepAmongKeys(p, i, sep, lo, hi);
    KeysAt(p.keys, i, sep, keys);
    hide Ordered, KidLo, KidHi;
    forall j, k | 1 <= j < k < |keys| ensures keys[j].rank < keys[k].rank {
      if j <= i && k > i + 1 {
        assert p.keys[j].rank < p.keys[k-1].rank;
      } else if j > i + 1 {
        assert p.keys[j-1].rank < p.keys[k-1].rank;
      }
    }
  }

  lemma KeysAt(s: seq<Key>, i: nat, sep: Key, keys: seq<Key>)
    requires i < |s| && keys == s[..i+1] + [sep] + s[i+1..]
    ensures |keys| == |s| + 1 && keys[i+1] == sep
    ensures forall j :: 0 <= j <= i ==> keys[j] == s[j]
    ensures forall j :: i + 1 < j < |keys| ==> keys[j] == s[j-1]
  {
  }

  /** What Ordered says of the keys of a page, and where a separator within a child's bounds goes. */
  lemma SepAmongKeys(p: Tree, i: nat, sep: Key, lo: Option<real>, hi: Option<real>)
    requires p.Branch? && Ordered(p, lo, hi) && i < |p.kids|
    requires KidLo(p, lo, i).Some? ==> KidLo(p, lo, i).value < sep.rank
    requires Below(sep.rank, KidHi(p, hi, i))
    ensures |p.keys| == |p.kids| && Above(lo, sep.rank) && Below(sep.rank, hi)
    ensures forall j, k :: 1 <= j < k < |p.keys| ==> p.keys[j].rank < p.keys[k].rank
    ensures forall j :: 1 <= j < |p.keys| ==> Above(lo, p.keys[j].rank) && Below(p.keys[j].rank, hi)
    ensures forall j :: 1 <= j <= i ==> p.keys[j].rank < sep.rank
    ensures forall j :: i < j < |p.keys| ==> sep.rank < p.keys[j].rank
  {
    assert i > 0 ==> Above(lo, p.keys[i].rank);
    assert i + 1 < |p.keys| ==> Below(p.keys[i+1].rank, hi);
  }

  lemma InsertKidInOrder(p: Tree, i: nat, l: Tree, sep: Key, r: Tree)
    requires p.Branch? && WellFormed(p) && i < |p.kids|
    ensures InOrder(InsertKid(p, i, l, sep, r))
            == InOrders(p.kids[..i]) + (InOrder(l) + InOrder(r)) + InOrders(p.kids[i+1..])
  {
    var q := InsertKid(p, i, l, sep, r);
    assert InOrder(q) == InOrders(q.kids);
    hide InOrder, InOrders;
    assert q.kids == p.kids[..i] + ([l] + [r]) + p.kids[i+1..];
    InOrdersConcat(p.kids[..i] + ([l] + [r]), p.kids[i+1..]);
    InOrdersConcat(p.kids[..i], [l] + [r]);
    InOrdersConcat([l], [r]);
    InOrdersOne(l);
    InOrdersOne(r);
  }

  /** Entries around a page are those around its parent and those of its siblings. */
  lemma EntriesUp(t: Tree, path: seq<nat>, mid: seq<Node>, h: nat)
    requires IsPath(t, path) && path != [] && Balanced(t, h)
    ensures var init, i := path[..|path|-1], path[|path|-1];
            var kids := At(t, init).kids;
            EntriesWith(t, path, mid) == EntriesWith(t, init, InOrders(kids[..i]) + mid + InOrders(kids[i+1..]))
  {
    hide InOrders, InOrder, KidsOf, AllBalanced, Balanced, Left, Right, IsPath, At;
    var init, i := path[..|path|-1], path[|path|-1];
    ParentPage(t, path);
    PathParts(t, path);
    PathBalanced(t, init, h);
    BranchHeight(At(t, init), h - |init|);
    var l, r, kids := Left(t, init), Right(t, init), At(t, init).kids;
    KidsBalanced(l, h - |init|);
    KidsBalanced(r, h - |init|);
    InOrdersConcat(KidsOf(l), kids[..i]);
    InOrdersConcat(kids[i+1..], KidsOf(r));
    Regroup(InOrders(l), InOrders(kids[..i]), mid, InOrders(kids[i+1..]), InOrders(r));
  }

  lemma BranchHeight(t: Tree, h: nat)
    requires Balanced(t, h) && t.Branch?
    ensures h > 0
  {
  }

  lemma Regroup(a: seq<Node>, b: seq<Node>, mid: seq<Node>, c: seq<Node>, d: seq<Node>)
    ensures (a + b) + mid + (c + d) == a + (b + mid + c) + d
  {
  }
}
