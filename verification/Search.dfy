/** Which page a key belongs to, and where its lower bound lies among all entries. */
module Search {
  import opened Common
  import opened Tree
  import opened Paths

  /** The child to follow: the last one whose separator is not above the key; slot 0 has none. */
  ghost predicate IsChoice(page: Tree, key: real, i: nat) {
    && page.Branch? && i < |page.kids| == |page.keys|
    && (i > 0 ==> page.keys[i].rank <= key)
    && (i + 1 < |page.keys| ==> key < page.keys[i+1].rank)
  }

  ghost predicate Routed(t: Tree, path: seq<nat>, key: real)
    decreases |path|
  {
    IsPath(t, path) &&
    (path == [] ||
     var init := path[..|path|-1];
     Routed(t, init, key) && IsChoice(At(t, init), key, path[|path|-1]))
  }

  lemma ChoiceUnique(page: Tree, lo: Option<real>, hi: Option<real>, key: real, i: nat, j: nat)
    requires Ordered(page, lo, hi) && IsChoice(page, key, i) && IsChoice(page, key, j)
    ensures i == j
  {
  }

  lemma {:induction false} RoutedUnique(t: Tree, p: seq<nat>, q: seq<nat>, key: real)
    requires Ordered(t, None, None) && Routed(t, p, key) && Routed(t, q, key) && |p| == |q|
    ensures p == q
    decreases |p|
  {
    if p != [] {
      var n := |p| - 1;
      RoutedUnique(t, p[..n], q[..n], key);
      OrderedAt(t, p[..n]);
      ChoiceUnique(At(t, p[..n]), LoAt(t, p[..n]), HiAt(t, p[..n]), key, p[n], q[n]);
      assert p == p[..n] + [p[n]] && q == q[..n] + [q[n]];
    }
  }

  /** The bounds that the separators above a page put on its keys. */
  ghost function LoAt(t: Tree, path: seq<nat>): Option<real>
    requires IsPath(t, path)
    decreases |path|
  {
    if path == [] then None
    else
      var init, last := path[..|path|-1], path[|path|-1];
      if last < |At(t, init).keys| then KidLo(At(t, init), LoAt(t, init), last) else None
  }

  ghost function HiAt(t: Tree, path: seq<nat>): Option<real>
    requires IsPath(t, path)
    decreases |path|
  {
    if path == [] then None
    else
      var init, last := path[..|path|-1], path[|path|-1];
      if last < |At(t, init).keys| then KidHi(At(t, init), HiAt(t, init), last) else None
  }

  lemma {:induction false} OrderedAt(t: Tree, path: seq<nat>)
    requires Ordered(t, None, None) && IsPath(t, path)
    ensures Ordered(At(t, path), LoAt(t, path), HiAt(t, path))
    decreases |path|
  {
    if path != [] {
      OrderedAt(t, path[..|path|-1]);
    }
  }

  /** A search for a key ends on a page if and only if the key lies within the page's bounds. */
  lemma {:induction false} RoutedWithin(t: Tree, path: seq<nat>, key: real)
    requires Ordered(t, None, None) && IsPath(t, path)
    ensures Routed(t, path, key) <==> Above(LoAt(t, path), key) && Below(key, HiAt(t, path))
    decreases |path|
  {
    if path != [] {
      var init := path[..|path|-1];
      RoutedWithin(t, init, key);
      OrderedAt(t, init);
      WithinKid(At(t, init), LoAt(t, init), HiAt(t, init), path[|path|-1], key);
    }
  }

  lemma WithinKid(page: Tree, lo: Option<real>, hi: Option<real>, i: nat, key: real)
    requires page.Branch? && Ordered(page, lo, hi) && i < |page.kids|
    ensures Above(KidLo(page, lo, i), key) && Below(key, KidHi(page, hi, i)) <==>
            Above(lo, key) && Below(key, hi) && IsChoice(page, key, i)
  {
  }

  /** A path that is rightmost on every level has no upper bound. */
  ghost predicate Rightmost(t: Tree, path: seq<nat>)
    decreases |path|
  {
    IsPath(t, path) &&
    (path == [] ||
     var init := path[..|path|-1];
     Rightmost(t, init) && path[|path|-1] + 1 == |At(t, init).kids|)
  }

  lemma {:induction false} RightmostUnbounded(t: Tree, path: seq<nat>)
    requires Ordered(t, None, None) && Rightmost(t, path)
    ensures HiAt(t, path) == None && Right(t, path) == [] && Neighbour(t, path, true) == None
    decreases |path|
  {
    if path != [] {
      var init := path[..|path|-1];
      RightmostUnbounded(t, init);
      OrderedAt(t, init);
      assert KidsOf([]) == [];
    }
  }

  ghost predicate Leftmost(t: Tree, path: seq<nat>)
    decreases |path|
  {
    IsPath(t, path) && (path == [] || (Leftmost(t, path[..|path|-1]) && path[|path|-1] == 0))
  }

  lemma {:induction false} LeftmostFirst(t: Tree, path: seq<nat>)
    requires Leftmost(t, path)
    ensures Left(t, path) == []
    decreases |path|
  {
    if path != [] {
      LeftmostFirst(t, path[..|path|-1]);
      assert KidsOf([]) == [];
    }
  }

  // ---- All entries are sorted, and a routed path splits them at the key ----

  lemma {:induction false} KidsSorted(t: Tree, lo: Option<real>, hi: Option<real>, i: nat)
    requires t.Branch? && Ordered(t, lo, hi) && i <= |t.kids|
    ensures Sorted(InOrders(t.kids[i..]))
    ensures i < |t.kids| ==> Within(InOrders(t.kids[i..]), KidLo(t, lo, i), hi)
    ensures i == |t.kids| ==> InOrders(t.kids[i..]) == []
    decreases t, |t.kids| - i
  {
    if i < |t.kids| {
      EntriesSorted(t.kids[i], KidLo(t, lo, i), KidHi(t, hi, i));
      KidsSorted(t, lo, hi, i + 1);
      assert t.kids[i..] == [t.kids[i]] + t.kids[i+1..];
      assert t.kids[i..][1..] == t.kids[i+1..];
    }
  }

  lemma {:induction false} EntriesSorted(t: Tree, lo: Option<real>, hi: Option<real>)
    requires Ordered(t, lo, hi)
    ensures Sorted(InOrder(t)) && Within(InOrder(t), lo, hi)
    decreases t
  {
    if t.Branch? {
      KidsSorted(t, lo, hi, 0);
      assert t.kids[0..] == t.kids;
    }
  }

  ghost predicate IsLowerBound(s: seq<Node>, key: real, i: nat) {
    && i <= |s|
    && (forall j :: 0 <= j < i ==> s[j].key.rank < key)
    && (forall j :: i <= j < |s| ==> key <= s[j].key.rank)
  }

  lemma LowerBoundUnique(s: seq<Node>, key: real, i: nat, j: nat)
    requires IsLowerBound(s, key, i) && IsLowerBound(s, key, j)
    ensures i == j
  {
    var k := if i < j then i else j;
    var x := if k < |s| then s[k].key.rank else key;
  }

  lemma {:induction false} KidsBelow(t: Tree, lo: Option<real>, hi: Option<real>, i: nat, x: real)
    requires t.Branch? && Ordered(t, lo, hi) && i < |t.kids| && (i > 0 ==> t.keys[i].rank <= x)
    ensures Within(InOrders(t.kids[..i]), None, Some(x))
    decreases i
  {
    if i > 0 {
      KidsBelow(t, lo, hi, i - 1, x);
      assert t.kids[..i] == t.kids[..i-1] + [t.kids[i-1]];
      InOrdersConcat(t.kids[..i-1], [t.kids[i-1]]);
      InOrdersOne(t.kids[i-1]);
      EntriesSorted(t.kids[i-1], KidLo(t, lo, i - 1), KidHi(t, hi, i - 1));
    }
  }

  ghost predicate Beyond(s: seq<Node>, key: real) {
    forall j :: 0 <= j < |s| ==> key < s[j].key.rank
  }

  /** Entries left of a routed page are below the key, entries right of it above. */
  lemma {:induction false} RoutedSplits(t: Tree, path: seq<nat>, key: real, h: nat)
    requires Ordered(t, None, None) && Balanced(t, h) && Routed(t, path, key)
    ensures Within(InOrders(Left(t, path)), None, Some(key))
    ensures Beyond(InOrders(Right(t, path)), key)
    decreases |path|
  {
    if path == [] {
      assert Left(t, path) == [] && Right(t, path) == [];
    } else {
      hide InOrders, Balanced, Ordered, KidsOf, Within, Beyond, AllBalanced;
      var init, last := path[..|path|-1], path[|path|-1];
      var page := At(t, init);
      RoutedSplits(t, init, key, h);
      OrderedAt(t, init);
      PathBalanced(t, init, h);
      RoutedKid(page, Left(t, init), Right(t, init), LoAt(t, init), HiAt(t, init), h - |init|, last, key);
    }
  }

  lemma RoutedKid(page: Tree, l: seq<Tree>, r: seq<Tree>, lo: Option<real>, hi: Option<real>, h: nat, i: nat, key: real)
    requires Ordered(page, lo, hi) && Balanced(page, h) && AllBalanced(l, h) && AllBalanced(r, h)
             && IsChoice(page, key, i)
    requires Within(InOrders(l), None, Some(key))
    requires Beyond(InOrders(r), key)
    ensures Within(InOrders(KidsOf(l) + page.kids[..i]), None, Some(key))
    ensures Beyond(InOrders(page.kids[i+1..] + KidsOf(r)), key)
  {
    hide InOrders, AllBalanced, KidsOf;
    KidsBelow(page, lo, hi, i, key);
    KidsSorted(page, lo, hi, i + 1);
    hide Ordered;
    KidsBalanced(l, h);
    KidsBalanced(r, h);
    InOrdersConcat(KidsOf(l), page.kids[..i]);
    InOrdersConcat(page.kids[i+1..], KidsOf(r));
  }

  /** The lower bound found on the routed leaf is the lower bound among all entries. */
  lemma LowerBoundGlobal(t: Tree, path: seq<nat>, key: real, i: nat, h: nat)
    requires Ordered(t, None, None) && Balanced(t, h) && Routed(t, path, key)
    requires At(t, path).Leaf? && IsLowerBound(At(t, path).nodes, key, i)
    ensures IsLowerBound(InOrder(t), key, Pos(t, path, i))
  {
    RoutedSplits(t, path, key, h);
    PathBalanced(t, path, h);
    var l, s, r := InOrders(Left(t, path)), At(t, path).nodes, InOrders(Right(t, path));
    assert InOrder(t) == l + s + r;
    hide InOrder, InOrders, Routed, Balanced, Ordered, AllBalanced;
    LowerBoundConcat(l, s, r, key, i);
  }

  lemma LowerBoundConcat(l: seq<Node>, s: seq<Node>, r: seq<Node>, key: real, i: nat)
    requires Within(l, None, Some(key)) && IsLowerBound(s, key, i)
    requires Beyond(r, key)
    ensures IsLowerBound(l + s + r, key, |l| + i)
  {
  }
}
