/** Putting another subtree in the place a path leads to. */
module Update {
  import opened Common
  import opened Tree
  import opened Paths
  import opened Search

  function Replace(t: Tree, path: seq<nat>, x: Tree): (r: Tree)
    requires IsPath(t, path)
    decreases |path|
  {
    if path == [] then x
    else
      var init, last := path[..|path|-1], path[|path|-1];
      var parent := At(t, init);
      Replace(t, init, parent.(kids := parent.kids[last := x]))
  }

  /** The new subtree is where the old one was, between the same neighbours. */
  lemma {:induction false} ReplaceAt(t: Tree, path: seq<nat>, x: Tree, h: nat)
    requires IsPath(t, path) && Balanced(t, h) && |path| <= h && Balanced(x, h - |path|)
    ensures Balanced(Replace(t, path, x), h)
    ensures InOrder(Replace(t, path, x)) == InOrders(Left(t, path)) + InOrder(x) + InOrders(Right(t, path))
    decreases |path|
  {
    if path != [] {
      var init, last := path[..|path|-1], path[|path|-1];
      var parent := At(t, init);
      PathBalanced(t, init, h);
      var parent' := parent.(kids := parent.kids[last := x]);
      ReplaceAt(t, init, parent', h);
      ParentInOrder(parent, last, x, Left(t, init), Right(t, init), h - |init|);
    }
  }

  lemma ParentInOrder(parent: Tree, i: nat, x: Tree, l: seq<Tree>, r: seq<Tree>, h: nat)
    requires parent.Branch? && i < |parent.kids| && h > 0 && AllBalanced(l, h) && AllBalanced(r, h)
    ensures InOrders(l) + InOrder(parent.(kids := parent.kids[i := x])) + InOrders(r) ==
            InOrders(KidsOf(l) + parent.kids[..i]) + InOrder(x) + InOrders(parent.kids[i+1..] + KidsOf(r))
  {
    hide InOrders, InOrder, KidsOf, AllBalanced;
    var kids := parent.kids[i := x];
    BranchInOrder(parent.(kids := kids));
    KidsBalanced(l, h);
    KidsBalanced(r, h);
    KidsInOrder(kids, i);
    assert kids[..i] == parent.kids[..i] && kids[i+1..] == parent.kids[i+1..] && kids[i] == x;
    InOrdersConcat(KidsOf(l), parent.kids[..i]);
    InOrdersConcat(parent.kids[i+1..], KidsOf(r));
  }

  lemma BranchInOrder(t: Tree)
    ensures t.Branch? ==> InOrder(t) == InOrders(t.kids)
  {
  }

  lemma KidsInOrder(kids: seq<Tree>, i: nat)
    requires i < |kids|
    ensures InOrders(kids) == InOrders(kids[..i]) + InOrder(kids[i]) + InOrders(kids[i+1..])
  {
    hide InOrders, InOrder;
    var a, b, c := kids[..i], [kids[i]], kids[i+1..];
    AroundIndex(kids, i);
    InOrdersConcat(a + b, c);
    InOrdersConcat(a, b);
    InOrdersOne(kids[i]);
  }

  lemma AroundIndex<T>(s: seq<T>, i: nat)
    requires i < |s|
    ensures s == s[..i] + [s[i]] + s[i+1..]
  {
  }

  /** Separators above stay right if the new subtree respects the bounds of the old one. */
  lemma {:induction false} ReplaceOrdered(t: Tree, path: seq<nat>, x: Tree)
    requires IsPath(t, path) && Ordered(t, None, None) && Ordered(x, LoAt(t, path), HiAt(t, path))
    ensures Ordered(Replace(t, path, x), None, None)
    decreases |path|
  {
    if path != [] {
      var init, last := path[..|path|-1], path[|path|-1];
      var parent := At(t, init);
      OrderedAt(t, init);
      var parent' := parent.(kids := parent.kids[last := x]);
      KidReplaced(parent, LoAt(t, init), HiAt(t, init), last, x);
      ReplaceOrdered(t, init, parent');
    }
  }

  lemma KidReplaced(parent: Tree, lo: Option<real>, hi: Option<real>, i: nat, x: Tree)
    requires parent.Branch? && i < |parent.kids| && Ordered(parent, lo, hi)
    requires Ordered(x, KidLo(parent, lo, i), KidHi(parent, hi, i))
    ensures Ordered(parent.(kids := parent.kids[i := x]), lo, hi)
  {
    var p' := parent.(kids := parent.kids[i := x]);
    forall j | 0 <= j < |p'.kids| ensures Ordered(p'.kids[j], KidLo(p', lo, j), KidHi(p', hi, j)) {
      assert KidLo(p', lo, j) == KidLo(parent, lo, j) && KidHi(p', hi, j) == KidHi(parent, hi, j);
    }
  }
}
