/** mdb_cursor_touch: the pages on the way to a leaf get numbers of their own; nothing else changes. */
module Touch {
  import opened Common
  import opened Tree
  import opened Paths
  import opened Search
  import opened Update
  import opened BTree
  import opened CopyOnWrite

  /** Equal but for page numbers. */
  ghost predicate Same(t: Tree, u: Tree)
    decreases t, 1
  {
    match t
    case Leaf(_, nodes) => u.Leaf? && u.nodes == nodes
    case Branch(_, keys, kids) =>
      && u.Branch? && u.keys == keys && |u.kids| == |kids|
      && forall i :: 0 <= i < |kids| ==> Same(kids[i], u.kids[i])
  }

  ghost predicate AllSame(ts: seq<Tree>, us: seq<Tree>) {
    |ts| == |us| && forall i :: 0 <= i < |ts| ==> Same(ts[i], us[i])
  }

  lemma {:induction false} SameRefl(t: Tree)
    ensures Same(t, t)
    decreases t
  {
    if t.Branch? {
      forall i | 0 <= i < |t.kids| ensures Same(t.kids[i], t.kids[i]) { SameRefl(t.kids[i]); }
    }
  }

  lemma {:induction false} SameTrans(t: Tree, u: Tree, v: Tree)
    requires Same(t, u) && Same(u, v)
    ensures Same(t, v)
    decreases t
  {
    if t.Branch? {
      forall i | 0 <= i < |t.kids| ensures Same(t.kids[i], v.kids[i]) { SameTrans(t.kids[i], u.kids[i], v.kids[i]); }
    }
  }

  lemma {:induction false} AllSameInOrder(ts: seq<Tree>, us: seq<Tree>)
    requires AllSame(ts, us)
    ensures InOrders(ts) == InOrders(us)
    decreases ts, 0
  {
    if ts != [] {
      SameInOrder(ts[0], us[0]);
      AllSameInOrder(ts[1..], us[1..]);
    }
  }

  lemma {:induction false} SameInOrder(t: Tree, u: Tree)
    requires Same(t, u)
    ensures InOrder(t) == InOrder(u)
    decreases t, 1
  {
    if t.Branch? { AllSameInOrder(t.kids, u.kids); }
  }

  lemma {:induction false} SameBalanced(t: Tree, u: Tree, h: nat)
    requires Same(t, u) && Balanced(t, h)
    ensures Balanced(u, h)
    decreases t
  {
    if t.Branch? {
      forall i | 0 <= i < |u.kids| ensures Balanced(u.kids[i], h - 1) { SameBalanced(t.kids[i], u.kids[i], h - 1); }
    }
  }

  lemma {:induction false} SameOrdered(t: Tree, u: Tree, lo: Option<real>, hi: Option<real>)
    requires Same(t, u) && Ordered(t, lo, hi)
    ensures Ordered(u, lo, hi)
    decreases t
  {
    if t.Branch? {
      forall i | 0 <= i < |u.kids| ensures Ordered(u.kids[i], KidLo(u, lo, i), KidHi(u, hi, i)) {
        assert KidLo(u, lo, i) == KidLo(t, lo, i) && KidHi(u, hi, i) == KidHi(t, hi, i);
        SameOrdered(t.kids[i], u.kids[i], KidLo(t, lo, i), KidHi(t, hi, i));
      }
    }
  }

  lemma {:induction false} SameOk(t: Tree, u: Tree, pmax: nat)
    requires Same(t, u) && AllOk(t, pmax)
    ensures AllOk(u, pmax)
    decreases t
  {
    assert Sizes(u) == Sizes(t);
    if t.Branch? {
      forall i | 0 <= i < |u.kids| ensures AllOk(u.kids[i], pmax) { SameOk(t.kids[i], u.kids[i], pmax); }
    }
  }

  lemma SameGood(t: Tree, u: Tree, h: nat, lo: Option<real>, hi: Option<real>, pmax: nat)
    requires Same(t, u) && Good(t, h, lo, hi, pmax)
    ensures Good(u, h, lo, hi, pmax)
  {
    hide Same, Balanced, Ordered, AllOk;
    SameBalanced(t, u, h);
    SameOrdered(t, u, lo, hi);
    SameOk(t, u, pmax);
  }

  lemma {:induction false} SameKidsOf(ts: seq<Tree>, us: seq<Tree>)
    requires AllSame(ts, us)
    ensures AllSame(KidsOf(ts), KidsOf(us))
  {
    if ts != [] {
      SameKidsOf(ts[1..], us[1..]);
      assert Same(ts[0], us[0]);
    }
  }

  /** A path leads to the same place, between the same neighbours. */
  lemma {:induction false} SameAt(t: Tree, u: Tree, path: seq<nat>)
    requires Same(t, u) && IsPath(t, path)
    ensures IsPath(u, path) && Same(At(t, path), At(u, path))
    ensures LoAt(u, path) == LoAt(t, path) && HiAt(u, path) == HiAt(t, path)
    decreases |path|
  {
    if path != [] {
      var init := path[..|path|-1];
      SameAt(t, u, init);
      assert Same(At(t, init), At(u, init));
    }
  }

  lemma {:induction false} SameAround(t: Tree, u: Tree, path: seq<nat>)
    requires Same(t, u) && IsPath(t, path) && IsPath(u, path)
    ensures AllSame(Left(t, path), Left(u, path)) && AllSame(Right(t, path), Right(u, path))
    decreases |path|
  {
    if path != [] {
      var init, i := path[..|path|-1], path[|path|-1];
      SameAround(t, u, init);
      SameAt(t, u, init);
      SameKidsOf(Left(t, init), Left(u, init));
      SameKidsOf(Right(t, init), Right(u, init));
      SameSlices(At(t, init), At(u, init), i, KidsOf(Left(t, init)), KidsOf(Left(u, init)), KidsOf(Right(t, init)),
        KidsOf(Right(u, init)));
    }
  }

  lemma SameSlices(p: Tree, q: Tree, i: nat, l: seq<Tree>, l': seq<Tree>, r: seq<Tree>, r': seq<Tree>)
    requires p.Branch? && Same(p, q) && i < |p.kids| && AllSame(l, l') && AllSame(r, r')
    ensures AllSame(l + p.kids[..i], l' + q.kids[..i]) && AllSame(p.kids[i+1..] + r, q.kids[i+1..] + r')
  {
    assert AllSame(p.kids, q.kids);
    hide Same;
  }

  lemma {:induction false} ReplaceSame(t: Tree, path: seq<nat>, x: Tree)
    requires IsPath(t, path) && Same(At(t, path), x)
    ensures Same(t, Replace(t, path, x))
    decreases |path|
  {
    if path != [] {
      var init, last := path[..|path|-1], path[|path|-1];
      var parent := At(t, init);
      var parent' := parent.(kids := parent.kids[last := x]);
      forall i | 0 <= i < |parent.kids| ensures Same(parent.kids[i], parent'.kids[i]) {
        SameRefl(parent.kids[i]);
      }
      ReplaceSame(t, init, parent');
    }
  }

  /** Putting a page at a path leaves the pages above it their numbers. */
  lemma {:induction false} ReplaceThere(t: Tree, path: seq<nat>, x: Tree, dirty: set<nat>)
    requires IsPath(t, path) && PathDirty(t, path, dirty)
    ensures var u := Replace(t, path, x); IsPath(u, path) && At(u, path) == x && PathDirty(u, path, dirty)
    decreases |path|
  {
    if path != [] {
      var init, last := path[..|path|-1], path[|path|-1];
      var parent := At(t, init);
      ReplaceThere(t, init, parent.(kids := parent.kids[last := x]), dirty);
    }
  }

  lemma PrefixStep(path: seq<nat>, i: nat)
    requires i < |path|
    ensures path[..i+1][..i] == path[..i] && path[..i+1][i] == path[i]
  {
  }

  /** Every page from the root down to the one at path becomes writable. */
  method TouchPath(t: Tree, path: seq<nat>, txn: Txn, ghost known: set<Tree>) returns (u: Tree, txn': Txn)
    requires IsPath(t, path) && Closed(known) && Frozen(t, known, txn.dirty)
    ensures Same(t, u) && IsPath(u, path) && PathDirty(u, path, txn'.dirty) && At(u, path).pgno in txn'.dirty
    ensures Tally(Pages(u), Pages(t), txn, txn') && Frozen(u, known, txn'.dirty)
  {
    u, txn' := t, txn;
    var top := 0;
    SameRefl(t);
    TallyNone(Pages(t), txn);
    assert path[..0] == [];
    assert path[..|path|] == path;
    hide Same, PathDirty, IsPath, At, Frozen, Tally, Pages, Closed;
    RootPath(u, txn'.dirty);
    while true
      invariant top <= |path| && Same(t, u) && IsPath(u, path) && IsPath(u, path[..top])
                && PathDirty(u, path[..top], txn'.dirty)
      invariant Tally(Pages(u), Pages(t), txn, txn') && Frozen(u, known, txn'.dirty)
      decreases |path| - top
    {
      u, txn' := TouchAt(t, u, path, top, txn, txn', known);
      if top == |path| {
        break;
      }
      DirtyStep(u, path, top, txn'.dirty);
      top := top + 1;
    }
  }

  lemma RootPath(u: Tree, dirty: set<nat>)
    ensures IsPath(u, []) && PathDirty(u, [], dirty)
  {
  }

  lemma {:induction false} IsPrefix(t: Tree, path: seq<nat>, i: nat)
    requires IsPath(t, path) && i <= |path|
    ensures IsPath(t, path[..i])
    decreases |path|
  {
    if i == |path| {
      assert path[..i] == path;
    } else {
      IsPrefix(t, path[..|path|-1], i);
      assert path[..|path|-1][..i] == path[..i];
    }
  }

  lemma DirtyStep(u: Tree, path: seq<nat>, top: nat, dirty: set<nat>)
    requires IsPath(u, path) && top < |path| && IsPath(u, path[..top]) && PathDirty(u, path[..top], dirty)
             && At(u, path[..top]).pgno in dirty
    ensures IsPath(u, path[..top+1]) && PathDirty(u, path[..top+1], dirty)
  {
    IsPrefix(u, path, top + 1);
    PrefixStep(path, top);
  }

  /** One page of the stack. */
  method TouchAt(ghost t: Tree, u: Tree, path: seq<nat>, top: nat, ghost txn: Txn, txn1: Txn,
                 ghost known: set<Tree>) returns (u': Tree, txn': Txn)
    requires top <= |path| && Same(t, u) && IsPath(u, path) && IsPath(u, path[..top])
             && PathDirty(u, path[..top], txn1.dirty)
    requires Tally(Pages(u), Pages(t), txn, txn1) && Frozen(u, known, txn1.dirty) && Closed(known)
    ensures Same(t, u') && IsPath(u', path) && IsPath(u', path[..top]) && PathDirty(u', path[..top], txn'.dirty)
    ensures At(u', path[..top]).pgno in txn'.dirty && Tally(Pages(u'), Pages(t), txn, txn')
            && Frozen(u', known, txn'.dirty)
  {
    hide Same, PathDirty, IsPath, At, Frozen, Tally, Pages, Closed;
    var p := path[..top];
    var page := At(u, p);
    var page';
    page', txn' := TouchPage(page, txn1);
    Touched(t, u, p, page', txn, txn1, txn', known);
    u' := Replace(u, p, page');
    SameAt(u, u', path);
    SameTrans(t, u, u');
  }

  lemma Touched(t: Tree, u: Tree, p: seq<nat>, page': Tree, txn: Txn, txn1: Txn, txn': Txn, known: set<Tree>)
    requires IsPath(u, p) && PathDirty(u, p, txn1.dirty) && page' == At(u, p).(pgno := page'.pgno)
             && page'.pgno in txn'.dirty
    requires Tally(Pages(page'), Pages(At(u, p)), txn1, txn') && Tally(Pages(u), Pages(t), txn, txn1)
    requires Frozen(u, known, txn1.dirty) && Closed(known)
    ensures var u' := Replace(u, p, page');
            && Same(u, u') && IsPath(u', p) && PathDirty(u', p, txn'.dirty) && At(u', p) == page'
            && Tally(Pages(u'), Pages(t), txn, txn') && Frozen(u', known, txn'.dirty)
  {
    var page, u' := At(u, p), Replace(u, p, page');
    TouchedFrozen(u, p, page', txn1.dirty, txn'.dirty, known);
    ReplaceThere(u, p, page', txn'.dirty);
    SameRefl(page);
    assert Same(page, page');
    ReplaceSame(u, p, page');
    ReplacePages(u, p, page');
    hide Same, IsPath, Pages, Tally, Frozen, PathDirty, Replace;
    assert Pages(u') + Pages(page) == Pages(u) + Pages(page');
    TallySwap(Pages(u'), Pages(u), Pages(page'), Pages(page), txn1, txn');
    TallyThen(Pages(t), Pages(u), Pages(u'), txn, txn1, txn');
  }

  lemma TouchedFrozen(u: Tree, p: seq<nat>, page': Tree, d: set<nat>, d': set<nat>, known: set<Tree>)
    requires IsPath(u, p) && PathDirty(u, p, d) && page' == At(u, p).(pgno := page'.pgno) && page'.pgno in d' && d <= d'
    requires Frozen(u, known, d) && Closed(known)
    ensures PathDirty(u, p, d') && Frozen(Replace(u, p, page'), known, d')
  {
    FrozenMore(u, known, d, d');
    PathDirtyMore(u, p, d, d');
    FrozenAt(u, p, known, d');
    FrozenKids(At(u, p), known, d');
    hide IsPath, At, PathDirty;
    assert Frozen(page', known, d');
    ReplaceFrozen(u, p, page', known, d');
  }
}
