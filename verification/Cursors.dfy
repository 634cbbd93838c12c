/** Cursors: mdb_cursor_sibling, _next, _prev, _first, _last, _set and mdb_cursor_get without dups. */
module Cursors {
  import opened Common
  import opened Tree
  import opened Paths
  import opened Search

  /** The tree of one database as its cursors see it; depth is md_depth. */
  class Database {
    var root: Option<Tree>
    var depth: nat

    ghost predicate Shape()
      reads this
    {
      root.Some? ==> depth > 0 && Balanced(root.value, depth - 1)
    }

    ghost predicate Valid()
      reads this
    {
      Shape() && (root.Some? ==> Ordered(root.value, None, None) && NoEmptyLeaf(root.value))
    }

    constructor (root: Option<Tree>, depth: nat)
      requires root.Some? ==> depth > 0 && Balanced(root.value, depth - 1)
      ensures Shape() && this.root == root && this.depth == depth
    {
      this.root, this.depth := root, depth;
    }

    ghost function Entries(): seq<Node>
      reads this
    {
      if root.Some? then InOrder(root.value) else []
    }
  }

  ghost predicate NoEmptyLeaf(t: Tree)
    decreases t
  {
    match t
    case Leaf(_, nodes) => nodes != []
    case Branch(_, _, kids) => forall i :: 0 <= i < |kids| ==> NoEmptyLeaf(kids[i])
  }

  lemma {:induction false} NoEmptyLeafAt(t: Tree, path: seq<nat>)
    requires NoEmptyLeaf(t) && IsPath(t, path)
    ensures NoEmptyLeaf(At(t, path))
    decreases |path|
  {
    if path != [] { NoEmptyLeafAt(t, path[..|path|-1]); }
  }

  /** What lies across the right edge of a leaf. */
  lemma AcrossRight(t: Tree, path: seq<nat>, h: nat)
    requires IsPath(t, path) && Balanced(t, h) && NoEmptyLeaf(t) && At(t, path).Leaf?
    ensures match Neighbour(t, path, true)
            case None => Pos(t, path, |At(t, path).nodes|) == |InOrder(t)|
            case Some(q) =>
              && IsPath(t, q) && |q| == |path| && At(t, q).Leaf? && At(t, q).nodes != []
              && Pos(t, q, 0) == Pos(t, path, |At(t, path).nodes|)
  {
    hide Neighbour, NoEmptyLeaf, Pos;
    NeighbourCorrect(t, path, h, true);
    PathToLeaf(t, path, h);
    match Neighbour(t, path, true)
    case None => EntryAtPos(t, path, |At(t, path).nodes|, h);
    case Some(q) => NextPagePos(t, path, q); LeafHasEntry(t, q, h);
  }

  /** What lies across the left edge of a leaf. */
  lemma AcrossLeft(t: Tree, path: seq<nat>, h: nat)
    requires IsPath(t, path) && Balanced(t, h) && NoEmptyLeaf(t) && At(t, path).Leaf?
    ensures match Neighbour(t, path, false)
            case None => Pos(t, path, 0) == 0
            case Some(q) =>
              && IsPath(t, q) && |q| == |path| && At(t, q).Leaf? && At(t, q).nodes != []
              && Pos(t, q, |At(t, q).nodes|) == Pos(t, path, 0)
  {
    hide Neighbour, NoEmptyLeaf, Pos;
    NeighbourCorrect(t, path, h, false);
    PathToLeaf(t, path, h);
    match Neighbour(t, path, false)
    case None => EntryAtPos(t, path, 0, h);
    case Some(q) => LeafHasEntry(t, q, h); NextPagePos(t, q, path);
  }

  lemma LeafHasEntry(t: Tree, path: seq<nat>, h: nat)
    requires IsPath(t, path) && Balanced(t, h) && NoEmptyLeaf(t) && |path| == h
    ensures At(t, path).Leaf? && At(t, path).nodes != [] && InOrder(t) != []
  {
    PathToLeaf(t, path, h);
    NoEmptyLeafAt(t, path);
    EntryAtPos(t, path, 0, h);
  }

  // ---- What mdb_cursor_set has to deliver ----

  /** Result and stack after a search that ends at slot i of the leaf at path. */
  ghost function Outcome(t: Tree, path: seq<nat>, i: nat, key: real, range: bool): (Rc, seq<nat>)
    requires IsPath(t, path) && At(t, path).Leaf?
  {
    var nodes := At(t, path).nodes;
    if i < |nodes| && (range || nodes[i].key.rank == key) then (Found(nodes[i]), path + [i])
    else if !range then (NotFound, path + [i])
    else match Neighbour(t, path, true)
      case None => (NotFound, path + [i])
      case Some(q) =>
        if IsPath(t, q) && At(t, q).Leaf? && At(t, q).nodes != [] then (Found(At(t, q).nodes[0]), q + [0])
        else (NotFound, path + [i])
  }

  /** rc and ki are what a full search from the root gives. */
  ghost predicate SetOutcome(t: Tree, h: nat, key: real, range: bool, rc: Rc, ki: seq<nat>) {
    exists path: seq<nat>, i: nat :: OutcomeAt(t, h, key, range, rc, ki, path, i)
  }

  ghost predicate OutcomeAt(t: Tree, h: nat, key: real, range: bool, rc: Rc, ki: seq<nat>, path: seq<nat>, i: nat) {
    && |path| == h && Routed(t, path, key) && At(t, path).Leaf?
    && IsLowerBound(At(t, path).nodes, key, i) && (rc, ki) == Outcome(t, path, i, key, range)
  }

  /** A full search has only one outcome, so any two ways of reaching it agree. */
  lemma SetOutcomeUnique(t: Tree, h: nat, key: real, range: bool, rc: Rc, ki: seq<nat>, rc': Rc, ki': seq<nat>)
    requires Ordered(t, None, None)
    requires SetOutcome(t, h, key, range, rc, ki) && SetOutcome(t, h, key, range, rc', ki')
    ensures rc == rc' && ki == ki'
  {
    var p: seq<nat>, i: nat :| OutcomeAt(t, h, key, range, rc, ki, p, i);
    var q: seq<nat>, j: nat :| OutcomeAt(t, h, key, range, rc', ki', q, j);
    hide Routed, Ordered, Outcome, IsPath, At;
    RoutedUnique(t, p, q, key);
    LowerBoundUnique(At(t, p).nodes, key, i, j);
  }

  /** The stack ki leads to the entry that has b entries before it. */
  ghost predicate OnEntry(t: Tree, ki: seq<nat>, b: nat) {
    && ki != [] && IsPath(t, ki[..|ki|-1])
    && At(t, ki[..|ki|-1]).Leaf? && ki[|ki|-1] < |At(t, ki[..|ki|-1]).nodes|
    && Pos(t, ki[..|ki|-1], ki[|ki|-1]) == b
  }

  lemma OnEntrySnoc(t: Tree, path: seq<nat>, i: nat, h: nat)
    requires IsPath(t, path) && Balanced(t, h) && At(t, path).Leaf? && i < |At(t, path).nodes|
    ensures var b := Pos(t, path, i);
            OnEntry(t, path + [i], b) && b < |InOrder(t)| && InOrder(t)[b] == At(t, path).nodes[i]
  {
    assert (path + [i])[..|path|] == path;
    EntryAtPos(t, path, i, h);
  }

  /** The entry after the page a key belongs to is above the key. */
  lemma BeyondThePage(t: Tree, path: seq<nat>, key: real, h: nat)
    requires Ordered(t, None, None) && Balanced(t, h) && Routed(t, path, key) && At(t, path).Leaf?
    ensures var b := Pos(t, path, |At(t, path).nodes|);
            b < |InOrder(t)| ==> key < InOrder(t)[b].key.rank
  {
    RoutedSplits(t, path, key, h);
    PathBalanced(t, path, h);
    var l, s, r := InOrders(Left(t, path)), At(t, path).nodes, InOrders(Right(t, path));
    assert InOrder(t) == l + s + r;
    hide InOrder, InOrders, Routed, Balanced, Ordered, AllBalanced, Within;
    if |l| + |s| < |InOrder(t)| { assert InOrder(t)[|l| + |s|] == r[0]; }
  }

  /** The outcome of a search that ends on a slot of the page. */
  lemma OutcomeHere(t: Tree, path: seq<nat>, i: nat, key: real, range: bool, h: nat)
    requires IsPath(t, path) && Balanced(t, h) && At(t, path).Leaf? && i < |At(t, path).nodes|
    ensures var b, e, o := Pos(t, path, i), InOrder(t), Outcome(t, path, i, key, range);
            && b < |e|
            && if range || e[b].key.rank == key then o.0 == Found(e[b]) && OnEntry(t, o.1, b) else o.0 == NotFound
  {
    hide InOrder, Pos, OnEntry, Balanced;
    OnEntrySnoc(t, path, i, h);
  }

  /** The outcome of a search that ends past the page. */
  lemma OutcomeBeyond(t: Tree, path: seq<nat>, key: real, range: bool, h: nat)
    requires Ordered(t, None, None) && Balanced(t, h) && NoEmptyLeaf(t) && Routed(t, path, key) && At(t, path).Leaf?
    ensures var i := |At(t, path).nodes|;
            var b, e, o := Pos(t, path, i), InOrder(t), Outcome(t, path, i, key, range);
            if b < |e| && (range || e[b].key.rank == key) then o.0 == Found(e[b]) && OnEntry(t, o.1, b)
            else o.0 == NotFound
  {
    AcrossRight(t, path, h);
    BeyondThePage(t, path, key, h);
    hide IsPath, At, Neighbour, InOrder, NoEmptyLeaf, Balanced, Ordered, Routed, Pos, OnEntry;
    if Neighbour(t, path, true).Some? {
      OnEntrySnoc(t, Neighbour(t, path, true).value, 0, h);
    }
  }

  /** In terms of the ordered entries: the first entry not below the key, or the entry with that key. */
  lemma SetOutcomeMeaning(t: Tree, h: nat, key: real, range: bool, rc: Rc, ki: seq<nat>, b: nat)
    requires Ordered(t, None, None) && Balanced(t, h) && NoEmptyLeaf(t)
    requires SetOutcome(t, h, key, range, rc, ki) && IsLowerBound(InOrder(t), key, b)
    ensures var e := InOrder(t);
            if b < |e| && (range || e[b].key.rank == key) then rc == Found(e[b]) && OnEntry(t, ki, b)
            else rc == NotFound
  {
    var path: seq<nat>, i: nat :| OutcomeAt(t, h, key, range, rc, ki, path, i);
    LowerBoundGlobal(t, path, key, i, h);
    hide IsPath, At, InOrder, NoEmptyLeaf, Balanced, Ordered, Routed, Pos, OnEntry, Outcome;
    LowerBoundUnique(InOrder(t), key, b, Pos(t, path, i));
    if i < |At(t, path).nodes| {
      OutcomeHere(t, path, i, key, range, h);
    } else {
      OutcomeBeyond(t, path, key, range, h);
    }
  }

  lemma {:induction false} PrefixPath(t: Tree, path: seq<nat>, i: nat)
    requires IsPath(t, path) && i <= |path|
    ensures IsPath(t, path[..i])
    ensures i < |path| ==> At(t, path[..i]).Branch? && path[i] < |At(t, path[..i]).kids|
    decreases |path|
  {
    if i < |path| {
      var init := path[..|path|-1];
      assert i < |init| ==> init[..i] == path[..i];
      if i < |init| { PrefixPath(t, init, i); }
    } else {
      assert path[..i] == path;
    }
  }

  /** A key between the first and the last key of a leaf belongs to that leaf. */
  lemma KeyOnThisPage(t: Tree, path: seq<nat>, key: real)
    requires Ordered(t, None, None) && IsPath(t, path) && At(t, path).Leaf? && At(t, path).nodes != []
    requires At(t, path).nodes[0].key.rank <= key
    requires key <= At(t, path).nodes[|At(t, path).nodes|-1].key.rank || Rightmost(t, path)
    ensures Routed(t, path, key)
  {
    OrderedAt(t, path);
    RoutedWithin(t, path, key);
    if Rightmost(t, path) { RightmostUnbounded(t, path); }
  }

  datatype Target = First | Last | For(key: real)

  datatype Rc = Found(node: Node) | NotFound | BadValSize

  /** mdb_node_search on a leaf. */
  method LeafSearch(nodes: seq<Node>, key: real) returns (i: nat, exact: bool)
    requires Sorted(nodes)
    ensures IsLowerBound(nodes, key, i)
    ensures exact <==> i < |nodes| && nodes[i].key.rank == key
  {
    var low, high, rc := 0, |nodes| - 1, 0.0;
    i := 0;
    while low <= high
      invariant 0 <= low <= high + 1 <= |nodes|
      invariant forall j :: 0 <= j < low ==> nodes[j].key.rank < key
      invariant forall j :: high < j < |nodes| ==> key < nodes[j].key.rank
      invariant rc == 0.0 ==> low == 0 && high == |nodes| - 1 && i == 0
      invariant rc > 0.0 ==> i + 1 == low
      invariant rc < 0.0 ==> i == high + 1
    {
      i := (low + high) / 2;
      rc := key - nodes[i].key.rank;
      if rc == 0.0 {
        return i, true;
      }
      if rc > 0.0 {
        low := i + 1;
      } else {
        high := i - 1;
      }
    }
    if rc > 0.0 {
      i := i + 1;
    }
    exact := false;
  }

  /** mdb_node_search on a branch page, slot 0 left out, and the child mdb_page_search_root takes. */
  method BranchSearch(page: Tree, key: real, ghost lo: Option<real>, ghost hi: Option<real>) returns (i: nat)
    requires page.Branch? && Ordered(page, lo, hi) && |page.kids| > 0
    ensures IsChoice(page, key, i)
  {
    var n := |page.keys|;
    var low, high, rc := 1, n - 1, 0.0;
    i := 0;
    var exact := false;
    while low <= high
      invariant 1 <= low <= high + 1 <= n
      invariant forall j :: 1 <= j < low ==> page.keys[j].rank < key
      invariant forall j :: high < j < n ==> key < page.keys[j].rank
      invariant rc == 0.0 ==> low == 1 && high == n - 1 && i == 0
      invariant rc > 0.0 ==> i + 1 == low
      invariant rc < 0.0 ==> i == high + 1
      invariant !exact
    {
      i := (low + high) / 2;
      rc := key - page.keys[i].rank;
      if rc == 0.0 {
        exact := true;
        break;
      }
      if rc > 0.0 {
        low := i + 1;
      } else {
        high := i - 1;
      }
    }
    if rc > 0.0 {
      i := i + 1;
    }
    if i >= n || n == 1 {
      i := n - 1;
    } else if !exact {
      i := i - 1;
    }
  }

  class Cursor {
    const db: Database
    var ki: seq<nat>   // mc_ki[0..mc_snum); the page on top is the one ki[..|ki|-1] leads to
    var init: bool     // C_INITIALIZED
    var eof: bool      // C_EOF
    var del: bool      // C_DEL

    constructor (db: Database)
      ensures this.db == db && ki == [] && !init && !eof && !del
    {
      this.db, this.ki, this.init, this.eof, this.del := db, [], false, false, false;
    }

    ghost predicate OnPage()
      reads this, db
    {
      db.Shape() && db.root.Some? && ki != [] && IsPath(db.root.value, ki[..|ki|-1])
    }

    ghost predicate Valid()
      reads this, db
    {
      && db.Valid() && (eof ==> init)
      && (init ==>
            && OnPage() && |ki| == db.depth && Top().Leaf? && ki[|ki|-1] <= |Top().nodes|
            && (eof ==> Neighbour(db.root.value, ki[..|ki|-1], true).None?))
    }

    /** How many entries lie before the slot the cursor is on. */
    ghost function Position(): nat
      requires OnPage()
      reads this, db
    {
      Pos(db.root.value, ki[..|ki|-1], ki[|ki|-1])
    }

    /** How many entries lie before the one after the cursor; a cursor past its page is on none. */
    ghost function Ahead(): nat
      requires OnPage()
      reads this, db
    {
      if ki[|ki|-1] >= Top().NumKeys() then Position() else Position() + 1
    }

    /** The page on top of the stack. */
    function Top(): Tree
      requires OnPage()
      reads this, db
    {
      At(db.root.value, ki[..|ki|-1])
    }

    /** Replace the page on top by its neighbour on the same level; an unsuccessful call changes nothing. */
    method Sibling(right: bool) returns (ok: bool)
      requires OnPage()
      modifies this`ki
      ensures OnPage() && |ki| == old(|ki|)
      ensures var t, path := db.root.value, old(ki[..|ki|-1]);
              match Neighbour(t, path, right)
              case None => !ok && ki == old(ki)
              case Some(q) => ok && ki == q + [Edge(t, q, right)]
      decreases |ki|, 0
    {
      if |ki| < 2 {
        return false;
      }
      NeighbourIsPath(db.root.value, ki[..|ki|-1], db.depth - 1, right);
      var top := ki[|ki|-1];
      ki := ki[..|ki|-1];
      ok := Advance(right);
      if ok {
        var mp := At(db.root.value, ki);
        ki := ki + [if right || mp.NumKeys() == 0 then 0 else mp.NumKeys() - 1];
      } else {
        ki := ki + [top];
      }
    }

    /** The middle part of mdb_cursor_sibling, between pop and push: move on to another child. */
    method Advance(right: bool) returns (ok: bool)
      requires db.Shape() && db.root.Some? && ki != [] && IsPath(db.root.value, ki)
      modifies this`ki
      ensures match Neighbour(db.root.value, old(ki), right)
              case None => !ok && ki == old(ki)
              case Some(q) => ok && ki == q
      decreases |ki|, 1
    {
      var n := |ki| - 1;
      if (if right then ki[n] + 1 >= Top().NumKeys() else ki[n] == 0) {
        ok := Sibling(right);
      } else {
        ki := ki[n := if right then ki[n] + 1 else ki[n] - 1];
        ok := true;
      }
    }
 
    /** mdb_page_search: from the root to a leaf. */
    method PageSearch(target: Target) returns (ok: bool)
      requires db.Shape() && (target.For? ==> db.Valid())
      modifies this
      ensures ok == db.root.Some?
      ensures !ok ==> unchanged(this)
      ensures ok ==> OnPage() && |ki| == db.depth && Top().Leaf? && ki[|ki|-1] == 0 && init && !eof && del == old(del)
      ensures ok ==> Reaches(db.root.value, ki[..|ki|-1], target)
    {
      if db.root.None? {
        return false;
      }
      var mp := db.root.value;
      ki := [0];
      while mp.Branch?
        invariant OnPage() && mp == Top() && ki[|ki|-1] == 0 && Reaches(db.root.value, ki[..|ki|-1], target)
        invariant init == old(init) && eof == old(eof) && del == old(del)
        decreases mp
      {
        mp := Descend(mp, target);
      }
      PathToLeaf(db.root.value, ki[..|ki|-1], db.depth - 1);
      init, eof, ok := true, false, true;
    }

    method Descend(mp: Tree, target: Target) returns (kid: Tree)
      requires target.For? ==> db.Valid()
      requires OnPage() && mp == Top() && mp.Branch? && Reaches(db.root.value, ki[..|ki|-1], target)
      modifies this`ki
      ensures OnPage() && kid == Top() && kid < mp && ki[|ki|-1] == 0
      ensures Reaches(db.root.value, ki[..|ki|-1], target)
    {
      ghost var t, path := db.root.value, ki[..|ki|-1];
      PathDepth(t, path, db.depth - 1);
      if target.For? {
        OrderedAt(t, path);
      }
      var i := ChooseKid(mp, target, LoAt(t, path), HiAt(t, path));
      kid := mp.kids[i];
      ReachesKid(t, path, target, i);
      ki := ki[..|ki|-1] + [i] + [0];
      assert ki[..|ki|-1] == path + [i];
    }

    /** mdb_cursor_first */
    method MoveFirst() returns (rc: Rc)
      requires Valid()
      modifies this
      ensures Valid() && del == old(del)
      ensures db.root.None? ==> rc == NotFound && unchanged(this)
      ensures db.root.Some? ==>
                && init && !eof && db.Entries() != [] && Position() == 0 && rc == Found(db.Entries()[0])
                && ki[|ki|-1] < |Top().nodes|
    {
      if !init || |ki| > 1 {
        var ok := PageSearch(First);
        if !ok {
          return NotFound;
        }
      }
      ghost var t, path, h := db.root.value, ki[..|ki|-1], db.depth - 1;
      LeafHasEntry(t, path, h);
      EntryAtPos(t, path, 0, h);
      LeftmostFirst(t, path);
      init, eof := true, false;
      ki := ki[|ki|-1 := 0];
      assert ki[..|ki|-1] == path;
      rc := Found(Top().nodes[0]);
    }

    /** mdb_cursor_next; a cursor marked C_DEL is already on the entry to return. */
    method MoveNext() returns (rc: Rc)
      requires Valid() && init && (del && !eof ==> ki[|ki|-1] < |Top().nodes|)
      modifies this
      ensures Valid() && init && del == old(del)
      ensures var target := if old(del) then old(Position()) else old(Ahead());
              if old(eof) || target >= |db.Entries()| then rc == NotFound && eof && ki == old(ki)
              else rc == Found(db.Entries()[target]) && Position() == target && !eof && ki[|ki|-1] < |Top().nodes|
    {
      hide IsPath, At, Left, Neighbour, InOrder, InOrders, NoEmptyLeaf, Balanced, Ordered;
      if eof {
        return NotFound;
      }
      var n := |ki| - 1;
      ghost var t, path, h := db.root.value, ki[..n], db.depth - 1;
      AcrossRight(t, path, h);
      if !del {
        if ki[n] + 1 >= Top().NumKeys() {
          var ok := Sibling(true);
          if !ok {
            eof := true;
            return NotFound;
          }
        } else {
          ki := ki[n := ki[n] + 1];
          assert ki[..n] == path;
        }
      }
      EntryAtPos(t, ki[..n], ki[n], h);
      rc := Found(Top().nodes[ki[n]]);
    }

    /** mdb_cursor_prev */
    method MovePrev() returns (rc: Rc)
      requires Valid() && init
      modifies this
      ensures Valid() && init && del == old(del)
      ensures if old(Position()) == 0 then rc == NotFound && unchanged(this)
              else
                && old(Position()) <= |db.Entries()| && rc == Found(db.Entries()[old(Position()) - 1])
                && Position() == old(Position()) - 1 && !eof && ki[|ki|-1] < |Top().nodes|
    {
      hide IsPath, At, Left, Neighbour, InOrder, InOrders, NoEmptyLeaf, Balanced, Ordered;
      var n := |ki| - 1;
      ghost var t, path, h := db.root.value, ki[..n], db.depth - 1;
      AcrossLeft(t, path, h);
      if ki[n] == 0 {
        var ok := Sibling(false);
        if !ok {
          return NotFound;
        }
        ki := ki[n := Top().NumKeys() - 1];
      } else {
        ki := ki[n := ki[n] - 1];
        assert ki[..n] == path;
      }
      eof := false;
      EntryAtPos(t, ki[..n], ki[n], h);
      rc := Found(Top().nodes[ki[n]]);
    }

    method ToLastPage() returns (ok: bool)
      requires Valid() && !eof
      modifies this
      ensures ok == db.root.Some? && del == old(del)
      ensures !ok ==> unchanged(this)
      ensures ok ==> OnPage() && |ki| == db.depth && Top().Leaf? && Neighbour(db.root.value, ki[..|ki|-1], true).None?
    {
      ok := true;
      if !init || |ki| > 1 {
        ok := PageSearch(Last);
      }
      if ok {
        RightmostUnbounded(db.root.value, ki[..|ki|-1]);
      }
    }

    /** mdb_cursor_last */
    method MoveLast() returns (rc: Rc)
      requires Valid()
      modifies this
      ensures Valid() && del == old(del)
      ensures db.root.None? ==> rc == NotFound && unchanged(this)
      ensures db.root.Some? ==>
                && init && eof && db.Entries() != [] && Position() == |db.Entries()| - 1
                && rc == Found(db.Entries()[|db.Entries()| - 1]) && ki[|ki|-1] + 1 == |Top().nodes|
    {
      hide IsPath, At, Left, Neighbour, InOrder, InOrders, NoEmptyLeaf, Balanced, Ordered;
      if !eof {
        var ok := ToLastPage();
        if !ok {
          return NotFound;
        }
      }
      ghost var t, path, h := db.root.value, ki[..|ki|-1], db.depth - 1;
      LeafHasEntry(t, path, h);
      AcrossRight(t, path, h);
      ki := ki[|ki|-1 := Top().NumKeys() - 1];
      assert ki[..|ki|-1] == path;
      init, eof := true, true;
      EntryAtPos(t, path, ki[|ki|-1], h);
      rc := Found(Top().nodes[ki[|ki|-1]]);
    }

    /** The end of mdb_cursor_set (labels set2 and set1): look the key up on the page on top. */
    method FinishSet(key: real, range: bool) returns (rc: Rc)
      requires db.Valid() && OnPage() && |ki| == db.depth && Top().Leaf? && Routed(db.root.value, ki[..|ki|-1], key)
      requires init && (eof ==> Neighbour(db.root.value, ki[..|ki|-1], true).None?)
      modifies this
      ensures Valid() && init && del == old(del)
      ensures SetOutcome(db.root.value, db.depth - 1, key, range, rc, ki)
      ensures rc != BadValSize && (rc.Found? ==> !eof) && (rc.NotFound? ==> eof == (range || old(eof)))
      ensures range && old(UpToLast(key)) ==> rc.Found?
    {
      hide IsPath, At, Left, Neighbour, InOrder, InOrders, NoEmptyLeaf, Balanced, Ordered, Routed;
      ghost var t, path, h := db.root.value, ki[..|ki|-1], db.depth - 1;
      OrderedAt(t, path);
      AcrossRight(t, path, h);
      var n, nodes := |ki| - 1, Top().nodes;
      SortedLeaf(t, path);
      var i, exact := LeafSearch(nodes, key);
      ki := ki[n := i];
      assert ki[..n] == path && ki == path + [i];
      if !range && !exact {
        rc := NotFound;
      } else {
        var ok := true;
        if i >= |nodes| {
          ok := Sibling(true);
        }
        eof := !ok;
        rc := if ok then Found(Top().nodes[ki[n]]) else NotFound;
      }
      assert OutcomeAt(t, h, key, range, rc, ki, path, i);
    }

    /** The key is not above the last one on the page. */
    ghost predicate UpToLast(key: real)
      reads this, db
    {
      && OnPage() && Top().Leaf? && Top().nodes != []
      && key <= Top().nodes[|Top().nodes|-1].key.rank
    }

    /** The key is outside the keys of the page on top, and there may be other pages for it. */
    ghost predicate Elsewhere(key: real)
      reads this, db
    {
      && OnPage() && Top().Leaf? && Top().nodes != [] && |ki| > 1
      && (key < Top().nodes[0].key.rank || (!UpToLast(key) && !Rightmost(db.root.value, ki[..|ki|-1])))
    }

    /** Does every page above the top have no right sibling? */
    method NoRightSiblings() returns (b: bool)
      requires OnPage()
      ensures b <==> Rightmost(db.root.value, ki[..|ki|-1])
    {
      ghost var t, path := db.root.value, ki[..|ki|-1];
      var i := 0;
      while i < |ki| - 1
        invariant 0 <= i <= |path| && IsPath(t, path[..i]) && Rightmost(t, path[..i])
      {
        PrefixPath(t, path, i);
        PrefixPath(t, path, i + 1);
        assert path[..i+1][..i] == path[..i] && ki[..i] == path[..i];
        if ki[i] < At(db.root.value, ki[..i]).NumKeys() - 1 {
          RightmostPrefix(t, path, i + 1);
          return false;
        }
        i := i + 1;
      }
      assert path[..i] == path;
      b := true;
    }

    /** mdb_cursor_set before label set2: see whether the current page is already the right one. */
    method Shortcut(key: real, range: bool) returns (hint: Hint)
      requires Valid() && init
      modifies this
      ensures Valid() && init && del == old(del)
      ensures match hint
              case Decided(rc) =>
                && SetOutcome(db.root.value, db.depth - 1, key, range, rc, ki)
                && rc != BadValSize && eof == (rc.NotFound? && old(eof))
              case SamePage => unchanged(this) && Routed(db.root.value, ki[..|ki|-1], key) && UpToLast(key)
              case SearchAll => unchanged(this)
      ensures hint == SearchAll <==> old(Elsewhere(key))
    {
      hide IsPath, At, Left, Neighbour, InOrder, InOrders, NoEmptyLeaf, Balanced, Ordered, Routed, Rightmost,
           SetOutcome;
      ghost var t, path, h := db.root.value, ki[..|ki|-1], db.depth - 1;
      LeafHasEntry(t, path, h);
      SortedLeaf(t, path);
      var n, nodes := |ki| - 1, Top().nodes;
      var nkeys := |nodes|;
      if key == nodes[0].key.rank {
        KeyOnThisPage(t, path, key);
        hint := Stop(0, key, range, true);
        return;
      }
      if key > nodes[0].key.rank {
        if nkeys > 1 {
          if key == nodes[nkeys-1].key.rank {
            KeyOnThisPage(t, path, key);
            hint := Stop(nkeys - 1, key, range, true);
            return;
          }
          if key < nodes[nkeys-1].key.rank {
            KeyOnThisPage(t, path, key);
            if ki[n] < nkeys && key == nodes[ki[n]].key.rank {
              hint := Stop(ki[n], key, range, true);
              return;
            }
            return SamePage;
          }
        }
        var last := NoRightSiblings();
        if last {
          KeyOnThisPage(t, path, key);
          RightmostUnbounded(t, path);
          hint := Stop(nkeys, key, range, false);
          return;
        }
      }
      if n == 0 {
        assert path == [];
        RoutedAtRoot(t, key);
        hint := Stop(0, key, range, range);
        return;
      }
      hint := SearchAll;
    }

    /** Leave the cursor at slot i of the current page. */
    method Stop(i: nat, key: real, range: bool, found: bool) returns (hint: Hint)
      requires Valid() && init && i <= |Top().nodes| && (found ==> i < |Top().nodes|)
      requires IsLowerBound(Top().nodes, key, i) && Routed(db.root.value, ki[..|ki|-1], key)
      requires found <==> i < |Top().nodes| && (range || Top().nodes[i].key.rank == key)
      requires i == |Top().nodes| ==> Neighbour(db.root.value, ki[..|ki|-1], true).None?
      modifies this
      ensures Valid() && init && del == old(del) && hint.Decided? && hint.rc != BadValSize
      ensures SetOutcome(db.root.value, db.depth - 1, key, range, hint.rc, ki)
      ensures eof == (hint.rc.NotFound? && old(eof))
    {
      hide IsPath, At, Left, Neighbour, InOrder, InOrders, NoEmptyLeaf, Balanced, Ordered, Routed;
      ghost var path := ki[..|ki|-1];
      ki := ki[|ki|-1 := i];
      assert ki[..|ki|-1] == path && ki == path + [i];
      var rc := if found then Found(Top().nodes[i]) else NotFound;
      if found {
        eof := false;
      }
      hint := Decided(rc);
      assert OutcomeAt(db.root.value, db.depth - 1, key, range, rc, ki, path, i);
    }

    /**
     * mdb_cursor_set for MDB_SET and MDB_SET_RANGE.  Whatever the cursor stood on, the result and the
     * new stack are those of a full search from the root.  C_EOF is left over from before if nothing is found
     * and the page the cursor was on was enough to tell.
     */
    method Set(key: Key, range: bool) returns (rc: Rc)
      requires Valid()
      modifies this
      ensures Valid() && del == old(del)
      ensures key.size == 0 <==> rc == BadValSize
      ensures rc == BadValSize ==> unchanged(this)
      ensures key.size > 0 && db.root.None? ==> rc == NotFound && !init
      ensures key.size > 0 && db.root.Some? ==>
                init && SetOutcome(db.root.value, db.depth - 1, key.rank, range, rc, ki)
      ensures rc.Found? ==> !eof
      ensures rc.NotFound? && db.root.Some? ==>
                eof == if !old(init) || old(Elsewhere(key.rank)) then range else old(eof)
    {
      if key.size == 0 {
        return BadValSize;
      }
      if init {
        var hint := Shortcut(key.rank, range);
        match hint {
          case Decided(r) =>
            return r;
          case SamePage =>
            rc := FinishSet(key.rank, range);
            return;
          case SearchAll =>
        }
      }
      var ok := PageSearch(For(key.rank));
      if !ok {
        return NotFound;
      }
      rc := FinishSet(key.rank, range);
    }

    /** mdb_cursor_get with MDB_NEXT: a cursor that is nowhere starts at the first entry, and C_DEL is used up. */
    method GetNext() returns (rc: Rc)
      requires Valid() && (init && del && !eof ==> ki[|ki|-1] < |Top().nodes|)
      modifies this
      ensures Valid() && !del
      ensures old(init) ==>
                var target := if old(del) then old(Position()) else old(Ahead());
                if old(eof) || target >= |db.Entries()| then rc == NotFound && eof && init && ki == old(ki)
                else
                  && init && rc == Found(db.Entries()[target]) && Position() == target && !eof
                  && ki[|ki|-1] < |Top().nodes|
      ensures !old(init) ==>
                if db.Entries() == [] then rc == NotFound
                else init && rc == Found(db.Entries()[0]) && Position() == 0 && !eof && ki[|ki|-1] < |Top().nodes|
    {
      hide IsPath, At, Neighbour, InOrder, NoEmptyLeaf, Balanced, Ordered;
      if init {
        rc := MoveNext();
      } else {
        rc := MoveFirst();
      }
      del := false;
    }
  }

  lemma {:induction false} RightmostPrefix(t: Tree, path: seq<nat>, i: nat)
    requires IsPath(t, path) && i <= |path|
    ensures Rightmost(t, path) ==> IsPath(t, path[..i]) && Rightmost(t, path[..i])
    decreases |path|
  {
    if i < |path| {
      var init := path[..|path|-1];
      assert init[..i] == path[..i];
      RightmostPrefix(t, init, i);
    } else {
      assert path[..i] == path;
    }
  }

  lemma RoutedAtRoot(t: Tree, key: real)
    ensures Routed(t, [], key) && Rightmost(t, [])
  {
  }

  /** What the test of the current page can tell mdb_cursor_set. */
  datatype Hint = Decided(rc: Rc) | SamePage | SearchAll

  lemma SortedLeaf(t: Tree, path: seq<nat>)
    requires Ordered(t, None, None) && IsPath(t, path) && At(t, path).Leaf?
    ensures Sorted(At(t, path).nodes)
  {
    OrderedAt(t, path);
  }

  method ChooseKid(mp: Tree, target: Target, ghost lo: Option<real>, ghost hi: Option<real>) returns (i: nat)
    requires mp.Branch? && (target.For? ==> Ordered(mp, lo, hi)) && |mp.kids| > 0
    ensures i < |mp.kids| && Chosen(mp, target, i)
  {
    match target {
      case First => i := 0;
      case Last => i := mp.NumKeys() - 1;
      case For(key) => i := BranchSearch(mp, key, lo, hi);
    }
  }

  ghost predicate Chosen(mp: Tree, target: Target, i: nat) {
    match target
    case First => i == 0
    case Last => i + 1 == mp.NumKeys()
    case For(key) => IsChoice(mp, key, i)
  }

  ghost predicate Reaches(t: Tree, path: seq<nat>, target: Target) {
    match target
    case First => Leftmost(t, path)
    case Last => Rightmost(t, path)
    case For(key) => Routed(t, path, key)
  }

  lemma ReachesKid(t: Tree, path: seq<nat>, target: Target, i: nat)
    requires IsPath(t, path) && Reaches(t, path, target) && At(t, path).Branch?
    requires i < |At(t, path).kids| && Chosen(At(t, path), target, i)
    ensures IsPath(t, path + [i]) && At(t, path + [i]) == At(t, path).kids[i] && Reaches(t, path + [i], target)
  {
    PathSnoc(t, path, i);
    var path' := path + [i];
    assert path'[..|path'|-1] == path && path'[|path'|-1] == i;
  }

  /**
   * C_EOF left over: after MDB_LAST and an MDB_SET for a key below all others, the cursor is on the first of two
   * entries, and MDB_NEXT finds nothing.
   */
  method StaleEof() returns (c: Cursor, rc: Rc, next: Rc)
    ensures fresh(c) && c.Valid() && c.init && |c.db.Entries()| == 2 && c.Position() == 0
    ensures rc == NotFound && next == NotFound
  {
    var t := Leaf(2, [Node(Key(1.0, 1), Inline("")), Node(Key(2.0, 1), Inline(""))]);
    var db := new Database(Some(t), 1);
    c := new Cursor(db);
    var _ := c.MoveLast();
    rc := c.Set(Key(0.0, 1), false);
    AtFirst(t, rc, c.ki);
    next := c.MoveNext();
  }

  lemma AtFirst(t: Tree, rc: Rc, ki: seq<nat>)
    requires t.Leaf? && |t.nodes| > 0 && Sorted(t.nodes) && t.nodes[0].key.rank > 0.0
             && SetOutcome(t, 0, 0.0, false, rc, ki)
    ensures rc == NotFound && ki == [0] && Pos(t, [], 0) == 0
  {
    var path: seq<nat>, i: nat :| OutcomeAt(t, 0, 0.0, false, rc, ki, path, i);
    assert path == [] && [] + [i] == [i];
  }
}
