/** Which page numbers a tree uses, and which of its pages were written to. */
module CopyOnWrite {
  import opened PageNumbers
  import opened Tree
  import opened Update

  function Pages(t: Tree): multiset<nat>
    decreases t, 1
  {
    match t
    case Leaf(pgno, _) => multiset{pgno}
    case Branch(pgno, _, kids) => multiset{pgno} + PagesOf(kids)
  }

  function PagesOf(ts: seq<Tree>): multiset<nat>
    decreases ts, 0
  {
    if ts == [] then multiset{} else Pages(ts[0]) + PagesOf(ts[1..])
  }

  lemma {:induction false} PagesConcat(a: seq<Tree>, b: seq<Tree>)
    ensures PagesOf(a + b) == PagesOf(a) + PagesOf(b)
  {
    if a == [] {
      assert a + b == b;
    } else {
      assert (a + b)[1..] == a[1..] + b;
      PagesConcat(a[1..], b);
    }
  }

  lemma PagesOne(t: Tree)
    ensures PagesOf([t]) == Pages(t)
  {
    assert PagesOf([t]) == Pages(t) + PagesOf([]);
  }

  lemma KidPages(kids: seq<Tree>, i: nat)
    requires i < |kids|
    ensures PagesOf(kids) == PagesOf(kids[..i]) + Pages(kids[i]) + PagesOf(kids[i+1..])
  {
    hide PagesOf, Pages;
    assert kids == kids[..i] + [kids[i]] + kids[i+1..];
    PagesConcat(kids[..i] + [kids[i]], kids[i+1..]);
    PagesConcat(kids[..i], [kids[i]]);
    PagesOne(kids[i]);
  }

  lemma KidSwapped(kids: seq<Tree>, i: nat, x: Tree)
    requires i < |kids|
    ensures PagesOf(kids[i := x]) + Pages(kids[i]) == PagesOf(kids) + Pages(x)
  {
    hide PagesOf, Pages;
    KidPages(kids, i);
    KidPages(kids[i := x], i);
    assert kids[i := x][..i] == kids[..i] && kids[i := x][i+1..] == kids[i+1..];
  }

  /** Only the exchanged subtree makes a difference. */
  lemma {:induction false} ReplacePages(t: Tree, path: seq<nat>, x: Tree)
    requires IsPath(t, path)
    ensures Pages(Replace(t, path, x)) + Pages(At(t, path)) == Pages(t) + Pages(x)
    decreases |path|
  {
    if path != [] {
      var init, last := path[..|path|-1], path[|path|-1];
      var parent := At(t, init);
      var parent' := parent.(kids := parent.kids[last := x]);
      ReplacePages(t, init, parent');
      KidSwapped(parent.kids, last, x);
      assert Pages(parent') == multiset{parent.pgno} + PagesOf(parent.kids[last := x]);
      assert Pages(parent) == multiset{parent.pgno} + PagesOf(parent.kids);
      hide Pages, PagesOf;
      Cancel(Pages(Replace(t, path, x)), Pages(parent), Pages(parent'), Pages(t), Pages(parent.kids[last]), Pages(x),
        PagesOf(parent.kids), PagesOf(parent.kids[last := x]), parent.pgno);
    }
  }

  lemma Cancel(r: multiset<nat>, p: multiset<nat>, p': multiset<nat>, t: multiset<nat>, old': multiset<nat>,
               x: multiset<nat>,
               k: multiset<nat>, k': multiset<nat>, n: nat)
    requires r + p == t + p' && p == multiset{n} + k && p' == multiset{n} + k' && k' + old' == k + x
    ensures r + old' == t + x
  {
    forall e: nat ensures (r + old')[e] == (t + x)[e] {
      assert (r + p)[e] == (t + p')[e] && (k' + old')[e] == (k + x)[e];
    }
  }

  // ---- The transaction's page accounts ----

  /**
   * mt_next_pgno; the pages of older transactions that may be used again, in me_pghead or in freeDB records
   * not read yet; mt_loose_pgs; the pages this transaction wrote; mt_free_pgs.
   */
  datatype Txn = Txn(next: nat, spare: multiset<nat>, loose: seq<nat>, dirty: set<nat>, free: seq<nat>)

  /** What an allocation can be served from. */
  ghost function Pool(t: Txn): multiset<nat> { t.spare + multiset(t.loose) }

  /** Every page that is in no tree. */
  ghost function Outside(t: Txn): multiset<nat> { Pool(t) + multiset(t.free) }

  /** What was written or can be handed out later was so before, or is new in the file. */
  ghost predicate Drawn(a: Txn, b: Txn) {
    forall n: nat :: n in b.dirty || n in Pool(b) ==> n in a.dirty || n in Pool(a) || a.next <= n < b.next
  }

  /** Pages come into a tree only by allocation, and leave it only for one of the lists. */
  ghost predicate Tally(after: multiset<nat>, before: multiset<nat>, a: Txn, b: Txn) {
    && a.next <= b.next && a.dirty <= b.dirty && Drawn(a, b)
    && after + Outside(b) == before + Outside(a) + Span(a.next, b.next)
  }

  lemma TallyNone(m: multiset<nat>, a: Txn)
    ensures Tally(m, m, a, a)
  {
    SpanOne(a.next);
  }

  lemma TallyThen(m0: multiset<nat>, m1: multiset<nat>, m2: multiset<nat>, a: Txn, b: Txn, c: Txn)
    requires Tally(m1, m0, a, b) && Tally(m2, m1, b, c)
    ensures Tally(m2, m0, a, c)
  {
    hide Outside, Pool, Span;
    SpanSplit(a.next, b.next, c.next);
    ThenBags(m0, m1, m2, Outside(a), Outside(b), Outside(c), Span(a.next, b.next), Span(b.next, c.next));
  }

  lemma ThenBags(m0: multiset<nat>, m1: multiset<nat>, m2: multiset<nat>,
                 a: multiset<nat>, b: multiset<nat>, c: multiset<nat>, s: multiset<nat>, t: multiset<nat>)
    requires m1 + b == m0 + a + s && m2 + c == m1 + b + t
    ensures m2 + c == m0 + a + (s + t)
  {
  }

  lemma TallyPlus(after: multiset<nat>, before: multiset<nat>, m: multiset<nat>, a: Txn, b: Txn)
    requires Tally(after, before, a, b)
    ensures Tally(after + m, before + m, a, b)
  {
    hide Outside, Pool, Span, Drawn;
    var o, p := Outside(b), Outside(a) + Span(a.next, b.next);
    forall e: nat ensures (after + m + o)[e] == (before + m + p)[e] {
      assert (after + o)[e] == (before + p)[e];
    }
    assert after + m + o == before + m + p;
    assert before + m + Outside(a) + Span(a.next, b.next) == before + m + p;
  }

  /** Part of a tree was exchanged, and the exchange accounts for what changed. */
  lemma TallySwap(p: multiset<nat>, q: multiset<nat>, after: multiset<nat>, before: multiset<nat>, a: Txn, b: Txn)
    requires p + before == q + after && Tally(after, before, a, b)
    ensures Tally(p, q, a, b)
  {
    hide Outside, Pool, Span, Drawn;
    SwapBags(p, q, after, before, Outside(b), Outside(a), Span(a.next, b.next));
  }

  lemma SwapBags(p: multiset<nat>, q: multiset<nat>, after: multiset<nat>, before: multiset<nat>,
                 o: multiset<nat>, o': multiset<nat>, s: multiset<nat>)
    requires p + before == q + after && after + o == before + o' + s
    ensures p + o == q + o' + s
  {
    forall e: nat ensures (p + o)[e] == (q + o' + s)[e] {
      assert (p + before)[e] == (q + after)[e];
      assert (after + o)[e] == (before + o' + s)[e];
    }
  }

  lemma TallyBoth(a1: multiset<nat>, a0: multiset<nat>, b1: multiset<nat>, b0: multiset<nat>, s: Txn, t: Txn, u: Txn)
    requires Tally(a1, a0, s, t) && Tally(b1, b0, t, u)
    ensures Tally(a1 + b1, a0 + b0, s, u)
  {
    hide Tally;
    TallyPlus(a1, a0, b0, s, t);
    TallyPlus(b1, b0, a1, t, u);
    assert b0 + a1 == a1 + b0 && b1 + a1 == a1 + b1;
    TallyThen(a0 + b0, a1 + b0, a1 + b1, s, t, u);
  }

  lemma TallyGrows(after: multiset<nat>, before: multiset<nat>, a: Txn, b: Txn)
    requires Tally(after, before, a, b)
    ensures a.dirty <= b.dirty
  {
  }

  // ---- Giving pages up ----

  /** mdb_page_loose: a page of this transaction can be used again at once, another one is freed. */
  function Loosened(n: nat, a: Txn): (b: Txn)
    ensures n in a.dirty ==> b.loose != [] && b.loose[0] == n && b.free == a.free   // AllocPage gives it out next
    ensures n !in a.dirty ==> n in b.free && b.loose == a.loose
  {
    if n in a.dirty then a.(loose := [n] + a.loose) else a.(free := a.free + [n])
  }

  lemma TallyLoose(after: multiset<nat>, before: multiset<nat>, n: nat, a: Txn)
    requires after + multiset{n} == before
    ensures Tally(after, before, a, Loosened(n, a))
  {
    if n in a.dirty {
      hide Tally;
      LooseTally(after, before, n, a);
    } else {
      TallyDrop(after, before, n, a);
    }
  }

  lemma LooseTally(after: multiset<nat>, before: multiset<nat>, n: nat, a: Txn)
    requires after + multiset{n} == before && n in a.dirty
    ensures Tally(after, before, a, a.(loose := [n] + a.loose))
  {
    SpanOne(a.next);
    var b := a.(loose := [n] + a.loose);
    assert multiset([n] + a.loose) == multiset{n} + multiset(a.loose);
    assert Outside(b) == Outside(a) + multiset{n};
    hide Outside;
    assert after + (Outside(a) + multiset{n}) == (after + multiset{n}) + Outside(a);
  }

  /** A page is dropped onto the free list. */
  lemma TallyDrop(after: multiset<nat>, before: multiset<nat>, n: nat, a: Txn)
    requires after + multiset{n} == before
    ensures Tally(after, before, a, a.(free := a.free + [n]))
  {
    SpanOne(a.next);
    var b := a.(free := a.free + [n]);
    assert multiset(a.free + [n]) == multiset(a.free) + multiset{n};
    assert Outside(b) == Outside(a) + multiset{n};
    hide Outside;
    assert after + (Outside(a) + multiset{n}) == (after + multiset{n}) + Outside(a);
  }

  // ---- Allocation ----

  /** num pages from pg on came out of the pool, or from the end of the file. */
  ghost predicate Supplied(a: Txn, b: Txn, pg: nat, num: nat) {
    && a.next <= b.next && b.free == a.free
    && Pool(b) + Span(pg, pg + num) == Pool(a) + Span(a.next, b.next)
  }

  lemma SuppliedTally(a: Txn, b: Txn, pg: nat, num: nat)
    requires Supplied(a, b, pg, num) && b.dirty == a.dirty + Range(pg, pg + num)
    ensures Tally(Span(pg, pg + num), multiset{}, a, b)
  {
    hide Pool, Span;
    var p, q, s, t := Pool(a), Pool(b), Span(pg, pg + num), Span(a.next, b.next);
    forall n: nat | n in b.dirty || n in Pool(b) ensures n in a.dirty || n in Pool(a) || a.next <= n < b.next {
      SpanAt(pg, pg + num, n);
      SpanAt(a.next, b.next, n);
      assert (q + s)[n] == (p + t)[n];
    }
    var f := multiset(a.free);
    assert s + (q + f) == (q + s) + f;
    assert multiset{} + (p + f) + t == (p + t) + f;
  }

  /**
   * mdb_page_alloc for num pages: some run of pages that may be used again, or new ones at the end of the
   * file.  Which of them is left open here; the loose pages are not looked at.
   */
  method AllocRun(txn: Txn, num: nat) returns (pg: nat, txn': Txn)
    requires num > 0
    ensures Supplied(txn, txn', pg, num) && txn'.dirty == txn.dirty + Range(pg, pg + num)
  {
    hide Supplied;
    if * {
      if n: nat :| n in txn.spare && Span(n, n + num) <= txn.spare {
        pg := n;
        txn' := txn.(spare := txn.spare - Span(n, n + num), dirty := txn.dirty + Range(n, n + num));
        SpareTaken(txn, txn', n, num);
        return;
      }
    }
    pg := txn.next;
    txn' := txn.(next := pg + num, dirty := txn.dirty + Range(pg, pg + num));
    NewTaken(txn, txn', num);
  }

  lemma SpareTaken(a: Txn, b: Txn, pg: nat, num: nat)
    requires Span(pg, pg + num) <= a.spare && b == a.(spare := a.spare - Span(pg, pg + num), dirty := b.dirty)
    ensures Supplied(a, b, pg, num)
  {
    SpanOne(a.next);
    hide Span;
    BackIn(a.spare, multiset(a.loose), Span(pg, pg + num));
  }

  lemma NewTaken(a: Txn, b: Txn, num: nat)
    requires b == a.(next := a.next + num, dirty := b.dirty)
    ensures Supplied(a, b, a.next, num)
  {
  }

  lemma BackIn(spare: multiset<nat>, loose: multiset<nat>, s: multiset<nat>)
    requires s <= spare
    ensures (spare - s) + loose + s == spare + loose
  {
  }

  /** mdb_page_alloc for one page: a loose page is taken first. */
  method AllocPage(txn: Txn) returns (pg: nat, txn': Txn)
    ensures Supplied(txn, txn', pg, 1) && txn'.dirty == txn.dirty + {pg}
    ensures txn.loose != [] ==> pg == txn.loose[0] && txn' == txn.(loose := txn.loose[1..], dirty := txn'.dirty)
    ensures pg in txn'.dirty && Tally(multiset{pg}, multiset{}, txn, txn')
  {
    if txn.loose != [] {
      pg := txn.loose[0];
      txn' := txn.(loose := txn.loose[1..], dirty := txn.dirty + {pg});
      LooseTaken(txn, txn');
    } else {
      pg, txn' := AllocRun(txn, 1);
    }
    hide Supplied;
    SpanOne(pg);
    assert Range(pg, pg + 1) == {pg};
    SuppliedTally(txn, txn', pg, 1);
  }

  lemma LooseTaken(a: Txn, b: Txn)
    requires a.loose != [] && b == a.(loose := a.loose[1..], dirty := a.dirty + {a.loose[0]})
    ensures Supplied(a, b, a.loose[0], 1)
  {
    SpanOne(a.loose[0]);
    SpanOne(a.next);
    assert a.loose == [a.loose[0]] + a.loose[1..];
    assert multiset(a.loose) == multiset{a.loose[0]} + multiset(a.loose[1..]);
  }

  /** mdb_page_touch: a clean page gets a number of its own, and the old one is freed. */
  method TouchPage(x: Tree, txn: Txn) returns (x': Tree, txn': Txn)
    ensures x' == x.(pgno := x'.pgno) && x'.pgno in txn'.dirty && Tally(Pages(x'), Pages(x), txn, txn')
    ensures x.pgno in txn.dirty ==> x' == x && txn' == txn
    ensures x.pgno !in txn.dirty ==> txn'.free == txn.free + [x.pgno]
  {
    hide Tally, Supplied;
    if x.pgno in txn.dirty {
      TallyNone(Pages(x), txn);
      return x, txn;
    }
    var pg, txn1 := AllocPage(txn);
    x' := x.(pgno := pg);
    txn' := txn1.(free := txn1.free + [x.pgno]);
    SuppliedFree(txn, txn1, pg, 1);
    TouchTally(x, pg, txn, txn1);
  }

  lemma SuppliedFree(a: Txn, b: Txn, pg: nat, num: nat)
    requires Supplied(a, b, pg, num)
    ensures b.free == a.free
  {
  }

  lemma TouchTally(x: Tree, pg: nat, txn: Txn, txn1: Txn)
    requires Tally(multiset{pg}, multiset{}, txn, txn1)
    ensures Tally(Pages(x.(pgno := pg)), Pages(x), txn, txn1.(free := txn1.free + [x.pgno]))
  {
    hide Tally;
    var x', o, n := x.(pgno := pg), multiset{x.pgno}, multiset{pg};
    TallyDrop(multiset{}, o, x.pgno, txn1);
    TallyBoth(n, multiset{}, multiset{}, o, txn, txn1, txn1.(free := txn1.free + [x.pgno]));
    assert Pages(x') + o == Pages(x) + n;
    hide Pages;
    assert n + multiset{} == n && multiset{} + o == o;
    TallySwap(Pages(x'), Pages(x), n, o, txn, txn1.(free := txn1.free + [x.pgno]));
  }

  // ---- Copy on write ----

  /**
   * Every page of r is one of the pages known before, or carries a number from dirty: a page
   * with another number, and all that hangs off it, is as it was.
   */
  ghost predicate Frozen(r: Tree, known: set<Tree>, dirty: set<nat>)
    decreases r, 1
  {
    r in known || (r.pgno in dirty && KidsFrozen(r, known, dirty))
  }

  ghost predicate KidsFrozen(r: Tree, known: set<Tree>, dirty: set<nat>)
    decreases r, 0
  {
    r.Branch? ==> forall i :: 0 <= i < |r.kids| ==> Frozen(r.kids[i], known, dirty)
  }

  /** A set of pages that holds the children of its pages. */
  ghost predicate Closed(known: set<Tree>) {
    forall t :: t in known && t.Branch? ==> forall i :: 0 <= i < |t.kids| ==> t.kids[i] in known
  }

  /** All pages of a tree. */
  ghost function Subs(t: Tree): set<Tree>
    decreases t, 1
  {
    {t} + (if t.Branch? then SubsOf(t.kids) else {})
  }

  ghost function SubsOf(ts: seq<Tree>): set<Tree>
    decreases ts, 0
  {
    if ts == [] then {} else Subs(ts[0]) + SubsOf(ts[1..])
  }

  lemma {:induction false} SubsOfClosed(ts: seq<Tree>)
    ensures Closed(SubsOf(ts)) && forall i :: 0 <= i < |ts| ==> ts[i] in SubsOf(ts)
    decreases ts, 0
  {
    if ts != [] {
      SubsClosed(ts[0]);
      SubsOfClosed(ts[1..]);
      forall i | 0 <= i < |ts| ensures ts[i] in SubsOf(ts) {
        if i > 0 { assert ts[i] == ts[1..][i-1]; }
      }
    }
  }

  lemma {:induction false} SubsClosed(t: Tree)
    ensures t in Subs(t) && Closed(Subs(t))
    decreases t, 1
  {
    if t.Branch? { SubsOfClosed(t.kids); }
  }

  /** The pages above the one at path. */
  ghost predicate PathDirty(t: Tree, path: seq<nat>, dirty: set<nat>)
    requires IsPath(t, path)
    decreases |path|
  {
    path != [] ==>
      var init := path[..|path|-1];
      PathDirty(t, init, dirty) && At(t, init).pgno in dirty
  }

  lemma FrozenKids(r: Tree, known: set<Tree>, dirty: set<nat>)
    requires Frozen(r, known, dirty) && Closed(known)
    ensures KidsFrozen(r, known, dirty)
  {
  }

  lemma {:induction false} FrozenMore(r: Tree, known: set<Tree>, dirty: set<nat>, dirty': set<nat>)
    requires Frozen(r, known, dirty) && dirty <= dirty'
    ensures Frozen(r, known, dirty')
    decreases r
  {
    if r.Branch? && r !in known {
      forall i | 0 <= i < |r.kids| ensures Frozen(r.kids[i], known, dirty') {
        FrozenMore(r.kids[i], known, dirty, dirty');
      }
    }
  }

  lemma {:induction false} PathDirtyMore(t: Tree, path: seq<nat>, dirty: set<nat>, dirty': set<nat>)
    requires IsPath(t, path) && PathDirty(t, path, dirty) && dirty <= dirty'
    ensures PathDirty(t, path, dirty')
    decreases |path|
  {
    if path != [] { PathDirtyMore(t, path[..|path|-1], dirty, dirty'); }
  }

  lemma {:induction false} FrozenAt(t: Tree, path: seq<nat>, known: set<Tree>, dirty: set<nat>)
    requires IsPath(t, path) && Frozen(t, known, dirty) && Closed(known)
    ensures Frozen(At(t, path), known, dirty)
    decreases |path|
  {
    if path != [] {
      FrozenAt(t, path[..|path|-1], known, dirty);
      FrozenKids(At(t, path[..|path|-1]), known, dirty);
    }
  }

  lemma {:induction false} ReplaceFrozen(t: Tree, path: seq<nat>, x: Tree, known: set<Tree>, dirty: set<nat>)
    requires IsPath(t, path) && Frozen(t, known, dirty) && Closed(known) && PathDirty(t, path, dirty)
             && Frozen(x, known, dirty)
    ensures Frozen(Replace(t, path, x), known, dirty)
    decreases |path|
  {
    if path != [] {
      var init, last := path[..|path|-1], path[|path|-1];
      var parent := At(t, init);
      FrozenAt(t, init, known, dirty);
      FrozenKids(parent, known, dirty);
      ReplaceFrozen(t, init, parent.(kids := parent.kids[last := x]), known, dirty);
    }
  }
}
