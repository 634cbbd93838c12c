/**
 * From one account of the pages to the next: what the allocator leaves is what mdb_freelist_save saves, the
 * records it writes make the equation of mdb_audit true, and that equation makes the root page number right
 * that a compacting copy predicts.
 */
module Accounts {
  import opened Common
  import opened PageNumbers
  import opened IdLists
  import opened Allocators
  import opened FreelistSave
  import opened Tree
  import opened Compact
  import IdSort

  // ---- From the allocator to the freelist ----

  /** The records of a freeDB, each with just the room it needs. */
  function AsDb(db: Records): Db {
    map k | k in db :: Record(|db[k]|, db[k])
  }

  lemma {:induction false} HeldChunks(db: Records, a: nat, b: nat)
    ensures multiset(Chunks(AsDb(db), a, b)) == Held(db, a, b)
    decreases b
  {
    if a < b {
      HeldChunks(db, a, b - 1);
      var ids, rest := if b - 1 in db then db[b-1] else [], Chunks(AsDb(db), a, b - 1);
      assert Chunks(AsDb(db), a, b) == ids + rest;
      assert multiset(ids + rest) == multiset(ids) + multiset(rest);
    }
  }

  lemma OnceDistinct(s: seq<nat>)
    requires forall x: nat :: multiset(s)[x] <= 1
    ensures Distinct(s)
  {
    forall i, j | 0 <= i < j < |s| ensures s[i] != s[j] {
      if s[i] == s[j] { TwiceIn(s, i, j); }
    }
  }

  /** The lists of a transaction are fit to be saved. */
  lemma ListsOf(a: Allocator, head: seq<nat>)
    requires a.Valid() && head == Listed(a.mop) && |a.loose| + |a.freed| <= IdSort.SAFE_LENGTH
    ensures Lists(a.txnid, head, a.loose, a.freed, a.pglast)
    ensures Conserved(AsDb(a.db), a.pglast, a.txnid, a.inUse, Bag(head, a.loose, a.freed), a.next)
  {
    hide Span, Held, Desc, Chunks, ListIn, Distinct, AllIds, AsDb, Account;
    HeldChunks(a.db, a.pglast + 1, a.txnid);
    EmptyDesc();
    LooseApart(a, head);
    AccountBag(a.inUse, Held(a.db, a.pglast + 1, a.txnid), head, a.loose, a.freed);
  }

  lemma AccountBag(u: multiset<nat>, h: multiset<nat>, head: seq<nat>, loose: seq<nat>, freed: seq<nat>)
    ensures Account(u, h, multiset(head), multiset(loose), multiset(freed))
            == Span(0, NUM_METAS) + u + h + Bag(head, loose, freed)
  {
  }

  /** No page is on two lists, and all are page numbers of the file. */
  lemma LooseApart(a: Allocator, head: seq<nat>)
    requires a.Valid() && head == Listed(a.mop)
    ensures Distinct(head + a.loose) && AllIds(a.loose)
  {
    hide Span, Held, Desc, ListIn, Sound;
    assert multiset(head + a.loose) == multiset(head) + multiset(a.loose);
    forall x: nat ensures multiset(head + a.loose)[x] <= 1 && (x in multiset(a.loose) ==> x < a.next) {
      SpanAt(0, a.next, x);
      assert a.Everything()[x] >= multiset(head)[x] + multiset(a.loose)[x];
    }
    OnceDistinct(head + a.loose);
    forall i | 0 <= i < |a.loose| ensures a.loose[i] <= MAX_ID { assert a.loose[i] in multiset(a.loose); }
  }

  /**
   * Commit saves the lists of a transaction.  Whatever the nested operations did within the rules, every page
   * is then in exactly one place: a meta page, a tree or a record of the freeDB.  It fails only if one of them does.
   */
  method SaveFreelist(a: Allocator, maxfree: nat, script: seq<Effect>) returns (ok: bool, s: Saver)
    requires a.Valid() && |a.loose| + |a.freed| <= IdSort.SAFE_LENGTH
    ensures fresh(s) && s.txnid == a.txnid
    ensures ok ==> Settled(s)
    ensures !ok ==> s.script == [] || !s.Allowed(s.script[0])
    ensures AllAre(script, Listed(a.mop), a.pglast, a.next, a.inUse) && |script| > Bound(a.pglast) ==> ok
  {
    hide Settled, Allocator.Valid, Saver.Valid, Listed, AllAre, Bound, Saver.Allowed;
    var head := Contents(a);
    ListsOf(a, head);
    StartOf(a);
    s := new Saver(a.txnid, maxfree, head, a.loose, a.freed, a.pglast, AsDb(a.db), a.next, script, a.inUse);
    ok := s.Save();
    if ok { NowSettled(s); }
  }

  method Contents(a: Allocator) returns (head: seq<nat>)
    requires a.Valid()
    ensures (a.mop != null ==> IsList(a.mop)) && head == Listed(a.mop)
  {
    head := if a.mop == null then [] else a.mop[1..a.mop[0]+1];
  }

  lemma StartOf(a: Allocator)
    requires a.Valid()
    ensures (forall k :: k in AsDb(a.db) ==> 0 < k < a.txnid) && (a.pglast > 0 ==> a.pglast in AsDb(a.db))
            && a.txnid !in AsDb(a.db)
  {
    hide Span, Held, Desc, ListIn;
  }

  /** Metas, trees and the records of the freeDB make up the file. */
  ghost predicate Settled(s: Saver)
    reads s
  {
    s.Valid() && Span(0, NUM_METAS) + s.trees + multiset(Chunks(s.db, 1, s.txnid + 1)) == Span(0, s.next)
  }

  lemma NowSettled(s: Saver)
    requires s.Valid() && Span(0, NUM_METAS) + s.trees + multiset(Chunks(s.db, 1, s.txnid + 1)) == Span(0, s.next)
    ensures Settled(s)
  {
  }

  // ---- Counting free pages ----

  /** The loop over the freeDB in mdb_audit and mdb_env_copyfd1: how many pages its records hold. */
  method FreeCount(s: Saver) returns (count: nat)
    requires s.Valid()
    ensures count == |Chunks(s.db, 1, s.txnid + 1)|
  {
    hide *;
    count := 0;
    var id := 1;
    NoneCounted(s.db);
    while true
      invariant 1 <= id && count == |Chunks(s.db, 1, id)|
      decreases s.txnid + 1 - id
    {
      var ok, k := s.NextKey(id);
      KeysUpTo(s, ok, k);
      if !ok {
        CountedAll(s, id);
        return;
      }
      CountedOne(s.db, id, k);
      count := count + |s.db[k].ids|;
      id := k + 1;
    }
  }

  lemma NoneCounted(db: Db)
    ensures Chunks(db, 1, 1) == []
  {
  }

  lemma KeysUpTo(s: Saver, ok: bool, k: nat)
    requires s.Valid() && (ok ==> k in s.db)
    ensures ok ==> k <= s.txnid
  {
  }

  lemma CountedOne(db: Db, id: nat, k: nat)
    requires 1 <= id <= k && k in db && forall x :: id <= x < k ==> x !in db
    ensures |Chunks(db, 1, k + 1)| == |Chunks(db, 1, id)| + |db[k].ids|
  {
    hide Chunks;
    ChunksLast(db, 1, k);
    ChunksSplit(db, 1, id, k);
    NoChunks(db, id, k);
  }

  lemma CountedAll(s: Saver, id: nat)
    requires s.Valid() && 1 <= id && forall x :: id <= x ==> x !in s.db
    ensures |Chunks(s.db, 1, id)| == |Chunks(s.db, 1, s.txnid + 1)|
  {
    hide Chunks;
    var n := s.txnid + 1;
    if id <= n {
      ChunksSplit(s.db, 1, id, n);
      NoChunks(s.db, id, n);
    } else {
      ChunksSplit(s.db, 1, n, id);
      NoChunks(s.db, n, id);
    }
  }

  /** The equation of mdb_audit, with the free pages counted as it counts them. */
  method Audit(s: Saver) returns (freecount: nat)
    requires Settled(s)
    ensures freecount + |s.trees| + NUM_METAS == s.next
  {
    hide *;
    SettledIs(s);
    freecount := FreeCount(s);
    AuditEquation(s.trees, Chunks(s.db, 1, s.txnid + 1), s.next);
  }

  lemma SettledIs(s: Saver)
    requires Settled(s)
    ensures s.Valid() && Span(0, NUM_METAS) + s.trees + multiset(Chunks(s.db, 1, s.txnid + 1)) == Span(0, s.next)
  {
  }

  // ---- The compacting copy ----

  /** The pages of a tree, its overflow runs and its sub-databases. */
  ghost function TreePages(t: Tree): (m: multiset<nat>)
    ensures |m| == Count(t)
    decreases t, 1
  {
    match t
    case Leaf(pgno, nodes) => NodePages(nodes) + multiset{pgno}
    case Branch(pgno, _, kids) => KidPages(kids) + multiset{pgno}
  }

  ghost function KidPages(ts: seq<Tree>): (m: multiset<nat>)
    ensures |m| == KidsCount(ts)
    decreases ts, 0
  {
    if ts == [] then multiset{} else TreePages(ts[0]) + KidPages(ts[1..])
  }

  ghost function NodePages(nodes: seq<Node>): (m: multiset<nat>)
    ensures |m| == NodesCount(nodes)
    decreases nodes, 0
  {
    if nodes == [] then multiset{} else NodePages(nodes[..|nodes|-1]) + DataPages(nodes[|nodes|-1])
  }

  ghost function DataPages(nd: Node): (m: multiset<nat>)
    ensures |m| == DataCount(nd)
    decreases nd, 0
  {
    match nd.value
    case Inline(_) => multiset{}
    case Big(pg, pages, _) => SpanSize(pg, pg + pages); Span(pg, pg + pages)
    case SubDb(sub, _) => TreePages(sub)
    case SubEmpty => multiset{}
  }

  ghost function PagesIn(r: Option<Tree>): multiset<nat> {
    if r.Some? then TreePages(r.value) else multiset{}
  }

  function CountIn(r: Option<Tree>): nat {
    if r.Some? then Count(r.value) else 0
  }

  /**
   * mdb_env_copyfd1 on a file in which every page is accounted for, as SaveFreelist leaves it: the root page
   * number and the last page it writes to the meta page beforehand are those the walk arrives at.
   */
  method CopyCommitted(s: Saver, main: Option<Tree>, freeDb: Option<Tree>)
    returns (file: File, predicted: Root, lastPg: int, actual: Root)
    requires Settled(s) && s.trees == PagesIn(main) + PagesIn(freeDb) && (main.Some? ==> GoodTree(main.value))
    ensures predicted == actual && lastPg + 1 == |file| && Numbered(file)
    ensures main.None? ==> actual == Invalid
    ensures main.Some? ==> |file| > 0 && actual == At(|file| - 1) && Copied(file, main.value, |file| - 1)
  {
    hide *;
    var freecount := Audit(s);
    var overhead := CountIn(freeDb);
    InUse(main, freeDb);
    file, predicted, lastPg, actual := CopyCompact(main, s.next, freecount + overhead);
  }

  lemma InUse(main: Option<Tree>, freeDb: Option<Tree>)
    ensures |PagesIn(main) + PagesIn(freeDb)| == CountIn(main) + CountIn(freeDb)
    ensures CountIn(main) == if main.Some? then Count(main.value) else 0
  {
    hide Count;
  }
}
