/**
 * Page numbers in a write transaction: mdb_page_alloc, mdb_page_touch, mdb_page_loose and mdb_ovpage_free.
 * At any time every page number below mt_next_pgno is in exactly one place.
 */
module Allocators {
  import opened Common
  import opened PageNumbers
  import opened IdLists
  import CopyOnWrite

  type Records = map<nat, seq<nat>>

  /** Keys of freeDB records are older transactions, and their data is in order. */
  ghost predicate Sound(db: Records, txnid: nat) {
    forall k :: k in db ==> 0 < k < txnid && Desc(db[k])
  }

  /** What the freeDB records with keys from a on, below b, hold. */
  ghost function Held(db: Records, a: nat, b: nat): multiset<nat>
    decreases b
  {
    if b <= a then multiset{} else Held(db, a, b - 1) + (if b - 1 in db then multiset(db[b-1]) else multiset{})
  }

  lemma {:induction false} HeldFirst(db: Records, a: nat, b: nat)
    requires a < b
    ensures Held(db, a, b) == (if a in db then multiset(db[a]) else multiset{}) + Held(db, a + 1, b)
    decreases b
  {
    if a + 1 < b { HeldFirst(db, a, b - 1); }
  }

  /** Records are skipped over only if they are not there. */
  lemma {:induction false} HeldFrom(db: Records, a: nat, k: nat, b: nat)
    requires a <= k <= b && forall x :: a <= x < k ==> x !in db
    ensures Held(db, a, b) == Held(db, k, b)
    decreases k - a
  {
    if a < k {
      HeldFirst(db, a, b);
      HeldFrom(db, a + 1, k, b);
    }
  }

  lemma HeldNext(db: Records, a: nat, k: nat, b: nat)
    requires a <= k < b && k in db && forall x :: a <= x < k ==> x !in db
    ensures Held(db, a, b) == multiset(db[k]) + Held(db, k + 1, b)
  {
    hide Held;
    HeldFrom(db, a, k, b);
    HeldFirst(db, k, b);
  }

  lemma SoundAt(db: Records, txnid: nat, k: nat)
    requires Sound(db, txnid) && k in db
    ensures Desc(db[k]) && 0 < k < txnid
  {
  }

  lemma {:induction false} HeldHas(db: Records, a: nat, b: nat, k: nat)
    requires a <= k < b && k in db
    ensures multiset(db[k]) <= Held(db, a, b)
    decreases b
  {
    if k < b - 1 { HeldHas(db, a, b - 1, k); }
  }

  ghost function Listed(mop: array?<nat>): seq<nat>
    requires mop != null ==> IsList(mop)
    reads mop
  {
    if mop == null then [] else ListIn(mop)
  }

  /** Metas, trees, records, me_pghead, loose pages and mt_free_pgs together. */
  ghost function Account(u: multiset<nat>, h: multiset<nat>, l: multiset<nat>, o: multiset<nat>,
                         f: multiset<nat>): multiset<nat> {
    Span(0, NUM_METAS) + u + h + l + o + f
  }

  lemma AccountStart(u: multiset<nat>, h: multiset<nat>)
    ensures Account(u, h, multiset([]), multiset([]), multiset([])) == Span(0, NUM_METAS) + u + h
  {
  }

  /** A record moves to me_pghead. */
  lemma RecordToHead(u: multiset<nat>, r: multiset<nat>, h: multiset<nat>, l: multiset<nat>, o: multiset<nat>,
                     f: multiset<nat>)
    ensures Account(u, r + h, l, o, f) == Account(u, h, l + r, o, f)
  {
  }

  lemma HeadToUse(u: multiset<nat>, h: multiset<nat>, l: multiset<nat>, r: multiset<nat>, o: multiset<nat>,
                  f: multiset<nat>)
    ensures Account(u, h, l + r, o, f) == Account(u + r, h, l, o, f)
  {
  }

  lemma NewToUse(u: multiset<nat>, h: multiset<nat>, l: multiset<nat>, o: multiset<nat>, f: multiset<nat>,
                 r: multiset<nat>)
    ensures Account(u + r, h, l, o, f) == Account(u, h, l, o, f) + r
  {
  }

  lemma LooseToUse(u: multiset<nat>, h: multiset<nat>, l: multiset<nat>, r: multiset<nat>, o: multiset<nat>,
                   f: multiset<nat>)
    ensures Account(u, h, l, o + r, f) == Account(u + r, h, l, o, f)
  {
  }

  lemma UseToFreed(u: multiset<nat>, h: multiset<nat>, l: multiset<nat>, r: multiset<nat>, o: multiset<nat>,
                   f: multiset<nat>)
    ensures Account(u + r, h, l, o, f) == Account(u, h, l, o, f + r)
  {
  }

  lemma Apart(u: multiset<nat>, r: multiset<nat>, h: multiset<nat>, l: multiset<nat>, o: multiset<nat>,
              f: multiset<nat>, next: nat)
    requires Account(u, h, l, o, f) == Span(0, next) && r <= h
    ensures l !! r && forall x :: x in r ==> x < next
  {
    hide Span;
    forall x: nat ensures (x in r ==> x < next) && !(x in r && x in l) {
      SpanAt(0, next, x);
      assert Account(u, h, l, o, f)[x] >= r[x] + l[x];
    }
  }

  lemma SomeRunOfOne(s: seq<nat>)
    requires s != []
    ensures !NoRun(s, 1)
  {
    assert HasRun(s, s[0], 1);
  }

  /** Metas, pages in use and all the lists make up the file. */
  ghost predicate Balance(t: CopyOnWrite.Txn, u: multiset<nat>) {
    Span(0, NUM_METAS) + u + CopyOnWrite.Outside(t) == Span(0, t.next)
  }

  /** What is now in use, and only that, came out of the lists or from the end of the file. */
  lemma BalanceSupplied(a: CopyOnWrite.Txn, b: CopyOnWrite.Txn, u: multiset<nat>, pg: nat, num: nat)
    requires Balance(a, u) && Balance(b, u + Span(pg, pg + num)) && a.next <= b.next && a.free == b.free
    ensures CopyOnWrite.Supplied(a, b, pg, num)
  {
    SpanSplit(0, a.next, b.next);
    hide Span, CopyOnWrite.Pool;
    SuppliedBags(Span(0, NUM_METAS), u, Span(pg, pg + num), multiset(a.free),
      CopyOnWrite.Pool(a), CopyOnWrite.Pool(b), Span(a.next, b.next));
  }

  lemma SuppliedBags(m: multiset<nat>, u: multiset<nat>, r: multiset<nat>, f: multiset<nat>,
                     p: multiset<nat>, p': multiset<nat>, s: multiset<nat>)
    requires m + (u + r) + (p' + f) == m + u + (p + f) + s
    ensures p' + r == p + s
  {
    forall e: nat ensures (p' + r)[e] == (p + s)[e] {
      assert (m + (u + r) + (p' + f))[e] == (m + u + (p + f) + s)[e];
    }
  }

  /** No freeDB record that may be consumed is left. */
  ghost predicate Exhausted(db: Records, pglast: nat, pgoldest: nat, txnid: nat) {
    forall k :: pglast < k < pgoldest && k < txnid ==> k !in db
  }

  /** The freeDB records with keys after a, up to b. */
  ghost function Read(db: Records, a: nat, b: nat): set<nat> {
    set k | k in db && a < k <= b
  }

  lemma ReadOne(db: Records, a: nat, b: nat, k: nat)
    requires a <= b < k && k in db
    ensures |Read(db, a, k)| >= |Read(db, a, b)| + 1
  {
    assert Read(db, a, b) + {k} <= Read(db, a, k);
    SubsetSize(Read(db, a, b) + {k}, Read(db, a, k));
  }

  lemma {:induction false} SubsetSize(a: set<nat>, b: set<nat>)
    requires a <= b
    ensures |a| <= |b|
  {
    assert b == a + (b - a);
  }

  datatype Rc = Success | TxnFull | MapFull

  class Allocator {
    const txnid: nat
    const maxpg: nat
    var mop: array?<nat>     // me_pghead
    var pglast: nat          // me_pglast
    var pgoldest: nat        // me_pgoldest
    var db: Records          // freeDB as the transaction found it
    var next: nat            // mt_next_pgno
    var loose: seq<nat>      // mt_loose_pgs
    var freed: seq<nat>      // mt_free_pgs
    var room: nat            // mt_dirty_room
    ghost var inUse: multiset<nat>   // pages of the trees, overflow pages included

    constructor (txnid: nat, maxpg: nat, pgoldest: nat, db: Records, next: nat, room: nat, ghost inUse: multiset<nat>)
      requires next <= MAX_ID && Sound(db, txnid)
      requires Span(0, NUM_METAS) + inUse + Held(db, 1, txnid) == Span(0, next) && txnid > 0
      ensures Valid() && this.inUse == inUse && this.next == next && this.db == db && pglast == 0 && mop == null
              && loose == [] && freed == []
    {
      hide Span, Held, Sound, Desc, Account;
      this.txnid, this.maxpg, this.pgoldest, this.db, this.next, this.room, this.inUse := txnid, maxpg, pgoldest, db,
        next, room, inUse;
      mop, pglast, loose, freed := null, 0, [], [];
      new;
      AccountStart(inUse, Held(db, 1, txnid));
    }

    /** Metas, trees, freeDB records that were not consumed, me_pghead, loose pages and mt_free_pgs. */
    ghost function Everything(): multiset<nat>
      requires mop != null ==> IsList(mop)
      reads this, mop
    {
      Account(inUse, Held(db, pglast + 1, txnid), multiset(Listed(mop)), multiset(loose), multiset(freed))
    }

    /** The accounts as operations on trees see them; dirty are the pages written so far. */
    ghost function Accounts(dirty: set<nat>): CopyOnWrite.Txn
      requires mop != null ==> IsList(mop)
      reads this, mop
    {
      CopyOnWrite.Txn(next, multiset(Listed(mop)) + Held(db, pglast + 1, txnid), loose, dirty, freed)
    }

    ghost predicate Valid()
      reads this, mop
    {
      && (mop != null ==> IsList(mop) && Desc(ListIn(mop)))
      && txnid > 0 && (pglast == 0 ==> mop == null) && (pglast > 0 ==> pglast in db)
      && next <= MAX_ID && Sound(db, txnid)
      && Everything() == Span(0, next)
    }

    /** The first freeDB record with a key not below from (mdb_cursor_get with MDB_FIRST, MDB_SET_RANGE or MDB_NEXT). */
    method NextRecord(from: nat) returns (ok: bool, k: nat)
      ensures ok ==> from <= k < txnid && k in db && forall x :: from <= x < k ==> x !in db
      ensures !ok ==> forall x :: from <= x < txnid ==> x !in db
    {
      k := from;
      while k < txnid && k !in db
        invariant from <= k && forall x :: from <= x < k ==> x !in db
        decreases txnid - k
      {
        k := k + 1;
      }
      ok := k < txnid;
    }

    /** A page number is not in two places. */
    lemma RecordApart(k: nat)
      requires Valid() && pglast < k < txnid && k in db
      ensures multiset(Listed(mop)) !! multiset(db[k])
      ensures forall x :: x in db[k] ==> x < next
    {
      hide Span, Held, Sound, Desc, Account;
      HeldHas(db, pglast + 1, txnid, k);
      Apart(inUse, multiset(db[k]), Held(db, pglast + 1, txnid), multiset(Listed(mop)), multiset(loose),
        multiset(freed), next);
      forall x | x in db[k] ensures x < next { assert x in multiset(db[k]); }
    }

    /** Read a record into me_pghead. */
    method Consume(k: nat)
      requires Valid() && pglast < k < txnid && k in db && forall x :: pglast < x < k ==> x !in db
      modifies this, mop
      ensures db == old(db) && mop != null && (mop == old(mop) || fresh(mop)) && pglast == k && Valid()
      ensures multiset(Listed(mop)) == old(multiset(Listed(mop))) + multiset(db[k])
      ensures next == old(next) && loose == old(loose) && freed == old(freed) && inUse == old(inUse)
      ensures room == old(room) && pgoldest == old(pgoldest)
    {
      hide Span, Held, Desc, Sound, Account, ListIn;
      ConsumeFacts(k);
      mop := MergeRecord(mop, db[k]);
      pglast := k;
    }

    lemma ConsumeFacts(k: nat)
      requires Valid() && pglast < k < txnid && k in db && forall x :: pglast < x < k ==> x !in db
      ensures Desc(db[k]) && multiset(Listed(mop)) !! multiset(db[k]) && forall x :: x in db[k] ==> x <= MAX_ID
      ensures Account(inUse, Held(db, k + 1, txnid), multiset(Listed(mop)) + multiset(db[k]), multiset(loose),
              multiset(freed)) == Span(0, next)
    {
      hide Span, Held, Desc, Account, ListIn, Sound;
      SoundAt(db, txnid, k);
      RecordApart(k);
      HeldNext(db, pglast + 1, k, txnid);
      RecordToHead(inUse, multiset(db[k]), Held(db, k + 1, txnid), multiset(Listed(mop)), multiset(loose),
        multiset(freed));
    }

    /** num consecutive pages out of me_pghead. */
    method TakeRun(i: nat, num: nat) returns (pgno: nat)
      requires Valid() && mop != null && RunEndsAt(mop, i, num)
      modifies this, mop
      ensures Valid() && unchanged(`pglast, `pgoldest, `db, `next, `loose, `freed, `room, `mop)
      ensures inUse == old(inUse) + Span(pgno, pgno + num) && Span(pgno, pgno + num) <= old(multiset(ListIn(mop)))
      ensures pgno == old(mop[i])
    {
      hide Span, Held, Desc, Sound, Account, ListIn, RunEndsAt, WithoutRun;
      TakeRunFacts(i, num);
      pgno := mop[i];
      RemoveRun(mop, i, num);
      inUse := inUse + Span(pgno, pgno + num);
    }

    lemma TakeRunFacts(i: nat, num: nat)
      requires Valid() && mop != null && RunEndsAt(mop, i, num)
      ensures 0 < num <= i <= mop[0] == |ListIn(mop)|
      ensures var s, r := ListIn(mop), Span(mop[i], mop[i] + num);
              var s' := WithoutRun(s, i, num);
              && Desc(s') && r <= multiset(s)
              && Account(inUse + r, Held(db, pglast + 1, txnid), multiset(s'), multiset(loose), multiset(freed))
                   == Span(0, next)
    {
      hide Span, Held, Desc, Sound, Account, Run, WithoutRun;
      var s := ListIn(mop);
      RunSpan(mop[i], num);
      RemovedRun(s, i, num);
      HeadToUse(inUse, Held(db, pglast + 1, txnid), multiset(WithoutRun(s, i, num)), multiset(Run(mop[i], num)),
        multiset(loose), multiset(freed));
    }

    /** num pages from the end of the file. */
    method TakeNew(num: nat) returns (pgno: nat)
      requires Valid() && next + num <= MAX_ID
      modifies this
      ensures Valid() && pgno == old(next) && next == old(next) + num && inUse == old(inUse) + Span(pgno, pgno + num)
      ensures unchanged(`pglast, `pgoldest, `db, `loose, `freed, `room, `mop)
    {
      hide Span, Held, Desc, Sound, Account, ListIn;
      pgno := next;
      SpanSplit(0, next, next + num);
      NewToUse(inUse, Held(db, pglast + 1, txnid), multiset(Listed(mop)), multiset(loose), multiset(freed),
        Span(next, next + num));
      next := pgno + num;
      inUse := inUse + Span(pgno, pgno + num);
    }

    /**
     * The loop of mdb_page_alloc: look for num consecutive pages in me_pghead, and merge one more record of a
     * transaction older than every reader into it as long as there are none.  now is what mdb_find_oldest
     * returns if it is called.  The search is given up only after many records were read in vain.
     */
    method Search(num: nat, now: nat) returns (i: nat, gaveUp: bool)
      requires Valid() && num > 0
      modifies this, mop
      ensures Valid() && (mop == old(mop) || fresh(mop)) && unchanged(`db, `next, `loose, `freed, `room, `inUse)
      ensures i > 0 ==> mop != null && RunEndsAt(mop, i, num) && Lowest(Listed(mop), mop[i], num)
      ensures i == 0 ==> NoRun(Listed(mop), num) && (gaveUp || Exhausted(db, pglast, now, txnid))
      ensures pglast == old(pglast) || (pglast > old(pglast) && (pglast < old(pgoldest) || pglast < now))
      ensures pgoldest == old(pgoldest) || pgoldest == now
      ensures !NoRun(old(Listed(mop)), num) ==>
                i > 0 && pglast == old(pglast) && Listed(mop) == old(Listed(mop))
      ensures gaveUp ==> num > 1 && i == 0 && |Read(db, old(pglast), pglast)| >= num * 60
    {
      var retry, foundOld, done := num * 60, false, false;
      i, gaveUp := 0, false;
      hide Valid, NoRun, Exhausted, RunEndsAt, Lowest, Read;
      while !done
        invariant Valid() && (mop == old(mop) || fresh(mop)) && unchanged(`db, `next, `loose, `freed, `room, `inUse)
        invariant done && i > 0 ==> mop != null && RunEndsAt(mop, i, num) && Lowest(Listed(mop), mop[i], num)
        invariant done && i == 0 ==>
                    (mop != null ==> IsList(mop)) && NoRun(Listed(mop), num)
                    && (gaveUp || Exhausted(db, pglast, now, txnid))
        invariant pglast == old(pglast) || (pglast > old(pglast) && (pglast < old(pgoldest) || pglast < now))
        invariant if foundOld then pgoldest == now else pgoldest == old(pgoldest)
        invariant pglast == old(pglast) ==> mop == old(mop) && Listed(mop) == old(Listed(mop))
        invariant pglast != old(pglast) ==> NoRun(old(Listed(mop)), num)
        invariant !done ==> retry >= 0 && num * 60 - retry <= |Read(db, old(pglast), pglast)|
        invariant gaveUp ==> num > 1 && i == 0 && |Read(db, old(pglast), pglast)| >= num * 60
        decreases !done, txnid - pglast
      {
        ghost var last := pglast;
        done, i, gaveUp, retry, foundOld := SearchStep(num, retry, foundOld, now);
        if !done { ReadOne(db, old(pglast), last, pglast); }
      }
    }

    /** One scan of the list, and one more record if it finds nothing. */
    method SearchStep(num: nat, retry: nat, foundOld: bool, now: nat) returns (done: bool, i: nat, gaveUp: bool,
                      retry': int, found: bool)
      requires Valid() && num > 0 && (foundOld ==> pgoldest == now)
      modifies this, mop
      ensures Valid() && (mop == old(mop) || fresh(mop)) && unchanged(`db, `next, `loose, `freed, `room, `inUse)
      ensures done ==> pglast == old(pglast) && mop == old(mop) && Listed(mop) == old(Listed(mop))
      ensures done && i > 0 ==> mop != null && RunEndsAt(mop, i, num) && Lowest(Listed(mop), mop[i], num)
      ensures done && i == 0 ==> (gaveUp || Exhausted(db, pglast, now, txnid)) && (mop != null ==> IsList(mop))
      ensures !done || i == 0 ==> NoRun(old(Listed(mop)), num)
      ensures !done ==> old(pglast) < pglast < pgoldest && pglast < txnid && pglast in db && !gaveUp
      ensures !done ==> retry - 1 <= retry' && retry' >= 0
      ensures gaveUp ==> done && i == 0 && num > 1 && retry == 0
      ensures pgoldest == (if found && !foundOld then now else old(pgoldest)) && (foundOld ==> found)
    {
      hide Span, Held, Desc, Sound, Account, Run, NoRun, Exhausted, Everything, Lowest;
      i, gaveUp, retry', found := 0, false, retry, foundOld;
      if mop != null && mop[0] >= num {
        i := FindRun(mop, num);
        if i > 0 {
          return true, i, false, retry', found;
        }
        SomeRunOfOne(ListIn(mop));
        retry' := retry' - 1;
        if retry' < 0 {
          return true, 0, true, retry', found;
        }
      }
      Short(num);
      var more;
      more, found := FetchMore(foundOld, now);
      done := !more;
    }

    /** One more record, if there is one that no reader needs. */
    method FetchMore(foundOld: bool, now: nat) returns (more: bool, found: bool)
      requires Valid() && (foundOld ==> pgoldest == now)
      modifies this, mop
      ensures Valid() && (mop == old(mop) || fresh(mop)) && unchanged(`db, `next, `loose, `freed, `room, `inUse)
      ensures more ==> old(pglast) < pglast < pgoldest && pglast < txnid && pglast in db
      ensures !more ==>
                pglast == old(pglast) && mop == old(mop) && Exhausted(db, pglast, now, txnid)
                && Listed(mop) == old(Listed(mop))
      ensures pgoldest == (if found && !foundOld then now else old(pgoldest)) && (foundOld ==> found)
    {
      hide Span, Held, Desc, Sound, Account, ListIn;
      more := false;
      var last := pglast + 1;
      found := Oldest(last, foundOld, now);
      if pgoldest <= last {
        return;
      }
      var ok, k := NextRecord(last);
      if !ok {
        return;
      }
      found := Oldest(k, found, now);
      if pgoldest <= k {
        return;
      }
      Consume(k);
      more := true;
    }

    /** A list with fewer than num pages has no run of num. */
    lemma Short(num: nat)
      requires Valid() && num > 0
      ensures (mop == null || mop[0] < num) ==> NoRun(Listed(mop), num)
    {
      if mop == null || mop[0] < num {
        var s := Listed(mop);
        assert mop == null ==> Desc(s);
        NoRunAnywhere(s, num);
      }
    }

    /** me_pgoldest is refreshed once, and only if the cached value stands in the way. */
    method Oldest(last: nat, foundOld: bool, now: nat) returns (found: bool)
      modifies this`pgoldest
      ensures found == (foundOld || old(pgoldest) <= last)
      ensures pgoldest == if old(pgoldest) <= last && !foundOld then now else old(pgoldest)
    {
      found := foundOld;
      if pgoldest <= last && !found {
        pgoldest, found := now, true;
      }
    }

    /**
     * mdb_page_alloc: num consecutive pages become used.  A loose page is taken first, then the lowest run in
     * me_pghead, then pages of older transactions.  The file grows only if those have no such run, or the search for
     * one was given up after num * 60 records, which never happens for a single page.  To the trees it is one of the
     * allocations they are prepared for.
     */
    method AllocPages(num: nat, now: nat) returns (rc: Rc, pgno: nat, ghost gaveUp: bool)
      requires Valid() && num > 0 && maxpg <= MAX_ID
      modifies this, mop
      ensures Valid() && (mop == old(mop) || fresh(mop)) && db == old(db) && freed == old(freed)
      ensures rc == Success ==> inUse == old(inUse) + Span(pgno, pgno + num)
      ensures rc != Success ==> inUse == old(inUse) && next == old(next) && loose == old(loose) && room == old(room)
      ensures next == old(next)
              || (next == old(next) + num && pgno == old(next) && rc == Success && old(next) + num < maxpg)
      ensures if num == 1 && old(loose) != [] then
                && rc == Success && pgno == old(loose)[0] && loose == old(loose)[1..] && room == old(room)
                && next == old(next) && Listed(mop) == old(Listed(mop)) && pglast == old(pglast)
              else
                loose == old(loose) && (rc == Success ==> room == old(room) - 1)
      ensures rc == TxnFull <==> old(room == 0 && (num != 1 || loose == []))
      ensures rc == MapFull ==> old(next) + num >= maxpg
      ensures pglast == old(pglast) || (pglast > old(pglast) && (pglast < old(pgoldest) || pglast < now))
      ensures pgoldest == old(pgoldest) || pgoldest == now
      ensures old(room) > 0 && !NoRun(old(Listed(mop)), num) && (num != 1 || old(loose) == []) ==>
                rc == Success && next == old(next) && pglast == old(pglast) && Lowest(old(Listed(mop)), pgno, num)
      ensures rc == MapFull || next != old(next) ==>
                NoRun(Listed(mop), num) && (gaveUp || Exhausted(db, pglast, now, txnid))
      ensures gaveUp ==> num > 1 && |Read(db, old(pglast), pglast)| >= num * 60
      ensures rc == Success ==> CopyOnWrite.Supplied(old(Accounts({})), Accounts({}), pgno, num)
    {
      hide *;
      AccountsBalance();
      ghost var before, was := Accounts({}), inUse;
      pgno, gaveUp := 0, false;
      if num == 1 && loose != [] {
        pgno := TakeLoose();
        rc := Success;
      } else if room == 0 {
        rc := TxnFull;
      } else {
        rc, pgno, gaveUp := TakePages(num, now);
      }
      AccountsBalance();
      if rc == Success { BalanceSupplied(before, Accounts({}), was, pgno, num); }
    }

    lemma AccountsBalance()
      requires Valid()
      ensures mop != null ==> IsList(mop)
      ensures Balance(Accounts({}), inUse) && Accounts({}).next == next && Accounts({}).free == freed
    {
      hide Span, Held, Desc, Sound, ListIn;
    }

    /** The rest of mdb_page_alloc, from the search on. */
    method TakePages(num: nat, now: nat) returns (rc: Rc, pgno: nat, ghost gaveUp: bool)
      requires Valid() && num > 0 && maxpg <= MAX_ID && room > 0
      modifies this, mop
      ensures Valid() && (mop == old(mop) || fresh(mop)) && db == old(db) && freed == old(freed) && loose == old(loose)
      ensures rc == Success ==> inUse == old(inUse) + Span(pgno, pgno + num) && room == old(room) - 1
      ensures rc != Success ==>
                rc == MapFull && inUse == old(inUse) && next == old(next) && room == old(room)
                && old(next) + num >= maxpg
      ensures next == old(next)
              || (next == old(next) + num && pgno == old(next) && rc == Success && old(next) + num < maxpg)
      ensures pglast == old(pglast) || (pglast > old(pglast) && (pglast < old(pgoldest) || pglast < now))
      ensures pgoldest == old(pgoldest) || pgoldest == now
      ensures !NoRun(old(Listed(mop)), num) ==>
                rc == Success && next == old(next) && pglast == old(pglast) && Lowest(old(Listed(mop)), pgno, num)
      ensures rc == MapFull || next != old(next) ==>
                NoRun(Listed(mop), num) && (gaveUp || Exhausted(db, pglast, now, txnid))
      ensures gaveUp ==> num > 1 && |Read(db, old(pglast), pglast)| >= num * 60
    {
      hide *;
      rc, pgno := Success, 0;
      var i, stopped := Search(num, now);
      gaveUp := stopped;
      if i > 0 {
        pgno := TakeRun(i, num);
      } else if next + num >= maxpg {
        return MapFull, pgno, gaveUp;
      } else {
        pgno := TakeNew(num);
      }
      SpendRoom();
    }

    /** mdb_page_dirty: one more entry of the dirty list is taken. */
    method SpendRoom()
      requires Valid() && room > 0
      modifies this`room
      ensures Valid() && room == old(room) - 1
    {
      hide Span, Held, Desc, Sound, Account, ListIn;
      room := room - 1;
    }

    method TakeLoose() returns (pgno: nat)
      requires Valid() && loose != []
      modifies this
      ensures Valid() && loose == old(loose)[1..] && pgno == old(loose)[0] && inUse == old(inUse) + Span(pgno, pgno + 1)
      ensures unchanged(`mop, `pglast, `pgoldest, `db, `next, `freed, `room)
    {
      hide Span, Held, Desc, Sound, Account, ListIn;
      pgno := loose[0];
      SpanOne(pgno);
      LooseToUse(inUse, Held(db, pglast + 1, txnid), multiset(Listed(mop)), multiset{pgno}, multiset(loose[1..]),
        multiset(freed));
      assert loose == [pgno] + loose[1..];
      assert multiset(loose) == multiset(loose[1..]) + multiset{pgno};
      loose := loose[1..];
      inUse := inUse + multiset{pgno};
    }

    /** A page of a tree goes to mt_free_pgs. */
    method FreePages(pg: nat, n: nat)
      requires Valid() && Span(pg, pg + n) <= inUse
      modifies this
      ensures Valid() && inUse == old(inUse) - Span(pg, pg + n) && freed == old(freed) + Run(pg, n)
      ensures unchanged(`mop, `pglast, `pgoldest, `db, `next, `loose, `room)
    {
      hide Span, Held, Desc, Sound, Account, ListIn, Run;
      RunSpan(pg, n);
      ghost var r := Span(pg, pg + n);
      UseToFreed(inUse - r, Held(db, pglast + 1, txnid), multiset(Listed(mop)), r, multiset(loose), multiset(freed));
      assert inUse - r + r == inUse;
      freed := freed + Run(pg, n);
      inUse := inUse - r;
    }

    method Loosen(pg: nat)
      requires Valid() && pg in inUse
      modifies this`loose, this`inUse
      ensures Valid() && inUse == old(inUse) - multiset{pg} && loose == [pg] + old(loose)
    {
      hide Span, Held, Desc, Sound, Account, ListIn;
      LoosenFacts(pg);
      loose := [pg] + loose;
      inUse := inUse - multiset{pg};
    }

    lemma LoosenFacts(pg: nat)
      requires Valid() && pg in inUse
      ensures Account(inUse - multiset{pg}, Held(db, pglast + 1, txnid), multiset(Listed(mop)), multiset([pg] + loose),
              multiset(freed)) == Span(0, next)
    {
      hide Span, Held, Desc, Sound, Account, ListIn;
      var r := multiset{pg};
      LooseToUse(inUse - r, Held(db, pglast + 1, txnid), multiset(Listed(mop)), r, multiset(loose), multiset(freed));
      assert inUse - r + r == inUse;
      assert multiset([pg] + loose) == multiset(loose) + r;
    }

    /** mdb_page_loose: a page of this transaction can be used again at once, another one is freed. */
    method PageLoose(pg: nat, ours: bool)
      requires Valid() && pg in inUse
      modifies this
      ensures Valid() && inUse == old(inUse) - multiset{pg}
      ensures if ours then loose == [pg] + old(loose) && freed == old(freed)
              else freed == old(freed) + [pg] && loose == old(loose)
      ensures unchanged(`mop, `pglast, `pgoldest, `db, `next, `room)
    {
      hide Valid, Span, Held, Desc, Sound, Account, ListIn;
      SpanOne(pg);
      if ours {
        Loosen(pg);
      } else {
        FreePages(pg, 1);
        assert Run(pg, 1) == [pg];
      }
    }

    method AllocOne(now: nat) returns (rc: Rc, pgno: nat)
      requires Valid() && maxpg <= MAX_ID
      modifies this, mop
      ensures Valid() && (mop == old(mop) || fresh(mop)) && db == old(db) && freed == old(freed)
      ensures inUse == old(inUse) + (if rc == Success then multiset{pgno} else multiset{})
      ensures rc == TxnFull <==> old(room == 0 && loose == [])
      ensures rc == MapFull ==> old(next) + 1 >= maxpg && NoRun(Listed(mop), 1) && Exhausted(db, pglast, now, txnid)
    {
      hide *;
      ghost var gaveUp;
      rc, pgno, gaveUp := AllocPages(1, now);
      SpanOne(pgno);
    }

    /** mdb_page_touch: the copy of a clean page takes a new number, the old one is freed. */
    method PageTouch(pg: nat, now: nat) returns (rc: Rc, pgno: nat)
      requires Valid() && pg in inUse && maxpg <= MAX_ID
      modifies this, mop
      ensures Valid() && (mop == old(mop) || fresh(mop)) && db == old(db)
      ensures rc == Success ==> inUse == old(inUse) + multiset{pgno} - multiset{pg} && freed == old(freed) + [pg]
      ensures rc != Success ==> inUse == old(inUse) && freed == old(freed)
      ensures rc == TxnFull <==> old(room == 0 && loose == [])
      ensures rc == MapFull ==> old(next) + 1 >= maxpg && NoRun(Listed(mop), 1) && Exhausted(db, pglast, now, txnid)
    {
      hide *;
      rc, pgno := AllocOne(now);
      SpanOne(pg);
      if rc == Success {
        FreePages(pg, 1);
        assert Run(pg, 1) == [pg];
      }
    }

    /**
     * mdb_ovpage_free: pages of this transaction, dirty or spilled, go back to me_pghead if there is one, others
     * to mt_free_pgs.  A dirty page leaves the dirty list; in a nested transaction no page is ours.
     */
    method OvpageFree(pg: nat, n: nat, dirty: bool, spilled: bool, nested: bool)
      requires Valid() && Span(pg, pg + n) <= inUse
      modifies this, mop
      ensures Valid() && (mop == old(mop) || fresh(mop)) && inUse == old(inUse) - Span(pg, pg + n)
      ensures if old(mop) != null && !nested && (dirty || spilled) then
                && multiset(Listed(mop)) == old(multiset(Listed(mop))) + Span(pg, pg + n) && freed == old(freed)
                && room == old(room) + (if dirty then 1 else 0)
              else
                && freed == old(freed) + Run(pg, n) && mop == old(mop) && Listed(mop) == old(Listed(mop))
                && room == old(room)
      ensures unchanged(`pglast, `pgoldest, `db, `next, `loose)
    {
      hide Span, Valid, Run;
      if mop != null && !nested && (dirty || spilled) {
        if dirty {
          RegainRoom();
        }
        ReturnRun(pg, n);
      } else {
        FreePages(pg, n);
      }
    }

    method RegainRoom()
      requires Valid()
      modifies this`room
      ensures Valid() && room == old(room) + 1
    {
      hide Span, Held, Desc, Sound, Account, ListIn;
      room := room + 1;
    }

    method ReturnRun(pg: nat, n: nat)
      requires Valid() && Span(pg, pg + n) <= inUse && mop != null
      modifies this, mop
      ensures Valid() && mop != null && (mop == old(mop) || fresh(mop)) && inUse == old(inUse) - Span(pg, pg + n)
      ensures multiset(Listed(mop)) == old(multiset(Listed(mop))) + Span(pg, pg + n)
      ensures unchanged(`pglast, `pgoldest, `db, `next, `loose, `room, `freed)
    {
      hide Span, Held, Desc, Sound, Account, ListIn;
      ghost var s, r := ListIn(mop), Span(pg, pg + n);
      RunApart(pg, n);
      mop := PutRun(mop, pg, n);
      HeadToUse(inUse - r, Held(db, pglast + 1, txnid), multiset(s), r, multiset(loose), multiset(freed));
      assert inUse - r + r == inUse;
      inUse := inUse - r;
    }

    lemma RunApart(pg: nat, n: nat)
      requires Valid() && Span(pg, pg + n) <= inUse
      ensures forall x :: pg <= x < pg + n ==> x !in Listed(mop)
    {
      hide Held, Desc, Sound, Run, Span;
      forall x: nat | pg <= x < pg + n ensures x !in Listed(mop) {
        SpanAt(pg, pg + n, x);
        SpanAt(0, next, x);
        assert Everything()[x] >= inUse[x] + multiset(Listed(mop))[x];
      }
    }
  }

  /** Conservation, page by page. */
  lemma ExactlyOnePlace(a: Allocator, n: nat)
    requires a.Valid()
    ensures Span(0, NUM_METAS)[n] + a.inUse[n] + Held(a.db, a.pglast + 1, a.txnid)[n] + multiset(Listed(a.mop))[n]
            + multiset(a.loose)[n] + multiset(a.freed)[n]
            == if n < a.next then 1 else 0
  {
    SpanAt(0, a.next, n);
    assert a.Everything()[n] == Span(0, a.next)[n];
  }

  lemma EmptyDesc()
    ensures Desc([])
  {
  }

  /** The data of a record is merged into me_pghead, which is created or grown as needed. */
  method MergeRecord(mop: array?<nat>, s: seq<nat>) returns (r: array<nat>)
    requires (mop != null ==> IsList(mop) && Desc(ListIn(mop))) && Desc(s) && multiset(Listed(mop)) !! multiset(s)
    requires forall x :: x in s ==> x <= MAX_ID
    modifies mop
    ensures (r == mop || fresh(r)) && IsList(r) && Desc(ListIn(r))
            && multiset(ListIn(r)) == old(multiset(Listed(mop))) + multiset(s)
  {
    hide Desc;
    var idl := FromSeq(s);
    if mop == null {
      r := Alloc(idl[0]);
      EmptyDesc();
    } else {
      r := Need(mop, idl[0]);
    }
    assert ListIn(r) == Listed(mop);
    MergeLists(r, idl);
  }

  method MergeLists(a: array<nat>, m: array<nat>)
    requires a != m && IsList(a) && IsList(m) && a[0] + m[0] < a.Length && Desc(ListIn(a)) && Desc(ListIn(m))
    requires multiset(ListIn(a)) !! multiset(ListIn(m)) && forall x :: x in ListIn(m) ==> x <= MAX_ID
    modifies a
    ensures IsList(a) && Desc(ListIn(a)) && multiset(ListIn(a)) == old(multiset(ListIn(a)) + multiset(ListIn(m)))
  {
    hide Desc;
    forall i | 0 < i <= 0 + m[0] ensures m[i] <= MAX_ID {
      assert m[i] == ListIn(m)[i-1];
      assert ListIn(m)[i-1] in ListIn(m);
    }
    Xmerge(a, m, 0);
  }

  /** A run of pages is put into a descending list, which is grown as needed. */
  method PutRun(mop: array<nat>, pg: nat, n: nat) returns (r: array<nat>)
    requires IsList(mop) && Desc(ListIn(mop)) && forall x :: pg <= x < pg + n ==> x !in ListIn(mop)
    modifies mop
    ensures (r == mop || fresh(r)) && IsList(r) && Desc(ListIn(r))
            && multiset(ListIn(r)) == old(multiset(ListIn(mop))) + Span(pg, pg + n)
  {
    hide Desc, Span, Run;
    ghost var s := ListIn(mop);
    r := Need(mop, n);
    assert ListIn(r) == s;
    ghost var p := InsertRun(r, pg, n);
    InsertedRun(s, pg, n, p);
    RunSpan(pg, n);
  }
}
