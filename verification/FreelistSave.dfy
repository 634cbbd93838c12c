/**
 * mdb_freelist_save: the pages freed by a transaction and those it did not use up are written to the freeDB,
 * while every write to the freeDB may itself take and free pages.
 *
 * What a nested operation on the freeDB does to the lists is not known; a script says it, one entry for each
 * operation.  An operation fails when its entry is not one of those the comment in the code allows, and when
 * the script ends: a run that succeeds is a run with some finite script.
 */
module FreelistSave {
  import opened Common
  import opened PageNumbers
  import opened IdLists
  import IdSort

  /** A freeDB record: the room reserved for IDs, and the IDs it holds. */
  datatype Record = Record(room: nat, ids: seq<nat>)

  type Db = map<nat, Record>

  /**
   * me_pghead afterwards, how many loose pages were used, what mt_free_pgs gained, me_pglast and mt_next_pgno
   * afterwards, and the pages of all trees then.
   */
  datatype Effect = Effect(head: seq<nat>, used: nat, gained: seq<nat>, pglast: nat, next: nat, trees: multiset<nat>)

  predicate Distinct(s: seq<nat>) {
    forall i, j :: 0 <= i < j < |s| ==> s[i] != s[j]
  }

  predicate AllIds(s: seq<nat>) {
    forall i :: 0 <= i < |s| ==> s[i] <= MAX_ID
  }

  lemma NoIds()
    ensures AllIds([])
  {
  }

  // ---- Records with keys in a range ----

  function Room(db: Db, a: nat, b: nat): nat
    decreases b
  {
    if b <= a then 0 else Room(db, a, b - 1) + (if b - 1 in db then db[b-1].room else 0)
  }

  /** The IDs of the records with keys from a on, below b, highest key first. */
  function Chunks(db: Db, a: nat, b: nat): seq<nat>
    decreases b
  {
    if b <= a then [] else (if b - 1 in db then db[b-1].ids else []) + Chunks(db, a, b - 1)
  }

  lemma {:induction false} RoomFirst(db: Db, a: nat, b: nat)
    requires a < b
    ensures Room(db, a, b) == (if a in db then db[a].room else 0) + Room(db, a + 1, b)
    decreases b
  {
    if a + 1 < b { RoomFirst(db, a, b - 1); }
  }

  lemma {:induction false} ChunksFirst(db: Db, a: nat, b: nat)
    requires a < b
    ensures Chunks(db, a, b) == Chunks(db, a + 1, b) + (if a in db then db[a].ids else [])
    decreases b
  {
    if a + 1 < b { ChunksFirst(db, a, b - 1); }
  }

  lemma {:induction false} RoomSame(db: Db, db': Db, a: nat, b: nat)
    requires forall k :: a <= k < b ==> (k in db <==> k in db') && (k in db ==> db[k] == db'[k])
    ensures Room(db, a, b) == Room(db', a, b) && Chunks(db, a, b) == Chunks(db', a, b)
    decreases b
  {
    if a < b { RoomSame(db, db', a, b - 1); }
  }

  lemma {:induction false} RoomSkip(db: Db, a: nat, k: nat, b: nat)
    requires a <= k <= b && forall x :: a <= x < k ==> x !in db
    ensures Room(db, a, b) == Room(db, k, b) && Chunks(db, a, b) == Chunks(db, k, b)
    decreases k - a
  {
    if a < k {
      RoomFirst(db, a, b);
      ChunksFirst(db, a, b);
      RoomSkip(db, a + 1, k, b);
    }
  }

  // ---- The loose pages, merged into me_pghead ----

  lemma {:induction false} DistinctBag(s: seq<nat>, t: seq<nat>)
    requires multiset(s) == multiset(t) && Distinct(s)
    ensures Distinct(t)
  {
    forall i, j | 0 <= i < j < |t| ensures t[i] != t[j] {
      if t[i] == t[j] {
        TwiceIn(t, i, j);
        OnceIn(s, t[i]);
      }
    }
  }

  lemma TwiceIn(t: seq<nat>, i: nat, j: nat)
    requires i < j < |t| && t[i] == t[j]
    ensures multiset(t)[t[i]] >= 2
  {
    assert t == t[..i] + [t[i]] + t[i+1..j] + [t[j]] + t[j+1..];
  }

  lemma {:induction false} OnceIn(s: seq<nat>, x: nat)
    requires Distinct(s)
    ensures multiset(s)[x] <= 1
  {
    if s != [] {
      var init := s[..|s|-1];
      assert s == init + [s[|s|-1]];
      OnceIn(init, x);
      if s[|s|-1] == x {
        assert x !in init;
      }
    }
  }

  lemma DistinctFalls(s: seq<nat>)
    requires Distinct(s) && Falling(s)
    ensures Desc(s)
  {
  }

  /**
   * The loose pages are listed at the tail of me_pghead's own array, sorted there and merged.  Room for twice
   * their number keeps the merged list clear of the tail.
   */
  method MergeLoose(mop: array<nat>, loose: seq<nat>) returns (r: array<nat>)
    requires IsList(mop) && Desc(ListIn(mop)) && Distinct(loose) && multiset(ListIn(mop)) !! multiset(loose)
    requires |loose| <= IdSort.SAFE_LENGTH && AllIds(loose)
    modifies mop
    ensures (r == mop || fresh(r)) && IsList(r) && Desc(ListIn(r))
            && multiset(ListIn(r)) == old(multiset(ListIn(mop))) + multiset(loose)
  {
    hide Desc, Distinct;
    ghost var s := ListIn(mop);
    r := Need(mop, 2 * |loose| + 1);
    var o := r.Length - 1 - |loose|;
    FillTail(r, o, loose, s);
    SortTail(r, o, s, loose);
    assert r[1..r[0]+1] == s;
    MergeTail(r, o, loose);
  }

  method MergeTail(r: array<nat>, o: nat, ghost loose: seq<nat>)
    requires IsList(r) && o < r.Length && r[o] == |loose| && o + |loose| < r.Length && r[0] + |loose| < o
    requires Desc(ListIn(r)) && Desc(r[o+1..o+1+|loose|]) && multiset(r[o+1..o+1+|loose|]) == multiset(loose)
    requires multiset(ListIn(r)) !! multiset(loose) && forall i :: o < i <= o + |loose| ==> r[i] <= MAX_ID
    modifies r
    ensures IsList(r) && Desc(ListIn(r)) && multiset(ListIn(r)) == old(multiset(ListIn(r))) + multiset(loose)
  {
    hide Desc;
    Xmerge(r, r, o);
  }

  method FillTail(r: array<nat>, o: nat, loose: seq<nat>, ghost s: seq<nat>)
    requires IsList(r) && r[0] < o < r.Length && o + |loose| == r.Length - 1 && ListIn(r) == s
    modifies r
    ensures IsList(r) && r[0] == |s| && ListIn(r) == s && r[o] == |loose| && r[o+1..o+1+|loose|] == loose
  {
    var i := 0;
    while i < |loose|
      invariant i <= |loose| && r[0] == |s|
      invariant forall k :: 1 <= k <= |s| ==> r[k] == s[k-1]
      invariant forall k :: o < k <= o + i ==> r[k] == loose[k-o-1]
    {
      r[o+1+i] := loose[i];
      i := i + 1;
    }
    r[o] := |loose|;
    forall k | 0 <= k < |loose| ensures r[o+1..o+1+|loose|][k] == loose[k] {
      assert r[o+1+k] == loose[k];
    }
    forall k | 0 <= k < |s| ensures ListIn(r)[k] == s[k] {
      assert r[k+1] == s[k];
    }
  }

  lemma SamePrefix(a: seq<nat>, b: seq<nat>, n: nat, k: nat)
    requires 1 <= k <= n <= |a| && n <= |b| && a[..n] == b[..n]
    ensures a[1..k] == b[1..k]
  {
    assert a[1..k] == a[..n][1..k] && b[1..k] == b[..n][1..k];
  }

  method SortTail(r: array<nat>, o: nat, ghost s: seq<nat>, ghost loose: seq<nat>)
    requires IsList(r) && r[0] < o < r.Length && r[o] == |loose| <= IdSort.SAFE_LENGTH && o + |loose| == r.Length - 1
    requires ListIn(r) == s && r[o+1..o+1+|loose|] == loose && Distinct(loose)
    requires AllIds(loose)
    modifies r
    ensures r[0] == |s| && r[o] == |loose| && r[1..|s|+1] == s
    ensures Desc(r[o+1..o+1+|loose|]) && multiset(r[o+1..o+1+|loose|]) == multiset(loose)
    ensures forall i :: o < i <= o + |loose| ==> r[i] <= MAX_ID
  {
    hide IdSort.Permuted, IdSort.Sorted, Distinct, Desc, AllIds;
    ghost var before := r[..];
    var _ := IdSort.Sort(r, o);
    SortedPart(before, r[..], o, |loose|, s, loose);
    ghost var t := r[o+1..o+1+|loose|];
    DistinctBag(loose, t);
    DistinctFalls(t);
    SameIds(t, loose);
  }

  lemma SortedPart(m: seq<nat>, m': seq<nat>, o: nat, n: nat, s: seq<nat>, t: seq<nat>)
    requires |s| < o && o + n < |m| && m[0] == |s| && m[o] == n && m[1..|s|+1] == s && m[o+1..o+1+n] == t
    requires IdSort.Permuted(m, m', o + 1, o + 1 + n) && IdSort.Sorted(m', o + 1, o + 1 + n)
    ensures |m'| == |m| && m'[0] == |s| && m'[o] == n && m'[1..|s|+1] == s
    ensures Falling(m'[o+1..o+1+n]) && multiset(m'[o+1..o+1+n]) == multiset(t)
  {
    assert m'[0] == m'[..o+1][0] == m[..o+1][0] && m'[o] == m'[..o+1][o] == m[..o+1][o];
    SamePrefix(m', m, o + 1, |s| + 1);
  }

  lemma SameIds(t: seq<nat>, s: seq<nat>)
    requires multiset(t) == multiset(s) && AllIds(s)
    ensures forall i :: 0 <= i < |t| ==> t[i] <= MAX_ID
  {
    forall i | 0 <= i < |t| ensures t[i] <= MAX_ID {
      assert t[i] in multiset(t);
      assert t[i] in s;
    }
  }

  // ---- Saving ----

  /** The local variables of mdb_freelist_save. */
  datatype Progress = Progress(plast: nat, headId: nat, freecnt: nat, headRoom: nat, totalRoom: nat)

  /** Records with keys up to plast are those reserved since the last deletion; they are still empty. */
  ghost predicate Reserved(db: Db, p: Progress) {
    && p.headId <= p.plast && (p.plast > 0 ==> p.headId > 0)
    && (forall k :: k in db && k <= p.plast ==> p.headId <= k && db[k].ids == [])
    && p.totalRoom == Room(db, p.headId, p.plast + 1)
    && p.headRoom == (if p.headId in db then db[p.headId].room else 0)
  }

  /** The record of this transaction holds the first freecnt IDs of mt_free_pgs, in order. */
  ghost predicate Recorded(db: Db, txnid: nat, freed: seq<nat>, freecnt: nat) {
    && freecnt <= |freed|
    && (freecnt == 0 ==> txnid !in db)
    && (freecnt > 0 ==> txnid in db && db[txnid].ids == freed[..freecnt] && Falling(freed[..freecnt]))
  }

  /** Records newer than last, other than that of this transaction, are as they were. */
  ghost predicate Kept(db: Db, db0: Db, last: nat, txnid: nat) {
    forall k :: last < k && k != txnid ==> (k in db <==> k in db0) && (k in db ==> db[k] == db0[k])
  }

  /**
   * Every page number is in one place: a meta page, a tree, a record newer than last and older than this
   * transaction, or one of the lists.
   */
  predicate Conserved(db: Db, last: nat, txnid: nat, trees: multiset<nat>, listed: multiset<nat>, next: nat) {
    Span(0, NUM_METAS) + trees + multiset(Chunks(db, last + 1, txnid)) + listed == Span(0, next)
  }

  lemma ConservedSame(db: Db, db': Db, last: nat, txnid: nat, trees: multiset<nat>, listed: multiset<nat>, next: nat)
    requires Conserved(db, last, txnid, trees, listed, next)
    requires forall k :: last < k < txnid ==> (k in db <==> k in db') && (k in db ==> db[k] == db'[k])
    ensures Conserved(db', last, txnid, trees, listed, next)
  {
    RoomSame(db, db', last + 1, txnid);
  }

  function Bag(head: seq<nat>, loose: seq<nat>, freed: seq<nat>): multiset<nat> {
    multiset(head) + multiset(loose) + multiset(freed)
  }

  /** me_pghead in order and created along with me_pglast, no page both there and loose, lists that can be sorted. */
  predicate Lists(txnid: nat, head: seq<nat>, loose: seq<nat>, freed: seq<nat>, pglast: nat) {
    && pglast < txnid && (pglast == 0 ==> head == []) && Desc(head) && Distinct(head + loose) && AllIds(loose)
    && |loose| + |freed| <= IdSort.SAFE_LENGTH
  }

  /** The share of one record when there are id of them, rounded to whole pages. */
  function Amortized(room: nat, id: nat, maxfree: nat): nat
    requires id > 0
  {
    var share := room / id;
    share + maxfree - share % (maxfree + 1)
  }

  lemma AmortizedRounds(room: nat, id: nat, maxfree: nat)
    requires id > 0
    ensures var r := Amortized(room, id, maxfree);
            r >= maxfree && room / id <= r <= room / id + maxfree && (r + 1) % (maxfree + 1) == 0
  {
    var share, page := room / id, maxfree + 1;
    assert share == share / page * page + share % page;
    assert Amortized(room, id, maxfree) + 1 == share / page * page + page;
    WholePages(share / page, page);
  }

  lemma WholePages(q: nat, page: nat)
    requires page > 0
    ensures (q * page + page) % page == 0
  {
    var x := q * page + page;
    var d := q + 1 - x / page;
    assert x == x / page * page + x % page;
    assert x == (q + 1) * page;
    assert d * page == x % page;
    assert d >= 1 ==> d * page >= page;
  }

  // ---- When the loop ends ----

  /** How many more operations the loop takes at most, once they change nothing any more. */
  function Bound(pglast: nat): nat { 3 * pglast + 4 }

  /** How many of them may still be needed to reserve room for m IDs. */
  function ReserveNeed(p: Progress, maxfree: nat, m: nat, more: nat): nat {
    if p.totalRoom == m || (p.totalRoom > m && more == 0) then 0
    else 2 * p.headId + (if p.headRoom < maxfree then 1 else 0) + more
  }

  /** Which record is written next, and with room for how many IDs; p' is p with that record current. */
  ghost predicate Chosen(p: Progress, p': Progress, room: nat, maxfree: nat, m: nat) {
    && p' == (if p.totalRoom < m && p.headRoom >= maxfree && p.headId > 1 then p.(headId := p.headId - 1, headRoom := 0)
              else p)
    && p'.headRoom <= p'.totalRoom && p'.headId > 0
    && var rest := p'.totalRoom - p'.headRoom;
       if rest > m then room == 0
       else if m - rest <= maxfree || p'.headId == 1 then room == m - rest
       else
         var share := (m - rest) / p'.headId;
         room >= maxfree && share <= room <= share + maxfree && (room + 1) % (maxfree + 1) == 0
  }

  /** Writing it brings the loop nearer to its end. */
  lemma NeedFalls(p: Progress, p': Progress, room: nat, maxfree: nat, m: nat, more: nat)
    requires Chosen(p, p', room, maxfree, m) && p.headId > 0 && p.totalRoom != m
    requires p.totalRoom > m ==> more == 0
    ensures var q := p'.(headRoom := room, totalRoom := p'.totalRoom - p'.headRoom + room);
            ReserveNeed(q, maxfree, m, more) + 1 <= ReserveNeed(p, maxfree, m, if p.totalRoom > m then 1 else more)
  {
  }

  /** From entry m on the script says that nothing changes. */
  ghost predicate Quiet(script: seq<Effect>, m: nat) {
    && 0 < m <= |script|
    && var e := script[m-1];
       forall i :: m <= i < |script| ==> script[i] == Effect(e.head, 0, [], e.pglast, e.next, e.trees)
  }

  /** Sooner or later nothing changes any more, for long enough. */
  ghost predicate Settling(script: seq<Effect>) {
    exists m: nat :: Quiet(script, m) && |script| >= m + Bound(script[m-1].pglast)
  }

  lemma QuietStep(script: seq<Effect>, m: nat)
    requires Quiet(script, m) && m > 1
    ensures Quiet(script[1..], m - 1) && script[1..][m-2] == script[m-1]
  {
    var t := script[1..];
    forall i | m - 1 <= i < |t|
      ensures t[i] == Effect(t[m-2].head, 0, [], t[m-2].pglast, t[m-2].next, t[m-2].trees)
    {
      assert t[i] == script[i+1];
    }
  }

  ghost predicate AllAre(script: seq<Effect>, head: seq<nat>, pglast: nat, next: nat, trees: multiset<nat>) {
    forall i :: 0 <= i < |script| ==> script[i] == Effect(head, 0, [], pglast, next, trees)
  }

  class Saver {
    const txnid: nat
    const maxfree: nat       // me_maxfree_1pg
    var head: seq<nat>       // me_pghead, none as long as me_pglast is 0
    var loose: seq<nat>      // mt_loose_pgs
    var freed: seq<nat>      // mt_free_pgs
    var pglast: nat          // me_pglast
    var db: Db
    var next: nat            // mt_next_pgno
    var script: seq<Effect>  // what nested operations will do
    ghost var trees: multiset<nat>   // the pages of all trees, that of the freeDB included
    ghost var listed: multiset<nat>  // all pages of the three lists; only nested operations change it

    constructor (txnid: nat, maxfree: nat, head: seq<nat>, loose: seq<nat>, freed: seq<nat>, pglast: nat, db: Db,
                 next: nat,
                 script: seq<Effect>, ghost trees: multiset<nat>)
      requires Lists(txnid, head, loose, freed, pglast)
      requires (forall k :: k in db ==> 0 < k < txnid) && (pglast > 0 ==> pglast in db)
      requires Conserved(db, pglast, txnid, trees, Bag(head, loose, freed), next)
      ensures Valid() && this.db == db && this.txnid == txnid && this.pglast == pglast && this.next == next
              && this.trees == trees
      ensures this.head == head && this.loose == loose && this.freed == freed && this.script == script
              && this.maxfree == maxfree
    {
      this.txnid, this.maxfree, this.head, this.loose, this.freed := txnid, maxfree, head, loose, freed;
      this.pglast, this.db, this.next, this.script, this.trees := pglast, db, next, script, trees;
      listed := Bag(head, loose, freed);
    }

    ghost predicate Valid()
      reads this`head, this`loose, this`freed, this`pglast, this`db, this`next, this`trees, this`listed
    {
      && Lists(txnid, head, loose, freed, pglast) && (forall k :: k in db ==> 0 < k <= txnid)
      && listed == Bag(head, loose, freed)
      && Conserved(db, pglast, txnid, trees, listed, next)
    }

    /**
     * me_pghead can grow and shrink, me_pglast, mt_free_pgs and the file only grow, loose pages are only used up,
     * and no page is lost or in two places.
     */
    predicate Allowed(e: Effect)
      reads this`loose, this`freed, this`pglast, this`db, this`next
    {
      && e.used <= |loose| && next <= e.next && Lists(txnid, e.head, loose[e.used..], freed + e.gained, e.pglast)
      && (e.pglast == pglast || (pglast < e.pglast && e.pglast in db))
      && Conserved(db, e.pglast, txnid, e.trees, Bag(e.head, loose[e.used..], freed + e.gained), e.next)
    }

    /** None of the operations to come changes anything. */
    ghost predicate Calm()
      reads this`head, this`pglast, this`next, this`trees, this`script
    {
      AllAre(script, head, pglast, next, trees)
    }

    /** The script lasts: for need more operations if they change nothing, and otherwise until long after they do. */
    ghost predicate Lasts(need: nat)
      reads this`head, this`pglast, this`next, this`trees, this`script
    {
      if Calm() then |script| >= need else Settling(script)
    }

    /** How many more operations the loop needs at most if none of them changes anything. */
    ghost function Need(p: Progress, more: nat): nat
      reads this`head, this`loose, this`freed, this`pglast
    {
      (if p.freecnt < |freed| then 2 else 0) +
      if p.plast < pglast then 3 * pglast + 1 + more else ReserveNeed(p, maxfree, |head| + |loose|, more)
    }

    lemma NeedBounded(p: Progress, more: nat)
      requires p.headId <= p.plast <= pglast && more <= 1
      ensures Need(p, more) <= Bound(pglast) && (p.freecnt >= |freed| ==> Need(p, more) + 2 <= Bound(pglast))
    {
    }

    lemma LastsLess(n: nat, m: nat)
      requires m <= n
      ensures Lasts(n) ==> Lasts(m)
    {
    }

    /** Why an operation failed. */
    ghost predicate Refused()
      reads this`loose, this`freed, this`pglast, this`db, this`next, this`script
    {
      script == [] || !Allowed(script[0])
    }

    /**
     * An operation on the freeDB, as far as it shows in the lists.  It fails only if its entry is not allowed; one
     * that changes nothing always is.
     */
    method Nested() returns (ok: bool)
      requires Valid()
      modifies this`head, this`loose, this`freed, this`pglast, this`next, this`script, this`trees, this`listed
      ensures Valid() && old(pglast) <= pglast && old(freed) <= freed && (old(loose) == [] ==> loose == [])
      ensures ok ==> |script| < old(|script|)
      ensures pglast == old(pglast) || pglast in db
      ensures !ok ==> Refused() && unchanged(this)
      ensures old(Calm()) ==>
                && Calm() && (ok <==> old(script) != []) && (ok ==> |script| + 1 == old(|script|))
                && head == old(head) && loose == old(loose) && freed == old(freed) && pglast == old(pglast)
      ensures ok && !old(Calm()) && old(Settling(script)) ==> Lasts(Bound(pglast))
      ensures !old(Calm()) && old(Settling(script)) ==> old(script) != []
    {
      hide Conserved, Lists, Bag, Quiet, Settling, AllAre, Allowed, Valid, Bound;
      CalmAllowed();
      SettlingLast();
      if script == [] || !Allowed(script[0]) {
        return false;
      }
      var e := script[0];
      Passing(e);
      script := script[1..];
      Apply(e);
      ok := true;
    }

    lemma Older()
      requires Valid()
      ensures pglast < txnid
    {
    }

    lemma CalmAllowed()
      requires Valid()
      ensures script != [] && Calm() ==> Allowed(script[0])
    {
      hide Conserved, Lists, Bag;
      assert loose[0..] == loose && freed + [] == freed;
    }

    lemma SettlingLast()
      ensures Settling(script) ==> script != []
    {
    }

    /** What is left of the script after its first entry, in the state that entry leads to. */
    lemma Passing(e: Effect)
      requires script != [] && e == script[0]
      ensures Calm() ==>
                e == Effect(head, 0, [], pglast, next, trees) && AllAre(script[1..], head, pglast, next, trees)
      ensures !Calm() && Settling(script) ==>
                if AllAre(script[1..], e.head, e.pglast, e.next, e.trees) then |script[1..]| >= Bound(e.pglast)
                else Settling(script[1..])
    {
      if Settling(script) {
        var m: nat :| Quiet(script, m) && |script| >= m + Bound(script[m-1].pglast);
        if m > 1 {
          QuietStep(script, m);
          assert Quiet(script[1..], m - 1);
        }
      }
    }

    method Apply(e: Effect)
      requires Valid() && Allowed(e)
      modifies this`head, this`loose, this`freed, this`pglast, this`next, this`trees, this`listed
      ensures Valid() && old(pglast) <= pglast && freed == old(freed) + e.gained && (old(loose) == [] ==> loose == [])
      ensures pglast == old(pglast) || pglast in db
      ensures head == e.head && loose == old(loose)[e.used..] && pglast == e.pglast && next == e.next
              && trees == e.trees
    {
      hide Conserved, Lists, Bag;
      head, loose, freed, pglast := e.head, loose[e.used..], freed + e.gained, e.pglast;
      next, trees := e.next, e.trees;
      listed := Bag(head, loose, freed);
    }

    /** A record of this transaction, or one in place of those consumed. */
    method Write(k: nat, r: Record)
      requires Valid() && 0 < k && (k <= pglast || k == txnid)
      modifies this`db
      ensures Valid() && db == old(db)[k := r]
    {
      hide Conserved, Distinct, Desc, AllIds, Bag;
      ConservedSame(db, db[k := r], pglast, txnid, trees, listed, next);
      db := db[k := r];
    }

    method Erase(k: nat)
      requires Valid() && k <= pglast
      modifies this`db
      ensures Valid() && db == old(db) - {k}
    {
      hide Conserved, Distinct, Desc, AllIds, Bag;
      ConservedSame(db, db - {k}, pglast, txnid, trees, listed, next);
      db := db - {k};
    }

    /** What the loop keeps. */
    ghost predicate Inv(p: Progress, db0: Db)
      reads this
    {
      && Valid() && Reserved(db, p) && Recorded(db, txnid, freed, p.freecnt) && Kept(db, db0, pglast, txnid)
      && p.plast <= pglast && (p.plast < pglast ==> pglast in db) && (pglast == 0 ==> loose == [])
    }

    /** The record with the lowest key (mdb_cursor_first). */
    method FirstKey() returns (ok: bool, k: nat)
      requires Valid()
      ensures ok ==> k in db && forall x :: x in db ==> k <= x
      ensures !ok ==> forall x :: x !in db
    {
      hide Lists, Conserved, Bag;
      k := 0;
      while k <= txnid && k !in db
        invariant k <= txnid + 1 && forall x :: x in db ==> k <= x
      {
        k := k + 1;
      }
      ok := k <= txnid;
    }

    /** Delete the records that were consumed, and with them those reserved so far. */
    method DeleteConsumed(p: Progress, ghost db0: Db, ghost more: nat) returns (ok: bool, p': Progress)
      requires Inv(p, db0) && more <= 1
      modifies this
      ensures ok ==> Inv(p', db0) && p'.plast == pglast && |script| <= old(|script|) && p'.freecnt == p.freecnt
      ensures !ok ==> Refused()
      ensures old(Calm()) ==> Calm()
      ensures old(Lasts(Need(p, more))) ==> if ok then Lasts(Need(p', more)) else script != [] && !Calm()
    {
      hide Reserved, Recorded, Kept, Distinct, Desc, Conserved, AllIds, Bag, Calm, Settling, Refused;
      p', ok := p, true;
      ghost var low, l := 1, old(Lasts(Need(p, more)));
      while p'.plast < pglast
        invariant Inv(p', db0) && |script| <= old(|script|) && p'.freecnt == p.freecnt && ok
        invariant old(Calm()) ==> Calm()
        invariant 0 < low && (forall x :: x in db ==> low <= x)
        invariant p' == p || (p'.headId == p'.plast == low - 1 && p'.plast <= pglast)
        invariant l && p'.plast >= pglast ==> Lasts(Need(p', more))
        invariant l && p'.plast < pglast ==>
                    Lasts((if p.freecnt < |freed| then 2 else 0) + (pglast + 1 - low) + 2 * pglast + 1 + more)
        decreases |script|
      {
        ok, p' := DeleteFirst(p', db0);
        low := p'.plast + 1;
        if !ok {
          return;
        }
        DeletedNeed(p', more);
      }
    }

    /** After a deletion: the records that may still have to go, and the room to reserve for all pages. */
    lemma DeletedNeed(p: Progress, more: nat)
      requires p.headId == p.plast <= pglast && more <= 1
      ensures Need(p, more) <= Bound(pglast)
      ensures p.plast == pglast ==>
                Need(p, more) <= (if p.freecnt < |freed| then 2 else 0) + 2 * pglast + 1 + more
      ensures (if p.freecnt < |freed| then 2 else 0) + (pglast - p.plast) + 2 * pglast + 1 + more <= Bound(pglast)
    {
    }

    method DeleteFirst(p: Progress, ghost db0: Db) returns (ok: bool, p': Progress)
      requires Inv(p, db0) && p.plast < pglast
      modifies this
      ensures ok ==> Inv(p', db0) && |script| < old(|script|) && p'.freecnt == p.freecnt
      ensures ok ==> p'.headId == p'.plast <= pglast && (forall x :: x in db ==> p'.plast < x) && p'.plast in old(db)
      ensures !ok ==> Refused()
      ensures old(Calm()) ==>
                && Calm() && (ok <==> old(script) != []) && (ok ==> |script| + 1 == old(|script|))
                && head == old(head) && loose == old(loose) && freed == old(freed) && pglast == old(pglast)
      ensures ok && !old(Calm()) && old(Settling(script)) ==> Lasts(Bound(pglast))
      ensures !ok && !old(Calm()) && old(Settling(script)) ==> script != [] && !Calm()
    {
      hide Reserved, Recorded, Kept, Distinct, Desc, Conserved, AllIds, Bag, Calm, Settling, Refused, Bound;
      var found, k := FirstKey();
      p' := p;
      assert found && 0 < k <= pglast;
      ghost var freed0, last0 := freed, pglast;
      hide Valid;
      ok := Nested();
      if !ok {
        return;
      }
      DeletedFirst(db, k, p);
      RecordedMore(db, txnid, freed0, freed, p.freecnt);
      RecordedOther(db, db - {k}, txnid, freed, p.freecnt);
      KeptLess(db, db - {k}, db0, last0, pglast, txnid);
      Erase(k);
      p' := p.(plast := k, headId := k, headRoom := 0, totalRoom := 0);
    }

    /** The record of this transaction is written, again and again while mt_free_pgs grows, then filled in order. */
    method SaveFreed(p: Progress, ghost db0: Db, ghost more: nat) returns (ok: bool, p': Progress)
      requires Inv(p, db0) && p.plast == pglast && p.freecnt < |freed| && more <= 1
      modifies this
      ensures ok ==> Inv(p', db0) && |script| < old(|script|) && p'.freecnt == |freed|
      ensures !ok ==> Refused()
      ensures old(Calm()) ==> Calm()
      ensures old(Lasts(Need(p, more))) ==> if ok then Lasts(Need(p', more)) else script != [] && !Calm()
    {
      hide Reserved, Recorded, Kept, Distinct, Desc, Conserved, Valid, AllIds, Bag, Calm, Settling, Refused;
      RoomHas(db, p);
      p' := p;
      ghost var db1 := db;
      ok := WriteRecord(p.freecnt == 0);
      if !ok {
        return;
      }
      p' := p.(freecnt := |freed|);
      ReservedOther(db1, db, p, p', txnid);
      NowRecorded(db, txnid, freed);
      KeptLess(db1, db, db0, p.plast, pglast, txnid);
      NeedBounded(p', more);
    }

    /** The last page of the freeDB is touched first if there is no record yet. */
    method WriteRecord(first: bool) returns (ok: bool)
      requires Valid() && freed != []
      modifies this
      ensures ok ==>
                && Valid() && |script| < old(|script|) && freed != [] && Falling(freed)
                && db == old(db)[txnid := Record(|freed|, freed)] && pglast < txnid
      ensures ok ==>
                old(pglast) <= pglast && (old(pglast) < pglast ==> pglast in old(db))
                && (old(loose) == [] ==> loose == [])
      ensures !ok ==> Refused()
      ensures old(Calm()) ==>
                && Calm() && (old(|script|) >= 2 ==> ok) && (ok ==> |script| + 2 >= old(|script|))
                && head == old(head) && loose == old(loose) && pglast == old(pglast)
      ensures !old(Calm()) && old(Settling(script)) ==>
                if ok then Lasts(Bound(pglast) - 1) else script != [] && !Calm()
    {
      hide Falling, Valid, Calm, Settling, Refused;
      ok := true;
      if first {
        ok := Nested();
        if !ok {
          return;
        }
      }
      ok := PutUntilStable();
      if !ok {
        return;
      }
      WriteFreed();
    }

    method PutUntilStable() returns (ok: bool)
      requires Valid() && freed != []
      modifies this
      ensures !ok ==> Refused()
      ensures old(Calm()) ==>
                && Calm() && (ok <==> old(script) != []) && (ok ==> |script| + 1 == old(|script|))
                && head == old(head) && loose == old(loose) && |freed| == old(|freed|) && pglast == old(pglast)
      ensures !old(Calm()) && old(Settling(script)) ==>
                if ok then Lasts(Bound(pglast) - 1) else script != [] && !Calm()
      ensures ok ==> Valid() && |script| < old(|script|) && freed != [] && db == old(db)[txnid := Record(|freed|, [])]
      ensures ok ==>
                old(pglast) <= pglast && (old(pglast) < pglast ==> pglast in old(db))
                && (old(loose) == [] ==> loose == [])
    {
      hide Calm, Settling, Refused, Valid;
      var cnt: nat := |freed|;
      ok := Nested();
      if !ok {
        return;
      }
      Older();
      Write(txnid, Record(cnt, []));
      while cnt < |freed|
        invariant old(Calm()) ==>
                    && Calm() && cnt == |freed| == old(|freed|) && |script| + 1 == old(|script|)
                    && head == old(head) && loose == old(loose) && pglast == old(pglast)
        invariant !old(Calm()) && old(Settling(script)) ==>
                    Lasts(if cnt < |freed| then Bound(pglast) else Bound(pglast) - 1)
        invariant Valid() && db == old(db)[txnid := Record(cnt, [])] && cnt <= |freed| && |freed| > 0 && ok
        invariant old(pglast) <= pglast && (old(pglast) < pglast ==> pglast in old(db))
                  && (old(loose) == [] ==> loose == [])
        invariant |script| < old(|script|)
        decreases |script|
      {
        cnt := |freed|;
        ok := Nested();
        if !ok {
          return;
        }
        Older();
        Write(txnid, Record(cnt, []));
      }
    }

    /** The list is sorted and copied into its record. */
    method WriteFreed()
      requires Valid() && txnid in db
      modifies this`freed, this`db
      ensures Valid() && pglast < txnid && |freed| == old(|freed|) && Falling(freed)
              && db == old(db)[txnid := Record(|freed|, freed)]
    {
      hide Distinct, Desc, Conserved, Falling, AllIds, Bag;
      SortFreed();
      Write(txnid, Record(|freed|, freed));
    }

    /** mdb_midl_sort of mt_free_pgs. */
    method SortFreed()
      requires Valid()
      modifies this`freed
      ensures Valid() && |freed| == old(|freed|) && Falling(freed) && multiset(freed) == old(multiset(freed))
    {
      hide Distinct, Desc, Conserved, AllIds, Bag;
      var a := Sorted(freed);
      BagOf(head, loose, freed, head, loose, a);
      freed := a;
    }

    /** Room for me_pghead and the loose pages: the current record is written again, or one more below it. */
    method Reserve(p: Progress, ghost db0: Db, ghost more: nat) returns (ok: bool, p': Progress)
      requires Inv(p, db0) && p.plast == pglast && pglast > 0 && more <= 1 && p.freecnt == |freed|
      requires var m := |head| + |loose|; p.totalRoom != m && (p.totalRoom > m ==> more == 0)
      modifies this
      ensures ok ==> Inv(p', db0) && |script| < old(|script|) && p'.freecnt == p.freecnt
      ensures !ok ==> Refused()
      ensures old(Calm()) ==> Calm()
      ensures old(Lasts(Need(p, if p.totalRoom > |head| + |loose| then 1 else more))) ==>
                if ok then Lasts(Need(p', more)) else script != [] && !Calm()
    {
      hide Reserved, Recorded, Kept, Distinct, Desc, Conserved, AllIds, Bag, Calm, Settling, Refused, ReserveNeed,
           Chosen, Lists;
      RoomHas(db, p);
      ghost var m := |head| + |loose|;
      var headRoom;
      p', headRoom := NewRoom(p, |head| + |loose|);
      NeedFalls(p, p', headRoom, maxfree, m, more);
      ghost var freed0, db1, last0 := freed, db, pglast;
      ok := Nested();
      if !ok {
        return;
      }
      Older();
      ReservedPut(db, p', headRoom);
      RecordedMore(db1, txnid, freed0, freed, p.freecnt);
      RecordedOther(db1, db[p'.headId := Record(headRoom, [])], txnid, freed, p.freecnt);
      KeptLess(db1, db[p'.headId := Record(headRoom, [])], db0, last0, pglast, txnid);
      Write(p'.headId, Record(headRoom, []));
      p' := p'.(headRoom := headRoom, totalRoom := p'.totalRoom - p'.headRoom + headRoom);
      NeedBounded(p', more);
    }

    /** Which record to write next, and with room for how many IDs. */
    method NewRoom(p: Progress, mopLen: nat) returns (p': Progress, room: nat)
      requires Reserved(db, p) && p.plast > 0
      ensures Reserved(db, p') && p'.plast == p.plast && p'.freecnt == p.freecnt && p'.headRoom <= p'.totalRoom
              && 0 < p'.headId <= p'.plast
      ensures Chosen(p, p', room, maxfree, mopLen)
    {
      hide Room, Amortized, Reserved;
      RoomHas(db, p);
      p' := p;
      if p.totalRoom < mopLen && p.headRoom >= maxfree && p.headId > 1 {
        NextLower(db, p);
        p' := p.(headId := p.headId - 1, headRoom := 0);
      }
      RoomHas(db, p');
      var headRoom := mopLen - (p'.totalRoom - p'.headRoom);
      if headRoom > maxfree && p'.headId > 1 {
        AmortizedRounds(headRoom, p'.headId, maxfree);
        headRoom := Amortized(headRoom, p'.headId, maxfree);
      } else if headRoom < 0 {
        headRoom := 0;
      }
      room := headRoom;
    }

    /** Loose pages that are left are returned to me_pghead. */
    method ReturnLoose()
      requires Valid()
      modifies this`head, this`loose
      requires pglast == 0 ==> loose == []
      ensures Valid() && loose == [] && |head| == old(|head| + |loose|)
    {
      hide Distinct, Desc, Conserved, AllIds, Bag;
      if loose != [] {
        var merged := WithLoose(head, loose);
        NoIds();
        BagOf(head, loose, freed, merged, [], freed);
        head, loose := merged, [];
        assert head + loose == head;
      }
    }

    /** The record with the lowest key not below from (mdb_cursor_next). */
    method NextKey(from: nat) returns (ok: bool, k: nat)
      requires Valid()
      ensures ok ==> from <= k && k in db && forall x :: from <= x < k ==> x !in db
      ensures !ok ==> forall x :: from <= x ==> x !in db
    {
      hide Lists, Conserved, Bag;
      k := from;
      while k <= txnid && k !in db
        invariant from <= k && forall x :: from <= x < k ==> x !in db
        decreases txnid + 1 - k
      {
        k := k + 1;
      }
      ok := k <= txnid;
    }

    /** Each reserved record gets as many of the lowest IDs left as it has room for. */
    method Fill(p: Progress)
      requires Valid() && Reserved(db, p) && p.plast == pglast && |head| <= p.totalRoom
      modifies this`db
      ensures Valid() && Chunks(db, 1, pglast + 1) == head && SameAbove(db, old(db), pglast)
    {
      hide Reserved, Distinct, Desc, Conserved, Filling, SameAbove, Chunks, AllIds, Bag;
      var n: nat, id: nat := |head|, 1;
      FillStart(db, head, p);
      while n > 0
        invariant Valid() && n <= |head| && Filling(db, head, id, n, p.plast) && SameAbove(db, old(db), p.plast)
                  && 0 < id <= p.plast + 1
        decreases p.plast + 1 - id
      {
        var ok, k := NextKey(id);
        RoomLeft(db, head, id, n, p.plast, ok, k);
        var len := if db[k].room > n then n else db[k].room;
        FillOne(db, head, id, k, n, len, p.plast);
        SameBelow(db, old(db), p.plast, k, Record(len, head[n-len..n]));
        Write(k, Record(len, head[n-len..n]));
        n, id := n - len, k + 1;
      }
      FillEnd(db, head, id, p.plast);
    }

    /**
     * On success the freeDB holds every page of me_pghead, of the loose pages and of mt_free_pgs as nested
     * operations left them: those freed by this transaction in its own record, the others in descending chunks
     * under keys from 1 to me_pglast.  Records newer than me_pglast are untouched.  Every page below
     * mt_next_pgno is then in exactly one place, which gives the equation that mdb_audit checks.
     * It fails only if a nested operation does, and ends soon after those no longer change the lists.
     */
    method Save() returns (ok: bool)
      requires Valid() && txnid !in db && (pglast > 0 ==> pglast in db)
      modifies this
      ensures ok ==> Valid() && head == Chunks(db, 1, pglast + 1) && loose == []
      ensures ok ==>
                (freed == [] ==> txnid !in db)
                && (freed != [] ==> txnid in db && db[txnid].ids == freed && Falling(freed))
      ensures ok ==> Kept(db, old(db), pglast, txnid)
      ensures ok ==> Saved() == listed && Desc(Chunks(db, 1, pglast + 1))
      ensures ok ==> Span(0, NUM_METAS) + trees + multiset(Chunks(db, 1, txnid + 1)) == Span(0, next)
      ensures ok ==> NUM_METAS + |trees| + |Chunks(db, 1, txnid + 1)| == next
      ensures !ok ==> Refused()
      ensures old(Lasts(Bound(pglast) + 1)) && !ok ==> script != []
      ensures old(Calm() && |script| > Bound(pglast)) ==> ok
    {
      hide Reserved, Recorded, Kept, Distinct, Desc, Conserved, Chunks, SameAbove, AllIds, Bag, Calm, Settling, Refused,
           ReserveNeed;
      ghost var db0 := db;
      ok := true;
      if pglast > 0 {
        ok := Nested();
        if !ok {
          return;
        }
      }
      if pglast == 0 {
        LooseToFreed();
      }
      var p := Progress(0, 0, 0, 0, 0);
      SaveStart(db, txnid, freed, p, pglast);
      NeedBounded(p, 1);
      ok, p := ReserveAll(p, db0);
      if !ok {
        return;
      }
      Finish(p, db0);
      AllSaved();
    }

    /** With everything saved, the records hold what is in no tree. */
    lemma AllSaved()
      requires Valid() && Saved() == listed
      ensures Span(0, NUM_METAS) + trees + multiset(Chunks(db, 1, txnid + 1)) == Span(0, next)
      ensures NUM_METAS + |trees| + |Chunks(db, 1, txnid + 1)| == next
    {
      hide Chunks, Span, Distinct, Desc, AllIds, Bag;
      var own := if txnid in db then db[txnid].ids else [];
      ChunksSplit(db, 1, pglast + 1, txnid);
      ChunksLast(db, 1, txnid);
      RecordBags(Span(0, NUM_METAS) + trees, own, Chunks(db, pglast + 1, txnid), Chunks(db, 1, pglast + 1));
      AuditEquation(trees, Chunks(db, 1, txnid + 1), next);
    }

    /** What the records written hold. */
    ghost function Saved(): multiset<nat>
      reads this
    {
      multiset(Chunks(db, 1, pglast + 1)) + multiset(if txnid in db then db[txnid].ids else [])
    }

    /** Without me_pghead the loose pages cannot be returned to it; they are freed instead. */
    method LooseToFreed()
      requires Valid() && pglast == 0
      modifies this`loose, this`freed
      ensures Valid() && loose == []
    {
      hide Distinct, Desc, Conserved, AllIds, Bag;
      DistinctHead(head, loose);
      NoIds();
      BagOf(head, loose, freed, head, [], freed + loose);
      freed, loose := freed + loose, [];
      assert head + loose == head;
    }

    /** The loop: until the lists are stable and there is room for all of them. */
    method ReserveAll(p0: Progress, ghost db0: Db) returns (ok: bool, p: Progress)
      requires Inv(p0, db0)
      modifies this
      ensures ok ==> Inv(p, db0) && p.plast == pglast && p.freecnt == |freed| && |head| + |loose| <= p.totalRoom
      ensures !ok ==> Refused()
      ensures old(Calm()) ==> Calm()
      ensures old(Lasts(Need(p0, 1))) && !ok ==> script != [] && !Calm()
    {
      hide Reserved, Recorded, Kept, Distinct, Desc, Conserved, AllIds, Bag, Calm, Lasts, Refused, Need;
      p := p0;
      var more := 1;
      while true
        invariant Inv(p, db0) && 0 <= more <= 1 && (old(Calm()) ==> Calm())
        invariant old(Lasts(Need(p0, 1))) ==> Lasts(Need(p, more))
        decreases |script|
      {
        ok, p := DeleteConsumed(p, db0, more);
        if !ok {
          return;
        }
        if p.freecnt < |freed| {
          ok, p := SaveFreed(p, db0, more);
        } else {
          RecordedAll(db, txnid, freed, p.freecnt);
          NothingReserved(db, p);
          var mopLen := |head| + |loose|;
          if p.totalRoom >= mopLen {
            more := more - (if p.totalRoom == mopLen then 0 else 1);
            if p.totalRoom == mopLen || more < 0 {
              return;
            }
          }
          ok, p := Reserve(p, db0, more);
        }
        if !ok {
          return;
        }
      }
    }

    method Finish(p: Progress, ghost db0: Db)
      requires Inv(p, db0) && p.plast == pglast && p.freecnt == |freed| && |head| + |loose| <= p.totalRoom
      modifies this`head, this`loose, this`db
      ensures Valid() && head == Chunks(db, 1, pglast + 1) && loose == [] && Kept(db, db0, pglast, txnid)
      ensures (freed == [] ==> txnid !in db)
              && (freed != [] ==> txnid in db && db[txnid].ids == freed && Falling(freed))
      ensures Saved() == listed && Desc(Chunks(db, 1, pglast + 1))
    {
      hide Reserved, Kept, Distinct, Chunks, SameAbove, Desc, Conserved, AllIds, Bag;
      assert freed[..|freed|] == freed;
      ghost var db1 := db;
      ReturnLoose();
      Fill(p);
      KeptAfter(db1, db, db0, pglast, txnid);
      BagSaved(head, freed);
    }
  }

  lemma BagOf(h: seq<nat>, l: seq<nat>, f: seq<nat>, h': seq<nat>, l': seq<nat>, f': seq<nat>)
    requires multiset(h) + multiset(l) + multiset(f) == multiset(h') + multiset(l') + multiset(f')
    ensures Bag(h, l, f) == Bag(h', l', f')
  {
  }

  lemma BagSaved(head: seq<nat>, freed: seq<nat>)
    ensures Bag(head, [], freed) == multiset(head) + multiset(freed)
  {
  }

  lemma ChunksLast(db: Db, a: nat, b: nat)
    requires a <= b
    ensures Chunks(db, a, b + 1) == (if b in db then db[b].ids else []) + Chunks(db, a, b)
  {
  }

  lemma RecordBags(m: multiset<nat>, own: seq<nat>, unread: seq<nat>, low: seq<nat>)
    ensures m + multiset(own + (unread + low)) == m + multiset(unread) + (multiset(low) + multiset(own))
  {
    assert multiset(own + (unread + low)) == multiset(own) + (multiset(unread) + multiset(low));
  }

  lemma AuditEquation(trees: multiset<nat>, records: seq<nat>, next: nat)
    requires Span(0, NUM_METAS) + trees + multiset(records) == Span(0, next)
    ensures NUM_METAS + |trees| + |records| == next
  {
    SpanSize(0, next);
    SpanSize(0, NUM_METAS);
    hide Span;
    assert |Span(0, NUM_METAS) + trees + multiset(records)| == |Span(0, NUM_METAS)| + |trees| + |multiset(records)|;
  }

  lemma DeletedFirst(db: Db, k: nat, p: Progress)
    requires k > 0 && k in db && forall x :: x in db ==> k <= x
    ensures Reserved(db - {k}, p.(plast := k, headId := k, headRoom := 0, totalRoom := 0))
  {
    RoomSkip(db - {k}, k, k + 1, k + 1);
  }

  lemma RecordedMore(db: Db, txnid: nat, freed: seq<nat>, freed': seq<nat>, freecnt: nat)
    requires Recorded(db, txnid, freed, freecnt) && freed <= freed'
    ensures Recorded(db, txnid, freed', freecnt)
  {
    assert freed'[..freecnt] == freed[..freecnt];
  }

  lemma RecordedOther(db: Db, db': Db, txnid: nat, freed: seq<nat>, freecnt: nat)
    requires Recorded(db, txnid, freed, freecnt) && (txnid in db <==> txnid in db')
             && (txnid in db ==> db[txnid] == db'[txnid])
    ensures Recorded(db', txnid, freed, freecnt)
  {
  }

  /** Changes to records up to last do not matter for the newer ones. */
  lemma KeptLess(db: Db, db': Db, db0: Db, last: nat, last': nat, txnid: nat)
    requires Kept(db, db0, last, txnid) && last <= last'
    requires forall k :: last < k && k != txnid ==> (k in db <==> k in db') && (k in db ==> db[k] == db'[k])
    ensures Kept(db', db0, last', txnid)
  {
  }

  method Sorted(s: seq<nat>) returns (t: seq<nat>)
    requires |s| <= IdSort.SAFE_LENGTH
    ensures |t| == |s| && Falling(t) && multiset(t) == multiset(s)
  {
    var a := FromSeq(s);
    ghost var before := a[..];
    var _ := IdSort.Sort(a, 0);
    t := a[1..|s|+1];
    assert before[1..|s|+1] == s && a[..][1..|s|+1] == t;
  }

  lemma ReservedOther(db: Db, db': Db, p: Progress, p': Progress, txnid: nat)
    requires Reserved(db, p) && p' == p.(freecnt := p'.freecnt) && p.plast < txnid
    requires forall k :: k != txnid ==> (k in db <==> k in db') && (k in db ==> db[k] == db'[k])
    ensures Reserved(db', p')
  {
    RoomSame(db, db', p.headId, p.plast + 1);
  }

  lemma NowRecorded(db: Db, txnid: nat, freed: seq<nat>)
    requires txnid in db && db[txnid].ids == freed && Falling(freed) && freed != []
    ensures Recorded(db, txnid, freed, |freed|)
  {
    assert freed[..|freed|] == freed;
  }

  lemma NextLower(db: Db, p: Progress)
    requires Reserved(db, p) && p.headId > 1
    ensures Reserved(db, p.(headId := p.headId - 1, headRoom := 0))
  {
    RoomSkip(db, p.headId - 1, p.headId, p.plast + 1);
  }

  lemma RoomHas(db: Db, p: Progress)
    requires Reserved(db, p)
    ensures p.headRoom <= p.totalRoom && p.headId <= p.plast && (p.plast > 0 ==> p.headId > 0)
  {
    RoomFirst(db, p.headId, p.plast + 1);
  }

  lemma ReservedPut(db: Db, p: Progress, room: nat)
    requires Reserved(db, p) && p.headRoom <= p.totalRoom
    ensures Reserved(db[p.headId := Record(room, [])], p.(headRoom := room,
            totalRoom := p.totalRoom - p.headRoom + room))
  {
    var db' := db[p.headId := Record(room, [])];
    RoomFirst(db, p.headId, p.plast + 1);
    RoomFirst(db', p.headId, p.plast + 1);
    RoomSame(db, db', p.headId + 1, p.plast + 1);
  }

  method WithLoose(head: seq<nat>, loose: seq<nat>) returns (merged: seq<nat>)
    requires Desc(head) && Distinct(head + loose) && |loose| <= IdSort.SAFE_LENGTH && AllIds(loose)
    ensures Desc(merged) && Distinct(merged) && multiset(merged) == multiset(head) + multiset(loose)
            && |merged| == |head| + |loose|
  {
    DistinctParts(head, loose);
    var a := FromSeq(head);
    assert ListIn(a) == head && Desc(head);
    hide Distinct, Desc;
    var r := MergeLoose(a, loose);
    merged := r[1..r[0]+1];
    MergedFacts(merged, head, loose);
  }

  lemma MergedFacts(merged: seq<nat>, head: seq<nat>, loose: seq<nat>)
    requires Desc(merged) && multiset(merged) == multiset(head) + multiset(loose)
    ensures Desc(merged) && Distinct(merged) && |merged| == |head| + |loose|
  {
    assert |multiset(merged)| == |multiset(head)| + |multiset(loose)|;
  }

  lemma DistinctParts(a: seq<nat>, b: seq<nat>)
    requires Distinct(a + b)
    ensures Distinct(b) && multiset(a) !! multiset(b)
  {
    forall i, j | 0 <= i < j < |b| ensures b[i] != b[j] {
      assert (a + b)[|a|+i] != (a + b)[|a|+j];
    }
    forall i, j | 0 <= i < |a| && 0 <= j < |b| ensures a[i] != b[j] {
      assert (a + b)[i] != (a + b)[|a|+j];
    }
    Unshared(a, b);
  }

  lemma Unshared(a: seq<nat>, b: seq<nat>)
    requires forall i, j :: 0 <= i < |a| && 0 <= j < |b| ==> a[i] != b[j]
    ensures multiset(a) !! multiset(b)
  {
    forall x ensures !(x in multiset(a) && x in multiset(b)) {
      assert !(x in a && x in b);
    }
  }

  lemma {:induction false} ChunksSplit(db: Db, a: nat, k: nat, b: nat)
    requires a <= k <= b
    ensures Chunks(db, a, b) == Chunks(db, k, b) + Chunks(db, a, k)
    decreases b
  {
    if k < b { ChunksSplit(db, a, k, b - 1); }
  }

  lemma {:induction false} NoChunks(db: Db, a: nat, b: nat)
    requires forall k :: a <= k < b && k in db ==> db[k].ids == []
    ensures Chunks(db, a, b) == []
    decreases b
  {
    if a < b { NoChunks(db, a, b - 1); }
  }

  lemma {:induction false} NoRoom(db: Db, a: nat, b: nat)
    requires forall k :: a <= k < b ==> k !in db
    ensures Room(db, a, b) == 0
    decreases b
  {
    if a < b { NoRoom(db, a, b - 1); }
  }

  /** Records newer than last are as they were. */
  ghost predicate SameAbove(db: Db, db0: Db, last: nat) {
    forall k :: k > last ==> (k in db <==> k in db0) && (k in db ==> db[k] == db0[k])
  }

  lemma SameBelow(db: Db, db0: Db, last: nat, k: nat, r: Record)
    requires SameAbove(db, db0, last) && k <= last
    ensures SameAbove(db[k := r], db0, last)
  {
  }

  /** While reserved records are filled from the lowest key on: those below id hold what is not left. */
  ghost predicate Filling(db: Db, head: seq<nat>, id: nat, n: nat, last: nat) {
    && 0 < id <= last + 1 && n <= |head| && n <= Room(db, id, last + 1)
    && Chunks(db, 1, id) == head[n..] && (forall k :: id <= k <= last && k in db ==> db[k].ids == [])
  }

  lemma FillStart(db: Db, head: seq<nat>, p: Progress)
    requires Reserved(db, p) && |head| <= p.totalRoom && 0 !in db
    ensures Filling(db, head, 1, |head|, p.plast) && SameAbove(db, db, p.plast)
  {
    assert head[|head|..] == [];
    if p.headId > 0 { RoomSkip(db, 1, p.headId, p.plast + 1); }
  }

  /** As long as IDs are left there is a record reserved for them (the assertion on the record's key). */
  lemma RoomLeft(db: Db, head: seq<nat>, id: nat, n: nat, last: nat, ok: bool, k: nat)
    requires Filling(db, head, id, n, last) && n > 0
    requires ok ==> id <= k && k in db && forall x :: id <= x < k ==> x !in db
    requires !ok ==> forall x :: id <= x ==> x !in db
    ensures ok && k <= last
  {
    if !ok || k > last {
      NoRoom(db, id, last + 1);
    }
  }

  lemma FillOne(db: Db, head: seq<nat>, id: nat, k: nat, n: nat, len: nat, last: nat)
    requires Filling(db, head, id, n, last) && id <= k <= last && k in db && (forall x :: id <= x < k ==> x !in db)
    requires len == if db[k].room > n then n else db[k].room
    ensures Filling(db[k := Record(len, head[n-len..n])], head, k + 1, n - len, last)
  {
    var db' := db[k := Record(len, head[n-len..n])];
    hide Room;
    RoomSkip(db, id, k, last + 1);
    RoomFirst(db, k, last + 1);
    RoomSame(db, db', k + 1, last + 1);
    RoomSame(db, db', 1, k);
    ChunksSplit(db, 1, id, k);
    NoChunks(db, id, k);
    assert Chunks(db', 1, k + 1) == db'[k].ids + Chunks(db', 1, k);
    hide Chunks;
    SliceBack(head, n, len);
  }

  lemma SliceBack(head: seq<nat>, n: nat, len: nat)
    requires len <= n <= |head|
    ensures head[n-len..] == head[n-len..n] + head[n..]
  {
  }

  lemma FillEnd(db: Db, head: seq<nat>, id: nat, last: nat)
    requires Filling(db, head, id, 0, last)
    ensures Chunks(db, 1, last + 1) == head
  {
    ChunksSplit(db, 1, id, last + 1);
    NoChunks(db, id, last + 1);
    assert head[0..] == head;
  }

  lemma DistinctHead(a: seq<nat>, b: seq<nat>)
    requires Distinct(a + b)
    ensures Distinct(a) && a + [] == a
  {
    forall i, j | 0 <= i < j < |a| ensures a[i] != a[j] {
      assert (a + b)[i] != (a + b)[j];
    }
  }

  lemma SaveStart(db: Db, txnid: nat, freed: seq<nat>, p: Progress, last: nat)
    requires p == Progress(0, 0, 0, 0, 0) && txnid !in db && 0 !in db
    ensures Reserved(db, p) && Recorded(db, txnid, freed, 0) && Kept(db, db, last, txnid)
  {
    NoRoom(db, 0, 1);
  }

  lemma NothingReserved(db: Db, p: Progress)
    requires Reserved(db, p) && 0 !in db
    ensures p.plast == 0 ==> p.totalRoom == 0
  {
    if p.plast == 0 { NoRoom(db, 0, 1); }
  }

  lemma RecordedAll(db: Db, txnid: nat, freed: seq<nat>, freecnt: nat)
    requires Recorded(db, txnid, freed, freecnt) && freecnt >= |freed|
    ensures freecnt == |freed|
  {
  }

  lemma KeptAfter(db1: Db, db: Db, db0: Db, last: nat, txnid: nat)
    requires Kept(db1, db0, last, txnid) && SameAbove(db, db1, last) && last < txnid
    ensures Kept(db, db0, last, txnid) && (txnid in db <==> txnid in db1) && (txnid in db ==> db[txnid] == db1[txnid])
  {
  }
}
