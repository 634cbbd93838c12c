/**
 * Readers, one writer and crashes over the two meta pages (mdb_txn_renew0, mdb_find_oldest,
 * mdb_page_alloc, mdb_page_flush, mdb_env_write_meta, mdb_env_pick_meta) as a state machine.
 *
 * Assumed: sequentially consistent memory, an atomic write of a meta page through the synchronous
 * descriptor, default flags (no NOSYNC, NOMETASYNC, WRITEMAP, NOLOCK).  A crash may happen between
 * any two steps and leaves arbitrary bytes in every page written since the last sync.
 */
module Mvcc {
  import opened Common

  type Pgno = nat
  type Txnid = nat

  /** A page of a tree: its child pointers and everything else in it. */
  datatype Page = Page(kids: seq<Pgno>, body: nat)

  type Store = map<Pgno, Page>

  const CORE_DBS := 2   // the freeDB and the main database

  /** The roots of the core databases; an empty one has none. */
  type Roots = seq<Option<Pgno>>

  /** A committed database: its roots, all its tree pages, its freeDB records and mm_last_pg + 1. */
  datatype Snapshot = Snapshot(roots: Roots, tree: Store, free: map<Txnid, set<Pgno>>, next: Pgno)

  datatype Meta = Meta(txnid: Txnid, roots: Roots, next: Pgno)

  /** A root as a reader copied it; w and lag are history: which commit it was from, how late the copy was made. */
  datatype Copy = Copy(root: Option<Pgno>, w: Txnid, lag: nat)

  /** Progress of a read transaction; wNext and lagNext are history like w and lag. */
  datatype ReaderPc =
    | Idle
    | Loaded(v: Txnid)
    | Stored(v: Txnid)
    | Copying(v: Txnid, copies: seq<Copy>)
    | Active(v: Txnid, copies: seq<Copy>, next: Pgno, wNext: Txnid, lagNext: nat)

  /** A slot of the reader table; txnid None is (txnid_t)-1. */
  datatype Slot = Slot(pid: bool, txnid: Option<Txnid>, pc: ReaderPc)

  datatype WriterPc =
    | Working
    | Scanning(left: nat, acc: Txnid, inUse: bool)   // inUse: mr_pid of the next slot was non-zero
    | Flushing(snap: Snapshot)
    | Synced(snap: Snapshot)
    | Written(snap: Snapshot)

  datatype Writer = Writer(id: Txnid, base: Snapshot, pghead: set<Pgno>, pglast: Txnid,
                           own: set<Pgno>, freed: set<Pgno>, next: Pgno, pc: WriterPc)

  /** The file as seen through the page cache, as of the last sync, and the pages written since. */
  datatype File = File(mem: Store, durable: Store, unsynced: set<Pgno>)

  datatype Metas = Metas(m0: Meta, m1: Meta)

  datatype State = State(
    file: File,
    metas: Metas,
    mti: Txnid,                   // mti_txnid
    pgoldest: Txnid,              // me_pgoldest, kept across transactions
    slots: seq<Slot>,
    writer: Option<Writer>,
    hist: map<Txnid, Snapshot>)   // history: what each meta written so far stands for

  function MetaOf(ms: Metas, id: Txnid): Meta {
    if id % 2 == 0 then ms.m0 else ms.m1
  }

  /** mdb_env_pick_meta */
  function PickMeta(ms: Metas): Meta {
    if ms.m0.txnid < ms.m1.txnid then ms.m1 else ms.m0
  }

  function RootOf(roots: Roots, k: nat): Option<Pgno> {
    if k < |roots| then roots[k] else None
  }

  function Copies(pc: ReaderPc): seq<Copy> {
    if pc.Copying? || pc.Active? then pc.copies else []
  }

  // ---- Steps of a reader in slot i ----

  ghost predicate NewSlot(st: State, st': State) {
    st' == st.(slots := st.slots + [Slot(false, None, Idle)])
  }

  ghost predicate ReaderStep(st: State, st': State, i: nat) {
    && i < |st.slots|
    && var s := st.slots[i];
       exists s' :: ReaderMoves(st, s, s') && st' == st.(slots := st.slots[i := s'])
  }

  ghost predicate ReaderMoves(st: State, s: Slot, s': Slot) {
    match s.pc
    case Idle =>
      || (!s.pid && s' == Slot(true, None, Idle))                          // claim the slot
      || (s.pid && s' == s.(pc := Loaded(st.mti)))                         // read mti_txnid
      || (s.pid && s' == Slot(false, s.txnid, Idle))                       // give the slot back
    case Loaded(v) => s' == s.(txnid := Some(v), pc := Stored(v))          // publish mr_txnid
    case Stored(v) => s' == s.(pc := if v == st.mti then Copying(v, []) else Idle)
    case Copying(v, copies) =>                                             // copy mm_dbs, then mm_last_pg
      var m, lag := MetaOf(st.metas, v), Lag(st.metas, v);
      s' == s.(pc :=
        if |copies| < CORE_DBS then Copying(v, copies + [Copy(RootOf(m.roots, |copies|), m.txnid, lag)])
        else Active(v, copies, m.next, m.txnid, lag))
    case Active(_, _, _, _, _) => s' == s.(txnid := None, pc := Idle)      // end of the read txn
  }

  /** How many commits after v have written their meta page. */
  function Lag(ms: Metas, v: Txnid): nat {
    if PickMeta(ms).txnid >= v then PickMeta(ms).txnid - v else 0
  }

  // ---- Steps of the writer ----

  ghost predicate WriterStep(st: State, st': State) {
    match st.writer
    case None => Begin(st, st')
    case Some(t) =>
      match t.pc
      case Working => Abort(st, st') || Work(st, st', t) || Save(st, st', t) || StartScan(st, st', t)
      case Scanning(_, _, _) => Scan(st, st', t)
      case Flushing(snap) => Abort(st, st') || Flush(st, st', t) || Sync(st, st', t)
      case Synced(snap) => Abort(st, st') || WriteMeta(st, st', t)
      case Written(snap) => Publish(st, st', t)
  }

  ghost predicate Begin(st: State, st': State) {
    && st.mti in st.hist
    && var base := st.hist[st.mti];
       st' == st.(writer := Some(Writer(st.mti + 1, base, {}, 0, {}, {}, MetaOf(st.metas, st.mti).next, Working)))
  }

  ghost predicate Abort(st: State, st': State) {
    st' == st.(writer := None)
  }

  /** mdb_find_oldest reads the slots one at a time, last slot first. */
  ghost predicate StartScan(st: State, st': State, t: Writer) {
    0 < t.id && st' == st.(writer := Some(t.(pc := Scanning(|st.slots|, t.id - 1, false))))
  }

  ghost predicate Scan(st: State, st': State, t: Writer)
    requires t.pc.Scanning?
  {
    var left, acc := t.pc.left, t.pc.acc;
    if left == 0 then
      st' == st.(pgoldest := acc, writer := Some(t.(pc := Working)))
    else
      && left <= |st.slots|
      && var s := st.slots[left - 1];
         var seen := s.txnid.Some? && s.txnid.value < acc;
         st' == st.(writer := Some(t.(pc :=
           if t.pc.inUse then Scanning(left - 1, if seen then s.txnid.value else acc, false)
           else if s.pid then Scanning(left, acc, true)
           else Scanning(left - 1, acc, false))))
  }

  ghost predicate Work(st: State, st': State, t: Writer) {
    || (exists h :: Consume(st, st', t, h))
    || (exists p :: Allocate(st, st', t, p) || GiveBack(st, st', t, p) || Free(st, st', t, p))
    || AllocateNew(st, st', t)
    || (exists p, c :: Spill(st, st', t, p, c))
  }

  /** Merge the next freeDB record into me_pghead; only records older than me_pgoldest. */
  ghost predicate Consume(st: State, st': State, t: Writer, h: Txnid) {
    && h in t.base.free && t.pglast < h < st.pgoldest
    && (forall h' :: h' in t.base.free && t.pglast < h' ==> h <= h')
    && st' == st.(writer := Some(t.(pglast := h, pghead := t.pghead + t.base.free[h])))
  }

  ghost predicate Allocate(st: State, st': State, t: Writer, p: Pgno) {
    p in t.pghead && st' == st.(writer := Some(t.(pghead := t.pghead - {p}, own := t.own + {p})))
  }

  ghost predicate AllocateNew(st: State, st': State, t: Writer) {
    st' == st.(writer := Some(t.(own := t.own + {t.next}, next := t.next + 1)))
  }

  /** mdb_ovpage_free of a dirty page: back to me_pghead. */
  ghost predicate GiveBack(st: State, st': State, t: Writer, p: Pgno) {
    p in t.own && st' == st.(writer := Some(t.(own := t.own - {p}, pghead := t.pghead + {p})))
  }

  /** A page of the old tree, or one dirtied by this txn, goes to mt_free_pgs. */
  ghost predicate Free(st: State, st': State, t: Writer, p: Pgno) {
    && (p in t.base.tree || p in t.own) && p !in t.freed
    && st' == st.(writer := Some(t.(own := t.own - {p}, freed := t.freed + {p})))
  }

  /** mdb_page_spill writes a page this txn allocated. */
  ghost predicate Spill(st: State, st': State, t: Writer, p: Pgno, c: Page) {
    p in t.own && WritePage(st, st', p, c)
  }

  ghost predicate WritePage(st: State, st': State, p: Pgno, c: Page) {
    st' == st.(file := st.file.(mem := st.file.mem[p := c], unsynced := st.file.unsynced + {p}))
  }

  /**
   * The tree and the freeDB that the txn commits: untouched pages of the old tree plus own pages;
   * records above me_pglast as they were, one record for this txn's freed pages, and what is left of
   * me_pghead and the loose pages in records with keys in [1, me_pglast].
   */
  ghost predicate Save(st: State, st': State, t: Writer) {
    exists snap: Snapshot ::
      && Commits(t, snap)
      && st' == st.(writer := Some(t.(pc := Flushing(snap))))
  }

  ghost predicate Commits(t: Writer, snap: Snapshot) {
    && snap.next == t.next
    && Closed(snap)
    && (forall p ::
           p in snap.tree ==> p in t.own || (p in t.base.tree && p !in t.freed && snap.tree[p] == t.base.tree[p]))
    && (forall h :: h in snap.free ==>
          || (h == t.id && snap.free[h] == t.freed)
          || (t.pglast < h && h in t.base.free && snap.free[h] == t.base.free[h])
          || (1 <= h <= t.pglast && forall p :: p in snap.free[h] ==> p in t.pghead || (p in t.own && p !in snap.tree)))
    && (forall h, g, p :: h in snap.free && g in snap.free && h != g && p in snap.free[h] ==> p !in snap.free[g])
  }

  ghost predicate Flush(st: State, st': State, t: Writer)
    requires t.pc.Flushing?
  {
    exists p :: p in t.own && p in t.pc.snap.tree && WritePage(st, st', p, t.pc.snap.tree[p])
  }

  ghost predicate Sync(st: State, st': State, t: Writer)
    requires t.pc.Flushing?
  {
    && (forall p :: p in t.pc.snap.tree && p in t.own ==> p in st.file.mem && st.file.mem[p] == t.pc.snap.tree[p])
    && st' == st.(file := File(st.file.mem, st.file.mem, {}), writer := Some(t.(pc := Synced(t.pc.snap))))
  }

  ghost predicate WriteMeta(st: State, st': State, t: Writer)
    requires t.pc.Synced?
  {
    var snap := t.pc.snap;
    var m := Meta(t.id, snap.roots, snap.next);
    st' == st.(metas := if t.id % 2 == 0 then st.metas.(m0 := m) else st.metas.(m1 := m),
               hist := st.hist[t.id := snap], writer := Some(t.(pc := Written(snap))))
  }

  ghost predicate Publish(st: State, st': State, t: Writer) {
    st' == st.(mti := t.id, writer := None)
  }

  // ---- Crash and reopening ----

  ghost predicate Crash(st: State, st': State) {
    && (forall p :: p in st.file.durable && p !in st.file.unsynced ==>
          p in st'.file.mem && st'.file.mem[p] == st.file.durable[p])
    && st' == st.(file := File(st'.file.mem, st'.file.mem, {}), slots := [], writer := None,
                  mti := PickMeta(st.metas).txnid, pgoldest := 0)
  }

  ghost predicate Next(st: State, st': State) {
    NewSlot(st, st') || (exists i :: ReaderStep(st, st', i)) || WriterStep(st, st') || Crash(st, st')
  }

  ghost predicate Init(st: State) {
    && st.metas == Metas(Meta(0, [], NUM_METAS), Meta(0, [], NUM_METAS))
    && st.mti == 0 && st.pgoldest == 0 && st.slots == [] && st.writer == None
    && st.file.unsynced == {} && st.file.mem == st.file.durable
    && st.hist == map[0 := Snapshot([], map[], map[], NUM_METAS)]
  }

  ghost predicate Run(states: seq<State>) {
    && 0 < |states| && Init(states[0])
    && forall k :: 0 < k < |states| ==> Next(states[k-1], states[k])
  }

  // ---- The invariant ----

  ghost predicate Closed(s: Snapshot) {
    && (forall i :: 0 <= i < |s.roots| && s.roots[i].Some? ==> s.roots[i].value in s.tree)
    && (forall p :: p in s.tree ==> forall i :: 0 <= i < |s.tree[p].kids| ==> s.tree[p].kids[i] in s.tree)
  }

  ghost predicate GoodSnapshot(s: Snapshot) {
    && Closed(s)
    && (forall p :: p in s.tree ==> p < s.next)
    && (forall h, p :: h in s.free && p in s.free[h] ==> p < s.next && p !in s.tree)
    && (forall h, g, p :: h in s.free && g in s.free && h != g && p in s.free[h] ==> p !in s.free[g])
  }

  ghost predicate Holds(slot: Slot, s: Txnid) {
    exists k :: 0 <= k < |Copies(slot.pc)| && Copies(slot.pc)[k].w == s
  }

  /** Commits whose tree somebody may still read: both metas and what readers copied. */
  ghost predicate Live(ms: Metas, slots: seq<Slot>, s: Txnid) {
    s == ms.m0.txnid || s == ms.m1.txnid || exists i :: 0 <= i < |slots| && Holds(slots[i], s)
  }

  ghost predicate Apart(pages: set<Pgno>, tree: Store) {
    forall p :: p in pages ==> p !in tree
  }

  ghost predicate Intact(mem: Store, tree: Store) {
    forall p :: p in tree ==> p in mem && mem[p] == tree[p]
  }

  ghost predicate MetaMatches(m: Meta, hist: map<Txnid, Snapshot>) {
    m.txnid in hist && m.roots == hist[m.txnid].roots && m.next == hist[m.txnid].next
  }

  /** The metas hold the last two commits; mti_txnid lags behind between WriteMeta and Publish. */
  ghost predicate MetasInv(ms: Metas, mti: Txnid, written: bool, hist: map<Txnid, Snapshot>) {
    && MetaMatches(ms.m0, hist) && MetaMatches(ms.m1, hist)
    && var n := PickMeta(ms).txnid;
       && n == (if written then mti + 1 else mti)
       && MetaOf(ms, n).txnid == n
       && (if n == 0 then ms.m1.txnid == 0 else MetaOf(ms, n - 1).txnid == n - 1)
  }

  /** The page bound of a commit is not lower than that of an older one. */
  ghost predicate Covers(m: Meta, s: Txnid, next: Pgno) {
    s <= m.txnid ==> next <= m.next
  }

  /** Every live snapshot is unharmed, and the last two commits also survive a crash. */
  ghost predicate SnapshotsInv(f: File, ms: Metas, slots: seq<Slot>, hist: map<Txnid, Snapshot>) {
    && PickMeta(ms).txnid in hist
    && (forall s: Txnid :: Live(ms, slots, s) ==>
          && s in hist && s <= PickMeta(ms).txnid
          && Covers(ms.m0, s, hist[s].next) && Covers(ms.m1, s, hist[s].next)
          && GoodSnapshot(hist[s]) && Intact(f.mem, hist[s].tree))
    && ms.m0.txnid in hist && OnDisk(f, hist[ms.m0.txnid].tree)
    && ms.m1.txnid in hist && OnDisk(f, hist[ms.m1.txnid].tree)
  }

  ghost predicate OnDisk(f: File, tree: Store) {
    Apart(f.unsynced, tree) && Intact(f.durable, tree)
  }

  /** Record h of the newest freeDB holds no page of a live snapshot that is not older than h. */
  ghost predicate RecordsInv(ms: Metas, slots: seq<Slot>, hist: map<Txnid, Snapshot>) {
    && PickMeta(ms).txnid in hist
    && var free := hist[PickMeta(ms).txnid].free;
       forall h: Txnid, s: Txnid :: h in free && Live(ms, slots, s) && s in hist && h <= s ==>
         Apart(free[h], hist[s].tree)
  }

  ghost predicate Announced(s: Slot, v: Txnid, mti: Txnid, pgoldest: Txnid) {
    s.pid && s.txnid == Some(v) && pgoldest <= v <= mti
  }

  /** The commit that a copy made lag commits after v is from: the meta pages take turns. */
  function CopiedFrom(v: Txnid, lag: nat): Txnid {
    v + lag - lag % 2
  }

  ghost predicate CopyInv(ms: Metas, hist: map<Txnid, Snapshot>, v: Txnid, k: nat, c: Copy) {
    && c.w == CopiedFrom(v, c.lag) && c.w in hist && c.root == RootOf(hist[c.w].roots, k)
    && c.lag <= Lag(ms, v)
  }

  ghost predicate CopiesInv(ms: Metas, hist: map<Txnid, Snapshot>, v: Txnid, copies: seq<Copy>) {
    && |copies| <= CORE_DBS
    && (forall k :: 0 <= k < |copies| ==> CopyInv(ms, hist, v, k, copies[k]))
    && (forall j, k :: 0 <= j < k < |copies| ==> copies[j].lag <= copies[k].lag)
  }

  /** The bound is not lower than that of any commit a root is from. */
  ghost predicate BoundInv(ms: Metas, hist: map<Txnid, Snapshot>, pc: ReaderPc)
    requires pc.Active?
  {
    && |pc.copies| == CORE_DBS
    && pc.wNext == CopiedFrom(pc.v, pc.lagNext) && pc.wNext in hist && pc.next == hist[pc.wNext].next
    && pc.lagNext <= Lag(ms, pc.v)
    && forall k :: 0 <= k < |pc.copies| ==>
         && pc.copies[k].lag <= pc.lagNext && pc.copies[k].w in hist
         && hist[pc.copies[k].w].next <= pc.next
  }

  ghost predicate ReaderInv(ms: Metas, mti: Txnid, pgoldest: Txnid, hist: map<Txnid, Snapshot>, s: Slot) {
    match s.pc
    case Idle => true
    case Loaded(v) => s.pid
    case Stored(v) => s.pid && s.txnid == Some(v)
    case Copying(v, copies) => Announced(s, v, mti, pgoldest) && CopiesInv(ms, hist, v, copies)
    case Active(v, copies, _, _, _) =>
      Announced(s, v, mti, pgoldest) && CopiesInv(ms, hist, v, copies) && BoundInv(ms, hist, s.pc)
  }

  ghost predicate ReadersInv(ms: Metas, mti: Txnid, pgoldest: Txnid, hist: map<Txnid, Snapshot>, slots: seq<Slot>) {
    pgoldest <= mti && forall i :: 0 <= i < |slots| ==> ReaderInv(ms, mti, pgoldest, hist, slots[i])
  }

  /** The pages of a write txn: what it may write, hand out, has freed and has not looked at yet. */
  ghost predicate PagesInv(t: Writer) {
    && t.base.next <= t.next
    && t.own !! t.pghead && t.own !! t.freed && t.pghead !! t.freed
    && Apart(t.own, t.base.tree) && Apart(t.pghead, t.base.tree)
    && (forall p :: p in t.own || p in t.pghead || p in t.freed ==> p < t.next)
    && (forall h :: h in t.base.free && t.pglast < h ==>
          t.base.free[h] !! t.own && t.base.free[h] !! t.pghead && t.base.free[h] !! t.freed)
    && t.pglast < t.id
  }

  ghost predicate Reserved(t: Writer, ms: Metas, slots: seq<Slot>, hist: map<Txnid, Snapshot>) {
    forall s: Txnid :: Live(ms, slots, s) && s in hist ==>
      Apart(t.own, hist[s].tree) && Apart(t.pghead, hist[s].tree)
  }

  ghost predicate ScannedInv(s: Slot, acc: Txnid) {
    s.pc.Copying? || s.pc.Active? ==> acc <= s.pc.v
  }

  ghost predicate WriterPcInv(t: Writer, f: File, ms: Metas, slots: seq<Slot>) {
    match t.pc
    case Working => true
    case Scanning(left, acc, _) => acc < t.id && forall i :: left <= i < |slots| ==> ScannedInv(slots[i], acc)
    case Flushing(snap) => Commits(t, snap)
    case Synced(snap) =>
      && Commits(t, snap) && f.unsynced == {} && f.durable == f.mem
      && (forall p :: p in snap.tree && p in t.own ==> p in f.mem && f.mem[p] == snap.tree[p])
    case Written(snap) => PickMeta(ms).txnid == t.id
  }

  ghost predicate WriterInv(st: State, t: Writer) {
    && t.id == st.mti + 1
    && WriterPcInv(t, st.file, st.metas, st.slots)
    && (!t.pc.Written? ==>
          && st.mti in st.hist && t.base == st.hist[st.mti] && PagesInv(t)
          && Reserved(t, st.metas, st.slots, st.hist))
  }

  ghost predicate Inv(st: State) {
    && MetasInv(st.metas, st.mti, st.writer.Some? && st.writer.value.pc.Written?, st.hist)
    && SnapshotsInv(st.file, st.metas, st.slots, st.hist)
    && RecordsInv(st.metas, st.slots, st.hist)
    && ReadersInv(st.metas, st.mti, st.pgoldest, st.hist, st.slots)
    && (st.writer.Some? ==> WriterInv(st, st.writer.value))
  }

  // ---- Every step keeps it ----

  lemma InitInv(st: State)
    requires Init(st)
    ensures Inv(st)
  {
  }

  lemma BaseIsGood(st: State)
    requires Inv(st)
    ensures st.mti in st.hist && GoodSnapshot(st.hist[st.mti])
    ensures Live(st.metas, st.slots, st.mti) && MetaOf(st.metas, st.mti).next == st.hist[st.mti].next
  {
    hide RecordsInv, ReadersInv, WriterInv;
  }

  lemma BeginInv(st: State, st': State)
    requires Inv(st) && st.writer == None && Begin(st, st')
    ensures Inv(st')
  {
    BaseIsGood(st);
    hide Live, SnapshotsInv, RecordsInv, ReadersInv;
  }

  lemma AbortInv(st: State, st': State)
    requires Inv(st) && st.writer.Some? && !st.writer.value.pc.Written? && Abort(st, st')
    ensures Inv(st')
  {
    hide Live, SnapshotsInv, RecordsInv, ReadersInv;
  }

  lemma ScanInv(st: State, st': State, t: Writer)
    requires Inv(st) && st.writer == Some(t) && t.pc.Scanning? && Scan(st, st', t)
    ensures Inv(st')
  {
    hide Live, SnapshotsInv, RecordsInv, MetasInv, Commits, Apart;
  }

  lemma StartScanInv(st: State, st': State, t: Writer)
    requires Inv(st) && st.writer == Some(t) && t.pc.Working? && StartScan(st, st', t)
    ensures Inv(st')
  {
    hide Live, SnapshotsInv, RecordsInv, ReadersInv, Commits, Apart;
  }

  /** No live snapshot is older than me_pgoldest or than the commit before last. */
  lemma LiveIsRecent(st: State, s: Txnid, h: Txnid)
    requires Inv(st) && Live(st.metas, st.slots, s) && h < st.pgoldest
    requires st.writer.Some? && !st.writer.value.pc.Written?
    ensures h <= s && s in st.hist
  {
    hide Commits, GoodSnapshot, Intact, OnDisk, WriterInv, RecordsInv;
  }

  lemma ConsumeInv(st: State, st': State, t: Writer, h: Txnid)
    requires Inv(st) && st.writer == Some(t) && t.pc.Working? && Consume(st, st', t, h)
    ensures Inv(st')
  {
    BaseIsGood(st);
    var t' := st'.writer.value;
    forall s: Txnid | Live(st.metas, st.slots, s) && s in st.hist
      ensures Apart(t'.pghead, st.hist[s].tree)
    {
      LiveIsRecent(st, s, h);
      assert Apart(t.base.free[h], st.hist[s].tree);
    }
    hide Live, SnapshotsInv, RecordsInv, ReadersInv, Commits;
  }

  lemma AllocateInv(st: State, st': State, t: Writer, p: Pgno)
    requires Inv(st) && st.writer == Some(t) && t.pc.Working?
    requires Allocate(st, st', t, p) || GiveBack(st, st', t, p)
    ensures Inv(st')
  {
    hide Live, SnapshotsInv, RecordsInv, ReadersInv, Commits;
  }

  lemma AllocateNewInv(st: State, st': State, t: Writer)
    requires Inv(st) && st.writer == Some(t) && t.pc.Working? && AllocateNew(st, st', t)
    ensures Inv(st')
  {
    BaseIsGood(st);
    forall s: Txnid | Live(st.metas, st.slots, s) && s in st.hist
      ensures t.next !in st.hist[s].tree
    {
      assert GoodSnapshot(st.hist[s]);
    }
    hide Live, SnapshotsInv, RecordsInv, ReadersInv, Commits;
  }

  lemma FreeInv(st: State, st': State, t: Writer, p: Pgno)
    requires Inv(st) && st.writer == Some(t) && t.pc.Working? && Free(st, st', t, p)
    ensures Inv(st')
  {
    BaseIsGood(st);
    hide Live, SnapshotsInv, RecordsInv, ReadersInv, Commits;
  }

  /** A page the writer owns can be overwritten without harm to any live snapshot. */
  lemma WritePageInv(st: State, st': State, t: Writer, p: Pgno, c: Page)
    requires Inv(st) && st.writer == Some(t) && (t.pc.Working? || t.pc.Flushing?)
    requires p in t.own && WritePage(st, st', p, c)
    ensures Inv(st')
  {
    hide Live, SnapshotsInv, RecordsInv, ReadersInv, MetasInv, Commits, PagesInv;
    PageWritten(st.file, st'.file, st.metas, st.slots, st.hist, t, p, c);
  }

  lemma PageWritten(f: File, f': File, ms: Metas, slots: seq<Slot>, hist: map<Txnid, Snapshot>, t: Writer, p: Pgno,
                    c: Page)
    requires SnapshotsInv(f, ms, slots, hist) && Reserved(t, ms, slots, hist) && p in t.own
    requires f' == f.(mem := f.mem[p := c], unsynced := f.unsynced + {p})
    ensures SnapshotsInv(f', ms, slots, hist)
  {
    assert Live(ms, slots, ms.m0.txnid) && Live(ms, slots, ms.m1.txnid);
    hide Live, GoodSnapshot, Covers;
  }

  lemma SaveInv(st: State, st': State, t: Writer)
    requires Inv(st) && st.writer == Some(t) && t.pc.Working? && Save(st, st', t)
    ensures Inv(st')
  {
    hide Live, SnapshotsInv, RecordsInv, ReadersInv;
  }

  lemma SyncInv(st: State, st': State, t: Writer)
    requires Inv(st) && st.writer == Some(t) && t.pc.Flushing? && Sync(st, st', t)
    ensures Inv(st')
  {
    assert Live(st.metas, st.slots, st.metas.m0.txnid) && Live(st.metas, st.slots, st.metas.m1.txnid);
    hide Live, RecordsInv, ReadersInv, GoodSnapshot;
  }

  /** What a txn commits is again a good snapshot, apart from which all older records stay safe. */
  lemma CommitIsGood(t: Writer, snap: Snapshot)
    requires PagesInv(t) && Commits(t, snap) && GoodSnapshot(t.base)
    ensures GoodSnapshot(snap)
  {
    hide Closed;
  }

  lemma CommitRecords(st: State, t: Writer, snap: Snapshot, h: Txnid, s: Txnid)
    requires Inv(st) && st.writer == Some(t) && t.pc == Synced(snap)
    requires h in snap.free && h <= s && Live(st.metas, st.slots, s) && s in st.hist
    ensures Apart(snap.free[h], st.hist[s].tree)
  {
    assert s <= st.mti;
    if t.pglast < h {
      assert Apart(t.base.free[h], st.hist[s].tree);
    }
  }

  lemma PublishInv(st: State, st': State, t: Writer)
    requires Inv(st) && st.writer == Some(t) && t.pc.Written? && Publish(st, st', t)
    ensures Inv(st')
  {
    hide Live, SnapshotsInv, RecordsInv;
  }

  lemma CrashInv(st: State, st': State)
    requires Inv(st) && Crash(st, st')
    ensures Inv(st')
  {
    forall s: Txnid | Live(st'.metas, st'.slots, s) ensures Live(st.metas, st.slots, s) {}
    assert Live(st.metas, st.slots, st.metas.m0.txnid) && Live(st.metas, st.slots, st.metas.m1.txnid);
    hide GoodSnapshot, WriterInv, ReaderInv, Live;
  }

  lemma WriteMetaMetas(st: State, st': State, t: Writer)
    requires Inv(st) && st.writer == Some(t) && t.pc.Synced? && WriteMeta(st, st', t)
    ensures MetasInv(st'.metas, st'.mti, true, st'.hist) && PickMeta(st'.metas).txnid == t.id
    ensures MetaOf(st'.metas, st.mti) == MetaOf(st.metas, st.mti)
    ensures forall s: Txnid ::
              Live(st'.metas, st'.slots, s) ==> s == t.id || (Live(st.metas, st.slots, s) && s <= st.mti)
  {
    hide MetasInv, SnapshotsInv, RecordsInv, ReadersInv, Commits, GoodSnapshot, PagesInv, Reserved, Live;
    MetasWritten(st.metas, st'.metas, st.mti, st.hist, st'.hist, t.id, t.pc.snap);
    forall s: Txnid | Live(st'.metas, st'.slots, s) ensures s == t.id || (Live(st.metas, st.slots, s) && s <= st.mti) {
      LiveBefore(st.metas, st'.metas, st.slots, t.id, s);
      if s != t.id { LiveIsOld(st, s); }
    }
  }

  /** The meta page of the older commit is overwritten; the other one stays. */
  lemma MetasWritten(ms: Metas, ms': Metas, mti: Txnid, hist: map<Txnid, Snapshot>, hist': map<Txnid, Snapshot>,
                     id: Txnid, snap: Snapshot)
    requires MetasInv(ms, mti, false, hist) && id == mti + 1 && hist' == hist[id := snap]
    requires var m := Meta(id, snap.roots, snap.next); ms' == if id % 2 == 0 then ms.(m0 := m) else ms.(m1 := m)
    ensures MetasInv(ms', mti, true, hist') && PickMeta(ms').txnid == id && MetaOf(ms', mti) == MetaOf(ms, mti)
  {
    OtherParity(mti);
  }

  lemma OtherParity(n: nat)
    ensures (n + 1) % 2 == 0 <==> n % 2 == 1
  {
  }

  lemma LiveBefore(ms: Metas, ms': Metas, slots: seq<Slot>, id: Txnid, s: Txnid)
    requires Live(ms', slots, s) && (ms'.m0 == ms.m0 || ms'.m0.txnid == id) && (ms'.m1 == ms.m1 || ms'.m1.txnid == id)
    ensures s == id || Live(ms, slots, s)
  {
  }

  lemma LiveIsOld(st: State, s: Txnid)
    requires Inv(st) && Live(st.metas, st.slots, s) && st.writer.Some? && !st.writer.value.pc.Written?
    ensures s <= st.mti
  {
    hide Live, RecordsInv, ReadersInv, WriterInv;
  }

  lemma WriteMetaSnapshots(st: State, st': State, t: Writer)
    requires Inv(st) && st.writer == Some(t) && t.pc.Synced? && WriteMeta(st, st', t)
    ensures SnapshotsInv(st'.file, st'.metas, st'.slots, st'.hist)
  {
    var snap := t.pc.snap;
    BaseIsGood(st);
    CommitIsGood(t, snap);
    WriteMetaMetas(st, st', t);
    CommitIsIntact(st, t, snap);
    hide Live, RecordsInv, ReadersInv, Commits, GoodSnapshot, PagesInv, Reserved, Intact;
  }

  lemma WriteMetaRecords(st: State, st': State, t: Writer)
    requires Inv(st) && st.writer == Some(t) && t.pc.Synced? && WriteMeta(st, st', t)
    ensures RecordsInv(st'.metas, st'.slots, st'.hist)
  {
    var snap := t.pc.snap;
    BaseIsGood(st);
    CommitIsGood(t, snap);
    WriteMetaMetas(st, st', t);
    hide Live, MetasInv, SnapshotsInv, ReadersInv, Commits, GoodSnapshot, PagesInv, Reserved, Inv, PickMeta;
    forall h: Txnid, s: Txnid | h in snap.free && Live(st'.metas, st'.slots, s) && s in st'.hist && h <= s
      ensures Apart(snap.free[h], st'.hist[s].tree)
    {
      if s != t.id { CommitRecords(st, t, snap, h, s); }
      else { CommitFreesNoTreePage(snap, h); }
    }
  }

  lemma CommitFreesNoTreePage(snap: Snapshot, h: Txnid)
    requires GoodSnapshot(snap) && h in snap.free
    ensures Apart(snap.free[h], snap.tree)
  {
  }

  lemma CommitIsIntact(st: State, t: Writer, snap: Snapshot)
    requires Inv(st) && st.writer == Some(t) && t.pc == Synced(snap)
    ensures Intact(st.file.mem, snap.tree) && OnDisk(st.file, snap.tree)
    ensures st.hist[st.mti].next <= snap.next
  {
    BaseIsGood(st);
    assert Intact(st.file.mem, st.hist[st.mti].tree);
    hide Live, RecordsInv, ReadersInv, GoodSnapshot, Reserved;
  }

  lemma WriteMetaInv(st: State, st': State, t: Writer)
    requires Inv(st) && st.writer == Some(t) && t.pc.Synced? && WriteMeta(st, st', t)
    ensures Inv(st')
  {
    WriteMetaMetas(st, st', t);
    WriteMetaSnapshots(st, st', t);
    WriteMetaRecords(st, st', t);
    assert PickMeta(st.metas).txnid == st.mti;
    hide Live, SnapshotsInv, RecordsInv, Commits, PagesInv, Reserved, MetasInv, ReaderInv, PickMeta;
    forall i | 0 <= i < |st.slots| ensures ReaderInv(st'.metas, st.mti, st.pgoldest, st'.hist, st.slots[i]) {
      ReaderWritten(st.metas, st'.metas, st.mti, st.pgoldest, st.hist, t.id, t.pc.snap, st.slots[i]);
    }
  }

  /** A new commit does not touch what a reader copied from earlier ones. */
  lemma ReaderWritten(ms: Metas, ms': Metas, mti: Txnid, pgoldest: Txnid, hist: map<Txnid, Snapshot>, id: Txnid,
                      snap: Snapshot, s: Slot)
    requires ReaderInv(ms, mti, pgoldest, hist, s)
    requires PickMeta(ms).txnid == mti && PickMeta(ms').txnid == id == mti + 1
    ensures ReaderInv(ms', mti, pgoldest, hist[id := snap], s)
  {
    hide PickMeta;
    if s.pc.Copying? || s.pc.Active? {
      forall k | 0 <= k < |s.pc.copies| ensures CopyInv(ms', hist[id := snap], s.pc.v, k, s.pc.copies[k]) {
        assert CopyInv(ms, hist, s.pc.v, k, s.pc.copies[k]);
      }
    }
  }

  lemma NewSlotInv(st: State, st': State)
    requires Inv(st) && NewSlot(st, st')
    ensures Inv(st')
  {
    forall s: Txnid | Live(st'.metas, st'.slots, s) ensures Live(st.metas, st.slots, s) {
      if i :| 0 <= i < |st'.slots| && Holds(st'.slots[i], s) { assert Holds(st.slots[i], s); }
    }
    hide MetasInv, GoodSnapshot, Intact, OnDisk, Apart, PagesInv, Commits, Live;
  }

  /** A reader takes hold of a commit only by copying the meta page of that commit. */
  lemma ReaderLive(st: State, st': State, i: nat, s': Slot)
    requires i < |st.slots| && ReaderMoves(st, st.slots[i], s') && st' == st.(slots := st.slots[i := s'])
    ensures forall s: Txnid :: Live(st'.metas, st'.slots, s) ==> Live(st.metas, st.slots, s)
  {
    forall s: Txnid | Live(st'.metas, st'.slots, s) ensures Live(st.metas, st.slots, s) {
      if k :| 0 <= k < |st'.slots| && Holds(st'.slots[k], s) {
        assert k != i ==> Holds(st.slots[k], s);
        if k == i { HeldBefore(st, st.slots[i], s', s); }
      }
    }
  }

  lemma HeldBefore(st: State, s: Slot, s': Slot, x: Txnid)
    requires ReaderMoves(st, s, s') && Holds(s', x)
    ensures Holds(s, x) || x == st.metas.m0.txnid || x == st.metas.m1.txnid
  {
    var k :| 0 <= k < |Copies(s'.pc)| && Copies(s'.pc)[k].w == x;
    if k < |Copies(s.pc)| { assert Copies(s.pc)[k].w == x; }
  }

  /** The meta page with the parity of v belongs to the last commit of that parity. */
  lemma MetaForReader(ms: Metas, mti: Txnid, written: bool, hist: map<Txnid, Snapshot>, v: Txnid)
    requires MetasInv(ms, mti, written, hist) && v <= mti
    ensures MetaOf(ms, v).txnid >= v && MetaMatches(MetaOf(ms, v), hist)
    ensures MetaOf(ms, v).txnid == CopiedFrom(v, Lag(ms, v))
  {
  }

  /** The bound in the meta page a reader looks at covers the commits its roots are from. */
  lemma BoundKept(st: State, s: Slot)
    requires Inv(st) && s in st.slots && s.pc.Copying?
    ensures forall k :: 0 <= k < |s.pc.copies| ==>
              && s.pc.copies[k].w in st.hist && s.pc.copies[k].lag <= Lag(st.metas, s.pc.v)
              && st.hist[s.pc.copies[k].w].next <= MetaOf(st.metas, s.pc.v).next
  {
    assert ReaderInv(st.metas, st.mti, st.pgoldest, st.hist, s);
    MetaForReader(st.metas, st.mti, st.writer.Some? && st.writer.value.pc.Written?, st.hist, s.pc.v);
    hide RecordsInv, ReadersInv, MetasInv, WriterInv, GoodSnapshot, Intact, OnDisk, Lag, CopiedFrom, Announced;
    var i :| 0 <= i < |st.slots| && st.slots[i] == s;
    forall k | 0 <= k < |s.pc.copies|
      ensures st.hist[s.pc.copies[k].w].next <= MetaOf(st.metas, s.pc.v).next
    {
      assert CopyInv(st.metas, st.hist, s.pc.v, k, s.pc.copies[k]);
      assert Copies(st.slots[i].pc)[k].w == s.pc.copies[k].w;
      assert Holds(st.slots[i], s.pc.copies[k].w);
      assert Live(st.metas, st.slots, s.pc.copies[k].w);
      Turns(s.pc.v, s.pc.copies[k].lag, Lag(st.metas, s.pc.v));
    }
  }

  lemma Turns(v: Txnid, lag: nat, lag': nat)
    requires lag <= lag'
    ensures CopiedFrom(v, lag) <= CopiedFrom(v, lag')
  {
  }

  lemma ReaderKept(st: State, s: Slot, s': Slot)
    requires Inv(st) && s in st.slots && ReaderMoves(st, s, s')
    ensures ReaderInv(st.metas, st.mti, st.pgoldest, st.hist, s')
    ensures st.writer.Some? && st.writer.value.pc.Scanning? && ScannedInv(s, st.writer.value.pc.acc) ==>
              ScannedInv(s', st.writer.value.pc.acc)
  {
    assert ReaderInv(st.metas, st.mti, st.pgoldest, st.hist, s);
    if s.pc.Copying? { CopyStep(st, s, s'); }
    hide SnapshotsInv, RecordsInv, MetasInv, WriterInv, MetaOf, Lag, CopiesInv, BoundInv;
  }

  lemma CopyStep(st: State, s: Slot, s': Slot)
    requires Inv(st) && s in st.slots && s.pc.Copying? && ReaderMoves(st, s, s')
    ensures ReaderInv(st.metas, st.mti, st.pgoldest, st.hist, s')
  {
    assert ReaderInv(st.metas, st.mti, st.pgoldest, st.hist, s);
    MetaForReader(st.metas, st.mti, st.writer.Some? && st.writer.value.pc.Written?, st.hist, s.pc.v);
    BoundKept(st, s);
    var m, lag := MetaOf(st.metas, s.pc.v), Lag(st.metas, s.pc.v);
    hide Inv, Announced, CopyInv, CopiesInv, MetaOf, Lag, CopiedFrom;
    if |s.pc.copies| < CORE_DBS {
      CopiesSnoc(st.metas, st.hist, s.pc.v, s.pc.copies, Copy(RootOf(m.roots, |s.pc.copies|), m.txnid, lag));
    }
  }

  lemma CopiesSnoc(ms: Metas, hist: map<Txnid, Snapshot>, v: Txnid, copies: seq<Copy>, c: Copy)
    requires CopiesInv(ms, hist, v, copies) && |copies| < CORE_DBS
    requires c.lag == Lag(ms, v) && c.w == CopiedFrom(v, c.lag) && c.w in hist
             && c.root == RootOf(hist[c.w].roots, |copies|)
    ensures CopiesInv(ms, hist, v, copies + [c])
  {
    hide CopiedFrom, Lag;
    var cs := copies + [c];
    forall k | 0 <= k < |cs| ensures CopyInv(ms, hist, v, k, cs[k]) && cs[k].lag <= c.lag {
      if k < |copies| { assert CopyInv(ms, hist, v, k, copies[k]); }
    }
  }

  lemma ReaderStepInv(st: State, st': State, i: nat)
    requires Inv(st) && ReaderStep(st, st', i)
    ensures Inv(st')
  {
    var s' :| ReaderMoves(st, st.slots[i], s') && st' == st.(slots := st.slots[i := s']);
    ReaderLive(st, st', i, s');
    ReaderKept(st, st.slots[i], s');
    hide MetasInv, GoodSnapshot, Intact, OnDisk, Apart, PagesInv, Commits, Live, ReaderMoves, ReaderInv, ScannedInv;
  }

  lemma WriterStepInv(st: State, st': State)
    requires Inv(st) && WriterStep(st, st')
    ensures Inv(st')
  {
    hide Inv, Begin, Abort, StartScan, Scan, Consume, Allocate, AllocateNew, GiveBack, Free, WritePage,
         Save, Sync, WriteMeta, Publish;
    match st.writer
    case None => BeginInv(st, st');
    case Some(t) =>
      if Abort(st, st') && !t.pc.Written? {
        AbortInv(st, st');
      } else {
        match t.pc
        case Working =>
          if Save(st, st', t) { SaveInv(st, st', t); }
          else if StartScan(st, st', t) { StartScanInv(st, st', t); }
          else { WorkInv(st, st', t); }
        case Scanning(_, _, _) => ScanInv(st, st', t);
        case Flushing(snap) =>
          if Sync(st, st', t) { SyncInv(st, st', t); }
          else {
            var p :| p in t.own && p in snap.tree && WritePage(st, st', p, snap.tree[p]);
            WritePageInv(st, st', t, p, snap.tree[p]);
          }
        case Synced(_) => WriteMetaInv(st, st', t);
        case Written(_) => PublishInv(st, st', t);
      }
  }

  lemma WorkInv(st: State, st': State, t: Writer)
    requires Inv(st) && st.writer == Some(t) && t.pc.Working? && Work(st, st', t)
    ensures Inv(st')
  {
    hide Inv, Consume, Allocate, AllocateNew, GiveBack, Free, WritePage;
    if AllocateNew(st, st', t) {
      AllocateNewInv(st, st', t);
    } else if h :| Consume(st, st', t, h) {
      ConsumeInv(st, st', t, h);
    } else if p, c :| Spill(st, st', t, p, c) {
      WritePageInv(st, st', t, p, c);
    } else {
      var p :| Allocate(st, st', t, p) || GiveBack(st, st', t, p) || Free(st, st', t, p);
      if Free(st, st', t, p) { FreeInv(st, st', t, p); } else { AllocateInv(st, st', t, p); }
    }
  }

  lemma NextInv(st: State, st': State)
    requires Inv(st) && Next(st, st')
    ensures Inv(st')
  {
    hide Inv, NewSlot, ReaderStep, WriterStep, Crash;
    if NewSlot(st, st') {
      NewSlotInv(st, st');
    } else if Crash(st, st') {
      CrashInv(st, st');
    } else if WriterStep(st, st') {
      WriterStepInv(st, st');
    } else {
      var i :| ReaderStep(st, st', i);
      ReaderStepInv(st, st', i);
    }
  }

  lemma {:induction false} RunInv(states: seq<State>, k: nat)
    requires Run(states) && k < |states|
    ensures Inv(states[k])
  {
    hide Inv, Next, Init;
    if k == 0 {
      InitInv(states[0]);
    } else {
      RunInv(states, k - 1);
      NextInv(states[k-1], states[k]);
    }
  }

  // ---- What the invariant gives ----

  /** Follow child pointers from one of the roots; None when a pointer or a page is missing. */
  ghost function Walk(pages: Store, p: Pgno, path: seq<nat>): (r: Option<Page>)
    decreases |path|
  {
    if p !in pages then None
    else if path == [] then Some(pages[p])
    else if path[0] < |pages[p].kids| then Walk(pages, pages[p].kids[path[0]], path[1..])
    else None
  }

  lemma {:induction false} WalkIntact(mem: Store, s: Snapshot, p: Pgno, path: seq<nat>)
    requires Closed(s) && Intact(mem, s.tree) && p in s.tree
    ensures Walk(mem, p, path) == Walk(s.tree, p, path)
    decreases |path|
  {
    if path != [] && path[0] < |s.tree[p].kids| {
      WalkIntact(mem, s, s.tree[p].kids[path[0]], path[1..]);
    }
  }

  /**
   * Isolation: at every point of every run, copy r of an active reader is root r of some commit, all pages of that
   * commit are as they were, and whatever path the reader follows from the root, it reads those pages, however late
   * it copied and however much was written since.
   */
  lemma ReaderIsolation(states: seq<State>, k: nat, i: nat, r: nat, path: seq<nat>)
    requires Run(states) && k < |states| && i < |states[k].slots| && states[k].slots[i].pc.Active?
    requires r < |states[k].slots[i].pc.copies|
    ensures var st := states[k]; var c := st.slots[i].pc.copies[r];
            && c.w in st.hist
            && var s := st.hist[c.w];
            && c.root == (if r < |s.roots| then s.roots[r] else None)
            && (forall p :: p in s.tree ==> p in st.file.mem && st.file.mem[p] == s.tree[p])
            && (c.root.Some? ==>
                  && c.root.value in s.tree
                  && Walk(st.file.mem, c.root.value, path) == Walk(s.tree, c.root.value, path))
  {
    RunInv(states, k);
    var st := states[k];
    var c := st.slots[i].pc.copies[r];
    CopyKept(st, i, r);
    hide Inv;
    if c.root.Some? { WalkIntact(st.file.mem, st.hist[c.w], c.root.value, path); }
  }

  lemma CopyKept(st: State, i: nat, r: nat)
    requires Inv(st) && i < |st.slots| && r < |Copies(st.slots[i].pc)|
    ensures var c := Copies(st.slots[i].pc)[r];
            && c.w in st.hist && c.root == RootOf(st.hist[c.w].roots, r) && Live(st.metas, st.slots, c.w)
            && GoodSnapshot(st.hist[c.w]) && Intact(st.file.mem, st.hist[c.w].tree)
  {
    hide RecordsInv, WriterInv, MetasInv, OnDisk, GoodSnapshot, Intact, Announced;
    assert ReaderInv(st.metas, st.mti, st.pgoldest, st.hist, st.slots[i]);
    assert Holds(st.slots[i], Copies(st.slots[i].pc)[r].w);
  }

  /** All roots and the page bound are from one commit. */
  ghost predicate OneCommit(pc: ReaderPc)
    requires pc.Active?
  {
    forall r :: 0 <= r < |pc.copies| ==> pc.copies[r].w == pc.wNext
  }

  /**
   * What a reader copied lag commits after the one it announced is from commit v + lag or, for odd lag,
   * the one before.  So it is from the announced commit if and only if fewer than two later commits had written their
   * meta page, and everything is from one commit if and only if the first and the last copy were made in the same turn
   * of the meta page.
   */
  lemma ReaderGetsAnnouncedCommit(states: seq<State>, k: nat, i: nat)
    requires Run(states) && k < |states| && i < |states[k].slots| && states[k].slots[i].pc.Active?
    ensures var st := states[k]; var pc := st.slots[i].pc;
            && |pc.copies| == CORE_DBS && pc.wNext in st.hist && pc.next == st.hist[pc.wNext].next
            && (forall r :: 0 <= r < |pc.copies| ==> (pc.copies[r].w == pc.v <==> pc.copies[r].lag < 2))
            && (pc.wNext == pc.v <==> pc.lagNext < 2)
            && (OneCommit(pc) <==> pc.copies[0].lag / 2 == pc.lagNext / 2)
  {
    hide Run, Inv, ReaderInv, OneCommit;
    var st := states[k];
    RunInv(states, k);
    ReaderInvAt(st, i);
    AnnouncedIff(st.metas, st.mti, st.pgoldest, st.hist, st.slots[i]);
  }

  lemma ReaderInvAt(st: State, i: nat)
    requires Inv(st) && i < |st.slots|
    ensures ReaderInv(st.metas, st.mti, st.pgoldest, st.hist, st.slots[i])
  {
    hide MetasInv, SnapshotsInv, RecordsInv, WriterInv, ReaderInv;
  }

  lemma AnnouncedIff(ms: Metas, mti: Txnid, pgoldest: Txnid, hist: map<Txnid, Snapshot>, s: Slot)
    requires ReaderInv(ms, mti, pgoldest, hist, s) && s.pc.Active?
    ensures var pc := s.pc;
            && |pc.copies| == CORE_DBS && pc.wNext in hist && pc.next == hist[pc.wNext].next
            && (forall r :: 0 <= r < |pc.copies| ==> (pc.copies[r].w == pc.v <==> pc.copies[r].lag < 2))
            && (pc.wNext == pc.v <==> pc.lagNext < 2)
            && (OneCommit(pc) <==> pc.copies[0].lag / 2 == pc.lagNext / 2)
  {
    hide Announced;
  }

  /** Mixed or not, the bound covers every page that a reader can get to, so that mdb_page_get never refuses one. */
  lemma BoundCovers(states: seq<State>, k: nat, i: nat, r: nat, p: Pgno)
    requires Run(states) && k < |states| && i < |states[k].slots| && states[k].slots[i].pc.Active?
    requires r < |states[k].slots[i].pc.copies|
    ensures var st := states[k]; var pc := st.slots[i].pc;
            pc.copies[r].w in st.hist && (p in st.hist[pc.copies[r].w].tree ==> p < pc.next)
  {
    RunInv(states, k);
    var st := states[k];
    CopyKept(st, i, r);
    assert ReaderInv(st.metas, st.mti, st.pgoldest, st.hist, st.slots[i]);
    hide Inv, Announced, CopiesInv, Live, Intact;
  }

  /**
   * No reuse: a page that write transaction N may write is in no tree that a reader holds, nor in
   * those of commits N-1 and N-2.
   */
  lemma WriterNeverTouchesLiveTree(states: seq<State>, k: nat, p: Pgno, s: Txnid)
    requires Run(states) && k < |states| && states[k].writer.Some? && !states[k].writer.value.pc.Written?
    requires p in states[k].writer.value.own || p in states[k].writer.value.pghead
    requires
      || (exists i :: 0 <= i < |states[k].slots| && Holds(states[k].slots[i], s))
      || s + 1 == states[k].writer.value.id
      || s + 2 == states[k].writer.value.id
    ensures s in states[k].hist && p !in states[k].hist[s].tree
  {
    RunInv(states, k);
    var st := states[k];
    BaseIsGood(st);
    assert Live(st.metas, st.slots, s) by { hide SnapshotsInv, RecordsInv, ReadersInv; }
    hide RecordsInv, ReadersInv, MetasInv, Live;
  }

  /**
   * Recovery: a crash at any step leaves a file whose newer meta leads to an intact tree.  It is the
   * last published commit, or the next one if its meta page was already written.
   */
  lemma CrashRecovers(states: seq<State>, k: nat, st': State)
    requires Run(states) && k < |states| && Crash(states[k], st')
    ensures var st, c := states[k], PickMeta(st'.metas).txnid;
            && c == (if st.writer.Some? && st.writer.value.pc.Written? then st.mti + 1 else st.mti)
            && c in st.hist && PickMeta(st'.metas).roots == st.hist[c].roots && Closed(st.hist[c])
            && Intact(st'.file.mem, st.hist[c].tree)
  {
    RunInv(states, k);
    var st := states[k];
    assert Live(st.metas, st.slots, PickMeta(st.metas).txnid);
    hide RecordsInv, ReadersInv, WriterInv, Live;
  }

  /** The crashes meant are the worst ones: they can leave anything at all in the pages written since the last sync. */
  lemma CrashTears(states: seq<State>, torn: Store) returns (longer: seq<State>)
    requires Run(states) && torn.Keys <= Last(states).file.unsynced
    ensures Run(longer) && states <= longer && Last(longer).file.mem == Last(states).file.durable + torn
  {
    var st := Last(states);
    var mem := st.file.durable + torn;
    var st' := st.(file := File(mem, mem, {}), slots := [], writer := None, mti := PickMeta(st.metas).txnid,
                   pgoldest := 0);
    assert Crash(st, st');
    longer := states + [st'];
  }

  /** A step never rewrites the history of a commit that somebody may still read. */
  lemma HistoryStable(st: State, st': State, s: Txnid)
    requires Inv(st) && Next(st, st') && Live(st.metas, st.slots, s)
    ensures s in st.hist && s in st'.hist && st'.hist[s] == st.hist[s]
  {
    hide Live, MetasInv, RecordsInv, ReadersInv, Commits, PagesInv, Reserved, GoodSnapshot, Intact, OnDisk, Next,
      WriterPcInv, Covers;
    HistoryGrows(st, st');
    if st.writer.Some? && st.writer.value.pc.Synced? { LiveIsOld(st, s); }
  }

  lemma HistoryGrows(st: State, st': State)
    requires Next(st, st')
    ensures st'.hist == st.hist
            || (st.writer.Some? && st.writer.value.pc.Synced?
                && st'.hist == st.hist[st.writer.value.id := st.writer.value.pc.snap])
  {
    hide Commits, Closed;
  }

  /** Reading the same path twice in one read transaction gives the same page. */
  lemma {:induction false} RepeatableRead(states: seq<State>, k: nat, k': nat, i: nat, r: nat, path: seq<nat>)
    requires Run(states) && k <= k' < |states| && i < |states[k].slots| && states[k].slots[i].pc.Active?
    requires r < |states[k].slots[i].pc.copies| && states[k].slots[i].pc.copies[r].root.Some?
    requires forall j :: k <= j <= k' ==> i < |states[j].slots| && states[j].slots[i].pc == states[k].slots[i].pc
    ensures var root := states[k].slots[i].pc.copies[r].root.value;
            Walk(states[k].file.mem, root, path) == Walk(states[k'].file.mem, root, path)
    decreases k' - k
  {
    if k < k' {
      var pc := states[k].slots[i].pc;
      assert states[k+1].slots[i].pc == pc;
      ReaderIsolation(states, k, i, r, path);
      ReaderIsolation(states, k + 1, i, r, path);
      RunInv(states, k);
      hide Inv, Next, Walk, Live;
      CopyKept(states[k], i, r);
      HistoryStable(states[k], states[k+1], pc.copies[r].w);
      RepeatableRead(states, k + 1, k', i, r, path);
    }
  }

  ghost function Last(states: seq<State>): State
    requires states != []
  {
    states[|states|-1]
  }

  lemma Extend(states: seq<State>, st: State) returns (longer: seq<State>)
    requires Run(states) && Next(Last(states), st)
    ensures Run(longer) && Last(longer) == st
  {
    longer := states + [st];
  }

  lemma ExtendByReader(states: seq<State>, s': Slot) returns (longer: seq<State>)
    requires Run(states) && |Last(states).slots| == 1
    requires ReaderMoves(Last(states), Last(states).slots[0], s')
    ensures Run(longer) && Last(longer) == Last(states).(slots := [s'])
  {
    var st := Last(states);
    assert st.slots[0 := s'] == [s'];
    assert ReaderStep(st, st.(slots := [s']), 0);
    longer := Extend(states, st.(slots := [s']));
  }

  /** st with s in slot i. */
  ghost function With(st: State, i: nat, s: Slot): State
    requires i < |st.slots|
  {
    st.(slots := st.slots[i := s])
  }

  /** A run that has come from st by steps of the reader in slot i only goes on with another one. */
  lemma ExtendSlot(states: seq<State>, st: State, i: nat, s: Slot, s': Slot) returns (longer: seq<State>)
    requires Run(states) && i < |st.slots| && Last(states) == With(st, i, s) && ReaderMoves(st, s, s')
    ensures Run(longer) && states <= longer && Last(longer) == With(st, i, s')
  {
    var st1, st2 := With(st, i, s), With(st, i, s');
    assert st2 == st1.(slots := st1.slots[i := s']) && st1.slots[i] == s;
    SameMoves(st, st1, s, s');
    hide ReaderMoves;
    assert ReaderStep(st1, st2, i);
    longer := states + [st2];
  }

  lemma SameMoves(st: State, st': State, s: Slot, s': Slot)
    requires ReaderMoves(st, s, s') && st'.metas == st.metas && st'.mti == st.mti
    ensures ReaderMoves(st', s, s')
  {
  }

  /** The meta page of the commit published last is that commit's. */
  lemma NewestMeta(st: State)
    requires Inv(st)
    ensures st.mti in st.hist
    ensures var m, now := MetaOf(st.metas, st.mti), st.hist[st.mti];
            m.txnid == st.mti && m.roots == now.roots && m.next == now.next
  {
    hide SnapshotsInv, RecordsInv, ReadersInv, WriterInv;
    MetaForReader(st.metas, st.mti, st.writer.Some? && st.writer.value.pc.Written?, st.hist, st.mti);
  }

  /**
   * Readers wait for nobody: at every point of every run a reader that has a slot can begin, without any step of
   * another, and then holds the commit published last, all of it.
   */
  lemma ReaderBegins(states: seq<State>, i: nat) returns (longer: seq<State>)
    requires Run(states) && i < |Last(states).slots| && Last(states).slots[i].pid && Last(states).slots[i].pc == Idle
    ensures Run(longer) && states <= longer && i < |Last(longer).slots| && Last(longer).slots[i].pc.Active?
    ensures var st, st' := Last(states), Last(longer);
            var s := st'.slots[i];
            && st' == With(st, i, s) && s.pc.v == st.mti && st.mti in st.hist
            && var now := st.hist[st.mti];
            && |s.pc.copies| == 2 && s.pc.next == now.next
            && forall r :: 0 <= r < 2 ==>
                 s.pc.copies[r].w == st.mti && s.pc.copies[r].root == if r < |now.roots| then now.roots[r] else None
  {
    var st := Last(states);
    RunInv(states, |states| - 1);
    hide Inv, Run;
    NewestMeta(st);
    var v, m, lag := st.mti, MetaOf(st.metas, st.mti), Lag(st.metas, st.mti);
    var s := st.slots[i];
    assert With(st, i, s) == st;
    var a, b := Copy(RootOf(m.roots, 0), v, lag), Copy(RootOf(m.roots, 1), v, lag);
    var s1, s2, s3 := s.(pc := Loaded(v)), Slot(true, Some(v), Stored(v)), Slot(true, Some(v), Copying(v, []));
    var s4, s5 := Slot(true, Some(v), Copying(v, [a])), Slot(true, Some(v), Copying(v, [a, b]));
    var s6 := Slot(true, Some(v), Active(v, [a, b], m.next, v, lag));
    Announcing(st, s);
    CopyingOn(st, v, m, lag);
    hide MetaOf, Lag, With, ReaderMoves;
    longer := ExtendSlot(states, st, i, s, s1);
    longer := ExtendSlot(longer, st, i, s1, s2);
    longer := ExtendSlot(longer, st, i, s2, s3);
    longer := ExtendSlot(longer, st, i, s3, s4);
    longer := ExtendSlot(longer, st, i, s4, s5);
    longer := ExtendSlot(longer, st, i, s5, s6);
    WithAt(st, i, s6);
  }

  lemma Announcing(st: State, s: Slot)
    requires s.pid && s.pc == Idle
    ensures var v := st.mti;
            var s1, s2, s3 := s.(pc := Loaded(v)), Slot(true, Some(v), Stored(v)), Slot(true, Some(v), Copying(v, []));
            ReaderMoves(st, s, s1) && ReaderMoves(st, s1, s2) && ReaderMoves(st, s2, s3)
  {
  }

  lemma CopyingOn(st: State, v: Txnid, m: Meta, lag: nat)
    requires m == MetaOf(st.metas, v) && m.txnid == v && lag == Lag(st.metas, v)
    ensures var a, b := Copy(RootOf(m.roots, 0), v, lag), Copy(RootOf(m.roots, 1), v, lag);
            var s3, s4 := Slot(true, Some(v), Copying(v, [])), Slot(true, Some(v), Copying(v, [a]));
            var s5 := Slot(true, Some(v), Copying(v, [a, b]));
            var s6 := s5.(pc := Active(v, [a, b], m.next, v, lag));
            ReaderMoves(st, s3, s4) && ReaderMoves(st, s4, s5) && ReaderMoves(st, s5, s6)
  {
    hide MetaOf, Lag;
    var a, b := Copy(RootOf(m.roots, 0), v, lag), Copy(RootOf(m.roots, 1), v, lag);
    assert [] + [a] == [a] && [a] + [b] == [a, b];
  }

  lemma WithAt(st: State, i: nat, s: Slot)
    requires i < |st.slots|
    ensures |With(st, i, s).slots| == |st.slots| && With(st, i, s).slots[i] == s
  {
  }

  /** The database base with one more page, a new root of the main database over pages of base. */
  ghost function Grown(base: Snapshot, page: Page): Snapshot {
    Snapshot([None, Some(base.next)], base.tree[base.next := page],
             map h | h in base.free && 0 < h :: base.free[h], base.next + 1)
  }

  lemma GrownCommits(t: Writer, page: Page)
    requires GoodSnapshot(t.base) && t.own == {t.base.next} && t.next == t.base.next + 1
    requires t.pglast == 0 && t.freed == {} && (forall k :: 0 <= k < |page.kids| ==> page.kids[k] in t.base.tree)
    ensures Commits(t, Grown(t.base, page))
  {
  }

  /**
   * Nor does the writer wait for readers: at every point of every run without a writer, one can begin and commit a new
   * page over any of the old ones, which it shares, and that is what the next reader gets.
   */
  lemma WriterCommits(states: seq<State>, page: Page) returns (longer: seq<State>)
    requires Run(states) && Last(states).writer == None
    requires var st := Last(states);
             forall k :: 0 <= k < |page.kids| && st.mti in st.hist ==> page.kids[k] in st.hist[st.mti].tree
    ensures Run(longer) && states <= longer
    ensures var st, st' := Last(states), Last(longer);
            && st.mti in st.hist
            && var base := st.hist[st.mti];
            && st'.mti == st.mti + 1 && st'.hist == st.hist[st.mti + 1 := Grown(base, page)]
            && st'.slots == st.slots && st'.writer == None && st'.file.mem == st.file.mem[base.next := page]
            && st'.file.durable == st'.file.mem
  {
    var st := Last(states);
    RunInv(states, |states| - 1);
    BaseIsGood(st);
    hide Inv, Run, MetaOf, GoodSnapshot, Live, Grown;
    var base, p, id := st.hist[st.mti], st.hist[st.mti].next, st.mti + 1;
    var t0 := Writer(id, base, {}, 0, {}, {}, p, Working);
    var t1, snap := t0.(own := {p}, next := p + 1), Grown(base, page);
    assert t0.own + {p} == {p};
    GrownCommits(t1, page);
    GrownAt(base, page);
    longer := Prolong(states, st.(writer := Some(t0)));
    longer := ProlongWork(longer, st.(writer := Some(t1)), t0);
    longer := CommitOn(longer, st, t1, snap, p);
  }

  lemma GrownAt(base: Snapshot, page: Page)
    ensures var snap := Grown(base, page); base.next in snap.tree && snap.tree[base.next] == page
  {
  }

  lemma ProlongWork(states: seq<State>, st': State, t: Writer) returns (longer: seq<State>)
    requires Run(states) && Last(states).writer == Some(t) && t.pc.Working? && AllocateNew(Last(states), st', t)
    ensures Run(longer) && Last(longer) == st' && states <= longer
  {
    longer := Prolong(states, st');
  }

  lemma Prolong(states: seq<State>, st': State) returns (longer: seq<State>)
    requires Run(states) && WriterStep(Last(states), st')
    ensures Run(longer) && Last(longer) == st' && states <= longer
  {
    longer := states + [st'];
  }

  /** From saving the freelist to publishing the commit. */
  lemma CommitOn(states: seq<State>, st: State, t: Writer, snap: Snapshot, p: Pgno) returns (longer: seq<State>)
    requires Run(states) && Last(states) == st.(writer := Some(t)) && t.pc.Working? && Commits(t, snap)
    requires t.own == {p} && p in snap.tree
    ensures Run(longer) && states <= longer
    ensures var st' := Last(longer);
            && st'.mti == t.id && st'.hist == st.hist[t.id := snap] && st'.slots == st.slots && st'.writer == None
            && st'.file.mem == st.file.mem[p := snap.tree[p]] && st'.file.durable == st'.file.mem
  {
    hide Run, Commits;
    var f := File(st.file.mem[p := snap.tree[p]], st.file.durable, st.file.unsynced + {p});
    var f' := File(f.mem, f.mem, {});
    var m := Meta(t.id, snap.roots, snap.next);
    var ms := if t.id % 2 == 0 then st.metas.(m0 := m) else st.metas.(m1 := m);
    longer := Prolong(states, st.(writer := Some(t.(pc := Flushing(snap)))));
    longer := FlushOne(longer, st, t, snap, p, f);
    longer := Prolong(longer, st.(file := f', writer := Some(t.(pc := Synced(snap)))));
    var hist := st.hist[t.id := snap];
    longer := Prolong(longer, st.(file := f', metas := ms, hist := hist, writer := Some(t.(pc := Written(snap)))));
    longer := Prolong(longer, st.(file := f', metas := ms, hist := hist, mti := t.id, writer := None));
  }

  lemma FlushOne(states: seq<State>, st: State, t: Writer, snap: Snapshot, p: Pgno, f: File)
    returns (longer: seq<State>)
    requires Run(states) && Last(states) == st.(writer := Some(t.(pc := Flushing(snap))))
    requires p in t.own && p in snap.tree
             && f == File(st.file.mem[p := snap.tree[p]], st.file.durable, st.file.unsynced + {p})
    ensures Run(longer) && states <= longer
    ensures Last(longer) == st.(file := f, writer := Some(t.(pc := Flushing(snap))))
  {
    hide Run;
    var st1 := st.(writer := Some(t.(pc := Flushing(snap))));
    var st2 := st1.(file := f);
    assert WritePage(st1, st2, p, snap.tree[p]);
    longer := Prolong(states, st2);
  }

  /** o is the least of id and the transaction numbers in the slots in use from k on. */
  ghost predicate Oldest(slots: seq<Slot>, k: nat, id: Txnid, o: Txnid) {
    && o <= id
    && (forall i :: k <= i < |slots| && slots[i].pid && slots[i].txnid.Some? ==> o <= slots[i].txnid.value)
    && (o == id || exists i :: k <= i < |slots| && slots[i].pid && slots[i].txnid == Some(o))
  }

  /** Without steps of others, mdb_find_oldest returns the oldest transaction number in the reader table. */
  lemma ScanExact(states: seq<State>, t: Writer) returns (longer: seq<State>, o: Txnid)
    requires Run(states) && Last(states).writer == Some(t) && t.pc == Working
    ensures Run(longer) && states <= longer && Last(longer) == Last(states).(pgoldest := o)
    ensures t.id > 0 && Oldest(Last(states).slots, 0, t.id - 1, o)
  {
    var st := Last(states);
    RunInv(states, |states| - 1);
    var pc := Scanning(|st.slots|, t.id - 1, false);
    hide Inv, Run, Work, Save;
    longer := Prolong(states, st.(writer := Some(t.(pc := pc))));
    longer, o := ScanFrom(longer, st, t, |st.slots|, t.id - 1);
  }

  lemma ScanFrom(states: seq<State>, st: State, t: Writer, left: nat, acc: Txnid)
    returns (longer: seq<State>, o: Txnid)
    requires t.pc == Working && t.id > 0 && left <= |st.slots| && Oldest(st.slots, left, t.id - 1, acc)
    requires Run(states) && Last(states) == st.(writer := Some(t.(pc := Scanning(left, acc, false))))
    ensures Run(longer) && states <= longer && Last(longer) == st.(pgoldest := o, writer := Some(t))
    ensures Oldest(st.slots, 0, t.id - 1, o)
    decreases left
  {
    hide Run, Oldest;
    if left == 0 {
      o := acc;
      longer := Prolong(states, st.(pgoldest := o, writer := Some(t)));
    } else {
      var s := st.slots[left - 1];
      var acc' := if s.pid && s.txnid.Some? && s.txnid.value < acc then s.txnid.value else acc;
      OldestStep(st.slots, left, t.id - 1, acc, acc');
      longer := states;
      if s.pid {
        longer := Prolong(longer, st.(writer := Some(t.(pc := Scanning(left, acc, true)))));
      }
      longer := Prolong(longer, st.(writer := Some(t.(pc := Scanning(left - 1, acc', false)))));
      longer, o := ScanFrom(longer, st, t, left - 1, acc');
    }
  }

  lemma OldestStep(slots: seq<Slot>, left: nat, id: Txnid, acc: Txnid, acc': Txnid)
    requires 0 < left <= |slots| && Oldest(slots, left, id, acc)
    requires var s := slots[left - 1];
             acc' == if s.pid && s.txnid.Some? && s.txnid.value < acc then s.txnid.value else acc
    ensures Oldest(slots, left - 1, id, acc')
  {
  }

  /**
   * No page is lost to old readers: a page in a record that is older than the base of the writer and than every
   * reader's transaction can be used again, at every point of every run.
   */
  lemma PageReusable(states: seq<State>, t: Writer, h: Txnid, p: Pgno) returns (longer: seq<State>)
    requires Run(states) && Last(states).writer == Some(t) && t.pc == Working
    requires h in t.base.free && p in t.base.free[h] && t.pglast < h < t.id - 1
    requires var slots := Last(states).slots;
             forall i :: 0 <= i < |slots| && slots[i].pid && slots[i].txnid.Some? ==> h < slots[i].txnid.value
    ensures Run(longer) && states <= longer && Last(longer).writer.Some?
    ensures Last(longer).slots == Last(states).slots && Last(longer).file == Last(states).file
    ensures p in Last(longer).writer.value.own && Last(longer).writer.value.next == t.next
  {
    var o;
    longer, o := ScanExact(states, t);
    assert h < o;
    longer := ConsumeTo(longer, t, h, p);
  }

  lemma ConsumeTo(states: seq<State>, t: Writer, h: Txnid, p: Pgno) returns (longer: seq<State>)
    requires Run(states) && Last(states).writer == Some(t) && t.pc == Working
    requires h in t.base.free && p in t.base.free[h] && t.pglast < h < Last(states).pgoldest
    ensures Run(longer) && states <= longer && Last(longer).writer.Some?
    ensures Last(longer).slots == Last(states).slots && Last(longer).file == Last(states).file
    ensures p in Last(longer).writer.value.own && Last(longer).writer.value.next == t.next
    decreases h - t.pglast
  {
    var st := Last(states);
    hide Run;
    var g := NextRecord(t.base.free, t.pglast, h);
    var t1 := t.(pglast := g, pghead := t.pghead + t.base.free[g]);
    var st1 := st.(writer := Some(t1));
    assert Consume(st, st1, t, g);
    longer := Prolong(states, st1);
    if g == h {
      var st2 := st1.(writer := Some(t1.(pghead := t1.pghead - {p}, own := t1.own + {p})));
      assert Allocate(st1, st2, t1, p);
      longer := Prolong(longer, st2);
    } else {
      longer := ConsumeTo(longer, t1, h, p);
    }
  }

  /** The first record above last. */
  lemma NextRecord(free: map<Txnid, set<Pgno>>, last: Txnid, h: Txnid) returns (g: Txnid)
    requires h in free && last < h
    ensures g in free && last < g <= h && forall k :: k in free && last < k ==> g <= k
    decreases h
  {
    if k :| k in free && last < k < h {
      g := NextRecord(free, last, k);
    } else {
      g := h;
    }
  }

  ghost function OnePage(st: State): Snapshot
    requires st.mti in st.hist
  {
    var base := st.hist[st.mti];
    Snapshot([], map[], base.free[st.mti + 1 := {base.next}], base.next + 1)
  }

  lemma OnePageCommits(st: State, t: Writer)
    requires st.mti in st.hist && GoodSnapshot(st.hist[st.mti])
    requires var base := st.hist[st.mti];
             && base.tree == map[] && 0 !in base.free && st.mti + 1 !in base.free
             && t == Writer(st.mti + 1, base, {}, 0, {}, {base.next}, base.next + 1, Working)
    ensures Commits(t, OnePage(st))
  {
  }

  /** A write txn on an empty tree that allocates one page and frees it. */
  lemma ExtendByTxn(states: seq<State>) returns (longer: seq<State>, t: Writer)
    requires Run(states) && Last(states).writer == None && Last(states).mti in Last(states).hist
    requires var base := Last(states).hist[Last(states).mti];
             base.tree == map[] && base.roots == [] && 0 !in base.free && Last(states).mti + 1 !in base.free
    ensures Run(longer) && t.id == Last(states).mti + 1 && t.own == {}
    ensures Last(longer) == Last(states).(writer := Some(t.(pc := Flushing(OnePage(Last(states))))))
  {
    var last := |states| - 1;
    assert last >= 0;
    hide Run, Inv, MetaOf, NewSlot, ReaderStep, Crash, Work, StartScan, Abort;
    RunInv(states, last);
    var st := Last(states);
    BaseIsGood(st);
    var id, base := st.mti + 1, st.hist[st.mti];
    var t0 := Writer(id, base, {}, 0, {}, {}, base.next, Working);
    longer := Extend(states, st.(writer := Some(t0)));
    var t1 := t0.(own := {base.next}, next := base.next + 1);
    assert t0.own + {t0.next} == t1.own;
    longer := ExtendByWork(longer, st.(writer := Some(t1)), t0, base.next);
    t := t1.(own := {}, freed := {base.next});
    assert t1.own - {base.next} == {} && t1.freed + {base.next} == t.freed;
    longer := ExtendByWork(longer, st.(writer := Some(t)), t1, base.next);
    OnePageCommits(st, t);
    hide Commits;
    longer := Extend(longer, st.(writer := Some(t.(pc := Flushing(OnePage(st))))));
  }

  lemma ExtendByWork(states: seq<State>, st': State, t: Writer, p: Pgno) returns (longer: seq<State>)
    requires Run(states) && Last(states).writer == Some(t) && t.pc.Working?
    requires AllocateNew(Last(states), st', t) || Free(Last(states), st', t, p)
    ensures Run(longer) && Last(longer) == st'
  {
    longer := Extend(states, st');
  }

  lemma ExtendByCommit(states: seq<State>) returns (longer: seq<State>)
    requires Run(states) && Last(states).writer == None && Last(states).mti in Last(states).hist
    requires var base := Last(states).hist[Last(states).mti];
             base.tree == map[] && base.roots == [] && 0 !in base.free && Last(states).mti + 1 !in base.free
    ensures Run(longer)
    ensures var st, st' := Last(states), Last(longer);
            var m := Meta(st.mti + 1, [], st.hist[st.mti].next + 1);
            && st'.metas == (if m.txnid % 2 == 0 then st.metas.(m0 := m) else st.metas.(m1 := m))
            && st'.hist == st.hist[m.txnid := OnePage(st)] && st'.slots == st.slots && st'.mti == st.mti
            && st'.writer.Some? && st'.writer.value.id == m.txnid && st'.writer.value.pc.Written?
  {
    var t;
    longer, t := ExtendByTxn(states);
    hide Run, Commits, NewSlot, ReaderStep, Crash, Work, StartScan, Abort;
    var st, snap := Last(states), OnePage(Last(states));
    var f := File(st.file.mem, st.file.mem, {});
    longer := Extend(longer, st.(file := f, writer := Some(t.(pc := Synced(snap)))));
    var m := Meta(t.id, [], snap.next);
    longer := Extend(longer, st.(file := f, hist := st.hist[t.id := snap], writer := Some(t.(pc := Written(snap))),
                                 metas := if t.id % 2 == 0 then st.metas.(m0 := m) else st.metas.(m1 := m)));
  }

  /**
   * The hypothesis cannot be dropped: a reader that stalls between its two copies while two commits
   * pass holds the roots of one commit and the page bound of another.
   */
  lemma StalledReaderMixesCommits() returns (states: seq<State>)
    ensures Run(states) && |Last(states).slots| == 1 && Last(states).slots[0].pc.Active?
    ensures var pc := Last(states).slots[0].pc;
            && |pc.copies| == CORE_DBS && pc.copies[0].w == pc.copies[1].w == pc.v && pc.v in Last(states).hist
            && pc.next != Last(states).hist[pc.v].next && pc.wNext != pc.v && pc.lagNext == 2
  {
    var st := State(File(map[], map[], {}), Metas(Meta(0, [], 2), Meta(0, [], 2)), 0, 0, [], None,
                    map[0 := Snapshot([], map[], map[], 2)]);
    states := [st];
    hide Run, Inv, WriterStep;
    states := Extend(states, st.(slots := [Slot(false, None, Idle)]));
    states := ExtendByReader(states, Slot(true, None, Idle));
    states := ExtendByReader(states, Slot(true, None, Loaded(0)));
    states := ExtendByReader(states, Slot(true, Some(0), Stored(0)));
    states := ExtendByReader(states, Slot(true, Some(0), Copying(0, [])));
    var c := Copy(None, 0, 0);
    assert [] + [c] == [c] && [c] + [c] == [c, c];
    states := ExtendByReader(states, Slot(true, Some(0), Copying(0, [c])));
    states := ExtendByReader(states, Slot(true, Some(0), Copying(0, [c, c])));
    states := ExtendByCommit(states);
    states := ExtendByPublish(states);
    states := ExtendByCommit(states);
    states := ExtendByReader(states, Slot(true, Some(0), Active(0, [c, c], 4, 2, 2)));
  }

  /**
   * mdb_find_oldest can return less than it did before: a reader loads mti_txnid, a commit is published and the writer
   * scans the slots, and only then does the reader store what it loaded.  Nothing depends on it, because such a reader
   * finds that mti_txnid has changed and starts over.
   */
  lemma OldestGoesBack() returns (states: seq<State>)
    ensures Run(states) && |states| > 1 && states[|states|-2].pgoldest == 1 && Last(states).pgoldest == 0
    ensures Last(states).writer.Some? && Last(states).mti == 1
  {
    var st := State(File(map[], map[], {}), Metas(Meta(0, [], 2), Meta(0, [], 2)), 0, 0, [], None,
                    map[0 := Snapshot([], map[], map[], 2)]);
    states := [st];
    hide Run, Inv, WriterStep;
    states := Extend(states, st.(slots := [Slot(false, None, Idle)]));
    states := ExtendByReader(states, Slot(true, None, Idle));
    states := ExtendByReader(states, Slot(true, None, Loaded(0)));
    states := ExtendByCommit(states);
    states := ExtendByPublish(states);
    states := ExtendByScan(states);
    states := ExtendByReader(states, Slot(true, Some(0), Stored(0)));
    states := ExtendByScan(states);
  }

  /** The writer, which is begun if need be, goes through a reader table with one slot. */
  lemma ExtendByScan(states: seq<State>) returns (longer: seq<State>)
    requires Run(states) && |Last(states).slots| == 1 && Last(states).slots[0].pid
             && Last(states).mti in Last(states).hist
    requires Last(states).writer.Some? ==> Last(states).writer.value.pc.Working? && Last(states).writer.value.id > 0
    ensures Run(longer) && |longer| > 1
    ensures var st, t, s := Last(states), Last(longer).writer, Last(states).slots[0];
            && t.Some? && t.value.pc.Working? && (st.writer.Some? ==> t == st.writer)
            && (st.writer.None? ==> t.value.id == st.mti + 1)
            && var base := t.value.id - 1;
            && Last(longer) == st.(writer := t,
                 pgoldest := if s.txnid.Some? && s.txnid.value < base then s.txnid.value else base)
            && longer[|longer|-2] == Last(longer).(pgoldest := st.pgoldest,
                 writer := Some(t.value.(pc := Scanning(0, Last(longer).pgoldest, false))))
  {
    longer := states;
    var st := Last(states);
    if st.writer.None? {
      st := st.(writer := Some(Writer(st.mti + 1, st.hist[st.mti], {}, 0, {}, {}, MetaOf(st.metas, st.mti).next,
                                      Working)));
      longer := ExtendByWriter(longer, st);
    }
    var t := st.writer.value;
    var base, s := t.id - 1, st.slots[0];
    var acc := if s.txnid.Some? && s.txnid.value < base then s.txnid.value else base;
    longer := ExtendByWriter(longer, st.(writer := Some(t.(pc := Scanning(1, base, false)))));
    longer := ExtendByWriter(longer, st.(writer := Some(t.(pc := Scanning(1, base, true)))));
    longer := ExtendByWriter(longer, st.(writer := Some(t.(pc := Scanning(0, acc, false)))));
    longer := ExtendByWriter(longer, st.(pgoldest := acc, writer := Some(t)));
  }

  lemma ExtendByWriter(states: seq<State>, st: State) returns (longer: seq<State>)
    requires Run(states) && WriterStep(Last(states), st)
    ensures Run(longer) && Last(longer) == st && |longer| == |states| + 1 && longer[|longer|-2] == Last(states)
  {
    longer := states + [st];
  }

  lemma ExtendByPublish(states: seq<State>) returns (longer: seq<State>)
    requires Run(states) && Last(states).writer.Some? && Last(states).writer.value.pc.Written?
    ensures Run(longer) && Last(longer) == Last(states).(mti := Last(states).writer.value.id, writer := None)
  {
    var st := Last(states);
    longer := Extend(states, st.(mti := st.writer.value.id, writer := None));
  }
}
