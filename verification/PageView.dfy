/**
 * What a transaction reads for a page number: its own dirty and spilled pages, those of its ancestors, and the
 * file.  Committing a nested transaction gives its parent its view, aborting it leaves the parent's as it was.
 */
module PageViews {
  import opened Common

  /** What one transaction wrote: pages in memory, and pages written to the file because the list was full. */
  datatype Layer = Layer(dirty: map<nat, nat>, spill: set<nat>)

  /** A transaction and its ancestors, the innermost first. */
  type Stack = seq<Layer>

  /** mdb_page_get */
  ghost function View(ls: Stack, disk: map<nat, nat>, p: nat): Option<nat> {
    if ls == [] then (if p in disk then Some(disk[p]) else None)
    else if p in ls[0].spill then (if p in disk then Some(disk[p]) else None)
    else if p in ls[0].dirty then Some(ls[0].dirty[p])
    else View(ls[1..], disk, p)
  }

  /** Dirty pages the innermost transaction sees: those of ancestors unless they are hidden by a spilled page. */
  ghost function Visible(ls: Stack): set<nat> {
    if ls == [] then {} else ls[0].dirty.Keys + (Visible(ls[1..]) - ls[0].spill)
  }

  ghost function Spilled(ls: Stack): set<nat> {
    if ls == [] then {} else ls[0].spill + Spilled(ls[1..])
  }

  /** Every page in a dirty or spill list. */
  ghost function Known(ls: Stack): set<nat> {
    if ls == [] then {} else ls[0].dirty.Keys + ls[0].spill + Known(ls[1..])
  }

  /** The nearest transaction that has p has it on its spill list. */
  ghost predicate SpillFirst(ls: Stack, p: nat) {
    ls != [] && (p in ls[0].spill || (p !in ls[0].dirty && SpillFirst(ls[1..], p)))
  }

  lemma {:induction false} VisibleKnown(ls: Stack)
    ensures Visible(ls) <= Known(ls) && Spilled(ls) <= Known(ls)
  {
    if ls != [] { VisibleKnown(ls[1..]); }
  }

  /** A page that is dirty somewhere and spilled nowhere is read from memory. */
  lemma {:induction false} FromMemory(ls: Stack, disk: map<nat, nat>, disk': map<nat, nat>, p: nat)
    requires p in Known(ls) && p !in Spilled(ls)
    ensures View(ls, disk, p) == View(ls, disk', p)
  {
    if p !in ls[0].dirty { FromMemory(ls[1..], disk, disk', p); }
  }

  lemma {:induction false} SameDisk(ls: Stack, disk: map<nat, nat>, disk': map<nat, nat>, p: nat)
    requires (p in disk <==> p in disk') && (p in disk ==> disk[p] == disk'[p])
    ensures View(ls, disk, p) == View(ls, disk', p)
  {
    if ls != [] { SameDisk(ls[1..], disk, disk', p); }
  }

  lemma {:induction false} SpillFirstHidden(ls: Stack, p: nat)
    requires SpillFirst(ls, p) && Apart(ls)
    ensures p in Spilled(ls) && p !in Visible(ls)
  {
    if p !in ls[0].spill { SpillFirstHidden(ls[1..], p); }
  }

  /** No page is on two spill lists, or on both lists of one transaction. */
  ghost predicate Apart(ls: Stack) {
    ls != [] ==> ls[0].dirty.Keys !! ls[0].spill && ls[0].spill !! Spilled(ls[1..]) && Apart(ls[1..])
  }

  // ---- Commit ----

  /** The parent's lists after a nested transaction committed. */
  ghost function Merge(c: Layer, p: Layer): Layer {
    Layer((p.dirty - c.spill) + c.dirty, (p.spill - c.dirty.Keys) + c.spill)
  }

  ghost function Committed(ls: Stack): Stack
    requires |ls| >= 2
  {
    [Merge(ls[0], ls[1])] + ls[2..]
  }

  /** After the commit the parent reads what the child read, for every page. */
  lemma CommitView(ls: Stack, disk: map<nat, nat>, p: nat)
    requires |ls| >= 2 && Apart(ls)
    ensures View(Committed(ls), disk, p) == View(ls, disk, p)
  {
    var m := Merge(ls[0], ls[1]);
    assert Committed(ls)[0] == m && Committed(ls)[1..] == ls[2..] && ls[1..][1..] == ls[2..];
  }

  lemma CommitVisible(ls: Stack)
    requires |ls| >= 2 && Apart(ls)
    ensures Visible(Committed(ls)) == Visible(ls)
  {
    var c, p := ls[0], ls[1];
    assert Committed(ls)[0] == Merge(c, p) && Committed(ls)[1..] == ls[2..] && ls[1..][1..] == ls[2..]
           && ls[1..][0] == p;
    assert (p.dirty - c.spill + c.dirty).Keys == (p.dirty.Keys - c.spill) + c.dirty.Keys;
    VisibleMerge(c.dirty.Keys, c.spill, p.dirty.Keys, p.spill, Visible(ls[2..]));
  }

  lemma VisibleMerge(cd: set<nat>, cs: set<nat>, pd: set<nat>, ps: set<nat>, v: set<nat>)
    ensures ((pd - cs) + cd) + (v - ((ps - cd) + cs)) == cd + ((pd + (v - ps)) - cs)
  {
  }

  lemma CommitApart(ls: Stack)
    requires |ls| >= 2 && Apart(ls)
    ensures Apart(Committed(ls)) && Spilled(Committed(ls)) <= Spilled(ls) && Known(Committed(ls)) == Known(ls)
  {
    var c, p := ls[0], ls[1];
    assert Committed(ls)[0] == Merge(c, p) && Committed(ls)[1..] == ls[2..] && ls[1..][1..] == ls[2..]
           && ls[1..][0] == p;
    assert Apart(ls[1..]);
    assert (p.dirty - c.spill + c.dirty).Keys == (p.dirty.Keys - c.spill) + c.dirty.Keys;
  }

  /**
   * For a parent without ancestors the length of the merged dirty list is what the child's mt_dirty_room says.
   */
  lemma MergedLength(c: Layer, p: Layer, room: nat)
    requires Apart([c, p]) && room == UM_MAX - |Visible([c, p])|
    ensures |Merge(c, p).dirty| == UM_MAX - room
  {
    assert [c, p][1..] == [p] && [p][1..] == [];
    CommitVisible([c, p]);
    assert Committed([c, p]) == [Merge(c, p)];
    assert Visible([Merge(c, p)]) == Merge(c, p).dirty.Keys + (Visible([]) - Merge(c, p).spill);
    assert |Merge(c, p).dirty.Keys| == |Merge(c, p).dirty|;
  }

  // ---- Runs of nested write transactions ----

  /**
   * rooms are the mt_dirty_room of the transactions, added the pages each allocated (with those of children that
   * committed), lost those allocated by transactions that were aborted.
   */
  datatype State = State(stack: Stack, rooms: seq<nat>, added: seq<set<nat>>, lost: set<nat>, disk: map<nat, nat>)

  datatype Step =
    | Write(p: nat, v: nat)     // a page in the dirty list is changed
    | Alloc(p: nat, v: nat)     // mdb_page_alloc
    | Inherit(p: nat)           // mdb_page_touch of a page that is dirty in an ancestor
    | Unspill(p: nat)           // mdb_page_unspill
    | Spill(ps: set<nat>)       // mdb_page_spill
    | Free(p: nat)              // mdb_ovpage_free of a page of this transaction
    | Begin
    | Commit
    | Abort

  /** A step of the innermost transaction that changes its lists to l and its room to room. */
  ghost predicate TopStep(s: State, s': State, l: Layer, room: int) {
    s.stack != [] && s.rooms != [] && s.added != [] && room >= 0
    && s'.stack == [l] + s.stack[1..] && s'.rooms == [room] + s.rooms[1..] && s'.lost == s.lost
  }

  ghost predicate WriteStep(s: State, s': State, p: nat, v: nat) {
    && s.stack != [] && s.rooms != [] && p in s.stack[0].dirty
    && TopStep(s, s', s.stack[0].(dirty := s.stack[0].dirty[p := v]), s.rooms[0]) && s'.added == s.added
         && s'.disk == s.disk
  }

  ghost predicate AllocStep(s: State, s': State, p: nat, v: nat) {
    && s.stack != [] && s.rooms != [] && s.added != [] && p !in Known(s.stack) && s.rooms[0] > 0
    && TopStep(s, s', s.stack[0].(dirty := s.stack[0].dirty[p := v]), s.rooms[0] - 1)
    && s'.added == [s.added[0] + {p}] + s.added[1..] && s'.disk == s.disk
  }

  ghost predicate InheritStep(s: State, s': State, p: nat) {
    && s.stack != [] && s.rooms != []
    && var l, rest := s.stack[0], s.stack[1..];
    && p !in l.dirty && p !in l.spill && p in Visible(rest) && View(rest, s.disk, p).Some?
    && TopStep(s, s', l.(dirty := l.dirty[p := View(rest, s.disk, p).value]), s.rooms[0]) && s'.added == s.added
         && s'.disk == s.disk
  }

  ghost predicate UnspillStep(s: State, s': State, p: nat) {
    && s.stack != [] && s.rooms != [] && SpillFirst(s.stack, p) && p in s.disk && s.rooms[0] > 0
    && var l := s.stack[0];
    && TopStep(s, s', Layer(l.dirty[p := s.disk[p]], l.spill - {p}), s.rooms[0] - 1) && s'.added == s.added
         && s'.disk == s.disk
  }

  /** Pages on an ancestor's spill list stay in memory: they cannot be spilled twice. */
  ghost predicate SpillStep(s: State, s': State, ps: set<nat>) {
    && s.stack != [] && s.rooms != []
    && var l, rest := s.stack[0], s.stack[1..];
    && ps <= l.dirty.Keys && ps !! Spilled(rest)
    && TopStep(s, s', Layer(l.dirty - ps, l.spill + ps), s.rooms[0] + |ps|) && s'.added == s.added
    && s'.disk == Flushed(s.disk, l.dirty, ps)
  }

  /** The file after some dirty pages were written to it. */
  ghost function Flushed(disk: map<nat, nat>, dirty: map<nat, nat>, ps: set<nat>): map<nat, nat>
    requires ps <= dirty.Keys
  {
    map p | p in disk.Keys + ps :: if p in ps then dirty[p] else disk[p]
  }

  /** Only a transaction without parents takes a page back, off its dirty list or off its spill list. */
  ghost predicate FreeStep(s: State, s': State, p: nat) {
    && |s.stack| == 1 && s.rooms != [] && s'.added == s.added && s'.disk == s.disk
    && var l := s.stack[0];
    if p in l.dirty then TopStep(s, s', l.(dirty := l.dirty - {p}), s.rooms[0] + 1)
    else p in l.spill && TopStep(s, s', l.(spill := l.spill - {p}), s.rooms[0])
  }

  ghost predicate BeginStep(s: State, s': State) {
    && s.rooms != [] && s'.stack == [Layer(map[], {})] + s.stack && s'.rooms == [s.rooms[0]] + s.rooms
         && s'.added == [{}] + s.added
    && s'.lost == s.lost && s'.disk == s.disk
  }

  ghost predicate CommitStep(s: State, s': State) {
    && |s.stack| >= 2 && |s.rooms| >= 2 && |s.added| >= 2 && s'.stack == Committed(s.stack)
         && s'.rooms == [s.rooms[0]] + s.rooms[2..]
    && s'.added == [s.added[0] + s.added[1]] + s.added[2..] && s'.lost == s.lost && s'.disk == s.disk
  }

  ghost predicate AbortStep(s: State, s': State) {
    && |s.stack| >= 2 && |s.rooms| >= 2 && |s.added| >= 2 && s'.stack == s.stack[1..] && s'.rooms == s.rooms[1..]
         && s'.added == s.added[1..]
    && s'.lost == s.lost + s.added[0] && s'.disk == s.disk
  }

  ghost predicate Next(s: State, step: Step, s': State) {
    match step
    case Write(p, v) => WriteStep(s, s', p, v)
    case Alloc(p, v) => AllocStep(s, s', p, v)
    case Inherit(p) => InheritStep(s, s', p)
    case Unspill(p) => UnspillStep(s, s', p)
    case Spill(ps) => SpillStep(s, s', ps)
    case Free(p) => FreeStep(s, s', p)
    case Begin => BeginStep(s, s')
    case Commit => CommitStep(s, s')
    case Abort => AbortStep(s, s')
  }

  /** mt_dirty_room is the size of the dirty list less the dirty pages the transaction sees. */
  ghost predicate RoomsExact(ls: Stack, rooms: seq<nat>) {
    |ls| == |rooms| && (ls != [] ==> rooms[0] + |Visible(ls)| == UM_MAX && RoomsExact(ls[1..], rooms[1..]))
  }

  /** A transaction's pages are its ancestors' or new. */
  ghost predicate Owned(ls: Stack, added: seq<set<nat>>) {
    |ls| == |added| && (ls != [] ==>
        ls[0].dirty.Keys + ls[0].spill <= Known(ls[1..]) + added[0] && Owned(ls[1..], added[1..]))
  }

  ghost predicate Inv(s: State) {
    s.stack != [] && |s.rooms| == |s.added| == |s.stack| && Apart(s.stack) && RoomsExact(s.stack, s.rooms)
      && Owned(s.stack, s.added)
  }

  lemma InitInv(disk: map<nat, nat>)
    ensures Inv(State([Layer(map[], {})], [UM_MAX], [{}], {}, disk))
  {
    var ls: Stack := [Layer(map[], {})];
    var fs: seq<set<nat>> := [{}];
    assert ls[1..] == [] && [UM_MAX][1..] == [] && fs[1..] == [];
    assert Visible(ls) == {};
  }

  /** A transaction on top of others. */
  lemma InvCons(s: State, l: Layer, rest: Stack, room: nat, rooms: seq<nat>, a: set<nat>, added: seq<set<nat>>)
    requires s.stack == [l] + rest && s.rooms == [room] + rooms && s.added == [a] + added
    requires Apart(rest) && RoomsExact(rest, rooms) && Owned(rest, added)
    requires l.dirty.Keys !! l.spill && l.spill !! Spilled(rest) && l.dirty.Keys + l.spill <= Known(rest) + a
    requires room + |l.dirty.Keys + (Visible(rest) - l.spill)| == UM_MAX
    ensures Inv(s)
  {
    assert s.stack[0] == l && s.stack[1..] == rest && s.rooms[1..] == rooms && s.added[1..] == added;
  }

  /** The lists of the innermost transaction changed and the count of its visible pages with them. */
  lemma TopInv(s: State, s': State, l: Layer, room: int)
    requires Inv(s) && TopStep(s, s', l, room) && s'.added != [] && s'.added[1..] == s.added[1..]
    requires l.dirty.Keys !! l.spill && l.spill !! Spilled(s.stack[1..])
    requires l.dirty.Keys + l.spill <= Known(s.stack[1..]) + s'.added[0]
    requires room + |l.dirty.Keys + (Visible(s.stack[1..]) - l.spill)| == UM_MAX
    ensures Inv(s')
  {
    hide Inv, Visible, Known, Spilled, Apart, RoomsExact, Owned;
    InvRest(s);
    assert s'.added == [s'.added[0]] + s.added[1..];
    InvCons(s', l, s.stack[1..], room, s.rooms[1..], s'.added[0], s.added[1..]);
  }

  lemma InvRest(s: State)
    requires Inv(s)
    ensures s.stack != [] && |s.rooms| == |s.added| == |s.stack|
    ensures Apart(s.stack[1..]) && RoomsExact(s.stack[1..], s.rooms[1..]) && Owned(s.stack[1..], s.added[1..])
  {
  }

  /** What the invariant says about the innermost transaction. */
  lemma TopFacts(s: State)
    requires Inv(s)
    ensures var l, rest := s.stack[0], s.stack[1..];
            && l.dirty.Keys !! l.spill && l.spill !! Spilled(rest) && l.dirty.Keys + l.spill <= Known(rest) + s.added[0]
            && s.rooms[0] + |l.dirty.Keys + (Visible(rest) - l.spill)| == UM_MAX
            && Visible(s.stack) == l.dirty.Keys + (Visible(rest) - l.spill)
                 && Known(s.stack) == l.dirty.Keys + l.spill + Known(rest)
            && Visible(rest) <= Known(rest)
  {
    VisibleKnown(s.stack[1..]);
  }

  lemma WriteInv(s: State, s': State, p: nat, v: nat)
    requires Inv(s) && WriteStep(s, s', p, v)
    ensures Inv(s')
  {
    hide Inv, Visible, Known, Spilled;
    TopFacts(s);
    var l' := s.stack[0].(dirty := s.stack[0].dirty[p := v]);
    assert l'.dirty.Keys == s.stack[0].dirty.Keys;
    TopInv(s, s', l', s.rooms[0]);
  }

  lemma AllocInv(s: State, s': State, p: nat, v: nat)
    requires Inv(s) && AllocStep(s, s', p, v)
    ensures Inv(s')
  {
    hide Inv, Visible, Known, Spilled;
    TopFacts(s);
    var l, vis := s.stack[0], Visible(s.stack[1..]);
    var l' := l.(dirty := l.dirty[p := v]);
    assert l'.dirty.Keys == l.dirty.Keys + {p};
    OneMore(l.dirty.Keys, vis, l.spill, l.spill, p);
    TopInv(s, s', l', s.rooms[0] - 1);
  }

  lemma OneMore(d: set<nat>, v: set<nat>, spill: set<nat>, spill': set<nat>, p: nat)
    requires p !in d && (p !in v || p in spill) && spill' == spill - {p}
    ensures |(d + {p}) + (v - spill')| == |d + (v - spill)| + 1
  {
    assert (d + {p}) + (v - spill') == (d + (v - spill)) + {p};
  }

  lemma InheritInv(s: State, s': State, p: nat)
    requires Inv(s) && InheritStep(s, s', p)
    ensures Inv(s')
  {
    hide Inv, Visible, Known, Spilled, View;
    TopFacts(s);
    var l, vis := s.stack[0], Visible(s.stack[1..]);
    var l' := l.(dirty := l.dirty[p := View(s.stack[1..], s.disk, p).value]);
    assert l'.dirty.Keys == l.dirty.Keys + {p};
    assert (l.dirty.Keys + {p}) + (vis - l.spill) == l.dirty.Keys + (vis - l.spill);
    TopInv(s, s', l', s.rooms[0]);
  }

  lemma UnspillInv(s: State, s': State, p: nat)
    requires Inv(s) && UnspillStep(s, s', p)
    ensures Inv(s')
  {
    TopFacts(s);
    SpillFirstHidden(s.stack, p);
    SpillFirstKnown(s.stack, p);
    hide Inv, Visible, Known, Spilled, SpillFirst, Apart;
    var l, rest := s.stack[0], s.stack[1..];
    var l' := Layer(l.dirty[p := s.disk[p]], l.spill - {p});
    BackInMemory(l, l', s.disk[p], Visible(rest), Spilled(rest), Known(rest) + s.added[0], p);
    TopInv(s, s', l', s.rooms[0] - 1);
  }

  lemma BackInMemory(l: Layer, l': Layer, v: nat, vis: set<nat>, above: set<nat>, known: set<nat>, p: nat)
    requires l.dirty.Keys !! l.spill && l.spill !! above && l.dirty.Keys + l.spill <= known
    requires p !in l.dirty && (p !in vis || p in l.spill) && (p in l.spill || p in known)
    requires l' == Layer(l.dirty[p := v], l.spill - {p})
    ensures l'.dirty.Keys !! l'.spill && l'.spill !! above && l'.dirty.Keys + l'.spill <= known
    ensures |l'.dirty.Keys + (vis - l'.spill)| == |l.dirty.Keys + (vis - l.spill)| + 1
  {
    assert l'.dirty.Keys == l.dirty.Keys + {p};
    BackInSets(l.dirty.Keys, l'.dirty.Keys, l.spill, l'.spill, vis, above, known, p);
  }

  lemma BackInSets(d: set<nat>, d': set<nat>, s: set<nat>, s': set<nat>, vis: set<nat>, above: set<nat>,
                   known: set<nat>, p: nat)
    requires d !! s && s !! above && d + s <= known
    requires p !in d && (p !in vis || p in s) && (p in s || p in known) && d' == d + {p} && s' == s - {p}
    ensures d' !! s' && s' !! above && d' + s' <= known && |d' + (vis - s')| == |d + (vis - s)| + 1
  {
    OneMore(d, vis, s, s', p);
  }

  lemma SpillFirstKnown(ls: Stack, p: nat)
    requires SpillFirst(ls, p) && Apart(ls)
    ensures p !in ls[0].dirty && (p in ls[0].spill || p in Known(ls[1..]))
  {
    if p !in ls[0].spill {
      SpillFirstHidden(ls[1..], p);
      VisibleKnown(ls[1..]);
    }
  }

  lemma SpillInv(s: State, s': State, ps: set<nat>)
    requires Inv(s) && SpillStep(s, s', ps)
    ensures Inv(s')
  {
    hide Inv, Visible, Known, Spilled, Flushed;
    TopFacts(s);
    var l, rest := s.stack[0], s.stack[1..];
    var l' := Layer(l.dirty - ps, l.spill + ps);
    SpilledLayer(l, l', ps, Visible(rest), Spilled(rest), Known(rest) + s.added[0]);
    TopInv(s, s', l', s.rooms[0] + |ps|);
  }

  lemma SpilledLayer(l: Layer, l': Layer, ps: set<nat>, vis: set<nat>, above: set<nat>, known: set<nat>)
    requires l.dirty.Keys !! l.spill && l.spill !! above && l.dirty.Keys + l.spill <= known
    requires ps <= l.dirty.Keys && ps !! above && l' == Layer(l.dirty - ps, l.spill + ps)
    ensures l'.dirty.Keys !! l'.spill && l'.spill !! above && l'.dirty.Keys + l'.spill <= known
    ensures |l'.dirty.Keys + (vis - l'.spill)| + |ps| == |l.dirty.Keys + (vis - l.spill)|
  {
    assert l'.dirty.Keys == l.dirty.Keys - ps;
    SpilledLess(l.dirty.Keys, vis, l.spill, ps);
  }

  lemma SpilledLess(d: set<nat>, v: set<nat>, spill: set<nat>, ps: set<nat>)
    requires ps <= d && d !! spill
    ensures |(d - ps) + (v - (spill + ps))| + |ps| == |d + (v - spill)|
  {
    assert (d - ps) + (v - (spill + ps)) == (d + (v - spill)) - ps;
    assert ps <= d + (v - spill);
  }

  lemma FreeInv(s: State, s': State, p: nat)
    requires Inv(s) && FreeStep(s, s', p)
    ensures Inv(s')
  {
    hide Inv;
    if p in s.stack[0].dirty {
      FreeDirtyInv(s, s', p);
    } else {
      FreeSpilledInv(s, s', p);
    }
  }

  lemma FreeDirtyInv(s: State, s': State, p: nat)
    requires Inv(s) && |s.stack| == 1 && p in s.stack[0].dirty && s'.added == s.added && s.rooms != []
    requires TopStep(s, s', s.stack[0].(dirty := s.stack[0].dirty - {p}), s.rooms[0] + 1)
    ensures Inv(s')
  {
    hide Inv, Visible, Known, Spilled;
    TopFacts(s);
    NoParents(s);
    var l, rest := s.stack[0], s.stack[1..];
    var l' := l.(dirty := l.dirty - {p});
    FreedLayer(l, l', Visible(rest), Spilled(rest), Known(rest) + s.added[0], p);
    assert s.rooms[0] + 1 + |l'.dirty.Keys + (Visible(rest) - l'.spill)| == UM_MAX;
    TopInv(s, s', l', s.rooms[0] + 1);
  }

  lemma FreeSpilledInv(s: State, s': State, p: nat)
    requires Inv(s) && |s.stack| == 1 && p in s.stack[0].spill && s'.added == s.added && s.rooms != []
    requires TopStep(s, s', s.stack[0].(spill := s.stack[0].spill - {p}), s.rooms[0])
    ensures Inv(s')
  {
    hide Inv, Visible, Known, Spilled;
    TopFacts(s);
    NoParents(s);
    var l, rest := s.stack[0], s.stack[1..];
    var l' := l.(spill := l.spill - {p});
    UnlistedLayer(l, l', Visible(rest), Spilled(rest), Known(rest) + s.added[0], p);
    TopInv(s, s', l', s.rooms[0]);
  }

  lemma NoParents(s: State)
    requires |s.stack| == 1
    ensures Visible(s.stack[1..]) == {}
  {
  }

  lemma FreedLayer(l: Layer, l': Layer, vis: set<nat>, above: set<nat>, known: set<nat>, p: nat)
    requires vis == {} && l.dirty.Keys !! l.spill && l.spill !! above && l.dirty.Keys + l.spill <= known
    requires p in l.dirty && l' == l.(dirty := l.dirty - {p})
    ensures l'.dirty.Keys !! l'.spill && l'.spill !! above && l'.dirty.Keys + l'.spill <= known
    ensures |l'.dirty.Keys + (vis - l'.spill)| + 1 == |l.dirty.Keys + (vis - l.spill)|
  {
    assert l'.dirty.Keys == l.dirty.Keys - {p};
    assert vis - l.spill == vis;
    Smaller(l.dirty.Keys, vis, p);
  }

  lemma Smaller(d: set<nat>, none: set<nat>, p: nat)
    requires p in d && none == {}
    ensures |(d - {p}) + none| + 1 == |d + none|
  {
    assert (d - {p}) + none == d - {p} && d + none == d;
  }

  lemma UnlistedLayer(l: Layer, l': Layer, vis: set<nat>, above: set<nat>, known: set<nat>, p: nat)
    requires vis == {} && l.dirty.Keys !! l.spill && l.spill !! above && l.dirty.Keys + l.spill <= known
    requires l' == l.(spill := l.spill - {p})
    ensures l'.dirty.Keys !! l'.spill && l'.spill !! above && l'.dirty.Keys + l'.spill <= known
    ensures |l'.dirty.Keys + (vis - l'.spill)| == |l.dirty.Keys + (vis - l.spill)|
  {
    assert vis - l'.spill == vis && vis - l.spill == vis;
  }

  lemma BeginInv(s: State, s': State)
    requires Inv(s) && BeginStep(s, s')
    ensures Inv(s')
  {
    TopFacts(s);
    hide Visible, Known, Spilled, Apart, RoomsExact, Owned;
    var l := Layer(map[], {});
    NothingAdded(Visible(s.stack));
    InvCons(s', l, s.stack, s.rooms[0], s.rooms, {}, s.added);
  }

  lemma NothingAdded(v: set<nat>)
    ensures var m: map<nat, nat> := map[]; var none: set<nat> := {}; m.Keys + (v - none) == v && m.Keys == none
  {
  }

  lemma CommitInv(s: State, s': State)
    requires Inv(s) && CommitStep(s, s')
    ensures Inv(s')
  {
    CommitApart(s.stack);
    CommitVisible(s.stack);
    assert s'.stack[1..] == s.stack[2..] == s.stack[1..][1..];
    assert s'.rooms[1..] == s.rooms[2..] == s.rooms[1..][1..];
    assert s'.added[1..] == s.added[2..] == s.added[1..][1..];
    assert RoomsExact(s.stack[1..], s.rooms[1..]) && Owned(s.stack[1..], s.added[1..]);
    CommitOwned(s.stack, s.added);
  }

  lemma CommitOwned(ls: Stack, added: seq<set<nat>>)
    requires |ls| >= 2 && Owned(ls, added)
    ensures var m := Merge(ls[0], ls[1]); m.dirty.Keys + m.spill <= Known(ls[2..]) + (added[0] + added[1])
  {
    var c, p := ls[0], ls[1];
    assert ls[1..][1..] == ls[2..] && ls[1..][0] == p;
    assert Owned(ls[1..], added[1..]);
    assert (p.dirty - c.spill + c.dirty).Keys == (p.dirty.Keys - c.spill) + c.dirty.Keys;
  }

  lemma NextInv(s: State, step: Step, s': State)
    requires Inv(s) && Next(s, step, s')
    ensures Inv(s')
  {
    match step
    case Write(p, v) => WriteInv(s, s', p, v);
    case Alloc(p, v) => AllocInv(s, s', p, v);
    case Inherit(p) => InheritInv(s, s', p);
    case Unspill(p) => UnspillInv(s, s', p);
    case Spill(ps) => SpillInv(s, s', ps);
    case Free(p) => FreeInv(s, s', p);
    case Begin => BeginInv(s, s');
    case Commit => CommitInv(s, s');
    case Abort =>
  }

  // ---- Whole runs ----

  ghost predicate IsRun(states: seq<State>, steps: seq<Step>) {
    |states| == |steps| + 1 && forall i :: 0 <= i < |steps| ==> Next(states[i], steps[i], states[i+1])
  }

  /** In every state of a run the rooms are exact and no page is spilled twice. */
  lemma {:induction false} RunInv(states: seq<State>, steps: seq<Step>)
    requires IsRun(states, steps) && Inv(states[0])
    ensures Inv(states[|steps|])
    decreases |steps|
  {
    if steps != [] {
      var n := |steps| - 1;
      RunInv(states[..n+1], steps[..n]);
      NextInv(states[n], steps[n], states[n+1]);
    }
  }

  // ---- What the innermost transaction reads after its own steps ----

  /** View unfolded once, for a stack with l on top of rest. */
  lemma ViewTop(l: Layer, rest: Stack, disk: map<nat, nat>, q: nat)
    ensures View([l] + rest, disk, q) ==
            if q in l.spill then (if q in disk then Some(disk[q]) else None)
            else if q in l.dirty then Some(l.dirty[q])
            else View(rest, disk, q)
  {
    assert ([l] + rest)[1..] == rest;
  }

  /** A page that is spilled nearest to the innermost transaction is read from the file. */
  lemma {:induction false} SpillFirstView(ls: Stack, disk: map<nat, nat>, p: nat)
    requires SpillFirst(ls, p) && p in disk
    ensures View(ls, disk, p) == Some(disk[p])
  {
    if p !in ls[0].spill { SpillFirstView(ls[1..], disk, p); }
  }

  lemma TopViews(s: State, s': State, l: Layer, room: int, q: nat)
    requires TopStep(s, s', l, room)
    ensures s.stack == [s.stack[0]] + s.stack[1..] && s'.stack == [l] + s.stack[1..]
  {
  }

  lemma SpillView(s: State, s': State, ps: set<nat>, q: nat)
    requires Inv(s) && SpillStep(s, s', ps)
    ensures View(s'.stack, s'.disk, q) == View(s.stack, s.disk, q)
  {
    hide View, Inv, Visible, Known, Spilled, Flushed;
    TopFacts(s);
    var l, rest := s.stack[0], s.stack[1..];
    var l' := Layer(l.dirty - ps, l.spill + ps);
    TopViews(s, s', l', s.rooms[0] + |ps|, q);
    ViewTop(l, rest, s.disk, q);
    ViewTop(l', rest, s'.disk, q);
    FlushedAt(s.disk, l.dirty, ps, q);
    if q !in ps { SameDisk(rest, s.disk, s'.disk, q); }
  }

  lemma FlushedAt(disk: map<nat, nat>, dirty: map<nat, nat>, ps: set<nat>, q: nat)
    requires ps <= dirty.Keys
    ensures var disk' := Flushed(disk, dirty, ps);
            if q in ps then q in disk' && disk'[q] == dirty[q]
            else (q in disk' <==> q in disk) && (q in disk ==> disk'[q] == disk[q])
  {
  }

  lemma UnspillView(s: State, s': State, p: nat, q: nat)
    requires Inv(s) && UnspillStep(s, s', p)
    ensures View(s'.stack, s'.disk, q) == View(s.stack, s.disk, q)
  {
    var l, rest := s.stack[0], s.stack[1..];
    var l' := Layer(l.dirty[p := s.disk[p]], l.spill - {p});
    SpillFirstView(s.stack, s.disk, p);
    TopViews(s, s', l', s.rooms[0] - 1, q);
    hide View, Inv, SpillFirst;
    ViewTop(l, rest, s.disk, q);
    ViewTop(l', rest, s'.disk, q);
  }

  lemma InheritView(s: State, s': State, p: nat, q: nat)
    requires Inv(s) && InheritStep(s, s', p)
    ensures View(s'.stack, s'.disk, q) == View(s.stack, s.disk, q)
  {
    hide View, Inv, Visible;
    var l, rest := s.stack[0], s.stack[1..];
    var l' := l.(dirty := l.dirty[p := View(rest, s.disk, p).value]);
    TopViews(s, s', l', s.rooms[0], q);
    ViewTop(l, rest, s.disk, q);
    ViewTop(l', rest, s'.disk, q);
  }

  /** Written or allocated, page p reads as v; the others read as before. */
  lemma WrittenView(s: State, s': State, p: nat, v: nat, q: nat)
    requires Inv(s) && (WriteStep(s, s', p, v) || AllocStep(s, s', p, v))
    ensures View(s'.stack, s'.disk, q) == if q == p then Some(v) else View(s.stack, s.disk, q)
  {
    TopFacts(s);
    hide View, Inv, Visible, Spilled;
    var l, rest := s.stack[0], s.stack[1..];
    var l' := l.(dirty := l.dirty[p := v]);
    TopViews(s, s', l', s'.rooms[0], q);
    ViewTop(l, rest, s.disk, q);
    ViewTop(l', rest, s'.disk, q);
  }

  lemma FreedView(s: State, s': State, p: nat, q: nat)
    requires Inv(s) && FreeStep(s, s', p) && q != p
    ensures View(s'.stack, s'.disk, q) == View(s.stack, s.disk, q)
  {
    hide View, Inv;
    var l, rest := s.stack[0], s.stack[1..];
    var l' := if p in l.dirty then l.(dirty := l.dirty - {p}) else l.(spill := l.spill - {p});
    TopViews(s, s', l', s'.rooms[0], q);
    ViewTop(l, rest, s.disk, q);
    ViewTop(l', rest, s'.disk, q);
  }

  lemma BegunView(s: State, s': State, q: nat)
    requires BeginStep(s, s')
    ensures View(s'.stack, s'.disk, q) == View(s.stack, s.disk, q)
  {
    hide View;
    ViewTop(Layer(map[], {}), s.stack, s.disk, q);
  }

  /**
   * A transaction reads what it wrote.  Spilling pages, bringing them back, taking over those of ancestors, beginning
   * a nested transaction and committing one change nothing that is read; a page written or allocated reads as what
   * was written, and the others as before; after an abort the parent reads through its own lists.
   */
  lemma StepView(s: State, step: Step, s': State, q: nat)
    requires Inv(s) && Next(s, step, s') && !(step.Free? && q == step.p)
    ensures View(s'.stack, s'.disk, q) ==
            match step
            case Write(p, v) => if q == p then Some(v) else View(s.stack, s.disk, q)
            case Alloc(p, v) => if q == p then Some(v) else View(s.stack, s.disk, q)
            case Abort => View(s.stack[1..], s.disk, q)
            case _ => View(s.stack, s.disk, q)
  {
    hide View;
    match step
    case Write(p, v) => WrittenView(s, s', p, v, q);
    case Alloc(p, v) => WrittenView(s, s', p, v, q);
    case Inherit(p) => InheritView(s, s', p, q);
    case Unspill(p) => UnspillView(s, s', p, q);
    case Spill(ps) => SpillView(s, s', ps, q);
    case Free(p) => FreedView(s, s', p, q);
    case Begin => BegunView(s, s', q);
    case Commit => CommitView(s.stack, s.disk, q);
    case Abort =>
  }

  /** Through a whole run: a page reads as it was last written, or as at the beginning if it was not. */
  ghost function LastWritten(steps: seq<Step>, q: nat, v: Option<nat>): Option<nat> {
    if steps == [] then v
    else
      var step := steps[|steps|-1];
      if (step.Write? || step.Alloc?) && step.p == q then Some(step.v) else LastWritten(steps[..|steps|-1], q, v)
  }

  lemma {:induction false} ReadsLastWritten(states: seq<State>, steps: seq<Step>, q: nat)
    requires IsRun(states, steps) && Inv(states[0])
    requires forall i :: 0 <= i < |steps| ==> !steps[i].Abort? && !(steps[i].Free? && steps[i].p == q)
    ensures View(states[|steps|].stack, states[|steps|].disk, q) ==
            LastWritten(steps, q, View(states[0].stack, states[0].disk, q))
    decreases |steps|
  {
    if steps != [] {
      var n := |steps| - 1;
      ReadsLastWritten(states[..n+1], steps[..n], q);
      RunInv(states[..n+1], steps[..n]);
      assert states[..n+1][n] == states[n] && states[..n+1][0] == states[0];
      hide View, Inv, Next;
      StepView(states[n], steps[n], states[n+1], q);
    }
  }

  // ---- Ancestors ----

  ghost function All(added: seq<set<nat>>): set<nat> {
    if added == [] then {} else added[0] + All(added[1..])
  }

  /** s has the transactions ls under others of its own. */
  ghost predicate Over(s: State, ls: Stack) {
    && |s.stack| == |s.added| && |ls| < |s.stack| && s.stack[|s.stack|-|ls|..] == ls
  }

  /** Pages allocated by transactions above ls, or by some that were aborted. */
  ghost function Others(s: State, ls: Stack): set<nat>
    requires Over(s, ls)
  {
    s.lost + All(s.added[..|s.stack|-|ls|])
  }

  /** Going down the stack, a page stays known until a transaction that allocated it. */
  lemma {:induction false} OwnedDown(ls: Stack, added: seq<set<nat>>, k: nat, p: nat)
    requires Owned(ls, added) && k <= |ls| && p in Known(ls)
    ensures p in Known(ls[k..]) || p in All(added[..k])
  {
    if k == 0 {
      assert ls[0..] == ls;
    } else if p in Known(ls[1..]) {
      OwnedDown(ls[1..], added[1..], k - 1, p);
      assert ls[1..][k-1..] == ls[k..] && added[..k][1..] == added[1..][..k-1];
    } else {
      assert added[..k][0] == added[0];
    }
  }

  lemma {:induction false} SpilledDown(ls: Stack, k: nat)
    requires k <= |ls|
    ensures Spilled(ls[k..]) <= Spilled(ls)
  {
    if k > 0 {
      SpilledDown(ls[1..], k - 1);
      assert ls[1..][k-1..] == ls[k..];
    } else {
      assert ls[0..] == ls;
    }
  }

  /** What a transaction spills does not show in its ancestors, but for pages they do not know. */
  lemma SpillKeepsView(s: State, s': State, ps: set<nat>, ls: Stack, p: nat)
    requires Inv(s) && SpillStep(s, s', ps) && Over(s, ls) && (p in Known(ls) || p !in Others(s, ls))
    ensures View(ls, s'.disk, p) == View(ls, s.disk, p)
  {
    var k := |s.stack| - |ls|;
    if p in ps {
      if p !in Known(ls) { OwnedDown(s.stack, s.added, k, p); }
      SpilledDown(s.stack[1..], k - 1);
      assert s.stack[1..][k-1..] == s.stack[k..] == ls;
      FromMemory(ls, s.disk, s'.disk, p);
    } else {
      SameDisk(ls, s.disk, s'.disk, p);
    }
  }

  lemma AllStep(a: set<nat>, b: set<nat>, added: seq<set<nat>>)
    ensures All([a + b] + added) == a + b + All(added) && All([a] + added) == a + All(added)
    ensures All([a] + ([b] + added)) == a + b + All(added)
  {
    assert ([a + b] + added)[1..] == added && ([a] + added)[1..] == added;
    assert ([a] + ([b] + added))[1..] == [b] + added && ([b] + added)[1..] == added;
  }

  /** A step of a nested transaction, or of one nested in it, leaves the transactions below as they are. */
  lemma StepAbove(s: State, step: Step, s': State, ls: Stack)
    requires Inv(s) && Next(s, step, s') && Over(s, ls) && |s'.stack| > |ls|
    ensures Over(s', ls) && Others(s, ls) <= Others(s', ls)
  {
    match step
    case Begin => BeginAbove(s, s', ls);
    case Commit => CommitAbove(s, s', ls);
    case Abort => AbortAbove(s, s', ls);
    case _ =>
      hide Inv, Over, Others;
      TopAbove(s, step, s', ls);
  }

  lemma BeginAbove(s: State, s': State, ls: Stack)
    requires BeginStep(s, s') && Over(s, ls)
    ensures Over(s', ls) && Others(s, ls) <= Others(s', ls)
  {
    var k := |s.stack| - |ls|;
    assert s'.stack[k+1..] == s.stack[k..] && s'.added[..k+1] == [{}] + s.added[..k];
    AllStep({}, {}, s.added[..k]);
  }

  lemma CommitAbove(s: State, s': State, ls: Stack)
    requires CommitStep(s, s') && Over(s, ls) && |s'.stack| > |ls|
    ensures Over(s', ls) && Others(s, ls) <= Others(s', ls)
  {
    var k := |s.stack| - |ls|;
    var rest := s.added[2..k];
    assert s'.stack[k-1..] == s.stack[k..];
    assert s.added[..k] == [s.added[0]] + ([s.added[1]] + rest) && s'.added[..k-1] == [s.added[0] + s.added[1]] + rest;
    hide All;
    AllStep(s.added[0], s.added[1], rest);
  }

  lemma AbortAbove(s: State, s': State, ls: Stack)
    requires AbortStep(s, s') && Over(s, ls) && |s'.stack| > |ls|
    ensures Over(s', ls) && Others(s, ls) <= Others(s', ls)
  {
    var k := |s.stack| - |ls|;
    var rest := s.added[1..k];
    assert s'.stack[k-1..] == s.stack[k..] && s'.added[..k-1] == rest && s.added[..k] == [s.added[0]] + rest;
    hide All;
    AllStep(s.added[0], {}, rest);
  }

  lemma TopAbove(s: State, step: Step, s': State, ls: Stack)
    requires Inv(s) && Next(s, step, s') && Over(s, ls) && !step.Begin? && !step.Commit? && !step.Abort?
    ensures Over(s', ls) && Others(s, ls) <= Others(s', ls)
  {
    hide Known, Visible, View, Spilled, SpillFirst, Flushed, Apart, RoomsExact, Owned;
    assert s'.added[1..] == s.added[1..] && s.added[0] <= s'.added[0] && |s'.added| == |s.added|;
    TopOver(s, s', ls);
  }

  lemma TopOver(s: State, s': State, ls: Stack)
    requires Over(s, ls) && |s'.stack| == |s.stack| > 0 && s'.stack[1..] == s.stack[1..] && s'.lost == s.lost
    requires |s'.added| == |s.added| && s'.added[1..] == s.added[1..] && s.added[0] <= s'.added[0]
    ensures Over(s', ls) && Others(s, ls) <= Others(s', ls)
  {
    var k := |s.stack| - |ls|;
    var rest := s.added[1..][..k-1];
    assert s'.stack[k..] == s'.stack[1..][k-1..] == s.stack[k..];
    assert s.added[..k] == [s.added[0]] + rest && s'.added[..k] == [s'.added[0]] + rest;
    hide All;
    AllStep(s.added[0], {}, rest);
    AllStep(s'.added[0], {}, rest);
  }

  lemma StepKeepsView(s: State, step: Step, s': State, ls: Stack, p: nat)
    requires Inv(s) && Next(s, step, s') && Over(s, ls) && (p in Known(ls) || p !in Others(s, ls))
    ensures View(ls, s'.disk, p) == View(ls, s.disk, p)
  {
    if step.Spill? { SpillKeepsView(s, s', step.ps, ls, p); }
  }

  /**
   * While transactions nested in it run, whatever they do, an ancestor's view changes at no page that it has on a
   * list, and at no other but those that they allocated.  When the last of them is aborted, the
   * ancestor has its lists, its room and its view back.
   */
  lemma {:induction false} AncestorsKept(states: seq<State>, steps: seq<Step>, ls: Stack, p: nat)
    requires IsRun(states, steps) && Inv(states[0]) && Over(states[0], ls)
    requires forall i :: 0 <= i < |states| ==> |states[i].stack| > |ls|
    ensures Over(states[|steps|], ls) && Others(states[0], ls) <= Others(states[|steps|], ls)
    ensures p in Known(ls) || p !in Others(states[|steps|], ls) ==>
              View(ls, states[|steps|].disk, p) == View(ls, states[0].disk, p)
    decreases |steps|
  {
    if steps != [] {
      var n := |steps| - 1;
      AncestorsKept(states[..n+1], steps[..n], ls, p);
      RunInv(states[..n+1], steps[..n]);
      var s, s' := states[n], states[n+1];
      assert states[..n+1][n] == s;
      StepAbove(s, steps[n], s', ls);
      if p in Known(ls) || p !in Others(s', ls) { StepKeepsView(s, steps[n], s', ls, p); }
    }
  }

  lemma {:induction false} RoomsUnique(ls: Stack, rooms: seq<nat>, rooms': seq<nat>)
    requires RoomsExact(ls, rooms) && RoomsExact(ls, rooms')
    ensures rooms == rooms'
  {
    if ls != [] {
      RoomsUnique(ls[1..], rooms[1..], rooms'[1..]);
      assert rooms == [rooms[0]] + rooms[1..] && rooms' == [rooms'[0]] + rooms'[1..];
    }
  }

  /**
   * From the beginning of a nested transaction to its abort.  The parent's own pages count, also those that an
   * aborted transaction had allocated before them.
   */
  lemma AbortRestores(states: seq<State>, steps: seq<Step>, before: State, after: State, p: nat)
    requires IsRun(states, steps) && Inv(before) && BeginStep(before, states[0])
    requires forall i :: 0 <= i < |states| ==> |states[i].stack| > |before.stack|
    requires |states[|steps|].stack| == |before.stack| + 1 && AbortStep(states[|steps|], after)
    ensures after.stack == before.stack && after.rooms == before.rooms
    ensures p in Known(before.stack) || p !in after.lost ==>
              View(after.stack, after.disk, p) == View(before.stack, before.disk, p)
  {
    hide View, Known, Inv, BeginStep, AbortStep, Over, Others, Next;
    var s, s0, ls := states[|steps|], states[0], before.stack;
    BeginInv(before, s0);
    RunInv(states, steps);
    BegunOver(before, s0);
    AncestorsKept(states, steps, ls, p);
    AbortedOne(s, after, ls);
    RoomsAgain(before, after);
  }

  lemma BegunOver(before: State, s0: State)
    requires Inv(before) && BeginStep(before, s0)
    ensures Over(s0, before.stack) && s0.disk == before.disk
  {
    assert s0.stack[1..] == before.stack;
  }

  lemma RoomsAgain(before: State, after: State)
    requires Inv(before) && Inv(after)
    ensures after.stack == before.stack ==> after.rooms == before.rooms
  {
    if after.stack == before.stack { RoomsUnique(after.stack, after.rooms, before.rooms); }
  }

  lemma AbortedOne(s: State, after: State, ls: Stack)
    requires Inv(s) && AbortStep(s, after) && Over(s, ls) && |s.stack| == |ls| + 1
    ensures after.stack == ls && Others(s, ls) <= after.lost && Inv(after) && after.disk == s.disk
  {
    NextInv(s, Abort, after);
    assert s.added[..1] == [s.added[0]] + [];
    AllStep(s.added[0], {}, []);
  }
}
