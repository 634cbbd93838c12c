/** EntryIterator.java: the hasNext / next state machine on top of a cursor. */
module EntryIterators {
  import opened Common
  import opened Tree
  import opened Paths
  import opened Search
  import opened Cursors

  datatype State = Ready | NotReady | Done

  datatype Answer = Yes | No | Threw

  datatype NextResult = Next(node: Node) | NoSuchElement | Failed

  ghost function Reverse(s: seq<Node>): (r: seq<Node>) {
    if s == [] then [] else [s[|s|-1]] + Reverse(s[..|s|-1])
  }

  /** How many leading entries are below the key. */
  ghost function BoundOf(s: seq<Node>, key: real): nat {
    if s == [] || key <= s[0].key.rank then 0 else 1 + BoundOf(s[1..], key)
  }

  lemma {:induction false} BoundOfSorted(s: seq<Node>, key: real)
    requires Sorted(s)
    ensures IsLowerBound(s, key, BoundOf(s, key))
  {
    if s != [] && s[0].key.rank < key {
      BoundOfSorted(s[1..], key);
      var i := BoundOf(s[1..], key);
      assert forall j :: 0 < j < |s| ==> s[j] == s[1..][j-1];
    }
  }

  /** Everything an iterator over the entries e will return. */
  ghost function Everything(e: seq<Node>, key: Option<Key>, forward: bool): seq<Node> {
    match key
    case None => if forward then e else Reverse(e)
    case Some(k) =>
      var b := BoundOf(e, k.rank);
      if b >= |e| then [] else if forward then e[b..] else Reverse(e[..b+1])
  }

  /** What follows the entry at position p. */
  ghost function Rest(e: seq<Node>, p: nat, forward: bool): seq<Node>
    requires p < |e|
  {
    if forward then e[p+1..] else Reverse(e[..p])
  }

  lemma RestStep(e: seq<Node>, p: nat, forward: bool)
    requires p < |e|
    ensures forward && p + 1 < |e| ==> Rest(e, p, forward) == [e[p+1]] + Rest(e, p + 1, forward)
    ensures forward && p + 1 == |e| ==> Rest(e, p, forward) == []
    ensures !forward && p > 0 ==> Rest(e, p, forward) == [e[p-1]] + Rest(e, p - 1, forward)
    ensures !forward && p == 0 ==> Rest(e, p, forward) == []
  {
    if !forward && p > 0 { assert e[..p][..p-1] == e[..p-1]; }
  }

  lemma EverythingStarts(e: seq<Node>, key: Option<Key>, forward: bool, p: nat)
    requires p < |e|
    requires match key
             case None => p == if forward then 0 else |e| - 1
             case Some(k) => p == BoundOf(e, k.rank)
    ensures Everything(e, key, forward) == [e[p]] + Rest(e, p, forward)
  {
    if forward {
      assert e[p..] == [e[p]] + e[p+1..];
      assert e[0..] == e;
    } else {
      assert e[..p+1][..p] == e[..p];
      assert e[..|e|] == e;
    }
  }

  class EntryIterator {
    const cursor: Cursor
    const key: Option<Key>
    const forward: bool
    var state: State
    var entry: Option<Node>
    var first: bool

    constructor (cursor: Cursor, key: Option<Key>, forward: bool)
      requires cursor.Valid() && !cursor.init && !cursor.del
      ensures Valid() && this.cursor == cursor && this.key == key && this.forward == forward
      ensures Remaining() == Everything(cursor.db.Entries(), key, forward)
    {
      this.cursor, this.key, this.forward := cursor, key, forward;
      this.state, this.entry, this.first := NotReady, None, true;
    }

    ghost predicate Valid()
      reads this, cursor, cursor.db
    {
      && cursor.Valid() && !cursor.del
      && (first ==> state == NotReady && !cursor.init)
      && (!first && state != Done ==> OnEntry())
      && (state == Ready ==> entry == Some(cursor.db.Entries()[cursor.Position()]))
    }

    /** The cursor is on an entry, and C_EOF is set only on the last one. */
    ghost predicate OnEntry()
      reads cursor, cursor.db
    {
      && cursor.init && cursor.OnPage() && cursor.ki[|cursor.ki|-1] < cursor.Top().NumKeys()
      && cursor.Position() < |cursor.db.Entries()|
      && (cursor.eof ==> cursor.Position() + 1 == |cursor.db.Entries()|)
    }

    /** What the calls of next() still to come will return. */
    ghost function Remaining(): seq<Node>
      requires Valid()
      reads this, cursor, cursor.db
    {
      var e := cursor.db.Entries();
      if state == Done then []
      else if first then Everything(e, key, forward)
      else (if state == Ready then [entry.value] else []) + Rest(e, cursor.Position(), forward)
    }

    /** The seek with an empty key, which makes the first hasNext throw. */
    ghost predicate WillThrow()
      reads this
    {
      first && key.Some? && key.value.size == 0
    }

    method HasNext() returns (b: Answer)
      requires Valid()
      modifies this, cursor
      ensures Valid() && Remaining() == old(Remaining()) && cursor.db.Entries() == old(cursor.db.Entries())
      ensures old(WillThrow()) ==> b == Threw && first
      ensures !old(WillThrow()) ==> !first && b == if Remaining() != [] then Yes else No
      ensures b == Yes ==> state == Ready
      ensures b == No ==> state == Done
    {
      match state {
        case Done => return No;
        case Ready => return Yes;
        case NotReady =>
      }
      b := TryToComputeNext();
    }

    method TryToComputeNext() returns (b: Answer)
      requires Valid() && state == NotReady
      modifies this, cursor
      ensures Valid() && Remaining() == old(Remaining()) && cursor.db.Entries() == old(cursor.db.Entries())
      ensures old(WillThrow()) ==> b == Threw && first
      ensures !old(WillThrow()) ==> !first && b == if Remaining() != [] then Yes else No
      ensures b == Yes ==> state == Ready
      ensures b == No ==> state == Done
    {
      hide Everything, Rest, Cursor.Valid, Cursor.Position, Cursor.OnPage, Cursor.Top, Database.Entries;
      var rc;
      if first {
        rc := Start();
        if rc == BadValSize {
          return Threw;
        }
        first := false;
      } else {
        rc := Step();
      }
      match rc {
        case Found(node) =>
          entry := Some(node);
          state := Ready;
          b := Yes;
        case NotFound =>
          entry := None;
          state := Done;
          b := No;
      }
    }

    /** The first move of the cursor. */
    method Start() returns (rc: Rc)
      requires Valid() && first
      modifies cursor
      ensures cursor.Valid() && !cursor.del && cursor.db.Entries() == old(cursor.db.Entries())
      ensures rc == BadValSize <==> WillThrow()
      ensures rc == BadValSize ==> !cursor.init
      ensures rc == NotFound ==> Everything(cursor.db.Entries(), key, forward) == []
      ensures rc.Found? ==>
                && OnEntry() && rc.node == cursor.db.Entries()[cursor.Position()]
                && Everything(cursor.db.Entries(), key, forward)
                     == [rc.node] + Rest(cursor.db.Entries(), cursor.Position(), forward)
    {
      if key.Some? {
        rc := Seek();
      } else if forward {
        rc := cursor.MoveFirst();
      } else {
        rc := cursor.MoveLast();
      }
      hide Cursor.Valid, Cursor.Position, Database.Entries, Rest;
      if rc.Found? {
        EverythingStarts(cursor.db.Entries(), key, forward, cursor.Position());
      }
    }

    method Seek() returns (rc: Rc)
      requires Valid() && first && key.Some?
      modifies cursor
      ensures cursor.Valid() && !cursor.del && cursor.db.Entries() == old(cursor.db.Entries())
      ensures rc == BadValSize <==> WillThrow()
      ensures rc == BadValSize ==> !cursor.init
      ensures rc == NotFound ==> BoundOf(cursor.db.Entries(), key.value.rank) >= |cursor.db.Entries()|
      ensures rc.Found? ==>
                && OnEntry() && rc.node == cursor.db.Entries()[cursor.Position()] && !cursor.eof
                && cursor.Position() == BoundOf(cursor.db.Entries(), key.value.rank)
    {
      rc := cursor.Set(key.value, true);
      if cursor.db.root.Some? && rc != BadValSize {
        ghost var t, h, e := cursor.db.root.value, cursor.db.depth - 1, cursor.db.Entries();
        EntriesSorted(t, None, None);
        BoundOfSorted(e, key.value.rank);
        hide InOrder, IsPath, At, Neighbour, Balanced, Ordered, NoEmptyLeaf, SetOutcome, Sorted, BoundOf;
        SetOutcomeMeaning(t, h, key.value.rank, true, rc, cursor.ki, BoundOf(e, key.value.rank));
      }
    }

    /** Every later move. */
    method Step() returns (rc: Rc)
      requires Valid() && !first && state == NotReady
      modifies cursor
      ensures cursor.Valid() && !cursor.del && cursor.db.Entries() == old(cursor.db.Entries()) && rc != BadValSize
      ensures rc == NotFound ==> Rest(cursor.db.Entries(), old(cursor.Position()), forward) == []
      ensures rc.Found? ==>
                && OnEntry() && rc.node == cursor.db.Entries()[cursor.Position()]
                && Rest(cursor.db.Entries(), old(cursor.Position()), forward)
                     == [rc.node] + Rest(cursor.db.Entries(), cursor.Position(), forward)
    {
      RestStep(cursor.db.Entries(), cursor.Position(), forward);
      hide Rest, Cursor.Position, Database.Entries, IsPath, At, Neighbour;
      if forward {
        rc := cursor.MoveNext();
      } else {
        rc := cursor.MovePrev();
      }
    }

    method GetNext() returns (r: NextResult)
      requires Valid()
      modifies this, cursor
      ensures Valid() && cursor.db.Entries() == old(cursor.db.Entries())
      ensures old(WillThrow()) ==> r == Failed && Remaining() == old(Remaining())
      ensures !old(WillThrow()) ==> !first
      ensures !old(WillThrow()) && old(Remaining()) == [] ==> r == NoSuchElement && Remaining() == []
      ensures !old(WillThrow()) && old(Remaining()) != [] ==>
                r == Next(old(Remaining())[0]) && Remaining() == old(Remaining())[1..]
    {
      var b := HasNext();
      match b {
        case Threw => return Failed;
        case No => return NoSuchElement;
        case Yes =>
      }
      state := NotReady;
      r := Next(entry.value);
      entry := None;
    }
  }

  /** A whole iteration from a fresh iterator returns every entry once, in order, and is then over for good. */
  method Drain(it: EntryIterator) returns (out: seq<Node>)
    requires it.Valid() && !it.WillThrow()
    modifies it, it.cursor
    ensures it.Valid() && out == old(it.Remaining()) && it.Remaining() == []
  {
    hide EntryIterator.Valid, EntryIterator.Remaining, Database.Entries;
    out := [];
    var more := it.HasNext();
    while more == Yes
      invariant it.Valid() && !it.first && more != Threw
      invariant out + it.Remaining() == old(it.Remaining())
      invariant more == Yes <==> it.Remaining() != []
      decreases |it.Remaining()|
    {
      ghost var rest := it.Remaining();
      var r := it.GetNext();
      assert (out + [rest[0]]) + rest[1..] == out + rest;
      out := out + [r.node];
      more := it.HasNext();
    }
  }
}
