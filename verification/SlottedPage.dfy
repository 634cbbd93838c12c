/**
 * Pages as bytes: mdb_node_add, mdb_node_del and mdb_update_key.  Nodes fill the end of the page, in any order
 * and without holes; an array of offsets at the beginning gives their order.
 */
module SlottedPages {
  import Split

  type Byte = n: nat | n < 256

  const HEADER := 16        // PAGEHDRSZ
  const F_BIGDATA := 1
  const PGNO_BYTES := 8

  /**
   * A node: mn_lo and mn_hi together (data size on a leaf, part of the page number on a branch page), mn_flags, the
   * key, and the data or the number of the overflow page.
   */
  datatype Cell = Cell(size: nat, flags: nat, key: seq<Byte>, data: seq<Byte>)

  /** How many bytes of data follow the key. */
  function DataLength(size: nat, flags: nat, leaf: bool): nat {
    if !leaf then 0 else if flags % 2 == F_BIGDATA then PGNO_BYTES else size
  }

  ghost predicate WellSized(c: Cell, leaf: bool) {
    c.size < 0x1_0000_0000 && c.flags < 0x1_0000 && |c.key| < 0x1_0000 && |c.data| == DataLength(c.size, c.flags, leaf)
  }

  function CellBytes(c: Cell): nat { Split.Even(Split.NODESIZE + |c.key| + |c.data|) }

  // ---- Reading a node ----

  function Word(m: seq<Byte>, o: nat): nat
    requires o + 2 <= |m|
  {
    var lo: nat, hi: nat := m[o], m[o+1];
    lo + 256 * hi
  }

  function SizeAt(m: seq<Byte>, o: nat): nat
    requires o + Split.NODESIZE <= |m|
  {
    Word(m, o) + 0x1_0000 * Word(m, o + 2)
  }

  /** The bytes a node takes, without padding. */
  function LengthAt(m: seq<Byte>, o: nat, leaf: bool): nat
    requires o + Split.NODESIZE <= |m|
  {
    Split.NODESIZE + Word(m, o + 6) + DataLength(SizeAt(m, o), Word(m, o + 4), leaf)
  }

  function Decode(m: seq<Byte>, o: nat, leaf: bool): Cell
    requires o + Split.NODESIZE <= |m| && o + LengthAt(m, o, leaf) <= |m|
  {
    var k := o + Split.NODESIZE + Word(m, o + 6);
    Cell(SizeAt(m, o), Word(m, o + 4), m[o+Split.NODESIZE..k], m[k..o + LengthAt(m, o, leaf)])
  }

  /** Two places hold the same bytes. */
  ghost predicate Copied(m: seq<Byte>, o: nat, m': seq<Byte>, o': nat, n: nat) {
    o + n <= |m| && o' + n <= |m'| && m[o..o+n] == m'[o'..o'+n]
  }

  lemma CopiedAt(m: seq<Byte>, o: nat, m': seq<Byte>, o': nat, n: nat, i: nat)
    requires Copied(m, o, m', o', n) && i < n
    ensures m[o+i] == m'[o'+i]
  {
    assert m[o..o+n][i] == m'[o'..o'+n][i];
  }

  lemma SameWord(m: seq<Byte>, o: nat, m': seq<Byte>, o': nat, n: nat, k: nat)
    requires Copied(m, o, m', o', n) && k + 2 <= n
    ensures Word(m, o + k) == Word(m', o' + k)
  {
    CopiedAt(m, o, m', o', n, k);
    CopiedAt(m, o, m', o', n, k + 1);
  }

  /** Equal bytes are equal nodes. */
  lemma SameCell(m: seq<Byte>, o: nat, m': seq<Byte>, o': nat, leaf: bool)
    requires o + Split.NODESIZE <= |m| && o + LengthAt(m, o, leaf) <= |m| && Copied(m, o, m', o', LengthAt(m, o, leaf))
    ensures o' + Split.NODESIZE <= |m'| && LengthAt(m', o', leaf) == LengthAt(m, o, leaf)
    ensures Decode(m', o', leaf) == Decode(m, o, leaf)
  {
    hide Word;
    var n := LengthAt(m, o, leaf);
    SameWord(m, o, m', o', n, 0);
    SameWord(m, o, m', o', n, 2);
    SameWord(m, o, m', o', n, 4);
    SameWord(m, o, m', o', n, 6);
    SliceOf(m, o, m', o', n, Split.NODESIZE, Split.NODESIZE + Word(m, o + 6));
    SliceOf(m, o, m', o', n, Split.NODESIZE + Word(m, o + 6), n);
  }

  lemma SliceOf(m: seq<Byte>, o: nat, m': seq<Byte>, o': nat, n: nat, i: nat, j: nat)
    requires Copied(m, o, m', o', n) && i <= j <= n
    ensures m[o+i..o+j] == m'[o'+i..o'+j]
  {
    var u, v := m[o+i..o+j], m'[o'+i..o'+j];
    forall k | 0 <= k < |u| ensures u[k] == v[k] {
      CopiedAt(m, o, m', o', n, i + k);
    }
  }

  // ---- Writing a node ----

  function Bytes2(n: nat): (b: seq<Byte>)
    requires n < 0x1_0000
    ensures |b| == 2
  {
    [n % 256, n / 256]
  }

  /** mn_lo, mn_hi, mn_flags and mn_ksize, low byte first. */
  function HeaderOf(size: nat, flags: nat, ksize: nat): (b: seq<Byte>)
    requires size < 0x1_0000_0000 && flags < 0x1_0000 && ksize < 0x1_0000
    ensures |b| == Split.NODESIZE
  {
    Bytes2(size % 0x1_0000) + Bytes2(size / 0x1_0000) + Bytes2(flags) + Bytes2(ksize)
  }

  lemma HeaderRead(m: seq<Byte>, o: nat, size: nat, flags: nat, ksize: nat)
    requires o + Split.NODESIZE <= |m| && size < 0x1_0000_0000 && flags < 0x1_0000 && ksize < 0x1_0000
    requires m[o..o+Split.NODESIZE] == HeaderOf(size, flags, ksize)
    ensures SizeAt(m, o) == size && Word(m, o + 4) == flags && Word(m, o + 6) == ksize
  {
    var h := HeaderOf(size, flags, ksize);
    assert m[o] == h[0] && m[o+1] == h[1] && m[o+2] == h[2] && m[o+3] == h[3];
    assert m[o+4] == h[4] && m[o+5] == h[5] && m[o+6] == h[6] && m[o+7] == h[7];
    assert h[0] == size % 0x1_0000 % 256 && h[1] == size % 0x1_0000 / 256 && h[2] == size / 0x1_0000 % 256
           && h[3] == size / 0x1_0000 / 256;
    assert h[4] == flags % 256 && h[5] == flags / 256 && h[6] == ksize % 256 && h[7] == ksize / 256;
  }

  /** A node is read back as it was written. */
  lemma CellRead(m: seq<Byte>, o: nat, c: Cell, leaf: bool)
    requires WellSized(c, leaf) && o + Split.NODESIZE + |c.key| + |c.data| <= |m|
    requires m[o..o+Split.NODESIZE] == HeaderOf(c.size, c.flags, |c.key|)
    requires m[o+Split.NODESIZE..o+Split.NODESIZE+|c.key|] == c.key
    requires m[o+Split.NODESIZE+|c.key|..o+Split.NODESIZE+|c.key|+|c.data|] == c.data
    ensures LengthAt(m, o, leaf) == Split.NODESIZE + |c.key| + |c.data| && Decode(m, o, leaf) == c
  {
    HeaderRead(m, o, c.size, c.flags, |c.key|);
  }

  lemma CellWritten(m: seq<Byte>, o: nat, c: Cell, leaf: bool)
    requires WellSized(c, leaf) && o + CellBytes(c) <= |m| && o + Split.NODESIZE + |c.key| + |c.data| <= |m|
    requires m[o..o+Split.NODESIZE] == HeaderOf(c.size, c.flags, |c.key|)
    requires m[o+Split.NODESIZE..o+Split.NODESIZE+|c.key|] == c.key
    requires m[o+Split.NODESIZE+|c.key|..o+Split.NODESIZE+|c.key|+|c.data|] == c.data
    ensures CellAt(m, o, CellBytes(c), c, leaf)
  {
    hide HeaderOf, LengthAt, Decode;
    CellRead(m, o, c, leaf);
  }

  // ---- Layout ----

  ghost predicate Readable(m: seq<Byte>, o: nat, leaf: bool) {
    o + Split.NODESIZE <= |m| && o + Split.Even(LengthAt(m, o, leaf)) <= |m|
  }

  /** At o there is node c, which takes n bytes with padding. */
  ghost predicate CellAt(m: seq<Byte>, o: nat, n: nat, c: Cell, leaf: bool) {
    Readable(m, o, leaf) && Split.Even(LengthAt(m, o, leaf)) == n && Decode(m, o, leaf) == c
  }

  /** The offsets p lead to nodes cs of sizes z. */
  ghost predicate Holds(m: seq<Byte>, p: seq<nat>, z: seq<nat>, cs: seq<Cell>, leaf: bool) {
    |p| == |z| == |cs| && forall i :: 0 <= i < |p| ==> CellAt(m, p[i], z[i], cs[i], leaf)
  }

  ghost predicate Fits(o: nat, n: nat, upper: nat, top: nat) {
    n > 0 && n % 2 == 0 && upper <= o && o % 2 == 0 && o + n <= top
  }

  ghost predicate Apart(o: nat, n: nat, o': nat, n': nat) {
    o + n <= o' || o' + n' <= o
  }

  /** Extents at even offsets between upper and top, apart from each other. */
  ghost predicate Spread(p: seq<nat>, z: seq<nat>, upper: nat, top: nat) {
    && |p| == |z| && upper <= top && upper % 2 == 0
    && (forall i :: 0 <= i < |p| ==> Fits(p[i], z[i], upper, top))
    && (forall i, j :: 0 <= i < j < |p| ==> Apart(p[i], z[i], p[j], z[j]))
  }

  /** They are as large together as the space they are in. */
  ghost predicate Packed(p: seq<nat>, z: seq<nat>, upper: nat, top: nat) {
    Spread(p, z, upper, top) && Split.Sum(z) == top - upper
  }

  lemma InsertAt<T>(s: seq<T>, i: nat, x: T)
    requires i <= |s|
    ensures var u := Split.Insert(s, i, x);
            && |u| == |s| + 1 && u[i] == x && (forall j :: 0 <= j < i ==> u[j] == s[j])
                 && (forall j :: i < j < |u| ==> u[j] == s[j-1])
  {
  }

  /** The bytes from lo on, below hi, moved by d. */
  ghost predicate Shifted(m: seq<Byte>, m': seq<Byte>, lo: nat, hi: nat, d: int) {
    hi <= |m| && forall x :: lo <= x < hi ==> 0 <= x + d < |m'| && m'[x+d] == m[x]
  }

  /** A node within bytes that were moved is found where they went. */
  lemma ShiftedCell(m: seq<Byte>, m': seq<Byte>, lo: nat, hi: nat, d: int, o: nat, n: nat, c: Cell, leaf: bool)
    requires Shifted(m, m', lo, hi, d) && CellAt(m, o, n, c, leaf) && lo <= o && o + n <= hi
    ensures 0 <= o + d && CellAt(m', o + d, n, c, leaf)
  {
    var len := LengthAt(m, o, leaf);
    ShiftedSlice(m, m', lo, hi, d, o, o + n);
    SliceLess(m, o, m', o + d, n, len);
    SameCell(m, o, m', o + d, leaf);
  }

  lemma ShiftedSlice(m: seq<Byte>, m': seq<Byte>, lo: nat, hi: nat, d: int, i: nat, j: nat)
    requires Shifted(m, m', lo, hi, d) && lo <= i < j <= hi
    ensures 0 <= i + d && j + d <= |m'| && m[i..j] == m'[i+d..j+d]
  {
    var b, e := m[i], m[j-1];
    assert m'[i+d] == b && m'[(j-1)+d] == e;
    var u, v := m[i..j], m'[i+d..j+d];
    forall k | 0 <= k < |u| ensures u[k] == v[k] {
      var x := i + k;
      assert u[k] == m[x];
    }
  }

  lemma SliceLess(m: seq<Byte>, o: nat, m': seq<Byte>, o': nat, n: nat, len: nat)
    requires Copied(m, o, m', o', n) && len <= n
    ensures Copied(m, o, m', o', len)
  {
    SliceOf(m, o, m', o', n, 0, len);
  }

  // ---- mdb_node_add ----

  lemma PackedAdd(p: seq<nat>, z: seq<nat>, upper: nat, top: nat, i: nat, ofs: nat, size: nat)
    requires Packed(p, z, upper, top) && i <= |p| && ofs + size == upper && size % 2 == 0 && size > 0
    ensures Packed(Split.Insert(p, i, ofs), Split.Insert(z, i, size), ofs, top)
  {
    InsertAt(p, i, ofs);
    InsertAt(z, i, size);
    Split.InsertSum(z, i, size);
    hide Split.Insert, Split.Sum;
    var q, y := Split.Insert(p, i, ofs), Split.Insert(z, i, size);
    forall j | 0 <= j < |q| ensures Fits(q[j], y[j], ofs, top) {
      if j != i { assert Fits(p[if j < i then j else j - 1], z[if j < i then j else j - 1], upper, top); }
    }
    forall j, k | 0 <= j < k < |q| ensures Apart(q[j], y[j], q[k], y[k]) {
      var j', k' := if j < i then j else j - 1, if k < i then k else k - 1;
      if j != i && k != i {
        assert Apart(p[j'], z[j'], p[k'], z[k']);
      } else if j == i {
        assert Fits(p[k'], z[k'], upper, top);
      } else {
        assert Fits(p[j'], z[j'], upper, top);
      }
    }
  }

  lemma HoldsAdd(m: seq<Byte>, p: seq<nat>, z: seq<nat>, cs: seq<Cell>, leaf: bool, m': seq<Byte>, upper: nat, i: nat,
                 ofs: nat, size: nat, c: Cell)
    requires Holds(m, p, z, cs, leaf) && Packed(p, z, upper, |m|) && |m'| == |m| && Shifted(m, m', upper, |m|, 0)
    requires i <= |p| && CellAt(m', ofs, size, c, leaf)
    ensures Holds(m', Split.Insert(p, i, ofs), Split.Insert(z, i, size), Split.Insert(cs, i, c), leaf)
  {
    hide Split.Insert, Split.Sum, CellAt, Shifted;
    InsertAt(p, i, ofs);
    InsertAt(z, i, size);
    InsertAt(cs, i, c);
    var q, y, ds := Split.Insert(p, i, ofs), Split.Insert(z, i, size), Split.Insert(cs, i, c);
    forall j | 0 <= j < |q| ensures CellAt(m', q[j], y[j], ds[j], leaf) {
      if j != i {
        var k := if j < i then j else j - 1;
        SlidApart(p, z, upper, |m|, k, k);
        ShiftedCell(m, m', upper, |m|, 0, p[k], z[k], cs[k], leaf);
      }
    }
  }

  // ---- mdb_node_del ----

  lemma RemoveAt<T>(s: seq<T>, i: nat)
    requires i < |s|
    ensures var u := Split.Remove(s, i);
            |u| == |s| - 1 && (forall j :: 0 <= j < i ==> u[j] == s[j]) && (forall j :: i <= j < |u| ==> u[j] == s[j+1])
  {
  }

  /** Nodes below the deleted one move up over it. */
  function Slid(q: nat, ptr: nat, n: nat): nat { if q < ptr then q + n else q }

  ghost function AllSlid(p: seq<nat>, ptr: nat, n: nat): (r: seq<nat>)
    ensures |r| == |p| && forall i :: 0 <= i < |p| ==> r[i] == Slid(p[i], ptr, n)
  {
    seq(|p|, i requires 0 <= i < |p| => Slid(p[i], ptr, n))
  }

  lemma RemoveSum(z: seq<nat>, i: nat)
    requires i < |z|
    ensures Split.Sum(Split.Remove(z, i)) + z[i] == Split.Sum(z)
  {
    RemoveInsert(z, i);
    hide Split.Sum, Split.Insert, Split.Remove;
    Split.InsertSum(Split.Remove(z, i), i, z[i]);
  }

  lemma RemoveInsert(z: seq<nat>, i: nat)
    requires i < |z|
    ensures i <= |Split.Remove(z, i)| && z == Split.Insert(Split.Remove(z, i), i, z[i])
  {
  }

  lemma SlidApart(p: seq<nat>, z: seq<nat>, upper: nat, top: nat, i: nat, j: nat)
    requires Spread(p, z, upper, top) && i < |p| && j < |p|
    ensures |p| == |z| && Fits(p[i], z[i], upper, top) && Fits(p[j], z[j], upper, top)
    ensures i != j ==> Apart(p[i], z[i], p[j], z[j])
    ensures i != j ==> if p[j] < p[i] then p[j] + z[j] <= p[i] else p[i] + z[i] <= p[j]
  {
    if i < j { assert Apart(p[i], z[i], p[j], z[j]); } else if j < i { assert Apart(p[j], z[j], p[i], z[i]); }
  }

  lemma SpreadDel(p: seq<nat>, z: seq<nat>, upper: nat, top: nat, i: nat)
    requires Spread(p, z, upper, top) && i < |p|
    ensures Spread(AllSlid(Split.Remove(p, i), p[i], z[i]), Split.Remove(z, i), upper + z[i], top)
  {
    var q, y := AllSlid(Split.Remove(p, i), p[i], z[i]), Split.Remove(z, i);
    hide Split.Remove, AllSlid;
    RemoveAt(p, i);
    RemoveAt(z, i);
    SlidApart(p, z, upper, top, i, i);
    forall j | 0 <= j < |q| ensures Fits(q[j], y[j], upper + z[i], top) {
      hide *;
      SlidFits(p, z, upper, top, i, if j < i then j else j + 1);
    }
    forall j, k | 0 <= j < k < |q| ensures Apart(q[j], y[j], q[k], y[k]) {
      hide *;
      var j', k' := if j < i then j else j + 1, if k < i then k else k + 1;
      SlidPair(p, z, upper, top, i, j', k');
      assert q[j] == Slid(p[j'], p[i], z[i]) && y[j] == z[j'];
      assert q[k] == Slid(p[k'], p[i], z[i]) && y[k] == z[k'];
    }
  }

  lemma PackedDel(p: seq<nat>, z: seq<nat>, upper: nat, top: nat, i: nat)
    requires Packed(p, z, upper, top) && i < |p|
    ensures Packed(AllSlid(Split.Remove(p, i), p[i], z[i]), Split.Remove(z, i), upper + z[i], top)
  {
    hide Spread, Split.Remove, AllSlid, Split.Sum;
    SlidApart(p, z, upper, top, i, i);
    SpreadDel(p, z, upper, top, i);
    RemoveSum(z, i);
  }

  /** Extents that are apart are no larger together than the space they are in. */
  lemma {:induction false} SpreadSum(p: seq<nat>, z: seq<nat>, upper: nat, top: nat)
    requires Spread(p, z, upper, top)
    ensures Split.Sum(z) <= top - upper
    decreases |p|
  {
    if p != [] {
      var i := |p| - 1;
      SlidApart(p, z, upper, top, i, i);
      SpreadDel(p, z, upper, top, i);
      RemoveSum(z, i);
      hide Spread, Split.Sum;
      RemoveAt(p, i);
      SpreadSum(AllSlid(Split.Remove(p, i), p[i], z[i]), Split.Remove(z, i), upper + z[i], top);
    }
  }

  ghost predicate Covers(p: seq<nat>, z: seq<nat>, x: nat, i: nat) {
    i < |p| == |z| && p[i] <= x < p[i] + z[i]
  }

  /** There are no holes: every byte of the space belongs to a node. */
  lemma NoHoles(p: seq<nat>, z: seq<nat>, upper: nat, top: nat, x: nat)
    requires Packed(p, z, upper, top) && upper <= x < top && top % 2 == 0
    ensures exists i: nat :: Covers(p, z, x, i)
  {
    if forall i: nat :: !Covers(p, z, x, i) {
      var o := x - x % 2;
      Split.SumConcat(z, [2]);
      assert [2][..0] == [];
      assert Split.Sum([2]) == Split.Sum([]) + 2;
      Crowded(p, z, upper, top, x, o);
      SpreadSum(p + [o], z + [2], upper, top);
    }
  }

  lemma Crowded(p: seq<nat>, z: seq<nat>, upper: nat, top: nat, x: nat, o: nat)
    requires Spread(p, z, upper, top) && upper <= x < top && top % 2 == 0 && o == x - x % 2
             && forall i: nat :: !Covers(p, z, x, i)
    ensures Spread(p + [o], z + [2], upper, top)
  {
    var q, y := p + [o], z + [2];
    forall i | 0 <= i < |q| ensures Fits(q[i], y[i], upper, top) {
      if i < |p| { assert Fits(p[i], z[i], upper, top); }
    }
    forall i, j | 0 <= i < j < |q| ensures Apart(q[i], y[i], q[j], y[j]) {
      if j < |p| {
        assert Apart(p[i], z[i], p[j], z[j]);
      } else {
        assert Fits(p[i], z[i], upper, top) && !Covers(p, z, x, i);
      }
    }
  }

  /** And to only one. */
  lemma OneOwner(p: seq<nat>, z: seq<nat>, upper: nat, top: nat, x: nat, i: nat, j: nat)
    requires Packed(p, z, upper, top) && Covers(p, z, x, i) && Covers(p, z, x, j)
    ensures i == j
  {
    SlidApart(p, z, upper, top, i, j);
  }

  lemma SlidFits(p: seq<nat>, z: seq<nat>, upper: nat, top: nat, i: nat, k: nat)
    requires Spread(p, z, upper, top) && i < |p| && k < |p| && k != i
    ensures Fits(Slid(p[k], p[i], z[i]), z[k], upper + z[i], top)
  {
    hide Spread;
    SlidApart(p, z, upper, top, i, k);
  }

  lemma SlidPair(p: seq<nat>, z: seq<nat>, upper: nat, top: nat, i: nat, j: nat, k: nat)
    requires Spread(p, z, upper, top) && i < |p| && j < |p| && k < |p| && j != k && j != i && k != i
    ensures Apart(Slid(p[j], p[i], z[i]), z[j], Slid(p[k], p[i], z[i]), z[k])
  {
    hide Spread;
    SlidApart(p, z, upper, top, i, j);
    SlidApart(p, z, upper, top, i, k);
    SlidApart(p, z, upper, top, j, k);
  }

  lemma HoldsDel(m: seq<Byte>, p: seq<nat>, z: seq<nat>, cs: seq<Cell>, leaf: bool, m': seq<Byte>, upper: nat, i: nat)
    requires Holds(m, p, z, cs, leaf) && Packed(p, z, upper, |m|) && i < |p|
    requires Shifted(m, m', upper, p[i], z[i]) && Shifted(m, m', p[i] + z[i], |m|, 0)
    ensures Holds(m', AllSlid(Split.Remove(p, i), p[i], z[i]), Split.Remove(z, i), Split.Remove(cs, i), leaf)
  {
    var q, y, ds := AllSlid(Split.Remove(p, i), p[i], z[i]), Split.Remove(z, i), Split.Remove(cs, i);
    RemoveAt(p, i);
    RemoveAt(z, i);
    RemoveAt(cs, i);
    hide Split.Remove, AllSlid, Split.Sum, CellAt, Shifted, Packed;
    forall j | 0 <= j < |q| ensures CellAt(m', q[j], y[j], ds[j], leaf) {
      var k := if j < i then j else j + 1;
      SlidCell(m, p, z, cs, leaf, m', upper, i, k);
      assert q[j] == Slid(p[k], p[i], z[i]) && y[j] == z[k] && ds[j] == cs[k];
    }
  }

  lemma SlidCell(m: seq<Byte>, p: seq<nat>, z: seq<nat>, cs: seq<Cell>, leaf: bool, m': seq<Byte>, upper: nat, i: nat,
                 k: nat)
    requires Holds(m, p, z, cs, leaf) && Packed(p, z, upper, |m|) && i < |p| && k < |p| && k != i
    requires Shifted(m, m', upper, p[i], z[i]) && Shifted(m, m', p[i] + z[i], |m|, 0)
    ensures CellAt(m', Slid(p[k], p[i], z[i]), z[k], cs[k], leaf)
  {
    hide Split.Sum, CellAt, Shifted, Spread;
    SlidApart(p, z, upper, |m|, i, k);
    if p[k] < p[i] {
      ShiftedCell(m, m', upper, p[i], z[i], p[k], z[k], cs[k], leaf);
    } else {
      ShiftedCell(m, m', p[i] + z[i], |m|, 0, p[k], z[k], cs[k], leaf);
    }
  }

  // ---- mdb_update_key ----

  /** The node whose key changes and those below it move down by delta. */
  function Lowered(q: nat, ptr: nat, delta: int): int { if q <= ptr then q - delta else q }

  ghost predicate AllAbove(p: seq<nat>, delta: int) {
    forall i :: 0 <= i < |p| ==> p[i] >= delta
  }

  ghost function AllLowered(p: seq<nat>, ptr: nat, delta: int): (r: seq<nat>)
    requires AllAbove(p, delta)
    ensures |r| == |p| && forall i :: 0 <= i < |p| ==> r[i] == Lowered(p[i], ptr, delta)
  {
    seq(|p|, i requires 0 <= i < |p| => Lowered(p[i], ptr, delta))
  }

  lemma SetSum(z: seq<nat>, i: nat, n: nat)
    requires i < |z|
    ensures Split.Sum(z[i := n]) + z[i] == Split.Sum(z) + n
  {
    RemoveSum(z, i);
    RemoveSum(z[i := n], i);
    assert Split.Remove(z[i := n], i) == Split.Remove(z, i);
  }

  lemma PackedUpdate(p: seq<nat>, z: seq<nat>, upper: nat, top: nat, i: nat, delta: int)
    requires Packed(p, z, upper, top) && i < |p| && delta % 2 == 0 && delta <= upper && z[i] + delta > 0
    ensures AllAbove(p, delta) && Packed(AllLowered(p, p[i], delta), z[i := z[i] + delta], upper - delta, top)
  {
    hide AllLowered, Split.Sum;
    forall j | 0 <= j < |p| ensures p[j] >= delta { assert Fits(p[j], z[j], upper, top); }
    var q, y := AllLowered(p, p[i], delta), z[i := z[i] + delta];
    SetSum(z, i, z[i] + delta);
    SlidApart(p, z, upper, top, i, i);
    forall j | 0 <= j < |q| ensures Fits(q[j], y[j], upper - delta, top) {
      hide *;
      LoweredPair(p, z, upper, top, i, delta, j, j);
    }
    forall j, k | 0 <= j < k < |q| ensures Apart(q[j], y[j], q[k], y[k]) {
      hide *;
      LoweredPair(p, z, upper, top, i, delta, j, k);
    }
  }

  lemma LoweredPair(p: seq<nat>, z: seq<nat>, upper: nat, top: nat, i: nat, delta: int, j: nat, k: nat)
    requires Spread(p, z, upper, top) && i < |p| && j < |p| && k < |p| && delta % 2 == 0 && delta <= upper
             && z[i] + delta > 0
    requires p[j] >= delta && p[k] >= delta
    ensures var y := z[i := z[i] + delta];
            && Fits(Lowered(p[j], p[i], delta), y[j], upper - delta, top)
            && (j != k ==> Apart(Lowered(p[j], p[i], delta), y[j], Lowered(p[k], p[i], delta), y[k]))
  {
    hide Spread;
    SlidApart(p, z, upper, top, i, j);
    SlidApart(p, z, upper, top, i, k);
    SlidApart(p, z, upper, top, j, k);
    EvenDiff(p[j], delta);
    EvenDiff(z[i], -delta);
  }

  lemma EvenDiff(n: int, delta: int)
    requires n % 2 == 0 && delta % 2 == 0
    ensures (n - delta) % 2 == 0
  {
  }

  lemma HoldsUpdate(m: seq<Byte>, p: seq<nat>, z: seq<nat>, cs: seq<Cell>, leaf: bool, m': seq<Byte>, upper: nat,
                    i: nat, delta: int, c: Cell)
    requires Holds(m, p, z, cs, leaf) && Packed(p, z, upper, |m|) && i < |p| && z[i] + delta > 0 && delta <= upper
    requires Shifted(m, m', upper, p[i], -delta) && Shifted(m, m', p[i] + z[i], |m|, 0)
    requires AllAbove(p, delta) && CellAt(m', p[i] - delta, z[i] + delta, c, leaf)
    ensures Holds(m', AllLowered(p, p[i], delta), z[i := z[i] + delta], cs[i := c], leaf)
  {
    var q, y, ds := AllLowered(p, p[i], delta), z[i := z[i] + delta], cs[i := c];
    hide AllLowered, Split.Sum, CellAt, Shifted, Packed;
    forall j | 0 <= j < |q| ensures CellAt(m', q[j], y[j], ds[j], leaf) {
      if j != i { OtherCell(m, p, z, cs, leaf, m', upper, i, delta, j); }
    }
  }

  lemma OtherCell(m: seq<Byte>, p: seq<nat>, z: seq<nat>, cs: seq<Cell>, leaf: bool, m': seq<Byte>, upper: nat, i: nat,
                  delta: int, j: nat)
    requires Holds(m, p, z, cs, leaf) && Packed(p, z, upper, |m|) && i < |p| && j < |p| && j != i && p[j] >= delta
    requires Shifted(m, m', upper, p[i], -delta) && Shifted(m, m', p[i] + z[i], |m|, 0)
    ensures CellAt(m', Lowered(p[j], p[i], delta), z[j], cs[j], leaf)
  {
    hide Split.Sum, CellAt, Shifted, Spread;
    SlidApart(p, z, upper, |m|, i, j);
    if p[j] < p[i] {
      ShiftedCell(m, m', upper, p[i], -delta, p[j], z[j], cs[j], leaf);
    } else {
      ShiftedCell(m, m', p[i] + z[i], |m|, 0, p[j], z[j], cs[j], leaf);
    }
  }

  // ---- The page ----

  class SlottedPage {
    const psize: nat
    const leaf: bool
    var mem: array<Byte>
    var ptrs: array<nat>      // mp_ptrs
    var lower: nat            // mp_lower
    var upper: nat            // mp_upper
    ghost var sizes: seq<nat>
    ghost var cells: seq<Cell>

    constructor (psize: nat, leaf: bool)
      requires HEADER <= psize && psize % 2 == 0
      ensures Valid() && cells == [] && fresh(mem) && fresh(ptrs)
    {
      this.psize, this.leaf := psize, leaf;
      mem := new Byte[psize](_ => 0);
      ptrs := new nat[psize](_ => 0);
      lower, upper, sizes, cells := HEADER, psize, [], [];
    }

    function NumKeys(): nat
      requires lower >= HEADER
      reads this
    {
      (lower - HEADER) / 2
    }

    ghost predicate Valid()
      reads this, mem, ptrs
    {
      && psize % 2 == 0 && mem.Length == psize == ptrs.Length
      && lower == HEADER + 2 * |cells| && lower <= upper <= psize
      && Holds(mem[..], ptrs[..|cells|], sizes, cells, leaf) && Packed(ptrs[..|cells|], sizes, upper, psize)
    }

    /** mdb_node_add */
    method Add(indx: nat, c: Cell) returns (ok: bool)
      requires Valid() && indx <= |cells| && WellSized(c, leaf)
      modifies this, mem, ptrs
      ensures Valid() && mem == old(mem) && ptrs == old(ptrs)
      ensures ok <==> CellBytes(c) + 2 <= old(upper - lower)
      ensures ok ==>
                cells == Split.Insert(old(cells), indx, c) && upper == old(upper) - CellBytes(c)
                && lower == old(lower) + 2
      ensures ok ==>
                ptrs[..|cells|] == Split.Insert(old(ptrs[..|cells|]), indx, upper)
                && sizes == Split.Insert(old(sizes), indx, CellBytes(c))
      ensures !ok ==> unchanged(this) && unchanged(mem) && unchanged(ptrs)
    {
      hide Packed, Holds, Split.Insert, CellAt, Shifted;
      HoldsLength(mem[..], ptrs[..|cells|], sizes, cells, leaf);
      var n: nat, size: nat := NumKeys(), CellBytes(c);
      ok := size + 2 <= upper - lower;
      if !ok {
        return;
      }
      ghost var m, p := mem[..], ptrs[..n];
      var ofs: nat := upper - size;
      ShiftPtrs(ptrs, n, indx, ofs);
      WriteCell(mem, ofs, c, leaf);
      Unmoved(m, mem[..], upper);
      HoldsAdd(m, p, sizes, cells, leaf, mem[..], upper, indx, ofs, size, c);
      PackedAdd(p, sizes, upper, psize, indx, ofs, size);
      InsertAt(cells, indx, c);
      sizes, cells := Split.Insert(sizes, indx, size), Split.Insert(cells, indx, c);
      upper, lower := ofs, lower + 2;
    }

    /** The size of a node, from its header. */
    function NodeBytes(o: nat): nat
      requires o + Split.NODESIZE <= mem.Length
      reads this, mem
    {
      Split.Even(LengthAt(mem[..], o, leaf))
    }

    lemma At(indx: nat)
      requires Valid() && indx < |cells|
      ensures |sizes| == |cells| && CellAt(mem[..], ptrs[indx], sizes[indx], cells[indx], leaf)
              && Fits(ptrs[indx], sizes[indx], upper, psize)
      ensures ptrs[indx] + Split.NODESIZE <= mem.Length && NodeBytes(ptrs[indx]) == sizes[indx]
    {
      assert ptrs[..|cells|][indx] == ptrs[indx];
    }

    /** mdb_node_del */
    method Del(indx: nat)
      requires Valid() && indx < |cells|
      modifies this, mem, ptrs
      ensures Valid() && mem == old(mem) && ptrs == old(ptrs)
      ensures cells == Split.Remove(old(cells), indx) && upper == old(upper + sizes[indx]) && lower == old(lower) - 2
      ensures ptrs[..|cells|] == AllSlid(Split.Remove(old(ptrs[..|cells|]), indx), old(ptrs[indx]), old(sizes[indx]))
    {
      hide Packed, Holds, Split.Remove, CellAt, Shifted, NodeBytes, AllSlid;
      At(indx);
      ghost var m, p := mem[..], ptrs[..|cells|];
      HoldsLength(m, p, sizes, cells, leaf);
      var n: nat, ptr: nat := NumKeys(), ptrs[indx];
      var sz: nat := NodeBytes(ptr);
      SlidePtrs(ptrs, n, indx, ptr, sz);
      MoveUp(mem, upper, ptr, sz);
      assert p[indx] == ptr;
      HoldsDel(m, p, sizes, cells, leaf, mem[..], upper, indx);
      PackedDel(p, sizes, upper, psize, indx);
      RemoveAt(cells, indx);
      sizes, cells := Split.Remove(sizes, indx), Split.Remove(cells, indx);
      lower, upper := lower - 2, upper + sz;
    }

    /**
     * mdb_update_key, on a branch page.  If the page has no room for a longer key nothing is changed; the caller
     * then deletes the node and splits the page.
     */
    method UpdateKey(indx: nat, key: seq<Byte>) returns (ok: bool)
      requires Valid() && !leaf && indx < |cells| && |key| < 0x1_0000
      modifies this, mem, ptrs
      ensures Valid() && mem == old(mem) && ptrs == old(ptrs)
      ensures ok <==> Split.Even(|key|) - Split.Even(|old(cells)[indx].key|) <= old(upper - lower)
      ensures ok ==> cells == old(cells)[indx := old(cells)[indx].(key := key)] && lower == old(lower)
      ensures !ok ==> unchanged(this) && unchanged(mem) && unchanged(ptrs)
    {
      hide Packed, Holds, CellAt, Shifted, NodeBytes, AllLowered, AllAbove, Word, Split.Even, SizeAt, LengthAt;
      At(indx);
      BranchSize(mem[..], ptrs[indx], sizes[indx], cells[indx]);
      ghost var m, p, z, c := mem[..], ptrs[..|cells|], sizes[indx], cells[indx];
      HoldsLength(m, p, sizes, cells, leaf);
      var n: nat, ptr: nat := NumKeys(), ptrs[indx];
      assert p[indx] == ptr;
      var delta := Split.Even(|key|) - Split.Even(KeySize(ptr));
      ok := delta <= upper - lower;
      if !ok {
        return;
      }
      PackedUpdate(p, sizes, upper, psize, indx, delta);
      MoveForKey(mem, ptrs, n, ptr, upper, delta, z, p);
      PutKey(mem, ptr, delta, key, m, upper, z, c);
      HoldsUpdate(m, p, sizes, cells, leaf, mem[..], upper, indx, delta, c.(key := key));
      sizes, cells := sizes[indx := z + delta], cells[indx := c.(key := key)];
      upper := upper - delta;
    }

    function KeySize(o: nat): nat
      requires o + Split.NODESIZE <= mem.Length
      reads this, mem
    {
      Word(mem[..], o + 6)
    }
  }

  lemma HoldsLength(m: seq<Byte>, p: seq<nat>, z: seq<nat>, cs: seq<Cell>, leaf: bool)
    requires Holds(m, p, z, cs, leaf)
    ensures |p| == |z| == |cs|
  {
  }

  lemma Unmoved(m: seq<Byte>, m': seq<Byte>, upper: nat)
    requires |m| == |m'| && upper <= |m| && forall x :: upper <= x < |m| ==> m'[x] == m[x]
    ensures Shifted(m, m', upper, |m|, 0)
  {
  }

  /** Make room in the offset array. */
  method ShiftPtrs(ptrs: array<nat>, n: nat, indx: nat, ofs: nat)
    requires indx <= n < ptrs.Length
    modifies ptrs
    ensures ptrs[..n+1] == Split.Insert(old(ptrs[..n]), indx, ofs)
  {
    ghost var p := ptrs[..n];
    var i := n;
    while i > indx
      invariant indx <= i <= n
      invariant forall k :: 0 <= k < i ==> ptrs[k] == p[k]
      invariant forall k :: i < k <= n ==> ptrs[k] == p[k-1]
    {
      ptrs[i] := ptrs[i-1];
      i := i - 1;
    }
    ptrs[indx] := ofs;
    InsertAt(p, indx, ofs);
    ghost var u := Split.Insert(p, indx, ofs);
    forall k | 0 <= k <= n ensures ptrs[k] == u[k] {
    }
  }

  method WriteBytes(mem: array<Byte>, o: nat, b: seq<Byte>)
    requires o + |b| <= mem.Length
    modifies mem
    ensures mem[o..o+|b|] == b
    ensures forall x :: 0 <= x < mem.Length && !(o <= x < o + |b|) ==> mem[x] == old(mem[x])
  {
    var i := 0;
    while i < |b|
      invariant i <= |b|
      invariant forall x :: o <= x < o + i ==> mem[x] == b[x-o]
      invariant forall x :: 0 <= x < mem.Length && !(o <= x < o + i) ==> mem[x] == old(mem[x])
    {
      mem[o+i] := b[i];
      i := i + 1;
    }
  }

  /** The header, the key and the data of a node. */
  method WriteCell(mem: array<Byte>, o: nat, c: Cell, leaf: bool)
    requires WellSized(c, leaf) && o + CellBytes(c) <= mem.Length
    modifies mem
    ensures CellAt(mem[..], o, CellBytes(c), c, leaf)
    ensures forall x :: o + CellBytes(c) <= x < mem.Length ==> mem[x] == old(mem[x])
  {
    hide HeaderOf, CellAt;
    var k := o + Split.NODESIZE;
    var d := k + |c.key|;
    WriteBytes(mem, o, HeaderOf(c.size, c.flags, |c.key|));
    WriteBytes(mem, k, c.key);
    WriteBytes(mem, d, c.data);
    assert mem[..][o..k] == HeaderOf(c.size, c.flags, |c.key|);
    assert mem[..][k..d] == c.key;
    assert mem[..][d..d+|c.data|] == c.data;
    CellWritten(mem[..], o, c, leaf);
  }

  /** The other offsets close up; those below ptr go up by sz. */
  method SlidePtrs(ptrs: array<nat>, n: nat, indx: nat, ptr: nat, sz: nat)
    requires indx < n <= ptrs.Length
    modifies ptrs
    ensures ptrs[..n-1] == AllSlid(Split.Remove(old(ptrs[..n]), indx), ptr, sz)
  {
    ghost var p := ptrs[..n];
    var i, j := 0, 0;
    while i < n
      invariant 0 <= i <= n && j == if i <= indx then i else i - 1
      invariant forall k :: 0 <= k < j && k < indx ==> ptrs[k] == Slid(p[k], ptr, sz)
      invariant forall k :: indx <= k < j ==> ptrs[k] == Slid(p[k+1], ptr, sz)
      invariant forall k :: i <= k < n ==> ptrs[k] == p[k]
    {
      if i != indx {
        var q := ptrs[i];
        ptrs[j] := if q < ptr then q + sz else q;
        j := j + 1;
      }
      i := i + 1;
    }
    RemoveAt(p, indx);
    ghost var u := AllSlid(Split.Remove(p, indx), ptr, sz);
    forall k | 0 <= k < n - 1 ensures ptrs[k] == u[k] {
    }
  }

  /** memmove of the bytes from upper on, below ptr, up by sz. */
  method MoveUp(mem: array<Byte>, upper: nat, ptr: nat, sz: nat)
    requires upper <= ptr && ptr + sz <= mem.Length
    modifies mem
    ensures Shifted(old(mem[..]), mem[..], upper, ptr, sz) && Shifted(old(mem[..]), mem[..], ptr + sz, mem.Length, 0)
  {
    ghost var m := mem[..];
    var x := ptr;
    while x > upper
      invariant upper <= x <= ptr
      invariant forall k :: x + sz <= k < ptr + sz ==> mem[k] == m[k-sz]
      invariant forall k :: 0 <= k < x ==> mem[k] == m[k]
      invariant forall k :: ptr + sz <= k < mem.Length ==> mem[k] == m[k]
    {
      x := x - 1;
      mem[x+sz] := mem[x];
    }
  }

  lemma BranchSize(m: seq<Byte>, o: nat, n: nat, c: Cell)
    requires CellAt(m, o, n, c, false)
    ensures o + n <= |m| && o + Split.NODESIZE <= |m| && n == Split.NODESIZE + Split.Even(|c.key|)
            && Word(m, o + 6) == |c.key| && c.data == []
    ensures SizeAt(m, o) == c.size && Word(m, o + 4) == c.flags
  {
  }

  lemma NoMove(m: seq<Byte>, upper: nat, ptr: nat, z: nat, p: seq<nat>)
    requires upper <= ptr && ptr + z <= |m| && Split.NODESIZE <= z && AllAbove(p, 0)
    ensures Shifted(m, m, upper, ptr + Split.NODESIZE, 0) && Shifted(m, m, ptr + z, |m|, 0)
            && AllLowered(p, ptr, 0) == p
  {
  }

  /** Offsets and bytes move if the length of the key, rounded up, changes. */
  method MoveForKey(mem: array<Byte>, ptrs: array<nat>, n: nat, ptr: nat, upper: nat, delta: int, ghost z: nat,
                    ghost p: seq<nat>)
    requires n <= ptrs.Length && p == ptrs[..n] && AllAbove(p, delta) && upper <= ptr && delta <= upper
    requires Split.NODESIZE <= z && Split.NODESIZE <= z + delta && ptr + z <= mem.Length
    modifies mem, ptrs
    ensures ptrs[..n] == AllLowered(p, ptr, delta)
    ensures Shifted(old(mem[..]), mem[..], upper, ptr + Split.NODESIZE, -delta)
            && forall x :: ptr + z <= x < mem.Length ==> mem[x] == old(mem[x])
  {
    hide AllLowered, AllAbove, Shifted;
    if delta != 0 {
      LowerPtrs(ptrs, n, ptr, delta, p);
      MoveBy(mem, upper, ptr + Split.NODESIZE, delta);
    } else {
      NoMove(mem[..], upper, ptr, z, p);
    }
  }

  method LowerPtrs(ptrs: array<nat>, n: nat, ptr: nat, delta: int, ghost p: seq<nat>)
    requires n <= ptrs.Length && p == ptrs[..n] && AllAbove(p, delta)
    modifies ptrs
    ensures ptrs[..n] == AllLowered(p, ptr, delta)
  {
    var i := 0;
    while i < n
      invariant 0 <= i <= n
      invariant forall k :: 0 <= k < i ==> ptrs[k] == Lowered(p[k], ptr, delta)
      invariant forall k :: i <= k < n ==> ptrs[k] == p[k]
    {
      if ptrs[i] <= ptr {
        ptrs[i] := ptrs[i] - delta;
      }
      i := i + 1;
    }
    ghost var u := AllLowered(p, ptr, delta);
    forall k | 0 <= k < n ensures ptrs[k] == u[k] {
    }
  }

  /** memmove of the bytes from lo on, below hi, down by delta, or up if delta is negative. */
  method MoveBy(mem: array<Byte>, lo: nat, hi: nat, delta: int)
    requires lo <= hi <= mem.Length && delta <= lo && hi - delta <= mem.Length
    modifies mem
    ensures Shifted(old(mem[..]), mem[..], lo, hi, -delta)
    ensures forall x :: (if delta < 0 then hi - delta else hi) <= x < mem.Length ==> mem[x] == old(mem[x])
  {
    if delta < 0 {
      MoveUp(mem, lo, hi, -delta);
      AboveSame(old(mem[..]), mem[..], hi - delta);
    } else {
      var x := lo;
      while x < hi
        invariant lo <= x <= hi
        invariant forall k :: lo <= k < x ==> mem[k-delta] == old(mem[k])
        invariant forall k :: x <= k < mem.Length ==> mem[k] == old(mem[k])
      {
        mem[x-delta] := mem[x];
        x := x + 1;
      }
    }
  }

  lemma AboveSame(m: seq<Byte>, m': seq<Byte>, hi: nat)
    requires |m| == |m'| && Shifted(m, m', hi, |m|, 0)
    ensures forall x :: hi <= x < |m| ==> m'[x] == m[x]
  {
    forall x | hi <= x < |m| ensures m'[x] == m[x] { assert m'[x+0] == m[x]; }
  }

  /** The new length and bytes of the key, in a node that was moved to make room for them. */
  method PutKey(mem: array<Byte>, ptr: nat, delta: int, key: seq<Byte>, ghost m: seq<Byte>, ghost upper: nat,
                ghost z: nat, ghost c: Cell)
    requires |m| == mem.Length && |key| < 0x1_0000 && CellAt(m, ptr, z, c, false) && delta <= upper <= ptr
    requires z == Split.NODESIZE + Split.Even(|c.key|) && delta == Split.Even(|key|) - Split.Even(|c.key|)
    requires Shifted(m, mem[..], upper, ptr + Split.NODESIZE, -delta)
             && forall x :: ptr + z <= x < |m| ==> mem[x] == m[x]
    modifies mem
    ensures CellAt(mem[..], ptr - delta, z + delta, c.(key := key), false)
    ensures Shifted(m, mem[..], upper, ptr, -delta) && Shifted(m, mem[..], ptr + z, |m|, 0)
  {
    hide CellAt, Shifted;
    var o := ptr - delta;
    BranchSize(m, ptr, z, c);
    ghost var m1 := mem[..];
    WriteBytes(mem, o + 6, Bytes2(|key|));
    ghost var m2 := mem[..];
    WriteBytes(mem, o + Split.NODESIZE, key);
    ghost var m3 := mem[..];
    assert m2[o+6..o+8] == Bytes2(|key|) && m3[o+Split.NODESIZE..o+Split.NODESIZE+|key|] == key;
    assert m3[o+6] == m2[o+6..o+8][0] && m3[o+7] == m2[o+6..o+8][1];
    assert forall x :: 0 <= x < o + 6 ==> m3[x] == m1[x];
    KeyPut(m, m1, m3, ptr, delta, key, upper, z, c);
  }

  lemma KeyPut(m: seq<Byte>, m1: seq<Byte>, m3: seq<Byte>, ptr: nat, delta: int, key: seq<Byte>, upper: nat, z: nat,
               c: Cell)
    requires |m| == |m1| == |m3| && |key| < 0x1_0000 && CellAt(m, ptr, z, c, false) && delta <= upper <= ptr
    requires z == Split.NODESIZE + Split.Even(|c.key|) && delta == Split.Even(|key|) - Split.Even(|c.key|)
    requires Shifted(m, m1, upper, ptr + Split.NODESIZE, -delta)
    requires var o := ptr - delta;
             && o + Split.NODESIZE + |key| <= |m3| && (forall x :: 0 <= x < o + 6 ==> m3[x] == m1[x])
             && m3[o+6] == |key| % 256 && m3[o+7] == |key| / 256 && m3[o+Split.NODESIZE..o+Split.NODESIZE+|key|] == key
    requires forall x :: ptr + z <= x < |m| ==> m3[x] == m[x]
    ensures CellAt(m3, ptr - delta, z + delta, c.(key := key), false)
    ensures Shifted(m, m3, upper, ptr, -delta) && Shifted(m, m3, ptr + z, |m|, 0)
  {
    var o := ptr - delta;
    BranchSize(m, ptr, z, c);
    forall x | upper <= x < ptr + 6 ensures 0 <= x - delta < |m3| && m3[x-delta] == m[x] {
      assert m1[x + -delta] == m[x];
    }
    assert Shifted(m, m3, upper, ptr + 6, -delta);
    SixBytes(m, m3, upper, ptr, delta);
    assert Word(m3, o + 6) == |key|;
    hide Shifted;
    NewCell(m3, o, c, key);
  }

  lemma SixBytes(m: seq<Byte>, m': seq<Byte>, upper: nat, ptr: nat, delta: int)
    requires Shifted(m, m', upper, ptr + 6, -delta) && upper <= ptr && ptr + Split.NODESIZE <= |m| && 0 <= ptr - delta
             && ptr - delta + Split.NODESIZE <= |m'|
    ensures SizeAt(m', ptr - delta) == SizeAt(m, ptr) && Word(m', ptr - delta + 4) == Word(m, ptr + 4)
  {
    var a, b, c, d, e, f := m[ptr], m[ptr+1], m[ptr+2], m[ptr+3], m[ptr+4], m[ptr+5];
    var o := ptr - delta;
    assert m'[o] == a && m'[o+1] == b && m'[o+2] == c && m'[o+3] == d && m'[o+4] == e && m'[o+5] == f;
  }

  lemma NewCell(m: seq<Byte>, o: nat, c: Cell, key: seq<Byte>)
    requires o + Split.NODESIZE + Split.Even(|key|) <= |m| && c.data == []
    requires SizeAt(m, o) == c.size && Word(m, o + 4) == c.flags && Word(m, o + 6) == |key|
    requires m[o+Split.NODESIZE..o+Split.NODESIZE+|key|] == key
    ensures CellAt(m, o, Split.NODESIZE + Split.Even(|key|), c.(key := key), false)
  {
    hide Word, SizeAt;
  }

  lemma AboveUpper(p: seq<nat>, z: seq<nat>, upper: nat, top: nat)
    requires Packed(p, z, upper, top)
    ensures forall i :: 0 <= i < |p| ==> p[i] >= upper
  {
    forall i | 0 <= i < |p| ensures p[i] >= upper { assert Fits(p[i], z[i], upper, top); }
  }

  lemma PutAndTaken<T>(s: seq<T>, i: nat, x: T)
    requires i <= |s|
    ensures Split.Remove(Split.Insert(s, i, x), i) == s
  {
  }

  lemma SameOffsets(p: seq<nat>, i: nat, ofs: nat, n: nat)
    requires i <= |p| && forall j :: 0 <= j < |p| ==> p[j] >= ofs
    ensures AllSlid(Split.Remove(Split.Insert(p, i, ofs), i), ofs, n) == p
  {
    PutAndTaken(p, i, ofs);
  }

  /**
   * Deleting a node just added restores the page: what Add makes of the nodes, the offsets and the lower end of the
   * space, Del turns back.
   */
  lemma AddThenDel(cells: seq<Cell>, p: seq<nat>, z: seq<nat>, upper: nat, top: nat, indx: nat, c: Cell)
    requires Packed(p, z, upper, top) && |cells| == |p| && indx <= |p| && CellBytes(c) <= upper
    ensures var ofs := upper - CellBytes(c);
            && Split.Remove(Split.Insert(cells, indx, c), indx) == cells
            && AllSlid(Split.Remove(Split.Insert(p, indx, ofs), indx), ofs, CellBytes(c)) == p
            && Split.Insert(z, indx, CellBytes(c))[indx] == CellBytes(c)
            && Split.Remove(Split.Insert(z, indx, CellBytes(c)), indx) == z
  {
    AboveUpper(p, z, upper, top);
    assert |z| == |p|;
    hide Packed;
    PutAndTaken(cells, indx, c);
    PutAndTaken(z, indx, CellBytes(c));
    SameOffsets(p, indx, upper - CellBytes(c), CellBytes(c));
  }
}
