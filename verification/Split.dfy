/**
 * mdb_page_split: where a full page is cut, and that both halves fit.  Sizes are bytes a node takes
 * on a page, its slot in the pointer array included; they are even (mdb_leaf_size, mdb_branch_size).
 */
module Split {
  const NODESIZE := 8
  const SLOT := 2              // sizeof(indx_t)
  const NULL_NODE := 10        // a branch node without key, as the first one on its page

  function Sum(s: seq<nat>): nat {
    if s == [] then 0 else Sum(s[..|s|-1]) + s[|s|-1]
  }

  lemma {:induction false} SumConcat(a: seq<nat>, b: seq<nat>)
    ensures Sum(a + b) == Sum(a) + Sum(b)
  {
    if b == [] {
      assert a + b == a;
    } else {
      assert (a + b)[..|a + b| - 1] == a + b[..|b|-1];
      SumConcat(a, b[..|b|-1]);
    }
  }

  lemma SumSplit(s: seq<nat>, i: nat)
    requires i <= |s|
    ensures Sum(s) == Sum(s[..i]) + Sum(s[i..])
    ensures i < |s| ==> Sum(s[..i+1]) == Sum(s[..i]) + s[i] && Sum(s[i..]) == s[i] + Sum(s[i+1..])
  {
    hide Sum;
    assert s == s[..i] + s[i..];
    SumConcat(s[..i], s[i..]);
    if i < |s| {
      SumSnoc(s, i);
      assert s[i..] == [s[i]] + s[i+1..];
      SumConcat([s[i]], s[i+1..]);
      SumOne(s[i]);
    }
  }

  lemma SumSnoc(s: seq<nat>, i: nat)
    requires i < |s|
    ensures Sum(s[..i+1]) == Sum(s[..i]) + s[i]
  {
    assert s[..i+1][..i] == s[..i];
  }

  lemma SumOne(x: nat)
    ensures Sum([x]) == x && Sum([]) == 0
  {
    assert [x][..0] == [];
  }

  /** Exchanging the first size. */
  lemma SumHead(c: seq<nat>, x: nat)
    requires c != []
    ensures Sum([x] + c[1..]) + c[0] == Sum(c) + x
  {
    SumConcat([x], c[1..]);
    SumConcat([c[0]], c[1..]);
    assert c == [c[0]] + c[1..] && [x][..0] == [] && [c[0]][..0] == [];
    assert Sum([x]) == Sum([]) + x && Sum([c[0]]) == Sum([]) + c[0];
  }

  /** s with x put at index i. */
  function Insert<T>(s: seq<T>, i: nat, x: T): seq<T>
    requires i <= |s|
  {
    s[..i] + [x] + s[i..]
  }

  /** s without what is at index i. */
  function Remove<T>(s: seq<T>, i: nat): seq<T>
    requires i < |s|
  {
    s[..i] + s[i+1..]
  }

  /** Nodes start at even offsets. */
  function Even(n: nat): (r: nat)
    ensures r % 2 == 0 && n <= r <= n + 1
  {
    n + n % 2
  }

  /** What the second half takes: a branch page drops the key of its first node. */
  function RightSize(c: seq<nat>, leaf: bool): nat {
    if c == [] || leaf then Sum(c) else NULL_NODE + Sum(c[1..])
  }

  ghost predicate Fits(c: seq<nat>, split: nat, leaf: bool, pmax: nat) {
    0 < split < |c| && Sum(c[..split]) <= pmax && RightSize(c[split..], leaf) <= pmax
  }

  /** A page with nodes of sizes sz that has no room for one more of size nsize. */
  ghost predicate FullPage(sz: seq<nat>, nsize: nat, newindx: nat, pmax: nat) {
    && newindx <= |sz|
    && (forall i :: 0 <= i < |sz| ==> NULL_NODE <= sz[i] && 2 * sz[i] <= pmax)
    && NULL_NODE <= nsize && 2 * nsize <= pmax
    && Sum(sz) <= pmax < Sum(sz) + nsize
  }

  lemma AtLeastTwo(sz: seq<nat>, nsize: nat, newindx: nat, pmax: nat)
    requires FullPage(sz, nsize, newindx, pmax)
    ensures |sz| >= 2
  {
    if |sz| <= 1 { SumSmall(sz, pmax / 2); }
  }

  lemma SumSmall(s: seq<nat>, b: nat)
    requires |s| <= 1 && forall i :: 0 <= i < |s| ==> s[i] <= b
    ensures Sum(s) <= b
  {
    if |s| == 1 { assert s[..0] == []; }
  }

  lemma InsertSum(sz: seq<nat>, i: nat, x: nat)
    requires i <= |sz|
    ensures Sum(Insert(sz, i, x)) == Sum(sz) + x
  {
    SumConcat(sz[..i] + [x], sz[i..]);
    SumConcat(sz[..i], [x]);
    SumSplit(sz, i);
    assert Sum([x]) == Sum([]) + x by { assert [x][..0] == []; }
  }

  lemma RightSizeBound(c: seq<nat>, leaf: bool)
    requires c != [] ==> c[0] >= NULL_NODE
    ensures RightSize(c, leaf) <= Sum(c)
  {
    if c != [] { SumSplit(c, 0); assert c[0..] == c; }
  }

  /** Cutting where the running total passes the page size leaves two halves that fit. */
  lemma CutAtOverflow(c: seq<nat>, i: nat, half: nat, leaf: bool, pmax: nat)
    requires i < |c| && Sum(c) <= pmax + half && 2 * half <= pmax
    requires c[i] <= half && c[i] >= NULL_NODE
    ensures Sum(c[..i+1]) > pmax ==> RightSize(c[i..], leaf) <= pmax
    ensures Sum(c[i..]) > pmax ==> Sum(c[..i+1]) <= pmax
  {
    SumSplit(c, i);
    SumSplit(c, i + 1);
    RightSizeBound(c[i..], leaf);
  }

  /** Nodes of at most a quarter of a page, as the keys on branch pages are. */
  ghost predicate Quarter(c: seq<nat>, pmax: nat) {
    forall i :: 0 <= i < |c| ==> 4 * c[i] <= pmax
  }

  lemma {:induction false} QuarterSum(c: seq<nat>, pmax: nat)
    requires Quarter(c, pmax)
    ensures 4 * Sum(c) <= |c| * pmax
  {
    if c != [] {
      QuarterSum(c[..|c|-1], pmax);
      assert |c| * pmax == (|c| - 1) * pmax + pmax;
    }
  }

  lemma FourFit(c: seq<nat>, pmax: nat)
    requires Quarter(c, pmax) && |c| <= 4
    ensures Sum(c) <= pmax
  {
    QuarterSum(c, pmax);
    assert |c| * pmax <= 4 * pmax;
  }

  ghost predicate Searched(nkeys: nat, nsize: nat, newindx: nat, pmax: nat) {
    nkeys < 20 || nsize > pmax / 16 || newindx >= nkeys
  }

  /** Facts about the inserted sequence that both directions of the search need. */
  lemma FullInserted(sz: seq<nat>, nsize: nat, newindx: nat, pmax: nat)
    requires FullPage(sz, nsize, newindx, pmax)
    ensures var c := Insert(sz, newindx, nsize);
            && |c| == |sz| + 1 && |sz| >= 2 && Sum(c) <= pmax + pmax / 2
            && forall i :: 0 <= i < |c| ==> NULL_NODE <= c[i] <= pmax / 2
  {
    AtLeastTwo(sz, nsize, newindx, pmax);
    InsertSum(sz, newindx, nsize);
  }

  lemma InsertSlices(sz: seq<nat>, newindx: nat, x: nat, i: nat)
    requires newindx <= |sz| && i <= |sz|
    ensures newindx < i ==> Insert(sz, newindx, x)[i..] == sz[i-1..]
    ensures i <= newindx ==> Insert(sz, newindx, x)[..i] == sz[..i]
    ensures |Insert(sz, newindx, x)| == |sz| + 1
  {
  }

  /** Both ends of the search stop with a part that holds old nodes only, or the last two nodes. */
  lemma OldNodesFit(sz: seq<nat>, nsize: nat, newindx: nat, pmax: nat, i: nat, leaf: bool)
    requires FullPage(sz, nsize, newindx, pmax) && i <= |sz|
    ensures newindx < i ==> Sum(Insert(sz, newindx, nsize)[i..]) <= pmax
    ensures i <= newindx ==> Sum(Insert(sz, newindx, nsize)[..i]) <= pmax
  {
    InsertSlices(sz, newindx, nsize, i);
    SumSplit(sz, if newindx < i then i - 1 else i);
  }

  /** The first index from i on where the nodes up to and including it pass the page size, or the last before k. */
  ghost function FirstOver(c: seq<nat>, i: nat, k: nat, pmax: nat): (r: nat)
    requires i < k <= |c|
    ensures i <= r < k
    decreases k - i
  {
    if i == k - 1 || Sum(c[..i+1]) > pmax then i else FirstOver(c, i + 1, k, pmax)
  }

  /** The same from the right: the last index up to i, or the one after k. */
  ghost function LastOver(c: seq<nat>, i: nat, k: nat, pmax: nat): (r: nat)
    requires k < i < |c|
    ensures k < r <= i
    decreases i
  {
    if i == k + 1 || Sum(c[i..]) > pmax then i else LastOver(c, i - 1, k, pmax)
  }

  function Min(a: nat, b: nat): nat { if a < b then a else b }

  /** Where a page that has become too full by its node newindx is cut; c are the sizes of all its nodes. */
  ghost function CutIndex(c: seq<nat>, newindx: nat, leaf: bool, pmax: nat): (r: nat)
    requires newindx < |c| && |c| >= 3
    ensures 0 <= r < |c|
  {
    var nkeys, half := |c| - 1, |c| / 2;
    if !Searched(nkeys, c[newindx], newindx, pmax) then half
    else if newindx >= nkeys then FirstOver(c, 0, nkeys, pmax)
    else if newindx <= half then FirstOver(c, 0, if leaf then half + 2 else half + 1, pmax)
    else Min(LastOver(c, nkeys, half - 1, pmax) + 1, nkeys)   // no node is larger than a page
  }

  /** The loop that adds up nodes from the left, up to but not including index k. */
  method SearchForward(ghost sz: seq<nat>, c: seq<nat>, newindx: nat, nsize: nat, k: nat, leaf: bool, pmax: nat)
    returns (split: nat)
    requires FullPage(sz, nsize, newindx, pmax) && c == Insert(sz, newindx, nsize)
    requires 1 < k <= |sz| + 1
    requires (k == |sz| && newindx == |sz|) || (newindx + 1 < k && leaf) || (newindx < k && !leaf)
    ensures Fits(c, split, leaf, pmax) && split < k && split == FirstOver(c, 0, k, pmax)
    ensures Quarter(c, pmax) ==> split >= 4 || split == k - 1
  {
    hide Sum, Insert, FullPage;
    FullInserted(sz, nsize, newindx, pmax);
    var i, psize := 0, 0;
    SumOne(0);
    assert c[..0] == [];
    while true
      invariant 0 <= i < k && psize == Sum(c[..i]) <= pmax && FirstOver(c, 0, k, pmax) == FirstOver(c, i, k, pmax)
      decreases k - i
    {
      SumSplit(c, i);
      psize := psize + c[i];
      if psize > pmax || i == k - 1 {
        break;
      }
      i := i + 1;
    }
    CutAtOverflow(c, i, pmax / 2, leaf, pmax);
    LastPartFits(sz, c, newindx, nsize, k, leaf, pmax);
    if Quarter(c, pmax) && i < 4 {
      FourFit(c[..i+1], pmax);
    }
    split := i;
  }

  /** Stopping at k - 1 without an overflow: what is left for the second half fits. */
  lemma LastPartFits(sz: seq<nat>, c: seq<nat>, newindx: nat, nsize: nat, k: nat, leaf: bool, pmax: nat)
    requires FullPage(sz, nsize, newindx, pmax) && c == Insert(sz, newindx, nsize)
    requires 1 < k <= |sz| + 1
    requires (k == |sz| && newindx == |sz|) || (newindx + 1 < k && leaf) || (newindx < k && !leaf)
    ensures RightSize(c[k-1..], leaf) <= pmax
  {
    FullInserted(sz, nsize, newindx, pmax);
    RightSizeBound(c[k-1..], leaf);
    if k == |sz| && newindx == |sz| {
      assert c[k-1..] == [c[k-1], c[k]];
      SumPair(c[k-1], c[k]);
    } else if leaf {
      OldNodesFit(sz, nsize, newindx, pmax, k - 1, leaf);
    } else {
      BranchPartFits(sz, c, newindx, nsize, k, pmax);
    }
  }

  lemma BranchPartFits(sz: seq<nat>, c: seq<nat>, newindx: nat, nsize: nat, k: nat, pmax: nat)
    requires FullPage(sz, nsize, newindx, pmax) && c == Insert(sz, newindx, nsize)
    requires 1 < k <= |sz| + 1 && newindx < k
    ensures RightSize(c[k-1..], false) <= pmax
  {
    assert c[k-1..][1..] == c[k..];
    assert c[k..] == sz[k-1..];
    SumSplit(sz, k - 1);
    FirstIsNode(sz, k - 1, nsize, newindx, pmax);
  }

  lemma SumPair(x: nat, y: nat)
    ensures Sum([x, y]) == x + y
  {
    assert [x, y] == [x] + [y];
    SumConcat([x], [y]);
    assert [x][..0] == [] && [y][..0] == [];
  }

  lemma FirstIsNode(sz: seq<nat>, i: nat, nsize: nat, newindx: nat, pmax: nat)
    requires FullPage(sz, nsize, newindx, pmax) && 0 < i <= |sz|
    ensures Sum(sz[..i]) >= NULL_NODE
  {
    SumSplit(sz[..i], 0);
    assert sz[..i][0..] == sz[..i] && sz[..i][..0] == [];
  }

  /** The loop that adds up nodes from the right, down to but not including index k. */
  method SearchBackward(ghost sz: seq<nat>, c: seq<nat>, newindx: nat, nsize: nat, k: nat, leaf: bool, pmax: nat)
    returns (split: nat)
    requires FullPage(sz, nsize, newindx, pmax) && c == Insert(sz, newindx, nsize)
    requires k + 1 < newindx < |sz|
    ensures Fits(c, split, leaf, pmax) && k + 2 <= split < |sz| && split == LastOver(c, |sz|, k, pmax) + 1
  {
    hide Sum, Insert, FullPage;
    FullInserted(sz, nsize, newindx, pmax);
    var i, psize := |c| - 1, 0;
    SumOne(0);
    assert c[i+1..] == [];
    while true
      invariant k < i <= |sz| && psize == Sum(c[i+1..]) <= pmax
      invariant LastOver(c, |sz|, k, pmax) == LastOver(c, i, k, pmax)
      decreases i
    {
      SumSplit(c, i);
      psize := psize + c[i];
      if psize > pmax || i == k + 1 {
        break;
      }
      i := i - 1;
    }
    CutAtOverflow(c, i, pmax / 2, leaf, pmax);
    OldNodesFit(sz, nsize, newindx, pmax, k + 2, leaf);
    RightSizeBound(c[i+1..], leaf);
    split := i + 1;
    LastTwoFit(c, pmax);
  }

  lemma LastTwoFit(c: seq<nat>, pmax: nat)
    requires |c| >= 2 && 2 * c[|c|-1] <= pmax && 2 * c[|c|-2] <= pmax
    ensures Sum(c[|c|-1..]) <= pmax && Sum(c[|c|-2..]) <= pmax
  {
    var n := |c|;
    assert c[n-2..] == [c[n-2], c[n-1]] && c[n-1..] == [c[n-1]];
    SumPair(c[n-2], c[n-1]);
    assert [c[n-1]][..0] == [];
  }

  lemma AtLeastFour(sz: seq<nat>, nsize: nat, newindx: nat, pmax: nat)
    requires FullPage(sz, nsize, newindx, pmax) && Quarter(Insert(sz, newindx, nsize), pmax)
    ensures |sz| >= 4
  {
    InsertSum(sz, newindx, nsize);
    if |sz| < 4 { FourFit(Insert(sz, newindx, nsize), pmax); }
  }

  /** The choice of split_indx, for a page that is not split by MDB_APPEND. */
  method SplitPoint(sz: seq<nat>, nsize: nat, newindx: nat, leaf: bool, pmax: nat) returns (split: nat)
    requires FullPage(sz, nsize, newindx, pmax)
    ensures 0 < split <= |sz|
    ensures Searched(|sz|, nsize, newindx, pmax) ==> Fits(Insert(sz, newindx, nsize), split, leaf, pmax)
    ensures !Searched(|sz|, nsize, newindx, pmax) ==> split == (|sz| + 1) / 2
    ensures |Insert(sz, newindx, nsize)| == |sz| + 1 >= 3
    ensures split == CutIndex(Insert(sz, newindx, nsize), newindx, leaf, pmax)
    ensures Quarter(Insert(sz, newindx, nsize), pmax) ==> 2 <= split < |sz|
  {
    hide Sum, FirstOver, LastOver, CutIndex, Insert, Quarter, RightSize;
    FullInserted(sz, nsize, newindx, pmax);
    var nkeys, c := |sz|, Insert(sz, newindx, nsize);
    InsertedAt(sz, newindx, nsize);
    CutIs(c, newindx, leaf, pmax);
    if Quarter(c, pmax) { AtLeastFour(sz, nsize, newindx, pmax); }
    split := (nkeys + 1) / 2;
    if nkeys < 20 || nsize > pmax / 16 || newindx >= nkeys {
      if newindx <= split || newindx >= nkeys {
        var k := if newindx >= nkeys then nkeys else split + 1 + (if leaf then 1 else 0);
        split := SearchForward(sz, c, newindx, nsize, k, leaf, pmax);
      } else {
        split := SearchBackward(sz, c, newindx, nsize, split - 1, leaf, pmax);
      }
    }
  }

  lemma InsertedAt(sz: seq<nat>, i: nat, x: nat)
    requires i <= |sz|
    ensures |Insert(sz, i, x)| == |sz| + 1 && Insert(sz, i, x)[i] == x
  {
  }

  lemma CutIs(c: seq<nat>, newindx: nat, leaf: bool, pmax: nat)
    requires newindx < |c| && |c| >= 3
    ensures var nkeys, half, cut := |c| - 1, |c| / 2, CutIndex(c, newindx, leaf, pmax);
            if !Searched(nkeys, c[newindx], newindx, pmax) then cut == half
            else if newindx >= nkeys then cut == FirstOver(c, 0, nkeys, pmax)
            else if newindx <= half then cut == FirstOver(c, 0, if leaf then half + 2 else half + 1, pmax)
            else cut == Min(LastOver(c, nkeys, half - 1, pmax) + 1, nkeys)
  {
  }

  // ---- Plain halving: no search, no guarantee ----

  /** What the first node of the second half saves on a branch page by losing its key. */
  function KeySaved(sz: seq<nat>, nsize: nat, newindx: nat, split: nat, leaf: bool): int {
    if leaf || newindx < split then 0
    else (if newindx > split && split < |sz| then sz[split] else nsize) - NULL_NODE
  }

  /**
   * A cut at any point, so also one in the middle that is not searched for, works exactly if the new node
   * fits into the half it goes to.
   */
  lemma HalvingFitsIff(sz: seq<nat>, nsize: nat, newindx: nat, pmax: nat, split: nat, leaf: bool)
    requires FullPage(sz, nsize, newindx, pmax) && 0 < split <= |sz|
    ensures Fits(Insert(sz, newindx, nsize), split, leaf, pmax) <==>
            nsize <= pmax - Sum(sz) + KeySaved(sz, nsize, newindx, split, leaf)
                     + (if newindx >= split then Sum(sz[..split]) else Sum(sz[split-1..]))
  {
    hide Insert, Sum, RightSize, KeySaved;
    var c := Insert(sz, newindx, nsize);
    FullInserted(sz, nsize, newindx, pmax);
    InsertSum(sz, newindx, nsize);
    InsertSlices(sz, newindx, nsize, split);
    OldNodesFit(sz, nsize, newindx, pmax, split, leaf);
    SecondHalf(sz, nsize, newindx, pmax, split, leaf);
    SumSplit(c, split);
    SumSplit(sz, if newindx >= split then split else split - 1);
    RightSizeBound(c[split..], leaf);
  }

  lemma SecondHalf(sz: seq<nat>, nsize: nat, newindx: nat, pmax: nat, split: nat, leaf: bool)
    requires FullPage(sz, nsize, newindx, pmax) && 0 < split <= |sz|
    ensures var c := Insert(sz, newindx, nsize);
            |c| == |sz| + 1 && (newindx >= split ==>
                RightSize(c[split..], leaf) == Sum(c[split..]) - KeySaved(sz, nsize, newindx, split, leaf))
            && (newindx < split ==> KeySaved(sz, nsize, newindx, split, leaf) == 0)
  {
    var c := Insert(sz, newindx, nsize);
    assert |c| == |sz| + 1;
    assert newindx > split ==> c[split] == sz[split];
    assert newindx == split ==> c[split] == nsize;
    hide Insert, Sum, FullPage;
    SumSplit(c, split);
    assert c[split..][1..] == c[split+1..];
  }

  lemma {:induction false} SumConst(n: nat, x: nat)
    ensures Sum(seq(n, i => x)) == n * x
  {
    if n > 0 {
      assert seq(n, i => x)[..n-1] == seq(n - 1, i => x);
      SumConst(n - 1, x);
    }
  }

  /**
   * A 4096-byte page where halving fails: ten nodes of 12 bytes, ten of 396, and a node of 200 bytes
   * for slot 15.  The second half would need 4160 of 4080 bytes, so mdb_node_add returns MDB_PAGE_FULL.
   */
  lemma HalvingCanFail() returns (sz: seq<nat>, nsize: nat, newindx: nat, pmax: nat)
    ensures FullPage(sz, nsize, newindx, pmax) && !Searched(|sz|, nsize, newindx, pmax)
    ensures !Fits(Insert(sz, newindx, nsize), (|sz| + 1) / 2, true, pmax)
    ensures sz == seq(10, i => 12) + seq(10, i => 396) && nsize == 200 && newindx == 15 && pmax == 4080
  {
    var small, large := seq(10, i => 12), seq(10, i => 396);
    sz, nsize, newindx, pmax := small + large, 200, 15, 4080;
    SumConst(10, 12);
    SumConst(10, 396);
    SumConcat(small, large);
    assert sz[..10] == small;
    HalvingFitsIff(sz, nsize, newindx, pmax, 10, true);
  }

  /** A branch page where it fails: eleven nodes of 12 bytes, seven of 522, two of 146, and one of 254 for slot 15. */
  lemma HalvingCanFailOnBranch() returns (sz: seq<nat>, nsize: nat, newindx: nat, pmax: nat)
    ensures FullPage(sz, nsize, newindx, pmax) && !Searched(|sz|, nsize, newindx, pmax)
    ensures Quarter(Insert(sz, newindx, nsize), pmax)
    ensures !Fits(Insert(sz, newindx, nsize), (|sz| + 1) / 2, false, pmax)
  {
    var a, b, c := seq(11, i => 12), seq(7, i => 522), seq(2, i => 146);
    sz, nsize, newindx, pmax := a + b + c, 254, 15, 4080;
    SumConst(11, 12);
    SumConst(7, 522);
    SumConst(2, 146);
    SumConst(10, 12);
    SumConcat(a, b);
    SumConcat(a + b, c);
    assert sz[..10] == seq(10, i => 12);
    HalvingFitsIff(sz, nsize, newindx, pmax, 10, false);
  }

  /**
   * A branch page where it fails for a separator that takes the place of a shorter one, which had fitted: a first node
   * without key, ten of 12 bytes, eight of 436 and one of 448, and one of 254 in slot 15 for one of 12.
   */
  lemma HalvingCanFailOnSeparator() returns (sz: seq<nat>, nsize: nat, newindx: nat, pmax: nat)
    ensures FullPage(sz, nsize, newindx, pmax) && !Searched(|sz|, nsize, newindx, pmax)
    ensures Quarter(Insert(sz, newindx, nsize), pmax) && Sum(sz) + 12 <= pmax
    ensures !Fits(Insert(sz, newindx, nsize), (|sz| + 1) / 2, false, pmax)
    ensures sz == [NULL_NODE] + seq(10, i => 12) + seq(8, i => 436) + [448]
            && nsize == 254 && newindx == 15 && pmax == 4080
  {
    var a, b, c, d := [NULL_NODE], seq(10, i => 12), seq(8, i => 436), [448];
    sz, nsize, newindx, pmax := a + b + c + d, 254, 15, 4080;
    SumOne(NULL_NODE);
    SumOne(448);
    SumConst(10, 12);
    SumConst(8, 436);
    SumConst(9, 12);
    SumConcat(a, b);
    SumConcat(a + b, c);
    SumConcat(a + b + c, d);
    SumConcat(a, seq(9, i => 12));
    assert sz[..10] == a + seq(9, i => 12);
    hide Sum;
    HalvingFitsIff(sz, nsize, newindx, pmax, 10, false);
  }

  // ---- Moving the nodes ----

  /** Adding the nodes of src one by one, each only if it has room. */
  method AddNodes<T>(dst: seq<T>, src: seq<T>, sizes: seq<nat>, left: nat) returns (ok: bool, out: seq<T>)
    requires |src| == |sizes|
    ensures ok <==> Sum(sizes) <= left
    ensures ok ==> out == dst + src
  {
    out := dst;
    var i, room := 0, left;
    ok := true;
    assert sizes[..0] == [] && src[..0] == [];
    while i < |src|
      invariant i <= |src| && room >= 0 && out == dst + src[..i] && room + Sum(sizes[..i]) == left
    {
      SumSplit(sizes, i);
      SumSplit(sizes, i + 1);
      if sizes[i] > room {
        return false, out;
      }
      room := room - sizes[i];
      out := out + [src[i]];
      i := i + 1;
    }
    assert sizes[..i] == sizes && src[..i] == src;
  }

  /**
   * Nodes from split on go to the new page, the first of them without its key on a branch page, then the
   * others to a copy of the old one.  Adding a node that does not fit is MDB_PAGE_FULL; c holds the sizes
   * of the nodes in all.
   */
  method MoveNodes<T>(all: seq<T>, c: seq<nat>, split: nat, leaf: bool, pmax: nat)
    returns (ok: bool, left: seq<T>, right: seq<T>)
    requires |all| == |c| && 0 < split < |all|
    ensures ok <==> Fits(c, split, leaf, pmax)
    ensures ok ==> left == all[..split] && right == all[split..]
  {
    left := [];
    var sizes := if leaf then c[split..] else [NULL_NODE] + c[split..][1..];
    ok, right := AddNodes([], all[split..], sizes, pmax);
    RightSum(c[split..], leaf);
    if ok {
      ok, left := AddNodes([], all[..split], c[..split], pmax);
    }
  }

  lemma RightSum(c: seq<nat>, leaf: bool)
    requires c != []
    ensures RightSize(c, leaf) == Sum(if leaf then c else [NULL_NODE] + c[1..])
  {
    SumHead(c, NULL_NODE);
    SumSplit(c, 0);
    assert c[0..] == c;
  }
}
