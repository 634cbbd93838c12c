/**
 * mdb_env_cwalk and mdb_env_copyfd1: copy the reachable pages in post-order under new numbers.
 * The output is append-only; the page at index i of the file has to carry page number i.
 */
module Compact {
  import opened Common
  import opened Tree

  /** A page of the copy.  Pointers are page numbers of the copy. */
  datatype OutPage =
    | OutMeta(pgno: nat)
    | OutLeaf(pgno: nat, nodes: seq<OutNode>)
    | OutBranch(pgno: nat, keys: seq<Key>, kids: seq<nat>)
    | OutOverflow(pgno: nat, pages: nat, data: string)
    | OutTail(pgno: nat)   // a later page of an overflow run, raw data without a header

  datatype OutNode = OutNode(key: Key, value: OutValue)

  datatype OutValue =
    | OutInline(data: string)
    | OutBig(pg: nat, pages: nat, data: string)
    | OutSub(root: nat, depth: nat)
    | OutSubEmpty

  type File = seq<OutPage>

  // ---- Sizes ----

  /** Number of pages reachable from a tree. */
  function Count(t: Tree): nat
    decreases t, 1
  {
    match t
    case Leaf(_, nodes) => NodesCount(nodes) + 1
    case Branch(_, _, kids) => KidsCount(kids) + 1
  }

  function KidsCount(ts: seq<Tree>): nat
    decreases ts, 0
  {
    if ts == [] then 0 else Count(ts[0]) + KidsCount(ts[1..])
  }

  function NodesCount(nodes: seq<Node>): nat
    decreases nodes, 0
  {
    if nodes == [] then 0 else NodesCount(nodes[..|nodes|-1]) + DataCount(nodes[|nodes|-1])
  }

  function DataCount(nd: Node): nat
    decreases nd, 0
  {
    match nd.value
    case Inline(_) => 0
    case Big(_, pages, _) => pages
    case SubDb(sub, _) => Count(sub)
    case SubEmpty => 0
  }

  // ---- What a copy has to look like ----

  /** Page pg of the file is a copy of t whose pointers all lead to pages written before it. */
  ghost predicate Copied(file: File, t: Tree, pg: nat)
    decreases t, 1
  {
    && pg < |file|
    && match t
       case Leaf(_, nodes) =>
         && file[pg].OutLeaf? && |file[pg].nodes| == |nodes|
         && forall i :: 0 <= i < |nodes| ==> NodeCopied(file, nodes[i], file[pg].nodes[i], pg)
       case Branch(_, keys, kids) =>
         && file[pg].OutBranch? && file[pg].keys == keys && |file[pg].kids| == |kids|
         && forall i :: 0 <= i < |kids| ==> file[pg].kids[i] < pg && Copied(file, kids[i], file[pg].kids[i])
  }

  ghost predicate NodeCopied(file: File, nd: Node, o: OutNode, pg: nat)
    decreases nd, 0
  {
    && o.key == nd.key
    && match nd.value
       case Inline(data) => o.value == OutInline(data)
       case Big(_, pages, data) =>
         && o.value.OutBig? && o.value.pages == pages && o.value.data == data
         && o.value.pg < o.value.pg + pages <= pg <= |file| && file[o.value.pg] == OutOverflow(o.value.pg, pages, data)
       case SubDb(sub, depth) =>
         o.value.OutSub? && o.value.depth == depth && o.value.root < pg && Copied(file, sub, o.value.root)
       case SubEmpty => o.value == OutSubEmpty
  }

  /** Writing more pages does not harm a copy. */
  lemma {:induction false} CopiedGrows(file: File, more: File, t: Tree, pg: nat)
    requires Copied(file, t, pg)
    ensures Copied(file + more, t, pg)
    decreases t, 1
  {
    var longer := file + more;
    assert longer[pg] == file[pg];
    match t
    case Leaf(_, nodes) =>
      forall i | 0 <= i < |nodes| ensures NodeCopied(longer, nodes[i], longer[pg].nodes[i], pg) {
        NodeCopiedGrows(file, more, nodes[i], file[pg].nodes[i], pg);
      }
    case Branch(_, _, kids) =>
      forall i | 0 <= i < |kids| ensures Copied(longer, kids[i], longer[pg].kids[i]) {
        CopiedGrows(file, more, kids[i], file[pg].kids[i]);
      }
  }

  lemma {:induction false} NodeCopiedGrows(file: File, more: File, nd: Node, o: OutNode, pg: nat)
    requires NodeCopied(file, nd, o, pg) && pg <= |file|
    ensures NodeCopied(file + more, nd, o, pg)
    decreases nd, 0
  {
    match nd.value
    case SubDb(sub, _) => CopiedGrows(file, more, sub, o.value.root);
    case _ =>
  }

  ghost predicate Numbered(file: File) {
    forall i :: 0 <= i < |file| ==> file[i].pgno == i
  }

  // ---- The walk ----

  /** No branch without children and no overflow run without pages, down into the sub-databases. */
  predicate GoodTree(t: Tree)
    decreases t, 1
  {
    match t
    case Leaf(_, nodes) => forall i :: 0 <= i < |nodes| ==> GoodNode(nodes[i])
    case Branch(_, keys, kids) => |keys| == |kids| > 0 && forall i :: 0 <= i < |kids| ==> GoodTree(kids[i])
  }

  predicate GoodNode(nd: Node)
    decreases nd, 0
  {
    match nd.value
    case SubDb(sub, _) => GoodTree(sub)
    case Big(_, pages, _) => pages > 0
    case _ => true
  }

  /** A page on the cursor stack: for a branch, the copy whose child pointers are being replaced. */
  datatype Frame = Frame(page: Tree, ki: nat, ptrs: seq<nat>)

  function Ptrs(kids: seq<Tree>): seq<nat> {
    seq(|kids|, i requires 0 <= i < |kids| => kids[i].pgno)
  }

  /** Pages still to be written for a frame whose child ki is accounted for above it. */
  function FrameLeft(f: Frame): nat {
    if f.page.Branch? && f.ki < |f.page.kids| then KidsCount(f.page.kids[f.ki+1..]) + 1 else Count(f.page)
  }

  function StackLeft(stack: seq<Frame>): nat {
    if stack == [] then 0 else StackLeft(stack[..|stack|-1]) + FrameLeft(stack[|stack|-1])
  }

  lemma StackLeftSnoc(stack: seq<Frame>, f: Frame)
    ensures StackLeft(stack + [f]) == StackLeft(stack) + FrameLeft(f)
  {
    assert (stack + [f])[..|stack|] == stack;
  }

  ghost predicate KidDone(file: File, f: Frame, j: nat)
    requires f.page.Branch? && j < |f.page.kids| == |f.ptrs|
  {
    f.ptrs[j] < |file| && Copied(file, f.page.kids[j], f.ptrs[j])
  }

  /** The children left of ki have been copied and point into the file. */
  ghost predicate FrameOk(file: File, f: Frame) {
    && GoodTree(f.page)
    && (f.page.Branch? ==>
          && f.ki < |f.page.kids| == |f.ptrs|
          && forall j :: 0 <= j < f.ki ==> KidDone(file, f, j))
  }

  ghost predicate StackOk(file: File, t: Tree, stack: seq<Frame>) {
    && (stack != [] ==> stack[0].page == t)
    && (forall i :: 0 <= i < |stack| ==> FrameOk(file, stack[i]))
    && (forall i :: 0 <= i < |stack| - 1 ==> Under(stack[i], stack[i+1].page))
  }

  ghost predicate Under(f: Frame, page: Tree) {
    f.page.Branch? && f.ki < |f.page.kids| && f.page.kids[f.ki] == page
  }

  lemma StackOkSnoc(file: File, t: Tree, stack: seq<Frame>, f: Frame)
    ensures StackOk(file, t, stack + [f]) <==>
            && StackOk(file, t, stack) && FrameOk(file, f)
            && (if stack == [] then f.page == t else Under(stack[|stack|-1], f.page))
  {
    hide FrameOk;
    var longer := stack + [f];
    assert forall i :: 0 <= i < |stack| ==> longer[i] == stack[i];
    assert longer[|stack|] == f;
    if StackOk(file, t, longer) && stack != [] { assert Under(longer[|stack|-1], longer[|stack|].page); }
  }

  lemma FrameGrows(file: File, more: File, f: Frame)
    requires FrameOk(file, f)
    ensures FrameOk(file + more, f)
  {
    if f.page.Branch? {
      forall j | 0 <= j < f.ki ensures KidDone(file + more, f, j) {
        assert KidDone(file, f, j);
        CopiedGrows(file, more, f.page.kids[j], f.ptrs[j]);
      }
    }
  }

  lemma StackGrows(file: File, more: File, t: Tree, stack: seq<Frame>)
    requires StackOk(file, t, stack)
    ensures StackOk(file + more, t, stack)
  {
    hide FrameOk, Under;
    forall i | 0 <= i < |stack| ensures FrameOk(file + more, stack[i]) {
      FrameGrows(file, more, stack[i]);
    }
  }

  /** Push page and, below it, its first child and so on down to a leaf. */
  method Descend(stack: seq<Frame>, page: Tree, ghost file: File, ghost t: Tree) returns (stack': seq<Frame>)
    requires StackOk(file, t, stack) && GoodTree(page)
    requires if stack == [] then page == t else Under(stack[|stack|-1], page)
    ensures StackOk(file, t, stack') && StackLeft(stack') == StackLeft(stack) + Count(page)
    ensures stack' != [] && stack'[|stack'|-1].page.Leaf?
  {
    hide StackOk, StackLeft, GoodTree, Count, Under, FrameOk;
    var mp := page;
    stack' := stack;
    while mp.Branch?
      invariant StackOk(file, t, stack') && GoodTree(mp)
      invariant if stack' == [] then mp == t else Under(stack'[|stack'|-1], mp)
      invariant StackLeft(stack') + Count(mp) == StackLeft(stack) + Count(page)
      decreases mp
    {
      FirstChild(file, mp);
      var f := Frame(mp, 0, Ptrs(mp.kids));
      StackOkSnoc(file, t, stack', f);
      StackLeftSnoc(stack', f);
      stack' := stack' + [f];
      mp := mp.kids[0];
    }
    LeafFrame(file, mp);
    StackOkSnoc(file, t, stack', Frame(mp, 0, []));
    StackLeftSnoc(stack', Frame(mp, 0, []));
    stack' := stack' + [Frame(mp, 0, [])];
  }

  lemma FirstChild(file: File, mp: Tree)
    requires mp.Branch? && GoodTree(mp)
    ensures |mp.kids| > 0 && GoodTree(mp.kids[0])
    ensures var f := Frame(mp, 0, Ptrs(mp.kids));
            FrameOk(file, f) && Under(f, mp.kids[0]) && FrameLeft(f) + Count(mp.kids[0]) == Count(mp)
  {
    assert mp.kids == [mp.kids[0]] + mp.kids[1..];
  }

  lemma LeafFrame(file: File, mp: Tree)
    requires mp.Leaf? && GoodTree(mp)
    ensures var f := Frame(mp, 0, []); FrameOk(file, f) && FrameLeft(f) == Count(mp)
  {
  }

  ghost predicate Extends(file: File, file': File, n: int) {
    file <= file' && |file'| == |file| + n && (Numbered(file) ==> Numbered(file'))
  }

  lemma ExtendsTrans(a: File, b: File, c: File, m: int, n: int)
    requires Extends(a, b, m) && Extends(b, c, n)
    ensures Extends(a, c, m + n)
  {
  }

  lemma NodeCopiedLater(file: File, file': File, nd: Node, o: OutNode)
    requires NodeCopied(file, nd, o, |file|) && file <= file'
    ensures NodeCopied(file', nd, o, |file'|)
  {
    assert file' == file + file'[|file|..];
    NodeCopiedGrows(file, file'[|file|..], nd, o, |file|);
  }

  /** An overflow run: the page with the header, then the rest of it. */
  method CopyOverflow(file: File, next: nat, pages: nat, data: string) returns (file': File, next': nat)
    requires pages > 0 && next == |file|
    ensures Extends(file, file', pages) && next' == |file'| && file'[next] == OutOverflow(next, pages, data)
  {
    file' := file + [OutOverflow(next, pages, data)];
    next' := next + pages;
    while |file'| < next'
      invariant Extends(file, file', |file'| - |file|) && |file| < |file'| <= next'
      invariant file'[next] == OutOverflow(next, pages, data)
    {
      file' := file' + [OutTail(|file'|)];
    }
  }

  /** The loop body of mdb_env_cwalk for one node of a leaf. */
  method CopyNode(file: File, next: nat, nd: Node) returns (file': File, next': nat, o: OutNode)
    requires next == |file| && GoodNode(nd)
    ensures Extends(file, file', DataCount(nd)) && next' == |file'|
    ensures NodeCopied(file', nd, o, |file'|)
    decreases DataCount(nd), 3
  {
    file', next' := file, next;
    match nd.value {
      case Inline(data) =>
        o := OutNode(nd.key, OutInline(data));
      case Big(_, pages, data) =>
        file', next' := CopyOverflow(file, next, pages, data);
        o := OutNode(nd.key, OutBig(next, pages, data));
      case SubDb(sub, depth) =>
        var root;
        file', next', root := Cwalk(file, next, sub);
        o := OutNode(nd.key, OutSub(root, depth));
      case SubEmpty =>
        o := OutNode(nd.key, OutSubEmpty);
    }
  }

  lemma NodesCountStep(nodes: seq<Node>, i: nat)
    requires i < |nodes|
    ensures NodesCount(nodes[..i+1]) == NodesCount(nodes[..i]) + DataCount(nodes[i])
    ensures DataCount(nodes[i]) <= NodesCount(nodes)
  {
    assert nodes[..i+1][..i] == nodes[..i] && nodes[..i+1][i] == nodes[i];
    NodesCountPrefix(nodes, i + 1);
  }

  lemma {:induction false} NodesCountPrefix(nodes: seq<Node>, i: nat)
    requires i <= |nodes|
    ensures NodesCount(nodes[..i]) <= NodesCount(nodes)
    decreases |nodes|
  {
    if i < |nodes| {
      var init := nodes[..|nodes|-1];
      assert init[..i] == nodes[..i];
      NodesCountPrefix(init, i);
    } else {
      assert nodes[..i] == nodes;
    }
  }

  ghost predicate NodesCopied(file: File, nodes: seq<Node>, outs: seq<OutNode>) {
    |outs| <= |nodes| && forall i :: 0 <= i < |outs| ==> NodeCopied(file, nodes[i], outs[i], |file|)
  }

  lemma NodesCopiedSnoc(file: File, file': File, nodes: seq<Node>, outs: seq<OutNode>, o: OutNode)
    requires NodesCopied(file, nodes, outs) && file <= file' && |outs| < |nodes|
    requires NodeCopied(file', nodes[|outs|], o, |file'|)
    ensures NodesCopied(file', nodes, outs + [o])
  {
    hide NodeCopied;
    forall i | 0 <= i < |outs| ensures NodeCopied(file', nodes[i], outs[i], |file'|) {
      NodeCopiedLater(file, file', nodes[i], outs[i]);
    }
  }

  method CopyNodes(file: File, next: nat, nodes: seq<Node>) returns (file': File, next': nat, outs: seq<OutNode>)
    requires next == |file| && forall i :: 0 <= i < |nodes| ==> GoodNode(nodes[i])
    ensures Extends(file, file', NodesCount(nodes)) && next' == |file'|
    ensures |outs| == |nodes| && NodesCopied(file', nodes, outs)
    decreases NodesCount(nodes), 4
  {
    file', next', outs := file, next, [];
    hide NodeCopied, GoodNode, DataCount;
    while |outs| < |nodes|
      invariant next' == |file'| && |outs| <= |nodes| && Extends(file, file', NodesCount(nodes[..|outs|]))
      invariant NodesCopied(file', nodes, outs)
    {
      ghost var before := file';
      NodesCountStep(nodes, |outs|);
      var o;
      file', next', o := CopyNode(file', next', nodes[|outs|]);
      ExtendsTrans(file, before, file', NodesCount(nodes[..|outs|]), DataCount(nodes[|outs|]));
      NodesCopiedSnoc(before, file', nodes, outs, o);
      outs := outs + [o];
    }
    assert nodes[..|outs|] == nodes;
  }

  lemma LeafCopied(file: File, leaf: Tree, outs: seq<OutNode>)
    requires leaf.Leaf? && |outs| == |leaf.nodes| && NodesCopied(file, leaf.nodes, outs)
    ensures Copied(file + [OutLeaf(|file|, outs)], leaf, |file|)
  {
    var out := OutLeaf(|file|, outs);
    var file' := file + [out];
    assert file'[|file|] == out;
    forall i | 0 <= i < |outs| ensures NodeCopied(file', leaf.nodes[i], outs[i], |file|) {
      NodeCopiedGrows(file, [out], leaf.nodes[i], outs[i], |file|);
    }
  }

  lemma BranchCopied(file: File, f: Frame)
    requires f.page.Branch? && FrameOk(file, f) && f.ki + 1 == |f.page.kids| && KidDone(file, f, f.ki)
    ensures Copied(file + [OutBranch(|file|, f.page.keys, f.ptrs)], f.page, |file|)
  {
    var out := OutBranch(|file|, f.page.keys, f.ptrs);
    var file' := file + [out];
    assert file'[|file|] == out;
    forall i | 0 <= i < |f.page.kids| ensures f.ptrs[i] < |file| && Copied(file', f.page.kids[i], f.ptrs[i]) {
      assert KidDone(file, f, i);
      CopiedGrows(file, [out], f.page.kids[i], f.ptrs[i]);
    }
  }

  /** The top of the stack is a leaf to copy, or a branch whose child ki was just written. */
  ghost predicate TopReady(file: File, stack: seq<Frame>) {
    stack != [] &&
    var f := stack[|stack|-1];
    f.page.Branch? ==> f.ki < |f.page.kids| == |f.ptrs| && KidDone(file, f, f.ki)
  }

  /** Take the written page off the stack and let its parent point to the copy. */
  method PopWritten(stack: seq<Frame>, page: Tree, pg: nat, ghost file: File,
                    ghost t: Tree) returns (stack': seq<Frame>)
    requires StackOk(file, t, stack) && stack != [] && Under(stack[|stack|-1], page)
    requires pg < |file| && Copied(file, page, pg)
    ensures StackOk(file, t, stack') && TopReady(file, stack') && StackLeft(stack') == StackLeft(stack)
  {
    var rest, p := stack[..|stack|-1], stack[|stack|-1];
    assert stack == rest + [p];
    StackOkSnoc(file, t, rest, p);
    hide Copied, StackOk;
    var p' := p.(ptrs := p.ptrs[p.ki := pg]);
    assert FrameOk(file, p') by {
      forall j | 0 <= j < p.ki ensures KidDone(file, p', j) { assert KidDone(file, p, j); }
    }
    StackOkSnoc(file, t, rest, p');
    StackLeftSnoc(rest, p);
    StackLeftSnoc(rest, p');
    stack' := rest + [p'];
  }

  /** One round of the loop: copy a leaf, write a finished branch, or go on to its next child. */
  method Step(file: File, next: nat, stack: seq<Frame>, ghost t: Tree)
    returns (file': File, next': nat, stack': seq<Frame>, done: bool)
    requires next == |file| && StackOk(file, t, stack) && TopReady(file, stack)
    ensures next' == |file'| && Extends(file, file', |file'| - |file|)
    ensures done ==> |file'| == |file| + StackLeft(stack) && |file'| > 0 && Copied(file', t, |file'| - 1)
    ensures !done ==>
              && StackOk(file', t, stack') && TopReady(file', stack')
              && |file'| + StackLeft(stack') == |file| + StackLeft(stack)
              && (|file'| > |file| || (stack[|stack|-1].page.Branch? && stack'[|stack'|-1].page.Leaf?))
    decreases StackLeft(stack), 1
  {
    var rest, f := stack[..|stack|-1], stack[|stack|-1];
    assert stack == rest + [f];
    StackOkSnoc(file, t, rest, f);
    StackLeftSnoc(rest, f);
    hide Copied, StackOk, StackLeft;
    if f.page.Branch? && f.ki + 1 < |f.page.kids| {
      file', next', done := file, next, false;
      stack' := NextChild(file, rest, f, t);
      return;
    }
    file', next' := WriteTop(file, next, f);
    ghost var more := file'[|file|..];
    assert file' == file + more;
    StackGrows(file, more, t, rest);
    done := rest == [];
    stack' := rest;
    if !done {
      stack' := PopWritten(rest, f.page, next' - 1, file', t);
    }
  }

  /** Append the copy of the page on top. */
  method WriteTop(file: File, next: nat, f: Frame) returns (file': File, next': nat)
    requires next == |file| && FrameOk(file, f)
    requires f.page.Branch? ==> f.ki + 1 == |f.page.kids| && KidDone(file, f, f.ki)
    ensures next' == |file'| && Extends(file, file', FrameLeft(f)) && FrameLeft(f) > 0
    ensures Copied(file', f.page, |file'| - 1)
    decreases FrameLeft(f), 0
  {
    hide Copied, NodeCopied;
    file', next' := file, next;
    var out;
    if f.page.Leaf? {
      var outs;
      file', next', outs := CopyNodes(file, next, f.page.nodes);
      LeafCopied(file', f.page, outs);
      out := OutLeaf(next', outs);
    } else {
      assert f.page.kids[f.ki+1..] == [];
      BranchCopied(file, f);
      out := OutBranch(next', f.page.keys, f.ptrs);
    }
    ExtendsTrans(file, file', file' + [out], FrameLeft(f) - 1, 1);
    file', next' := file' + [out], next' + 1;
  }

  method NextChild(ghost file: File, rest: seq<Frame>, f: Frame, ghost t: Tree) returns (stack': seq<Frame>)
    requires StackOk(file, t, rest + [f]) && f.page.Branch? && f.ki + 1 < |f.page.kids| == |f.ptrs|
             && KidDone(file, f, f.ki)
    ensures StackOk(file, t, stack') && StackLeft(stack') == StackLeft(rest + [f])
    ensures stack' != [] && stack'[|stack'|-1].page.Leaf?
  {
    StackOkSnoc(file, t, rest, f);
    StackLeftSnoc(rest, f);
    hide Copied, StackOk, StackLeft;
    var f' := f.(ki := f.ki + 1);
    var kids := f.page.kids;
    assert FrameOk(file, f') by {
      forall j | 0 <= j < f'.ki ensures KidDone(file, f', j) { assert KidDone(file, f, j); }
    }
    assert kids[f.ki+1..] == [kids[f.ki+1]] + kids[f'.ki+1..];
    StackOkSnoc(file, t, rest, f');
    StackLeftSnoc(rest, f');
    assert (rest + [f'])[|rest + [f']| - 1] == f';
    stack' := Descend(rest + [f'], kids[f.ki+1], file, t);
  }

  /** Depth-first copy of a tree; the new root is the last page written. */
  method Cwalk(file: File, next: nat, t: Tree) returns (file': File, next': nat, root: nat)
    requires next == |file| && GoodTree(t)
    ensures Extends(file, file', Count(t)) && next' == |file'| && root + 1 == |file'| && Copied(file', t, root)
    decreases Count(t), 2
  {
    file', next' := file, next;
    var stack := Descend([], t, file, t);
    hide Copied, FrameLeft, StackOk, Count;
    while true
      invariant next' == |file'| && Extends(file, file', |file'| - |file|)
      invariant StackOk(file', t, stack) && TopReady(file', stack)
      invariant |file'| + StackLeft(stack) == |file| + Count(t)
      decreases StackLeft(stack), stack[|stack|-1].page.Branch?
    {
      var done;
      file', next', stack, done := Step(file', next', stack, t);
      if done {
        return file', next', next' - 1;
      }
    }
  }

  // ---- mdb_env_copyfd1 ----

  datatype Root = Invalid | At(pgno: nat)

  /**
   * Copy the main tree.  The second meta page is filled in before the walk, so the root number it
   * holds is a prediction: mt_next_pgno less the free pages and the pages of the freeDB, minus one.
   */
  method CopyCompact(main: Option<Tree>, nextPgno: nat, freecount: nat)
    returns (file: File, predicted: Root, lastPg: int, actual: Root)
    requires main.Some? ==> GoodTree(main.value)
    ensures Numbered(file) && |file| == NUM_METAS + (if main.Some? then Count(main.value) else 0)
    ensures main.None? ==> actual == Invalid
    ensures main.Some? ==> actual == At(|file| - 1) && Copied(file, main.value, |file| - 1)
    ensures predicted == actual && lastPg + 1 == |file| <==> nextPgno == |file| + freecount
  {
    lastPg := nextPgno - freecount - 1;
    predicted := if lastPg > NUM_METAS - 1 then At(lastPg) else Invalid;
    file := [OutMeta(0), OutMeta(1)];
    actual := Invalid;
    if main.Some? {
      var next, root;
      file, next, root := Cwalk(file, NUM_METAS, main.value);
      actual := At(root);
    }
  }
}
