/** The finite map a sorted sequence of entries stands for. */
module Contents {
  import opened Common
  import opened Tree
  import opened Search
  import Split

  /** What a reader gets for a key: its data, or a sub-database. */
  function Data(v: Value): Option<string> {
    match v
    case Inline(data) => Some(data)
    case Big(_, _, data) => Some(data)
    case SubDb(_, _) => None
    case SubEmpty => None
  }

  type Mapping = map<real, Option<string>>

  function ToMap(s: seq<Node>): Mapping {
    if s == [] then map[] else ToMap(s[..|s|-1])[s[|s|-1].key.rank := Data(s[|s|-1].value)]
  }

  ghost predicate HasKey(s: seq<Node>, k: real, i: nat) {
    i < |s| && s[i].key.rank == k
  }

  lemma {:induction false} MapDomain(s: seq<Node>, k: real)
    ensures k in ToMap(s) <==> exists i: nat :: HasKey(s, k, i)
  {
    if s != [] {
      var init := s[..|s|-1];
      MapDomain(init, k);
      if k in ToMap(s) {
        if k == s[|s|-1].key.rank {
          assert HasKey(s, k, |s| - 1);
        } else {
          var i: nat :| HasKey(init, k, i);
          assert HasKey(s, k, i);
        }
      }
      if i: nat :| HasKey(s, k, i) {
        if i < |s| - 1 { assert HasKey(init, k, i); }
      }
    }
  }

  lemma {:induction false} MapValue(s: seq<Node>, i: nat)
    requires Sorted(s) && i < |s|
    ensures s[i].key.rank in ToMap(s) && ToMap(s)[s[i].key.rank] == Data(s[i].value)
  {
    if i < |s| - 1 { MapValue(s[..|s|-1], i); }
  }

  lemma {:induction false} MapSize(s: seq<Node>)
    requires Sorted(s)
    ensures |ToMap(s)| == |s|
  {
    if s != [] {
      var init, k := s[..|s|-1], s[|s|-1].key.rank;
      MapSize(init);
      MapDomain(init, k);
      assert k !in ToMap(init);
      assert ToMap(s).Keys == ToMap(init).Keys + {k};
      assert |ToMap(s).Keys| == |ToMap(s)| && |ToMap(init).Keys| == |ToMap(init)|;
    }
  }

  lemma InsertIndex(s: seq<Node>, b: nat, nd: Node)
    requires b <= |s|
    ensures var u := Split.Insert(s, b, nd);
            && |u| == |s| + 1 && u[b] == nd
            && (forall i :: 0 <= i < b ==> u[i] == s[i]) && (forall i :: b < i < |u| ==> u[i] == s[i-1])
  {
  }

  /** One more entry is one more binding. */
  lemma InsertMap(s: seq<Node>, b: nat, nd: Node)
    requires b <= |s| && Sorted(s) && Sorted(Split.Insert(s, b, nd))
    ensures ToMap(Split.Insert(s, b, nd)) == ToMap(s)[nd.key.rank := Data(nd.value)] && nd.key.rank !in ToMap(s)
  {
    var u := Split.Insert(s, b, nd);
    InsertIndex(s, b, nd);
    hide Split.Insert, ToMap;
    forall k: real ensures k in ToMap(u) <==> k in ToMap(s)[nd.key.rank := Data(nd.value)] {
      InsertDomain(s, b, nd, k);
    }
    forall k: real | k in ToMap(u) ensures ToMap(u)[k] == ToMap(s)[nd.key.rank := Data(nd.value)][k] {
      InsertValue(s, b, nd, k);
    }
    NewKey(s, b, nd);
  }

  lemma NewKey(s: seq<Node>, b: nat, nd: Node)
    requires b <= |s| && Sorted(Split.Insert(s, b, nd))
    ensures nd.key.rank !in ToMap(s)
  {
    InsertIndex(s, b, nd);
    MapDomain(s, nd.key.rank);
    hide ToMap;
    var u := Split.Insert(s, b, nd);
    forall i | 0 <= i < |s| ensures s[i].key.rank != nd.key.rank {
      if i < b { assert u[i].key.rank < u[b].key.rank; } else { assert u[b].key.rank < u[i+1].key.rank; }
    }
  }

  lemma InsertDomain(s: seq<Node>, b: nat, nd: Node, k: real)
    requires b <= |s|
    ensures k in ToMap(Split.Insert(s, b, nd)) <==> k in ToMap(s) || k == nd.key.rank
  {
    hide ToMap, Split.Insert;
    var u := Split.Insert(s, b, nd);
    InsertIndex(s, b, nd);
    MapDomain(u, k);
    MapDomain(s, k);
    if i: nat :| HasKey(u, k, i) {
      if i != b { assert HasKey(s, k, if i < b then i else i - 1); }
    }
    if i: nat :| HasKey(s, k, i) {
      assert HasKey(u, k, if i < b then i else i + 1);
    }
    assert HasKey(u, nd.key.rank, b);
  }

  lemma InsertValue(s: seq<Node>, b: nat, nd: Node, k: real)
    requires b <= |s| && Sorted(s) && Sorted(Split.Insert(s, b, nd)) && k in ToMap(Split.Insert(s, b, nd))
    ensures var m := ToMap(s)[nd.key.rank := Data(nd.value)]; k in m && ToMap(Split.Insert(s, b, nd))[k] == m[k]
  {
    hide ToMap, Split.Insert;
    var u := Split.Insert(s, b, nd);
    InsertIndex(s, b, nd);
    InsertDomain(s, b, nd, k);
    MapDomain(u, k);
    var i: nat :| HasKey(u, k, i);
    MapValue(u, i);
    if i != b {
      var j := if i < b then i else i - 1;
      assert s[j] == u[i];
      MapValue(s, j);
      assert u[b] == nd;
    }
  }

  /** Another entry for the same key is another value. */
  lemma ReplaceMap(s: seq<Node>, b: nat, nd: Node)
    requires b < |s| && Sorted(s) && nd.key.rank == s[b].key.rank
    ensures Sorted(s[b := nd]) && ToMap(s[b := nd]) == ToMap(s)[nd.key.rank := Data(nd.value)]
            && nd.key.rank in ToMap(s)
  {
    var u := s[b := nd];
    MapValue(s, b);
    forall k: real ensures k in ToMap(u) <==> k in ToMap(s) {
      SameDomain(s, u, k);
    }
    forall k: real | k in ToMap(u) ensures ToMap(u)[k] == ToMap(s)[nd.key.rank := Data(nd.value)][k] {
      MapDomain(u, k);
      SameDomain(s, u, k);
      var i: nat :| HasKey(u, k, i);
      MapValue(u, i);
      MapValue(s, i);
    }
  }

  lemma SameDomain(s: seq<Node>, u: seq<Node>, k: real)
    requires |s| == |u| && forall i :: 0 <= i < |s| ==> s[i].key.rank == u[i].key.rank
    ensures k in ToMap(u) <==> k in ToMap(s)
  {
    MapDomain(s, k);
    MapDomain(u, k);
    hide ToMap;
    if i: nat :| HasKey(s, k, i) { assert HasKey(u, k, i); }
    if i: nat :| HasKey(u, k, i) { assert HasKey(s, k, i); }
  }

  /** One entry less is one binding less. */
  lemma RemoveMap(s: seq<Node>, b: nat)
    requires b < |s| && Sorted(s)
    ensures Sorted(Split.Remove(s, b)) && ToMap(Split.Remove(s, b)) == ToMap(s) - {s[b].key.rank}
            && s[b].key.rank in ToMap(s)
  {
    var u := Split.Remove(s, b);
    PutBack(s, b);
    hide Split.Insert, ToMap, Split.Remove;
    InsertMap(u, b, s[b]);
    Unbind(ToMap(u), s[b].key.rank, Data(s[b].value));
  }

  lemma Unbind(m: Mapping, k: real, v: Option<string>)
    requires k !in m
    ensures m[k := v] - {k} == m && k in m[k := v]
  {
  }

  lemma PutBack(s: seq<Node>, b: nat)
    requires b < |s|
    ensures Split.Insert(Split.Remove(s, b), b, s[b]) == s && |Split.Remove(s, b)| == |s| - 1
    ensures Sorted(s) ==> Sorted(Split.Remove(s, b))
  {
    var u := Split.Remove(s, b);
    assert forall i :: 0 <= i < |u| ==> u[i] == if i < b then s[i] else s[i+1];
  }

  /** A key is bound exactly if the entry at its lower bound has it. */
  lemma Lookup(s: seq<Node>, k: real, b: nat)
    requires Sorted(s) && IsLowerBound(s, k, b)
    ensures k in ToMap(s) <==> b < |s| && s[b].key.rank == k
    ensures k in ToMap(s) ==> ToMap(s)[k] == Data(s[b].value)
  {
    MapDomain(s, k);
    if k in ToMap(s) {
      var i: nat :| HasKey(s, k, i);
      assert i == b;
    }
    if b < |s| && s[b].key.rank == k {
      assert HasKey(s, k, b);
      MapValue(s, b);
    }
  }
}
