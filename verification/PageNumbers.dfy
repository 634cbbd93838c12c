/** Consecutive page numbers: as a set, as a multiset and as the descending list midl.c keeps. */
module PageNumbers {
  /** The page numbers from a on, below b. */
  function Range(a: nat, b: nat): (r: set<nat>)
    ensures forall i :: i in r <==> a <= i < b
    decreases b
  {
    if b <= a then {} else Range(a, b - 1) + {b - 1}
  }

  function Span(a: nat, b: nat): multiset<nat>
    decreases b
  {
    if b <= a then multiset{} else Span(a, b - 1) + multiset{b - 1}
  }

  lemma {:induction false} SpanAt(a: nat, b: nat, n: nat)
    ensures Span(a, b)[n] == if a <= n < b then 1 else 0
    decreases b
  {
    if a < b { SpanAt(a, b - 1, n); }
  }

  lemma SpanOne(a: nat)
    ensures Span(a, a + 1) == multiset{a} && Span(a, a) == multiset{}
  {
    assert Span(a, a + 1) == Span(a, a) + multiset{a};
  }

  lemma SpanSplit(a: nat, b: nat, c: nat)
    requires a <= b <= c
    ensures Span(a, c) == Span(a, b) + Span(b, c)
  {
    hide Span;
    forall n ensures Span(a, c)[n] == (Span(a, b) + Span(b, c))[n] {
      SpanAt(a, c, n);
      SpanAt(a, b, n);
      SpanAt(b, c, n);
    }
  }

  lemma {:induction false} SpanSize(a: nat, b: nat)
    requires a <= b
    ensures |Span(a, b)| == b - a
    decreases b
  {
    if a < b { SpanSize(a, b - 1); }
  }

  /** pg + n - 1 down to pg. */
  function Run(pg: nat, n: nat): (r: seq<nat>)
    ensures |r| == n && forall i :: 0 <= i < n ==> r[i] == pg + n - 1 - i
  {
    seq(n, i requires 0 <= i < n => pg + n - 1 - i)
  }

  lemma {:induction false} RunSpan(pg: nat, n: nat)
    ensures multiset(Run(pg, n)) == Span(pg, pg + n)
  {
    if n > 0 {
      RunSpan(pg, n - 1);
      assert Run(pg, n) == [pg + n - 1] + Run(pg, n - 1);
    } else {
      assert Run(pg, n) == [];
    }
  }
}
