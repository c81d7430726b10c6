/**
  Positions in a file counted in clusters. Products and quotients by the cluster size are
  recursive functions here; `SpanIsProduct` and `ClustersForIsCeiling` are the link to the
  arithmetic the source uses.
  */
module Cursor {

  import opened Options

  /** The number of bytes in `k` clusters. */
  function Span(k: nat, cs: nat): (n: nat) {
    if k == 0 then 0 else Span(k - 1, cs) + cs
  }

  lemma {:induction false} SpanIsProduct(k: nat, cs: nat)
    ensures Span(k, cs) == k * cs
  {
    if k > 0 {
      SpanIsProduct(k - 1, cs);
      assert (k - 1) * cs + cs == k * cs;
    }
  }

  lemma {:induction false} SpanStep(a: nat, b: nat, cs: nat)
    requires a < b
    ensures Span(a, cs) + cs <= Span(b, cs)
  {
    if a + 1 < b { SpanStep(a, b - 1, cs); }
  }

  /** The number of clusters that `x` bytes occupy. */
  function ClustersFor(x: nat, cs: nat): (k: nat)
    requires cs > 0
  {
    if x == 0 then 0 else if x <= cs then 1 else 1 + ClustersFor(x - cs, cs)
  }

  /** `x` lies in cluster `k`, its end included. */
  lemma {:induction false} ClustersUnique(x: nat, cs: nat, k: nat)
    requires cs > 0 && Span(k, cs) < x <= Span(k, cs) + cs
    ensures ClustersFor(x, cs) == k + 1
  {
    if k > 0 {
      ClustersUnique(x - cs, cs, k - 1);
    }
  }

  lemma {:induction false} ClustersBounds(x: nat, cs: nat)
    requires cs > 0
    ensures x == 0 <==> ClustersFor(x, cs) == 0
    ensures x > 0 ==> Span(ClustersFor(x, cs) - 1, cs) < x <= Span(ClustersFor(x, cs), cs)
  {
    if x > cs {
      ClustersBounds(x - cs, cs);
    }
  }

  /** A position inside `n` clusters needs at most `n` clusters, one behind them needs more. */
  lemma ClustersWithin(x: nat, cs: nat, n: nat)
    requires cs > 0
    ensures x <= Span(n, cs) <==> ClustersFor(x, cs) <= n
  {
    ClustersBounds(x, cs);
    var k := ClustersFor(x, cs);
    if k < n { SpanStep(k, n, cs); }
    if 0 < k && n < k - 1 { SpanStep(n, k - 1, cs); }
  }

  lemma DivModLaw(x: nat, cs: nat)
    requires cs > 0
    ensures x == x / cs * cs + x % cs && 0 <= x % cs < cs
  {
  }

  lemma MulStep(a: nat, b: nat, cs: nat)
    requires a < b
    ensures a * cs + cs <= b * cs
  {
    SpanIsProduct(a, cs);
    SpanIsProduct(b, cs);
    SpanStep(a, b, cs);
  }

  lemma QuotientUnique(x: nat, cs: nat, q: nat, r: nat)
    requires cs > 0 && x == q * cs + r && r < cs
    ensures x / cs == q && x % cs == r
  {
    DivModLaw(x, cs);
    if x / cs < q { MulStep(x / cs, q, cs); }
    if q < x / cs { MulStep(q, x / cs, cs); }
  }

  /** The source rounds up with one division. */
  lemma ClustersForIsCeiling(x: nat, cs: nat)
    requires cs > 0
    ensures ClustersFor(x, cs) == (x + cs - 1) / cs
  {
    ClustersBounds(x, cs);
    if x == 0 {
      QuotientUnique(cs - 1, cs, 0, cs - 1);
    } else {
      var k := ClustersFor(x, cs);
      SpanIsProduct(k, cs);
      QuotientUnique(x + cs - 1, cs, k, x - Span(k - 1, cs) - 1);
    }
  }

  /** The position `offset` is byte `at` of cluster `k`. */
  ghost predicate Sits(offset: nat, cs: nat, k: nat, at: nat) {
    offset == Span(k, cs) + at && at < cs
  }

  lemma SitsAt(offset: nat, cs: nat)
    requires cs > 0
    ensures Sits(offset, cs, offset / cs, offset % cs)
  {
    DivModLaw(offset, cs);
    SpanIsProduct(offset / cs, cs);
  }

  /** Clusters up to a position: at a boundary those before it, else the position's cluster too. */
  lemma ClustersOfSits(offset: nat, cs: nat, k: nat, at: nat)
    requires cs > 0 && Sits(offset, cs, k, at)
    ensures ClustersFor(offset, cs) == if at == 0 then k else k + 1
  {
    if at > 0 {
      ClustersUnique(offset, cs, k);
    } else if k > 0 {
      ClustersUnique(offset, cs, k - 1);
    }
  }

  /**
    Where a file stands: before the first cluster at position 0, else in the cluster that
    holds the byte before the position, so at a boundary in the previous cluster.
    */
  ghost predicate CursorAt(chain: seq<nat>, cs: nat, offset: nat, current: Option<nat>)
    requires cs > 0
  {
    if offset == 0 then current.None?
    else
      var k := ClustersFor(offset, cs);
      0 < k <= |chain| && current == Some(chain[k - 1])
  }

  /** After reading or writing `n` bytes in cluster `k` the cursor is in cluster `k`. */
  lemma CursorAdvance(chain: seq<nat>, cs: nat, offset: nat, k: nat, at: nat, n: nat)
    requires cs > 0 && Sits(offset, cs, k, at) && 0 < n <= cs - at && k < |chain|
    ensures CursorAt(chain, cs, offset + n, Some(chain[k]))
  {
    ClustersUnique(offset + n, cs, k);
  }
}
