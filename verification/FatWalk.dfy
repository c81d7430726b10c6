/**
  The table-level meaning of allocating, releasing and truncating, and what any run of
  these keeps: disjoint chains and an exact free-cluster count.
  */
module FatWalk {

  import opened Options
  import opened FatChains
  import opened Pigeonhole

  // ---------------------------------------------------------------- counting

  predicate IsFree(v: FatValue) { v.Free? }

  predicate IsData(v: FatValue) { v.Data? }

  function Count(t: Table, p: FatValue -> bool): (k: nat)
    ensures k <= |t|
  {
    if t == [] then 0 else Count(t[..|t| - 1], p) + (if p(t[|t| - 1]) then 1 else 0)
  }

  lemma {:induction false} CountUpdate(t: Table, p: FatValue -> bool, n: nat, v: FatValue)
    requires n < |t|
    ensures Count(t[n := v], p) + (if p(t[n]) then 1 else 0) == Count(t, p) + (if p(v) then 1 else 0)
  {
    var t' := t[n := v];
    if n == |t| - 1 {
      assert t'[..|t| - 1] == t[..|t| - 1];
    } else {
      CountUpdate(t[..|t| - 1], p, n, v);
      assert t'[..|t| - 1] == t[..|t| - 1][n := v];
    }
  }

  lemma {:induction false} CountPositive(t: Table, p: FatValue -> bool, n: nat)
    requires n < |t| && p(t[n])
    ensures Count(t, p) > 0
  {
    if n < |t| - 1 { CountPositive(t[..|t| - 1], p, n); }
  }

  /** The number of free clusters: `Free` entries from cluster 2 to the end of the table. */
  function FreeCount(t: Table): (k: nat)
    requires |t| >= RESERVED_FAT_ENTRIES
  {
    Count(t[RESERVED_FAT_ENTRIES..], IsFree)
  }

  lemma FreeCountUpdate(t: Table, n: nat, v: FatValue)
    requires RESERVED_FAT_ENTRIES <= n < |t|
    ensures FreeCount(t[n := v]) + (if t[n].Free? then 1 else 0) == FreeCount(t) + (if v.Free? then 1 else 0)
  {
    var tail := t[RESERVED_FAT_ENTRIES..];
    CountUpdate(tail, IsFree, n - RESERVED_FAT_ENTRIES, v);
    assert t[n := v][RESERVED_FAT_ENTRIES..] == tail[n - RESERVED_FAT_ENTRIES := v];
  }

  /** Freeing clusters that were not free raises the free count by exactly their number. */
  lemma {:induction false} FreeAllCount(t: Table, c: seq<nat>)
    requires Distinct(c)
    requires forall i :: 0 <= i < |c| ==> RESERVED_FAT_ENTRIES <= c[i] < |t| && !t[c[i]].Free?
    requires |t| >= RESERVED_FAT_ENTRIES
    ensures FreeCount(FreeAll(t, c)) == FreeCount(t) + |c|
  {
    if c == [] {
      assert FreeAll(t, c) == t;
    } else {
      var n, rest := c[0], c[1..];
      assert Distinct(rest);
      assert n !in rest;
      FreeAllCount(t, rest);
      assert FreeAll(t, c) == FreeAll(t, rest)[n := Free] by { assert c == [n] + rest; }
      FreeCountUpdate(FreeAll(t, rest), n, Free);
    }
  }

  // ---------------------------------------------------------------- walking and freeing

  /** Every link stored for a cluster is the number of a cluster of the volume. */
  ghost predicate LinksInRange(t: Table) {
    forall x :: RESERVED_FAT_ENTRIES <= x < |t| && t[x].Data? ==> InRange(t, t[x].next)
  }

  lemma WellFormedLinksInRange(t: Table)
    requires WellFormed(t)
    ensures LinksInRange(t)
  {
    forall x | RESERVED_FAT_ENTRIES <= x < |t| && t[x].Data? ensures InRange(t, t[x].next) {
      WellFormedLink(t, x, t[x].next);
    }
  }

  function Link(t: Table, n: nat): (r: Option<nat>)
    requires n < |t|
  {
    if t[n].Data? then Some(t[n].next) else None
  }

  /**
    Frees entry after entry while following the links read just before. The count of `Data`
    entries falls with every step that continues, so the walk ends on every table.
    */
  function FreeWalk(t: Table, at: Option<nat>): (r: (Table, nat))
    requires LinksInRange(t)
    requires at.Some? ==> InRange(t, at.value)
    decreases Count(t, IsData), at.Some?
  {
    match at
    case None => (t, 0)
    case Some(n) =>
      CountUpdate(t, IsData, n, Free);
      var (t', k) := FreeWalk(t[n := Free], Link(t, n));
      (t', k + 1)
  }

  /** Marks `n` as the end of its chain and frees everything that followed. */
  function TruncateWalk(t: Table, n: nat): (r: (Table, nat))
    requires LinksInRange(t) && InRange(t, n)
  {
    FreeWalk(t[n := EndOfChain], Link(t, n))
  }

  /**
    The clusters reached from `path[0]`, each once. The walk either stops at an entry that is
    not a link (`loops` is false), or its last link leads back into the path.
    */
  ghost predicate IsOrbit(t: Table, path: seq<nat>, loops: bool) {
    && |path| > 0
    && Distinct(path)
    && (forall i :: 0 <= i < |path| ==> InRange(t, path[i]))
    && (forall i :: 0 <= i < |path| - 1 ==> LinkAt(t, path, i))
    && (loops <==> t[path[|path| - 1]].Data?)
    && (loops ==> t[path[|path| - 1]].next in path)
  }

  lemma FreeAllStep(t: Table, path: seq<nat>, k: nat)
    requires k < |path| && path[k] < |t|
    ensures FreeAll(t, path[..k])[path[k] := Free] == FreeAll(t, path[..k + 1])
  {
    assert path[..k + 1] == path[..k] + [path[k]];
  }

  lemma FreeAllKeepsRange(t: Table, c: seq<nat>)
    requires LinksInRange(t)
    ensures LinksInRange(FreeAll(t, c))
  {
  }

  lemma {:induction false} FreeWalkFrom(t: Table, path: seq<nat>, loops: bool, k: nat)
    requires LinksInRange(t) && IsOrbit(t, path, loops) && k < |path|
    ensures LinksInRange(FreeAll(t, path[..k]))
    ensures FreeWalk(FreeAll(t, path[..k]), Some(path[k]))
         == (FreeAll(t, path), |path| - k + (if loops then 1 else 0))
    decreases |path| - k
  {
    var u := FreeAll(t, path[..k]);
    FreeAllKeepsRange(t, path[..k]);
    FreeAllKeepsRange(t, path[..k + 1]);
    assert path[k] !in path[..k];
    FreeAllStep(t, path, k);
    var u' := FreeAll(t, path[..k + 1]);
    if k + 1 < |path| {
      assert LinkAt(t, path, k);
      FreeWalkFrom(t, path, loops, k + 1);
    } else {
      assert path[..k + 1] == path;
      if loops {
        var x := t[path[k]].next;
        assert u'[x] == Free && u'[x := Free] == u';
        assert FreeWalk(u', None) == (u', 0);
        assert FreeWalk(u', Some(x)) == (u', 1);
      }
    }
  }

  /**
    What freeing does on EVERY table whose links are in range, cyclic ones included: it frees
    exactly the clusters of the orbit and reports their number, plus one if the links loop.
    */
  lemma FreeWalkErasesOrbit(t: Table, path: seq<nat>, loops: bool)
    requires LinksInRange(t) && IsOrbit(t, path, loops)
    ensures FreeWalk(t, Some(path[0])) == (FreeAll(t, path), |path| + (if loops then 1 else 0))
  {
    assert FreeAll(t, path[..0]) == t;
    FreeWalkFrom(t, path, loops, 0);
  }

  /** Every cluster has an orbit, so the theorem above covers every call. */
  lemma OrbitExists(t: Table, n: nat) returns (path: seq<nat>, loops: bool)
    requires LinksInRange(t) && InRange(t, n)
    ensures IsOrbit(t, path, loops) && path[0] == n
  {
    path := [n];
    while t[path[|path| - 1]].Data? && t[path[|path| - 1]].next !in path
      invariant |path| > 0 && path[0] == n && Distinct(path)
      invariant forall i :: 0 <= i < |path| ==> InRange(t, path[i])
      invariant forall i :: 0 <= i < |path| - 1 ==> LinkAt(t, path, i)
      decreases |t| + 1 - |path|
    {
      DistinctBelow(path, |t|);
      var path' := path + [t[path[|path| - 1]].next];
      forall i | 0 <= i < |path'| - 1 ensures LinkAt(t, path', i) {
        if i < |path| - 1 { assert LinkAt(t, path, i); }
      }
      path := path';
    }
    DistinctBelow(path, |t|);
    loops := t[path[|path| - 1]].Data?;
  }

  lemma ChainIsOrbit(t: Table, c: seq<nat>)
    requires IsChain(t, c)
    ensures IsOrbit(t, c, false)
  {
    ChainIsAcyclic(t, c);
  }

  /** On a chain, freeing erases exactly the chain and reports its length. */
  lemma FreeWalkOfChain(t: Table, c: seq<nat>)
    requires LinksInRange(t) && IsChain(t, c)
    ensures FreeWalk(t, Some(c[0])) == (FreeAll(t, c), |c|)
  {
    ChainIsOrbit(t, c);
    FreeWalkErasesOrbit(t, c, false);
  }

  lemma ChainTail(t: Table, c: seq<nat>, k: nat)
    requires IsChain(t, c) && k + 1 < |c|
    ensures IsChain(t[c[k] := EndOfChain], c[k + 1..])
  {
    ChainIsAcyclic(t, c);
    var cut := c[k + 1..];
    forall i | 0 <= i < |cut| ensures InRange(t, cut[i]) && cut[i] == c[k + 1 + i] && cut[i] != c[k] {
      ChainLink(t, c, k + 1 + i);
    }
    var t1 := t[c[k] := EndOfChain];
    forall i | 0 <= i < |cut| - 1 ensures LinkAt(t1, cut, i) {
      ChainLink(t, c, k + 1 + i);
    }
    ChainLink(t, c, |c| - 1);
  }

  /** Truncating a chain at member `k` frees exactly the members after it. */
  lemma TruncateWalkOfChain(t: Table, c: seq<nat>, k: nat)
    requires LinksInRange(t) && IsChain(t, c) && k < |c|
    ensures TruncateWalk(t, c[k]) == (Cut(t, c, k), |c| - k - 1)
  {
    var t1 := t[c[k] := EndOfChain];
    ChainLink(t, c, k);
    if k + 1 < |c| {
      ChainTail(t, c, k);
      FreeWalkOfChain(t1, c[k + 1..]);
    } else {
      assert FreeAll(t1, c[k + 1..]) == t1;
    }
  }

  // ---------------------------------------------------------------- allocating

  /** The least free cluster of `lo..hi`, if there is one. */
  function FindFree(t: Table, lo: nat, hi: nat): (r: Option<nat>)
    requires lo <= hi <= |t|
    ensures r.Some? ==> lo <= r.value < hi && t[r.value].Free? && forall m :: lo <= m < r.value ==> !t[m].Free?
    ensures r.None? ==> forall m :: lo <= m < hi ==> !t[m].Free?
    decreases hi - lo
  {
    if lo == hi then None else if t[lo].Free? then Some(lo) else FindFree(t, lo + 1, hi)
  }

  /** Where the search for a free cluster starts: the hint, unless it is past the end. */
  function SearchStart(hint: Option<nat>, end: nat): (start: nat)
    requires hint.Some? ==> hint.value >= RESERVED_FAT_ENTRIES
    requires end >= RESERVED_FAT_ENTRIES
    ensures RESERVED_FAT_ENTRIES <= start <= end
    ensures start == end ==> end == RESERVED_FAT_ENTRIES
  {
    if hint.Some? && hint.value < end then hint.value else RESERVED_FAT_ENTRIES
  }

  /** The search wraps around to cluster 2, so whatever the hint it misses no free cluster. */
  function SearchFree(t: Table, hint: Option<nat>): (r: Option<nat>)
    requires hint.Some? ==> hint.value >= RESERVED_FAT_ENTRIES
    requires |t| >= RESERVED_FAT_ENTRIES
    ensures r.Some? ==> InRange(t, r.value) && t[r.value].Free?
    ensures r.None? ==> forall m :: InRange(t, m) ==> !t[m].Free?
  {
    var start := SearchStart(hint, |t|);
    match FindFree(t, start, |t|)
    case Some(n) => Some(n)
    case None => FindFree(t, RESERVED_FAT_ENTRIES, start)
  }

  /** The table after cluster `n` is claimed, behind `prev` if there is one. */
  function Claim(t: Table, prev: Option<nat>, n: nat): (r: Table)
    requires n < |t| && (prev.Some? ==> prev.value < |t|)
    ensures |r| == |t|
  {
    if prev.Some? then Append(t, prev.value, n) else t[n := EndOfChain]
  }
}
