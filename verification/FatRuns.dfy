/**
  Runs of cluster operations as the file system issues them, with the cached free-cluster
  count and the search hint it keeps beside the table.
  */
module FatRuns {

  import opened Options
  import opened Arithmetic
  import opened FatChains
  import opened FatWalk

  /** The mounted table, the cached free count (`None` until computed) and the search hint. */
  datatype Volume = Volume(t: Table, freeCount: Option<nat>, hint: Option<nat>)

  /** Unsigned 32-bit arithmetic: a sum out of range wraps around. */
  function Wrap32(x: int): (r: nat) {
    if 0 <= x < RANGE32 then x else x % RANGE32
  }

  function MapCount(count: Option<nat>, delta: int): Option<nat> {
    if count.Some? then Some(Wrap32(count.value + delta)) else None
  }

  /** Fails exactly when the search finds nothing, and then changes nothing. */
  function Alloc(v: Volume, prev: Option<nat>): (r: (Volume, Option<nat>))
    requires |v.t| >= RESERVED_FAT_ENTRIES
    requires v.hint.Some? ==> v.hint.value >= RESERVED_FAT_ENTRIES
    requires prev.Some? ==> prev.value < |v.t|
    ensures r.1.None? ==> r.0 == v && forall m :: InRange(v.t, m) ==> !v.t[m].Free?
    ensures r.1.Some? ==> InRange(v.t, r.1.value) && v.t[r.1.value].Free?
  {
    match SearchFree(v.t, v.hint)
    case None => (v, None)
    case Some(n) => (Volume(Claim(v.t, prev, n), MapCount(v.freeCount, -1), Some(n + 1)), Some(n))
  }

  function Release(v: Volume, head: nat): (r: Volume)
    requires LinksInRange(v.t) && InRange(v.t, head)
  {
    var (t', k) := FreeWalk(v.t, Some(head));
    Volume(t', MapCount(v.freeCount, k), v.hint)
  }

  function Truncate(v: Volume, at: nat): (r: Volume)
    requires LinksInRange(v.t) && InRange(v.t, at)
  {
    var (t', k) := TruncateWalk(v.t, at);
    Volume(t', MapCount(v.freeCount, k), v.hint)
  }

  /** The cached count if there is one, else a recount that is then cached. */
  function Stats(v: Volume): (r: (Volume, nat))
    requires |v.t| >= RESERVED_FAT_ENTRIES
  {
    if v.freeCount.Some? then (v, v.freeCount.value)
    else (v.(freeCount := Some(FreeCount(v.t))), FreeCount(v.t))
  }

  datatype Op = OpAlloc(prev: Option<nat>) | OpRelease(head: nat) | OpTruncate(at: nat) | OpStats

  /** What callers owe: append only behind a chain's end, release only whole chains, cut only chains. */
  ghost predicate Legal(t: Table, op: Op) {
    match op
    case OpAlloc(prev) => prev.Some? ==> InRange(t, prev.value) && t[prev.value] == EndOfChain
    case OpRelease(head) => InRange(t, head) && t[head].InUse() && NoPredecessor(t, head)
    case OpTruncate(at) => InRange(t, at) && t[at].InUse()
    case OpStats => true
  }

  /** The invariant of a mounted volume. */
  ghost predicate Sound(v: Volume) {
    && RESERVED_FAT_ENTRIES <= |v.t| <= RANGE32
    && WellFormed(v.t)
    && (v.freeCount.Some? ==> v.freeCount.value == FreeCount(v.t))
    && (v.hint.Some? ==> v.hint.value >= RESERVED_FAT_ENTRIES)
  }

  lemma SoundLinks(v: Volume)
    requires Sound(v)
    ensures LinksInRange(v.t)
  {
    WellFormedLinksInRange(v.t);
  }

  function Step(v: Volume, op: Op): (r: Volume)
    requires Sound(v) && Legal(v.t, op)
  {
    SoundLinks(v);
    match op
    case OpAlloc(prev) => Alloc(v, prev).0
    case OpRelease(head) => Release(v, head)
    case OpTruncate(at) => Truncate(v, at)
    case OpStats => Stats(v).0
  }

  // ---------------------------------------------------------------- each step keeps the invariant

  /** The chain of an in-use cluster, and its place in it. */
  lemma FindChain(t: Table, x: nat) returns (c: seq<nat>, k: nat)
    requires WellFormed(t) && InRange(t, x) && t[x].InUse()
    ensures FullChain(t, c) && k < |c| && c[k] == x
    ensures t[x] == EndOfChain ==> k == |c| - 1
    ensures NoPredecessor(t, x) ==> k == 0
  {
    c := InUseIsOnOneChain(t, x);
    k := ChainMember(t, c, x);
    if k > 0 {
      ChainLink(t, c, k - 1);
      assert LinksTo(t, c[k - 1], x);
    }
  }

  lemma AllocCount(t: Table, prev: Option<nat>, n: nat)
    requires InRange(t, n) && t[n].Free?
    requires prev.Some? ==> InRange(t, prev.value) && t[prev.value] == EndOfChain
    ensures FreeCount(Claim(t, prev, n)) == FreeCount(t) - 1
  {
    FreeCountUpdate(t, n, EndOfChain);
    if prev.Some? { FreeCountUpdate(t[n := EndOfChain], prev.value, Data(n)); }
  }

  lemma FreeCountBound(t: Table)
    requires |t| >= RESERVED_FAT_ENTRIES
    ensures FreeCount(t) <= |t| - RESERVED_FAT_ENTRIES
  {
  }

  lemma ClaimWellFormed(t: Table, prev: Option<nat>, n: nat)
    requires WellFormed(t) && InRange(t, n) && t[n].Free?
    requires prev.Some? ==> InRange(t, prev.value) && t[prev.value] == EndOfChain
    ensures WellFormed(Claim(t, prev, n))
  {
    if prev.Some? { AppendWellFormed(t, prev.value, n); } else { StartWellFormed(t, n); }
  }

  lemma AllocSound(v: Volume, prev: Option<nat>)
    requires Sound(v) && Legal(v.t, OpAlloc(prev))
    ensures Sound(Alloc(v, prev).0)
  {
    var (v', r) := Alloc(v, prev);
    if r.Some? {
      ClaimWellFormed(v.t, prev, r.value);
      AllocCount(v.t, prev, r.value);
      FreeCountBound(v.t);
    }
  }

  /** On a chain, releasing removes the chain, frees its clusters and counts each once. */
  lemma ReleaseOfChain(t: Table, c: seq<nat>)
    requires WellFormed(t) && FullChain(t, c)
    ensures LinksInRange(t)
    ensures FreeWalk(t, Some(c[0])) == (FreeAll(t, c), |c|)
    ensures WellFormed(FreeAll(t, c))
    ensures FreeCount(FreeAll(t, c)) == FreeCount(t) + |c| <= |t| - RESERVED_FAT_ENTRIES
  {
    WellFormedLinksInRange(t);
    FreeWalkOfChain(t, c);
    ReleaseWellFormed(t, c);
    ChainIsAcyclic(t, c);
    ChainNotFree(t, c);
    FreeAllCount(t, c);
    FreeCountBound(FreeAll(t, c));
  }

  lemma ReleaseSound(v: Volume, head: nat)
    requires Sound(v) && Legal(v.t, OpRelease(head))
    ensures LinksInRange(v.t) && Sound(Release(v, head))
  {
    var c, k := FindChain(v.t, head);
    ReleaseOfChain(v.t, c);
  }

  lemma ChainNotFree(t: Table, c: seq<nat>)
    requires IsChain(t, c)
    ensures forall i :: 0 <= i < |c| ==> InRange(t, c[i]) && !t[c[i]].Free?
  {
    forall i | 0 <= i < |c| ensures InRange(t, c[i]) && !t[c[i]].Free? { ChainLink(t, c, i); }
  }

  lemma TruncateCount(t: Table, c: seq<nat>, k: nat)
    requires IsChain(t, c) && k < |c|
    ensures InRange(t, c[k]) && FreeCount(Cut(t, c, k)) == FreeCount(t) + (|c| - k - 1)
  {
    var t1 := t[c[k] := EndOfChain];
    ChainNotFree(t, c);
    FreeCountUpdate(t, c[k], EndOfChain);
    if k + 1 < |c| {
      ChainTail(t, c, k);
      ChainIsAcyclic(t1, c[k + 1..]);
      ChainNotFree(t1, c[k + 1..]);
    }
    FreeAllCount(t1, c[k + 1..]);
  }

  /** Cutting a chain keeps its first `k + 1` clusters, frees the others and counts each once. */
  lemma TruncateOfChain(t: Table, c: seq<nat>, k: nat)
    requires WellFormed(t) && FullChain(t, c) && k < |c|
    ensures LinksInRange(t) && InRange(t, c[k])
    ensures TruncateWalk(t, c[k]) == (Cut(t, c, k), |c| - k - 1)
    ensures WellFormed(Cut(t, c, k))
    ensures FreeCount(Cut(t, c, k)) == FreeCount(t) + (|c| - k - 1) <= |t| - RESERVED_FAT_ENTRIES
  {
    WellFormedLinksInRange(t);
    TruncateWalkOfChain(t, c, k);
    CutWellFormed(t, c, k);
    TruncateCount(t, c, k);
    FreeCountBound(Cut(t, c, k));
  }

  lemma TruncateSound(v: Volume, at: nat)
    requires Sound(v) && Legal(v.t, OpTruncate(at))
    ensures LinksInRange(v.t) && Sound(Truncate(v, at))
  {
    var c, k := FindChain(v.t, at);
    TruncateOfChain(v.t, c, k);
  }

  lemma StepSound(v: Volume, op: Op)
    requires Sound(v) && Legal(v.t, op)
    ensures Sound(Step(v, op))
  {
    match op
    case OpAlloc(prev) => AllocSound(v, prev);
    case OpRelease(head) => ReleaseSound(v, head);
    case OpTruncate(at) => TruncateSound(v, at);
    case OpStats =>
  }

  // ---------------------------------------------------------------- runs

  ghost predicate LegalRun(v: Volume, ops: seq<Op>)
    requires Sound(v)
    decreases |ops|
  {
    ops == [] || (Legal(v.t, ops[0]) && (StepSound(v, ops[0]); LegalRun(Step(v, ops[0]), ops[1..])))
  }

  function Run(v: Volume, ops: seq<Op>): (r: Volume)
    requires Sound(v) && LegalRun(v, ops)
    decreases |ops|
  {
    if ops == [] then v
    else
      StepSound(v, ops[0]);
      Run(Step(v, ops[0]), ops[1..])
  }

  /**
    Every run of legal operations from a sound volume ends in a sound volume: the table is a
    set of disjoint chains, and a cached count is the number of free clusters.
    */
  lemma {:induction false} RunSound(v: Volume, ops: seq<Op>)
    requires Sound(v) && LegalRun(v, ops)
    ensures Sound(Run(v, ops))
    decreases |ops|
  {
    if ops != [] {
      StepSound(v, ops[0]);
      RunSound(Step(v, ops[0]), ops[1..]);
    }
  }

  /** After every run `Stats` reports what a full recount of the table would. */
  lemma StatsAfterRun(v: Volume, ops: seq<Op>)
    requires Sound(v) && LegalRun(v, ops)
    ensures Sound(Run(v, ops))
    ensures Stats(Run(v, ops)).1 == FreeCount(Run(v, ops).t)
  {
    RunSound(v, ops);
  }

  /** In a sound volume the decrement of the cached count never wraps below zero. */
  lemma DecrementSafe(v: Volume, prev: Option<nat>)
    requires Sound(v) && Legal(v.t, OpAlloc(prev)) && v.freeCount.Some? && Alloc(v, prev).1.Some?
    ensures v.freeCount.value >= 1
    ensures Alloc(v, prev).0.freeCount == Some(v.freeCount.value - 1)
  {
    AllocCount(v.t, prev, Alloc(v, prev).1.value);
    FreeCountBound(v.t);
  }
}
