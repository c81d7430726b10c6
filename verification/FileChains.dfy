/**
  What cluster operations and writes do to the bytes of files: of the file at hand, and of
  all the others.
  */
module FileChains {

  import opened Options
  import opened Pigeonhole
  import opened Bytes
  import opened Blocks
  import opened FatChains
  import opened FatWalk
  import opened FatRuns
  import opened FileSystems
  import opened FileContents
  import opened Cursor

  /** `chain` is the whole chain that starts at `first`; an empty file has neither. */
  ghost predicate Linked(t: Table, chain: seq<nat>, first: Option<nat>) {
    if chain == [] then first.None? else FullChain(t, chain) && first == Some(chain[0])
  }

  lemma FullChainPlaced(g: Geometry, t: Table, e: seq<nat>)
    requires |t| == g.Entries() && FullChain(t, e)
    ensures Placed(g.data, e) && Distinct(e)
  {
    ChainIsAcyclic(t, e);
    forall i | 0 <= i < |e| ensures RESERVED_FAT_ENTRIES <= e[i] < g.Entries() { ChainLink(t, e, i); }
  }

  lemma LinkedPlaced(g: Geometry, t: Table, chain: seq<nat>, first: Option<nat>)
    requires |t| == g.Entries() && Linked(t, chain, first)
    ensures Placed(g.data, chain) && Distinct(chain)
  {
    if chain != [] { FullChainPlaced(g, t, chain); }
  }

  /** `e` is still a whole chain and stores the same bytes. */
  ghost predicate Kept(g: Geometry, d: seq<byte>, d': seq<byte>, e: seq<nat>)
    requires g.Fits(|d|)
  {
    && |d'| == |d| && FullChain(TableAt(g, d'), e) && Placed(g.data, e)
    && ChainBytes(g.data, d', e) == ChainBytes(g.data, d, e)
  }

  /**
    Every other file is untouched: all chains but `chain` are kept, and so is what lies outside of table and clusters.
    */
  ghost predicate OthersKept(g: Geometry, d: seq<byte>, d': seq<byte>, chain: seq<nat>)
    requires g.Fits(|d|)
  {
    Framed(g, d, d') && forall e :: FullChain(TableAt(g, d), e) && e != chain ==> Kept(g, d, d', e)
  }

  lemma SameDataBytes(g: Geometry, d: seq<byte>, d': seq<byte>, e: seq<nat>)
    requires g.Fits(|d|) && SameClusters(g, d, d') && Placed(g.data, e)
    ensures ChainBytes(g.data, d', e) == ChainBytes(g.data, d, e)
  {
    forall i | 0 <= i < |e| ensures ClusterBytes(g.data, d', e[i]) == ClusterBytes(g.data, d, e[i]) {
      SameDataBlock(g, d, d', e[i] - RESERVED_FAT_ENTRIES);
    }
    ChainBytesSame(g.data, d, d', e);
  }

  /** A chain that does not contain the cluster written keeps its bytes. */
  lemma SameButBytes(g: Geometry, d: seq<byte>, d': seq<byte>, c: nat, e: seq<nat>)
    requires g.Fits(|d|) && |d'| == |d| && c >= RESERVED_FAT_ENTRIES && SameBut(g, d, d', c - RESERVED_FAT_ENTRIES)
    requires Placed(g.data, e) && c !in e
    ensures ChainBytes(g.data, d', e) == ChainBytes(g.data, d, e)
  {
    forall i | 0 <= i < |e| ensures ClusterBytes(g.data, d', e[i]) == ClusterBytes(g.data, d, e[i]) {
      assert e[i] != c;
    }
    ChainBytesSame(g.data, d, d', e);
  }

  /** Every chain is kept. */
  ghost predicate AllKept(g: Geometry, d: seq<byte>, d': seq<byte>)
    requires g.Fits(|d|)
  {
    forall e :: FullChain(TableAt(g, d), e) ==> Kept(g, d, d', e)
  }

  lemma AllKeptTrans(g: Geometry, d: seq<byte>, d1: seq<byte>, d2: seq<byte>)
    requires g.Fits(|d|) && |d1| == |d| && AllKept(g, d, d1) && AllKept(g, d1, d2) && |d2| == |d|
    ensures AllKept(g, d, d2)
  {
    forall e | FullChain(TableAt(g, d), e) ensures Kept(g, d, d2, e) {
      assert Kept(g, d, d1, e);
      assert Kept(g, d1, d2, e);
    }
  }

  lemma SameClustersKept(g: Geometry, d: seq<byte>, d': seq<byte>)
    requires g.Fits(|d|) && SameClusters(g, d, d') && TableAt(g, d') == TableAt(g, d)
    ensures AllKept(g, d, d')
  {
    forall e | FullChain(TableAt(g, d), e) ensures Kept(g, d, d', e) {
      FullChainPlaced(g, TableAt(g, d), e);
      SameDataBytes(g, d, d', e);
    }
  }

  lemma SameTableKept(g: Geometry, d: seq<byte>, d': seq<byte>, chain: seq<nat>)
    requires g.Fits(|d|) && SameData(g, d, d') && TableAt(g, d') == TableAt(g, d)
    ensures OthersKept(g, d, d', chain)
  {
    forall e | FullChain(TableAt(g, d), e) && e != chain ensures Kept(g, d, d', e) {
      FullChainPlaced(g, TableAt(g, d), e);
      SameDataBytes(g, d, d', e);
    }
  }

  // ---------------------------------------------------------------- writing in a cluster

  lemma WriteKeepsOthers(g: Geometry, d: seq<byte>, d': seq<byte>, chain: seq<nat>, k: nat)
    requires g.Fits(|d|) && |d'| == |d| && TableAt(g, d') == TableAt(g, d) && WellFormed(TableAt(g, d))
    requires FullChain(TableAt(g, d), chain) && k < |chain| && Placed(g.data, chain)
    requires SameBut(g, d, d', chain[k] - RESERVED_FAT_ENTRIES)
    ensures OthersKept(g, d, d', chain)
  {
    var t := TableAt(g, d);
    forall e | FullChain(t, e) && e != chain ensures Kept(g, d, d', e) {
      FullChainPlaced(g, t, e);
      if chain[k] in e { ChainsAreDisjoint(t, e, chain, chain[k]); }
      SameButBytes(g, d, d', chain[k], e);
    }
  }

  lemma WriteChainBytes(g: Geometry, d: seq<byte>, d': seq<byte>, chain: seq<nat>, k: nat, at: nat, b: seq<byte>,
                        pos: nat)
    requires g.Fits(|d|) && |d'| == |d| && Placed(g.data, chain) && Distinct(chain) && k < |chain|
    requires at + |b| <= g.data.size && pos == Span(k, g.data.size) + at
    requires SameBut(g, d, d', chain[k] - RESERVED_FAT_ENTRIES)
    requires ClusterBytes(g.data, d', chain[k]) == Splice(ClusterBytes(g.data, d, chain[k]), at, b)
    ensures pos + |b| <= |ChainBytes(g.data, d, chain)|
    ensures ChainBytes(g.data, d', chain) == Splice(ChainBytes(g.data, d, chain), pos, b)
  {
    forall i | 0 <= i < |chain| && i != k
      ensures ClusterBytes(g.data, d', chain[i]) == ClusterBytes(g.data, d, chain[i])
    {
      assert chain[i] != chain[k];
    }
    ChainBytesWrite(g.data, d, chain, k, at, b, d', pos);
  }

  // ---------------------------------------------------------------- growing a chain

  /** The last cluster, behind which a file grows. */
  ghost function Tail(chain: seq<nat>): Option<nat> {
    if chain == [] then None else Some(chain[|chain| - 1])
  }

  lemma GrowChain(t: Table, chain: seq<nat>, first: Option<nat>, n: nat, e: seq<nat>)
    requires WellFormed(t) && Linked(t, chain, first) && InRange(t, n) && t[n].Free?
    requires chain != [] ==> Tail(chain).value < |t|
    ensures FullChain(Claim(t, Tail(chain), n), e) <==> e == chain + [n] || (FullChain(t, e) && e != chain)
  {
    if chain == [] { StartChain(t, n, e); } else { ExtendChain(t, chain, n, e); }
  }

  lemma TailLegal(t: Table, chain: seq<nat>, first: Option<nat>)
    requires Linked(t, chain, first)
    ensures Legal(t, OpAlloc(Tail(chain)))
  {
    if chain != [] { ChainLink(t, chain, |chain| - 1); }
  }

  lemma FreeNotIn(t: Table, e: seq<nat>, n: nat)
    requires InRange(t, n) && t[n].Free? && FullChain(t, e)
    ensures n !in e
  {
    NotInChain(t, e, n);
  }

  /** Cluster contents after an allocation: the new cluster may be zeroed, all others are the same. */
  ghost predicate Grown(g: Geometry, d: seq<byte>, d': seq<byte>, n: nat, zero: bool)
    requires g.Fits(|d|)
  {
    && |d'| == |d| && RESERVED_FAT_ENTRIES <= n < g.Entries() && SameBut(g, d, d', n - RESERVED_FAT_ENTRIES)
    && (zero ==> ClusterBytes(g.data, d', n) == Zeros(g.data.size))
  }

  lemma SameDataGrown(g: Geometry, d: seq<byte>, d': seq<byte>, n: nat)
    requires g.Fits(|d|) && SameData(g, d, d') && RESERVED_FAT_ENTRIES <= n < g.Entries()
    ensures Grown(g, d, d', n, false)
  {
    forall m | 0 <= m < g.data.count ensures Block(g.data, d', m) == Block(g.data, d, m) { SameDataBlock(g, d, d', m); }
  }

  lemma GrowKeepsOthers(g: Geometry, d: seq<byte>, d': seq<byte>, chain: seq<nat>, first: Option<nat>, n: nat,
                        zero: bool)
    requires g.Fits(|d|) && Grown(g, d, d', n, zero)
    requires var t := TableAt(g, d);
             WellFormed(t) && Linked(t, chain, first) && t[n].Free? && (chain != [] ==> Tail(chain).value < |t|)
             && TableAt(g, d') == Claim(t, Tail(chain), n)
    ensures OthersKept(g, d, d', chain)
  {
    var t := TableAt(g, d);
    forall e | FullChain(t, e) && e != chain ensures Kept(g, d, d', e) {
      GrowChain(t, chain, first, n, e);
      FullChainPlaced(g, t, e);
      FreeNotIn(t, e, n);
      SameButBytes(g, d, d', n, e);
    }
  }

  /** The grown file has its old bytes, followed by those of the new cluster. */
  lemma GrowBytes(g: Geometry, d: seq<byte>, d': seq<byte>, chain: seq<nat>, first: Option<nat>, n: nat, zero: bool)
    requires g.Fits(|d|) && Grown(g, d, d', n, zero)
    requires var t := TableAt(g, d);
             WellFormed(t) && Linked(t, chain, first) && t[n].Free? && (chain != [] ==> Tail(chain).value < |t|)
             && TableAt(g, d') == Claim(t, Tail(chain), n)
    ensures FullChain(TableAt(g, d'), chain + [n]) && Placed(g.data, chain) && Placed(g.data, chain + [n])
    ensures ChainBytes(g.data, d', chain + [n]) == ChainBytes(g.data, d, chain) + ClusterBytes(g.data, d', n)
  {
    var t := TableAt(g, d);
    GrowChain(t, chain, first, n, chain + [n]);
    LinkedPlaced(g, t, chain, first);
    FullChainPlaced(g, TableAt(g, d'), chain + [n]);
    if chain != [] { FreeNotIn(t, chain, n); }
    SameButBytes(g, d, d', n, chain);
    ChainBytesAppend(g.data, d', chain, n);
  }

  /** Growing a file and then writing to it leaves the others alone. */
  lemma GrowThenWriteKeeps(g: Geometry, d: seq<byte>, d1: seq<byte>, d2: seq<byte>, chain: seq<nat>, n: nat)
    requires g.Fits(|d|) && |d1| == |d| && OthersKept(g, d, d1, chain) && OthersKept(g, d1, d2, chain + [n])
    requires n < g.Entries() && RESERVED_FAT_ENTRIES <= n && TableAt(g, d)[n].Free?
    ensures OthersKept(g, d, d2, chain)
  {
    var t := TableAt(g, d);
    FramedTrans(g, d, d1, d2);
    forall e | FullChain(t, e) && e != chain ensures Kept(g, d, d2, e) {
      assert Kept(g, d, d1, e);
      FreeNotIn(t, e, n);
      assert e != chain + [n] by { assert (chain + [n])[|chain|] == n; }
      assert Kept(g, d1, d2, e);
    }
  }

  lemma KeptTrans(g: Geometry, d: seq<byte>, d1: seq<byte>, d2: seq<byte>, chain: seq<nat>)
    requires g.Fits(|d|) && |d1| == |d| && OthersKept(g, d, d1, chain) && OthersKept(g, d1, d2, chain)
    ensures OthersKept(g, d, d2, chain)
  {
    FramedTrans(g, d, d1, d2);
    forall e | FullChain(TableAt(g, d), e) && e != chain ensures Kept(g, d, d2, e) {
      assert Kept(g, d, d1, e);
      assert Kept(g, d1, d2, e);
    }
  }

  /** Steps that only lengthen one chain keep all others. */
  lemma GrowingKeeps(g: Geometry, d: seq<byte>, d1: seq<byte>, d2: seq<byte>, c: seq<nat>, c1: seq<nat>)
    requires g.Fits(|d|) && |d1| == |d| && WellFormed(TableAt(g, d)) && FullChain(TableAt(g, d), c) && c <= c1
    requires OthersKept(g, d, d1, c) && OthersKept(g, d1, d2, c1)
    ensures OthersKept(g, d, d2, c)
  {
    var t := TableAt(g, d);
    FramedTrans(g, d, d1, d2);
    forall e | FullChain(t, e) && e != c ensures Kept(g, d, d2, e) {
      assert Kept(g, d, d1, e);
      assert e != c1 by { if e == c1 { ChainsAreDisjoint(t, c, e, c[0]); } }
      assert Kept(g, d1, d2, e);
    }
  }

  /** The members of `c1` behind those of `c` are free. */
  ghost predicate NewMembers(t: Table, c: seq<nat>, c1: seq<nat>) {
    c <= c1 && forall i :: |c| <= i < |c1| ==> InRange(t, c1[i]) && t[c1[i]].Free?
  }

  /** Steps that lengthen a chain by free clusters keep all others, even if there was no chain at first. */
  lemma LengtheningKeeps(g: Geometry, d: seq<byte>, d1: seq<byte>, d2: seq<byte>, c: seq<nat>, first: Option<nat>,
                         c1: seq<nat>)
    requires g.Fits(|d|) && |d1| == |d| && WellFormed(TableAt(g, d)) && Linked(TableAt(g, d), c, first)
    requires NewMembers(TableAt(g, d), c, c1) && OthersKept(g, d, d1, c) && OthersKept(g, d1, d2, c1)
    ensures OthersKept(g, d, d2, c)
  {
    var t := TableAt(g, d);
    FramedTrans(g, d, d1, d2);
    forall e | FullChain(t, e) && e != c ensures Kept(g, d, d2, e) {
      assert Kept(g, d, d1, e);
      if c1 != c { LongerIsNoChain(t, c, c1); }
      assert Kept(g, d1, d2, e);
    }
  }

  lemma LongerIsNoChain(t: Table, c: seq<nat>, c1: seq<nat>)
    requires NewMembers(t, c, c1) && c1 != c
    ensures !FullChain(t, c1)
  {
    var n := c1[|c|];
    if n >= RESERVED_FAT_ENTRIES && FullChain(t, c1) { FreeNotIn(t, c1, n); }
  }

  /** Clusters that are free were free before and hold what they held. */
  ghost predicate FreeKept(g: Geometry, d: seq<byte>, d': seq<byte>)
    requires g.Fits(|d|)
  {
    && |d'| == |d|
    && forall c {:trigger TableAt(g, d')[c]} :: InRange(TableAt(g, d'), c) && TableAt(g, d')[c].Free? ==>
         TableAt(g, d)[c].Free? && ClusterBytes(g.data, d', c) == ClusterBytes(g.data, d, c)
  }

  lemma FreeKeptTrans(g: Geometry, d: seq<byte>, d1: seq<byte>, d2: seq<byte>)
    requires g.Fits(|d|) && FreeKept(g, d, d1) && FreeKept(g, d1, d2)
    ensures FreeKept(g, d, d2)
  {
    forall c | InRange(TableAt(g, d2), c) && TableAt(g, d2)[c].Free?
      ensures TableAt(g, d)[c].Free? && ClusterBytes(g.data, d2, c) == ClusterBytes(g.data, d, c)
    {
      assert TableAt(g, d1)[c].Free?;
    }
  }

  lemma SameDataFree(g: Geometry, d: seq<byte>, d': seq<byte>)
    requires g.Fits(|d|) && SameData(g, d, d') && TableAt(g, d') == TableAt(g, d)
    ensures FreeKept(g, d, d')
  {
    forall m | 0 <= m < g.data.count ensures Block(g.data, d', m) == Block(g.data, d, m) { SameDataBlock(g, d, d', m); }
  }

  /** The cluster that a chain grows by is not free afterwards, and the others are not touched. */
  lemma GrownFree(g: Geometry, d: seq<byte>, d': seq<byte>, prev: Option<nat>, n: nat, zero: bool)
    requires g.Fits(|d|) && Grown(g, d, d', n, zero) && (prev.Some? ==> prev.value < g.Entries())
    requires TableAt(g, d') == Claim(TableAt(g, d), prev, n)
    ensures FreeKept(g, d, d')
  {
  }

  lemma WrittenFree(g: Geometry, d: seq<byte>, d': seq<byte>, c: nat)
    requires g.Fits(|d|) && |d'| == |d| && TableAt(g, d') == TableAt(g, d) && InRange(TableAt(g, d), c)
    requires !TableAt(g, d)[c].Free? && SameBut(g, d, d', c - RESERVED_FAT_ENTRIES)
    ensures FreeKept(g, d, d')
  {
  }

  // ---------------------------------------------------------------- shrinking a chain

  lemma ReleaseKeepsOthers(g: Geometry, d: seq<byte>, d': seq<byte>, chain: seq<nat>)
    requires g.Fits(|d|) && SameData(g, d, d')
    requires WellFormed(TableAt(g, d)) && FullChain(TableAt(g, d), chain)
             && TableAt(g, d') == FreeAll(TableAt(g, d), chain)
    ensures OthersKept(g, d, d', chain)
  {
    var t := TableAt(g, d);
    forall e | FullChain(t, e) && e != chain ensures Kept(g, d, d', e) {
      ReleaseChain(t, chain, e);
      FullChainPlaced(g, t, e);
      SameDataBytes(g, d, d', e);
    }
  }

  lemma CutKeepsOthers(g: Geometry, d: seq<byte>, d': seq<byte>, chain: seq<nat>, k: nat)
    requires g.Fits(|d|) && SameData(g, d, d') && k < |chain|
    requires var t := TableAt(g, d);
             WellFormed(t) && FullChain(t, chain) && InRange(t, chain[k]) && TableAt(g, d') == Cut(t, chain, k)
    ensures OthersKept(g, d, d', chain)
  {
    var t := TableAt(g, d);
    forall e | FullChain(t, e) && e != chain ensures Kept(g, d, d', e) {
      TruncateChain(t, chain, k, e);
      FullChainPlaced(g, t, e);
      SameDataBytes(g, d, d', e);
    }
  }

  /** A chain cut behind member `k` stores the first `k + 1` clusters' worth of bytes. */
  lemma CutBytes(g: Geometry, d: seq<byte>, d': seq<byte>, chain: seq<nat>, k: nat, len: nat)
    requires g.Fits(|d|) && SameData(g, d, d') && k < |chain| && len == Span(k + 1, g.data.size)
    requires var t := TableAt(g, d);
             WellFormed(t) && FullChain(t, chain) && InRange(t, chain[k]) && TableAt(g, d') == Cut(t, chain, k)
    ensures FullChain(TableAt(g, d'), chain[..k + 1]) && Placed(g.data, chain) && Placed(g.data, chain[..k + 1])
    ensures len <= |ChainBytes(g.data, d, chain)|
    ensures ChainBytes(g.data, d', chain[..k + 1]) == ChainBytes(g.data, d, chain)[..len]
  {
    var t := TableAt(g, d);
    CutChain(t, chain, k);
    FullChainPlaced(g, t, chain);
    FullChainPlaced(g, TableAt(g, d'), chain[..k + 1]);
    SameDataBytes(g, d, d', chain[..k + 1]);
    ChainBytesPrefix(g.data, d, chain, k + 1, len);
  }
}
