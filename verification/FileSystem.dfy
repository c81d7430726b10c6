/**
  A mounted volume: the storage, where the table and the clusters lie on it, and the cached
  free count and search hint. Cluster operations are tied to those of FatRuns.dfy.
  */
module FileSystems {

  import opened Options
  import opened Arithmetic
  import opened Bytes
  import opened Blocks
  import opened Storages
  import opened DiskSlices
  import opened FatChains
  import opened FatWalk
  import opened FatEntry
  import opened FatTable
  import opened FatOps
  import opened FatRuns

  /** Status byte, table mirrors and data clusters, in this order on the storage. */
  datatype Geometry = Geometry(ft: FatType, flagsAt: nat, fat: Layout, data: Layout) {
    /** Number of table entries: one for each cluster, and the two reserved ones. */
    function Entries(): nat { data.count + RESERVED_FAT_ENTRIES }

    ghost predicate Fits(length: nat) {
      && flagsAt < fat.begin
      && fat.count > 0 && fat.End() <= data.begin
      && data.size > 0 && data.End() <= length
      && HoldsAll(ft, fat.size, Entries()) && data.count <= MaxClusters(ft) && Regular(ft, data.count)
    }
  }

  /** The sector arithmetic of the source places cluster `c` at block `c - 2` of the data region. */
  lemma ClusterOffset(firstDataSector: nat, sectorsPerCluster: nat, bytesPerSector: nat, total: nat, c: nat)
    requires c >= RESERVED_FAT_ENTRIES
    ensures var data := Layout(firstDataSector * bytesPerSector, sectorsPerCluster * bytesPerSector, total);
            (firstDataSector + (c - RESERVED_FAT_ENTRIES) * sectorsPerCluster) * bytesPerSector
            == data.Base(c - RESERVED_FAT_ENTRIES)
  {
    var data := Layout(firstDataSector * bytesPerSector, sectorsPerCluster * bytesPerSector, total);
    var m := c - RESERVED_FAT_ENTRIES;
    BaseIsProduct(data, m);
    Distribute(firstDataSector, m * sectorsPerCluster, bytesPerSector);
    Associate(m, sectorsPerCluster, bytesPerSector);
  }

  /** The table of values stored in a disk image. */
  ghost function TableAt(g: Geometry, d: seq<byte>): (t: Table)
    requires g.Fits(|d|)
    ensures |t| == g.Entries()
  {
    TableOf(g.ft, Block(g.fat, d, 0), g.Entries())
  }

  /**
    A byte that no cluster operation may touch: it is neither the status byte nor in the table
    nor in a cluster. The fixed root directory of 12- and 16-bit volumes is made of such bytes.
    */
  predicate Outside(g: Geometry, i: nat) {
    (i < g.fat.begin && i != g.flagsAt) || g.fat.End() <= i < g.data.begin || g.data.End() <= i
  }

  /** All such bytes are the same, and mirrors of the table that were equal are equal. */
  ghost predicate Framed(g: Geometry, d: seq<byte>, d': seq<byte>)
    requires g.Fits(|d|)
  {
    && |d'| == |d| && (forall i {:trigger Outside(g, i)} :: 0 <= i < |d| && Outside(g, i) ==> d'[i] == d[i])
    && (MirrorsEqual(g.fat, d) ==> MirrorsEqual(g.fat, d'))
  }

  lemma FramedTrans(g: Geometry, d: seq<byte>, d1: seq<byte>, d2: seq<byte>)
    requires g.Fits(|d|) && Framed(g, d, d1) && Framed(g, d1, d2)
    ensures Framed(g, d, d2)
  {
  }

  /** Every byte of the data region is the same. */
  ghost predicate SameClusters(g: Geometry, d: seq<byte>, d': seq<byte>)
    requires g.Fits(|d|)
  {
    |d'| == |d| && d'[g.data.begin..] == d[g.data.begin..]
  }

  /** The data region is the same, and so is all outside of table and status byte. */
  ghost predicate SameData(g: Geometry, d: seq<byte>, d': seq<byte>)
    requires g.Fits(|d|)
  {
    Framed(g, d, d') && SameClusters(g, d, d')
  }

  lemma FatOnlySameData(g: Geometry, p: Port, i: Image, i': Image)
    requires g.Fits(|i.bytes|) && p.flagsAt == g.flagsAt && FatOnly(g.fat, p, i, i')
    ensures SameData(g, i.bytes, i'.bytes)
  {
    assert i'.bytes[g.data.begin..] == i.bytes[g.data.begin..];
  }

  /** Mirrors are the same if the table's bytes are. */
  lemma MirrorsSame(g: Geometry, d: seq<byte>, d': seq<byte>)
    requires g.Fits(|d|) && |d'| == |d| && d'[g.fat.begin..g.fat.End()] == d[g.fat.begin..g.fat.End()]
    ensures TableAt(g, d') == TableAt(g, d) && (MirrorsEqual(g.fat, d) ==> MirrorsEqual(g.fat, d'))
  {
    var a, e := g.fat.begin, g.fat.End();
    forall m | 0 <= m < g.fat.count ensures Block(g.fat, d', m) == Block(g.fat, d, m) {
      BlockFits(g.fat, |d|, m);
      var lo := g.fat.Base(m);
      SubWindow(d, a, e - a, lo - a, g.fat.size);
      SubWindow(d', a, e - a, lo - a, g.fat.size);
    }
  }

  /** Only the status byte differs. */
  ghost predicate StatusOnly(g: Geometry, d: seq<byte>, d': seq<byte>) {
    |d'| == |d| && forall i {:trigger d'[i]} :: 0 <= i < |d| && i != g.flagsAt ==> d'[i] == d[i]
  }

  lemma StatusWritten(g: Geometry, d: seq<byte>, d': seq<byte>)
    requires g.Fits(|d|) && StatusOnly(g, d, d')
    ensures SameData(g, d, d') && TableAt(g, d') == TableAt(g, d)
  {
    assert d'[g.fat.begin..g.fat.End()] == d[g.fat.begin..g.fat.End()];
    MirrorsSame(g, d, d');
  }

  /** Writing in a cluster leaves the table and everything outside alone. */
  lemma BehindTable(g: Geometry, d: seq<byte>, at: nat, b: seq<byte>, m: nat, d': seq<byte>)
    requires g.Fits(|d|) && m < g.data.count && at + |b| <= g.data.size && Wrote(g.data, d, at, b, m, d')
    ensures Framed(g, d, d') && TableAt(g, d') == TableAt(g, d)
  {
    BlockFits(g.data, |d|, m);
    SpliceElsewhere(d, g.data.Base(m) + at, b, g.fat.begin, g.fat.End());
    MirrorsSame(g, d, d');
  }

  /** All clusters but block `m` are the same, and so is everything outside of table and clusters. */
  ghost predicate SameBut(g: Geometry, d: seq<byte>, d': seq<byte>, m: nat)
    requires g.Fits(|d|) && |d'| == |d|
  {
    Framed(g, d, d') && forall m' :: 0 <= m' < g.data.count && m' != m ==> Block(g.data, d', m') == Block(g.data, d, m')
  }

  lemma SameDataBlock(g: Geometry, d: seq<byte>, d': seq<byte>, m: nat)
    requires g.Fits(|d|) && SameClusters(g, d, d') && m < g.data.count
    ensures Block(g.data, d', m) == Block(g.data, d, m)
  {
    BlockFits(g.data, |d|, m);
    var b, lo := g.data.begin, g.data.Base(m);
    assert d[b..|d|] == d[b..] && d'[b..|d|] == d'[b..];
    SubWindow(d, b, |d| - b, lo - b, g.data.size);
    SubWindow(d', b, |d| - b, lo - b, g.data.size);
  }

  lemma WroteSameBut(g: Geometry, d: seq<byte>, d1: seq<byte>, at: nat, b: seq<byte>, m: nat, d2: seq<byte>)
    requires g.Fits(|d|) && SameData(g, d, d1) && m < g.data.count && at + |b| <= g.data.size
             && Wrote(g.data, d1, at, b, m, d2)
    ensures |d2| == |d| && SameBut(g, d, d2, m) && Block(g.data, d2, m) == Splice(Block(g.data, d, m), at, b)
  {
    WriteBlock(g.data, d1, m, at, b, d2);
    SameDataBlock(g, d, d1, m);
    BehindTable(g, d1, at, b, m, d2);
    FramedTrans(g, d, d1, d2);
    forall m' | 0 <= m' < g.data.count && m' != m ensures Block(g.data, d2, m') == Block(g.data, d, m') {
      WriteOtherBlock(g.data, d1, m, at, b, m', d2);
      SameDataBlock(g, d, d1, m');
    }
  }

  lemma ZerosJoin(d: seq<byte>, at: nat, n: nat, k: nat)
    requires at + n + k <= |d|
    ensures Splice(Splice(d, at, Zeros(n)), at + n, Zeros(k)) == Splice(d, at, Zeros(n + k))
  {
  }

  /** Writes zeros in chunks of at most 512 bytes. */
  method WriteZeros(disk: array<byte>, at: nat, len: nat)
    requires at + len <= disk.Length
    modifies disk
    ensures disk[..] == Splice(old(disk[..]), at, Zeros(len))
  {
    ghost var d := disk[..];
    var done := 0;
    while done < len
      invariant done <= len && disk[..] == Splice(d, at, Zeros(done))
    {
      var n := if len - done < 512 then len - done else 512;
      ZerosJoin(d, at, done, n);
      WriteAt(disk, at + done, Zeros(n));
      done := done + n;
    }
  }

  lemma SpliceWhole(s: seq<byte>, b: seq<byte>)
    requires |b| == |s|
    ensures Splice(s, 0, b) == b
  {
  }

  /** Block `m` is zeroed, all other clusters are the same. */
  ghost predicate ZeroedAt(g: Geometry, d: seq<byte>, d': seq<byte>, m: nat)
    requires g.Fits(|d|)
  {
    |d'| == |d| && m < g.data.count && SameBut(g, d, d', m) && Block(g.data, d', m) == Zeros(g.data.size)
  }

  lemma ZeroedCluster(g: Geometry, before: seq<byte>, d: seq<byte>, m: nat, d': seq<byte>)
    requires g.Fits(|before|) && SameData(g, before, d) && m < g.data.count
    requires Wrote(g.data, d, 0, Zeros(g.data.size), m, d')
    ensures ZeroedAt(g, before, d', m) && TableAt(g, d') == TableAt(g, d)
  {
    BehindTable(g, d, 0, Zeros(g.data.size), m, d');
    WroteSameBut(g, before, d, 0, Zeros(g.data.size), m, d');
    SpliceWhole(Block(g.data, before, m), Zeros(g.data.size));
  }

  method ZeroBlock(disk: array<byte>, l: Layout, m: nat)
    requires l.Fits(disk.Length) && m < l.count
    modifies disk
    ensures Wrote(l, old(disk[..]), 0, Zeros(l.size), m, disk[..])
  {
    BlockFits(l, disk.Length, m);
    WriteZeros(disk, l.Base(m), l.size);
  }

  lemma AllocInRange(v: Volume, prev: Option<nat>)
    requires Sound(v) && Legal(v.t, OpAlloc(prev))
    ensures v.hint.Some? ==> v.hint.value >= RESERVED_FAT_ENTRIES
    ensures var (v', r) := FatRuns.Alloc(v, prev); |v'.t| == |v.t| && (r.Some? ==> InRange(v.t, r.value))
  {
  }

  lemma AllocDone(v: Volume, prev: Option<nat>, r: Option<nat>, t: Table, v': Volume)
    requires Sound(v) && Legal(v.t, OpAlloc(prev)) && r == SearchFree(v.t, v.hint)
    requires t == if r.Some? then Claim(v.t, prev, r.value) else v.t
    requires v' == if r.Some? then FatRuns.Volume(t, MapCount(v.freeCount, -1), Some(r.value + 1)) else v
    ensures Sound(v') && (v', r) == FatRuns.Alloc(v, prev)
  {
    AllocSound(v, prev);
  }

  class FileSystem {
    const disk: array<byte>
    const g: Geometry
    /** Status bits found at mount time; they are never cleared. */
    const mountDirty: bool
    const mountIoError: bool
    var currentDirty: bool
    /** How many bytes the storage takes in each call, and the calls through slices so far. */
    const counts: nat -> Taken
    var calls: nat
    var freeCount: Option<nat>
    var hint: Option<nat>

    /**
      The end of mounting. `count` and `next` are what the FSInfo sector of a FAT32 volume
      stores (nothing for the others); a dirty volume's count and values out of range are dropped.
      */
    constructor (disk: array<byte>, g: Geometry, dirty: bool, ioError: bool, count: Option<nat>, next: Option<nat>,
                 counts: nat -> Taken)
      requires next.Some? ==> next.value >= RESERVED_FAT_ENTRIES
      ensures this.disk == disk && this.g == g && mountDirty == dirty && mountIoError == ioError
              && currentDirty == dirty && this.counts == counts
      ensures freeCount == (if dirty || (count.Some? && count.value > g.data.count) then None else count)
      ensures hint == (if next.Some? && next.value > g.Entries() then None else next)
    {
      this.disk := disk;
      this.g := g;
      mountDirty := dirty;
      mountIoError := ioError;
      currentDirty := dirty;
      this.counts := counts;
      calls := 0;
      freeCount := if dirty || (count.Some? && count.value > g.data.count) then None else count;
      hint := if next.Some? && next.value > g.Entries() then None else next;
    }

    ghost predicate Mounted() {
      g.Fits(disk.Length)
    }

    ghost function Table(): (t: Table)
      requires Mounted()
      reads disk
      ensures |t| == g.Entries()
    {
      TableAt(g, disk[..])
    }

    ghost function Volume(): (v: Volume)
      requires Mounted()
      reads this, disk
    {
      FatRuns.Volume(Table(), freeCount, hint)
    }

    /** The table is a set of disjoint chains and a cached count is exact. */
    ghost predicate Valid()
      reads this, disk
    {
      Mounted() && Sound(Volume())
    }

    /** The status byte: bit 0 says that the volume is dirty, bit 1 that there were errors. */
    function StatusByte(dirty: bool): byte {
      (if dirty then 1 else 0) + (if mountIoError then 2 else 0)
    }

    /** What writes through slices find below them. */
    function Port(): Port {
      Storages.Port(g.flagsAt, StatusByte(true), counts)
    }

    ghost function Image(): Image
      reads this, disk
    {
      Storages.Image(disk[..], currentDirty)
    }

    /** The next `n` bytes written through a slice end up where they should be. */
    predicate Takes(n: nat)
      reads this`currentDirty, this`calls
    {
      Safe(Port(), currentDirty, calls, n)
    }

    /** The next entry of the table is written where it should be. */
    predicate Ready()
      reads this`currentDirty, this`calls
    {
      Takes(EntryWidth(g.ft))
    }

    /** Sets or clears the dirty bit in the boot sector unless it is that way already. */
    method SetDirtyFlag(dirty: bool)
      requires Mounted()
      modifies this`currentDirty, disk
      ensures StatusOnly(g, old(disk[..]), disk[..])
      ensures disk[g.flagsAt]
              == if currentDirty == old(currentDirty) then old(disk[g.flagsAt]) else StatusByte(currentDirty)
      ensures SameData(g, old(disk[..]), disk[..]) && Table() == old(Table())
      ensures currentDirty == (mountDirty || dirty)
    {
      var flag := mountDirty || dirty;
      ghost var d := disk[..];
      if flag != currentDirty {
        WriteAt(disk, g.flagsAt, [StatusByte(flag)]);
        currentDirty := flag;
      }
      StatusWritten(g, d, disk[..]);
    }

    method FatSlice() returns (fat: DiskSlice)
      requires Mounted()
      ensures fresh(fat) && fat.disk == disk && fat.layout == g.fat && Stores(fat, g.ft, g.Entries())
      ensures fat.port == Port() && fat.dirty == currentDirty && fat.calls == calls
      ensures TableIn(fat, g.ft, g.Entries()) == Table()
    {
      fat := new DiskSlice(disk, g.fat, Port(), currentDirty, calls);
    }

    method ClusterIter(cluster: nat) returns (it: ClusterIterator)
      requires Mounted() && InRange(Table(), cluster)
      ensures fresh(it) && fresh(it.fat) && it.fat.disk == disk && it.fat.layout == g.fat
      ensures it.fat.port == Port() && it.fat.dirty == currentDirty && it.fat.calls == calls
      ensures it.ft == g.ft && it.n == g.Entries() && it.Valid() && it.Table() == Table() && it.cluster == Some(cluster)
    {
      var fat := FatSlice();
      it := new ClusterIterator(fat, g.ft, g.Entries(), cluster);
    }

    /** The cluster after `cluster` in its chain. */
    method NextCluster(cluster: nat) returns (r: Option<nat>)
      requires Mounted() && InRange(Table(), cluster) && LinksInRange(Table())
      ensures r == Link(Table(), cluster)
    {
      var it := ClusterIter(cluster);
      r := it.Next();
    }

    /** Takes a free cluster, links it behind `prev`, zeroes it if asked, and updates hint and count. */
    method AllocCluster(prev: Option<nat>, zero: bool, ghost v: Volume) returns (r: Option<nat>)
      requires Valid() && Ready() && Volume() == v && Legal(v.t, OpAlloc(prev))
      modifies this, disk
      ensures Valid() && (Volume(), r) == FatRuns.Alloc(v, prev) && currentDirty == (old(currentDirty) || r.Some?)
      ensures r.None? || !zero ==> SameData(g, old(disk[..]), disk[..])
      ensures r.Some? && zero ==> ZeroedAt(g, old(disk[..]), disk[..], r.value - RESERVED_FAT_ENTRIES)
    {
      hide Sound, FatRuns.Alloc, SameData, ZeroedAt;
      ghost var d := disk[..];
      r := ClaimCluster(prev, v);
      if r.Some? { AllocInRange(v, prev); }
      if r.Some? && zero {
        ZeroCluster(r.value, d);
        assert Volume() == FatRuns.Alloc(v, prev).0;
      }
    }

    /** Allocation up to the zeroing, which does not touch the table. */
    method ClaimCluster(prev: Option<nat>, ghost v: Volume) returns (r: Option<nat>)
      requires Valid() && Ready() && Volume() == v && Legal(v.t, OpAlloc(prev))
      modifies this, disk
      ensures Valid() && (Volume(), r) == FatRuns.Alloc(v, prev) && currentDirty == (old(currentDirty) || r.Some?)
      ensures SameData(g, old(disk[..]), disk[..])
    {
      hide FatOnly, SameData;
      ghost var i := Image();
      r := AllocInTable(prev, v.t);
      FatOnlySameData(g, Port(), i, Image());
      ghost var t := Table();
      if r.Some? {
        hint := Some(r.value + 1);
        freeCount := MapCount(freeCount, -1);
      }
      AllocDone(v, prev, r, t, Volume());
    }

    method ZeroCluster(c: nat, ghost before: seq<byte>)
      requires Mounted() && InRange(Table(), c) && |before| == disk.Length && SameData(g, before, disk[..])
      modifies disk
      ensures Table() == old(Table()) && ZeroedAt(g, before, disk[..], c - RESERVED_FAT_ENTRIES)
    {
      ghost var d := disk[..];
      ZeroBlock(disk, g.data, c - RESERVED_FAT_ENTRIES);
      ZeroedCluster(g, before, d, c - RESERVED_FAT_ENTRIES, disk[..]);
    }

    method AllocInTable(prev: Option<nat>, ghost t: Table) returns (r: Option<nat>)
      requires Mounted() && Table() == t && (prev.Some? ==> RESERVED_FAT_ENTRIES <= prev.value < g.Entries())
      requires Ready() && (hint.Some? ==> hint.value >= RESERVED_FAT_ENTRIES)
      modifies this`currentDirty, this`calls, disk
      ensures r == SearchFree(t, hint) && FatOnly(g.fat, Port(), old(Image()), Image())
      ensures currentDirty == (old(currentDirty) || r.Some?)
      ensures Table() == if r.Some? then Claim(t, prev, r.value) else t
    {
      var fat := FatSlice();
      r := AllocRegular(fat, g.ft, prev, hint, g.data.count, t);
      currentDirty, calls := fat.dirty, fat.calls;
      assert Table() == TableIn(fat, g.ft, g.Entries());
    }

    /** Frees a whole chain and adds its length to the cached count. */
    method FreeClusterChain(cluster: nat, ghost v: Volume)
      requires Valid() && Ready() && Volume() == v && Legal(v.t, OpRelease(cluster))
      modifies this, disk
      ensures Valid() && currentDirty && LinksInRange(v.t) && Volume() == FatRuns.Release(v, cluster)
      ensures SameData(g, old(disk[..]), disk[..])
    {
      hide FatOnly, SameData;
      ReleaseSound(v, cluster);
      ghost var i := Image();
      var it := ClusterIter(cluster);
      var num := it.Free();
      currentDirty, calls := it.fat.dirty, it.fat.calls;
      FatOnlySameData(g, Port(), i, Image());
      freeCount := MapCount(freeCount, num);
    }

    /** Cuts a chain behind `cluster` and adds the number of freed clusters to the cached count. */
    method TruncateClusterChain(cluster: nat, ghost v: Volume)
      requires Valid() && Ready() && Volume() == v && Legal(v.t, OpTruncate(cluster))
      modifies this, disk
      ensures Valid() && currentDirty && LinksInRange(v.t) && Volume() == FatRuns.Truncate(v, cluster)
      ensures SameData(g, old(disk[..]), disk[..])
    {
      hide FatOnly, SameData;
      TruncateSound(v, cluster);
      ghost var i := Image();
      var it := ClusterIter(cluster);
      var num := it.Truncate();
      currentDirty, calls := it.fat.dirty, it.fat.calls;
      FatOnlySameData(g, Port(), i, Image());
      freeCount := MapCount(freeCount, num);
    }

    /** The number of free clusters: the cached one, or a fresh count that is then cached. */
    method Stats() returns (free: nat)
      requires Valid()
      modifies this`freeCount
      ensures Valid() && (Volume(), free) == FatRuns.Stats(old(Volume()))
      ensures free == FreeCount(Table()) && freeCount == Some(free)
    {
      if freeCount.Some? {
        free := freeCount.value;
      } else {
        var fat := FatSlice();
        free := CountFreeClusters(fat, g.ft, g.data.count);
        CountIsFree(g.ft, fat.View(), g.Entries());
        freeCount := Some(free);
      }
    }
  }
}
