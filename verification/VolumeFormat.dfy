/**
  Formatting a volume on the disk: the parameter block, the table and the root directory. What is
  formatted can be mounted, has all of its clusters free, and an empty root directory.
  */
module VolumeFormat {

  import opened Options
  import opened Arithmetic
  import opened Bytes
  import opened Blocks
  import opened Storages
  import opened DiskSlices
  import opened FatChains
  import opened FatWalk
  import opened FatEntry
  import opened FatTable
  import opened FatOps
  import opened FatSizing
  import opened FileSystems
  import R = FatRuns
  import B = BootSectors
  import F = Formatting

  // ---------------------------------------------------------------- the table

  /** What a table starts with: the media byte and marks in the two reserved entries. */
  function Ids(ft: FatType, media: byte): (b: seq<byte>) {
    match ft
    case Fat12 => [media, 0xFF, 0xFF]
    case Fat16 => Le16(0xFF00 + media as int) + Le16(0xFFFF)
    case Fat32 => Le32(0x0FFF_FF00 + media as int) + Le32(0xFFFF_FFFF)
  }

  /** How many entries a table of `size` bytes has. */
  function EntriesIn(ft: FatType, size: nat): nat { size * 8 / Bits(ft) }

  lemma HoldsEntries(ft: FatType, size: nat, c: nat)
    ensures Holds(ft, size, c) <==> c < EntriesIn(ft, size)
  {
  }

  lemma ZeroTable(ft: FatType, n: nat, c: nat)
    requires Holds(ft, n, c)
    ensures Zero(ft, Zeros(n), c)
  {
    var o := EntryOffset(ft, c);
    assert Zeros(n)[o..o + EntryWidth(ft)] == Zeros(EntryWidth(ft));
  }

  /** Marks of the reserved entries do not reach into the first cluster's entry. */
  lemma IdsElsewhere(ft: FatType, s: seq<byte>, media: byte, c: nat)
    requires c >= RESERVED_FAT_ENTRIES && Holds(ft, |s|, c)
    ensures |Ids(ft, media)| <= |s| && Raw(ft, Splice(s, 0, Ids(ft, media)), c) == Raw(ft, s, c)
  {
    var o := EntryOffset(ft, c);
    SpliceElsewhere(s, 0, Ids(ft, media), o, o + EntryWidth(ft));
  }

  /** The entries from `lo` to `hi` are `v`, all others as before. */
  ghost predicate MarkedAs(ft: FatType, s: seq<byte>, s': seq<byte>, lo: nat, hi: nat, v: FatValue) {
    && |s'| == |s|
    && forall c {:trigger Get(ft, s', c)} :: 0 <= c && Holds(ft, |s|, c) ==>
         Get(ft, s', c) == if lo <= c < hi then v else Get(ft, s, c)
  }

  lemma MarkedNext(ft: FatType, s: seq<byte>, s': seq<byte>, lo: nat, c: nat, v: FatValue, s'': seq<byte>)
    requires MarkedAs(ft, s, s', lo, c, v) && lo <= c && Holds(ft, |s|, c) && (v.Bad? || v.EndOfChain?)
    requires s'' == Set(ft, s', c, v)
    ensures MarkedAs(ft, s, s'', lo, c + 1, v)
  {
    forall d | 0 <= d && Holds(ft, |s|, d) ensures Get(ft, s'', d) == if lo <= d < c + 1 then v else Get(ft, s, d) {
      GetAfterSet(ft, s', c, v, d);
      assert Get(ft, s', d) == if lo <= d < c then v else Get(ft, s, d);
    }
  }

  method MarkRange(fat: DiskSlice, ft: FatType, lo: nat, hi: nat, v: FatValue)
    requires fat.Valid() && fat.dirty && (v.Bad? || v.EndOfChain?) && hi <= EntriesIn(ft, fat.layout.size)
    modifies fat, fat.disk
    ensures fat.Valid() && fat.dirty && MarkedAs(ft, old(fat.View()), fat.View(), lo, hi, v)
    ensures FatOnly(fat.layout, fat.port, old(fat.Image()), fat.Image())
  {
    hide FatOnly, MarkedAs, Set, EntriesIn;
    ghost var s, d := fat.View(), fat.Image();
    MarkedNone(ft, s, lo, v);
    FatOnlySame(fat.layout, fat.port, d);
    var c := lo;
    while c < hi
      invariant fat.Valid() && fat.dirty && lo <= c && (c <= hi || c == lo) && MarkedAs(ft, s, fat.View(), lo, c, v)
      invariant FatOnly(fat.layout, fat.port, d, fat.Image())
    {
      ghost var s1, d1 := fat.View(), fat.Image();
      HoldsEntries(ft, fat.layout.size, c);
      WriteEntry(fat, ft, c, v);
      MarkedNext(ft, s, s1, lo, c, v, fat.View());
      FatOnlyTrans(fat.layout, fat.port, d, d1, fat.Image());
      c := c + 1;
    }
    if lo > hi { MarkedEmpty(ft, s, fat.View(), lo, hi, v); }
  }

  lemma MarkedNone(ft: FatType, s: seq<byte>, lo: nat, v: FatValue)
    ensures MarkedAs(ft, s, s, lo, lo, v)
  {
  }

  lemma MarkedEmpty(ft: FatType, s: seq<byte>, s': seq<byte>, lo: nat, hi: nat, v: FatValue)
    requires MarkedAs(ft, s, s', lo, lo, v) && hi < lo
    ensures MarkedAs(ft, s, s', lo, hi, v)
  {
  }

  const FIRST_MARK: nat := 0x0FFF_FFF0

  /**
    A new table: its clusters are free and all entries behind the last one are ends of chains, but
    those numbered like marks or just below them are bad.
    */
  ghost predicate Fresh(ft: FatType, s: seq<byte>, total: nat) {
    && HoldsAll(ft, |s|, total + RESERVED_FAT_ENTRIES)
    && forall c {:trigger Get(ft, s, c)} :: RESERVED_FAT_ENTRIES <= c < EntriesIn(ft, |s|) && Holds(ft, |s|, c) ==>
         Get(ft, s, c) == if FIRST_MARK <= c < Span(Fat32) then Bad
         else if c < total + RESERVED_FAT_ENTRIES then FatValue.Free else EndOfChain
  }

  lemma FreshFrom(ft: FatType, s0: seq<byte>, s1: seq<byte>, s2: seq<byte>, s3: seq<byte>, media: byte, total: nat)
    requires s0 == Zeros(|s0|) && HoldsAll(ft, |s0|, total + RESERVED_FAT_ENTRIES) && total <= MaxClusters(ft)
    requires |Ids(ft, media)| <= |s0| && s1 == Splice(s0, 0, Ids(ft, media))
    requires var end := EntriesIn(ft, |s0|);
             && MarkedAs(ft, s1, s2, total + RESERVED_FAT_ENTRIES, end, EndOfChain)
             && if end > FIRST_MARK then MarkedAs(ft, s2, s3, FIRST_MARK, Min(Span(Fat32), end), Bad) else s3 == s2
    ensures Fresh(ft, s3, total)
  {
    forall c | RESERVED_FAT_ENTRIES <= c < EntriesIn(ft, |s3|) && Holds(ft, |s3|, c)
      ensures Get(ft, s3, c) == if FIRST_MARK <= c < Span(Fat32) then Bad
        else if c < total + RESERVED_FAT_ENTRIES then FatValue.Free else EndOfChain
    {
      IdsElsewhere(ft, s0, media, c);
      ZeroTable(ft, |s0|, c);
      HoldsEntries(ft, |s0|, c);
      ZeroIsFree(ft, s1, c);
      assert Get(ft, s2, c) == if c < total + RESERVED_FAT_ENTRIES then Get(ft, s1, c) else EndOfChain;
    }
  }

  /** Writes a new table into a zeroed one: reserved entries, the entries behind the last cluster, and the marks. */
  method FormatFat(fat: DiskSlice, ft: FatType, media: byte, total: nat)
    requires fat.Valid() && fat.dirty && fat.offset == 0 && fat.View() == Zeros(fat.layout.size)
    requires HoldsAll(ft, fat.layout.size, total + RESERVED_FAT_ENTRIES) && total <= MaxClusters(ft)
    modifies fat, fat.disk
    ensures fat.Valid() && fat.dirty && Fresh(ft, fat.View(), total)
    ensures FatOnly(fat.layout, fat.port, old(fat.Image()), fat.Image())
  {
    hide FatOnly, MarkedAs, Fresh, EntriesIn, Mirrored, Mirrors, Ids;
    ghost var s0, d0 := fat.View(), fat.Image();
    IdsFit(ft, fat.layout.size, media, total);
    var ids := Ids(ft, media);
    var r := fat.WriteAll(ids);
    assert ids[..|ids|] == ids;
    ghost var s1, d1 := fat.View(), fat.Image();
    MirroredView(fat.layout, fat.port, d0, d1, 0, ids);
    var end := EntriesIn(ft, fat.layout.size);
    MarkRange(fat, ft, total + RESERVED_FAT_ENTRIES, end, EndOfChain);
    ghost var s2, d2 := fat.View(), fat.Image();
    FatOnlyTrans(fat.layout, fat.port, d0, d1, d2);
    if end > FIRST_MARK {
      MarkRange(fat, ft, FIRST_MARK, Min(Span(Fat32), end), Bad);
      FatOnlyTrans(fat.layout, fat.port, d0, d2, fat.Image());
    }
    FreshFrom(ft, s0, s1, s2, fat.View(), media, total);
  }

  lemma IdsFit(ft: FatType, size: nat, media: byte, total: nat)
    requires HoldsAll(ft, size, total + RESERVED_FAT_ENTRIES)
    ensures |Ids(ft, media)| <= size
  {
    HoldsBelow(ft, size, 1, total + 1);
  }

  // ---------------------------------------------------------------- what a new table means

  lemma {:induction false} CountAll(t: Table)
    requires forall c :: 0 <= c < |t| ==> t[c].Free?
    ensures Count(t, IsFree) == |t|
  {
    if t != [] { CountAll(t[..|t| - 1]); }
  }

  /** In a new table there is no chain and every cluster is free. */
  lemma NewTable(t: Table)
    requires |t| >= RESERVED_FAT_ENTRIES && forall c :: InRange(t, c) ==> t[c].Free?
    ensures WellFormed(t) && FreeCount(t) == |t| - RESERVED_FAT_ENTRIES && forall e :: !FullChain(t, e)
  {
    var rank := seq(|t|, _ => 0);
    assert Ranked(t, rank);
    var u := t[RESERVED_FAT_ENTRIES..];
    forall c | 0 <= c < |u| ensures u[c].Free? { assert InRange(t, c + RESERVED_FAT_ENTRIES); }
    CountAll(u);
  }

  /** With its first cluster claimed there is one chain, that of the root directory. */
  lemma NewTableWithRoot(t: Table)
    requires |t| > RESERVED_FAT_ENTRIES && forall c :: InRange(t, c) ==> t[c].Free?
    ensures var t' := Claim(t, None, RESERVED_FAT_ENTRIES);
            && WellFormed(t') && FreeCount(t') == |t| - RESERVED_FAT_ENTRIES - 1
            && forall e :: FullChain(t', e) <==> e == [RESERVED_FAT_ENTRIES]
  {
    NewTable(t);
    R.ClaimWellFormed(t, None, RESERVED_FAT_ENTRIES);
    R.AllocCount(t, None, RESERVED_FAT_ENTRIES);
    forall e ensures FullChain(Claim(t, None, RESERVED_FAT_ENTRIES), e) <==> e == [RESERVED_FAT_ENTRIES] {
      StartChain(t, RESERVED_FAT_ENTRIES, e);
    }
  }

  // ---------------------------------------------------------------- where the parts of a volume are

  /**
    The parts of a volume with 512-byte sectors: `q` sectors for each table, `root` for the root directory, `s` for a
    cluster.
    */
  function GeometryFor(ft: FatType, fats: nat, q: nat, root: nat, s: nat, c: nat): Geometry {
    var first := F.Reserved(ft) + fats * q + root;
    Geometry(ft, if ft == Fat32 then 0x41 else 0x25, Layout(F.Reserved(ft) * F.SECTOR, q * F.SECTOR, fats),
             Layout(first * F.SECTOR, s * F.SECTOR, c))
  }

  /** The region of the root directory, which is empty on FAT32. */
  function RootRegion(ft: FatType, fats: nat, q: nat, root: nat): Layout {
    Layout((F.Reserved(ft) + fats * q) * F.SECTOR, root * F.SECTOR, 1)
  }

  /** What a parameter block says of them. */
  function GeometryOf(p: B.Bpb, ft: FatType): (g: Geometry)
    requires p.head.sectorsPerCluster > 0
  {
    var root := F.RootDirSectors(p.head.rootEntries, F.SECTOR);
    var first := F.Reserved(ft) + p.head.fats * F.FatSectors(p) + root;
    var c := if first <= F.TotalSectors(p) then (F.TotalSectors(p) - first) / p.head.sectorsPerCluster else 0;
    GeometryFor(ft, p.head.fats, F.FatSectors(p), root, p.head.sectorsPerCluster, c)
  }

  function RootOf(p: B.Bpb, ft: FatType): (l: Layout) {
    RootRegion(ft, p.head.fats, F.FatSectors(p), F.RootDirSectors(p.head.rootEntries, F.SECTOR))
  }

  lemma SmallCluster(total: nat, ft: Option<FatType>)
    requires 1024 < total <= 8192
    ensures F.ClusterSectors(total, ft) <= 4
  {
    var bytes := total * F.SECTOR;
    F.Pow2Values();
    assert F.Pow2(21) == 2 * F.MB && F.Pow2(22) == 4 * F.MB;
    var r := F.Log2Up(bytes, 0);
    if r > 22 { F.Pow2Grows(22, r - 1); }
    F.Pow2Grows(r, 22);
  }

  /** There is at least one cluster. */
  lemma SomeData(t0: nat, s: nat, e: nat, fats: nat, q: nat)
    requires s > 0 && e >= 128 * s && 1 <= fats <= 2 && q > 0 && (q - 1) * (e + fats) < t0 + 2 * s && t0 >= s + 2
    ensures fats * q + s <= t0
  {
    var p := q - 1;
    if p > 0 {
      Distribute(e, fats, p);
      Scale(p, 128 * s, e);
      var x := p * s;
      assert p * (128 * s) == 128 * x;
      TimesAtLeast(p, s);
      TimesAtLeast(s, p);
      assert s * p == x;
    }
  }

  lemma RootSmall(entries: u16)
    ensures F.RootDirSectors(entries, F.SECTOR) <= 4096
  {
  }

  lemma EnoughSectors(o: F.FormatOptions, total: nat, ft: FatType, root: nat, s: nat)
    requires 1024 < total < RANGE32 && total - F.Reserved(ft) - root >= 9 && SectorsPerCluster(s)
    requires s == F.ClusterSectors(total, o.fatType) && root == F.RootFor(ft, o.rootEntries, F.SECTOR)
    ensures total - F.Reserved(ft) - root >= s + 2
  {
    RootSmall(o.rootEntries);
    if total <= 8192 { SmallCluster(total, o.fatType); }
  }

  /** All there is to know about the volume that formatting chooses. */
  ghost predicate Chosen(o: F.FormatOptions, total: nat, ft: FatType, q: nat, root: nat, s: nat, c: nat) {
    && 1024 < total < RANGE32 && 1 <= o.fats <= 2 && SectorsPerCluster(s) && total <= F.MAX_CLUSTERS * s
    && s == F.ClusterSectors(total, o.fatType) && root == F.RootFor(ft, o.rootEntries, F.SECTOR)
    && F.TryGeometry(total, F.SECTOR, s, ft, root, o.fats) == Some(q)
    && F.Accepted(total, s, ft, root, o.fats, q) && c == (total - F.Reserved(ft) - root - o.fats * q) / s
  }

  lemma Chooses(o: F.FormatOptions, total: nat) returns (ft: FatType, q: nat, root: nat, s: nat, c: nat)
    requires 1024 < total < RANGE32 && 1 <= o.fats <= 2 && F.FormatBpb(o, total).Some?
    ensures Chosen(o, total, ft, q, root, s, c)
    ensures F.FormatBpb(o, total).value == (F.FillBpb(o, total, F.SECTOR, s, ft, q), ft)
    ensures GeometryOf(F.FormatBpb(o, total).value.0, ft) == GeometryFor(ft, o.fats, q, root, s, c)
    ensures RootOf(F.FormatBpb(o, total).value.0, ft) == RootRegion(ft, o.fats, q, root)
  {
    hide F.ClusterSectors, F.TryGeometry, FromClusters, F.BytesPerCluster;
    F.DefaultSectors(total, o.fatType);
    s := F.ClusterSectors(total, o.fatType);
    ft, q := F.DefaultGeometry(o, total).value.0, F.DefaultGeometry(o, total).value.1;
    root := F.RootFor(ft, o.rootEntries, F.SECTOR);
    c := (total - F.Reserved(ft) - root - o.fats * q) / s;
    F.FilledFields(o, total, s, ft, q);
  }

  lemma EntriesHeld(ft: FatType, q: nat, c: nat)
    requires c < FatEntries(q, F.SECTOR, ft)
    ensures Holds(ft, q * F.SECTOR, c)
  {
    HoldsEntries(ft, q * F.SECTOR, c);
  }

  /** The numbers of such a volume: its table holds its clusters, and there is at least one. */
  lemma ChosenNumbers(o: F.FormatOptions, total: nat, ft: FatType, q: nat, root: nat, s: nat, c: nat)
    requires Chosen(o, total, ft, q, root, s, c)
    ensures F.Reserved(ft) + o.fats * q + root + c * s <= total
    ensures HoldsAll(ft, q * F.SECTOR, c + RESERVED_FAT_ENTRIES) && 0 < c <= F.MAX_CLUSTERS && c <= F.MostClusters(ft)
  {
    hide F.ClusterSectors, F.RootFor, EntriesPerCluster, SectorsPerFat, SectorsPerCluster, FatEntries, FromClusters;
    var t0, e := total - F.Reserved(ft) - root, EntriesPerCluster(F.SECTOR, s, ft);
    F.TriedGeometry(total, s, ft, root, o.fats, q);
    F.TriedBound(t0, s, ft, o.fats, e, q);
    F.ClusterNotEmpty(s);
    var d := t0 - o.fats * q;
    SizedBounds(t0, F.SECTOR, s, ft, o.fats, e, q, d, c);
    FatHoldsClusters(t0, F.SECTOR, s, ft, o.fats, e, q, d, c);
    EntriesHeld(ft, q, c + 1);
    EnoughSectors(o, total, ft, root, s);
    SomeData(t0, s, e, o.fats, q);
    ClusterBounds(d, s, c, F.MAX_CLUSTERS);
  }

  lemma ClusterBounds(d: nat, s: nat, c: nat, m: nat)
    requires 0 < s <= d && c * s <= d < c * s + s && d <= m * s
    ensures 0 < c <= m
  {
    if c > m { Grows(c, m, s); }
  }

  /** The parts of a volume that are laid out like this fit the storage and each other. */
  lemma LaidOut(ft: FatType, fats: nat, q: nat, root: nat, s: nat, c: nat, total: nat)
    requires F.Reserved(ft) + fats * q + root + c * s <= total
    ensures var g, l := GeometryFor(ft, fats, q, root, s, c), RootRegion(ft, fats, q, root);
            g.fat.End() == l.begin && l.End() == g.data.begin && g.data.End() <= total * F.SECTOR
  {
    var g, l := GeometryFor(ft, fats, q, root, s, c), RootRegion(ft, fats, q, root);
    BaseIsProduct(g.fat, fats);
    BaseIsProduct(g.data, c);
    BaseIsProduct(l, 1);
    Associate(fats, q, F.SECTOR);
    Associate(c, s, F.SECTOR);
    Scaled(F.Reserved(ft), fats * q, root, c * s, total, F.SECTOR);
  }

  /** A volume that formatting accepts can be mounted, and all searches on it are right. */
  lemma FormattedFits(o: F.FormatOptions, total: nat, ft: FatType, q: nat, root: nat, s: nat, c: nat)
    requires Chosen(o, total, ft, q, root, s, c)
    ensures var g, l := GeometryFor(ft, o.fats, q, root, s, c), RootRegion(ft, o.fats, q, root);
            && g.Fits(total * F.SECTOR) && l.begin == g.fat.End() && l.End() == g.data.begin && g.fat.begin >= F.SECTOR
            && g.data.size % 32 == 0 && l.size % 32 == 0
  {
    hide Layout.Base, F.TryGeometry, F.ClusterSectors, F.RootFor, F.Accepted, HoldsAll, RootRegion;
    ChosenNumbers(o, total, ft, q, root, s, c);
    LaidOut(ft, o.fats, q, root, s, c, total);
    WholeSlots(ft, o.fats, q, root, s, c);
  }

  /** Clusters and the root region consist of whole directory records. */
  lemma WholeSlots(ft: FatType, fats: nat, q: nat, root: nat, s: nat, c: nat)
    ensures GeometryFor(ft, fats, q, root, s, c).data.size % 32 == 0 && RootRegion(ft, fats, q, root).size % 32 == 0
    ensures GeometryFor(ft, fats, q, root, s, c).fat.begin >= F.SECTOR && RootRegion(ft, fats, q, root).count == 1
  {
  }

  lemma Scaled(a: nat, b: nat, c: nat, d: nat, total: nat, k: nat)
    requires a + b + c + d <= total
    ensures (a + b) * k == a * k + b * k && (a + b + c) * k == a * k + b * k + c * k
    ensures (a + b + c) * k + d * k <= total * k
  {
    Distribute(a, b, k);
    Distribute(a + b, c, k);
    Distribute(a + b + c, d, k);
    Scale(k, a + b + c + d, total);
  }

  // ---------------------------------------------------------------- writing a volume

  /** Zeros over all mirrors make each of them zero. */
  lemma ClearedMirrors(l: Layout, d: seq<byte>, d': seq<byte>)
    requires l.Fits(|d|) && l.count > 0 && l.begin <= l.End() && d' == Splice(d, l.begin, Zeros(l.End() - l.begin))
    ensures SameOutside(l, d, d') && Block(l, d', 0) == Zeros(l.size) && MirrorsEqual(l, d')
  {
    SpliceElsewhere(d, l.begin, Zeros(l.End() - l.begin), 0, l.begin);
    SpliceElsewhere(d, l.begin, Zeros(l.End() - l.begin), l.End(), |d|);
    forall m | 0 <= m < l.count ensures Block(l, d', m) == Zeros(l.size) {
      BlockFits(l, |d|, m);
    }
  }

  /** Where no volume is mounted there is no status byte to be written. */
  lemma DirtyBeside(l: Layout, p: Port, i: Image, i': Image)
    requires l.Fits(|i.bytes|) && l.count > 0 && l.begin <= l.End() && FatOnly(l, p, i, i') && i.dirty
    ensures SameOutside(l, i.bytes, i'.bytes) && (MirrorsEqual(l, i.bytes) ==> MirrorsEqual(l, i'.bytes))
  {
  }

  /** A new table in all mirrors; nothing else is touched. */
  method NewTables(disk: array<byte>, g: Geometry, media: byte, counts: nat -> Taken)
    requires g.Fits(disk.Length)
    modifies disk
    ensures Fresh(g.ft, Block(g.fat, disk[..], 0), g.data.count) && MirrorsEqual(g.fat, disk[..])
    ensures SameOutside(g.fat, old(disk[..]), disk[..])
  {
    hide Fresh, MirrorsEqual, SameOutside;
    ghost var d := disk[..];
    BlockFits(g.fat, disk.Length, 0);
    WriteZeros(disk, g.fat.begin, g.fat.End() - g.fat.begin);
    ghost var d1 := disk[..];
    ClearedMirrors(g.fat, d, d1);
    var fat := new DiskSlice(disk, g.fat, Port(g.flagsAt, 0, counts), true, 0);
    FormatFat(fat, g.ft, media, g.data.count);
    DirtyBeside(g.fat, fat.port, Image(d1, true), fat.Image());
    SameOutsideTrans(g.fat, d, d1, disk[..]);
  }

  /** What a volume is right after formatting. */
  ghost predicate NewVolume(g: Geometry, l: Layout, d: seq<byte>)
    requires g.Fits(|d|) && l.Fits(|d|) && l.count == 1
  {
    var t, is32 := TableAt(g, d), g.ft == Fat32;
    && WellFormed(t) && (forall e :: FullChain(t, e) <==> is32 && e == [RESERVED_FAT_ENTRIES])
    && FreeCount(t) == g.data.count - (if is32 then 1 else 0) && MirrorsEqual(g.fat, d)
    && if is32 then g.data.count > 0 && Block(g.data, d, 0) == Zeros(g.data.size) else Block(l, d, 0) == Zeros(l.size)
  }

  /** The root region lies between table and clusters, and the clusters are far from the marks. */
  ghost predicate Ready(g: Geometry, l: Layout, length: nat) {
    && g.Fits(length) && l.count == 1 && l.begin == g.fat.End() && l.End() == g.data.begin
    && 0 < g.data.count && g.data.count + RESERVED_FAT_ENTRIES <= FIRST_MARK
  }

  lemma FreshIsFree(g: Geometry, d: seq<byte>)
    requires g.Fits(|d|) && Fresh(g.ft, Block(g.fat, d, 0), g.data.count)
             && g.data.count + RESERVED_FAT_ENTRIES <= FIRST_MARK
    ensures forall c :: InRange(TableAt(g, d), c) ==> TableAt(g, d)[c].Free?
  {
    var s, t := Block(g.fat, d, 0), TableAt(g, d);
    forall c | InRange(t, c) ensures t[c].Free? { assert t[c] == Get(g.ft, s, c); }
  }

  /** Zeroing the root region does not touch the table. */
  lemma RootZeroed(g: Geometry, l: Layout, d: seq<byte>, d': seq<byte>)
    requires g.Fits(|d|) && Ready(g, l, |d|) && d' == Splice(d, l.begin, Zeros(l.size))
    ensures Block(l, d', 0) == Zeros(l.size) && Block(g.fat, d', 0) == Block(g.fat, d, 0)
    ensures MirrorsEqual(g.fat, d) ==> MirrorsEqual(g.fat, d')
    ensures d'[..g.fat.begin] == d[..g.fat.begin]
  {
    BlockFits(l, |d|, 0);
    SpliceRead(d, l.begin, Zeros(l.size));
    forall m | 0 <= m < g.fat.count ensures Block(g.fat, d', m) == Block(g.fat, d, m) {
      BlockFits(g.fat, |d|, m);
      SpliceElsewhere(d, l.begin, Zeros(l.size), g.fat.Base(m), g.fat.Base(m) + g.fat.size);
    }
    SpliceElsewhere(d, l.begin, Zeros(l.size), 0, g.fat.begin);
  }

  /** The first search on a new table finds the first cluster. */
  lemma FirstCluster(s: seq<byte>, total: nat, r: Result<nat, FatError>)
    requires Fresh(Fat32, s, total) && 0 < total && total + RESERVED_FAT_ENTRIES <= FIRST_MARK
             && Answered(Fat32, s, None, 1, r)
    ensures r == Ok(RESERVED_FAT_ENTRIES)
  {
    HoldsBelow(Fat32, |s|, RESERVED_FAT_ENTRIES, total + 1);
    assert Get(Fat32, s, RESERVED_FAT_ENTRIES).Free?;
    FreeIsZero(Fat32, s, RESERVED_FAT_ENTRIES);
  }

  /** The root directory of a FAT32 volume: the first cluster, zeroed. */
  method NewRootCluster(disk: array<byte>, g: Geometry, l: Layout, counts: nat -> Taken)
    requires Ready(g, l, disk.Length) && g.ft == Fat32
    requires Fresh(g.ft, Block(g.fat, disk[..], 0), g.data.count) && MirrorsEqual(g.fat, disk[..])
    modifies disk
    ensures NewVolume(g, l, disk[..]) && disk[..][..g.fat.begin] == old(disk[..])[..g.fat.begin]
  {
    hide NewVolume, Fresh, FatOnly, MirrorsEqual, Claimed, Searched;
    ghost var d := disk[..];
    var fat := new DiskSlice(disk, g.fat, Port(g.flagsAt, 0, counts), true, 0);
    ghost var s := fat.View();
    FreshHolds(g, s);
    var r := FatOps.AllocCluster(fat, Fat32, None, None, 1);
    FirstCluster(s, g.data.count, r);
    ghost var d1 := disk[..];
    ZeroBlock(disk, g.data, r.value - RESERVED_FAT_ENTRIES);
    RootClaimed(g, l, fat.port, d, d1, disk[..]);
  }

  lemma FreshHolds(g: Geometry, s: seq<byte>)
    requires g.data.count > 0 && Fresh(g.ft, s, g.data.count)
    ensures HoldsAll(g.ft, |s|, 1 + RESERVED_FAT_ENTRIES)
  {
    HoldsBelow(g.ft, |s|, RESERVED_FAT_ENTRIES, g.data.count + 1);
  }

  lemma RootClaimed(g: Geometry, l: Layout, p: Port, d: seq<byte>, d1: seq<byte>, d2: seq<byte>)
    requires Ready(g, l, |d|) && g.ft == Fat32 && Fresh(g.ft, Block(g.fat, d, 0), g.data.count)
             && MirrorsEqual(g.fat, d)
    requires p.flagsAt == g.flagsAt && FatOnly(g.fat, p, Image(d, true), Image(d1, true))
    requires Wrote(g.data, d1, 0, Zeros(g.data.size), 0, d2)
    requires Holds(g.ft, g.fat.size, RESERVED_FAT_ENTRIES)
    requires Block(g.fat, d1, 0) == Claimed(g.ft, Block(g.fat, d, 0), None, RESERVED_FAT_ENTRIES)
    ensures |d2| == |d| && NewVolume(g, l, d2) && d2[..g.fat.begin] == d[..g.fat.begin]
  {
    FreshIsFree(g, d);
    NewTableWithRoot(TableAt(g, d));
    ClaimedTable(g.ft, Block(g.fat, d, 0), g.data.count, None, RESERVED_FAT_ENTRIES);
    FatOnlySameData(g, p, Image(d, true), Image(d1, true));
    BlockFits(g.fat, |d|, 0);
    DirtyBeside(g.fat, p, Image(d, true), Image(d1, true));
    ZeroedCluster(g, d, d1, 0, d2);
    BehindTable(g, d1, 0, Zeros(g.data.size), 0, d2);
    BlockFits(g.data, |d|, 0);
    SpliceElsewhere(d1, g.data.Base(0), Zeros(g.data.size), 0, g.fat.begin);
  }

  lemma RootRegionNew(g: Geometry, l: Layout, d: seq<byte>)
    requires Ready(g, l, |d|) && g.ft != Fat32 && Fresh(g.ft, Block(g.fat, d, 0), g.data.count)
             && MirrorsEqual(g.fat, d)
    requires Block(l, d, 0) == Zeros(l.size)
    ensures NewVolume(g, l, d)
  {
    FreshIsFree(g, d);
    NewTable(TableAt(g, d));
  }

  /** Writes the parameter block, the tables and the root directory. */
  method FormatVolume(disk: array<byte>, g: Geometry, l: Layout, media: byte, boot: seq<byte>, counts: nat -> Taken)
    requires Ready(g, l, disk.Length) && 11 + |boot| <= g.fat.begin
    modifies disk
    ensures NewVolume(g, l, disk[..]) && disk[..][11..11 + |boot|] == boot
  {
    hide NewVolume, Fresh, MirrorsEqual;
    WriteAt(disk, 11, boot);
    ghost var d := disk[..];
    SpliceRead(old(disk[..]), 11, boot);
    NewTables(disk, g, media, counts);
    ghost var d1 := disk[..];
    WriteZeros(disk, l.begin, l.size);
    ghost var d2 := disk[..];
    RootZeroed(g, l, d1, d2);
    if g.ft == Fat32 {
      NewRootCluster(disk, g, l, counts);
    } else {
      RootRegionNew(g, l, d2);
    }
    BootKept(g, d, disk[..], boot);
  }

  lemma BootKept(g: Geometry, d: seq<byte>, d': seq<byte>, boot: seq<byte>)
    requires g.fat.begin <= |d| == |d'| && 11 + |boot| <= g.fat.begin && d'[..g.fat.begin] == d[..g.fat.begin]
    requires d[11..11 + |boot|] == boot
    ensures d'[11..11 + |boot|] == boot
  {
    assert d[..g.fat.begin][11..11 + |boot|] == d[11..11 + |boot|];
    assert d'[..g.fat.begin][11..11 + |boot|] == d'[11..11 + |boot|];
  }

  /** What formatting chooses can be written to the storage. */
  lemma ReadyToFormat(o: F.FormatOptions, total: nat, length: nat, p: B.Bpb, ft: FatType)
    requires 1024 < total < RANGE32 && 1 <= o.fats <= 2 && |o.volumeLabel| == 11 && total * F.SECTOR <= length
    requires F.FormatBpb(o, total) == Some((p, ft))
    ensures p.head.sectorsPerCluster > 0 && Ready(GeometryOf(p, ft), RootOf(p, ft), length)
    ensures GeometryOf(p, ft).Fits(length) && RootOf(p, ft).Fits(length) && RootOf(p, ft).count == 1
    ensures 11 + |B.Serialize(p)| <= GeometryOf(p, ft).fat.begin
  {
    hide Chosen, F.FormatBpb, Layout.Base, HoldsAll, F.RootDirSectors;
    var ft', q, root, s, c := Chooses(o, total);
    FormattedFits(o, total, ft, q, root, s, c);
    FewClusters(o, total, ft, q, root, s, c);
    WholeSlots(ft, o.fats, q, root, s, c);
    BlockLength(p);
  }

  lemma FewClusters(o: F.FormatOptions, total: nat, ft: FatType, q: nat, root: nat, s: nat, c: nat)
    requires Chosen(o, total, ft, q, root, s, c)
    ensures 0 < c <= F.MAX_CLUSTERS && s > 0
  {
    ChosenNumbers(o, total, ft, q, root, s, c);
  }

  lemma BlockLength(p: B.Bpb)
    requires p.Ok()
    ensures |B.Serialize(p)| <= 79
  {
    B.HeadRoundTrip(p.head, []);
    B.ExtensionRoundTrip(p.ext, []);
    B.TailRoundTrip(p.tail);
  }

  lemma BlockReadBack(o: F.FormatOptions, total: nat, d: seq<byte>, p: B.Bpb, ft: FatType)
    requires 1024 < total < RANGE32 && 1 <= o.fats <= 2 && o.rootEntries > 0 && |o.volumeLabel| == 11
    requires F.FormatBpb(o, total) == Some((p, ft)) && |d| >= F.SECTOR && |B.Serialize(p)| <= 79
    requires d[11..11 + |B.Serialize(p)|] == B.Serialize(p)
    ensures B.Deserialize(d[11..]) == p && F.Validate(p) == Ok(ft)
  {
    var boot := B.Serialize(p);
    var rest := d[11 + |boot|..];
    assert d[11..] == boot + rest;
    F.FormattedMounts(o, total, rest);
  }

  lemma SoundVolume(g: Geometry, l: Layout, d: seq<byte>)
    requires g.Fits(|d|) && l.Fits(|d|) && l.count == 1 && NewVolume(g, l, d)
    ensures R.Sound(R.Volume(TableAt(g, d), None, None))
  {
  }

  /**
    Formats the storage with the default cluster size and mounts it. The parameter block is read back
    as it was written and passes the checks; the mounted volume is sound, its free count is the number
    of its clusters, less the one a FAT32 root takes, and its root directory holds only zeros.
    */
  method FormatAndMount(disk: array<byte>, o: F.FormatOptions, counts: nat -> Taken) returns (r: Option<FileSystem>)
    requires 1024 < disk.Length / F.SECTOR < RANGE32 && 1 <= o.fats <= 2 && o.rootEntries > 0 && |o.volumeLabel| == 11
    modifies disk
    ensures r.Some? <==> F.DefaultGeometry(o, disk.Length / F.SECTOR).Some?
    ensures r.None? ==> disk[..] == old(disk[..])
    ensures r.Some? ==> fresh(r.value) && r.value.disk == disk && r.value.Valid()
    ensures r.Some? ==> Formatted(o, disk.Length / F.SECTOR, disk[..], r.value.g)
  {
    hide F.FormatBpb, F.DefaultGeometry, GeometryOf, RootOf, NewVolume, F.Validate, B.Deserialize, B.Serialize;
    hide Geometry.Fits, Layout.Fits, Ready, R.Sound;
    var total := disk.Length / F.SECTOR;
    F.FormatAccepts(o, total);
    var b := F.FormatBpb(o, total);
    if b.None? { return None; }
    var (p, ft) := b.value;
    BlockOk(o, total, p, ft);
    ReadyToFormat(o, total, disk.Length, p, ft);
    BlockLength(p);
    var g, l := GeometryOf(p, ft), RootOf(p, ft);
    FormatVolume(disk, g, l, p.head.media, B.Serialize(p), counts);
    BlockReadBack(o, total, disk[..], p, ft);
    SoundVolume(g, l, disk[..]);
    var fs := new FileSystem(disk, g, false, false, None, None, counts);
    r := Some(fs);
  }

  lemma BlockOk(o: F.FormatOptions, total: nat, p: B.Bpb, ft: FatType)
    requires 1024 < total < RANGE32 && 1 <= o.fats <= 2 && |o.volumeLabel| == 11
    requires F.FormatBpb(o, total) == Some((p, ft))
    ensures p.Ok()
  {
  }

  /** The storage is a new volume, and its parameter block says which one. */
  ghost predicate Formatted(o: F.FormatOptions, total: nat, d: seq<byte>, g: Geometry)
    requires 1024 < total < RANGE32 && 1 <= o.fats <= 2 && |d| >= F.SECTOR && g.Fits(|d|)
  {
    F.FormatBpb(o, total).Some?
    && var (p, ft) := F.FormatBpb(o, total).value;
       && B.Deserialize(d[11..]) == p && F.Validate(p) == Ok(ft) && p.head.sectorsPerCluster > 0
       && g == GeometryOf(p, ft)
       && RootOf(p, ft).Fits(|d|) && NewVolume(g, RootOf(p, ft), d)
  }
}
