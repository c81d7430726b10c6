/** Formatting: the cluster size, the type and the parameter block that are chosen for a volume. */
module Formatting {

  import opened Options
  import opened Arithmetic
  import opened Bytes
  import opened FatChains
  import opened FatEntry
  import opened FatSizing
  import opened BootSectors

  const MB: nat := 0x10_0000
  const MAX_CLUSTER_SIZE: nat := 0x8000
  /** No default cluster size makes more clusters than this, 2 to the 26. */
  const MAX_CLUSTERS: nat := 0x400_0000

  // ---------------------------------------------------------------- powers of two

  function Pow2(k: nat): (p: nat)
    ensures p > 0
  {
    if k == 0 then 1 else 2 * Pow2(k - 1)
  }

  lemma {:induction false} Pow2Add(j: nat, k: nat)
    ensures Pow2(j + k) == Pow2(j) * Pow2(k)
  {
    if j > 0 {
      Pow2Add(j - 1, k);
      assert 2 * (Pow2(j - 1) * Pow2(k)) == (2 * Pow2(j - 1)) * Pow2(k);
    }
  }

  lemma Pow2Grows(j: nat, k: nat)
    requires j <= k
    ensures Pow2(j) <= Pow2(k)
  {
    Pow2Add(k - j, j);
    TimesAtLeast(Pow2(k - j), Pow2(j));
  }

  lemma Pow2Values()
    ensures Pow2(9) == 0x200 && Pow2(10) == 0x400 && Pow2(15) == 0x8000 && Pow2(20) == MB && Pow2(26) == 0x400_0000
    ensures Pow2(31) == 0x8000_0000 && Pow2(41) == 0x200_0000_0000
  {
    assert Pow2(4) == 16 && Pow2(5) == 32 && Pow2(6) == 64;
    Pow2Multiples();
  }

  lemma Pow2Multiples()
    requires Pow2(4) == 16 && Pow2(5) == 32 && Pow2(6) == 64
    ensures Pow2(9) == 0x200 && Pow2(10) == 0x400 && Pow2(15) == 0x8000 && Pow2(20) == MB && Pow2(26) == 0x400_0000
    ensures Pow2(31) == 0x8000_0000 && Pow2(41) == 0x200_0000_0000
  {
    hide Pow2;
    Pow2Add(4, 5);
    Pow2Add(5, 5);
    Pow2Add(10, 5);
    Pow2Add(10, 10);
    Pow2Add(20, 6);
    Pow2Add(26, 5);
    Pow2Add(31, 10);
  }

  /** Dividing powers of two subtracts their exponents. */
  lemma Pow2Div(k: nat, j: nat)
    requires j <= k
    ensures Pow2(k) / Pow2(j) == Pow2(k - j)
  {
    Pow2Add(k - j, j);
    DivMul(Pow2(k - j), Pow2(j));
  }

  /** The least exponent whose power is at least `x`. */
  function Log2Up(x: nat, k: nat): (r: nat)
    ensures r >= k && x <= Pow2(r) && (r > k ==> Pow2(r - 1) < x)
    decreases x - Pow2(k)
  {
    if x <= Pow2(k) then k else Log2Up(x, k + 1)
  }

  function NextPowerOfTwo(x: nat): (p: nat)
    ensures x <= p
  {
    Pow2(Log2Up(x, 0))
  }

  /** The exponent for a volume between 512 KiB and 2 TiB. */
  lemma VolumeExponent(x: nat)
    requires 0x8_0000 < x <= 0x200_0000_0000
    ensures 20 <= Log2Up(x, 0) <= 41
  {
    Pow2Values();
    var r := Log2Up(x, 0);
    assert Pow2(20) == 2 * Pow2(19);
    if r < 20 { Pow2Grows(r, 19); }
    if r > 41 { Pow2Grows(41, r - 1); }
  }

  // ---------------------------------------------------------------- the default cluster size

  function Max(a: nat, b: nat): nat { if a < b then b else a }

  /** The type that a volume's size suggests; it only serves to choose the cluster size. */
  function EstimateFatType(total: nat): FatType {
    if total < 4 * MB then Fat12 else if total < 512 * MB then Fat16 else Fat32
  }

  function WantedCluster(total: nat, ft: FatType): nat {
    match ft
    case Fat12 => NextPowerOfTwo(total) / MB * 512
    case Fat16 => if total <= 16 * MB then 1024 else if total <= 128 * MB then 2048
      else NextPowerOfTwo(total) / (64 * MB) * 1024
    case Fat32 => if total <= 260 * MB then 512 else if total <= 8192 * MB then 4096
      else NextPowerOfTwo(total) / (2048 * MB) * 1024
  }

  function BytesPerCluster(total: nat, bytesPerSector: nat, ft: FatType): nat {
    Min(Max(WantedCluster(total, ft), bytesPerSector), MAX_CLUSTER_SIZE)
  }

  /**
    `n` is a power of two from 512 on, and a volume has at most 2 to the 26 clusters of `n` bytes, or as many as if
    they had 32 KiB.
    */
  ghost predicate GoodCluster(total: nat, n: nat, j: nat) {
    j >= 9 && n == Pow2(j) && (total <= MAX_CLUSTERS * n || j > 15)
  }

  lemma Shifted(k: nat, j: nat, i: nat)
    requires j <= k
    ensures Pow2(k) / Pow2(j) * Pow2(i) == Pow2(k - j + i)
  {
    Pow2Div(k, j);
    Pow2Add(k - j, i);
  }

  lemma FewClusters(total: nat, k: nat, n: nat)
    requires total <= Pow2(k) && k <= 26 + n
    ensures total <= MAX_CLUSTERS * Pow2(n)
  {
    Pow2Values();
    Pow2Add(26, n);
    Pow2Grows(k, 26 + n);
  }

  lemma WantedIsGood(total: nat, ft: FatType) returns (j: nat)
    requires 0x8_0000 < total <= 0x200_0000_0000
    ensures GoodCluster(total, WantedCluster(total, ft), j)
  {
    Pow2Values();
    VolumeExponent(total);
    var k := Log2Up(total, 0);
    match ft
    case Fat12 =>
      j := k - 11;
      Shifted(k, 20, 9);
      FewClusters(total, k, j);
    case Fat16 =>
      if total <= 16 * MB {
        j := 10;
      } else if total <= 128 * MB {
        j := 11;
      } else {
        j := k - 16;
        LargerExponent(total, k, 27);
        Shifted(k, 26, 10);
        FewClusters(total, k, j);
      }
    case Fat32 =>
      if total <= 260 * MB {
        j := 9;
      } else if total <= 8192 * MB {
        j := 12;
      } else {
        j := k - 21;
        LargerExponent(total, k, 33);
        Shifted(k, 31, 10);
        FewClusters(total, k, j);
      }
  }

  lemma LargerExponent(total: nat, k: nat, i: nat)
    requires total <= Pow2(k) && Pow2(i) < total
    ensures k > i
  {
    if k <= i { Pow2Grows(k, i); }
  }

  /**
    The default cluster size is a power of two from 512 to 32768 that keeps the number of clusters below 2 to the 26.
    */
  lemma DefaultCluster(total: nat, ft: FatType) returns (j: nat)
    requires 0x8_0000 < total <= 0x200_0000_0000
    ensures 9 <= j <= 15 && BytesPerCluster(total, 512, ft) == Pow2(j) && total <= MAX_CLUSTERS * Pow2(j)
  {
    Pow2Values();
    j := WantedIsGood(total, ft);
    Pow2Grows(9, j);
    if j > 15 {
      Pow2Grows(15, j);
      j := 15;
      Pow2Add(26, 15);
    } else {
      Pow2Grows(j, 15);
    }
  }

  // ---------------------------------------------------------------- choosing the type

  function Reserved(ft: FatType): nat { if ft == Fat32 then 8 else 1 }

  function RootDirSectors(entries: nat, b: nat): nat
    requires b > 0
  {
    (entries * 32 + b - 1) / b
  }

  /** The most clusters a volume is formatted with; fewer than can be mounted. */
  function MostClusters(ft: FatType): nat {
    match ft
    case Fat12 => 4084
    case Fat16 => 65524
    case Fat32 => 0x0FFF_FFF4
  }

  /** The sectors for each FAT of a volume of this type, if it can be one. */
  function TryGeometry(total: nat, b: nat, s: nat, ft: FatType, root: nat, fats: nat): (r: Option<nat>)
    requires SectorSize(b) && SectorsPerCluster(s) && 1 <= fats <= 2
    ensures r.Some? ==> total > Reserved(ft) + root + 8
  {
    if total <= Reserved(ft) + root + 8 then None
    else
      var t0 := total - Reserved(ft) - root;
      var q := SectorsPerFat(t0, b, s, ft, fats);
      DataRemains(t0, b, s, ft, fats);
      var c := (t0 - fats * q) / s;
      if FromClusters(c) != ft || c > MostClusters(ft) then None else Some(q)
  }

  function RootFor(ft: FatType, entries: nat, b: nat): nat
    requires b > 0
  {
    if ft == Fat32 then 0 else RootDirSectors(entries, b)
  }

  /** FAT32 is tried first, then FAT16, then FAT12. */
  function DetermineGeometry(total: nat, b: nat, s: nat, entries: nat, fats: nat): (r: Option<(FatType, nat)>)
    requires SectorSize(b) && SectorsPerCluster(s) && 1 <= fats <= 2
    ensures r.Some? ==> TryGeometry(total, b, s, r.value.0, RootFor(r.value.0, entries, b), fats) == Some(r.value.1)
    ensures r.Some? ==> forall ft :: Bits(ft) > Bits(r.value.0) ==>
              TryGeometry(total, b, s, ft, RootFor(ft, entries, b), fats).None?
    ensures r.None? <==> forall ft :: TryGeometry(total, b, s, ft, RootFor(ft, entries, b), fats).None?
  {
    var g32 := TryGeometry(total, b, s, Fat32, RootFor(Fat32, entries, b), fats);
    if g32.Some? then Some((Fat32, g32.value))
    else
      var g16 := TryGeometry(total, b, s, Fat16, RootFor(Fat16, entries, b), fats);
      if g16.Some? then Some((Fat16, g16.value))
      else
        var g12 := TryGeometry(total, b, s, Fat12, RootFor(Fat12, entries, b), fats);
        if g12.Some? then Some((Fat12, g12.value)) else None
  }

  // ---------------------------------------------------------------- checking a parameter block

  datatype MountError = Corrupted | Overflow

  function FatSectors(p: Bpb): nat {
    if p.IsFat32() then p.ext.sectorsPerFat32 else p.head.sectorsPerFat16
  }

  function TotalSectors(p: Bpb): nat {
    if p.head.totalSectors16 == 0 then p.head.totalSectors32 else p.head.totalSectors16
  }

  function FirstDataSector(p: Bpb): nat
    requires p.head.bytesPerSector > 0
  {
    p.head.reservedSectors + p.head.fats * FatSectors(p) + RootDirSectors(p.head.rootEntries, p.head.bytesPerSector)
  }

  predicate FieldsOk(p: Bpb) {
    && p.ext.fsVersion == 0 && SectorSize(p.head.bytesPerSector) && SectorsPerCluster(p.head.sectorsPerCluster)
    && p.head.reservedSectors >= 1 && p.head.fats > 0
    && (p.IsFat32() ==> p.ext.backupBootSector < p.head.reservedSectors && p.ext.fsInfoSector < p.head.reservedSectors)
    && (p.IsFat32() <==> p.head.rootEntries == 0)
    && (p.IsFat32() ==> p.head.totalSectors16 == 0 && p.ext.sectorsPerFat32 != 0)
    && (p.head.totalSectors16 == 0 <==> p.head.totalSectors32 != 0)
  }

  /** The clusters behind the first data sector. */
  function Clusters(p: Bpb, first: nat): nat
    requires first <= TotalSectors(p) && p.head.sectorsPerCluster > 0
  {
    (TotalSectors(p) - first) / p.head.sectorsPerCluster
  }

  /** The type that the number of clusters gives, if it agrees with the kind of block and is not too large. */
  function MountedType(p: Bpb, clusters: nat): (r: Result<FatType, MountError>) {
    var ft := FromClusters(clusters);
    if p.IsFat32() != (ft == Fat32) || (ft == Fat32 && clusters > 0x0FFF_FFFF) then Err(Corrupted) else Ok(ft)
  }

  /**
    The type a volume is mounted as. Arithmetic on sectors is 32 bits wide; this is a build that stops at an overflow.
    */
  function Validate(p: Bpb): (r: Result<FatType, MountError>) {
    if !FieldsOk(p) then Err(Corrupted)
    else if FirstDataSector(p) >= RANGE32 then Err(Overflow)
    else if TotalSectors(p) <= FirstDataSector(p) then Err(Corrupted)
    else
      var r := MountedType(p, Clusters(p, FirstDataSector(p)));
      if r.Ok? && (FatSectors(p) * p.head.bytesPerSector * 8 >= RANGE32
      || FatEntries(FatSectors(p), p.head.bytesPerSector, r.value) < RESERVED_FAT_ENTRIES) then Err(Overflow)
      else r
  }

  /** The same in a build whose arithmetic wraps: what the product above is used for is only a warning. */
  function ValidateWrapping(p: Bpb): (r: Result<FatType, MountError>) {
    if !FieldsOk(p) then Err(Corrupted)
    else
      var first := FirstDataSector(p) % RANGE32;
      if TotalSectors(p) <= first then Err(Corrupted) else MountedType(p, Clusters(p, first))
  }

  /** Both builds agree unless the first one stops. */
  lemma BuildsAgree(p: Bpb)
    ensures Validate(p) != Err(Overflow) ==> ValidateWrapping(p) == Validate(p)
  {
  }

  // ---------------------------------------------------------------- filling a parameter block

  datatype FormatOptions = FormatOptions(fatType: Option<FatType>, rootEntries: u16, fats: byte, media: byte,
                                         sectorsPerTrack: u16, heads: u16,
                                         driveNum: Option<byte>, volumeId: u32, volumeLabel: seq<byte>)

  function FsTypeLabel(ft: FatType): (s: seq<byte>)
    ensures |s| == 8
  {
    [0x46, 0x41, 0x54]
    + (match ft case Fat12 => [0x31, 0x32] case Fat16 => [0x31, 0x36] case Fat32 => [0x33, 0x32])
    + [0x20, 0x20, 0x20]
  }

  /** The block for a chosen type and FAT size. */
  function FillBpb(o: FormatOptions, total: nat, b: nat, s: nat, ft: FatType, q: nat): (p: Bpb)
    requires total < RANGE32 && b < 0x1_0000 && s < 0x100 && q < RANGE32 && (ft != Fat32 ==> q < 0x1_0000)
  {
    var is32 := ft == Fat32;
    var drive := if o.driveNum.Some? then o.driveNum.value else if ft == Fat12 then 0 else 0x80;
    Bpb(Head(b, s, Reserved(ft), o.fats, if is32 then 0 else o.rootEntries, if total < 0x1_0000 then total else 0,
             o.media, if is32 then 0 else q, o.sectorsPerTrack, o.heads, 0, if total >= 0x1_0000 then total else 0),
        if is32 then Extension(q, 0, 0, 2, 1, 6, Zeros(12)) else NO_EXTENSION,
        Tail(drive, 0, 0x29, o.volumeId, o.volumeLabel, FsTypeLabel(ft)))
  }

  /** With default clusters there are few enough FAT sectors for 32-bit arithmetic. */
  lemma FewFatSectors(s: nat, e: nat, q: nat, d: nat, m: nat, fats: nat)
    requires s > 0 && fats <= 2 && q > 0 && e >= 128 * s && q * e < d + 2 * s + e + fats && d <= m * s
    ensures 128 * (q - 1) < m + 4
  {
    var p := q - 1;
    assert p * e == q * e - e;
    Scale(p, 128 * s, e);
    assert p * (128 * s) == (128 * p) * s;
    assert (m + 4) * s == m * s + 4 * s;
    if 128 * p >= m + 4 { Scale(s, m + 4, 128 * p); }
  }

  const SECTOR: nat := 512

  function ClusterSectors(total: nat, ft: Option<FatType>): nat {
    var bytes := total * SECTOR;
    BytesPerCluster(bytes, SECTOR, if ft.Some? then ft.value else EstimateFatType(bytes)) / SECTOR
  }

  lemma SmallPowers(j: nat)
    requires 9 <= j <= 15
    ensures Pow2(j) == SECTOR * Pow2(j - 9) && SectorsPerCluster(Pow2(j - 9))
  {
    Pow2Values();
    Pow2Add(9, j - 9);
    assert Pow2(0) == 1 && Pow2(1) == 2 && Pow2(2) == 4 && Pow2(3) == 8;
    assert Pow2(4) == 16 && Pow2(5) == 32 && Pow2(6) == 64;
  }

  lemma DefaultSectors(total: nat, ft: Option<FatType>)
    requires 1024 < total < RANGE32
    ensures SectorsPerCluster(ClusterSectors(total, ft)) && total <= MAX_CLUSTERS * ClusterSectors(total, ft)
  {
    var bytes := total * SECTOR;
    var j := DefaultCluster(bytes, if ft.Some? then ft.value else EstimateFatType(bytes));
    SmallPowers(j);
  }

  /** What holds of a geometry that is accepted. */
  predicate Accepted(total: nat, s: nat, ft: FatType, root: nat, fats: nat, q: nat) {
    && s > 0 && 0 < q && q * SECTOR * 8 < RANGE32 && (ft != Fat32 ==> q < 0x1_0000)
    && Reserved(ft) + root + fats * q < total
    && FromClusters((total - Reserved(ft) - root - fats * q) / s) == ft
    && (total - Reserved(ft) - root - fats * q) / s <= MostClusters(ft)
    && (ft == Fat32 ==> total >= 0x1_0000)
  }

  /** A FAT32 volume has more sectors than a 16-bit field can hold, although it may have fewer clusters. */
  lemma ManySectors(s: nat, q: nat, d: nat, c: nat)
    requires s > 0 && c >= 65525 && c * s <= d && d + 2 * s <= q * (s * 128)
    ensures q >= 512 && d >= 65525
  {
    assert q * (s * 128) == (q * 128) * s;
    assert (c + 2) * s == c * s + 2 * s;
    Cancel(c + 2, q * 128, s);
    TimesAtLeast(s, c);
    assert s * c == c * s;
  }

  /** What it means that a type was tried with success. */
  lemma TriedGeometry(total: nat, s: nat, ft: FatType, root: nat, fats: nat, q: nat)
    requires SectorsPerCluster(s) && 1 <= fats <= 2 && TryGeometry(total, SECTOR, s, ft, root, fats) == Some(q)
    ensures var t0 := total - Reserved(ft) - root;
            && t0 >= 9 && q == SectorsPerFat(t0, SECTOR, s, ft, fats) && fats * q < t0 && q > 0
            && FromClusters((total - Reserved(ft) - root - fats * q) / s) == ft
            && (total - Reserved(ft) - root - fats * q) / s <= MostClusters(ft)
  {
    var t0, e := total - Reserved(ft) - root, EntriesPerCluster(SECTOR, s, ft);
    DataRemains(t0, SECTOR, s, ft, fats);
    CeilBounds(t0 + 2 * s, e + fats, q);
  }

  lemma TriedBound(t0: nat, s: nat, ft: FatType, fats: nat, e: nat, q: nat)
    requires SectorsPerCluster(s) && 1 <= fats <= 2 && t0 > 0
    requires e == EntriesPerCluster(SECTOR, s, ft) && q == SectorsPerFat(t0, SECTOR, s, ft, fats)
    ensures q > 0 && (q - 1) * (e + fats) < t0 + 2 * s
  {
    CeilBounds(t0 + 2 * s, e + fats, q);
  }

  /** The numbers of such a volume keep 32-bit arithmetic exact. */
  lemma GeometryNumbers(s: nat, ft: FatType, fats: nat, e: nat, q: nat, d: nat, c: nat)
    requires SectorsPerCluster(s) && 1 <= fats <= 2 && q > 0 && e >= 128 * s && FromClusters(c) == ft
    requires e == EntriesPerCluster(SECTOR, s, ft) && d <= MAX_CLUSTERS * s
    requires d + 2 * s <= q * e < d + 2 * s + e + fats && c * s <= d < c * s + s
    ensures q * SECTOR * 8 < RANGE32 && (ft != Fat32 ==> q < 0x1_0000) && (ft == Fat32 ==> d + q >= 0x1_0000)
  {
    hide EntriesPerCluster, EntriesPerSector;
    FewFatSectors(s, e, q, d, MAX_CLUSTERS, fats);
    if ft != Fat32 {
      assert (c + 1) * s == c * s + s;
      FewFatSectors(s, e, q, d, c + 1, fats);
    } else {
      EntriesOf32(s);
      ManySectors(s, q, d, c);
    }
  }

  lemma EntriesOf32(s: nat)
    ensures EntriesPerCluster(SECTOR, s, Fat32) == s * 128
  {
  }

  /** The FAT size of an accepted geometry fits the field for it and keeps 32-bit arithmetic exact. */
  lemma GeometryFits(total: nat, s: nat, ft: FatType, root: nat, fats: nat)
    requires SectorsPerCluster(s) && 1 <= fats <= 2 && total <= MAX_CLUSTERS * s
             && TryGeometry(total, SECTOR, s, ft, root, fats).Some?
    ensures Accepted(total, s, ft, root, fats, TryGeometry(total, SECTOR, s, ft, root, fats).value)
  {
    hide EntriesPerCluster, SectorsPerFat, TryGeometry, SectorsPerCluster, FromClusters;
    var q, t0 := TryGeometry(total, SECTOR, s, ft, root, fats).value, total - Reserved(ft) - root;
    TriedGeometry(total, s, ft, root, fats, q);
    ClusterNotEmpty(s);
    var e, d := EntriesPerCluster(SECTOR, s, ft), total - Reserved(ft) - root - fats * q;
    QuotientNat(d, s);
    var c := d / s;
    GeometryBounds(t0, s, ft, fats, e, q, d, c);
    TimesAtLeast(fats, q);
  }

  lemma GeometryBounds(t0: nat, s: nat, ft: FatType, fats: nat, e: nat, q: nat, d: nat, c: nat)
    requires Sized(t0, SECTOR, s, ft, fats, e, q, d, c) && FromClusters(c) == ft && t0 <= MAX_CLUSTERS * s
    ensures q * SECTOR * 8 < RANGE32 && (ft != Fat32 ==> q < 0x1_0000) && (ft == Fat32 ==> d + q >= 0x1_0000)
  {
    hide EntriesPerCluster, SectorsPerFat, SectorsPerCluster, FromClusters;
    ClusterNotEmpty(s);
    SizedBounds(t0, SECTOR, s, ft, fats, e, q, d, c);
    GeometryNumbers(s, ft, fats, e, q, d, c);
  }

  lemma QuotientNat(x: nat, m: nat)
    requires m > 0
    ensures x / m >= 0
  {
  }

  lemma ClusterNotEmpty(s: nat)
    requires SectorsPerCluster(s)
    ensures 0 < s <= 128
  {
  }

  /** The type and FAT size for a volume with the default cluster size. */
  function DefaultGeometry(o: FormatOptions, total: nat): (g: Option<(FatType, nat)>)
    requires 1024 < total < RANGE32 && 1 <= o.fats <= 2
    ensures g.Some? ==> Accepted(total, ClusterSectors(total, o.fatType), g.value.0,
            RootFor(g.value.0, o.rootEntries, SECTOR), o.fats, g.value.1)
  {
    DefaultSectors(total, o.fatType);
    var s := ClusterSectors(total, o.fatType);
    var g := DetermineGeometry(total, SECTOR, s, o.rootEntries, o.fats);
    if g.None? then None
    else
      GeometryFits(total, s, g.value.0, RootFor(g.value.0, o.rootEntries, SECTOR), o.fats);
      g
  }

  /** The type the numbers in a block amount to. */
  function TypeOf(p: Bpb): Option<FatType> {
    if p.head.bytesPerSector == 0 || p.head.sectorsPerCluster == 0 || FirstDataSector(p) > TotalSectors(p) then None
    else Some(FromClusters((TotalSectors(p) - FirstDataSector(p)) / p.head.sectorsPerCluster))
  }

  /** Formatting a volume of 512-byte sectors with the default cluster size. */
  function FormatBpb(o: FormatOptions, total: nat): (r: Option<(Bpb, FatType)>)
    requires 1024 < total < RANGE32 && 1 <= o.fats <= 2
  {
    var g := DefaultGeometry(o, total);
    if g.None? then None
    else
      var (ft, q) := g.value;
      DefaultSectors(total, o.fatType);
      var p := FillBpb(o, total, SECTOR, ClusterSectors(total, o.fatType), ft, q);
      if TypeOf(p) != Some(ft) then None else Some((p, ft))
  }

  lemma FilledFields(o: FormatOptions, total: nat, s: nat, ft: FatType, q: nat)
    requires 0 < total < RANGE32 && s < 0x100 && 0 < q < RANGE32 && (ft != Fat32 ==> q < 0x1_0000)
    ensures var p := FillBpb(o, total, SECTOR, s, ft, q);
            && p.head.bytesPerSector == SECTOR && p.head.sectorsPerCluster == s && (p.IsFat32() <==> ft == Fat32)
            && TotalSectors(p) == total && FatSectors(p) == q
            && FirstDataSector(p) == Reserved(ft) + o.fats * q + RootFor(ft, o.rootEntries, SECTOR)
  {
  }

  lemma FilledValid(o: FormatOptions, total: nat, s: nat, ft: FatType, q: nat)
    requires 0 < total < RANGE32 && SectorsPerCluster(s) && o.fats > 0 && o.rootEntries > 0
    requires Accepted(total, s, ft, RootFor(ft, o.rootEntries, SECTOR), o.fats, q)
    ensures Validate(FillBpb(o, total, SECTOR, s, ft, q)) == Ok(ft)
  {
    var p, root := FillBpb(o, total, SECTOR, s, ft, q), RootFor(ft, o.rootEntries, SECTOR);
    FilledFields(o, total, s, ft, q);
    assert FieldsOk(p);
    assert TotalSectors(p) - FirstDataSector(p) == total - Reserved(ft) - root - o.fats * q;
    EnoughEntries(q, ft);
  }

  lemma EnoughEntries(q: nat, ft: FatType)
    requires q > 0
    ensures FatEntries(q, SECTOR, ft) >= RESERVED_FAT_ENTRIES
  {
  }

  /**
    What formatting accepts is read back as written, passes every check, and is mounted as the type it was formatted
    with.
    */
  lemma FormattedMounts(o: FormatOptions, total: nat, rest: seq<byte>)
    requires 1024 < total < RANGE32 && 1 <= o.fats <= 2 && o.rootEntries > 0 && |o.volumeLabel| == 11 && |rest| >= 28
    requires FormatBpb(o, total).Some?
    ensures var (p, ft) := FormatBpb(o, total).value;
            p.Ok() && |Serialize(p) + rest| >= 79 && Deserialize(Serialize(p) + rest) == p && Validate(p) == Ok(ft)
  {
    DefaultSectors(total, o.fatType);
    var s := ClusterSectors(total, o.fatType);
    var (ft, q) := DefaultGeometry(o, total).value;
    var p := FillBpb(o, total, SECTOR, s, ft, q);
    FilledValid(o, total, s, ft, q);
    BpbRoundTrip(p, rest);
  }

  /** The last check of formatting never fails: every geometry that is found gives a volume. */
  lemma FormatAccepts(o: FormatOptions, total: nat)
    requires 1024 < total < RANGE32 && 1 <= o.fats <= 2
    ensures FormatBpb(o, total).Some? <==> DefaultGeometry(o, total).Some?
  {
    if DefaultGeometry(o, total).Some? {
      var (ft, q) := DefaultGeometry(o, total).value;
      DefaultSectors(total, o.fatType);
      FilledFields(o, total, ClusterSectors(total, o.fatType), ft, q);
    }
  }
}
