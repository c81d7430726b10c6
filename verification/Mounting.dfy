/**
  Which volumes can be mounted, and which of them are regular: those on which every search of the
  table is right.
  */
module Mounting {

  import opened Options
  import opened Arithmetic
  import opened Bytes
  import opened FatChains
  import opened FatEntry
  import opened FatTable
  import opened FatOps
  import B = BootSectors
  import F = Formatting

  /** The bytes of one table. */
  function TableBytes(p: B.Bpb): nat { F.FatSectors(p) * p.head.bytesPerSector }

  /**
    In a build that stops at overflows a volume whose table is large enough for its clusters is
    regular, but for FAT12 volumes without any.
    */
  lemma MountedRegular(p: B.Bpb, ft: FatType, clusters: nat)
    requires F.Validate(p) == Ok(ft) && p.head.bytesPerSector > 0 && p.head.sectorsPerCluster > 0
    requires F.FirstDataSector(p) <= F.TotalSectors(p) && clusters == F.Clusters(p, F.FirstDataSector(p))
    requires HoldsAll(ft, TableBytes(p), clusters + RESERVED_FAT_ENTRIES)
    ensures Regular(ft, clusters) <==> !Hollow(ft, clusters)
  {
    if ft == Fat32 {
      assert (clusters + 2) * 4 <= TableBytes(p);
      assert TableBytes(p) * 8 < RANGE32;
    }
  }

  /** The fields of a block that do not matter here. */
  const TAIL: B.Tail := B.Tail(0x80, 0, 0x29, 0, Zeros(11), Zeros(8))

  /** A FAT12 volume whose only data sector is less than a cluster. */
  const HOLLOW: B.Bpb :=
    B.Bpb(B.Head(512, 8, 1, 1, 16, 4, 0xF8, 1, 0, 0, 0, 0), B.NO_EXTENSION, TAIL)

  /** It passes every check and has no clusters. */
  lemma HollowMounts()
    ensures F.FirstDataSector(HOLLOW) == 3 && F.Clusters(HOLLOW, 3) == 0 && Hollow(Fat12, 0)
    ensures F.Validate(HOLLOW) == Ok(Fat12) && F.ValidateWrapping(HOLLOW) == Ok(Fat12)
    ensures HoldsAll(Fat12, TableBytes(HOLLOW), RESERVED_FAT_ENTRIES)
  {
    F.BuildsAgree(HOLLOW);
  }

  /** A FAT32 volume of 128 GiB in clusters of one sector, with a table for all of them. */
  const MARKED: B.Bpb :=
    B.Bpb(B.Head(512, 1, 32, 1, 0, 0, 0xF8, 0, 0, 0, 0, 0x1020_0017),
          B.Extension(0x20_0000, 0, 0, 2, 1, 6, Zeros(12)), TAIL)

  /** A build whose arithmetic wraps mounts it, although it has clusters numbered like marks; others stop. */
  lemma MarkedMounts()
    ensures F.FirstDataSector(MARKED) == 0x20_0020 && F.Clusters(MARKED, 0x20_0020) == 0x0FFF_FFF7
    ensures F.ValidateWrapping(MARKED) == Ok(Fat32) && F.Validate(MARKED) == Err(F.Overflow)
    ensures 0x0FFF_FFF7 <= MaxClusters(Fat32) && HoldsAll(Fat32, TableBytes(MARKED), 0x0FFF_FFF7 + RESERVED_FAT_ENTRIES)
    ensures !Regular(Fat32, 0x0FFF_FFF7) && Special(Fat32, BadMark(Fat32)) && BadMark(Fat32) < 0x0FFF_FFF7 + 2
  {
    assert F.FirstDataSector(MARKED) == 32 + 0x20_0000 + 0;
  }
}
