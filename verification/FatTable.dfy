/**
  The table as code sees it: a stream of bytes that is read entry by entry or scanned from
  front to back. Every method is tied to the table of values its bytes stand for.
  */
module FatTable {

  import opened Options
  import opened Bytes
  import opened Blocks
  import opened Storages
  import opened DiskSlices
  import opened FatChains
  import opened FatWalk
  import opened FatEntry

  datatype FatError = NotEnoughSpace | Stream(e: StreamError)

  /** The table has all entries below `n`. */
  predicate HoldsAll(ft: FatType, size: nat, n: nat) {
    n > 0 ==> Holds(ft, size, n - 1)
  }

  /** The stored entry is zero, which is all that a scan looks at. */
  predicate Zero(ft: FatType, s: seq<byte>, c: nat) {
    Holds(ft, |s|, c) && Low(ft, Raw(ft, s, c)) == 0
  }

  /** A zero entry is a free cluster exactly when its number is not one of the 32-bit marks. */
  lemma ZeroIsFree(ft: FatType, s: seq<byte>, c: nat)
    requires Holds(ft, |s|, c) && Zero(ft, s, c)
    ensures Get(ft, s, c).Free? <==> !Special(ft, c)
  {
  }

  lemma FreeIsZero(ft: FatType, s: seq<byte>, c: nat)
    requires Holds(ft, |s|, c) && Get(ft, s, c).Free?
    ensures Zero(ft, s, c)
  {
  }

  /** No entry of `lo..hi` is zero. */
  ghost predicate NoZero(ft: FatType, s: seq<byte>, lo: nat, hi: nat) {
    forall m :: lo <= m < hi ==> !Zero(ft, s, m)
  }

  /** `r` is the first zero entry of `lo..hi`, or the report that there is none. */
  ghost predicate Scanned(ft: FatType, s: seq<byte>, lo: nat, hi: nat, r: Result<nat, FatError>) {
    match r
    case Ok(n) => lo <= n < hi && Zero(ft, s, n) && NoZero(ft, s, lo, n)
    case Err(e) => e == NotEnoughSpace && NoZero(ft, s, lo, hi)
  }

  /** The number of a mark is stored as zero in `lo..hi`, and no zero entry is before it: a scan returns it. */
  ghost predicate MarkFirst(ft: FatType, s: seq<byte>, lo: nat, hi: nat) {
    exists m :: lo <= m < hi && Zero(ft, s, m) && Special(ft, m) && NoZero(ft, s, lo, m)
  }

  /** The result of a scan as an optional cluster. */
  function Found(r: Result<nat, FatError>): (o: Option<nat>) {
    if r.Ok? then Some(r.value) else None
  }

  lemma ScanReads(ft: FatType, s: seq<byte>, lo: nat, hi: nat, r: Result<nat, FatError>)
    requires lo <= hi && HoldsAll(ft, |s|, hi) && Scanned(ft, s, lo, hi, r)
    requires r.Ok? ==> !Special(ft, r.value)
    ensures FindFree(TableOf(ft, s, hi), lo, hi) == Found(r)
  {
    var t := TableOf(ft, s, hi);
    forall m | lo <= m < (if r.Ok? then r.value else hi) ensures !t[m].Free? {
      assert !Zero(ft, s, m);
      if t[m].Free? { FreeIsZero(ft, s, m); }
    }
    if r.Ok? {
      ZeroIsFree(ft, s, r.value);
      assert t[r.value].Free?;
    }
  }

  /**
    A scan finds the cluster that entry-by-entry reads would, exactly if the first zero entry
    is not that of a mark. Without clusters numbered like marks this is so for every table.
    */
  lemma ScanFindsFree(ft: FatType, s: seq<byte>, lo: nat, hi: nat, r: Result<nat, FatError>)
    requires lo <= hi && HoldsAll(ft, |s|, hi) && Scanned(ft, s, lo, hi, r)
    ensures FindFree(TableOf(ft, s, hi), lo, hi) == Found(r) <==> !MarkFirst(ft, s, lo, hi)
    ensures hi <= BadMark(ft) ==> !MarkFirst(ft, s, lo, hi)
  {
    if MarkFirst(ft, s, lo, hi) {
      var m :| lo <= m < hi && Zero(ft, s, m) && Special(ft, m) && NoZero(ft, s, lo, m);
      assert r == Ok(m);
      ZeroIsFree(ft, s, m);
    } else {
      ScanReads(ft, s, lo, hi, r);
    }
  }

  /** All bits set but those of entry `c`. */
  function OnlyZero(ft: FatType, size: nat, c: nat): (s: seq<byte>)
    ensures |s| == size
  {
    seq(size, i => if EntryOffset(ft, c) <= i < EntryOffset(ft, c) + EntryWidth(ft) then 0 else 0xFF)
  }

  lemma OnlyZeroIs(size: nat, c: nat, m: nat)
    requires Holds(Fat32, size, c) && Holds(Fat32, size, m)
    ensures Zero(Fat32, OnlyZero(Fat32, size, c), m) <==> m == c
  {
    var s, o := OnlyZero(Fat32, size, c), EntryOffset(Fat32, m);
    if m == c {
      assert s[o..o + 4] == [0, 0, 0, 0];
    } else {
      assert s[o..o + 4] == [0xFF, 0xFF, 0xFF, 0xFF];
    }
  }

  /**
    Scan and reads agree on every table that `size` bytes can hold exactly if no entry below `hi` is numbered like a
    mark.
    */
  lemma ScansAgree(ft: FatType, size: nat, lo: nat, hi: nat)
    requires lo <= hi && HoldsAll(ft, size, hi)
    ensures (forall s: seq<byte> :: |s| == size ==> !MarkFirst(ft, s, lo, hi))
            <==> !(exists m :: lo <= m < hi && Special(ft, m))
  {
    if m :| lo <= m < hi && Special(ft, m) {
      var s := OnlyZero(ft, size, m);
      forall n | lo <= n <= m ensures Zero(ft, s, n) <==> n == m {
        HoldsBelow(ft, size, n, hi - 1);
        HoldsBelow(ft, size, m, hi - 1);
        OnlyZeroIs(size, m, n);
      }
      assert MarkFirst(ft, s, lo, hi);
    }
  }

  // ---------------------------------------------------------------- one entry

  method ReadEntry(fat: DiskSlice, ft: FatType, c: nat) returns (v: FatValue)
    requires fat.Valid() && Holds(ft, fat.layout.size, c)
    modifies fat`offset
    ensures fat.Valid() && v == Get(ft, fat.View(), c)
  {
    var raw := ReadRaw(fat, ft, c);
    v := Decode(ft, c, raw);
  }

  method ReadRaw(fat: DiskSlice, ft: FatType, c: nat) returns (raw: u32)
    requires fat.Valid() && Holds(ft, fat.layout.size, c)
    modifies fat`offset
    ensures fat.Valid() && raw == Raw(ft, fat.View(), c)
  {
    var ok := fat.Seek(FromStart(EntryOffset(ft, c)));
    var r := fat.ReadExact(EntryWidth(ft));
    var b := r.value;
    match ft
    case Fat12 => raw := if c % 2 == 0 then U16(b) % 0x1000 else U16(b) / 0x10;
    case Fat16 => raw := U16(b);
    case Fat32 => raw := U32(b);
  }

  /** Only the mirrors of the table and the status byte differ, and mirrors that were equal stay equal. */
  ghost predicate FatOnly(l: Layout, p: Port, i: Image, i': Image)
    requires l.Fits(|i.bytes|) && l.count > 0
  {
    Beside(l, p, i, i') && (MirrorsEqual(l, i.bytes) ==> MirrorsEqual(l, i'.bytes))
  }

  lemma FatOnlySame(l: Layout, p: Port, i: Image)
    requires l.Fits(|i.bytes|) && l.count > 0 && p.flagsAt < |i.bytes|
    ensures FatOnly(l, p, i, i)
  {
  }

  lemma FatOnlyTrans(l: Layout, p: Port, i: Image, i1: Image, i2: Image)
    requires l.Fits(|i.bytes|) && l.count > 0 && |i1.bytes| == |i.bytes|
    requires FatOnly(l, p, i, i1) && FatOnly(l, p, i1, i2)
    ensures FatOnly(l, p, i, i2)
  {
  }

  lemma MirroredView(l: Layout, p: Port, i: Image, i': Image, at: nat, b: seq<byte>)
    requires l.Fits(|i.bytes|) && l.count > 0 && at + |b| <= l.size && Mirrored(l, p, i, i', at, b)
    ensures |i'.bytes| == |i.bytes| && Block(l, i'.bytes, 0) == Splice(Block(l, i.bytes, 0), at, b)
    ensures FatOnly(l, p, i, i')
  {
    assert CopyIs(l, i.bytes, i'.bytes, at, b, 0, l.count);
    if MirrorsEqual(l, i.bytes) { MirrorsStayEqual(l, i.bytes, i'.bytes, at, b); }
  }

  /**
    Stores an entry in all mirrors, if its bytes are written where they should be. The source
    refuses (panics) to mark one of the 32-bit mark numbers as free.
    */
  method WriteEntry(fat: DiskSlice, ft: FatType, c: nat, v: FatValue)
    requires fat.Valid() && fat.Ready(EntryWidth(ft)) && Holds(ft, fat.layout.size, c)
    requires Encode(ft, v) < Reach(ft) && !(v.Free? && Special(ft, c))
    modifies fat, fat.disk
    ensures fat.Valid() && fat.dirty && fat.View() == Set(ft, old(fat.View()), c, v)
    ensures FatOnly(fat.layout, fat.port, old(fat.Image()), fat.Image())
  {
    hide Mirrored, Mirrors, FatOnly;
    var o := EntryOffset(ft, c);
    var ok := fat.Seek(FromStart(o));
    var r := fat.ReadExact(EntryWidth(ft));
    var b := Repack(ft, c, r.value, Encode(ft, v));
    ghost var s := fat.View();
    assert b == Packed(ft, s, c, Encode(ft, v));
    ok := fat.Seek(FromStart(o));
    var w := fat.WriteAll(b);
    assert b[..|b|] == b;
    MirroredView(fat.layout, fat.port, old(fat.Image()), fat.Image(), o, b);
  }

  // ---------------------------------------------------------------- scanning for a free entry

  method FindFree16(fat: DiskSlice, start: nat, end: nat) returns (r: Result<nat, FatError>)
    requires fat.Valid() && start <= end && HoldsAll(Fat16, fat.layout.size, end)
    modifies fat`offset
    ensures fat.Valid() && Scanned(Fat16, fat.View(), start, end, r)
  {
    var cluster := start;
    var ok := fat.Seek(FromStart(cluster * 2));
    while cluster < end
      invariant fat.Valid() && start <= cluster <= end && fat.offset == cluster * 2
      invariant NoZero(Fat16, fat.View(), start, cluster)
    {
      var b := fat.ReadExact(2);
      assert U16(b.value) == Raw(Fat16, fat.View(), cluster);
      if U16(b.value) == 0 { return Ok(cluster); }
      cluster := cluster + 1;
    }
    r := Err(NotEnoughSpace);
  }

  method FindFree32(fat: DiskSlice, start: nat, end: nat) returns (r: Result<nat, FatError>)
    requires fat.Valid() && start <= end && HoldsAll(Fat32, fat.layout.size, end)
    modifies fat`offset
    ensures fat.Valid() && Scanned(Fat32, fat.View(), start, end, r)
  {
    var cluster := start;
    var ok := fat.Seek(FromStart(cluster * 4));
    while cluster < end
      invariant fat.Valid() && start <= cluster <= end && fat.offset == cluster * 4
      invariant NoZero(Fat32, fat.View(), start, cluster)
    {
      var b := fat.ReadExact(4);
      assert U32(b.value) == Raw(Fat32, fat.View(), cluster);
      if U32(b.value) % 0x1000_0000 == 0 { return Ok(cluster); }
      cluster := cluster + 1;
    }
    r := Err(NotEnoughSpace);
  }

  /** The two bytes that hold a 12-bit entry. */
  function Pair(s: seq<byte>, c: nat): (p: u16)
    requires Holds(Fat12, |s|, c)
  {
    var o := EntryOffset(Fat12, c);
    U16(s[o..o + 2])
  }

  /** From an even entry the next pair is one byte further: its low byte is known already. */
  lemma NextPair(s: seq<byte>, c: nat)
    requires c % 2 == 0 && Holds(Fat12, |s|, c + 1)
    ensures var o := EntryOffset(Fat12, c);
            EntryOffset(Fat12, c + 1) == o + 1 && Pair(s, c + 1) == Pair(s, c) / 0x100 + 0x100 * s[o + 2] as int
  {
    var o := EntryOffset(Fat12, c);
    assert s[o..o + 2] == [s[o], s[o + 1]];
    assert s[o + 1..o + 3] == [s[o + 1], s[o + 2]];
  }

  lemma OddThenEven(c: nat)
    requires c % 2 == 1
    ensures EntryOffset(Fat12, c + 1) == EntryOffset(Fat12, c) + 2
  {
  }

  /** The cursor is just past the pair of entry `c`, whose value is `packed`. */
  ghost predicate AtPair(fat: DiskSlice, c: nat, packed: nat)
    reads fat, fat.disk
  {
    && fat.Valid() && Holds(Fat12, fat.layout.size, c)
    && packed == Pair(fat.View(), c) && fat.offset == EntryOffset(Fat12, c) + 2
  }

  method FirstPacked(fat: DiskSlice, c: nat) returns (r: Result<u16, StreamError>)
    requires fat.Valid()
    modifies fat`offset
    ensures fat.Valid() && (r.Ok? <==> Holds(Fat12, fat.layout.size, c))
    ensures r.Ok? ==> AtPair(fat, c, r.value)
  {
    var ok := fat.Seek(FromStart(c + c / 2));
    if !ok { return Err(InvalidInput); }
    var b := fat.ReadExact(2);
    if b.Err? { return Err(b.error); }
    r := Ok(U16(b.value));
  }

  /** Reads on to the pair of entry `c + 1`: two fresh bytes if it is even, else one. */
  method NextPacked(fat: DiskSlice, c: nat, packed: u16) returns (r: Result<u16, StreamError>)
    requires AtPair(fat, c, packed)
    modifies fat`offset
    ensures fat.Valid() && (r.Ok? <==> Holds(Fat12, fat.layout.size, c + 1))
    ensures r.Ok? ==> AtPair(fat, c + 1, r.value)
  {
    if (c + 1) % 2 == 0 {
      OddThenEven(c);
      var b := fat.ReadExact(2);
      if b.Err? { return Err(b.error); }
      r := Ok(U16(b.value));
    } else {
      var b := fat.ReadExact(1);
      if b.Err? { return Err(b.error); }
      NextPair(fat.View(), c);
      r := Ok(packed / 0x100 + 0x100 * b.value[0] as int);
    }
  }

  lemma PairZero(s: seq<byte>, c: nat)
    requires Holds(Fat12, |s|, c)
    ensures Zero(Fat12, s, c) <==> (if c % 2 == 0 then Pair(s, c) % 0x1000 else Pair(s, c) / 0x10) == 0
    ensures c < |s|
  {
  }

  lemma AtPairZero(fat: DiskSlice, c: nat, packed: nat)
    requires AtPair(fat, c, packed)
    ensures fat.Valid() && c < fat.layout.size
    ensures Zero(Fat12, fat.View(), c) <==> (if c % 2 == 0 then packed % 0x1000 else packed / 0x10) == 0
  {
    PairZero(fat.View(), c);
  }

  /**
    The 12-bit scan tests an entry before it compares with `end`. With an empty range it
    therefore runs on past `end`: it returns an entry outside the range or runs into the end
    of the table, and never reports that there is no space.
    */
  method FindFree12(fat: DiskSlice, start: nat, end: nat) returns (r: Result<nat, FatError>)
    requires fat.Valid()
    modifies fat`offset
    ensures fat.Valid()
    ensures start < end && HoldsAll(Fat12, fat.layout.size, end) ==> Scanned(Fat12, fat.View(), start, end, r)
    ensures start >= end ==> r != Err(NotEnoughSpace)
    ensures r.Ok? ==> start <= r.value && Zero(Fat12, fat.View(), r.value) && NoZero(Fat12, fat.View(), start, r.value)
  {
    hide Zero, Pair, Holds, AtPair;
    if start < end && HoldsAll(Fat12, fat.layout.size, end) { HoldsBelow(Fat12, fat.layout.size, start, end - 1); }
    var first := FirstPacked(fat, start);
    if first.Err? { return Err(Stream(first.error)); }
    var cluster, packed := start, first.value;
    while true
      invariant start <= cluster && (start < end ==> cluster < end)
      invariant AtPair(fat, cluster, packed)
      invariant NoZero(Fat12, fat.View(), start, cluster)
      decreases fat.layout.size - cluster
    {
      AtPairZero(fat, cluster, packed);
      if cluster + 1 < end && HoldsAll(Fat12, fat.layout.size, end) {
        HoldsBelow(Fat12, fat.layout.size, cluster + 1, end - 1);
      }
      if (if cluster % 2 == 0 then packed % 0x1000 else packed / 0x10) == 0 { return Ok(cluster); }
      if cluster + 1 == end { return Err(NotEnoughSpace); }
      var next := NextPacked(fat, cluster, packed);
      if next.Err? { return Err(Stream(next.error)); }
      cluster, packed := cluster + 1, next.value;
    }
  }

  /** The scan for the volume's entry width. Only the 12-bit one goes wrong on an empty range. */
  method FindFreeCluster(fat: DiskSlice, ft: FatType, start: nat, end: nat) returns (r: Result<nat, FatError>)
    requires fat.Valid() && start <= end && HoldsAll(ft, fat.layout.size, end)
    modifies fat`offset
    ensures fat.Valid()
    ensures ft.Fat12? && start == end
            ==> r != Err(NotEnoughSpace) && (r.Ok? ==> start <= r.value && Zero(ft, fat.View(), r.value))
    ensures !ft.Fat12? || start < end ==> Scanned(ft, fat.View(), start, end, r)
  {
    match ft
    case Fat12 => r := FindFree12(fat, start, end);
    case Fat16 => r := FindFree16(fat, start, end);
    case Fat32 => r := FindFree32(fat, start, end);
  }

  // ---------------------------------------------------------------- counting free entries

  /** The number of clusters below `c` whose entry is stored as zero, and how many of them have the number of a mark. */
  ghost function ZeroCount(ft: FatType, s: seq<byte>, c: nat): (k: nat) {
    if c <= RESERVED_FAT_ENTRIES then 0 else ZeroCount(ft, s, c - 1) + (if Zero(ft, s, c - 1) then 1 else 0)
  }

  ghost function MarkCount(ft: FatType, s: seq<byte>, c: nat): (k: nat) {
    if c <= RESERVED_FAT_ENTRIES then 0
    else MarkCount(ft, s, c - 1) + (if Zero(ft, s, c - 1) && Special(ft, c - 1) then 1 else 0)
  }

  lemma {:induction false} CountSplits(ft: FatType, s: seq<byte>, c: nat)
    requires c >= RESERVED_FAT_ENTRIES && HoldsAll(ft, |s|, c)
    ensures ZeroCount(ft, s, c) == FreeCount(TableOf(ft, s, c)) + MarkCount(ft, s, c)
  {
    hide Get;
    var t := TableOf(ft, s, c);
    var u := t[RESERVED_FAT_ENTRIES..];
    if c == RESERVED_FAT_ENTRIES {
      assert u == [];
    } else {
      var b := c - 1;
      HoldsBelow(ft, |s|, b - 1, b);
      CountSplits(ft, s, b);
      assert u[..|u| - 1] == TableOf(ft, s, b)[RESERVED_FAT_ENTRIES..];
      assert u[|u| - 1] == Get(ft, s, b);
      if Zero(ft, s, b) { ZeroIsFree(ft, s, b); } else if Get(ft, s, b).Free? { FreeIsZero(ft, s, b); }
    }
  }

  lemma {:induction false} MarksCounted(ft: FatType, s: seq<byte>, c: nat)
    ensures MarkCount(ft, s, c) == 0
            <==> forall m :: RESERVED_FAT_ENTRIES <= m < c && Special(ft, m) ==> !Zero(ft, s, m)
  {
    if c > RESERVED_FAT_ENTRIES { MarksCounted(ft, s, c - 1); }
  }

  /** Counting zeros counts the free clusters, exactly if no entry of a mark is stored as zero. */
  lemma CountIsFree(ft: FatType, s: seq<byte>, n: nat)
    requires n >= RESERVED_FAT_ENTRIES && HoldsAll(ft, |s|, n)
    ensures ZeroCount(ft, s, n) == FreeCount(TableOf(ft, s, n))
            <==> forall m :: RESERVED_FAT_ENTRIES <= m < n && Special(ft, m) ==> !Zero(ft, s, m)
    ensures n <= BadMark(ft) ==> ZeroCount(ft, s, n) == FreeCount(TableOf(ft, s, n))
  {
    CountSplits(ft, s, n);
    MarksCounted(ft, s, n);
  }

  method CountFree16(fat: DiskSlice, end: nat) returns (count: nat)
    requires fat.Valid() && RESERVED_FAT_ENTRIES <= end && HoldsAll(Fat16, fat.layout.size, end)
    modifies fat`offset
    ensures fat.Valid() && count == ZeroCount(Fat16, fat.View(), end)
  {
    var cluster := RESERVED_FAT_ENTRIES;
    count := 0;
    var ok := fat.Seek(FromStart(cluster * 2));
    while cluster < end
      invariant fat.Valid() && RESERVED_FAT_ENTRIES <= cluster <= end && fat.offset == cluster * 2
      invariant count == ZeroCount(Fat16, fat.View(), cluster)
    {
      var b := fat.ReadExact(2);
      assert U16(b.value) == Raw(Fat16, fat.View(), cluster);
      if U16(b.value) == 0 { count := count + 1; }
      cluster := cluster + 1;
    }
  }

  method CountFree32(fat: DiskSlice, end: nat) returns (count: nat)
    requires fat.Valid() && RESERVED_FAT_ENTRIES <= end && HoldsAll(Fat32, fat.layout.size, end)
    modifies fat`offset
    ensures fat.Valid() && count == ZeroCount(Fat32, fat.View(), end)
  {
    var cluster := RESERVED_FAT_ENTRIES;
    count := 0;
    var ok := fat.Seek(FromStart(cluster * 4));
    while cluster < end
      invariant fat.Valid() && RESERVED_FAT_ENTRIES <= cluster <= end && fat.offset == cluster * 4
      invariant count == ZeroCount(Fat32, fat.View(), cluster)
    {
      var b := fat.ReadExact(4);
      assert U32(b.value) == Raw(Fat32, fat.View(), cluster);
      if U32(b.value) % 0x1000_0000 == 0 { count := count + 1; }
      cluster := cluster + 1;
    }
  }

  /**
    The 12-bit count joins the halves of an odd entry the wrong way round; the number it gets
    differs from the entry, but is zero exactly when the entry is.
    */
  lemma OddCountTest(s: seq<byte>, c: nat, next: byte)
    requires c % 2 == 1 && Holds(Fat12, |s|, c) && next == s[EntryOffset(Fat12, c) + 1]
    ensures Holds(Fat12, |s|, c - 1)
    ensures next as int * 0x100 + Pair(s, c - 1) / 0x1000 == 0 <==> Zero(Fat12, s, c)
  {
    HoldsBelow(Fat12, |s|, c - 1, c);
    var o := EntryOffset(Fat12, c);
    assert s[o - 1..o + 1] == [s[o - 1], s[o]];
    Halves12(s[o - 1], s[o]);
    Raw12(s, c);
  }

  /** Where the 12-bit count stands before entry `c`: behind the pair of an even entry, at the pair of an odd one. */
  ghost predicate AtCount(fat: DiskSlice, c: nat, prev: nat)
    reads fat, fat.disk
  {
    && fat.Valid() && HoldsAll(Fat12, fat.layout.size, c) && c >= RESERVED_FAT_ENTRIES
    && fat.offset == EntryOffset(Fat12, c) + c % 2
    && (c % 2 == 1 ==> prev == Pair(fat.View(), c - 1))
  }

  /** One round of the 12-bit count: two bytes for an even entry, one for an odd one. */
  method CountNext12(fat: DiskSlice, c: nat, prev: u16) returns (packed: u16, zero: bool)
    requires AtCount(fat, c, prev) && Holds(Fat12, fat.layout.size, c)
    modifies fat`offset
    ensures fat.Valid() && AtCount(fat, c + 1, packed) && zero == Zero(Fat12, fat.View(), c)
  {
    if c % 2 == 0 {
      var b := fat.ReadExact(2);
      packed := U16(b.value);
      PairZero(fat.View(), c);
      zero := packed % 0x1000 == 0;
    } else {
      var b := fat.ReadExact(1);
      packed := b.value[0];
      OddThenEven(c);
      OddCountTest(fat.View(), c, b.value[0]);
      zero := packed as int * 0x100 + prev / 0x1000 == 0;
    }
  }

  method StartCount12(fat: DiskSlice, ghost end: nat)
    requires fat.Valid() && RESERVED_FAT_ENTRIES <= end && HoldsAll(Fat12, fat.layout.size, end)
    modifies fat`offset
    ensures fat.Valid() && AtCount(fat, RESERVED_FAT_ENTRIES, 0)
  {
    HoldsBelow(Fat12, fat.layout.size, 1, end - 1);
    var ok := fat.Seek(FromStart(RESERVED_FAT_ENTRIES * 3 / 2));
  }

  method CountFree12(fat: DiskSlice, end: nat) returns (count: nat)
    requires fat.Valid() && RESERVED_FAT_ENTRIES <= end && HoldsAll(Fat12, fat.layout.size, end)
    modifies fat`offset
    ensures fat.Valid() && count == ZeroCount(Fat12, fat.View(), end)
  {
    hide Zero, Holds, AtCount;
    var cluster := RESERVED_FAT_ENTRIES;
    count := 0;
    StartCount12(fat, end);
    var prev: u16 := 0;
    while cluster < end
      invariant fat.Valid() && cluster <= end && AtCount(fat, cluster, prev)
      invariant count == ZeroCount(Fat12, fat.View(), cluster)
    {
      HoldsBelow(Fat12, fat.layout.size, cluster, end - 1);
      var packed, zero := CountNext12(fat, cluster, prev);
      prev := packed;
      if zero { count := count + 1; }
      cluster := cluster + 1;
    }
  }

  /** The streaming count counts the entries stored as zero, for every entry width. */
  method CountFreeClusters(fat: DiskSlice, ft: FatType, total: nat) returns (count: nat)
    requires fat.Valid() && HoldsAll(ft, fat.layout.size, total + RESERVED_FAT_ENTRIES)
    modifies fat`offset
    ensures fat.Valid() && count == ZeroCount(ft, fat.View(), total + RESERVED_FAT_ENTRIES)
  {
    var end := total + RESERVED_FAT_ENTRIES;
    match ft
    case Fat12 => count := CountFree12(fat, end);
    case Fat16 => count := CountFree16(fat, end);
    case Fat32 => count := CountFree32(fat, end);
  }
}
