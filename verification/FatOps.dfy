/**
  Allocating, walking, freeing and truncating on the byte table, each tied to the function
  of FatWalk.dfy that says what it means.
  */
module FatOps {

  import opened Options
  import opened Bytes
  import opened Storages
  import opened Blocks
  import opened DiskSlices
  import opened FatChains
  import opened FatWalk
  import opened FatEntry
  import opened FatTable

  /** The stream holds the `n` entries of a table, none numbered like a mark. */
  ghost predicate Stores(fat: DiskSlice, ft: FatType, n: nat)
    reads fat
  {
    fat.Valid() && HoldsAll(ft, fat.layout.size, n) && RESERVED_FAT_ENTRIES <= n <= BadMark(ft)
  }

  /** The table a stream stands for. */
  ghost function TableIn(fat: DiskSlice, ft: FatType, n: nat): (t: Table)
    requires Stores(fat, ft, n)
    reads fat, fat.disk
    ensures |t| == n
  {
    TableOf(ft, fat.View(), n)
  }

  method ReadFat(fat: DiskSlice, ft: FatType, ghost n: nat, c: nat) returns (v: FatValue)
    requires Stores(fat, ft, n) && c < n
    modifies fat`offset
    ensures Stores(fat, ft, n) && v == TableIn(fat, ft, n)[c]
  {
    HoldsBelow(ft, fat.layout.size, c, n - 1);
    v := ReadEntry(fat, ft, c);
  }

  method WriteFat(fat: DiskSlice, ft: FatType, ghost n: nat, c: nat, v: FatValue)
    requires Stores(fat, ft, n) && fat.Ready(EntryWidth(ft)) && c < n && (v.Data? ==> 0 < v.next < n)
    modifies fat, fat.disk
    ensures Stores(fat, ft, n) && fat.dirty && TableIn(fat, ft, n) == old(TableIn(fat, ft, n))[c := v]
    ensures FatOnly(fat.layout, fat.port, old(fat.Image()), fat.Image())
  {
    hide FatOnly, Set, Get;
    HoldsBelow(ft, fat.layout.size, c, n - 1);
    TableAfterSet(ft, fat.View(), n, c, v);
    WriteEntry(fat, ft, c, v);
  }

  /** Two bytes at `a0` and `a1`, the first write of which is interrupted by the status byte at `f`. */
  ghost function Strayed(d: seq<byte>, a0: nat, a1: nat, f: nat, status: byte, b: seq<byte>): (r: seq<byte>)
    requires |b| == 2 && a0 + 2 <= |d| && a1 + 2 <= |d| && f + 2 <= |d|
    ensures |r| == |d|
  {
    Splice(Splice(Splice(Splice(d, a0, b[..1]), f, [status]), f + 1, b[1..]), a1, b)
  }

  lemma StraySplices(d: seq<byte>, a0: nat, a1: nat, size: nat, at: nat, f: nat, status: byte, b: seq<byte>)
    requires |b| == 2 && f + 2 < a0 && a0 + size <= a1 && a1 + size <= |d| && at + 2 <= size
    ensures var r := Strayed(d, a0 + at, a1 + at, f, status, b);
            && r[a0..a0 + size] == Splice(d[a0..a0 + size], at, b[..1])
            && r[a1..a1 + size] == Splice(d[a1..a1 + size], at, b) && r[f + 1] == b[1]
  {
  }

  /** Two mirrors, and the storage after a write that the volume's status byte interrupts behind the first byte. */
  lemma TwoMirrors(p: Port, l: Layout, s: Store, at: nat, b: seq<byte>)
    requires l.Fits(|s.bytes|) && l.count == 2 && at + |b| <= l.size && |b| == 2 && p.flagsAt + 2 < l.begin
    requires !s.dirty && p.counts(s.calls) == 1
    ensures var r := Mirrors(p, l, s, at, b, 0).bytes;
            && Block(l, r, 0) == Splice(Block(l, s.bytes, 0), at, b[..1])
            && Block(l, r, 1) == Splice(Block(l, s.bytes, 1), at, b) && r[p.flagsAt + 1] == b[1]
  {
    hide Mirrors, Strayed, Layout.Base, Layout.Fits, Block;
    BlockFits(l, |s.bytes|, 0);
    BlockFits(l, |s.bytes|, 1);
    var r := Mirrors(p, l, s, at, b, 0).bytes;
    BlockIs(l, s.bytes, r, 0);
    BlockIs(l, s.bytes, r, 1);
    TwoWrites(p, l, s, at, b);
    StraySplices(s.bytes, l.Base(0), l.Base(1), l.size, at, p.flagsAt, p.status, b);
  }

  lemma BlockIs(l: Layout, d: seq<byte>, d': seq<byte>, m: nat)
    requires l.Fits(|d|) && |d'| == |d| && m < l.count && l.Base(m) + l.size <= |d|
    ensures Block(l, d, m) == d[l.Base(m)..l.Base(m) + l.size] && Block(l, d', m) == d'[l.Base(m)..l.Base(m) + l.size]
  {
  }

  lemma TwoWrites(p: Port, l: Layout, s: Store, at: nat, b: seq<byte>)
    requires l.Fits(|s.bytes|) && l.count == 2 && at + |b| <= l.size && |b| == 2 && p.flagsAt + 2 < l.begin
    requires !s.dirty && p.counts(s.calls) == 1
    requires l.Base(0) + at + 2 <= |s.bytes| && l.Base(1) + at + 2 <= |s.bytes|
    ensures Mirrors(p, l, s, at, b, 0).bytes
         == Strayed(s.bytes, l.Base(0) + at, l.Base(1) + at, p.flagsAt, p.status, b)
  {
    hide TookAll, Splice;
    RestStrays(p, s.At(l.Base(0) + at), b);
    var s1 := TookAll(p, s.At(l.Base(0) + at), b);
    PiecesJoin(p, s1.At(l.Base(1) + at), b);
    var s2 := TookAll(p, s1.At(l.Base(1) + at), b);
    assert Mirrors(p, l, s, at, b, 0) == Mirrors(p, l, s1, at, b, 1) == Mirrors(p, l, s2, at, b, 2);
  }

  /**
    On a clean FAT12 volume, and a storage that takes single bytes, freeing the last cluster of a
    chain whose entry crosses two sectors frees it in the second mirror only. In the first one it now
    links to cluster 0xFF0, and the other half of the entry has overwritten the byte behind the status.
    */
  lemma FreeingStrays(p: Port, l: Layout, s: Store)
    requires l.Fits(|s.bytes|) && l.begin == 512 && l.size == 1024 && l.count == 2 && MirrorsEqual(l, s.bytes)
    requires p.flagsAt == 0x25 && p.counts(s.calls) == 1 && !s.dirty
    requires Get(Fat12, Block(l, s.bytes, 0), 341) == EndOfChain
    ensures var b := Packed(Fat12, Block(l, s.bytes, 0), 341, Encode(Fat12, FatValue.Free));
            var r := Mirrors(p, l, s, EntryOffset(Fat12, 341), b, 0).bytes;
            && Get(Fat12, Block(l, r, 0), 341) == Data(0xFF0) && Get(Fat12, Block(l, r, 1), 341) == FatValue.Free
            && r[0x26] == 0
  {
    hide Mirrors, Block, Set, Get, Packed;
    var t := Block(l, s.bytes, 0);
    var b := Packed(Fat12, t, 341, Encode(Fat12, FatValue.Free));
    TwoMirrors(p, l, s, 511, b);
    HalfFreed(t);
    assert Block(l, s.bytes, 1) == t;
    GetAfterSet(Fat12, t, 341, FatValue.Free, 341);
  }

  /** Half of the entry of cluster 341 freed. */
  lemma HalfFreed(t: seq<byte>)
    requires |t| == 1024 && Get(Fat12, t, 341) == EndOfChain
    ensures var b := Packed(Fat12, t, 341, Encode(Fat12, FatValue.Free));
            && |b| == 2 && b[1] == 0 && Get(Fat12, Splice(t, 511, b[..1]), 341) == Data(0xFF0)
            && Splice(t, 511, b) == Set(Fat12, t, 341, FatValue.Free)
  {
    var b := Packed(Fat12, t, 341, Encode(Fat12, FatValue.Free));
    var t' := Splice(t, 511, b[..1]);
    assert t'[511..513] == [b[0], t[512]] && t[511..513] == [t[511], t[512]];
    assert b[0] == t[511] % 16;
    assert t[512] == 0xFF;
  }

  /** A shorter table with the same entries gives the same search result. */
  lemma FindFreePrefix(t: Table, t': Table, lo: nat, hi: nat)
    requires lo <= hi <= |t| && hi <= |t'| && forall m :: lo <= m < hi ==> t[m] == t'[m]
    ensures FindFree(t, lo, hi) == FindFree(t', lo, hi)
  {
  }

  // ---------------------------------------------------------------- searching and allocating

  /** The most clusters of a mounted volume with entries of this width. */
  function MaxClusters(ft: FatType): (n: nat) {
    match ft
    case Fat12 => 4084
    case Fat16 => 65524
    case Fat32 => 0x0FFF_FFFF
  }

  /** A 12-bit volume without clusters, on which a scan starts at the end of its range. */
  predicate Hollow(ft: FatType, total: nat) { ft.Fat12? && total == 0 }

  /** `r` is the first zero entry in the order of the search, or the report that there is none. */
  ghost predicate Searched(ft: FatType, s: seq<byte>, hint: Option<nat>, n: nat, r: Result<nat, FatError>)
    requires n >= RESERVED_FAT_ENTRIES && (hint.Some? ==> hint.value >= RESERVED_FAT_ENTRIES)
  {
    var start := SearchStart(hint, n);
    if r.Ok? && r.value >= start then Scanned(ft, s, start, n, r)
    else NoZero(ft, s, start, n) && Scanned(ft, s, RESERVED_FAT_ENTRIES, start, r)
  }

  /** The first zero entry in the order of the search is that of a mark. */
  ghost predicate MarkTaken(ft: FatType, s: seq<byte>, hint: Option<nat>, n: nat)
    requires n >= RESERVED_FAT_ENTRIES && (hint.Some? ==> hint.value >= RESERVED_FAT_ENTRIES)
  {
    var start := SearchStart(hint, n);
    MarkFirst(ft, s, start, n) || (NoZero(ft, s, start, n) && MarkFirst(ft, s, RESERVED_FAT_ENTRIES, start))
  }

  /** What a search for a cluster answers on the bytes `s` of a table. */
  ghost predicate Answered(ft: FatType, s: seq<byte>, hint: Option<nat>, total: nat, r: Result<nat, FatError>)
    requires hint.Some? ==> hint.value >= RESERVED_FAT_ENTRIES
  {
    if Hollow(ft, total) then r != Err(NotEnoughSpace)
      && (r.Ok? ==> r.value >= RESERVED_FAT_ENTRIES && Zero(ft, s, r.value))
    else Searched(ft, s, hint, total + RESERVED_FAT_ENTRIES, r)
  }

  method SearchFat(fat: DiskSlice, ft: FatType, total: nat, hint: Option<nat>) returns (r: Result<nat, FatError>)
    requires fat.Valid() && HoldsAll(ft, fat.layout.size, total + RESERVED_FAT_ENTRIES)
    requires hint.Some? ==> hint.value >= RESERVED_FAT_ENTRIES
    modifies fat`offset
    ensures fat.Valid() && Answered(ft, fat.View(), hint, total, r)
  {
    var end := total + RESERVED_FAT_ENTRIES;
    var start := SearchStart(hint, end);
    r := FindFreeCluster(fat, ft, start, end);
    if r.Err? && start > RESERVED_FAT_ENTRIES {
      HoldsBelow(ft, fat.layout.size, start - 1, end - 1);
      r := FindFreeCluster(fat, ft, RESERVED_FAT_ENTRIES, start);
    }
  }

  lemma SearchFinds(ft: FatType, s: seq<byte>, hint: Option<nat>, n: nat, r: Result<nat, FatError>)
    requires n >= RESERVED_FAT_ENTRIES && HoldsAll(ft, |s|, n) && (hint.Some? ==> hint.value >= RESERVED_FAT_ENTRIES)
    requires Searched(ft, s, hint, n, r)
    ensures SearchFree(TableOf(ft, s, n), hint) == Found(r) <==> !MarkTaken(ft, s, hint, n)
  {
    var t, start := TableOf(ft, s, n), SearchStart(hint, n);
    if r.Ok? && r.value >= start {
      ScanFindsFree(ft, s, start, n, r);
    } else {
      HoldsBelow(ft, |s|, start - 1, n - 1);
      ScanFindsFree(ft, s, start, n, Err(NotEnoughSpace));
      ScanFindsFree(ft, s, RESERVED_FAT_ENTRIES, start, r);
      FindFreePrefix(TableOf(ft, s, start), t, RESERVED_FAT_ENTRIES, start);
    }
  }

  /**
    A search answers as the table of values asks, reporting a lack of space and nothing else,
    exactly if the volume is not a hollow one and the first zero entry is not that of a mark.
    */
  lemma SearchIsRight(ft: FatType, s: seq<byte>, hint: Option<nat>, total: nat, r: Result<nat, FatError>)
    requires HoldsAll(ft, |s|, total + RESERVED_FAT_ENTRIES) && (hint.Some? ==> hint.value >= RESERVED_FAT_ENTRIES)
    requires Answered(ft, s, hint, total, r)
    ensures SearchFree(TableOf(ft, s, total + RESERVED_FAT_ENTRIES), hint) == Found(r)
            && (r.Err? ==> r.error == NotEnoughSpace)
            <==> !Hollow(ft, total) && !MarkTaken(ft, s, hint, total + RESERVED_FAT_ENTRIES)
  {
    if !Hollow(ft, total) { SearchFinds(ft, s, hint, total + RESERVED_FAT_ENTRIES, r); }
  }

  /** A volume on which every search and every count is right, whatever its table stores. */
  predicate Regular(ft: FatType, total: nat) {
    total + RESERVED_FAT_ENTRIES <= BadMark(ft) && !Hollow(ft, total)
  }

  /** This is a matter of the number of clusters alone; `size` is that of the table in bytes. */
  lemma RegularExactly(ft: FatType, size: nat, total: nat)
    requires HoldsAll(ft, size, total + RESERVED_FAT_ENTRIES) && total <= MaxClusters(ft)
    ensures Regular(ft, total)
            <==> forall s: seq<byte>, hint: Option<nat> ::
                   |s| == size && (hint.Some? ==> hint.value >= RESERVED_FAT_ENTRIES)
                   ==> !Hollow(ft, total) && !MarkTaken(ft, s, hint, total + RESERVED_FAT_ENTRIES)
  {
    var n := total + RESERVED_FAT_ENTRIES;
    if n > BadMark(ft) {
      var m := BadMark(ft);
      assert Special(ft, m);
      ScansAgree(ft, size, RESERVED_FAT_ENTRIES, n);
      var s: seq<byte> :| |s| == size && MarkFirst(ft, s, RESERVED_FAT_ENTRIES, n);
      assert MarkTaken(ft, s, None, n);
    } else if Hollow(ft, total) {
      assert |Zeros(size)| == size;
      assert !MarkTaken(ft, Zeros(size), None, n) ==> Hollow(ft, total);
    }
  }

  /** The table's bytes after cluster `n` is claimed, behind `prev` if there is one. */
  ghost function Claimed(ft: FatType, s: seq<byte>, prev: Option<nat>, n: nat): (r: seq<byte>)
    requires Holds(ft, |s|, n) && (prev.Some? ==> Holds(ft, |s|, prev.value) && n < Reach(ft))
    ensures |r| == |s|
  {
    var ended := Set(ft, s, n, EndOfChain);
    if prev.Some? then Set(ft, ended, prev.value, Data(n)) else ended
  }

  /**
    Claiming links the cluster, exactly if the link can be told from a mark and is stored for a cluster that is none.
    */
  lemma ClaimedTable(ft: FatType, s: seq<byte>, total: nat, prev: Option<nat>, n: nat)
    requires HoldsAll(ft, |s|, total + RESERVED_FAT_ENTRIES) && total <= MaxClusters(ft)
    requires 0 < n < total + RESERVED_FAT_ENTRIES && (prev.Some? ==> prev.value < total + RESERVED_FAT_ENTRIES)
    ensures Holds(ft, |s|, n) && (prev.Some? ==> Holds(ft, |s|, prev.value) && n < Reach(ft))
    ensures TableOf(ft, Claimed(ft, s, prev, n), total + RESERVED_FAT_ENTRIES)
            == Claim(TableOf(ft, s, total + RESERVED_FAT_ENTRIES), prev, n)
            <==> prev.None? || (n < BadMark(ft) && !Special(ft, prev.value))
  {
    var end := total + RESERVED_FAT_ENTRIES;
    HoldsBelow(ft, |s|, n, end - 1);
    TableAfterSet(ft, s, end, n, EndOfChain);
    if prev.Some? {
      HoldsBelow(ft, |s|, prev.value, end - 1);
      TableAfterSet(ft, Set(ft, s, n, EndOfChain), end, prev.value, Data(n));
    }
  }

  /** On a regular volume allocation is that of the table of values. */
  lemma RegularAlloc(ft: FatType, s: seq<byte>, prev: Option<nat>, hint: Option<nat>, total: nat,
                     r: Result<nat, FatError>)
    requires HoldsAll(ft, |s|, total + RESERVED_FAT_ENTRIES) && Regular(ft, total) && total <= MaxClusters(ft)
    requires hint.Some? ==> hint.value >= RESERVED_FAT_ENTRIES
    requires prev.Some? ==> prev.value < total + RESERVED_FAT_ENTRIES
    requires Answered(ft, s, hint, total, r)
    ensures var t := TableOf(ft, s, total + RESERVED_FAT_ENTRIES);
            && Found(r) == SearchFree(t, hint)
            && (r.Ok? ==> Holds(ft, |s|, r.value) && (prev.Some? ==> Holds(ft, |s|, prev.value) && r.value < Reach(ft))
                          && TableOf(ft, Claimed(ft, s, prev, r.value), total + RESERVED_FAT_ENTRIES)
                          == Claim(t, prev, r.value))
  {
    RegularExactly(ft, |s|, total);
    SearchIsRight(ft, s, hint, total, r);
    if r.Ok? { ClaimedTable(ft, s, total, prev, r.value); }
  }

  /**
    Takes the first zero entry from the hint on, wrapping around, and links it behind `prev`.
    This holds on every mounted volume; the lemmas above say when it is what the table asks for.
    */
  method AllocCluster(fat: DiskSlice, ft: FatType, prev: Option<nat>, hint: Option<nat>, total: nat)
    returns (r: Result<nat, FatError>)
    requires fat.Valid() && HoldsAll(ft, fat.layout.size, total + RESERVED_FAT_ENTRIES) && total <= MaxClusters(ft)
    requires hint.Some? ==> hint.value >= RESERVED_FAT_ENTRIES
    requires prev.Some? ==> RESERVED_FAT_ENTRIES <= prev.value < total + RESERVED_FAT_ENTRIES
    requires fat.Ready(EntryWidth(ft))
    modifies fat, fat.disk
    ensures fat.Valid() && fat.dirty == (old(fat.dirty) || r.Ok?) && Answered(ft, old(fat.View()), hint, total, r)
    ensures r.Ok? ==> Holds(ft, fat.layout.size, r.value)
                      && (prev.Some? ==> Holds(ft, fat.layout.size, prev.value) && r.value < Reach(ft))
    ensures fat.View() == if r.Ok? then Claimed(ft, old(fat.View()), prev, r.value) else old(fat.View())
    ensures FatOnly(fat.layout, fat.port, old(fat.Image()), fat.Image())
  {
    r := SearchFat(fat, ft, total, hint);
    if r.Ok? {
      var n := r.value;
      ghost var d0 := fat.Image();
      WriteEntry(fat, ft, n, EndOfChain);
      if prev.Some? {
        HoldsBelow(ft, fat.layout.size, prev.value, total + 1);
        ghost var d1 := fat.Image();
        WriteEntry(fat, ft, prev.value, Data(n));
        FatOnlyTrans(fat.layout, fat.port, d0, d1, fat.Image());
      }
    }
  }

  /** On a regular volume this is the allocation of the table of values: it fails exactly when no cluster is free. */
  method AllocRegular(fat: DiskSlice, ft: FatType, prev: Option<nat>, hint: Option<nat>, total: nat, ghost t: Table)
    returns (r: Option<nat>)
    requires Stores(fat, ft, total + RESERVED_FAT_ENTRIES) && Regular(ft, total) && total <= MaxClusters(ft)
    requires TableIn(fat, ft, total + RESERVED_FAT_ENTRIES) == t
    requires hint.Some? ==> hint.value >= RESERVED_FAT_ENTRIES
    requires prev.Some? ==> RESERVED_FAT_ENTRIES <= prev.value < total + RESERVED_FAT_ENTRIES
    requires fat.Ready(EntryWidth(ft))
    modifies fat, fat.disk
    ensures Stores(fat, ft, total + RESERVED_FAT_ENTRIES) && fat.dirty == (old(fat.dirty) || r.Some?)
    ensures r == SearchFree(t, hint)
    ensures TableIn(fat, ft, total + RESERVED_FAT_ENTRIES) == if r.Some? then Claim(t, prev, r.value) else t
    ensures FatOnly(fat.layout, fat.port, old(fat.Image()), fat.Image())
  {
    ghost var s := fat.View();
    var found := AllocCluster(fat, ft, prev, hint, total);
    RegularAlloc(ft, s, prev, hint, total, found);
    r := Found(found);
  }

  /** What is left of a walk that started with `t0` and `c0` after `num` rounds. */
  ghost predicate Remains(t0: Table, c0: Option<nat>, t: Table, c: Option<nat>, num: nat)
    requires LinksInRange(t0) && (c0.Some? ==> InRange(t0, c0.value))
    requires LinksInRange(t) && (c.Some? ==> InRange(t, c.value))
  {
    var rest := FreeWalk(t, c);
    FreeWalk(t0, c0) == (rest.0, num + rest.1)
  }

  lemma RemainsStep(t0: Table, c0: Option<nat>, t: Table, at: nat, num: nat)
    requires LinksInRange(t0) && (c0.Some? ==> InRange(t0, c0.value))
    requires LinksInRange(t) && InRange(t, at) && Remains(t0, c0, t, Some(at), num)
    ensures Remains(t0, c0, t[at := FatValue.Free], Link(t, at), num + 1)
    ensures Link(t, at).Some? ==> Count(t[at := FatValue.Free], IsData) < Count(t, IsData)
    ensures Count(t[at := FatValue.Free], IsData) <= Count(t, IsData)
  {
    CountUpdate(t, IsData, at, FatValue.Free);
  }

  /** Iterates over the clusters of a chain; `n` is the number of entries of its table. */
  class ClusterIterator {
    const fat: DiskSlice
    const ft: FatType
    ghost const n: nat
    var cluster: Option<nat>

    ghost predicate Valid()
      reads this, fat
    {
      Stores(fat, ft, n) && (cluster.Some? ==> RESERVED_FAT_ENTRIES <= cluster.value < n)
    }

    ghost function Table(): (t: Table)
      requires Valid()
      reads this, fat, fat.disk
      ensures |t| == n
    {
      TableIn(fat, ft, n)
    }

    constructor (fat: DiskSlice, ft: FatType, ghost n: nat, cluster: nat)
      requires Stores(fat, ft, n) && RESERVED_FAT_ENTRIES <= cluster < n
      ensures Valid() && this.fat == fat && this.ft == ft && this.n == n && this.cluster == Some(cluster)
    {
      this.fat := fat;
      this.ft := ft;
      this.n := n;
      this.cluster := Some(cluster);
    }

    /** Moves to the linked cluster and returns it; at the end it stays exhausted. */
    method Next() returns (r: Option<nat>)
      requires Valid() && LinksInRange(Table())
      modifies this, fat`offset
      ensures Valid() && Table() == old(Table()) && r == cluster
      ensures cluster == if old(cluster).Some? then Link(old(Table()), old(cluster).value) else None
    {
      if cluster.Some? {
        var v := ReadFat(fat, ft, n, cluster.value);
        cluster := if v.Data? then Some(v.next) else None;
      }
      r := cluster;
    }

    /** Frees every cluster from here on and returns how many entries it wrote. */
    method Free() returns (num: nat)
      requires Valid() && LinksInRange(Table()) && fat.Ready(EntryWidth(ft))
      modifies this, fat, fat.disk
      ensures Valid() && cluster.None? && fat.dirty == (old(fat.dirty) || old(cluster).Some?)
      ensures (Table(), num) == FreeWalk(old(Table()), old(cluster))
      ensures FatOnly(fat.layout, fat.port, old(fat.Image()), fat.Image())
    {
      hide FatOnly, Count;
      num := 0;
      ghost var d0, t0, c0 := fat.Image(), Table(), cluster;
      FatOnlySame(fat.layout, fat.port, d0);
      ghost var t := t0;
      while cluster.Some?
        invariant Valid() && Table() == t && LinksInRange(t) && fat.Ready(EntryWidth(ft))
        invariant fat.dirty == (old(fat.dirty) || num > 0) && (c0.Some? <==> cluster.Some? || num > 0)
        invariant FatOnly(fat.layout, fat.port, d0, fat.Image())
        invariant Remains(t0, c0, t, cluster, num)
        decreases Count(t, IsData), cluster.Some?
      {
        RemainsStep(t0, c0, t, cluster.value, num);
        ghost var d1 := fat.Image();
        FreeOne();
        FatOnlyTrans(fat.layout, fat.port, d0, d1, fat.Image());
        t := Table();
        num := num + 1;
      }
    }

    /** One round of `Free`: step on, then free the cluster just left. */
    method FreeOne()
      requires Valid() && LinksInRange(Table()) && cluster.Some? && fat.Ready(EntryWidth(ft))
      modifies this, fat, fat.disk
      ensures Valid() && LinksInRange(Table()) && fat.dirty
      ensures var at := old(cluster).value;
              Table() == old(Table())[at := FatValue.Free] && cluster == Link(old(Table()), at)
      ensures FatOnly(fat.layout, fat.port, old(fat.Image()), fat.Image())
    {
      var at := cluster.value;
      var r := Next();
      WriteFat(fat, ft, n, at, FatValue.Free);
    }

    /** Makes the current cluster the end of its chain and frees everything behind it. */
    method Truncate() returns (num: nat)
      requires Valid() && LinksInRange(Table()) && fat.Ready(EntryWidth(ft))
      modifies this, fat, fat.disk
      ensures Valid() && cluster.None? && fat.dirty == (old(fat.dirty) || old(cluster).Some?)
      ensures (Table(), num) == if old(cluster).Some? then TruncateWalk(old(Table()), old(cluster).value)
              else (old(Table()), 0)
      ensures FatOnly(fat.layout, fat.port, old(fat.Image()), fat.Image())
    {
      num := 0;
      if cluster.Some? {
        var at := cluster.value;
        ghost var d0 := fat.Image();
        var r := Next();
        WriteFat(fat, ft, n, at, EndOfChain);
        ghost var d1 := fat.Image();
        num := Free();
        FatOnlyTrans(fat.layout, fat.port, d0, d1, fat.Image());
      }
    }
  }
}
