/**
  The bytes of a directory as a stream of slots: those of a cluster chain, or the fixed region
  between table and clusters where 12- and 16-bit volumes keep their root directory.
  */
module DirStreams {

  import opened Options
  import opened Bytes
  import opened Blocks
  import opened Storages
  import opened DiskSlices
  import opened FatChains
  import opened FatWalk
  import opened FatRuns
  import opened Cursor
  import opened FileSystems
  import opened FileContents
  import opened FileChains
  import opened Files
  import opened DirEntries
  import opened DirSlots

  // ---------------------------------------------------------------- slots of a file

  /** A file that can be read and written slot by slot. */
  ghost predicate DirFile(f: File)
    reads f, f.fs, f.fs.disk
  {
    && f.Valid() && f.size.None? && f.chain != [] && f.fs.g.data.size % DIR_ENTRY_SIZE == 0
    && f.offset % DIR_ENTRY_SIZE == 0 && |f.Contents()| <= MAX_FILE_SIZE
  }

  ghost function FileSlots(f: File): (s: seq<Slot>)
    requires DirFile(f)
    reads f, f.fs, f.fs.disk
    ensures DIR_ENTRY_SIZE * |s| == |f.Contents()|
  {
    SpanWhole(|f.chain|, f.fs.g.data.size);
    Slots(f.Contents())
  }

  /** A read at a slot's start gives the whole slot, or nothing behind the last one. */
  lemma ReadWhole(c: seq<byte>, off: nat, cs: nat, n: nat)
    requires Whole(c) && off % DIR_ENTRY_SIZE == 0 && off <= |c| && cs > 0 && cs % DIR_ENTRY_SIZE == 0
    requires n == Limit(DIR_ENTRY_SIZE, Room(off, cs), |c| - off, DIR_ENTRY_SIZE)
    ensures off / DIR_ENTRY_SIZE <= |Slots(c)| && n == if off / DIR_ENTRY_SIZE < |Slots(c)| then DIR_ENTRY_SIZE else 0
    ensures n > 0 ==> off + n <= |c| && c[off..off + n] == Slots(c)[off / DIR_ENTRY_SIZE]
    ensures (off + n) % DIR_ENTRY_SIZE == 0 && (n > 0 ==> (off + n) / DIR_ENTRY_SIZE == off / DIR_ENTRY_SIZE + 1)
  {
    SlotInCluster(off, cs);
  }

  /** Reads the slot at the position; none at the end of the last cluster. */
  method ReadFromFile(f: File) returns (s: Option<Slot>)
    requires DirFile(f)
    modifies f`offset, f`currentCluster
    ensures DirFile(f) && FileSlots(f) == old(FileSlots(f))
    ensures s == if old(f.offset) / DIR_ENTRY_SIZE < |FileSlots(f)|
            then Some(FileSlots(f)[old(f.offset) / DIR_ENTRY_SIZE]) else None
    ensures f.offset / DIR_ENTRY_SIZE == old(f.offset) / DIR_ENTRY_SIZE + if s.Some? then 1 else 0
  {
    hide File.Valid, File.Contents, Limit, Room;
    ghost var c, off := f.Contents(), f.offset;
    FileLength(f);
    var buf := f.Read(DIR_ENTRY_SIZE, DIR_ENTRY_SIZE);
    ReadWhole(c, off, f.fs.g.data.size, |buf|);
    s := if |buf| == DIR_ENTRY_SIZE then Some(buf) else None;
  }

  lemma FileLength(f: File)
    requires DirFile(f)
    ensures Whole(f.Contents()) && f.AllBytes() == f.Contents()
            && f.offset <= |f.Contents()| == Span(|f.chain|, f.fs.g.data.size)
    ensures f.fs.Mounted() && f.fs.g.data.size > 0
  {
    SpanWhole(|f.chain|, f.fs.g.data.size);
  }

  /** The bytes of the whole slot are granted. */
  lemma GrantedWhole(off: nat, cs: nat)
    requires off % DIR_ENTRY_SIZE == 0 && off + DIR_ENTRY_SIZE <= MAX_FILE_SIZE && cs > 0 && cs % DIR_ENTRY_SIZE == 0
    ensures Limit(DIR_ENTRY_SIZE, Room(off, cs), MAX_FILE_SIZE - off, DIR_ENTRY_SIZE) == DIR_ENTRY_SIZE
  {
    SlotInCluster(off, cs);
  }

  lemma WriteWhole(c: seq<byte>, fill: seq<byte>, off: nat, b: Slot, d: seq<byte>)
    requires Whole(c) && Whole(fill) && off % DIR_ENTRY_SIZE == 0 && off <= |c| && off + DIR_ENTRY_SIZE <= |c + fill|
    requires d == Overwrite(c + fill, off, b)
    ensures Whole(d) && PutWith(Slots(c), Slots(fill), Slots(d), off / DIR_ENTRY_SIZE, b)
    ensures (off + DIR_ENTRY_SIZE) % DIR_ENTRY_SIZE == 0
            && (off + DIR_ENTRY_SIZE) / DIR_ENTRY_SIZE == off / DIR_ENTRY_SIZE + 1
  {
    assert off == DIR_ENTRY_SIZE * (off / DIR_ENTRY_SIZE);
    SlotsOverwrite(c, fill, off / DIR_ENTRY_SIZE, b, d);
  }

  lemma {:induction false} SameSpan(a: nat, b: nat, cs: nat)
    requires cs > 0 && Span(a, cs) == Span(b, cs)
    ensures a == b
  {
    if a < b { SpanStep(a, b, cs); }
    if b < a { SpanStep(b, a, cs); }
  }

  lemma SameChain(c: seq<nat>, c': seq<nat>, cs: nat)
    requires cs > 0 && c <= c' && Span(|c|, cs) == Span(|c'|, cs)
    ensures c' == c
  {
    SameSpan(|c|, |c'|, cs);
  }

  /** The clusters hold whole slots, and the volume says where the next one is found. */
  ghost predicate CanGrow(g: Geometry, d: seq<byte>, v: Volume, last: nat) {
    && g.Fits(|d|) && g.data.size % DIR_ENTRY_SIZE == 0 && |v.t| == g.Entries() && last < |v.t|
    && (v.hint.Some? ==> v.hint.value >= RESERVED_FAT_ENTRIES)
  }

  /** The slots of cluster `c`, or as many zero ones. */
  ghost function ClusterSlots(g: Geometry, d: seq<byte>, c: nat, zero: bool): (t: seq<Slot>)
    requires g.Fits(|d|) && g.data.size % DIR_ENTRY_SIZE == 0 && RESERVED_FAT_ENTRIES <= c < g.Entries()
    ensures DIR_ENTRY_SIZE * |t| == g.data.size && t != []
  {
    Slots(Appended(g, d, Some(c), zero))
  }

  /**
    The slots of the clusters that a directory will grow by, one after the other, until it has `n`
    slots more or no cluster is free. `last` is the cluster behind which the next one is linked.
    */
  ghost function Upcoming(g: Geometry, d: seq<byte>, v: Volume, last: nat, zero: bool, n: nat): (t: seq<Slot>)
    requires CanGrow(g, d, v, last)
    decreases n
  {
    var c := SearchFree(v.t, v.hint);
    if n == 0 || c.None? then []
    else
      var t := ClusterSlots(g, d, c.value, zero);
      t + Upcoming(g, d, Alloc(v, Some(last)).0, c.value, zero, if n <= |t| then 0 else n - |t|)
  }

  /** What is free in `v` holds the same in both images. */
  ghost predicate FreeSame(g: Geometry, d: seq<byte>, d': seq<byte>, v: Volume)
    requires g.Fits(|d|) && |d'| == |d| && |v.t| == g.Entries()
  {
    forall c :: InRange(v.t, c) && v.t[c].Free? ==> ClusterBytes(g.data, d', c) == ClusterBytes(g.data, d, c)
  }

  /** Allocating makes nothing free. */
  lemma AllocFreeSame(g: Geometry, d: seq<byte>, d': seq<byte>, v: Volume, last: nat)
    requires CanGrow(g, d, v, last) && |d'| == |d| && FreeSame(g, d, d', v) && SearchFree(v.t, v.hint).Some?
    ensures var v' := Alloc(v, Some(last)).0;
            && CanGrow(g, d, v', SearchFree(v.t, v.hint).value) && FreeSame(g, d, d', v')
  {
    hide ClusterBytes;
    var c, v' := SearchFree(v.t, v.hint).value, Alloc(v, Some(last)).0;
    assert forall m :: InRange(v'.t, m) && v'.t[m].Free? ==> v.t[m].Free?;
  }

  lemma SlotsSame(g: Geometry, d: seq<byte>, d': seq<byte>, c: nat, zero: bool)
    requires g.Fits(|d|) && |d'| == |d| && g.data.size % DIR_ENTRY_SIZE == 0 && RESERVED_FAT_ENTRIES <= c < g.Entries()
    requires ClusterBytes(g.data, d', c) == ClusterBytes(g.data, d, c)
    ensures ClusterSlots(g, d', c, zero) == ClusterSlots(g, d, c, zero)
  {
  }

  /** The slots to come depend on free clusters only. */
  lemma {:induction false} UpcomingSame(g: Geometry, d: seq<byte>, d': seq<byte>, v: Volume, last: nat, zero: bool,
                                        n: nat)
    requires CanGrow(g, d, v, last) && |d'| == |d| && FreeSame(g, d, d', v)
    ensures Upcoming(g, d', v, last, zero, n) == Upcoming(g, d, v, last, zero, n)
    decreases n
  {
    hide FreeSame, ClusterSlots, Alloc;
    var c := SearchFree(v.t, v.hint);
    if n > 0 && c.Some? {
      var t := ClusterSlots(g, d, c.value, zero);
      AllocFreeSame(g, d, d', v, last);
      FreeHolds(g, d, d', v, c.value);
      SlotsSame(g, d, d', c.value, zero);
      UpcomingSame(g, d, d', Alloc(v, Some(last)).0, c.value, zero, if n <= |t| then 0 else n - |t|);
    }
  }

  lemma FreeHolds(g: Geometry, d: seq<byte>, d': seq<byte>, v: Volume, c: nat)
    requires g.Fits(|d|) && |d'| == |d| && |v.t| == g.Entries() && FreeSame(g, d, d', v) && InRange(v.t, c)
    requires v.t[c].Free?
    ensures ClusterBytes(g.data, d', c) == ClusterBytes(g.data, d, c)
  {
  }

  /** Zeroed clusters bring zero slots. */
  lemma {:induction false} UpcomingZero(g: Geometry, d: seq<byte>, v: Volume, last: nat, n: nat)
    requires CanGrow(g, d, v, last)
    ensures AllZero(Upcoming(g, d, v, last, true, n))
    decreases n
  {
    var c := SearchFree(v.t, v.hint);
    if n > 0 && c.Some? {
      var t := ClusterSlots(g, d, c.value, true);
      SlotsZeros(g.data.size);
      UpcomingZero(g, d, Alloc(v, Some(last)).0, c.value, if n <= |t| then 0 else n - |t|);
    }
  }

  /** The slots that the file will grow by to have `n` more. */
  ghost function FileAhead(f: File, n: nat): (t: seq<Slot>)
    requires DirFile(f)
    reads f, f.fs, f.fs.disk
  {
    CanGrowFile(f);
    Upcoming(f.fs.g, f.fs.disk[..], f.fs.Volume(), Tail(f.chain).value, f.isDir, n)
  }

  lemma CanGrowFile(f: File)
    requires DirFile(f)
    ensures CanGrow(f.fs.g, f.fs.disk[..], f.fs.Volume(), Tail(f.chain).value)
  {
    HintOk(f.fs.Volume());
    TailInTable(f.fs.g, f.fs.disk[..], f.State());
  }

  /** How many of `n` slots are still missing when there are `m`. */
  function Missing(n: nat, m: nat): nat { if n <= m then 0 else n - m }

  /** What was to come is still to come if the directory did not grow. */
  lemma AheadKept(g: Geometry, d: seq<byte>, d': seq<byte>, v: Volume, last: nat, zero: bool, n: nat)
    requires CanGrow(g, d, v, last) && FreeKept(g, d, d') && v.t == TableAt(g, d')
    ensures Upcoming(g, d', v, last, zero, n) == Upcoming(g, d, v, last, zero, n)
  {
    FreeIsSame(g, d, d', v);
    UpcomingSame(g, d, d', v, last, zero, n);
  }

  /** And if it grew by a cluster, that cluster has come. */
  lemma AheadGrown(g: Geometry, d: seq<byte>, d': seq<byte>, v: Volume, v': Volume, last: nat, c: nat, zero: bool,
                   t: seq<Slot>, n: nat)
    requires CanGrow(g, d, v, last) && FreeKept(g, d, d') && v'.t == TableAt(g, d') && v' == Alloc(v, Some(last)).0
    requires n > 0 && SearchFree(v.t, v.hint) == Some(c) && t == ClusterSlots(g, d, c, zero)
    ensures CanGrow(g, d', v', c)
    ensures Upcoming(g, d, v, last, zero, n) == t + Upcoming(g, d', v', c, zero, Missing(n, |t|))
  {
    hide ClusterSlots, TableAt;
    FreeIsSame(g, d, d', v');
    AllocInTable(v, last);
    UpcomingSame(g, d, d', v', c, zero, Missing(n, |t|));
  }

  lemma AllocInTable(v: Volume, last: nat)
    requires |v.t| >= RESERVED_FAT_ENTRIES && last < |v.t| && (v.hint.Some? ==> v.hint.value >= RESERVED_FAT_ENTRIES)
    ensures var v' := Alloc(v, Some(last)).0;
            |v'.t| == |v.t| && (v'.hint.Some? ==> v'.hint.value >= RESERVED_FAT_ENTRIES)
  {
  }

  lemma FreeIsSame(g: Geometry, d: seq<byte>, d': seq<byte>, v: Volume)
    requires g.Fits(|d|) && FreeKept(g, d, d') && v.t == TableAt(g, d')
    ensures FreeSame(g, d, d', v)
  {
  }

  /** What is to come after a file may have grown by a cluster. */
  lemma FileAheadStep(f: File, d: seq<byte>, v: Volume, c: seq<nat>, t: seq<Slot>, n: nat)
    requires DirFile(f) && c != [] && CanGrow(f.fs.g, d, v, Tail(c).value) && FreeKept(f.fs.g, d, f.fs.disk[..])
    requires f.fs.Volume() == if f.chain == c then v else Alloc(v, Tail(c)).0
    requires f.chain == c || (SearchFree(v.t, v.hint).Some? && f.chain == c + [SearchFree(v.t, v.hint).value])
    requires t == if f.chain == c then [] else ClusterSlots(f.fs.g, d, SearchFree(v.t, v.hint).value, f.isDir)
    requires n > 0 || f.chain == c
    ensures Upcoming(f.fs.g, d, v, Tail(c).value, f.isDir, n) == t + FileAhead(f, Missing(n, |t|))
  {
    hide ClusterSlots, FreeKept, Upcoming, Alloc, SearchFree, File.Valid;
    FileLength(f);
    if f.chain == c {
      AheadKept(f.fs.g, d, f.fs.disk[..], v, Tail(c).value, f.isDir, n);
    } else {
      AheadGrown(f.fs.g, d, f.fs.disk[..], v, f.fs.Volume(), Tail(c).value, Tail(f.chain).value, f.isDir, t, n);
    }
  }

  /**
    Writes a slot at the position. Behind the last one the directory grows by a cluster, if one is
    free: a zeroed one, but the root of a FAT32 volume takes the cluster as it is. `n` is how many
    more slots are wanted.
    */
  method PutInFile(f: File, b: Slot, ghost n: nat) returns (ok: bool, ghost t: seq<Slot>)
    requires DirFile(f) && |f.Contents()| + f.fs.g.data.size <= MAX_FILE_SIZE
    requires n > 0 || f.offset < |f.Contents()|
    modifies f, f.fs, f.fs.disk
    ensures DirFile(f) && f.Apart(old(f.fs.disk[..]), old(f.chain)) && old(f.chain) <= f.chain
    ensures !ok ==> old(f.offset) / DIR_ENTRY_SIZE == |old(FileSlots(f))| && FileSlots(f) == old(FileSlots(f))
                    && t == []
    ensures !ok ==> f.offset == old(f.offset) && FileAhead(f, n) == []
    ensures ok ==> PutWith(old(FileSlots(f)), t, FileSlots(f), old(f.offset) / DIR_ENTRY_SIZE, b)
    ensures ok ==> f.offset / DIR_ENTRY_SIZE == old(f.offset) / DIR_ENTRY_SIZE + 1
    ensures t == [] || (old(f.offset) / DIR_ENTRY_SIZE == |old(FileSlots(f))|
                        && DIR_ENTRY_SIZE * |t| == f.fs.g.data.size)
    ensures old(FileAhead(f, n)) == t + FileAhead(f, Missing(n, |t|))
    ensures t == [] ==> f.fs.Table() == old(f.fs.Table())
  {
    hide File.Valid, File.Contents, File.AllBytes, Limit, Room, OthersKept, FreeKept, Overwrite, PutWith, SearchFree,
      Appended, NoneFree, Upcoming, Alloc;
    FileLength(f);
    CanGrowFile(f);
    ghost var c, off, chain, v, d := f.Contents(), f.offset, f.chain, f.fs.Volume(), f.fs.disk[..];
    GrantedWhole(off, f.fs.g.data.size);
    var r, fill := f.Write(b, DIR_ENTRY_SIZE);
    ok := r.Ok?;
    t := Slots(fill);
    if ok {
      assert b[..DIR_ENTRY_SIZE] == b;
      WriteWhole(c, fill, off, b, f.Contents());
    }
    LengthAfter(f, chain, c, fill, off, ok);
    FileAheadStep(f, d, v, chain, t, n);
    if !ok { AheadNone(f, n); }
  }

  lemma AheadNone(f: File, n: nat)
    requires DirFile(f) && NoneFree(f.fs.Table())
    ensures FileAhead(f, n) == []
  {
    HintOk(f.fs.Volume());
  }

  /** What the length of a directory says after a slot was written or not. */
  lemma LengthAfter(f: File, chain: seq<nat>, c: seq<byte>, fill: seq<byte>, off: nat, ok: bool)
    requires f.Valid() && f.size.None? && f.fs.g.data.size % DIR_ENTRY_SIZE == 0 && chain != [] && chain <= f.chain
    requires |c| == Span(|chain|, f.fs.g.data.size) && off % DIR_ENTRY_SIZE == 0 && off <= |c|
    requires fill == [] || |fill| == f.fs.g.data.size
    requires |c| + f.fs.g.data.size <= MAX_FILE_SIZE
    requires if ok then off + DIR_ENTRY_SIZE <= |c + fill| && |f.Contents()| == |c + fill|
             && f.offset == off + DIR_ENTRY_SIZE
             else f.Contents() == c && f.offset == off && fill == []
    ensures DirFile(f) && (fill == [] ==> f.chain == chain)
  {
    hide File.Valid, File.Contents;
    ContentsLength(f);
    if fill == [] {
      assert |c + fill| == |c|;
      SameChain(chain, f.chain, f.fs.g.data.size);
    }
  }

  lemma ContentsLength(f: File)
    requires f.Valid() && f.size.None?
    ensures |f.Contents()| == Span(|f.chain|, f.fs.g.data.size) && f.fs.g.data.size > 0
  {
  }

  // ---------------------------------------------------------------- slots of the fixed root region

  /** One window of whole slots between the table and the clusters. */
  ghost predicate InGap(g: Geometry, l: Layout) {
    l.count == 1 && g.fat.End() <= l.begin && l.End() <= g.data.begin && l.size % DIR_ENTRY_SIZE == 0
  }

  /** Whatever is done to clusters, the bytes of the root directory survive it. */
  lemma RootSurvives(g: Geometry, l: Layout, d: seq<byte>, d': seq<byte>)
    requires g.Fits(|d|) && InGap(g, l) && l.Fits(|d|) && Framed(g, d, d')
    ensures Block(l, d', 0) == Block(l, d, 0)
  {
    BlockFits(l, |d|, 0);
    var lo := l.Base(0);
    forall i | lo <= i < lo + l.size ensures d'[i] == d[i] { assert Outside(g, i); }
  }

  /** Only bytes of the root directory and the status byte differ. */
  ghost predicate RootOnly(g: Geometry, l: Layout, d: seq<byte>, d': seq<byte>) {
    && |d'| == |d|
    && forall i {:trigger d'[i]} :: 0 <= i < |d| && i != g.flagsAt && !(l.begin <= i < l.End()) ==> d'[i] == d[i]
  }

  lemma RootOnlyTrans(g: Geometry, l: Layout, d: seq<byte>, d1: seq<byte>, d2: seq<byte>)
    requires RootOnly(g, l, d, d1) && RootOnly(g, l, d1, d2)
    ensures RootOnly(g, l, d, d2)
  {
  }

  /** And whatever is done to the root directory, the table and all chains survive it. */
  lemma ChainsSurvive(g: Geometry, l: Layout, d: seq<byte>, d': seq<byte>)
    requires g.Fits(|d|) && InGap(g, l) && RootOnly(g, l, d, d')
    ensures TableAt(g, d') == TableAt(g, d) && AllKept(g, d, d')
  {
    assert d'[g.fat.begin..g.fat.End()] == d[g.fat.begin..g.fat.End()];
    assert d'[g.data.begin..] == d[g.data.begin..];
    MirrorsSame(g, d, d');
    SameClustersKept(g, d, d');
  }

  ghost predicate RootSlice(fs: FileSystem, s: DiskSlice)
    reads s
  {
    && fs.Mounted() && s.disk == fs.disk && s.port == fs.Port() && s.Valid() && InGap(fs.g, s.layout)
    && s.offset % DIR_ENTRY_SIZE == 0
  }

  ghost function RootSlots(s: DiskSlice): (v: seq<Slot>)
    requires s.Valid() && s.layout.size % DIR_ENTRY_SIZE == 0
    reads s, s.disk
    ensures DIR_ENTRY_SIZE * |v| == s.layout.size
  {
    Slots(s.View())
  }

  /** Reads the slot at the position; none at the end of the region. */
  method ReadFromRoot(fs: FileSystem, s: DiskSlice) returns (r: Option<Slot>)
    requires RootSlice(fs, s)
    modifies s`offset
    ensures RootSlice(fs, s)
    ensures r == if old(s.offset) / DIR_ENTRY_SIZE < |RootSlots(s)|
            then Some(RootSlots(s)[old(s.offset) / DIR_ENTRY_SIZE]) else None
    ensures s.offset / DIR_ENTRY_SIZE == old(s.offset) / DIR_ENTRY_SIZE + if r.Some? then 1 else 0
  {
    ghost var i := s.offset / DIR_ENTRY_SIZE;
    assert s.offset == DIR_ENTRY_SIZE * i;
    var b := s.ReadExact(DIR_ENTRY_SIZE);
    r := if b.Ok? then Some(b.value) else None;
    if b.Ok? { assert b.value == SlotAt(s.View(), i) == RootSlots(s)[i]; }
  }

  /** How many bytes of a slot are written first: the order of a part of a name, else the short name. */
  function FirstField(b: Slot): (n: nat)
    ensures 0 < n < DIR_ENTRY_SIZE
  {
    if IsLfn(b) then 1 else SFN_SIZE
  }

  /** A slot written in two steps, the second of which finds the volume dirty. */
  lemma TwoSteps(l: Layout, p: Port, i: Image, i1: Image, i2: Image, off: nat, b: Slot, n: nat)
    requires l.Fits(|i.bytes|) && l.count == 1 && n <= DIR_ENTRY_SIZE && off + DIR_ENTRY_SIZE <= l.size
    requires Mirrored(l, p, i, i1, off, b[..n]) && Mirrored(l, p, i1, i2, off + n, b[n..])
    ensures |i2.bytes| == |i.bytes| && Block(l, i2.bytes, 0) == Splice(Block(l, i.bytes, 0), off, b)
    ensures Beside(l, p, i, i2)
  {
    assert CopyIs(l, i.bytes, i1.bytes, off, b[..n], 0, 1) && CopyIs(l, i1.bytes, i2.bytes, off + n, b[n..], 0, 1);
    SpliceTwice(Block(l, i.bytes, 0), off, b, n);
    BesideTrans(l, p, i, i1, i2);
  }

  lemma RootWritten(g: Geometry, l: Layout, p: Port, i: Image, i': Image, off: nat, b: Slot)
    requires g.Fits(|i.bytes|) && InGap(g, l) && l.Fits(|i.bytes|) && p.flagsAt == g.flagsAt
    requires off % DIR_ENTRY_SIZE == 0 && off + DIR_ENTRY_SIZE <= l.size
    requires Beside(l, p, i, i') && Block(l, i'.bytes, 0) == Splice(Block(l, i.bytes, 0), off, b)
    ensures RootOnly(g, l, i.bytes, i'.bytes)
    ensures PutWith(Slots(Block(l, i.bytes, 0)), [], Slots(Block(l, i'.bytes, 0)), off / DIR_ENTRY_SIZE, b)
  {
    var c, c' := Block(l, i.bytes, 0), Block(l, i'.bytes, 0);
    assert c + [] == c;
    OverwriteInside(c, off, b);
    WriteWhole(c, [], off, b, c');
  }

  lemma RootSame(g: Geometry, l: Layout, d: seq<byte>)
    ensures RootOnly(g, l, d, d)
  {
  }

  /** The region cannot grow: behind its last slot nothing is written. */
  lemma RootFull(p: Port, l: Layout, s: Store, s': Store, off: nat)
    requires l.Fits(|s.bytes|) && l.count == 1 && off <= l.size && p.flagsAt < l.begin
    requires s' == Mirrors(p, l, s, off, [], 0)
    ensures s'.bytes == s.bytes
  {
    MirrorsMark(p, l, s, off, [], 0);
  }

  /** Writes a slot field by field; nothing behind the last one. */
  method WriteFields(s: DiskSlice, b: Slot) returns (ok: bool)
    requires s.Valid() && s.Ready(FirstField(b)) && s.layout.count == 1
    requires s.offset == s.layout.size || s.offset + DIR_ENTRY_SIZE <= s.layout.size
    modifies s, s.disk
    ensures s.Valid() && (ok <==> old(s.offset) + DIR_ENTRY_SIZE <= s.layout.size)
    ensures !ok ==> s.disk[..] == old(s.disk[..]) && s.offset == old(s.offset) && s.dirty == old(s.dirty)
    ensures ok ==> s.dirty && s.offset == old(s.offset) + DIR_ENTRY_SIZE
    ensures ok ==> Beside(s.layout, s.port, old(s.Image()), s.Image())
    ensures ok ==> s.View() == Splice(old(s.View()), old(s.offset), b)
  {
    hide Mirrored, Mirrors, Beside;
    var n := FirstField(b);
    ghost var st, i, off := s.Store(), s.Image(), s.offset;
    var r := s.WriteAll(b[..n]);
    ghost var i1 := s.Image();
    ok := r.Ok?;
    if ok {
      assert b[..n][..n] == b[..n] && b[n..][..DIR_ENTRY_SIZE - n] == b[n..];
      r := s.WriteAll(b[n..]);
      TwoSteps(s.layout, s.port, i, i1, s.Image(), off, b, n);
    } else {
      assert b[..n][..0] == [];
      RootFull(s.port, s.layout, st, s.Store(), off);
    }
  }

  /** Writes a slot at the position, or nothing behind the last one. */
  method PutInRoot(fs: FileSystem, s: DiskSlice, b: Slot) returns (ok: bool)
    requires fs.Valid() && RootSlice(fs, s) && fs.Takes(FirstField(b))
    modifies s, fs`currentDirty, fs`calls, fs.disk
    ensures fs.Valid() && RootSlice(fs, s) && fs.Table() == old(fs.Table())
    ensures RootOnly(fs.g, s.layout, old(fs.disk[..]), fs.disk[..]) && AllKept(fs.g, old(fs.disk[..]), fs.disk[..])
    ensures !ok ==> old(s.offset) / DIR_ENTRY_SIZE == |old(RootSlots(s))| && RootSlots(s) == old(RootSlots(s))
                    && s.offset == old(s.offset)
    ensures ok ==> PutWith(old(RootSlots(s)), [], RootSlots(s), old(s.offset) / DIR_ENTRY_SIZE, b) && fs.currentDirty
    ensures ok ==> s.offset / DIR_ENTRY_SIZE == old(s.offset) / DIR_ENTRY_SIZE + 1
  {
    hide Sound, Beside, AllKept, RootOnly, PutWith, FirstField;
    s.dirty, s.calls := fs.currentDirty, fs.calls;
    ghost var i, off := s.Image(), s.offset;
    ok := WriteFields(s, b);
    fs.currentDirty, fs.calls := s.dirty, s.calls;
    if ok {
      RootWritten(fs.g, s.layout, s.port, i, s.Image(), off, b);
    } else {
      RootSame(fs.g, s.layout, i.bytes);
    }
    ChainsSurvive(fs.g, s.layout, i.bytes, fs.disk[..]);
  }
}
