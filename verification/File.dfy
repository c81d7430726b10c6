/**
  Open files. A `File` walks a cluster chain with a cursor; its `Contents` and `offset` are a
  flat sequence of bytes and a position in it, and every method is specified on those.

  The methods move real fields and storage; what they leave behind is computed by lemmas on
  values: a disk image `d` and the fields of the open file, `Open`.
  */
module Files {

  import opened Options
  import opened Arithmetic
  import opened Bytes
  import opened Blocks
  import opened Storages
  import opened FatChains
  import opened FatWalk
  import opened FatRuns
  import opened FileSystems
  import opened FileContents
  import opened FileChains
  import opened Cursor

  const MAX_FILE_SIZE: nat := 0xFFFF_FFFF

  datatype FileError = NotEnoughSpace | InvalidInput

  // ---------------------------------------------------------------- open files as values

  /**
    The chain of the file and its first cluster, the cluster of the byte before the position,
    the position, and the recorded size, which directories do not have.
    */
  datatype Open = Open(chain: seq<nat>, first: Option<nat>, current: Option<nat>, offset: nat, size: Option<nat>)

  /** Chain and cursor of an open file fit each other and the table. */
  ghost predicate OpenOk(g: Geometry, d: seq<byte>, f: Open) {
    match f
    case Open(chain, first, current, offset, size) =>
      && g.Fits(|d|) && WellFormed(TableAt(g, d)) && Linked(TableAt(g, d), chain, first)
      && CursorAt(chain, g.data.size, offset, current) && offset <= MAX_FILE_SIZE
      && (size.Some? ==> offset <= size.value <= MAX_FILE_SIZE)
  }

  /** The bytes of all clusters of a file. */
  ghost function All(g: Geometry, d: seq<byte>, f: Open): (b: seq<byte>)
    requires OpenOk(g, d, f)
    ensures Placed(g.data, f.chain) && b == ChainBytes(g.data, d, f.chain) && |b| == Span(|f.chain|, g.data.size)
  {
    LinkedPlaced(g, TableAt(g, d), f.chain, f.first);
    ChainBytesLength(g.data, d, f.chain);
    ChainBytes(g.data, d, f.chain)
  }

  /** What a file with the given clusters shows: as much as its size says, and no more than it has. */
  ghost function ContentsOf(all: seq<byte>, size: Option<nat>): (b: seq<byte>)
    ensures |b| == if size.Some? then Min(size.value, |all|) else |all|
  {
    if size.Some? && size.value < |all| then all[..size.value] else all
  }

  ghost function Shown(g: Geometry, d: seq<byte>, f: Open): (b: seq<byte>)
    requires OpenOk(g, d, f)
    ensures |b| == (if f.size.Some? then Min(f.size.value, |All(g, d, f)|) else |All(g, d, f)|)
    ensures f.offset <= |b| <= |All(g, d, f)|
  {
    OffsetInChain(f.chain, g.data.size, f.offset, f.current);
    ContentsOf(All(g, d, f), f.size)
  }

  /** The position never leaves the chain. */
  lemma OffsetInChain(chain: seq<nat>, cs: nat, offset: nat, current: Option<nat>)
    requires cs > 0 && CursorAt(chain, cs, offset, current)
    ensures offset <= Span(|chain|, cs)
  {
    ClustersWithin(offset, cs, |chain|);
    if offset == 0 { ClustersBounds(0, cs); }
  }

  lemma OffsetInAll(g: Geometry, d: seq<byte>, f: Open)
    requires OpenOk(g, d, f)
    ensures f.offset <= |All(g, d, f)| && (f.size.Some? ==> f.offset <= f.size.value)
  {
    OffsetInChain(f.chain, g.data.size, f.offset, f.current);
  }

  /** What OpenOk and Sound say about single fields. */
  lemma OpenFields(g: Geometry, d: seq<byte>, f: Open)
    requires OpenOk(g, d, f)
    ensures f.offset <= MAX_FILE_SIZE && g.Fits(|d|) && f.offset <= Span(|f.chain|, g.data.size)
    ensures f.size.Some? ==> f.offset <= f.size.value <= MAX_FILE_SIZE
  {
    OffsetInChain(f.chain, g.data.size, f.offset, f.current);
  }

  lemma HintOk(v: Volume)
    requires Sound(v)
    ensures v.hint.Some? ==> v.hint.value >= RESERVED_FAT_ENTRIES
  {
  }

  // ---------------------------------------------------------------- how much, and where

  /** The rest of the position's cluster. */
  function Room(offset: nat, cs: nat): (n: nat)
    requires cs > 0
    ensures 0 < n <= cs
  {
    cs - offset % cs
  }

  /** The least of a request, the rest of the cluster, the rest of the file, and the storage's offer. */
  function Limit(len: nat, room: nat, left: nat, grant: nat): (n: nat)
    ensures n <= len && n <= room && n <= left && n <= grant
    ensures n == 0 ==> len == 0 || room == 0 || left == 0 || grant == 0
  {
    Min(Min(Min(len, room), left), grant)
  }

  /** What is left behind the rest of the cluster does not matter. */
  lemma LimitRoom(len: nat, room: nat, left: nat, all: nat, grant: nat)
    requires room <= all
    ensures Limit(len, room, left, grant) == Limit(len, room, Min(left, all), grant)
    ensures Limit(len, room, room, grant) == Limit(len, room, all, grant)
  {
  }

  /** The storage's offer can be looked at last, and what is left is nothing only if ... */
  lemma LimitLate(len: nat, room: nat, left: nat, grant: nat)
    requires room > 0
    ensures Min(Limit(len, room, left, len), grant) == Limit(len, room, left, grant)
    ensures Limit(len, room, left, len) == 0 <==> len == 0 || left == 0
    ensures Limit(len, room, left, len) == 0 ==> Limit(len, room, left, grant) == 0
  {
  }

  /** Behind the position the chain has at least the rest of the position's cluster. */
  lemma RoomBehind(offset: nat, cs: nat, k: nat, at: nat, n: nat)
    requires Sits(offset, cs, k, at) && k < n
    ensures cs - at <= Span(n, cs) - offset
  {
    SpanStep(k, n, cs);
  }

  /** `next` is member `k` of the chain, or nothing if the chain ends before. */
  ghost predicate MemberIs(chain: seq<nat>, k: nat, next: Option<nat>) {
    if k < |chain| then next == Some(chain[k]) else next.None?
  }

  lemma NextAtBoundary(g: Geometry, d: seq<byte>, f: Open, k: nat)
    requires OpenOk(g, d, f) && Sits(f.offset, g.data.size, k, 0)
    ensures k <= |f.chain| && (k == |f.chain| ==> f.current == Tail(f.chain)) && LinksInRange(TableAt(g, d))
    ensures f.current.Some? ==> InRange(TableAt(g, d), f.current.value)
                                && MemberIs(f.chain, k, Link(TableAt(g, d), f.current.value))
    ensures f.current.None? ==> MemberIs(f.chain, k, f.first)
  {
    WellFormedLinksInRange(TableAt(g, d));
    ClustersOfSits(f.offset, g.data.size, k, 0);
    if f.offset > 0 { ChainLink(TableAt(g, d), f.chain, k - 1); }
  }

  lemma NextInside(g: Geometry, d: seq<byte>, f: Open, k: nat, at: nat)
    requires OpenOk(g, d, f) && Sits(f.offset, g.data.size, k, at) && at > 0
    ensures k < |f.chain| && f.current == Some(f.chain[k])
  {
    ClustersOfSits(f.offset, g.data.size, k, at);
  }

  /** The recorded size after a write that ends at `end`. */
  function GrowSize(size: Option<nat>, end: nat): Option<nat> {
    if size.Some? && size.value < end then Some(end) else size
  }

  /** Moving on inside the position's cluster keeps chain and cursor fitting. */
  lemma AdvanceOk(g: Geometry, d: seq<byte>, f: Open, k: nat, at: nat, n: nat, f': Open)
    requires OpenOk(g, d, f) && Sits(f.offset, g.data.size, k, at) && k < |f.chain|
    requires 0 < n <= g.data.size - at && f.offset + n <= MAX_FILE_SIZE
    requires f' == Open(f.chain, f.first, Some(f.chain[k]), f.offset + n, GrowSize(f.size, f.offset + n))
    ensures OpenOk(g, d, f') && f.offset + n <= |All(g, d, f)|
  {
    CursorAdvance(f.chain, g.data.size, f.offset, k, at, n);
    SpanStep(k, |f.chain|, g.data.size);
  }

  // ---------------------------------------------------------------- reading

  /** Storage: reads inside a cluster. */
  method ReadCluster(disk: array<byte>, data: Layout, c: nat, at: nat, n: nat) returns (b: seq<byte>)
    requires data.Fits(disk.Length) && RESERVED_FAT_ENTRIES <= c < data.count + RESERVED_FAT_ENTRIES
             && at + n <= data.size
    ensures b == ClusterBytes(data, disk[..], c)[at..at + n]
  {
    var m := c - RESERVED_FAT_ENTRIES;
    BlockFits(data, disk.Length, m);
    var lo := data.Base(m) + at;
    b := disk[lo..lo + n];
    assert b == disk[..][lo..lo + n];
    SubWindow(disk[..], data.Base(m), data.size, at, n);
  }

  lemma ContentsSlice(all: seq<byte>, size: Option<nat>, lo: nat, hi: nat)
    requires lo <= hi <= |ContentsOf(all, size)|
    ensures ContentsOf(all, size)[lo..hi] == all[lo..hi]
  {
    if size.Some? && size.value < |all| {
      assert all[0..size.value] == all[..size.value];
      SubWindow(all, 0, size.value, lo, hi - lo);
    }
  }

  /** `buf` are the bytes at the position of `f`, and `f'` stands behind them. */
  ghost predicate TookBytes(g: Geometry, d: seq<byte>, f: Open, f': Open, buf: seq<byte>) {
    && OpenOk(g, d, f) && OpenOk(g, d, f') && f'.chain == f.chain && f'.first == f.first && f'.size == f.size
    && f'.offset == f.offset + |buf| <= |Shown(g, d, f)| && buf == Shown(g, d, f)[f.offset..f'.offset]
  }

  lemma ReadNothing(g: Geometry, d: seq<byte>, f: Open)
    requires OpenOk(g, d, f)
    ensures TookBytes(g, d, f, f, [])
  {
    hide OpenOk, Shown, All;
    assert f.offset <= |Shown(g, d, f)|;
    assert Shown(g, d, f)[f.offset..f.offset] == [];
  }

  lemma ReadSome(g: Geometry, d: seq<byte>, f: Open, f': Open, k: nat, at: nat, buf: seq<byte>)
    requires OpenOk(g, d, f) && Sits(f.offset, g.data.size, k, at) && k < |f.chain|
    requires 0 < |buf| <= g.data.size - at && f.offset + |buf| <= MAX_FILE_SIZE && f.offset + |buf| <= |Shown(g, d, f)|
    requires f' == f.(current := Some(f.chain[k]), offset := f.offset + |buf|)
    requires Placed(g.data, f.chain) && buf == ClusterBytes(g.data, d, f.chain[k])[at..at + |buf|]
    ensures TookBytes(g, d, f, f', buf) && OpenOk(g, d, f')
  {
    ChainBytesRead(g.data, d, f.chain, k, at, |buf|, f.offset);
    AdvanceOk(g, d, f, k, at, |buf|, f');
    ContentsSlice(All(g, d, f), f.size, f.offset, f.offset + |buf|);
  }

  // ---------------------------------------------------------------- seeking

  /** The position a seek asks for; none if it is not a 32-bit number or is relative to an unknown end. */
  function SeekTarget(pos: SeekFrom, offset: nat, size: Option<nat>): (r: Option<nat>) {
    var n: int := match pos
      case FromStart(n) => n
      case FromCurrent(delta) => offset + delta
      case FromEnd(delta) => if size.Some? then size.value + delta else -1;
    if 0 <= n <= MAX_FILE_SIZE then Some(n) else None
  }

  /**
    The cluster reached from the first one by skipping as many links as the chain has, and the position it stands for.
    */
  lemma SeekLands(chain: seq<nat>, cs: nat, to: nat, i: nat)
    requires cs > 0 && to > 0 && chain != [] && i == Min(ClustersFor(to, cs) - 1, |chain| - 1)
    ensures CursorAt(chain, cs, Min(to, Span(|chain|, cs)), Some(chain[i]))
    ensures i < ClustersFor(to, cs) - 1 ==> Min(to, Span(|chain|, cs)) == Span(i + 1, cs)
    ensures i == ClustersFor(to, cs) - 1 ==> Min(to, Span(|chain|, cs)) == to
  {
    ClustersWithin(to, cs, |chain|);
    if i < ClustersFor(to, cs) - 1 {
      ClustersUnique(Span(|chain|, cs), cs, |chain| - 1);
    }
  }

  /** Two positions in the same cluster share the cursor. */
  lemma SeekSameCluster(chain: seq<nat>, cs: nat, offset: nat, current: Option<nat>, to: nat)
    requires cs > 0 && CursorAt(chain, cs, offset, current) && to > 0 && ClustersFor(to, cs) == ClustersFor(offset, cs)
    ensures CursorAt(chain, cs, to, current) && to <= Span(|chain|, cs)
  {
    ClustersBounds(to, cs);
    ClustersBounds(offset, cs);
    ClustersWithin(to, cs, |chain|);
  }

  /** `f'` is `f` moved to the position `to`, or to the end of the file if that is before it. */
  ghost predicate MovedTo(g: Geometry, d: seq<byte>, f: Open, f': Open, to: nat) {
    && OpenOk(g, d, f) && OpenOk(g, d, f') && f'.chain == f.chain && f'.first == f.first && f'.size == f.size
    && f'.offset == Min(to, |Shown(g, d, f)|)
  }

  lemma SeekDone(g: Geometry, d: seq<byte>, f: Open, f': Open, target: nat, to: nat)
    requires OpenOk(g, d, f) && target <= MAX_FILE_SIZE
             && to == (if f.size.Some? then Min(target, f.size.value) else target)
    requires f' == f.(offset := f'.offset, current := f'.current) && f'.offset == Min(to, |All(g, d, f)|)
    requires CursorAt(f.chain, g.data.size, f'.offset, f'.current)
    ensures MovedTo(g, d, f, f', target) && OpenOk(g, d, f')
  {
  }

  // ---------------------------------------------------------------- growing

  /** What a free cluster holds. */
  ghost function Held(g: Geometry, d: seq<byte>, free: Option<nat>): (b: seq<byte>)
    requires g.Fits(|d|)
  {
    if free.Some? && RESERVED_FAT_ENTRIES <= free.value < g.Entries() then ClusterBytes(g.data, d, free.value) else []
  }

  lemma HeldSame(g: Geometry, d: seq<byte>, d': seq<byte>, free: Option<nat>)
    requires g.Fits(|d|) && SameData(g, d, d')
    ensures Held(g, d', free) == Held(g, d, free)
  {
    if free.Some? && RESERVED_FAT_ENTRIES <= free.value < g.Entries() {
      SameDataBlock(g, d, d', free.value - RESERVED_FAT_ENTRIES);
    }
  }

  /** The file with a free cluster appended, if there is one. */
  ghost function Longer(f: Open, r: Option<nat>): Open {
    if r.None? then f else f.(chain := f.chain + [r.value], first := if f.first.None? then r else f.first)
  }

  /** `f'` is `f` with the cluster `r` behind it, whose bytes `fill` are zero if asked for and as they were if not. */
  ghost predicate Grew(g: Geometry, d: seq<byte>, d': seq<byte>, f: Open, f': Open, r: Option<nat>, zero: bool,
                       fill: seq<byte>) {
    && OpenOk(g, d, f) && OpenOk(g, d', f') && OthersKept(g, d, d', f.chain) && f' == Longer(f, r)
    && All(g, d', f') == All(g, d, f) + fill
    && fill == (if r.None? then [] else if zero then Zeros(g.data.size) else Held(g, d, r))
    && |fill| == (if r.None? then 0 else g.data.size)
    && (r.None? ==> TableAt(g, d') == TableAt(g, d))
    && (r.Some? ==> InRange(TableAt(g, d), r.value) && TableAt(g, d)[r.value].Free?)
  }

  /** A grown chain still fits the cursor, which stands at the end of the old one. */
  lemma GrowOk(g: Geometry, d: seq<byte>, d': seq<byte>, f: Open, n: nat, zero: bool, f': Open)
    requires OpenOk(g, d, f) && Grown(g, d, d', n, zero) && TableAt(g, d)[n].Free? && f' == Longer(f, Some(n))
    requires f.chain != [] ==> Tail(f.chain).value < g.Entries()
    requires TableAt(g, d') == Claim(TableAt(g, d), Tail(f.chain), n) && WellFormed(TableAt(g, d'))
    ensures OpenOk(g, d', f') && OthersKept(g, d, d', f.chain)
    ensures All(g, d', f') == All(g, d, f) + ClusterBytes(g.data, d', n)
  {
    GrowKeepsOthers(g, d, d', f.chain, f.first, n, zero);
    GrowBytes(g, d, d', f.chain, f.first, n, zero);
    SpanStep(|f.chain|, |f.chain| + 1, g.data.size);
    assert (f.chain + [n])[..|f.chain|] == f.chain;
  }

  lemma AllocFinds(v: Volume, prev: Option<nat>)
    requires Sound(v) && (prev.Some? ==> prev.value < |v.t|)
    ensures Alloc(v, prev).1 == SearchFree(v.t, v.hint)
  {
  }

  /** The volume after a chain may have grown by a cluster. */
  ghost function Extended(v: Volume, c: seq<nat>, c': seq<nat>): Volume
    requires |v.t| >= RESERVED_FAT_ENTRIES && (v.hint.Some? ==> v.hint.value >= RESERVED_FAT_ENTRIES)
    requires c != [] ==> Tail(c).value < |v.t|
  {
    if |c'| > |c| then Alloc(v, Tail(c)).0 else v
  }

  /**
    A chain stayed as it is or grew by the free cluster that is found first, which holds a cluster's worth of bytes.
    The volume went along, and what is free otherwise was not touched.
    */
  ghost predicate Lengthened(g: Geometry, d: seq<byte>, d': seq<byte>, c: seq<nat>, c': seq<nat>, v: Volume, v': Volume,
                             zero: bool)
  {
    && g.Fits(|d|) && |v.t| >= RESERVED_FAT_ENTRIES && (v.hint.Some? ==> v.hint.value >= RESERVED_FAT_ENTRIES)
    && (c != [] ==> Tail(c).value < |v.t|)
    && FreeKept(g, d, d') && v' == Extended(v, c, c')
    && var free := SearchFree(v.t, v.hint);
       c' == c || (free.Some? && c' == c + [free.value] && |Appended(g, d, free, zero)| == g.data.size)
  }

  lemma LengthenedBy(g: Geometry, d: seq<byte>, d': seq<byte>, f: Open, f': Open, b: seq<byte>, v: Volume, v': Volume,
                     ok: bool, zero: bool, fill: seq<byte>, some: bool)
    requires g.Fits(|d|) && |v.t| >= RESERVED_FAT_ENTRIES && (v.hint.Some? ==> v.hint.value >= RESERVED_FAT_ENTRIES)
    requires (f.chain != [] ==> Tail(f.chain).value < |v.t|) && FreeKept(g, d, d')
    requires v' == Extended(v, f.chain, f'.chain)
    requires Written(g, d, d', f, f', b, SearchFree(v.t, v.hint), ok, zero, fill, some)
    ensures Lengthened(g, d, d', f.chain, f'.chain, v, v', zero)
  {
    hide FreeKept, OpenOk, OthersKept, Appended, SearchFree, Extended, Overwrite, NoneFree, All, Shown, Revealed;
  }

  /** The last cluster of an open file is one of the table's. */
  lemma TailInTable(g: Geometry, d: seq<byte>, f: Open)
    requires OpenOk(g, d, f)
    ensures f.chain != [] ==> Tail(f.chain).value < g.Entries()
  {
    LinkedPlaced(g, TableAt(g, d), f.chain, f.first);
  }

  /** Allocating leaves what is free alone. */
  lemma AllocFree(g: Geometry, d: seq<byte>, d': seq<byte>, v: Volume, v': Volume, prev: Option<nat>, r: Option<nat>,
                  zero: bool)
    requires g.Fits(|d|) && |d'| == |d| && v.t == TableAt(g, d) && v'.t == TableAt(g, d') && Sound(v)
    requires Legal(v.t, OpAlloc(prev)) && (v', r) == Alloc(v, prev)
    requires r.None? || !zero ==> SameData(g, d, d')
    requires r.Some? && zero ==> ZeroedAt(g, d, d', r.value - RESERVED_FAT_ENTRIES)
    ensures FreeKept(g, d, d')
  {
    hide SameData, TableAt, FreeKept;
    if r.None? {
      SameDataFree(g, d, d');
    } else {
      if !zero { SameDataGrown(g, d, d', r.value); }
      GrownFree(g, d, d', prev, r.value, zero);
    }
  }

  /** What an allocation behind the last cluster does to a file. */
  lemma GrowDone(g: Geometry, d: seq<byte>, d': seq<byte>, f: Open, v: Volume, v': Volume, r: Option<nat>, zero: bool,
                 f': Open)
    returns (fill: seq<byte>)
    requires OpenOk(g, d, f) && |d'| == |d| && v.t == TableAt(g, d) && v'.t == TableAt(g, d') && Sound(v) && Sound(v')
    requires Legal(v.t, OpAlloc(Tail(f.chain))) && (v', r) == Alloc(v, Tail(f.chain)) && f' == Longer(f, r)
    requires r.None? || !zero ==> SameData(g, d, d')
    requires r.Some? && zero ==> ZeroedAt(g, d, d', r.value - RESERVED_FAT_ENTRIES)
    ensures Grew(g, d, d', f, f', r, zero, fill) && OpenOk(g, d', f')
  {
    if r.None? {
      fill := [];
      NotGrown(g, d, d', f, zero);
    } else {
      fill := ClusterBytes(g.data, d', r.value);
      if !zero { SameDataGrown(g, d, d', r.value); }
      NowGrown(g, d, d', f, r.value, zero, f', fill);
    }
  }

  lemma NotGrown(g: Geometry, d: seq<byte>, d': seq<byte>, f: Open, zero: bool)
    requires OpenOk(g, d, f) && SameData(g, d, d') && TableAt(g, d') == TableAt(g, d)
    ensures Grew(g, d, d', f, f, None, zero, [])
  {
    DirtyOk(g, d, d', f);
    assert All(g, d, f) + [] == All(g, d, f);
  }

  lemma NowGrown(g: Geometry, d: seq<byte>, d': seq<byte>, f: Open, n: nat, zero: bool, f': Open, fill: seq<byte>)
    requires OpenOk(g, d, f) && Grown(g, d, d', n, zero) && TableAt(g, d)[n].Free? && f' == Longer(f, Some(n))
    requires f.chain != [] ==> Tail(f.chain).value < g.Entries()
    requires TableAt(g, d') == Claim(TableAt(g, d), Tail(f.chain), n) && WellFormed(TableAt(g, d'))
    requires fill == ClusterBytes(g.data, d', n) && (!zero ==> SameData(g, d, d'))
    ensures Grew(g, d, d', f, f', Some(n), zero, fill)
  {
    GrowOk(g, d, d', f, n, zero, f');
    if !zero { HeldSame(g, d, d', Some(n)); }
  }

  // ---------------------------------------------------------------- writing

  /**
    The cluster for a write to member `k`, and the file after it: a free cluster is appended if member `k` is missing.
    */
  ghost predicate Ready(g: Geometry, d: seq<byte>, d': seq<byte>, f: Open, f': Open, k: nat, cluster: Option<nat>,
                        zero: bool, fill: seq<byte>)
  {
    if k < |f.chain| then
      && OpenOk(g, d, f) && OpenOk(g, d', f') && OthersKept(g, d, d', f.chain) && f' == f
      && TableAt(g, d') == TableAt(g, d) && All(g, d', f') == All(g, d, f)
      && cluster == Some(f.chain[k]) && fill == []
    else
      Grew(g, d, d', f, f', cluster, zero, fill)
  }

  /** Marking the volume dirty changes nothing of a file. */
  lemma DirtyOk(g: Geometry, d: seq<byte>, d1: seq<byte>, f: Open)
    requires OpenOk(g, d, f) && SameData(g, d, d1) && TableAt(g, d1) == TableAt(g, d)
    ensures OpenOk(g, d1, f) && OthersKept(g, d, d1, f.chain) && All(g, d1, f) == All(g, d, f)
  {
    SameDataBytes(g, d, d1, f.chain);
    SameTableKept(g, d, d1, f.chain);
  }

  lemma UnchangedOk(g: Geometry, d: seq<byte>, f: Open)
    requires OpenOk(g, d, f)
    ensures OthersKept(g, d, d, f.chain) && FreeKept(g, d, d)
  {
    SameTableKept(g, d, d, f.chain);
  }

  lemma ReadyDirty(g: Geometry, d: seq<byte>, d1: seq<byte>, d2: seq<byte>, f: Open, f2: Open, k: nat,
                   cluster: Option<nat>,
                   zero: bool, fill: seq<byte>)
    requires OpenOk(g, d, f) && SameData(g, d, d1) && TableAt(g, d1) == TableAt(g, d)
    requires Ready(g, d1, d2, f, f2, k, cluster, zero, fill)
    ensures Ready(g, d, d2, f, f2, k, cluster, zero, fill)
  {
    DirtyOk(g, d, d1, f);
    KeptTrans(g, d, d1, d2, f.chain);
    HeldSame(g, d, d1, cluster);
  }

  /** `f'` is `f` with `b` written over its bytes from the position on. */
  ghost predicate Stored(g: Geometry, d: seq<byte>, d': seq<byte>, f: Open, f': Open, b: seq<byte>) {
    && OpenOk(g, d, f) && OpenOk(g, d', f') && OthersKept(g, d, d', f.chain) && TableAt(g, d') == TableAt(g, d)
    && f'.chain == f.chain && f'.offset == f.offset + |b| <= |All(g, d, f)| && f'.size == GrowSize(f.size, f'.offset)
    && All(g, d', f') == Splice(All(g, d, f), f.offset, b)
  }

  lemma StoreNothing(g: Geometry, d: seq<byte>, f: Open)
    requires OpenOk(g, d, f)
    ensures Stored(g, d, d, f, f, []) && FreeKept(g, d, d)
  {
    OffsetInChain(f.chain, g.data.size, f.offset, f.current);
    SameTableKept(g, d, d, f.chain);
  }

  /** Writing in the position's cluster overwrites the file's bytes from the position on. */
  lemma StoreSome(g: Geometry, d: seq<byte>, d': seq<byte>, f: Open, f': Open, k: nat, at: nat, b: seq<byte>)
    requires OpenOk(g, d, f) && Sits(f.offset, g.data.size, k, at) && k < |f.chain|
    requires 0 < |b| <= g.data.size - at && f.offset + |b| <= MAX_FILE_SIZE
    requires f' == Open(f.chain, f.first, Some(f.chain[k]), f.offset + |b|, GrowSize(f.size, f.offset + |b|))
    requires Placed(g.data, f.chain) && Wrote(g.data, d, at, b, f.chain[k] - RESERVED_FAT_ENTRIES, d')
    ensures Stored(g, d, d', f, f', b) && TableAt(g, d') == TableAt(g, d) && OpenOk(g, d', f') && FreeKept(g, d, d')
  {
    AdvanceOk(g, d, f, k, at, |b|, f');
    StoreBytes(g, d, d', f, k, at, b);
    SameTableOk(g, d, d', f');
  }

  /** A file stays as it is when only cluster contents change. */
  lemma SameTableOk(g: Geometry, d: seq<byte>, d': seq<byte>, f: Open)
    requires OpenOk(g, d, f) && |d'| == |d| && TableAt(g, d') == TableAt(g, d)
    ensures OpenOk(g, d', f)
  {
  }

  lemma StoreBytes(g: Geometry, d: seq<byte>, d': seq<byte>, f: Open, k: nat, at: nat, b: seq<byte>)
    requires OpenOk(g, d, f) && Sits(f.offset, g.data.size, k, at) && k < |f.chain| && |b| <= g.data.size - at
    requires Placed(g.data, f.chain) && Wrote(g.data, d, at, b, f.chain[k] - RESERVED_FAT_ENTRIES, d')
    ensures |d'| == |d| && TableAt(g, d') == TableAt(g, d) && OthersKept(g, d, d', f.chain) && FreeKept(g, d, d')
    ensures f.offset + |b| <= |ChainBytes(g.data, d, f.chain)|
    ensures ChainBytes(g.data, d', f.chain) == Splice(ChainBytes(g.data, d, f.chain), f.offset, b)
  {
    var m := f.chain[k] - RESERVED_FAT_ENTRIES;
    LinkedPlaced(g, TableAt(g, d), f.chain, f.first);
    BehindTable(g, d, at, b, m, d');
    WroteSameBut(g, d, d, at, b, m, d');
    WriteKeepsOthers(g, d, d', f.chain, k);
    ChainLink(TableAt(g, d), f.chain, k);
    WrittenFree(g, d, d', f.chain[k]);
    WriteChainBytes(g, d, d', f.chain, k, at, b, f.offset);
  }

  ghost predicate NoneFree(t: Table) {
    forall c :: InRange(t, c) ==> !t[c].Free?
  }

  /** What a file that had `n` bytes shows of the cluster it grows by: nothing unless its size reaches behind them. */
  ghost function Revealed(n: nat, fill: seq<byte>, size: Option<nat>): (r: seq<byte>)
    ensures fill == [] || (size.Some? && size.value <= n) ==> r == []
    ensures size.None? ==> r == fill
  {
    if size.None? then fill else if size.value <= n then [] else fill[..Min(|fill|, size.value - n)]
  }

  lemma RevealedContents(all: seq<byte>, fill: seq<byte>, size: Option<nat>)
    ensures ContentsOf(all, size) + Revealed(|all|, fill, size) == ContentsOf(all + fill, size)
  {
  }

  /** What the overwritten clusters show of the file. */
  lemma WriteContents(all: seq<byte>, fill: seq<byte>, size: Option<nat>, offset: nat, b: seq<byte>)
    requires offset + |b| <= |all + fill| && offset <= |all| && (size.Some? ==> offset <= size.value)
    ensures ContentsOf(Splice(all + fill, offset, b), GrowSize(size, offset + |b|))
         == Overwrite(ContentsOf(all, size) + Revealed(|all|, fill, size), offset, b)
  {
    var s := all + fill;
    RevealedContents(all, fill, size);
    if size.Some? && size.value < |s| {
      OverwritePrefix(s, size.value, offset, b);
    } else {
      OverwriteInside(s, offset, b);
    }
  }

  /** What a directory grows by: a cluster of zeros, or the free cluster as it is. */
  ghost function Appended(g: Geometry, d: seq<byte>, free: Option<nat>, zero: bool): seq<byte>
    requires g.Fits(|d|)
  {
    if zero then Zeros(g.data.size) else Held(g, d, free)
  }

  /**
    What a write of `b` leaves; `fill` is what a file without a size grows by, `free` the cluster that is next to be
    taken.
    */
  ghost predicate Written(g: Geometry, d: seq<byte>, d': seq<byte>, f: Open, f': Open, b: seq<byte>,
                          free: Option<nat>, ok: bool,
                          zero: bool, fill: seq<byte>, some: bool)
  {
    && OpenOk(g, d, f) && OpenOk(g, d', f') && OthersKept(g, d, d', f.chain)
    && (f'.chain == f.chain || (free.Some? && f'.chain == f.chain + [free.value]))
    && (f'.chain == f.chain ==> TableAt(g, d') == TableAt(g, d))
    && (!ok <==> some && f.offset == |All(g, d, f)| && NoneFree(TableAt(g, d)))
    && (!ok ==> fill == [] && f' == f && Shown(g, d', f') == Shown(g, d, f))
    && fill == Revealed(|All(g, d, f)|, if |f'.chain| > |f.chain| then Appended(g, d, free, zero) else [], f.size)
    && (|f'.chain| > |f.chain| ==> f.offset == |All(g, d, f)| && |Appended(g, d, free, zero)| == g.data.size)
    && (ok ==> f'.offset == f.offset + |b| && Shown(g, d', f') == Overwrite(Shown(g, d, f) + fill, f.offset, b))
    && (ok && f.size.None? ==> f'.offset <= |Shown(g, d, f) + fill|)
    && f'.size == (if ok then GrowSize(f.size, f'.offset) else f.size)
  }

  /** A write finds a cluster unless the position is at the end of the last one and no cluster is free. */
  lemma ReadyFails(g: Geometry, d: seq<byte>, d1: seq<byte>, f: Open, f1: Open, k: nat, at: nat, hint: Option<nat>,
                   cluster: Option<nat>, zero: bool, fill: seq<byte>)
    requires OpenOk(g, d, f) && Sits(f.offset, g.data.size, k, at) && k <= |f.chain| && (k == |f.chain| ==> at == 0)
    requires hint.Some? ==> hint.value >= RESERVED_FAT_ENTRIES
    requires k == |f.chain| ==> cluster == SearchFree(TableAt(g, d), hint)
    requires Ready(g, d, d1, f, f1, k, cluster, zero, fill)
    ensures cluster.None? <==> f.offset == |All(g, d, f)| && NoneFree(TableAt(g, d))
    ensures All(g, d1, f1) == All(g, d, f) + fill
    ensures f1.chain == f.chain || (k == |f.chain| && cluster.Some? && f1.chain == f.chain + [cluster.value])
    ensures |fill| == (if |f1.chain| > |f.chain| then g.data.size else 0)
    ensures fill != [] ==> f.offset == |All(g, d, f)| && fill == Appended(g, d, SearchFree(TableAt(g, d), hint), zero)
  {
    if k < |f.chain| {
      SpanStep(k, |f.chain|, g.data.size);
      assert All(g, d, f) + [] == All(g, d, f);
    }
  }

  lemma ReadyThenStored(g: Geometry, d: seq<byte>, d1: seq<byte>, d2: seq<byte>, f: Open, f1: Open, f2: Open, k: nat,
                        cluster: Option<nat>, zero: bool, fill: seq<byte>, b: seq<byte>)
    requires Ready(g, d, d1, f, f1, k, cluster, zero, fill) && Stored(g, d1, d2, f1, f2, b)
    ensures OthersKept(g, d, d2, f.chain)
    ensures f2.chain == f.chain ==> TableAt(g, d2) == TableAt(g, d)
  {
    if f1.chain == f.chain {
      KeptTrans(g, d, d1, d2, f.chain);
      assert k >= |f.chain| && cluster.Some? ==> |Longer(f, cluster).chain| == |f.chain| + 1;
    } else {
      GrowThenWriteKeeps(g, d, d1, d2, f.chain, cluster.value);
    }
  }

  lemma WriteDone(g: Geometry, d: seq<byte>, d1: seq<byte>, d2: seq<byte>, f: Open, f1: Open, f2: Open, k: nat, at: nat,
                  hint: Option<nat>, cluster: Option<nat>, zero: bool, fill: seq<byte>, b: seq<byte>, shown: seq<byte>)
    requires OpenOk(g, d, f) && Sits(f.offset, g.data.size, k, at) && k <= |f.chain| && (k == |f.chain| ==> at == 0)
    requires hint.Some? ==> hint.value >= RESERVED_FAT_ENTRIES
    requires k == |f.chain| ==> cluster == SearchFree(TableAt(g, d), hint)
    requires Ready(g, d, d1, f, f1, k, cluster, zero, fill) && shown == Revealed(|All(g, d, f)|, fill, f.size)
    requires if cluster.Some? then Stored(g, d1, d2, f1, f2, b) else d2 == d1 && f2 == f1
    ensures Written(g, d, d2, f, f2, b, SearchFree(TableAt(g, d), hint), cluster.Some?, zero, shown, true)
  {
    hide OpenOk, OthersKept, Overwrite, Appended, NoneFree, SearchFree;
    ReadyFails(g, d, d1, f, f1, k, at, hint, cluster, zero, fill);
    if cluster.Some? {
      ReadyThenStored(g, d, d1, d2, f, f1, f2, k, cluster, zero, fill, b);
      StoredContents(g, d, d1, d2, f, f1, f2, fill, b, shown);
    }
  }

  lemma StoredContents(g: Geometry, d: seq<byte>, d1: seq<byte>, d2: seq<byte>, f: Open, f1: Open, f2: Open,
                       fill: seq<byte>, b: seq<byte>, shown: seq<byte>)
    requires OpenOk(g, d, f) && Stored(g, d1, d2, f1, f2, b) && f1.offset == f.offset && f1.size == f.size
    requires All(g, d1, f1) == All(g, d, f) + fill && shown == Revealed(|All(g, d, f)|, fill, f.size)
    ensures Shown(g, d2, f2) == Overwrite(Shown(g, d, f) + shown, f.offset, b)
  {
    hide OpenOk, All, OthersKept, Overwrite, Revealed, Splice;
    OffsetInAll(g, d, f);
    WriteContents(All(g, d, f), fill, f.size, f.offset, b);
  }

  lemma OverwriteNothing(s: seq<byte>, pos: nat)
    requires pos <= |s|
    ensures Overwrite(s + [], pos, []) == s
  {
  }

  lemma NotWritten(g: Geometry, d: seq<byte>, f: Open, free: Option<nat>, zero: bool)
    requires OpenOk(g, d, f)
    ensures Written(g, d, d, f, f, [], free, true, zero, [], false) && FreeKept(g, d, d)
  {
    OverwriteNothing(Shown(g, d, f), f.offset);
    SameTableKept(g, d, d, f.chain);
  }

  // ---------------------------------------------------------------- truncating

  function SizeAt(size: Option<nat>, offset: nat): Option<nat> {
    if size.Some? then Some(offset) else None
  }

  /** `f'` is `f` cut at its position: the chain up to the position's cluster, or nothing at the start. */
  ghost predicate CutTo(g: Geometry, d: seq<byte>, d': seq<byte>, f: Open, f': Open) {
    && OpenOk(g, d, f) && OpenOk(g, d', f') && OthersKept(g, d, d', f.chain)
    && f'.offset == f.offset && f'.size == SizeAt(f.size, f.offset)
    && ClustersFor(f.offset, g.data.size) <= |f.chain| && f'.chain == f.chain[..ClustersFor(f.offset, g.data.size)]
    && FreeCount(TableAt(g, d')) == FreeCount(TableAt(g, d)) + |f.chain| - |f'.chain|
    && |All(g, d', f')| <= |All(g, d, f)| && All(g, d', f') == All(g, d, f)[..|All(g, d', f')|]
    && (f.size.Some? ==> Shown(g, d', f') == Shown(g, d, f)[..f.offset])
  }

  lemma TrimContents(all: seq<byte>, all': seq<byte>, size: Option<nat>, offset: nat)
    requires (size.Some? ==> offset <= size.value) && offset <= |all'| <= |all| && all' == all[..|all'|]
    ensures size.Some? ==> ContentsOf(all', SizeAt(size, offset)) == ContentsOf(all, size)[..offset]
  {
  }

  /** Where a chain is cut, and what the table is then. */
  lemma TrimAt(g: Geometry, d: seq<byte>, f: Open)
    requires OpenOk(g, d, f) && f.offset > 0
    ensures var t, k := TableAt(g, d), ClustersFor(f.offset, g.data.size) - 1;
            && 0 <= k < |f.chain| && FullChain(t, f.chain) && InRange(t, f.chain[k]) && t[f.chain[k]].InUse()
            && f.current == Some(f.chain[k]) && LinksInRange(t) && TruncateWalk(t, f.chain[k]).0 == Cut(t, f.chain, k)
            && WellFormed(Cut(t, f.chain, k)) && FreeCount(Cut(t, f.chain, k)) == FreeCount(t) + |f.chain| - (k + 1)
  {
    var t, k := TableAt(g, d), ClustersFor(f.offset, g.data.size) - 1;
    ClustersBounds(f.offset, g.data.size);
    ChainLink(t, f.chain, k);
    TruncateOfChain(t, f.chain, k);
  }

  lemma CutOk(g: Geometry, d: seq<byte>, d': seq<byte>, f: Open, f': Open, k: nat, c: seq<nat>)
    requires OpenOk(g, d, f) && SameData(g, d, d') && f.offset > 0
             && k == ClustersFor(f.offset, g.data.size) - 1 < |f.chain|
    requires FullChain(TableAt(g, d), f.chain) && InRange(TableAt(g, d), f.chain[k])
    requires TableAt(g, d') == Cut(TableAt(g, d), f.chain, k) && WellFormed(TableAt(g, d'))
    requires c == f.chain[..k + 1] && f' == Open(c, f.first, f.current, f.offset, SizeAt(f.size, f.offset))
    ensures OpenOk(g, d', f') && OthersKept(g, d, d', f.chain)
    ensures |All(g, d', f')| <= |All(g, d, f)| && All(g, d', f') == All(g, d, f)[..|All(g, d', f')|]
  {
    CutKeepsOthers(g, d, d', f.chain, k);
    CutBytes(g, d, d', f.chain, k, Span(k + 1, g.data.size));
    ClustersBounds(f.offset, g.data.size);
    assert c[k] == f.chain[k] && |c| == k + 1;
  }

  lemma CutDone(g: Geometry, d: seq<byte>, d': seq<byte>, f: Open, f': Open, k: nat)
    requires OpenOk(g, d, f) && SameData(g, d, d') && f.offset > 0
             && k == ClustersFor(f.offset, g.data.size) - 1 < |f.chain|
    requires FullChain(TableAt(g, d), f.chain) && InRange(TableAt(g, d), f.chain[k])
    requires TableAt(g, d') == Cut(TableAt(g, d), f.chain, k) && WellFormed(TableAt(g, d'))
    requires FreeCount(TableAt(g, d')) == FreeCount(TableAt(g, d)) + |f.chain| - (k + 1)
    requires f' == Open(f.chain[..k + 1], f.first, f.current, f.offset, SizeAt(f.size, f.offset))
    ensures CutTo(g, d, d', f, f')
  {
    CutOk(g, d, d', f, f', k, f'.chain);
    OffsetInChain(f'.chain, g.data.size, f'.offset, f'.current);
    TrimContents(All(g, d, f), All(g, d', f'), f.size, f.offset);
  }

  lemma NothingFreed(g: Geometry, d: seq<byte>, t: Table)
    requires g.Fits(|d|) && LinksInRange(t)
    ensures SameData(g, d, d) && FreeWalk(t, None).0 == t
  {
  }

  /** At the start of a file all of its clusters are freed. */
  lemma ReleaseDone(g: Geometry, d: seq<byte>, d': seq<byte>, f: Open, f': Open)
    requires OpenOk(g, d, f) && SameData(g, d, d') && f.offset == 0 && LinksInRange(TableAt(g, d))
    requires f.first.Some? ==> InRange(TableAt(g, d), f.first.value)
    requires TableAt(g, d') == FreeWalk(TableAt(g, d), f.first).0
    requires f' == Open([], None, f.current, f.offset, SizeAt(f.size, f.offset))
    ensures CutTo(g, d, d', f, f')
  {
    ClustersBounds(0, g.data.size);
    if f.first.Some? {
      ReleaseOfChain(TableAt(g, d), f.chain);
      ReleaseKeepsOthers(g, d, d', f.chain);
    } else {
      SameTableKept(g, d, d', f.chain);
    }
    assert |All(g, d', f')| == 0;
    TrimContents(All(g, d, f), All(g, d', f'), f.size, f.offset);
  }

  // ---------------------------------------------------------------- the position on the disk

  /** How far behind the start of the cluster of its last byte a position is. */
  function Behind(offset: nat, cs: nat): (n: nat)
    requires cs > 0
    ensures 0 < n <= cs
  {
    var at := offset % cs;
    if at == 0 then cs else at
  }

  lemma BehindStart(offset: nat, cs: nat)
    requires cs > 0 && offset > 0
    ensures ClustersFor(offset, cs) > 0 && offset == Span(ClustersFor(offset, cs) - 1, cs) + Behind(offset, cs)
  {
    SitsAt(offset, cs);
    ClustersOfSits(offset, cs, offset / cs, offset % cs);
  }

  lemma CurrentPlaced(g: Geometry, d: seq<byte>, f: Open)
    requires OpenOk(g, d, f)
    ensures f.current.Some? <==> f.offset > 0
    ensures f.offset > 0 ==> 0 < ClustersFor(f.offset, g.data.size) <= |f.chain|
    ensures f.current.Some? ==> RESERVED_FAT_ENTRIES <= f.current.value < g.Entries()
  {
    LinkedPlaced(g, TableAt(g, d), f.chain, f.first);
  }

  /** The `n` bytes before the position end at `end` on the disk. */
  ghost predicate EndsAtDisk(g: Geometry, d: seq<byte>, f: Open, n: nat, end: nat) {
    && OpenOk(g, d, f) && n <= end <= |d| && n <= f.offset <= |All(g, d, f)|
    && d[end - n..end] == All(g, d, f)[f.offset - n..f.offset]
  }

  lemma LastBytes(g: Geometry, d: seq<byte>, chain: seq<nat>, k: nat, n: nat, offset: nat, end: nat)
    requires g.Fits(|d|) && Placed(g.data, chain) && k < |chain| && n <= g.data.size
             && offset == Span(k, g.data.size) + n
    requires end == g.data.Base(chain[k] - RESERVED_FAT_ENTRIES) + n
    ensures n <= end <= |d| && n <= offset <= |ChainBytes(g.data, d, chain)|
    ensures d[end - n..end] == ChainBytes(g.data, d, chain)[offset - n..offset]
  {
    hide Layout.Base, ChainBytes, Span;
    var m := chain[k] - RESERVED_FAT_ENTRIES;
    BlockFits(g.data, |d|, m);
    ChainBytesRead(g.data, d, chain, k, 0, n, offset - n);
    SubWindow(d, g.data.Base(m), g.data.size, 0, n);
  }

  /** The cluster of the byte before the position. */
  lemma CurrentIs(g: Geometry, d: seq<byte>, f: Open)
    requires OpenOk(g, d, f) && f.offset > 0
    ensures g.Fits(|d|) && g.data.size > 0 && Placed(g.data, f.chain) && f.offset <= |All(g, d, f)|
    ensures 0 < ClustersFor(f.offset, g.data.size) <= |f.chain|
    ensures f.current == Some(f.chain[ClustersFor(f.offset, g.data.size) - 1])
  {
    LinkedPlaced(g, TableAt(g, d), f.chain, f.first);
    OffsetInAll(g, d, f);
  }

  /** The bytes before the position, back to the start of their cluster, are together on the disk. */
  lemma BytesBefore(g: Geometry, d: seq<byte>, f: Open, n: nat, end: nat)
    requires OpenOk(g, d, f) && f.offset > 0 && n == Behind(f.offset, g.data.size)
    requires f.current.Some? && f.current.value >= RESERVED_FAT_ENTRIES
    requires end == g.data.Base(f.current.value - RESERVED_FAT_ENTRIES) + n
    ensures EndsAtDisk(g, d, f, n, end)
  {
    hide Behind, OpenOk, ClustersFor, Layout.Base, Geometry.Fits, TableAt;
    CurrentIs(g, d, f);
    BehindStart(f.offset, g.data.size);
    LastBytes(g, d, f.chain, ClustersFor(f.offset, g.data.size) - 1, n, f.offset, end);
  }

  // ---------------------------------------------------------------- files

  class File {
    const fs: FileSystem
    /** The root directory of a FAT32 volume has no directory entry. */
    const hasEntry: bool
    const isDir: bool
    var firstCluster: Option<nat>
    var currentCluster: Option<nat>
    var offset: nat
    /** Size and first cluster as the directory entry will record them; directories have no size. */
    var size: Option<nat>
    var entryCluster: Option<nat>
    ghost var chain: seq<nat>

    /** An opened file stands before its first cluster. */
    constructor (fs: FileSystem, hasEntry: bool, isDir: bool, first: Option<nat>, size: Option<nat>,
                 ghost chain: seq<nat>)
      requires fs.Valid() && Linked(fs.Table(), chain, first)
      requires size.Some? ==> size.value <= MAX_FILE_SIZE
      requires (size.Some? ==> hasEntry && !isDir) && (isDir ==> hasEntry)
      ensures Valid() && this.fs == fs && this.chain == chain && this.size == size && offset == 0
      ensures this.hasEntry == hasEntry && this.isDir == isDir
    {
      this.fs := fs;
      this.hasEntry := hasEntry;
      this.isDir := isDir;
      this.firstCluster := first;
      this.currentCluster := None;
      this.offset := 0;
      this.size := size;
      this.entryCluster := first;
      this.chain := chain;
    }

    ghost function State(): Open
      reads this
    {
      Open(chain, firstCluster, currentCluster, offset, size)
    }

    ghost predicate Valid()
      reads this, fs, fs.disk
    {
      && fs.Valid() && OpenOk(fs.g, fs.disk[..], State())
      && (size.Some? ==> hasEntry && !isDir) && (isDir ==> hasEntry)
      && (hasEntry ==> entryCluster == firstCluster)
    }

    /** The bytes of all clusters of the file. */
    ghost function AllBytes(): (b: seq<byte>)
      requires Valid()
      reads this, fs, fs.disk
    {
      All(fs.g, fs.disk[..], State())
    }

    /** The file as its users see it. */
    ghost function Contents(): (b: seq<byte>)
      requires Valid()
      reads this, fs, fs.disk
    {
      Shown(fs.g, fs.disk[..], State())
    }

    /** The same as a flat file. */
    ghost function Flat(): (f: FlatFile)
      requires Valid()
      reads this, fs, fs.disk
      ensures f.pos <= |f.bytes|
    {
      FlatFile(Contents(), offset)
    }

    /** The free cluster that is found first. */
    ghost function NextFree(): Option<nat>
      requires Valid()
      reads this, fs, fs.disk
    {
      HintOk(fs.Volume());
      SearchFree(fs.Table(), fs.hint)
    }

    /** What the file grows by next: the free cluster that is found first, zeroed for a directory. */
    ghost function NextBytes(): (b: seq<byte>)
      requires Valid()
      reads this, fs, fs.disk
    {
      Appended(fs.g, fs.disk[..], NextFree(), isDir)
    }

    /** The position as a byte of a cluster. */
    method Split() returns (ghost k: nat, at: nat)
      requires fs.Mounted()
      ensures at == fs.g.data.size - Room(offset, fs.g.data.size) && Sits(offset, fs.g.data.size, k, at)
    {
      at := offset % fs.g.data.size;
      k := offset / fs.g.data.size;
      SitsAt(offset, fs.g.data.size);
    }

    /** Finds the cluster of the byte at the position: the linked one at a boundary, else the current one. */
    method NextCluster(ghost k: nat, at: nat) returns (next: Option<nat>)
      requires Valid() && Sits(offset, fs.g.data.size, k, at)
      ensures k <= |chain| && MemberIs(chain, k, next)
      ensures next.None? ==> currentCluster == Tail(chain) && at == 0
    {
      if at == 0 {
        NextAtBoundary(fs.g, fs.disk[..], State(), k);
        if currentCluster.Some? {
          next := fs.NextCluster(currentCluster.value);
        } else {
          next := firstCluster;
        }
      } else {
        NextInside(fs.g, fs.disk[..], State(), k, at);
        next := currentCluster;
      }
    }

    /** Reads `n` bytes of the position's cluster and moves behind them. */
    method ReadInside(ghost k: nat, at: nat, n: nat, cluster: nat, ghost d: seq<byte>, ghost f: Open)
      returns (buf: seq<byte>)
      requires Valid() && fs.disk[..] == d && State() == f && Sits(f.offset, fs.g.data.size, k, at) && k < |f.chain|
      requires cluster == f.chain[k] && 0 < n <= fs.g.data.size - at
      requires f.offset + n <= MAX_FILE_SIZE && f.offset + n <= |Shown(fs.g, d, f)|
      modifies this`offset, this`currentCluster
      ensures Valid() && |buf| == n && TookBytes(fs.g, d, f, State(), buf)
    {
      hide TookBytes, Shown;
      LinkedPlaced(fs.g, TableAt(fs.g, d), f.chain, f.first);
      buf := ReadCluster(fs.disk, fs.g.data, cluster, at, n);
      offset, currentCluster := offset + n, Some(cluster);
      ReadSome(fs.g, d, f, State(), k, at, buf);
    }

    /** How much a read gives, and from which cluster. */
    method ReadSize(len: nat, grant: nat, ghost k: nat, at: nat, ghost shown: nat) returns (n: nat, cluster: nat)
      requires Valid() && Sits(offset, fs.g.data.size, k, at) && shown == |Contents()|
      ensures n == Limit(len, fs.g.data.size - at, shown - offset, grant)
      ensures n > 0 ==> k < |chain| && cluster == chain[k]
    {
      hide Sound, WellFormed, FullChain, Limit;
      var next := NextCluster(k, at);
      n, cluster := 0, 0;
      if next.Some? {
        var room := fs.g.data.size - at;
        var left := if size.Some? then size.value - offset else room;
        n, cluster := Limit(len, room, left, grant), next.value;
        RoomBehind(offset, fs.g.data.size, k, at, |chain|);
        LimitRoom(len, room, left, Span(|chain|, fs.g.data.size) - offset, grant);
      }
    }

    /**
      Returns the bytes at the position and moves behind them. The count is limited by the
      request, the cluster, the file, and `grant`, what the storage delivers in this call.
      */
    method Read(len: nat, grant: nat) returns (buf: seq<byte>)
      requires Valid() && (size.None? ==> |AllBytes()| <= MAX_FILE_SIZE)
      modifies this`offset, this`currentCluster
      ensures |buf| == Limit(len, Room(old(offset), fs.g.data.size), |old(Contents())| - old(offset), grant)
      ensures Valid() && (Flat(), buf) == FlatRead(old(Flat()), |buf|)
    {
      hide Sound, OpenOk, Limit, Room;
      ghost var d, f := fs.disk[..], State();
      OpenFields(fs.g, d, f);
      var k, at := Split();
      var n, cluster := ReadSize(len, grant, k, at, |Contents()|);
      if n > 0 {
        buf := ReadInside(k, at, n, cluster, d, f);
      } else {
        buf := [];
        ReadNothing(fs.g, d, f);
      }
      assert Contents() == Shown(fs.g, d, f);
    }

    /** The rest of the volume: every chain but the file's keeps its place and its bytes. */
    ghost predicate Apart(d: seq<byte>, c: seq<nat>)
      requires fs.Mounted() && |d| == fs.disk.Length
      reads this, fs.disk
    {
      OthersKept(fs.g, d, fs.disk[..], c)
    }

    /** Appends a cluster behind the last one, zeroed for a directory. Fails only if no cluster is free. */
    method Grow(ghost d: seq<byte>, ghost f: Open, ghost v: Volume) returns (r: Option<nat>, ghost fill: seq<byte>)
      requires Valid() && fs.Ready() && fs.disk[..] == d && State() == f && fs.Volume() == v
      requires f.current == Tail(f.chain)
      modifies this`firstCluster, this`entryCluster, this`chain, fs, fs.disk
      ensures Valid() && r == SearchFree(v.t, v.hint) && Grew(fs.g, d, fs.disk[..], f, State(), r, isDir, fill)
      ensures FreeKept(fs.g, d, fs.disk[..]) && fs.currentDirty == (old(fs.currentDirty) || r.Some?)
      ensures (f.chain != [] ==> Tail(f.chain).value < |v.t|) && fs.Volume() == Extended(v, f.chain, chain)
    {
      hide Grew, WellFormed, FullChain, Alloc, SearchFree, FreeKept;
      TailInTable(fs.g, d, f);
      TailLegal(v.t, f.chain, f.first);
      AllocFinds(v, Tail(f.chain));
      r := fs.AllocCluster(currentCluster, isDir, v);
      if r.Some? {
        chain := chain + [r.value];
        if firstCluster.None? {
          firstCluster := r;
          if hasEntry { entryCluster := r; }
        }
      }
      AllocFree(fs.g, d, fs.disk[..], v, fs.Volume(), Tail(f.chain), r, isDir);
      fill := GrowDone(fs.g, d, fs.disk[..], f, v, fs.Volume(), r, isDir, State());
    }

    /** The cluster to write to, appended to the chain if the position is at its end. */
    method ClusterForWrite(ghost k: nat, at: nat, ghost d: seq<byte>, ghost f: Open, ghost v: Volume)
      returns (cluster: Option<nat>, ghost fill: seq<byte>)
      requires Valid() && fs.Ready() && fs.disk[..] == d && State() == f && fs.Volume() == v
      requires Sits(f.offset, fs.g.data.size, k, at)
      modifies this`firstCluster, this`entryCluster, this`chain, fs, fs.disk
      ensures Valid() && k <= |f.chain| && (k == |f.chain| ==> at == 0 && cluster == SearchFree(v.t, v.hint))
      ensures Ready(fs.g, d, fs.disk[..], f, State(), k, cluster, isDir, fill) && FreeKept(fs.g, d, fs.disk[..])
      ensures (f.chain != [] ==> Tail(f.chain).value < |v.t|) && fs.Volume() == Extended(v, f.chain, chain)
    {
      hide Sound, OpenOk, Grew, OthersKept, FreeKept;
      TailInTable(fs.g, d, f);
      cluster := NextCluster(k, at);
      if cluster.None? {
        cluster, fill := Grow(d, f, v);
      } else {
        fill := [];
        UnchangedOk(fs.g, d, f);
      }
    }

    /** Everything a write does before the data is written: the volume is marked dirty first. */
    method Prepare(ghost k: nat, at: nat, ghost d: seq<byte>, ghost f: Open, ghost v: Volume)
      returns (cluster: Option<nat>, ghost fill: seq<byte>)
      requires Valid() && fs.disk[..] == d && State() == f && fs.Volume() == v && Sits(f.offset, fs.g.data.size, k, at)
      modifies this`firstCluster, this`entryCluster, this`chain, fs, fs.disk
      ensures Valid() && k <= |f.chain| && (k == |f.chain| ==> at == 0 && cluster == SearchFree(v.t, v.hint))
      ensures Ready(fs.g, d, fs.disk[..], f, State(), k, cluster, isDir, fill) && FreeKept(fs.g, d, fs.disk[..])
      ensures (f.chain != [] ==> Tail(f.chain).value < |v.t|) && fs.Volume() == Extended(v, f.chain, chain)
    {
      hide Ready, OpenOk, SameData, FreeKept;
      fs.SetDirtyFlag(true);
      ghost var d1 := fs.disk[..];
      DirtyOk(fs.g, d, d1, f);
      SameDataFree(fs.g, d, d1);
      cluster, fill := ClusterForWrite(k, at, d1, f, v);
      FreeKeptTrans(fs.g, d, d1, fs.disk[..]);
      ReadyDirty(fs.g, d, d1, fs.disk[..], f, State(), k, cluster, isDir, fill);
    }

    /** The storage side of a write: the cursor has not moved yet. */
    method StoreDisk(ghost k: nat, at: nat, b: seq<byte>, cluster: nat, ghost d: seq<byte>, ghost f: Open,
                     ghost f': Open)
      requires Valid() && fs.disk[..] == d && State() == f && Sits(f.offset, fs.g.data.size, k, at)
      requires k < |f.chain| && cluster == f.chain[k] && 0 < |b| <= fs.g.data.size - at
               && f.offset + |b| <= MAX_FILE_SIZE
      requires f' == Open(f.chain, f.first, Some(cluster), f.offset + |b|, GrowSize(f.size, f.offset + |b|))
      modifies fs.disk
      ensures fs.Valid() && Stored(fs.g, d, fs.disk[..], f, f', b) && OpenOk(fs.g, fs.disk[..], f')
              && FreeKept(fs.g, d, fs.disk[..])
    {
      hide Stored;
      LinkedPlaced(fs.g, TableAt(fs.g, d), f.chain, f.first);
      WriteInBlock(fs.disk, fs.g.data, cluster - RESERVED_FAT_ENTRIES, at, b);
      StoreSome(fs.g, d, fs.disk[..], f, f', k, at, b);
    }

    /** Writes in the position's cluster, moves behind the bytes and grows the recorded size if need be. */
    method Store(ghost k: nat, at: nat, b: seq<byte>, cluster: nat, ghost d: seq<byte>, ghost f: Open)
      requires Valid() && fs.disk[..] == d && State() == f && Sits(f.offset, fs.g.data.size, k, at)
      requires k < |f.chain| && cluster == f.chain[k] && |b| <= fs.g.data.size - at && f.offset + |b| <= MAX_FILE_SIZE
      modifies this`offset, this`currentCluster, this`size, fs.disk
      ensures Valid() && Stored(fs.g, d, fs.disk[..], f, State(), b) && FreeKept(fs.g, d, fs.disk[..])
    {
      hide Sound, OpenOk, Stored;
      if b == [] {
        StoreNothing(fs.g, d, f);
      } else {
        ghost var f' := Open(f.chain, f.first, Some(cluster), f.offset + |b|, GrowSize(f.size, f.offset + |b|));
        StoreDisk(k, at, b, cluster, d, f, f');
        size := GrowSize(size, offset + |b|);
        offset, currentCluster := offset + |b|, Some(cluster);
        assert State() == f';
      }
    }

    /** Writes `b` at the position unless there is no room left on the volume. */
    method WriteSome(ghost k: nat, at: nat, b: seq<byte>, ghost d: seq<byte>, ghost f: Open, ghost v: Volume)
      returns (ok: bool, ghost fill: seq<byte>)
      requires Valid() && fs.disk[..] == d && State() == f && fs.Volume() == v && Sits(f.offset, fs.g.data.size, k, at)
      requires |b| <= fs.g.data.size - at && f.offset + |b| <= MAX_FILE_SIZE
      modifies this, fs, fs.disk
      ensures Valid() && Written(fs.g, d, fs.disk[..], f, State(), b, SearchFree(v.t, v.hint), ok, isDir, fill, true)
      ensures FreeKept(fs.g, d, fs.disk[..]) && (f.chain != [] ==> Tail(f.chain).value < |v.t|)
      ensures fs.Volume() == Extended(v, f.chain, chain)
    {
      hide Sound, OpenOk, Written, FreeKept;
      HintOk(v);
      ghost var added;
      var cluster;
      cluster, added := Prepare(k, at, d, f, v);
      ghost var d1, f1 := fs.disk[..], State();
      ok := cluster.Some?;
      if ok {
        Store(k, at, b, cluster.value, d1, f1);
        FreeKeptTrans(fs.g, d, d1, fs.disk[..]);
      }
      fill := Revealed(|All(fs.g, d, f)|, added, f.size);
      WriteDone(fs.g, d, d1, fs.disk[..], f, f1, State(), k, at, v.hint, cluster, isDir, added, b, fill);
    }

    /** Where in its cluster the position is, whether anything is to be written, and how much. */
    method WriteSize(len: nat, grant: nat) returns (ghost k: nat, at: nat, some: bool, n: nat)
      requires fs.Mounted() && offset <= MAX_FILE_SIZE
      ensures Sits(offset, fs.g.data.size, k, at) && (some <==> len > 0 && offset < MAX_FILE_SIZE)
      ensures n == Limit(len, Room(offset, fs.g.data.size), MAX_FILE_SIZE - offset, grant) && (!some ==> n == 0)
      ensures n <= len && n <= fs.g.data.size - at && offset + n <= MAX_FILE_SIZE
    {
      hide Limit, Room;
      k, at := Split();
      var room, left := fs.g.data.size - at, MAX_FILE_SIZE - offset;
      n := Limit(len, room, left, len);
      LimitLate(len, room, left, grant);
      some := n > 0;
      n := Min(n, grant);
    }

    /** A write of as much of `buf` as the limits allow. */
    method WriteLimited(buf: seq<byte>, grant: nat, ghost d: seq<byte>, ghost f: Open, ghost v: Volume)
      returns (n: nat, ok: bool, ghost fill: seq<byte>)
      requires Valid() && fs.disk[..] == d && State() == f && fs.Volume() == v
      modifies this, fs, fs.disk
      ensures n == Limit(|buf|, Room(f.offset, fs.g.data.size), MAX_FILE_SIZE - f.offset, grant)
      ensures Valid() && (v.hint.Some? ==> v.hint.value >= RESERVED_FAT_ENTRIES)
      ensures Written(fs.g, d, fs.disk[..], f, State(), buf[..n], SearchFree(v.t, v.hint), ok, isDir, fill,
              buf != [] && f.offset < MAX_FILE_SIZE)
      ensures Lengthened(fs.g, d, fs.disk[..], f.chain, chain, v, fs.Volume(), isDir)
    {
      hide Sound, OpenOk, Limit, Room, FreeKept, Written, Lengthened;
      HintOk(v);
      OpenFields(fs.g, d, f);
      TailInTable(fs.g, d, f);
      ghost var k;
      var at, some;
      k, at, some, n := WriteSize(|buf|, grant);
      if some {
        ok, fill := WriteSome(k, at, buf[..n], d, f, v);
      } else {
        ok, fill := true, [];
        NotWritten(fs.g, d, f, SearchFree(v.t, v.hint), isDir);
      }
      LengthenedBy(fs.g, d, fs.disk[..], f, State(), buf[..n], v, fs.Volume(), ok, isDir, fill,
        buf != [] && f.offset < MAX_FILE_SIZE);
    }

    /**
      Overwrites the file at the position with a prefix of `buf`, as long as the cluster, the
      maximal file size and `grant`, what the storage takes in this call, allow. A directory grows
      by a cluster of zeros; the FAT32 root, which has no entry, by whatever the cluster held.
      Fails exactly if the position is at the end of the last cluster and no cluster is free.
      */
    method Write(buf: seq<byte>, grant: nat) returns (r: Result<nat, FileError>, ghost fill: seq<byte>)
      requires Valid()
      modifies this, fs, fs.disk
      ensures Valid() && Apart(old(fs.disk[..]), old(chain))
      ensures r.Err? <==> buf != [] && old(offset) < MAX_FILE_SIZE && old(offset) == |old(AllBytes())|
                          && NoneFree(old(fs.Table()))
      ensures r.Err? ==> r.error == NotEnoughSpace && fill == [] && Flat() == old(Flat()) && chain == old(chain)
      ensures fill == Revealed(|old(AllBytes())|, if |chain| > |old(chain)| then old(NextBytes()) else [], old(size))
      ensures |chain| > |old(chain)| ==> old(offset) == |old(AllBytes())|
      ensures r.Ok? ==> r.value == Limit(|buf|, Room(old(offset), fs.g.data.size), MAX_FILE_SIZE - old(offset), grant)
      ensures r.Ok? ==> Flat() == FlatWrite(FlatFile(old(Contents()) + fill, old(offset)), buf[..r.value])
      ensures r.Ok? && size.None? ==> offset <= |old(Contents()) + fill|
      ensures size == if r.Ok? then GrowSize(old(size), offset) else old(size)
      ensures Lengthened(fs.g, old(fs.disk[..]), fs.disk[..], old(chain), chain, old(fs.Volume()), fs.Volume(), isDir)
    {
      hide Sound, OpenOk, OthersKept, FreeKept, Alloc, Limit, Room, Overwrite, Appended, NoneFree, SearchFree, All,
        Shown, Revealed, Geometry.Fits, TableAt, Lengthened;
      ghost var d, f, v := fs.disk[..], State(), fs.Volume();
      HintOk(v);
      OpenFields(fs.g, d, f);
      TailInTable(fs.g, d, f);
      var n, ok;
      n, ok, fill := WriteLimited(buf, grant, d, f, v);
      r := if ok then Ok(n) else Err(NotEnoughSpace);
    }

    /** Follows the chain from its first cluster over `steps` links, or to its end. */
    method Skip(first: nat, steps: nat) returns (cluster: nat, i: nat)
      requires Valid() && chain != [] && first == chain[0]
      ensures i == Min(steps, |chain| - 1) && cluster == chain[i]
    {
      hide WellFormed;
      ghost var t := fs.Table();
      ChainLink(t, chain, 0);
      WellFormedLinksInRange(t);
      var it := fs.ClusterIter(first);
      cluster, i := first, 0;
      while i < steps
        invariant it.Valid() && it.Table() == t && it.cluster == Some(cluster)
        invariant i <= steps && i < |chain| && cluster == chain[i]
      {
        ChainLink(t, chain, i);
        var next := it.Next();
        if next.None? { break; }
        cluster, i := next.value, i + 1;
      }
    }

    /** The cluster of a position behind the first byte, and the position itself, which the chain may cut short. */
    method Locate(to: nat) returns (at: nat, cluster: Option<nat>)
      requires Valid() && 0 < to <= MAX_FILE_SIZE
      ensures at == Min(to, |AllBytes()|) && CursorAt(chain, fs.g.data.size, at, cluster)
    {
      var newClusters, oldClusters := ClustersFor(to, fs.g.data.size), ClustersFor(offset, fs.g.data.size);
      ClustersBounds(to, fs.g.data.size);
      at := to;
      if newClusters == oldClusters {
        SeekSameCluster(chain, fs.g.data.size, offset, currentCluster, to);
        cluster := currentCluster;
      } else if firstCluster.Some? {
        var c, i := Skip(firstCluster.value, newClusters - 1);
        SeekLands(chain, fs.g.data.size, to, i);
        if i < newClusters - 1 { at := Span(i + 1, fs.g.data.size); }
        cluster := Some(c);
      } else {
        at, cluster := 0, None;
      }
    }

    /** Moves to a position, or to the end of the chain if that is before it. */
    method MoveTo(to: nat, ghost target: nat, ghost d: seq<byte>, ghost f: Open)
      requires Valid() && fs.disk[..] == d && State() == f && target <= MAX_FILE_SIZE
      requires to == if f.size.Some? then Min(target, f.size.value) else target
      modifies this`offset, this`currentCluster
      ensures Valid() && MovedTo(fs.g, d, f, State(), target)
    {
      hide MovedTo;
      OffsetInChain(chain, fs.g.data.size, offset, currentCluster);
      if to == offset {
      } else if to == 0 {
        offset, currentCluster := 0, None;
      } else {
        var at, cluster := Locate(to);
        offset, currentCluster := at, cluster;
      }
      SeekDone(fs.g, d, f, State(), target, to);
    }

    /** Moves to the position asked for, or to the end of the file if that is before it. */
    method Seek(pos: SeekFrom) returns (r: Result<nat, FileError>)
      requires Valid()
      modifies this`offset, this`currentCluster
      ensures Valid() && (r.Err? <==> SeekTarget(pos, old(offset), size).None?)
      ensures r.Err? ==> r.error == InvalidInput && Flat() == old(Flat())
      ensures r.Ok? ==> Flat() == FlatSeek(old(Flat()), SeekTarget(pos, old(offset), size).value) && r.value == offset
    {
      hide Sound, OpenOk;
      var target := SeekTarget(pos, offset, size);
      if target.None? { return Err(InvalidInput); }
      var to := if size.Some? && size.value < target.value then size.value else target.value;
      MoveTo(to, target.value, fs.disk[..], State());
      r := Ok(offset);
    }

    /** Frees the clusters behind the current one. */
    method CutDisk(ghost d: seq<byte>, ghost f: Open, ghost v: Volume, cluster: nat, ghost f': Open, ghost k: nat)
      requires Valid() && fs.Ready() && fs.disk[..] == d && State() == f && fs.Volume() == v
      requires f.current == Some(cluster) && f.offset > 0
      requires k == ClustersFor(f.offset, fs.g.data.size) - 1 < |f.chain|
      requires f' == Open(f.chain[..k + 1], f.first, f.current, f.offset, SizeAt(f.size, f.offset))
      modifies fs, fs.disk
      ensures fs.Valid() && CutTo(fs.g, d, fs.disk[..], f, f')
    {
      hide CutTo, OpenOk, SameData, Cut, FullChain, WellFormed, TruncateWalk;
      TrimAt(fs.g, d, f);
      fs.TruncateClusterChain(cluster, v);
      CutDone(fs.g, d, fs.disk[..], f, f', k);
    }

    /** Frees all clusters of the file. */
    method ReleaseDisk(ghost d: seq<byte>, ghost f: Open, ghost v: Volume, ghost f': Open)
      requires Valid() && fs.Ready() && fs.disk[..] == d && State() == f && fs.Volume() == v && f.offset == 0
      requires f' == Open([], None, f.current, f.offset, SizeAt(f.size, f.offset))
      modifies fs, fs.disk
      ensures fs.Valid() && CutTo(fs.g, d, fs.disk[..], f, f')
    {
      hide CutTo, SameData, FreeWalk;
      WellFormedLinksInRange(v.t);
      if firstCluster.Some? {
        ChainLink(v.t, f.chain, 0);
        fs.FreeClusterChain(firstCluster.value, v);
      } else {
        NothingFreed(fs.g, d, v.t);
      }
      ReleaseDone(fs.g, d, fs.disk[..], f, f');
    }

    /** Frees what is behind the position: the clusters behind the current one, or all of them at the start. */
    method TrimDisk(ghost d: seq<byte>, ghost f: Open, ghost v: Volume) returns (first: Option<nat>, ghost c: seq<nat>)
      requires Valid() && fs.Ready() && fs.disk[..] == d && State() == f && fs.Volume() == v
      modifies fs, fs.disk
      ensures fs.Valid()
      ensures CutTo(fs.g, d, fs.disk[..], f, Open(c, first, f.current, f.offset, SizeAt(f.size, f.offset)))
    {
      hide CutTo, Sound, OpenOk;
      CurrentPlaced(fs.g, d, f);
      ghost var k := ClustersFor(f.offset, fs.g.data.size) - 1;
      if currentCluster.Some? {
        first, c := firstCluster, f.chain[..k + 1];
        CutDisk(d, f, v, currentCluster.value, Open(c, first, f.current, f.offset, SizeAt(f.size, f.offset)), k);
      } else {
        first, c := None, [];
        ReleaseDisk(d, f, v, Open(c, first, f.current, f.offset, SizeAt(f.size, f.offset)));
      }
    }

    /**
      Cuts the file at the position: what is before it stays, the clusters behind are free again,
      and all other chains are as before. A directory keeps its last cluster whole.
      */
    method Truncate()
      requires Valid() && hasEntry && fs.Ready()
      modifies this`firstCluster, this`entryCluster, this`size, this`chain, fs, fs.disk
      ensures Valid() && Apart(old(fs.disk[..]), old(chain))
      ensures ClustersFor(offset, fs.g.data.size) <= |old(chain)|
              && chain == old(chain)[..ClustersFor(offset, fs.g.data.size)]
      ensures FreeCount(fs.Table()) == FreeCount(old(fs.Table())) + |old(chain)| - |chain|
      ensures |AllBytes()| <= |old(AllBytes())| && AllBytes() == old(AllBytes())[..|AllBytes()|]
      ensures size == SizeAt(old(size), offset) && (size.Some? ==> Flat() == FlatTruncate(old(Flat())))
    {
      hide Sound, OpenOk, OthersKept, All, Shown, FreeCount, ClustersFor;
      ghost var c;
      var first;
      first, c := TrimDisk(fs.disk[..], State(), fs.Volume());
      size, firstCluster, entryCluster, chain := SizeAt(size, offset), first, first, c;
    }

    /**
      Where on the disk the position is: just behind the byte before it, so at a cluster boundary
      at the end of the previous cluster. None at the start of the file.
      */
    method AbsPos() returns (r: Option<nat>)
      requires Valid()
      ensures r.None? <==> offset == 0
      ensures r.Some? ==> EndsAtDisk(fs.g, fs.disk[..], State(), Behind(offset, fs.g.data.size), r.value)
    {
      hide OpenOk, EndsAtDisk;
      CurrentPlaced(fs.g, fs.disk[..], State());
      r := None;
      if currentCluster.Some? {
        var n := Behind(offset, fs.g.data.size);
        r := Some(fs.g.data.Base(currentCluster.value - RESERVED_FAT_ENTRIES) + n);
        BytesBefore(fs.g, fs.disk[..], State(), n, r.value);
      }
    }
  }
}
