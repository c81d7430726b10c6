/**
  Directories on the disk. Finding free space, writing an entry, iterating and removing are proved
  against the list of entries that iteration yields, on every stream a directory can have: the
  cluster chain of a subdirectory, that of the FAT32 root, and the fixed root region of the others.
  */
module Directories {

  import opened Options
  import opened Bytes
  import opened Blocks
  import opened Storages
  import opened DiskSlices
  import opened FatChains
  import opened FatWalk
  import opened FatRuns
  import opened FileSystems
  import opened FileChains
  import opened Files
  import opened LongNames
  import opened DirEntries
  import opened Listings
  import opened DirSlots
  import opened DirStreams

  datatype DirError = InvalidFileNameLength | UnsupportedFileNameCharacter | NotEnoughSpace | WriteZero

  predicate LengthOk(name: seq<scalar>) {
    name != [] && Utf8Length(name) <= 255
  }

  predicate AllSupported(name: seq<scalar>) {
    forall c :: c in name ==> Supported(c)
  }

  /** Checks the length of a long name, in bytes, and its characters. */
  method ValidateLongName(name: seq<scalar>) returns (r: Result<(), DirError>)
    ensures r == Err(InvalidFileNameLength) <==> !LengthOk(name)
    ensures r == Err(UnsupportedFileNameCharacter) <==> LengthOk(name) && !AllSupported(name)
    ensures r.Ok? <==> LengthOk(name) && AllSupported(name)
  {
    if !LengthOk(name) { return Err(InvalidFileNameLength); }
    for i := 0 to |name|
      invariant forall j :: 0 <= j < i ==> Supported(name[j])
    {
      if !Supported(name[i]) { return Err(UnsupportedFileNameCharacter); }
    }
    r := Ok(());
  }

  /** What iteration over the slots yields. */
  ghost function Items(v: seq<Slot>): seq<Item> {
    Listing(Recs(v), true)
  }

  /** `p` is the first place with room for `num` slots. */
  ghost predicate FirstFit(v: seq<Slot>, p: nat, num: nat) {
    FreeSlots(v, p, num) && forall j :: 0 <= j < p ==> !FreeSlots(v, j, num)
  }

  /**
    The search for `num` free slots has read `i` slots; the last `k` of them, from `p` on, are deleted, and there is no
    room before them.
    */
  ghost predicate Searching(v: seq<Slot>, i: nat, p: nat, k: nat, num: nat) {
    && NoEndBelow(v, i) && k < num && (k > 0 ==> p + k == i && AllDeleted(v, p, i))
    && forall j :: 0 <= j < (if k == 0 then i else p) ==> !FreeSlots(v, j, num)
  }

  lemma SearchAtEnd(v: seq<Slot>, i: nat, p: nat, k: nat, num: nat)
    requires Searching(v, i, p, k, num) && EndsAt(v, i)
    ensures FirstFit(v, if k == 0 then i else p, num)
  {
    assert AllDeleted(v, if k == 0 then i else p, i);
  }

  /** There is no room anywhere before a slot in use. */
  lemma NoRoomBefore(v: seq<Slot>, i: nat, p: nat, k: nat, num: nat, j: nat)
    requires Searching(v, i, p, k, num) && i < |v| && !IsEnd(v[i]) && !IsDeleted(v[i]) && j <= i
    ensures !FreeSlots(v, j, num)
  {
    if FreeSlots(v, j, num) {
      if !AllDeleted(v, j, j + num) {
        var e: nat :| AllDeleted(v, j, e) && EndsAt(v, e) && e < j + num;
      }
    }
  }

  lemma SearchStep(v: seq<Slot>, i: nat, p: nat, k: nat, num: nat)
    requires Searching(v, i, p, k, num) && i < |v| && !IsEnd(v[i])
    ensures !IsDeleted(v[i]) ==> Searching(v, i + 1, p, 0, num)
    ensures IsDeleted(v[i]) ==> var p' := if k == 0 then i else p;
                                if k + 1 == num then FirstFit(v, p', num) else Searching(v, i + 1, p', k + 1, num)
  {
    if !IsDeleted(v[i]) {
      forall j | 0 <= j <= i ensures !FreeSlots(v, j, num) { NoRoomBefore(v, i, p, k, num, j); }
    }
  }

  /** Slots are written up to `offset`: the directory is no longer than it was, or than that needs. */
  ghost predicate Bounded(len: nat, now: nat, offset: nat, cs: nat) {
    now <= len || now <= offset + cs
  }

  lemma FirstFitFree(v: seq<Slot>, p: nat, n: nat)
    requires FirstFit(v, p, n)
    ensures FreeSlots(v, p, n) && p <= |v|
  {
  }

  /** Slots of an entry are never end marks. */
  lemma EntryInUse(name: seq<u16>, record: Slot, i: nat)
    requires NameOk(name) && RecOf(record) == Short(record) && i < |EntrySlots(name, record)|
    ensures !IsEnd(EntrySlots(name, record)[i])
  {
    if i < Parts(|name|) { PartSlotRec(name, record, i); }
  }

  /** The directory is tidy and what it grew by, if it did, is zero: nothing can appear behind a new entry. */
  ghost predicate Clean(v: seq<Slot>, v': seq<Slot>, zero: bool) {
    TidySlots(v) && (zero || |v'| == |v|)
  }

  /**
    What writing an entry's slots into free space does. The list gains the entry, and nothing else
    changes exactly if no slots that list something follow the new ones. If only some slots could be
    written the list is as before.
    */
  lemma EntryWritten(v: seq<Slot>, t: seq<Slot>, v': seq<Slot>, p: nat, name: seq<u16>, record: Slot, n: nat)
    returns (k: nat, item: Item)
    requires NameOk(name) && RecOf(record) == Short(record) && FreeSlots(v, p, Parts(|name|) + 1)
    requires n <= Parts(|name|) + 1 && WroteWith(v, t, v', p, EntrySlots(name, record)[..n])
    requires (n <= Parts(|name|) ==> p + n == |v'|) && (t != [] ==> |v| < p + Parts(|name|) + 1)
    ensures TidySlots(v) && AllZero(t) ==> TidySlots(v')
    ensures n <= Parts(|name|) ==> Items(v') == Items(v)
    ensures n == Parts(|name|) + 1 ==> item.record == record && item.name == Stripped(name) && item.end == p + n
    ensures n == Parts(|name|) + 1 ==> PutIn(Items(v), Items(v'), k, item, Rest(v', item.end, item.end, [], true))
    ensures n == Parts(|name|) + 1 ==> (Harmless(v, t, p, item.end, true) <==> Added(Items(v), Items(v'), k, item))
    ensures n == Parts(|name|) + 1
            ==> (Harmless(v, t, p, item.end, true) <==> exists j, e :: Added(Items(v), Items(v'), j, e))
  {
    hide Harmless, Tidy, WroteWith, Added, PutIn, Scan;
    var es := EntrySlots(name, record);
    if TidySlots(v) && AllZero(t) {
      forall i | 0 <= i < n ensures !IsEnd(es[..n][i]) { EntryInUse(name, record, i); }
      WroteTidy(v, t, v', p, es[..n], Parts(|name|) + 1);
    }
    k, item := 0, Item(0, 0, record, []);
    if n <= Parts(|name|) {
      EntryCutOff(v, t, v', p, name, record, n, true);
    } else {
      assert es[..n] == es;
      k, item := EntryPut(v, t, v', p, name, record, true);
    }
  }

  /** What an entry that is stored at `p`, or could not be, does to the list; `t` is what the directory grew by. */
  ghost predicate ListedAs(v: seq<Slot>, t: seq<Slot>, v': seq<Slot>, p: nat, name: seq<u16>, record: Slot, k: nat,
                         item: Item, ok: bool)
    requires NameOk(name)
  {
    && |v'| == |v| + |t| && (TidySlots(v) && AllZero(t) ==> TidySlots(v'))
    && if ok then
      && item.record == record && item.name == Stripped(name) && item.end == p + Parts(|name|) + 1
      && PutIn(Items(v), Items(v'), k, item, Rest(v', item.end, item.end, [], true))
      && (Harmless(v, t, p, item.end, true) <==> Added(Items(v), Items(v'), k, item))
      && (Harmless(v, t, p, item.end, true) <==> exists j, e :: Added(Items(v), Items(v'), j, e))
    else
      Items(v') == Items(v)
  }

  lemma EntryStored(v: seq<Slot>, t: seq<Slot>, v': seq<Slot>, p: nat, name: seq<u16>, record: Slot, n: nat, zero: bool)
    returns (k: nat, item: Item)
    requires NameOk(name) && RecOf(record) == Short(record) && FirstFit(v, p, Parts(|name|) + 1)
    requires n <= Parts(|name|) + 1 && WroteWith(v, t, v', p, EntrySlots(name, record)[..n])
    requires (n <= Parts(|name|) ==> p + n == |v'|) && (t != [] ==> |v| < p + Parts(|name|) + 1)
    requires zero ==> AllZero(t)
    ensures n > Parts(|name|) <==> p + Parts(|name|) + 1 <= |v| + |t|
    ensures ListedAs(v, t, v', p, name, record, k, item, n > Parts(|name|))
    ensures Clean(v, v', zero) ==> TidySlots(v')
    ensures n > Parts(|name|) && Clean(v, v', zero) ==> Added(Items(v), Items(v'), k, item)
  {
    hide Items, PutIn, Added, TidySlots, Rest, Stripped, Harmless, AllZero, FreeSlots, RecOf, FirstFit, WroteWith;
    FirstFitFree(v, p, Parts(|name|) + 1);
    WroteLength(v, t, v', p, EntrySlots(name, record)[..n]);
    k, item := EntryWritten(v, t, v', p, name, record, n);
    CleanStored(v, t, v', p, name, record, k, item, n > Parts(|name|), zero);
  }

  /** In a clean directory an entry is added and nothing else changes. */
  lemma CleanStored(v: seq<Slot>, t: seq<Slot>, v': seq<Slot>, p: nat, name: seq<u16>, record: Slot, k: nat,
                    item: Item, ok: bool, zero: bool)
    requires NameOk(name) && FreeSlots(v, p, Parts(|name|) + 1) && (zero ==> AllZero(t))
    requires ListedAs(v, t, v', p, name, record, k, item, ok)
    ensures Clean(v, v', zero) ==> TidySlots(v')
    ensures ok && Clean(v, v', zero) ==> Added(Items(v), Items(v'), k, item)
  {
    hide Items, Added, PutIn, Rest, Harmless, FreeSlots, AllZero, Stripped, Tidy;
    if Clean(v, v', zero) {
      NothingZero(t);
      TidyHarmless(v, t, p, Parts(|name|) + 1, true);
    }
  }

  /**
    The FAT32 root grows by clusters as they are. If the directory is full and an old record is among
    what is appended, behind the new entry's slots and before any end mark, then that record appears in
    the list beside the new entry.
    */
  lemma StaleEntryAppears(v: seq<Slot>, t: seq<Slot>, v': seq<Slot>, name: seq<u16>, record: Slot, j: nat)
    requires NameOk(name) && RecOf(record) == Short(record) && NoEndBelow(v, |v|)
    requires WroteWith(v, t, v', |v|, EntrySlots(name, record))
    requires Parts(|name|) < j < |t| && RecOf(t[j]).Short? && forall i :: Parts(|name|) < i < j ==> !IsEnd(t[i])
    ensures forall k, item :: !Added(Items(v), Items(v'), k, item)
  {
    hide Scan, Added, PutIn, Tidy, Items, Stripped, WroteWith;
    var es, p, q := EntrySlots(name, record), |v|, |v| + Parts(|name|) + 1;
    assert AllDeleted(v, p, p) && EndsAt(v, p);
    assert es[..|es|] == es;
    var k, item := EntryWritten(v, t, v', p, name, record, |es|);
    var rs := Recs(v + t);
    forall i | q <= i < p + j ensures rs[i] != End { assert (v + t)[i] == t[i - p]; }
    assert (v + t)[p + j] == t[j];
    ScanReaches(rs, q, p + j, q, [], true);
  }

  /** What iteration yields from slot `i` on, with these parts of a name, the first at slot `begin`. */
  ghost function Rest(v: seq<Slot>, i: nat, begin: nat, parts: seq<Part>, skipVolume: bool): seq<Item> {
    Scan(Recs(v), i, begin, parts, skipVolume)
  }

  /** The next of the entries that are left. */
  function Next(items: seq<Item>): Option<Item> {
    if items == [] then None else Some(items[0])
  }

  /** Slot `i` as iteration sees it; an end mark behind the last one. */
  function RecAt(v: seq<Slot>, i: nat): Rec {
    if i < |v| then RecOf(v[i]) else End
  }

  lemma RestStep(v: seq<Slot>, i: nat, begin: nat, parts: seq<Part>, skipVolume: bool, r: Rec)
    requires i <= |v| && r == RecAt(v, i)
    ensures r == End ==> Rest(v, i, begin, parts, skipVolume) == []
    ensures r != End ==> i < |v|
    ensures r != End && Skipped(r, skipVolume)
            ==> Rest(v, i, begin, parts, skipVolume) == Rest(v, i + 1, i + 1, [], skipVolume)
    ensures r.LongPart? ==> Rest(v, i, begin, parts, skipVolume) == Rest(v, i + 1, begin, parts + [r.part], skipVolume)
    ensures (r.Short? || r.Volume?) && !Skipped(r, skipVolume) ==>
              Next(Rest(v, i, begin, parts, skipVolume)) == Some(Item(begin, i + 1, r.record, NameFor(parts, r.record)))
  {
  }

  /** Behind its next entry iteration goes on with the others. */
  lemma RestAfter(v: seq<Slot>, i: nat, skipVolume: bool, items: seq<Item>)
    requires items == Rest(v, i, i, [], skipVolume) && items != []
    ensures i < items[0].end <= |v| && Rest(v, items[0].end, items[0].end, [], skipVolume) == items[1..]
  {
    ScanNext(Recs(v), i, skipVolume, items);
    assert items[1..] == Scan(Recs(v), items[0].end, items[0].end, [], skipVolume);
  }

  /** Slots `begin` to `k` are marked deleted. */
  ghost predicate Marked(v: seq<Slot>, v': seq<Slot>, begin: nat, k: nat) {
    |v'| == |v| && forall i {:trigger v'[i]} :: 0 <= i < |v| ==> v'[i] == if begin <= i < k then Deleted(v[i]) else v[i]
  }

  lemma MarkedNext(v: seq<Slot>, v': seq<Slot>, v'': seq<Slot>, begin: nat, k: nat)
    requires begin <= k < |v| && |v'| == |v| && Marked(v, v', begin, k) && PutWith(v', [], v'', k, Deleted(v'[k]))
    ensures Marked(v, v'', begin, k + 1) && |v''| == |v|
  {
  }

  lemma MarkedNone(v: seq<Slot>, begin: nat)
    ensures Marked(v, v, begin, begin)
  {
  }

  lemma MarkedTidy(v: seq<Slot>, v': seq<Slot>, begin: nat, end: nat)
    requires Marked(v, v', begin, end) && TidySlots(v) && end <= |v| && begin < end && !IsEnd(v[end - 1])
    ensures TidySlots(v')
  {
    var rs, rs' := Recs(v), Recs(v');
    assert rs[end - 1] == RecOf(v[end - 1]);
    forall i, j | 0 <= i < j < |rs'| && rs'[i] == End ensures rs'[j] == End {
      assert rs'[i] == RecOf(v'[i]) && rs'[j] == RecOf(v'[j]) && rs[i] == RecOf(v[i]) && rs[j] == RecOf(v[j]);
      if begin <= i < end { DeletedRec(v[i]); }
    }
  }

  /** An entry's marked slots take it out of the list. */
  lemma MarkedRemoves(v: seq<Slot>, v': seq<Slot>, k: nat)
    requires k < |Items(v)| && Marked(v, v', Items(v)[k].begin, Items(v)[k].end)
    ensures Removed(Items(v), Items(v'), k) && (TidySlots(v) ==> TidySlots(v'))
  {
    hide Scan, Removed, Tidy;
    ItemBounds(Recs(v), 0, 0, [], true, k);
    ItemInUse(Recs(v), 0, 0, [], true, k);
    if TidySlots(v) { MarkedTidy(v, v', Items(v)[k].begin, Items(v)[k].end); }
    EntryRemoved(v, v', true, k);
  }

  method DeleteSlot(b: Slot) returns (r: Slot)
    ensures r == Deleted(b)
  {
    DeletedRecord(b);
    r := Encode(SetDeleted(Decode(b)));
  }

  /** What iteration does with record `i`: it skips it, collects a part of a name, or has an entry. */
  method TakeRecord(builder: LongNameBuilder, r: Rec, i: nat, begin: nat, skipVolume: bool, ghost v: seq<Slot>,
                    ghost items: seq<Item>)
    returns (done: bool, e: Option<Item>, i': nat, begin': nat)
    requires builder.Valid() && i <= |v| && r == RecAt(v, i)
    requires Rest(v, i, begin, builder.entries, skipVolume) == items
    modifies builder
    ensures builder.Valid() && i' == i + 1
    ensures !done ==> i < |v| && Rest(v, i', begin', builder.entries, skipVolume) == items
    ensures done ==> e == Next(items) && (e.Some? ==> i < |v| && e.value.end == i')
  {
    hide Rest, Checksum;
    RestStep(v, i, begin, builder.entries, skipVolume, r);
    done, e, i', begin' := false, None, i + 1, begin;
    if r == End {
      done := true;
    } else if Skipped(r, skipVolume) {
      builder.Clear();
      begin' := i';
    } else if r.LongPart? {
      builder.Process(r.part);
    } else {
      var name := builder.Finish(r.record[..SFN_SIZE]);
      done, e := true, Some(Item(begin, i', r.record, name));
    }
  }

  /**
    What is kept of the rest of the volume: everything but the directory's own chain, which may grow, or its own
    region.
    */
  ghost predicate RestKept(g: Geometry, region: Option<Layout>, d: seq<byte>, d': seq<byte>, c: seq<nat>, c': seq<nat>)
    requires g.Fits(|d|)
  {
    match region
    case None => OthersKept(g, d, d', c) && c <= c'
    case Some(l) => RootOnly(g, l, d, d') && AllKept(g, d, d') && c' == c
  }

  lemma RestKeptSame(g: Geometry, region: Option<Layout>, d: seq<byte>, c: seq<nat>)
    requires g.Fits(|d|)
    ensures RestKept(g, region, d, d, c, c)
  {
    SameTableKept(g, d, d, c);
    SameClustersKept(g, d, d);
  }

  lemma RestKeptTrans(g: Geometry, region: Option<Layout>, d: seq<byte>, d1: seq<byte>, d2: seq<byte>, c: seq<nat>,
                      c1: seq<nat>, c2: seq<nat>)
    requires g.Fits(|d|) && |d1| == |d| && WellFormed(TableAt(g, d)) && (region.None? ==> FullChain(TableAt(g, d), c))
    requires RestKept(g, region, d, d1, c, c1) && RestKept(g, region, d1, d2, c1, c2)
    ensures RestKept(g, region, d, d2, c, c2)
  {
    if region.None? {
      GrowingKeeps(g, d, d1, d2, c, c1);
    } else {
      RootOnlyTrans(g, region.value, d, d1, d2);
      AllKeptTrans(g, d, d1, d2);
    }
  }

  /** Moves a directory's file to a slot. */
  method SeekFile(f: File, i: nat)
    requires DirFile(f) && i <= |FileSlots(f)|
    modifies f`offset, f`currentCluster
    ensures DirFile(f) && FileSlots(f) == old(FileSlots(f)) && f.offset / DIR_ENTRY_SIZE == i
  {
    hide File.Valid, File.Contents;
    FileLength(f);
    var r := f.Seek(FromStart(DIR_ENTRY_SIZE * i));
    assert f.offset == DIR_ENTRY_SIZE * i;
  }

  /** Every chain but two is kept. */
  ghost predicate AllButKept(g: Geometry, d: seq<byte>, d': seq<byte>, e: seq<nat>, c: seq<nat>)
    requires g.Fits(|d|)
  {
    forall x :: FullChain(TableAt(g, d), x) && x != e && x != c ==> FileChains.Kept(g, d, d', x)
  }

  lemma AllButTwo(g: Geometry, region: Option<Layout>, d: seq<byte>, d1: seq<byte>, d2: seq<byte>, e: seq<nat>,
                  c: seq<nat>, c': seq<nat>)
    requires g.Fits(|d|) && |d1| == |d| && OthersKept(g, d, d1, e) && RestKept(g, region, d1, d2, c, c')
    ensures AllButKept(g, d, d2, e, c)
  {
    forall x | FullChain(TableAt(g, d), x) && x != e && x != c ensures FileChains.Kept(g, d, d2, x) {
      assert FileChains.Kept(g, d, d1, x);
      assert FileChains.Kept(g, d1, d2, x);
    }
  }

  /** An open file whose chain is kept stays as it is. */
  lemma OpenSurvives(g: Geometry, d: seq<byte>, d': seq<byte>, f: Open, e: seq<nat>)
    requires OpenOk(g, d, f) && f.chain != [] && f.chain != e && OthersKept(g, d, d', e) && WellFormed(TableAt(g, d'))
    ensures OpenOk(g, d', f) && Shown(g, d', f) == Shown(g, d, f)
  {
    assert FileChains.Kept(g, d, d', f.chain);
  }

  /** A chain and the table without it. */
  lemma ChainReleased(g: Geometry, d: seq<byte>, d': seq<byte>, v: Volume, v': Volume, e: seq<nat>)
    requires g.Fits(|d|) && SameData(g, d, d') && v.t == TableAt(g, d) && v'.t == TableAt(g, d') && Sound(v)
    requires FullChain(v.t, e) && LinksInRange(v.t) && InRange(v.t, e[0]) && v' == Release(v, e[0])
    ensures v'.t == FreeAll(v.t, e) && OthersKept(g, d, d', e)
  {
    ReleaseOfChain(v.t, e);
    ReleaseKeepsOthers(g, d, d', e);
  }

  /** The chains after one is released are the others, and its clusters are free. */
  lemma OnlyReleased(t: Table, e: seq<nat>)
    requires WellFormed(t) && FullChain(t, e)
    ensures forall x :: FullChain(FreeAll(t, e), x) <==> FullChain(t, x) && x != e
    ensures FreeCount(FreeAll(t, e)) == FreeCount(t) + |e|
  {
    ReleaseOfChain(t, e);
    forall x ensures FullChain(FreeAll(t, e), x) <==> FullChain(t, x) && x != e { ReleaseChain(t, e, x); }
  }

  lemma NoChain(t: Table)
    ensures !FullChain(t, [])
  {
  }

  /** Where a directory's bytes are: in a chain of clusters, or in the fixed region. */
  datatype RawStream = FileStream(file: File) | RootStream(root: DiskSlice)

  class Dir {
    const fs: FileSystem
    const stream: RawStream

    ghost function Cursor(): set<object> {
      match stream
      case FileStream(f) => {f}
      case RootStream(s) => {s}
    }

    ghost function Repr(): set<object> { Cursor() + {fs, fs.disk} }

    ghost predicate Valid()
      reads Repr()
    {
      && fs.Valid()
      && match stream
         case FileStream(f) => f.fs == fs && DirFile(f)
         case RootStream(s) => RootSlice(fs, s)
    }

    /** The directory's slots. */
    ghost function View(): (v: seq<Slot>)
      requires Valid()
      reads Repr()
    {
      match stream
      case FileStream(f) => FileSlots(f)
      case RootStream(s) => RootSlots(s)
    }

    /** The slot the stream stands at. */
    function Position(): nat
      reads Repr()
    {
      match stream
      case FileStream(f) => f.offset / DIR_ENTRY_SIZE
      case RootStream(s) => s.offset / DIR_ENTRY_SIZE
    }

    ghost function Chain(): seq<nat>
      reads Repr()
    {
      match stream
      case FileStream(f) => f.chain
      case RootStream(_) => []
    }

    ghost function Region(): Option<Layout> {
      match stream
      case FileStream(_) => None
      case RootStream(s) => Some(s.layout)
    }

    /** New slots are zero: always in a subdirectory; the fixed region has none; not so in the FAT32 root. */
    ghost predicate Zeroed() {
      match stream
      case FileStream(f) => f.isDir
      case RootStream(_) => true
    }

    /** The directory is `n` bytes away from the maximal size of a file; the fixed region is small. */
    ghost predicate Far(size: nat, n: nat) {
      stream.FileStream? ==> size + n <= MAX_FILE_SIZE
    }

    /** The slots that the directory will grow by to have `n` more; the fixed region does not grow. */
    ghost function Ahead(n: nat): (t: seq<Slot>)
      requires Valid()
      reads Repr()
    {
      match stream
      case FileStream(f) => FileAhead(f, n)
      case RootStream(_) => []
    }

    /** The slots that it will grow by to have `q`. */
    ghost function AheadTo(q: nat): (t: seq<Slot>)
      requires Valid()
      reads Repr()
    {
      Ahead(Missing(q, |View()|))
    }

    /** The same for a disk image, a volume and the directory's chain. */
    ghost function AheadOf(d: seq<byte>, v: Volume, c: seq<nat>, n: nat): (t: seq<Slot>)
      requires stream.FileStream? ==> c != [] && CanGrow(fs.g, d, v, Tail(c).value)
    {
      match stream
      case FileStream(f) => Upcoming(fs.g, d, v, Tail(c).value, f.isDir, n)
      case RootStream(_) => []
    }

    lemma AheadIs(n: nat)
      requires Valid()
      ensures fs.Mounted()
      ensures stream.FileStream? ==> Chain() != [] && CanGrow(fs.g, fs.disk[..], fs.Volume(), Tail(Chain()).value)
      ensures Ahead(n) == AheadOf(fs.disk[..], fs.Volume(), Chain(), n)
    {
      if stream.FileStream? { CanGrowFile(stream.file); }
    }

    lemma AheadNone(q: nat)
      requires Valid() && q <= |View()|
      ensures AheadTo(q) == []
    {
    }

    lemma AheadZero(q: nat)
      requires Valid() && Zeroed()
      ensures AllZero(AheadTo(q))
    {
      match stream
      case RootStream(_) =>
      case FileStream(f) =>
        CanGrowFile(f);
        UpcomingZero(fs.g, fs.disk[..], fs.Volume(), Tail(f.chain).value, Missing(q, |View()|));
    }

    /**
      A slot is written where it should be. A file marks the volume dirty first; the fixed root does so behind the
      first bytes.
      */
    predicate CanWrite(b: Slot)
      reads fs`currentDirty, fs`calls
    {
      stream.RootStream? ==> fs.Takes(FirstField(b))
    }

    constructor FromFile(file: File)
      requires DirFile(file)
      ensures Valid() && stream == FileStream(file) && fs == file.fs
    {
      fs := file.fs;
      stream := FileStream(file);
    }

    /** The root directory of a 12- or 16-bit volume. */
    constructor FixedRoot(fs: FileSystem, region: Layout)
      requires fs.Valid() && InGap(fs.g, region) && region.Fits(fs.disk.Length)
      ensures Valid() && this.fs == fs && stream.RootStream? && fresh(stream.root) && stream.root.layout == region
              && Position() == 0
    {
      this.fs := fs;
      var s := new DiskSlice(fs.disk, region, fs.Port(), fs.currentDirty, fs.calls);
      stream := RootStream(s);
    }

    /** Reads the slot at the position; none at the end. */
    method ReadSlot() returns (s: Option<Slot>)
      requires Valid()
      modifies Cursor()
      ensures Valid() && View() == old(View()) && Chain() == old(Chain())
      ensures s == if old(Position()) < |View()| then Some(View()[old(Position())]) else None
      ensures Position() == old(Position()) + if s.Some? then 1 else 0
    {
      match stream
      case FileStream(f) => s := ReadFromFile(f);
      case RootStream(r) => s := ReadFromRoot(fs, r);
    }

    method SeekTo(i: nat)
      requires Valid() && i <= |View()|
      modifies Cursor()
      ensures Valid() && View() == old(View()) && Chain() == old(Chain()) && Position() == i
    {
      match stream {
        case FileStream(f) => SeekFile(f, i);
        case RootStream(s) => var ok := s.Seek(FromStart(DIR_ENTRY_SIZE * i));
      }
    }

    /**
      Writes a slot at the position. Behind the last one a file grows, if a cluster is free, and the fixed region does
      not. `t` is what it grows by, `n` how many more slots are wanted.
      */
    method WriteSlot(b: Slot, ghost n: nat) returns (ok: bool, ghost t: seq<Slot>)
      requires Valid() && Far(DIR_ENTRY_SIZE * |View()|, fs.g.data.size) && CanWrite(b)
      requires n > 0 || Position() < |View()|
      modifies Repr()
      ensures Valid() && RestKept(fs.g, Region(), old(fs.disk[..]), fs.disk[..], old(Chain()), Chain())
      ensures !ok ==> old(Position()) == |old(View())| && View() == old(View()) && Position() == old(Position())
      ensures !ok ==> t == [] && Ahead(n) == []
      ensures ok ==> PutWith(old(View()), t, View(), old(Position()), b) && Position() == old(Position()) + 1
      ensures ok && stream.RootStream? ==> fs.currentDirty
      ensures t == [] || (old(Position()) == |old(View())| && DIR_ENTRY_SIZE * |t| == fs.g.data.size)
      ensures old(Ahead(n)) == t + Ahead(Missing(n, |t|))
      ensures t == [] ==> fs.Table() == old(fs.Table())
    {
      hide PutWith, Upcoming, OthersKept, AllKept, RootOnly, FirstField;
      match stream {
        case FileStream(f) => ok, t := PutInFile(f, b, n);
        case RootStream(s) =>
          ok := PutInRoot(fs, s, b);
          t := [];
      }
    }

    /** Reads on to the first place with room for `num` slots: a run of deleted ones that is long enough, or the end. */
    method SearchFree(num: nat) returns (p: nat)
      requires Valid() && num > 0 && Position() == 0
      modifies Cursor()
      ensures Valid() && View() == old(View()) && Chain() == old(Chain()) && FirstFit(View(), p, num)
    {
      hide Valid, View, Position, Chain;
      ghost var v, c := View(), Chain();
      var i, k := 0, 0;
      p := 0;
      while true
        invariant Valid() && View() == v && Chain() == c && Position() == i && Searching(v, i, p, k, num)
        decreases |v| - i
      {
        var s := ReadSlot();
        if s.None? || IsEnd(s.value) {
          SearchAtEnd(v, i, p, k, num);
          if k == 0 { p := i; }
          return;
        }
        SearchStep(v, i, p, k, num);
        if IsDeleted(s.value) {
          if k == 0 { p := i; }
          k := k + 1;
          if k == num { return; }
        } else {
          k := 0;
        }
        i := i + 1;
      }
    }

    /** Finds room for `num` slots and moves there. */
    method FindFree(num: nat) returns (p: nat)
      requires Valid() && num > 0
      modifies Cursor()
      ensures Valid() && View() == old(View()) && Chain() == old(Chain()) && Position() == p
      ensures FirstFit(View(), p, num) && AheadTo(p + num) == old(AheadTo(p + num))
    {
      hide Valid, View, Position, Chain, Ahead, AheadOf;
      forall m { AheadIs(m); }
      SeekTo(0);
      p := SearchFree(num);
      SeekTo(p);
      AheadIs(Missing(p + num, |View()|));
    }

    /** The rest of the volume is kept. */
    ghost predicate Kept(d: seq<byte>, c: seq<nat>)
      requires fs.Mounted() && |d| == fs.disk.Length
      reads Repr()
    {
      RestKept(fs.g, Region(), d, fs.disk[..], c, Chain())
    }

    /** What the table of an image says of a directory whose chain was `c`. */
    ghost predicate Since(d: seq<byte>, c: seq<nat>) {
      fs.Mounted() && |d| == fs.disk.Length && WellFormed(TableAt(fs.g, d))
        && (Region().None? ==> FullChain(TableAt(fs.g, d), c))
    }

    lemma SinceNow()
      requires Valid()
      ensures Since(fs.disk[..], Chain())
    {
    }

    /** One more slot of several; the directory is to have `q` slots in the end. */
    method WriteNext(b: Slot, ghost d: seq<byte>, ghost c: seq<nat>, ghost q: nat)
      returns (ok: bool, ghost t: seq<Slot>)
      requires Valid() && Far(DIR_ENTRY_SIZE * |View()|, fs.g.data.size) && Since(d, c) && Kept(d, c) && CanWrite(b)
      requires |View()| < q || Position() < |View()|
      modifies Repr()
      ensures Valid() && Kept(d, c)
      ensures !ok ==> old(Position()) == |old(View())| && View() == old(View()) && Position() == old(Position())
      ensures !ok ==> t == [] && AheadTo(q) == []
      ensures ok ==> PutWith(old(View()), t, View(), old(Position()), b) && Position() == old(Position()) + 1
      ensures ok && stream.RootStream? ==> fs.currentDirty
      ensures t == [] || (old(Position()) == |old(View())| && DIR_ENTRY_SIZE * |t| == fs.g.data.size)
      ensures |View()| == |old(View())| + |t| && old(AheadTo(q)) == t + AheadTo(q)
      ensures t == [] ==> fs.Table() == old(fs.Table())
    {
      hide Valid, View, Position, Chain, RestKept, PutWith, WellFormed, Ahead, CanWrite;
      ghost var d1, c1, v := fs.disk[..], Chain(), View();
      ghost var p := Position();
      ok, t := WriteSlot(b, Missing(q, |v|));
      if ok { PutLength(v, t, View(), p, b); }
      RestKeptTrans(fs.g, Region(), d, d1, fs.disk[..], c, c1, Chain());
    }

    /** Once the volume is dirty every slot is written where it should be. */
    lemma CanWriteDirty(b: Slot)
      requires stream.RootStream? ==> fs.currentDirty
      ensures CanWrite(b)
    {
    }

    /**
      Writes slots one after the other, until the directory cannot grow any more. `t` is what it grows by on the way:
      as much as is needed, or all there is.
      */
    method WriteSlots(es: seq<Slot>) returns (n: nat, ghost t: seq<Slot>)
      requires Valid() && Far(DIR_ENTRY_SIZE * |View()|, DIR_ENTRY_SIZE * |es| + 2 * fs.g.data.size)
               && Position() <= |View()| && (es != [] ==> CanWrite(es[0]))
      modifies Repr()
      ensures Valid() && Kept(old(fs.disk[..]), old(Chain()))
      ensures n <= |es| && WroteWith(old(View()), t, View(), old(Position()), es[..n])
      ensures n < |es| ==> old(Position()) + n == |View()|
      ensures t == old(AheadTo(Position() + |es|)) && (t != [] ==> |old(View())| < old(Position()) + |es|)
      ensures Position() == old(Position()) + n
    {
      hide Valid, View, Position, Chain, Kept, Since, PutWith, WroteWith, AheadTo, CanWrite;
      ghost var d, c, v, p, m := fs.disk[..], Chain(), View(), Position(), Position() + |es|;
      ghost var ahead := AheadTo(m);
      KeptNow();
      WroteNone(v, p, es);
      n, t := 0, [];
      while n < |es|
        invariant Valid() && Kept(d, c) && n <= |es| && Position() == p + n
        invariant WroteWith(v, t, View(), p, es[..n]) && |View()| == |v| + |t| && p + n <= |View()|
        invariant ahead == t + AheadTo(m) && (t != [] ==> |v| < m)
        invariant n == 0 && es != [] ==> CanWrite(es[0])
        invariant n > 0 && stream.RootStream? ==> fs.currentDirty
        invariant Bounded(DIR_ENTRY_SIZE * |v|, DIR_ENTRY_SIZE * |View()|, DIR_ENTRY_SIZE * (p + n), fs.g.data.size)
      {
        if n > 0 { CanWriteDirty(es[n]); }
        ghost var v1, t1 := View(), [];
        var ok;
        ok, t1 := WriteNext(es[n], d, c, m);
        Regroup(t, t1, AheadTo(m));
        if !ok { return; }
        WroteNext(v, t, v1, t1, View(), p, es, n);
        WroteLength(v, t + t1, View(), p, es[..n + 1]);
        t, n := t + t1, n + 1;
      }
      AheadNone(m);
    }

    lemma KeptNow()
      requires Valid()
      ensures fs.Mounted() && Kept(fs.disk[..], Chain()) && Since(fs.disk[..], Chain())
    {
      RestKeptSame(fs.g, Region(), fs.disk[..], Chain());
      SinceNow();
    }

    /**
      Stores an entry: its long name in parts, then its record, at the first place with room for them.
      Fails for lack of room exactly if the directory cannot grow to hold them, and the list is then as
      before. Else the list has the new entry with its name. Nothing else changes exactly if that is
      harmless, which only depends on the slots that were there and those the directory grows by; it is
      so in a tidy directory whose new slots are zero.
      */
    method WriteEntry(name: seq<scalar>, record: Slot)
      returns (r: Result<nat, DirError>, ghost p: nat, ghost k: nat, ghost item: Item)
      requires Valid() && RecOf(record) == Short(record)
               && Far(DIR_ENTRY_SIZE * |View()|, 21 * DIR_ENTRY_SIZE + 2 * fs.g.data.size)
      modifies Repr()
      ensures Valid() && Kept(old(fs.disk[..]), old(Chain()))
      ensures r == Err(InvalidFileNameLength) <==> !LengthOk(name)
      ensures r == Err(UnsupportedFileNameCharacter) <==> LengthOk(name) && !AllSupported(name)
      ensures r.Err? ==> Items(View()) == Items(old(View()))
      ensures LengthOk(name) && AllSupported(name) ==> var q := p + Parts(|Utf16(name)|) + 1;
              && FirstFit(old(View()), p, q - p)
              && (r.Ok? <==> q <= |old(View())| + |old(AheadTo(q))|)
              && (r.Err? ==> r.error == if stream.FileStream? then DirError.NotEnoughSpace else DirError.WriteZero)
              && NameOk(Utf16(name))
              && ListedAs(old(View()), old(AheadTo(q)), View(), p, Utf16(name), record, k, item, r.Ok?)
      ensures r.Ok? ==> r.value == p && item.record == record && item.name == Stripped(Utf16(name))
                        && item.end == p + Parts(|Utf16(name)|) + 1
      ensures r.Ok? ==> PutIn(Items(old(View())), Items(View()), k, item, Rest(View(), item.end, item.end, [], true))
      ensures r.Ok? ==> (Harmless(old(View()), old(AheadTo(item.end)), p, item.end, true)
                         <==> Added(Items(old(View())), Items(View()), k, item))
      ensures r.Ok? ==> (Harmless(old(View()), old(AheadTo(item.end)), p, item.end, true)
                         <==> exists j, e :: Added(Items(old(View())), Items(View()), j, e))
      ensures r.Ok? && Clean(old(View()), View(), Zeroed()) ==> Added(Items(old(View())), Items(View()), k, item)
      ensures Clean(old(View()), View(), Zeroed()) ==> TidySlots(View())
    {
      hide Valid, View, Position, Chain, Kept, Since, FirstFit, RecOf, Items, PutIn, Added, TidySlots, Rest, Stripped,
        Harmless, Ahead, Utf16, Utf8Length, Supported;
      p, k, item := 0, 0, Item(0, 0, record, []);
      KeptNow();
      var checked := ValidateLongName(name);
      if checked.Err? {
        r := Err(checked.error);
      } else {
        UnitsFit(name);
        r, p, k, item := StoreEntry(Utf16(name), record);
      }
    }

    /** Stores an entry whose name has been checked. */
    method StoreEntry(name: seq<u16>, record: Slot)
      returns (r: Result<nat, DirError>, ghost p: nat, ghost k: nat, ghost item: Item)
      requires Valid() && NameOk(name) && RecOf(record) == Short(record)
               && Far(DIR_ENTRY_SIZE * |View()|, 21 * DIR_ENTRY_SIZE + 2 * fs.g.data.size)
      modifies Repr()
      ensures Valid() && Kept(old(fs.disk[..]), old(Chain()))
      ensures FirstFit(old(View()), p, Parts(|name|) + 1)
      ensures r.Ok? <==> p + Parts(|name|) + 1 <= |old(View())| + |old(AheadTo(p + Parts(|name|) + 1))|
      ensures r.Err? ==> r.error == if stream.FileStream? then DirError.NotEnoughSpace else DirError.WriteZero
      ensures r.Ok? ==> r.value == p
      ensures ListedAs(old(View()), old(AheadTo(p + Parts(|name|) + 1)), View(), p, name, record, k, item, r.Ok?)
      ensures Clean(old(View()), View(), Zeroed()) ==> TidySlots(View())
      ensures r.Ok? && Clean(old(View()), View(), Zeroed()) ==> Added(Items(old(View())), Items(View()), k, item)
    {
      hide Valid, View, Position, Chain, Kept, WroteWith, RecOf, Items, Added, TidySlots, AheadTo, AllZero, ListedAs,
        FirstFit, Clean, EntrySlots;
      ghost var v, t := View(), [];
      var at, n;
      at, n, t := PlaceEntry(name, record);
      p := at;
      k, item := EntryStored(v, t, View(), p, name, record, n, Zeroed());
      r := if n > Parts(|name|) then Ok(at) else
             Err(if stream.FileStream? then DirError.NotEnoughSpace else DirError.WriteZero);
    }

    /** Finds room for the slots of an entry and writes them there, as many as the directory can hold. */
    method PlaceEntry(name: seq<u16>, record: Slot) returns (p: nat, n: nat, ghost t: seq<Slot>)
      requires Valid() && NameOk(name)
               && Far(DIR_ENTRY_SIZE * |View()|, 21 * DIR_ENTRY_SIZE + 2 * fs.g.data.size)
      modifies Repr()
      ensures Valid() && Kept(old(fs.disk[..]), old(Chain()))
      ensures FirstFit(old(View()), p, Parts(|name|) + 1) && t == old(AheadTo(p + Parts(|name|) + 1))
      ensures n <= Parts(|name|) + 1 && WroteWith(old(View()), t, View(), p, EntrySlots(name, record)[..n])
      ensures (n <= Parts(|name|) ==> p + n == |View()|) && (t != [] ==> |old(View())| < p + Parts(|name|) + 1)
      ensures Zeroed() ==> AllZero(t)
    {
      hide Valid, View, Position, Chain, Kept, WroteWith, AheadTo, CanWrite, AllZero, FirstFit, EntrySlots, Zeroed;
      var es := EntrySlots(name, record);
      p := FindFree(|es|);
      FirstSlot(name, record);
      FirstFitFree(View(), p, |es|);
      if Zeroed() { AheadZero(p + |es|); }
      n, t := WriteSlots(es);
    }

    /** The first slot of an entry starts with a single byte, which is always written where it should be. */
    lemma FirstSlot(name: seq<u16>, record: Slot)
      requires NameOk(name)
      ensures CanWrite(EntrySlots(name, record)[0])
    {
      PartSlotRec(name, record, 0);
    }

    /** The record at the position; an end mark behind the last slot. */
    method ReadRecord() returns (r: Rec)
      requires Valid()
      modifies Cursor()
      ensures Valid() && View() == old(View()) && Chain() == old(Chain())
      ensures r == RecAt(View(), old(Position()))
      ensures Position() == old(Position()) + if old(Position()) < |View()| then 1 else 0
    {
      hide Valid, View, Position, Chain;
      var s := ReadSlot();
      r := if s.Some? then RecOf(s.value) else End;
    }

    /** One step of iteration; `items` are the entries still to come. */
    method StepEntry(builder: LongNameBuilder, i: nat, begin: nat, skipVolume: bool, ghost v: seq<Slot>,
                     ghost items: seq<Item>)
      returns (done: bool, e: Option<Item>, i': nat, begin': nat)
      requires Valid() && builder.Valid() && builder !in Repr() && View() == v && Position() == i <= |v|
      requires Rest(v, i, begin, builder.entries, skipVolume) == items
      modifies Cursor(), builder
      ensures Valid() && View() == v && Chain() == old(Chain()) && builder.Valid()
      ensures !done ==> Position() == i' && i < i' <= |v| && Rest(v, i', begin', builder.entries, skipVolume) == items
      ensures done ==> e == Next(items) && (e.Some? ==> Position() == e.value.end)
    {
      hide Valid, View, Position, Chain, LongNameBuilder.Valid, Rest, RecAt;
      var r := ReadRecord();
      done, e, i', begin' := TakeRecord(builder, r, i, begin, skipVolume, v, items);
    }

    /** Reads on to the next entry and returns it with its long name; none at the end. */
    method ReadEntry(skipVolume: bool) returns (e: Option<Item>)
      requires Valid() && Position() <= |View()|
      modifies Cursor()
      ensures Valid() && View() == old(View()) && Chain() == old(Chain())
      ensures e == Next(Rest(View(), old(Position()), old(Position()), [], skipVolume))
      ensures e.Some? ==> Position() == e.value.end
    {
      var builder := new LongNameBuilder();
      e := ReadWith(builder, skipVolume);
    }

    method ReadWith(builder: LongNameBuilder, skipVolume: bool) returns (e: Option<Item>)
      requires Valid() && Position() <= |View()| && builder !in Repr() && builder.Valid() && builder.entries == []
      modifies Cursor(), builder
      ensures Valid() && View() == old(View()) && Chain() == old(Chain())
      ensures e == Next(Rest(View(), old(Position()), old(Position()), [], skipVolume))
      ensures e.Some? ==> Position() == e.value.end
    {
      hide Valid, View, Position, Chain, LongNameBuilder.Valid, Rest;
      ghost var v, c := View(), Chain();
      var i: nat, begin: nat, done: bool := Position(), Position(), false;
      ghost var items := Rest(v, i, i, [], skipVolume);
      e := None;
      while !done
        invariant Valid() && View() == v && Chain() == c && builder.Valid()
        invariant !done ==> Position() == i && i <= |v| && Rest(v, i, begin, builder.entries, skipVolume) == items
        invariant done ==> e == Next(items) && (e.Some? ==> Position() == e.value.end)
        decreases !done, |v| - i
      {
        done, e, i, begin := StepEntry(builder, i, begin, skipVolume, v, items);
      }
    }

    /** The next of the entries that are left, and where the others start. */
    method NextEntry(i: nat, skipVolume: bool, ghost v: seq<Slot>, ghost items: seq<Item>)
      returns (e: Option<Item>, i': nat)
      requires Valid() && View() == v && Position() == i <= |v| && Rest(v, i, i, [], skipVolume) == items
      modifies Cursor()
      ensures Valid() && View() == v && Chain() == old(Chain()) && e == Next(items)
      ensures e.Some? ==> Position() == i' <= |v| && Rest(v, i', i', [], skipVolume) == items[1..]
    {
      hide Valid, View, Position, Chain, Rest;
      if items != [] { RestAfter(v, i, skipVolume, items); }
      e := ReadEntry(skipVolume);
      i' := if e.Some? then e.value.end else i;
    }

    /** Iterates over the whole directory. */
    method List(skipVolume: bool) returns (items: seq<Item>)
      requires Valid()
      modifies Cursor()
      ensures Valid() && View() == old(View()) && Chain() == old(Chain()) && items == Listing(Recs(View()), skipVolume)
    {
      hide Valid, View, Position, Chain, Scan, Recs;
      SeekTo(0);
      ghost var v, c := View(), Chain();
      ghost var all := Rest(v, 0, 0, [], skipVolume);
      ghost var left := all;
      items := [];
      var i: nat, more := 0, true;
      while more
        invariant Valid() && View() == v && Chain() == c && items + left == all
        invariant if more then Position() == i <= |v| && Rest(v, i, i, [], skipVolume) == left else left == []
        decreases more, |left|
      {
        var e;
        e, i := NextEntry(i, skipVolume, v, left);
        more := e.Some?;
        if more {
          items := items + [e.value];
          left := left[1..];
        }
      }
    }

    /** Reads the slot at the position, marks it deleted and writes it back. */
    method MarkSlot(i: nat, ghost d: seq<byte>, ghost c: seq<nat>)
      requires Valid() && Position() == i < |View()| && Far(DIR_ENTRY_SIZE * |View()|, fs.g.data.size) && Since(d, c)
               && Kept(d, c) && CanWrite(Deleted(View()[i]))
      modifies Repr()
      ensures Valid() && Kept(d, c) && Position() == i + 1 && fs.Table() == old(fs.Table())
      ensures PutWith(old(View()), [], View(), i, Deleted(old(View())[i]))
      ensures stream.RootStream? ==> fs.currentDirty
    {
      hide Valid, View, Position, Chain, Since, RestKept, Deleted, PutWith, Ahead, CanWrite;
      ghost var v := View();
      var s := ReadSlot();
      SeekTo(i);
      var b := DeleteSlot(s.value);
      var ok, t := WriteNext(b, d, c, 0);
    }

    method MarkSlots(begin: nat, end: nat)
      requires Valid() && Far(DIR_ENTRY_SIZE * |View()|, fs.g.data.size) && begin <= end <= |View()|
      requires begin < end ==> CanWrite(Deleted(View()[begin]))
      modifies Repr()
      ensures Valid() && Kept(old(fs.disk[..]), old(Chain())) && Marked(old(View()), View(), begin, end)
              && fs.Table() == old(fs.Table())
    {
      hide Valid, View, Position, Chain, Since, RestKept, Deleted, PutWith, Marked, CanWrite;
      KeptNow();
      ghost var d, c, v, t := fs.disk[..], Chain(), View(), fs.Table();
      MarkedNone(v, begin);
      SeekTo(begin);
      var i := begin;
      while i < end
        invariant Valid() && Kept(d, c) && begin <= i <= end && Position() == i && |View()| == |v| && fs.Table() == t
        invariant Marked(v, View(), begin, i)
        invariant i == begin && i < end ==> CanWrite(Deleted(View()[i]))
        invariant i > begin && stream.RootStream? ==> fs.currentDirty
      {
        ghost var v1 := View();
        if i > begin { CanWriteDirty(Deleted(v1[i])); }
        MarkSlot(i, d, c);
        MarkedNext(v, v1, View(), begin, i);
        i := i + 1;
      }
    }

    /** Marks the slots of an entry as deleted: iteration then yields the same entries without it. */
    method RemoveEntry(begin: nat, end: nat, ghost k: nat)
      requires Valid() && Far(DIR_ENTRY_SIZE * |View()|, fs.g.data.size)
      requires k < |Items(View())| && Items(View())[k].begin == begin && Items(View())[k].end == end
      requires begin < |View()| ==> CanWrite(Deleted(View()[begin]))
      modifies Repr()
      ensures Valid() && Kept(old(fs.disk[..]), old(Chain())) && fs.Table() == old(fs.Table())
      ensures Removed(Items(old(View())), Items(View()), k) && (TidySlots(old(View())) ==> TidySlots(View()))
    {
      hide Valid, View, Position, Chain, RestKept, Marked, Removed, TidySlots;
      ghost var v := View();
      ItemBounds(Recs(v), 0, 0, [], true, k);
      MarkSlots(begin, end);
      MarkedRemoves(v, View(), k);
    }

    /** Frees the chain of an entry; the directory is another chain, or none. */
    method FreeEntry(first: nat, ghost e: seq<nat>, ghost d: seq<byte>, ghost v: Volume)
      requires Valid() && fs.disk[..] == d && fs.Volume() == v && FullChain(v.t, e) && e[0] == first && e != Chain()
      requires fs.Ready()
      modifies fs, fs.disk
      ensures Valid() && View() == old(View()) && Chain() == old(Chain()) && Position() == old(Position())
      ensures fs.currentDirty
      ensures fs.Table() == FreeAll(v.t, e) && OthersKept(fs.g, d, fs.disk[..], e)
    {
      ReleaseData(first, e, d, v);
      match stream
      case FileStream(f) => OpenSurvives(fs.g, d, fs.disk[..], f.State(), e);
      case RootStream(s) => RootSurvives(fs.g, s.layout, d, fs.disk[..]);
    }

    method ReleaseData(first: nat, ghost e: seq<nat>, ghost d: seq<byte>, ghost v: Volume)
      requires fs.Valid() && fs.Ready() && fs.disk[..] == d && fs.Volume() == v && FullChain(v.t, e) && e[0] == first
      modifies fs, fs.disk
      ensures fs.Valid() && fs.currentDirty && fs.Table() == FreeAll(v.t, e) && OthersKept(fs.g, d, fs.disk[..], e)
    {
      hide OthersKept, SameData, FreeAll, Release;
      ChainLink(v.t, e, 0);
      fs.FreeClusterChain(first, v);
      ChainReleased(fs.g, d, fs.disk[..], v, fs.Volume(), e);
    }

    lemma ValidFields()
      requires Valid()
      ensures fs.Valid() && Position() <= |View()|
    {
    }

    /** What an entry's record says of its data: no chain, or one that is not the directory's. */
    ghost predicate DataChain(record: Slot, e: seq<nat>)
      requires Valid()
      reads Repr()
    {
      match FirstCluster(DecodeFile(record), fs.g.ft)
      case None => e == []
      case Some(n) => FullChain(fs.Table(), e) && e[0] == n && e != Chain()
    }

    /**
      Removes an entry: its clusters are freed, then its slots are marked as deleted. The list loses
      exactly that entry, the volume exactly its chain, and all other chains are kept.
      */
    method Remove(entry: Item, ghost k: nat, ghost e: seq<nat>)
      requires Valid() && Far(DIR_ENTRY_SIZE * |View()|, fs.g.data.size)
      requires k < |Items(View())| && Items(View())[k] == entry && DataChain(entry.record, e)
      requires if e != [] then fs.Ready() else entry.begin < |View()| ==> CanWrite(Deleted(View()[entry.begin]))
      modifies Repr()
      ensures Valid() && Removed(Items(old(View())), Items(View()), k) && (TidySlots(old(View())) ==> TidySlots(View()))
      ensures forall x :: FullChain(fs.Table(), x) <==> FullChain(old(fs.Table()), x) && x != e
      ensures FreeCount(fs.Table()) == FreeCount(old(fs.Table())) + |e|
      ensures AllButKept(fs.g, old(fs.disk[..]), fs.disk[..], e, old(Chain()))
    {
      hide Valid, View, Position, Chain, OthersKept, RestKept, AllButKept, Removed, TidySlots, Items, FreeAll,
        FullChain, WellFormed, FreeCount, CanWrite, Deleted;
      ValidFields();
      ghost var d, c, v := fs.disk[..], Chain(), fs.Volume();
      var first := FirstCluster(DecodeFile(entry.record), fs.g.ft);
      NoChain(v.t);
      if first.Some? {
        FreeEntry(first.value, e, d, v);
        OnlyReleased(v.t, e);
      } else {
        SameTableKept(fs.g, d, d, e);
      }
      ghost var d1 := fs.disk[..];
      ValidFields();
      if first.Some? && entry.begin < |View()| { CanWriteDirty(Deleted(View()[entry.begin])); }
      RemoveEntry(entry.begin, entry.end, k);
      ValidFields();
      AllButTwo(fs.g, Region(), d, d1, fs.disk[..], e, c, Chain());
    }
  }
}
