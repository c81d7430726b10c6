/** The bytes of a directory as 32-byte slots, and the slots as the records that iteration sees. */
module DirSlots {

  import opened Bytes
  import opened Cursor
  import opened FileContents
  import opened LongNames
  import opened DirEntries
  import opened Listings

  // ---------------------------------------------------------------- bytes and slots

  ghost predicate Whole(b: seq<byte>) {
    |b| % DIR_ENTRY_SIZE == 0
  }

  function SlotAt(b: seq<byte>, i: nat): (s: Slot)
    requires DIR_ENTRY_SIZE * i + DIR_ENTRY_SIZE <= |b|
  {
    b[DIR_ENTRY_SIZE * i..DIR_ENTRY_SIZE * i + DIR_ENTRY_SIZE]
  }

  function Slots(b: seq<byte>): (s: seq<Slot>)
    requires Whole(b)
    ensures |s| == |b| / DIR_ENTRY_SIZE
    ensures forall i {:trigger s[i]} :: 0 <= i < |s| ==> s[i] == SlotAt(b, i)
  {
    seq(|b| / DIR_ENTRY_SIZE, i requires 0 <= i < |b| / DIR_ENTRY_SIZE => SlotAt(b, i))
  }

  const END_SLOT: Slot := Zeros(DIR_ENTRY_SIZE)

  lemma SlotsAppend(b: seq<byte>, c: seq<byte>)
    requires Whole(b) && Whole(c)
    ensures Whole(b + c) && Slots(b + c) == Slots(b) + Slots(c)
  {
    var n := |b| / DIR_ENTRY_SIZE;
    forall i | 0 <= i < |Slots(b + c)| ensures Slots(b + c)[i] == (Slots(b) + Slots(c))[i] {
      if i < n {
        assert SlotAt(b + c, i) == SlotAt(b, i);
      } else {
        assert SlotAt(b + c, i) == SlotAt(c, i - n);
      }
    }
  }

  lemma OverwriteSlot(b: seq<byte>, i: nat, s: Slot, k: nat)
    requires DIR_ENTRY_SIZE * i + DIR_ENTRY_SIZE <= |b| && DIR_ENTRY_SIZE * k + DIR_ENTRY_SIZE <= |b|
    ensures |Overwrite(b, DIR_ENTRY_SIZE * i, s)| == |b|
    ensures SlotAt(Overwrite(b, DIR_ENTRY_SIZE * i, s), k) == if k == i then s else SlotAt(b, k)
  {
    var c, pos := Overwrite(b, DIR_ENTRY_SIZE * i, s), DIR_ENTRY_SIZE * i;
    assert c == b[..pos] + s + b[pos + DIR_ENTRY_SIZE..];
  }

  /** Zeroed clusters hold zero slots. */
  lemma SlotsZeros(n: nat)
    requires n % DIR_ENTRY_SIZE == 0
    ensures forall i {:trigger Slots(Zeros(n))[i]} :: 0 <= i < n / DIR_ENTRY_SIZE ==> Slots(Zeros(n))[i] == END_SLOT
  {
    forall i | 0 <= i < n / DIR_ENTRY_SIZE ensures Slots(Zeros(n))[i] == END_SLOT {
      assert SlotAt(Zeros(n), i) == END_SLOT;
    }
  }

  ghost predicate AllZero(t: seq<Slot>) {
    forall k :: 0 <= k < |t| ==> t[k] == END_SLOT
  }

  /** Slot `i` is replaced in the old slots followed by `t`. */
  ghost predicate PutWith(s: seq<Slot>, t: seq<Slot>, s': seq<Slot>, i: nat, b: Slot) {
    && |s'| == |s| + |t| && i < |s'|
    && forall k {:trigger s'[k]} :: 0 <= k < |s'| ==>
         s'[k] == if k == i then b else if k < |s| then s[k] else t[k - |s|]
  }

  /** Overwriting one slot's bytes, maybe in a cluster just appended, replaces that slot. */
  lemma SlotsOverwrite(c: seq<byte>, fill: seq<byte>, i: nat, b: Slot, d: seq<byte>)
    requires Whole(c) && Whole(fill) && i <= |Slots(c)| && DIR_ENTRY_SIZE * i + DIR_ENTRY_SIZE <= |c + fill|
    requires d == Overwrite(c + fill, DIR_ENTRY_SIZE * i, b)
    ensures Whole(d) && PutWith(Slots(c), Slots(fill), Slots(d), i, b)
  {
    hide Overwrite, SlotAt;
    SlotsAppend(c, fill);
    var all, s, t := c + fill, Slots(c), Slots(fill);
    OverwriteSlot(all, i, b, i);
    var s' := Slots(d);
    forall k | 0 <= k < |s'| ensures s'[k] == if k == i then b else if k < |s| then s[k] else t[k - |s|] {
      OverwriteSlot(all, i, b, k);
      assert Slots(all)[k] == (s + t)[k];
    }
  }

  // ---------------------------------------------------------------- clusters hold whole slots

  lemma {:induction false} SpanWhole(k: nat, cs: nat)
    requires cs % DIR_ENTRY_SIZE == 0
    ensures Span(k, cs) % DIR_ENTRY_SIZE == 0
  {
    if k > 0 { SpanWhole(k - 1, cs); }
  }

  lemma SlotFits(offset: nat, cs: nat, k: nat, at: nat)
    requires cs % DIR_ENTRY_SIZE == 0 && offset % DIR_ENTRY_SIZE == 0 && Sits(offset, cs, k, at)
    ensures cs - at >= DIR_ENTRY_SIZE
  {
    SpanWhole(k, cs);
  }

  /** A slot does not cross the end of its cluster. */
  lemma SlotInCluster(offset: nat, cs: nat)
    requires cs > 0 && cs % DIR_ENTRY_SIZE == 0 && offset % DIR_ENTRY_SIZE == 0
    ensures cs - offset % cs >= DIR_ENTRY_SIZE
  {
    SitsAt(offset, cs);
    SlotFits(offset, cs, offset / cs, offset % cs);
  }

  // ---------------------------------------------------------------- slots and records

  /** A slot as iteration sees it. */
  function RecOf(b: Slot): (r: Rec) {
    if IsEnd(b) then End
    else if IsDeleted(b) then Gone
    else if IsLfn(b) then LongPart(PartOf(b))
    else if IsVolume(b) then Volume(b)
    else Short(b)
  }

  function PartOf(b: Slot): (p: Part) {
    var l := DecodeLfn(b);
    LfnEntry(l.order, l.checksum, l.units)
  }

  function Recs(s: seq<Slot>): (rs: seq<Rec>)
    ensures |rs| == |s| && forall i {:trigger rs[i]} :: 0 <= i < |s| ==> rs[i] == RecOf(s[i])
  {
    seq(|s|, i requires 0 <= i < |s| => RecOf(s[i]))
  }

  function LfnSlot(p: Part): (b: Slot) {
    Encode(Lfn(LfnData(p.order, p.units, 0x0F, 0, p.checksum, 0)))
  }

  /** A generated part is written as a slot that is read back as that part. */
  lemma LfnSlotRec(p: Part)
    requires 0 < p.order != DIR_ENTRY_DELETED_FLAG
    ensures RecOf(LfnSlot(p)) == LongPart(p)
  {
    var l := LfnData(p.order, p.units, 0x0F, 0, p.checksum, 0);
    LfnRoundTrip(l);
    Marks(LfnSlot(p));
  }

  lemma DeletedRec(b: Slot)
    ensures RecOf(Deleted(b)) == Gone
  {
  }

  // ---------------------------------------------------------------- free slots

  ghost predicate NoEndBelow(s: seq<Slot>, p: nat) {
    p <= |s| && forall i :: 0 <= i < p ==> !IsEnd(s[i])
  }

  ghost predicate AllDeleted(s: seq<Slot>, p: nat, e: nat) {
    p <= e <= |s| && forall i :: p <= i < e ==> IsDeleted(s[i])
  }

  ghost predicate EndsAt(s: seq<Slot>, e: nat) {
    e <= |s| && (e < |s| ==> IsEnd(s[e]))
  }

  /** `n` slots from `p` on are deleted, or fewer are and the end of the directory follows. */
  ghost predicate FreeSlots(s: seq<Slot>, p: nat, n: nat) {
    && NoEndBelow(s, p)
    && (AllDeleted(s, p, p + n) || exists e: nat :: AllDeleted(s, p, e) && EndsAt(s, e) && e < p + n)
  }

  lemma FreeSlotsRecs(s: seq<Slot>, p: nat, n: nat)
    requires FreeSlots(s, p, n)
    ensures FreeSpace(Recs(s), p, n)
  {
    if !AllDeleted(s, p, p + n) {
      var e: nat :| AllDeleted(s, p, e) && EndsAt(s, e) && e < p + n;
      assert EndArea(Recs(s), p, e);
    }
  }

  // ---------------------------------------------------------------- writing several slots

  /** The slots from `p` on are replaced by `es` in the old slots followed by `t`. */
  ghost predicate WroteWith(s: seq<Slot>, t: seq<Slot>, s': seq<Slot>, p: nat, es: seq<Slot>) {
    && |s'| == |s| + |t| && p + |es| <= |s'|
    && forall k {:trigger s'[k]} :: 0 <= k < |s'| ==>
         s'[k] == if p <= k < p + |es| then es[k - p] else if k < |s| then s[k] else t[k - |s|]
  }

  lemma WroteNone(s: seq<Slot>, p: nat, es: seq<Slot>)
    requires p <= |s|
    ensures WroteWith(s, [], s, p, es[..0])
  {
  }

  lemma WroteNext(s: seq<Slot>, t: seq<Slot>, s': seq<Slot>, t': seq<Slot>, s'': seq<Slot>, p: nat, es: seq<Slot>,
                  n: nat)
    requires n < |es| && WroteWith(s, t, s', p, es[..n]) && PutWith(s', t', s'', p + n, es[n])
    ensures WroteWith(s, t + t', s'', p, es[..n + 1])
  {
    assert es[..n + 1] == es[..n] + [es[n]];
  }

  lemma WroteLength(s: seq<Slot>, t: seq<Slot>, s': seq<Slot>, p: nat, es: seq<Slot>)
    requires WroteWith(s, t, s', p, es)
    ensures |s'| == |s| + |t| && p + |es| <= |s'|
  {
  }

  lemma PutLength(s: seq<Slot>, t: seq<Slot>, s': seq<Slot>, i: nat, b: Slot)
    requires PutWith(s, t, s', i, b)
    ensures |s'| == |s| + |t|
  {
  }

  lemma Regroup(a: seq<Slot>, b: seq<Slot>, c: seq<Slot>)
    ensures (a + b) + c == a + (b + c)
  {
  }

  lemma NothingZero(t: seq<Slot>)
    ensures t == [] ==> AllZero(t)
  {
  }

  function LfnSlots(es: seq<Part>): (s: seq<Slot>)
    ensures |s| == |es| && forall i {:trigger s[i]} :: 0 <= i < |es| ==> s[i] == LfnSlot(es[i])
  {
    seq(|es|, i requires 0 <= i < |es| => LfnSlot(es[i]))
  }

  /** The slots of an entry: the parts of its long name and its short name. */
  function EntrySlots(name: seq<u16>, record: Slot): (s: seq<Slot>)
    requires NameOk(name)
    ensures |s| == Parts(|name|) + 1
  {
    LfnSlots(NameParts(name, record)) + [record]
  }

  /** A generated part's slot is one of a long name. */
  lemma PartSlotRec(name: seq<u16>, record: Slot, i: nat)
    requires NameOk(name) && i < Parts(|name|)
    ensures RecOf(LfnSlot(NameParts(name, record)[i])) == LongPart(NameParts(name, record)[i])
  {
    var p := NameParts(name, record)[i];
    assert p == PartEntry(name, Checksum(record[..SFN_SIZE]), Parts(|name|) - i);
    LfnSlotRec(p);
  }

  /** The first `n` slots of an entry are the first parts of its name, and all of them are the entry. */
  lemma WroteParts(s: seq<Slot>, t: seq<Slot>, s': seq<Slot>, p: nat, name: seq<u16>, record: Slot, n: nat)
    requires NameOk(name) && n <= Parts(|name|) && WroteWith(s, t, s', p, EntrySlots(name, record)[..n])
    ensures HasParts(Recs(s'), p, NameParts(name, record)[..n])
  {
    var rs, es := Recs(s'), NameParts(name, record)[..n];
    forall i | 0 <= i < n ensures PartAt(rs, p, es, i) {
      assert s'[p + i] == EntrySlots(name, record)[..n][i] == LfnSlot(NameParts(name, record)[i]);
      PartSlotRec(name, record, i);
    }
  }

  // ---------------------------------------------------------------- what the operations do to the list

  /** Everything behind the first end mark is an end mark, too. */
  ghost predicate TidySlots(s: seq<Slot>) {
    Tidy(Recs(s))
  }

  lemma WroteBelow(s: seq<Slot>, t: seq<Slot>, s': seq<Slot>, p: nat, es: seq<Slot>)
    requires WroteWith(s, t, s', p, es) && p <= |s|
    ensures SameBelow(Recs(s), Recs(s'), p)
  {
  }

  lemma WroteBehind(s: seq<Slot>, t: seq<Slot>, s': seq<Slot>, p: nat, es: seq<Slot>)
    requires WroteWith(s, t, s', p, es) && p <= |s|
    ensures SameBehind(Recs(s + t), Recs(s'), p + |es|)
  {
    var rs, rs', q := Recs(s + t), Recs(s'), p + |es|;
    forall i | q <= i ensures SameAt(rs, rs', i) {
      if i < |rs'| { assert rs'[i] == RecOf(s'[i]) && rs[i] == RecOf((s + t)[i]); }
    }
  }

  /** Writing keeps the directory tidy if what it grew by is zero. */
  lemma WroteTidy(s: seq<Slot>, t: seq<Slot>, s': seq<Slot>, p: nat, es: seq<Slot>, n: nat)
    requires WroteWith(s, t, s', p, es) && AllZero(t) && TidySlots(s) && FreeSlots(s, p, n) && |es| <= n
    requires forall i :: 0 <= i < |es| ==> !IsEnd(es[i])
    ensures TidySlots(s')
  {
    var rs, rs' := Recs(s), Recs(s');
    assert RecOf(END_SLOT) == End;
    forall i, j | 0 <= i < j < |rs'| && rs'[i] == End ensures rs'[j] == End {
      assert rs'[i] == RecOf(s'[i]) && rs'[j] == RecOf(s'[j]);
      if j < |s| { assert rs[j] == RecOf(s[j]); }
      if i < |s| { assert rs[i] == RecOf(s[i]); }
    }
  }

  /**
    Nothing shows up when the slots `p` to `q` are written and `t` is appended: the slots were all
    deleted, or those behind them, old and appended ones, list nothing.
    */
  ghost predicate Harmless(s: seq<Slot>, t: seq<Slot>, p: nat, q: nat, skipVolume: bool) {
    AllDeleted(s, p, q) || Scan(Recs(s + t), q, q, [], skipVolume) == []
  }

  /** In a tidy directory that grows by zeros nothing shows up. */
  lemma TidyHarmless(s: seq<Slot>, t: seq<Slot>, p: nat, n: nat, skipVolume: bool)
    requires TidySlots(s) && AllZero(t) && FreeSlots(s, p, n)
    ensures Harmless(s, t, p, p + n, skipVolume)
  {
    if !AllDeleted(s, p, p + n) {
      var e: nat :| AllDeleted(s, p, e) && EndsAt(s, e) && e < p + n;
      var rs, q := Recs(s + t), p + n;
      assert RecOf(END_SLOT) == End;
      if q < |s| {
        assert Recs(s)[e] == RecOf(s[e]) && Recs(s)[q] == RecOf(s[q]) && rs[q] == RecOf((s + t)[q]);
      } else if q < |s + t| {
        assert rs[q] == RecOf((s + t)[q]);
      }
      assert AtEnd(rs, q);
    }
  }

  /**
    All slots of an entry written into free space, with no more appended than is needed. The list has
    the entry, and behind it what the slots there hold. Nothing else changes exactly if that is harmless.
    */
  lemma EntryPut(s: seq<Slot>, t: seq<Slot>, s': seq<Slot>, p: nat, name: seq<u16>, record: Slot, skipVolume: bool)
    returns (k: nat, item: Item)
    requires NameOk(name) && RecOf(record) == Short(record) && FreeSlots(s, p, Parts(|name|) + 1)
    requires WroteWith(s, t, s', p, EntrySlots(name, record)) && (t != [] ==> |s| < p + Parts(|name|) + 1)
    ensures item.record == record && item.name == Stripped(name) && item.end == p + Parts(|name|) + 1
    ensures PutIn(Listing(Recs(s), skipVolume), Listing(Recs(s'), skipVolume), k, item,
            Scan(Recs(s'), item.end, item.end, [], skipVolume))
    ensures Harmless(s, t, p, item.end, skipVolume)
            <==> Added(Listing(Recs(s), skipVolume), Listing(Recs(s'), skipVolume), k, item)
    ensures Harmless(s, t, p, item.end, skipVolume)
            <==> exists j, e :: Added(Listing(Recs(s), skipVolume), Listing(Recs(s'), skipVolume), j, e)
  {
    hide Scan, WroteWith, HasEntry, Tidy;
    var es, n := EntrySlots(name, record), Parts(|name|);
    var rs, rs', q := Recs(s), Recs(s'), p + n + 1;
    WroteBelow(s, t, s', p, es);
    WroteBehind(s, t, s', p, es);
    ScanSame(Recs(s + t), rs', q, q, [], skipVolume);
    FreeSlotsRecs(s, p, n + 1);
    EntryParts(s, t, s', p, name, record);
    var b, ps;
    k, b, ps := PutListed(rs, rs', p, name, record, 0, 0, [], skipVolume);
    item := Item(b, q, record, Stripped(name));
    if AllDeleted(s, p, q) {
      assert s + t == s;
      ScanDeleted(rs, p, q, b, ps, skipVolume);
    } else {
      var e: nat :| AllDeleted(s, p, e) && EndsAt(s, e) && e < q;
      ScanEndArea(rs, p, e, b, ps, skipVolume);
    }
    AddedOne(Listing(rs, skipVolume), Listing(rs', skipVolume), k, item, Scan(rs', q, q, [], skipVolume));
  }

  lemma EntryParts(s: seq<Slot>, t: seq<Slot>, s': seq<Slot>, p: nat, name: seq<u16>, record: Slot)
    requires NameOk(name) && RecOf(record) == Short(record) && WroteWith(s, t, s', p, EntrySlots(name, record))
    ensures HasEntry(Recs(s'), p, name, record)
  {
    var es, n := EntrySlots(name, record), Parts(|name|);
    var parts := NameParts(name, record);
    forall i | 0 <= i < n ensures PartAt(Recs(s'), p, parts, i) {
      assert s'[p + i] == es[i] == LfnSlot(parts[i]);
      PartSlotRec(name, record, i);
    }
    assert s'[p + n] == es[n] == record;
  }

  /** Only some parts written before the directory could not grow: the list is as before. */
  lemma EntryCutOff(s: seq<Slot>, t: seq<Slot>, s': seq<Slot>, p: nat, name: seq<u16>, record: Slot, n: nat,
                    skipVolume: bool)
    requires NameOk(name) && n <= Parts(|name|)
    requires FreeSlots(s, p, Parts(|name|) + 1) && WroteWith(s, t, s', p, EntrySlots(name, record)[..n])
             && p + n == |s'|
    ensures Listing(Recs(s'), skipVolume) == Listing(Recs(s), skipVolume)
  {
    var es := EntrySlots(name, record)[..n];
    WroteBelow(s, t, s', p, es);
    WroteParts(s, t, s', p, name, record, n);
    var e: nat :| AllDeleted(s, p, e) && EndsAt(s, e) && e < p + Parts(|name|) + 1;
    OrphansUnlisted(Recs(s), Recs(s'), p, NameParts(name, record)[..n], e, 0, 0, [], skipVolume);
  }

  /** The slots of an item marked deleted: the list loses exactly that item. */
  lemma EntryRemoved(s: seq<Slot>, s': seq<Slot>, skipVolume: bool, k: nat)
    requires k < |Listing(Recs(s), skipVolume)| && |s'| == |s|
    requires var item := Listing(Recs(s), skipVolume)[k];
             forall i {:trigger s'[i]} :: 0 <= i < |s|
               ==> s'[i] == if item.begin <= i < item.end then Deleted(s[i]) else s[i]
    ensures Removed(Listing(Recs(s), skipVolume), Listing(Recs(s'), skipVolume), k)
  {
    var item := Listing(Recs(s), skipVolume)[k];
    var rs, rs' := Recs(s), Recs(s');
    ItemBounds(rs, 0, 0, [], skipVolume, k);
    forall i | item.begin <= i < item.end ensures rs'[i] == Gone { DeletedRec(s[i]); }
    forall i | item.end <= i ensures SameAt(rs, rs', i) {
      if i < |rs| { assert rs[i] == RecOf(s[i]) && rs'[i] == RecOf(s'[i]); }
    }
    RemoveListed(rs, rs', 0, 0, [], skipVolume, k);
  }
}
