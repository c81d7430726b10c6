/**
  What iterating a directory yields: the entries with their long names. Records of an entry that are
  put into free space put that entry into the list, and marking an entry's records as deleted takes
  exactly that entry out.
  */
module Listings {

  import opened Bytes
  import opened LongNames
  import opened DirEntries

  /** A directory record as iteration sees it. */
  datatype Rec = End | Gone | LongPart(part: Part) | Volume(record: Slot) | Short(record: Slot)

  /** An entry that iteration yields: its records are `begin` to `end`, the last one has the short name. */
  datatype Item = Item(begin: nat, end: nat, record: Slot, name: seq<u16>)

  // ---------------------------------------------------------------- iteration

  predicate Skipped(r: Rec, skipVolume: bool) {
    r == Gone || (skipVolume && r.Volume?)
  }

  predicate AtEnd(rs: seq<Rec>, i: nat) {
    i >= |rs| || rs[i] == End
  }

  ghost function NameFor(parts: seq<Part>, record: Slot): seq<u16> {
    NameOf(parts, Checksum(record[..SFN_SIZE]))
  }

  /** Iteration from record `i` on, with the long-name parts seen since record `begin`. */
  ghost function Scan(rs: seq<Rec>, i: nat, begin: nat, parts: seq<Part>, skipVolume: bool): (items: seq<Item>)
    decreases |rs| - i
  {
    if AtEnd(rs, i) then []
    else if Skipped(rs[i], skipVolume) then Scan(rs, i + 1, i + 1, [], skipVolume)
    else if rs[i].LongPart? then Scan(rs, i + 1, begin, parts + [rs[i].part], skipVolume)
    else [Item(begin, i + 1, rs[i].record, NameFor(parts, rs[i].record))] + Scan(rs, i + 1, i + 1, [], skipVolume)
  }

  ghost function Listing(rs: seq<Rec>, skipVolume: bool): seq<Item> {
    Scan(rs, 0, 0, [], skipVolume)
  }

  // ---------------------------------------------------------------- free space

  /** Records `p` to `e` are deleted. */
  ghost predicate DeletedRun(rs: seq<Rec>, p: nat, e: nat) {
    p <= e <= |rs| && forall i :: p <= i < e ==> rs[i] == Gone
  }

  /** There is no end mark before record `p`. */
  ghost predicate InUseBelow(rs: seq<Rec>, p: nat) {
    p <= |rs| && forall i :: 0 <= i < p ==> rs[i] != End
  }

  /** Everything behind the first end mark is an end mark, too. */
  ghost predicate Tidy(rs: seq<Rec>) {
    forall i, j :: 0 <= i < j < |rs| && rs[i] == End ==> rs[j] == End
  }

  /** From `p` on there are deleted records and then the end of the directory. */
  ghost predicate EndArea(rs: seq<Rec>, p: nat, e: nat) {
    DeletedRun(rs, p, e) && AtEnd(rs, e)
  }

  /** `p` is where `n` records can be put: onto deleted ones, or onto the end and deleted ones before it. */
  ghost predicate FreeSpace(rs: seq<Rec>, p: nat, n: nat) {
    InUseBelow(rs, p) && (DeletedRun(rs, p, p + n) || exists e: nat :: EndArea(rs, p, e) && e < p + n)
  }

  lemma {:induction false} ScanDeleted(rs: seq<Rec>, p: nat, e: nat, begin: nat, parts: seq<Part>, skipVolume: bool)
    requires DeletedRun(rs, p, e) && p < e
    ensures Scan(rs, p, begin, parts, skipVolume) == Scan(rs, e, e, [], skipVolume)
    decreases e - p
  {
    if p + 1 < e { ScanDeleted(rs, p + 1, e, p + 1, [], skipVolume); }
  }

  /** A scan that reaches deleted records and then the end yields nothing. */
  lemma ScanEndArea(rs: seq<Rec>, p: nat, e: nat, begin: nat, parts: seq<Part>, skipVolume: bool)
    requires EndArea(rs, p, e)
    ensures Scan(rs, p, begin, parts, skipVolume) == []
  {
    if p < e { ScanDeleted(rs, p, e, begin, parts, skipVolume); }
  }

  /** A scan that comes to a short name before the end yields something. */
  lemma {:induction false} ScanReaches(rs: seq<Rec>, i: nat, j: nat, begin: nat, parts: seq<Part>, skipVolume: bool)
    requires i <= j < |rs| && rs[j].Short? && forall m :: i <= m < j ==> rs[m] != End
    ensures Scan(rs, i, begin, parts, skipVolume) != []
    decreases j - i
  {
    if i < j {
      var next := i + 1;
      if Skipped(rs[i], skipVolume) {
        ScanReaches(rs, next, j, next, [], skipVolume);
      } else if rs[i].LongPart? {
        ScanReaches(rs, next, j, begin, parts + [rs[i].part], skipVolume);
      }
    }
  }

  // ---------------------------------------------------------------- an entry's records

  /** The parts `es` of a long name are at `p`. */
  ghost predicate HasParts(rs: seq<Rec>, p: nat, es: seq<Part>) {
    p + |es| <= |rs| && forall i :: 0 <= i < |es| ==> PartAt(rs, p, es, i)
  }

  ghost predicate PartAt(rs: seq<Rec>, p: nat, es: seq<Part>, i: nat)
    requires i < |es| && p + |es| <= |rs|
  {
    rs[p + i] == LongPart(es[i])
  }

  lemma {:induction false} ScanParts(rs: seq<Rec>, p: nat, es: seq<Part>, begin: nat, parts: seq<Part>,
                                     skipVolume: bool)
    requires HasParts(rs, p, es)
    ensures Scan(rs, p, begin, parts, skipVolume) == Scan(rs, p + |es|, begin, parts + es, skipVolume)
    decreases |es|
  {
    if es == [] {
      assert parts + es == parts;
    } else {
      assert PartAt(rs, p, es, 0);
      var next, rest := p + 1, es[1..];
      forall i | 0 <= i < |rest| ensures PartAt(rs, next, rest, i) { assert PartAt(rs, p, es, i + 1); }
      ScanParts(rs, next, rest, begin, parts + [es[0]], skipVolume);
      assert parts + [es[0]] + rest == parts + es;
    }
  }

  predicate NameOk(name: seq<u16>) {
    0 < |name| <= 255
  }

  function NameParts(name: seq<u16>, record: Slot): (es: seq<Part>)
    requires NameOk(name)
    ensures |es| == Parts(|name|)
  {
    Generate(name, Checksum(record[..SFN_SIZE]))
  }

  /** The records of an entry are at `p`: the parts of its long name, then its short name. */
  ghost predicate HasEntry(rs: seq<Rec>, p: nat, name: seq<u16>, record: Slot)
    requires NameOk(name)
  {
    var n := Parts(|name|);
    p + n < |rs| && HasParts(rs, p, NameParts(name, record)) && rs[p + n] == Short(record)
  }

  lemma NameAfterParts(parts: seq<Part>, name: seq<u16>, record: Slot)
    requires NameOk(name)
    ensures NameFor(parts + NameParts(name, record), record) == Stripped(name)
  {
    var c := Checksum(record[..SFN_SIZE]);
    GeneratedName(parts, name, c, c);
  }

  lemma ScanShort(rs: seq<Rec>, i: nat, begin: nat, parts: seq<Part>, skipVolume: bool)
    requires i < |rs| && rs[i].Short?
    ensures Scan(rs, i, begin, parts, skipVolume)
         == [Item(begin, i + 1, rs[i].record, NameFor(parts, rs[i].record))] + Scan(rs, i + 1, i + 1, [], skipVolume)
  {
  }

  /** Whatever parts were seen before, the scan yields the entry with its name and goes on behind it. */
  lemma ScanEntry(rs: seq<Rec>, p: nat, name: seq<u16>, record: Slot, begin: nat, parts: seq<Part>, skipVolume: bool)
    requires NameOk(name) && HasEntry(rs, p, name, record)
    ensures var q := p + Parts(|name|) + 1;
            Scan(rs, p, begin, parts, skipVolume)
              == [Item(begin, q, record, Stripped(name))] + Scan(rs, q, q, [], skipVolume)
  {
    var es, i := NameParts(name, record), p + Parts(|name|);
    ScanParts(rs, p, es, begin, parts, skipVolume);
    ScanShort(rs, i, begin, parts + es, skipVolume);
    NameAfterParts(parts, name, record);
  }

  // ---------------------------------------------------------------- adding an entry

  /** From `q` on the directories are the same; one may have more end marks behind its end. */
  ghost predicate SameBehind(rs: seq<Rec>, rs': seq<Rec>, q: nat) {
    forall i :: q <= i ==> SameAt(rs, rs', i)
  }

  ghost predicate SameAt(rs: seq<Rec>, rs': seq<Rec>, i: nat) {
    (AtEnd(rs, i) <==> AtEnd(rs', i)) && (!AtEnd(rs, i) ==> rs[i] == rs'[i])
  }

  ghost predicate SameBelow(rs: seq<Rec>, rs': seq<Rec>, p: nat) {
    p <= |rs| && p <= |rs'| && forall i :: 0 <= i < p ==> rs[i] == rs'[i]
  }

  lemma {:induction false} ScanSame(rs: seq<Rec>, rs': seq<Rec>, i: nat, begin: nat, parts: seq<Part>, skipVolume: bool)
    requires SameBehind(rs, rs', i)
    ensures Scan(rs', i, begin, parts, skipVolume) == Scan(rs, i, begin, parts, skipVolume)
    decreases |rs| - i
  {
    assert SameAt(rs, rs', i);
    if !AtEnd(rs, i) {
      var next := i + 1;
      assert SameBehind(rs, rs', next);
      if Skipped(rs[i], skipVolume) {
        ScanSame(rs, rs', next, next, [], skipVolume);
      } else if rs[i].LongPart? {
        ScanSame(rs, rs', next, begin, parts + [rs[i].part], skipVolume);
      } else {
        ScanSame(rs, rs', next, next, [], skipVolume);
      }
    }
  }

  /** `now` are the first `k` items of `was`, `item`, and then `behind`. */
  ghost predicate PutIn(was: seq<Item>, now: seq<Item>, k: nat, item: Item, behind: seq<Item>) {
    k <= |was| && now == was[..k] + [item] + behind
  }

  /** `now` is `was` with `item` put in at `k`. */
  ghost predicate Added(was: seq<Item>, now: seq<Item>, k: nat, item: Item) {
    k <= |was| && PutIn(was, now, k, item, was[k..])
  }

  /** Behind the items that were there before only the rest of them may follow, if one item is to be added. */
  lemma AddedOne(was: seq<Item>, now: seq<Item>, k: nat, item: Item, behind: seq<Item>)
    requires PutIn(was, now, k, item, behind) && (behind == was[k..] || k == |was|)
    ensures Added(was, now, k, item) <==> behind == was[k..]
    ensures behind == was[k..] <==> exists j, e :: Added(was, now, j, e)
  {
    assert now[k + 1..] == behind;
    if j, e :| Added(was, now, j, e) { assert |now| == |was| + 1; }
  }

  /**
    Records of an entry put behind others: up to there the scan yields what it did before, then the
    entry, then whatever is behind. `b` and `ps` are what is pending where the entry is put.
    */
  lemma {:induction false} PutListed(rs: seq<Rec>, rs': seq<Rec>, p: nat, name: seq<u16>, record: Slot,
                                     i: nat, begin: nat, parts: seq<Part>, skipVolume: bool)
                                       returns (k: nat, b: nat, ps: seq<Part>)
    requires NameOk(name) && HasEntry(rs', p, name, record) && InUseBelow(rs, p) && SameBelow(rs, rs', p) && i <= p
    ensures var was, q := Scan(rs, i, begin, parts, skipVolume), p + Parts(|name|) + 1;
            && k <= |was| && was[k..] == Scan(rs, p, b, ps, skipVolume)
            && Scan(rs', i, begin, parts, skipVolume)
               == was[..k] + [Item(b, q, record, Stripped(name))] + Scan(rs', q, q, [], skipVolume)
    decreases p - i
  {
    if i == p {
      ScanEntry(rs', p, name, record, begin, parts, skipVolume);
      k, b, ps := 0, begin, parts;
    } else {
      assert rs[i] == rs'[i] && rs[i] != End;
      var next := i + 1;
      if Skipped(rs[i], skipVolume) {
        k, b, ps := PutListed(rs, rs', p, name, record, next, next, [], skipVolume);
      } else if rs[i].LongPart? {
        k, b, ps := PutListed(rs, rs', p, name, record, next, begin, parts + [rs[i].part], skipVolume);
      } else {
        k, b, ps := PutListed(rs, rs', p, name, record, next, next, [], skipVolume);
        k := k + 1;
      }
    }
  }

  /** Parts written at the end without a short name behind them change nothing that is listed. */
  lemma {:induction false} OrphansUnlisted(rs: seq<Rec>, rs': seq<Rec>, p: nat, es: seq<Part>, e: nat,
                                           i: nat, begin: nat, parts: seq<Part>, skipVolume: bool)
    requires InUseBelow(rs, p) && EndArea(rs, p, e) && i <= p
    requires HasParts(rs', p, es) && AtEnd(rs', p + |es|) && SameBelow(rs, rs', p)
    ensures Scan(rs', i, begin, parts, skipVolume) == Scan(rs, i, begin, parts, skipVolume)
    decreases p - i
  {
    if i == p {
      ScanEndArea(rs, p, e, begin, parts, skipVolume);
      ScanParts(rs', p, es, begin, parts, skipVolume);
    } else {
      assert rs[i] == rs'[i] && rs[i] != End;
      var next := i + 1;
      if Skipped(rs[i], skipVolume) {
        OrphansUnlisted(rs, rs', p, es, e, next, next, [], skipVolume);
      } else if rs[i].LongPart? {
        OrphansUnlisted(rs, rs', p, es, e, next, begin, parts + [rs[i].part], skipVolume);
      } else {
        OrphansUnlisted(rs, rs', p, es, e, next, next, [], skipVolume);
      }
    }
  }

  // ---------------------------------------------------------------- removing an entry

  /** The items of a scan start where the scan's pending parts start, or behind. */
  lemma {:induction false} ItemBounds(rs: seq<Rec>, i: nat, begin: nat, parts: seq<Part>, skipVolume: bool, k: nat)
    requires begin <= i && k < |Scan(rs, i, begin, parts, skipVolume)|
    ensures var item := Scan(rs, i, begin, parts, skipVolume)[k];
            && ((k == 0 && item.begin == begin) || item.begin > i)
            && i < item.end <= |rs| && item.begin < item.end
    decreases |rs| - i
  {
    var next := i + 1;
    if Skipped(rs[i], skipVolume) {
      ItemBounds(rs, next, next, [], skipVolume, k);
    } else if rs[i].LongPart? {
      ItemBounds(rs, next, begin, parts + [rs[i].part], skipVolume, k);
    } else if k > 0 {
      ItemBounds(rs, next, next, [], skipVolume, k - 1);
    }
  }

  /** An item's last record is its short name. */
  lemma {:induction false} ItemInUse(rs: seq<Rec>, i: nat, begin: nat, parts: seq<Part>, skipVolume: bool, k: nat)
    requires k < |Scan(rs, i, begin, parts, skipVolume)|
    ensures var item := Scan(rs, i, begin, parts, skipVolume)[k];
            0 < item.end <= |rs| && (rs[item.end - 1] == Short(item.record) || rs[item.end - 1] == Volume(item.record))
    decreases |rs| - i
  {
    var next := i + 1;
    if Skipped(rs[i], skipVolume) {
      ItemInUse(rs, next, next, [], skipVolume, k);
    } else if rs[i].LongPart? {
      ItemInUse(rs, next, begin, parts + [rs[i].part], skipVolume, k);
    } else if k > 0 {
      ItemInUse(rs, next, next, [], skipVolume, k - 1);
    }
  }

  /** Behind its first item a scan goes on from a clean state. */
  lemma {:induction false} FirstItem(rs: seq<Rec>, i: nat, begin: nat, parts: seq<Part>, skipVolume: bool)
    requires Scan(rs, i, begin, parts, skipVolume) != []
    ensures var items := Scan(rs, i, begin, parts, skipVolume);
            items[1..] == Scan(rs, items[0].end, items[0].end, [], skipVolume)
    decreases |rs| - i
  {
    var next := i + 1;
    if Skipped(rs[i], skipVolume) {
      FirstItem(rs, next, next, [], skipVolume);
    } else if rs[i].LongPart? {
      FirstItem(rs, next, begin, parts + [rs[i].part], skipVolume);
    }
  }

  lemma ScanNext(rs: seq<Rec>, i: nat, skipVolume: bool, items: seq<Item>)
    requires items == Scan(rs, i, i, [], skipVolume) && items != []
    ensures i < items[0].end <= |rs| && items == [items[0]] + Scan(rs, items[0].end, items[0].end, [], skipVolume)
  {
    ItemBounds(rs, i, i, [], skipVolume, 0);
    FirstItem(rs, i, i, [], skipVolume);
    assert items == [items[0]] + items[1..];
  }

  ghost predicate Removed(was: seq<Item>, now: seq<Item>, k: nat) {
    k < |was| && now == was[..k] + was[k + 1..]
  }

  /** Marking the records of an item as deleted takes exactly that item out of the list. */
  lemma {:induction false} RemoveListed(rs: seq<Rec>, rs': seq<Rec>, i: nat, begin: nat, parts: seq<Part>,
                                        skipVolume: bool, k: nat)
    requires begin <= i && k < |Scan(rs, i, begin, parts, skipVolume)|
    requires var item := Scan(rs, i, begin, parts, skipVolume)[k];
             && (item.begin > begin || (i == begin && parts == []))
             && SameBelow(rs, rs', item.begin) && DeletedRun(rs', item.begin, item.end) && SameBehind(rs, rs', item.end)
    ensures Removed(Scan(rs, i, begin, parts, skipVolume), Scan(rs', i, begin, parts, skipVolume), k)
    decreases |rs| - i
  {
    var items := Scan(rs, i, begin, parts, skipVolume);
    var item := items[k];
    ItemBounds(rs, i, begin, parts, skipVolume, k);
    if item.begin == begin {
      FirstItem(rs, i, begin, parts, skipVolume);
      ScanDeleted(rs', begin, item.end, begin, [], skipVolume);
      ScanSame(rs, rs', item.end, item.end, [], skipVolume);
    } else {
      assert rs'[i] == rs[i];
      var next := i + 1;
      if Skipped(rs[i], skipVolume) {
        ItemBounds(rs, next, next, [], skipVolume, k);
        RemoveListed(rs, rs', next, next, [], skipVolume, k);
      } else if rs[i].LongPart? {
        RemoveListed(rs, rs', next, begin, parts + [rs[i].part], skipVolume, k);
      } else {
        ItemBounds(rs, next, next, [], skipVolume, k - 1);
        RemoveListed(rs, rs', next, next, [], skipVolume, k - 1);
      }
    }
  }
}
