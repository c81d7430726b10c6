/**
  Reservation of address ranges: a sorted array of reserved ranges that is edited in place, a
  first-fit search over the gaps between them, and release by binary search. Addresses are machine
  words and their arithmetic wraps.
  */
module AddressRanges {

  import opened Options

  const PAGE: nat := 4096
  const WORD: nat := 0x1_0000_0000_0000_0000
  /** The last address of the page at address 0, which is never handed out. */
  const NULL_PAGE_END: nat := PAGE - 1

  datatype ReserveError = NoMemory | NoSpace

  datatype UnreserveError = InvalidAddress

  /** The addresses `start` to `end`, both included. */
  datatype Range = Range(start: nat, end: nat)

  // ---------------------------------------------------------------- sorted lists of ranges

  /** The last address before gap `i`, the gap below range `i`. */
  function PrevEnd(rs: seq<Range>, i: nat): nat
    requires i <= |rs|
  {
    if i == 0 then NULL_PAGE_END else rs[i - 1].end
  }

  ghost predicate RangeOk(rs: seq<Range>, i: nat)
    requires i < |rs|
  {
    && PrevEnd(rs, i) < rs[i].start <= rs[i].end < WORD
    && rs[i].start % PAGE == 0 && (rs[i].end + 1) % PAGE == 0
  }

  /** Whole pages, in order, not overlapping, none on the first page. */
  ghost predicate Sorted(rs: seq<Range>) {
    forall i :: 0 <= i < |rs| ==> RangeOk(rs, i)
  }

  lemma {:induction false} EndsGrow(rs: seq<Range>, i: nat, j: nat)
    requires Sorted(rs) && i <= j <= |rs|
    ensures NULL_PAGE_END <= PrevEnd(rs, i) <= PrevEnd(rs, j) < WORD && (PrevEnd(rs, i) + 1) % PAGE == 0
  {
    if i < j {
      EndsGrow(rs, i, j - 1);
      assert RangeOk(rs, j - 1);
    } else if i > 0 {
      assert RangeOk(rs, i - 1);
      EndsGrow(rs, i - 1, i - 1);
    }
  }

  lemma StartsGrow(rs: seq<Range>, i: nat, j: nat)
    requires Sorted(rs) && i < j < |rs|
    ensures rs[i].end < rs[j].start && rs[i].start < rs[j].start
  {
    assert RangeOk(rs, i) && RangeOk(rs, j);
    EndsGrow(rs, i + 1, j);
  }

  function Inserted(rs: seq<Range>, i: nat, r: Range): seq<Range>
    requires i <= |rs|
  {
    rs[..i] + [r] + rs[i..]
  }

  function Removed(rs: seq<Range>, i: nat): seq<Range>
    requires i < |rs|
  {
    rs[..i] + rs[i + 1..]
  }

  // ---------------------------------------------------------------- the search

  /** `len` bytes lie in gap `i`. */
  predicate Fits(rs: seq<Range>, i: nat, len: nat)
    requires i < |rs|
  {
    PrevEnd(rs, i) + len < rs[i].start
  }

  /** The test of the search, on wrapping addresses. */
  predicate Hit(rs: seq<Range>, i: nat, len: nat)
    requires i < |rs| && len > 0
  {
    var start := (PrevEnd(rs, i) + 1) % WORD;
    var end := (start + len - 1) % WORD;
    PrevEnd(rs, i) < start && end < rs[i].start
  }

  /** The first hit from gap `i` on; the search stops below the last range. */
  function FirstHit(rs: seq<Range>, len: nat, i: nat): (r: Option<nat>)
    requires len > 0 && i <= |rs|
    ensures r.Some? ==> i <= r.value < |rs| && Hit(rs, r.value, len)
                        && forall k :: i <= k < r.value ==> !Hit(rs, k, len)
    ensures r.None? ==> forall k :: i <= k < |rs| ==> !Hit(rs, k, len)
    decreases |rs| - i
  {
    if i == |rs| then None else if Hit(rs, i, len) then Some(i) else FirstHit(rs, len, i + 1)
  }

  /** The end of the wanted range would be beyond the last address. */
  predicate Wraps(rs: seq<Range>, i: nat, len: nat)
    requires i < |rs|
  {
    PrevEnd(rs, i) + len >= WORD
  }

  /** A wrapped end address is small, so the test takes every gap that wraps for one that fits. */
  lemma HitIff(rs: seq<Range>, i: nat, len: nat)
    requires Sorted(rs) && i < |rs| && 0 < len < WORD
    ensures Hit(rs, i, len) <==> Fits(rs, i, len) || Wraps(rs, i, len)
    ensures !(Fits(rs, i, len) && Wraps(rs, i, len))
  {
    assert RangeOk(rs, i);
    EndsGrow(rs, i, i);
  }

  /** Some gap fits, or the range would not wrap even in the last gap. */
  ghost predicate Safe(rs: seq<Range>, len: nat) {
    rs == [] || !Wraps(rs, |rs| - 1, len) || exists k :: 0 <= k < |rs| && Fits(rs, k, len)
  }

  /**
    The search finds the lowest gap that fits, or nothing if none does, exactly if the
    request is safe.
    */
  lemma SearchIsFirstFit(rs: seq<Range>, len: nat)
    requires Sorted(rs) && 0 < len < WORD
    ensures (match FirstHit(rs, len, 0)
             case Some(i) => Fits(rs, i, len) && forall k :: 0 <= k < i ==> !Fits(rs, k, len)
             case None => forall k :: 0 <= k < |rs| ==> !Fits(rs, k, len))
            <==> Safe(rs, len)
  {
    var r := FirstHit(rs, len, 0);
    forall k | 0 <= k < |rs| ensures Hit(rs, k, len) <==> Fits(rs, k, len) || Wraps(rs, k, len) { HitIff(rs, k, len); }
    forall j, k | 0 <= j <= k < |rs| && Wraps(rs, j, len) ensures Wraps(rs, k, len) && !Fits(rs, k, len) {
      EndsGrow(rs, j, k);
      HitIff(rs, k, len);
    }
    if r.Some? && !Fits(rs, r.value, len) {
      assert Wraps(rs, |rs| - 1, len);
    }
  }

  /** With a range at the very top of the address space a request that fits nowhere is granted over it. */
  lemma WrappingRequestGranted()
    ensures var rs := [Range(WORD - 2 * PAGE, WORD - PAGE - 1), Range(WORD - PAGE, WORD - 1)];
            && Sorted(rs) && FirstHit(rs, WORD - PAGE, 0) == Some(1)
            && !Fits(rs, 1, WORD - PAGE)
            && !Sorted(Inserted(rs, 1, Range(PrevEnd(rs, 1) + 1, (PrevEnd(rs, 1) + WORD - PAGE) % WORD)))
  {
    var rs := [Range(WORD - 2 * PAGE, WORD - PAGE - 1), Range(WORD - PAGE, WORD - 1)];
    assert RangeOk(rs, 0) && RangeOk(rs, 1);
    assert !Hit(rs, 0, WORD - PAGE);
    assert Hit(rs, 1, WORD - PAGE);
    var rs' := Inserted(rs, 1, Range(PrevEnd(rs, 1) + 1, (PrevEnd(rs, 1) + WORD - PAGE) % WORD));
    assert !RangeOk(rs', 1);
  }

  // ---------------------------------------------------------------- what the search means

  /** The addresses from `s` on are unreserved, off the first page, and below the last range. */
  ghost predicate Available(rs: seq<Range>, s: nat, len: nat) {
    && rs != [] && s > NULL_PAGE_END && s + len <= rs[|rs| - 1].start
    && forall i :: 0 <= i < |rs| ==> s + len <= rs[i].start || rs[i].end < s
  }

  lemma FitIsAvailable(rs: seq<Range>, i: nat, len: nat)
    requires Sorted(rs) && i < |rs| && len > 0 && Fits(rs, i, len)
    ensures Available(rs, PrevEnd(rs, i) + 1, len)
  {
    var s := PrevEnd(rs, i) + 1;
    EndsGrow(rs, i, i);
    if i < |rs| - 1 { StartsGrow(rs, i, |rs| - 1); }
    forall k | 0 <= k < |rs| ensures s + len <= rs[k].start || rs[k].end < s {
      if k < i { EndsGrow(rs, k + 1, i); } else if i < k { StartsGrow(rs, i, k); }
    }
  }

  /** Every available address lies in a gap that fits. */
  lemma {:induction false} AvailableInGap(rs: seq<Range>, s: nat, len: nat, i: nat) returns (k: nat)
    requires Sorted(rs) && len > 0 && Available(rs, s, len) && i < |rs| && PrevEnd(rs, i) < s
    ensures i <= k < |rs| && Fits(rs, k, len) && PrevEnd(rs, k) < s
    decreases |rs| - i
  {
    if s + len <= rs[i].start {
      k := i;
    } else {
      assert rs[i].end < s && i < |rs| - 1;
      k := AvailableInGap(rs, s, len, i + 1);
    }
  }

  /** A granted address is the lowest available one, and a request is denied only if there is none. */
  lemma LowestAvailable(rs: seq<Range>, len: nat, s: nat)
    requires Sorted(rs) && 0 < len < WORD && Available(rs, s, len)
    ensures FirstHit(rs, len, 0).Some?
    ensures var i := FirstHit(rs, len, 0).value;
            Fits(rs, i, len) && Available(rs, PrevEnd(rs, i) + 1, len) && PrevEnd(rs, i) + 1 <= s
  {
    var k := AvailableInGap(rs, s, len, 0);
    SearchIsFirstFit(rs, len);
    HitIff(rs, k, len);
    var i := FirstHit(rs, len, 0).value;
    EndsGrow(rs, i, k);
    FitIsAvailable(rs, i, len);
  }

  /** For a safe request the outcome of the search says whether any address is available. */
  lemma SearchMeaning(rs: seq<Range>, len: nat)
    requires Sorted(rs) && 0 < len < WORD && Safe(rs, len)
    ensures FirstHit(rs, len, 0).None? <==> forall s :: !Available(rs, s, len)
    ensures FirstHit(rs, len, 0).Some? ==>
              var i := FirstHit(rs, len, 0).value;
              Fits(rs, i, len) && Available(rs, PrevEnd(rs, i) + 1, len)
              && forall s :: Available(rs, s, len) ==> PrevEnd(rs, i) + 1 <= s
  {
    SearchIsFirstFit(rs, len);
    forall s: nat | Available(rs, s, len)
      ensures FirstHit(rs, len, 0).Some? && PrevEnd(rs, FirstHit(rs, len, 0).value) + 1 <= s
    {
      LowestAvailable(rs, len, s);
    }
    if FirstHit(rs, len, 0).Some? { FitIsAvailable(rs, FirstHit(rs, len, 0).value, len); }
  }

  // ---------------------------------------------------------------- inserting and removing

  /** The range the search puts into gap `i`. */
  function Granted(rs: seq<Range>, i: nat, len: nat): Range
    requires i < |rs| && len > 0
  {
    var start := (PrevEnd(rs, i) + 1) % WORD;
    Range(start, (start + len - 1) % WORD)
  }

  /** In a gap that fits nothing wraps. */
  lemma GrantedFits(rs: seq<Range>, i: nat, len: nat)
    requires Sorted(rs) && i < |rs| && len > 0 && Fits(rs, i, len)
    ensures Granted(rs, i, len) == Range(PrevEnd(rs, i) + 1, PrevEnd(rs, i) + len)
  {
    assert RangeOk(rs, i);
  }

  lemma InsertSorted(rs: seq<Range>, i: nat, len: nat)
    requires Sorted(rs) && i < |rs| && len > 0 && len % PAGE == 0 && Fits(rs, i, len)
    ensures Sorted(Inserted(rs, i, Granted(rs, i, len)))
  {
    var rs' := Inserted(rs, i, Granted(rs, i, len));
    EndsGrow(rs, i, i);
    assert RangeOk(rs, i);
    GrantedFits(rs, i, len);
    assert rs'[i].start % PAGE == 0 && (rs'[i].end + 1) % PAGE == 0;
    forall k | 0 <= k < |rs'| ensures RangeOk(rs', k) {
      if k < i { assert RangeOk(rs, k); } else if k > i { assert RangeOk(rs, k - 1); }
    }
  }

  lemma RemoveSorted(rs: seq<Range>, i: nat)
    requires Sorted(rs) && i < |rs|
    ensures Sorted(Removed(rs, i))
  {
    var rs' := Removed(rs, i);
    forall k | 0 <= k < |rs'| ensures RangeOk(rs', k) {
      if k < i {
        assert RangeOk(rs, k);
      } else {
        assert RangeOk(rs, k + 1) && RangeOk(rs, i);
      }
    }
  }

  /** The granted range is found again by its start, and taking it out restores the list. */
  lemma RemoveUndoesInsert(rs: seq<Range>, i: nat, len: nat, k: nat)
    requires Sorted(rs) && i < |rs| && len > 0 && len % PAGE == 0 && Fits(rs, i, len)
    requires k <= |rs| && Inserted(rs, i, Granted(rs, i, len))[k].start == Granted(rs, i, len).start
    ensures k == i && Removed(Inserted(rs, i, Granted(rs, i, len)), k) == rs
  {
    var rs' := Inserted(rs, i, Granted(rs, i, len));
    InsertSorted(rs, i, len);
    if k < i { StartsGrow(rs', k, i); } else if i < k { StartsGrow(rs', i, k); }
  }

  /** The answer to a request says what is available: the lowest address, or that there is none. */
  ghost predicate Served(rs: seq<Range>, len: nat, r: Result<nat, ReserveError>) {
    && (r == Err(NoSpace) <==> forall s :: !Available(rs, s, len))
    && (r.Ok? ==> Available(rs, r.value, len) && forall s :: Available(rs, s, len) ==> r.value <= s)
  }

  lemma SafeIsServed(rs: seq<Range>, len: nat, r: Result<nat, ReserveError>)
    requires Sorted(rs) && 0 < len < WORD && len % PAGE == 0 && Safe(rs, len)
    requires FirstHit(rs, len, 0).None? <==> r == Err(NoSpace)
    requires r.Ok? ==> r.value == Granted(rs, FirstHit(rs, len, 0).value, len).start
    ensures Served(rs, len, r)
    ensures FirstHit(rs, len, 0).Some? ==>
              var i := FirstHit(rs, len, 0).value;
              Sorted(Inserted(rs, i, Granted(rs, i, len)))
  {
    SearchMeaning(rs, len);
    if FirstHit(rs, len, 0).Some? {
      GrantedFits(rs, FirstHit(rs, len, 0).value, len);
      InsertSorted(rs, FirstHit(rs, len, 0).value, len);
    }
  }

  class Reservations {
    const entries: array<Range>
    var count: nat

    ghost predicate Valid()
      reads this, entries
    {
      count <= entries.Length && Sorted(entries[..count])
    }

    ghost function List(): seq<Range>
      requires count <= entries.Length
      reads this, entries
    {
      entries[..count]
    }

    constructor (capacity: nat, initial: seq<Range>)
      requires Sorted(initial) && |initial| <= capacity
      ensures Valid() && List() == initial && entries.Length == capacity && fresh(entries)
    {
      entries := new Range[capacity](i => if 0 <= i < |initial| then initial[i] else Range(0, 0));
      count := |initial|;
      new;
      assert entries[..count] == initial;
    }

    /** Shifts the entries from `index` on up by one and writes the new one; fails if the array is full. */
    method InsertEntry(index: nat, r: Range) returns (ok: bool)
      requires index < count <= entries.Length
      modifies this`count, entries
      ensures count <= entries.Length && (ok <==> old(count) < entries.Length)
      ensures List() == if ok then Inserted(old(List()), index, r) else old(List())
    {
      ok := count < entries.Length;
      if ok {
        var i := count;
        count := count + 1;
        while i > index
          invariant index <= i <= old(count) && count == old(count) + 1
          invariant forall k :: 0 <= k <= i && k < old(count) ==> entries[k] == old(entries[k])
          invariant forall k :: i < k < count ==> entries[k] == old(entries[k - 1])
        {
          entries[i] := entries[i - 1];
          i := i - 1;
        }
        entries[index] := r;
        ghost var rs' := Inserted(old(List()), index, r);
        forall k | 0 <= k < count ensures entries[k] == rs'[k] {
        }
      }
    }

    /** The first gap the search accepts. */
    method FindGap(len: nat) returns (i: nat)
      requires count <= entries.Length && len > 0
      ensures i <= count && FirstHit(List(), len, 0) == if i < count then Some(i) else None
    {
      ghost var rs := List();
      var prevEnd := NULL_PAGE_END;
      i := 0;
      while i < count
        invariant i <= count && prevEnd == PrevEnd(rs, i) && FirstHit(rs, len, 0) == FirstHit(rs, len, i)
      {
        var mm := entries[i];
        var start := (prevEnd + 1) % WORD;
        var end := (start + len - 1) % WORD;
        if prevEnd < start && end < mm.start { return; }
        prevEnd := mm.end;
        i := i + 1;
      }
    }

    /**
      Reserves `pages` pages. For a safe request that is the lowest address with room below an
      existing reservation, NoSpace means that there is none, and the list stays sorted.
      */
    method Reserve(pages: nat) returns (r: Result<nat, ReserveError>, ghost i: nat)
      requires Valid() && pages > 0 && pages * PAGE < WORD
      modifies this`count, entries
      ensures count <= entries.Length && i <= old(count)
      ensures FirstHit(old(List()), pages * PAGE, 0) == if i < old(count) then Some(i) else None
      ensures r == Err(NoSpace) <==> i == old(count)
      ensures r == Err(NoMemory) <==> i < old(count) == entries.Length
      ensures r.Err? ==> List() == old(List())
      ensures r.Ok? ==> r.value == Granted(old(List()), i, pages * PAGE).start
      ensures r.Ok? ==> List() == Inserted(old(List()), i, Granted(old(List()), i, pages * PAGE))
      ensures Safe(old(List()), pages * PAGE) ==> Valid() && Served(old(List()), pages * PAGE, r)
    {
      var len := pages * PAGE;
      ghost var rs := List();
      var gap := FindGap(len);
      i := gap;
      r := Err(NoSpace);
      if gap < count {
        var prevEnd := if gap == 0 then NULL_PAGE_END else entries[gap - 1].end;
        var start := (prevEnd + 1) % WORD;
        var ok := InsertEntry(gap, Range(start, (start + len - 1) % WORD));
        r := if ok then Ok(start) else Err(NoMemory);
      }
      if Safe(rs, len) { SafeIsServed(rs, len, r); }
    }

    /** The entry that starts at the address, if there is one. */
    method BinarySearch(address: nat) returns (i: Option<nat>)
      requires Valid()
      ensures i.Some? ==> i.value < count && entries[i.value].start == address
      ensures i.None? ==> forall k :: 0 <= k < count ==> entries[k].start != address
    {
      ghost var rs := List();
      var lo, hi := 0, count;
      while lo < hi
        invariant lo <= hi <= count
        invariant forall k :: 0 <= k < lo ==> rs[k].start < address
        invariant forall k :: hi <= k < count ==> address < rs[k].start
      {
        var mid := (lo + hi) / 2;
        if entries[mid].start == address { return Some(mid); }
        forall k | 0 <= k < mid ensures rs[k].start < rs[mid].start { StartsGrow(rs, k, mid); }
        forall k | mid < k < count ensures rs[mid].start < rs[k].start { StartsGrow(rs, mid, k); }
        if entries[mid].start < address {
          lo := mid + 1;
        } else {
          hi := mid;
        }
      }
      i := None;
    }

    /** Takes the entry that starts at the address out and closes the hole. */
    method Unreserve(address: nat) returns (r: Result<(), UnreserveError>, ghost i: nat)
      requires Valid()
      modifies this`count, entries
      ensures Valid()
      ensures r.Err? <==> forall k :: 0 <= k < old(count) ==> old(List())[k].start != address
      ensures r.Err? ==> List() == old(List())
      ensures r.Ok? ==> i < old(count) && old(List())[i].start == address && List() == Removed(old(List()), i)
    {
      ghost var rs := List();
      var at := BinarySearch(address);
      i := 0;
      if at.None? {
        r := Err(InvalidAddress);
      } else {
        i := at.value;
        CloseHole(at.value);
        RemoveSorted(rs, i);
        r := Ok(());
      }
    }

    method CloseHole(hole: nat)
      requires hole < count <= entries.Length
      modifies this`count, entries
      ensures count <= entries.Length && List() == Removed(old(List()), hole)
    {
      var n := count - 1;
      var k := hole;
      while k < n
        invariant hole <= k <= n && count == old(count)
        invariant forall j :: 0 <= j < hole ==> entries[j] == old(entries[j])
        invariant forall j :: hole <= j < k ==> entries[j] == old(entries[j + 1])
        invariant forall j :: k <= j < count ==> entries[j] == old(entries[j])
      {
        entries[k] := entries[k + 1];
        k := k + 1;
      }
      count := n;
      assert entries[..count] == Removed(old(List()), hole);
    }
  }
}
