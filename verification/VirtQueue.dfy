/**
  The split virtqueue: a driver that links descriptors into chains and offers them in the available
  ring, and a device that consumes chains and hands them back in the used ring in any order. The
  device is modelled by its two steps. Indices are 16 bits wide and wrap; the queue has 8 entries.
  */
module VirtQueue {

  import opened Options
  import opened Arithmetic

  const SIZE: nat := 8
  const NEXT: nat := 1
  const WRITE: nat := 2

  datatype NoBuffers = NoBuffers

  datatype Buffer = Buffer(address: nat, length: nat, write: bool)

  datatype Descriptor = Descriptor(address: nat, length: nat, flags: nat, next: nat)

  /** One report of the collect callback. */
  datatype Report = Report(id: nat, address: nat, length: nat)

  /** A buffer list accepted by `Send`: the `ticket`-th one, and the descriptors that carry it. */
  datatype Chain = Chain(ticket: nat, ids: seq<nat>, bufs: seq<Buffer>)

  // ---------------------------------------------------------------- descriptors of a chain

  function Flags(b: Buffer, more: bool): nat {
    (if b.write then WRITE else 0) + (if more then NEXT else 0)
  }

  predicate HasNext(d: Descriptor) { d.flags % 2 == 1 }

  /** Descriptor `j` of a chain describes buffer `j` and links to the next one. */
  ghost predicate Describes(desc: seq<Descriptor>, ids: seq<nat>, bufs: seq<Buffer>, j: nat)
    requires j < |ids| <= |bufs|
  {
    && ids[j] < |desc|
    && desc[ids[j]].address == bufs[j].address && desc[ids[j]].length == bufs[j].length
    && desc[ids[j]].flags == Flags(bufs[j], j + 1 < |bufs|)
    && (j + 1 < |ids| ==> desc[ids[j]].next == ids[j + 1])
  }

  ghost predicate Linked(desc: seq<Descriptor>, c: Chain) {
    0 < |c.ids| == |c.bufs| && forall j :: 0 <= j < |c.ids| ==> Describes(desc, c.ids, c.bufs, j)
  }

  ghost predicate AllLinked(desc: seq<Descriptor>, cs: seq<Chain>) {
    forall i :: 0 <= i < |cs| ==> Linked(desc, cs[i])
  }

  /** What collecting a chain reports, in order. */
  function Reports(c: Chain): (r: seq<Report>)
    requires |c.ids| == |c.bufs|
    ensures |r| == |c.ids|
  {
    seq(|c.ids|, j requires 0 <= j < |c.ids| => Report(c.ids[j], c.bufs[j].address, c.bufs[j].length))
  }

  ghost predicate AllPaired(cs: seq<Chain>) {
    forall i :: 0 <= i < |cs| ==> |cs[i].ids| == |cs[i].bufs|
  }

  ghost function AllReports(cs: seq<Chain>): (r: seq<Report>)
    requires AllPaired(cs)
  {
    if cs == [] then [] else AllReports(cs[..|cs| - 1]) + Reports(cs[|cs| - 1])
  }

  // ---------------------------------------------------------------- who owns which descriptor

  /** How often descriptor `x` is in a list of chains. */
  ghost function Uses(cs: seq<Chain>, x: nat): (n: nat) {
    if cs == [] then 0 else Uses(cs[..|cs| - 1], x) + multiset(cs[|cs| - 1].ids)[x]
  }

  /** The number of descriptors in a list of chains. */
  ghost function Total(cs: seq<Chain>): (n: nat) {
    if cs == [] then 0 else Total(cs[..|cs| - 1]) + |cs[|cs| - 1].ids|
  }

  lemma {:induction false} UsesAppend(a: seq<Chain>, b: seq<Chain>, x: nat)
    ensures Uses(a + b, x) == Uses(a, x) + Uses(b, x) && Total(a + b) == Total(a) + Total(b)
  {
    if b == [] {
      assert a + b == a;
    } else {
      UsesAppend(a, b[..|b| - 1], x);
      assert (a + b)[..|a + b| - 1] == a + b[..|b| - 1];
    }
  }

  lemma UsesOne(c: Chain, x: nat)
    ensures Uses([c], x) == multiset(c.ids)[x] && Total([c]) == |c.ids|
  {
    assert [c][..0] == [];
  }

  /** Taking one chain out takes exactly its descriptors out. */
  lemma UsesRemove(cs: seq<Chain>, i: nat, x: nat)
    requires i < |cs|
    ensures Uses(cs, x) == Uses(cs[..i] + cs[i + 1..], x) + multiset(cs[i].ids)[x]
    ensures Total(cs) == Total(cs[..i] + cs[i + 1..]) + |cs[i].ids|
  {
    var a, c, b := cs[..i], cs[i], cs[i + 1..];
    assert cs == (a + [c]) + b;
    UsesAppend(a + [c], b, x);
    UsesAppend(a, [c], x);
    UsesAppend(a, b, x);
    UsesOne(c, x);
  }

  lemma UsesHead(cs: seq<Chain>, x: nat)
    requires cs != []
    ensures Uses(cs, x) == multiset(cs[0].ids)[x] + Uses(cs[1..], x)
    ensures Total(cs) == |cs[0].ids| + Total(cs[1..])
  {
    var c, rest := cs[0], cs[1..];
    assert cs == [c] + rest;
    UsesAppend([c], rest, x);
    UsesOne(c, x);
  }

  /** Chains are not empty, so there are no more of them than descriptors. */
  lemma {:induction false} TotalBound(desc: seq<Descriptor>, cs: seq<Chain>)
    requires AllLinked(desc, cs)
    ensures Total(cs) >= |cs|
  {
    if cs != [] {
      TotalBound(desc, cs[..|cs| - 1]);
      assert Linked(desc, cs[|cs| - 1]);
    }
  }

  lemma {:induction false} UsesMember(cs: seq<Chain>, i: nat, x: nat)
    requires i < |cs| && x in cs[i].ids
    ensures Uses(cs, x) > 0
  {
    if i < |cs| - 1 { UsesMember(cs[..|cs| - 1], i, x); }
  }

  /** Descriptor `x` is free or in exactly one chain, once. */
  ghost predicate OwnedOnce(free: seq<nat>, flight: seq<Chain>, x: nat) {
    multiset(free)[x] + Uses(flight, x) == if x < SIZE then 1 else 0
  }

  /** Free and in-flight descriptors partition 0..7. */
  ghost predicate Partition(free: seq<nat>, flight: seq<Chain>) {
    |free| + Total(flight) == SIZE && forall x :: OwnedOnce(free, flight, x)
  }

  /** A free descriptor exists and is in no chain. */
  lemma PartitionFree(free: seq<nat>, flight: seq<Chain>, i: nat)
    requires Partition(free, flight) && i < |free|
    ensures free[i] < SIZE && Uses(flight, free[i]) == 0
  {
    assert multiset(free)[free[i]] > 0;
    assert OwnedOnce(free, flight, free[i]);
  }

  lemma PartitionDistinct(free: seq<nat>, flight: seq<Chain>, i: nat, j: nat)
    requires Partition(free, flight) && i < j < |free|
    ensures free[i] != free[j]
  {
    var x := free[j];
    assert OwnedOnce(free, flight, x);
    assert free == free[..j] + [x] + free[j + 1..];
    assert x !in free[..j];
    assert free[..j][i] == free[i];
  }

  ghost predicate SameUse(a: seq<Chain>, b: seq<Chain>, x: nat) {
    Uses(a, x) == Uses(b, x) && Total(a) == Total(b)
  }

  /** The partition only depends on how often each descriptor is in flight. */
  lemma PartitionMove(free: seq<nat>, flight: seq<Chain>, flight': seq<Chain>)
    requires Partition(free, flight) && forall x :: SameUse(flight, flight', x)
    ensures Partition(free, flight')
  {
    assert SameUse(flight, flight', 0);
    forall x: nat ensures OwnedOnce(free, flight', x) {
      assert OwnedOnce(free, flight, x) && SameUse(flight, flight', x);
    }
  }

  /** The last `k` elements of a stack in the order they are popped. */
  function Popped(s: seq<nat>, k: nat): (r: seq<nat>)
    requires k <= |s|
    ensures |r| == k && forall j {:trigger r[j]} :: 0 <= j < k ==> r[j] == s[|s| - 1 - j]
  {
    seq(k, j requires 0 <= j < k => s[|s| - 1 - j])
  }

  lemma {:induction false} PoppedCount(s: seq<nat>, k: nat, x: nat)
    requires k <= |s|
    ensures multiset(s)[x] == multiset(s[..|s| - k])[x] + multiset(Popped(s, k))[x]
  {
    if k == 0 {
      assert s[..|s|] == s && Popped(s, 0) == [];
    } else {
      PoppedCount(s, k - 1, x);
      var n := |s| - k;
      assert s[..n + 1] == s[..n] + [s[n]];
      assert Popped(s, k) == Popped(s, k - 1) + [s[n]];
    }
  }

  /** Popping descriptors and offering them as a chain keeps the partition. */
  lemma PartitionSend(free: seq<nat>, flight: seq<Chain>, c: Chain)
    requires Partition(free, flight) && |c.ids| <= |free| && c.ids == Popped(free, |c.ids|)
    ensures Partition(free[..|free| - |c.ids|], flight + [c])
  {
    var rest := free[..|free| - |c.ids|];
    forall x: nat ensures OwnedOnce(rest, flight + [c], x) {
      assert OwnedOnce(free, flight, x);
      PoppedCount(free, |c.ids|, x);
      UsesAppend(flight, [c], x);
      UsesOne(c, x);
    }
    UsesAppend(flight, [c], 0);
    UsesOne(c, 0);
  }

  /** Returning the descriptors of a chain keeps the partition. */
  lemma PartitionReturn(free: seq<nat>, flight: seq<Chain>, i: nat)
    requires Partition(free, flight) && i < |flight|
    ensures Partition(free + flight[i].ids, flight[..i] + flight[i + 1..])
  {
    var free', flight' := free + flight[i].ids, flight[..i] + flight[i + 1..];
    forall x: nat ensures OwnedOnce(free', flight', x) {
      assert OwnedOnce(free, flight, x);
      UsesRemove(flight, i, x);
    }
    UsesRemove(flight, i, 0);
  }

  /** The next descriptor on the stack is none of those popped before. */
  lemma PopIsNew(free: seq<nat>, flight: seq<Chain>, left: nat, sent: seq<nat>)
    requires Partition(free, flight) && left + 1 + |sent| == |free| && sent == Popped(free, |sent|)
    ensures free[left] < SIZE && free[left] !in sent && sent + [free[left]] == Popped(free, |sent| + 1)
    ensures forall j :: 0 <= j < |sent| ==> sent[j] < SIZE && sent[j] in free
    ensures forall a, b :: 0 <= a < b < |sent| ==> sent[a] != sent[b]
  {
    PartitionFree(free, flight, left);
    forall j | 0 <= j < |sent| ensures sent[j] != free[left] && sent[j] < SIZE && sent[j] in free {
      PartitionDistinct(free, flight, left, |free| - 1 - j);
      PartitionFree(free, flight, |free| - 1 - j);
    }
    forall a, b | 0 <= a < b < |sent| ensures sent[a] != sent[b] {
      PartitionDistinct(free, flight, |free| - 1 - b, |free| - 1 - a);
    }
  }

  // ---------------------------------------------------------------- building a chain

  /** The first descriptors of a chain are in place; the last one has no link yet. */
  ghost predicate Built(desc: seq<Descriptor>, ids: seq<nat>, bufs: seq<Buffer>) {
    |ids| <= |bufs| && forall j :: 0 <= j < |ids| ==> Describes(desc, ids, bufs, j)
  }

  /** The next descriptor is filled in and the previous one is linked to it. */
  function Extend(desc: seq<Descriptor>, ids: seq<nat>, i: nat, b: Buffer, more: bool): (r: seq<Descriptor>)
    requires i < |desc| && forall j :: 0 <= j < |ids| ==> ids[j] < |desc|
  {
    var d := desc[i := Descriptor(b.address, b.length, Flags(b, more), desc[i].next)];
    if ids == [] then d else d[ids[|ids| - 1] := d[ids[|ids| - 1]].(next := i)]
  }

  lemma BuildStep(desc: seq<Descriptor>, ids: seq<nat>, bufs: seq<Buffer>, i: nat)
    requires Built(desc, ids, bufs) && |ids| < |bufs| && i < |desc| && i !in ids
    requires forall a, b :: 0 <= a < b < |ids| ==> ids[a] != ids[b]
    ensures forall j :: 0 <= j < |ids| ==> ids[j] < |desc|
    ensures Built(Extend(desc, ids, i, bufs[|ids|], |ids| + 1 < |bufs|), ids + [i], bufs)
  {
    forall j | 0 <= j < |ids| ensures ids[j] < |desc| { assert Describes(desc, ids, bufs, j); }
    var desc', ids' := Extend(desc, ids, i, bufs[|ids|], |ids| + 1 < |bufs|), ids + [i];
    forall j | 0 <= j < |ids'| ensures Describes(desc', ids', bufs, j) {
      if j < |ids| { assert Describes(desc, ids, bufs, j); }
    }
  }

  /** Writing descriptors that no chain uses leaves the chains linked. */
  lemma LinkedFrame(desc: seq<Descriptor>, desc': seq<Descriptor>, cs: seq<Chain>)
    requires AllLinked(desc, cs) && |desc'| == |desc|
    requires forall d :: 0 <= d < |desc| && Uses(cs, d) > 0 ==> desc'[d] == desc[d]
    ensures AllLinked(desc', cs)
  {
    forall i | 0 <= i < |cs| ensures Linked(desc', cs[i]) {
      var c := cs[i];
      assert Linked(desc, c);
      forall j | 0 <= j < |c.ids| ensures Describes(desc', c.ids, c.bufs, j) {
        assert Describes(desc, c.ids, c.bufs, j);
        UsesMember(cs, i, c.ids[j]);
      }
    }
  }

  // ---------------------------------------------------------------- rings

  function Slot(base: nat, j: nat): (k: nat)
    ensures k < SIZE
  {
    (base + j) % SIZE
  }

  ghost predicate SlotHolds(ring: seq<nat>, base: nat, cs: seq<Chain>, j: nat)
    requires |ring| == SIZE && j < |cs|
  {
    cs[j].ids != [] && ring[Slot(base, j)] == cs[j].ids[0]
  }

  /** The ring holds the heads of the chains from index `base` on, up to index `end`. */
  ghost predicate RingHolds(ring: seq<nat>, base: nat, end: nat, cs: seq<Chain>) {
    && |ring| == SIZE && base < RANGE16 && |cs| <= SIZE && end == (base + |cs|) % RANGE16
    && forall j :: 0 <= j < |cs| ==> SlotHolds(ring, base, cs, j)
  }

  lemma SlotApart(base: nat, j: nat, n: nat)
    requires j < n < SIZE
    ensures Slot(base, j) != Slot(base, n)
  {
  }

  /** 8 divides the range of the indices, so the slot does not depend on their wrap-around. */
  lemma SlotWraps(base: nat, n: nat, j: nat)
    ensures Slot((base + n) % RANGE16, j) == Slot(base, n + j)
  {
  }

  /** A chain put at the end index overwrites no slot in use, wrap-around or not. */
  lemma RingPut(ring: seq<nat>, base: nat, end: nat, cs: seq<Chain>, c: Chain)
    requires RingHolds(ring, base, end, cs) && |cs| < SIZE && c.ids != []
    ensures forall j :: 0 <= j < |cs| ==> Slot(base, j) != end % SIZE
    ensures RingHolds(ring[end % SIZE := c.ids[0]], base, (end + 1) % RANGE16, cs + [c])
  {
    var ring', cs' := ring[end % SIZE := c.ids[0]], cs + [c];
    SlotWraps(base, |cs|, 0);
    forall j | 0 <= j < |cs| ensures Slot(base, j) != end % SIZE { SlotApart(base, j, |cs|); }
    forall j | 0 <= j < |cs'| ensures SlotHolds(ring', base, cs', j) {
      if j < |cs| { assert SlotHolds(ring, base, cs, j); }
    }
  }

  /** The wrapping difference of the indices is the number of chains between them. */
  lemma RingCount(ring: seq<nat>, base: nat, end: nat, cs: seq<Chain>)
    requires RingHolds(ring, base, end, cs)
    ensures (end + RANGE16 - base) % RANGE16 == |cs|
  {
  }

  /** The chain at the base index is the first one; taking it moves the base. */
  lemma RingTake(ring: seq<nat>, base: nat, end: nat, cs: seq<Chain>)
    requires RingHolds(ring, base, end, cs)
    ensures base == end <==> cs == []
    ensures cs != [] ==> cs[0].ids != [] && ring[base % SIZE] == cs[0].ids[0]
                         && RingHolds(ring, (base + 1) % RANGE16, end, cs[1..])
  {
    if cs != [] {
      assert SlotHolds(ring, base, cs, 0);
      var base', cs' := (base + 1) % RANGE16, cs[1..];
      forall j | 0 <= j < |cs'| ensures SlotHolds(ring, base', cs', j) {
        assert SlotHolds(ring, base, cs, j + 1);
        SlotWraps(base, 1, j);
      }
    }
  }

  // ---------------------------------------------------------------- the invariant

  /** Where every accepted buffer list is. */
  datatype Flight = Flight(pending: seq<Chain>, consumed: seq<Chain>, completed: seq<Chain>) {
    ghost function All(): seq<Chain> { pending + consumed + completed }
  }

  /** Free stack, descriptor table and rings fit where the chains are. */
  ghost predicate Inv(free: seq<nat>, desc: seq<Descriptor>, avail: seq<nat>, seen: nat, availIndex: nat,
                      used: seq<nat>, lastUsed: nat, usedIndex: nat, f: Flight)
  {
    && |desc| == SIZE && Partition(free, f.All()) && AllLinked(desc, f.All())
    && RingHolds(avail, seen, availIndex, f.pending)
    && RingHolds(used, lastUsed, usedIndex, f.completed)
  }

  /** Every accepted list is in exactly one place: with the device, or handed back. */
  ghost predicate Accounted(accepted: seq<Chain>, returned: seq<Chain>, f: Flight) {
    && (forall i :: 0 <= i < |accepted| ==> accepted[i].ticket == i)
    && multiset(accepted) == multiset(returned) + multiset(f.All())
  }

  lemma CountUnique<T>(s: seq<T>, i: nat)
    requires i < |s| && forall j :: 0 <= j < |s| && j != i ==> s[j] != s[i]
    ensures multiset(s)[s[i]] == 1
  {
    var x := s[i];
    assert s == s[..i] + [x] + s[i + 1..];
    assert x !in s[..i] && x !in s[i + 1..];
  }

  /** All descriptors of a new queue are free. */
  lemma InitialInv(free: seq<nat>, desc: seq<Descriptor>, avail: seq<nat>, used: seq<nat>)
    requires |free| == |desc| == |avail| == |used| == SIZE
    requires free[0] == 5 && free[1] == 7 && free[2] == 6 && free[3] == 0 && free[4] == 1 && free[5] == 3
             && free[6] == 2 && free[7] == 4
    ensures Inv(free, desc, avail, 0, 0, used, 0, 0, Flight([], [], []))
  {
    assert Flight([], [], []).All() == [];
    var at := [3, 4, 6, 5, 7, 0, 2, 1];
    forall x: nat ensures OwnedOnce(free, [], x) {
      if x < SIZE {
        assert free[at[x]] == x;
        CountUnique(free, at[x]);
      } else {
        assert x !in free;
      }
    }
  }

  lemma FlightUses(f: Flight, x: nat)
    ensures Uses(f.All(), x) == Uses(f.pending, x) + Uses(f.consumed, x) + Uses(f.completed, x)
    ensures Total(f.All()) == Total(f.pending) + Total(f.consumed) + Total(f.completed)
  {
    UsesAppend(f.pending + f.consumed, f.completed, x);
    UsesAppend(f.pending, f.consumed, x);
  }

  function Consume(f: Flight): Flight
    requires f.pending != []
  {
    Flight(f.pending[1..], f.consumed + [f.pending[0]], f.completed)
  }

  function Complete(f: Flight, i: nat): Flight
    requires i < |f.consumed|
  {
    Flight(f.pending, f.consumed[..i] + f.consumed[i + 1..], f.completed + [f.consumed[i]])
  }

  lemma ConsumeUses(f: Flight, x: nat)
    requires f.pending != []
    ensures SameUse(f.All(), Consume(f).All(), x)
  {
    FlightUses(f, x);
    FlightUses(Consume(f), x);
    UsesHead(f.pending, x);
    UsesAppend(f.consumed, [f.pending[0]], x);
    UsesOne(f.pending[0], x);
  }

  lemma CompleteUses(f: Flight, i: nat, x: nat)
    requires i < |f.consumed|
    ensures SameUse(f.All(), Complete(f, i).All(), x)
  {
    FlightUses(f, x);
    FlightUses(Complete(f, i), x);
    UsesRemove(f.consumed, i, x);
    UsesAppend(f.completed, [f.consumed[i]], x);
    UsesOne(f.consumed[i], x);
  }

  lemma SendUses(f: Flight, c: Chain, x: nat)
    ensures SameUse(f.All() + [c], f.(pending := f.pending + [c]).All(), x)
  {
    FlightUses(f, x);
    FlightUses(f.(pending := f.pending + [c]), x);
    UsesAppend(f.All(), [c], x);
    UsesAppend(f.pending, [c], x);
  }

  lemma FlightLinked(desc: seq<Descriptor>, f: Flight)
    ensures AllLinked(desc, f.All())
            <==> AllLinked(desc, f.pending) && AllLinked(desc, f.consumed) && AllLinked(desc, f.completed)
  {
    var all, n, m := f.All(), |f.pending|, |f.pending| + |f.consumed|;
    if AllLinked(desc, all) {
      forall i | 0 <= i < |f.pending| ensures Linked(desc, f.pending[i]) { assert all[i] == f.pending[i]; }
      forall i | 0 <= i < |f.consumed| ensures Linked(desc, f.consumed[i]) { assert all[n + i] == f.consumed[i]; }
      forall i | 0 <= i < |f.completed| ensures Linked(desc, f.completed[i]) { assert all[m + i] == f.completed[i]; }
    }
  }

  /** There is a descriptor for every chain, so a ring of 8 slots has room for one more head. */
  lemma RoomInRings(free: seq<nat>, desc: seq<Descriptor>, f: Flight)
    requires Partition(free, f.All()) && AllLinked(desc, f.All())
    ensures |free| + |f.pending| + |f.consumed| + |f.completed| <= SIZE
  {
    TotalBound(desc, f.All());
  }

  /** The device takes the first pending chain. */
  lemma ConsumeStep(free: seq<nat>, desc: seq<Descriptor>, avail: seq<nat>, seen: nat, availIndex: nat,
                    used: seq<nat>, lastUsed: nat, usedIndex: nat, f: Flight)
    requires Inv(free, desc, avail, seen, availIndex, used, lastUsed, usedIndex, f) && f.pending != []
    ensures f.pending[0].ids != [] && avail[seen % SIZE] == f.pending[0].ids[0]
    ensures Inv(free, desc, avail, (seen + 1) % RANGE16, availIndex, used, lastUsed, usedIndex, Consume(f))
  {
    var f' := Consume(f);
    RingTake(avail, seen, availIndex, f.pending);
    FlightLinked(desc, f);
    FlightLinked(desc, f');
    forall x: nat ensures SameUse(f.All(), f'.All(), x) { ConsumeUses(f, x); }
    PartitionMove(free, f.All(), f'.All());
  }

  /** The device completes any consumed chain; the used ring has room for it. */
  lemma CompleteStep(free: seq<nat>, desc: seq<Descriptor>, avail: seq<nat>, seen: nat, availIndex: nat,
                     used: seq<nat>, lastUsed: nat, usedIndex: nat, f: Flight, i: nat)
    requires Inv(free, desc, avail, seen, availIndex, used, lastUsed, usedIndex, f) && i < |f.consumed|
    ensures f.consumed[i].ids != []
    ensures Inv(free, desc, avail, seen, availIndex, used[usedIndex % SIZE := f.consumed[i].ids[0]], lastUsed,
                (usedIndex + 1) % RANGE16, Complete(f, i))
  {
    var c := f.consumed[i];
    var f' := Complete(f, i);
    FlightLinked(desc, f);
    assert Linked(desc, c);
    FlightLinked(desc, f');
    RoomInRings(free, desc, f);
    RingPut(used, lastUsed, usedIndex, f.completed, c);
    forall x: nat ensures SameUse(f.All(), f'.All(), x) { CompleteUses(f, i, x); }
    PartitionMove(free, f.All(), f'.All());
  }

  /** The driver offers popped descriptors as a new chain; no pending head is overwritten. */
  lemma SendStep(free: seq<nat>, desc: seq<Descriptor>, avail: seq<nat>, seen: nat, availIndex: nat,
                 used: seq<nat>, lastUsed: nat, usedIndex: nat, f: Flight, desc': seq<Descriptor>, c: Chain)
    requires Inv(free, desc, avail, seen, availIndex, used, lastUsed, usedIndex, f)
    requires |desc'| == SIZE && Linked(desc', c) && |c.ids| <= |free| && c.ids == Popped(free, |c.ids|)
    requires forall d :: 0 <= d < SIZE && d !in free ==> desc'[d] == desc[d]
    ensures Inv(free[..|free| - |c.ids|], desc', avail[availIndex % SIZE := c.ids[0]], seen, (availIndex + 1) % RANGE16,
                used, lastUsed, usedIndex, f.(pending := f.pending + [c]))
  {
    var f' := f.(pending := f.pending + [c]);
    SameChains(free, desc, desc', f.All());
    FlightLinked(desc', f);
    FlightLinked(desc', f');
    RoomInRings(free, desc, f);
    RingPut(avail, seen, availIndex, f.pending, c);
    PartitionSend(free, f.All(), c);
    var all := f.All() + [c];
    forall x: nat ensures SameUse(all, f'.All(), x) { SendUses(f, c, x); }
    PartitionMove(free[..|free| - |c.ids|], all, f'.All());
  }

  /** Whatever is written to free descriptors, the chains stay linked. */
  lemma SameChains(free: seq<nat>, desc: seq<Descriptor>, desc': seq<Descriptor>, cs: seq<Chain>)
    requires Partition(free, cs) && AllLinked(desc, cs) && |desc| == |desc'| == SIZE
    requires forall d :: 0 <= d < SIZE && d !in free ==> desc'[d] == desc[d]
    ensures AllLinked(desc', cs)
  {
    forall d: nat | d < SIZE && Uses(cs, d) > 0 ensures desc'[d] == desc[d] {
      assert OwnedOnce(free, cs, d);
    }
    LinkedFrame(desc, desc', cs);
  }

  /** The driver takes the first completed chain back. */
  lemma CollectStep(free: seq<nat>, desc: seq<Descriptor>, avail: seq<nat>, seen: nat, availIndex: nat,
                    used: seq<nat>, lastUsed: nat, usedIndex: nat, f: Flight)
    requires Inv(free, desc, avail, seen, availIndex, used, lastUsed, usedIndex, f)
    ensures lastUsed == usedIndex <==> f.completed == []
    ensures f.completed != [] ==>
              var c := f.completed[0];
              && Linked(desc, c) && used[lastUsed % SIZE] == c.ids[0] && |free| + |c.ids| <= SIZE
              && Inv(free + c.ids, desc, avail, seen, availIndex, used, (lastUsed + 1) % RANGE16, usedIndex,
                f.(completed := f.completed[1..]))
  {
    RingTake(used, lastUsed, usedIndex, f.completed);
    if f.completed != [] {
      var c, f', m := f.completed[0], f.(completed := f.completed[1..]), |f.pending| + |f.consumed|;
      FlightLinked(desc, f);
      FlightLinked(desc, f');
      assert Linked(desc, c);
      assert f.All()[m] == c && f'.All() == f.All()[..m] + f.All()[m + 1..];
      PartitionReturn(free, f.All(), m);
    }
  }

  /** What is in flight after the first `i` completed chains are taken back. */
  function Rest(f: Flight, i: nat): Flight
    requires i <= |f.completed|
  {
    f.(completed := f.completed[i..])
  }

  /** `CollectStep` counted from the start of a collection. */
  lemma CollectNext(free: seq<nat>, desc: seq<Descriptor>, avail: seq<nat>, seen: nat, availIndex: nat,
                    used: seq<nat>, index: nat, usedIndex: nat, f: Flight, i: nat)
    requires i <= |f.completed| && Inv(free, desc, avail, seen, availIndex, used, index, usedIndex, Rest(f, i))
    requires AllPaired(f.completed[..i])
    ensures index == usedIndex <==> i == |f.completed|
    ensures i < |f.completed| ==>
              var c := f.completed[i];
              && Linked(desc, c) && used[index % SIZE] == c.ids[0] && |free| + |c.ids| <= SIZE
              && Inv(free + c.ids, desc, avail, seen, availIndex, used, (index + 1) % RANGE16, usedIndex,
                     Rest(f, i + 1))
              && AllPaired(f.completed[..i + 1])
              && AllReports(f.completed[..i + 1]) == AllReports(f.completed[..i]) + Reports(c)
              && Total(f.completed[..i + 1]) == Total(f.completed[..i]) + |c.ids|
  {
    CollectStep(free, desc, avail, seen, availIndex, used, index, usedIndex, Rest(f, i));
    if i < |f.completed| {
      assert f.completed[i..][1..] == f.completed[i + 1..];
      assert f.completed[..i + 1][..i] == f.completed[..i];
    }
  }

  // ---------------------------------------------------------------- accounting

  lemma ConsumeAccounted(accepted: seq<Chain>, returned: seq<Chain>, f: Flight)
    requires Accounted(accepted, returned, f) && f.pending != []
    ensures Accounted(accepted, returned, Consume(f))
  {
    assert f.pending == [f.pending[0]] + f.pending[1..];
  }

  lemma CompleteAccounted(accepted: seq<Chain>, returned: seq<Chain>, f: Flight, i: nat)
    requires Accounted(accepted, returned, f) && i < |f.consumed|
    ensures Accounted(accepted, returned, Complete(f, i))
  {
    assert f.consumed == f.consumed[..i] + [f.consumed[i]] + f.consumed[i + 1..];
  }

  lemma CollectAccounted(accepted: seq<Chain>, returned: seq<Chain>, f: Flight)
    requires Accounted(accepted, returned, f)
    ensures Accounted(accepted, returned + f.completed, f.(completed := []))
  {
  }

  lemma SendAccounted(accepted: seq<Chain>, returned: seq<Chain>, f: Flight, c: Chain)
    requires Accounted(accepted, returned, f) && c.ticket == |accepted|
    ensures Accounted(accepted + [c], returned, f.(pending := f.pending + [c]))
  {
  }

  /** Once a list is handed back it is nowhere else, and no list is handed back twice. */
  lemma HandedBackOnce(accepted: seq<Chain>, returned: seq<Chain>, f: Flight, c: Chain)
    requires Accounted(accepted, returned, f)
    ensures multiset(returned)[c] + multiset(f.All())[c] == if c in accepted then 1 else 0
  {
    assert multiset(accepted)[c] == multiset(returned)[c] + multiset(f.All())[c];
    if c in accepted {
      var i :| 0 <= i < |accepted| && accepted[i] == c;
      CountUnique(accepted, i);
    }
  }

  class Queue {
    const descriptors: array<Descriptor>
    const available: array<nat>
    const used: array<nat>
    const freeDescriptors: array<nat>
    var freeCount: nat
    var availIndex: nat
    var usedIndex: nat
    var lastUsed: nat
    /** How far the device has read the available ring. */
    var seen: nat
    /** Where every accepted list is, and all of them in the order they were accepted and handed back. */
    ghost var flight: Flight
    ghost var accepted: seq<Chain>
    ghost var returned: seq<Chain>

    ghost predicate Shape() {
      && descriptors.Length == SIZE && available.Length == SIZE && used.Length == SIZE && freeDescriptors.Length == SIZE
      && available != used && available != freeDescriptors && used != freeDescriptors
    }

    ghost predicate Valid()
      reads this, descriptors, available, used, freeDescriptors
    {
      && Shape() && freeCount <= SIZE
      && Inv(freeDescriptors[..freeCount], descriptors[..], available[..], seen, availIndex, used[..], lastUsed,
        usedIndex, flight)
      && Accounted(accepted, returned, flight)
    }

    constructor ()
      ensures Valid() && fresh(descriptors) && fresh(available) && fresh(used) && fresh(freeDescriptors)
      ensures freeCount == SIZE && accepted == returned == []
    {
      descriptors := new Descriptor[SIZE](_ => Descriptor(0, 0, 0, 0));
      available := new nat[SIZE](_ => 0);
      used := new nat[SIZE](_ => 0xFFFF);
      freeDescriptors := new nat[] [5, 7, 6, 0, 1, 3, 2, 4];
      freeCount, availIndex, usedIndex, lastUsed := SIZE, 0, 0, 0;
      seen, flight, accepted, returned := 0, Flight([], [], []), [], [];
      new;
      InitialInv(freeDescriptors[..freeCount], descriptors[..], available[..], used[..]);
    }

    /** Pops a descriptor for every buffer and links them; stops early if there are too few. */
    method LinkChain(bufs: seq<Buffer>) returns (left: nat, head: nat, sent: seq<nat>)
      requires Valid()
      modifies descriptors
      ensures |sent| <= |bufs| && left + |sent| == freeCount && sent == Popped(freeDescriptors[..freeCount], |sent|)
      ensures |sent| < |bufs| ==> left == 0
      ensures Built(descriptors[..], sent, bufs)
      ensures sent != [] ==> head == sent[0]
      ensures forall d :: 0 <= d < SIZE && d !in freeDescriptors[..freeCount] ==> descriptors[d] == old(descriptors[d])
    {
      left, head, sent := freeCount, 0, [];
      ghost var free := freeDescriptors[..freeCount];
      while |sent| < |bufs| && left > 0
        invariant |sent| <= |bufs| && left + |sent| == freeCount && sent == Popped(free, |sent|)
        invariant Built(descriptors[..], sent, bufs)
        invariant sent != [] ==> head == sent[0]
        invariant forall d :: 0 <= d < SIZE && d !in free ==> descriptors[d] == old(descriptors[d])
      {
        ghost var desc := descriptors[..];
        left := left - 1;
        var i := freeDescriptors[left];
        assert i == free[left];
        PopIsNew(free, flight.All(), left, sent);
        BuildStep(desc, sent, bufs, i);
        var b := bufs[|sent|];
        descriptors[i] := Descriptor(b.address, b.length, Flags(b, |sent| + 1 < |bufs|), descriptors[i].next);
        if sent == [] {
          head := i;
        } else {
          var prev := sent[|sent| - 1];
          descriptors[prev] := descriptors[prev].(next := i);
        }
        assert descriptors[..] == Extend(desc, sent, i, b, |sent| + 1 < |bufs|);
        sent := sent + [i];
      }
    }

    /** Pushes the descriptors of the chain at `head` back and reports its buffers. */
    method ReleaseChain(head: nat, ghost c: Chain) returns (reports: seq<Report>)
      requires Shape() && Linked(descriptors[..], c) && head == c.ids[0] && freeCount + |c.ids| <= SIZE
      modifies this`freeCount, freeDescriptors
      ensures freeCount <= SIZE && freeDescriptors[..freeCount] == old(freeDescriptors[..freeCount]) + c.ids
      ensures reports == Reports(c)
    {
      ghost var free, p := freeDescriptors[..freeCount], 0;
      var i := head;
      reports := [];
      while true
        invariant 0 <= p < |c.ids| && i == c.ids[p] && reports == Reports(c)[..p]
        invariant freeCount == |free| + p && freeDescriptors[..freeCount] == free + c.ids[..p]
        decreases |c.ids| - p
      {
        assert Describes(descriptors[..], c.ids, c.bufs, p);
        var d := descriptors[i];
        reports := reports + [Report(i, d.address, d.length)];
        freeDescriptors[freeCount] := i;
        freeCount := freeCount + 1;
        p := p + 1;
        if !HasNext(d) { break; }
        i := d.next;
      }
    }

    /** Walks the used ring up to the device's index. */
    method TakeAll() returns (index: nat, reports: seq<Report>)
      requires Valid()
      modifies this`freeCount, freeDescriptors
      ensures freeCount <= SIZE && freeCount == old(freeCount) + Total(flight.completed)
      ensures Inv(freeDescriptors[..freeCount], descriptors[..], available[..], seen, availIndex, used[..], index,
                  usedIndex, flight.(completed := []))
      ensures AllPaired(flight.completed) && reports == AllReports(flight.completed)
    {
      hide Inv;
      ghost var i := 0;
      index, reports := lastUsed, [];
      assert flight.completed[..0] == [] && flight.completed[0..] == flight.completed;
      while index != usedIndex
        invariant i <= |flight.completed| && AllPaired(flight.completed[..i])
                  && reports == AllReports(flight.completed[..i])
        invariant freeCount <= SIZE && freeCount == old(freeCount) + Total(flight.completed[..i])
        invariant Inv(freeDescriptors[..freeCount], descriptors[..], available[..], seen, availIndex, used[..], index,
                      usedIndex, Rest(flight, i))
        decreases |flight.completed| - i
      {
        CollectNext(freeDescriptors[..freeCount], descriptors[..], available[..], seen, availIndex, used[..], index,
                    usedIndex, flight, i);
        var more := ReleaseChain(used[index % SIZE], flight.completed[i]);
        reports := reports + more;
        index := (index + 1) % RANGE16;
        i := i + 1;
      }
      CollectNext(freeDescriptors[..freeCount], descriptors[..], available[..], seen, availIndex, used[..], index,
                  usedIndex, flight, i);
      assert flight.completed[..i] == flight.completed && flight.completed[i..] == [];
    }

    /**
      Takes back every chain the device has completed: its descriptors are free again and its
      buffers are reported in the order they were given to `Send`. Returns the number of chains.
      */
    method CollectUsed() returns (n: nat, reports: seq<Report>)
      requires Valid()
      modifies this`freeCount, this`lastUsed, this`flight, this`returned, freeDescriptors
      ensures Valid() && flight == old(flight).(completed := [])
      ensures returned == old(returned) + old(flight).completed && n == |old(flight).completed|
      ensures AllPaired(old(flight).completed) && reports == AllReports(old(flight).completed)
      ensures freeCount == old(freeCount) + Total(old(flight).completed)
    {
      hide Partition, AllLinked, Accounted, AllPaired, AllReports;
      var index;
      index, reports := TakeAll();
      CollectAccounted(accepted, returned, flight);
      RingCount(used[..], lastUsed, usedIndex, flight.completed);
      returned, flight := returned + flight.completed, flight.(completed := []);
      n := (usedIndex + RANGE16 - lastUsed) % RANGE16;
      lastUsed := index;
    }

    /** Offers a linked chain in the available ring. */
    method Offer(left: nat, head: nat, ghost desc: seq<Descriptor>, ghost c: Chain)
      requires Shape() && freeCount <= SIZE && Accounted(accepted, returned, flight)
      requires Inv(freeDescriptors[..freeCount], desc, available[..], seen, availIndex, used[..], lastUsed, usedIndex,
               flight)
      requires Linked(descriptors[..], c) && left + |c.ids| == freeCount
               && c.ids == Popped(freeDescriptors[..freeCount], |c.ids|)
      requires forall d :: 0 <= d < SIZE && d !in freeDescriptors[..freeCount] ==> descriptors[d] == desc[d]
      requires head == c.ids[0] && c.ticket == |accepted|
      modifies this`freeCount, this`availIndex, this`flight, this`accepted, available
      ensures Valid() && freeCount == left
      ensures accepted == old(accepted) + [c] && flight == old(flight).(pending := old(flight).pending + [c])
    {
      SendStep(freeDescriptors[..freeCount], desc, available[..], seen, availIndex, used[..], lastUsed, usedIndex,
               flight, descriptors[..], c);
      SendAccounted(accepted, returned, flight, c);
      assert freeDescriptors[..freeCount][..left] == freeDescriptors[..left];
      freeCount := left;
      ghost var avail := available[..];
      available[availIndex % SIZE] := head;
      assert available[..] == avail[availIndex % SIZE := head];
      availIndex := (availIndex + 1) % RANGE16;
      accepted, flight := accepted + [c], flight.(pending := flight.pending + [c]);
    }

    /** The part of `Send` behind the check for free descriptors. */
    method LinkAndOffer(bufs: seq<Buffer>) returns (r: Result<(), NoBuffers>, sent: seq<nat>)
      requires Valid() && bufs != []
      modifies this`freeCount, this`availIndex, this`flight, this`accepted, available, descriptors
      ensures Valid() && (r.Ok? <==> |bufs| <= old(freeCount))
      ensures r.Err? ==> freeCount == old(freeCount) && accepted == old(accepted) && flight == old(flight)
      ensures r.Ok? ==> var c := Chain(|old(accepted)|, sent, bufs);
                        && freeCount == old(freeCount) - |bufs| && accepted == old(accepted) + [c]
                        && flight == old(flight).(pending := old(flight).pending + [c])
    {
      ghost var desc := descriptors[..];
      var left, head;
      left, head, sent := LinkChain(bufs);
      if |sent| < |bufs| {
        SameChains(freeDescriptors[..freeCount], desc, descriptors[..], flight.All());
        r := Err(NoBuffers);
      } else {
        Offer(left, head, desc, Chain(|accepted|, sent, bufs));
        r := Ok(());
      }
    }

    /** Collects first, and fails: if there is room now, at once, else when the descriptors run out. */
    method SendLate(bufs: seq<Buffer>) returns (r: Result<(), NoBuffers>, sent: seq<nat>, reports: seq<Report>)
      requires Valid() && freeCount < |bufs|
      modifies this, descriptors, available, freeDescriptors
      ensures Valid() && r.Err? && accepted == old(accepted) && returned == old(returned) + old(flight).completed
      ensures AllPaired(old(flight).completed) && reports == AllReports(old(flight).completed)
      ensures flight == old(flight).(completed := []) && freeCount == old(freeCount) + Total(old(flight).completed)
      ensures seen == old(seen) && usedIndex == old(usedIndex)
    {
      var n;
      n, reports := CollectUsed();
      r, sent := Err(NoBuffers), [];
      if freeCount < |bufs| {
        r, sent := LinkAndOffer(bufs);
      }
    }

    /**
      Offers the buffers to the device as one chain. Succeeds exactly if there were enough free
      descriptors at the start: completed chains are collected first otherwise, but the call fails
      whether or not that made room. A failing call accepts nothing and loses no descriptor.
      */
    method Send(bufs: seq<Buffer>) returns (r: Result<(), NoBuffers>, sent: seq<nat>, reports: seq<Report>)
      requires Valid() && |bufs| < RANGE16
      modifies this, descriptors, available, freeDescriptors
      ensures Valid() && (r.Ok? <==> |bufs| <= old(freeCount))
      ensures r.Ok? ==> returned == old(returned) && reports == [] && freeCount == old(freeCount) - |bufs|
      ensures r.Ok? && bufs == [] ==> accepted == old(accepted) && flight == old(flight)
      ensures r.Ok? && bufs != [] ==> var c := Chain(|old(accepted)|, sent, bufs);
                                      accepted == old(accepted) + [c]
                                        && flight == old(flight).(pending := old(flight).pending + [c])
      ensures r.Err? ==> accepted == old(accepted) && returned == old(returned) + old(flight).completed
      ensures r.Err? ==> AllPaired(old(flight).completed) && reports == AllReports(old(flight).completed)
      ensures r.Err? ==> flight == old(flight).(completed := [])
                         && freeCount == old(freeCount) + Total(old(flight).completed)
      ensures seen == old(seen) && usedIndex == old(usedIndex)
    {
      r, sent, reports := Ok(()), [], [];
      if freeCount < |bufs| {
        r, sent, reports := SendLate(bufs);
      } else if bufs != [] {
        r, sent := LinkAndOffer(bufs);
      }
    }

    /** The device reads the next head from the available ring. */
    method DeviceConsume() returns (head: nat)
      requires Valid() && flight.pending != []
      modifies this`seen, this`flight
      ensures Valid() && flight == Consume(old(flight))
      ensures old(flight).pending[0].ids != [] && head == old(flight).pending[0].ids[0]
    {
      ConsumeStep(freeDescriptors[..freeCount], descriptors[..], available[..], seen, availIndex, used[..], lastUsed,
        usedIndex, flight);
      ConsumeAccounted(accepted, returned, flight);
      head := available[seen % SIZE];
      seen, flight := (seen + 1) % RANGE16, Consume(flight);
    }

    /** The device hands any chain it has consumed back, once. */
    method DeviceComplete(head: nat, ghost i: nat)
      requires Valid() && i < |flight.consumed| && flight.consumed[i].ids != [] && head == flight.consumed[i].ids[0]
      modifies this`usedIndex, this`flight, used
      ensures Valid() && flight == Complete(old(flight), i)
    {
      hide Inv, Accounted, Complete;
      ghost var u := used[..];
      CompleteStep(freeDescriptors[..freeCount], descriptors[..], available[..], seen, availIndex, u, lastUsed,
        usedIndex, flight, i);
      CompleteAccounted(accepted, returned, flight, i);
      var slot := usedIndex % SIZE;
      used[slot] := head;
      assert used[..] == u[slot := head];
      usedIndex, flight := (usedIndex + 1) % RANGE16, Complete(flight, i);
    }

    /** With nothing in flight every descriptor is free and every accepted list has been handed back. */
    lemma Quiescent()
      requires Valid() && flight.All() == []
      ensures freeCount == SIZE && forall x :: 0 <= x < SIZE ==> x in freeDescriptors[..]
      ensures multiset(returned) == multiset(accepted)
    {
      var free := freeDescriptors[..freeCount];
      forall x: nat | x < SIZE ensures x in freeDescriptors[..] {
        assert OwnedOnce(free, flight.All(), x);
        assert freeDescriptors[..] == free;
      }
    }
  }
}
