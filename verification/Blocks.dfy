/**
  Equally sized blocks that lie one behind the other on the storage: the mirrors of the
  File Allocation Table, and the clusters of the data region.
  */
module Blocks {

  import opened Bytes

  /** `count` blocks of `size` bytes from `begin` on. */
  datatype Layout = Layout(begin: nat, size: nat, count: nat) {
    /** `begin + m * size` (see `BaseIsProduct`). */
    function Base(m: nat): (b: nat)
      ensures b >= begin
    {
      if m == 0 then begin else Base(m - 1) + size
    }

    function End(): nat { Base(count) }

    ghost predicate Fits(length: nat) { End() <= length }
  }

  lemma {:induction false} BaseIsProduct(l: Layout, m: nat)
    ensures l.Base(m) == l.begin + m * l.size
  {
    if m > 0 {
      BaseIsProduct(l, m - 1);
      assert (m - 1) * l.size + l.size == m * l.size;
    }
  }

  lemma {:induction false} BlocksApart(l: Layout, m: nat, m': nat)
    requires m < m'
    ensures l.Base(m) + l.size <= l.Base(m')
  {
    if m + 1 < m' { BlocksApart(l, m, m' - 1); }
  }

  lemma BlockFits(l: Layout, length: nat, m: nat)
    requires l.Fits(length) && m < l.count
    ensures l.begin <= l.Base(m) && l.Base(m) + l.size == l.Base(m + 1) <= l.End() <= length
  {
    BlocksApart(l, m, l.count);
  }

  ghost function Block(l: Layout, d: seq<byte>, m: nat): (s: seq<byte>)
    requires l.Fits(|d|) && m < l.count
    ensures |s| == l.size
  {
    BlockFits(l, |d|, m);
    d[l.Base(m)..l.Base(m) + l.size]
  }

  /** `d1` is `d` with `b` written at offset `at` of block `m`. */
  ghost predicate Wrote(l: Layout, d: seq<byte>, at: nat, b: seq<byte>, m: nat, d1: seq<byte>) {
    l.Base(m) + at + |b| <= |d| && d1 == Splice(d, l.Base(m) + at, b)
  }

  /** Writing inside a block changes that block as expected ... */
  lemma WriteBlock(l: Layout, d: seq<byte>, m: nat, at: nat, b: seq<byte>, d1: seq<byte>)
    requires l.Fits(|d|) && m < l.count && at + |b| <= l.size && Wrote(l, d, at, b, m, d1)
    ensures |d1| == |d| && Block(l, d1, m) == Splice(Block(l, d, m), at, b)
  {
    BlockFits(l, |d|, m);
    SpliceInside(d, l.Base(m) + at, b, l.Base(m), l.Base(m) + l.size);
  }

  /** ... and no other block. */
  lemma WriteOtherBlock(l: Layout, d: seq<byte>, m: nat, at: nat, b: seq<byte>, m': nat, d1: seq<byte>)
    requires l.Fits(|d|) && m < l.count && m' < l.count && m != m' && at + |b| <= l.size && Wrote(l, d, at, b, m, d1)
    ensures |d1| == |d| && Block(l, d1, m') == Block(l, d, m')
  {
    BlockFits(l, |d|, m);
    BlockFits(l, |d|, m');
    if m < m' { BlocksApart(l, m, m'); } else { BlocksApart(l, m', m); }
    SpliceElsewhere(d, l.Base(m) + at, b, l.Base(m'), l.Base(m') + l.size);
  }

  ghost predicate SameOutside(l: Layout, d: seq<byte>, d': seq<byte>)
    requires l.Fits(|d|)
  {
    |d'| == |d| && d'[..l.begin] == d[..l.begin] && d'[l.End()..] == d[l.End()..]
  }

  lemma SameOutsideTrans(l: Layout, d: seq<byte>, d1: seq<byte>, d2: seq<byte>)
    requires l.Fits(|d|) && SameOutside(l, d, d1) && SameOutside(l, d1, d2)
    ensures SameOutside(l, d, d2)
  {
  }

  /** Storage: one call that takes everything it is given. */
  method Put(disk: array<byte>, at: nat, b: seq<byte>)
    requires at + |b| <= disk.Length
    modifies disk
    ensures disk[..] == Splice(old(disk[..]), at, b)
  {
    forall i | 0 <= i < |b| {
      disk[at + i] := b[i];
    }
  }

  lemma SplicesJoin(d: seq<byte>, at: nat, b: seq<byte>, i: nat, n: nat)
    requires i + n <= |b| && at + |b| <= |d|
    ensures Splice(Splice(d, at, b[..i]), at + i, b[i..i + n]) == Splice(d, at, b[..i + n])
    ensures Splice(d, at, b[..0]) == d
  {
  }

  /** Storage: calls that may each take any number of bytes, until all of `b` is written. */
  method WriteAt(disk: array<byte>, at: nat, b: seq<byte>)
    requires at + |b| <= disk.Length
    modifies disk
    ensures disk[..] == Splice(old(disk[..]), at, b)
  {
    hide Splice;
    SplicesJoin(disk[..], at, b, 0, 0);
    var i := 0;
    while i < |b|
      invariant i <= |b| && disk[..] == Splice(old(disk[..]), at, b[..i])
    {
      var n: nat :| 0 < n <= |b| - i;
      SplicesJoin(old(disk[..]), at, b, i, n);
      Put(disk, at + i, b[i..i + n]);
      i := i + n;
    }
    assert b[..i] == b;
  }

  /** Storage: `write_all` inside block `m`. */
  method WriteInBlock(disk: array<byte>, l: Layout, m: nat, at: nat, b: seq<byte>)
    requires l.Fits(disk.Length) && m < l.count && at + |b| <= l.size
    modifies disk
    ensures Wrote(l, old(disk[..]), at, b, m, disk[..])
  {
    BlockFits(l, disk.Length, m);
    WriteAt(disk, l.Base(m) + at, b);
  }
}
