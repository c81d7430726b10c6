/**
  The bytes of a file as one flat sequence: the clusters of its chain one behind the other.
  */
module FileContents {

  import opened Bytes
  import opened Blocks
  import opened Cursor
  import opened FatChains
  import opened Pigeonhole

  // ---------------------------------------------------------------- flat files

  /** Overwrites from `pos` on and extends if the end is reached; there are no holes. */
  function Overwrite(s: seq<byte>, pos: nat, b: seq<byte>): (r: seq<byte>)
    requires pos <= |s|
    ensures |r| == if pos + |b| <= |s| then |s| else pos + |b|
  {
    s[..pos] + b + (if pos + |b| <= |s| then s[pos + |b|..] else [])
  }

  /** A file as users see it: a sequence of bytes and a position in it. */
  datatype FlatFile = FlatFile(bytes: seq<byte>, pos: nat)

  function FlatRead(f: FlatFile, n: nat): (r: (FlatFile, seq<byte>))
    requires f.pos + n <= |f.bytes|
  {
    (FlatFile(f.bytes, f.pos + n), f.bytes[f.pos..f.pos + n])
  }

  function FlatWrite(f: FlatFile, b: seq<byte>): (r: FlatFile)
    requires f.pos <= |f.bytes|
  {
    FlatFile(Overwrite(f.bytes, f.pos, b), f.pos + |b|)
  }

  function FlatSeek(f: FlatFile, to: nat): (r: FlatFile)
    ensures r.pos <= |f.bytes|
  {
    FlatFile(f.bytes, if to < |f.bytes| then to else |f.bytes|)
  }

  function FlatTruncate(f: FlatFile): (r: FlatFile)
    requires f.pos <= |f.bytes|
  {
    FlatFile(f.bytes[..f.pos], f.pos)
  }

  /** Two writes in a row are one write of both, so a buffer may be written in pieces of any size. */
  lemma WriteInPieces(f: FlatFile, b: seq<byte>, c: seq<byte>)
    requires f.pos <= |f.bytes|
    ensures FlatWrite(FlatWrite(f, b), c) == FlatWrite(f, b + c)
  {
  }

  /** Emptying a file and writing to it leaves what was written. */
  lemma Replaced(f: FlatFile, b: seq<byte>)
    ensures FlatWrite(FlatTruncate(FlatSeek(f, 0)), b) == FlatFile(b, |b|)
  {
    assert f.bytes[..0] == [];
    assert Overwrite([], 0, b) == b;
  }

  lemma OverwriteInside(s: seq<byte>, pos: nat, b: seq<byte>)
    requires pos + |b| <= |s|
    ensures Overwrite(s, pos, b) == Splice(s, pos, b)
  {
  }

  /** Writing into a larger buffer and cutting it to the file's size is writing to the file. */
  lemma OverwritePrefix(s: seq<byte>, size: nat, pos: nat, b: seq<byte>)
    requires pos <= size <= |s| && pos + |b| <= |s|
    ensures var n := if pos + |b| <= size then size else pos + |b|;
            Splice(s, pos, b)[..n] == Overwrite(s[..size], pos, b)
  {
  }

  // ---------------------------------------------------------------- clusters in a row

  ghost predicate Uniform(bl: seq<seq<byte>>, cs: nat) {
    forall i :: 0 <= i < |bl| ==> |bl[i]| == cs
  }

  ghost function Flat(bl: seq<seq<byte>>): (r: seq<byte>) {
    if bl == [] then [] else Flat(bl[..|bl| - 1]) + bl[|bl| - 1]
  }

  lemma {:induction false} FlatLength(bl: seq<seq<byte>>, cs: nat)
    requires Uniform(bl, cs)
    ensures |Flat(bl)| == Span(|bl|, cs)
  {
    if bl != [] {
      FlatLength(bl[..|bl| - 1], cs);
    }
  }

  /** Where cluster `k` starts in the flat file. */
  ghost function Start(bl: seq<seq<byte>>, k: nat): (lo: nat)
    requires k <= |bl|
  {
    |Flat(bl[..k])|
  }

  lemma StartIsSpan(bl: seq<seq<byte>>, cs: nat, k: nat)
    requires Uniform(bl, cs) && k <= |bl|
    ensures Start(bl, k) == Span(k, cs)
  {
    FlatLength(bl[..k], cs);
  }

  lemma StartFront(bl: seq<seq<byte>>, k: nat)
    requires k < |bl|
    ensures Start(bl[..|bl| - 1], k) == Start(bl, k)
  {
    assert bl[..|bl| - 1][..k] == bl[..k];
  }

  /** The bytes from the start of cluster `k` on are those of cluster `k`. */
  lemma {:induction false} FlatCluster(bl: seq<seq<byte>>, cs: nat, k: nat)
    requires Uniform(bl, cs) && k < |bl|
    ensures Start(bl, k) + cs <= |Flat(bl)| && Flat(bl)[Start(bl, k)..Start(bl, k) + cs] == bl[k]
  {
    var front, lo := bl[..|bl| - 1], Start(bl, k);
    if k < |bl| - 1 {
      StartFront(bl, k);
      FlatCluster(front, cs, k);
      assert Flat(bl)[lo..lo + cs] == Flat(front)[lo..lo + cs];
    }
  }

  lemma ClusterRead(bl: seq<seq<byte>>, cs: nat, k: nat, at: nat, n: nat, lo: nat)
    requires Uniform(bl, cs) && k < |bl| && at + n <= cs && lo == Start(bl, k)
    ensures lo + at + n <= |Flat(bl)| && Flat(bl)[lo + at..lo + at + n] == bl[k][at..at + n]
  {
    FlatCluster(bl, cs, k);
    SubWindow(Flat(bl), lo, cs, at, n);
  }

  /** Writing inside one cluster is writing at the matching place of the flat file. */
  lemma {:induction false} ClusterWrite(bl: seq<seq<byte>>, k: nat, at: nat, b: seq<byte>, bl': seq<seq<byte>>, lo: nat)
    requires k < |bl| && at + |b| <= |bl[k]| && lo == Start(bl, k)
    requires bl' == bl[k := Splice(bl[k], at, b)]
    ensures lo + at + |b| <= |Flat(bl)| && Flat(bl') == Splice(Flat(bl), lo + at, b)
  {
    var front, last := bl[..|bl| - 1], bl[|bl| - 1];
    if k < |bl| - 1 {
      var front' := front[k := Splice(front[k], at, b)];
      assert bl'[..|bl| - 1] == front' && bl'[|bl| - 1] == last;
      StartFront(bl, k);
      ClusterWrite(front, k, at, b, front', lo);
      SpliceLeft(Flat(front), last, lo + at, b);
    } else {
      assert bl'[..|bl| - 1] == front;
      SpliceRight(Flat(front), last, at, b);
    }
  }

  lemma SpliceLeft(x: seq<byte>, y: seq<byte>, at: nat, b: seq<byte>)
    requires at + |b| <= |x|
    ensures Splice(x, at, b) + y == Splice(x + y, at, b)
  {
  }

  lemma SpliceRight(x: seq<byte>, y: seq<byte>, at: nat, b: seq<byte>)
    requires at + |b| <= |y|
    ensures x + Splice(y, at, b) == Splice(x + y, |x| + at, b)
  {
  }

  /** Keeping the first `k` clusters keeps the bytes up to the start of the next one. */
  lemma {:induction false} FlatPrefix(bl: seq<seq<byte>>, k: nat)
    requires k <= |bl|
    ensures Start(bl, k) <= |Flat(bl)| && Flat(bl[..k]) == Flat(bl)[..Start(bl, k)]
  {
    if k == |bl| {
      assert bl[..k] == bl;
    } else {
      var front := bl[..|bl| - 1];
      FlatPrefix(front, k);
      assert front[..k] == bl[..k];
      assert Flat(bl)[..Start(bl, k)] == Flat(front)[..Start(bl, k)];
    }
  }

  // ---------------------------------------------------------------- the clusters of a chain

  /** Every member of the chain has a block in the data region. */
  ghost predicate Placed(data: Layout, chain: seq<nat>) {
    forall i :: 0 <= i < |chain| ==> RESERVED_FAT_ENTRIES <= chain[i] < data.count + RESERVED_FAT_ENTRIES
  }

  ghost function ClusterBytes(data: Layout, d: seq<byte>, c: nat): (b: seq<byte>)
    requires data.Fits(|d|) && RESERVED_FAT_ENTRIES <= c < data.count + RESERVED_FAT_ENTRIES
    ensures |b| == data.size
  {
    Block(data, d, c - RESERVED_FAT_ENTRIES)
  }

  ghost function ChainBlocks(data: Layout, d: seq<byte>, chain: seq<nat>): (bl: seq<seq<byte>>)
    requires data.Fits(|d|) && Placed(data, chain)
    ensures |bl| == |chain| && Uniform(bl, data.size)
    ensures forall i {:trigger bl[i]} :: 0 <= i < |chain| ==> bl[i] == ClusterBytes(data, d, chain[i])
  {
    seq(|chain|, i requires 0 <= i < |chain| => ClusterBytes(data, d, chain[i]))
  }

  /** The bytes stored in a chain. */
  ghost function ChainBytes(data: Layout, d: seq<byte>, chain: seq<nat>): (b: seq<byte>)
    requires data.Fits(|d|) && Placed(data, chain)
  {
    Flat(ChainBlocks(data, d, chain))
  }

  lemma ChainBytesLength(data: Layout, d: seq<byte>, chain: seq<nat>)
    requires data.Fits(|d|) && Placed(data, chain)
    ensures |ChainBytes(data, d, chain)| == Span(|chain|, data.size)
  {
    FlatLength(ChainBlocks(data, d, chain), data.size);
  }

  /** The bytes of a chain depend on its clusters only. */
  lemma ChainBytesSame(data: Layout, d: seq<byte>, d': seq<byte>, chain: seq<nat>)
    requires data.Fits(|d|) && |d'| == |d| && Placed(data, chain)
    requires forall i :: 0 <= i < |chain| ==> ClusterBytes(data, d', chain[i]) == ClusterBytes(data, d, chain[i])
    ensures ChainBytes(data, d', chain) == ChainBytes(data, d, chain)
  {
    assert ChainBlocks(data, d', chain) == ChainBlocks(data, d, chain);
  }

  lemma ChainBytesRead(data: Layout, d: seq<byte>, chain: seq<nat>, k: nat, at: nat, n: nat, pos: nat)
    requires data.Fits(|d|) && Placed(data, chain) && k < |chain| && at + n <= data.size
             && pos == Span(k, data.size) + at
    ensures pos + n <= |ChainBytes(data, d, chain)|
    ensures ChainBytes(data, d, chain)[pos..pos + n] == ClusterBytes(data, d, chain[k])[at..at + n]
  {
    var bl := ChainBlocks(data, d, chain);
    StartIsSpan(bl, data.size, k);
    ClusterRead(bl, data.size, k, at, n, Start(bl, k));
  }

  /** Writing in one cluster of a chain is writing at the matching place of its bytes. */
  lemma ChainBytesWrite(data: Layout, d: seq<byte>, chain: seq<nat>, k: nat, at: nat, b: seq<byte>, d': seq<byte>,
                        pos: nat)
    requires data.Fits(|d|) && |d'| == |d| && Placed(data, chain) && Distinct(chain) && k < |chain|
    requires at + |b| <= data.size && pos == Span(k, data.size) + at
    requires ClusterBytes(data, d', chain[k]) == Splice(ClusterBytes(data, d, chain[k]), at, b)
    requires forall i :: 0 <= i < |chain| && i != k
               ==> ClusterBytes(data, d', chain[i]) == ClusterBytes(data, d, chain[i])
    ensures pos + |b| <= |ChainBytes(data, d, chain)|
    ensures ChainBytes(data, d', chain) == Splice(ChainBytes(data, d, chain), pos, b)
  {
    var bl, bl' := ChainBlocks(data, d, chain), ChainBlocks(data, d', chain);
    assert bl' == bl[k := Splice(bl[k], at, b)];
    StartIsSpan(bl, data.size, k);
    ClusterWrite(bl, k, at, b, bl', Start(bl, k));
  }

  lemma ChainBytesAppend(data: Layout, d: seq<byte>, chain: seq<nat>, n: nat)
    requires data.Fits(|d|) && Placed(data, chain) && Placed(data, chain + [n])
    requires RESERVED_FAT_ENTRIES <= n < data.count + RESERVED_FAT_ENTRIES
    ensures ChainBytes(data, d, chain + [n]) == ChainBytes(data, d, chain) + ClusterBytes(data, d, n)
  {
    var bl := ChainBlocks(data, d, chain + [n]);
    assert bl[..|bl| - 1] == ChainBlocks(data, d, chain);
  }

  lemma ChainBytesPrefix(data: Layout, d: seq<byte>, chain: seq<nat>, k: nat, len: nat)
    requires data.Fits(|d|) && Placed(data, chain) && k <= |chain| && Placed(data, chain[..k])
             && len == Span(k, data.size)
    ensures len <= |ChainBytes(data, d, chain)|
    ensures ChainBytes(data, d, chain[..k]) == ChainBytes(data, d, chain)[..len]
  {
    var bl := ChainBlocks(data, d, chain);
    assert ChainBlocks(data, d, chain[..k]) == bl[..k];
    StartIsSpan(bl, data.size, k);
    FlatPrefix(bl, k);
  }
}
