/**
  A window of the storage with a cursor. Writes go to every mirror of the window, reads to
  the first one. This is the stream through which the File Allocation Table is accessed.
  */
module DiskSlices {

  import opened Options
  import opened Bytes
  import opened Blocks
  import opened Arithmetic
  import opened Storages

  datatype StreamError = UnexpectedEof | WriteZero | InvalidInput

  /** Mirror `m` of `d'` is that of `d`, with `b` written at offset `at` if `m` is below `upto`. */
  ghost predicate CopyIs(l: Layout, d: seq<byte>, d': seq<byte>, at: nat, b: seq<byte>, m: nat, upto: nat)
    requires l.Fits(|d|) && at + |b| <= l.size && m < l.count && |d'| == |d|
  {
    Block(l, d', m) == if m < upto then Splice(Block(l, d, m), at, b) else Block(l, d, m)
  }

  ghost predicate Copied(l: Layout, d: seq<byte>, d': seq<byte>, at: nat, b: seq<byte>, upto: nat)
    requires l.Fits(|d|) && at + |b| <= l.size
  {
    |d'| == |d| && forall m :: 0 <= m < l.count ==> CopyIs(l, d, d', at, b, m, upto)
  }

  /** Beside the window only the status byte changes, and that only when the volume is marked dirty. */
  ghost predicate Beside(l: Layout, p: Port, i: Image, i': Image) {
    && p.flagsAt < |i.bytes| == |i'.bytes| && (i.dirty ==> i'.dirty)
    && i'.bytes[p.flagsAt] == (if i'.dirty && !i.dirty then p.status else i.bytes[p.flagsAt])
    && forall k {:trigger i'.bytes[k]} :: 0 <= k < |i.bytes| && k != p.flagsAt && !(l.begin <= k < l.End()) ==>
         i'.bytes[k] == i.bytes[k]
  }

  lemma BesideTrans(l: Layout, p: Port, i: Image, i1: Image, i2: Image)
    requires Beside(l, p, i, i1) && Beside(l, p, i1, i2)
    ensures Beside(l, p, i, i2)
  {
  }

  /** `i'` is `i` with `b` written at offset `at` of every mirror, and nothing else. */
  ghost predicate Mirrored(l: Layout, p: Port, i: Image, i': Image, at: nat, b: seq<byte>)
    requires l.Fits(|i.bytes|) && at + |b| <= l.size
  {
    Copied(l, i.bytes, i'.bytes, at, b, l.count) && Beside(l, p, i, i')
  }

  lemma CopyStep(l: Layout, d: seq<byte>, d': seq<byte>, at: nat, b: seq<byte>, m: nat, m': nat, d1: seq<byte>)
    requires l.Fits(|d|) && at + |b| <= l.size && m < l.count && m' < l.count && |d'| == |d|
    requires CopyIs(l, d, d', at, b, m', m) && Wrote(l, d', at, b, m, d1)
    ensures |d1| == |d| && CopyIs(l, d, d1, at, b, m', m + 1)
  {
    if m' == m { WriteBlock(l, d', m, at, b, d1); } else { WriteOtherBlock(l, d', m, at, b, m', d1); }
  }

  lemma MirrorStep(l: Layout, d: seq<byte>, d': seq<byte>, at: nat, b: seq<byte>, m: nat, d1: seq<byte>, next: nat)
    requires l.Fits(|d|) && at + |b| <= l.size && m < l.count && next == m + 1
    requires Copied(l, d, d', at, b, m) && Wrote(l, d', at, b, m, d1)
    ensures Copied(l, d, d1, at, b, next)
  {
    forall m' | 0 <= m' < l.count ensures |d1| == |d| && CopyIs(l, d, d1, at, b, m', next) {
      CopyStep(l, d, d', at, b, m, m', d1);
    }
  }

  ghost predicate MirrorsEqual(l: Layout, d: seq<byte>)
    requires l.Fits(|d|) && l.count > 0
  {
    forall m :: 0 <= m < l.count ==> Block(l, d, m) == Block(l, d, 0)
  }

  /** Mirrors that were equal before a mirrored write are equal after it. */
  lemma MirrorsStayEqual(l: Layout, d: seq<byte>, d': seq<byte>, at: nat, b: seq<byte>)
    requires l.Fits(|d|) && l.count > 0 && at + |b| <= l.size && Copied(l, d, d', at, b, l.count)
    requires MirrorsEqual(l, d)
    ensures MirrorsEqual(l, d')
  {
    forall m | 0 <= m < l.count ensures Block(l, d', m) == Block(l, d', 0) {
      assert CopyIs(l, d, d', at, b, m, l.count) && CopyIs(l, d, d', at, b, 0, l.count);
    }
  }

  // ---------------------------------------------------------------- writing piece by piece

  /** The storage after a write of `b` to mirror `m` and all behind it, each written until everything is taken. */
  function Mirrors(p: Port, l: Layout, s: Store, at: nat, b: seq<byte>, m: nat): (r: Store)
    requires l.Fits(|s.bytes|) && at + |b| <= l.size && p.flagsAt < l.begin && m <= l.count
    ensures |r.bytes| == |s.bytes|
    decreases l.count - m
  {
    if m == l.count then s
    else
      BlockFits(l, |s.bytes|, m);
      Mirrors(p, l, TookAll(p, s.At(l.Base(m) + at), b), at, b, m + 1)
  }

  /** The status byte is in no mirror. */
  lemma StatusBeside(l: Layout, p: Port, d: seq<byte>, d': seq<byte>, at: nat, b: seq<byte>, m: nat)
    requires l.Fits(|d|) && at + |b| <= l.size && p.flagsAt < l.begin <= |d| && Copied(l, d, d', at, b, m)
    ensures Copied(l, d, Splice(d', p.flagsAt, [p.status]), at, b, m)
  {
    var d1 := Splice(d', p.flagsAt, [p.status]);
    forall m' | 0 <= m' < l.count ensures CopyIs(l, d, d1, at, b, m', m) {
      BlockFits(l, |d|, m');
      assert CopyIs(l, d, d', at, b, m', m);
      SpliceElsewhere(d', p.flagsAt, [p.status], l.Base(m'), l.Base(m') + l.size);
    }
  }

  /** Beside the window a safe write changes at most the status byte. */
  lemma SafeBeside(p: Port, l: Layout, s: Store, at: nat, b: seq<byte>, m: nat, r: Store)
    requires l.Fits(|s.bytes|) && at + |b| <= l.size && p.flagsAt < l.begin && m < l.count
    requires l.Base(m) + at + |b| <= |s.bytes| && p.flagsAt + 1 + |b| <= |s.bytes|
    requires Safe(p, s.dirty, s.calls, |b|) && r == TookAll(p, s.At(l.Base(m) + at), b)
    ensures Beside(l, p, s.Left(), r.Left())
  {
    hide TookAll, Layout.Base;
    BlockFits(l, |s.bytes|, m);
    SafeJoin(p, s.At(l.Base(m) + at), b);
  }

  /** A safe write to one mirror. */
  lemma SafeMirror(p: Port, l: Layout, i: Image, s: Store, at: nat, b: seq<byte>, m: nat, r: Store)
    requires l.Fits(|i.bytes|) && at + |b| <= l.size && p.flagsAt < l.begin && m < l.count
    requires l.Base(m) + at + |b| <= |s.bytes| && p.flagsAt + 1 + |b| <= |s.bytes|
    requires Copied(l, i.bytes, s.bytes, at, b, m) && Safe(p, s.dirty, s.calls, |b|)
    requires r == TookAll(p, s.At(l.Base(m) + at), b)
    ensures Copied(l, i.bytes, r.bytes, at, b, m + 1) && Safe(p, r.dirty, r.calls, |b|)
  {
    hide Copied, TookAll, Layout.Base;
    BlockFits(l, |i.bytes|, m);
    SafeJoin(p, s.At(l.Base(m) + at), b);
    var d := Splice(s.bytes, l.Base(m) + at, b);
    MirrorStep(l, i.bytes, s.bytes, at, b, m, d, m + 1);
    StatusBeside(l, p, i.bytes, d, at, b, m + 1);
  }

  /** Safe writes are mirrored, whatever the pieces are that the storage takes. */
  lemma {:induction false} SafeMirrors(p: Port, l: Layout, i: Image, s: Store, at: nat, b: seq<byte>, m: nat)
    requires l.Fits(|i.bytes|) && |s.bytes| == |i.bytes| && at + |b| <= l.size && p.flagsAt < l.begin && m <= l.count
    requires Copied(l, i.bytes, s.bytes, at, b, m) && Beside(l, p, i, s.Left()) && Safe(p, s.dirty, s.calls, |b|)
    ensures Mirrored(l, p, i, Mirrors(p, l, s, at, b, m).Left(), at, b)
    decreases l.count - m
  {
    hide Copied, Beside, Safe, TookAll;
    if m < l.count {
      BlockFits(l, |s.bytes|, m);
      var r := TookAll(p, s.At(l.Base(m) + at), b);
      SafeMirror(p, l, i, s, at, b, m, r);
      SafeBeside(p, l, s, at, b, m, r);
      BesideTrans(l, p, i, s.Left(), r.Left());
      SafeMirrors(p, l, i, r, at, b, m + 1);
    }
  }

  /** On a dirty volume a write to mirror `m` and those behind it leaves the mirrors before alone. */
  lemma {:induction false} EarlierKept(p: Port, l: Layout, s: Store, at: nat, b: seq<byte>, m: nat, k: nat)
    requires l.Fits(|s.bytes|) && at + |b| <= l.size && p.flagsAt < l.begin && m <= l.count && s.dirty
    requires k < l.Base(m) && k < |s.bytes|
    ensures Mirrors(p, l, s, at, b, m).bytes[k] == s.bytes[k]
    decreases l.count - m
  {
    if m < l.count {
      BlockFits(l, |s.bytes|, m);
      PiecesJoin(p, s.At(l.Base(m) + at), b);
      EarlierKept(p, l, TookAll(p, s.At(l.Base(m) + at), b), at, b, m + 1, k);
    }
  }

  /**
    A clean volume and a storage that takes less than all of the first piece: the first mirror keeps
    an old byte where the rest should be, and that rest is written behind the status byte.
    */
  lemma ShortWriteStrays(p: Port, l: Layout, s: Store, at: nat, b: seq<byte>)
    requires l.Fits(|s.bytes|) && l.count > 0 && at + |b| <= l.size && p.flagsAt + |b| < l.begin
    requires !Safe(p, s.dirty, s.calls, |b|)
    ensures var n, r := p.counts(s.calls), Mirrors(p, l, s, at, b, 0).bytes;
            && n < |b| && l.begin + at + n < |s.bytes| && r[l.begin + at + n] == s.bytes[l.begin + at + n]
            && r[p.flagsAt + 1] == b[n]
  {
    hide TookAll;
    BlockFits(l, |s.bytes|, 0);
    var n := p.counts(s.calls);
    RestStrays(p, s.At(l.begin + at), b);
    var r := TookAll(p, s.At(l.begin + at), b);
    assert Mirrors(p, l, s, at, b, 0) == Mirrors(p, l, r, at, b, 1);
    EarlierKept(p, l, r, at, b, 1, l.begin + at + n);
    EarlierKept(p, l, r, at, b, 1, p.flagsAt + 1);
  }

  /**
    Writes of `n` bytes are mirrored for all contents exactly if the volume is dirty already or the
    storage takes the first of them in one piece.
    */
  lemma WritesExactly(p: Port, l: Layout, size: nat, dirty: bool, calls: nat, at: nat, n: nat)
    requires l.Fits(size) && l.count > 0 && at + n <= l.size && p.flagsAt + n < l.begin
    ensures Safe(p, dirty, calls, n)
            <==> forall d: seq<byte>, b: seq<byte>, pos: nat :: |d| == size && |b| == n ==>
                   Mirrored(l, p, Image(d, dirty), Mirrors(p, l, Store(d, pos, dirty, calls), at, b, 0).Left(), at, b)
  {
    BlockFits(l, size, 0);
    if Safe(p, dirty, calls, n) {
      forall d: seq<byte>, b: seq<byte>, pos: nat | |d| == size && |b| == n
        ensures Mirrored(l, p, Image(d, dirty), Mirrors(p, l, Store(d, pos, dirty, calls), at, b, 0).Left(), at, b)
      {
        SafeMirrors(p, l, Image(d, dirty), Store(d, pos, dirty, calls), at, b, 0);
      }
    } else {
      NotMirrored(p, l, Store(Zeros(size), 0, dirty, calls), at, seq(n, _ => 1));
    }
  }

  lemma NotMirrored(p: Port, l: Layout, s: Store, at: nat, b: seq<byte>)
    requires l.Fits(|s.bytes|) && l.count > 0 && at + |b| <= l.size && p.flagsAt + |b| < l.begin
    requires s.bytes == Zeros(|s.bytes|) && !Safe(p, s.dirty, s.calls, |b|) && forall k :: 0 <= k < |b| ==> b[k] == 1
    ensures !Mirrored(l, p, s.Left(), Mirrors(p, l, s, at, b, 0).Left(), at, b)
  {
    ShortWriteStrays(p, l, s, at, b);
    var n, r := p.counts(s.calls), Mirrors(p, l, s, at, b, 0).bytes;
    BlockFits(l, |s.bytes|, 0);
    assert Block(l, r, 0)[at + n] == 0;
  }

  class DiskSlice {
    const disk: array<byte>
    const layout: Layout
    const port: Port
    var offset: nat
    /** The storage below: its position, whether the volume is marked dirty, and the calls so far. */
    var pos: nat
    var dirty: bool
    var calls: nat

    ghost predicate Valid()
      reads this
    {
      layout.Fits(disk.Length) && layout.count > 0 && offset <= layout.size && port.flagsAt < layout.begin
    }

    /** The contents of the window, as reads see them. */
    ghost function View(): (s: seq<byte>)
      requires layout.Fits(disk.Length) && layout.count > 0
      reads disk
      ensures |s| == layout.size
    {
      Block(layout, disk[..], 0)
    }

    ghost function Store(): Store
      reads this, disk
    {
      Storages.Store(disk[..], pos, dirty, calls)
    }

    ghost function Image(): (i: Image)
      reads this, disk
      ensures i.bytes == disk[..] && i.dirty == dirty
    {
      Storages.Image(disk[..], dirty)
    }

    /** The next `n` bytes are written where they should be. */
    predicate Ready(n: nat)
      reads this
    {
      Safe(port, dirty, calls, n)
    }

    constructor (disk: array<byte>, layout: Layout, port: Port, dirty: bool, calls: nat)
      requires layout.Fits(disk.Length) && layout.count > 0 && port.flagsAt < layout.begin
      ensures Valid() && this.disk == disk && this.layout == layout && this.port == port
      ensures offset == 0 && this.dirty == dirty && this.calls == calls
    {
      this.disk := disk;
      this.layout := layout;
      this.port := port;
      this.dirty := dirty;
      this.calls := calls;
      offset, pos := 0, 0;
    }

    /** Positions before the start or past the end are refused and leave the cursor where it is. */
    method Seek(to: SeekFrom) returns (ok: bool)
      requires Valid()
      modifies this`offset
      ensures var n: int := match to
                case FromStart(n) => n
                case FromEnd(delta) => layout.size + delta
                case FromCurrent(delta) => old(offset) + delta;
              Valid() && ok == (0 <= n <= layout.size) && offset == if ok then n else old(offset)
    {
      var n: int;
      match to {
        case FromStart(k) => n := k;
        case FromEnd(delta) => n := layout.size + delta;
        case FromCurrent(delta) => n := offset + delta;
      }
      ok := 0 <= n <= layout.size;
      if ok { offset := n; }
    }

    /** Reads `n` bytes at the cursor, or consumes what is left and reports the end of the window. */
    method ReadExact(n: nat) returns (r: Result<seq<byte>, StreamError>)
      requires Valid()
      modifies this`offset
      ensures Valid()
      ensures r.Ok? <==> old(offset) + n <= layout.size
      ensures r.Ok? ==> r.value == View()[old(offset)..old(offset) + n] && offset == old(offset) + n
      ensures r.Err? ==> r.error == UnexpectedEof && offset == layout.size
    {
      BlockFits(layout, disk.Length, 0);
      if offset + n <= layout.size {
        var base, at := layout.Base(0), offset;
        r := Ok(disk[base + at..base + at + n]);
        assert r.value == disk[..][base + at..base + at + n];
        SubWindow(disk[..], base, layout.size, at, n);
        offset := offset + n;
      } else {
        offset := layout.size;
        r := Err(UnexpectedEof);
      }
    }

    /** One call of the storage, and the status byte behind it. */
    method WriteSome(b: seq<byte>) returns (n: nat)
      requires b != [] && pos + |b| <= disk.Length && port.flagsAt < disk.Length
      modifies this`pos, this`dirty, this`calls, disk
      ensures (Store(), n) == Took(port, old(Store()), b)
    {
      n := Min(port.counts(calls), |b|);
      Put(disk, pos, b[..n]);
      pos, calls := pos + n, calls + 1;
      MarkDirty();
    }

    /** Writes the status byte of a dirty volume, unless it is marked already. */
    method MarkDirty()
      requires port.flagsAt < disk.Length
      modifies this`pos, this`dirty, disk
      ensures Store() == Mark(port, old(Store()))
    {
      if !dirty {
        Put(disk, port.flagsAt, [port.status]);
        pos, dirty := port.flagsAt + 1, true;
      }
    }

    /** Calls until everything is written, from the position that each call finds. */
    method WritePieces(b: seq<byte>)
      requires pos + |b| <= disk.Length && port.flagsAt + 1 + |b| <= disk.Length
      modifies this`pos, this`dirty, this`calls, disk
      ensures Store() == TookAll(port, old(Store()), b)
    {
      var rest := b;
      while rest != []
        invariant pos + |rest| <= disk.Length && |rest| <= |b|
        invariant TookAll(port, Store(), rest) == TookAll(port, old(Store()), b)
        decreases |rest|
      {
        var n := WriteSome(rest);
        rest := rest[n..];
      }
    }

    /** Writes `b` at offset `at` of every mirror. */
    method WriteMirrors(at: nat, b: seq<byte>)
      requires Valid() && at + |b| <= layout.size
      modifies this`pos, this`dirty, this`calls, disk
      ensures Store() == Mirrors(port, layout, old(Store()), at, b, 0)
    {
      hide TookAll;
      for i := 0 to layout.count
        invariant Mirrors(port, layout, Store(), at, b, i) == Mirrors(port, layout, old(Store()), at, b, 0)
      {
        BlockFits(layout, disk.Length, i);
        pos := layout.Base(i) + at;
        WritePieces(b);
      }
    }

    /**
      Writes all of `b` at the cursor to every mirror; a buffer that does not fit is cut and refused.
      On a dirty volume, or if the storage takes the first piece whole, every mirror has `b` then.
      */
    method WriteAll(b: seq<byte>) returns (r: Result<(), StreamError>)
      requires Valid()
      modifies this, disk
      ensures Valid() && (r.Ok? <==> old(offset) + |b| <= layout.size) && (r.Err? ==> r.error == WriteZero)
      ensures var w := if r.Ok? then |b| else layout.size - old(offset);
              && offset == old(offset) + w
              && Store() == Mirrors(port, layout, old(Store()), old(offset), b[..w], 0)
              && (old(Ready(w)) ==> Mirrored(layout, port, old(Image()), Image(), old(offset), b[..w]))
      ensures old(dirty) || (b != [] && r.Ok?) ==> dirty
      ensures old(offset) == layout.size ==> dirty == old(dirty) && calls == old(calls)
    {
      hide Mirrored, Mirrors, Copied, Beside;
      var at := offset;
      var w := if at + |b| <= layout.size then |b| else layout.size - at;
      ghost var s, i := Store(), Image();
      WriteMirrors(at, b[..w]);
      if Safe(port, s.dirty, s.calls, w) {
        NothingCopied(layout, port, i, at, b[..w]);
        SafeMirrors(port, layout, i, s, at, b[..w], 0);
      }
      MirrorsMark(port, layout, s, at, b[..w], 0);
      offset := at + w;
      r := if w == |b| then Ok(()) else Err(WriteZero);
    }
  }

  lemma NothingCopied(l: Layout, p: Port, i: Image, at: nat, b: seq<byte>)
    requires l.Fits(|i.bytes|) && at + |b| <= l.size && p.flagsAt < |i.bytes|
    ensures Copied(l, i.bytes, i.bytes, at, b, 0) && Beside(l, p, i, i)
  {
  }

  /** Writing anything marks the volume dirty; writing nothing leaves everything as it is. */
  lemma {:induction false} MirrorsMark(p: Port, l: Layout, s: Store, at: nat, b: seq<byte>, m: nat)
    requires l.Fits(|s.bytes|) && at + |b| <= l.size && p.flagsAt < l.begin && m <= l.count
    ensures var r := Mirrors(p, l, s, at, b, m);
            && r.dirty == (s.dirty || (b != [] && m < l.count))
            && (b == [] ==> r.calls == s.calls && r.bytes == s.bytes)
    decreases l.count - m
  {
    hide TookAll, Layout.Base;
    if m < l.count {
      BlockFits(l, |s.bytes|, m);
      TookMarks(p, s.At(l.Base(m) + at), b);
      MirrorsMark(p, l, TookAll(p, s.At(l.Base(m) + at), b), at, b, m + 1);
    }
  }

  lemma TookMarks(p: Port, s: Store, b: seq<byte>)
    requires s.pos + |b| <= |s.bytes| && p.flagsAt + 1 + |b| <= |s.bytes|
    ensures TookAll(p, s, b).dirty == (s.dirty || b != []) && (b == [] ==> TookAll(p, s, b) == s)
  {
    if s.dirty { PiecesJoin(p, s, b); } else if b != [] { RestStrays(p, s, b); }
  }
}
