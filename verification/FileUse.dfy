/** Whole buffers written to and read from open files, whatever the pieces are that single calls take. */
module FileUse {

  import opened Options
  import opened Bytes
  import opened Storages
  import opened FatChains
  import opened FatWalk
  import opened FatRuns
  import opened FileSystems
  import opened FileContents
  import opened FileChains
  import opened Files

  datatype UseError = NoSpace | WriteZero

  /** A file whose recorded size is not more than its clusters hold. */
  ghost predicate Snug(f: File)
    reads f, f.fs, f.fs.disk
  {
    f.Valid() && f.size.Some? && f.size.value <= |f.AllBytes()|
  }

  /** What writing has done since the image `d`, when the file had the chain `c`. */
  ghost predicate Since(f: File, d: seq<byte>, c: seq<nat>, first: Option<nat>)
    requires f.Valid()
    reads f, f.fs, f.fs.disk
  {
    && |d| == f.fs.disk.Length && WellFormed(TableAt(f.fs.g, d)) && Linked(TableAt(f.fs.g, d), c, first)
    && NewMembers(TableAt(f.fs.g, d), c, f.chain) && FreeKept(f.fs.g, d, f.fs.disk[..]) && f.Apart(d, c)
  }

  lemma SinceNow(f: File)
    requires f.Valid()
    ensures Since(f, f.fs.disk[..], f.chain, f.firstCluster)
  {
    UnchangedOk(f.fs.g, f.fs.disk[..], f.State());
  }

  lemma SinceNext(f: File, d: seq<byte>, c: seq<nat>, first: Option<nat>, d1: seq<byte>, c1: seq<nat>, n: Option<nat>)
    requires f.Valid() && |d| == |d1| == f.fs.disk.Length
    requires WellFormed(TableAt(f.fs.g, d)) && Linked(TableAt(f.fs.g, d), c, first)
    requires NewMembers(TableAt(f.fs.g, d), c, c1) && FreeKept(f.fs.g, d, d1) && OthersKept(f.fs.g, d, d1, c)
    requires f.Apart(d1, c1) && FreeKept(f.fs.g, d1, f.fs.disk[..])
    requires n.Some? ==> InRange(TableAt(f.fs.g, d1), n.value) && TableAt(f.fs.g, d1)[n.value].Free?
    requires f.chain == c1 || (n.Some? && f.chain == c1 + [n.value])
    ensures Since(f, d, c, first)
  {
    hide OthersKept, WellFormed, Linked;
    FreeKeptTrans(f.fs.g, d, d1, f.fs.disk[..]);
    LengtheningKeeps(f.fs.g, d, d1, f.fs.disk[..], c, first, c1);
  }

  /** A write to such a file shows nothing but what is written. */
  method WriteSome(f: File, b: seq<byte>, count: Taken) returns (r: Result<nat, UseError>)
    requires Snug(f) && b != []
    modifies f, f.fs, f.fs.disk
    ensures Snug(f) && f.Apart(old(f.fs.disk[..]), old(f.chain)) && FreeKept(f.fs.g, old(f.fs.disk[..]), f.fs.disk[..])
    ensures f.chain == old(f.chain) || (old(f.NextFree()).Some? && f.chain == old(f.chain) + [old(f.NextFree()).value])
    ensures r.Ok? ==> 0 < r.value <= |b| && f.Flat() == FlatWrite(old(f.Flat()), b[..r.value])
    ensures r.Err? ==> f.Flat() == old(f.Flat())
    ensures r.Err? ==> f.offset == MAX_FILE_SIZE || (f.offset == |f.AllBytes()| && NoneFree(f.fs.Table()))
  {
    hide OthersKept, FreeKept, Overwrite, Room, NoneFree, SearchFree, Alloc, OpenOk, Sound, All, Shown, Revealed,
      Appended, WellFormed;
    ghost var contents, off := f.Contents(), f.offset;
    var w, fill := f.Write(b, count);
    assert fill == [] && contents + fill == contents;
    OverwriteNothing(contents, off);
    StaysSnug(f);
    match w
    case Err(_) => r := Err(NoSpace);
    case Ok(k) => r := if k == 0 then Err(WriteZero) else Ok(k);
  }

  lemma StaysSnug(f: File)
    requires f.Valid()
    ensures f.offset <= |f.AllBytes()|
  {
    OffsetInAll(f.fs.g, f.fs.disk[..], f.State());
  }

  /** One piece of a buffer. */
  method WritePiece(f: File, b: seq<byte>, count: Taken, ghost d: seq<byte>, ghost c: seq<nat>,
                    ghost first: Option<nat>)
    returns (r: Result<nat, UseError>)
    requires Snug(f) && b != [] && Since(f, d, c, first)
    modifies f, f.fs, f.fs.disk
    ensures Snug(f) && Since(f, d, c, first)
    ensures r.Ok? ==> 0 < r.value <= |b| && f.Flat() == FlatWrite(old(f.Flat()), b[..r.value])
    ensures r.Err? ==> f.Flat() == old(f.Flat())
    ensures r.Err? ==> f.offset == MAX_FILE_SIZE || (f.offset == |f.AllBytes()| && NoneFree(f.fs.Table()))
  {
    hide OthersKept, FreeKept, Overwrite, NoneFree, SearchFree, OpenOk, Sound, All, Shown, NewMembers, WellFormed,
      Linked;
    ghost var d1, c1, n := f.fs.disk[..], f.chain, f.NextFree();
    NextIsFree(f);
    r := WriteSome(f, b, count);
    SinceNext(f, d, c, first, d1, c1, n);
  }

  lemma NextIsFree(f: File)
    requires f.Valid()
    ensures var n := f.NextFree(); n.Some? ==> InRange(f.fs.Table(), n.value) && f.fs.Table()[n.value].Free?
  {
    HintOk(f.fs.Volume());
  }

  /**
    Writes a buffer piece by piece. If that fails a prefix is written, and the file has its maximal size
    or there is no free cluster left. All other chains are as before.
    */
  method WriteAll(f: File, buf: seq<byte>, counts: nat -> Taken) returns (r: Result<(), UseError>, ghost n: nat)
    requires Snug(f)
    modifies f, f.fs, f.fs.disk
    ensures Snug(f) && f.Apart(old(f.fs.disk[..]), old(f.chain))
    ensures n <= |buf| && f.Flat() == FlatWrite(old(f.Flat()), buf[..n]) && (r.Ok? <==> n == |buf|)
    ensures r.Err? ==> f.offset == MAX_FILE_SIZE || (f.offset == |f.AllBytes()| && NoneFree(f.fs.Table()))
  {
    hide FlatWrite, NoneFree, File.Valid, File.Contents, File.AllBytes, Since;
    ghost var d, c, first, flat := f.fs.disk[..], f.chain, f.firstCluster, f.Flat();
    SinceNow(f);
    var i, calls := 0, 0;
    n := 0;
    WroteNothing(flat, buf);
    while i < |buf|
      invariant i == n <= |buf| && Snug(f) && Since(f, d, c, first) && f.Flat() == FlatWrite(flat, buf[..i])
    {
      var w := WritePiece(f, buf[i..], counts(calls), d, c, first);
      if w.Err? {
        SinceApart(f, d, c, first);
        return Err(w.error), n;
      }
      NextPiece(flat, buf, i, w.value);
      i, n, calls := i + w.value, n + w.value, calls + 1;
    }
    r := Ok(());
    SinceApart(f, d, c, first);
  }

  lemma SinceApart(f: File, d: seq<byte>, c: seq<nat>, first: Option<nat>)
    requires f.Valid() && Since(f, d, c, first)
    ensures f.fs.Mounted() && |d| == f.fs.disk.Length && f.Apart(d, c)
  {
  }

  lemma WroteNothing(flat: FlatFile, buf: seq<byte>)
    requires flat.pos <= |flat.bytes|
    ensures FlatWrite(flat, buf[..0]) == flat
  {
    assert flat.bytes[..flat.pos] + [] + flat.bytes[flat.pos..] == flat.bytes;
  }

  lemma NextPiece(flat: FlatFile, buf: seq<byte>, i: nat, k: nat)
    requires flat.pos <= |flat.bytes| && i + k <= |buf|
    ensures FlatWrite(FlatWrite(flat, buf[..i]), buf[i..][..k]) == FlatWrite(flat, buf[..i + k])
  {
    WriteInPieces(flat, buf[..i], buf[i..][..k]);
    assert buf[..i] + buf[i..][..k] == buf[..i + k];
  }

  /** Reads everything from the position to the end of a file, piece by piece. */
  method ReadToEnd(f: File, counts: nat -> Taken) returns (buf: seq<byte>)
    requires Snug(f)
    modifies f`offset, f`currentCluster
    ensures Snug(f) && buf == old(f.Contents())[old(f.offset)..]
    ensures f.Flat() == FlatFile(old(f.Contents()), |old(f.Contents())|)
  {
    hide File.Valid, File.Contents, Room;
    ghost var all, at := f.Contents(), f.offset;
    assert f.Flat().pos <= |all|;
    buf := [];
    var calls := 0;
    while true
      invariant Snug(f) && f.size == old(f.size) && f.Contents() == all && at <= f.offset <= |all|
      invariant buf == all[at..f.offset]
      decreases |all| - f.offset
    {
      var b := f.Read(512, counts(calls));
      calls := calls + 1;
      if b == [] { break; }
      assert all[at..f.offset - |b|] + all[f.offset - |b|..f.offset] == all[at..f.offset];
      buf := buf + b;
    }
  }

  /**
    Empties a file, writes a buffer to it, and reads it back from the start: what comes back is the
    buffer, and nothing else is in the file.
    */
  method Replace(f: File, buf: seq<byte>, counts: nat -> Taken) returns (r: Result<seq<byte>, UseError>)
    requires Snug(f) && f.hasEntry && f.fs.Ready()
    modifies f, f.fs, f.fs.disk
    ensures f.Valid() && (r.Ok? ==> r.value == buf == f.Contents())
    ensures r.Err? ==> f.Contents() < buf
  {
    hide OpenOk, Sound, All, Shown, OthersKept, Overwrite, NoneFree, FreeCount;
    ghost var flat := f.Flat();
    var s := f.Seek(FromStart(0));
    f.Truncate();
    Replaced(flat, buf);
    var w, n := WriteAll(f, buf, counts);
    Replaced(flat, buf[..n]);
    if w.Err? { return Err(w.error); }
    assert buf[..n] == buf;
    s := f.Seek(FromStart(0));
    var back := ReadToEnd(f, counts);
    r := Ok(back);
  }
}
