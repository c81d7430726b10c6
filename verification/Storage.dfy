/**
  The storage as the table and the fixed root directory are written to it: it has a position, each
  call may take fewer bytes than it is given, and behind the first bytes that it takes on a clean
  volume the status byte is written, which moves the position.
  */
module Storages {

  import opened Arithmetic
  import opened Bytes

  /** Where a seek goes: from the start, the end or the position. */
  datatype SeekFrom = FromStart(n: nat) | FromEnd(delta: int) | FromCurrent(delta: int)

  /** How many bytes a call takes at most; a storage that takes none reports an error. */
  type Taken = n: nat | n > 0 witness 1

  /** Where the status byte is, its value on a dirty volume, and how many bytes call `k` takes. */
  datatype Port = Port(flagsAt: nat, status: byte, counts: nat -> Taken)

  /** The bytes, the position, whether the volume is marked dirty, and the number of calls so far. */
  datatype Store = Store(bytes: seq<byte>, pos: nat, dirty: bool, calls: nat) {
    function At(p: nat): Store { this.(pos := p) }
    function Left(): Image { Image(bytes, dirty) }
  }

  /** What is left of a store between operations, which all seek first. */
  datatype Image = Image(bytes: seq<byte>, dirty: bool)

  /** Marks the volume dirty, unless it is. */
  function Mark(p: Port, s: Store): (r: Store)
    requires p.flagsAt < |s.bytes|
    ensures |r.bytes| == |s.bytes| && r.dirty && r.calls == s.calls
  {
    if s.dirty then s else Store(Splice(s.bytes, p.flagsAt, [p.status]), p.flagsAt + 1, true, s.calls)
  }

  /** One call: a piece is taken, then the volume is marked dirty. */
  function Took(p: Port, s: Store, b: seq<byte>): (r: (Store, nat))
    requires b != [] && s.pos + |b| <= |s.bytes| && p.flagsAt < |s.bytes|
    ensures 0 < r.1 <= |b| && |r.0.bytes| == |s.bytes| && r.0.dirty
  {
    var n := Min(p.counts(s.calls), |b|);
    (Mark(p, Store(Splice(s.bytes, s.pos, b[..n]), s.pos + n, s.dirty, s.calls + 1)), n)
  }

  /** Calls until everything is taken, each from where the position is then. */
  function TookAll(p: Port, s: Store, b: seq<byte>): (r: Store)
    requires s.pos + |b| <= |s.bytes| && p.flagsAt + 1 + |b| <= |s.bytes|
    ensures |r.bytes| == |s.bytes|
    decreases |b|
  {
    if b == [] then s
    else
      var (s1, n) := Took(p, s, b);
      TookAll(p, s1, b[n..])
  }

  lemma SpliceTwice(s: seq<byte>, at: nat, b: seq<byte>, n: nat)
    requires n <= |b| && at + |b| <= |s|
    ensures Splice(Splice(s, at, b[..n]), at + n, b[n..]) == Splice(s, at, b)
  {
  }

  /** On a volume that is dirty already the pieces end up one behind the other, whatever their sizes. */
  lemma {:induction false} PiecesJoin(p: Port, s: Store, b: seq<byte>)
    requires s.pos + |b| <= |s.bytes| && p.flagsAt + 1 + |b| <= |s.bytes| && s.dirty
    ensures TookAll(p, s, b).Left() == Image(Splice(s.bytes, s.pos, b), true)
    decreases |b|
  {
    if b != [] {
      var (s1, n) := Took(p, s, b);
      PiecesJoin(p, s1, b[n..]);
      SpliceTwice(s.bytes, s.pos, b, n);
    }
  }

  /** What becomes of a clean volume: behind the first piece the rest lands behind the status byte. */
  lemma RestStrays(p: Port, s: Store, b: seq<byte>)
    requires b != [] && s.pos + |b| <= |s.bytes| && p.flagsAt + 1 + |b| <= |s.bytes| && !s.dirty
    ensures var n := Min(p.counts(s.calls), |b|);
            TookAll(p, s, b).Left()
            == Image(Splice(Splice(Splice(s.bytes, s.pos, b[..n]), p.flagsAt, [p.status]), p.flagsAt + 1, b[n..]), true)
  {
    var (s1, n) := Took(p, s, b);
    PiecesJoin(p, s1, b[n..]);
  }

  /** The next `n` bytes are written where they should be. */
  predicate Safe(p: Port, dirty: bool, calls: nat, n: nat) {
    dirty || n <= p.counts(calls)
  }

  /** Such bytes are written as if in one piece; beside them only the status byte changes. */
  lemma SafeJoin(p: Port, s: Store, b: seq<byte>)
    requires s.pos + |b| <= |s.bytes| && p.flagsAt + 1 + |b| <= |s.bytes| && Safe(p, s.dirty, s.calls, |b|)
    ensures var d, r := Splice(s.bytes, s.pos, b), TookAll(p, s, b);
            && r.bytes == (if s.dirty || b == [] then d else Splice(d, p.flagsAt, [p.status]))
            && r.dirty == (s.dirty || b != [])
  {
    if s.dirty {
      PiecesJoin(p, s, b);
    } else if b != [] {
      RestStrays(p, s, b);
      assert b[..|b|] == b && b[|b|..] == [];
    }
  }
}
