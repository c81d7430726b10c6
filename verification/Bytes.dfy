/** Bytes and the little-endian integers the on-disk structures are made of. */
module Bytes {

  type byte = x: int | 0 <= x < 0x100

  type u16 = x: int | 0 <= x < 0x1_0000

  type u32 = x: int | 0 <= x < 0x1_0000_0000

  function U16(b: seq<byte>): (r: u16)
    requires |b| == 2
  {
    b[0] as int + 0x100 * b[1] as int
  }

  function U32(b: seq<byte>): (r: u32)
    requires |b| == 4
  {
    U16(b[..2]) as int + 0x1_0000 * U16(b[2..]) as int
  }

  function Le16(x: u16): (b: seq<byte>)
    ensures |b| == 2 && U16(b) == x
  {
    [x % 0x100, x / 0x100]
  }

  function Le32(x: u32): (b: seq<byte>)
    ensures |b| == 4 && U32(b) == x
  {
    var lo, hi := Le16(x % 0x1_0000), Le16(x / 0x1_0000);
    assert (lo + hi)[..2] == lo && (lo + hi)[2..] == hi;
    lo + hi
  }

  /** `s` with the bytes from `at` on replaced by `b`. */
  function Splice(s: seq<byte>, at: nat, b: seq<byte>): (r: seq<byte>)
    requires at + |b| <= |s|
    ensures |r| == |s|
    ensures forall i :: 0 <= i < |s| ==> r[i] == if at <= i < at + |b| then b[i - at] else s[i]
  {
    s[..at] + b + s[at + |b|..]
  }

  function Zeros(n: nat): (r: seq<byte>)
    ensures |r| == n && forall i :: 0 <= i < n ==> r[i] == 0
  {
    seq(n, _ => 0)
  }

  lemma SpliceRead(s: seq<byte>, at: nat, b: seq<byte>)
    requires at + |b| <= |s|
    ensures Splice(s, at, b)[at..at + |b|] == b
  {
  }

  lemma SpliceElsewhere(s: seq<byte>, at: nat, b: seq<byte>, lo: nat, hi: nat)
    requires at + |b| <= |s| && lo <= hi <= |s| && (hi <= at || at + |b| <= lo)
    ensures Splice(s, at, b)[lo..hi] == s[lo..hi]
  {
  }

  /** Splicing inside a window commutes with taking the window. */
  lemma SpliceInside(s: seq<byte>, at: nat, b: seq<byte>, lo: nat, hi: nat)
    requires lo <= at && at + |b| <= hi <= |s|
    ensures Splice(s, at, b)[lo..hi] == Splice(s[lo..hi], at - lo, b)
  {
  }

  /** A window of a window. */
  lemma SubWindow(s: seq<byte>, lo: nat, size: nat, at: nat, n: nat)
    requires lo + size <= |s| && at + n <= size
    ensures s[lo..lo + size][at..at + n] == s[lo + at..lo + at + n]
  {
    var w := s[lo..lo + size];
    assert forall i :: 0 <= i < size ==> w[i] == s[lo + i];
  }
}
