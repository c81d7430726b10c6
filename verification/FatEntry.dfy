/**
  The byte encoding of the File Allocation Table for 12-, 16- and 32-bit entries, and its
  refinement of the table of `FatValue`s.
  */
module FatEntry {

  import opened Bytes
  import opened FatChains

  datatype FatType = Fat12 | Fat16 | Fat32

  /** Byte offset of the (first) byte of entry `c`; two 12-bit entries share three bytes. */
  function EntryOffset(ft: FatType, c: nat): (o: nat) {
    match ft
    case Fat12 => c + c / 2
    case Fat16 => c * 2
    case Fat32 => c * 4
  }

  function EntryWidth(ft: FatType): (w: nat) {
    if ft.Fat32? then 4 else 2
  }

  /** A table of `size` bytes has an entry `c`. */
  predicate Holds(ft: FatType, size: nat, c: nat) {
    EntryOffset(ft, c) + EntryWidth(ft) <= size
  }

  lemma HoldsBelow(ft: FatType, size: nat, c: nat, d: nat)
    requires Holds(ft, size, d) && c <= d
    ensures Holds(ft, size, c)
  {
  }

  /** The entry as stored, with the four reserved bits of a 32-bit entry. */
  function Raw(ft: FatType, s: seq<byte>, c: nat): (r: u32)
    requires Holds(ft, |s|, c)
  {
    var o := EntryOffset(ft, c);
    match ft
    case Fat12 => var packed := U16(s[o..o + 2]); if c % 2 == 0 then packed % 0x1000 else packed / 0x10
    case Fat16 => U16(s[o..o + 2])
    case Fat32 => U32(s[o..o + 4])
  }

  /** The number of values an entry can take; the upper bits of a 32-bit entry do not count. */
  function Span(ft: FatType): (n: nat) {
    match ft
    case Fat12 => 0x1000
    case Fat16 => 0x1_0000
    case Fat32 => 0x1000_0000
  }

  /** The numbers that can be passed for an entry: a 32-bit one takes a bit too many. */
  function Reach(ft: FatType): (n: nat) {
    if ft.Fat32? then 2 * Span(ft) else Span(ft)
  }

  /** The mark of a bad cluster; greater values mark the end of a chain. */
  function BadMark(ft: FatType): (n: nat) {
    Span(ft) - 9
  }

  /** Cluster numbers that 32-bit entries cannot be told apart from marks. */
  predicate Special(ft: FatType, c: nat) {
    ft.Fat32? && BadMark(ft) <= c < Span(ft)
  }

  /** The part of a stored entry that carries its value: all but the reserved bits. */
  function Low(ft: FatType, raw: nat): (n: nat) {
    if ft.Fat32? then raw % 0x1000_0000 else raw
  }

  function Decode(ft: FatType, c: nat, raw: nat): (v: FatValue) {
    var n := Low(ft, raw);
    if n == 0 then (if Special(ft, c) then Bad else Free)
    else if n == BadMark(ft) then Bad
    else if n > BadMark(ft) then EndOfChain
    else if Special(ft, c) then Bad
    else Data(n)
  }

  function Encode(ft: FatType, v: FatValue): (raw: nat) {
    match v
    case Free => 0
    case Bad => BadMark(ft)
    case EndOfChain => Span(ft) - 1
    case Data(n) => n
  }

  function Get(ft: FatType, s: seq<byte>, c: nat): (v: FatValue)
    requires Holds(ft, |s|, c)
  {
    Decode(ft, c, Raw(ft, s, c))
  }

  /** The four reserved bits of a 32-bit entry, joined with the bit that a number of 29 bits has there. */
  function ReservedBits(prior: u32, raw: nat): (n: nat)
    requires raw < Reach(Fat32)
    ensures n < 0x10 && (raw < Span(Fat32) ==> n == prior / 0x1000_0000)
  {
    var bits := prior / 0x1000_0000;
    if raw >= 0x1000_0000 && bits % 2 == 0 then bits + 1 else bits
  }

  /** The bytes an entry becomes, from the bytes it occupied: a neighbour's half byte and reserved bits stay. */
  function Repack(ft: FatType, c: nat, b: seq<byte>, raw: nat): (r: seq<byte>)
    requires |b| == EntryWidth(ft) && raw < Reach(ft)
    ensures |r| == EntryWidth(ft)
  {
    match ft
    case Fat12 => Le16(if c % 2 == 0 then U16(b) / 0x1000 * 0x1000 + raw else U16(b) % 0x10 + raw * 0x10)
    case Fat16 => Le16(raw)
    case Fat32 => Le32(ReservedBits(U32(b), raw) * 0x1000_0000 + raw % 0x1000_0000)
  }

  function Packed(ft: FatType, s: seq<byte>, c: nat, raw: nat): (b: seq<byte>)
    requires Holds(ft, |s|, c) && raw < Reach(ft)
    ensures |b| == EntryWidth(ft)
  {
    var o := EntryOffset(ft, c);
    Repack(ft, c, s[o..o + EntryWidth(ft)], raw)
  }

  function Set(ft: FatType, s: seq<byte>, c: nat, v: FatValue): (r: seq<byte>)
    requires Holds(ft, |s|, c) && Encode(ft, v) < Reach(ft)
    ensures |r| == |s|
  {
    Splice(s, EntryOffset(ft, c), Packed(ft, s, c, Encode(ft, v)))
  }

  // ---------------------------------------------------------------- reading what was written

  /** The values an entry can hold so that reading gives them back. */
  predicate Representable(ft: FatType, c: nat, v: FatValue) {
    match v
    case Free => !Special(ft, c)
    case Data(n) => 0 < n < BadMark(ft) && !Special(ft, c)
    case _ => true
  }

  /** Decoding inverts encoding exactly on the representable values. */
  lemma DecodeEncode(ft: FatType, c: nat, v: FatValue)
    requires Encode(ft, v) < Reach(ft)
    ensures Decode(ft, c, Encode(ft, v)) == v <==> Representable(ft, c, v)
  {
  }

  lemma Halves12(b0: byte, b1: byte)
    ensures (b0 as int + 0x100 * b1 as int) % 0x1000 == b0 as int + 0x100 * (b1 % 0x10)
    ensures (b0 as int + 0x100 * b1 as int) / 0x10 == b0 / 0x10 + 0x10 * b1 as int
    ensures (b0 as int + 0x100 * b1 as int) / 0x1000 == b1 / 0x10
    ensures (b0 as int + 0x100 * b1 as int) % 0x10 == b0 % 0x10
  {
  }

  /** The two bytes written for an even entry: all of the first, half of the second. */
  lemma PackEven12(s: seq<byte>, c: nat, raw: nat)
    requires Holds(Fat12, |s|, c) && c % 2 == 0 && raw < 0x1000
    ensures var o := EntryOffset(Fat12, c);
            Packed(Fat12, s, c, raw) == [raw % 0x100, s[o + 1] / 0x10 * 0x10 + raw / 0x100]
  {
    var o := EntryOffset(Fat12, c);
    assert s[o..o + 2] == [s[o], s[o + 1]];
    Halves12(s[o], s[o + 1]);
  }

  /** The two bytes written for an odd entry: half of the first, all of the second. */
  lemma PackOdd12(s: seq<byte>, c: nat, raw: nat)
    requires Holds(Fat12, |s|, c) && c % 2 == 1 && raw < 0x1000
    ensures var o := EntryOffset(Fat12, c);
            Packed(Fat12, s, c, raw) == [s[o] % 0x10 + raw % 0x10 * 0x10, raw / 0x10]
  {
    var o := EntryOffset(Fat12, c);
    assert s[o..o + 2] == [s[o], s[o + 1]];
    Halves12(s[o], s[o + 1]);
  }

  lemma Raw12(s: seq<byte>, c: nat)
    requires Holds(Fat12, |s|, c)
    ensures var o := EntryOffset(Fat12, c);
            Raw(Fat12, s, c) == if c % 2 == 0 then s[o] as int + 0x100 * (s[o + 1] as int % 0x10)
                                else s[o] / 0x10 + 0x10 * s[o + 1] as int
  {
    var o := EntryOffset(Fat12, c);
    assert s[o..o + 2] == [s[o], s[o + 1]];
    Halves12(s[o], s[o + 1]);
  }

  lemma SetEvenBytes(s: seq<byte>, c: nat, v: FatValue)
    requires Holds(Fat12, |s|, c) && c % 2 == 0 && Encode(Fat12, v) < Span(Fat12)
    ensures var o, raw, s' := EntryOffset(Fat12, c), Encode(Fat12, v), Set(Fat12, s, c, v);
            s'[o] == raw % 0x100 && s'[o + 1] % 0x10 == raw / 0x100 && s'[o + 1] / 0x10 == s[o + 1] / 0x10
            && forall i :: 0 <= i < |s| && i != o && i != o + 1 ==> s'[i] == s[i]
  {
    PackEven12(s, c, Encode(Fat12, v));
  }

  lemma SetOddBytes(s: seq<byte>, c: nat, v: FatValue)
    requires Holds(Fat12, |s|, c) && c % 2 == 1 && Encode(Fat12, v) < Span(Fat12)
    ensures var o, raw, s' := EntryOffset(Fat12, c), Encode(Fat12, v), Set(Fat12, s, c, v);
            s'[o] % 0x10 == s[o] % 0x10 && s'[o] / 0x10 == raw % 0x10 && s'[o + 1] == raw / 0x10
            && forall i :: 0 <= i < |s| && i != o && i != o + 1 ==> s'[i] == s[i]
  {
    PackOdd12(s, c, Encode(Fat12, v));
  }

  lemma SetSame12(s: seq<byte>, c: nat, v: FatValue)
    requires Holds(Fat12, |s|, c) && Encode(Fat12, v) < Span(Fat12)
    ensures Raw(Fat12, Set(Fat12, s, c, v), c) == Encode(Fat12, v)
  {
    Raw12(Set(Fat12, s, c, v), c);
    if c % 2 == 0 { SetEvenBytes(s, c, v); } else { SetOddBytes(s, c, v); }
  }

  lemma SameEven12(s: seq<byte>, s': seq<byte>, c: nat)
    requires |s'| == |s| && Holds(Fat12, |s|, c) && c % 2 == 0
    requires var o := EntryOffset(Fat12, c); s'[o] == s[o] && s'[o + 1] % 0x10 == s[o + 1] % 0x10
    ensures Raw(Fat12, s', c) == Raw(Fat12, s, c)
  {
    Raw12(s, c);
    Raw12(s', c);
  }

  lemma SameOdd12(s: seq<byte>, s': seq<byte>, c: nat)
    requires |s'| == |s| && Holds(Fat12, |s|, c) && c % 2 == 1
    requires var o := EntryOffset(Fat12, c); s'[o] / 0x10 == s[o] / 0x10 && s'[o + 1] == s[o + 1]
    ensures Raw(Fat12, s', c) == Raw(Fat12, s, c)
  {
    Raw12(s, c);
    Raw12(s', c);
  }

  /** Writing an even 12-bit entry leaves the half byte that belongs to its odd neighbour. */
  lemma SetEvenKeepsOdd(s: seq<byte>, c: nat, v: FatValue)
    requires Holds(Fat12, |s|, c + 1) && c % 2 == 0 && Encode(Fat12, v) < Span(Fat12)
    ensures Raw(Fat12, Set(Fat12, s, c, v), c + 1) == Raw(Fat12, s, c + 1)
  {
    SetEvenBytes(s, c, v);
    SameOdd12(s, Set(Fat12, s, c, v), c + 1);
  }

  /** Writing an odd 12-bit entry leaves the half byte that belongs to its even neighbour. */
  lemma SetOddKeepsEven(s: seq<byte>, c: nat, v: FatValue)
    requires Holds(Fat12, |s|, c + 1) && c % 2 == 0 && Encode(Fat12, v) < Span(Fat12)
    ensures Raw(Fat12, Set(Fat12, s, c + 1, v), c) == Raw(Fat12, s, c)
  {
    SetOddBytes(s, c + 1, v);
    SameEven12(s, Set(Fat12, s, c + 1, v), c);
  }

  lemma SetElsewhere(ft: FatType, s: seq<byte>, c: nat, v: FatValue, d: nat)
    requires Holds(ft, |s|, c) && Holds(ft, |s|, d) && Encode(ft, v) < Reach(ft)
    requires var o, p, w := EntryOffset(ft, c), EntryOffset(ft, d), EntryWidth(ft); p + w <= o || o + w <= p
    ensures Raw(ft, Set(ft, s, c, v), d) == Raw(ft, s, d)
  {
    var p := EntryOffset(ft, d);
    SpliceElsewhere(s, EntryOffset(ft, c), Packed(ft, s, c, Encode(ft, v)), p, p + EntryWidth(ft));
  }

  lemma Apart12(c: nat, d: nat)
    requires c < d && (c % 2 == 0 ==> d != c + 1)
    ensures c + c / 2 + 2 <= d + d / 2
  {
  }

  lemma SetOther12(s: seq<byte>, c: nat, v: FatValue, d: nat)
    requires Holds(Fat12, |s|, c) && Holds(Fat12, |s|, d) && d != c && Encode(Fat12, v) < Span(Fat12)
    ensures Raw(Fat12, Set(Fat12, s, c, v), d) == Raw(Fat12, s, d)
  {
    if c % 2 == 0 && d == c + 1 {
      SetEvenKeepsOdd(s, c, v);
    } else if d % 2 == 0 && c == d + 1 {
      SetOddKeepsEven(s, d, v);
    } else {
      if c < d { Apart12(c, d); } else { Apart12(d, c); }
      SetElsewhere(Fat12, s, c, v, d);
    }
  }

  /** Every entry but `c` is stored as before, although 12-bit neighbours share a byte. */
  lemma SetOther(ft: FatType, s: seq<byte>, c: nat, v: FatValue, d: nat)
    requires Holds(ft, |s|, c) && Holds(ft, |s|, d) && d != c && Encode(ft, v) < Reach(ft)
    ensures Raw(ft, Set(ft, s, c, v), d) == Raw(ft, s, d)
  {
    match ft
    case Fat12 => SetOther12(s, c, v, d);
    case Fat16 => SetElsewhere(ft, s, c, v, d);
    case Fat32 => SetElsewhere(ft, s, c, v, d);
  }

  lemma SetSame16(s: seq<byte>, c: nat, v: FatValue)
    requires Holds(Fat16, |s|, c) && Encode(Fat16, v) < Span(Fat16)
    ensures Raw(Fat16, Set(Fat16, s, c, v), c) == Encode(Fat16, v)
  {
    SpliceRead(s, EntryOffset(Fat16, c), Packed(Fat16, s, c, Encode(Fat16, v)));
  }

  lemma Reserved32(bits: nat, low: nat)
    requires low < 0x1000_0000
    ensures (bits * 0x1000_0000 + low) % 0x1000_0000 == low
    ensures (bits * 0x1000_0000 + low) / 0x1000_0000 == bits
  {
  }

  /** A 32-bit entry keeps its four reserved bits, unless the number itself reaches into them. */
  lemma SetSame32(s: seq<byte>, c: nat, v: FatValue)
    requires Holds(Fat32, |s|, c) && Encode(Fat32, v) < Reach(Fat32)
    ensures Raw(Fat32, Set(Fat32, s, c, v), c) % 0x1000_0000 == Encode(Fat32, v) % 0x1000_0000
    ensures Encode(Fat32, v) < Span(Fat32)
            ==> Raw(Fat32, Set(Fat32, s, c, v), c) / 0x1000_0000 == Raw(Fat32, s, c) / 0x1000_0000
  {
    SpliceRead(s, EntryOffset(Fat32, c), Packed(Fat32, s, c, Encode(Fat32, v)));
    Reserved32(ReservedBits(Raw(Fat32, s, c), Encode(Fat32, v)), Encode(Fat32, v) % 0x1000_0000);
  }

  lemma SetSame(ft: FatType, s: seq<byte>, c: nat, v: FatValue)
    requires Holds(ft, |s|, c) && Encode(ft, v) < Reach(ft)
    ensures Low(ft, Raw(ft, Set(ft, s, c, v), c)) == Low(ft, Encode(ft, v))
  {
    match ft
    case Fat12 => SetSame12(s, c, v);
    case Fat16 => SetSame16(s, c, v);
    case Fat32 => SetSame32(s, c, v);
  }

  /**
    What is read after a write: the entry's value if it can be represented, something else if not, and every other
    entry as before.
    */
  lemma GetAfterSet(ft: FatType, s: seq<byte>, c: nat, v: FatValue, d: nat)
    requires Holds(ft, |s|, c) && Holds(ft, |s|, d) && Encode(ft, v) < Reach(ft)
    ensures d == c ==> (Get(ft, Set(ft, s, c, v), d) == v <==> Representable(ft, c, v))
    ensures d != c ==> Get(ft, Set(ft, s, c, v), d) == Get(ft, s, d)
  {
    if d == c {
      SetSame(ft, s, c, v);
      DecodeEncode(ft, c, v);
    } else {
      SetOther(ft, s, c, v, d);
    }
  }

  // ---------------------------------------------------------------- the table as a whole

  /** The meaning of the first `n` entries of the table stored in `s`. */
  function TableOf(ft: FatType, s: seq<byte>, n: nat): (t: Table)
    requires n > 0 ==> Holds(ft, |s|, n - 1)
    ensures |t| == n
    ensures forall c :: 0 <= c < n ==> Holds(ft, |s|, c) && t[c] == Get(ft, s, c)
  {
    seq(n, c requires 0 <= c < n => HoldsBelow(ft, |s|, c, n - 1); Get(ft, s, c))
  }

  /**
    The byte table refines the table of values: storing an entry is one update, exactly if its value can be
    represented.
    */
  lemma TableAfterSet(ft: FatType, s: seq<byte>, n: nat, c: nat, v: FatValue)
    requires c < n && Holds(ft, |s|, n - 1) && Holds(ft, |s|, c) && Encode(ft, v) < Reach(ft)
    ensures TableOf(ft, Set(ft, s, c, v), n) == TableOf(ft, s, n)[c := v] <==> Representable(ft, c, v)
  {
    var t, t' := TableOf(ft, s, n), TableOf(ft, Set(ft, s, c, v), n);
    forall d | 0 <= d < n ensures d != c ==> t'[d] == t[d] {
      HoldsBelow(ft, |s|, d, n - 1);
      GetAfterSet(ft, s, c, v, d);
    }
    GetAfterSet(ft, s, c, v, c);
    assert t[c := v][c] == v;
  }
}
