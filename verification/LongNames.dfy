/**
  Long file names. A name is cut into parts of 13 units that are stored last part first; a builder
  collects the parts again while a directory is read, entry by entry, whatever the entries hold.
  */
module LongNames {

  import opened Bytes

  const LFN_PART_LEN: nat := 13
  const LFN_ENTRY_LAST_FLAG: nat := 0x40
  const LFN_PADDING: u16 := 0xFFFF

  /** What a long-name entry says: its order byte, the short name's checksum, and 13 units. */
  datatype LfnEntry = LfnEntry(order: byte, checksum: byte, units: seq<u16>) {
    predicate WellFormed() { |units| == LFN_PART_LEN }
    predicate IsLast() { order / LFN_ENTRY_LAST_FLAG % 2 == 1 }
    function Index(): (n: nat)
      ensures n < 32
    {
      order % 32
    }
  }

  type Part = e: LfnEntry | e.WellFormed() witness LfnEntry(0, 0, [0, 0, 0, 0, 0, 0, 0, 0, 0, 0, 0, 0, 0])

  // ---------------------------------------------------------------- names as characters

  /** A character: any code point but the surrogates. */
  type scalar = c: nat | c < 0xD800 || 0xE000 <= c < 0x11_0000 witness 0

  /** The length of a name in UTF-8. */
  function Utf8Length(name: seq<scalar>): (n: nat) {
    if name == [] then 0
    else
      var c := name[0];
      (if c < 0x80 then 1 else if c < 0x800 then 2 else if c < 0x1_0000 then 3 else 4) + Utf8Length(name[1..])
  }

  /** The units of a name in UTF-16. */
  function Utf16(name: seq<scalar>): (units: seq<u16>) {
    if name == [] then []
    else
      var c: nat, rest := name[0], Utf16(name[1..]);
      if c < 0x1_0000 then [c] + rest
      else [0xD800 + (c - 0x1_0000) / 0x400, 0xDC00 + (c - 0x1_0000) % 0x400] + rest
  }

  /** A name has no more units than bytes. */
  lemma {:induction false} UnitsFit(name: seq<scalar>)
    ensures |Utf16(name)| <= Utf8Length(name) && (name != [] ==> Utf16(name) != [])
  {
    if name != [] { UnitsFit(name[1..]); }
  }

  /** Characters that a long name may contain; those above 0xFFFF are not among them. */
  predicate Supported(c: scalar) {
    || 0x61 <= c <= 0x7A || 0x41 <= c <= 0x5A || 0x30 <= c <= 0x39 || 0x80 <= c <= 0xFFFF
    || c in {0x24, 0x25, 0x27, 0x2D, 0x5F, 0x40, 0x7E, 0x60, 0x21, 0x28, 0x29, 0x7B, 0x7D, 0x2E, 0x20, 0x2B, 0x2C,
             0x3B, 0x3D, 0x5B, 0x5D, 0x5E, 0x23, 0x26}
  }

  // ---------------------------------------------------------------- runs of entries

  /** The entry for part `j` of a run that starts with part `n`, counted from the end of the list. */
  function RunEntry(es: seq<Part>, m: nat, j: nat): Part
    requires m <= j && j - m < |es|
  {
    es[|es| - 1 - (j - m)]
  }

  ghost predicate RunPart(es: seq<Part>, n: nat, m: nat, j: nat)
    requires m <= j <= n && n - m < |es|
  {
    var e := RunEntry(es, m, j);
    e.Index() == j && (e.IsLast() <==> j == n) && e.checksum == RunEntry(es, m, n).checksum
  }

  /** The list ends with the parts `n`, `n - 1`, ..., `m` of one name: only the first is marked, the checksums agree. */
  ghost predicate IsRun(es: seq<Part>, n: nat, m: nat) {
    0 < m <= n && n - m < |es| && forall j :: m <= j <= n ==> RunPart(es, n, m, j)
  }

  /** There is at most one such run. */
  lemma RunUnique(es: seq<Part>, n: nat, m: nat, n': nat, m': nat)
    requires IsRun(es, n, m) && IsRun(es, n', m')
    ensures n == n' && m == m'
  {
    assert RunPart(es, n, m, m) && RunPart(es, n', m', m');
    var least := if n < n' then n else n';
    assert RunPart(es, n, m, least) && RunPart(es, n', m, least);
  }

  lemma RunStart(es: seq<Part>, e: Part)
    requires e.Index() > 0 && e.IsLast()
    ensures IsRun(es + [e], e.Index(), e.Index())
  {
    var es', n := es + [e], e.Index();
    assert RunEntry(es', n, n) == e;
  }

  lemma RunExtend(es: seq<Part>, e: Part, n: nat, m: nat)
    requires IsRun(es, n, m) && m > 1 && e.Index() == m - 1 && !e.IsLast() && e.checksum == RunEntry(es, m, n).checksum
    ensures IsRun(es + [e], n, m - 1)
    ensures forall j :: m <= j <= n ==> RunEntry(es + [e], m - 1, j) == RunEntry(es, m, j)
  {
    var es', m' := es + [e], m - 1;
    forall j | m <= j <= n ensures RunEntry(es', m', j) == RunEntry(es, m, j) {
    }
    forall j | m' <= j <= n ensures RunPart(es', n, m', j) {
      if j >= m { assert RunPart(es, n, m, j); }
    }
  }

  /** A run that is more than its first entry continues one. */
  lemma RunBefore(es: seq<Part>, e: Part, n: nat, m: nat)
    requires IsRun(es + [e], n, m)
    ensures e.Index() == m
    ensures if e.IsLast() then n == m else IsRun(es, n, m + 1) && e.checksum == RunEntry(es, m + 1, n).checksum
  {
    var es' := es + [e];
    assert RunPart(es', n, m, m);
    if !e.IsLast() {
      var m' := m + 1;
      forall j | m' <= j <= n ensures RunPart(es, n, m', j) {
        assert RunPart(es', n, m, j);
        assert RunEntry(es', m, j) == RunEntry(es, m', j);
      }
    }
  }

  ghost predicate NoRun(es: seq<Part>) {
    forall n, m :: !IsRun(es, n, m)
  }

  /** An entry that neither starts a name nor continues the one before it ends every run. */
  lemma RunBroken(es: seq<Part>, e: Part, n: nat, m: nat)
    requires NoRun(es) || IsRun(es, n, m)
    requires e.Index() == 0
             || (!e.IsLast() && (NoRun(es) || e.Index() != m - 1 || e.checksum != RunEntry(es, m, n).checksum))
    ensures NoRun(es + [e])
  {
    forall n': nat, m': nat ensures !IsRun(es + [e], n', m') {
      if IsRun(es + [e], n', m') {
        RunBefore(es, e, n', m');
        if IsRun(es, n, m) { RunUnique(es, n, m, n', m' + 1); }
      }
    }
  }

  // ---------------------------------------------------------------- names

  /** The units of the parts 1 to `k` of a complete run. */
  ghost function RunUnits(es: seq<Part>, k: nat): (u: seq<u16>)
    requires k <= |es|
    ensures |u| == k * LFN_PART_LEN
  {
    if k == 0 then [] else RunUnits(es, k - 1) + RunEntry(es, 1, k).units
  }

  predicate IsFill(u: u16) { u == 0 || u == 0xFFFF }

  /** The units up to the last one that is neither 0 nor 0xFFFF. */
  function Stripped(u: seq<u16>): (r: seq<u16>)
    ensures r <= u && (r == [] || !IsFill(r[|r| - 1])) && forall i :: |r| <= i < |u| ==> IsFill(u[i])
  {
    if u == [] || !IsFill(u[|u| - 1]) then u else Stripped(u[..|u| - 1])
  }

  /**
    The name the entries before a short name with this checksum give: none unless they end with a complete run for it.
    */
  ghost function NameOf(es: seq<Part>, checksum: byte): (u: seq<u16>) {
    if exists n :: IsRun(es, n, 1) && RunEntry(es, 1, n).checksum == checksum then
      var n :| IsRun(es, n, 1) && RunEntry(es, 1, n).checksum == checksum;
      Stripped(RunUnits(es, n))
    else
      []
  }

  lemma NameOfRun(es: seq<Part>, n: nat, checksum: byte)
    requires IsRun(es, n, 1)
    ensures NameOf(es, checksum) == if RunEntry(es, 1, n).checksum == checksum then Stripped(RunUnits(es, n)) else []
  {
    forall n' | IsRun(es, n', 1) ensures n' == n { RunUnique(es, n, 1, n', 1); }
  }

  // ---------------------------------------------------------------- the builder

  ghost predicate HoldsPart(buf: seq<u16>, es: seq<Part>, m: nat, j: nat)
    requires 0 < m <= j && j - m < |es|
  {
    j * LFN_PART_LEN <= |buf| && buf[(j - 1) * LFN_PART_LEN..j * LFN_PART_LEN] == RunEntry(es, m, j).units
  }

  /** The parts of the run are at their places in the buffer. */
  ghost predicate Collected(buf: seq<u16>, es: seq<Part>, n: nat, m: nat) {
    IsRun(es, n, m) && |buf| == n * LFN_PART_LEN && forall j :: m <= j <= n ==> HoldsPart(buf, es, m, j)
  }

  function Put(buf: seq<u16>, j: nat, units: seq<u16>): seq<u16>
    requires j > 0 && j * LFN_PART_LEN <= |buf| && |units| == LFN_PART_LEN
  {
    buf[..(j - 1) * LFN_PART_LEN] + units + buf[j * LFN_PART_LEN..]
  }

  function Resized(buf: seq<u16>, len: nat): (r: seq<u16>)
    ensures |r| == len
  {
    if len <= |buf| then buf[..len] else buf + seq(len - |buf|, _ => 0)
  }

  lemma CollectStart(buf: seq<u16>, es: seq<Part>, e: Part)
    requires e.Index() > 0 && e.IsLast() && |buf| == e.Index() * LFN_PART_LEN
    ensures Collected(Put(buf, e.Index(), e.units), es + [e], e.Index(), e.Index())
  {
    RunStart(es, e);
    assert RunEntry(es + [e], e.Index(), e.Index()) == e;
  }

  lemma CollectNext(buf: seq<u16>, es: seq<Part>, e: Part, n: nat, m: nat)
    requires Collected(buf, es, n, m) && m > 1 && e.Index() == m - 1 && !e.IsLast()
             && e.checksum == RunEntry(es, m, n).checksum
    ensures Collected(Put(buf, m - 1, e.units), es + [e], n, m - 1)
  {
    RunExtend(es, e, n, m);
    var buf', es', m' := Put(buf, m - 1, e.units), es + [e], m - 1;
    forall j | m' <= j <= n ensures HoldsPart(buf', es', m', j) {
      if j >= m {
        assert HoldsPart(buf, es, m, j);
        var lo, hi := (j - 1) * LFN_PART_LEN, j * LFN_PART_LEN;
        assert buf'[lo..hi] == buf[lo..hi];
      }
    }
  }

  /** A buffer that holds all parts of a complete run holds its units. */
  lemma {:induction false} CollectedUnits(buf: seq<u16>, es: seq<Part>, n: nat, k: nat)
    requires Collected(buf, es, n, 1) && k <= n
    ensures RunUnits(es, k) == buf[..k * LFN_PART_LEN]
  {
    if k > 0 {
      CollectedUnits(buf, es, n, k - 1);
      assert HoldsPart(buf, es, 1, k);
      var lo, hi := (k - 1) * LFN_PART_LEN, k * LFN_PART_LEN;
      assert buf[..hi] == buf[..lo] + buf[lo..hi];
    }
  }

  // ---------------------------------------------------------------- the generator

  /** The number of parts of a name. */
  function Parts(len: nat): (n: nat)
    ensures (n - 1) * LFN_PART_LEN < len <= n * LFN_PART_LEN || len == n == 0
  {
    (len + LFN_PART_LEN - 1) / LFN_PART_LEN
  }

  /** Part `j` of a name, ended by 0 and padded if it is shorter than the others. */
  function PartUnits(name: seq<u16>, j: nat): (u: seq<u16>)
    requires 0 < j <= Parts(|name|)
    ensures |u| == LFN_PART_LEN
  {
    var lo := (j - 1) * LFN_PART_LEN;
    if lo + LFN_PART_LEN <= |name| then name[lo..lo + LFN_PART_LEN]
    else name[lo..] + [0] + seq(lo + LFN_PART_LEN - |name| - 1, _ => LFN_PADDING)
  }

  function PartEntry(name: seq<u16>, checksum: byte, j: nat): (e: Part)
    requires 0 < j <= Parts(|name|) < 32
    ensures e.Index() == j && (e.IsLast() <==> j == Parts(|name|)) && e.checksum == checksum
            && e.units == PartUnits(name, j)
  {
    LfnEntry(if j == Parts(|name|) then LFN_ENTRY_LAST_FLAG + j else j, checksum, PartUnits(name, j))
  }

  /** The entries of a name, last part first. */
  function Generate(name: seq<u16>, checksum: byte): (es: seq<Part>)
    requires |name| <= 255
    ensures |es| == Parts(|name|)
    ensures forall i {:trigger es[i]} :: 0 <= i < |es| ==> es[i] == PartEntry(name, checksum, Parts(|name|) - i)
  {
    seq(Parts(|name|), i requires 0 <= i < Parts(|name|) => PartEntry(name, checksum, Parts(|name|) - i))
  }

  lemma GeneratedEntry(junk: seq<Part>, gen: seq<Part>, j: nat)
    requires 0 < j <= |gen|
    ensures RunEntry(junk + gen, 1, j) == gen[|gen| - j]
  {
  }

  /** Whatever comes before, the generated entries are a complete run. */
  lemma GenerateIsRun(junk: seq<Part>, name: seq<u16>, checksum: byte)
    requires 0 < |name| <= 255
    ensures IsRun(junk + Generate(name, checksum), Parts(|name|), 1)
  {
    var gen, n := Generate(name, checksum), Parts(|name|);
    var es := junk + gen;
    GeneratedEntry(junk, gen, n);
    forall j | 1 <= j <= n ensures RunPart(es, n, 1, j) { GeneratedEntry(junk, gen, j); }
  }

  /** The units are the first `len` of the name, or all of it and fill. */
  ghost predicate Covers(u: seq<u16>, name: seq<u16>, len: nat) {
    && |u| == len
    && if len <= |name| then u == name[..len] else name <= u && forall i :: |name| <= i < len ==> IsFill(u[i])
  }

  lemma CoversNext(u: seq<u16>, name: seq<u16>, k: nat)
    requires 0 < k <= Parts(|name|) && Covers(u, name, (k - 1) * LFN_PART_LEN)
    ensures Covers(u + PartUnits(name, k), name, k * LFN_PART_LEN)
  {
    var lo, hi := (k - 1) * LFN_PART_LEN, k * LFN_PART_LEN;
    assert u == name[..lo];
    if hi <= |name| {
      assert name[..hi] == name[..lo] + name[lo..hi];
    } else {
      assert name == name[..lo] + name[lo..];
      var u' := u + PartUnits(name, k);
      forall i | |name| <= i < hi ensures IsFill(u'[i]) { assert u'[i] == PartUnits(name, k)[i - lo]; }
    }
  }

  lemma {:induction false} GenerateUnits(junk: seq<Part>, name: seq<u16>, checksum: byte, k: nat)
    requires 0 < |name| <= 255 && k <= Parts(|name|)
    ensures Covers(RunUnits(junk + Generate(name, checksum), k), name, k * LFN_PART_LEN)
  {
    if k > 0 {
      GenerateUnits(junk, name, checksum, k - 1);
      var gen := Generate(name, checksum);
      GeneratedEntry(junk, gen, k);
      assert gen[|gen| - k].units == PartUnits(name, k);
      CoversNext(RunUnits(junk + gen, k - 1), name, k);
    }
  }

  lemma {:induction false} StrippedPrefix(name: seq<u16>, u: seq<u16>)
    requires name <= u && forall i :: |name| <= i < |u| ==> IsFill(u[i])
    ensures Stripped(u) == Stripped(name)
  {
    if u == name {
    } else {
      var u' := u[..|u| - 1];
      assert name <= u';
      StrippedPrefix(name, u');
    }
  }

  /**
    After any junk, the generated entries give the name back, up to fill at its end, and only for the checksum they
    carry.
    */
  lemma GeneratedName(junk: seq<Part>, name: seq<u16>, checksum: byte, other: byte)
    requires 0 < |name| <= 255
    ensures NameOf(junk + Generate(name, checksum), checksum) == Stripped(name)
    ensures other != checksum ==> NameOf(junk + Generate(name, checksum), other) == []
  {
    var es, n := junk + Generate(name, checksum), Parts(|name|);
    GenerateIsRun(junk, name, checksum);
    GeneratedEntry(junk, Generate(name, checksum), n);
    NameOfRun(es, n, checksum);
    NameOfRun(es, n, other);
    GenerateUnits(junk, name, checksum, n);
    assert name[..|name|] == name;
    StrippedPrefix(name, RunUnits(es, n));
  }

  /** So the name itself comes back exactly if it does not end with 0 or 0xFFFF. */
  lemma NameSurvives(junk: seq<Part>, name: seq<u16>, checksum: byte)
    requires 0 < |name| <= 255
    ensures NameOf(junk + Generate(name, checksum), checksum) == name <==> !IsFill(name[|name| - 1])
  {
    GeneratedName(junk, name, checksum, checksum);
  }

  /** The checksum of a short name: rotate right and add, byte by byte. */
  function Checksum(name: seq<byte>): (c: byte) {
    if name == [] then 0
    else
      var c := Checksum(name[..|name| - 1]) as int;
      (c % 2 * 0x80 + c / 2 + name[|name| - 1] as int) % 0x100
  }

  class LongNameBuilder {
    var buf: seq<u16>
    var chksum: byte
    var index: nat
    /** The entries since the last `Clear`, and the first part of the run they end with. */
    ghost var entries: seq<Part>
    ghost var top: nat

    ghost predicate Valid()
      reads this
    {
      if index == 0 then NoRun(entries)
      else Collected(buf, entries, top, index) && chksum == RunEntry(entries, index, top).checksum && top < 32
    }

    constructor ()
      ensures Valid() && entries == []
    {
      buf, chksum, index, entries, top := [], 0, 0, [], 0;
    }

    method Clear()
      modifies this
      ensures Valid() && entries == []
    {
      buf, index, entries := [], 0, [];
    }

    /** Takes one entry; anything but the next part of the current name or the start of a new one clears the buffer. */
    method Process(e: Part)
      requires Valid()
      modifies this
      ensures Valid() && entries == old(entries) + [e]
    {
      var i := e.Index();
      if i == 0 || (!e.IsLast() && (index == 0 || i != index - 1 || e.checksum != chksum)) {
        RunBroken(entries, e, top, index);
        buf, index := [], 0;
      } else {
        if e.IsLast() {
          index, chksum, buf := i, e.checksum, Resized(buf, i * LFN_PART_LEN);
          CollectStart(buf, entries, e);
          top := i;
          assert RunEntry(entries + [e], i, i) == e;
        } else {
          RunExtend(entries, e, top, index);
          CollectNext(buf, entries, e, top, index);
          index := index - 1;
        }
        buf := Put(buf, i, e.units);
      }
      entries := entries + [e];
    }

    /** The long name for a short name with this checksum, from the entries seen. */
    method Finish(shortName: seq<byte>) returns (name: seq<u16>)
      requires Valid()
      ensures name == NameOf(entries, Checksum(shortName))
    {
      name := [];
      if index == 1 {
        NameOfRun(entries, top, Checksum(shortName));
        if Checksum(shortName) == chksum {
          CollectedUnits(buf, entries, top, top);
          assert buf[..top * LFN_PART_LEN] == buf;
          name := Stripped(buf);
        }
      } else {
        forall n | IsRun(entries, n, 1) ensures false {
          if index > 0 { RunUnique(entries, n, 1, top, index); }
        }
      }
    }
  }
}
