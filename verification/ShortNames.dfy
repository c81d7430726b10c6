/**
  Short names for long ones. A generator scans the short names of a directory, notes which of its
  candidates are taken, and tries another checksum when all of them are. The name it returns is
  none of those scanned, and the number of passes is bounded by the number of names.
  */
module ShortNames {

  import opened Options
  import opened Arithmetic
  import opened Pigeonhole
  import opened Bytes
  import opened DirEntries

  const SFN_PADDING: byte := 0x20
  const TILDE: byte := 0x7E
  /** The number of checksums, which are 16 bits wide. */
  const CHECKSUMS: nat := 0x1_0000

  type ShortName = s: seq<byte> | |s| == SFN_SIZE witness Zeros(SFN_SIZE)

  // ---------------------------------------------------------------- digits

  function Digit(b: byte): (d: Option<nat>) {
    if 0x30 <= b <= 0x39 then Some(b - 0x30) else None
  }

  function HexDigit(b: byte): (d: Option<nat>)
    ensures d.Some? ==> d.value < 16
  {
    if 0x30 <= b <= 0x39 then Some(b - 0x30)
    else if 0x41 <= b <= 0x46 then Some(b - 0x41 + 10)
    else if 0x61 <= b <= 0x66 then Some(b - 0x61 + 10)
    else None
  }

  function ToHexDigit(v: nat): (b: byte)
    requires v < 16
    ensures HexDigit(b) == Some(v)
  {
    if v < 10 then 0x30 + v else 0x41 + v - 10
  }

  function ParseDigits(b: seq<byte>): (v: Option<nat>) {
    if b == [] then Some(0)
    else
      var front, last := ParseDigits(b[..|b| - 1]), HexDigit(b[|b| - 1]);
      if front.Some? && last.Some? then Some(front.value * 16 + last.value) else None
  }

  /** A hexadecimal number in either case, with an optional plus sign. */
  function ParseHex(b: seq<byte>): (v: Option<nat>) {
    if b == [] then None
    else if b[0] == 0x2B then if |b| == 1 then None else ParseDigits(b[1..])
    else ParseDigits(b)
  }

  function ToHex(x: nat): (b: seq<byte>)
    requires x < CHECKSUMS
    ensures |b| == 4
  {
    [ToHexDigit(x / 0x1000), ToHexDigit(x / 0x100 % 16), ToHexDigit(x / 0x10 % 16), ToHexDigit(x % 16)]
  }

  lemma ParseNext(b: seq<byte>, d: byte, v: nat, w: nat)
    requires ParseDigits(b) == Some(v) && HexDigit(d) == Some(w)
    ensures ParseDigits(b + [d]) == Some(v * 16 + w)
  {
    var s := b + [d];
    assert s[..|s| - 1] == b;
  }

  lemma ParseFour(a: nat, b: nat, c: nat, d: nat)
    requires a < 16 && b < 16 && c < 16 && d < 16
    ensures ParseHex([ToHexDigit(a), ToHexDigit(b), ToHexDigit(c), ToHexDigit(d)])
            == Some(((a * 16 + b) * 16 + c) * 16 + d)
  {
    var p, q, r, s := ToHexDigit(a), ToHexDigit(b), ToHexDigit(c), ToHexDigit(d);
    assert [] + [p] == [p] && [p] + [q] == [p, q] && [p, q] + [r] == [p, q, r] && [p, q, r] + [s] == [p, q, r, s];
    ParseNext([], p, 0, a);
    ParseNext([p], q, a, b);
    ParseNext([p, q], r, a * 16 + b, c);
    ParseNext([p, q, r], s, (a * 16 + b) * 16 + c, d);
  }

  lemma FourDigits(x: nat)
    ensures ((x / 0x1000 * 16 + x / 0x100 % 16) * 16 + x / 0x10 % 16) * 16 + x % 16 == x
  {
    var y := x / 16;
    var z := y / 16;
    assert x / 0x100 == z && x / 0x1000 == z / 16;
  }

  lemma HexRoundTrip(x: nat)
    requires x < CHECKSUMS
    ensures ParseHex(ToHex(x)) == Some(x)
  {
    ParseFour(x / 0x1000, x / 0x100 % 16, x / 0x10 % 16, x % 16);
    FourDigits(x);
  }

  // ---------------------------------------------------------------- candidates

  /** The parts of a generator that scanning does not change. */
  datatype Base = Base(name: ShortName, len: nat, fits: bool, lossy: bool) {
    predicate Ok() { len <= 8 }
    /** What a generator made from a long name has: its name starts with a legal character, if with any. */
    predicate Usable() { Ok() && (len > 0 ==> Legal(name[0])) && (fits && !lossy ==> len > 0) }
    function LongLen(): nat { Min(len, 6) }
    function ShortLen(): nat { Min(len, 2) }
  }

  function DigitByte(d: nat): (b: byte)
    requires d < 10
    ensures Digit(b) == Some(d)
  {
    0x30 + d
  }

  function Padding(n: nat): (s: seq<byte>)
    ensures |s| == n
  {
    seq(n, _ => SFN_PADDING)
  }

  /** A prefix, a tilde, a digit and the extension. */
  function Assemble(prefix: seq<byte>, d: nat, ext: seq<byte>): (s: ShortName)
    requires |prefix| <= 6 && d < 10 && |ext| == 3
    ensures s[..|prefix|] == prefix && s[|prefix|] == TILDE && Digit(s[|prefix| + 1]) == Some(d) && s[8..] == ext
  {
    prefix + [TILDE, DigitByte(d)] + Padding(6 - |prefix|) + ext
  }

  /** Long prefix and digit. */
  function LongForm(g: Base, d: nat): (s: ShortName)
    requires g.Ok() && d < 10
  {
    Assemble(g.name[..g.LongLen()], d, g.name[8..])
  }

  /** Short prefix, checksum and digit. */
  function ChecksumForm(g: Base, c: nat, d: nat): (s: ShortName)
    requires g.Ok() && c < CHECKSUMS && d < 10
  {
    Assemble(g.name[..g.ShortLen()] + ToHex(c), d, g.name[8..])
  }

  // ---------------------------------------------------------------- which candidate a name takes

  /** The digit of a name that looks like the long form. */
  function LongDigit(g: Base, s: ShortName): (d: Option<nat>)
    requires g.Ok()
  {
    var n := g.LongLen();
    if s[n] == TILDE && s[..n] == g.name[..n] && s[8..] == g.name[8..] then Digit(s[n + 1]) else None
  }

  /**
    The checksum and digit of a name that looks like the checksum form: a name takes at most one of these candidates.
    */
  function ChecksumDigit(g: Base, s: ShortName): (r: Option<(nat, nat)>)
    requires g.Ok()
  {
    var n := g.ShortLen();
    var c, d := ParseHex(s[n..n + 4]), Digit(s[n + 5]);
    if s[n + 4] == TILDE && s[..n] == g.name[..n] && s[8..] == g.name[8..] && c.Some?
      && d.Some? then Some((c.value, d.value)) else None
  }

  lemma LongFormTaken(g: Base, d: nat)
    requires g.Ok() && d < 10
    ensures LongDigit(g, LongForm(g, d)) == Some(d)
  {
  }

  lemma ChecksumFormTaken(g: Base, c: nat, d: nat)
    requires g.Ok() && c < CHECKSUMS && d < 10
    ensures ChecksumDigit(g, ChecksumForm(g, c, d)) == Some((c, d))
  {
    var n, s := g.ShortLen(), ChecksumForm(g, c, d);
    var prefix := g.name[..n] + ToHex(c);
    assert s[..n] == s[..n + 4][..n] && s[n..n + 4] == s[..n + 4][n..];
    HexRoundTrip(c);
  }

  // ---------------------------------------------------------------- one scan

  function Bit(d: Option<nat>): set<nat> {
    if d.Some? then {d.value} else {}
  }

  /** The digits of the long form that the names take. */
  ghost function LongBits(g: Base, names: seq<ShortName>): set<nat>
    requires g.Ok()
  {
    if names == [] then {} else LongBits(g, names[..|names| - 1]) + Bit(LongDigit(g, names[|names| - 1]))
  }

  function DigitFor(r: Option<(nat, nat)>, c: nat): Option<nat> {
    if r.Some? && r.value.0 == c then Some(r.value.1) else None
  }

  /** The digits of the form with checksum `c` that the names take. */
  ghost function ChecksumBits(g: Base, names: seq<ShortName>, c: nat): set<nat>
    requires g.Ok()
  {
    if names == [] then {}
      else ChecksumBits(g, names[..|names| - 1], c) + Bit(DigitFor(ChecksumDigit(g, names[|names| - 1]), c))
  }

  lemma {:induction false} LongBitSet(g: Base, names: seq<ShortName>, i: nat)
    requires g.Ok() && i < |names| && LongDigit(g, names[i]).Some?
    ensures LongDigit(g, names[i]).value in LongBits(g, names)
  {
    if i < |names| - 1 { LongBitSet(g, names[..|names| - 1], i); }
  }

  lemma {:induction false} ChecksumBitSet(g: Base, names: seq<ShortName>, i: nat)
    requires g.Ok() && i < |names| && ChecksumDigit(g, names[i]).Some?
    ensures ChecksumDigit(g, names[i]).value.1 in ChecksumBits(g, names, ChecksumDigit(g, names[i]).value.0)
  {
    if i < |names| - 1 { ChecksumBitSet(g, names[..|names| - 1], i); }
  }

  /** A digit that is taken is taken by one of the names. */
  lemma {:induction false} ChecksumBitBy(g: Base, names: seq<ShortName>, c: nat, d: nat) returns (i: nat)
    requires g.Ok() && d in ChecksumBits(g, names, c)
    ensures i < |names| && ChecksumDigit(g, names[i]) == Some((c, d))
  {
    var n := |names| - 1;
    if d in ChecksumBits(g, names[..n], c) {
      i := ChecksumBitBy(g, names[..n], c, d);
    } else {
      i := n;
    }
  }

  /** The least digit from `lo` on that is not taken. */
  function FirstFree(bits: set<nat>, lo: nat, hi: nat): (r: Option<nat>)
    requires lo <= hi
    ensures r.Some? ==> lo <= r.value < hi && r.value !in bits && forall k :: lo <= k < r.value ==> k in bits
    ensures r.None? ==> forall k :: lo <= k < hi ==> k in bits
    decreases hi - lo
  {
    if lo == hi then None else if lo !in bits then Some(lo) else FirstFree(bits, lo + 1, hi)
  }

  /** The name itself if it is a short name, else the first free long form, else the first free form with checksum. */
  function Generate(g: Base, c: nat, longBits: set<nat>, checksumBits: set<nat>, exact: bool): (r: Option<ShortName>)
    requires g.Ok() && c < CHECKSUMS
    ensures r.None? <==> (g.lossy || !g.fits || exact) && (forall d :: 1 <= d < 5 ==> d in longBits)
                         && forall d :: 1 <= d < 10 ==> d in checksumBits
  {
    if !g.lossy && g.fits && !exact then Some(g.name)
    else
      var d := FirstFree(longBits, 1, 5);
      if d.Some? then Some(LongForm(g, d.value))
      else
        var e := FirstFree(checksumBits, 1, 10);
        if e.Some? then Some(ChecksumForm(g, c, e.value)) else None
  }

  /** A generated name is none of those scanned. */
  lemma GeneratedIsNew(g: Base, c: nat, names: seq<ShortName>, exact: bool, i: nat)
    requires g.Ok() && c < CHECKSUMS && i < |names| && (g.name in names ==> exact)
    ensures Generate(g, c, LongBits(g, names), ChecksumBits(g, names, c), exact) != Some(names[i])
  {
    var s := names[i];
    if !g.lossy && g.fits && !exact {
      assert s != g.name;
    } else if FirstFree(LongBits(g, names), 1, 5).Some? {
      var d := FirstFree(LongBits(g, names), 1, 5).value;
      LongFormTaken(g, d);
      if LongDigit(g, s).Some? { LongBitSet(g, names, i); }
    } else if FirstFree(ChecksumBits(g, names, c), 1, 10).Some? {
      var d := FirstFree(ChecksumBits(g, names, c), 1, 10).value;
      ChecksumFormTaken(g, c, d);
      if ChecksumDigit(g, s).Some? { ChecksumBitSet(g, names, i); }
    }
  }

  // ---------------------------------------------------------------- from a long name

  /** Characters that are copied as they are, but for their case. */
  predicate Allowed(c: nat) {
    || 0x41 <= c <= 0x5A || 0x61 <= c <= 0x7A || 0x30 <= c <= 0x39
    || c in {0x21, 0x23, 0x24, 0x25, 0x26, 0x27, 0x28, 0x29, 0x2D, 0x40, 0x5E, 0x5F, 0x60, 0x7B, 0x7D, 0x7E}
  }

  function Upper(c: nat): nat { if 0x61 <= c <= 0x7A then c - 0x20 else c }

  /** A byte of a short name: an allowed character that is no small letter. */
  predicate Legal(b: nat) { Allowed(b) && Upper(b) == b }

  const SPACE: nat := 0x20
  const DOT: nat := 0x2E
  const UNDERSCORE: nat := 0x5F

  function ShortChar(c: nat): (b: byte)
    ensures Legal(b)
  {
    Upper(if Allowed(c) then c else UNDERSCORE)
  }

  datatype Copied = Copied(bytes: seq<byte>, fits: bool, lossy: bool)

  /** What a short name can show of a text: no spaces and dots, capitals, and underscores for what it cannot hold. */
  function Kept(src: seq<nat>): (r: seq<byte>) {
    if src == [] then []
    else if src[0] == SPACE || src[0] == DOT then Kept(src[1..])
    else [ShortChar(src[0])] + Kept(src[1..])
  }

  /** A text that a short name can hold as it is, but for its case. */
  predicate Plain(src: seq<nat>) {
    src == [] || (Allowed(src[0]) && src[0] != SPACE && src[0] != DOT && Plain(src[1..]))
  }

  /** The first `cap` of these. */
  function Front(s: seq<byte>, cap: nat): seq<byte> { if |s| <= cap then s else s[..cap] }

  /** Copies characters behind `out` until there are `cap`; spaces and dots are dropped, others replaced if need be. */
  function CopyPart(cap: nat, src: seq<nat>, out: seq<byte>, lossy: bool): (r: Copied)
    requires |out| <= cap && forall b :: b in out ==> Legal(b)
    ensures |r.bytes| <= cap && forall b :: b in r.bytes ==> Legal(b)
    ensures r.fits && !r.lossy ==> |r.bytes| == |out| + |src|
    ensures lossy ==> r.lossy
    decreases |src|
  {
    if src == [] then Copied(out, true, lossy)
    else if |out| == cap then Copied(out, false, lossy)
    else if src[0] == SPACE || src[0] == DOT then CopyPart(cap, src[1..], out, true)
    else CopyPart(cap, src[1..], out + [ShortChar(src[0])], lossy || !Allowed(src[0]))
  }

  /** The copy is the front of what a short name can show. */
  lemma {:induction false} CopyShows(cap: nat, src: seq<nat>, out: seq<byte>, lossy: bool)
    requires |out| <= cap && forall b :: b in out ==> Legal(b)
    ensures CopyPart(cap, src, out, lossy).bytes == Front(out + Kept(src), cap)
    decreases |src|
  {
    if src == [] {
      assert out + [] == out;
    } else if |out| == cap {
      assert (out + Kept(src))[..cap] == out;
    } else if src[0] == SPACE || src[0] == DOT {
      CopyShows(cap, src[1..], out, true);
    } else {
      var b := ShortChar(src[0]);
      CopyShows(cap, src[1..], out + [b], lossy || !Allowed(src[0]));
      assert out + [b] + Kept(src[1..]) == out + ([b] + Kept(src[1..]));
    }
  }

  /** It fits without loss exactly if the text is plain and short enough. */
  lemma {:induction false} CopyFits(cap: nat, src: seq<nat>, out: seq<byte>, lossy: bool)
    requires |out| <= cap && forall b :: b in out ==> Legal(b)
    ensures var r := CopyPart(cap, src, out, lossy);
            r.fits && !r.lossy <==> !lossy && Plain(src) && |out| + |src| <= cap
    decreases |src|
  {
    if src != [] && |out| < cap {
      var c := src[0];
      if c == SPACE || c == DOT {
        CopyFits(cap, src[1..], out, true);
      } else {
        CopyFits(cap, src[1..], out + [ShortChar(c)], lossy || !Allowed(c));
      }
    }
  }

  /** The last dot behind the first character. */
  function LastDot(name: seq<nat>): (i: Option<nat>)
    ensures i.Some? ==> 0 < i.value < |name| && name[i.value] == DOT
  {
    if |name| <= 1 then None else if name[|name| - 1] == DOT then Some(|name| - 1) else LastDot(name[..|name| - 1])
  }

  function Padded(b: seq<byte>, n: nat): (s: seq<byte>)
    requires |b| <= n
    ensures |s| == n && s[..|b|] == b
  {
    b + Padding(n - |b|)
  }

  /** A name before its last dot, and behind it. */
  function Stem(name: seq<nat>): (s: seq<nat>) {
    if LastDot(name).Some? then name[..LastDot(name).value] else name
  }

  function Suffix(name: seq<nat>): (s: seq<nat>) {
    if LastDot(name).Some? then name[LastDot(name).value + 1..] else []
  }

  /** The short name before the last dot and behind it. The first character has to be ASCII for the source. */
  function New(name: seq<nat>): (g: Base)
    requires name != [] && name[0] < 0x80
    ensures g.Ok()
  {
    var base, ext := CopyPart(8, Stem(name), [], false), CopyPart(3, Suffix(name), [], false);
    Base(Padded(base.bytes, 8) + Padded(ext.bytes, 3), |base.bytes|, base.fits && ext.fits, base.lossy || ext.lossy)
  }

  /**
    It has what a short name can show of stem and suffix, each padded with spaces. It fits without loss
    exactly if both are plain and short enough.
    */
  lemma NewShows(name: seq<nat>)
    requires name != [] && name[0] < 0x80
    ensures var g, base, ext := New(name), Front(Kept(Stem(name)), 8), Front(Kept(Suffix(name)), 3);
            && g.len == |base| && g.name[..8] == base + Padding(8 - |base|) && g.name[8..] == ext + Padding(3 - |ext|)
            && (g.fits && !g.lossy
                <==> Plain(Stem(name)) && |Stem(name)| <= 8 && Plain(Suffix(name)) && |Suffix(name)| <= 3)
  {
    hide CopyPart, Kept, Stem, Suffix, Plain;
    var base, ext := CopyPart(8, Stem(name), [], false), CopyPart(3, Suffix(name), [], false);
    CopyShows(8, Stem(name), [], false);
    CopyShows(3, Suffix(name), [], false);
    CopyFits(8, Stem(name), [], false);
    CopyFits(3, Suffix(name), [], false);
    assert [] + Kept(Stem(name)) == Kept(Stem(name)) && [] + Kept(Suffix(name)) == Kept(Suffix(name));
    assert New(name).name[..8] == Padded(base.bytes, 8) && New(name).name[8..] == Padded(ext.bytes, 3);
  }

  /** All characters of the name are legal. */
  lemma NewLegal(name: seq<nat>)
    requires name != [] && name[0] < 0x80
    ensures forall i {:trigger New(name).name[i]} :: 0 <= i < New(name).len ==> Legal(New(name).name[i])
    ensures New(name).Usable()
  {
    var base := CopyPart(8, Stem(name), [], false);
    forall i | 0 <= i < New(name).len ensures Legal(New(name).name[i]) {
      assert New(name).name[i] == Padded(base.bytes, 8)[i] == base.bytes[i];
    }
    if New(name).len > 0 { assert Legal(New(name).name[0]); }
  }

  /** A generated name starts with a legal character, so it is neither the mark of a deleted entry nor of the end. */
  lemma GeneratedStartsLegal(g: Base, c: nat, longBits: set<nat>, checksumBits: set<nat>, exact: bool)
    requires g.Usable() && c < CHECKSUMS
    ensures var r := Generate(g, c, longBits, checksumBits, exact);
            r.Some? ==> Legal(r.value[0])
  {
    var r := Generate(g, c, longBits, checksumBits, exact);
    if g.len > 0 {
      assert r.Some? ==> r.value[0] == g.name[0] by {
        if r.Some? { PrefixKept(g, c); }
      }
    } else {
      HexStartsLegal(c);
    }
  }

  lemma HexStartsLegal(c: nat)
    requires c < CHECKSUMS
    ensures Legal(ToHex(c)[0])
  {
  }

  /** Both forms start like the name. */
  lemma PrefixKept(g: Base, c: nat)
    requires g.Ok() && g.len > 0 && c < CHECKSUMS
    ensures forall d :: 1 <= d < 10 ==> LongForm(g, d)[0] == g.name[0] && ChecksumForm(g, c, d)[0] == g.name[0]
  {
    forall d | 1 <= d < 10 ensures LongForm(g, d)[0] == g.name[0] && ChecksumForm(g, c, d)[0] == g.name[0] {
      var p, q := g.name[..g.LongLen()], g.name[..g.ShortLen()] + ToHex(c);
      assert LongForm(g, d)[..|p|][0] == p[0] && ChecksumForm(g, c, d)[..|q|][0] == q[0];
    }
  }

  // ---------------------------------------------------------------- the number of passes

  /** The checksum of pass `k`. */
  function PassChecksum(c: nat, k: nat): (r: nat)
    ensures r < CHECKSUMS
  {
    (c + k) % CHECKSUMS
  }

  /** Name `i` takes a candidate of one of the first `k` passes. */
  ghost predicate TakesBefore(g: Base, names: seq<ShortName>, c: nat, k: nat, i: nat)
    requires g.Ok() && i < |names|
  {
    var r := ChecksumDigit(g, names[i]);
    r.Some? && exists j :: 0 <= j < k && PassChecksum(c, j) == r.value.0
  }

  /** Nine names for each of the first `k` passes. */
  ghost predicate Blocking(g: Base, names: seq<ShortName>, c: nat, k: nat, blockers: set<nat>)
    requires g.Ok()
  {
    |blockers| == 9 * k && forall i :: i in blockers ==> i < |names| && TakesBefore(g, names, c, k, i)
  }

  /** The names that take the first `d` digits of a pass. */
  lemma {:induction false} PassBlockers(g: Base, names: seq<ShortName>, c: nat, d: nat) returns (s: set<nat>)
    requires g.Ok() && d <= 9 && forall e :: 1 <= e < 10 ==> e in ChecksumBits(g, names, c)
    ensures |s| == d
    ensures forall i :: i in s
              ==> i < |names| && ChecksumDigit(g, names[i]).Some? && ChecksumDigit(g, names[i]).value.0 == c
                  && 1 <= ChecksumDigit(g, names[i]).value.1 <= d
  {
    s := {};
    if d > 0 {
      var rest := PassBlockers(g, names, c, d - 1);
      var i := ChecksumBitBy(g, names, c, d);
      s := rest + {i};
    }
  }

  /** A pass fails only because of nine names that block no other pass. */
  lemma NextBlocking(g: Base, names: seq<ShortName>, c: nat, k: nat, blockers: set<nat>) returns (more: set<nat>)
    requires g.Ok() && k < CHECKSUMS && Blocking(g, names, c, k, blockers)
    requires forall d :: 1 <= d < 10 ==> d in ChecksumBits(g, names, PassChecksum(c, k))
    ensures Blocking(g, names, c, k + 1, more)
  {
    var s := PassBlockers(g, names, PassChecksum(c, k), 9);
    more := blockers + s;
    forall i | i in blockers ensures i !in s {
      assert TakesBefore(g, names, c, k, i);
      var j :| 0 <= j < k && PassChecksum(c, j) == ChecksumDigit(g, names[i]).value.0;
      PassesApart(c, j, k);
    }
    assert blockers !! s;
    forall i | i in more ensures i < |names| && TakesBefore(g, names, c, k + 1, i) {
      if i in blockers {
        assert TakesBefore(g, names, c, k, i);
      } else {
        assert PassChecksum(c, k) == ChecksumDigit(g, names[i]).value.0;
      }
    }
  }

  lemma PassNext(c: nat, k: nat)
    ensures PassChecksum(PassChecksum(c, k), 1) == PassChecksum(c, k + 1)
  {
  }

  /** Before the first pass there are no blockers. */
  lemma FirstPass(g: Base, names: seq<ShortName>, c: nat)
    requires g.Ok() && c < CHECKSUMS
    ensures Blocking(g, names, c, 0, {}) && PassChecksum(c, 0) == c
  {
  }

  lemma PassesApart(c: nat, j: nat, k: nat)
    requires j < k < CHECKSUMS
    ensures PassChecksum(c, j) != PassChecksum(c, k)
  {
  }

  /** So there are at most as many failing passes as there are nines of names. */
  lemma BlockingBound(g: Base, names: seq<ShortName>, c: nat, k: nat, blockers: set<nat>)
    requires g.Ok() && Blocking(g, names, c, k, blockers)
    ensures 9 * k <= |names|
  {
    assert blockers <= Below(|names|);
    SubsetSize(blockers, Below(|names|));
  }

  /** Some digit of the form with checksum `c` is free. */
  ghost predicate HasFree(g: Base, names: seq<ShortName>, c: nat)
    requires g.Ok()
  {
    exists d :: 1 <= d < 10 && d !in ChecksumBits(g, names, c)
  }

  /** Some checksum has a free digit; `c` is where the passes start. */
  ghost predicate SomeFree(g: Base, names: seq<ShortName>, c: nat)
    requires g.Ok()
  {
    exists j :: 0 <= j < CHECKSUMS && HasFree(g, names, PassChecksum(c, j))
  }

  lemma {:induction false} AllBlocked(g: Base, names: seq<ShortName>, c: nat, k: nat) returns (blockers: set<nat>)
    requires g.Ok() && k <= CHECKSUMS && c < CHECKSUMS
             && forall j :: 0 <= j < k ==> !HasFree(g, names, PassChecksum(c, j))
    ensures Blocking(g, names, c, k, blockers)
  {
    if k == 0 {
      blockers := {};
    } else {
      var b := AllBlocked(g, names, c, k - 1);
      assert !HasFree(g, names, PassChecksum(c, k - 1));
      blockers := NextBlocking(g, names, c, k - 1, b);
    }
  }

  /** A directory with fewer than nine names for each checksum always has a free one. */
  lemma FewNames(g: Base, names: seq<ShortName>, c: nat)
    requires g.Ok() && c < CHECKSUMS && |names| < 9 * CHECKSUMS
    ensures SomeFree(g, names, c)
  {
    if !SomeFree(g, names, c) {
      var b := AllBlocked(g, names, c, CHECKSUMS);
      BlockingBound(g, names, c, CHECKSUMS, b);
    }
  }

  lemma ChecksumCycle(c: nat, k: nat)
    ensures PassChecksum(c, k) == PassChecksum(c, k % CHECKSUMS)
  {
  }

  /** Some candidate is free: the name itself, a long form, or a form with checksum. */
  ghost predicate Nameable(g: Base, names: seq<ShortName>, c: nat)
    requires g.Ok()
  {
    SomeFree(g, names, c) || (!g.lossy && g.fits && g.name !in names)
    || exists d :: 1 <= d < 5 && d !in LongBits(g, names)
  }

  /** Otherwise every pass fails: the search does not end. */
  lemma AllTaken(g: Base, names: seq<ShortName>, c: nat, k: nat)
    requires g.Ok() && !Nameable(g, names, c)
    ensures var cc := PassChecksum(c, k);
            Generate(g, cc, LongBits(g, names), ChecksumBits(g, names, cc), g.name in names).None?
  {
    ChecksumCycle(c, k);
    assert !HasFree(g, names, PassChecksum(c, k % CHECKSUMS));
  }

  /** Candidate `i` of all those with a checksum. */
  function ChecksumName(g: Base, i: nat): (s: ShortName)
    requires g.Ok() && i < 9 * CHECKSUMS
  {
    ChecksumForm(g, i / 9, i % 9 + 1)
  }

  /** A directory in which every candidate is taken. */
  function FullDirectory(g: Base): (names: seq<ShortName>)
    requires g.Ok()
    ensures |names| == 5 + 9 * CHECKSUMS
  {
    [g.name, LongForm(g, 1), LongForm(g, 2), LongForm(g, 3), LongForm(g, 4)]
    + seq(9 * CHECKSUMS, i requires 0 <= i < 9 * CHECKSUMS => ChecksumName(g, i))
  }

  /** So there is a directory for which the search does not end, whatever the name and the first checksum. */
  lemma FullIsTaken(g: Base, c: nat)
    requires g.Ok()
    ensures !Nameable(g, FullDirectory(g), c)
  {
    hide FullDirectory, Nameable, ChecksumBits, LongBits, ChecksumForm, LongForm, PassChecksum;
    var names := FullDirectory(g);
    LongTaken(g, 1);
    forall d | 1 <= d < 5 ensures d in LongBits(g, names) { LongTaken(g, d); }
    forall j | 0 <= j < CHECKSUMS ensures !HasFree(g, names, PassChecksum(c, j)) {
      forall d | 1 <= d < 10 ensures d in ChecksumBits(g, names, PassChecksum(c, j)) {
        ChecksumTaken(g, PassChecksum(c, j), d);
      }
    }
    NotNameable(g, names, c);
  }

  lemma NotNameable(g: Base, names: seq<ShortName>, c: nat)
    requires g.Ok() && names != [] && names[0] == g.name && (forall d :: 1 <= d < 5 ==> d in LongBits(g, names))
    requires forall j :: 0 <= j < CHECKSUMS ==> !HasFree(g, names, PassChecksum(c, j))
    ensures !Nameable(g, names, c)
  {
  }

  lemma LongTaken(g: Base, d: nat)
    requires g.Ok() && 1 <= d < 5
    ensures FullDirectory(g)[0] == g.name && d in LongBits(g, FullDirectory(g))
  {
    hide LongBits, LongForm;
    var names := FullDirectory(g);
    LongFormTaken(g, d);
    assert names[d] == LongForm(g, d);
    LongBitSet(g, names, d);
  }

  lemma ChecksumTaken(g: Base, c: nat, d: nat)
    requires g.Ok() && c < CHECKSUMS && 1 <= d < 10
    ensures d in ChecksumBits(g, FullDirectory(g), c)
  {
    hide ChecksumBits, ChecksumForm;
    var names, i := FullDirectory(g), 9 * c + d - 1;
    ChecksumFormTaken(g, c, d);
    assert i / 9 == c && i % 9 + 1 == d;
    assert names[5 + i] == ChecksumName(g, i);
    ChecksumBitSet(g, names, 5 + i);
  }

  /** The checksum that the passes for a name start with: rotated to the right and added to, character by character. */
  function NameChecksum(name: seq<nat>): (c: nat)
    ensures c < CHECKSUMS
  {
    if name == [] then 0
    else
      var c := NameChecksum(name[..|name| - 1]);
      (c / 2 + c % 2 * 0x8000 + name[|name| - 1]) % CHECKSUMS
  }

  class ShortNameGenerator {
    const g: Base
    var chksum: nat
    /** The digits of the candidates that are taken, one bitmap for each form. */
    var longPrefix: set<nat>
    var prefixChksum: set<nat>
    var exactMatch: bool
    /** The names added since the last change of the checksum. */
    ghost var scanned: seq<ShortName>

    ghost predicate Valid()
      reads this
    {
      && g.Usable() && chksum < CHECKSUMS && (g.name in scanned ==> exactMatch)
      && longPrefix == LongBits(g, scanned) && prefixChksum == ChecksumBits(g, scanned, chksum)
    }

    constructor (g: Base, chksum: nat)
      requires g.Usable() && chksum < CHECKSUMS
      ensures Valid() && this.g == g && this.chksum == chksum && scanned == [] && !exactMatch
    {
      this.g := g;
      this.chksum := chksum;
      longPrefix, prefixChksum, exactMatch, scanned := {}, {}, false, [];
    }

    /** Notes which candidates a name of the directory takes. */
    method AddExisting(s: ShortName)
      requires Valid()
      modifies this`longPrefix, this`prefixChksum, this`exactMatch, this`scanned
      ensures Valid() && scanned == old(scanned) + [s] && (exactMatch <==> old(exactMatch) || s == g.name)
    {
      assert (scanned + [s])[..|scanned|] == scanned;
      if s == g.name { exactMatch := true; }
      longPrefix := longPrefix + Bit(LongDigit(g, s));
      prefixChksum := prefixChksum + Bit(DigitFor(ChecksumDigit(g, s), chksum));
      scanned := scanned + [s];
    }

    /** Tries the next checksum, with empty bitmaps. */
    method NextIteration()
      requires Valid()
      modifies this`chksum, this`longPrefix, this`prefixChksum, this`scanned
      ensures Valid() && chksum == PassChecksum(old(chksum), 1) && scanned == []
    {
      chksum := (chksum + 1) % CHECKSUMS;
      longPrefix, prefixChksum, scanned := {}, {}, [];
    }

    /** Adds all names of a directory. */
    method AddAll(names: seq<ShortName>)
      requires Valid() && scanned == []
      modifies this`longPrefix, this`prefixChksum, this`exactMatch, this`scanned
      ensures Valid() && scanned == names && (exactMatch <==> old(exactMatch) || g.name in names)
    {
      var i := 0;
      while i < |names|
        invariant Valid() && i <= |names| && scanned == names[..i]
                  && (exactMatch <==> old(exactMatch) || g.name in names[..i])
      {
        AddExisting(names[i]);
        assert names[..i] + [names[i]] == names[..i + 1];
        i := i + 1;
      }
      assert names[..i] == names;
    }

    /** One pass over the directory: a new name, or all candidates of this checksum are taken. */
    method Pass(names: seq<ShortName>) returns (r: Option<ShortName>)
      requires Valid() && scanned == []
      modifies this`longPrefix, this`prefixChksum, this`exactMatch, this`scanned
      ensures Valid()
      ensures r.Some? ==> r.value !in names && Legal(r.value[0])
      ensures r.None? ==> forall d :: 1 <= d < 10 ==> d in ChecksumBits(g, names, chksum)
      ensures r.None? ==> (forall d :: 1 <= d < 5 ==> d in LongBits(g, names)) && (g.lossy || !g.fits || exactMatch)
      ensures exactMatch <==> old(exactMatch) || g.name in names
    {
      AddAll(names);
      r := Generate(g, chksum, longPrefix, prefixChksum, exactMatch);
      GeneratedStartsLegal(g, chksum, longPrefix, prefixChksum, exactMatch);
      if r.Some? {
        forall i | 0 <= i < |names| ensures names[i] != r.value { GeneratedIsNew(g, chksum, names, exactMatch, i); }
      }
    }

    /**
      Scans the names and generates, with a new checksum in each pass, until a candidate is free.
      The result is no name of the directory, and there are at most a ninth as many passes as names, and one.
      */
    method FindUnused(names: seq<ShortName>) returns (name: ShortName, passes: nat)
      requires Valid() && scanned == [] && !exactMatch && Nameable(g, names, chksum)
      modifies this`chksum, this`longPrefix, this`prefixChksum, this`exactMatch, this`scanned
      ensures name !in names && Legal(name[0]) && 1 <= passes <= |names| / 9 + 1
    {
      hide PassChecksum, Blocking, ChecksumBits, LongBits;
      ghost var c, blockers := chksum, {};
      ghost var j := 0;
      if SomeFree(g, names, c) { j :| 0 <= j < CHECKSUMS && HasFree(g, names, PassChecksum(c, j)); }
      FirstPass(g, names, c);
      passes := 0;
      while true
        invariant Valid() && scanned == [] && chksum == PassChecksum(c, passes) && 9 * passes <= |names|
                  && passes <= j < CHECKSUMS
        invariant if SomeFree(g, names, c) then HasFree(g, names, PassChecksum(c, j)) else j == 0
        invariant passes == 0 ==> !exactMatch
        invariant Blocking(g, names, c, passes, blockers)
        decreases j - passes
      {
        var r := Pass(names);
        if r.Some? { return r.value, passes + 1; }
        blockers := NextBlocking(g, names, c, passes, blockers);
        BlockingBound(g, names, c, passes + 1, blockers);
        PassNext(c, passes);
        NextIteration();
        passes := passes + 1;
      }
    }
  }
}
