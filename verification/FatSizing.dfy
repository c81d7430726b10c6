/** How large the FAT of a new volume is made: large enough for every cluster, and not much larger. */
module FatSizing {

  import opened Arithmetic
  import opened FatChains
  import opened FatEntry

  function Bits(ft: FatType): nat {
    match ft
    case Fat12 => 12
    case Fat16 => 16
    case Fat32 => 32
  }

  predicate SectorSize(b: nat) { b == 512 || b == 1024 || b == 2048 || b == 4096 }

  predicate SectorsPerCluster(s: nat) {
    s == 1 || s == 2 || s == 4 || s == 8 || s == 16 || s == 32 || s == 64 || s == 128
  }

  /** FAT entries for a cluster's worth of bytes, rounded down. */
  function EntriesPerCluster(b: nat, s: nat, ft: FatType): nat {
    s * b * 8 / Bits(ft)
  }

  /** The number of sectors for each FAT, `t0` being the sectors left for FATs and data. */
  function SectorsPerFat(t0: nat, b: nat, s: nat, ft: FatType, fats: nat): (q: nat)
    requires fats > 0
  {
    var t2 := EntriesPerCluster(b, s, ft) + fats;
    (t0 + 2 * s + t2 - 1) / t2
  }

  /** The entries of a FAT of `q` sectors. */
  function FatEntries(q: nat, b: nat, ft: FatType): nat {
    q * b * 8 / Bits(ft)
  }

  // ---------------------------------------------------------------- arithmetic

  lemma CeilBounds(x: nat, m: nat, q: nat)
    requires m > 0 && x > 0 && q == (x + m - 1) / m
    ensures q > 0 && (q - 1) * m < x <= q * m
  {
    var r := (x + m - 1) % m;
    assert x + m - 1 == q * m + r;
    assert (q - 1) * m == q * m - m;
  }

  /** At least 128 entries for each sector of a cluster, whatever the sizes. */
  lemma EntriesAtLeast(b: nat, s: nat, ft: FatType)
    requires SectorSize(b) && SectorsPerCluster(s)
    ensures EntriesPerCluster(b, s, ft) >= 128 * s
  {
  }

  lemma TimesAtLeast(p: nat, e: nat)
    requires p > 0
    ensures p * e >= e
  {
  }

  lemma Room(t0: nat, s: nat, e: nat, fats: nat, q: nat)
    requires e >= 128 * s && s > 0 && 1 <= fats <= 2 && t0 >= 9 && q > 0 && (q - 1) * (e + fats) < t0 + 2 * s
    ensures fats * q < t0
  {
    var p := q - 1;
    Distribute(e, fats, p);
    if p > 0 { TimesAtLeast(p, e); }
    if fats == 1 { assert p * fats == p; } else { assert p * fats == 2 * p; }
  }

  /** The FATs leave room for data. */
  lemma DataRemains(t0: nat, b: nat, s: nat, ft: FatType, fats: nat)
    requires SectorSize(b) && SectorsPerCluster(s) && 1 <= fats <= 2 && t0 >= 9
    ensures fats * SectorsPerFat(t0, b, s, ft, fats) < t0
  {
    var e, q := EntriesPerCluster(b, s, ft), SectorsPerFat(t0, b, s, ft, fats);
    EntriesAtLeast(b, s, ft);
    CeilBounds(t0 + 2 * s, e + fats, q);
    Room(t0, s, e, fats, q);
  }

  // ---------------------------------------------------------------- large enough

  lemma Scale(q: nat, x: nat, y: nat)
    requires x <= y
    ensures q * x <= q * y
  {
  }

  lemma Grows(x: nat, y: nat, s: nat)
    requires y < x
    ensures y * s + s <= x * s
  {
    var k := x - y;
    assert x * s == y * s + k * s;
    TimesAtLeast(k, s);
  }

  lemma Cancel(x: nat, y: nat, s: nat)
    requires s > 0 && x * s <= y * s
    ensures x <= y
  {
    if y < x { Grows(x, y, s); }
  }

  lemma DivLaw(x: nat, m: nat)
    requires m > 0
    ensures (x / m) * m <= x < (x / m) * m + m
  {
  }

  lemma DivAtLeast(x: nat, m: nat, n: nat)
    requires m > 0 && n * m <= x
    ensures x / m >= n
  {
    DivLaw(x, m);
    if x / m < n { Grows(n, x / m, m); }
  }

  /** All there is to know about a sizing: `q` sectors for each FAT, `d` for data, `c` clusters. */
  ghost predicate Sized(t0: nat, b: nat, s: nat, ft: FatType, fats: nat, e: nat, q: nat, d: nat, c: nat) {
    && SectorSize(b) && SectorsPerCluster(s) && 1 <= fats <= 2 && t0 >= 9
    && e == EntriesPerCluster(b, s, ft) && q == SectorsPerFat(t0, b, s, ft, fats)
    && fats * q + d == t0 && c == d / s
  }

  lemma FatBounds(t0: nat, s: nat, e: nat, fats: nat, q: nat, d: nat)
    requires q > 0 && (q - 1) * (e + fats) < t0 + 2 * s <= q * (e + fats) && fats * q + d == t0
    ensures d + 2 * s <= q * e < d + 2 * s + e + fats
  {
    Distribute(e, fats, q);
    var m := e + fats;
    assert (q - 1) * m == q * m - m;
    assert q * fats == fats * q;
  }

  /** The products the two bounds below are about. */
  lemma SizedBounds(t0: nat, b: nat, s: nat, ft: FatType, fats: nat, e: nat, q: nat, d: nat, c: nat)
    requires Sized(t0, b, s, ft, fats, e, q, d, c)
    ensures q > 0 && e >= 128 * s
    ensures d + 2 * s <= q * e < d + 2 * s + e + fats
    ensures c * s <= d < c * s + s
    ensures e * Bits(ft) <= s * b * 8 < e * Bits(ft) + Bits(ft)
  {
    EntriesAtLeast(b, s, ft);
    CeilBounds(t0 + 2 * s, e + fats, q);
    FatBounds(t0, s, e, fats, q, d);
    DivLaw(d, s);
    DivLaw(s * b * 8, Bits(ft));
  }

  /** The FAT has an entry for every cluster, besides the two reserved ones. */
  lemma FatHoldsClusters(t0: nat, b: nat, s: nat, ft: FatType, fats: nat, e: nat, q: nat, d: nat, c: nat)
    requires Sized(t0, b, s, ft, fats, e, q, d, c)
    ensures FatEntries(q, b, ft) >= c + RESERVED_FAT_ENTRIES
  {
    SizedBounds(t0, b, s, ft, fats, e, q, d, c);
    EntriesSuffice(b, s, Bits(ft), e, q, d, c);
    DivAtLeast(q * b * 8, Bits(ft), c + 2);
  }

  lemma EntriesSuffice(b: nat, s: nat, bits: nat, e: nat, q: nat, d: nat, c: nat)
    requires s > 0 && d + 2 * s <= q * e && c * s <= d && e * bits <= s * b * 8
    ensures (c + 2) * bits <= q * b * 8
  {
    Scale(q, e * bits, s * b * 8);
    Scale(bits, c * s + 2 * s, q * e);
    assert q * (e * bits) == bits * (q * e);
    assert q * (s * b * 8) == (q * b * 8) * s;
    assert bits * (c * s + 2 * s) == ((c + 2) * bits) * s;
    Cancel((c + 2) * bits, q * b * 8, s);
  }

  // ---------------------------------------------------------------- not much larger

  function FromClusters(c: nat): FatType {
    if c < 4085 then Fat12 else if c < 65525 then Fat16 else Fat32
  }

  function EntriesPerSector(b: nat, ft: FatType): nat { b * 8 / Bits(ft) }

  lemma ExactNotTooLarge(s: nat, n: nat, per: nat, e: nat, q: nat, d: nat, c: nat, fats: nat)
    requires s > 0 && fats <= 2 && e == s * per && n == q * per
    requires q * e < d + 2 * s + e + fats && d < c * s + s
    ensures n <= c + 3 + per
  {
    assert q * (s * per) == (q * per) * s;
    assert (c + 3 + per) * s == c * s + 3 * s + s * per;
    Cancel(n, c + 3 + per, s);
  }

  /** The sectors of a FAT12 are few. */
  lemma FewSectors(s: nat, e: nat, q: nat, d: nat, c: nat, fats: nat)
    requires s > 0 && fats <= 2 && q > 0 && e >= 341 * s && c < 4085
    requires q * e < d + 2 * s + e + fats && d < c * s + s
    ensures q <= 12
  {
    var p := q - 1;
    assert p * e == q * e - e;
    Scale(p, 341 * s, e);
    assert p * (341 * s) == (341 * p) * s;
    Grows(4085, c, s);
    assert (341 * p) * s <= 4087 * s;
    Cancel(341 * p, 4087, s);
  }

  lemma RoundedNotTooLarge(s: nat, b: nat, n: nat, e: nat, q: nat, d: nat, c: nat, fats: nat)
    requires s > 0 && fats <= 2 && q <= 12 && n * 12 <= q * b * 8
    requires q * e < d + 2 * s + e + fats && d < c * s + s && e * 12 <= s * b * 8 < e * 12 + 12
    ensures 12 * n <= 12 * c + 8 * b + 168
  {
    Scale(s, n * 12, q * b * 8);
    Scale(q, s * b * 8, e * 12 + 11);
    Products(s, b, n, e, q, c);
    Cancel(12 * n, 12 * c + 8 * b + 168, s);
  }

  lemma Products(s: nat, b: nat, n: nat, e: nat, q: nat, c: nat)
    ensures s * (q * b * 8) == q * (s * b * 8) && q * (e * 12 + 11) == 12 * (q * e) + 11 * q
    ensures s * (n * 12) == (12 * n) * s && (12 * c + 8 * b + 168) * s == 12 * (c * s) + s * b * 8 + 168 * s
  {
  }

  lemma EntriesOf12(b: nat, s: nat)
    requires SectorSize(b) && SectorsPerCluster(s)
    ensures EntriesPerCluster(b, s, Fat12) >= 341 * s
    ensures 24 * EntriesPerSector(b, Fat12) >= 16 * b - 22 && b >= 512
  {
  }

  lemma EntriesExact(b: nat, s: nat, q: nat, ft: FatType)
    requires SectorSize(b) && SectorsPerCluster(s) && ft != Fat12
    ensures EntriesPerCluster(b, s, ft) == s * EntriesPerSector(b, ft) && EntriesPerSector(b, ft) >= 128
    ensures FatEntries(q, b, ft) == q * EntriesPerSector(b, ft)
  {
    var per, m := EntriesPerSector(b, ft), Bits(ft);
    assert per * m == b * 8;
    Exact(s, b, per, m);
    Exact(q, b, per, m);
  }

  lemma Exact(x: nat, b: nat, per: nat, m: nat)
    requires m > 0 && per * m == b * 8
    ensures x * b * 8 / m == x * per
  {
    assert x * b * 8 == x * (b * 8);
    assert x * (per * m) == (x * per) * m;
    DivMul(x * per, m);
  }

  lemma DivMul(y: nat, m: nat)
    requires m > 0
    ensures y * m / m == y
  {
    DivLaw(y * m, m);
    Cancel(y * m / m, y, m);
    DivAtLeast(y * m, m, y);
  }

  /** For a volume of the type it is sized for, the FAT has at most two sectors' worth of entries too many. */
  lemma FatNotTooLarge(t0: nat, b: nat, s: nat, ft: FatType, fats: nat, e: nat, q: nat, d: nat, c: nat)
    requires Sized(t0, b, s, ft, fats, e, q, d, c) && FromClusters(c) == ft
    ensures FatEntries(q, b, ft) - RESERVED_FAT_ENTRIES <= c + 2 * EntriesPerSector(b, ft)
  {
    SizedBounds(t0, b, s, ft, fats, e, q, d, c);
    var n := FatEntries(q, b, ft);
    if ft == Fat12 {
      EntriesOf12(b, s);
      FewSectors(s, e, q, d, c, fats);
      DivLaw(q * b * 8, 12);
      RoundedNotTooLarge(s, b, n, e, q, d, c, fats);
    } else {
      EntriesExact(b, s, q, ft);
      ExactNotTooLarge(s, n, EntriesPerSector(b, ft), e, q, d, c, fats);
    }
  }
}
