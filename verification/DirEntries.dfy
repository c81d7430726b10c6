/** Directory entries: the 32-byte records of short names and of the parts of long names. */
module DirEntries {

  import opened Options
  import opened Bytes
  import opened FatEntry
  import opened LongNames

  const DIR_ENTRY_SIZE: nat := 32
  const SFN_SIZE: nat := 11
  const DIR_ENTRY_DELETED_FLAG: byte := 0xE5

  /** A record as it is on the disk. */
  type Slot = b: seq<byte> | |b| == DIR_ENTRY_SIZE witness Zeros(DIR_ENTRY_SIZE)

  datatype FileData = FileData(name: seq<byte>, attrs: byte, reserved0: byte, createTime0: byte, createTime1: u16,
                               createDate: u16,
                               accessDate: u16, firstClusterHi: u16, modifyTime: u16, modifyDate: u16,
                                 firstClusterLo: u16, size: u32)

  datatype LfnData = LfnData(order: byte, units: seq<u16>, attrs: byte, entryType: byte, checksum: byte, reserved0: u16)

  datatype EntryData = File(file: FileData) | Lfn(lfn: LfnData)

  // ---------------------------------------------------------------- attribute bits

  /** The defined attribute bits are the lower six. */
  function Truncate(attrs: byte): (a: byte) { attrs % 64 }

  predicate IsLfnAttrs(attrs: byte) { attrs % 16 == 15 }

  predicate IsVolumeAttrs(attrs: byte) { attrs / 8 % 2 == 1 }

  lemma AttrBits(attrs: byte)
    ensures IsLfnAttrs(Truncate(attrs)) <==> IsLfnAttrs(attrs)
    ensures IsVolumeAttrs(Truncate(attrs)) <==> IsVolumeAttrs(attrs)
  {
    var q, r := attrs / 64, attrs % 64;
    assert attrs == 16 * (4 * q + r / 16) + r % 16;
    assert attrs == 8 * (8 * q + r / 8) + r % 8;
    assert attrs / 8 == 8 * q + r / 8;
  }

  // ---------------------------------------------------------------- reading and writing records

  predicate DataOk(d: EntryData) {
    match d
    case File(f) => |f.name| == SFN_SIZE && f.attrs < 64 && !IsLfnAttrs(f.attrs)
    case Lfn(l) => |l.units| == LFN_PART_LEN && l.attrs < 64 && IsLfnAttrs(l.attrs)
  }

  /** Units one after the other, low byte first. */
  function EncodeUnits(u: seq<u16>): (b: seq<byte>)
    ensures |b| == 2 * |u|
  {
    if u == [] then [] else EncodeUnits(u[..|u| - 1]) + Le16(u[|u| - 1])
  }

  function DecodeUnits(b: seq<byte>): (u: seq<u16>)
    requires |b| % 2 == 0
    ensures |u| == |b| / 2
  {
    if b == [] then [] else DecodeUnits(b[..|b| - 2]) + [U16(b[|b| - 2..])]
  }

  function EncodeFile(f: FileData): (b: seq<byte>)
    requires |f.name| == SFN_SIZE
    ensures |b| == DIR_ENTRY_SIZE
  {
    f.name + [f.attrs, f.reserved0, f.createTime0]
    + EncodeUnits([f.createTime1, f.createDate, f.accessDate, f.firstClusterHi, f.modifyTime, f.modifyDate,
      f.firstClusterLo])
    + Le32(f.size)
  }

  function DecodeFile(b: Slot): (f: FileData) {
    var w := DecodeUnits(b[14..28]);
    FileData(b[..11], Truncate(b[11]), b[12], b[13], w[0], w[1], w[2], w[3], w[4], w[5], w[6], U32(b[28..]))
  }

  function EncodeLfn(l: LfnData): (b: seq<byte>)
    requires |l.units| == LFN_PART_LEN
    ensures |b| == DIR_ENTRY_SIZE
  {
    [l.order] + EncodeUnits(l.units[..5]) + [l.attrs, l.entryType, l.checksum]
    + EncodeUnits(l.units[5..11]) + Le16(l.reserved0) + EncodeUnits(l.units[11..])
  }

  function DecodeLfn(b: Slot): (l: LfnData) {
    LfnData(b[0], DecodeUnits(b[1..11]) + DecodeUnits(b[14..26]) + DecodeUnits(b[28..]), Truncate(b[11]), b[12],
      b[13], U16(b[26..28]))
  }

  function Encode(d: EntryData): (b: Slot)
    requires DataOk(d)
  {
    match d
    case File(f) => EncodeFile(f)
    case Lfn(l) => EncodeLfn(l)
  }

  function Decode(b: Slot): (d: EntryData)
    ensures DataOk(d)
  {
    if IsLfnAttrs(Truncate(b[11])) then Lfn(DecodeLfn(b)) else File(DecodeFile(b))
  }

  lemma Le16OfU16(b: seq<byte>)
    requires |b| == 2
    ensures Le16(U16(b)) == b
  {
  }

  lemma Le32OfU32(b: seq<byte>)
    requires |b| == 4
    ensures Le32(U32(b)) == b
  {
    Le16OfU16(b[..2]);
    Le16OfU16(b[2..]);
    assert U32(b) % 0x1_0000 == U16(b[..2]) && U32(b) / 0x1_0000 == U16(b[2..]);
    assert b == b[..2] + b[2..];
  }

  lemma {:induction false} UnitsOfBytes(b: seq<byte>)
    requires |b| % 2 == 0
    ensures EncodeUnits(DecodeUnits(b)) == b
  {
    if b != [] {
      var n := |b| - 2;
      UnitsOfBytes(b[..n]);
      Le16OfU16(b[n..]);
      var u := DecodeUnits(b);
      assert u[..|u| - 1] == DecodeUnits(b[..n]);
      assert b == b[..n] + b[n..];
    }
  }

  lemma DecodeLast(b: seq<byte>, c: seq<byte>)
    requires |b| % 2 == 0 && |c| == 2
    ensures DecodeUnits(b + c) == DecodeUnits(b) + [U16(c)]
  {
    var s := b + c;
    assert s[..|s| - 2] == b && s[|s| - 2..] == c;
  }

  lemma {:induction false} BytesOfUnits(u: seq<u16>)
    ensures DecodeUnits(EncodeUnits(u)) == u
  {
    if u != [] {
      var front, last := u[..|u| - 1], u[|u| - 1];
      BytesOfUnits(front);
      DecodeLast(EncodeUnits(front), Le16(last));
    }
  }

  // ---------------------------------------------------------------- round trips

  lemma FileRoundTrip(f: FileData)
    requires DataOk(File(f))
    ensures Decode(Encode(File(f))) == File(f)
  {
    var u := [f.createTime1, f.createDate, f.accessDate, f.firstClusterHi, f.modifyTime, f.modifyDate,
      f.firstClusterLo];
    var a := f.name + [f.attrs, f.reserved0, f.createTime0];
    var b := a + EncodeUnits(u) + Le32(f.size);
    BytesOfUnits(u);
    assert b[..14] == a && b[14..28] == EncodeUnits(u) && b[28..] == Le32(f.size);
    assert a[..11] == f.name && b[..11] == b[..14][..11];
  }

  lemma LfnRoundTrip(l: LfnData)
    requires DataOk(Lfn(l))
    ensures Decode(Encode(Lfn(l))) == Lfn(l)
  {
    var u, v, w := EncodeUnits(l.units[..5]), EncodeUnits(l.units[5..11]), EncodeUnits(l.units[11..]);
    BytesOfUnits(l.units[..5]);
    BytesOfUnits(l.units[5..11]);
    BytesOfUnits(l.units[11..]);
    var a, c := [l.order] + u + [l.attrs, l.entryType, l.checksum], Le16(l.reserved0);
    var b := a + v + c + w;
    assert b[..14] == a && b[14..26] == v && b[26..28] == c && b[28..] == w;
    assert a[1..11] == u && b[1..11] == b[..14][1..11];
    assert b[0] == l.order && b[11] == l.attrs && b[12] == l.entryType && b[13] == l.checksum;
    assert l.units == l.units[..5] + l.units[5..11] + l.units[11..];
  }

  lemma RecodedFile(b: Slot)
    ensures EncodeFile(DecodeFile(b)) == b[11 := Truncate(b[11])]
  {
    var w := DecodeUnits(b[14..28]);
    UnitsOfBytes(b[14..28]);
    assert [w[0], w[1], w[2], w[3], w[4], w[5], w[6]] == w;
    Le32OfU32(b[28..]);
    var c := b[11 := Truncate(b[11])];
    assert c == b[..11] + [Truncate(b[11]), b[12], b[13]] + b[14..28] + b[28..];
  }

  lemma RecodedLfn(b: Slot)
    ensures EncodeLfn(DecodeLfn(b)) == b[11 := Truncate(b[11])]
  {
    var u, v, w := DecodeUnits(b[1..11]), DecodeUnits(b[14..26]), DecodeUnits(b[28..]);
    UnitsOfBytes(b[1..11]);
    UnitsOfBytes(b[14..26]);
    UnitsOfBytes(b[28..]);
    Le16OfU16(b[26..28]);
    assert (u + v + w)[..5] == u && (u + v + w)[5..11] == v && (u + v + w)[11..] == w;
    var c := b[11 := Truncate(b[11])];
    assert c == [b[0]] + b[1..11] + [Truncate(b[11]), b[12], b[13]] + b[14..26] + b[26..28] + b[28..];
  }

  // ---------------------------------------------------------------- marks

  predicate IsEnd(b: Slot) { b[0] == 0 }

  predicate IsDeleted(b: Slot) { b[0] == DIR_ENTRY_DELETED_FLAG }

  predicate IsLfn(b: Slot) { IsLfnAttrs(b[11]) }

  predicate IsVolume(b: Slot) { IsVolumeAttrs(b[11]) }

  function SetDeleted(d: EntryData): (r: EntryData)
    requires DataOk(d)
    ensures DataOk(r)
  {
    match d
    case File(f) => File(f.(name := f.name[0 := DIR_ENTRY_DELETED_FLAG]))
    case Lfn(l) => Lfn(l.(order := DIR_ENTRY_DELETED_FLAG))
  }

  lemma RenamedFile(f: FileData, x: byte)
    requires |f.name| == SFN_SIZE
    ensures EncodeFile(f.(name := f.name[0 := x])) == EncodeFile(f)[0 := x]
  {
  }

  lemma ReorderedLfn(l: LfnData, x: byte)
    requires |l.units| == LFN_PART_LEN
    ensures EncodeLfn(l.(order := x)) == EncodeLfn(l)[0 := x]
  {
  }

  /** A record marked as deleted. */
  function Deleted(b: Slot): (r: Slot)
    ensures IsDeleted(r)
  {
    b[11 := Truncate(b[11])][0 := DIR_ENTRY_DELETED_FLAG]
  }

  /** Reading a record, marking it deleted and writing it back marks it and changes nothing else. */
  lemma DeletedRecord(b: Slot)
    ensures Encode(SetDeleted(Decode(b))) == Deleted(b)
  {
    if Decode(b).File? {
      RecodedFile(b);
      RenamedFile(DecodeFile(b), DIR_ENTRY_DELETED_FLAG);
    } else {
      RecodedLfn(b);
      ReorderedLfn(DecodeLfn(b), DIR_ENTRY_DELETED_FLAG);
    }
  }

  /** The marks can be read off the record's bytes. */
  lemma Marks(b: Slot)
    ensures IsLfn(b) <==> Decode(b).Lfn?
    ensures Decode(b).Lfn? ==> Decode(b).lfn.order == b[0]
    ensures Decode(b).File? ==> Decode(b).file.name[0] == b[0] && (IsVolumeAttrs(Decode(b).file.attrs) <==> IsVolume(b))
  {
    AttrBits(b[11]);
  }

  // ---------------------------------------------------------------- first cluster

  function FirstCluster(f: FileData, ft: FatType): (c: Option<nat>) {
    var hi := if ft == Fat32 then f.firstClusterHi as int else 0;
    var n := hi * 0x1_0000 + f.firstClusterLo as int;
    if n == 0 then None else Some(n)
  }

  function SetFirstCluster(f: FileData, c: Option<u32>, ft: FatType): (r: FileData)
    ensures r.name == f.name && r.attrs == f.attrs && r.size == f.size
  {
    var n := if c.Some? then c.value as int else 0;
    var g := if ft == Fat32 then f.(firstClusterHi := n / 0x1_0000) else f;
    g.(firstClusterLo := n % 0x1_0000)
  }

  /** A cluster number is read back exactly if it is not 0 and fits the type's field. */
  lemma FirstClusterRead(f: FileData, c: Option<u32>, ft: FatType)
    ensures var back := FirstCluster(SetFirstCluster(f, c, ft), ft);
            (if c.None? then back.None? else back == Some(c.value as nat))
              <==> c.None? || (c.value != 0 && (ft == Fat32 || c.value < 0x1_0000))
  {
  }
}
