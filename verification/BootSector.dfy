/**
  The BIOS parameter block: its bytes, its checks, and how formatting fills it. What formatting
  produces is read back unchanged, passes the checks and has the type it was made for.
  */
module BootSectors {

  import opened Bytes

  /** The fields all types share, ... */
  datatype Head = Head(bytesPerSector: u16, sectorsPerCluster: byte, reservedSectors: u16, fats: byte,
                       rootEntries: u16, totalSectors16: u16,
                       media: byte, sectorsPerFat16: u16, sectorsPerTrack: u16, heads: u16, hiddenSectors: u32,
                         totalSectors32: u32)

  /** ... those of FAT32, ... */
  datatype Extension = Extension(sectorsPerFat32: u32, extendedFlags: u16, fsVersion: u16, rootDirFirstCluster: u32,
                                 fsInfoSector: u16,
                                 backupBootSector: u16, reserved0: seq<byte>)

  /** ... and the fields behind them. */
  datatype Tail = Tail(driveNum: byte, reserved1: byte, extSig: byte, volumeId: u32, volumeLabel: seq<byte>,
                       fsTypeLabel: seq<byte>)

  datatype Bpb = Bpb(head: Head, ext: Extension, tail: Tail) {
    predicate Ok() { |ext.reserved0| == 12 && |tail.volumeLabel| == 11 && |tail.fsTypeLabel| == 8 }
    predicate IsFat32() { head.sectorsPerFat16 == 0 }
  }

  // ---------------------------------------------------------------- bytes

  function EncodeHead(h: Head): seq<byte> {
    Le16(h.bytesPerSector) + ([h.sectorsPerCluster] + (Le16(h.reservedSectors) + ([h.fats] + (Le16(h.rootEntries)
    + (Le16(h.totalSectors16) + ([h.media] + (Le16(h.sectorsPerFat16) + (Le16(h.sectorsPerTrack) + (Le16(h.heads)
    + (Le32(h.hiddenSectors) + Le32(h.totalSectors32)))))))))))
  }

  function DecodeHead(s: seq<byte>): Head
    requires |s| >= 25
  {
    Head(U16(s[0..2]), s[2], U16(s[3..5]), s[5], U16(s[6..8]), U16(s[8..10]), s[10], U16(s[11..13]), U16(s[13..15]),
         U16(s[15..17]), U32(s[17..21]), U32(s[21..25]))
  }

  lemma HeadRoundTrip(h: Head, rest: seq<byte>)
    ensures |EncodeHead(h)| == 25 && DecodeHead(EncodeHead(h) + rest) == h
  {
    var s := EncodeHead(h) + rest;
    assert |EncodeHead(h)| == 25;
    assert s[0..2] == Le16(h.bytesPerSector) && s[3..5] == Le16(h.reservedSectors) && s[6..8] == Le16(h.rootEntries);
    assert s[8..10] == Le16(h.totalSectors16) && s[11..13] == Le16(h.sectorsPerFat16)
           && s[13..15] == Le16(h.sectorsPerTrack);
    assert s[15..17] == Le16(h.heads) && s[17..21] == Le32(h.hiddenSectors) && s[21..25] == Le32(h.totalSectors32);
  }

  function EncodeExtension(e: Extension): seq<byte> {
    Le32(e.sectorsPerFat32) + (Le16(e.extendedFlags) + (Le16(e.fsVersion) + (Le32(e.rootDirFirstCluster)
    + (Le16(e.fsInfoSector) + (Le16(e.backupBootSector) + e.reserved0)))))
  }

  function DecodeExtension(s: seq<byte>): Extension
    requires |s| >= 28
  {
    Extension(U32(s[0..4]), U16(s[4..6]), U16(s[6..8]), U32(s[8..12]), U16(s[12..14]), U16(s[14..16]), s[16..28])
  }

  lemma ExtensionRoundTrip(e: Extension, rest: seq<byte>)
    requires |e.reserved0| == 12
    ensures |EncodeExtension(e)| == 28 && DecodeExtension(EncodeExtension(e) + rest) == e
  {
    var s := EncodeExtension(e) + rest;
    assert s[0..4] == Le32(e.sectorsPerFat32) && s[4..6] == Le16(e.extendedFlags) && s[6..8] == Le16(e.fsVersion);
    assert s[8..12] == Le32(e.rootDirFirstCluster) && s[12..14] == Le16(e.fsInfoSector)
           && s[14..16] == Le16(e.backupBootSector);
    assert s[16..28] == e.reserved0;
  }

  function EncodeTail(t: Tail): seq<byte> {
    [t.driveNum, t.reserved1, t.extSig] + (Le32(t.volumeId) + (t.volumeLabel + t.fsTypeLabel))
  }

  function DecodeTail(s: seq<byte>): Tail
    requires |s| >= 26
  {
    Tail(s[0], s[1], s[2], U32(s[3..7]), s[7..18], s[18..26])
  }

  lemma TailRoundTrip(t: Tail)
    requires |t.volumeLabel| == 11 && |t.fsTypeLabel| == 8
    ensures |EncodeTail(t)| == 26 && DecodeTail(EncodeTail(t)) == t
  {
    var s := EncodeTail(t);
    assert s[3..7] == Le32(t.volumeId) && s[7..18] == t.volumeLabel && s[18..26] == t.fsTypeLabel;
  }

  const NO_EXTENSION: Extension := Extension(0, 0, 0, 0, 0, 0, Zeros(12))

  function Serialize(b: Bpb): seq<byte> {
    EncodeHead(b.head) + (if b.IsFat32() then EncodeExtension(b.ext) + EncodeTail(b.tail) else EncodeTail(b.tail))
  }

  /** Without the signature 0x29 what follows it is not used. */
  function CleanTail(t: Tail): Tail {
    if t.extSig == 0x29 then t else t.(volumeId := 0, volumeLabel := Zeros(11), fsTypeLabel := Zeros(8))
  }

  function Deserialize(s: seq<byte>): (b: Bpb)
    requires |s| >= 79
  {
    var h := DecodeHead(s);
    if h.sectorsPerFat16 == 0 then Bpb(h, DecodeExtension(s[25..]), CleanTail(DecodeTail(s[53..])))
    else Bpb(h, NO_EXTENSION, CleanTail(DecodeTail(s[25..])))
  }

  /** A block is read back as written exactly if the fields its type does not store, or that are not used, are zero. */
  lemma BpbRoundTrip(b: Bpb, rest: seq<byte>)
    requires b.Ok() && |rest| >= 28
    ensures |Serialize(b) + rest| >= 79
    ensures Deserialize(Serialize(b) + rest) == b
            <==> (b.IsFat32() || b.ext == NO_EXTENSION) && CleanTail(b.tail) == b.tail
  {
    var s := Serialize(b) + rest;
    var tail := EncodeTail(b.tail);
    TailRoundTrip(b.tail);
    if b.IsFat32() {
      var ext := EncodeExtension(b.ext);
      HeadRoundTrip(b.head, ext + tail + rest);
      ExtensionRoundTrip(b.ext, tail + rest);
      assert s == EncodeHead(b.head) + (ext + tail + rest) && s[25..] == ext + (tail + rest) && s[53..] == tail + rest;
    } else {
      HeadRoundTrip(b.head, tail + rest);
      assert s == EncodeHead(b.head) + (tail + rest) && s[25..] == tail + rest;
    }
    TailPrefix(tail, rest);
  }

  lemma TailPrefix(tail: seq<byte>, rest: seq<byte>)
    requires |tail| == 26
    ensures DecodeTail(tail + rest) == DecodeTail(tail)
  {
    var s := tail + rest;
    assert s[3..7] == tail[3..7] && s[7..18] == tail[7..18] && s[18..26] == tail[18..26];
  }
}
