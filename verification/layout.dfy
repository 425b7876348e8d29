/** The BODYFS02 on-disk structures: a superblock in sector 0 and 256-byte directory entries, two a sector. */
module DiskLayout {
  import opened Bytes

  const SECTOR_SIZE: nat := 512
  const NAME_MAX: nat := 128
  const ENTRY_SIZE: nat := 256
  const DIR_START: nat := 1
  const DIR_SECTORS: nat := 1024
  const DATA_START: nat := 1025
  const MAX_ENTRIES: nat := 2048
  const VERSION: u32 := 2

  const FT_RECORD: u32 := 1
  const FT_BLOB: u32 := 2
  const FT_PACK: u32 := 3
  const FT_NREC: u32 := 4
  const FT_DURABLE: u32 := 5
  const FT_DIR: u32 := 6

  /** The ASCII bytes of "BODYFS02". */
  const MAGIC: seq<byte> := [66, 79, 68, 89, 70, 83, 48, 50]

  type Sector = s: seq<byte> | |s| == 512 witness Zeros(512)
  type Field = s: seq<byte> | |s| == 128 witness Zeros(128)
  type EntryPad = s: seq<byte> | |s| == 96 witness Zeros(96)
  type Magic = s: seq<byte> | |s| == 8 witness Zeros(8)
  type SuperPad = s: seq<byte> | |s| == 472 witness Zeros(472)

  datatype Super = Super(magic: Magic, version: u32, blockSize: u32, dirStart: u32, dirSectors: u32,
                         dataStart: u32, nextFree: u32, totalSectors: u32, dirCount: u32, pad: SuperPad)

  datatype Entry = Entry(name: Field, kind: u32, present: u32, start: u32, length: u32,
                         capacity: u32, crc32: u32, appendOnly: u32, reserved: u32, pad: EntryPad)

  function EncodeSuper(s: Super): Sector {
    s.magic + Words([s.version, s.blockSize, s.dirStart, s.dirSectors,
                     s.dataStart, s.nextFree, s.totalSectors, s.dirCount]) + s.pad
  }

  function DecodeSuper(b: Sector): Super {
    var w := WordsOf(b[8..40], 8);
    Super(b[..8], w[0], w[1], w[2], w[3], w[4], w[5], w[6], w[7], b[40..])
  }

  function EncodeEntry(e: Entry): (r: seq<byte>)
    ensures |r| == ENTRY_SIZE
  {
    e.name + Words([e.kind, e.present, e.start, e.length,
                    e.capacity, e.crc32, e.appendOnly, e.reserved]) + e.pad
  }

  function DecodeEntry(b: seq<byte>): Entry
    requires |b| == ENTRY_SIZE
  {
    var w := WordsOf(b[128..160], 8);
    Entry(b[..128], w[0], w[1], w[2], w[3], w[4], w[5], w[6], w[7], b[160..])
  }

  /** A superblock written and read back is the same superblock, and no 512 bytes decode ambiguously. */
  lemma SuperRoundTrip(s: Super, b: Sector)
    ensures DecodeSuper(EncodeSuper(s)) == s
    ensures EncodeSuper(DecodeSuper(b)) == b
  {
    var ws := [s.version, s.blockSize, s.dirStart, s.dirSectors, s.dataStart, s.nextFree, s.totalSectors, s.dirCount];
    var c := EncodeSuper(s);
    assert c[..8] == s.magic && c[8..40] == Words(ws) && c[40..] == s.pad;
    WordsRoundTrip(ws);
    var w := WordsOf(b[8..40], 8);
    WordsOfRoundTrip(b[8..40], 8);
    assert w == [w[0], w[1], w[2], w[3], w[4], w[5], w[6], w[7]];
    assert b == b[..8] + b[8..40] + b[40..];
  }

  /** The same for a directory entry: the C struct overlay and the bytes carry the same information. */
  lemma EntryRoundTrip(e: Entry)
    ensures DecodeEntry(EncodeEntry(e)) == e
  {
    var ws := [e.kind, e.present, e.start, e.length, e.capacity, e.crc32, e.appendOnly, e.reserved];
    var c := EncodeEntry(e);
    assert c[..128] == e.name && c[128..160] == Words(ws) && c[160..] == e.pad;
    WordsRoundTrip(ws);
  }

  lemma EntryBytesRoundTrip(b: seq<byte>)
    requires |b| == ENTRY_SIZE
    ensures EncodeEntry(DecodeEntry(b)) == b
  {
    var w := WordsOf(b[128..160], 8);
    WordsOfRoundTrip(b[128..160], 8);
    assert w == [w[0], w[1], w[2], w[3], w[4], w[5], w[6], w[7]];
    assert b == b[..128] + b[128..160] + b[160..];
  }
}
