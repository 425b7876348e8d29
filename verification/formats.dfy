/** The bytes of what is on the disk, at the offsets the C structs have: little-endian words, least byte first. */
module Formats {
  import opened Bytes
  import opened DiskLayout
  import opened Volume
  import opened Acts
  import opened TreeArchive
  import opened Crc

  /** The four bytes at an offset are x's digits in base 256, the least first. */
  predicate Holds(b: seq<byte>, at: nat, x: int) {
    && at + 4 <= |b|
    && b[at] as int + 256 * (b[at + 1] as int) + 65536 * (b[at + 2] as int) + 16777216 * (b[at + 3] as int) == x
  }

  lemma WordHeld(front: seq<byte>, ws: seq<u32>, back: seq<byte>, k: nat)
    requires k < |ws|
    ensures Holds(front + Words(ws) + back, |front| + 4 * k, ws[k])
  {
    hide Words;
    WordAt(ws, k);
    InMiddle(front, Words(ws), back, 4 * k);
  }

  lemma InMiddle(front: seq<byte>, b: seq<byte>, back: seq<byte>, i: nat)
    requires i + 4 <= |b|
    ensures Holds(front + b + back, |front| + i, U32At(b, i))
  {
    var c := front + b + back;
    assert c[|front| + i] == b[i] && c[|front| + i + 1] == b[i + 1];
    assert c[|front| + i + 2] == b[i + 2] && c[|front| + i + 3] == b[i + 3];
  }

  /** Directory entry i is the 256 bytes of the disk from byte 512 + 256 * i on, and the superblock its first sector:
      read there by a mount, */
  lemma EntryPlace(d: Disk, i: nat, b: nat)
    requires i < MAX_ENTRIES && DATA_START <= |d| && b < 256
    ensures EncodeEntry(Mounted(d).dir[i])[b] == d[(512 + 256 * i + b) / 512][(512 + 256 * i + b) % 512]
    ensures EncodeSuper(Mounted(d).sup) == d[0]
  {
    hide EncodeEntry, DecodeEntry, EncodeSuper, DecodeSuper;
    var s := d[1 + i / 2];
    EntryByte(i, b);
    SuperRoundTrip(DecodeSuper(d[0]), d[0]);
    EntryBytesRoundTrip(s[256 * (i % 2)..256 * (i % 2) + 256]);
  }

  lemma EntryByte(i: nat, b: nat)
    requires b < 256
    ensures (512 + 256 * i + b) / 512 == 1 + i / 2 && (512 + 256 * i + b) % 512 == 256 * (i % 2) + b
  {
    DivMod(1 + i / 2, 256 * (i % 2) + b);
    assert i == 2 * (i / 2) + i % 2;
  }

  /** and written there whenever it is persisted. */
  lemma PersistedPlace(d: Disk, sup: Super, dir: seq<Entry>, i: nat, b: nat)
    requires |dir| == MAX_ENTRIES && i < MAX_ENTRIES && DATA_START <= |d| && sup.dirStart == 1 && b < 256
    ensures Put(d, PersistEntry(sup, dir, i))[(512 + 256 * i + b) / 512][(512 + 256 * i + b) % 512]
            == EncodeEntry(dir[i])[b]
    ensures Put(d, PersistSuper(sup))[0] == EncodeSuper(sup)
  {
    hide EncodeEntry, EncodeSuper;
    EntryByte(i, b);
    assert i == 2 * (i / 2) + i % 2;
  }

  /** struct bfs_entry. */
  lemma EntryOffsets(e: Entry)
    ensures var b := EncodeEntry(e);
            && |b| == 256 && b[..128] == e.name
            && Holds(b, 128, e.kind) && Holds(b, 132, e.present) && Holds(b, 136, e.start) && Holds(b, 140, e.length)
            && Holds(b, 144, e.capacity) && Holds(b, 148, e.crc32) && Holds(b, 152, e.appendOnly)
            && Holds(b, 156, e.reserved) && b[160..] == e.pad
  {
    hide Words, Holds;
    var ws := [e.kind, e.present, e.start, e.length, e.capacity, e.crc32, e.appendOnly, e.reserved];
    WordHeld(e.name, ws, e.pad, 0);
    WordHeld(e.name, ws, e.pad, 1);
    WordHeld(e.name, ws, e.pad, 2);
    WordHeld(e.name, ws, e.pad, 3);
    WordHeld(e.name, ws, e.pad, 4);
    WordHeld(e.name, ws, e.pad, 5);
    WordHeld(e.name, ws, e.pad, 6);
    WordHeld(e.name, ws, e.pad, 7);
  }

  /** struct bfs_super. */
  lemma SuperOffsets(s: Super)
    ensures var b := EncodeSuper(s);
            && |b| == 512 && b[..8] == s.magic
            && Holds(b, 8, s.version) && Holds(b, 12, s.blockSize) && Holds(b, 16, s.dirStart)
            && Holds(b, 20, s.dirSectors) && Holds(b, 24, s.dataStart) && Holds(b, 28, s.nextFree)
            && Holds(b, 32, s.totalSectors) && Holds(b, 36, s.dirCount) && b[40..] == s.pad
  {
    hide Words, Holds;
    var ws := [s.version, s.blockSize, s.dirStart, s.dirSectors, s.dataStart, s.nextFree, s.totalSectors, s.dirCount];
    WordHeld(s.magic, ws, s.pad, 0);
    WordHeld(s.magic, ws, s.pad, 1);
    WordHeld(s.magic, ws, s.pad, 2);
    WordHeld(s.magic, ws, s.pad, 3);
    WordHeld(s.magic, ws, s.pad, 4);
    WordHeld(s.magic, ws, s.pad, 5);
    WordHeld(s.magic, ws, s.pad, 6);
    WordHeld(s.magic, ws, s.pad, 7);
  }

  /** The record's header: its mark, the payload's length and the record's own sector, and then the payload. */
  lemma RecordOffsets(index: u32, p: seq<byte>)
    requires |p| < 0x1_0000_0000
    ensures var b := RecordImage(index, p);
            && |b| == 16 + |p| && Holds(b, 0, 0x5245434B) && Holds(b, 4, |p|) && Holds(b, 8, index) && Holds(b, 12, 0)
            && b[16..] == p
  {
    hide Words, Holds;
    var ws := [RECK_MAGIC, |p|, index, 0];
    assert [] + Words(ws) + p == RecordImage(index, p);
    WordHeld([], ws, p, 0);
    WordHeld([], ws, p, 1);
    WordHeld([], ws, p, 2);
    WordHeld([], ws, p, 3);
  }

  // ---- the tree archive -----------------------------------------------------------------------------------------

  /** The archive's header. */
  lemma HeaderOffsets(files: seq<TreeFile>)
    requires Printable(files)
    ensures var h := Header(files);
            && |h| == 512 && h[..8] == [71, 79, 86, 84, 82, 69, 69, 49]
            && Holds(h, 8, 1) && Holds(h, 12, |files|) && Holds(h, 16, TotalLen(files))
            && forall j :: 20 <= j < 512 ==> h[j] == 0
  {
    hide Words, Holds;
    var ws := [TREE_VERSION, |files|, TotalLen(files)];
    WordHeld(TREE_MAGIC, ws, Zeros(492), 0);
    WordHeld(TREE_MAGIC, ws, Zeros(492), 1);
    WordHeld(TREE_MAGIC, ws, Zeros(492), 2);
  }

  /** One entry of its table: the path padded with NULs, where the bytes begin, how many they are and their checksum. */
  lemma TableEntryOffsets(files: seq<TreeFile>, i: nat)
    requires Printable(files) && i < |files|
    ensures var e, path := EntryBytes(files, i), files[i].path;
            && |e| == 128 && e[..|path|] == path && (forall j :: |path| <= j < 116 ==> e[j] == 0)
            && Holds(e, 116, Offset(files, i)) && Holds(e, 120, |files[i].data|)
            && Holds(e, 124, Crc32(files[i].data))
  {
    hide Words, Holds, Crc32, Offset;
    OffsetFits(files, i);
    var ws := [Offset(files, i), |files[i].data|, Crc32(files[i].data)];
    var f := PathField(files[i].path);
    assert f + Words(ws) + [] == EntryBytes(files, i);
    WordHeld(f, ws, [], 0);
    WordHeld(f, ws, [], 1);
    WordHeld(f, ws, [], 2);
  }
}
