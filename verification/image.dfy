/** The image builder: a formatted disk with the founding pack and the staged content, as the body mounts it. */
module Image {
  import opened Bytes
  import opened DiskLayout
  import opened Volume
  import opened Acts
  import opened FsRuns
  import opened Crc
  import opened Wrappers

  const RECORD_CAPACITY: nat := 16384
  const DATA_REGION: nat := 131072
  const TOTAL: nat := DATA_START + DATA_REGION
  const PACK_START: nat := DATA_START + RECORD_CAPACITY

  /** The ASCII bytes of "founding-pack". */
  const PACK_NAME: seq<byte> := [102, 111, 117, 110, 100, 105, 110, 103, 45, 112, 97, 99, 107]

  /** A blob to stage after the pack. */
  datatype Staged = Staged(name: CString, data: seq<byte>)

  /** The first sector of the k-th staged blob, and at the end the first free one. */
  function Cursor(pack: seq<byte>, staged: seq<Staged>, k: nat): nat
    requires k <= |staged|
  {
    if k == 0 then PACK_START + Ceil(|pack|) else Cursor(pack, staged, k - 1) + BlobSpan(|staged[k - 1].data|)
  }

  /** What the builder does not refuse: names that fit, a directory that holds them, a region they do not fill. */
  predicate Buildable(pack: seq<byte>, staged: seq<Staged>) {
    && (forall k :: 0 <= k < |staged| ==> |staged[k].name| <= NAME_MAX)
    && 2 + |staged| <= MAX_ENTRIES && TOTAL > Cursor(pack, staged, |staged|)
  }

  lemma {:induction false} CursorGrows(pack: seq<byte>, staged: seq<Staged>, j: nat, k: nat)
    requires j < k <= |staged|
    ensures Cursor(pack, staged, j) + BlobSpan(|staged[j].data|) <= Cursor(pack, staged, k)
    ensures PACK_START + Ceil(|pack|) <= Cursor(pack, staged, j)
    decreases k
  {
    if j < k - 1 {
      CursorGrows(pack, staged, j, k - 1);
    } else if j > 0 {
      CursorGrows(pack, staged, 0, j);
    }
  }

  function NewEntry(name: CString, kind: u32, start: nat, length: nat, capacity: nat, crc: u32, appendOnly: u32): Entry
    requires |name| <= NAME_MAX && start < 0x1_0000_0000 && length < 0x1_0000_0000 && capacity < 0x1_0000_0000
  {
    Entry(NameField(name), kind, 1, start, length, capacity, crc, appendOnly, 0, Zeros(96))
  }

  const NO_ENTRY := Entry(Zeros(128), 0, 0, 0, 0, 0, 0, 0, 0, Zeros(96))

  lemma Sizes(pack: seq<byte>, staged: seq<Staged>, k: nat)
    requires Buildable(pack, staged) && k < |staged|
    ensures |pack| <= 512 * TOTAL && |staged[k].data| <= 512 * TOTAL
    ensures Cursor(pack, staged, k) < TOTAL && BlobSpan(|staged[k].data|) < TOTAL
  {
    CursorGrows(pack, staged, k, |staged|);
  }

  lemma PackSize(pack: seq<byte>, staged: seq<Staged>)
    requires Buildable(pack, staged)
    ensures |pack| <= 512 * TOTAL && PACK_START + Ceil(|pack|) <= Cursor(pack, staged, |staged|) < TOTAL
  {
    if |staged| > 0 { CursorGrows(pack, staged, 0, |staged|); }
  }

  /** Slot i of the directory: the empty record, the pack with its checksum, the blobs, and nothing. */
  function Slot(pack: seq<byte>, staged: seq<Staged>, i: nat): Entry
    requires Buildable(pack, staged)
  {
    PackSize(pack, staged);
    if i == 0 then NewEntry(RECORD_NAME, FT_RECORD, DATA_START, 0, RECORD_CAPACITY, 0, 1)
    else if i == 1 then NewEntry(PACK_NAME, FT_PACK, PACK_START, |pack|, Ceil(|pack|), Crc32(pack), 0)
    else if i - 2 < |staged| then
      var s := staged[i - 2];
      Sizes(pack, staged, i - 2);
      NewEntry(s.name, FT_BLOB, Cursor(pack, staged, i - 2), |s.data|, BlobSpan(|s.data|), 0, 0)
    else NO_ENTRY
  }

  function Directory(pack: seq<byte>, staged: seq<Staged>): (dir: seq<Entry>)
    requires Buildable(pack, staged)
    ensures |dir| == MAX_ENTRIES && forall i :: 0 <= i < MAX_ENTRIES ==> dir[i] == Slot(pack, staged, i)
  {
    seq(MAX_ENTRIES, i requires 0 <= i < MAX_ENTRIES => Slot(pack, staged, i))
  }

  function Superblock(pack: seq<byte>, staged: seq<Staged>): Super
    requires Buildable(pack, staged)
  {
    Super(MAGIC, VERSION, SECTOR_SIZE, DIR_START, DIR_SECTORS, DATA_START, Cursor(pack, staged, |staged|), TOTAL,
          2 + |staged|, Zeros(472))
  }

  function EmptySector(): Sector { Zeros(512) }

  function DirSectors(dir: seq<Entry>): (secs: seq<Sector>)
    requires |dir| == MAX_ENTRIES
    ensures |secs| == DIR_SECTORS
  {
    seq(DIR_SECTORS, s requires 0 <= s < DIR_SECTORS => DirSector(dir, 2 * s))
  }

  /** The disk before any blob: superblock, directory and pack on zeroed sectors. */
  function Formatted(pack: seq<byte>, staged: seq<Staged>): (d: Disk)
    requires Buildable(pack, staged)
    ensures |d| == TOTAL
  {
    PackSize(pack, staged);
    var zero: Disk := seq(TOTAL, _ => EmptySector());
    var super := Blit(zero, 0, [EncodeSuper(Superblock(pack, staged))]);
    var meta := Blit(super, DIR_START, DirSectors(Directory(pack, staged)));
    Blit(meta, PACK_START, Pack(pack, Ceil(|pack|)))
  }

  /** The disk with the first k blobs in place. */
  function Laid(pack: seq<byte>, staged: seq<Staged>, k: nat): (d: Disk)
    requires Buildable(pack, staged) && k <= |staged|
    ensures |d| == TOTAL
  {
    if k == 0 then Formatted(pack, staged)
    else
      var s := staged[k - 1];
      CursorGrows(pack, staged, k - 1, |staged|);
      Blit(Laid(pack, staged, k - 1), Cursor(pack, staged, k - 1), Pack(s.data, Ceil(|s.data|)))
  }

  /** build_image. */
  method BuildImage(pack: seq<byte>, staged: seq<Staged>) returns (image: Option<Disk>)
    ensures image == if Buildable(pack, staged) then Some(Laid(pack, staged, |staged|)) else None
  {
    hide Slot, Superblock, Directory, Crc32;
    var cur := PACK_START + Ceil(|pack|);
    var k := 0;
    while k < |staged|
      invariant 0 <= k <= |staged| && cur == Cursor(pack, staged, k)
      invariant forall j :: 0 <= j < k ==> |staged[j].name| <= NAME_MAX
    {
      if |staged[k].name| > NAME_MAX { return None; }
      cur := cur + BlobSpan(|staged[k].data|);
      k := k + 1;
    }
    if TOTAL <= cur || 2 + |staged| > MAX_ENTRIES { return None; }
    var img := Formatted(pack, staged);
    k := 0;
    while k < |staged|
      invariant 0 <= k <= |staged| && img == Laid(pack, staged, k)
    {
      CursorGrows(pack, staged, k, |staged|);
      img := Blit(img, Cursor(pack, staged, k), Pack(staged[k].data, Ceil(|staged[k].data|)));
      k := k + 1;
    }
    return Some(img);
  }

  // ---- what is where -----------------------------------------------------------------------------------------

  /** Laying blob k writes its sectors and no others. */
  lemma LaidStep(pack: seq<byte>, staged: seq<Staged>, k: nat, s: nat)
    requires Buildable(pack, staged) && k < |staged| && s < TOTAL
    ensures var c, n := Cursor(pack, staged, k), |staged[k].data|;
            && c + Ceil(n) <= Cursor(pack, staged, k + 1) <= TOTAL
            && Laid(pack, staged, k + 1)[s]
               == if c <= s < c + Ceil(n) then PackSector(staged[k].data, s - c) else Laid(pack, staged, k)[s]
  {
    hide Formatted, PackSector, Ceil;
    CursorGrows(pack, staged, k, |staged|);
    CursorInside(pack, staged, k + 1);
    var secs := Pack(staged[k].data, Ceil(|staged[k].data|));
    assert forall i :: 0 <= i < |secs| ==> secs[i] == PackSector(staged[k].data, i);
  }

  /** Blobs leave everything before them alone. */
  lemma {:induction false} LaidBefore(pack: seq<byte>, staged: seq<Staged>, j: nat, k: nat, s: nat)
    requires Buildable(pack, staged) && j <= k <= |staged| && s < Cursor(pack, staged, j) <= TOTAL
    ensures Laid(pack, staged, k)[s] == Laid(pack, staged, j)[s]
    decreases k
  {
    hide Laid, Cursor, PackSector, Ceil;
    if j < k {
      LaidBefore(pack, staged, j, k - 1, s);
      LaidStep(pack, staged, k - 1, s);
      if j < k - 1 { CursorGrows(pack, staged, j, k - 1); }
    }
  }

  lemma CursorInside(pack: seq<byte>, staged: seq<Staged>, k: nat)
    requires Buildable(pack, staged) && k <= |staged|
    ensures PACK_START + Ceil(|pack|) <= Cursor(pack, staged, k) < TOTAL
  {
    if k < |staged| { CursorGrows(pack, staged, k, |staged|); }
    PackSize(pack, staged);
  }

  /** The image of everything that was staged. */
  function Printed(pack: seq<byte>, staged: seq<Staged>): (d: Disk)
    requires Buildable(pack, staged)
    ensures |d| == TOTAL
  {
    Laid(pack, staged, |staged|)
  }

  /** The bytes of each blob are in its extent. */
  lemma BlobInPlace(pack: seq<byte>, staged: seq<Staged>, k: nat)
    requires Buildable(pack, staged) && k < |staged|
    ensures Cursor(pack, staged, k) + Ceil(|staged[k].data|) <= TOTAL
    ensures FileBytes(Printed(pack, staged), Cursor(pack, staged, k), |staged[k].data|) == staged[k].data
  {
    hide Laid, Cursor;
    var c, n := Cursor(pack, staged, k), |staged[k].data|;
    CursorInside(pack, staged, k + 1);
    LaidStep(pack, staged, k, 0);
    var d := Printed(pack, staged);
    forall i | 0 <= i < n ensures d[c + i / 512][i % 512] == staged[k].data[i] {
      LaidBefore(pack, staged, k + 1, |staged|, c + i / 512);
      LaidStep(pack, staged, k, c + i / 512);
    }
  }

  lemma PackInPlace(pack: seq<byte>, staged: seq<Staged>)
    requires Buildable(pack, staged)
    ensures PACK_START + Ceil(|pack|) <= TOTAL && FileBytes(Printed(pack, staged), PACK_START, |pack|) == pack
  {
    hide Laid, Cursor, Formatted;
    CursorInside(pack, staged, 0);
    CursorFirst(pack, staged);
    var d := Printed(pack, staged);
    forall i | 0 <= i < |pack| ensures d[PACK_START + i / 512][i % 512] == pack[i] {
      LaidBefore(pack, staged, 0, |staged|, PACK_START + i / 512);
      PackSectors(pack, staged, i / 512);
    }
  }

  lemma CursorFirst(pack: seq<byte>, staged: seq<Staged>)
    ensures Cursor(pack, staged, 0) == PACK_START + Ceil(|pack|)
  {
  }

  lemma PackSectors(pack: seq<byte>, staged: seq<Staged>, s: nat)
    requires Buildable(pack, staged) && s < Ceil(|pack|)
    ensures PACK_START + s < TOTAL && Laid(pack, staged, 0)[PACK_START + s] == PackSector(pack, s)
  {
    hide Superblock, Directory, PackSector, Ceil;
    CursorInside(pack, staged, 0);
    var secs := Pack(pack, Ceil(|pack|));
    assert secs[s] == PackSector(pack, s);
  }

  lemma MetaSector(pack: seq<byte>, staged: seq<Staged>, s: nat)
    requires Buildable(pack, staged) && s < DATA_START
    ensures Printed(pack, staged)[s] == if s == 0 then EncodeSuper(Superblock(pack, staged))
                                      else DirSector(Directory(pack, staged), 2 * (s - DIR_START))
  {
    hide Superblock, Directory, EncodeSuper, DirSector;
    CursorInside(pack, staged, 0);
    LaidBefore(pack, staged, 0, |staged|, s);
  }

  /** The superblock and the directory read back as they were printed. */
  lemma MetaInPlace(pack: seq<byte>, staged: seq<Staged>)
    requires Buildable(pack, staged)
    ensures Printed(pack, staged)[0] == EncodeSuper(Superblock(pack, staged))
    ensures Mounted(Printed(pack, staged))
            == Vol(Printed(pack, staged), Superblock(pack, staged), Directory(pack, staged))
  {
    hide Superblock, Directory, EncodeSuper, DecodeSuper, DecodeEntry, EncodeEntry, Printed, DirSector, Slot;
    var d, dir := Printed(pack, staged), Directory(pack, staged);
    MetaSector(pack, staged, 0);
    SuperRoundTrip(Superblock(pack, staged), d[0]);
    forall i: nat | i < MAX_ENTRIES ensures DiskEntry(d, i) == dir[i] {
      MetaSector(pack, staged, DIR_START + i / 2);
      HalfOfSector(dir, i);
    }
    assert Mounted(d).dir == dir;
  }

  lemma HalfOfSector(dir: seq<Entry>, i: nat)
    requires |dir| == MAX_ENTRIES && i < MAX_ENTRIES
    ensures DecodeEntry(DirSector(dir, 2 * (i / 2))[ENTRY_SIZE * (i % 2)..ENTRY_SIZE * (i % 2) + ENTRY_SIZE]) == dir[i]
  {
    hide DecodeEntry, EncodeEntry;
    var s := DirSector(dir, 2 * (i / 2));
    EntryRoundTrip(dir[i]);
    if i % 2 == 0 {
      assert s[0..256] == EncodeEntry(dir[i]);
    } else {
      assert s[256..512] == EncodeEntry(dir[i]);
    }
  }

  // ---- the mounted image -------------------------------------------------------------------------------------

  /** Blob names that are neither each other's nor the two fixed entries'. */
  predicate Distinct(staged: seq<Staged>) {
    && (forall k :: 0 <= k < |staged| ==> staged[k].name != RECORD_NAME && staged[k].name != PACK_NAME)
    && (forall j, k :: 0 <= j < k < |staged| ==> staged[j].name != staged[k].name)
  }

  function SlotName(staged: seq<Staged>, i: nat): CString
    requires i < 2 + |staged|
  {
    if i == 0 then RECORD_NAME else if i == 1 then PACK_NAME else staged[i - 2].name
  }

  lemma SlotFacts(pack: seq<byte>, staged: seq<Staged>, i: nat)
    requires Buildable(pack, staged)
    ensures var e := Slot(pack, staged, i);
            && (e.present != 0 <==> i < 2 + |staged|)
            && (i < 2 + |staged| ==>
                  FieldName(e.name) == SlotName(staged, i) && DATA_START <= e.start && Fits(e)
                  && e.start + e.capacity <= Cursor(pack, staged, |staged|) < TOTAL)
  {
    hide Crc32, FieldName;
    CursorInside(pack, staged, |staged|);
    if 2 <= i < 2 + |staged| {
      CursorGrows(pack, staged, i - 2, |staged|);
    }
  }

  /** The superblock of the mounted image, field by field, and its entries: extents adjoin from the first data sector to
      the first free one, each as short as holds its bytes, the record's its fixed length and a blob's never empty. */
  lemma ImageExtents(pack: seq<byte>, staged: seq<Staged>)
    requires Buildable(pack, staged)
    ensures var sup, n := Mounted(Printed(pack, staged)).sup, 2 + |staged|;
            && sup.version == 2 && sup.blockSize == 512 && sup.dirStart == 1 && sup.dirSectors == 1024
            && sup.dataStart == 1025 && sup.totalSectors == 1025 + 131072 && sup.dirCount == n
    ensures var v, n := Mounted(Printed(pack, staged)), 2 + |staged|;
            && v.dir[0].start == 1025
            && (forall i :: 0 <= i < n - 1 ==> v.dir[i].start + v.dir[i].capacity == v.dir[i + 1].start)
            && v.dir[n - 1].start + v.dir[n - 1].capacity == v.sup.nextFree
    ensures var dir := Mounted(Printed(pack, staged)).dir;
            && dir[0].kind == 1 && dir[0].length == 0 && dir[0].capacity == 16384 && dir[0].appendOnly == 1
            && dir[1].kind == 3 && dir[1].length == |pack| && dir[1].crc32 == Crc32(pack)
            && 512 * (dir[1].capacity as int - 1) < |pack| <= 512 * dir[1].capacity
            && forall k :: 0 <= k < |staged| ==>
                 var e, len := dir[2 + k], |staged[k].data|;
                 && e.kind == 2 && e.length == len && e.crc32 == 0 && e.appendOnly == 0 && 0 < e.capacity
                 && len <= 512 * e.capacity && (e.capacity == 1 || 512 * (e.capacity as int - 1) < len)
  {
    hide Crc32, FieldName, Laid, Formatted, DecodeSuper, EncodeSuper, DiskEntry, DirSector;
    MetaInPlace(pack, staged);
    var dir, n := Directory(pack, staged), 2 + |staged|;
    assert Mounted(Printed(pack, staged)).dir == dir;
    forall i | 0 <= i < n
      ensures dir[i].start + dir[i].capacity == if i < n - 1 then dir[i + 1].start else Cursor(pack, staged, |staged|)
    {
      SlotAdjoins(pack, staged, i);
    }
    forall k | 0 <= k < |staged|
      ensures var e, len := dir[2 + k], |staged[k].data|;
              && e.kind == 2 && e.length == len && e.crc32 == 0 && e.appendOnly == 0 && 0 < e.capacity
              && len <= 512 * e.capacity && (e.capacity == 1 || 512 * (e.capacity as int - 1) < len)
    {
      BlobSlot(pack, staged, k);
    }
  }

  lemma SlotAdjoins(pack: seq<byte>, staged: seq<Staged>, i: nat)
    requires Buildable(pack, staged) && i < 2 + |staged|
    ensures Slot(pack, staged, i).start + Slot(pack, staged, i).capacity
            == if i < 1 + |staged| then Slot(pack, staged, i + 1).start else Cursor(pack, staged, |staged|)
  {
    hide Crc32, FieldName;
    CursorFirst(pack, staged);
  }

  lemma BlobSlot(pack: seq<byte>, staged: seq<Staged>, k: nat)
    requires Buildable(pack, staged) && k < |staged|
    ensures var e, len := Slot(pack, staged, 2 + k), |staged[k].data|;
            && e.kind == 2 && e.length == len && e.crc32 == 0 && e.appendOnly == 0 && 0 < e.capacity
            && len <= 512 * e.capacity && (e.capacity == 1 || 512 * (e.capacity as int - 1) < len)
  {
    hide Crc32, FieldName;
  }

  /** Extents are laid one after another. */
  lemma SlotsApart(pack: seq<byte>, staged: seq<Staged>, i: nat, j: nat)
    requires Buildable(pack, staged) && i < j < 2 + |staged|
    ensures Slot(pack, staged, i).start + Slot(pack, staged, i).capacity <= Slot(pack, staged, j).start
  {
    hide Crc32, FieldName;
    if j >= 2 {
      CursorInside(pack, staged, j - 2);
      if i >= 2 { CursorGrows(pack, staged, i - 2, j - 2); }
    }
  }

  /** A freshly built image mounts as a sound volume exactly when what is staged has distinct names, none of them
      the record's or the pack's. */
  lemma ImageSound(pack: seq<byte>, staged: seq<Staged>)
    requires Buildable(pack, staged)
    ensures Sound(Mounted(Printed(pack, staged))) <==> Distinct(staged)
  {
    hide Distinct, Good, Synced, Printed, Mounted;
    if Distinct(staged) {
      DistinctSound(pack, staged);
    } else {
      RepeatedUnsound(pack, staged);
    }
  }

  lemma DistinctSound(pack: seq<byte>, staged: seq<Staged>)
    requires Buildable(pack, staged) && Distinct(staged)
    ensures Sound(Mounted(Printed(pack, staged)))
  {
    hide Slot, Printed, EncodeSuper, DecodeSuper, DecodeEntry, FieldName, Mounted;
    var v := Mounted(Printed(pack, staged));
    MetaInPlace(pack, staged);
    CursorInside(pack, staged, |staged|);
    forall i: nat | i < MAX_ENTRIES && v.dir[i].present != 0 ensures ExtentOk(v.sup, v.dir[i]) {
      SlotFacts(pack, staged, i);
    }
    forall i: nat, j: nat | i < j < MAX_ENTRIES && v.dir[i].present != 0 && v.dir[j].present != 0
      ensures Apart(v.dir[i], v.dir[j]) && FieldName(v.dir[i].name) != FieldName(v.dir[j].name)
    {
      SlotFacts(pack, staged, i);
      SlotFacts(pack, staged, j);
      SlotsApart(pack, staged, i, j);
    }
    ImageSynced(pack, staged);
  }

  /** Two slots under one name. */
  lemma Repeated(staged: seq<Staged>) returns (i: nat, j: nat)
    requires !Distinct(staged)
    ensures i < j < 2 + |staged| && SlotName(staged, i) == SlotName(staged, j)
  {
    if k :| 0 <= k < |staged| && staged[k].name == RECORD_NAME {
      return 0, k + 2;
    }
    if k :| 0 <= k < |staged| && staged[k].name == PACK_NAME {
      return 1, k + 2;
    }
    var l, k :| 0 <= l < k < |staged| && staged[l].name == staged[k].name;
    return l + 2, k + 2;
  }

  lemma RepeatedUnsound(pack: seq<byte>, staged: seq<Staged>)
    requires Buildable(pack, staged) && !Distinct(staged)
    ensures !Sound(Mounted(Printed(pack, staged)))
  {
    hide Slot, Printed, FieldName, Mounted, Synced;
    var i, j := Repeated(staged);
    MetaInPlace(pack, staged);
    SlotFacts(pack, staged, i);
    SlotFacts(pack, staged, j);
    var v := Mounted(Printed(pack, staged));
    assert FieldName(v.dir[i].name) == FieldName(v.dir[j].name);
  }

  lemma ImageSynced(pack: seq<byte>, staged: seq<Staged>)
    requires Buildable(pack, staged) && Geometry(Mounted(Printed(pack, staged)))
    ensures Synced(Mounted(Printed(pack, staged)))
  {
    hide Slot, Printed, EncodeSuper, DecodeSuper, DiskEntry;
    MetaInPlace(pack, staged);
  }

  /** Whatever is staged, a lookup on the mounted image finds the first slot under that name, and its bytes. */
  lemma FirstFound(pack: seq<byte>, staged: seq<Staged>, i: nat)
    requires Buildable(pack, staged) && i < 2 + |staged|
    requires forall j :: 0 <= j < i ==> SlotName(staged, j) != SlotName(staged, i)
    ensures var v := Mounted(Printed(pack, staged));
            && Find(v.dir, SlotName(staged, i)) == i < |v.dir| && v.dir[i] == Slot(pack, staged, i)
            && Inside(v.disk, v.dir[i]) && FileOf(v.disk, v.dir[i]) == SlotFile(pack, staged, i)
  {
    hide Printed, FieldName, Mounted, Slot, FileOf;
    var v := Mounted(Printed(pack, staged));
    MetaInPlace(pack, staged);
    SlotFacts(pack, staged, i);
    SlotBytes(pack, staged, i);
    forall j: nat | j < i ensures !Holds(v.dir[j], SlotName(staged, i)) {
      SlotFacts(pack, staged, j);
    }
    assert Holds(v.dir[i], SlotName(staged, i));
  }

  /** And no other name is found. */
  lemma NoneFound(pack: seq<byte>, staged: seq<Staged>, name: CString)
    requires Buildable(pack, staged) && forall i :: 0 <= i < 2 + |staged| ==> SlotName(staged, i) != name
    ensures Find(Mounted(Printed(pack, staged)).dir, name) == MAX_ENTRIES
  {
    hide Printed, FieldName, Mounted, Slot;
    var v := Mounted(Printed(pack, staged));
    MetaInPlace(pack, staged);
    if Find(v.dir, name) < |v.dir| {
      SlotFacts(pack, staged, Find(v.dir, name));
    }
  }

  /** Under distinct names it holds exactly what was staged: an empty record, the pack, and each blob under its name. */
  lemma ImageFiles(pack: seq<byte>, staged: seq<Staged>, name: CString)
    requires Buildable(pack, staged) && Distinct(staged)
    ensures Sound(Mounted(Printed(pack, staged)))
    ensures var m := Abs(Mounted(Printed(pack, staged)));
            && (name in m <==> exists i :: 0 <= i < 2 + |staged| && SlotName(staged, i) == name)
            && HoldsLog(m, DATA_START, [])
            && PACK_NAME in m && m[PACK_NAME] == File(FT_PACK, pack)
            && (forall k :: 0 <= k < |staged| ==>
                staged[k].name in m && m[staged[k].name] == File(FT_BLOB, staged[k].data))
  {
    hide Printed, FieldName, Mounted, Slot, Good, Synced, Abs, FileOf;
    ImageSound(pack, staged);
    var v := Mounted(Printed(pack, staged));
    forall i: nat | i < 2 + |staged|
      ensures SlotName(staged, i) in Abs(v) && Abs(v)[SlotName(staged, i)] == SlotFile(pack, staged, i)
    {
      SlotIsFile(pack, staged, i);
    }
    assert SlotName(staged, 0) == RECORD_NAME && SlotName(staged, 1) == PACK_NAME;
    forall k: nat | k < |staged|
      ensures staged[k].name in Abs(v) && Abs(v)[staged[k].name] == File(FT_BLOB, staged[k].data)
    {
      assert SlotName(staged, k + 2) == staged[k].name;
    }
    NamesFound(pack, staged, name);
  }

  function SlotFile(pack: seq<byte>, staged: seq<Staged>, i: nat): File
    requires i < 2 + |staged|
  {
    if i == 0 then File(FT_RECORD, [], DATA_START)
    else if i == 1 then File(FT_PACK, pack)
    else File(FT_BLOB, staged[i - 2].data)
  }

  lemma SlotIsFile(pack: seq<byte>, staged: seq<Staged>, i: nat)
    requires Buildable(pack, staged) && Sound(Mounted(Printed(pack, staged))) && i < 2 + |staged|
    ensures var m := Abs(Mounted(Printed(pack, staged)));
            SlotName(staged, i) in m && m[SlotName(staged, i)] == SlotFile(pack, staged, i)
  {
    hide Printed, FieldName, Mounted, Abs, Synced;
    var v := Mounted(Printed(pack, staged));
    MetaInPlace(pack, staged);
    SlotFacts(pack, staged, i);
    FindUnique(v, i);
    AbsAt(v, SlotName(staged, i));
    SlotBytes(pack, staged, i);
  }

  lemma SlotBytes(pack: seq<byte>, staged: seq<Staged>, i: nat)
    requires Buildable(pack, staged) && i < 2 + |staged|
    ensures var e := Slot(pack, staged, i);
            Inside(Printed(pack, staged), e) && FileOf(Printed(pack, staged), e) == SlotFile(pack, staged, i)
  {
    hide Printed, FieldName, Crc32;
    SlotFacts(pack, staged, i);
    if i == 1 {
      PackInPlace(pack, staged);
    } else if i >= 2 {
      BlobInPlace(pack, staged, i - 2);
    } else {
      assert FileBytes(Printed(pack, staged), DATA_START, 0) == [];
    }
  }

  lemma NamesFound(pack: seq<byte>, staged: seq<Staged>, name: CString)
    requires Buildable(pack, staged) && Sound(Mounted(Printed(pack, staged)))
    ensures name in Abs(Mounted(Printed(pack, staged))) ==>
              exists i :: 0 <= i < 2 + |staged| && SlotName(staged, i) == name
  {
    hide Printed, FieldName, Mounted, Abs, Synced, Slot;
    var v := Mounted(Printed(pack, staged));
    MetaInPlace(pack, staged);
    AbsAt(v, name);
    if name in Abs(v) {
      SlotFacts(pack, staged, Find(v.dir, name));
    }
  }
}
