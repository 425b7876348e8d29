/**
 * The volume: sectors, the writes that change them, the mounted superblock and directory, and the
 * invariant every act keeps.  What each act does is stated in module Acts; here is what an act is about.
 */
module Volume {
  import opened Bytes
  import opened DiskLayout

  type Disk = seq<Sector>

  /** One sector write.  Writes reach the disk whole and in order. */
  datatype Write = Write(lba: nat, data: Sector)

  function Put(d: Disk, w: Write): (r: Disk)
    ensures |r| == |d|
  {
    if w.lba < |d| then d[w.lba := w.data] else d
  }

  function Apply(d: Disk, ws: seq<Write>): (r: Disk)
    ensures |r| == |d|
  {
    if ws == [] then d else Put(Apply(d, ws[..|ws| - 1]), ws[|ws| - 1])
  }

  /** Consecutive sectors written in order from `lo`. */
  function Burst(lo: nat, secs: seq<Sector>): (ws: seq<Write>)
    ensures |ws| == |secs|
  {
    seq(|secs|, j requires 0 <= j < |secs| => Write(lo + j, secs[j]))
  }

  function Blit(d: Disk, lo: nat, secs: seq<Sector>): (r: Disk)
    requires lo + |secs| <= |d|
    ensures |r| == |d|
    ensures forall s :: 0 <= s < |d| ==> r[s] == if lo <= s < lo + |secs| then secs[s - lo] else d[s]
  {
    d[..lo] + secs + d[lo + |secs|..]
  }

  lemma {:induction false} ApplyBurst(d: Disk, lo: nat, secs: seq<Sector>)
    requires lo + |secs| <= |d|
    ensures Apply(d, Burst(lo, secs)) == Blit(d, lo, secs)
  {
    if secs != [] {
      var init := secs[..|secs| - 1];
      ApplyBurst(d, lo, init);
      assert Burst(lo, secs)[..|secs| - 1] == Burst(lo, init);
    }
  }

  lemma {:induction false} ApplyConcat(d: Disk, a: seq<Write>, b: seq<Write>)
    ensures Apply(d, a + b) == Apply(Apply(d, a), b)
  {
    if b == [] {
      assert a + b == a;
    } else {
      var init := b[..|b| - 1];
      assert (a + b)[..|a + b| - 1] == a + init;
      ApplyConcat(d, a, init);
    }
  }

  /** After any writes a sector holds what it held, or what one of the writes put there. */
  lemma {:induction false} LastWrite(d: Disk, ws: seq<Write>, s: nat)
    requires s < |d|
    ensures Apply(d, ws)[s] == d[s] || exists w :: w in ws && w.lba == s && w.data == Apply(d, ws)[s]
  {
    if ws != [] {
      var w := ws[|ws| - 1];
      if w.lba == s {
        assert w in ws;
      } else {
        LastWrite(d, ws[..|ws| - 1], s);
      }
    }
  }

  function Ceil(n: nat): nat { (n + 511) / 512 }

  /** The first n bytes stored from sector `start` on. */
  function FileBytes(d: Disk, start: nat, n: nat): (r: seq<byte>)
    requires start + Ceil(n) <= |d|
    ensures |r| == n
    ensures forall i :: 0 <= i < n ==> r[i] == d[start + i / 512][i % 512]
  {
    seq(n, i requires 0 <= i < n => d[start + i / 512][i % 512])
  }

  /** n bytes of the device from byte `pos` on. */
  function DiskBytes(d: Disk, pos: nat, n: nat): (r: seq<byte>)
    requires n > 0 ==> pos + n <= 512 * |d|
    ensures |r| == n && forall i :: 0 <= i < n ==> r[i] == d[(pos + i) / 512][(pos + i) % 512]
  {
    seq(n, i requires 0 <= i < n => d[(pos + i) / 512][(pos + i) % 512])
  }

  function Min(a: nat, b: nat): nat { if a < b then a else b }

  /** The bytes of one sector from a disk byte on, no more than wanted. */
  function Part(d: Disk, pos: nat, want: nat): (r: seq<byte>)
    requires pos / 512 < |d|
    ensures |r| == Min(512 - pos % 512, want)
  {
    d[pos / 512][pos % 512..pos % 512 + Min(512 - pos % 512, want)]
  }

  lemma DivMod(q: nat, m: nat)
    requires m < 512
    ensures (512 * q + m) / 512 == q && (512 * q + m) % 512 == m
  {
  }

  lemma DiskBytesNone(d: Disk, pos: nat)
    ensures DiskBytes(d, pos, 0) == []
  {
  }

  lemma DiskBytesStep(d: Disk, pos: nat, done: nat, part: seq<byte>, want: nat)
    requires (pos + done) / 512 < |d| && part == Part(d, pos + done, want) && (done > 0 ==> pos + done <= 512 * |d|)
    ensures pos + done + |part| <= 512 * |d|
    ensures DiskBytes(d, pos, done) + part == DiskBytes(d, pos, done + |part|)
  {
    var at := pos + done;
    var q, m := at / 512, at % 512;
    assert at == 512 * q + m;
    forall j | 0 <= j < |part| ensures part[j] == d[(at + j) / 512][(at + j) % 512] {
      DivMod(q, m + j);
      assert at + j == 512 * q + (m + j);
    }
    var all := DiskBytes(d, pos, done + |part|);
    forall j | 0 <= j < |part| ensures all[done..][j] == part[j] {
      assert pos + (done + j) == at + j;
    }
    assert all == all[..done] + all[done..];
    assert all[..done] == DiskBytes(d, pos, done);
  }

  /** A sector that cannot be read is past the device's end, and nothing of it has been copied. */
  lemma EndsHere(d: Disk, pos: nat, done: nat)
    requires (pos + done) / 512 >= |d| && (done > 0 ==> pos + done <= 512 * |d|)
    ensures pos + done >= 512 * |d|
  {
  }

  /** `span` sectors carrying `b`, zero-padded. */
  function Pack(b: seq<byte>, span: nat): (r: seq<Sector>)
    ensures |r| == span
  {
    seq(span, s requires 0 <= s < span => PackSector(b, s))
  }

  function PackSector(b: seq<byte>, s: nat): (r: Sector)
    ensures forall j :: 0 <= j < 512 ==> r[j] == if 512 * s + j < |b| then b[512 * s + j] else 0
  {
    seq(512, j requires 0 <= j < 512 => if 512 * s + j < |b| then b[512 * s + j] else 0)
  }

  // ---- names ---------------------------------------------------------------------------------

  /** A name field up to its first NUL. */
  function FieldName(f: seq<byte>): (r: CString)
    ensures r <= f && (|r| < |f| ==> f[|r|] == 0)
  {
    if f == [] || f[0] == 0 then [] else [f[0]] + FieldName(f[1..])
  }

  lemma FieldNameUnique(f: seq<byte>, r: CString)
    requires r <= f && (|r| < |f| ==> f[|r|] == 0)
    ensures FieldName(f) == r
  {
    var n := FieldName(f);
    assert forall i :: 0 <= i < |r| ==> f[i] == r[i] && r[i] in r;
    assert forall i :: 0 <= i < |n| ==> f[i] == n[i] && n[i] in n;
    assert r == f[..|r|] && n == f[..|n|];
  }

  /** What a lookup compares: the first 128 bytes of the name it is given. */
  function Key(id: CString): (r: CString)
    ensures |r| <= NAME_MAX
  {
    if |id| <= NAME_MAX then id else id[..NAME_MAX]
  }

  function NameField(id: CString): (f: Field)
    requires |id| <= NAME_MAX
    ensures FieldName(f) == id
  {
    var f := id + Zeros(NAME_MAX - |id|);
    FieldNameUnique(f, id);
    f
  }

  predicate Holds(e: Entry, key: CString) { e.present != 0 && FieldName(e.name) == key }

  /** The first present entry with that name, or the table's length. */
  function Find(dir: seq<Entry>, key: CString): (r: nat)
    ensures r <= |dir|
    ensures r < |dir| ==> Holds(dir[r], key)
    ensures forall j :: 0 <= j < r ==> !Holds(dir[j], key)
  {
    if dir == [] then 0 else
      var n := |dir| - 1;
      var r := Find(dir[..n], key);
      if r < n then r else if Holds(dir[n], key) then n else n + 1
  }

  /** The first free slot, or the table's length. */
  function FindFree(dir: seq<Entry>): (r: nat)
    ensures r <= |dir|
    ensures r < |dir| ==> dir[r].present == 0
    ensures forall j :: 0 <= j < r ==> dir[j].present != 0
  {
    if dir == [] then 0 else
      var n := |dir| - 1;
      var r := FindFree(dir[..n]);
      if r < n then r else if dir[n].present == 0 then n else n + 1
  }

  // ---- the mounted volume -----------------------------------------------------------------------

  datatype Vol = Vol(disk: Disk, sup: Super, dir: seq<Entry>)

  predicate Geometry(v: Vol) {
    && v.sup.magic == MAGIC && v.sup.version == VERSION
    && v.sup.dirStart == DIR_START && v.sup.dirSectors == DIR_SECTORS
    && DATA_START <= v.sup.nextFree <= v.sup.totalSectors == |v.disk|
    && |v.dir| == MAX_ENTRIES
  }

  /** Room for a payload of n bytes in 32-bit arithmetic on this disk. */
  predicate SizeOk(sup: Super, n: nat) { n + 1024 + 512 * sup.totalSectors < 0x1_0000_0000 }

  predicate Grows(kind: u32) { kind == FT_RECORD || kind == FT_NREC || kind == FT_DURABLE }

  predicate Fits(e: Entry) { e.length <= 512 * e.capacity }

  predicate ExtentOk(sup: Super, e: Entry) {
    && e.start + e.capacity <= sup.nextFree
    && (e.capacity > 0 ==> DATA_START <= e.start)
    && (Grows(e.kind) ==> Fits(e) && DATA_START <= e.start)
  }

  predicate Apart(a: Entry, b: Entry) {
    || a.capacity == 0 || b.capacity == 0
    || a.start + a.capacity <= b.start || b.start + b.capacity <= a.start
  }

  /** An extent on the disk, and for a file that grows an allocated one. */
  predicate Placed(sup: Super, e: Entry) {
    && e.start + e.capacity <= sup.totalSectors
    && (e.capacity > 0 ==> DATA_START <= e.start)
    && (Grows(e.kind) ==> ExtentOk(sup, e))
  }

  /** What the acts need of a volume to run on it: every present entry is placed, under a name of its own. */
  ghost predicate Usable(v: Vol): (r: bool)
    ensures r ==> Geometry(v)
  {
    && Geometry(v)
    && (forall i :: 0 <= i < |v.dir| && v.dir[i].present != 0 ==> Placed(v.sup, v.dir[i]))
    && (forall i, j :: 0 <= i < j < |v.dir| && v.dir[i].present != 0 && v.dir[j].present != 0 ==>
          FieldName(v.dir[i].name) != FieldName(v.dir[j].name))
  }

  /** Present extents lie in the allocated data region, pairwise disjoint, under pairwise distinct names. */
  ghost predicate Good(v: Vol): (r: bool)
    ensures r ==> Usable(v)
  {
    && Geometry(v)
    && (forall i :: 0 <= i < |v.dir| && v.dir[i].present != 0 ==> ExtentOk(v.sup, v.dir[i]))
    && (forall i, j :: 0 <= i < j < |v.dir| && v.dir[i].present != 0 && v.dir[j].present != 0 ==>
          Apart(v.dir[i], v.dir[j]) && FieldName(v.dir[i].name) != FieldName(v.dir[j].name))
  }

  lemma FindUnique(v: Vol, i: nat)
    requires Usable(v) && i < |v.dir| && v.dir[i].present != 0
    ensures Find(v.dir, FieldName(v.dir[i].name)) == i
  {
    assert Holds(v.dir[i], FieldName(v.dir[i].name));
  }

  // ---- the directory on disk -----------------------------------------------------------------

  /** Entry i as its directory sector holds it. */
  function EntryAt(s: Sector, i: nat): Entry {
    DecodeEntry(s[ENTRY_SIZE * (i % 2)..ENTRY_SIZE * (i % 2) + ENTRY_SIZE])
  }

  function DiskEntry(d: Disk, i: nat): Entry
    requires i < MAX_ENTRIES && DATA_START <= |d|
  {
    EntryAt(d[DIR_START + i / 2], i)
  }

  function DirSector(dir: seq<Entry>, i: nat): (r: Sector)
    requires |dir| == MAX_ENTRIES && i < MAX_ENTRIES
  {
    EncodeEntry(dir[i / 2 * 2]) + EncodeEntry(dir[i / 2 * 2 + 1])
  }

  function PersistEntry(sup: Super, dir: seq<Entry>, i: nat): Write
    requires |dir| == MAX_ENTRIES && i < MAX_ENTRIES
  {
    Write(sup.dirStart + i / 2, DirSector(dir, i))
  }

  /** Slot i given entry e' and persisted. */
  function Relabeled(v: Vol, i: nat, e': Entry): Vol
    requires Geometry(v) && i < |v.dir|
  {
    var dir' := v.dir[i := e'];
    Vol(Apply(v.disk, [PersistEntry(v.sup, dir', i)]), v.sup, dir')
  }

  function PersistSuper(sup: Super): Write { Write(0, EncodeSuper(sup)) }

  /** Writing an entry's sector makes both entries of that sector, and no other, the in-memory ones. */
  lemma PersistLaw(d: Disk, sup: Super, dir: seq<Entry>, i: nat, j: nat)
    requires |dir| == MAX_ENTRIES && i < MAX_ENTRIES && j < MAX_ENTRIES && DATA_START <= |d|
    requires sup.dirStart == DIR_START
    ensures DiskEntry(Put(d, PersistEntry(sup, dir, i)), j) == if j / 2 == i / 2 then dir[j] else DiskEntry(d, j)
  {
    var d' := Put(d, PersistEntry(sup, dir, i));
    if j / 2 == i / 2 {
      var s := DirSector(dir, i);
      assert d'[DIR_START + j / 2] == s;
      EntryRoundTrip(dir[j]);
      assert j == i / 2 * 2 + j % 2;
      if j % 2 == 0 {
        assert s[0..256] == EncodeEntry(dir[j]);
      } else {
        assert s[256..512] == EncodeEntry(dir[j]);
      }
    }
  }

  /** What fs_mount reads back from a disk with this geometry. */
  function Mounted(d: Disk): Vol
    requires DATA_START <= |d|
  {
    Vol(d, DecodeSuper(d[0]), seq(MAX_ENTRIES, i requires 0 <= i < MAX_ENTRIES => DiskEntry(d, i)))
  }

  /** An entry that exists in memory only: a create that ran out of space before it was persisted. */
  predicate Phantom(e: Entry) {
    e.present != 0 && e.length == 0 && e.capacity == 0 && (e.kind == FT_NREC || e.kind == FT_DURABLE)
  }

  predicate SyncedAt(d: Disk, dir: seq<Entry>, i: nat)
    requires i < MAX_ENTRIES == |dir| && DATA_START <= |d|
  {
    DiskEntry(d, i) == dir[i] || (Phantom(dir[i]) && DiskEntry(d, i).present == 0)
  }

  /** The disk carries the mounted superblock and directory, but for such phantoms. */
  ghost predicate Synced(v: Vol)
    requires Geometry(v)
  {
    && v.disk[0] == EncodeSuper(v.sup)
    && forall i :: 0 <= i < MAX_ENTRIES ==> SyncedAt(v.disk, v.dir, i)
  }

  ghost predicate Sound(v: Vol) { Good(v) && Synced(v) }

  // ---- the abstract view ----------------------------------------------------------------------

  /** A file: its class and bytes, and for the fixed record, whose records are read by sector, its first
      sector; or an entry whose recorded length exceeds its extent. */
  datatype File = File(kind: u32, bytes: seq<byte>, home: nat := 0) | Overrun(kind: u32, length: nat)

  function Home(e: Entry): nat { if e.kind == FT_RECORD then e.start else 0 }

  predicate Inside(d: Disk, e: Entry) { e.start + e.capacity <= |d| }

  function FileOf(d: Disk, e: Entry): File
    requires Inside(d, e)
  {
    if Fits(e) then File(e.kind, FileBytes(d, e.start, e.length), Home(e)) else Overrun(e.kind, e.length)
  }

  type Files = imap<CString, File>

  ghost function Abs(v: Vol): Files
    requires Good(v)
  {
    imap k: CString | Find(v.dir, k) < |v.dir| :: FileOf(v.disk, v.dir[Find(v.dir, k)])
  }

  lemma AbsAt(v: Vol, k: CString)
    requires Good(v)
    ensures k in Abs(v) <==> Find(v.dir, k) < |v.dir|
    ensures k in Abs(v) ==> Inside(v.disk, v.dir[Find(v.dir, k)]) && Abs(v)[k] == FileOf(v.disk, v.dir[Find(v.dir, k)])
  {
  }

  ghost function Without(m: Files, key: CString): Files {
    imap k: CString | k in m && k != key :: m[k]
  }

  /** The sectors of an entry's extent hold the same bytes on both disks. */
  ghost predicate SameExtent(d: Disk, d': Disk, e: Entry)
    requires |d| == |d'| && Inside(d, e)
  {
    forall s :: e.start <= s < e.start + e.capacity ==> d[s] == d'[s]
  }

  lemma SameFile(d: Disk, d': Disk, e: Entry)
    requires |d| == |d'| && Inside(d, e) && SameExtent(d, d', e)
    ensures FileOf(d', e) == FileOf(d, e)
  {
    if Fits(e) {
      assert FileBytes(d', e.start, e.length) == FileBytes(d, e.start, e.length);
    }
  }

  /** Every other present entry keeps its slot and its sectors. */
  ghost predicate OthersKept(v: Vol, v': Vol, i: nat)
    requires Good(v) && |v'.dir| == |v.dir| && |v'.disk| == |v.disk|
  {
    forall j :: 0 <= j < |v.dir| && j != i ==>
      v'.dir[j] == v.dir[j] && (v.dir[j].present != 0 ==> SameExtent(v.disk, v'.disk, v.dir[j]))
  }

  /** An act on slot i that leaves the others alone changes the files at slot i's old and new name only. */
  lemma AbsUpdate(v: Vol, v': Vol, i: nat, k: CString)
    requires Good(v) && Good(v') && i < |v.dir| && |v'.disk| == |v.disk| && OthersKept(v, v', i)
    ensures Holds(v'.dir[i], k) ==>
              k in Abs(v') && Inside(v'.disk, v'.dir[i]) && Abs(v')[k] == FileOf(v'.disk, v'.dir[i])
    ensures !Holds(v'.dir[i], k) && Holds(v.dir[i], k) ==> k !in Abs(v')
    ensures !Holds(v'.dir[i], k) && !Holds(v.dir[i], k) ==> (k in Abs(v') <==> k in Abs(v)) && (k in Abs(v) ==>
              Abs(v')[k] == Abs(v)[k])
  {
    if Holds(v'.dir[i], k) {
      FindUnique(v', i);
    } else {
      var r, r' := Find(v.dir, k), Find(v'.dir, k);
      if r' < |v'.dir| {
        assert v'.dir[r'] == v.dir[r'];
        FindUnique(v, r');
      }
      if r < |v.dir| && r != i {
        assert Holds(v'.dir[r], k);
        FindUnique(v', r);
        SameFile(v.disk, v'.disk, v.dir[r]);
      }
    }
  }
}
