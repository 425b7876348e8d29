/** The GOVTREE1 archive: a tree of files as one blob, printed by the image builder and searched by the body. */
module TreeArchive {
  import opened Bytes
  import opened DiskLayout
  import opened Volume
  import opened Crc
  import opened Wrappers

  const TREE_PATH_MAX: nat := 116
  const TREE_ENTRY_SIZE: nat := 128
  const PER_SECTOR: nat := 4
  const TREE_VERSION: u32 := 1

  /** The ASCII bytes of "GOVTREE1". */
  const TREE_MAGIC: seq<byte> := [71, 79, 86, 84, 82, 69, 69, 49]

  datatype TreeFile = TreeFile(path: CString, data: seq<byte>)

  // ---- the printer -----------------------------------------------------------------------------------------

  function TableSectors(count: nat): nat { (count + 3) / 4 }

  function RegionStart(count: nat): nat { (1 + TableSectors(count)) * SECTOR_SIZE }

  /** Bytes of the first n files. */
  function Before(files: seq<TreeFile>, n: nat): nat
    requires n <= |files|
  {
    if n == 0 then 0 else Before(files, n - 1) + |files[n - 1].data|
  }

  function TotalLen(files: seq<TreeFile>): nat { RegionStart(|files|) + Before(files, |files|) }

  /** Every path fits its field, and every offset its word. */
  predicate Printable(files: seq<TreeFile>) {
    TotalLen(files) < 0x1_0000_0000 && forall i :: 0 <= i < |files| ==> |files[i].path| <= TREE_PATH_MAX
  }

  lemma {:induction false} BeforeGrows(files: seq<TreeFile>, i: nat, n: nat)
    requires i < n <= |files|
    ensures Before(files, i) + |files[i].data| <= Before(files, n)
    decreases n
  {
    if i < n - 1 { BeforeGrows(files, i, n - 1); }
  }

  function Offset(files: seq<TreeFile>, i: nat): nat
    requires i <= |files|
  {
    RegionStart(|files|) + Before(files, i)
  }

  lemma OffsetFits(files: seq<TreeFile>, i: nat)
    requires Printable(files) && i < |files|
    ensures Offset(files, i) < 0x1_0000_0000 && |files[i].data| < 0x1_0000_0000
  {
    BeforeGrows(files, i, |files|);
  }

  function PathField(path: CString): (f: seq<byte>)
    requires |path| <= TREE_PATH_MAX
    ensures |f| == TREE_PATH_MAX
  {
    path + Zeros(TREE_PATH_MAX - |path|)
  }

  function EntryBytes(files: seq<TreeFile>, i: nat): (e: seq<byte>)
    requires Printable(files) && i < |files|
    ensures |e| == TREE_ENTRY_SIZE
  {
    OffsetFits(files, i);
    PathField(files[i].path) + Words([Offset(files, i), |files[i].data|, Crc32(files[i].data)])
  }

  function Table(files: seq<TreeFile>, n: nat): (t: seq<byte>)
    requires Printable(files) && n <= |files|
    ensures |t| == TREE_ENTRY_SIZE * n
  {
    if n == 0 then [] else Table(files, n - 1) + EntryBytes(files, n - 1)
  }

  function Region(files: seq<TreeFile>, n: nat): (r: seq<byte>)
    requires n <= |files|
    ensures |r| == Before(files, n)
  {
    if n == 0 then [] else Region(files, n - 1) + files[n - 1].data
  }

  function Header(files: seq<TreeFile>): (h: seq<byte>)
    requires Printable(files)
    ensures |h| == SECTOR_SIZE
  {
    assert |files| < 0x1_0000_0000;
    TREE_MAGIC + Words([TREE_VERSION, |files|, TotalLen(files)]) + Zeros(492)
  }

  function TablePad(count: nat): nat { TableSectors(count) * SECTOR_SIZE - TREE_ENTRY_SIZE * count }

  function Archive(files: seq<TreeFile>): (a: seq<byte>)
    requires Printable(files)
    ensures |a| == Ceil(TotalLen(files)) * SECTOR_SIZE
  {
    var n := |files|;
    Header(files) + (Table(files, n) + Zeros(TablePad(n))) + Region(files, n)
      + Zeros(Ceil(TotalLen(files)) * SECTOR_SIZE - TotalLen(files))
  }

  /** _build_tree_archive; a path too long for its field, or an offset for its word, is refused. */
  method BuildTreeArchive(files: seq<TreeFile>) returns (archive: Option<seq<byte>>)
    ensures archive == if Printable(files) then Some(Archive(files)) else None
  {
    hide Crc32;
    var n := |files|;
    var total := RegionStart(n);
    var i := 0;
    while i < n
      invariant 0 <= i <= n && total == Offset(files, i)
      invariant forall j :: 0 <= j < i ==> |files[j].path| <= TREE_PATH_MAX
    {
      if |files[i].path| > TREE_PATH_MAX { return None; }
      total := total + |files[i].data|;
      i := i + 1;
    }
    if total >= 0x1_0000_0000 { return None; }
    var entries, region, cursor := [], [], RegionStart(n);
    i := 0;
    while i < n
      invariant 0 <= i <= n && cursor == Offset(files, i)
      invariant entries == Table(files, i) && region == Region(files, i)
    {
      OffsetFits(files, i);
      var crc := Crc32(files[i].data);
      entries := entries + (PathField(files[i].path) + Words([cursor, |files[i].data|, crc]));
      region := region + files[i].data;
      cursor := cursor + |files[i].data|;
      i := i + 1;
    }
    entries := entries + Zeros(TableSectors(n) * SECTOR_SIZE - |entries|);
    var a := Header(files) + entries + region;
    assert |a| == total;
    a := a + Zeros(Ceil(|a|) * SECTOR_SIZE - |a|);
    return Some(a);
  }

  // ---- where things are in it ------------------------------------------------------------------------------

  lemma {:induction false} TableHolds(files: seq<TreeFile>, n: nat, i: nat)
    requires Printable(files) && i < n <= |files|
    ensures Table(files, n)[TREE_ENTRY_SIZE * i..TREE_ENTRY_SIZE * i + TREE_ENTRY_SIZE] == EntryBytes(files, i)
    decreases n
  {
    hide EntryBytes;
    if i < n - 1 {
      TableHolds(files, n - 1, i);
      assert Table(files, n)[..|Table(files, n - 1)|] == Table(files, n - 1);
      assert Table(files, n)[TREE_ENTRY_SIZE * i..TREE_ENTRY_SIZE * i + TREE_ENTRY_SIZE]
          == Table(files, n - 1)[TREE_ENTRY_SIZE * i..TREE_ENTRY_SIZE * i + TREE_ENTRY_SIZE];
    }
  }

  lemma {:induction false} RegionHolds(files: seq<TreeFile>, n: nat, i: nat)
    requires i < n <= |files|
    ensures Before(files, i) + |files[i].data| <= Before(files, n)
    ensures Region(files, n)[Before(files, i)..Before(files, i) + |files[i].data|] == files[i].data
    decreases n
  {
    if i < n - 1 {
      RegionHolds(files, n - 1, i);
      var a, b := Before(files, i), Before(files, i) + |files[i].data|;
      Middle([], Region(files, n - 1), files[n - 1].data, a, |files[i].data|);
      assert Region(files, n) == [] + Region(files, n - 1) + files[n - 1].data;
    }
  }

  /** Entry i of the archive, and the bytes it points to. */
  lemma ArchiveHolds(files: seq<TreeFile>, i: nat)
    requires Printable(files) && i < |files|
    ensures var a := Archive(files); var o := Offset(files, i);
            && SECTOR_SIZE + TREE_ENTRY_SIZE * i + TREE_ENTRY_SIZE <= |a|
            && a[SECTOR_SIZE + TREE_ENTRY_SIZE * i..SECTOR_SIZE + TREE_ENTRY_SIZE * i + TREE_ENTRY_SIZE]
                == EntryBytes(files, i)
            && o + |files[i].data| <= |a| && a[o..o + |files[i].data|] == files[i].data
  {
    hide EntryBytes, Header;
    var n := |files|;
    TableHolds(files, n, i);
    RegionHolds(files, n, i);
    var h, t, r := Header(files), Table(files, n) + Zeros(TablePad(n)), Region(files, n);
    var tail := Zeros(Ceil(TotalLen(files)) * SECTOR_SIZE - TotalLen(files));
    Middle(h, t, r + tail, TREE_ENTRY_SIZE * i, TREE_ENTRY_SIZE);
    Middle(h + t, r, tail, Before(files, i), |files[i].data|);
    assert Archive(files) == h + t + (r + tail) && Archive(files) == (h + t) + r + tail;
    assert t[TREE_ENTRY_SIZE * i..TREE_ENTRY_SIZE * i + TREE_ENTRY_SIZE]
        == Table(files, n)[TREE_ENTRY_SIZE * i..TREE_ENTRY_SIZE * i + TREE_ENTRY_SIZE];
  }

  lemma Middle(a: seq<byte>, b: seq<byte>, c: seq<byte>, i: nat, n: nat)
    requires i + n <= |b|
    ensures (a + b + c)[|a| + i..|a| + i + n] == b[i..i + n]
  {
  }

  lemma ArchiveHeader(files: seq<TreeFile>)
    requires Printable(files)
    ensures |Archive(files)| >= SECTOR_SIZE && Archive(files)[..8] == TREE_MAGIC
    ensures U32At(Archive(files), 12) == |files|
  {
    hide Table, Region;
    assert |files| < 0x1_0000_0000;
    var ws: seq<u32> := [TREE_VERSION, |files|, TotalLen(files)];
    WordAt(ws, 1);
    var h := Header(files);
    assert h[8..20] == Words(ws);
    assert U32At(h, 12) == U32At(Words(ws), 4);
    assert Archive(files)[..SECTOR_SIZE] == h;
  }

  lemma EntryHolds(files: seq<TreeFile>, i: nat)
    requires Printable(files) && i < |files|
    ensures var e := EntryBytes(files, i);
            && e[..TREE_PATH_MAX] == PathField(files[i].path)
            && U32At(e, 116) == Offset(files, i) && U32At(e, 120) == |files[i].data|
            && U32At(e, 124) == Crc32(files[i].data)
  {
    hide Crc32, Offset;
    OffsetFits(files, i);
    var ws: seq<u32> := [Offset(files, i), |files[i].data|, Crc32(files[i].data)];
    WordAt(ws, 0);
    WordAt(ws, 1);
    WordAt(ws, 2);
    var e := EntryBytes(files, i);
    assert e[TREE_PATH_MAX..] == Words(ws);
    assert U32At(e, 116) == U32At(Words(ws), 0);
    assert U32At(e, 120) == U32At(Words(ws), 4) && U32At(e, 124) == U32At(Words(ws), 8);
  }

  // ---- the parser ------------------------------------------------------------------------------------------

  /** A name compared with a padded field: as far as the field goes, and then it must have ended. */
  predicate PathEq(field: seq<byte>, want: CString)
    requires |field| == TREE_PATH_MAX
  {
    if |want| < TREE_PATH_MAX then field[..|want|] == want && field[|want|] == 0
    else field == want[..TREE_PATH_MAX]
  }

  /** For names that fit, that is equality. */
  lemma PathEqExact(path: CString, want: CString)
    requires |path| <= TREE_PATH_MAX && |want| <= TREE_PATH_MAX
    ensures PathEq(PathField(path), want) <==> path == want
  {
    var f := PathField(path);
    assert f[..|path|] == path;
    FieldNameUnique(f, path);
    if PathEq(f, want) {
      assert f[..|want|] == want;
      FieldNameUnique(f, want);
    }
  }

  /** What an open finds: no archive, no such path, or where the file is on the disk. */
  datatype Opened = NoTree | Absent | Opened(base: nat, len: nat, crc: nat, index: nat)

  /** The disk holds an archive from a sector on. */
  ghost predicate Carries(d: Disk, start: nat, a: seq<byte>) {
    && |a| % SECTOR_SIZE == 0 && start + |a| / SECTOR_SIZE <= |d|
    && forall k :: 0 <= k < |a| ==> d[start + k / 512][k % 512] == a[k]
  }

  /** Entry i where the scan finds it. */
  function ScanEntry(d: Disk, start: nat, i: nat): (e: seq<byte>)
    requires start + 1 + i / PER_SECTOR < |d|
    ensures |e| == TREE_ENTRY_SIZE
  {
    var at := TREE_ENTRY_SIZE * (i % PER_SECTOR);
    d[start + 1 + i / PER_SECTOR][at..at + TREE_ENTRY_SIZE]
  }

  lemma ScanFinds(d: Disk, start: nat, a: seq<byte>, i: nat)
    requires Carries(d, start, a) && SECTOR_SIZE + TREE_ENTRY_SIZE * i + TREE_ENTRY_SIZE <= |a|
    ensures start + 1 + i / PER_SECTOR < |d|
    ensures ScanEntry(d, start, i)
            == a[SECTOR_SIZE + TREE_ENTRY_SIZE * i..SECTOR_SIZE + TREE_ENTRY_SIZE * i + TREE_ENTRY_SIZE]
  {
    assert (SECTOR_SIZE + TREE_ENTRY_SIZE * i + TREE_ENTRY_SIZE - 1) / 512 == 1 + i / PER_SECTOR;
    assert |a| / 512 > 1 + i / PER_SECTOR;
    forall t | 0 <= t < TREE_ENTRY_SIZE ensures ScanEntry(d, start, i)[t] == a[SECTOR_SIZE + TREE_ENTRY_SIZE * i + t] {
      var k := SECTOR_SIZE + TREE_ENTRY_SIZE * i + t;
      assert k / 512 == 1 + i / PER_SECTOR && k % 512 == TREE_ENTRY_SIZE * (i % PER_SECTOR) + t;
    }
  }

  /** The scan has a sector for entry j. */
  predicate Scanned(d: Disk, start: nat, j: nat) { start + 1 + j / PER_SECTOR < |d| }

  predicate Marked(d: Disk, start: nat) { start < |d| && d[start][..8] == TREE_MAGIC }

  function CountOf(d: Disk, start: nat): nat
    requires start < |d|
  {
    U32At(d[start], 12)
  }

  predicate FoundAt(d: Disk, start: nat, want: CString, r: Opened) {
    && r.Opened? && Scanned(d, start, r.index)
    && var e := ScanEntry(d, start, r.index);
       && PathEq(e[..TREE_PATH_MAX], want)
       && r.base == SECTOR_SIZE * start + U32At(e, 116) && r.len == U32At(e, 120) && r.crc == U32At(e, 124)
  }

  predicate NoneBefore(d: Disk, start: nat, want: CString, n: nat) {
    forall j: nat :: j < n ==> Scanned(d, start, j) && !PathEq(ScanEntry(d, start, j)[..TREE_PATH_MAX], want)
  }

  /** What an open answers: the first entry of that name, the lack of one, or that there is no archive to scan. */
  ghost predicate Answers(d: Disk, start: nat, want: CString, r: Opened) {
    match r
    case Opened(_, _, _, i) =>
      Marked(d, start) && i < CountOf(d, start) && FoundAt(d, start, want, r) && NoneBefore(d, start, want, i)
    case Absent => Marked(d, start) && NoneBefore(d, start, want, CountOf(d, start))
    case NoTree => !Marked(d, start) || exists j: nat :: j < CountOf(d, start) && !Scanned(d, start, j)
  }

  class TreeReader {
    /** The scan buffer and the streaming buffer. */
    const scan: array<byte>
    const sec: array<byte>

    ghost predicate Valid() { scan.Length == SECTOR_SIZE && sec.Length == SECTOR_SIZE && scan != sec }

    constructor ()
      ensures Valid() && fresh(scan) && fresh(sec)
    {
      scan := new byte[SECTOR_SIZE](_ => 0);
      sec := new byte[SECTOR_SIZE](_ => 0);
    }

    static method ReadSector(d: Disk, lba: nat, buf: array<byte>) returns (ok: bool)
      requires buf.Length == SECTOR_SIZE
      modifies buf
      ensures ok <==> lba < |d|
      ensures ok ==> buf[..] == d[lba]
    {
      if lba >= |d| { return false; }
      var i := 0;
      while i < SECTOR_SIZE
        invariant 0 <= i <= SECTOR_SIZE && buf[..i] == d[lba][..i]
      {
        buf[i] := d[lba][i];
        i := i + 1;
      }
      assert buf[..] == buf[..i] && d[lba][..i] == d[lba];
      return true;
    }

    /** serve_tree_open, from the archive's first sector on: the first entry of that name. */
    method Open(d: Disk, start: nat, want: CString) returns (r: Opened)
      requires Valid()
      modifies scan
      ensures Answers(d, start, want, r)
    {
      hide PathEq;
      var ok := ReadSector(d, start, scan);
      if !ok { return NoTree; }
      if scan[..8] != TREE_MAGIC { return NoTree; }
      var count := U32At(scan[..], 12);
      var i := 0;
      while i < count
        invariant 0 <= i <= count == U32At(d[start], 12)
        invariant i > 0 ==> start + 1 + (i - 1) / PER_SECTOR < |d| && scan[..] == d[start + 1 + (i - 1) / PER_SECTOR]
        invariant NoneBefore(d, start, want, i)
      {
        if i % PER_SECTOR == 0 {
          ok := ReadSector(d, start + 1 + i / PER_SECTOR, scan);
          if !ok {
            assert !Scanned(d, start, i);
            return NoTree;
          }
        }
        assert scan[..] == d[start + 1 + i / PER_SECTOR];
        var at := i % PER_SECTOR * TREE_ENTRY_SIZE;
        var ent := scan[at..at + TREE_ENTRY_SIZE];
        assert ent == ScanEntry(d, start, i);
        if PathEq(ent[..TREE_PATH_MAX], want) {
          return Opened(SECTOR_SIZE * start + U32At(ent, 116), U32At(ent, 120), U32At(ent, 124), i);
        }
        i := i + 1;
      }
      return Absent;
    }

    /** serve_tree_read_range: up to `count` bytes from a cursor on, sector by sector, as far as the device goes. */
    method ReadRange(d: Disk, base: nat, len: nat, cursor: nat, count: nat, dst: array<byte>) returns (done: nat)
      requires Valid() && count <= dst.Length && dst != sec
      modifies sec, dst
      ensures var pos, n := base + cursor, Min(count, if cursor < len then len - cursor else 0);
              && done == Min(n, if pos < 512 * |d| then 512 * |d| - pos else 0)
              && dst[..done] == DiskBytes(d, pos, done) && dst[done..] == old(dst[..])[done..]
    {
      hide DiskBytes, Part;
      var remain := if cursor < len then len - cursor else 0;
      var n := if count < remain then count else remain;
      var pos := base + cursor;
      done := 0;
      ghost var was := dst[..];
      DiskBytesNone(d, pos);
      while done < n
        invariant 0 <= done <= n <= dst.Length && (done > 0 ==> pos + done <= 512 * |d|)
        invariant dst[..done] == DiskBytes(d, pos, done)
        invariant dst[done..] == was[done..]
      {
        var ok, c := ReadPart(d, pos, done, n, dst);
        if !ok {
          EndsHere(d, pos, done);
          break;
        }
        done := done + c;
      }
    }

    /** As much of one sector as it holds and is wanted, after what has been copied. */
    method ReadPart(d: Disk, pos: nat, done: nat, n: nat, dst: array<byte>) returns (ok: bool, c: nat)
      requires Valid() && done < n <= dst.Length && dst != sec && (done > 0 ==> pos + done <= 512 * |d|)
      requires dst[..done] == DiskBytes(d, pos, done)
      modifies sec, dst
      ensures ok <==> (pos + done) / 512 < |d|
      ensures ok ==> 0 < c && done + c <= n && pos + done + c <= 512 * |d|
      ensures ok ==> dst[..done + c] == DiskBytes(d, pos, done + c) && dst[done + c..] == old(dst[..])[done + c..]
      ensures !ok ==> dst[..] == old(dst[..])
    {
      hide DiskBytes, Part;
      c := 0;
      var lba, soff := (pos + done) / SECTOR_SIZE, (pos + done) % SECTOR_SIZE;
      ok := ReadSector(d, lba, sec);
      if !ok { return; }
      c := SECTOR_SIZE - soff;
      if c > n - done { c := n - done; }
      ghost var before, part := dst[..], sec[soff..soff + c];
      PartIs(d, pos + done, n - done, part);
      DiskBytesStep(d, pos, done, part, n - done);
      Copy(dst, done, soff, c);
      Copied(before, dst[..], done, part);
    }

    method Copy(dst: array<byte>, at: nat, soff: nat, c: nat)
      requires Valid() && at + c <= dst.Length && soff + c <= SECTOR_SIZE && dst != sec
      modifies dst
      ensures dst[..] == old(dst[..])[..at] + sec[soff..soff + c] + old(dst[..])[at + c..]
    {
      var k := 0;
      while k < c
        invariant 0 <= k <= c
        invariant forall i :: 0 <= i < dst.Length ==>
                    dst[i] == if at <= i < at + k then sec[soff + i - at] else old(dst[i])
      {
        dst[at + k] := sec[soff + k];
        k := k + 1;
      }
    }
  }

  lemma PartIs(d: Disk, pos: nat, want: nat, part: seq<byte>)
    requires pos / 512 < |d| && want > 0
    requires var c := if 512 - pos % 512 > want then want else 512 - pos % 512;
             part == d[pos / 512][pos % 512..pos % 512 + c]
    ensures part == Part(d, pos, want)
  {
  }

  /** A part copied in after what is there. */
  lemma Copied(was: seq<byte>, now: seq<byte>, at: nat, part: seq<byte>)
    requires at + |part| <= |was| && now == was[..at] + part + was[at + |part|..]
    ensures |now| == |was| && now[..at + |part|] == was[..at] + part
    ensures now[at + |part|..] == was[at..][|part|..]
  {
  }

  // ---- printer and parser ----------------------------------------------------------------------------------

  lemma HeaderFound(d: Disk, start: nat, files: seq<TreeFile>)
    requires Printable(files) && Carries(d, start, Archive(files))
    ensures Marked(d, start) && CountOf(d, start) == |files|
  {
    hide Archive;
    var a := Archive(files);
    ArchiveHeader(files);
    forall k | 0 <= k < SECTOR_SIZE ensures d[start][k] == a[k] {
      assert k / 512 == 0 && k % 512 == k;
    }
    assert d[start][..8] == a[..8];
  }

  lemma EntryFound(d: Disk, start: nat, files: seq<TreeFile>, i: nat)
    requires Printable(files) && Carries(d, start, Archive(files)) && i < |files|
    ensures Scanned(d, start, i) && ScanEntry(d, start, i) == EntryBytes(files, i)
  {
    hide EntryBytes, Archive;
    ArchiveHolds(files, i);
    ScanFinds(d, start, Archive(files), i);
  }

  /** Opening a path in a printed archive: the first file of that name, or nothing if there is none, for every path that
      fits the field. */
  lemma OpenAgrees(d: Disk, start: nat, files: seq<TreeFile>, want: CString, r: Opened)
    requires Printable(files) && Carries(d, start, Archive(files)) && |want| <= TREE_PATH_MAX
    requires Answers(d, start, want, r)
    ensures r.Opened? <==> exists i :: 0 <= i < |files| && files[i].path == want
    ensures r.Absent? <==> forall i :: 0 <= i < |files| ==> files[i].path != want
    ensures r.Opened? ==>
              && r.index < |files| && files[r.index].path == want
              && (forall j :: 0 <= j < r.index ==> files[j].path != want)
              && r.base == SECTOR_SIZE * start + Offset(files, r.index)
              && r.len == |files[r.index].data| && r.crc == Crc32(files[r.index].data)
  {
    hide EntryBytes, Archive, ScanEntry, PathEq, PathField, Crc32, Offset, Marked, CountOf, Carries;
    HeaderFound(d, start, files);
    forall i: nat | i < |files|
      ensures Scanned(d, start, i) && ScanEntry(d, start, i) == EntryBytes(files, i)
      ensures PathEq(EntryBytes(files, i)[..TREE_PATH_MAX], want) <==> files[i].path == want
    {
      EntryFound(d, start, files, i);
      EntryHolds(files, i);
      PathEqExact(files[i].path, want);
    }
    if r.Opened? { EntryHolds(files, r.index); }
  }

  /** And its bytes, from wherever and as many as are asked for, are the file's. */
  lemma BytesAgree(d: Disk, start: nat, files: seq<TreeFile>, i: nat, cursor: nat, n: nat)
    requires Printable(files) && Carries(d, start, Archive(files)) && i < |files| && cursor + n <= |files[i].data|
    ensures SECTOR_SIZE * start + Offset(files, i) + |files[i].data| <= SECTOR_SIZE * |d|
    ensures DiskBytes(d, SECTOR_SIZE * start + Offset(files, i) + cursor, n) == files[i].data[cursor..cursor + n]
  {
    hide Archive, EntryBytes;
    ArchiveHolds(files, i);
    var a, o := Archive(files), Offset(files, i);
    var from := SECTOR_SIZE * start + o + cursor;
    var got := DiskBytes(d, from, n);
    forall k | 0 <= k < n ensures got[k] == files[i].data[cursor..cursor + n][k] {
      var t := o + cursor + k;
      assert (from + k) / 512 == start + t / 512 && (from + k) % 512 == t % 512;
      assert a[t] == a[o..o + |files[i].data|][cursor + k];
    }
  }
}
