/** The driver itself: static state edited in place, sector by sector, proved to perform the acts of module Acts. */
module BodyfsDriver {
  import opened Bytes
  import opened DiskLayout
  import opened Volume
  import opened Acts
  import opened AppendLaws
  import opened FileMap
  import opened FsLaws
  import opened Crash
  import opened RecordLog
  import opened RecordSafety

  class Bodyfs {
    /** The device. */
    var disk: Disk
    /** Every sector write issued, in order. */
    ghost var trail: seq<Write>
    /** The mounted superblock and directory, and the one sector buffer. */
    var sup: Super
    const dir: array<Entry>
    const sec: array<byte>

    ghost predicate Valid()
      reads this
    {
      dir.Length == MAX_ENTRIES && sec.Length == SECTOR_SIZE && (sec as object) != (dir as object)
    }

    ghost function View(): Vol
      reads this, dir
    {
      Vol(disk, sup, dir[..])
    }

    /** Mounted, and fit for the acts to run on. */
    ghost predicate Ready()
      reads this, dir
    {
      Valid() && Usable(View())
    }

    /** A body that owns this disk; nothing is mounted yet. */
    constructor (d: Disk, s: Super, e: Entry)
      ensures Valid() && fresh(dir) && fresh(sec) && disk == d && trail == []
    {
      disk, sup, trail := d, s, [];
      dir := new Entry[MAX_ENTRIES](_ => e);
      sec := new byte[SECTOR_SIZE](_ => 0);
    }

    // ---- the device ------------------------------------------------------------------------------

    method ReadSector(lba: nat) returns (ok: bool)
      requires Valid()
      modifies sec
      ensures ok <==> lba < |disk|
      ensures ok ==> sec[..] == disk[lba]
    {
      ok := lba < |disk|;
      if ok {
        var s := disk[lba];
        forall j | 0 <= j < SECTOR_SIZE { sec[j] := s[j]; }
        assert sec[..] == s;
      }
    }

    method WriteSector(lba: nat, data: Sector) returns (ok: bool)
      modifies `disk, `trail
      ensures ok <==> lba < |old(disk)|
      ensures ok ==> disk == Put(old(disk), Write(lba, data)) && trail == old(trail) + [Write(lba, data)]
      ensures !ok ==> disk == old(disk) && trail == old(trail)
    {
      ok := lba < |disk|;
      if ok {
        disk := disk[lba := data];
        trail := trail + [Write(lba, data)];
      }
    }

    method ClearSector()
      requires Valid()
      modifies sec
      ensures sec[..] == Zeros(SECTOR_SIZE)
    {
      forall j | 0 <= j < SECTOR_SIZE { sec[j] := 0; }
    }

    /** memcpy of `n` bytes of p from `from` into the sector buffer at `at`. */
    method CopyIn(p: seq<byte>, from: nat, at: nat, n: nat)
      requires Valid() && from + n <= |p| && at + n <= SECTOR_SIZE
      modifies sec
      ensures forall j :: 0 <= j < SECTOR_SIZE ==>
                sec[j] == if at <= j < at + n then p[from + j - at] else old(sec[j])
    {
      forall j | at <= j < at + n { sec[j] := p[from + j - at]; }
    }

    // ---- mounting and looking up ------------------------------------------------------------------

    /** Reads the superblock over the old one, checks it, then reads as much directory as it claims; the entries
        past what it claims stay what they were. */
    method FsMount() returns (ok: bool)
      requires Valid()
      modifies this`sup, dir, sec
      ensures ok <==> MountOk(disk)
      ensures |disk| > 0 ==> sup == DecodeSuper(disk[0])
      ensures ok ==> forall i :: 0 <= i < MAX_ENTRIES ==>
                dir[..][i] == if i < 2 * sup.dirSectors then EntryAt(disk[sup.dirStart + i / 2], i) else old(dir[..])[i]
      ensures MountOk(disk) && UsualGeometry(DecodeSuper(disk[0])) ==> View() == Mounted(disk)
    {
      hide DecodeEntry, DecodeSuper;
      ok := ReadSector(0);
      if !ok { return false; }
      sup := DecodeSuper(sec[..]);
      if sup.magic != MAGIC || sup.version != VERSION || sup.dirSectors > DIR_SECTORS { return false; }
      var s := 0;
      while s < sup.dirSectors
        invariant sup == DecodeSuper(disk[0]) && 0 <= s <= sup.dirSectors <= DIR_SECTORS
        invariant s > 0 ==> sup.dirStart + s <= |disk|
        invariant forall i :: 0 <= i < MAX_ENTRIES ==>
                    dir[..][i] == if i < 2 * s then EntryAt(disk[sup.dirStart + i / 2], i) else old(dir[..])[i]
      {
        ok := ReadSector(sup.dirStart + s);
        if !ok { return false; }
        dir[2 * s] := DecodeEntry(sec[..ENTRY_SIZE]);
        dir[2 * s + 1] := DecodeEntry(sec[ENTRY_SIZE..]);
        assert sec[..] == disk[sup.dirStart + s];
        assert sec[..ENTRY_SIZE] == disk[sup.dirStart + s][0..ENTRY_SIZE];
        assert sec[ENTRY_SIZE..] == disk[sup.dirStart + s][ENTRY_SIZE..SECTOR_SIZE];
        s := s + 1;
      }
      return true;
    }

    /** Byte-by-byte comparison of a NUL-padded field with a C string. */
    static method NameEq(field: Field, id: CString) returns (eq: bool)
      ensures eq <==> FieldName(field) == Key(id)
    {
      var i := 0;
      while i < NAME_MAX && i < |id|
        invariant 0 <= i <= NAME_MAX && i <= |id|
        invariant field[..i] == id[..i]
      {
        if field[i] != id[i] {
          assert Key(id)[i] == id[i];
          return false;
        }
        i := i + 1;
      }
      assert id[..i] == Key(id);
      if i < NAME_MAX {
        if field[i] == 0 { FieldNameUnique(field, id); }
        return field[i] == 0;
      }
      FieldNameUnique(field, Key(id));
      return true;
    }

    method FsFind(id: CString) returns (i: nat)
      requires Valid()
      ensures i == Find(dir[..], Key(id))
    {
      hide FieldName;
      i := 0;
      while i < MAX_ENTRIES
        invariant 0 <= i <= MAX_ENTRIES
        invariant forall j :: 0 <= j < i ==> !Holds(dir[..][j], Key(id))
      {
        var eq := NameEq(dir[i].name, id);
        if dir[i].present != 0 && eq { return; }
        i := i + 1;
      }
    }

    method AllocEntry() returns (i: nat)
      requires Valid()
      ensures i == FindFree(dir[..])
    {
      i := 0;
      while i < MAX_ENTRIES
        invariant 0 <= i <= MAX_ENTRIES
        invariant forall j :: 0 <= j < i ==> dir[..][j].present != 0
      {
        if dir[i].present == 0 { return; }
        i := i + 1;
      }
    }

    // ---- persisting ------------------------------------------------------------------------------

    method WriteEntry(i: nat)
      requires Valid() && i < MAX_ENTRIES && sup.dirStart + i / 2 < |disk|
      modifies `disk, `trail
      ensures disk == Put(old(disk), PersistEntry(sup, dir[..], i))
      ensures trail == old(trail) + [PersistEntry(sup, dir[..], i)]
    {
      hide EncodeEntry;
      var ok := WriteSector(sup.dirStart + i / 2, DirSector(dir[..], i));
    }

    method WriteSuper()
      requires |disk| > 0
      modifies `disk, `trail
      ensures disk == Put(old(disk), PersistSuper(sup)) && trail == old(trail) + [PersistSuper(sup)]
    {
      hide EncodeSuper;
      var ok := WriteSector(0, EncodeSuper(sup));
    }

    // ---- appending ---------------------------------------------------------------------------------

    /** Copies n sectors up the disk, one at a time through the sector buffer. */
    method CopySectors(from: nat, to: nat, n: nat)
      requires Valid() && from + n <= to && to + n <= |disk|
      modifies `disk, `trail, sec
      ensures disk == Apply(old(disk), Burst(to, old(disk)[from..from + n]))
      ensures trail == old(trail) + Burst(to, old(disk)[from..from + n])
    {
      hide Burst, Blit, Wrote;
      ghost var d, t, moved := disk, trail, disk[from..from + n];
      var s := 0;
      WroteNone(d, t, to, moved);
      while s < n
        invariant 0 <= s <= n && |disk| == |d| && Wrote(d, t, to, moved, s, disk, trail)
      {
        WroteKeeps(d, t, to, moved, s, disk, trail, from + s);
        var ok := ReadSector(from + s);
        WroteStep(d, t, to, moved, s, disk, trail);
        ok := WriteSector(to + s, sec[..]);
        s := s + 1;
      }
      WroteAll(d, t, to, moved, disk, trail);
    }

    /** Reserve `need` sectors for slot i: nothing to do, in place at the allocator's tail, or relocated. */
    method Reserve(i: nat, need: nat) returns (ok: bool)
      requires Valid() && Growable(View(), i) && Ceil(dir[i].length) <= need
      modifies `disk, `trail, `sup, dir, sec
      ensures var g := Grow(old(View()), i, need);
              && ok == g.ok && sup == g.sup && dir[..] == old(dir[..])[i := g.e]
              && disk == Apply(old(disk), g.writes) && trail == old(trail) + g.writes
    {
      hide EncodeSuper, EncodeEntry, DecodeEntry, FieldName, Apply;
      ghost var v := View();
      var e := dir[i];
      NoWrites(disk);
      if need <= e.capacity { return true; }
      if e.start + e.capacity == sup.nextFree {
        var extra := need - e.capacity;
        if sup.nextFree + extra > sup.totalSectors { return false; }
        sup := sup.(nextFree := sup.nextFree + extra);
        dir[i] := e.(capacity := need);
        WriteSuper();
        SingleWrite(v.disk, PersistSuper(sup));
      } else {
        var newStart := sup.nextFree;
        if newStart + need > sup.totalSectors { return false; }
        var have := Ceil(e.length);
        CopySectors(e.start, newStart, have);
        sup := sup.(nextFree := sup.nextFree + need);
        dir[i] := e.(start := newStart, capacity := need);
        LastApply(v.disk, Burst(newStart, v.disk[e.start..e.start + have]), PersistSuper(sup));
        WriteSuper();
      }
      return true;
    }

    /** Fills the sector buffer: what the sector held if it is resumed, zeros if it is begun, then the payload. */
    method Assemble(lba: nat, within: nat, p: seq<byte>, written: nat, chunk: nat)
      requires Valid() && lba < |disk| && within + chunk <= SECTOR_SIZE && written + chunk <= |p|
      modifies sec
      ensures forall b :: 0 <= b < SECTOR_SIZE ==>
                sec[..][b] == (if within <= b < within + chunk then p[written + b - within]
                               else if within != 0 then disk[lba][b] else 0)
    {
      if within != 0 {
        var ok := ReadSector(lba);
      } else {
        ClearSector();
      }
      ghost var before := sec[..];
      assert before == if within != 0 then disk[lba] else Zeros(SECTOR_SIZE);
      CopyIn(p, written, within, chunk);
    }

    /** Writes p at byte offset `at` of the file at `start`: the tail sector read, modified and written, then whole
        sectors. */
    method WriteData(start: nat, at: nat, p: seq<byte>)
      requires Valid() && start + Ceil(at + |p|) <= |disk|
      modifies `disk, `trail, sec
      ensures var data := Burst(start + at / 512, TailSectors(old(disk), start, at, p));
              disk == Apply(old(disk), data) && trail == old(trail) + data
    {
      hide TailSectors, Burst, Wrote;
      ghost var d, t, secs := disk, trail, TailSectors(disk, start, at, p);
      ghost var lo, j := start + at / 512, 0;
      WroteNone(d, t, lo, secs);
      var written, off := 0, at;
      while written < |p|
        invariant 0 <= written <= |p| && off == at + written && 0 <= j <= |secs| && |disk| == |d|
        invariant Wrote(d, t, lo, secs, j, disk, trail) && (j == 0 ==> disk == d)
        invariant written < |p| ==> off / 512 == at / 512 + j && (j > 0 ==> off % 512 == 0)
        invariant (j == 0 ==> written == 0) && (written == |p| ==> j == |secs|)
      {
        var lba, within := start + off / 512, off % 512;
        var room := SECTOR_SIZE - within;
        var chunk := if |p| - written < room then |p| - written else room;
        Assemble(lba, within, p, written, chunk);
        TailStep(d, start, at, p, written, j, sec[..]);
        WroteStep(d, t, lo, secs, j, disk, trail);
        var ok := WriteSector(lba, sec[..]);
        written := written + chunk;
        off := off + chunk;
        j := j + 1;
      }
      WroteAll(d, t, lo, secs, disk, trail);
    }

    /** The common tail of the two appends. */
    method AppendTo(i: nat, p: seq<byte>) returns (ok: bool)
      requires Valid() && Growable(View(), i) && SizeOk(sup, |p|)
      modifies `disk, `trail, `sup, dir, sec
      ensures var ef := Extend(old(View()), i, p);
              View() == After(old(View()), ef) && trail == old(trail) + ef.writes && ok == (ef.out == Done)
    {
      hide EncodeSuper, EncodeEntry, DecodeEntry, FieldName, Apply, Grow, TailSectors, DirSector, Burst, FileBytes,
           Extend;
      ghost var v := View();
      var n := dir[i].length;
      var need := Ceil(n + |p|);
      ExtendParts(v, i, p);
      ok := Reserve(i, need);
      if !ok { return; }
      WriteData(dir[i].start, n, p);
      dir[i] := dir[i].(length := n + |p|);
      assert dir[..] == v.dir[i := Grow(v, i, need).e.(length := n + |p|)];
      WriteEntry(i);
    }

    // ---- the acts --------------------------------------------------------------------------------------

    /** An act was performed on volume v, whose trail was t: exactly its writes, in order, and exactly its
        effect; a sound volume is still sound and its files are the ones the act's law gives. */
    ghost predicate Performed(op: Op, v: Vol, t: seq<Write>, ok: bool)
      requires Usable(v) && OpFits(v.sup, op)
      reads this, dir
    {
      var ef := Perform(v, op);
      && View() == After(v, ef) && trail == t + ef.writes
      && (ok <==> ef.out == Done || ef.out == Overfull)
      && Valid() && (Sound(v) ==> Ready() && Sound(View()) && Abs(View()) == Next(Abs(v), op, ef.out))
    }

    /** Writes n packed sectors from `start` on: the data of a record, a blob or a marker. */
    method WritePacked(start: nat, image: seq<byte>, span: nat)
      requires Valid() && start + span <= |disk|
      modifies `disk, `trail, sec
      ensures disk == Apply(old(disk), Burst(start, Pack(image, span)))
      ensures trail == old(trail) + Burst(start, Pack(image, span))
    {
      hide Burst, Pack, Wrote;
      ghost var d, t, secs := disk, trail, Pack(image, span);
      WroteNone(d, t, start, secs);
      var s := 0;
      while s < span
        invariant 0 <= s <= span && |disk| == |d| && Wrote(d, t, start, secs, s, disk, trail)
      {
        FillPacked(image, s);
        PackStep(image, span, s, sec[..]);
        WroteStep(d, t, start, secs, s, disk, trail);
        var ok := WriteSector(start + s, sec[..]);
        s := s + 1;
      }
      WroteAll(d, t, start, secs, disk, trail);
    }

    /** The s-th sector of an image, zero-padded, into the sector buffer. */
    method FillPacked(image: seq<byte>, s: nat)
      requires Valid()
      modifies sec
      ensures forall j :: 0 <= j < SECTOR_SIZE ==> sec[..][j] == if 512 * s + j < |image| then image[512 * s + j] else 0
    {
      ClearSector();
      ghost var zero := sec[..];
      var off := s * SECTOR_SIZE;
      var c := if off < |image| then |image| - off else 0;
      if c > SECTOR_SIZE { c := SECTOR_SIZE; }
      if c > 0 { CopyIn(image, off, 0, c); }
    }

    method FsRecordWriteAt(off: u32, p: seq<byte>) returns (ok: bool, start: nat)
      requires Ready() && SizeOk(sup, |p|)
      modifies `disk, `trail, dir, sec
      ensures Performed(OpRecordWriteAt(off, p), old(View()), old(trail), ok)
      ensures ok ==> start == old(dir[Find(dir[..], RECORD_NAME)].start) + off / SECTOR_SIZE
    {
      hide EncodeSuper, EncodeEntry, DecodeEntry, FieldName, Apply, Burst, Pack, DirSector, RecordImage, Synced,
           Good, Usable, Abs, Next, Refuses, Find;
      ghost var v, t, op := View(), trail, OpRecordWriteAt(off, p);
      if Sound(v) { ActLaw(v, op); }
      NoWrites(disk);
      start := 0;
      var i := FsFind(RECORD_NAME);
      if i == MAX_ENTRIES || dir[i].kind != FT_RECORD { return false, 0; }
      if off != dir[i].length || off % SECTOR_SIZE != 0 { return false, 0; }
      var span := (HEADER_SIZE + |p| + SECTOR_SIZE - 1) / SECTOR_SIZE;
      if off / SECTOR_SIZE + span > dir[i].capacity { return false, 0; }
      start := dir[i].start + off / SECTOR_SIZE;
      SlotPlaced(v, i);
      WritePacked(start, RecordImage(off / SECTOR_SIZE, p), span);
      dir[i] := dir[i].(length := off + span * SECTOR_SIZE);
      WriteEntry(i);
      LastApply(v.disk, Burst(start, Pack(RecordImage(off / SECTOR_SIZE, p), span)), PersistEntry(sup, dir[..], i));
      ok := true;
    }

    method FsRecordAppend(p: seq<byte>) returns (ok: bool, start: nat)
      requires Ready() && SizeOk(sup, |p|)
      modifies `disk, `trail, dir, sec
      ensures var i := Find(old(dir[..]), RECORD_NAME);
              if i < MAX_ENTRIES then Performed(OpRecordWriteAt(old(dir[..])[i].length, p), old(View()), old(trail), ok)
              else !ok && View() == old(View()) && trail == old(trail)
    {
      hide Perform, Synced, Good, Abs, Next;
      var i := FsFind(RECORD_NAME);
      if i == MAX_ENTRIES { return false, 0; }
      ok, start := FsRecordWriteAt(dir[i].length, p);
    }

    /** An empty staging file becomes a caller-named record, on the disk at once. */
    method Adopt(i: nat)
      requires Valid() && Geometry(View()) && i < MAX_ENTRIES
      modifies `disk, `trail, dir
      ensures View() == After(old(View()), Adopted(old(View()), i))
      ensures trail == old(trail) + Adopted(old(View()), i).writes
      ensures sup == old(sup) && dir[..] == old(dir[..])[i := old(dir[i]).(kind := FT_NREC, appendOnly := 1)]
    {
      hide EncodeEntry, DirSector, Apply;
      ghost var v := View();
      dir[i] := dir[i].(kind := FT_NREC, appendOnly := 1);
      WriteEntry(i);
      assert dir[..] == Adopted(v, i).dir;
      SingleWrite(v.disk, PersistEntry(sup, dir[..], i));
    }

    method FsNrecAppend(id: CString, p: seq<byte>) returns (ok: bool, start: nat)
      requires Ready() && SizeOk(sup, |p|)
      modifies `disk, `trail, `sup, dir, sec
      ensures Performed(OpNrecAppend(id, p), old(View()), old(trail), ok)
      ensures ok ==> var i := Find(dir[..], id); i < MAX_ENTRIES && start == dir[i].start
    {
      hide EncodeSuper, EncodeEntry, DecodeEntry, FieldName, Apply, Burst, DirSector, Synced, Good, Usable, Abs,
           Next, Refuses, Find,
           FindFree, Extend, NameField, Adopted;
      ghost var v, t, op := View(), trail, OpNrecAppend(id, p);
      if Sound(v) { ActLaw(v, op); }
      NoWrites(disk);
      start := 0;
      if |id| > NAME_MAX { return false, 0; }
      var i := FsFind(id);
      if i < MAX_ENTRIES && dir[i].kind == FT_DURABLE && dir[i].length == 0 {
        Adopt(i);
        AdoptedGrowable(v, i);
        KeepsName(View(), i, p);
        ok := AppendTo(i, p);
        ghost var a, ef := Adopted(v, i), Extend(After(v, Adopted(v, i)), i, p);
        AfterConcat(v, a, ef);
        assert t + a.writes + ef.writes == t + (a.writes + ef.writes);
      } else {
        if i < MAX_ENTRIES && dir[i].kind != FT_NREC { return false, 0; }
        if i == MAX_ENTRIES {
          i := AllocEntry();
          if i == MAX_ENTRIES { return false, 0; }
          dir[i] := Entry(NameField(id), FT_NREC, 1, sup.nextFree, 0, 0, 0, 1, 0, dir[i].pad);
          assert View() == Opened(v, i, id, FT_NREC);
          OpenedGrowable(v, i, id, FT_NREC);
          OpenedShape(v, i, id, FT_NREC);
        }
        if i == Find(v.dir, id) { OtherGrowable(v, i); }
        KeepsName(View(), i, p);
        ok := AppendTo(i, p);
      }
      start := dir[i].start;
      FoundAgain(v, dir[..], i, id);
    }

    method FsDurableWrite(id: CString, p: seq<byte>) returns (ok: bool)
      requires Ready() && SizeOk(sup, |p|)
      modifies `disk, `trail, `sup, dir, sec
      ensures Performed(OpDurableWrite(id, p), old(View()), old(trail), ok)
    {
      hide EncodeSuper, EncodeEntry, DecodeEntry, FieldName, Apply, Burst, DirSector, Synced, Good, Usable, Abs,
           Next, Refuses, Find,
           FindFree, Extend, NameField;
      ghost var v, op := View(), OpDurableWrite(id, p);
      if Sound(v) { ActLaw(v, op); }
      NoWrites(disk);
      if |id| > NAME_MAX { return false; }
      var i := FsFind(id);
      if i < MAX_ENTRIES && dir[i].kind != FT_DURABLE { return false; }
      if i == MAX_ENTRIES {
        i := AllocEntry();
        if i == MAX_ENTRIES { return false; }
        dir[i] := Entry(NameField(id), FT_DURABLE, 1, sup.nextFree, 0, 0, 0, 0, 0, dir[i].pad);
        assert View() == Opened(v, i, id, FT_DURABLE);
        OpenedGrowable(v, i, id, FT_DURABLE);
        OpenedShape(v, i, id, FT_DURABLE);
      }
      if i == Find(v.dir, id) { OtherGrowable(v, i); }
      KeepsName(View(), i, p);
      ok := AppendTo(i, p);
    }

    method FsSwapRename(source: CString, target: CString) returns (ok: bool)
      requires Ready()
      modifies `disk, `trail, dir
      ensures Performed(OpSwapRename(source, target), old(View()), old(trail), ok)
    {
      hide EncodeSuper, EncodeEntry, DecodeEntry, FieldName, Apply, DirSector, Synced, Good, Usable, Abs, Next,
           Refuses, Find, NameField;
      ghost var v, op := View(), OpSwapRename(source, target);
      if Sound(v) { ActLaw(v, op); }
      NoWrites(disk);
      var i := FsFind(source);
      if i == MAX_ENTRIES || dir[i].kind != FT_DURABLE { return false; }
      if |target| > NAME_MAX { return false; }
      var j := FsFind(target);
      if j < MAX_ENTRIES && dir[j].kind == FT_RECORD { return false; }
      ghost var ws: seq<Write> := [];
      if j < MAX_ENTRIES {
        dir[j] := dir[j].(present := 0);
        WriteEntry(j);
        ws := [PersistEntry(sup, dir[..], j)];
        SingleWrite(v.disk, ws[0]);
      }
      dir[i] := dir[i].(name := NameField(target));
      WriteEntry(i);
      LastApply(v.disk, ws, PersistEntry(sup, dir[..], i));
      ok := true;
    }

    method FsRemove(id: CString) returns (ok: bool)
      requires Ready()
      modifies `disk, `trail, dir
      ensures Performed(OpRemove(id), old(View()), old(trail), ok)
    {
      hide EncodeSuper, EncodeEntry, DecodeEntry, FieldName, Apply, DirSector, Synced, Good, Usable, Abs, Next,
           Refuses, Find;
      ghost var v, op := View(), OpRemove(id);
      if Sound(v) { ActLaw(v, op); }
      NoWrites(disk);
      var i := FsFind(id);
      if i == MAX_ENTRIES || dir[i].kind == FT_RECORD { return false; }
      dir[i] := dir[i].(present := 0);
      WriteEntry(i);
      SingleWrite(v.disk, PersistEntry(sup, dir[..], i));
      ok := true;
    }

    method FsRename(source: CString, target: CString) returns (ok: bool)
      requires Ready()
      modifies `disk, `trail, dir
      ensures Performed(OpRename(source, target), old(View()), old(trail), ok)
    {
      hide EncodeSuper, EncodeEntry, DecodeEntry, FieldName, Apply, DirSector, Synced, Good, Usable, Abs, Next,
           Refuses, Find, NameField;
      ghost var v, op := View(), OpRename(source, target);
      if Sound(v) { ActLaw(v, op); }
      NoWrites(disk);
      var i := FsFind(source);
      if i == MAX_ENTRIES || dir[i].kind == FT_RECORD { return false; }
      if |target| > NAME_MAX { return false; }
      var j := FsFind(target);
      if j < MAX_ENTRIES { return false; }
      dir[i] := dir[i].(name := NameField(target));
      WriteEntry(i);
      SingleWrite(v.disk, PersistEntry(sup, dir[..], i));
      ok := true;
    }

    method FsMkdir(id: CString) returns (ok: bool)
      requires Ready()
      modifies `disk, `trail, dir
      ensures Performed(OpMkdir(id), old(View()), old(trail), ok)
    {
      hide EncodeSuper, EncodeEntry, DecodeEntry, FieldName, Apply, DirSector, Synced, Good, Usable, Abs, Next,
           Refuses, Find, FindFree,
           NameField;
      ghost var v, op := View(), OpMkdir(id);
      if Sound(v) { ActLaw(v, op); }
      NoWrites(disk);
      if |id| > NAME_MAX { return false; }
      var i := FsFind(id);
      if i < MAX_ENTRIES { return dir[i].kind == FT_DIR; }
      i := AllocEntry();
      if i == MAX_ENTRIES { return false; }
      dir[i] := Entry(NameField(id), FT_DIR, 1, 0, 0, 0, 0, 0, 0, dir[i].pad);
      WriteEntry(i);
      SingleWrite(v.disk, PersistEntry(sup, dir[..], i));
      ok := true;
    }

    /** Whether an entry's first bytes on disk are these; a sector that cannot be read does not match. */
    method BlobContentEq(i: nat, p: seq<byte>) returns (eq: bool)
      requires Valid() && i < MAX_ENTRIES && dir[i].length == |p| && dir[i].start <= |disk|
      modifies sec
      ensures eq <==> ContentEq(disk, dir[i], p)
    {
      var got, s, start := 0, 0, dir[i].start;
      while got < |p|
        invariant 0 <= got <= |p| && (got < |p| ==> got == 512 * s) && (got == |p| ==> s == Ceil(|p|))
        invariant start + s <= |disk|
        invariant forall k :: 0 <= k < got ==> k / 512 < s && disk[start + k / 512][k % 512] == p[k]
      {
        var ok := ReadSector(start + s);
        if !ok { return false; }
        var c := if |p| - got > SECTOR_SIZE then SECTOR_SIZE else |p| - got;
        if sec[..c] != p[got..got + c] {
          MismatchAt(disk, start, p, s, c);
          return false;
        }
        assert forall k :: got <= k < got + c ==> k / 512 == s && sec[..c][k - got] == p[got..got + c][k - got];
        got := got + c;
        s := s + 1;
      }
      assert FileBytes(disk, start, |p|) == p;
      eq := true;
    }

    method FsBlobWriteOnce(id: CString, p: seq<byte>) returns (ok: bool)
      requires Ready() && SizeOk(sup, |p|)
      modifies `disk, `trail, `sup, dir, sec
      ensures Performed(OpBlobWriteOnce(id, p), old(View()), old(trail), ok)
    {
      hide EncodeSuper, EncodeEntry, DecodeEntry, FieldName, Apply, DirSector, Synced, Good, Usable, Abs, Next,
           Refuses, Find, FindFree,
           NameField, CreateBlob, ContentEq;
      ghost var v, op := View(), OpBlobWriteOnce(id, p);
      if Sound(v) { ActLaw(v, op); }
      NoWrites(disk);
      if |id| > NAME_MAX { return false; }
      var i := FsFind(id);
      if i < MAX_ENTRIES {
        if dir[i].kind != FT_BLOB || dir[i].length != |p| {
          LengthDiffers(v.disk, v.dir[i], p);
          return false;
        }
        SlotPlaced(v, i);
        ok := BlobContentEq(i, p);
        return;
      }
      i := AllocEntry();
      if i == MAX_ENTRIES { return false; }
      CreateBlobOut(v, i, id, p);
      ok := CreateBlobIn(i, id, p);
    }

    /** Data, then the name, then the allocator's advance. */
    method CreateBlobIn(i: nat, id: CString, p: seq<byte>) returns (ok: bool)
      requires Ready() && SizeOk(sup, |p|) && i < MAX_ENTRIES && |id| <= NAME_MAX
      modifies `disk, `trail, `sup, dir, sec
      ensures var ef := CreateBlob(old(View()), i, id, p);
              View() == After(old(View()), ef) && trail == old(trail) + ef.writes && (ok <==> ef.out == Done)
    {
      hide EncodeSuper, EncodeEntry, DecodeEntry, FieldName, Apply, Burst, Pack, DirSector, Synced, NameField;
      ghost var v := View();
      NoWrites(disk);
      var span := (|p| + SECTOR_SIZE - 1) / SECTOR_SIZE;
      if span == 0 { span := 1; }
      var start := sup.nextFree;
      if start + span > sup.totalSectors { return false; }
      sup := sup.(nextFree := sup.nextFree + span);
      WritePacked(start, p, span);
      dir[i] := Entry(NameField(id), FT_BLOB, 1, start, |p|, span, 0, 0, 0, dir[i].pad);
      WriteEntry(i);
      ghost var data, we := Burst(start, Pack(p, span)), PersistEntry(sup, dir[..], i);
      LastApply(v.disk, data, we);
      WriteSuper();
      LastApply(v.disk, data + [we], PersistSuper(sup));
      ok := true;
    }

    method FsMarkerWrite(id: CString, p: seq<byte>) returns (ok: bool)
      requires Ready() && SizeOk(sup, |p|)
      modifies `disk, `trail, `sup, dir, sec
      ensures Performed(OpMarkerWrite(id, p), old(View()), old(trail), ok)
    {
      hide EncodeSuper, EncodeEntry, DecodeEntry, FieldName, Apply, Burst, Pack, DirSector, Synced, Good, Usable,
           Abs, Next, Refuses, Find,
           FindFree, NameField, CreateBlob;
      ghost var v, op := View(), OpMarkerWrite(id, p);
      if Sound(v) { ActLaw(v, op); }
      NoWrites(disk);
      if |id| > NAME_MAX { return false; }
      var i := FsFind(id);
      if i < MAX_ENTRIES {
        var e := dir[i];
        if e.kind == FT_RECORD { return false; }
        SlotPlaced(v, i);
        var span := (|p| + SECTOR_SIZE - 1) / SECTOR_SIZE;
        if span == 0 { span := 1; }
        if span > e.capacity { span := e.capacity; }
        WritePacked(e.start, p, span);
        dir[i] := Entry(NameField(id), FT_BLOB, 1, e.start, |p|, e.capacity, 0, 0, 0, e.pad);
        WriteEntry(i);
        LastApply(v.disk, Burst(e.start, Pack(p, span)), PersistEntry(sup, dir[..], i));
        ok := true;
      } else {
        i := AllocEntry();
        if i == MAX_ENTRIES { return false; }
        CreateBlobOut(v, i, id, p);
        ok := CreateBlobIn(i, id, p);
      }
    }

    // ---- reading back ------------------------------------------------------------------------------------

    /** A whole entry into a buffer of `max` bytes: an empty one always, another if all its sectors are there. */
    method FsReadEntry(e: Entry, max: nat) returns (ok: bool, out: seq<byte>)
      requires Valid()
      modifies sec
      ensures ok <==> e.length <= max && (e.length > 0 ==> e.start + Ceil(e.length) <= |disk|)
      ensures ok ==> out == if e.length > 0 then FileBytes(disk, e.start, e.length) else []
    {
      out := [];
      if e.length > max { return false, []; }
      var s := 0;
      while |out| < e.length
        invariant |out| <= e.length && (s > 0 ==> e.start + s <= |disk|)
        invariant (|out| < e.length ==> |out| == 512 * s) && (|out| == e.length ==> s == Ceil(e.length))
        invariant forall k :: 0 <= k < |out| ==> k / 512 < s && out[k] == disk[e.start + k / 512][k % 512]
      {
        ok := ReadSector(e.start + s);
        if !ok { return; }
        var c := if e.length - |out| > SECTOR_SIZE then SECTOR_SIZE else e.length - |out|;
        out := out + sec[..c];
        s := s + 1;
      }
      ok := true;
    }

    /** Up to `count` bytes from byte `cursor` of the file of `elen` bytes at `start`, as far as the disk goes. */
    method FsReadEntryRange(start: nat, elen: nat, cursor: nat, count: nat) returns (out: seq<byte>)
      requires Valid()
      modifies sec
      ensures var pos, n := start * 512 + cursor, Min(count, if cursor < elen then elen - cursor else 0);
              out == DiskBytes(disk, pos, Min(n, if pos < 512 * |disk| then 512 * |disk| - pos else 0))
      ensures start + Ceil(elen) <= |disk| ==>
                out == FileBytes(disk, start, elen)[Min(cursor, elen)..Min(cursor + count, elen)]
    {
      hide FileBytes, Part, DiskBytes;
      var remain := if cursor < elen then elen - cursor else 0;
      var n := if count < remain then count else remain;
      var pos, done := start * SECTOR_SIZE + cursor, 0;
      out := [];
      DiskBytesNone(disk, pos);
      while done < n
        invariant 0 <= done <= n && (done > 0 ==> pos + done <= 512 * |disk|)
        invariant out == DiskBytes(disk, pos, done)
      {
        var ok, part := ReadPart(pos + done, n - done);
        if !ok {
          EndsHere(disk, pos, done);
          break;
        }
        DiskBytesStep(disk, pos, done, part, n - done);
        out := out + part;
        done := done + |part|;
      }
      if start + Ceil(elen) <= |disk| { WholeRange(disk, start, elen, cursor, n); }
    }

    /** From a byte of the disk, as much as its sector holds and is still wanted. */
    method ReadPart(pos: nat, want: nat) returns (ok: bool, part: seq<byte>)
      requires Valid() && want > 0
      modifies sec
      ensures ok <==> pos / 512 < |disk|
      ensures ok ==> part == Part(disk, pos, want) && 0 < |part| <= want
    {
      part := [];
      ok := ReadSector(pos / SECTOR_SIZE);
      if ok {
        var soff := pos % SECTOR_SIZE;
        var c := SECTOR_SIZE - soff;
        if c > want { c := want; }
        part := sec[..][soff..soff + c];
      }
    }

    /** One record of the fixed record file, by its start sector. */
    method FsRecordRead(start: nat, max: nat) returns (ok: bool, out: seq<byte>)
      requires Valid()
      modifies sec
      ensures ReadAt(disk, start, max) == if ok then Record(out) else NoRecord
    {
      out := [];
      ok := ReadSector(start);
      if !ok { return; }
      var n := U32At(disk[start], 4);
      assert U32At(sec[..], 0) == U32At(disk[start], 0) && U32At(sec[..], 4) == n;
      if U32At(sec[..], 0) != RECK_MAGIC || U32At(sec[..], 4) > max { return false, []; }
      var room := SECTOR_SIZE - HEADER_SIZE;
      var c := if n < room then n else room;
      out := sec[HEADER_SIZE..HEADER_SIZE + c];
      var s := 1;
      while |out| < n
        invariant |out| <= n && start + s <= |disk| && s >= 1
        invariant (|out| < n ==> HEADER_SIZE + |out| == 512 * s) && (|out| == n ==> s == Ceil(HEADER_SIZE + n))
        invariant forall k :: HEADER_SIZE <= k < HEADER_SIZE + |out| ==>
                    k / 512 < s && out[k - HEADER_SIZE] == disk[start + k / 512][k % 512]
      {
        ok := ReadSector(start + s);
        if !ok { return; }
        c := if n - |out| > SECTOR_SIZE then SECTOR_SIZE else n - |out|;
        out := out + sec[..c];
        s := s + 1;
      }
      assert out == FileBytes(disk, start, HEADER_SIZE + n)[HEADER_SIZE..];
      ok := true;
    }

    /** The walk over the record log, span by span, for the first row with this prefix. */
    method FindRow(prefix: seq<byte>, ghost log: seq<Payload>) returns (r: Read)
      requires Valid() && HoldsRows(View(), log)
      modifies sec
      ensures r == FirstRow(log, prefix, 0, 4096)
    {
      hide FileBytes, FieldName, Synced, Find, LogBytes;
      var i := FsFind(RECORD_NAME);
      var base := dir[i].start;
      var end := base + dir[i].length / SECTOR_SIZE;
      var sec', guard := base, 0;
      ghost var k := 0;
      RowsStart(log);
      RowsOnDisk(View(), log);
      while sec' < end && guard < 4096
        invariant 0 <= k <= |log| && guard == k && sec' == base + RecordOffset(log, k)
        invariant FirstRow(log, prefix, 0, 4096) == FirstRow(log, prefix, k, 4096 - k)
        decreases 4096 - guard
      {
        RowsEnd(log, k);
        var ok, buf := FsRecordRead(sec', 256);
        RecordReadsBack(disk, base, log, k, 256);
        if !ok { return NoRecord; }
        if |buf| >= |prefix| + 64 && buf[..|prefix|] == prefix {
          return Record(buf[|prefix|..|prefix| + 64]);
        }
        LogPrefix(log, k);
        sec' := sec' + (HEADER_SIZE + |buf| + SECTOR_SIZE - 1) / SECTOR_SIZE;
        guard := guard + 1;
        k := k + 1;
      }
      RowsEnd(log, k);
      return NoRecord;
    }
  }

  /** The directory is where and as large as the builder makes it. */
  predicate UsualGeometry(s: Super) { s.dirStart == DIR_START && s.dirSectors == DIR_SECTORS }

  /** What fs_mount accepts: the magic, the version, and a directory no larger than its buffer and all on the device. */
  predicate MountOk(d: Disk) {
    && |d| > 0
    && var s := DecodeSuper(d[0]);
       && s.magic == MAGIC && s.version == VERSION && s.dirSectors <= DIR_SECTORS
       && (s.dirSectors > 0 ==> s.dirStart + s.dirSectors <= |d|)
  }

  /** The name an act has just given slot i, or found there, is found there again. */
  lemma FoundAgain(v: Vol, dir': seq<Entry>, i: nat, id: CString)
    requires Usable(v) && i < |v.dir| == |dir'| && dir' == v.dir[i := dir'[i]] && Holds(dir'[i], id)
    requires if Find(v.dir, id) < |v.dir| then i == Find(v.dir, id) else true
    ensures Find(dir', id) == i
  {
    hide FieldName;
    forall l | 0 <= l < |dir'| && l != i ensures !Holds(dir'[l], id) {
      assert dir'[l] == v.dir[l];
    }
  }

  lemma SlotPlaced(v: Vol, i: nat)
    requires Usable(v) && i < |v.dir| && v.dir[i].present != 0
    ensures Placed(v.sup, v.dir[i])
  {
    hide FieldName;
  }

  lemma AdoptedGrowable(v: Vol, i: nat)
    requires Usable(v) && i < |v.dir| && v.dir[i].present != 0 && v.dir[i].kind == FT_DURABLE
    ensures Growable(After(v, Adopted(v, i)), i)
  {
    hide FieldName, DirSector, Apply;
    assert Placed(v.sup, v.dir[i]);
  }

  /** The record file is present and holds exactly this log. */
  ghost predicate HoldsRows(v: Vol, log: seq<Payload>) {
    var i := Find(v.dir, RECORD_NAME);
    i < |v.dir| && Carries(v.disk, v.dir[i], v.dir[i].start, log)
  }

  lemma RowsOnDisk(v: Vol, log: seq<Payload>)
    requires HoldsRows(v, log)
    ensures var i := Find(v.dir, RECORD_NAME);
            && i < |v.dir| && v.dir[i].length == |LogBytes(log)|
            && v.dir[i].start + Ceil(|LogBytes(log)|) <= |v.disk|
            && FileBytes(v.disk, v.dir[i].start, |LogBytes(log)|) == LogBytes(log)
  {
    hide FieldName, LogBytes;
  }

  lemma RowsStart(log: seq<Payload>)
    ensures RecordOffset(log, 0) == 0
  {
  }

  /** The walk stands inside the file exactly when there is a record left. */
  lemma RowsEnd(log: seq<Payload>, k: nat)
    requires k <= |log|
    ensures RecordOffset(log, k) < |LogBytes(log)| / 512 <==> k < |log|
  {
    LogPrefix(log, k);
    if k < |log| {
      LogPrefix(log, k + 1);
      SpanFits(|log[k]|);
    } else {
      assert log[..k] == log;
    }
  }

  /** Where the file is wholly on the device, the bytes copied are its slice. */
  lemma WholeRange(d: Disk, start: nat, elen: nat, cursor: nat, n: nat)
    requires start + Ceil(elen) <= |d| && n <= if cursor < elen then elen - cursor else 0
    ensures n > 0 ==> start * 512 + cursor + n <= 512 * |d|
    ensures DiskBytes(d, start * 512 + cursor, n) == FileBytes(d, start, elen)[Min(cursor, elen)..Min(cursor, elen) + n]
  {
    var pos, all := start * 512 + cursor, FileBytes(d, start, elen);
    var got := DiskBytes(d, pos, n);
    forall i | 0 <= i < n ensures got[i] == all[cursor + i] {
      var q, m := (cursor + i) / 512, (cursor + i) % 512;
      DivMod(start + q, m);
      assert pos + i == 512 * (start + q) + m;
    }
  }

  lemma LengthDiffers(d: Disk, e: Entry, p: seq<byte>)
    ensures e.length != |p| ==> !ContentEq(d, e, p)
  {
  }

  lemma MismatchAt(d: Disk, start: nat, p: seq<byte>, s: nat, c: nat)
    requires start + s < |d| && 512 * s + c <= |p| && c <= 512 && d[start + s][..c] != p[512 * s..512 * s + c]
    ensures start + Ceil(|p|) <= |d| ==> FileBytes(d, start, |p|) != p
  {
    if start + Ceil(|p|) <= |d| {
      var b, sec := FileBytes(d, start, |p|), d[start + s];
      forall j | 0 <= j < c ensures sec[j] == b[512 * s + j] {
        assert (512 * s + j) / 512 == s && (512 * s + j) % 512 == j;
      }
      assert sec[..c] == b[512 * s..512 * s + c];
    }
  }

  lemma KeepsName(v: Vol, i: nat, p: seq<byte>)
    requires Growable(v, i) && SizeOk(v.sup, |p|)
    ensures var dir' := Extend(v, i, p).dir;
            && |dir'| == |v.dir| && dir' == v.dir[i := dir'[i]]
            && dir'[i].name == v.dir[i].name && dir'[i].present == v.dir[i].present
    ensures Extend(v, i, p).out == Done || Extend(v, i, p).out == NoSpace
  {
    hide DataWrites, DirSector, EncodeSuper;
  }

  /** An append, phase by phase. */
  lemma ExtendParts(v: Vol, i: nat, p: seq<byte>)
    requires Growable(v, i) && SizeOk(v.sup, |p|)
    ensures var g := Grow(v, i, Ceil(v.dir[i].length + |p|));
            g.ok ==> g.e.start + Ceil(v.dir[i].length + |p|) <= |v.disk| && g.sup.dirStart == v.sup.dirStart
    ensures var n := v.dir[i].length;
            var g, ef := Grow(v, i, Ceil(n + |p|)), Extend(v, i, p);
            if !g.ok then g.writes == [] && g.sup == v.sup && g.e == v.dir[i] && ef == Nothing(v, NoSpace)
                          && Apply(v.disk, []) == v.disk
            else
              var d := Apply(v.disk, g.writes);
              var data := Burst(g.e.start + n / 512, TailSectors(d, g.e.start, n, p));
              var last := PersistEntry(g.sup, ef.dir, i);
              && ef == Effect(Done, g.writes + data + [last], g.sup, v.dir[i := g.e.(length := n + |p|)])
              && Apply(v.disk, ef.writes) == Put(Apply(d, data), last)
  {
    hide EncodeSuper, DirSector, TailSectors, Apply, Burst, Grow, FieldName;
    var n := v.dir[i].length;
    var g := Grow(v, i, Ceil(n + |p|));
    NoWrites(v.disk);
    GrowFails(v, i, Ceil(n + |p|));
    if g.ok {
      GrowReserves(v, i, Ceil(n + |p|));
      ApplyConcat(v.disk, g.writes, DataWrites(v, i, p, g));
      LastApply(v.disk, g.writes + DataWrites(v, i, p, g), PersistEntry(g.sup, Extend(v, i, p).dir, i));
    }
  }

  lemma GrowFails(v: Vol, i: nat, need: nat)
    requires Growable(v, i)
    ensures Grow(v, i, need).ok || Grow(v, i, need) == Growth(false, [], v.sup, v.dir[i])
  {
  }

  /** The first j of these sectors have been written in order from `lo`, and nothing else. */
  ghost predicate Wrote(d: Disk, t: seq<Write>, lo: nat, secs: seq<Sector>, j: nat, d': Disk, t': seq<Write>) {
    && j <= |secs| && lo + |secs| <= |d|
    && d' == Blit(d, lo, secs[..j]) && t' == t + Burst(lo, secs[..j])
  }

  lemma WroteNone(d: Disk, t: seq<Write>, lo: nat, secs: seq<Sector>)
    requires lo + |secs| <= |d|
    ensures Wrote(d, t, lo, secs, 0, d, t)
  {
  }

  lemma WroteStep(d: Disk, t: seq<Write>, lo: nat, secs: seq<Sector>, j: nat, d': Disk, t': seq<Write>)
    requires Wrote(d, t, lo, secs, j, d', t') && j < |secs|
    ensures var w := Write(lo + j, secs[j]); lo + j < |d'| && Wrote(d, t, lo, secs, j + 1, Put(d', w), t' + [w])
  {
    assert Burst(lo, secs[..j + 1]) == Burst(lo, secs[..j]) + [Write(lo + j, secs[j])];
  }

  lemma WroteKeeps(d: Disk, t: seq<Write>, lo: nat, secs: seq<Sector>, j: nat, d': Disk, t': seq<Write>, s: nat)
    requires Wrote(d, t, lo, secs, j, d', t') && s < lo
    ensures |d'| == |d| && d'[s] == d[s]
  {
  }

  lemma WroteAll(d: Disk, t: seq<Write>, lo: nat, secs: seq<Sector>, d': Disk, t': seq<Write>)
    requires Wrote(d, t, lo, secs, |secs|, d', t')
    ensures d' == Apply(d, Burst(lo, secs)) && t' == t + Burst(lo, secs)
  {
    assert secs[..|secs|] == secs;
    ApplyBurst(d, lo, secs);
  }

  /** The j-th sector of an append, as the loop assembles it in the buffer. */
  lemma TailStep(d: Disk, start: nat, at: nat, p: seq<byte>, written: nat, j: nat, buf: seq<byte>)
    requires start + Ceil(at + |p|) <= |d| && written < |p| && |buf| == 512
    requires (at + written) / 512 == at / 512 + j && (if j > 0 then (at + written) % 512 == 0 else written == 0)
    requires var within := (at + written) % 512;
             var chunk := if |p| - written < 512 - within then |p| - written else 512 - within;
             forall b :: 0 <= b < 512 ==>
               buf[b] == (if within <= b < within + chunk then p[written + b - within]
                          else if within != 0 then d[start + (at + written) / 512][b] else 0)
    ensures j < |TailSectors(d, start, at, p)| && buf == TailSectors(d, start, at, p)[j]
    ensures var within := (at + written) % 512;
            var next := written + if |p| - written < 512 - within then |p| - written else 512 - within;
            && (next < |p| ==> (at + next) / 512 == at / 512 + j + 1 && (at + next) % 512 == 0)
            && (next == |p| ==> j + 1 == |TailSectors(d, start, at, p)|)
  {
    var secs := TailSectors(d, start, at, p);
    assert secs[j] == TailSector(d, start, at, p, at / 512 + j);
  }

  lemma PackStep(image: seq<byte>, span: nat, s: nat, buf: seq<byte>)
    requires s < span && |buf| == 512
    requires forall j :: 0 <= j < 512 ==> buf[j] == if 512 * s + j < |image| then image[512 * s + j] else 0
    ensures buf == Pack(image, span)[s]
  {
    assert buf == PackSector(image, s);
  }
}
