/**
 * Crashes: the disk stops after any prefix of an act's sector writes and is mounted again.  Every prefix of
 * every act mounts to a sound volume, except one: between a new blob's name and the allocator's advance.
 */
module Crash {
  import opened Bytes
  import opened DiskLayout
  import opened Volume
  import opened Acts
  import opened AppendLaws
  import opened FileMap
  import opened FsLaws

  /** The name's entry is on the disk, not in memory only. */
  predicate OnDisk(v: Vol, k: CString)
    requires Geometry(v)
  {
    Find(v.dir, k) < |v.dir| && DiskEntry(v.disk, Find(v.dir, k)).present != 0
  }

  /** The files whose entries are on the disk. */
  ghost function Persisted(v: Vol): Files
    requires Good(v)
  {
    imap k: CString | k in Abs(v) && OnDisk(v, k) :: Abs(v)[k]
  }

  /** m' has the names v's disk has, and what they stand for but for one name. */
  ghost predicate OthersPersisted(v: Vol, m': Files, key: CString)
    requires Good(v)
  {
    && (forall k: CString :: k in m' <==> k in Persisted(v))
    && (forall k: CString :: k in m' && k != key ==> m'[k] == Abs(v)[k])
  }

  /** Mounting a sound volume's disk gives a sound volume with exactly the files whose entries are on it. */
  lemma MountLaw(v: Vol)
    requires Sound(v)
    ensures Sound(Mounted(v.disk)) && Mounted(v.disk).sup == v.sup && Abs(Mounted(v.disk)) == Persisted(v)
  {
    hide EncodeSuper, DecodeSuper, EncodeEntry, DecodeEntry, FieldName, Abs, OnDisk;
    var w := Mounted(v.disk);
    SuperRoundTrip(v.sup, v.disk[0]);
    forall j | 0 <= j < MAX_ENTRIES
      ensures w.dir[j] == v.dir[j] || (Phantom(v.dir[j]) && w.dir[j].present == 0)
    {
      assert SyncedAt(v.disk, v.dir, j);
    }
    MountGood(v, w);
    forall j | 0 <= j < MAX_ENTRIES ensures SyncedAt(w.disk, w.dir, j) {}
    forall k: CString ensures k in Abs(w) <==> k in Persisted(v) {
      MountName(v, w, k);
    }
    forall k: CString | k in Abs(w) ensures Abs(w)[k] == Persisted(v)[k] {
      MountName(v, w, k);
    }
  }

  /** w lists v's present entries but for phantoms. */
  ghost predicate Fewer(v: Vol, w: Vol) {
    && w.disk == v.disk && w.sup == v.sup && |w.dir| == |v.dir|
    && forall j :: 0 <= j < |v.dir| ==> w.dir[j] == v.dir[j] || (Phantom(v.dir[j]) && w.dir[j].present == 0)
  }

  lemma MountGood(v: Vol, w: Vol)
    requires Good(v) && Fewer(v, w)
    ensures Good(w)
  {
    hide FieldName;
  }

  lemma MountName(v: Vol, w: Vol, k: CString)
    requires Good(v) && Good(w) && Fewer(v, w) && w == Mounted(v.disk)
    ensures k in Abs(w) <==> k in Abs(v) && OnDisk(v, k)
    ensures k in Abs(w) ==> Abs(w)[k] == Abs(v)[k]
  {
    hide FieldName, Abs, DiskEntry;
    AbsAt(v, k); AbsAt(w, k);
    var i, j := Find(v.dir, k), Find(w.dir, k);
    if j < |w.dir| {
      FindUnique(v, j);
    } else if i < |v.dir| {
      assert !Holds(w.dir[i], k);
    }
  }

  /** What is not on the disk is an empty file that a create could not find room for. */
  lemma UnbornEmpty(v: Vol, k: CString)
    requires Sound(v) && k in Abs(v) && k !in Persisted(v)
    ensures Abs(v)[k] == File(FT_NREC, []) || Abs(v)[k] == File(FT_DURABLE, [])
  {
    hide FieldName, DecodeEntry;
    AbsAt(v, k);
    assert SyncedAt(v.disk, v.dir, Find(v.dir, k));
  }

  /** What a crash leaves, given any sound volume whose disk it is. */
  lemma MountAs(u: Vol, d: Disk)
    requires Sound(u) && u.disk == d
    ensures Sound(Mounted(d)) && Abs(Mounted(d)) == Persisted(u)
  {
    MountLaw(u);
  }

  /** Data on the disk that no entry names yet changes no file. */
  lemma MountSame(v: Vol, d: Disk, sup': Super)
    requires Sound(v) && |d| == |v.disk| && SameFiles(v, d)
    requires sup' == v.sup.(nextFree := sup'.nextFree) && v.sup.nextFree <= sup'.nextFree <= v.sup.totalSectors
    requires d[0] == v.disk[0] || d[0] == EncodeSuper(sup')
    ensures Sound(Mounted(d)) && Abs(Mounted(d)) == Persisted(v)
  {
    hide EncodeSuper, SyncedAt, SameFiles, Abs, Persisted;
    var sup2 := if d[0] == EncodeSuper(sup') then sup' else v.sup;
    SameFilesLaw(v, d, sup2);
    var u := Vol(d, sup2, v.dir);
    MountAs(u, d);
    SamePersisted(v, u);
  }

  lemma SamePersisted(v: Vol, u: Vol)
    requires Good(v) && Good(u) && u.dir == v.dir && Abs(u) == Abs(v) && SameFiles(v, u.disk)
    ensures Persisted(u) == Persisted(v)
  {
    hide Abs, DecodeEntry;
    forall k: CString ensures OnDisk(u, k) <==> OnDisk(v, k) {}
  }

  function CrashDisk(v: Vol, ef: Effect, k: nat): (d: Disk)
    requires k <= |ef.writes|
    ensures |d| == |v.disk|
  {
    Apply(v.disk, ef.writes[..k])
  }

  // ---- appends --------------------------------------------------------------------------------------

  lemma ExtendCrash(v: Vol, i: nat, p: seq<byte>, k: nat)
    requires Sound(v) && Growable(v, i) && v.dir[i].present != 0 && SizeOk(v.sup, |p|)
    requires k < |Extend(v, i, p).writes|
    ensures var d := CrashDisk(v, Extend(v, i, p), k);
            SameFiles(v, d) && (d[0] == v.disk[0] || d[0] == EncodeSuper(Extend(v, i, p).sup))
    ensures var sup' := Extend(v, i, p).sup;
            sup' == v.sup.(nextFree := sup'.nextFree) && v.sup.nextFree <= sup'.nextFree <= v.sup.totalSectors
  {
    hide EncodeSuper, FieldName, Extend, Synced, SameFiles, Appended;
    ExtendHidden(v, i, p, k);
    HiddenSame(v, i, Extend(v, i, p).sup, CrashDisk(v, Extend(v, i, p), k));
    ExtendDone(v, i, p);
    ExtendRelinks(v, i, p);
  }

  lemma ExtendDone(v: Vol, i: nat, p: seq<byte>)
    requires Growable(v, i) && SizeOk(v.sup, |p|) && Extend(v, i, p).writes != []
    ensures Extend(v, i, p).out == Done
  {
    hide DataWrites, DirSector, EncodeSuper;
  }

  /** A crash inside an append: the file keeps its old bytes, every other file is untouched. */
  lemma AppendCrash(v: Vol, i: nat, p: seq<byte>, k: nat)
    requires Sound(v) && Growable(v, i) && v.dir[i].present != 0 && SizeOk(v.sup, |p|)
    requires k < |Extend(v, i, p).writes|
    ensures var w := Mounted(CrashDisk(v, Extend(v, i, p), k)); Sound(w) && Abs(w) == Persisted(v)
  {
    hide EncodeSuper, Extend, Synced, SameFiles, Persisted, Abs, CrashDisk;
    ExtendCrash(v, i, p, k);
    MountSame(v, CrashDisk(v, Extend(v, i, p), k), Extend(v, i, p).sup);
  }

  /** The same where the append creates the file: before the last write it does not exist. */
  lemma CreateCrash(v: Vol, id: CString, kind: u32, p: seq<byte>, k: nat)
    requires Sound(v) && |id| <= NAME_MAX && Find(v.dir, id) == |v.dir| && FindFree(v.dir) < |v.dir|
    requires Grows(kind) && kind != FT_RECORD && SizeOk(v.sup, |p|)
    requires Growable(Opened(v, FindFree(v.dir), id, kind), FindFree(v.dir))
    requires k < |Extend(Opened(v, FindFree(v.dir), id, kind), FindFree(v.dir), p).writes|
    ensures var f := FindFree(v.dir);
            var w := Mounted(CrashDisk(v, Extend(Opened(v, f, id, kind), f, p), k));
            Sound(w) && Abs(w) == Persisted(v)
  {
    hide EncodeSuper, Extend, Synced, Persisted, Abs, FieldName, Find, Created;
    var f := FindFree(v.dir);
    var o := Opened(v, f, id, kind);
    OpenedLaw(v, f, id, kind);
    ExtendCrash(o, f, p, k);
    var d := CrashDisk(v, Extend(o, f, p), k);
    FewerSame(v, o, f, d);
    MountSame(v, d, Extend(o, f, p).sup);
  }

  lemma FewerSame(v: Vol, o: Vol, f: nat, d: Disk)
    requires Good(v) && Good(o) && f < |v.dir| && v.dir[f].present == 0
    requires |o.dir| == |v.dir| && o.dir == v.dir[f := o.dir[f]] && o.disk == v.disk && SameFiles(o, d)
    ensures SameFiles(v, d)
  {
    hide FieldName, FileOf;
    forall j | 0 <= j < |v.dir| && v.dir[j].present != 0
      ensures Inside(d, v.dir[j]) && FileOf(d, v.dir[j]) == FileOf(v.disk, v.dir[j])
    {
      assert o.dir[j] == v.dir[j];
    }
  }

  /** The act turns an empty staging file into a caller-named record before it appends. */
  predicate Adopts(v: Vol, op: Op) {
    op.OpNrecAppend? && |op.id| <= NAME_MAX && Find(v.dir, op.id) < |v.dir|
    && v.dir[Find(v.dir, op.id)].kind == FT_DURABLE && v.dir[Find(v.dir, op.id)].length == 0
  }

  /** What a crash after k of an act's writes leaves: what the disk had of the files before the act, of the
      files after it, or, if it adopts, of the files with the one changed class. */
  ghost predicate Atomic(v: Vol, op: Op, k: nat)
    requires Good(v) && OpFits(v.sup, op) && k <= |Perform(v, op).writes|
  {
    var ef := Perform(v, op);
    var w := Mounted(CrashDisk(v, ef, k));
    && Sound(w)
    && Good(After(v, ef))
    && (if k == |ef.writes| then Abs(w) == Persisted(After(v, ef))
        else if 0 < k && Adopts(v, op) then
          Good(AdoptedVol(v, op)) && Abs(AdoptedVol(v, op)) == Next(Abs(v), op, NoSpace)
          && Abs(w) == Persisted(AdoptedVol(v, op))
        else Abs(w) == Persisted(v))
  }

  /** The volume between an adoption and the append it is for. */
  function AdoptedVol(v: Vol, op: Op): Vol
    requires Geometry(v) && Adopts(v, op)
  {
    After(v, Adopted(v, Find(v.dir, op.id)))
  }

  lemma CompleteCrash(v: Vol, op: Op)
    requires Sound(v) && OpFits(v.sup, op)
    ensures Atomic(v, op, |Perform(v, op).writes|)
  {
    hide Perform, Persisted, Abs, Synced, Next, Refuses;
    ActLaw(v, op);
    var ws := Perform(v, op).writes;
    assert ws[..|ws|] == ws;
    MountLaw(After(v, Perform(v, op)));
  }

  lemma NoCrash(v: Vol)
    requires Sound(v)
    ensures var w := Mounted(Apply(v.disk, [])); Sound(w) && Abs(w) == Persisted(v)
  {
    MountLaw(v);
  }

  /** An act of one sector write is done or not begun. */
  lemma SingleCrash(v: Vol, op: Op, k: nat)
    requires Sound(v) && OpFits(v.sup, op) && k < |Perform(v, op).writes| == 1
    ensures Atomic(v, op, k)
  {
    hide Perform, Persisted, Abs, Synced, Next, Refuses;
    ActLaw(v, op);
    assert Perform(v, op).writes[..0] == [];
    NoCrash(v);
  }

  lemma DurableCrash(v: Vol, op: Op, k: nat)
    requires Sound(v) && op.OpDurableWrite? && OpFits(v.sup, op) && k < |Perform(v, op).writes|
    ensures Atomic(v, op, k)
  {
    hide Extend, Opened, Abs, Find, FindFree, FieldName, Persisted, Synced, Mounted, Next, Refuses;
    ActLaw(v, op);
    var i := Find(v.dir, op.id);
    if i == |v.dir| {
      CreateAppendLaw(v, op.id, FT_DURABLE, op.p);
      OpenedShape(v, FindFree(v.dir), op.id, FT_DURABLE);
      CreateCrash(v, op.id, FT_DURABLE, op.p, k);
    } else {
      AppendCrash(v, i, op.p, k);
    }
  }

  lemma NrecCrash(v: Vol, op: Op, k: nat)
    requires Sound(v) && op.OpNrecAppend? && OpFits(v.sup, op) && k < |Perform(v, op).writes|
    ensures Atomic(v, op, k)
  {
    hide Extend, Opened, Abs, Find, FindFree, FieldName, Persisted, Synced, Mounted, Next, Refuses, Adopted;
    ActLaw(v, op);
    var i := Find(v.dir, op.id);
    if i == |v.dir| {
      CreateAppendLaw(v, op.id, FT_NREC, op.p);
      OpenedShape(v, FindFree(v.dir), op.id, FT_NREC);
      CreateCrash(v, op.id, FT_NREC, op.p, k);
    } else if v.dir[i].kind == FT_DURABLE && v.dir[i].length == 0 {
      AdoptCrash(v, op, i, k);
    } else {
      AppendCrash(v, i, op.p, k);
    }
  }

  /** Adoption is a write of its own: after it the file is still empty, and of its new class. */
  lemma AdoptCrash(v: Vol, op: Op, i: nat, k: nat)
    requires Sound(v) && op.OpNrecAppend? && OpFits(v.sup, op) && k < |Perform(v, op).writes|
    requires i == Find(v.dir, op.id) < |v.dir| && v.dir[i].kind == FT_DURABLE && v.dir[i].length == 0
    ensures Atomic(v, op, k)
  {
    hide Extend, Abs, Find, FieldName, Persisted, Synced, Mounted, Next, Refuses, Apply, DirSector;
    ActLaw(v, op);
    AdoptedLaw(v, i);
    AdoptedShape(v, i);
    var a := Adopted(v, i);
    var v1 := After(v, a);
    var ef := Extend(v1, i, op.p);
    var ws := Perform(v, op).writes;
    if k == 0 {
      assert ws[..0] == [];
      NoCrash(v);
    } else {
      assert ws[..k] == a.writes + ef.writes[..k - 1];
      ApplyConcat(v.disk, a.writes, ef.writes[..k - 1]);
      AdoptNext(v, op, i);
      if k - 1 < |ef.writes| {
        AppendCrash(v1, i, op.p, k - 1);
      }
    }
  }

  lemma AdoptNext(v: Vol, op: Op, i: nat)
    requires Good(v) && op.OpNrecAppend? && i == Find(v.dir, op.id) < |v.dir|
    requires v.dir[i].kind == FT_DURABLE && v.dir[i].length == 0
    ensures Next(Abs(v), op, NoSpace) == Abs(v)[op.id := File(FT_NREC, [])]
  {
    AbsAt(v, op.id);
  }

  lemma RecordCrash(v: Vol, op: Op, k: nat)
    requires Sound(v) && op.OpRecordWriteAt? && OpFits(v.sup, op) && k < |Perform(v, op).writes|
    ensures Atomic(v, op, k)
  {
    hide EncodeSuper, EncodeEntry, DecodeEntry, DirSector, Find, FieldName, Abs, Apply, RecordImage, Pack,
         Persisted, Synced, Mounted, Next, Refuses;
    ActLaw(v, op);
    var i, off, span := Find(v.dir, RECORD_NAME), op.off, RecordSpan(|op.p|);
    var secs := Pack(RecordImage(off / 512, op.p), span);
    var data := Burst(v.dir[i].start + off / 512, secs);
    assert Perform(v, op).writes[..k] == data[..k];
    RecordUnrevealing(v, i, secs);
    HiddenAfter(v, i, v.sup, data[..k]);
    HiddenSame(v, i, v.sup, Apply(v.disk, data[..k]));
    MountSame(v, Apply(v.disk, data[..k]), v.sup);
  }

  predicate IsAtomicOp(op: Op) {
    !op.OpSwapRename? && !op.OpBlobWriteOnce? && !op.OpMarkerWrite?
  }

  /** Crash atomicity: a crash after any prefix of an append, a record write, a rename, a removal or a mkdir
      mounts to a sound volume holding the old files or the new ones, and nothing in between. */
  lemma CrashAtomic(v: Vol, op: Op, k: nat)
    requires Sound(v) && OpFits(v.sup, op) && IsAtomicOp(op) && k <= |Perform(v, op).writes|
    ensures Atomic(v, op, k)
  {
    hide Persisted, Abs, Synced, Mounted, Next, Refuses, Extend, DirSector;
    if k == |Perform(v, op).writes| {
      CompleteCrash(v, op);
    } else {
      match op
      case OpRecordWriteAt(_, _) => RecordCrash(v, op, k);
      case OpNrecAppend(_, _) => NrecCrash(v, op, k);
      case OpDurableWrite(_, _) => DurableCrash(v, op, k);
      case OpRemove(_) => SingleCrash(v, op, k);
      case OpRename(_, _) => SingleCrash(v, op, k);
      case OpMkdir(_) => SingleCrash(v, op, k);
    }
  }

  // ---- the swap -----------------------------------------------------------------------------------------

  /** A swap that replaces a present final file under another name. */
  ghost predicate Swaps(v: Vol, source: CString, target: CString)
    requires Good(v)
  {
    && Key(source) != target && Key(source) in Abs(v) && target in Abs(v)
    && !Refuses(Abs(v), OpSwapRename(source, target))
  }

  lemma SwapNames(v: Vol, source: CString, target: CString)
    requires Good(v) && Swaps(v, source, target)
    ensures Find(v.dir, Key(source)) < |v.dir| && Find(v.dir, target) < |v.dir| && |target| <= NAME_MAX
    ensures Find(v.dir, Key(source)) != Find(v.dir, target)
    ensures v.dir[Find(v.dir, Key(source))].kind == FT_DURABLE && v.dir[Find(v.dir, target)].kind != FT_RECORD
    ensures |SwapRename(v, source, target).writes| == 2
  {
    hide FieldName, Abs, FileOf, Good, Find, Key;
    AbsAt(v, Key(source)); AbsAt(v, target);
    FoundFile(v, Key(source)); FoundFile(v, target);
  }

  /** The volume between a swap's two writes: the old final's slot is cleared. */
  function HalfSwapped(v: Vol, target: CString): Vol
    requires Geometry(v) && Find(v.dir, target) < |v.dir|
  {
    var j := Find(v.dir, target);
    Relabeled(v, j, v.dir[j].(present := 0))
  }

  /** A swap of two writes cut between them: the old final is gone. */
  lemma SwapSecond(v: Vol, source: CString, target: CString)
    requires Sound(v) && |SwapRename(v, source, target).writes| > 1
    ensures |SwapRename(v, source, target).writes| == 2
    ensures Find(v.dir, target) < |v.dir| && v.dir[Find(v.dir, target)].kind != FT_RECORD
    ensures var u, w := HalfSwapped(v, target), Mounted(CrashDisk(v, SwapRename(v, source, target), 1));
            Good(u) && Abs(u) == Without(Abs(v), target) && Sound(w) && Abs(w) == Persisted(u)
  {
    hide Abs, Synced, Mounted, DirSector, FieldName, FileOf, NameField, Find, Persisted;
    var ws, j := SwapRename(v, source, target).writes, Find(v.dir, target);
    assert ws[..1] == [ws[0]];
    RelabelLaw(v, j, v.dir[j].(present := 0));
    MountLaw(HalfSwapped(v, target));
  }

  /** The swap's own law under crashes: between the two writes the old final is gone and the new one not yet
      named; everything else is there before, between and after. */
  lemma SwapCrash(v: Vol, source: CString, target: CString, k: nat)
    requires Sound(v) && Swaps(v, source, target) && k <= |SwapRename(v, source, target).writes|
    ensures |SwapRename(v, source, target).writes| == 2 && Find(v.dir, target) < |v.dir|
    ensures Good(HalfSwapped(v, target)) && Abs(HalfSwapped(v, target)) == Without(Abs(v), target)
    ensures var a := After(v, SwapRename(v, source, target));
            Good(a) && Abs(a) == Without(Abs(v), Key(source))[target := Abs(v)[Key(source)]]
    ensures var w := Mounted(CrashDisk(v, SwapRename(v, source, target), k));
            && Sound(w)
            && Abs(w) == if k == 0 then Persisted(v)
                         else if k == 1 then Persisted(HalfSwapped(v, target))
                         else Persisted(After(v, SwapRename(v, source, target)))
  {
    hide Find, FieldName, Abs, Persisted, Synced, SwapRename, HalfSwapped, FileOf, Without, Mounted, Geometry;
    SwapNames(v, source, target);
    SwapSecond(v, source, target);
    SwapWhole(v, source, target);
    if k == 0 {
      assert SwapRename(v, source, target).writes[..0] == [];
      NoCrash(v);
    }
  }

  lemma SwapWhole(v: Vol, source: CString, target: CString)
    requires Sound(v) && Swaps(v, source, target)
    ensures var a := After(v, SwapRename(v, source, target));
            && Good(a) && Abs(a) == Without(Abs(v), Key(source))[target := Abs(v)[Key(source)]]
            && var w := Mounted(CrashDisk(v, SwapRename(v, source, target), |SwapRename(v, source, target).writes|));
               Sound(w) && Abs(w) == Persisted(a)
  {
    hide Find, FieldName, Abs, Persisted, Synced, SwapRename, FileOf, Without, Mounted, Geometry;
    var op := OpSwapRename(source, target);
    SwapNames(v, source, target);
    SwapWrites(v, source, target);
    ActLaw(v, op);
    CompleteCrash(v, op);
  }

  /** A crash anywhere in a swap keeps staged bytes whose entry is on the disk, under one of the two names, and
      keeps them whatever the entry once both writes are down; after the first write the old final is gone. */
  lemma SwapKeepsStaged(v: Vol, source: CString, target: CString, k: nat)
    requires Sound(v) && Swaps(v, source, target) && k <= |SwapRename(v, source, target).writes|
    requires OnDisk(v, Key(source)) || k == 2
    ensures Sound(Mounted(CrashDisk(v, SwapRename(v, source, target), k)))
    ensures var m, f := Abs(Mounted(CrashDisk(v, SwapRename(v, source, target), k))), Abs(v)[Key(source)];
            && (if k < 2 then Key(source) in m && m[Key(source)] == f else target in m && m[target] == f)
            && (k == 1 ==> target !in m)
  {
    hide Abs, Synced, Mounted, SwapRename, Find, OnDisk;
    SwapCrash(v, source, target, k);
    if k == 1 {
      HalfSwapKeeps(v, source, target);
    } else if k == 2 {
      SwapPersists(v, source, target);
    }
  }

  lemma HalfSwapKeeps(v: Vol, source: CString, target: CString)
    requires Sound(v) && Swaps(v, source, target) && OnDisk(v, Key(source)) && Find(v.dir, target) < |v.dir|
    requires Good(HalfSwapped(v, target))
    ensures OnDisk(HalfSwapped(v, target), Key(source))
  {
    hide Abs, DirSector, FieldName, Find, Synced, DecodeEntry;
    SwapNames(v, source, target);
    var i, j := Find(v.dir, Key(source)), Find(v.dir, target);
    var u := HalfSwapped(v, target);
    SingleWrite(v.disk, PersistEntry(v.sup, u.dir, j));
    PersistLaw(v.disk, v.sup, u.dir, j, i);
    FindUnique(u, i);
  }

  lemma SwapPersists(v: Vol, source: CString, target: CString)
    requires Sound(v) && Swaps(v, source, target)
    requires Good(After(v, SwapRename(v, source, target)))
    ensures OnDisk(After(v, SwapRename(v, source, target)), target)
  {
    hide Abs, DirSector, FieldName, Find, Synced, DecodeEntry, NameField, SwapRename;
    SwapNames(v, source, target);
    var i, j := Find(v.dir, Key(source)), Find(v.dir, target);
    SwapWrites(v, source, target);
    var (u, a) := Swapped(v, i, j, target);
    SingleWrite(u.disk, PersistEntry(u.sup, a.dir, i));
    PersistLaw(u.disk, u.sup, a.dir, i, i);
    FindUnique(a, i);
  }

  // ---- blobs and markers ----------------------------------------------------------------------------------

  /** A new blob's writes: data, the entry, the superblock. */
  lemma BlobPrefix(v: Vol, f: nat, id: CString, p: seq<byte>, k: nat)
    requires Sound(v) && SizeOk(v.sup, |p|) && |id| <= NAME_MAX
    requires Find(v.dir, id) == |v.dir| && f < |v.dir| && v.dir[f].present == 0 && CreateBlob(v, f, id, p).out == Done
    requires k <= BlobSpan(|p|)
    ensures |CreateBlob(v, f, id, p).writes| == BlobSpan(|p|) + 2
    ensures var w := Mounted(CrashDisk(v, CreateBlob(v, f, id, p), k)); Sound(w) && Abs(w) == Persisted(v)
  {
    hide EncodeSuper, DirSector, Find, FieldName, Abs, Apply, Created, Pack, Persisted, SyncedAt, SameFiles;
    var span := BlobSpan(|p|);
    var secs := Pack(p, span);
    var data := Burst(v.sup.nextFree, secs);
    assert CreateBlob(v, f, id, p).writes[..k] == data[..k] == Burst(v.sup.nextFree, secs[..k]);
    ApplyBurst(v.disk, v.sup.nextFree, secs[..k]);
    var d := Blit(v.disk, v.sup.nextFree, secs[..k]);
    FreshSame(v, d);
    MountSame(v, d, v.sup);
  }

  /** One write before the end the name is on disk and the allocator is not: the extent is unallocated. */
  lemma BlobStale(v: Vol, f: nat, id: CString, p: seq<byte>)
    requires Sound(v) && SizeOk(v.sup, |p|) && |id| <= NAME_MAX
    requires Find(v.dir, id) == |v.dir| && f < |v.dir| && v.dir[f].present == 0 && CreateBlob(v, f, id, p).out == Done
    ensures |CreateBlob(v, f, id, p).writes| == BlobSpan(|p|) + 2
    ensures var w := Mounted(CrashDisk(v, CreateBlob(v, f, id, p), BlobSpan(|p|) + 1));
            && w.sup == v.sup && w.dir[f].present != 0 && FieldName(w.dir[f].name) == id
            && w.dir[f].start == w.sup.nextFree && w.dir[f].capacity == BlobSpan(|p|) && !Good(w)
  {
    hide EncodeSuper, DecodeSuper, EncodeEntry, DecodeEntry, DirSector, Find, FieldName, Apply, Created, Pack, SyncedAt;
    var ef, span := CreateBlob(v, f, id, p), BlobSpan(|p|);
    var data := Burst(v.sup.nextFree, Pack(p, span));
    var we := PersistEntry(ef.sup, ef.dir, f);
    assert ef.writes[..span + 1] == data + [we];
    LastApply(v.disk, data, we);
    ApplyBurst(v.disk, v.sup.nextFree, Pack(p, span));
    var d := Blit(v.disk, v.sup.nextFree, Pack(p, span));
    PersistLaw(d, ef.sup, ef.dir, f, f);
    SuperRoundTrip(v.sup, v.disk[0]);
    CreatedShape(v.dir[f], id, FT_BLOB, v.sup.nextFree, |p|, span, 0);
    var w := Mounted(Put(d, we));
    assert w.dir[f] == ef.dir[f];
    assert !ExtentOk(w.sup, w.dir[f]);
  }

  /** Inside a marker's rewrite the marker's own bytes may be torn, and nothing else. */
  lemma RewriteCrash(v: Vol, i: nat, secs: seq<Sector>, k: nat)
    requires Sound(v) && i < |v.dir| && v.dir[i].present != 0 && |secs| <= v.dir[i].capacity && k <= |secs|
    requires v.dir[i].start + |secs| <= |v.disk|
    ensures var w := Mounted(Apply(v.disk, Burst(v.dir[i].start, secs)[..k]));
            Sound(w) && OthersPersisted(v, Abs(w), FieldName(v.dir[i].name))
  {
    hide EncodeSuper, DirSector, Find, FieldName, Abs, Apply, SyncedAt, FileOf, Persisted;
    var e := v.dir[i];
    assert Burst(e.start, secs)[..k] == Burst(e.start, secs[..k]);
    ApplyBurst(v.disk, e.start, secs[..k]);
    var u := v.(disk := Blit(v.disk, e.start, secs[..k]));
    assert Good(u);
    assert Synced(u) by {
      forall j | 0 <= j < MAX_ENTRIES ensures SyncedAt(u.disk, u.dir, j) {
        DiskEntrySame(v.disk, u.disk, v.dir, j);
      }
    }
    RewriteOthers(v, u, i, secs[..k]);
    SlotUpdate(v, u, i);
    Replaced(Abs(v), e, FileOf(u.disk, e));
    SlotFile(v, i);
    MountLaw(u);
    TornPersisted(v, u, FieldName(e.name), FileOf(u.disk, e));
  }

  lemma TornPersisted(v: Vol, u: Vol, key: CString, f: File)
    requires Good(v) && Good(u) && u.dir == v.dir && |u.disk| == |v.disk|
    requires forall s :: 1 <= s < DATA_START ==> u.disk[s] == v.disk[s]
    requires key in Abs(v) && Abs(u) == Abs(v)[key := f]
    ensures OthersPersisted(v, Persisted(u), key)
  {
    hide Abs, DecodeEntry;
    forall k: CString ensures OnDisk(u, k) <==> OnDisk(v, k) {}
  }

  lemma DiskEntrySame(d: Disk, d': Disk, dir: seq<Entry>, j: nat)
    requires j < MAX_ENTRIES == |dir| && DATA_START <= |d| == |d'| && d[1 + j / 2] == d'[1 + j / 2]
    requires SyncedAt(d, dir, j)
    ensures SyncedAt(d', dir, j)
  {
  }

  // ---- every act, every prefix ------------------------------------------------------------------------------

  predicate WritesBlob(op: Op) { op.OpBlobWriteOnce? || op.OpMarkerWrite? }

  /** The one unsafe point: a blob or marker under a new name, with a slot and sectors to be had, is cut after
      its data and its directory sector and before the superblock's. */
  predicate StalePoint(v: Vol, op: Op, k: nat) {
    && WritesBlob(op) && |op.id| <= NAME_MAX && Find(v.dir, op.id) == |v.dir| && FindFree(v.dir) < |v.dir|
    && v.sup.nextFree + BlobSpan(|op.p|) <= v.sup.totalSectors
    && k == BlobSpan(|op.p|) + 1
  }

  /** An act cut short at any write mounts to a sound volume exactly when it was not cut at that point. */
  lemma CrashSound(v: Vol, op: Op, k: nat)
    requires Sound(v) && OpFits(v.sup, op) && k <= |Perform(v, op).writes|
    ensures Sound(Mounted(CrashDisk(v, Perform(v, op), k))) <==> !StalePoint(v, op, k)
  {
    hide Persisted, Abs, Good, Synced, Mounted, Next, Refuses, Perform, CrashDisk, StalePoint;
    if k == |Perform(v, op).writes| {
      CompleteCrash(v, op);
      assert !StalePoint(v, op, k) by { NotStaleAtEnd(v, op); }
    } else if IsAtomicOp(op) {
      CrashAtomic(v, op, k);
      NotStale(v, op, k);
    } else if op.OpSwapRename? {
      SwapCrashSound(v, op, k);
      NotStale(v, op, k);
    } else {
      BlobCrashSound(v, op, k);
    }
  }

  lemma NotStaleAtEnd(v: Vol, op: Op)
    requires Good(v) && OpFits(v.sup, op)
    ensures !StalePoint(v, op, |Perform(v, op).writes|)
  {
    hide Good, FieldName, DirSector, Find, FindFree, Pack, Created;
  }

  lemma NotStale(v: Vol, op: Op, k: nat)
    requires !WritesBlob(op)
    ensures !StalePoint(v, op, k)
  {
  }

  lemma SwapCrashSound(v: Vol, op: Op, k: nat)
    requires Sound(v) && op.OpSwapRename? && k < |Perform(v, op).writes|
    ensures Sound(Mounted(CrashDisk(v, Perform(v, op), k)))
  {
    hide Persisted, Abs, Synced, Mounted, Next, DirSector, FieldName;
    if k == 0 {
      assert Perform(v, op).writes[..0] == [];
      NoCrash(v);
    } else {
      SwapSecond(v, op.source, op.target);
    }
  }

  lemma BlobCrashSound(v: Vol, op: Op, k: nat)
    requires Sound(v) && OpFits(v.sup, op) && WritesBlob(op) && k < |Perform(v, op).writes|
    ensures Sound(Mounted(CrashDisk(v, Perform(v, op), k))) <==> !StalePoint(v, op, k)
  {
    hide Persisted, Abs, Synced, Mounted, DirSector, FieldName, Find, FindFree, CreateBlob, Pack, Apply, Created;
    var id, p, i, f := op.id, op.p, Find(v.dir, op.id), FindFree(v.dir);
    if i == |v.dir| {
      CreateBlobOut(v, f, id, p);
      if k <= BlobSpan(|p|) {
        BlobPrefix(v, f, id, p, k);
      } else {
        BlobStale(v, f, id, p);
      }
    } else {
      var e := v.dir[i];
      var span := if BlobSpan(|p|) > e.capacity then e.capacity else BlobSpan(|p|);
      var data := Burst(e.start, Pack(p, span));
      assert Perform(v, op).writes[..k] == data[..k];
      RewriteCrash(v, i, Pack(p, span), k);
    }
  }

  lemma CreateBlobOut(v: Vol, f: nat, id: CString, p: seq<byte>)
    requires Usable(v) && SizeOk(v.sup, |p|) && |id| <= NAME_MAX && f < |v.dir|
    ensures var ef := CreateBlob(v, f, id, p);
            if v.sup.nextFree + BlobSpan(|p|) > v.sup.totalSectors then ef.out == NoSpace && ef.writes == []
            else ef.out == Done && |ef.writes| == BlobSpan(|p|) + 2
  {
    hide DirSector, Pack, Created;
  }
}
