/** What reaches the disk: nothing an act touches leaves it, and what an act answers success for is on it. */
module Durability {
  import opened Bytes
  import opened DiskLayout
  import opened Volume
  import opened Acts
  import opened AppendLaws
  import opened FileMap
  import opened FsLaws
  import opened Crash

  /** No file that was on v's disk and is still a file in u has left u's disk. */
  ghost predicate StillOnDisk(v: Vol, u: Vol)
    requires Good(v) && Good(u)
  {
    forall k: CString :: k in Persisted(v) && k in Abs(u) ==> k in Persisted(u)
  }

  // ---- writes to the directory ----------------------------------------------------------------------

  /** A write to a directory sector shows the entries of that sector as present as dir' has them. */
  ghost predicate Shows(w: Write, dir': seq<Entry>)
    requires |dir'| == MAX_ENTRIES
  {
    forall j :: 0 <= j < MAX_ENTRIES && w.lba == DIR_START + j / 2 ==> EntryAt(w.data, j).present == dir'[j].present
  }

  ghost predicate Rewrites(ws: seq<Write>, j: nat) {
    exists w :: w in ws && w.lba == DIR_START + j / 2
  }

  lemma {:induction false} PresenceAfter(d: Disk, ws: seq<Write>, dir': seq<Entry>, j: nat)
    requires DATA_START <= |d| && |dir'| == MAX_ENTRIES && j < MAX_ENTRIES
    requires forall w :: w in ws ==> Shows(w, dir')
    ensures if Rewrites(ws, j) then DiskEntry(Apply(d, ws), j).present == dir'[j].present
            else DiskEntry(Apply(d, ws), j) == DiskEntry(d, j)
  {
    hide DecodeEntry;
    if ws != [] {
      var init, w := ws[..|ws| - 1], ws[|ws| - 1];
      PresenceAfter(d, init, dir', j);
      assert w in ws && Shows(w, dir');
      if w.lba != DIR_START + j / 2 {
        assert Rewrites(ws, j) <==> Rewrites(init, j) by {
          forall x | x in ws && x.lba == DIR_START + j / 2 ensures x in init {}
        }
      }
    }
  }

  /** An act that writes the sector of every slot it changes. */
  ghost predicate WritesThrough(v: Vol, ws: seq<Write>, dir': seq<Entry>)
    requires |v.dir| == |dir'| == MAX_ENTRIES
  {
    && (forall w :: w in ws ==> Shows(w, dir'))
    && (forall j :: 0 <= j < MAX_ENTRIES ==> dir'[j] == v.dir[j] || Rewrites(ws, j))
  }

  lemma WrittenThrough(v: Vol, u: Vol, ws: seq<Write>)
    requires Good(v) && Good(u) && u.disk == Apply(v.disk, ws) && WritesThrough(v, ws, u.dir)
    ensures StillOnDisk(v, u)
    ensures forall j :: 0 <= j < MAX_ENTRIES && Rewrites(ws, j) && u.dir[j].present != 0 ==>
              FieldName(u.dir[j].name) in Persisted(u)
  {
    hide Abs, FieldName, DecodeEntry, DiskEntry, Shows, Rewrites;
    forall j | 0 <= j < MAX_ENTRIES && Rewrites(ws, j) && u.dir[j].present != 0
      ensures FieldName(u.dir[j].name) in Persisted(u)
    {
      PresenceAfter(v.disk, ws, u.dir, j);
      FindUnique(u, j);
      AbsAt(u, FieldName(u.dir[j].name));
    }
    forall k: CString | k in Persisted(v) && k in Abs(u) ensures k in Persisted(u) {
      AbsAt(v, k); AbsAt(u, k);
      var i, j := Find(v.dir, k), Find(u.dir, k);
      if !Rewrites(ws, j) {
        assert u.dir[j] == v.dir[j];
        FindUnique(v, j);
        PresenceAfter(v.disk, ws, u.dir, j);
      }
    }
  }

  // ---- the acts' writes ------------------------------------------------------------------------------

  predicate Aside(w: Write) { w.lba == 0 || DATA_START <= w.lba }

  lemma AsideShows(w: Write, dir': seq<Entry>)
    requires |dir'| == MAX_ENTRIES && Aside(w)
    ensures Shows(w, dir')
  {
  }

  lemma PersistShows(sup: Super, dir: seq<Entry>, i: nat, dir': seq<Entry>)
    requires |dir| == |dir'| == MAX_ENTRIES && i < MAX_ENTRIES && sup.dirStart == DIR_START
    requires forall j :: 0 <= j < MAX_ENTRIES ==> dir[j].present == dir'[j].present
    ensures Shows(PersistEntry(sup, dir, i), dir')
  {
    hide DirSector, DecodeEntry;
    var w := PersistEntry(sup, dir, i);
    var d := seq<Sector>(DATA_START, _ => Zeros(512));
    forall j | 0 <= j < MAX_ENTRIES && w.lba == DIR_START + j / 2 ensures EntryAt(w.data, j) == dir[j] {
      PersistLaw(d, sup, dir, i, j);
      assert Put(d, w)[DIR_START + j / 2] == w.data;
    }
  }

  /** Data, then the sector of the one slot that changed, then perhaps more that is no directory sector. */
  lemma OneSlotThrough(v: Vol, sup: Super, dir': seq<Entry>, i: nat, data: seq<Write>, rest: seq<Write>)
    requires |v.dir| == |dir'| == MAX_ENTRIES && i < MAX_ENTRIES && sup.dirStart == DIR_START
    requires dir' == v.dir[i := dir'[i]]
    requires forall w :: w in data || w in rest ==> Aside(w)
    ensures var ws := data + [PersistEntry(sup, dir', i)] + rest;
            WritesThrough(v, ws, dir') && Rewrites(ws, i)
  {
    hide DirSector, Shows;
    var we := PersistEntry(sup, dir', i);
    var ws := data + [we] + rest;
    PersistShows(sup, dir', i, dir');
    forall w | w in ws ensures Shows(w, dir') {
      if w != we {
        AsideShows(w, dir');
      }
    }
    assert we in ws;
  }

  lemma ExtendThrough(v: Vol, i: nat, p: seq<byte>)
    requires Growable(v, i) && SizeOk(v.sup, |p|) && Extend(v, i, p).out == Done
    ensures var ef := Extend(v, i, p);
            WritesThrough(v, ef.writes, ef.dir) && Rewrites(ef.writes, i)
            && ef.dir == v.dir[i := ef.dir[i]]
            && ef.dir[i].name == v.dir[i].name && ef.dir[i].present == v.dir[i].present
  {
    hide EncodeSuper, DirSector, DataWrites, WritesThrough, Rewrites, Apply, Moved;
    var g, ws := ExtendSplit(v, i, p);
    forall w | w in ws ensures Aside(w) {
      assert Unrevealing(v, i, g.sup, w);
    }
    var ef := Extend(v, i, p);
    OneSlotThrough(v, g.sup, ef.dir, i, ws, []);
    assert ws + [PersistEntry(g.sup, ef.dir, i)] + [] == ef.writes;
  }

  /** The name an act creates, changes, removes or moves a file to. */
  function Named(op: Op): CString {
    match op
    case OpRecordWriteAt(_, _) => RECORD_NAME
    case OpNrecAppend(id, _) => id
    case OpDurableWrite(id, _) => id
    case OpSwapRename(_, target) => target
    case OpBlobWriteOnce(id, _) => id
    case OpRemove(id) => Key(id)
    case OpRename(_, target) => target
    case OpMarkerWrite(id, _) => id
    case OpMkdir(id) => id
  }

  /** The acts that leave no file under that name. */
  predicate Clears(op: Op) { op.OpRemove? || (op.OpSwapRename? && Key(op.source) == op.target) }

  /** The act writes through, and a slot it writes carries its name or is cleared. */
  ghost predicate Through(v: Vol, op: Op)
    requires Good(v) && OpFits(v.sup, op)
  {
    var ef := Perform(v, op);
    && |ef.dir| == MAX_ENTRIES && WritesThrough(v, ef.writes, ef.dir)
    && exists i: nat :: Rewrites(ef.writes, i) && SlotOf(ef.dir, i, Named(op), Clears(op))
  }

  predicate SlotOf(dir: seq<Entry>, i: nat, k: CString, cleared: bool) {
    i < |dir| && if cleared then dir[i].present == 0 else Holds(dir[i], k)
  }

  lemma CreateThrough(v: Vol, f: nat, id: CString, kind: u32, p: seq<byte>)
    requires Good(v) && |id| <= NAME_MAX && f < |v.dir| && SizeOk(v.sup, |p|)
    requires Growable(Opened(v, f, id, kind), f) && Extend(Opened(v, f, id, kind), f, p).out == Done
    ensures var ef := Extend(Opened(v, f, id, kind), f, p);
            && |ef.dir| == MAX_ENTRIES && WritesThrough(v, ef.writes, ef.dir)
            && Rewrites(ef.writes, f) && SlotOf(ef.dir, f, id, false)
  {
    hide Extend, Growable, Shows, Rewrites, FieldName;
    var o := Opened(v, f, id, kind);
    ExtendThrough(o, f, p);
    CreatedShape(v.dir[f], id, kind, v.sup.nextFree, 0, 0, if kind == FT_NREC then 1 else 0);
    var ef := Extend(o, f, p);
    forall j | 0 <= j < MAX_ENTRIES ensures ef.dir[j] == v.dir[j] || Rewrites(ef.writes, j) {}
  }

  lemma NrecThrough(v: Vol, op: Op)
    requires Sound(v) && op.OpNrecAppend? && OpFits(v.sup, op) && Perform(v, op).writes != []
    ensures Through(v, op)
  {
    hide Extend, Opened, Adopted, Abs, Find, FindFree, FieldName, WritesThrough, Rewrites, Synced;
    var i := Find(v.dir, op.id);
    if i == |v.dir| {
      var f := FindFree(v.dir);
      CreateAppendLaw(v, op.id, FT_NREC, op.p);
      var o := Opened(v, f, op.id, FT_NREC);
      OpenedShape(v, f, op.id, FT_NREC);
      WritesMeanDone(o, f, op.p);
      CreateThrough(v, f, op.id, FT_NREC, op.p);
    } else if Adopts(v, op) {
      AdoptThrough(v, op, i);
    } else {
      WritesMeanDone(v, i, op.p);
      ExtendThrough(v, i, op.p);
    }
  }

  lemma WritesMeanDone(v: Vol, i: nat, p: seq<byte>)
    requires Growable(v, i) && SizeOk(v.sup, |p|)
    ensures Extend(v, i, p).out == Done <==> Extend(v, i, p).writes != []
    ensures Extend(v, i, p).writes == [] ==> Extend(v, i, p).dir == v.dir
  {
    hide DataWrites, DirSector, EncodeSuper;
  }

  lemma AdoptThrough(v: Vol, op: Op, i: nat)
    requires Sound(v) && Adopts(v, op) && OpFits(v.sup, op) && i == Find(v.dir, op.id)
    ensures Through(v, op)
  {
    hide Extend, Abs, Find, FieldName, Synced, DirSector, Apply, Shows;
    AdoptedLaw(v, i);
    AdoptedShape(v, i);
    var a, v1 := Adopted(v, i), AdoptedVol(v, op);
    var ef := Extend(v1, i, op.p);
    var ws := Perform(v, op).writes;
    assert ws == a.writes + ef.writes;
    WritesMeanDone(v1, i, op.p);
    if ef.out == Done {
      ExtendThrough(v1, i, op.p);
    }
    PersistShows(v.sup, v1.dir, i, ef.dir);
    assert a.writes[0] in ws && a.writes[0].lba == DIR_START + i / 2;
    assert Rewrites(ws, i);
    forall w | w in ws ensures Shows(w, ef.dir) {}
    assert SlotOf(ef.dir, i, op.id, false);
  }

  lemma DurableThrough(v: Vol, op: Op)
    requires Sound(v) && op.OpDurableWrite? && OpFits(v.sup, op) && Perform(v, op).writes != []
    ensures Through(v, op)
  {
    hide Extend, Opened, Abs, Find, FindFree, FieldName, WritesThrough, Rewrites, Synced;
    var i := Find(v.dir, op.id);
    if i == |v.dir| {
      var f := FindFree(v.dir);
      CreateAppendLaw(v, op.id, FT_DURABLE, op.p);
      var o := Opened(v, f, op.id, FT_DURABLE);
      OpenedShape(v, f, op.id, FT_DURABLE);
      WritesMeanDone(o, f, op.p);
      CreateThrough(v, f, op.id, FT_DURABLE, op.p);
    } else {
      WritesMeanDone(v, i, op.p);
      ExtendThrough(v, i, op.p);
    }
  }

  lemma RecordThrough(v: Vol, op: Op)
    requires Good(v) && op.OpRecordWriteAt? && OpFits(v.sup, op) && Perform(v, op).writes != []
    ensures Through(v, op)
  {
    hide Find, FieldName, WritesThrough, Rewrites, DirSector, RecordImage, Pack;
    var i, span := Find(v.dir, RECORD_NAME), RecordSpan(|op.p|);
    var e := v.dir[i];
    var data := Burst(e.start + op.off / 512, Pack(RecordImage(op.off / 512, op.p), span));
    var ef := Perform(v, op);
    OneSlotThrough(v, v.sup, ef.dir, i, data, []);
    assert data + [PersistEntry(v.sup, ef.dir, i)] + [] == ef.writes;
    assert SlotOf(ef.dir, i, RECORD_NAME, false);
  }

  lemma SingleThrough(v: Vol, dir': seq<Entry>, i: nat)
    requires Good(v) && |dir'| == MAX_ENTRIES && i < MAX_ENTRIES && dir' == v.dir[i := dir'[i]]
    ensures WritesThrough(v, [PersistEntry(v.sup, dir', i)], dir') && Rewrites([PersistEntry(v.sup, dir', i)], i)
  {
    hide FieldName, WritesThrough, Rewrites, DirSector;
    OneSlotThrough(v, v.sup, dir', i, [], []);
    var w := PersistEntry(v.sup, dir', i);
    assert [] + [w] + [] == [w];
  }

  lemma RelabelThrough(v: Vol, op: Op)
    requires Good(v) && (op.OpRemove? || op.OpRename? || op.OpMkdir?) && Perform(v, op).writes != []
    ensures Through(v, op)
  {
    hide Find, FindFree, FieldName, WritesThrough, Rewrites, DirSector, NameField, Created;
    var dir' := Perform(v, op).dir;
    var i := match op
             case OpRemove(id) => Find(v.dir, Key(id))
             case OpRename(source, _) => Find(v.dir, Key(source))
             case _ => FindFree(v.dir);
    if op.OpMkdir? {
      CreatedShape(v.dir[i], op.id, FT_DIR, 0, 0, 0, 0);
    }
    SingleThrough(v, dir', i);
    assert SlotOf(dir', i, Named(op), Clears(op));
  }

  lemma SwapThrough(v: Vol, op: Op)
    requires Good(v) && op.OpSwapRename? && Perform(v, op).writes != []
    ensures Through(v, op)
  {
    hide Find, FieldName, DirSector, NameField, Shows;
    var i, j, ef := Find(v.dir, Key(op.source)), Find(v.dir, op.target), Perform(v, op);
    assert SlotOf(ef.dir, i, op.target, Clears(op));
    PersistShows(v.sup, ef.dir, i, ef.dir);
    var last := PersistEntry(v.sup, ef.dir, i);
    assert last in ef.writes && last.lba == DIR_START + i / 2;
    assert Rewrites(ef.writes, i);
    if j < |v.dir| {
      var dir1 := v.dir[j := v.dir[j].(present := 0)];
      PersistShows(v.sup, dir1, j, ef.dir);
      var first := PersistEntry(v.sup, dir1, j);
      assert first in ef.writes && first.lba == DIR_START + j / 2;
      assert Rewrites(ef.writes, j);
    }
  }

  lemma CreateBlobThrough(v: Vol, f: nat, id: CString, p: seq<byte>)
    requires Good(v) && SizeOk(v.sup, |p|) && |id| <= NAME_MAX && f < |v.dir| && CreateBlob(v, f, id, p).writes != []
    ensures var ef := CreateBlob(v, f, id, p);
            && |ef.dir| == MAX_ENTRIES && WritesThrough(v, ef.writes, ef.dir)
            && Rewrites(ef.writes, f) && SlotOf(ef.dir, f, id, false)
  {
    hide FieldName, WritesThrough, Rewrites, DirSector, Pack, Created, EncodeSuper;
    var ef := CreateBlob(v, f, id, p);
    CreatedShape(v.dir[f], id, FT_BLOB, v.sup.nextFree, |p|, BlobSpan(|p|), 0);
    OneSlotThrough(v, ef.sup, ef.dir, f, Burst(v.sup.nextFree, Pack(p, BlobSpan(|p|))), [PersistSuper(ef.sup)]);
  }

  lemma BlobThrough(v: Vol, op: Op)
    requires Good(v) && WritesBlob(op) && OpFits(v.sup, op) && Perform(v, op).writes != []
    ensures Through(v, op)
  {
    hide FieldName, WritesThrough, Rewrites, DirSector, Pack, Created, CreateBlob, Find, FindFree;
    var i, id, p := Find(v.dir, op.id), op.id, op.p;
    if i == |v.dir| {
      CreateBlobThrough(v, FindFree(v.dir), id, p);
    } else {
      var e, ef := v.dir[i], Perform(v, op);
      var span := if BlobSpan(|p|) > e.capacity then e.capacity else BlobSpan(|p|);
      CreatedShape(e, id, FT_BLOB, e.start, |p|, e.capacity, 0);
      OneSlotThrough(v, v.sup, ef.dir, i, Burst(e.start, Pack(p, span)), []);
      assert Burst(e.start, Pack(p, span)) + [PersistEntry(v.sup, ef.dir, i)] + [] == ef.writes;
      assert SlotOf(ef.dir, i, id, false);
    }
  }

  lemma ActThrough(v: Vol, op: Op)
    requires Sound(v) && OpFits(v.sup, op) && Perform(v, op).writes != []
    ensures Through(v, op)
  {
    hide Through, Synced, Perform;
    match op
    case OpRecordWriteAt(_, _) => RecordThrough(v, op);
    case OpNrecAppend(_, _) => NrecThrough(v, op);
    case OpDurableWrite(_, _) => DurableThrough(v, op);
    case OpSwapRename(_, _) => SwapThrough(v, op);
    case OpBlobWriteOnce(_, _) => BlobThrough(v, op);
    case OpRemove(_) => RelabelThrough(v, op);
    case OpRename(_, _) => RelabelThrough(v, op);
    case OpMarkerWrite(_, _) => BlobThrough(v, op);
    case OpMkdir(_) => RelabelThrough(v, op);
  }

  // ---- what is acknowledged is on the disk -----------------------------------------------------------

  predicate Succeeds(out: Outcome) { out == Done || out == Overfull }

  /** After any act no file that was on the disk and still exists has left it, and the file of an act that
      answered success is on the disk: by MountLaw a mount finds it. */
  lemma ActDurable(v: Vol, op: Op)
    requires Sound(v) && OpFits(v.sup, op)
    ensures Sound(After(v, Perform(v, op))) && StillOnDisk(v, After(v, Perform(v, op)))
    ensures var a := After(v, Perform(v, op));
            Succeeds(Perform(v, op).out) && Named(op) in Abs(a) ==> Named(op) in Persisted(a)
  {
    hide Perform, Abs, Synced, WritesThrough, Rewrites, Next, Refuses, Persisted, Mounted, Good, Succeeds;
    ActLaw(v, op);
    var ef := Perform(v, op);
    var a := After(v, ef);
    if ef.writes == [] {
      MountLaw(v);
      MountLaw(a);
      if Succeeds(ef.out) && Named(op) in Abs(a) {
        IdleNamed(v, op);
      }
    } else {
      ActThrough(v, op);
      WrittenThrough(v, a, ef.writes);
      if Succeeds(ef.out) && Named(op) in Abs(a) {
        NamedThrough(v, op, a);
      }
    }
  }

  lemma NamedThrough(v: Vol, op: Op, a: Vol)
    requires Good(v) && OpFits(v.sup, op) && Through(v, op) && Good(a) && a == After(v, Perform(v, op))
    requires Named(op) in Abs(a) && Abs(a) == Next(Abs(v), op, Perform(v, op).out) && Succeeds(Perform(v, op).out)
    requires forall j :: 0 <= j < MAX_ENTRIES && Rewrites(Perform(v, op).writes, j) && a.dir[j].present != 0 ==>
              FieldName(a.dir[j].name) in Persisted(a)
    ensures Named(op) in Persisted(a)
  {
    hide Perform, Abs, FieldName, WritesThrough, Rewrites, Persisted;
    var i: nat :| Rewrites(Perform(v, op).writes, i) && SlotOf(Perform(v, op).dir, i, Named(op), Clears(op));
    if Clears(op) {
      ClearedAbsent(v, op);
    }
  }

  lemma ClearedAbsent(v: Vol, op: Op)
    requires Good(v) && OpFits(v.sup, op) && Clears(op) && Succeeds(Perform(v, op).out)
    ensures Named(op) !in Next(Abs(v), op, Perform(v, op).out)
  {
    hide Abs, FieldName, DirSector, Find, Good, Key;
    if op.OpSwapRename? {
      AbsAt(v, Key(op.source));
    }
  }

  lemma IdleKind(v: Vol, op: Op)
    requires Good(v) && OpFits(v.sup, op) && Perform(v, op).writes == [] && Succeeds(Perform(v, op).out)
    ensures var i := Find(v.dir, Named(op)); i < |v.dir| && (v.dir[i].kind == FT_BLOB || v.dir[i].kind == FT_DIR)
  {
    hide FieldName, DirSector, Find, FindFree, Good, Key, Pack, Created, DataWrites, Grow, ContentEq, Growable;
  }

  /** An act that succeeds without writing names a blob or a directory, which are always on the disk. */
  lemma IdleNamed(v: Vol, op: Op)
    requires Sound(v) && OpFits(v.sup, op) && Perform(v, op).writes == [] && Succeeds(Perform(v, op).out)
    ensures Named(op) in Persisted(v)
  {
    hide Abs, Synced, FieldName, Perform, Good, Persisted, Succeeds, Named;
    IdleKind(v, op);
    FoundFile(v, Named(op));
    if Named(op) !in Persisted(v) {
      UnbornEmpty(v, Named(op));
    }
  }

  lemma RelabelDurable(v: Vol, i: nat, e': Entry)
    requires Good(v) && i < |v.dir| && Good(Relabeled(v, i, e'))
    ensures StillOnDisk(v, Relabeled(v, i, e'))
  {
    hide Abs, FieldName, DirSector, StillOnDisk, WritesThrough;
    var u := Relabeled(v, i, e');
    SingleThrough(v, u.dir, i);
    WrittenThrough(v, u, [PersistEntry(v.sup, u.dir, i)]);
  }

  // ---- what an act does not name -------------------------------------------------------------------------

  predicate Touches(op: Op, k: CString) {
    k == Named(op) || ((op.OpSwapRename? || op.OpRename?) && k == Key(op.source))
  }

  /** The name stands in m' for what it stood for on v, and is there if it was on the disk. */
  ghost predicate SameFor(v: Vol, m': Files, key: CString)
    requires Good(v)
  {
    && (key in Persisted(v) ==> key in m')
    && (key in m' ==> key in Abs(v) && m'[key] == Abs(v)[key])
  }

  /** An act performed, or cut by a crash anywhere but at the stale point, leaves every name it does not name as
      it was: what was on the disk is there, and nothing comes from nowhere. */
  lemma UntouchedSurvive(v: Vol, op: Op, k: nat, key: CString)
    requires Sound(v) && OpFits(v.sup, op) && k <= |Perform(v, op).writes| && !StalePoint(v, op, k)
    requires !Touches(op, key)
    ensures Sound(Mounted(CrashDisk(v, Perform(v, op), k)))
    ensures SameFor(v, Abs(Mounted(CrashDisk(v, Perform(v, op), k))), key)
  {
    hide Perform, Abs, Synced, Mounted, Good, StalePoint, Next, Refuses, CrashDisk, Touches, OnDisk;
    CrashSound(v, op, k);
    ActDurable(v, op);
    ActLaw(v, op);
    NextUntouched(Abs(v), op, Perform(v, op).out, key);
    if k == |Perform(v, op).writes| {
      CompleteCrash(v, op);
    } else if IsAtomicOp(op) {
      CrashAtomic(v, op, k);
      AtomicUntouched(v, op, k, key);
    } else if op.OpSwapRename? {
      SwapUntouched(v, op, k, key);
    } else {
      BlobUntouched(v, op, k, key);
    }
  }

  lemma NextUntouched(m: Files, op: Op, out: Outcome, key: CString)
    requires !Touches(op, key)
    ensures key in Next(m, op, out) <==> key in m
    ensures key in m ==> Next(m, op, out)[key] == m[key]
  {
    hide RecordBlock;
  }

  lemma AtomicUntouched(v: Vol, op: Op, k: nat, key: CString)
    requires Sound(v) && OpFits(v.sup, op) && k < |Perform(v, op).writes| && Atomic(v, op, k)
    requires !Touches(op, key)
    ensures SameFor(v, Abs(Mounted(CrashDisk(v, Perform(v, op), k))), key)
  {
    hide Perform, Abs, Synced, Mounted, Next, CrashDisk, Touches, OnDisk, Adopts, Find;
    if 0 < k && Adopts(v, op) {
      NextUntouched(Abs(v), op, NoSpace, key);
      AdoptedDurable(v, op);
    }
  }

  lemma AdoptedDurable(v: Vol, op: Op)
    requires Good(v) && Adopts(v, op) && Good(AdoptedVol(v, op))
    ensures StillOnDisk(v, AdoptedVol(v, op))
  {
    hide Abs, FieldName, DirSector, StillOnDisk, Find;
    var i := Find(v.dir, op.id);
    RelabelDurable(v, i, v.dir[i].(kind := FT_NREC, appendOnly := 1));
  }

  lemma SwapUntouched(v: Vol, op: Op, k: nat, key: CString)
    requires Sound(v) && op.OpSwapRename? && k < |Perform(v, op).writes|
    requires Sound(Mounted(CrashDisk(v, Perform(v, op), k)))
    requires !Touches(op, key)
    ensures SameFor(v, Abs(Mounted(CrashDisk(v, Perform(v, op), k))), key)
  {
    hide Abs, Synced, Mounted, SwapRename, OnDisk, Find, DirSector;
    if k == 0 {
      assert Perform(v, op).writes[..0] == [];
      NoCrash(v);
    } else {
      SwapSecond(v, op.source, op.target);
      var j := Find(v.dir, op.target);
      RelabelDurable(v, j, v.dir[j].(present := 0));
    }
  }

  lemma BlobUntouched(v: Vol, op: Op, k: nat, key: CString)
    requires Sound(v) && OpFits(v.sup, op) && WritesBlob(op) && k < |Perform(v, op).writes| && !StalePoint(v, op, k)
    requires Sound(Mounted(CrashDisk(v, Perform(v, op), k)))
    requires !Touches(op, key)
    ensures SameFor(v, Abs(Mounted(CrashDisk(v, Perform(v, op), k))), key)
  {
    hide Abs, Synced, Mounted, DirSector, FieldName, Find, FindFree, CreateBlob, Pack, Apply, Created, Persisted;
    var id, p, i, f := op.id, op.p, Find(v.dir, op.id), FindFree(v.dir);
    if i == |v.dir| {
      CreateBlobOut(v, f, id, p);
      BlobPrefix(v, f, id, p, k);
      PersistedAt(v, key);
    } else {
      var e := v.dir[i];
      var span := if BlobSpan(|p|) > e.capacity then e.capacity else BlobSpan(|p|);
      assert Perform(v, op).writes[..k] == Burst(e.start, Pack(p, span))[..k];
      RewriteCrash(v, i, Pack(p, span), k);
      PersistedAt(v, key);
    }
  }

  lemma PersistedAt(v: Vol, key: CString)
    requires Good(v)
    ensures SameFor(v, Persisted(v), key)
  {
    hide Abs;
  }
}
