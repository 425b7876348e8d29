/**
 * The fixed record on any volume the acts run on, sound or not: one act at a time, performed to its end or cut
 * off anywhere, the record's extent meets no other, keeps its place and its bytes, and grows by whole records.
 */
module RecordSafety {
  import opened Bytes
  import opened DiskLayout
  import opened Volume
  import opened Acts
  import opened AppendLaws
  import opened FileMap
  import opened FsLaws
  import opened Crash
  import opened RecordLog

  /** Slot r is the record's, and no other present extent meets its. */
  ghost predicate Alone(v: Vol, r: nat) {
    && r < |v.dir| && Holds(v.dir[r], RECORD_NAME) && v.dir[r].kind == FT_RECORD
    && forall j :: 0 <= j < |v.dir| && j != r && v.dir[j].present != 0 ==> Apart(v.dir[r], v.dir[j])
  }

  /** The entry's extent starts at this sector and its bytes are this log. */
  ghost predicate Carries(d: Disk, e: Entry, home: nat, log: seq<Payload>) {
    && e.start == home && e.length == |LogBytes(log)| && e.start + Ceil(e.length) <= |d|
    && FileBytes(d, e.start, e.length) == LogBytes(log)
  }

  /** What the record's safety rests on: far less than a sound volume.  Other extents may lie anywhere on the
      disk, allocated or not, and meet each other. */
  ghost predicate Logs(v: Vol, r: nat, home: nat, log: seq<Payload>): (ok: bool)
    ensures ok ==> Usable(v) && Alone(v, r) && r < |v.dir| && v.dir[r].present != 0 && v.dir[r].kind == FT_RECORD
  {
    Usable(v) && Synced(v) && Alone(v, r) && Carries(v.disk, v.dir[r], home, log)
  }

  lemma RecordFound(v: Vol, r: nat)
    requires Usable(v) && Alone(v, r)
    ensures Find(v.dir, RECORD_NAME) == r
  {
    hide FieldName;
    FindUnique(v, r);
  }

  lemma Kept(v: Vol, u: Vol, r: nat, home: nat, log: seq<Payload>)
    requires Logs(v, r, home, log) && Usable(u) && Synced(u) && Alone(u, r) && u.dir[r] == v.dir[r]
    requires |u.disk| == |v.disk| && SameExtent(v.disk, u.disk, v.dir[r])
    ensures Logs(u, r, home, log)
  {
    hide FieldName, LogBytes, SyncedAt;
    assert FileBytes(u.disk, home, v.dir[r].length) == FileBytes(v.disk, home, v.dir[r].length);
  }

  /** Slot i may hold e': absent, or placed, clear of the record, and under a name no other slot has. */
  ghost predicate Admissible(v: Vol, sup': Super, r: nat, i: nat, e': Entry)
    requires r < |v.dir|
  {
    e'.present != 0 ==>
      && Placed(sup', e') && Apart(v.dir[r], e')
      && forall j :: 0 <= j < |v.dir| && j != i && v.dir[j].present != 0 ==>
          FieldName(e'.name) != FieldName(v.dir[j].name)
  }

  lemma SlotAdmitted(v: Vol, u: Vol, r: nat, i: nat)
    requires Usable(v) && Alone(v, r) && i < |v.dir| && i != r && Geometry(u) && |u.disk| == |v.disk|
    requires u.dir == v.dir[i := u.dir[i]] && u.sup.nextFree >= v.sup.nextFree
    requires Admissible(v, u.sup, r, i, u.dir[i])
    ensures Usable(u) && Alone(u, r)
  {
    hide FieldName;
  }

  /** One directory sector written for one slot. */
  lemma RelabelLogs(v: Vol, r: nat, home: nat, log: seq<Payload>, i: nat, e': Entry)
    requires Logs(v, r, home, log) && i < |v.dir| && i != r && Admissible(v, v.sup, r, i, e')
    ensures Logs(Relabeled(v, i, e'), r, home, log)
  {
    hide EncodeSuper, EncodeEntry, DirSector, DecodeEntry, Apply, FieldName, Carries;
    var u := Relabeled(v, i, e');
    SingleWrite(v.disk, PersistEntry(v.sup, u.dir, i));
    SlotAdmitted(v, u, r, i);
    SyncUpdate(v, u, i);
    Kept(v, u, r, home, log);
  }

  /** A mount drops phantoms, and the record is none. */
  lemma MountLogs(v: Vol, r: nat, home: nat, log: seq<Payload>)
    requires Logs(v, r, home, log)
    ensures Logs(Mounted(v.disk), r, home, log)
  {
    hide EncodeSuper, DecodeSuper, EncodeEntry, DecodeEntry, FieldName, Carries;
    var w := Mounted(v.disk);
    SuperRoundTrip(v.sup, v.disk[0]);
    forall j | 0 <= j < MAX_ENTRIES
      ensures w.dir[j] == v.dir[j] || (Phantom(v.dir[j]) && w.dir[j].present == 0)
    {
      assert SyncedAt(v.disk, v.dir, j);
    }
    FewerUsable(v, w, r);
    forall j | 0 <= j < MAX_ENTRIES ensures SyncedAt(w.disk, w.dir, j) {}
    Kept(v, w, r, home, log);
  }

  lemma FewerUsable(v: Vol, w: Vol, r: nat)
    requires Usable(v) && Alone(v, r) && Fewer(v, w)
    ensures Usable(w) && Alone(w, r)
  {
    hide FieldName;
  }

  // ---- data only ------------------------------------------------------------------------------------------

  /** Sectors outside the directory and the record have changed, and the superblock's next free sector perhaps. */
  lemma DataLogs(v: Vol, r: nat, home: nat, log: seq<Payload>, d: Disk, sup': Super)
    requires Logs(v, r, home, log) && |d| == |v.disk|
    requires sup' == v.sup.(nextFree := sup'.nextFree) && v.sup.nextFree <= sup'.nextFree <= v.sup.totalSectors
    requires d[0] == v.disk[0] || d[0] == EncodeSuper(sup')
    requires forall s :: 1 <= s < DATA_START ==> d[s] == v.disk[s]
    requires Carries(d, v.dir[r], home, log)
    ensures Logs(Mounted(d), r, home, log)
  {
    hide EncodeSuper, DecodeEntry, FieldName, Carries;
    var u := Vol(d, if d[0] == EncodeSuper(sup') then sup' else v.sup, v.dir);
    forall j | 0 <= j < MAX_ENTRIES ensures SyncedAt(d, v.dir, j) {
      assert SyncedAt(v.disk, v.dir, j);
    }
    assert Usable(u) && Alone(u, r);
    MountLogs(u, r, home, log);
  }

  lemma StillCarries(d: Disk, d': Disk, e: Entry, home: nat, log: seq<Payload>)
    requires Carries(d, e, home, log) && |d'| == |d| && Inside(d, e) && SameExtent(d, d', e) && Fits(e)
    ensures Carries(d', e, home, log)
  {
    hide LogBytes;
    assert FileBytes(d', e.start, e.length) == FileBytes(d, e.start, e.length);
  }

  // ---- appends to other files ------------------------------------------------------------------------

  lemma OtherGrowable(v: Vol, i: nat)
    requires Usable(v) && i < |v.dir| && v.dir[i].present != 0 && Grows(v.dir[i].kind)
    ensures Growable(v, i)
  {
    hide FieldName;
  }

  lemma ExtendLogs(v: Vol, r: nat, home: nat, log: seq<Payload>, i: nat, p: seq<byte>)
    requires Logs(v, r, home, log) && i < |v.dir| && i != r && v.dir[i].present != 0
    requires Growable(v, i) && Grows(v.dir[i].kind) && SizeOk(v.sup, |p|)
    ensures Logs(After(v, Extend(v, i, p)), r, home, log)
  {
    hide EncodeSuper, EncodeEntry, DirSector, DecodeEntry, FieldName, Carries, Grow, DataWrites, SyncedAt;
    var ef := Extend(v, i, p);
    if ef.out == Done {
      ExtendAppends(v, i, p);
      ExtendedLogs(v, r, home, log, i, p, After(v, ef));
    } else {
      NoWrites(v.disk);
      assert After(v, ef) == v;
    }
  }

  lemma ExtendedLogs(v: Vol, r: nat, home: nat, log: seq<Payload>, i: nat, p: seq<byte>, u: Vol)
    requires Logs(v, r, home, log) && i < |v.dir| && i != r && v.dir[i].present != 0
    requires Growable(v, i) && Grows(v.dir[i].kind)
    requires Relinked(v, i, |p|, u) && Appended(v, i, p, u)
    ensures Logs(u, r, home, log)
  {
    hide EncodeSuper, EncodeEntry, DirSector, DecodeEntry, FieldName, Carries, SyncedAt, FileBytes;
    assert ExtentOk(v.sup, v.dir[r]) && Apart(v.dir[i], v.dir[r]);
    assert Apart(u.dir[i], v.dir[r]);
    SlotAdmitted(v, u, r, i);
    SyncUpdate(v, u, i);
    Kept(v, u, r, home, log);
  }

  lemma ExtendCutLogs(v: Vol, r: nat, home: nat, log: seq<Payload>, i: nat, p: seq<byte>, k: nat)
    requires Logs(v, r, home, log) && i < |v.dir| && i != r && v.dir[i].present != 0
    requires Growable(v, i) && Grows(v.dir[i].kind) && SizeOk(v.sup, |p|) && k < |Extend(v, i, p).writes|
    ensures Logs(Mounted(CrashDisk(v, Extend(v, i, p), k)), r, home, log)
  {
    hide EncodeSuper, DirSector, DecodeEntry, FieldName, Carries, Extend, Synced, Mounted, Appended, FileBytes;
    var d := CrashDisk(v, Extend(v, i, p), k);
    ExtendHidden(v, i, p, k);
    ExtendDone(v, i, p);
    ExtendRelinks(v, i, p);
    assert Apart(v.dir[i], v.dir[r]) && ExtentOk(v.sup, v.dir[r]);
    StillCarries(v.disk, d, v.dir[r], home, log);
    DataLogs(v, r, home, log, d, Extend(v, i, p).sup);
  }

  /** An entry for a name that is not there yet, over free sectors or none. */
  lemma NewAdmissible(v: Vol, sup': Super, r: nat, f: nat, id: CString, e': Entry)
    requires Usable(v) && Alone(v, r) && Find(v.dir, id) == |v.dir| && f < |v.dir| && v.dir[f].present == 0
    requires FieldName(e'.name) == id && Placed(sup', e') && (e'.capacity > 0 ==> v.sup.nextFree <= e'.start)
    ensures Admissible(v, sup', r, f, e') && f != r
  {
    hide FieldName, Find;
    NewNameUnused(v, id);
    assert ExtentOk(v.sup, v.dir[r]);
  }

  lemma OpenedLogs(v: Vol, r: nat, home: nat, log: seq<Payload>, f: nat, id: CString, kind: u32)
    requires Logs(v, r, home, log) && |id| <= NAME_MAX && Find(v.dir, id) == |v.dir| && f < |v.dir|
    requires v.dir[f].present == 0
    requires kind == FT_NREC || kind == FT_DURABLE
    ensures var o := Opened(v, f, id, kind);
            Logs(o, r, home, log) && f != r && Growable(o, f) && o.dir[f].present != 0 && o.dir[f].kind == kind
  {
    hide EncodeSuper, EncodeEntry, DirSector, DecodeEntry, FieldName, Carries, Created, Find, Usable, Admissible,
         Alone, Synced;
    var o := Opened(v, f, id, kind);
    OpenedGrowable(v, f, id, kind);
    OpenedSynced(v, f, id, kind);
    CreatedShape(v.dir[f], id, kind, v.sup.nextFree, 0, 0, if kind == FT_NREC then 1 else 0);
    NewAdmissible(v, v.sup, r, f, id, o.dir[f]);
    SlotAdmitted(v, o, r, f);
    Kept(v, o, r, home, log);
  }

  // ---- one act, whole or cut ----------------------------------------------------------------------------

  /** What an act of k sector writes leaves on the disk, mounted. */
  function Remount(v: Vol, op: Op, k: nat): Vol
    requires Usable(v) && OpFits(v.sup, op) && k <= |Perform(v, op).writes|
  {
    Mounted(CrashDisk(v, Perform(v, op), k))
  }

  /** An act keeps the log: performed, it leaves `log'`; cut off before its last write, it leaves `log`. */
  ghost predicate KeepsLog(v: Vol, op: Op, r: nat, home: nat, log: seq<Payload>, log': seq<Payload>)
    requires Usable(v) && OpFits(v.sup, op)
  {
    && Logs(After(v, Perform(v, op)), r, home, log')
    && forall k :: 0 <= k < |Perform(v, op).writes| ==> Logs(Remount(v, op, k), r, home, log)
  }

  lemma NothingKeeps(v: Vol, op: Op, r: nat, home: nat, log: seq<Payload>, out: Outcome)
    requires Logs(v, r, home, log) && OpFits(v.sup, op) && Perform(v, op) == Nothing(v, out)
    ensures KeepsLog(v, op, r, home, log, log)
  {
    hide Perform, Logs, Usable;
    NoWrites(v.disk);
    assert After(v, Nothing(v, out)) == v;
  }

  /** An act of one write, to the sector of a slot that is not the record's. */
  lemma RelabelKeeps(v: Vol, op: Op, r: nat, home: nat, log: seq<Payload>, i: nat, e': Entry)
    requires Logs(v, r, home, log) && OpFits(v.sup, op) && i < |v.dir| && i != r && Admissible(v, v.sup, r, i, e')
    requires Perform(v, op).writes == [PersistEntry(v.sup, v.dir[i := e'], i)]
    requires Perform(v, op).sup == v.sup && Perform(v, op).dir == v.dir[i := e']
    ensures KeepsLog(v, op, r, home, log, log)
  {
    hide Perform, Logs, Admissible, DirSector, Usable, Mounted;
    RelabelLogs(v, r, home, log, i, e');
    assert After(v, Perform(v, op)) == Relabeled(v, i, e');
    UncutKeeps(v, op, r, home, log);
  }

  lemma UncutKeeps(v: Vol, op: Op, r: nat, home: nat, log: seq<Payload>)
    requires Logs(v, r, home, log) && OpFits(v.sup, op)
    ensures 0 < |Perform(v, op).writes| ==> Logs(Remount(v, op, 0), r, home, log)
  {
    hide Perform, Logs, Usable, Mounted;
    if 0 < |Perform(v, op).writes| {
      assert Perform(v, op).writes[..0] == [];
      NoWrites(v.disk);
      MountLogs(v, r, home, log);
    }
  }

  lemma RemoveKeeps(v: Vol, op: Op, r: nat, home: nat, log: seq<Payload>)
    requires Logs(v, r, home, log) && op.OpRemove?
    ensures KeepsLog(v, op, r, home, log, log)
  {
    hide KeepsLog, Synced, Carries, FieldName, DirSector, Find, Placed;
    var i := Find(v.dir, Key(op.id));
    if i == |v.dir| || v.dir[i].kind == FT_RECORD {
      NothingKeeps(v, op, r, home, log, Refused);
    } else {
      RelabelKeeps(v, op, r, home, log, i, v.dir[i].(present := 0));
    }
  }

  lemma RenameKeeps(v: Vol, op: Op, r: nat, home: nat, log: seq<Payload>)
    requires Logs(v, r, home, log) && op.OpRename?
    ensures KeepsLog(v, op, r, home, log, log)
  {
    hide KeepsLog, Synced, Carries, FieldName, DirSector, Find, NameField;
    var i := Find(v.dir, Key(op.source));
    if i == |v.dir| || v.dir[i].kind == FT_RECORD || |op.target| > NAME_MAX || Find(v.dir, op.target) < |v.dir| {
      NothingKeeps(v, op, r, home, log, Refused);
    } else {
      NewNameUnused(v, op.target);
      RelabelKeeps(v, op, r, home, log, i, v.dir[i].(name := NameField(op.target)));
    }
  }

  lemma MkdirKeeps(v: Vol, op: Op, r: nat, home: nat, log: seq<Payload>)
    requires Logs(v, r, home, log) && op.OpMkdir?
    ensures KeepsLog(v, op, r, home, log, log)
  {
    hide KeepsLog, Synced, Carries, FieldName, DirSector, Find, FindFree, Created, Usable, Alone;
    var id, f := op.id, FindFree(v.dir);
    if |id| > NAME_MAX || Find(v.dir, id) < |v.dir| || f == |v.dir| {
      NothingKeeps(v, op, r, home, log, Perform(v, op).out);
    } else {
      var e' := Created(v.dir[f], id, FT_DIR, 0, 0, 0, 0);
      CreatedShape(v.dir[f], id, FT_DIR, 0, 0, 0, 0);
      NewAdmissible(v, v.sup, r, f, id, e');
      RelabelKeeps(v, op, r, home, log, f, e');
    }
  }

  // ---- swaps --------------------------------------------------------------------------------------------

  lemma SwapKeeps(v: Vol, op: Op, r: nat, home: nat, log: seq<Payload>)
    requires Logs(v, r, home, log) && op.OpSwapRename?
    ensures KeepsLog(v, op, r, home, log, log)
  {
    hide KeepsLog, Logs, FieldName, DirSector, Find, NameField, Usable;
    var i, j := Find(v.dir, Key(op.source)), Find(v.dir, op.target);
    if i == |v.dir| || v.dir[i].kind != FT_DURABLE || |op.target| > NAME_MAX
       || (j < |v.dir| && v.dir[j].kind == FT_RECORD) {
      NothingKeeps(v, op, r, home, log, Refused);
    } else if j == |v.dir| {
      FreshSwapKeeps(v, op, r, home, log, i);
    } else {
      SwapOverKeeps(v, op, r, home, log, i, j);
    }
  }

  lemma FreshSwapKeeps(v: Vol, op: Op, r: nat, home: nat, log: seq<Payload>, i: nat)
    requires Logs(v, r, home, log) && op.OpSwapRename? && i == Find(v.dir, Key(op.source)) < |v.dir|
    requires v.dir[i].kind == FT_DURABLE && |op.target| <= NAME_MAX && Find(v.dir, op.target) == |v.dir|
    ensures KeepsLog(v, op, r, home, log, log)
  {
    hide KeepsLog, Synced, Carries, FieldName, DirSector, Find, NameField;
    NewNameUnused(v, op.target);
    var e' := v.dir[i].(name := NameField(op.target));
    var w := PersistEntry(v.sup, v.dir[i := e'], i);
    assert [] + [w] == [w];
    RelabelKeeps(v, op, r, home, log, i, e');
  }

  /** The two volumes of a swap over a present target both carry the log. */
  lemma SwappedLogs(v: Vol, r: nat, home: nat, log: seq<Payload>, i: nat, j: nat, target: CString)
    requires Logs(v, r, home, log) && i < |v.dir| && i != r && v.dir[i].present != 0
    requires j == Find(v.dir, target) < |v.dir| && j != r && |target| <= NAME_MAX
    ensures var (v1, v2) := Swapped(v, i, j, target); Logs(v1, r, home, log) && Logs(v2, r, home, log)
  {
    hide EncodeSuper, DirSector, DecodeEntry, Apply, FieldName, Synced, Carries, NameField, Find, Logs, Usable, Alone;
    var (v1, v2) := Swapped(v, i, j, target);
    RelabelLogs(v, r, home, log, j, v.dir[j].(present := 0));
    TargetFreed(v, v1, r, i, j, target);
    RelabelLogs(v1, r, home, log, i, v2.dir[i]);
  }

  lemma SamePlace(v: Vol, r: nat, i: nat, e': Entry)
    requires Usable(v) && Alone(v, r) && i < |v.dir| && i != r && v.dir[i].present != 0
    requires e' == v.dir[i].(name := e'.name)
    ensures Placed(v.sup, e') && Apart(v.dir[r], e')
  {
    hide FieldName;
    assert Placed(v.sup, v.dir[i]) && Apart(v.dir[r], v.dir[i]);
  }

  /** With the target's old holder cleared, the name is free for slot i. */
  lemma TargetFreed(v: Vol, v1: Vol, r: nat, i: nat, j: nat, target: CString)
    requires Usable(v) && Alone(v, r) && i < |v.dir| && i != r && |target| <= NAME_MAX
    requires j == Find(v.dir, target) < |v.dir| && j != r < |v.dir| && (i == j || v.dir[i].present != 0)
    requires v1.dir == v.dir[j := v.dir[j].(present := 0)] && v1.sup == v.sup
    ensures Admissible(v1, v1.sup, r, i, v1.dir[i].(name := NameField(target)))
  {
    hide FieldName, NameField, Find, Usable, Alone, Placed, Apart;
    if i != j {
      SamePlace(v, r, i, v.dir[i].(name := NameField(target)));
    }
    forall l | 0 <= l < |v.dir| && l != j && v.dir[l].present != 0 ensures FieldName(v.dir[l].name) != target {
      FindUnique(v, l);
    }
  }

  lemma SwapOverKeeps(v: Vol, op: Op, r: nat, home: nat, log: seq<Payload>, i: nat, j: nat)
    requires Logs(v, r, home, log) && op.OpSwapRename? && i == Find(v.dir, Key(op.source)) < |v.dir|
    requires v.dir[i].kind == FT_DURABLE && |op.target| <= NAME_MAX
    requires j == Find(v.dir, op.target) < |v.dir| && v.dir[j].kind != FT_RECORD
    ensures KeepsLog(v, op, r, home, log, log)
  {
    hide FieldName, DirSector, Find, NameField, Logs, Usable, Mounted, Apply;
    SwappedLogs(v, r, home, log, i, j, op.target);
    SwapWrites(v, op.source, op.target);
    var (v1, v2) := Swapped(v, i, j, op.target);
    var ws := Perform(v, op).writes;
    assert |ws| == 2 && ws[..1] == [ws[0]];
    MountLogs(v1, r, home, log);
    UncutKeeps(v, op, r, home, log);
    forall k | 0 <= k < |ws| ensures Logs(Remount(v, op, k), r, home, log) {
      if k == 1 {
        assert CrashDisk(v, Perform(v, op), 1) == v1.disk;
      }
    }
  }

  // ---- appends ------------------------------------------------------------------------------------------

  lemma AppendKeeps(v: Vol, op: Op, r: nat, home: nat, log: seq<Payload>)
    requires Logs(v, r, home, log) && (op.OpNrecAppend? || op.OpDurableWrite?) && OpFits(v.sup, op)
    ensures KeepsLog(v, op, r, home, log, log)
  {
    hide KeepsLog, Logs, FieldName, DirSector, Find, FindFree, Usable, Extend, Opened, Adopted;
    var id, p, i, f := op.id, op.p, Find(v.dir, op.id), FindFree(v.dir);
    var kind := if op.OpNrecAppend? then FT_NREC else FT_DURABLE;
    if |id| > NAME_MAX || (i == |v.dir| && f == |v.dir|) {
      NothingKeeps(v, op, r, home, log, Perform(v, op).out);
    } else if i == |v.dir| {
      CreateKeeps(v, op, r, home, log, f, kind);
    } else if v.dir[i].kind == kind {
      GrowKeeps(v, op, r, home, log, i);
    } else if Adopts(v, op) {
      AdoptKeeps(v, op, r, home, log, i);
    } else {
      NothingKeeps(v, op, r, home, log, Refused);
    }
  }

  lemma GrowKeeps(v: Vol, op: Op, r: nat, home: nat, log: seq<Payload>, i: nat)
    requires Logs(v, r, home, log) && (op.OpNrecAppend? || op.OpDurableWrite?)
    requires OpFits(v.sup, op) && |op.id| <= NAME_MAX
    requires i == Find(v.dir, op.id) < |v.dir| && v.dir[i].kind == if op.OpNrecAppend? then FT_NREC else FT_DURABLE
    requires !Adopts(v, op)
    ensures KeepsLog(v, op, r, home, log, log)
  {
    hide Logs, FieldName, Find, Usable, Extend, Mounted, CrashDisk;
    OtherGrowable(v, i);
    assert Perform(v, op) == Extend(v, i, op.p);
    ExtendLogs(v, r, home, log, i, op.p);
    forall k | 0 <= k < |Perform(v, op).writes| ensures Logs(Remount(v, op, k), r, home, log) {
      ExtendCutLogs(v, r, home, log, i, op.p, k);
    }
  }

  lemma CreateKeeps(v: Vol, op: Op, r: nat, home: nat, log: seq<Payload>, f: nat, kind: u32)
    requires Logs(v, r, home, log) && (op.OpNrecAppend? || op.OpDurableWrite?)
    requires OpFits(v.sup, op) && |op.id| <= NAME_MAX
    requires Find(v.dir, op.id) == |v.dir| && f == FindFree(v.dir) < |v.dir|
    requires kind == if op.OpNrecAppend? then FT_NREC else FT_DURABLE
    ensures KeepsLog(v, op, r, home, log, log)
  {
    hide Logs, FieldName, Find, FindFree, Usable, Extend, Mounted, Opened;
    var o := Opened(v, f, op.id, kind);
    OpenedLogs(v, r, home, log, f, op.id, kind);
    OpenedShape(v, f, op.id, kind);
    var ef := Extend(o, f, op.p);
    assert Perform(v, op) == ef;
    ExtendLogs(o, r, home, log, f, op.p);
    assert After(v, ef) == After(o, ef);
    forall k | 0 <= k < |ef.writes| ensures Logs(Remount(v, op, k), r, home, log) {
      ExtendCutLogs(o, r, home, log, f, op.p, k);
      assert CrashDisk(v, ef, k) == CrashDisk(o, ef, k);
    }
  }

  lemma AdoptedLogs(v: Vol, op: Op, r: nat, home: nat, log: seq<Payload>, i: nat)
    requires Logs(v, r, home, log) && Adopts(v, op) && i == Find(v.dir, op.id)
    ensures var v1 := AdoptedVol(v, op);
            Logs(v1, r, home, log) && i != r && Growable(v1, i) && v1.dir[i].present != 0 && v1.dir[i].kind == FT_NREC
            && v1.sup == v.sup
  {
    hide Logs, FieldName, Find, Usable, DirSector, Apply, Alone;
    AdoptedShape(v, i);
    AdoptAdmissible(v, r, i);
    RelabelLogs(v, r, home, log, i, v.dir[i].(kind := FT_NREC, appendOnly := 1));
    OtherGrowable(AdoptedVol(v, op), i);
  }

  lemma AdoptAdmissible(v: Vol, r: nat, i: nat)
    requires Usable(v) && Alone(v, r) && i < |v.dir| && v.dir[i].present != 0 && v.dir[i].kind == FT_DURABLE
    ensures i != r && Admissible(v, v.sup, r, i, v.dir[i].(kind := FT_NREC, appendOnly := 1))
  {
    hide FieldName;
    assert Placed(v.sup, v.dir[i]) && Apart(v.dir[r], v.dir[i]);
  }

  lemma AdoptKeeps(v: Vol, op: Op, r: nat, home: nat, log: seq<Payload>, i: nat)
    requires Logs(v, r, home, log) && Adopts(v, op) && OpFits(v.sup, op) && i == Find(v.dir, op.id)
    ensures KeepsLog(v, op, r, home, log, log)
  {
    hide Logs, FieldName, Find, Usable, Extend, Mounted, Adopted, DirSector;
    var a, v1 := Adopted(v, i), AdoptedVol(v, op);
    AdoptedLogs(v, op, r, home, log, i);
    var ef, pf := Extend(v1, i, op.p), Perform(v, op);
    assert pf == ef.(writes := a.writes + ef.writes);
    AfterConcat(v, a, ef);
    ExtendLogs(v1, r, home, log, i, op.p);
    UncutKeeps(v, op, r, home, log);
    AdoptedWrites(v, i);
    forall k | 0 <= k < |pf.writes| ensures Logs(Remount(v, op, k), r, home, log) {
      if 0 < k {
        ApplyConcat(v.disk, a.writes, ef.writes[..k - 1]);
        assert pf.writes[..k] == a.writes + ef.writes[..k - 1];
        ExtendCutLogs(v1, r, home, log, i, op.p, k - 1);
        assert CrashDisk(v, pf, k) == CrashDisk(v1, ef, k - 1);
      }
    }
  }

  lemma AdoptedWrites(v: Vol, i: nat)
    requires Geometry(v) && i < |v.dir|
    ensures |Adopted(v, i).writes| == 1
  {
  }

  // ---- blobs and markers --------------------------------------------------------------------------------

  /** The same directory over changed sectors. */
  lemma SameDirLogs(v: Vol, r: nat, home: nat, log: seq<Payload>, d: Disk, sup': Super)
    requires Logs(v, r, home, log) && |d| == |v.disk| && d[0] == EncodeSuper(sup')
    requires sup' == v.sup.(nextFree := sup'.nextFree) && v.sup.nextFree <= sup'.nextFree <= v.sup.totalSectors
    requires forall s :: 1 <= s < DATA_START ==> d[s] == v.disk[s]
    requires Inside(v.disk, v.dir[r]) && SameExtent(v.disk, d, v.dir[r])
    ensures Logs(Vol(d, sup', v.dir), r, home, log)
  {
    hide EncodeSuper, DecodeEntry, FieldName, Carries;
    var u := Vol(d, sup', v.dir);
    forall j | 0 <= j < MAX_ENTRIES ensures SyncedAt(d, v.dir, j) {
      assert SyncedAt(v.disk, v.dir, j);
    }
    assert Usable(u) && Alone(u, r);
    Kept(v, u, r, home, log);
  }

  lemma RecordInside(v: Vol, r: nat, home: nat, log: seq<Payload>)
    requires Logs(v, r, home, log)
    ensures ExtentOk(v.sup, v.dir[r]) && Fits(v.dir[r]) && Growable(v, r) && Inside(v.disk, v.dir[r])
    ensures v.disk[0] == EncodeSuper(v.sup)
    ensures forall j :: 0 <= j < |v.dir| && j != r && v.dir[j].present != 0 ==> Apart(v.dir[r], v.dir[j])
    ensures Carries(v.disk, v.dir[r], home, log)
  {
    hide EncodeSuper, FieldName, SyncedAt, Carries;
  }

  /** Free sectors written, and perhaps the superblock. */
  lemma FreshLogs(v: Vol, r: nat, home: nat, log: seq<Payload>, secs: seq<Sector>, sup': Super)
    requires Logs(v, r, home, log) && v.sup.nextFree + |secs| <= v.sup.totalSectors
    requires sup' == v.sup.(nextFree := sup'.nextFree) && v.sup.nextFree <= sup'.nextFree <= v.sup.totalSectors
    ensures Logs(Vol(Put(Blit(v.disk, v.sup.nextFree, secs), PersistSuper(sup')), sup', v.dir), r, home, log)
    ensures Logs(Vol(Blit(v.disk, v.sup.nextFree, secs), v.sup, v.dir), r, home, log)
  {
    hide EncodeSuper, Logs, Alone, Usable;
    RecordInside(v, r, home, log);
    var d := Blit(v.disk, v.sup.nextFree, secs);
    SameDirLogs(v, r, home, log, d, v.sup);
    SameDirLogs(v, r, home, log, Put(d, PersistSuper(sup')), sup');
  }

  lemma BlobKeeps(v: Vol, op: Op, r: nat, home: nat, log: seq<Payload>)
    requires Logs(v, r, home, log) && WritesBlob(op) && OpFits(v.sup, op)
    ensures KeepsLog(v, op, r, home, log, log)
  {
    hide KeepsLog, Logs, FieldName, DirSector, Find, FindFree, Usable, CreateBlob, ContentEq, Pack, Created;
    var id, p, i, f := op.id, op.p, Find(v.dir, op.id), FindFree(v.dir);
    if |id| > NAME_MAX || (i == |v.dir| && f == |v.dir|)
       || (i < |v.dir| && (op.OpBlobWriteOnce? || v.dir[i].kind == FT_RECORD)) {
      NothingKeeps(v, op, r, home, log, Perform(v, op).out);
    } else if i == |v.dir| {
      CreateBlobOut(v, f, id, p);
      if v.sup.nextFree + BlobSpan(|p|) > v.sup.totalSectors {
        CreateBlobNothing(v, f, id, p);
        NothingKeeps(v, op, r, home, log, NoSpace);
      } else {
        NewBlobKeeps(v, op, r, home, log, f);
      }
    } else {
      RewriteKeeps(v, op, r, home, log, i);
    }
  }

  lemma CreateBlobNothing(v: Vol, f: nat, id: CString, p: seq<byte>)
    requires Usable(v) && SizeOk(v.sup, |p|) && |id| <= NAME_MAX && f < |v.dir|
    requires v.sup.nextFree + BlobSpan(|p|) > v.sup.totalSectors
    ensures CreateBlob(v, f, id, p) == Nothing(v, NoSpace)
  {
  }

  /** The three states of a new blob's sectors. */
  lemma BlobDisks(v: Vol, f: nat, id: CString, p: seq<byte>, k: nat)
    requires Usable(v) && SizeOk(v.sup, |p|) && |id| <= NAME_MAX && f < |v.dir|
    requires v.sup.nextFree + BlobSpan(|p|) <= v.sup.totalSectors && k <= BlobSpan(|p|) + 1
    requires |CreateBlob(v, f, id, p).writes| == BlobSpan(|p|) + 2
    ensures var secs, span := Pack(p, BlobSpan(|p|)), BlobSpan(|p|);
            CrashDisk(v, CreateBlob(v, f, id, p), k)
            == if k <= span then Blit(v.disk, v.sup.nextFree, secs[..k])
               else Relabeled(Vol(Blit(v.disk, v.sup.nextFree, secs), v.sup, v.dir), f,
                              Created(v.dir[f], id, FT_BLOB, v.sup.nextFree, |p|, span, 0)).disk
  {
    hide EncodeSuper, DirSector, FieldName, Apply, Created, Pack, Usable;
    var ef, secs, span := CreateBlob(v, f, id, p), Pack(p, BlobSpan(|p|)), BlobSpan(|p|);
    var data, we := Burst(v.sup.nextFree, secs), PersistEntry(ef.sup, ef.dir, f);
    if k <= span {
      assert ef.writes[..k] == data[..k] == Burst(v.sup.nextFree, secs[..k]);
      ApplyBurst(v.disk, v.sup.nextFree, secs[..k]);
    } else {
      assert ef.writes[..span + 1] == data + [we];
      LastApply(v.disk, data, we);
      ApplyBurst(v.disk, v.sup.nextFree, secs);
      SingleWrite(Blit(v.disk, v.sup.nextFree, secs), we);
    }
  }

  lemma NewBlobKeeps(v: Vol, op: Op, r: nat, home: nat, log: seq<Payload>, f: nat)
    requires Logs(v, r, home, log) && WritesBlob(op) && OpFits(v.sup, op) && |op.id| <= NAME_MAX
    requires Find(v.dir, op.id) == |v.dir| && f == FindFree(v.dir) < |v.dir|
    requires v.sup.nextFree + BlobSpan(|op.p|) <= v.sup.totalSectors
    ensures KeepsLog(v, op, r, home, log, log)
  {
    hide Logs, FieldName, DirSector, Find, FindFree, Usable, CreateBlob, Pack, Created, EncodeSuper, CrashDisk, Apply,
         Mounted, Admissible, Alone, After, Relabeled;
    var id, p, span := op.id, op.p, BlobSpan(|op.p|);
    CreateBlobOut(v, f, id, p);
    CreateBlobDisk(v, f, id, p);
    var ef := CreateBlob(v, f, id, p);
    assert Perform(v, op) == ef;
    var secs, e' := Pack(p, span), Created(v.dir[f], id, FT_BLOB, v.sup.nextFree, |p|, span, 0);
    CreatedShape(v.dir[f], id, FT_BLOB, v.sup.nextFree, |p|, span, 0);
    NewAdmissible(v, v.sup, r, f, id, e');
    NewAdmissible(v, ef.sup, r, f, id, e');
    FreshLogs(v, r, home, log, secs, ef.sup);
    var v1, v2 := Vol(Blit(v.disk, v.sup.nextFree, secs), v.sup, v.dir), Staged(v, p, span, ef.sup);
    SameAdmissible(v, v1, v.sup, r, f, e');
    SameAdmissible(v, v2, ef.sup, r, f, e');
    RelabelLogs(v1, r, home, log, f, e');
    RelabelLogs(v2, r, home, log, f, e');
    MountLogs(Relabeled(v1, f, e'), r, home, log);
    forall k | 0 <= k < |ef.writes| ensures Logs(Remount(v, op, k), r, home, log) {
      BlobDisks(v, f, id, p, k);
      if k <= span {
        FreshLogs(v, r, home, log, secs[..k], ef.sup);
        MountLogs(Vol(Blit(v.disk, v.sup.nextFree, secs[..k]), v.sup, v.dir), r, home, log);
      } else {
        RelabeledDisk(v1, f, e');
      }
    }
  }

  lemma RelabeledDisk(v: Vol, i: nat, e': Entry)
    requires Geometry(v) && i < |v.dir|
    ensures Relabeled(v, i, e') == Vol(Relabeled(v, i, e').disk, v.sup, v.dir[i := e'])
  {
  }

  lemma SameAdmissible(v: Vol, u: Vol, sup': Super, r: nat, i: nat, e': Entry)
    requires r < |v.dir| && u.dir == v.dir && Admissible(v, sup', r, i, e')
    ensures Admissible(u, sup', r, i, e')
  {
  }

  lemma RewriteKeeps(v: Vol, op: Op, r: nat, home: nat, log: seq<Payload>, i: nat)
    requires Logs(v, r, home, log) && op.OpMarkerWrite? && OpFits(v.sup, op) && |op.id| <= NAME_MAX
    requires i == Find(v.dir, op.id) < |v.dir| && v.dir[i].kind != FT_RECORD
    ensures KeepsLog(v, op, r, home, log, log)
  {
    hide Logs, FieldName, DirSector, Find, Usable, Pack, Created, EncodeSuper, Apply, Mounted, Admissible, Alone;
    var id, p, e := op.id, op.p, v.dir[i];
    var span := if BlobSpan(|p|) > e.capacity then e.capacity else BlobSpan(|p|);
    var secs, e' := Pack(p, span), Created(e, id, FT_BLOB, e.start, |p|, e.capacity, 0);
    var data, ef := Burst(e.start, secs), Perform(v, op);
    OwnDataLogs(v, r, home, log, i, secs);
    CreatedShape(e, id, FT_BLOB, e.start, |p|, e.capacity, 0);
    RewriteAdmissible(v, r, i, e');
    var v1 := Vol(Blit(v.disk, e.start, secs), v.sup, v.dir);
    SameAdmissible(v, v1, v.sup, r, i, e');
    RelabelLogs(v1, r, home, log, i, e');
    var we := PersistEntry(v.sup, v.dir[i := e'], i);
    LastApply(v.disk, data, we);
    ApplyBurst(v.disk, e.start, secs);
    SingleWrite(v1.disk, we);
    assert After(v, ef) == Relabeled(v1, i, e');
    forall k | 0 <= k < |ef.writes| ensures Logs(Remount(v, op, k), r, home, log) {
      assert ef.writes[..k] == data[..k] == Burst(e.start, secs[..k]);
      ApplyBurst(v.disk, e.start, secs[..k]);
      OwnDataLogs(v, r, home, log, i, secs[..k]);
      MountLogs(Vol(Blit(v.disk, e.start, secs[..k]), v.sup, v.dir), r, home, log);
    }
  }

  /** Sectors of another entry's extent written. */
  lemma OwnDataLogs(v: Vol, r: nat, home: nat, log: seq<Payload>, i: nat, secs: seq<Sector>)
    requires Logs(v, r, home, log) && i < |v.dir| && i != r && v.dir[i].present != 0 && |secs| <= v.dir[i].capacity
    ensures v.dir[i].start + |secs| <= |v.disk|
    ensures Logs(Vol(Blit(v.disk, v.dir[i].start, secs), v.sup, v.dir), r, home, log)
  {
    hide EncodeSuper, Logs, Alone, FieldName;
    RecordInside(v, r, home, log);
    assert Placed(v.sup, v.dir[i]) && Apart(v.dir[r], v.dir[i]);
    SameDirLogs(v, r, home, log, Blit(v.disk, v.dir[i].start, secs), v.sup);
  }

  lemma RewriteAdmissible(v: Vol, r: nat, i: nat, e': Entry)
    requires Usable(v) && Alone(v, r) && i < |v.dir| && i != r < |v.dir| && v.dir[i].present != 0
    requires FieldName(e'.name) == FieldName(v.dir[i].name) && e'.kind == FT_BLOB
    requires e'.start == v.dir[i].start && e'.capacity == v.dir[i].capacity
    ensures Admissible(v, v.sup, r, i, e')
  {
    hide FieldName, Alone, Apart, Find;
    SamePlace(v, r, i, v.dir[i]);
    SameApart(v.dir[r], v.dir[i], e');
  }

  lemma SameApart(a: Entry, b: Entry, c: Entry)
    requires Apart(a, b) && c.start == b.start && c.capacity == b.capacity
    ensures Apart(a, c)
  {
  }

  // ---- the record itself --------------------------------------------------------------------------------

  lemma RecordKeeps(v: Vol, op: Op, r: nat, home: nat, log: seq<Payload>)
    requires Logs(v, r, home, log) && op.OpRecordWriteAt? && OpFits(v.sup, op)
    ensures |op.p| < 0xFFFF_0000
    ensures KeepsLog(v, op, r, home, log, if Perform(v, op).out == Done then log + [op.p] else log)
  {
    hide KeepsLog, Logs, FieldName, DirSector, Find, Usable, Pack, RecordImage;
    RecordFound(v, r);
    RecordInside(v, r, home, log);
    var e := v.dir[r];
    if op.off != e.length || op.off % 512 != 0 {
      NothingKeeps(v, op, r, home, log, Refused);
    } else if op.off / 512 + RecordSpan(|op.p|) > e.capacity {
      NothingKeeps(v, op, r, home, log, NoSpace);
    } else {
      RecordDone(v, op, r, home, log);
    }
  }

  lemma RecordDone(v: Vol, op: Op, r: nat, home: nat, log: seq<Payload>)
    requires Logs(v, r, home, log) && op.OpRecordWriteAt? && OpFits(v.sup, op)
    requires r == Find(v.dir, RECORD_NAME) && op.off == v.dir[r].length && op.off % 512 == 0 && |op.p| < 0xFFFF_0000
    requires op.off / 512 + RecordSpan(|op.p|) <= v.dir[r].capacity
    ensures Perform(v, op).out == Done && KeepsLog(v, op, r, home, log, log + [op.p])
  {
    hide Logs, FieldName, DirSector, Find, Usable, Pack, RecordImage, Mounted, Alone, EncodeSuper, Apply, FileBytes,
         Carries,
         Hidden;
    RecordInside(v, r, home, log);
    var e, off, span, ef := v.dir[r], op.off, RecordSpan(|op.p|), Perform(v, op);
    var secs := Pack(RecordImage(off / 512, op.p), span);
    var data := Burst(e.start + off / 512, secs);
    var e' := e.(length := off + span * 512);
    RecordUnrevealing(v, r, secs);
    forall k | 0 <= k < |ef.writes| ensures Logs(Remount(v, op, k), r, home, log) {
      assert ef.writes[..k] == data[..k];
      HiddenAfter(v, r, v.sup, data[..k]);
      HiddenCarries(v, r, home, log, Apply(v.disk, data[..k]));
      MountLogs(Vol(Apply(v.disk, data[..k]), v.sup, v.dir), r, home, log);
    }
    HiddenAfter(v, r, v.sup, data);
    HiddenCarries(v, r, home, log, Apply(v.disk, data));
    var we := PersistEntry(v.sup, v.dir[r := e'], r);
    LastApply(v.disk, data, we);
    ApplyBurst(v.disk, e.start + off / 512, secs);
    SingleWrite(Apply(v.disk, data), we);
    assert After(v, ef) == Relabeled(Vol(Apply(v.disk, data), v.sup, v.dir), r, e');
    GrownBytes(v, op, r, home, log);
    GrownLogs(Vol(Apply(v.disk, data), v.sup, v.dir), r, home, log, e', log + [op.p]);
  }

  lemma HiddenCarries(v: Vol, r: nat, home: nat, log: seq<Payload>, d: Disk)
    requires Logs(v, r, home, log) && Growable(v, r) && Hidden(v, r, v.sup, d)
    ensures Logs(Vol(d, v.sup, v.dir), r, home, log)
  {
    hide EncodeSuper, DecodeEntry, FieldName, LogBytes;
    var u := Vol(d, v.sup, v.dir);
    forall j | 0 <= j < MAX_ENTRIES ensures SyncedAt(d, v.dir, j) {
      assert SyncedAt(v.disk, v.dir, j);
    }
    assert Usable(u) && Alone(u, r);
  }

  /** The record's sectors carry the longer log before its entry says so. */
  lemma GrownBytes(v: Vol, op: Op, r: nat, home: nat, log: seq<Payload>)
    requires op.OpRecordWriteAt? && |op.p| < 0xFFFF_0000 && r < |v.dir| && Carries(v.disk, v.dir[r], home, log)
    requires op.off == v.dir[r].length && op.off % 512 == 0
    requires v.dir[r].start + op.off / 512 + RecordSpan(|op.p|) <= |v.disk|
    requires op.off + 512 * RecordSpan(|op.p|) < 0x1_0000_0000
    ensures var span := RecordSpan(|op.p|);
            var d := Blit(v.disk, v.dir[r].start + op.off / 512, Pack(RecordImage(op.off / 512, op.p), span));
            Carries(d, v.dir[r].(length := op.off + span * 512), home, log + [op.p])
  {
    hide RecordImage, Pack, RecordBlock, FileBytes;
    RecordBytes(v.disk, v.dir[r].start, op.off, op.off / 512, op.p);
    assert (log + [op.p])[..|log|] == log;
    assert |LogBytes(log)| / 512 % 0x1_0000_0000 == op.off / 512;
  }

  /** The record's own entry lengthened over sectors that carry the longer log. */
  lemma GrownLogs(v: Vol, r: nat, home: nat, log: seq<Payload>, e': Entry, log': seq<Payload>)
    requires Logs(v, r, home, log) && e' == v.dir[r].(length := e'.length) && Fits(e')
    requires Carries(v.disk, e', home, log')
    ensures Logs(Relabeled(v, r, e'), r, home, log')
  {
    hide EncodeSuper, EncodeEntry, DirSector, DecodeEntry, Apply, FieldName, LogBytes;
    var u := Relabeled(v, r, e');
    SingleWrite(v.disk, PersistEntry(v.sup, u.dir, r));
    SyncUpdate(v, u, r);
    RecordInside(v, r, home, log);
    assert Usable(u) && Alone(u, r);
    PutBelow(v.disk, PersistEntry(v.sup, u.dir, r), e'.start, e'.length);
  }

  // ---- every act ----------------------------------------------------------------------------------------

  /** Whatever act is performed or cut off, wherever, the record keeps its place and its log, grown by the payload
      of a record write that was completed. */
  lemma ActKeepsLog(v: Vol, op: Op, r: nat, home: nat, log: seq<Payload>)
    requires Logs(v, r, home, log) && OpFits(v.sup, op)
    ensures op.OpRecordWriteAt? ==> |op.p| < 0xFFFF_0000
    ensures KeepsLog(v, op, r, home, log,
                     if op.OpRecordWriteAt? && Perform(v, op).out == Done then log + [op.p] else log)
  {
    hide KeepsLog, Logs, Perform;
    match op
    case OpRecordWriteAt(_, _) => RecordKeeps(v, op, r, home, log);
    case OpNrecAppend(_, _) => AppendKeeps(v, op, r, home, log);
    case OpDurableWrite(_, _) => AppendKeeps(v, op, r, home, log);
    case OpSwapRename(_, _) => SwapKeeps(v, op, r, home, log);
    case OpBlobWriteOnce(_, _) => BlobKeeps(v, op, r, home, log);
    case OpRemove(_) => RemoveKeeps(v, op, r, home, log);
    case OpRename(_, _) => RenameKeeps(v, op, r, home, log);
    case OpMarkerWrite(_, _) => BlobKeeps(v, op, r, home, log);
    case OpMkdir(_) => MkdirKeeps(v, op, r, home, log);
  }
}
