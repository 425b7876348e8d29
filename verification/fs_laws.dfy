/** Every act keeps the volume sound and changes the file map exactly as FileMap.Next says. */
module FsLaws {
  import opened Bytes
  import opened DiskLayout
  import opened Volume
  import opened Acts
  import opened AppendLaws
  import opened FileMap

  // ---- one slot changes -----------------------------------------------------------------------------

  lemma GoodUpdate(v: Vol, v': Vol, i: nat)
    requires Good(v) && Geometry(v') && i < |v.dir| && v'.dir == v.dir[i := v'.dir[i]]
    requires v'.sup.nextFree >= v.sup.nextFree
    requires v'.dir[i].present != 0 ==> ExtentOk(v'.sup, v'.dir[i])
    requires v'.dir[i].present != 0 ==> forall j :: 0 <= j < |v.dir| && j != i && v.dir[j].present != 0 ==>
               Apart(v'.dir[i], v.dir[j]) && FieldName(v'.dir[i].name) != FieldName(v.dir[j].name)
    ensures Good(v')
  {
  }

  lemma SyncUpdate(v: Vol, v': Vol, i: nat)
    requires Geometry(v) && Synced(v) && Geometry(v') && i < |v.dir| && v'.dir == v.dir[i := v'.dir[i]]
    requires v'.disk[0] == EncodeSuper(v'.sup)
    requires forall s :: 1 <= s < DATA_START && s != 1 + i / 2 ==> v'.disk[s] == v.disk[s]
    requires v'.disk[1 + i / 2] == DirSector(v'.dir, i)
    ensures Synced(v')
  {
    hide EncodeSuper, EncodeEntry, DirSector, DecodeEntry;
    forall j | 0 <= j < MAX_ENTRIES ensures SyncedAt(v'.disk, v'.dir, j) {
      PersistLaw(v'.disk, v'.sup, v'.dir, i, j);
      assert SyncedAt(v.disk, v.dir, j);
      assert Put(v'.disk, PersistEntry(v'.sup, v'.dir, i)) == v'.disk;
    }
  }

  ghost function Drop(m: Files, e: Entry): Files {
    if e.present == 0 then m else Without(m, FieldName(e.name))
  }

  /** The map after slot i changed: without the old entry, with the new one. */
  lemma SlotUpdate(v: Vol, v': Vol, i: nat)
    requires Good(v) && Good(v') && i < |v.dir| && |v'.disk| == |v.disk| && OthersKept(v, v', i)
    ensures v'.dir[i].present == 0 ==> Abs(v') == Drop(Abs(v), v.dir[i])
    ensures v'.dir[i].present != 0 ==> Inside(v'.disk, v'.dir[i])
    ensures v'.dir[i].present != 0 ==>
              Abs(v') == Drop(Abs(v), v.dir[i])[FieldName(v'.dir[i].name) := FileOf(v'.disk, v'.dir[i])]
  {
    hide Abs, Find, FileOf, FieldName;
    var m := Drop(Abs(v), v.dir[i]);
    var m' := if v'.dir[i].present == 0 then m else m[FieldName(v'.dir[i].name) := FileOf(v'.disk, v'.dir[i])];
    forall k: CString ensures k in Abs(v') <==> k in m' {
      AbsUpdate(v, v', i, k);
    }
    forall k: CString | k in m' ensures Abs(v')[k] == m'[k] {
      AbsUpdate(v, v', i, k);
    }
  }

  lemma FoundFile(v: Vol, k: CString)
    requires Good(v) && Find(v.dir, k) < |v.dir|
    ensures k in Abs(v) && Abs(v)[k].kind == v.dir[Find(v.dir, k)].kind
    ensures Fits(v.dir[Find(v.dir, k)]) ==> Abs(v)[k].File? && |Abs(v)[k].bytes| == v.dir[Find(v.dir, k)].length
    ensures !Fits(v.dir[Find(v.dir, k)]) ==> Abs(v)[k].Overrun?
  {
  }

  // ---- appends ----------------------------------------------------------------------------------------

  lemma AppendedGood(v: Vol, i: nat, n: nat, v': Vol)
    requires Good(v) && Growable(v, i) && v.dir[i].present != 0 && Relinked(v, i, n, v') && |v'.disk| == |v.disk|
    ensures Good(v')
  {
    var e, e' := v.dir[i], v'.dir[i];
    forall j | 0 <= j < |v.dir| && j != i && v.dir[j].present != 0
      ensures Apart(e', v.dir[j]) && FieldName(e'.name) != FieldName(v.dir[j].name)
    {
      assert Apart(e, v.dir[j]);
    }
    GoodUpdate(v, v', i);
  }

  lemma AppendedOthers(v: Vol, i: nat, p: seq<byte>, v': Vol)
    requires Good(v) && Growable(v, i) && v.dir[i].present != 0
    requires Relinked(v, i, |p|, v') && Appended(v, i, p, v')
    ensures OthersKept(v, v', i)
  {
    hide EncodeSuper, DirSector;
    forall j | 0 <= j < |v.dir| && j != i && v.dir[j].present != 0 ensures SameExtent(v.disk, v'.disk, v.dir[j]) {
      assert Apart(v.dir[i], v.dir[j]);
    }
  }

  /** A completed append keeps the volume sound and extends one file. */
  lemma AppendedLaw(v: Vol, i: nat, p: seq<byte>, v': Vol)
    requires Sound(v) && Growable(v, i) && v.dir[i].present != 0 && v.dir[i].kind != FT_RECORD
    requires Relinked(v, i, |p|, v') && Appended(v, i, p, v')
    ensures Sound(v')
    ensures var k := FieldName(v.dir[i].name);
            k in Abs(v) && Abs(v)[k] == File(v.dir[i].kind, FileBytes(v.disk, v.dir[i].start, v.dir[i].length))
            && Abs(v') == Abs(v)[k := File(v.dir[i].kind, Abs(v)[k].bytes + p)]
  {
    hide EncodeSuper, EncodeEntry, DirSector, DecodeEntry, SyncedAt, OthersKept, FieldName, Abs, FileBytes, Drop;
    var k := FieldName(v.dir[i].name);
    AppendedGood(v, i, |p|, v');
    assert Synced(v') by { SyncUpdate(v, v', i); }
    AppendedOthers(v, i, p, v');
    SlotFile(v, i);
    SlotUpdate(v, v', i);
    Replaced(Abs(v), v.dir[i], FileOf(v'.disk, v'.dir[i]));
  }

  lemma SlotFile(v: Vol, i: nat)
    requires Good(v) && i < |v.dir| && v.dir[i].present != 0
    ensures var k := FieldName(v.dir[i].name);
            k in Abs(v) && Inside(v.disk, v.dir[i]) && Abs(v)[k] == FileOf(v.disk, v.dir[i])
  {
    FindUnique(v, i);
  }

  lemma Replaced(m: Files, e: Entry, f: File)
    ensures Drop(m, e)[FieldName(e.name) := f] == m[FieldName(e.name) := f]
  {
  }

  lemma ExtendLaw(v: Vol, i: nat, p: seq<byte>)
    requires Sound(v) && Growable(v, i) && v.dir[i].present != 0 && v.dir[i].kind != FT_RECORD && SizeOk(v.sup, |p|)
    ensures var k, ef := FieldName(v.dir[i].name), Extend(v, i, p);
            && Sound(After(v, ef)) && ef.out in {Done, NoSpace}
            && k in Abs(v) && Abs(v)[k] == File(v.dir[i].kind, FileBytes(v.disk, v.dir[i].start, v.dir[i].length))
            && Abs(After(v, ef))
               == (if ef.out == Done then Abs(v)[k := File(v.dir[i].kind, Abs(v)[k].bytes + p)] else Abs(v))
  {
    hide EncodeSuper, EncodeEntry, DirSector, DecodeEntry, DataWrites, Grow, Abs, FieldName;
    var ef := Extend(v, i, p);
    SlotFile(v, i);
    if ef.out == Done {
      ExtendAppends(v, i, p);
      AppendedLaw(v, i, p, After(v, ef));
    } else {
      NoWrites(v.disk);
      assert After(v, ef) == v;
    }
  }

  /** Creating an empty file in a free slot: sound at once, and visible in memory only until it is persisted. */
  lemma OpenedLaw(v: Vol, i: nat, id: CString, kind: u32)
    requires Sound(v) && |id| <= NAME_MAX && Find(v.dir, id) == |v.dir| && i < |v.dir| && v.dir[i].present == 0
    requires Grows(kind) && kind != FT_RECORD
    ensures var v' := Opened(v, i, id, kind);
            && Sound(v') && Growable(v', i) && v'.dir[i].present != 0 && FieldName(v'.dir[i].name) == id
            && id !in Abs(v) && Abs(v') == Abs(v)[id := File(kind, [])]
  {
    hide EncodeSuper, EncodeEntry, DirSector, DecodeEntry, Abs, FieldName, Find, Synced, Growable;
    OpenedGrowable(v, i, id, kind);
    OpenedGood(v, i, id, kind);
    OpenedSynced(v, i, id, kind);
    OpenedFiles(v, i, id, kind);
  }

  lemma OpenedGrowable(v: Vol, i: nat, id: CString, kind: u32)
    requires Geometry(v) && |id| <= NAME_MAX && i < |v.dir|
    ensures var v' := Opened(v, i, id, kind);
            Growable(v', i) && v'.dir[i].present != 0 && FieldName(v'.dir[i].name) == id
  {
    hide FieldName;
  }

  lemma OpenedSynced(v: Vol, i: nat, id: CString, kind: u32)
    requires Geometry(v) && Synced(v) && |id| <= NAME_MAX && i < |v.dir| && v.dir[i].present == 0
    requires kind == FT_NREC || kind == FT_DURABLE
    ensures Synced(Opened(v, i, id, kind))
  {
    hide EncodeSuper, EncodeEntry, DirSector, DecodeEntry, FieldName, Created;
    var v' := Opened(v, i, id, kind);
    CreatedShape(v.dir[i], id, kind, v.sup.nextFree, 0, 0, if kind == FT_NREC then 1 else 0);
    forall j | 0 <= j < MAX_ENTRIES ensures SyncedAt(v'.disk, v'.dir, j) {
      assert SyncedAt(v.disk, v.dir, j);
    }
  }

  lemma OpenedFiles(v: Vol, i: nat, id: CString, kind: u32)
    requires Good(v) && |id| <= NAME_MAX && Find(v.dir, id) == |v.dir| && i < |v.dir| && v.dir[i].present == 0
    requires Good(Opened(v, i, id, kind)) && kind != FT_RECORD
    ensures id !in Abs(v) && Abs(Opened(v, i, id, kind)) == Abs(v)[id := File(kind, [])]
  {
    hide Abs, FieldName, Find, Created, Geometry;
    var v' := Opened(v, i, id, kind);
    CreatedShape(v.dir[i], id, kind, v.sup.nextFree, 0, 0, if kind == FT_NREC then 1 else 0);
    AbsAt(v, id);
    OthersRest(v, v', i);
    SlotUpdate(v, v', i);
    assert FileBytes(v'.disk, v'.dir[i].start, 0) == [];
  }

  /** Outside sectors below the data region, a directory-only act changes nothing. */
  lemma OthersRest(v: Vol, v': Vol, i: nat)
    requires Good(v) && i < |v.dir| && |v'.dir| == |v.dir| && v'.dir == v.dir[i := v'.dir[i]] && |v'.disk| == |v.disk|
    requires forall s :: DATA_START <= s < |v.disk| ==> v'.disk[s] == v.disk[s]
    ensures OthersKept(v, v', i)
  {
    hide FieldName;
    forall j | 0 <= j < |v.dir| && j != i && v.dir[j].present != 0 ensures SameExtent(v.disk, v'.disk, v.dir[j]) {
      assert ExtentOk(v.sup, v.dir[j]);
    }
  }

  lemma OpenedGood(v: Vol, i: nat, id: CString, kind: u32)
    requires Good(v) && |id| <= NAME_MAX && Find(v.dir, id) == |v.dir| && i < |v.dir| && v.dir[i].present == 0
    ensures Good(Opened(v, i, id, kind))
  {
    hide FieldName, Created;
    var v' := Opened(v, i, id, kind);
    CreatedShape(v.dir[i], id, kind, v.sup.nextFree, 0, 0, if kind == FT_NREC then 1 else 0);
    forall j | 0 <= j < |v.dir| && v.dir[j].present != 0 ensures FieldName(v.dir[j].name) != id {
      assert !Holds(v.dir[j], id);
    }
    GoodUpdate(v, v', i);
  }

  lemma CreatedShape(was: Entry, id: CString, kind: u32, start: u32, length: u32, capacity: u32, appendOnly: u32)
    requires |id| <= NAME_MAX
    ensures var e := Created(was, id, kind, start, length, capacity, appendOnly);
            FieldName(e.name) == id && e.kind == kind && e.present == 1 && e.start == start
            && e.length == length && e.capacity == capacity
  {
  }

  /** Slot i may hold e': absent, or an allocated extent and a name that clash with no other present entry. */
  ghost predicate Placeable(v: Vol, i: nat, e': Entry) {
    e'.present != 0 ==>
      && ExtentOk(v.sup, e')
      && forall j :: 0 <= j < |v.dir| && j != i && v.dir[j].present != 0 ==>
           Apart(e', v.dir[j]) && FieldName(e'.name) != FieldName(v.dir[j].name)
  }

  /** One directory sector written and nothing else: the shape of every directory-only act. */
  lemma RelabelLaw(v: Vol, i: nat, e': Entry)
    requires Sound(v) && i < |v.dir|
    requires Placeable(v, i, e')
    ensures var v' := Relabeled(v, i, e');
            && Sound(v')
            && (e'.present == 0 ==> Abs(v') == Drop(Abs(v), v.dir[i]))
            && (e'.present != 0 ==> Inside(v.disk, e'))
            && (e'.present != 0 ==> Abs(v') == Drop(Abs(v), v.dir[i])[FieldName(e'.name) := FileOf(v.disk, e')])
  {
    hide EncodeSuper, EncodeEntry, DirSector, DecodeEntry, Apply;
    var dir' := v.dir[i := e'];
    var w := PersistEntry(v.sup, dir', i);
    var v' := Vol(Apply(v.disk, [w]), v.sup, dir');
    SingleWrite(v.disk, w);
    GoodUpdate(v, v', i);
    SyncUpdate(v, v', i);
    OthersRest(v, v', i);
    SlotUpdate(v, v', i);
    if e'.present != 0 && Fits(e') {
      PutBelowExtent(v.disk, w, e');
    }
  }

  lemma PutBelowExtent(d: Disk, w: Write, e: Entry)
    requires w.lba < DATA_START && Inside(d, e) && (e.capacity > 0 ==> DATA_START <= e.start) && Fits(e)
    ensures FileBytes(Put(d, w), e.start, e.length) == FileBytes(d, e.start, e.length)
  {
    if e.capacity > 0 {
      PutBelow(d, w, e.start, e.length);
    }
  }

  lemma AdoptedLaw(v: Vol, i: nat)
    requires Sound(v) && i < |v.dir| && v.dir[i].present != 0 && v.dir[i].kind == FT_DURABLE && v.dir[i].length == 0
    ensures var k, v' := FieldName(v.dir[i].name), After(v, Adopted(v, i));
            && Sound(v') && Growable(v', i) && v'.dir[i].present != 0 && FieldName(v'.dir[i].name) == k
            && k in Abs(v) && Abs(v)[k] == File(FT_DURABLE, []) && Abs(v') == Abs(v)[k := File(FT_NREC, [])]
  {
    hide EncodeSuper, EncodeEntry, DirSector, DecodeEntry, Apply, Abs, FieldName, Drop;
    var k := FieldName(v.dir[i].name);
    SlotFile(v, i);
    RelabelLaw(v, i, v.dir[i].(kind := FT_NREC, appendOnly := 1));
    assert FileBytes(v.disk, v.dir[i].start, 0) == [];
    Replaced(Abs(v), v.dir[i], File(FT_NREC, []));
  }

  lemma AfterConcat(v: Vol, a: Effect, ef: Effect)
    ensures After(v, ef.(writes := a.writes + ef.writes)) == After(After(v, a), ef)
  {
    ApplyConcat(v.disk, a.writes, ef.writes);
  }

  /** What ActLaw promises of one act. */
  ghost predicate Lawful(v: Vol, op: Op)
    requires Good(v) && OpFits(v.sup, op)
  {
    var ef := Perform(v, op);
    && Sound(After(v, ef))
    && Abs(After(v, ef)) == Next(Abs(v), op, ef.out)
    && (Decided(Abs(v), op) ==> (ef.out == Refused <==> Refuses(Abs(v), op)))
  }

  lemma NothingLaw(v: Vol, out: Outcome)
    ensures After(v, Nothing(v, out)) == v
  {
  }

  lemma CreateAppendLaw(v: Vol, id: CString, kind: u32, p: seq<byte>)
    requires Sound(v) && SizeOk(v.sup, |p|) && |id| <= NAME_MAX && Grows(kind) && kind != FT_RECORD
    requires Find(v.dir, id) == |v.dir| && FindFree(v.dir) < |v.dir|
    ensures Growable(Opened(v, FindFree(v.dir), id, kind), FindFree(v.dir))
    ensures var o := Opened(v, FindFree(v.dir), id, kind);
            var ef := Extend(o, FindFree(v.dir), p);
            && id !in Abs(v) && Sound(After(o, ef)) && ef.out in {Done, NoSpace}
            && Abs(After(o, ef)) == Abs(v)[id := File(kind, if ef.out == Done then p else [])]
  {
    hide Extend, Opened, Created, Abs, Find, FindFree, FieldName, Good, Synced, Growable, After;
    var f := FindFree(v.dir);
    OpenedLaw(v, f, id, kind);
    OpenedShape(v, f, id, kind);
    var o := Opened(v, f, id, kind);
    ExtendLaw(o, f, p);
    if Extend(o, f, p).out == Done {
      EmptyThenAppend(Abs(v), Abs(o), Abs(After(o, Extend(o, f, p))), id, kind, p);
    }
  }

  lemma EmptyThenAppend(m: Files, m': Files, m'': Files, k: CString, kind: u32, p: seq<byte>)
    requires m' == m[k := File(kind, [])]
    requires m'' == m'[k := File(kind, m'[k].bytes + p)]
    ensures m'' == m[k := File(kind, p)]
  {
    assert [] + p == p;
  }

  lemma NextFresh(m: Files, id: CString, kind: u32, p: seq<byte>)
    requires id !in m
    ensures NextAppend(m, id, kind, p, Done) == m[id := File(kind, p)]
    ensures NextAppend(m, id, kind, p, NoSpace) == m[id := File(kind, [])]
  {
    assert [] + p == p;
  }

  lemma OpenedShape(v: Vol, i: nat, id: CString, kind: u32)
    requires |id| <= NAME_MAX && i < |v.dir|
    ensures var o := Opened(v, i, id, kind);
            |o.dir| == |v.dir| && o.sup == v.sup && o.disk == v.disk && o.dir[i].kind == kind && o.dir[i].length == 0
  {
  }

  lemma NrecAppendLaw(v: Vol, op: Op)
    requires Sound(v) && op.OpNrecAppend? && OpFits(v.sup, op)
    ensures Lawful(v, op)
  {
    hide Extend, Opened, Adopted, Abs, Find, FindFree, FieldName;
    var id, p, i := op.id, op.p, Find(v.dir, op.id);
    NothingLaw(v, Refused); NothingLaw(v, NoSlot);
    AbsAt(v, id);
    if |id| <= NAME_MAX {
      if i == |v.dir| {
        if FindFree(v.dir) < |v.dir| {
          var f := FindFree(v.dir);
          CreateAppendLaw(v, id, FT_NREC, p);
          NextFresh(Abs(v), id, FT_NREC, p);
          OpenedShape(v, f, id, FT_NREC);
          var o := Opened(v, f, id, FT_NREC);
          assert After(v, Extend(o, f, p)) == After(o, Extend(o, f, p));
          assert Perform(v, op) == Extend(o, f, p);
        }
      } else {
        FoundFile(v, id);
        if v.dir[i].kind == FT_DURABLE && v.dir[i].length == 0 {
          AdoptedLaw(v, i);
          AdoptedShape(v, i);
          ExtendLaw(After(v, Adopted(v, i)), i, p);
          AfterConcat(v, Adopted(v, i), Extend(After(v, Adopted(v, i)), i, p));
        } else if v.dir[i].kind == FT_NREC {
          ExtendLaw(v, i, p);
        }
      }
    }
  }

  lemma AdoptedShape(v: Vol, i: nat)
    requires Geometry(v) && i < |v.dir|
    ensures var a := After(v, Adopted(v, i));
            |a.dir| == |v.dir| && a.sup == v.sup && a.dir[i].kind == FT_NREC && a.dir[i].length == v.dir[i].length
            && a.dir[i].present == v.dir[i].present
  {
    hide EncodeSuper, EncodeEntry, DirSector, DecodeEntry, Apply;
  }

  lemma DurableWriteLaw(v: Vol, op: Op)
    requires Sound(v) && op.OpDurableWrite? && OpFits(v.sup, op)
    ensures Lawful(v, op)
  {
    hide Extend, Opened, Abs, Find, FindFree, FieldName;
    var id, p, i := op.id, op.p, Find(v.dir, op.id);
    NothingLaw(v, Refused); NothingLaw(v, NoSlot);
    AbsAt(v, id);
    if |id| <= NAME_MAX {
      if i == |v.dir| {
        if FindFree(v.dir) < |v.dir| {
          var f := FindFree(v.dir);
          CreateAppendLaw(v, id, FT_DURABLE, p);
          NextFresh(Abs(v), id, FT_DURABLE, p);
          OpenedShape(v, f, id, FT_DURABLE);
          var o := Opened(v, f, id, FT_DURABLE);
          assert After(v, Extend(o, f, p)) == After(o, Extend(o, f, p));
          assert Perform(v, op) == Extend(o, f, p);
        }
      } else {
        FoundFile(v, id);
        if v.dir[i].kind == FT_DURABLE {
          ExtendLaw(v, i, p);
        }
      }
    }
  }

  // ---- data first, names later --------------------------------------------------------------------------

  /** The directory sectors and every present file read the same on d. */
  ghost predicate SameFiles(v: Vol, d: Disk)
    requires Good(v)
  {
    && |d| == |v.disk|
    && (forall s :: 1 <= s < DATA_START ==> d[s] == v.disk[s])
    && forall j :: 0 <= j < |v.dir| && v.dir[j].present != 0 ==>
         Inside(d, v.dir[j]) && FileOf(d, v.dir[j]) == FileOf(v.disk, v.dir[j])
  }

  lemma SameFilesLaw(v: Vol, d: Disk, sup2: Super)
    requires Sound(v) && SameFiles(v, d) && d[0] == EncodeSuper(sup2)
    requires sup2 == v.sup.(nextFree := sup2.nextFree) && v.sup.nextFree <= sup2.nextFree <= v.sup.totalSectors
    ensures Sound(Vol(d, sup2, v.dir)) && Abs(Vol(d, sup2, v.dir)) == Abs(v)
  {
    hide EncodeSuper, DecodeEntry, FieldName, FileOf;
    var v2 := Vol(d, sup2, v.dir);
    assert Good(v2);
    forall j | 0 <= j < MAX_ENTRIES ensures SyncedAt(d, v.dir, j) {
      assert SyncedAt(v.disk, v.dir, j);
    }
    forall k: CString ensures k in Abs(v) <==> k in Abs(v2) {}
    forall k: CString | k in Abs(v) ensures Abs(v2)[k] == Abs(v)[k] {}
  }

  lemma HiddenSame(v: Vol, i: nat, sup': Super, d: Disk)
    requires Good(v) && Growable(v, i) && v.dir[i].present != 0 && Hidden(v, i, sup', d)
    ensures SameFiles(v, d)
  {
    hide EncodeSuper, FieldName;
    forall j | 0 <= j < |v.dir| && v.dir[j].present != 0
      ensures FileOf(d, v.dir[j]) == FileOf(v.disk, v.dir[j])
    {
      if j != i {
        assert Apart(v.dir[i], v.dir[j]);
        SameFile(v.disk, d, v.dir[j]);
      }
    }
  }

  /** Data written to unallocated sectors touches no file. */
  lemma FreshSame(v: Vol, d: Disk)
    requires Good(v) && |d| == |v.disk|
    requires forall s :: 1 <= s < v.sup.nextFree ==> d[s] == v.disk[s]
    ensures SameFiles(v, d)
  {
    forall j | 0 <= j < |v.dir| && v.dir[j].present != 0
      ensures FileOf(d, v.dir[j]) == FileOf(v.disk, v.dir[j])
    {
      SameFile(v.disk, d, v.dir[j]);
    }
  }

  lemma PackedBytes(d: Disk, lo: nat, p: seq<byte>, span: nat)
    requires Ceil(|p|) <= span && lo + span <= |d|
    ensures FileBytes(Blit(d, lo, Pack(p, span)), lo, |p|) == p
  {
    var d' := Blit(d, lo, Pack(p, span));
    forall k | 0 <= k < |p| ensures d'[lo + k / 512][k % 512] == p[k] {
      assert 512 * (k / 512) + k % 512 == k;
    }
  }

  // ---- the fixed record ---------------------------------------------------------------------------------

  /** Writing a record's sectors at the tail leaves the old bytes, then the padded record. */
  lemma RecordBytes(d: Disk, start: nat, off: nat, index: nat, p: seq<byte>)
    requires off % 512 == 0 && |p| < 0xFFFF_0000 && index < 0x1_0000_0000
    requires start + off / 512 + RecordSpan(|p|) <= |d|
    ensures var d' := Blit(d, start + off / 512, Pack(RecordImage(index, p), RecordSpan(|p|)));
            FileBytes(d', start, off + 512 * RecordSpan(|p|)) == FileBytes(d, start, off) + RecordBlock(index, p)
  {
    hide RecordImage;
    var image, span := RecordImage(index, p), RecordSpan(|p|);
    var d' := Blit(d, start + off / 512, Pack(image, span));
    var want := FileBytes(d, start, off) + RecordBlock(index, p);
    forall k | 0 <= k < off + 512 * span ensures d'[start + k / 512][k % 512] == want[k] {
      var s := k / 512;
      assert 512 * s + k % 512 == k;
      if off <= k {
        assert d'[start + s] == PackSector(image, s - off / 512);
        assert 512 * (s - off / 512) + k % 512 == k - off;
      }
    }
    assert FileBytes(d', start, off + 512 * span) == want;
  }

  lemma RecordUnrevealing(v: Vol, i: nat, secs: seq<Sector>)
    requires Growable(v, i) && v.dir[i].length % 512 == 0
    requires v.dir[i].length / 512 + |secs| <= v.dir[i].capacity
    ensures forall w :: w in Burst(v.dir[i].start + v.dir[i].length / 512, secs) ==> Unrevealing(v, i, v.sup, w)
  {
  }

  lemma RecordWriteAtLaw(v: Vol, op: Op)
    requires Sound(v) && op.OpRecordWriteAt? && OpFits(v.sup, op)
    ensures Lawful(v, op)
  {
    hide EncodeSuper, EncodeEntry, DecodeEntry, DirSector, Find, FieldName, Abs, Apply, RecordImage, RecordBlock, Pack;
    var off, p, i := op.off, op.p, Find(v.dir, RECORD_NAME);
    NothingLaw(v, Refused); NothingLaw(v, NoSpace);
    AbsAt(v, RECORD_NAME);
    if i < |v.dir| && v.dir[i].kind == FT_RECORD {
      FoundFile(v, RECORD_NAME);
      if off == v.dir[i].length && off % 512 == 0 && off / 512 + RecordSpan(|p|) <= v.dir[i].capacity {
        RecordDoneLaw(v, i, p);
      }
    }
  }

  lemma RecordDoneLaw(v: Vol, i: nat, p: seq<byte>)
    requires Sound(v) && i == Find(v.dir, RECORD_NAME) < |v.dir| && v.dir[i].kind == FT_RECORD && SizeOk(v.sup, |p|)
    requires v.dir[i].length % 512 == 0 && v.dir[i].length / 512 + RecordSpan(|p|) <= v.dir[i].capacity
    ensures var off, ef := v.dir[i].length, RecordWriteAt(v, v.dir[i].length, p);
            && ef.out == Done && Sound(After(v, ef)) && RECORD_NAME in Abs(v) && Abs(v)[RECORD_NAME].File?
            && var was := Abs(v)[RECORD_NAME];
               Abs(After(v, ef)) == Abs(v)[RECORD_NAME := was.(bytes := was.bytes + RecordBlock(off / 512, p))]
  {
    hide EncodeSuper, EncodeEntry, DecodeEntry, DirSector, Find, FieldName, Abs, Apply, RecordImage, RecordBlock, Pack;
    var e, off, span := v.dir[i], v.dir[i].length, RecordSpan(|p|);
    var secs := Pack(RecordImage(off / 512, p), span);
    var data := Burst(e.start + off / 512, secs);
    var d1 := Apply(v.disk, data);
    RecordUnrevealing(v, i, secs);
    HiddenAfter(v, i, v.sup, data);
    HiddenSame(v, i, v.sup, d1);
    var v1 := Vol(d1, v.sup, v.dir);
    SameFilesLaw(v, d1, v.sup);
    var e' := e.(length := off + span * 512);
    RecordRelabel(v1, i, e');
    var dir' := v.dir[i := e'];
    ApplyConcat(v.disk, data, [PersistEntry(v.sup, dir', i)]);
    ApplyBurst(v.disk, e.start + off / 512, secs);
    RecordBytes(v.disk, e.start, off, off / 512, p);
    SlotFile(v, i);
    Replaced(Abs(v), e, FileOf(d1, e'));
  }

  lemma RecordRelabel(v: Vol, i: nat, e': Entry)
    requires Sound(v) && i < |v.dir| && v.dir[i].present != 0
    requires e' == v.dir[i].(length := e'.length) && Fits(e')
    ensures var v' := Relabeled(v, i, e');
            && Sound(v') && Inside(v.disk, e')
            && Abs(v') == Drop(Abs(v), v.dir[i])[FieldName(e'.name) := FileOf(v.disk, e')]
  {
    hide EncodeSuper, EncodeEntry, DecodeEntry, DirSector, FieldName, Abs, Apply, Synced;
    forall j | 0 <= j < |v.dir| && j != i && v.dir[j].present != 0
      ensures Apart(e', v.dir[j]) && FieldName(e'.name) != FieldName(v.dir[j].name)
    {
      assert Apart(v.dir[i], v.dir[j]);
    }
    RelabelLaw(v, i, e');
  }

  // ---- directory-only acts ------------------------------------------------------------------------------

  lemma RemoveLaw(v: Vol, op: Op)
    requires Sound(v) && op.OpRemove?
    ensures Lawful(v, op)
  {
    hide EncodeSuper, EncodeEntry, DecodeEntry, DirSector, Find, FieldName, Abs, Apply, Synced;
    var i := Find(v.dir, Key(op.id));
    NothingLaw(v, Refused);
    AbsAt(v, Key(op.id));
    if i < |v.dir| && v.dir[i].kind != FT_RECORD {
      RelabelLaw(v, i, v.dir[i].(present := 0));
    }
  }

  /** Giving slot i a new name no other present entry carries moves its file to that name. */
  lemma RenamedLaw(v: Vol, i: nat, target: CString)
    requires Sound(v) && i < |v.dir| && v.dir[i].present != 0 && |target| <= NAME_MAX
    requires target !in Abs(v) || target == FieldName(v.dir[i].name)
    ensures var v' := Relabeled(v, i, v.dir[i].(name := NameField(target)));
            var k := FieldName(v.dir[i].name);
            Sound(v') && k in Abs(v) && Abs(v') == Without(Abs(v), k)[target := Abs(v)[k]]
  {
    hide EncodeSuper, EncodeEntry, DecodeEntry, DirSector, Find, FieldName, Abs, Apply, Synced, Geometry;
    var e' := v.dir[i].(name := NameField(target));
    forall j | 0 <= j < |v.dir| && j != i && v.dir[j].present != 0
      ensures Apart(e', v.dir[j]) && FieldName(e'.name) != FieldName(v.dir[j].name)
    {
      assert Apart(v.dir[i], v.dir[j]);
      SlotFile(v, j);
    }
    SlotFile(v, i);
    RelabelLaw(v, i, e');
  }

  lemma RenameLaw(v: Vol, op: Op)
    requires Sound(v) && op.OpRename?
    ensures Lawful(v, op)
  {
    hide EncodeSuper, EncodeEntry, DecodeEntry, DirSector, Find, FieldName, Abs, Apply, Synced;
    var i := Find(v.dir, Key(op.source));
    NothingLaw(v, Refused);
    AbsAt(v, Key(op.source)); AbsAt(v, op.target);
    if i < |v.dir| && v.dir[i].kind != FT_RECORD && |op.target| <= NAME_MAX && Find(v.dir, op.target) == |v.dir| {
      RenamedLaw(v, i, op.target);
    }
  }

  lemma SwapRenameLaw(v: Vol, op: Op)
    requires Sound(v) && op.OpSwapRename?
    ensures Lawful(v, op)
  {
    hide EncodeSuper, EncodeEntry, DecodeEntry, DirSector, Find, FieldName, Abs, Apply, Synced;
    var k, i, j := Key(op.source), Find(v.dir, Key(op.source)), Find(v.dir, op.target);
    NothingLaw(v, Refused);
    AbsAt(v, k); AbsAt(v, op.target);
    if i < |v.dir| && v.dir[i].kind == FT_DURABLE && |op.target| <= NAME_MAX {
      if j == |v.dir| {
        RenamedLaw(v, i, op.target);
        var w := PersistEntry(v.sup, v.dir[i := v.dir[i].(name := NameField(op.target))], i);
        assert [] + [w] == [w];
      } else if v.dir[j].kind != FT_RECORD {
        SwapOverLaw(v, op.source, op.target);
        NextSwap(Abs(v), op.source, op.target);
      }
    }
  }

  /** The two directory writes of a swap over a present target, one after the other. */
  lemma SwapOverLaw(v: Vol, source: CString, target: CString)
    requires Sound(v) && Geometry(v) && |target| <= NAME_MAX
    requires Find(v.dir, Key(source)) < |v.dir| && v.dir[Find(v.dir, Key(source))].kind == FT_DURABLE
    requires Find(v.dir, target) < |v.dir| && v.dir[Find(v.dir, target)].kind != FT_RECORD
    ensures var k, ef := Key(source), SwapRename(v, source, target);
            && ef.out == Done && Sound(After(v, ef)) && k in Abs(v)
            && Abs(After(v, ef)) == if k == target then Without(Abs(v), target)
                                    else Without(Abs(v), k)[target := Abs(v)[k]]
  {
    hide EncodeSuper, EncodeEntry, DecodeEntry, DirSector, Find, FieldName, Abs, Apply, Good, Synced, NameField,
         Swapped, SwapRename, After, FileOf, Without;
    var i, j := Find(v.dir, Key(source)), Find(v.dir, target);
    AbsAt(v, Key(source));
    SwapWrites(v, source, target);
    if i == j {
      SwapSame(v, i, target);
    } else {
      SwapDistinct(v, i, j, target);
    }
  }

  lemma NextSwap(m: Files, source: CString, target: CString)
    requires Key(source) in m && m[Key(source)].kind == FT_DURABLE
    requires target in m && m[target].kind != FT_RECORD && |target| <= NAME_MAX
    ensures !Refuses(m, OpSwapRename(source, target))
    ensures Next(m, OpSwapRename(source, target), Done)
            == if Key(source) == target then Without(m, target) else Without(m, Key(source))[target := m[Key(source)]]
  {
  }

  lemma SwapSame(v: Vol, i: nat, target: CString)
    requires Sound(v) && |target| <= NAME_MAX && i == Find(v.dir, target) < |v.dir|
    ensures var (v1, v2) := Swapped(v, i, i, target);
            Sound(v2) && Abs(v2) == Without(Abs(v), target)
  {
    hide EncodeSuper, EncodeEntry, DecodeEntry, DirSector, Find, FieldName, Abs, Apply, Synced, NameField;
    var (v1, v2) := Swapped(v, i, i, target);
    RelabelLaw(v, i, v.dir[i].(present := 0));
    RelabelLaw(v1, i, v2.dir[i]);
  }

  lemma SwapDistinct(v: Vol, i: nat, j: nat, target: CString)
    requires Sound(v) && |target| <= NAME_MAX && i < |v.dir| && v.dir[i].present != 0
    requires j == Find(v.dir, target) < |v.dir| && i != j
    ensures var k := FieldName(v.dir[i].name);
            var (v1, v2) := Swapped(v, i, j, target);
            && Sound(v1) && Abs(v1) == Without(Abs(v), target)
            && k != target && k in Abs(v) && Sound(v2) && Abs(v2) == Without(Abs(v), k)[target := Abs(v)[k]]
  {
    hide EncodeSuper, EncodeEntry, DecodeEntry, DirSector, Find, FieldName, Abs, Apply, Synced, NameField;
    var k := FieldName(v.dir[i].name);
    var (v1, v2) := Swapped(v, i, j, target);
    RelabelLaw(v, j, v.dir[j].(present := 0));
    SlotFile(v, i);
    FindUnique(v, i);
    RenamedLaw(v1, i, target);
    WithoutTwice(Abs(v), k, target);
  }

  lemma WithoutTwice(m: Files, k: CString, target: CString)
    requires k in m && k != target
    ensures Without(Without(m, target), k)[target := m[k]] == Without(m, k)[target := m[k]]
  {
  }

  /** The volume after each of a swap's two directory writes. */
  function Swapped(v: Vol, i: nat, j: nat, target: CString): (Vol, Vol)
    requires Geometry(v) && i < |v.dir| && j < |v.dir| && |target| <= NAME_MAX
  {
    var v1 := Relabeled(v, j, v.dir[j].(present := 0));
    (v1, Relabeled(v1, i, v1.dir[i].(name := NameField(target))))
  }

  lemma SwapWrites(v: Vol, source: CString, target: CString)
    requires Usable(v) && |target| <= NAME_MAX
    requires Find(v.dir, Key(source)) < |v.dir| && v.dir[Find(v.dir, Key(source))].kind == FT_DURABLE
    requires Find(v.dir, target) < |v.dir| && v.dir[Find(v.dir, target)].kind != FT_RECORD
    ensures SwapRename(v, source, target).out == Done
    ensures After(v, SwapRename(v, source, target))
            == Swapped(v, Find(v.dir, Key(source)), Find(v.dir, target), target).1
  {
    hide DirSector, Find, FieldName, Apply, Good, NameField;
    var i, j := Find(v.dir, Key(source)), Find(v.dir, target);
    var dir1 := v.dir[j := v.dir[j].(present := 0)];
    var dir2 := dir1[i := dir1[i].(name := NameField(target))];
    ApplyConcat(v.disk, [PersistEntry(v.sup, dir1, j)], [PersistEntry(v.sup, dir2, i)]);
  }

  lemma MkdirLaw(v: Vol, op: Op)
    requires Sound(v) && op.OpMkdir?
    ensures Lawful(v, op)
  {
    hide EncodeSuper, EncodeEntry, DecodeEntry, DirSector, Find, FieldName, Abs, Apply, Synced, Created;
    var id, f := op.id, FindFree(v.dir);
    NothingLaw(v, Refused); NothingLaw(v, NoSlot); NothingLaw(v, Done);
    AbsAt(v, id);
    if |id| <= NAME_MAX && Find(v.dir, id) == |v.dir| && f < |v.dir| {
      var e' := Created(v.dir[f], id, FT_DIR, 0, 0, 0, 0);
      CreatedShape(v.dir[f], id, FT_DIR, 0, 0, 0, 0);
      NewNameUnused(v, id);
      RelabelLaw(v, f, e');
      assert FileBytes(v.disk, 0, 0) == [];
    }
  }

  lemma NewNameUnused(v: Vol, id: CString)
    requires Find(v.dir, id) == |v.dir|
    ensures forall j :: 0 <= j < |v.dir| && v.dir[j].present != 0 ==> FieldName(v.dir[j].name) != id
  {
    forall j | 0 <= j < |v.dir| && v.dir[j].present != 0 ensures FieldName(v.dir[j].name) != id {
      assert !Holds(v.dir[j], id);
    }
  }

  // ---- whole-file writes --------------------------------------------------------------------------------

  /** Writes to different sectors commute. */
  lemma PutsCommute(d: Disk, a: Write, b: Write)
    requires a.lba != b.lba
    ensures Put(Put(d, a), b) == Put(Put(d, b), a)
  {
  }

  /** What a blob's creation leaves, with its last two writes exchanged. */
  lemma CreateBlobDisk(v: Vol, f: nat, id: CString, p: seq<byte>)
    requires Usable(v) && SizeOk(v.sup, |p|) && |id| <= NAME_MAX && f < |v.dir| && CreateBlob(v, f, id, p).out == Done
    ensures var span, sup' := BlobSpan(|p|), CreateBlob(v, f, id, p).sup;
            && v.sup.nextFree + span <= v.sup.totalSectors && sup' == v.sup.(nextFree := v.sup.nextFree + span)
            && After(v, CreateBlob(v, f, id, p))
               == Relabeled(Staged(v, p, span, sup'), f, Created(v.dir[f], id, FT_BLOB, v.sup.nextFree, |p|, span, 0))
            && FileBytes(Staged(v, p, span, sup').disk, v.sup.nextFree, |p|) == p
  {
    hide EncodeSuper, DirSector, FieldName, Apply, Created, Pack;
    var ef, span := CreateBlob(v, f, id, p), BlobSpan(|p|);
    var data := Burst(v.sup.nextFree, Pack(p, span));
    var we, ws := PersistEntry(ef.sup, ef.dir, f), PersistSuper(ef.sup);
    ApplyBurst(v.disk, v.sup.nextFree, Pack(p, span));
    var d1 := Apply(v.disk, data);
    SingleWrite(Put(d1, ws), we);
    LastApply(v.disk, data, we);
    LastApply(v.disk, data + [we], ws);
    PutsCommute(d1, we, ws);
    PackedBytes(v.disk, v.sup.nextFree, p, span);
    PutBelow(d1, ws, v.sup.nextFree, |p|);
  }

  /** A blob's data and the allocator's advance on disk, before its name. */
  function Staged(v: Vol, p: seq<byte>, span: nat, sup': Super): Vol
    requires v.sup.nextFree + span <= |v.disk|
  {
    Vol(Put(Blit(v.disk, v.sup.nextFree, Pack(p, span)), PersistSuper(sup')), sup', v.dir)
  }

  lemma RevealBlob(v: Vol, v2: Vol, f: nat, id: CString, n: nat, span: nat)
    requires Good(v) && Find(v.dir, id) == |v.dir| && f < |v.dir| && v.dir[f].present == 0 && |id| <= NAME_MAX
    requires v2.dir == v.dir && Sound(v2) && n < 0x1_0000_0000 && n <= 512 * span
    requires v.sup.nextFree + span <= v2.sup.nextFree
    ensures var e' := Created(v.dir[f], id, FT_BLOB, v.sup.nextFree, n, span, 0);
            var v' := Relabeled(v2, f, e');
            Sound(v') && Inside(v2.disk, e') && Abs(v') == Abs(v2)[id := FileOf(v2.disk, e')]
  {
    hide EncodeSuper, EncodeEntry, DecodeEntry, DirSector, Find, FieldName, Abs, Apply, Created, Synced, Relabeled,
         FileOf, Placeable;
    CreatedShape(v.dir[f], id, FT_BLOB, v.sup.nextFree, n, span, 0);
    FreshPlaceable(v, v2, f, id, Created(v.dir[f], id, FT_BLOB, v.sup.nextFree, n, span, 0));
    RelabelLaw(v2, f, Created(v.dir[f], id, FT_BLOB, v.sup.nextFree, n, span, 0));
  }

  lemma FreshPlaceable(v: Vol, v2: Vol, f: nat, id: CString, e': Entry)
    requires Good(v) && Find(v.dir, id) == |v.dir| && v2.dir == v.dir
    requires FieldName(e'.name) == id && e'.start == v.sup.nextFree && e'.kind == FT_BLOB
    requires e'.start + e'.capacity <= v2.sup.nextFree
    ensures Placeable(v2, f, e')
  {
    hide FieldName, Find;
    NewNameUnused(v, id);
    forall j | 0 <= j < |v.dir| && j != f && v.dir[j].present != 0 ensures Apart(e', v.dir[j]) {
      assert ExtentOk(v.sup, v.dir[j]);
    }
  }

  lemma StageBlob(v: Vol, p: seq<byte>, span: nat, sup': Super)
    requires Sound(v) && v.sup.nextFree + span <= v.sup.totalSectors
    requires sup' == v.sup.(nextFree := v.sup.nextFree + span)
    ensures Sound(Staged(v, p, span, sup')) && Abs(Staged(v, p, span, sup')) == Abs(v)
  {
    hide EncodeSuper, EncodeEntry, DecodeEntry, DirSector, FieldName, Abs, Pack, SyncedAt, SameFiles;
    var d := Put(Blit(v.disk, v.sup.nextFree, Pack(p, span)), PersistSuper(sup'));
    FreshSame(v, d);
    SameFilesLaw(v, d, sup');
  }

  lemma CreateBlobLaw(v: Vol, f: nat, id: CString, p: seq<byte>)
    requires Sound(v) && SizeOk(v.sup, |p|) && |id| <= NAME_MAX
    requires Find(v.dir, id) == |v.dir| && f < |v.dir| && v.dir[f].present == 0
    ensures var ef := CreateBlob(v, f, id, p);
            && Sound(After(v, ef)) && id !in Abs(v) && ef.out in {Done, NoSpace}
            && Abs(After(v, ef)) == if ef.out == Done then Abs(v)[id := File(FT_BLOB, p)] else Abs(v)
  {
    AbsAt(v, id);
    if CreateBlob(v, f, id, p).out == Done {
      CreateBlobDone(v, f, id, p);
    } else {
      NothingLaw(v, NoSpace);
    }
  }

  lemma CreateBlobDone(v: Vol, f: nat, id: CString, p: seq<byte>)
    requires Sound(v) && Geometry(v) && SizeOk(v.sup, |p|) && |id| <= NAME_MAX
    requires Find(v.dir, id) == |v.dir| && f < |v.dir| && v.dir[f].present == 0 && CreateBlob(v, f, id, p).out == Done
    ensures var ef := CreateBlob(v, f, id, p);
            Sound(After(v, ef)) && Abs(After(v, ef)) == Abs(v)[id := File(FT_BLOB, p)]
  {
    hide EncodeSuper, EncodeEntry, DecodeEntry, DirSector, Find, FieldName, Abs, Apply, Pack, Good, Synced, NameField,
         FileBytes, CreateBlob, After, Relabeled;
    var span, sup' := BlobSpan(|p|), CreateBlob(v, f, id, p).sup;
    CreateBlobDisk(v, f, id, p);
    StageBlob(v, p, span, sup');
    RevealBlob(v, Staged(v, p, span, sup'), f, id, |p|, span);
  }

  lemma BlobWriteOnceLaw(v: Vol, op: Op)
    requires Sound(v) && op.OpBlobWriteOnce? && OpFits(v.sup, op)
    ensures Lawful(v, op)
  {
    hide EncodeSuper, EncodeEntry, DecodeEntry, DirSector, Find, FieldName, Abs, Apply, CreateBlob, FindFree;
    var id, p, i, f := op.id, op.p, Find(v.dir, op.id), FindFree(v.dir);
    NothingLaw(v, Refused); NothingLaw(v, NoSlot); NothingLaw(v, Done);
    AbsAt(v, id);
    if |id| <= NAME_MAX && i == |v.dir| && f < |v.dir| {
      CreateBlobLaw(v, f, id, p);
    }
  }

  lemma RewriteLaw(v: Vol, i: nat, e': Entry, lo: nat, secs: seq<Sector>)
    requires Sound(v) && i < |v.dir| && v.dir[i].present != 0 && e'.present != 0 && e'.kind == FT_BLOB
    requires e'.start == v.dir[i].start == lo && e'.capacity == v.dir[i].capacity && |secs| <= e'.capacity
    requires FieldName(e'.name) == FieldName(v.dir[i].name)
    ensures var dir' := v.dir[i := e'];
            var d := Blit(v.disk, lo, secs);
            var v' := Vol(Apply(v.disk, Burst(lo, secs) + [PersistEntry(v.sup, dir', i)]), v.sup, dir');
            && Sound(v') && Inside(d, e') && Abs(v') == Abs(v)[FieldName(e'.name) := FileOf(d, e')]
  {
    hide EncodeSuper, EncodeEntry, DecodeEntry, DirSector, Find, FieldName, Abs, Apply, SyncedAt;
    var dir' := v.dir[i := e'];
    var w := PersistEntry(v.sup, dir', i);
    var d := Blit(v.disk, lo, secs);
    var v' := Vol(Put(d, w), v.sup, dir');
    ApplyBurst(v.disk, lo, secs);
    LastApply(v.disk, Burst(lo, secs), w);
    RewriteGood(v, v', i);
    assert Synced(v') by { SyncUpdate(v, v', i); }
    assert OthersKept(v, v', i) by { RewriteOthers(v, v', i, secs); }
    SlotUpdate(v, v', i);
    Replaced(Abs(v), v.dir[i], FileOf(v'.disk, e'));
    if Fits(e') {
      PutBelowExtent(d, w, e');
    }
  }

  lemma RewriteGood(v: Vol, v': Vol, i: nat)
    requires Good(v) && i < |v.dir| && v.dir[i].present != 0 && |v'.disk| == |v.disk| && v'.sup == v.sup
    requires |v'.dir| == |v.dir| && v'.dir == v.dir[i := v'.dir[i]] && v'.dir[i].kind == FT_BLOB
    requires v'.dir[i].start == v.dir[i].start && v'.dir[i].capacity == v.dir[i].capacity
    requires FieldName(v'.dir[i].name) == FieldName(v.dir[i].name)
    ensures Good(v')
  {
    hide FieldName;
    forall j | 0 <= j < |v.dir| && j != i && v.dir[j].present != 0
      ensures Apart(v'.dir[i], v.dir[j]) && FieldName(v'.dir[i].name) != FieldName(v.dir[j].name)
    {
      assert Apart(v.dir[i], v.dir[j]);
    }
    GoodUpdate(v, v', i);
  }

  lemma RewriteOthers(v: Vol, v': Vol, i: nat, secs: seq<Sector>)
    requires Good(v) && i < |v.dir| && v.dir[i].present != 0 && |v'.disk| == |v.disk| && |secs| <= v.dir[i].capacity
    requires |v'.dir| == |v.dir| && v'.dir == v.dir[i := v'.dir[i]]
    requires forall s :: DATA_START <= s < |v.disk| && !(v.dir[i].start <= s < v.dir[i].start + |secs|) ==>
               v'.disk[s] == v.disk[s]
    ensures OthersKept(v, v', i)
  {
    hide FieldName;
    forall j | 0 <= j < |v.dir| && j != i && v.dir[j].present != 0 ensures SameExtent(v.disk, v'.disk, v.dir[j]) {
      assert Apart(v.dir[i], v.dir[j]) && ExtentOk(v.sup, v.dir[j]);
    }
  }

  lemma MarkerWriteLaw(v: Vol, op: Op)
    requires Sound(v) && op.OpMarkerWrite? && OpFits(v.sup, op)
    ensures Lawful(v, op)
  {
    hide EncodeSuper, EncodeEntry, DecodeEntry, DirSector, Find, FieldName, Abs, Apply, CreateBlob, FindFree, Created,
         Pack, Synced, Geometry;
    var id, p, i, f := op.id, op.p, Find(v.dir, op.id), FindFree(v.dir);
    NothingLaw(v, Refused); NothingLaw(v, NoSlot);
    AbsAt(v, id);
    if |id| <= NAME_MAX {
      if i == |v.dir| {
        if f < |v.dir| {
          CreateBlobLaw(v, f, id, p);
        }
      } else if v.dir[i].kind != FT_RECORD {
        var e := v.dir[i];
        var span := if BlobSpan(|p|) > e.capacity then e.capacity else BlobSpan(|p|);
        CreatedShape(e, id, FT_BLOB, e.start, |p|, e.capacity, 0);
        RewriteLaw(v, i, Created(e, id, FT_BLOB, e.start, |p|, e.capacity, 0), e.start, Pack(p, span));
        if |p| <= 512 * e.capacity {
          PackedBytes(v.disk, e.start, p, span);
        }
      }
    }
  }

  /** The one refusal the map leaves open, a blob given again to an entry whose length overruns its extent: accepted
      exactly when it is a blob and reading its whole length back, past its extent, gives those bytes. */
  lemma OverrunRewrite(v: Vol, op: Op)
    requires Good(v) && OpFits(v.sup, op) && op.OpBlobWriteOnce? && !Decided(Abs(v), op)
    ensures Find(v.dir, op.id) < |v.dir| && Perform(v, op).writes == []
    ensures var e := v.dir[Find(v.dir, op.id)];
            (Perform(v, op).out != Refused <==>
               && e.kind == FT_BLOB && e.start + Ceil(e.length) <= |v.disk|
               && FileBytes(v.disk, e.start, e.length) == op.p)
  {
    hide FieldName, CreateBlob, FindFree;
    AbsAt(v, op.id);
    var e := v.dir[Find(v.dir, op.id)];
    assert |FieldName(e.name)| <= NAME_MAX;
  }

  /** Whatever act is performed on a sound volume, the volume stays sound, the file map changes exactly as
      Next says, and the act is refused exactly when Refuses says. */
  lemma ActLaw(v: Vol, op: Op)
    requires Sound(v) && OpFits(v.sup, op)
    ensures Lawful(v, op)
  {
    match op
    case OpRecordWriteAt(_, _) => RecordWriteAtLaw(v, op);
    case OpNrecAppend(_, _) => NrecAppendLaw(v, op);
    case OpDurableWrite(_, _) => DurableWriteLaw(v, op);
    case OpSwapRename(_, _) => SwapRenameLaw(v, op);
    case OpBlobWriteOnce(_, _) => BlobWriteOnceLaw(v, op);
    case OpRemove(_) => RemoveLaw(v, op);
    case OpRename(_, _) => RenameLaw(v, op);
    case OpMarkerWrite(_, _) => MarkerWriteLaw(v, op);
    case OpMkdir(_) => MkdirLaw(v, op);
  }
}
