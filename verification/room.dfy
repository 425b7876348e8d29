/** When the acts succeed: exactly which find a slot and sectors, told from the map of files, the directory's free
    slots and the sectors not yet allocated, in bytes and without the acts' own arithmetic. */
module Room {
  import opened Bytes
  import opened DiskLayout
  import opened Volume
  import opened Acts
  import opened AppendLaws
  import opened FileMap
  import opened FsLaws
  import opened Crash

  /** No slot is free. */
  predicate Full(v: Vol) { forall i :: 0 <= i < |v.dir| ==> v.dir[i].present != 0 }

  /** Bytes from a sector to the end of the disk. */
  function BytesFrom(v: Vol, sector: nat): int { 512 * (v.sup.totalSectors - sector) }

  /** The entry's extent ends where the next free sector is. */
  predicate AtTail(v: Vol, e: Entry) { e.start + e.capacity == v.sup.nextFree }

  /** n bytes can be had for an entry: in its extent, by extending it at the allocator's tail, or by moving it there. */
  predicate CanHold(v: Vol, e: Entry, n: nat) {
    n <= 512 * e.capacity || n <= BytesFrom(v, if AtTail(v, e) then e.start else v.sup.nextFree)
  }

  /** n bytes can be had under a name: by its entry, or, if there is none, in free sectors. */
  predicate RoomFor(v: Vol, id: CString, n: nat) {
    var i := Find(v.dir, id);
    if i < |v.dir| then CanHold(v, v.dir[i], n) else n <= BytesFrom(v, v.sup.nextFree)
  }

  lemma FreeSlot(v: Vol)
    ensures FindFree(v.dir) == |v.dir| <==> Full(v)
  {
  }

  // ---- appends ----------------------------------------------------------------------------------------------

  /** An append to an entry is done exactly when its bytes can be had. */
  lemma ExtendRoom(v: Vol, i: nat, p: seq<byte>)
    requires Growable(v, i) && SizeOk(v.sup, |p|)
    ensures Extend(v, i, p).out == if CanHold(v, v.dir[i], v.dir[i].length + |p|) then Done else NoSpace
  {
    hide DataWrites, DirSector, EncodeSuper;
    var n := v.dir[i].length + |p|;
    assert 512 * Ceil(n) >= n > 512 * Ceil(n) - 512;
  }

  /** And then it takes as few sectors as hold them, from the old extent's start or from the first free one. */
  lemma ExtendTakes(v: Vol, i: nat, p: seq<byte>)
    requires Growable(v, i) && SizeOk(v.sup, |p|) && Extend(v, i, p).out == Done
    ensures var n, e, e', next := v.dir[i].length + |p|, v.dir[i], Extend(v, i, p).dir[i], Extend(v, i, p).sup.nextFree;
            if n <= 512 * e.capacity then e'.start == e.start && e'.capacity == e.capacity && next == v.sup.nextFree
            else
              && e'.start == (if AtTail(v, e) then e.start else v.sup.nextFree) && next == e'.start + e'.capacity
              && 512 * (e'.capacity - 1) < n <= 512 * e'.capacity
  {
    hide DataWrites, DirSector, EncodeSuper;
    var n := v.dir[i].length + |p|;
    assert 512 * Ceil(n) >= n > 512 * Ceil(n) - 512;
  }

  predicate IsAppend(op: Op) { op.OpNrecAppend? || op.OpDurableWrite? }

  /** An append the map does not refuse ends without a slot exactly when the name is new and every slot is taken, and
      otherwise is done exactly when the file's bytes and the payload can be had; else it is out of space. */
  lemma AppendRoom(v: Vol, op: Op)
    requires Sound(v) && IsAppend(op) && OpFits(v.sup, op) && !Refuses(Abs(v), op)
    ensures Perform(v, op).out
            == if op.id !in Abs(v) && Full(v) then NoSlot
               else if RoomFor(v, op.id, |Bytes0(Abs(v), op.id)| + |op.p|) then Done else NoSpace
  {
    hide Extend, Abs, Find, FindFree, FieldName, CanHold, Full, Synced, BytesFrom;
    var id, p, i, f := op.id, op.p, Find(v.dir, op.id), FindFree(v.dir);
    AbsAt(v, id);
    FreeSlot(v);
    if i == |v.dir| {
      if f < |v.dir| {
        CreateRoom(v, f, id, if op.OpNrecAppend? then FT_NREC else FT_DURABLE, p);
      }
    } else {
      NamedRoom(v, op, i);
    }
  }

  lemma CreateRoom(v: Vol, f: nat, id: CString, kind: u32, p: seq<byte>)
    requires Sound(v) && SizeOk(v.sup, |p|) && |id| <= NAME_MAX && Find(v.dir, id) == |v.dir|
    requires f == FindFree(v.dir) < |v.dir|
    requires kind == FT_NREC || kind == FT_DURABLE
    ensures Growable(Opened(v, f, id, kind), f)
    ensures Extend(Opened(v, f, id, kind), f, p).out == if |p| <= BytesFrom(v, v.sup.nextFree) then Done else NoSpace
  {
    hide Extend, FieldName, Find, FindFree, Good, Synced;
    CreateAppendLaw(v, id, kind, p);
    ExtendRoom(Opened(v, f, id, kind), f, p);
  }

  lemma NamedRoom(v: Vol, op: Op, i: nat)
    requires Sound(v) && IsAppend(op) && OpFits(v.sup, op) && !Refuses(Abs(v), op) && i == Find(v.dir, op.id) < |v.dir|
    ensures op.id in Abs(v)
    ensures Perform(v, op).out
            == if CanHold(v, v.dir[i], |Bytes0(Abs(v), op.id)| + |op.p|) then Done else NoSpace
  {
    hide Extend, Abs, Find, FindFree, FieldName, CanHold, Synced, Adopted, Perform, Refuses;
    AbsAt(v, op.id);
    FoundFile(v, op.id);
    SlotGrowable(v, op, i);
    NamedPerforms(v, op, i);
    if Adopts(v, op) {
      AdoptedLaw(v, i);
      AdoptedRoom(v, i, op.p);
    } else {
      ExtendRoom(v, i, op.p);
    }
  }

  lemma NamedPerforms(v: Vol, op: Op, i: nat)
    requires Good(v) && IsAppend(op) && OpFits(v.sup, op) && i == Find(v.dir, op.id) < |v.dir| && Growable(v, i)
    requires |op.id| <= NAME_MAX && (op.OpDurableWrite? ==> v.dir[i].kind == FT_DURABLE)
    requires op.OpNrecAppend? ==> v.dir[i].kind == FT_NREC || Adopts(v, op)
    ensures Adopts(v, op) ==> Growable(After(v, Adopted(v, i)), i)
    ensures Perform(v, op).out
            == if Adopts(v, op) then Extend(After(v, Adopted(v, i)), i, op.p).out else Extend(v, i, op.p).out
  {
    hide Extend, Find, FieldName, DirSector, Apply;
  }

  lemma SlotGrowable(v: Vol, op: Op, i: nat)
    requires Good(v) && IsAppend(op) && OpFits(v.sup, op) && !Refuses(Abs(v), op) && i == Find(v.dir, op.id) < |v.dir|
    ensures |op.id| <= NAME_MAX && Growable(v, i) && |Bytes0(Abs(v), op.id)| == v.dir[i].length
    ensures v.dir[i].present != 0
    ensures op.OpDurableWrite? ==> v.dir[i].kind == FT_DURABLE
    ensures op.OpNrecAppend? ==> v.dir[i].kind == FT_NREC || Adopts(v, op)
  {
    hide FieldName, Abs, FileBytes;
    AbsAt(v, op.id);
    FoundFile(v, op.id);
  }

  lemma AdoptedRoom(v: Vol, i: nat, p: seq<byte>)
    requires Geometry(v) && i < |v.dir| && Growable(After(v, Adopted(v, i)), i) && SizeOk(v.sup, |p|)
    ensures Extend(After(v, Adopted(v, i)), i, p).out
            == if CanHold(v, v.dir[i], v.dir[i].length + |p|) then Done else NoSpace
  {
    hide Extend, DirSector, Apply;
    ExtendRoom(After(v, Adopted(v, i)), i, p);
  }

  /** In particular it is done whenever the file as it will be fits the free sectors and a slot is there. */
  lemma AppendSucceeds(v: Vol, op: Op)
    requires Sound(v) && IsAppend(op) && OpFits(v.sup, op) && !Refuses(Abs(v), op)
    requires op.id in Abs(v) || !Full(v)
    requires |Bytes0(Abs(v), op.id)| + |op.p| <= BytesFrom(v, v.sup.nextFree)
    ensures Perform(v, op).out == Done
  {
    hide Abs, Perform, Synced, FieldName, Find, Refuses, Next, Full;
    AppendRoom(v, op);
    AbsAt(v, op.id);
  }

  // ---- the other acts ---------------------------------------------------------------------------------------

  /** A record write not refused is done exactly when its header and payload fit the rest of the record's extent. */
  lemma RecordRoom(v: Vol, op: Op)
    requires Sound(v) && op.OpRecordWriteAt? && OpFits(v.sup, op) && !Refuses(Abs(v), op)
    ensures Find(v.dir, RECORD_NAME) < |v.dir| && RECORD_NAME in Abs(v) && Abs(v)[RECORD_NAME].File?
    ensures var had := |Abs(v)[RECORD_NAME].bytes|;
            Perform(v, op).out
            == if had + 16 + |op.p| <= 512 * v.dir[Find(v.dir, RECORD_NAME)].capacity then Done else NoSpace
  {
    hide Abs, FieldName, Find, FileBytes, DirSector, Pack, RecordImage, Synced;
    AbsAt(v, RECORD_NAME);
    FoundFile(v, RECORD_NAME);
    var n := 16 + |op.p|;
    assert 512 * Ceil(n) >= n > 512 * Ceil(n) - 512;
  }

  /** A new blob needs a slot and room for its bytes, for one at least. */
  lemma BlobRoom(v: Vol, op: Op)
    requires Sound(v) && WritesBlob(op) && OpFits(v.sup, op) && |op.id| <= NAME_MAX && op.id !in Abs(v)
    ensures Perform(v, op).out
            == if Full(v) then NoSlot
               else if |op.p| <= BytesFrom(v, v.sup.nextFree) && BytesFrom(v, v.sup.nextFree) > 0 then Done
               else NoSpace
  {
    hide Abs, FieldName, Find, FindFree, DirSector, Pack, Created, Synced, Full;
    AbsAt(v, op.id);
    FreeSlot(v);
    var n := |op.p|;
    assert 512 * Ceil(n) >= n > 512 * Ceil(n) - 512;
  }

  /** A marker there already needs no room: it is done when its bytes fit its extent, and cut short otherwise. */
  lemma MarkerRoom(v: Vol, op: Op)
    requires Sound(v) && op.OpMarkerWrite? && OpFits(v.sup, op) && op.id in Abs(v) && !Refuses(Abs(v), op)
    ensures Find(v.dir, op.id) < |v.dir|
    ensures Perform(v, op).out == if |op.p| <= 512 * v.dir[Find(v.dir, op.id)].capacity then Done else Overfull
  {
    hide Abs, FieldName, Find, FindFree, DirSector, Pack, Created, Synced, CreateBlob;
    AbsAt(v, op.id);
    FoundFile(v, op.id);
  }

  /** A directory needs a slot, and the acts on entries that are there need nothing. */
  lemma SlotRoom(v: Vol, op: Op)
    requires Sound(v) && OpFits(v.sup, op) && !Refuses(Abs(v), op)
    requires !IsAppend(op) && !op.OpRecordWriteAt? && !(WritesBlob(op) && op.id !in Abs(v)) && !op.OpMarkerWrite?
    requires Decided(Abs(v), op)
    ensures Perform(v, op).out == if op.OpMkdir? && op.id !in Abs(v) && Full(v) then NoSlot else Done
  {
    hide Abs, FieldName, DirSector, Pack, Created, Synced, Perform, Next, Full;
    ActLaw(v, op);
    SlotOutcome(v, op);
  }

  lemma SlotOutcome(v: Vol, op: Op)
    requires Good(v) && OpFits(v.sup, op)
    requires !IsAppend(op) && !op.OpRecordWriteAt? && !(WritesBlob(op) && op.id !in Abs(v)) && !op.OpMarkerWrite?
    ensures var out := Perform(v, op).out;
            && out in {Refused, NoSlot, Done}
            && (out == NoSlot <==> op.OpMkdir? && |op.id| <= NAME_MAX && op.id !in Abs(v) && Full(v))
  {
    hide FieldName, DirSector, Find, FindFree, Key, Pack, Created, ContentEq, Abs, Full, CreateBlob;
    FreeSlot(v);
    if op.OpMkdir? || op.OpBlobWriteOnce? { AbsAt(v, op.id); }
  }

  // ---- what a new entry says ----------------------------------------------------------------------------------

  predicate Creates(op: Op) { IsAppend(op) || WritesBlob(op) || op.OpMkdir? }

  function KindOf(op: Op): u32
    requires Creates(op)
  {
    if op.OpNrecAppend? then 4 else if op.OpDurableWrite? then 5 else if op.OpMkdir? then 6 else 2
  }

  /** A name created takes the first free slot.  Its file begins at the first free sector, on as few as hold its bytes,
      a blob's on one at least, and the free ones begin where it ends; a directory has none. */
  lemma CreatedEntry(v: Vol, op: Op)
    requires Sound(v) && Creates(op) && OpFits(v.sup, op) && |op.id| <= NAME_MAX && op.id !in Abs(v)
    requires Perform(v, op).out == Done
    ensures var f := FindFree(v.dir);
            && f < |v.dir| && v.dir[f].present == 0 && (forall j :: 0 <= j < f ==> v.dir[j].present != 0)
            && var e := Perform(v, op).dir[f];
               && FieldName(e.name) == op.id && e.kind == KindOf(op) && e.present == 1 && e.crc32 == 0
               && e.appendOnly == (if op.OpNrecAppend? then 1 else 0) && e.reserved == 0 && e.pad == v.dir[f].pad
               && (op.OpMkdir? ==> e.start == e.length == e.capacity == 0 && Perform(v, op).sup == v.sup)
               && (!op.OpMkdir? ==>
                     && e.start == v.sup.nextFree && Perform(v, op).sup.nextFree == e.start + e.capacity
                     && e.length == |op.p| <= 512 * e.capacity
                     && (512 * (e.capacity as int - 1) < |op.p| || (WritesBlob(op) && e.capacity == 1)))
  {
    hide Extend, Abs, Find, FieldName, Synced, Growable, DirSector, Pack;
    AbsAt(v, op.id);
    var f := FindFree(v.dir);
    if IsAppend(op) {
      var kind := if op.OpNrecAppend? then FT_NREC else FT_DURABLE;
      CreateRoom(v, f, op.id, kind, op.p);
      ExtendTakes(Opened(v, f, op.id, kind), f, op.p);
      ExtendNames(Opened(v, f, op.id, kind), f, op.p);
    }
  }

  lemma ExtendNames(v: Vol, i: nat, p: seq<byte>)
    requires Growable(v, i) && SizeOk(v.sup, |p|) && Extend(v, i, p).out == Done
    ensures var e, e' := v.dir[i], Extend(v, i, p).dir[i];
            e' == e.(start := e'.start, capacity := e'.capacity, length := e.length + |p|)
  {
    hide DataWrites, DirSector, EncodeSuper;
  }
}
