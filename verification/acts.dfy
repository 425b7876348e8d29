/**
 * The filesystem acts as value transformers: for each act the sector writes it issues, in order, and the
 * superblock and directory it leaves in memory.  Class Bodyfs is proved to perform exactly these.
 */
module Acts {
  import opened Bytes
  import opened DiskLayout
  import opened Volume

  /** Why an act ended as it did.  The C functions answer 0 for Done and Overfull, a marker rewritten with
      more bytes than its extent holds, and -1 for everything else. */
  datatype Outcome = Done | Overfull | Refused | NoSlot | NoSpace

  datatype Effect = Effect(out: Outcome, writes: seq<Write>, sup: Super, dir: seq<Entry>)

  function After(v: Vol, ef: Effect): Vol {
    Vol(Apply(v.disk, ef.writes), ef.sup, ef.dir)
  }

  function Nothing(v: Vol, out: Outcome): Effect { Effect(out, [], v.sup, v.dir) }

  /** "record" in ASCII: the one name the fixed record file is looked up under. */
  const RECORD_NAME: CString := [114, 101, 99, 111, 114, 100]

  const RECK_MAGIC: u32 := 0x5245434B
  const HEADER_SIZE: nat := 16

  // ---- the fixed record ---------------------------------------------------------------------------

  /** A record as it lies on disk before padding: the RECK header, then the payload. */
  function RecordImage(index: u32, p: seq<byte>): (r: seq<byte>)
    requires |p| < 0x1_0000_0000
    ensures |r| == HEADER_SIZE + |p|
  {
    Words([RECK_MAGIC, |p|, index, 0]) + p
  }

  function RecordSpan(n: nat): nat { Ceil(HEADER_SIZE + n) }

  function RecordWriteAt(v: Vol, off: u32, p: seq<byte>): Effect
    requires Usable(v) && SizeOk(v.sup, |p|)
  {
    var i := Find(v.dir, RECORD_NAME);
    if i == |v.dir| || v.dir[i].kind != FT_RECORD then Nothing(v, Refused) else
      var e := v.dir[i];
      if off != e.length || off % SECTOR_SIZE != 0 then Nothing(v, Refused) else
        var span := RecordSpan(|p|);
        if off / SECTOR_SIZE + span > e.capacity then Nothing(v, NoSpace) else
          var dir' := v.dir[i := e.(length := off + span * SECTOR_SIZE)];
          Effect(Done,
                 Burst(e.start + off / SECTOR_SIZE, Pack(RecordImage(off / SECTOR_SIZE, p), span))
                 + [PersistEntry(v.sup, dir', i)],
                 v.sup, dir')
  }

  // ---- growing files: the caller-named record and the durable staging file ---------------------------

  /** A file-relative sector after `p` is written at byte `off`: bytes before `off` stay; a sector the write
      begins is zero-filled, the sector it resumes keeps its tail. */
  function TailSector(d: Disk, start: nat, off: nat, p: seq<byte>, s: nat): (r: Sector)
    requires start + s < |d|
    ensures forall j :: 0 <= j < 512 ==>
              r[j] == (if off <= 512 * s + j < off + |p| then p[512 * s + j - off]
                       else if s == off / 512 && off % 512 != 0 then d[start + s][j] else 0)
  {
    seq(512, j requires 0 <= j < 512 =>
      if off <= 512 * s + j < off + |p| then p[512 * s + j - off]
      else if s == off / 512 && off % 512 != 0 then d[start + s][j] else 0)
  }

  function TailSectors(d: Disk, start: nat, off: nat, p: seq<byte>): (r: seq<Sector>)
    requires start + Ceil(off + |p|) <= |d|
    ensures |r| == if p == [] then 0 else Ceil(off + |p|) - off / 512
  {
    if p == [] then [] else
      seq<Sector>(Ceil(off + |p|) - off / 512, j requires 0 <= j < Ceil(off + |p|) - off / 512 =>
        TailSector(d, start, off, p, off / 512 + j))
  }

  datatype Growth = Growth(ok: bool, writes: seq<Write>, sup: Super, e: Entry)

  /** The entry can be grown: its extent and length are within the allocated region. */
  predicate Growable(v: Vol, i: nat) {
    && Geometry(v) && i < |v.dir| && ExtentOk(v.sup, v.dir[i]) && Fits(v.dir[i])
    && DATA_START <= v.dir[i].start + v.dir[i].capacity
  }

  /** Reserve `need` sectors: already there, in place at the allocator's tail, or relocated to the tail. */
  function Grow(v: Vol, i: nat, need: nat): Growth
    requires Growable(v, i)
  {
    var e := v.dir[i];
    if need <= e.capacity then Growth(true, [], v.sup, e)
    else if e.start + e.capacity == v.sup.nextFree then
      var extra := need - e.capacity;
      if v.sup.nextFree + extra > v.sup.totalSectors then Growth(false, [], v.sup, e) else
        var sup' := v.sup.(nextFree := v.sup.nextFree + extra);
        Growth(true, [PersistSuper(sup')], sup', e.(capacity := need))
    else if v.sup.nextFree + need > v.sup.totalSectors then Growth(false, [], v.sup, e)
    else
      var sup' := v.sup.(nextFree := v.sup.nextFree + need);
      Growth(true,
             Burst(v.sup.nextFree, v.disk[e.start..e.start + Ceil(e.length)]) + [PersistSuper(sup')],
             sup', e.(start := v.sup.nextFree, capacity := need))
  }

  /** The data sectors of an append to slot i, once `g` has been reserved. */
  function DataWrites(v: Vol, i: nat, p: seq<byte>, g: Growth): seq<Write>
    requires i < |v.dir| && g.e.start + Ceil(v.dir[i].length + |p|) <= |v.disk|
  {
    var n := v.dir[i].length;
    Burst(g.e.start + n / 512, TailSectors(Apply(v.disk, g.writes), g.e.start, n, p))
  }

  /** Append `p` at the tail of slot i: reserve, write the data, then reveal it in the directory. */
  function Extend(v: Vol, i: nat, p: seq<byte>): Effect
    requires Growable(v, i) && SizeOk(v.sup, |p|)
  {
    var n := v.dir[i].length + |p|;
    var g := Grow(v, i, Ceil(n));
    if !g.ok then Nothing(v, NoSpace) else
      var dir' := v.dir[i := g.e.(length := n)];
      Effect(Done, g.writes + DataWrites(v, i, p, g) + [PersistEntry(g.sup, dir', i)], g.sup, dir')
  }

  /** The entry a create leaves in a slot; the padding bytes are whatever the slot held. */
  function Created(was: Entry, id: CString, kind: u32, start: u32, length: u32, capacity: u32, appendOnly: u32): Entry
    requires |id| <= NAME_MAX
  {
    Entry(NameField(id), kind, 1, start, length, capacity, 0, appendOnly, 0, was.pad)
  }

  /** The slot an append creates, holding an empty file at the allocator's tail. */
  function Opened(v: Vol, i: nat, id: CString, kind: u32): Vol
    requires |id| <= NAME_MAX && i < |v.dir|
  {
    v.(dir := v.dir[i := Created(v.dir[i], id, kind, v.sup.nextFree, 0, 0, if kind == FT_NREC then 1 else 0)])
  }

  /** An empty staging file opened for append becomes a caller-named record. */
  function Adopted(v: Vol, i: nat): Effect
    requires Geometry(v) && i < |v.dir|
  {
    var dir' := v.dir[i := v.dir[i].(kind := FT_NREC, appendOnly := 1)];
    Effect(Done, [PersistEntry(v.sup, dir', i)], v.sup, dir')
  }

  function NrecAppend(v: Vol, id: CString, p: seq<byte>): Effect
    requires Usable(v) && SizeOk(v.sup, |p|)
  {
    if |id| > NAME_MAX then Nothing(v, Refused) else
      var i := Find(v.dir, id);
      if i == |v.dir| then
        var f := FindFree(v.dir);
        if f == |v.dir| then Nothing(v, NoSlot) else Extend(Opened(v, f, id, FT_NREC), f, p)
      else if v.dir[i].kind == FT_DURABLE && v.dir[i].length == 0 then
        var a := Adopted(v, i);
        var ef := Extend(After(v, a), i, p);
        ef.(writes := a.writes + ef.writes)
      else if v.dir[i].kind != FT_NREC then Nothing(v, Refused)
      else Extend(v, i, p)
  }

  function DurableWrite(v: Vol, id: CString, p: seq<byte>): Effect
    requires Usable(v) && SizeOk(v.sup, |p|)
  {
    if |id| > NAME_MAX then Nothing(v, Refused) else
      var i := Find(v.dir, id);
      if i == |v.dir| then
        var f := FindFree(v.dir);
        if f == |v.dir| then Nothing(v, NoSlot) else Extend(Opened(v, f, id, FT_DURABLE), f, p)
      else if v.dir[i].kind != FT_DURABLE then Nothing(v, Refused)
      else Extend(v, i, p)
  }

  // ---- directory-only acts --------------------------------------------------------------------------

  function SwapRename(v: Vol, source: CString, target: CString): Effect
    requires Usable(v)
  {
    var i := Find(v.dir, Key(source));
    if i == |v.dir| || v.dir[i].kind != FT_DURABLE || |target| > NAME_MAX then Nothing(v, Refused) else
      var j := Find(v.dir, target);
      if j < |v.dir| && v.dir[j].kind == FT_RECORD then Nothing(v, Refused) else
        var dir1 := if j < |v.dir| then v.dir[j := v.dir[j].(present := 0)] else v.dir;
        var dir2 := dir1[i := dir1[i].(name := NameField(target))];
        Effect(Done,
               (if j < |v.dir| then [PersistEntry(v.sup, dir1, j)] else []) + [PersistEntry(v.sup, dir2, i)],
               v.sup, dir2)
  }

  function Remove(v: Vol, id: CString): Effect
    requires Usable(v)
  {
    var i := Find(v.dir, Key(id));
    if i == |v.dir| || v.dir[i].kind == FT_RECORD then Nothing(v, Refused) else
      var dir' := v.dir[i := v.dir[i].(present := 0)];
      Effect(Done, [PersistEntry(v.sup, dir', i)], v.sup, dir')
  }

  function Rename(v: Vol, source: CString, target: CString): Effect
    requires Usable(v)
  {
    var i := Find(v.dir, Key(source));
    if i == |v.dir| || v.dir[i].kind == FT_RECORD || |target| > NAME_MAX || Find(v.dir, target) < |v.dir| then
      Nothing(v, Refused)
    else
      var dir' := v.dir[i := v.dir[i].(name := NameField(target))];
      Effect(Done, [PersistEntry(v.sup, dir', i)], v.sup, dir')
  }

  function Mkdir(v: Vol, id: CString): Effect
    requires Usable(v)
  {
    if |id| > NAME_MAX then Nothing(v, Refused) else
      var i := Find(v.dir, id);
      if i < |v.dir| then Nothing(v, if v.dir[i].kind == FT_DIR then Done else Refused) else
        var f := FindFree(v.dir);
        if f == |v.dir| then Nothing(v, NoSlot) else
          var dir' := v.dir[f := Created(v.dir[f], id, FT_DIR, 0, 0, 0, 0)];
          Effect(Done, [PersistEntry(v.sup, dir', f)], v.sup, dir')
  }

  // ---- whole-file writes ------------------------------------------------------------------------------

  function BlobSpan(n: nat): nat { if Ceil(n) == 0 then 1 else Ceil(n) }

  /** Create a blob in slot f: data, then the name that reveals it, then the allocator's advance. */
  function CreateBlob(v: Vol, f: nat, id: CString, p: seq<byte>): Effect
    requires Usable(v) && SizeOk(v.sup, |p|) && f < |v.dir| && |id| <= NAME_MAX
  {
    var span := BlobSpan(|p|);
    if v.sup.nextFree + span > v.sup.totalSectors then Nothing(v, NoSpace) else
      var sup' := v.sup.(nextFree := v.sup.nextFree + span);
      var dir' := v.dir[f := Created(v.dir[f], id, FT_BLOB, v.sup.nextFree, |p|, span, 0)];
      Effect(Done,
             Burst(v.sup.nextFree, Pack(p, span)) + [PersistEntry(sup', dir', f)] + [PersistSuper(sup')],
             sup', dir')
  }

  predicate ContentEq(d: Disk, e: Entry, p: seq<byte>) {
    e.length == |p| && e.start + Ceil(|p|) <= |d| && FileBytes(d, e.start, |p|) == p
  }

  function BlobWriteOnce(v: Vol, id: CString, p: seq<byte>): Effect
    requires Usable(v) && SizeOk(v.sup, |p|)
  {
    if |id| > NAME_MAX then Nothing(v, Refused) else
      var i := Find(v.dir, id);
      if i < |v.dir| then
        Nothing(v, if v.dir[i].kind == FT_BLOB && ContentEq(v.disk, v.dir[i], p) then Done else Refused)
      else
        var f := FindFree(v.dir);
        if f == |v.dir| then Nothing(v, NoSlot) else CreateBlob(v, f, id, p)
  }

  function MarkerWrite(v: Vol, id: CString, p: seq<byte>): Effect
    requires Usable(v) && SizeOk(v.sup, |p|)
  {
    if |id| > NAME_MAX then Nothing(v, Refused) else
      var i := Find(v.dir, id);
      if i < |v.dir| then
        var e := v.dir[i];
        if e.kind == FT_RECORD then Nothing(v, Refused) else
          var span := if BlobSpan(|p|) > e.capacity then e.capacity else BlobSpan(|p|);
          var dir' := v.dir[i := Created(e, id, FT_BLOB, e.start, |p|, e.capacity, 0)];
          Effect(if |p| <= 512 * e.capacity then Done else Overfull,
                 Burst(e.start, Pack(p, span)) + [PersistEntry(v.sup, dir', i)], v.sup, dir')
      else
        var f := FindFree(v.dir);
        if f == |v.dir| then Nothing(v, NoSlot) else CreateBlob(v, f, id, p)
  }

  // ---- all of them ---------------------------------------------------------------------------------------

  datatype Op =
    | OpRecordWriteAt(off: u32, p: seq<byte>)
    | OpNrecAppend(id: CString, p: seq<byte>)
    | OpDurableWrite(id: CString, p: seq<byte>)
    | OpSwapRename(source: CString, target: CString)
    | OpBlobWriteOnce(id: CString, p: seq<byte>)
    | OpRemove(id: CString)
    | OpRename(source: CString, target: CString)
    | OpMarkerWrite(id: CString, p: seq<byte>)
    | OpMkdir(id: CString)

  /** The payload fits 32-bit arithmetic on this disk. */
  predicate OpFits(sup: Super, op: Op) {
    match op
    case OpRecordWriteAt(_, p) => SizeOk(sup, |p|)
    case OpNrecAppend(_, p) => SizeOk(sup, |p|)
    case OpDurableWrite(_, p) => SizeOk(sup, |p|)
    case OpBlobWriteOnce(_, p) => SizeOk(sup, |p|)
    case OpMarkerWrite(_, p) => SizeOk(sup, |p|)
    case _ => true
  }

  function Perform(v: Vol, op: Op): Effect
    requires Usable(v) && OpFits(v.sup, op)
  {
    match op
    case OpRecordWriteAt(off, p) => RecordWriteAt(v, off, p)
    case OpNrecAppend(id, p) => NrecAppend(v, id, p)
    case OpDurableWrite(id, p) => DurableWrite(v, id, p)
    case OpSwapRename(source, target) => SwapRename(v, source, target)
    case OpBlobWriteOnce(id, p) => BlobWriteOnce(v, id, p)
    case OpRemove(id) => Remove(v, id)
    case OpRename(source, target) => Rename(v, source, target)
    case OpMarkerWrite(id, p) => MarkerWrite(v, id, p)
    case OpMkdir(id) => Mkdir(v, id)
  }
}
