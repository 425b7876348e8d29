/** The filesystem as its users see it: a map from names to files, and what each act does to that map. */
module FileMap {
  import opened Bytes
  import opened DiskLayout
  import opened Volume
  import opened Acts

  /** A record padded to whole sectors, as it extends the record file. */
  function RecordBlock(index: nat, p: seq<byte>): (r: seq<byte>)
    requires |p| < 0xFFFF_0000 && index < 0x1_0000_0000
    ensures |r| == 512 * RecordSpan(|p|)
  {
    var image := RecordImage(index, p);
    image + Zeros(512 * RecordSpan(|p|) - |image|)
  }

  /** The bytes a name stands for; an absent name stands for the empty file. */
  ghost function Bytes0(m: Files, id: CString): seq<byte> {
    if id in m && m[id].File? then m[id].bytes else []
  }

  ghost function HomeOf(m: Files): nat {
    if RECORD_NAME in m && m[RECORD_NAME].File? then m[RECORD_NAME].home else 0
  }

  /** The acts that are refused whatever the room: decided by the map alone. */
  ghost predicate Refuses(m: Files, op: Op) {
    match op
    case OpRecordWriteAt(off, p) =>
      !(RECORD_NAME in m && m[RECORD_NAME].File? && m[RECORD_NAME].kind == FT_RECORD
        && off == |m[RECORD_NAME].bytes| && off % 512 == 0)
    case OpNrecAppend(id, p) =>
      |id| > NAME_MAX
      || (id in m && m[id].kind != FT_NREC && m[id] != File(FT_DURABLE, []))
    case OpDurableWrite(id, p) => |id| > NAME_MAX || (id in m && m[id].kind != FT_DURABLE)
    case OpSwapRename(source, target) =>
      Key(source) !in m || m[Key(source)].kind != FT_DURABLE || |target| > NAME_MAX
      || (target in m && m[target].kind == FT_RECORD)
    case OpBlobWriteOnce(id, p) => |id| > NAME_MAX || (id in m && m[id] != File(FT_BLOB, p))
    case OpRemove(id) => Key(id) !in m || m[Key(id)].kind == FT_RECORD
    case OpRename(source, target) =>
      Key(source) !in m || m[Key(source)].kind == FT_RECORD || |target| > NAME_MAX || target in m
    case OpMarkerWrite(id, p) => |id| > NAME_MAX || (id in m && m[id].kind == FT_RECORD)
    case OpMkdir(id) => |id| > NAME_MAX || (id in m && m[id].kind != FT_DIR)
  }

  /** Write-once compares bytes, so an entry whose length overruns its extent is outside the map's knowledge. */
  ghost predicate Decided(m: Files, op: Op) {
    op.OpBlobWriteOnce? && op.id in m ==> m[op.id].File?
  }

  /** The map after an act that ended with `out`. */
  ghost function Next(m: Files, op: Op, out: Outcome): Files {
    match op
    case OpRecordWriteAt(off, p) =>
      if out == Done && |p| < 0xFFFF_0000 then
        m[RECORD_NAME := File(FT_RECORD, Bytes0(m, RECORD_NAME) + RecordBlock(off / 512, p), HomeOf(m))]
      else m
    case OpNrecAppend(id, p) => NextAppend(m, id, FT_NREC, p, out)
    case OpDurableWrite(id, p) => NextAppend(m, id, FT_DURABLE, p, out)
    case OpSwapRename(source, target) =>
      if out != Done || Key(source) !in m then m
      else if Key(source) == target then Without(m, target)
      else Without(m, Key(source))[target := m[Key(source)]]
    case OpBlobWriteOnce(id, p) => if out != Done || id in m then m else m[id := File(FT_BLOB, p)]
    case OpRemove(id) => if out == Done then Without(m, Key(id)) else m
    case OpRename(source, target) =>
      if out != Done || Key(source) !in m then m else Without(m, Key(source))[target := m[Key(source)]]
    case OpMarkerWrite(id, p) =>
      if out == Done then m[id := File(FT_BLOB, p)]
      else if out == Overfull then m[id := Overrun(FT_BLOB, |p|)]
      else m
    case OpMkdir(id) => if out != Done || id in m then m else m[id := File(FT_DIR, [])]
  }

  /** Appending extends the named file.  Out of space it appends nothing, but leaves a file it had to create,
      or an empty staging file it had adopted, behind as an empty file of its class. */
  ghost function NextAppend(m: Files, id: CString, kind: u32, p: seq<byte>, out: Outcome): Files {
    match out
    case Done => m[id := File(kind, Bytes0(m, id) + p)]
    case NoSpace => if id in m && m[id].kind == kind then m else m[id := File(kind, [])]
    case _ => m
  }
}
