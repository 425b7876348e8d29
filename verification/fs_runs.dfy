/** Whole runs: any sequence of acts and crashes, what it keeps, and where the acts fall short of their names. */
module FsRuns {
  import opened Bytes
  import opened DiskLayout
  import opened Volume
  import opened Acts
  import opened FileMap
  import opened FsLaws
  import opened Crash
  import opened Durability
  import opened RecordLog
  import opened RecordSafety
  import opened Room

  /** An act performed to its end, or cut off after k sector writes and followed by a mount. */
  datatype Event = Act(op: Op) | Cut(op: Op, k: nat)

  /** The cut comes before the act's last write. */
  predicate Short(v: Vol, e: Event)
    requires Usable(v) && OpFits(v.sup, e.op)
  {
    e.Cut? && e.k < |Perform(v, e.op).writes|
  }

  function Step(v: Vol, e: Event): Vol
    requires Usable(v) && OpFits(v.sup, e.op)
  {
    var ef := Perform(v, e.op);
    if e.Act? then After(v, ef)
    else if Short(v, e) then Remount(v, e.op, e.k)
    else Mounted(After(v, ef).disk)
  }

  /** Every volume the run meets is one the acts run on. */
  ghost predicate Runs(v: Vol, es: seq<Event>)
    decreases |es|
  {
    es == [] || (Usable(v) && OpFits(v.sup, es[0].op) && Runs(Step(v, es[0]), es[1..]))
  }

  ghost function Run(v: Vol, es: seq<Event>): Vol
    requires Runs(v, es)
    decreases |es|
  {
    if es == [] then v else Run(Step(v, es[0]), es[1..])
  }

  // ---- the record is append-only -------------------------------------------------------------------------

  /** What an event adds to the log: a record write's payload, once its last sector write is down. */
  function Logged(v: Vol, e: Event): seq<Payload>
    requires Usable(v) && OpFits(v.sup, e.op)
  {
    if e.op.OpRecordWriteAt? && Perform(v, e.op).out == Done && !Short(v, e) then [e.op.p] else []
  }

  ghost function RunLogged(v: Vol, es: seq<Event>): seq<Payload>
    requires Runs(v, es)
    decreases |es|
  {
    if es == [] then [] else Logged(v, es[0]) + RunLogged(Step(v, es[0]), es[1..])
  }

  /** One event keeps the log, and adds to it exactly the record it completed. */
  lemma StepKeepsLog(v: Vol, e: Event, r: nat, home: nat, log: seq<Payload>)
    requires Logs(v, r, home, log) && OpFits(v.sup, e.op)
    ensures Logs(Step(v, e), r, home, log + Logged(v, e))
    ensures |Step(v, e).disk| == |v.disk|
  {
    hide Logs, Usable, Perform;
    ActKeepsLog(v, e.op, r, home, log);
    assert log + [] == log;
    if e.Cut? && !Short(v, e) {
      MountLogs(After(v, Perform(v, e.op)), r, home, log + Logged(v, e));
    }
  }

  lemma SameFits(sup: Super, sup': Super, op: Op)
    requires sup'.totalSectors == sup.totalSectors && OpFits(sup, op)
    ensures OpFits(sup', op)
  {
  }

  /** Over any run of acts and of crashes at any point whatever, from any volume the acts run on, the record keeps
      its place and its log, grown by the completed record writes in order. */
  lemma {:induction false} RunKeepsLog(v: Vol, es: seq<Event>, r: nat, home: nat, log: seq<Payload>)
    requires Logs(v, r, home, log) && forall e :: e in es ==> OpFits(v.sup, e.op)
    ensures Runs(v, es) && Logs(Run(v, es), r, home, log + RunLogged(v, es))
    decreases |es|
  {
    hide Logs, Usable, Step, Logged, OpFits;
    if es == [] {
      assert log + [] == log;
    } else {
      var e, v' := es[0], Step(v, es[0]);
      StepKeepsLog(v, e, r, home, log);
      forall x | x in es[1..] ensures OpFits(v'.sup, x.op) {
        assert x in es;
        SameFits(v.sup, v'.sup, x.op);
      }
      RunKeepsLog(v', es[1..], r, home, log + Logged(v, e));
      assert log + Logged(v, e) + RunLogged(v', es[1..]) == log + RunLogged(v, es);
    }
  }

  /** Append-only: a record on the disk before a run reads back equal, at the same sector, after it. */
  lemma RecordSurvives(v: Vol, es: seq<Event>, r: nat, home: nat, log: seq<Payload>, k: nat, max: nat)
    requires Logs(v, r, home, log) && forall e :: e in es ==> OpFits(v.sup, e.op)
    requires k < |log| && |log[k]| <= max
    ensures Runs(v, es)
    ensures ReadAt(Run(v, es).disk, home + RecordOffset(log, k), max) == Record(log[k])
    ensures |LogBytes(log)| <= |LogBytes(log + RunLogged(v, es))|
  {
    hide Logs, Usable, Runs, Run, RunLogged, FileBytes, LogBytes, ReadAt, OpFits;
    RunKeepsLog(v, es, r, home, log);
    var w, log' := Run(v, es), log + RunLogged(v, es);
    RecordOnDisk(w, r, home, log');
    RecordReadsBack(w.disk, home, log', k, max);
    LogPrefix(log', |log|);
    assert log'[..|log|] == log;
    assert log'[..k] == log[..k];
  }

  /** And the walk from the record's first sector enumerates everything ever appended, before the run and in it, in
      order, if the payloads fit the reader's buffer. */
  lemma WalkAfterRun(v: Vol, es: seq<Event>, r: nat, home: nat, log: seq<Payload>, max: nat, guard: nat)
    requires Logs(v, r, home, log) && (forall e :: e in es ==> OpFits(v.sup, e.op)) && Runs(v, es)
    requires |log + RunLogged(v, es)| <= guard && forall p :: p in log + RunLogged(v, es) ==> |p| <= max
    ensures var all := log + RunLogged(v, es);
            Walk(Run(v, es).disk, home, home + |LogBytes(all)| / 512, max, guard) == all
  {
    hide Logs, Usable, Runs, Run, RunLogged, FileBytes, ReadAt, Walk, OpFits;
    RunKeepsLog(v, es, r, home, log);
    var w, all := Run(v, es), log + RunLogged(v, es);
    RecordOnDisk(w, r, home, all);
    WalkEnumerates(w.disk, home, all, 0, max, guard);
    assert all[..0] == [] && all[0..] == all;
  }

  lemma RecordOnDisk(v: Vol, r: nat, home: nat, log: seq<Payload>)
    requires Logs(v, r, home, log)
    ensures home + Ceil(|LogBytes(log)|) <= |v.disk|
    ensures FileBytes(v.disk, home, |LogBytes(log)|) == LogBytes(log)
  {
    hide FieldName, LogBytes, SyncedAt, Usable, FileBytes;
  }

  // ---- sound volumes -------------------------------------------------------------------------------------

  /** The record file holds exactly this log, from this sector on. */
  ghost predicate HoldsLog(m: Files, home: nat, log: seq<Payload>) {
    RECORD_NAME in m && m[RECORD_NAME] == File(FT_RECORD, LogBytes(log), home)
  }

  /** On a sound volume the record's log is what the file map says of its name. */
  lemma SoundLogs(v: Vol, home: nat, log: seq<Payload>)
    requires Sound(v)
    ensures HoldsLog(Abs(v), home, log) <==> Logs(v, Find(v.dir, RECORD_NAME), home, log)
  {
    hide FieldName, LogBytes, SyncedAt, FileBytes;
    AbsAt(v, RECORD_NAME);
    var r := Find(v.dir, RECORD_NAME);
    if r < |v.dir| {
      forall j | 0 <= j < |v.dir| && j != r && v.dir[j].present != 0 ensures Apart(v.dir[r], v.dir[j]) {
        assert Apart(v.dir[r], v.dir[j]) || Apart(v.dir[j], v.dir[r]);
      }
    }
  }

  /** No blob of the run is cut between its name and the allocator's advance. */
  ghost predicate Unstale(v: Vol, es: seq<Event>)
    requires Runs(v, es)
    decreases |es|
  {
    es == [] || (!(es[0].Cut? && StalePoint(v, es[0].op, es[0].k)) && Unstale(Step(v, es[0]), es[1..]))
  }

  lemma StepSound(v: Vol, e: Event)
    requires Sound(v) && OpFits(v.sup, e.op) && !(e.Cut? && StalePoint(v, e.op, e.k))
    ensures Sound(Step(v, e)) && |Step(v, e).disk| == |v.disk|
  {
    hide Perform, Good, Synced, Abs, Next, Refuses, StalePoint, Usable;
    ActLaw(v, e.op);
    if Short(v, e) {
      CrashSound(v, e.op, e.k);
    } else if e.Cut? {
      MountLaw(After(v, Perform(v, e.op)));
    }
  }

  /** A run without such a cut keeps the whole volume sound. */
  lemma {:induction false} RunSound(v: Vol, es: seq<Event>)
    requires Sound(v) && Runs(v, es) && Unstale(v, es)
    ensures Sound(Run(v, es))
    decreases |es|
  {
    hide Good, Synced, Step, StalePoint, Usable, OpFits;
    if es != [] {
      StepSound(v, es[0]);
      RunSound(Step(v, es[0]), es[1..]);
    }
  }

  // ---- files equal their writes --------------------------------------------------------------------------

  /** What an event adds to the bytes under a name: the payload of an append to it that succeeded and was not cut
      short. */
  function Added(v: Vol, e: Event, id: CString): seq<byte>
    requires Usable(v) && OpFits(v.sup, e.op)
  {
    if IsAppend(e.op) && e.op.id == id && Perform(v, e.op).out == Done && !Short(v, e) then e.op.p else []
  }

  /** The payloads that reached one name over a run, end to end. */
  ghost function Written(v: Vol, es: seq<Event>, id: CString): seq<byte>
    requires Runs(v, es)
    decreases |es|
  {
    if es == [] then [] else Added(v, es[0], id) + Written(Step(v, es[0]), es[1..], id)
  }

  /** The name is only ever appended to. */
  predicate OnlyAppendsTo(e: Event, id: CString) {
    Touches(e.op, id) ==> IsAppend(e.op)
  }

  /** Over any run of acts and crashes, whatever they do to other names and however the appends to this one end, its
      bytes are what it held and then the payloads of the appends that succeeded, in order. */
  lemma {:induction false} FilesEqualWrites(v: Vol, es: seq<Event>, id: CString)
    requires Sound(v) && Runs(v, es) && Unstale(v, es) && forall e :: e in es ==> OnlyAppendsTo(e, id)
    ensures Sound(Run(v, es)) && Bytes0(Abs(Run(v, es)), id) == Bytes0(Abs(v), id) + Written(v, es, id)
    decreases |es|
  {
    hide Abs, Good, Synced, Step, Added, Bytes0, StalePoint, Usable, OpFits, OnlyAppendsTo;
    if es == [] {
      assert Bytes0(Abs(v), id) + [] == Bytes0(Abs(v), id);
    } else {
      var e, v' := es[0], Step(v, es[0]);
      StepSound(v, e);
      StepBytes(v, e, id);
      FilesEqualWrites(v', es[1..], id);
      var own, rest := Added(v, e, id), Written(v', es[1..], id);
      assert Bytes0(Abs(v), id) + own + rest == Bytes0(Abs(v), id) + (own + rest);
    }
  }

  /** An append of nothing by an event: the bytes under the name are kept. */
  lemma StepBytes(v: Vol, e: Event, id: CString)
    requires Sound(v) && OpFits(v.sup, e.op) && !(e.Cut? && StalePoint(v, e.op, e.k)) && OnlyAppendsTo(e, id)
    ensures Sound(Step(v, e)) && Bytes0(Abs(Step(v, e)), id) == Bytes0(Abs(v), id) + Added(v, e, id)
  {
    hide Abs, Good, Synced, Perform, Next, Bytes0, StalePoint, Usable, OpFits, After, Mounted, Refuses, Touches;
    StepSound(v, e);
    assert Bytes0(Abs(v), id) + [] == Bytes0(Abs(v), id);
    if Short(v, e) {
      ShortBytes(v, e.op, e.k, id);
    } else {
      ActLaw(v, e.op);
      NextBytes(v, e.op, id);
      if e.Cut? {
        MountLaw(After(v, Perform(v, e.op)));
        PersistedBytes(After(v, Perform(v, e.op)), id);
      }
    }
  }

  lemma NextBytes(v: Vol, op: Op, id: CString)
    requires Sound(v) && OpFits(v.sup, op) && Lawful(v, op) && (Touches(op, id) ==> IsAppend(op))
    ensures Bytes0(Next(Abs(v), op, Perform(v, op).out), id)
            == Bytes0(Abs(v), id) + if IsAppend(op) && op.id == id && Perform(v, op).out == Done then op.p else []
  {
    hide Abs, Synced, Perform, Good;
    if Touches(op, id) {
      AppendBytes(Abs(v), op, Perform(v, op).out, id);
    } else {
      NextUntouched(Abs(v), op, Perform(v, op).out, id);
    }
  }

  lemma AppendBytes(m: Files, op: Op, out: Outcome, id: CString)
    requires IsAppend(op) && op.id == id && (out == Refused <==> Refuses(m, op))
    ensures Bytes0(Next(m, op, out), id) == Bytes0(m, id) + if out == Done then op.p else []
  {
  }

  /** A mount forgets only empty files. */
  lemma PersistedBytes(v: Vol, id: CString)
    requires Sound(v)
    ensures Bytes0(Persisted(v), id) == Bytes0(Abs(v), id)
  {
    hide Abs, Synced, Good, OnDisk;
    if id in Abs(v) && id !in Persisted(v) {
      UnbornEmpty(v, id);
    }
  }

  lemma ShortBytes(v: Vol, op: Op, k: nat, id: CString)
    requires Sound(v) && OpFits(v.sup, op) && k < |Perform(v, op).writes| && !StalePoint(v, op, k)
    requires Touches(op, id) ==> IsAppend(op)
    requires Sound(Remount(v, op, k))
    ensures Bytes0(Abs(Remount(v, op, k)), id) == Bytes0(Abs(v), id)
  {
    hide Abs, Synced, Perform, Next, StalePoint, Mounted, CrashDisk, OnDisk, Bytes0, Persisted, Adopts;
    PersistedBytes(v, id);
    if Touches(op, id) {
      CrashAtomic(v, op, k);
      if 0 < k && Adopts(v, op) {
        AdoptedBytes(v, op, id);
      }
    } else {
      UntouchedSurvive(v, op, k, id);
      SameForBytes(v, Abs(Remount(v, op, k)), id);
    }
  }

  lemma SameForBytes(v: Vol, m': Files, id: CString)
    requires Sound(v) && SameFor(v, m', id)
    ensures Bytes0(m', id) == Bytes0(Abs(v), id)
  {
    hide Abs, Synced, OnDisk;
    PersistedBytes(v, id);
  }

  lemma AdoptedBytes(v: Vol, op: Op, id: CString)
    requires Sound(v) && Adopts(v, op) && op.id == id
    ensures Sound(AdoptedVol(v, op)) && Bytes0(Persisted(AdoptedVol(v, op)), id) == Bytes0(Abs(v), id)
  {
    hide Abs, Synced, Persisted, Adopted, FieldName;
    var i := Find(v.dir, op.id);
    AdoptedLaw(v, i);
    PersistedBytes(AdoptedVol(v, op), id);
  }

  /** Reading the named entry back gives those bytes: what fs_read_entry copies out is the payloads. */
  lemma ReadsEqualWrites(v: Vol, es: seq<Event>, id: CString)
    requires Sound(v) && Runs(v, es) && Unstale(v, es) && forall e :: e in es ==> OnlyAppendsTo(e, id)
    requires Find(Run(v, es).dir, id) < |Run(v, es).dir|
    requires Fits(Run(v, es).dir[Find(Run(v, es).dir, id)])
    ensures var w := Run(v, es);
            var e := w.dir[Find(w.dir, id)];
            && e.start + Ceil(e.length) <= |w.disk|
            && FileBytes(w.disk, e.start, e.length) == Bytes0(Abs(v), id) + Written(v, es, id)
  {
    hide Abs, Synced, Runs, Run, Written, Unstale, OnlyAppendsTo, FieldName, Find;
    FilesEqualWrites(v, es, id);
    EntryBytes(Run(v, es), id);
  }

  lemma EntryBytes(v: Vol, id: CString)
    requires Good(v) && Find(v.dir, id) < |v.dir| && Fits(v.dir[Find(v.dir, id)])
    ensures var e := v.dir[Find(v.dir, id)];
            e.start + Ceil(e.length) <= |v.disk| && FileBytes(v.disk, e.start, e.length) == Bytes0(Abs(v), id)
  {
    hide FieldName;
    AbsAt(v, id);
  }

  // ---- where an act falls short of its name -------------------------------------------------------------------

  /** A completed swap puts the staged file under the final name exactly when the two names differ; swapped
      with itself the file is gone. */
  lemma SwapNeedsTwoNames(v: Vol, source: CString, target: CString)
    requires Sound(v) && SwapRename(v, source, target).out == Done
    ensures Sound(After(v, SwapRename(v, source, target)))
    ensures var m, m' := Abs(v), Abs(After(v, SwapRename(v, source, target)));
            && Key(source) in m
            && (target in m' && m'[target] == m[Key(source)] <==> Key(source) != target)
  {
    hide Abs, Synced, After, FieldName, Find;
    ActLaw(v, OpSwapRename(source, target));
  }

  /** A marker write reads back what was written exactly when the bytes fit the marker's extent. */
  lemma MarkerNeedsRoom(v: Vol, id: CString, p: seq<byte>)
    requires Sound(v) && SizeOk(v.sup, |p|) && Find(v.dir, id) < |v.dir|
    requires MarkerWrite(v, id, p).out != Refused
    ensures Sound(After(v, MarkerWrite(v, id, p)))
    ensures var m' := Abs(After(v, MarkerWrite(v, id, p)));
            id in m' && (m'[id] == File(FT_BLOB, p) <==> |p| <= 512 * v.dir[Find(v.dir, id)].capacity)
  {
    hide Abs, Synced, After, FieldName, Find, Created, Pack, DirSector;
    ActLaw(v, OpMarkerWrite(id, p));
  }
}
