/** The fixed record as a log: the bytes a list of payloads lays down, and reading them back by sector. */
module RecordLog {
  import opened Bytes
  import opened Volume
  import opened Acts
  import opened FileMap

  /** Payloads small enough for 32-bit arithmetic. */
  type Payload = p: seq<byte> | |p| < 0xFFFF_0000 witness []

  datatype Read = NoRecord | Record(payload: seq<byte>)

  /** The bytes of the record file after appending these payloads in order. */
  function LogBytes(log: seq<Payload>): (r: seq<byte>)
    ensures |r| % 512 == 0
  {
    if log == [] then [] else
      var rest := LogBytes(log[..|log| - 1]);
      rest + RecordBlock(|rest| / 512 % 0x1_0000_0000, log[|log| - 1])
  }

  /** Where the k-th record starts, in sectors from the file's first. */
  function RecordOffset(log: seq<Payload>, k: nat): nat
    requires k <= |log|
  {
    |LogBytes(log[..k])| / 512
  }

  /** fs_record_read: the header at a sector, then the payload, if the header is one and the payload fits. */
  function ReadAt(d: Disk, sec: nat, max: nat): Read {
    if sec >= |d| then NoRecord else
      var n := U32At(d[sec], 4);
      if U32At(d[sec], 0) != RECK_MAGIC || n > max || sec + Ceil(HEADER_SIZE + n) > |d| then NoRecord
      else Record(FileBytes(d, sec, HEADER_SIZE + n)[HEADER_SIZE..])
  }

  lemma {:induction false} LogPrefix(log: seq<Payload>, k: nat)
    requires k <= |log|
    ensures LogBytes(log[..k]) <= LogBytes(log)
    ensures k < |log| ==> RecordOffset(log, k + 1) == RecordOffset(log, k) + RecordSpan(|log[k]|)
  {
    if k == |log| {
      assert log[..k] == log;
    } else {
      var init := log[..|log| - 1];
      LogPrefix(init, k);
      assert init[..k] == log[..k];
      assert log[..k + 1][..k] == log[..k];
    }
  }

  /** The log's bytes hold the k-th record's block at its offset. */
  lemma {:induction false} BlockAt(log: seq<Payload>, k: nat)
    requires k < |log|
    ensures var o := 512 * RecordOffset(log, k);
            o + 512 * RecordSpan(|log[k]|) <= |LogBytes(log)|
            && LogBytes(log)[o..o + 512 * RecordSpan(|log[k]|)]
               == RecordBlock(RecordOffset(log, k) % 0x1_0000_0000, log[k])
  {
    LogPrefix(log, k + 1);
    var upto := log[..k + 1];
    assert upto[..k] == log[..k];
    var b := LogBytes(log[..k]);
    assert LogBytes(upto) == b + RecordBlock(|b| / 512 % 0x1_0000_0000, log[k]);
    var o := 512 * RecordOffset(log, k);
    assert LogBytes(log)[o..o + 512 * RecordSpan(|log[k]|)] == LogBytes(upto)[o..];
  }

  /** A whole-sector offset into a file is a sector offset on disk. */
  lemma SubBytes(d: Disk, start: nat, n: nat, o: nat, len: nat)
    requires start + Ceil(n) <= |d| && 512 * o + len <= n
    ensures start + o + Ceil(len) <= |d|
    ensures FileBytes(d, start + o, len) == FileBytes(d, start, n)[512 * o..512 * o + len]
  {
    var all := FileBytes(d, start, n);
    forall j | 0 <= j < len ensures d[start + o + j / 512][j % 512] == all[512 * o + j] {
      assert (512 * o + j) / 512 == o + j / 512;
    }
    assert FileBytes(d, start + o, len) == all[512 * o..512 * o + len];
  }

  lemma HeaderWords(index: u32, p: Payload)
    ensures var image := RecordImage(index, p);
            U32At(image, 0) == RECK_MAGIC && U32At(image, 4) == |p| && image[HEADER_SIZE..] == p
  {
    var ws := [RECK_MAGIC, |p|, index, 0];
    WordAt(ws, 0); WordAt(ws, 1);
  }

  lemma SpanFits(n: nat)
    ensures HEADER_SIZE + n <= 512 * RecordSpan(n) && RecordSpan(n) > 0 && Ceil(512 * RecordSpan(n)) == RecordSpan(n)
  {
  }

  /** A record block read as a record gives back its payload. */
  lemma BlockReads(d: Disk, sec: nat, index: u32, p: Payload, max: nat)
    requires sec + RecordSpan(|p|) <= |d| && Ceil(512 * RecordSpan(|p|)) == RecordSpan(|p|)
    requires FileBytes(d, sec, 512 * RecordSpan(|p|)) == RecordBlock(index, p)
    ensures ReadAt(d, sec, max) == if |p| <= max then Record(p) else NoRecord
  {
    hide FileBytes, RecordImage;
    SpanFits(|p|);
    var n, image := HEADER_SIZE + |p|, RecordImage(index, p);
    SubBytes(d, sec, 512 * RecordSpan(|p|), 0, n);
    var got := FileBytes(d, sec, n);
    assert got == image;
    assert forall j :: 0 <= j < 8 ==> d[sec][j] == got[j];
    HeaderWords(index, p);
  }

  /** Every record in the log reads back equal at its start sector, if it fits the reader's buffer. */
  lemma RecordReadsBack(d: Disk, start: nat, log: seq<Payload>, k: nat, max: nat)
    requires k < |log| && start + Ceil(|LogBytes(log)|) <= |d|
    requires FileBytes(d, start, |LogBytes(log)|) == LogBytes(log)
    ensures ReadAt(d, start + RecordOffset(log, k), max) == if |log[k]| <= max then Record(log[k]) else NoRecord
  {
    hide FileBytes, RecordBlock, ReadAt;
    BlockAt(log, k);
    SpanFits(|log[k]|);
    var o := RecordOffset(log, k);
    SubBytes(d, start, |LogBytes(log)|, o, 512 * RecordSpan(|log[k]|));
    BlockReads(d, start + o, o % 0x1_0000_0000, log[k], max);
  }

  /** Walking the record from a sector on, span by span. */
  function Walk(d: Disk, sec: nat, end: nat, max: nat, guard: nat): seq<seq<byte>>
    decreases guard
  {
    if sec >= end || guard == 0 then []
    else match ReadAt(d, sec, max)
         case NoRecord => []
         case Record(p) => [p] + Walk(d, sec + RecordSpan(|p|), end, max, guard - 1)
  }

  /** The walk from any record on enumerates the payloads appended since, in order, if they fit the reader's buffer. */
  lemma {:induction false} WalkEnumerates(d: Disk, start: nat, log: seq<Payload>, k: nat, max: nat, guard: nat)
    requires k <= |log| <= k + guard && start + Ceil(|LogBytes(log)|) <= |d|
    requires FileBytes(d, start, |LogBytes(log)|) == LogBytes(log)
    requires forall j :: k <= j < |log| ==> |log[j]| <= max
    ensures Walk(d, start + RecordOffset(log, k), start + |LogBytes(log)| / 512, max, guard) == log[k..]
    decreases |log| - k
  {
    hide FileBytes, RecordBlock, ReadAt, LogBytes;
    LogPrefix(log, k);
    assert log[..|log|] == log;
    if k < |log| {
      RecordReadsBack(d, start, log, k, max);
      SpanFits(|log[k]|);
      LogPrefix(log, k + 1);
      WalkEnumerates(d, start, log, k + 1, max, guard - 1);
      assert log[k..] == [log[k]] + log[k + 1..];
    }
  }

  // ---- looking a row up ------------------------------------------------------------------------------

  /** The first row that starts with the prefix and carries 64 characters after it, among the leading records
      the reader's 256-byte buffer and its guard of 4096 steps let the walk reach. */
  function FirstRow(log: seq<Payload>, prefix: seq<byte>, from: nat, guard: nat): Read
    requires from <= |log|
    decreases |log| - from
  {
    if from == |log| || guard == 0 || |log[from]| > 256 then NoRecord
    else if prefix <= log[from] && |log[from]| >= |prefix| + 64 then Record(log[from][|prefix|..|prefix| + 64])
    else FirstRow(log, prefix, from + 1, guard - 1)
  }

  predicate IsRow(p: seq<byte>, prefix: seq<byte>) {
    prefix <= p && |p| >= |prefix| + 64
  }

  /** The walk gets as far as record k: within its guard, over records its buffer holds. */
  predicate Reaches(log: seq<Payload>, from: nat, guard: nat, k: nat) {
    from <= k < |log| && k - from < guard && forall j :: from <= j <= k ==> |log[j]| <= 256
  }

  /** Record k is the first row with the prefix that the walk gets to. */
  predicate FirstAt(log: seq<Payload>, prefix: seq<byte>, from: nat, guard: nat, k: nat) {
    && Reaches(log, from, guard, k) && IsRow(log[k], prefix)
    && forall j :: from <= j < k ==> !IsRow(log[j], prefix)
  }

  /** The answer is the 64 characters of the first row the walk gets to, */
  lemma {:induction false} FirstRowIsFirst(log: seq<Payload>, prefix: seq<byte>, k: nat, from: nat, guard: nat)
    requires FirstAt(log, prefix, from, guard, k)
    ensures FirstRow(log, prefix, from, guard) == Record(log[k][|prefix|..|prefix| + 64])
    decreases k - from
  {
    if from < k {
      FirstRowIsFirst(log, prefix, k, from + 1, guard - 1);
    }
  }

  /** so an answer is always some such row's, */
  lemma {:induction false} FirstRowFound(log: seq<Payload>, prefix: seq<byte>, from: nat, guard: nat) returns (k: nat)
    requires from <= |log| && FirstRow(log, prefix, from, guard).Record?
    ensures FirstAt(log, prefix, from, guard, k)
    decreases |log| - from
  {
    if IsRow(log[from], prefix) {
      k := from;
    } else {
      k := FirstRowFound(log, prefix, from + 1, guard - 1);
    }
  }

  lemma OneFurther(log: seq<Payload>, from: nat, guard: nat, k: nat)
    requires from < |log| && guard > 0 && |log[from]| <= 256 && from < k
    ensures Reaches(log, from, guard, k) <==> Reaches(log, from + 1, guard - 1, k)
  {
  }

  /** and there is none exactly when the walk gets to no row. */
  lemma {:induction false} FirstRowNone(log: seq<Payload>, prefix: seq<byte>, from: nat, guard: nat)
    requires from <= |log|
    ensures FirstRow(log, prefix, from, guard) == NoRecord <==>
              forall k: nat :: Reaches(log, from, guard, k) ==> !IsRow(log[k], prefix)
    decreases |log| - from
  {
    if from == |log| || guard == 0 || |log[from]| > 256 {
    } else if IsRow(log[from], prefix) {
      assert Reaches(log, from, guard, from);
    } else {
      var next, left := from + 1, guard - 1;
      FirstRowNone(log, prefix, next, left);
      forall k: nat | from < k ensures Reaches(log, from, guard, k) <==> Reaches(log, next, left, k) {
        OneFurther(log, from, guard, k);
      }
      hide Reaches, IsRow;
    }
  }
}
