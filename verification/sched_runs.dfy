/** Whole runs of the scheduler. */
module SchedRuns {
  import opened SchedSteps
  import opened SchedLaws
  import opened Wrappers

  /** A run every act of which was possible when it came. */
  predicate Runs(s: Sched, acts: seq<Act>, base: nat)
    requires Shape(s)
    decreases |acts|
  {
    acts != [] ==> Enabled(s, acts[0]) && Runs(Step(s, acts[0], base), acts[1..], base)
  }

  function After(s: Sched, acts: seq<Act>, base: nat): (r: Sched)
    requires Shape(s) && Runs(s, acts, base)
    ensures Shape(r)
    decreases |acts|
  {
    if acts == [] then s else After(Step(s, acts[0], base), acts[1..], base)
  }

  lemma {:induction false} RunGood(s: Sched, acts: seq<Act>, base: nat)
    requires Good(s) && Runs(s, acts, base)
    ensures Good(After(s, acts, base))
    decreases |acts|
  {
    hide Good, Step;
    if acts != [] {
      GoodShape(s);
      StepGood(s, acts[0], base);
      RunGood(Step(s, acts[0], base), acts[1..], base);
    }
  }

  lemma GoodShape(s: Sched)
    requires Good(s)
    ensures Shape(s)
  {
  }

  // ---- turns and slots -------------------------------------------------------------------------------------

  /** While a program runs in ring 3 the current thread is running and no other is. */
  lemma OneRuns(s: Sched, acts: seq<Act>, base: nat, i: nat)
    requires Good(s) && Runs(s, acts, base) && i < SLOTS
    ensures var r := After(s, acts, base); r.mode == User ==> (r.ts[i].state == Running <==> i == r.cur)
    ensures var r := After(s, acts, base); r.ts[i].state == Blocked <==> r.ts[i].waitAddr != 0
  {
    RunGood(s, acts, base);
  }

  predicate Live(t: Thread) { t.state == Runnable || t.state == Running || t.state == Blocked }

  /** A thread cannot be made exactly when the argument pointer is no user address or every slot but the first holds a
      thread that has not ended, however many threads there have been. */
  lemma CloneRefused(s: Sched, a: CloneArgs)
    requires Good(s) && s.mode == User
    ensures CloneStep(s, a).nextTid == s.nextTid
            <==> !UserAddr(a.ptr) || forall i :: 1 <= i < SLOTS ==> Live(s.ts[i])
    ensures CloneStep(s, a).nextTid == s.nextTid ==> CloneStep(s, a) == Answered(s, EAGAIN)
  {
    hide Ids, AllocFrom, Born, ThreadOk;
    if UserAddr(a.ptr) {
      match AllocFrom(s.ts, s.cur, 1) {
        case Some(i) => assert !Live(s.ts[i]);
        case None =>
          forall i: nat | 1 <= i < SLOTS ensures Live(s.ts[i]) {
            assert !Usable(s.ts, s.cur, i);
          }
      }
    }
  }

  /** A thread made takes the next id, and its slot from nobody: it was empty, or its thread had ended and is not the
      current one.  It starts as the call's arguments say, with nothing of a thread before it, and no other thread is
      touched. */
  lemma CloneMade(s: Sched, a: CloneArgs)
    requires Good(s) && s.mode == User && CloneStep(s, a).nextTid != s.nextTid
    ensures exists i: nat :: MadeAt(s, a, CloneStep(s, a), i)
    ensures UserAddr(a.parentTid) ==> Word(CloneStep(s, a).words, a.parentTid) == s.nextTid
    ensures UserAddr(a.childTid) ==> Word(CloneStep(s, a).words, a.childTid) == s.nextTid
    ensures forall w: nat :: !(UserAddr(w) && (w == a.parentTid || w == a.childTid)) ==>
              Word(CloneStep(s, a).words, w) == Word(s.words, w)
  {
    hide AllocFrom, Born, Good, Word, MadeAt, StartsAs;
    GoodShape(s);
    var i := AllocFrom(s.ts, s.cur, 1).value;
    CloneSlotMade(s, a, i);
    AnnouncedWords(s.words, a, s.nextTid);
  }

  /** The new thread is in slot i, the first that can be had; only the caller's answer and that slot have changed. */
  ghost predicate MadeAt(s: Sched, a: CloneArgs, r: Sched, i: nat)
    requires Shape(s) && Shape(r)
  {
    && 1 <= i < SLOTS && i != s.cur && !Live(s.ts[i]) && StartsAs(r.ts[i], a) && r.ts[i].tid == s.nextTid
    && (forall j :: 1 <= j < i ==> Live(s.ts[j]))
    && (forall j :: 0 <= j < SLOTS && j != i && j != s.cur ==> r.ts[j] == s.ts[j])
    && r.ts[s.cur] == s.ts[s.cur].(rax := s.nextTid) && r.nextTid == s.nextTid + 1
  }

  /** A new thread enters ring 3 at the caller's return address, with the function and the argument it was given, its
      own thread pointer and its own stack; it waits for nothing and clears its own word when it ends. */
  ghost predicate StartsAs(t: Thread, a: CloneArgs) {
    && t.state == Runnable && t.firstRun && !t.inWait && !t.hasDeadline && t.waitAddr == 0 && t.wakeResult == 0
    && t.clearTid == a.childTid
    && t.entry.rip == a.rip && t.entry.func == a.func && t.entry.arg == a.arg && t.entry.fs == a.tls
    && StackOf(t.entry.rsp, a)
  }

  /** The end of the stack given.  Without a size, and with the thread pointer in the gibibyte above the stack's start,
      the last multiple of 16 at least 0x2000 bytes below the thread pointer; otherwise the stack's start. */
  ghost predicate StackOf(rsp: nat, a: CloneArgs) {
    && (a.stackSize != 0 && a.stack + a.stackSize < 0x1_0000_0000_0000_0000 ==> rsp == a.stack + a.stackSize)
    && (a.stackSize != 0 && 0x1_0000_0000_0000_0000 <= a.stack + a.stackSize < 0x2_0000_0000_0000_0000 ==>
          rsp == a.stack + a.stackSize - 0x1_0000_0000_0000_0000)
    && (a.stackSize == 0 && a.stack < 0xFFFF_FFFF_C000_0000 ==>
          if a.stack < a.tls < a.stack + 0x4000_0000 && a.tls >= 0x2000
          then rsp % 16 == 0 && rsp + 0x2000 <= a.tls <= rsp + 0x200F
          else a.stack < a.tls < 0x2000 || rsp == a.stack)
  }

  lemma BornStarts(tid: nat, a: CloneArgs)
    ensures StartsAs(Born(tid, a), a) && Born(tid, a).tid == tid
  {
    hide StackOf;
    StackFits(a);
  }

  lemma StackFits(a: CloneArgs)
    ensures StackOf(ChildRsp(a), a)
  {
    var sum := a.stack + a.stackSize;
    if sum < WORD_RANGE {
      assert sum % WORD_RANGE == sum;
    } else if sum < 2 * WORD_RANGE {
      assert sum % WORD_RANGE == sum - WORD_RANGE;
    }
    if a.stackSize == 0 && a.stack < 0xFFFF_FFFF_C000_0000 {
      assert (a.stack + 0x4000_0000) % WORD_RANGE == a.stack + 0x4000_0000;
      if a.stack < a.tls < a.stack + 0x4000_0000 && a.tls >= 0x2000 {
        assert (a.tls + WORD_RANGE - 0x2000) % WORD_RANGE == a.tls - 0x2000;
      }
    }
  }

  lemma CloneSlotMade(s: Sched, a: CloneArgs, i: nat)
    requires Good(s) && s.mode == User && UserAddr(a.ptr) && AllocFrom(s.ts, s.cur, 1) == Some(i)
    ensures MadeAt(s, a, CloneStep(s, a), i)
  {
    hide AllocFrom, Born, Announced, Ids, ThreadOk, StartsAs;
    CurrentRuns(s);
    forall j: nat | 1 <= j < i ensures Live(s.ts[j]) { assert !Usable(s.ts, s.cur, j); }
    BornStarts(s.nextTid, a);
  }

  lemma CurrentRuns(s: Sched)
    requires Good(s) && s.mode == User
    ensures s.ts[s.cur].state == Running
  {
  }

  lemma AnnouncedWords(words: map<nat, nat>, a: CloneArgs, tid: nat)
    ensures UserAddr(a.parentTid) ==> Word(Announced(words, a, tid), a.parentTid) == tid
    ensures UserAddr(a.childTid) ==> Word(Announced(words, a, tid), a.childTid) == tid
    ensures forall w: nat :: !(UserAddr(w) && (w == a.parentTid || w == a.childTid)) ==>
              Word(Announced(words, a, tid), w) == Word(words, w)
  {
  }

  /** The ids handed out along a run. */
  function Made(s: Sched, acts: seq<Act>, base: nat): seq<nat>
    requires Shape(s) && Runs(s, acts, base)
    decreases |acts|
  {
    if acts == [] then []
    else
      var t := Step(s, acts[0], base);
      (if t.nextTid != s.nextTid then [s.nextTid] else []) + Made(t, acts[1..], base)
  }

  lemma StepIds(s: Sched, act: Act, base: nat)
    requires Good(s) && Enabled(s, act)
    ensures s.nextTid <= Step(s, act, base).nextTid <= s.nextTid + 1
    ensures Step(s, act, base).nextTid != s.nextTid ==> act.Clone?
  {
  }

  predicate Rising(m: seq<nat>, from: nat, to: nat) {
    && (forall k :: 0 <= k < |m| ==> from <= m[k] < to)
    && (forall k, l :: 0 <= k < l < |m| ==> m[k] < m[l])
  }

  lemma RisingCons(lo: nat, rest: seq<nat>, hi: nat)
    requires Rising(rest, lo + 1, hi) && lo < hi
    ensures Rising([lo] + rest, lo, hi)
  {
  }

  /** Ids only go up: none is ever given twice, whatever slots are used again. */
  lemma {:induction false} IdsNeverReused(s: Sched, acts: seq<Act>, base: nat)
    requires Good(s) && Runs(s, acts, base)
    ensures Rising(Made(s, acts, base), s.nextTid, After(s, acts, base).nextTid)
    ensures s.nextTid <= After(s, acts, base).nextTid
    decreases |acts|
  {
    hide Good, Step;
    if acts != [] {
      GoodShape(s);
      StepGood(s, acts[0], base);
      StepIds(s, acts[0], base);
      var t := Step(s, acts[0], base);
      IdsNeverReused(t, acts[1..], base);
      var rest := Made(t, acts[1..], base);
      if t.nextTid != s.nextTid {
        RisingCons(s.nextTid, rest, After(s, acts, base).nextTid);
      } else {
        assert [] + rest == rest;
      }
    }
  }

  // ---- the queue -------------------------------------------------------------------------------------------

  lemma {:induction false} WaitersNone(ts: seq<Thread>, a: nat)
    ensures Waiters(ts, a) == 0 <==> forall i :: 0 <= i < |ts| ==> !Waits(ts[i], a)
  {
    if ts != [] {
      var n := |ts| - 1;
      WaitersNone(ts[..n], a);
      assert forall i :: 0 <= i < n ==> ts[..n][i] == ts[i];
    }
  }

  /** A wake releases as many waiters as it is asked to, or all there are. */
  lemma {:induction false} WakeCounts(ts: seq<Thread>, a: nat, nr: nat)
    requires a != 0
    ensures Waiters(Woken(ts, a, nr), a) == Waiters(ts, a) - if Waiters(ts, a) < nr then Waiters(ts, a) else nr
  {
    if ts != [] {
      var n := |ts| - 1;
      WakeCounts(ts[..n], a, nr);
      var w := Woken(ts, a, nr);
      assert w[..n] == Woken(ts[..n], a, nr) by {
        forall i | 0 <= i < n ensures w[i] == Woken(ts[..n], a, nr)[i] {
          assert ts[..n][..i] == ts[..i];
        }
      }
    }
  }

  /** Only waiters on that word, and the earlier slots first. */
  lemma WakeOnly(ts: seq<Thread>, a: nat, nr: nat, i: nat, j: nat)
    requires i < |ts| && j < |ts|
    ensures Woken(ts, a, nr)[i] != ts[i] ==> Waits(ts[i], a) && Woken(ts, a, nr)[i] == Released(ts[i], 0)
    ensures Waits(ts[i], a) && Waits(ts[j], a) && i < j && Woken(ts, a, nr)[j] != ts[j] ==>
              Woken(ts, a, nr)[i] == Released(ts[i], 0)
  {
    if i < j {
      WaitersGrow(ts, a, i, j);
    }
  }

  lemma {:induction false} WaitersGrow(ts: seq<Thread>, a: nat, i: nat, j: nat)
    requires i <= j <= |ts|
    ensures Waiters(ts[..i], a) <= Waiters(ts[..j], a)
    decreases j
  {
    if i < j {
      assert ts[..j][..j - 1] == ts[..j - 1];
      WaitersGrow(ts, a, i, j - 1);
    }
  }

  // ---- fairness --------------------------------------------------------------------------------------------

  lemma {:induction false} PickNear(ts: seq<Thread>, cur: nat, k: nat, d: nat)
    requires |ts| == SLOTS && cur < SLOTS && 1 <= k <= d <= SLOTS && ts[Slot(cur, d)].state == Runnable
    ensures PickFrom(ts, cur, k).Some?
    ensures exists e: nat :: k <= e <= d && PickFrom(ts, cur, k).value == Slot(cur, e)
    decreases d - k
  {
    if ts[Slot(cur, k)].state == Runnable {
      assert PickFrom(ts, cur, k).value == Slot(cur, k);
    } else {
      PickNear(ts, cur, k + 1, d);
    }
  }

  /** Whoever is picked is no further than a runnable thread i, and if it is another, i has come nearer. */
  lemma PickNearer(ts: seq<Thread>, cur: nat, i: nat)
    requires |ts| == SLOTS && cur < SLOTS && i < SLOTS && ts[i].state == Runnable
    ensures Pick(ts, cur).Some?
    ensures Pick(ts, cur).value != i && i != cur ==> Distance(Pick(ts, cur).value, i) < Distance(cur, i)
    ensures i != cur ==> Pick(ts, cur).value != cur
  {
    hide Slot, Distance;
    var d := Distance(cur, i);
    PickNear(ts, cur, 1, d);
    var e: nat :| 1 <= e <= d && PickFrom(ts, cur, 1).value == Slot(cur, e);
    SlotNearer(cur, e, i);
  }

  lemma SlotNearer(cur: nat, e: nat, i: nat)
    requires cur < SLOTS && i < SLOTS && 1 <= e <= Distance(cur, i)
    ensures Slot(cur, e) != i && i != cur ==> Slot(cur, e) != cur && Distance(Slot(cur, e), i) < Distance(cur, i)
    ensures i != cur ==> Slot(cur, e) != cur
  {
  }

  /** Thread i is runnable, and not running, all along the run. */
  predicate Starved(s: Sched, acts: seq<Act>, base: nat, i: nat)
    requires Shape(s) && Runs(s, acts, base) && i < SLOTS
    decreases |acts|
  {
    s.ts[i].state == Runnable && (acts != [] ==> Starved(Step(s, acts[0], base), acts[1..], base, i))
  }

  function Ticks(acts: seq<Act>): nat {
    if acts == [] then 0 else Ticks(acts[1..]) + if acts[0].Tick? then 1 else 0
  }

  /** Turns that went to somebody else. */
  function Switches(s: Sched, acts: seq<Act>, base: nat): nat
    requires Shape(s) && Runs(s, acts, base)
    decreases |acts|
  {
    if acts == [] then 0
    else
      var t := Step(s, acts[0], base);
      Switches(t, acts[1..], base) + if t.cur != s.cur then 1 else 0
  }

  /** While i stays runnable, every turn that changes hands brings it nearer, and every tick changes hands. */
  lemma StepNearer(s: Sched, act: Act, base: nat, i: nat)
    requires Good(s) && Enabled(s, act) && i < SLOTS && s.ts[i].state == Runnable
    requires Step(s, act, base).ts[i].state == Runnable
    ensures var t := Step(s, act, base);
            && (t.cur != s.cur ==> Distance(t.cur, i) < Distance(s.cur, i)) && (act.Tick? ==> t.cur != s.cur)
  {
    hide Ids, PickFrom, Distance, Pick, Slot, ExitStep, BlockRound, Expired, Woken, AllocFrom, SwitchTo, TickStep;
    assert s.mode == User && i != s.cur;
    match act {
      case Tick => TickNearer(s, i);
      case Store(_, _) =>
      case Clone(_) =>
      case Exit =>
        ExitNearer(s, i);
      case Futex(a, cmd, val, realtime, timeout) =>
        if (cmd == FUTEX_WAIT || cmd == FUTEX_WAIT_BITSET) && UserAddr(a) && Word(s.words, a) == val % 0x1_0000_0000 {
          WaitNearer(s, a, cmd == FUTEX_WAIT_BITSET, Frame(cmd, realtime, timeout, base), i);
        }
    }
  }

  lemma TickNearer(s: Sched, i: nat)
    requires Good(s) && s.mode == User && i < SLOTS && s.ts[i].state == Runnable && TickStep(s).ts[i].state == Runnable
    ensures TickStep(s).cur != s.cur && Distance(TickStep(s).cur, i) < Distance(s.cur, i)
  {
    hide Ids, PickFrom, Distance, Pick, Slot;
    PickNearer(Expired(s.ts, (s.ticks + 1) * NS_PER_TICK), s.cur, i);
  }

  lemma ExitNearer(s: Sched, i: nat)
    requires Good(s) && s.mode == User && i < SLOTS && s.ts[i].state == Runnable && ExitStep(s).ts[i].state == Runnable
    ensures ExitStep(s).cur != s.cur ==> Distance(ExitStep(s).cur, i) < Distance(s.cur, i)
  {
    hide Ids, PickFrom, Distance, Pick, Slot;
    var a := s.ts[s.cur].clearTid;
    var c := if UserAddr(a) then s.(words := s.words[a := 0], ts := Woken(s.ts, a, 1)) else s;
    PickNearer(c.ts[c.cur := c.ts[c.cur].(state := Zombie)], s.cur, i);
  }

  lemma WaitNearer(s: Sched, a: nat, bitset: bool, timeout: Option<Timespec>, i: nat)
    requires Good(s) && s.mode == User && UserAddr(a) && i < SLOTS && s.ts[i].state == Runnable
    requires BlockRound(s.(ts := s.ts[s.cur := Queued(s.ts[s.cur], a, bitset, timeout)])).ts[i].state == Runnable
    ensures var t := BlockRound(s.(ts := s.ts[s.cur := Queued(s.ts[s.cur], a, bitset, timeout)]));
            t.cur != s.cur ==> Distance(t.cur, i) < Distance(s.cur, i)
  {
    hide Ids, PickFrom, Distance, Pick, Slot;
    var q := s.ts[s.cur := Queued(s.ts[s.cur], a, bitset, timeout)];
    PickNearer(Expired(q, Now(s)), s.cur, i);
  }

  /** A thread that could run gets its turn within 31 switches, and within 31 ticks. */
  lemma {:induction false} Fair(s: Sched, acts: seq<Act>, base: nat, i: nat)
    requires Good(s) && Runs(s, acts, base) && i < SLOTS && Starved(s, acts, base, i)
    ensures Ticks(acts) <= Switches(s, acts, base) < Distance(s.cur, i) <= 31
    decreases |acts|
  {
    hide Step, Distance;
    FarEnough(s, i);
    if acts != [] {
      var t := Step(s, acts[0], base);
      StepGood(s, acts[0], base);
      Fair(t, acts[1..], base, i);
      StepNearer(s, acts[0], base, i);
    }
  }

  lemma FarEnough(s: Sched, i: nat)
    requires Good(s) && i < SLOTS && s.ts[i].state == Runnable
    ensures Distance(s.cur, i) <= 31 && s.mode == User
  {
    assert i != s.cur;
  }

  /** And a thread stops being runnable only by running. */
  lemma LeavesByRunning(s: Sched, act: Act, base: nat, i: nat)
    requires Good(s) && Enabled(s, act) && i < SLOTS && s.ts[i].state == Runnable
    ensures var t := Step(s, act, base);
            t.ts[i].state == Runnable || (t.ts[i].state == Running && t.cur == i && t.mode == User)
  {
    hide Ids, PickFrom, Distance, Pick, Slot, ExitStep, BlockRound, AllocFrom, TickStep, SwitchTo;
    assert s.mode == User && i != s.cur;
    match act {
      case Tick => TickRuns(s, i);
      case Store(_, _) =>
      case Clone(_) =>
      case Exit => ExitRuns(s, i);
      case Futex(a, cmd, val, realtime, timeout) =>
        if (cmd == FUTEX_WAIT || cmd == FUTEX_WAIT_BITSET) && UserAddr(a) && Word(s.words, a) == val % 0x1_0000_0000 {
          WaitRuns(s, a, cmd == FUTEX_WAIT_BITSET, Frame(cmd, realtime, timeout, base), i);
        }
    }
  }

  /** Thread i still waits for its turn, or has it. */
  predicate Turned(t: Sched, i: nat)
    requires Shape(t) && i < SLOTS
  {
    t.ts[i].state == Runnable || (t.ts[i].state == Running && t.cur == i && t.mode == User)
  }

  lemma TickRuns(s: Sched, i: nat)
    requires Good(s) && s.mode == User && i < SLOTS && s.ts[i].state == Runnable
    ensures Turned(TickStep(s), i)
  {
    hide Ids, PickFrom, Pick;
  }

  lemma ExitRuns(s: Sched, i: nat)
    requires Good(s) && s.mode == User && i < SLOTS && s.ts[i].state == Runnable
    ensures Turned(ExitStep(s), i)
  {
    hide Ids, PickFrom, Pick;
  }

  lemma WaitRuns(s: Sched, a: nat, bitset: bool, timeout: Option<Timespec>, i: nat)
    requires Good(s) && s.mode == User && UserAddr(a) && i < SLOTS && s.ts[i].state == Runnable
    ensures Turned(BlockRound(s.(ts := s.ts[s.cur := Queued(s.ts[s.cur], a, bitset, timeout)])), i)
  {
    hide Ids, PickFrom, Pick;
  }
}
