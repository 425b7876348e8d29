/** What every step of the scheduler keeps, and what whole runs promise: turns, ids, waits and joins. */
module SchedLaws {
  import opened SchedSteps
  import opened Wrappers

  // ---- the invariant ---------------------------------------------------------------------------------------

  predicate ThreadOk(t: Thread, nextTid: nat) {
    && (t.state == Blocked <==> t.waitAddr != 0) && t.waitAddr < USER_LIMIT
    && (t.hasDeadline ==> t.state == Blocked) && (t.state == Blocked ==> t.inWait)
    && (t.inWait ==> t.state == Blocked || t.state == Runnable)
    && (t.firstRun ==> t.state == Runnable && !t.inWait)
    && (t.state != Free ==> 1 <= t.tid < nextTid)
  }

  /** No two threads, living or ended, have the same id. */
  predicate Ids(ts: seq<Thread>) {
    forall i, j :: 0 <= i < j < |ts| && ts[i].state != Free && ts[j].state != Free ==> ts[i].tid != ts[j].tid
  }

  predicate Settled(ts: seq<Thread>, nextTid: nat) {
    && |ts| == SLOTS && (forall i :: 0 <= i < SLOTS ==> ThreadOk(ts[i], nextTid)) && Ids(ts)
    && ts[0].state != Free && nextTid >= 1
  }

  predicate NoneRunning(ts: seq<Thread>) { forall i :: 0 <= i < |ts| ==> ts[i].state != Running }

  predicate NoneRunnable(ts: seq<Thread>) { forall i :: 0 <= i < |ts| ==> ts[i].state != Runnable }

  /** The thread whose turn it is, and no other, is running; idle, the current thread is blocked or has ended and nobody
      could run. */
  predicate Turn(s: Sched)
    requires Shape(s)
  {
    match s.mode
    case User => forall i :: 0 <= i < SLOTS ==> (s.ts[i].state == Running <==> i == s.cur)
    case Waiting => s.ts[s.cur].state == Blocked && NoneRunning(s.ts) && NoneRunnable(s.ts)
    case Exiting => s.ts[s.cur].state == Zombie && NoneRunning(s.ts) && NoneRunnable(s.ts)
  }

  predicate Good(s: Sched) { Shape(s) && Settled(s.ts, s.nextTid) && Turn(s) }

  lemma InitialGood(words: map<nat, nat>, ticks: nat)
    ensures Good(Initial(words, ticks))
  {
  }

  // ---- its pieces ------------------------------------------------------------------------------------------

  /** Changing threads without their ids. */
  lemma SameIds(ts: seq<Thread>, ts': seq<Thread>, nextTid: nat)
    requires Settled(ts, nextTid) && |ts'| == SLOTS
    requires forall i :: 0 <= i < SLOTS ==> ThreadOk(ts'[i], nextTid)
    requires forall i :: 0 <= i < SLOTS ==> ts'[i].tid == ts[i].tid && (ts'[i].state == Free <==> ts[i].state == Free)
    ensures Settled(ts', nextTid)
  {
  }

  predicate OnlyWoke(t: Thread, t': Thread) {
    t'.state == t.state || (t.state == Blocked && t'.state == Runnable)
  }

  lemma ExpiredSettled(ts: seq<Thread>, now: nat, nextTid: nat)
    requires Settled(ts, nextTid)
    ensures Settled(Expired(ts, now), nextTid)
    ensures forall i :: 0 <= i < SLOTS ==> OnlyWoke(ts[i], Expired(ts, now)[i])
  {
    SameIds(ts, Expired(ts, now), nextTid);
  }

  lemma WokenSettled(ts: seq<Thread>, a: nat, nr: nat, nextTid: nat)
    requires Settled(ts, nextTid)
    ensures Settled(Woken(ts, a, nr), nextTid)
    ensures forall i :: 0 <= i < SLOTS ==> OnlyWoke(ts[i], Woken(ts, a, nr)[i])
  {
    SameIds(ts, Woken(ts, a, nr), nextTid);
  }

  lemma OneSettled(ts: seq<Thread>, i: nat, t: Thread, nextTid: nat)
    requires Settled(ts, nextTid) && i < SLOTS && ThreadOk(t, nextTid)
    requires t.tid == ts[i].tid && (t.state == Free <==> ts[i].state == Free)
    ensures Settled(ts[i := t], nextTid)
  {
    SameIds(ts, ts[i := t], nextTid);
  }

  lemma {:induction false} PickFinds(ts: seq<Thread>, cur: nat, k: nat)
    requires |ts| == SLOTS && 1 <= k <= SLOTS + 1 && cur < SLOTS
    ensures PickFrom(ts, cur, k) == None ==> forall j :: k <= j <= SLOTS ==> ts[Slot(cur, j)].state != Runnable
    decreases SLOTS + 1 - k
  {
    if k <= SLOTS {
      PickFinds(ts, cur, k + 1);
    }
  }

  /** How far slot i is ahead of the current one, going round. */
  function Distance(cur: nat, i: nat): (d: nat)
    requires cur < SLOTS && i < SLOTS
    ensures 1 <= d <= SLOTS && Slot(cur, d) == i
  {
    if i > cur then i - cur else i + SLOTS - cur
  }

  lemma PickNone(ts: seq<Thread>, cur: nat)
    requires |ts| == SLOTS && cur < SLOTS && Pick(ts, cur) == None
    ensures NoneRunnable(ts)
  {
    hide Slot;
    PickFinds(ts, cur, 1);
    forall i: nat | i < SLOTS ensures ts[i].state != Runnable {
      assert Slot(cur, Distance(cur, i)) == i;
    }
  }

  /** Giving the turn to a runnable thread. */
  lemma SwitchGood(s: Sched, next: nat)
    requires Shape(s) && Settled(s.ts, s.nextTid) && next < SLOTS && s.ts[next].state == Runnable && next != s.cur
    requires forall i :: 0 <= i < SLOTS && i != s.cur ==> s.ts[i].state != Running
    ensures Good(SwitchTo(s, next))
  {
    hide Ids;
    OneSettled(s.ts, s.cur, Parked(s.ts[s.cur]), s.nextTid);
    var parked := s.ts[s.cur := Parked(s.ts[s.cur])];
    OneSettled(parked, next, Resumed(parked[next]), s.nextTid);
  }

  lemma BlockRoundGood(s: Sched)
    requires Shape(s) && Settled(s.ts, s.nextTid) && NoneRunning(s.ts) && s.ts[s.cur].state == Blocked
    ensures Good(BlockRound(s))
  {
    hide Ids, PickFrom;
    ExpiredSettled(s.ts, Now(s), s.nextTid);
    var e := s.(ts := Expired(s.ts, Now(s)));
    if e.ts[s.cur].state == Runnable {
      OneSettled(e.ts, s.cur, Resumed(e.ts[s.cur]), s.nextTid);
    } else {
      match Pick(e.ts, s.cur) {
        case Some(next) => SwitchGood(e, next);
        case None => PickNone(e.ts, s.cur);
      }
    }
  }

  lemma ExitRoundGood(s: Sched)
    requires Shape(s) && Settled(s.ts, s.nextTid) && NoneRunning(s.ts) && s.ts[s.cur].state == Zombie
    ensures Good(ExitRound(s))
  {
    hide Ids, PickFrom;
    match Pick(s.ts, s.cur) {
      case Some(next) => SwitchGood(s, next);
      case None => PickNone(s.ts, s.cur);
    }
  }

  lemma TickGood(s: Sched)
    requires Good(s)
    ensures Good(TickStep(s))
  {
    hide Ids, PickFrom, Settled, Pick;
    var now := (s.ticks + 1) * NS_PER_TICK;
    SettledSize(s.ts, s.nextTid);
    ExpiredSettled(s.ts, now, s.nextTid);
    var t := s.(ticks := s.ticks + 1, ts := Expired(s.ts, now));
    match s.mode {
      case User =>
        if Pick(t.ts, t.cur).Some? { SwitchGood(t, Pick(t.ts, t.cur).value); }
      case Waiting => TickWaiting(s);
      case Exiting => ExitRoundGood(t);
    }
  }

  lemma SettledSize(ts: seq<Thread>, nextTid: nat)
    requires Settled(ts, nextTid)
    ensures |ts| == SLOTS
  {
  }

  /** Deadlines expire twice on an idle tick, the second time to no effect. */
  lemma TickWaiting(s: Sched)
    requires Good(s) && s.mode == Waiting
    ensures Good(TickStep(s))
  {
    hide Ids, PickFrom;
    var now := (s.ticks + 1) * NS_PER_TICK;
    ExpiredSettled(s.ts, now, s.nextTid);
    var t := s.(ticks := s.ticks + 1, ts := Expired(s.ts, now));
    if t.ts[s.cur].state == Blocked {
      BlockRoundGood(t);
    } else {
      ExpiredSettled(t.ts, now, s.nextTid);
      OneSettled(Expired(t.ts, now), s.cur, Resumed(Expired(t.ts, now)[s.cur]), s.nextTid);
    }
  }

  lemma AnsweredGood(s: Sched, rax: int)
    requires Good(s)
    ensures Good(Answered(s, rax))
  {
    hide Ids;
    OneSettled(s.ts, s.cur, s.ts[s.cur].(rax := rax), s.nextTid);
  }

  lemma BornSettled(ts: seq<Thread>, i: nat, nextTid: nat, a: CloneArgs)
    requires Settled(ts, nextTid) && i < SLOTS
    ensures Settled(ts[i := Born(nextTid, a)], nextTid + 1)
  {
  }

  lemma CloneGood(s: Sched, a: CloneArgs)
    requires Good(s) && s.mode == User
    ensures Good(CloneStep(s, a))
  {
    hide Ids, Settled, AllocFrom;
    SettledSize(s.ts, s.nextTid);
    if UserAddr(a.ptr) && AllocFrom(s.ts, s.cur, 1).Some? {
      var i := AllocFrom(s.ts, s.cur, 1).value;
      BornSettled(s.ts, i, s.nextTid, a);
      AnsweredGood(s.(ts := s.ts[i := Born(s.nextTid, a)], nextTid := s.nextTid + 1,
                      words := Announced(s.words, a, s.nextTid)), s.nextTid);
    } else {
      AnsweredGood(s, EAGAIN);
    }
  }

  lemma ExitGood(s: Sched)
    requires Good(s) && s.mode == User
    ensures Good(ExitStep(s))
  {
    hide Ids;
    var a := s.ts[s.cur].clearTid;
    WokenSettled(s.ts, a, 1, s.nextTid);
    var c := if UserAddr(a) then s.(words := s.words[a := 0], ts := Woken(s.ts, a, 1)) else s;
    OneSettled(c.ts, c.cur, c.ts[c.cur].(state := Zombie), c.nextTid);
    ExitRoundGood(c.(ts := c.ts[c.cur := c.ts[c.cur].(state := Zombie)]));
  }

  lemma WakeGood(s: Sched, a: nat, val: nat, rax: int)
    requires Good(s) && s.mode == User
    ensures Good(Answered(s.(ts := Woken(s.ts, a, val)), rax))
  {
    hide Ids;
    WokenSettled(s.ts, a, val, s.nextTid);
    AnsweredGood(s.(ts := Woken(s.ts, a, val)), rax);
  }

  /** A thread that starts a wait. */
  function Queued(t: Thread, a: nat, bitset: bool, timeout: Option<Timespec>): Thread {
    var q := t.(waitAddr := a, hasDeadline := false, wakeResult := 0, state := Blocked, inWait := true);
    if bitset && timeout.Some? then q.(deadline := Nanos(timeout.value), hasDeadline := true) else q
  }

  lemma WaitGood(s: Sched, a: nat, bitset: bool, timeout: Option<Timespec>)
    requires Good(s) && s.mode == User && UserAddr(a)
    ensures Good(BlockRound(s.(ts := s.ts[s.cur := Queued(s.ts[s.cur], a, bitset, timeout)])))
  {
    hide Ids;
    var q := Queued(s.ts[s.cur], a, bitset, timeout);
    OneSettled(s.ts, s.cur, q, s.nextTid);
    BlockRoundGood(s.(ts := s.ts[s.cur := q]));
  }

  /** Every step keeps the invariant. */
  lemma StepGood(s: Sched, act: Act, base: nat)
    requires Good(s) && Enabled(s, act)
    ensures Good(Step(s, act, base))
  {
    hide Ids, Settled, TickStep, CloneStep, ExitStep, BlockRound, Answered, Turn, Woken;
    SettledSize(s.ts, s.nextTid);
    match act {
      case Tick => TickGood(s);
      case Store(_, _) => StoreGood(s, act, base);
      case Clone(args) => CloneGood(s, args);
      case Exit => ExitGood(s);
      case Futex(a, cmd, val, realtime, timeout) =>
        if cmd == FUTEX_WAKE {
          var n := Waiters(s.ts, a);
          WakeGood(s, a, val, if n < val then n else val);
        } else if (cmd == FUTEX_WAIT || cmd == FUTEX_WAIT_BITSET)
                  && UserAddr(a) && Word(s.words, a) == val % 0x1_0000_0000 {
          WaitGood(s, a, cmd == FUTEX_WAIT_BITSET, Frame(cmd, realtime, timeout, base));
        } else {
          AnsweredGood(s, if cmd == FUTEX_WAIT || cmd == FUTEX_WAIT_BITSET then EAGAIN else 0);
        }
    }
  }

  lemma StoreGood(s: Sched, act: Act, base: nat)
    requires Good(s) && act.Store? && Enabled(s, act)
    ensures Good(Step(s, act, base))
  {
  }
}
