/** Waits with a deadline, and waits for a thread to end. */
module SchedWaits {
  import opened SchedSteps
  import opened SchedLaws
  import opened SchedRuns
  import opened Wrappers

  // ---- deadlines -------------------------------------------------------------------------------------------

  /** What clock_gettime tells of the calendar and of the time since boot. */
  function Realtime(s: Sched, base: nat): Timespec { Split(base + Now(s)) }
  function Monotonic(s: Sched): Timespec { Split(Now(s)) }

  /** Between steps nobody sleeps past a deadline, and whoever is to be told of a timeout has reached his. */
  predicate TimeOk(s: Sched) {
    forall i :: 0 <= i < |s.ts| ==> Timely(s.ts[i], Now(s))
  }

  predicate Timely(t: Thread, now: nat) {
    && !Due(t, now)
    && (t.inWait ==> t.wakeResult == 0 || (t.wakeResult == ETIMEDOUT && t.state == Runnable && now >= t.deadline))
  }

  /** A wait asked for with a realtime deadline is due exactly when the calendar, as a program would read it, has
      reached that deadline. */
  lemma RealtimeDue(s: Sched, a: nat, t: Thread, deadline: Timespec, base: nat)
    ensures var q := Queued(t, a, true, Frame(FUTEX_WAIT_BITSET, true, Some(deadline), base));
            Due(q, Now(s)) <==> Nanos(Realtime(s, base)) >= Nanos(deadline)
  {
  }

  /** And with a monotonic one, when the time since boot has. */
  lemma MonotonicDue(s: Sched, a: nat, t: Thread, deadline: Timespec, base: nat)
    ensures var q := Queued(t, a, true, Frame(FUTEX_WAIT_BITSET, false, Some(deadline), base));
            Due(q, Now(s)) <==> Nanos(Monotonic(s)) >= Nanos(deadline)
  {
  }

  lemma ExpiredTimely(ts: seq<Thread>, before: nat, now: nat)
    requires before <= now && forall i :: 0 <= i < |ts| ==> Timely(ts[i], before) || Fresh(ts[i])
    ensures forall i :: 0 <= i < |ts| ==> Timely(Expired(ts, now)[i], now)
  {
  }

  /** A wait just begun. */
  predicate Fresh(t: Thread) { t.state == Blocked && t.inWait && t.wakeResult == 0 }

  lemma SwitchTimely(s: Sched, next: nat)
    requires Shape(s) && next < SLOTS && TimeOk(s)
    ensures TimeOk(SwitchTo(s, next))
  {
  }

  lemma BlockTimely(s: Sched)
    requires Shape(s) && forall i :: 0 <= i < SLOTS ==> Timely(s.ts[i], Now(s)) || Fresh(s.ts[i])
    ensures TimeOk(BlockRound(s))
  {
    hide PickFrom, Pick, SwitchTo;
    ExpiredTimely(s.ts, Now(s), Now(s));
    var e := s.(ts := Expired(s.ts, Now(s)));
    if e.ts[s.cur].state != Runnable && Pick(e.ts, s.cur).Some? {
      SwitchTimely(e, Pick(e.ts, s.cur).value);
    }
  }

  lemma ExitRoundTimely(s: Sched)
    requires Shape(s) && TimeOk(s)
    ensures TimeOk(ExitRound(s))
  {
    hide PickFrom, Pick, SwitchTo;
    if Pick(s.ts, s.cur).Some? {
      SwitchTimely(s, Pick(s.ts, s.cur).value);
    }
  }

  lemma TickTimely(s: Sched)
    requires Shape(s) && TimeOk(s)
    ensures TimeOk(TickStep(s))
  {
    hide PickFrom, Pick, SwitchTo, BlockRound, ExitRound;
    var now := (s.ticks + 1) * NS_PER_TICK;
    ExpiredTimely(s.ts, Now(s), now);
    var t := s.(ticks := s.ticks + 1, ts := Expired(s.ts, now));
    match s.mode {
      case User => if Pick(t.ts, t.cur).Some? { SwitchTimely(t, Pick(t.ts, t.cur).value); }
      case Waiting => BlockTimely(t);
      case Exiting => ExitRoundTimely(t);
    }
  }

  lemma StepTimely(s: Sched, act: Act, base: nat)
    requires Good(s) && TimeOk(s) && Enabled(s, act)
    ensures TimeOk(Step(s, act, base))
  {
    hide PickFrom, Pick, SwitchTo, BlockRound, ExitRound, TickStep, Ids, AllocFrom;
    match act {
      case Tick => TickTimely(s);
      case Store(_, _) =>
      case Clone(_) =>
      case Exit =>
        var a := s.ts[s.cur].clearTid;
        var c := if UserAddr(a) then s.(words := s.words[a := 0], ts := Woken(s.ts, a, 1)) else s;
        ExitRoundTimely(c.(ts := c.ts[c.cur := c.ts[c.cur].(state := Zombie)]));
      case Futex(a, cmd, val, realtime, timeout) =>
        if (cmd == FUTEX_WAIT || cmd == FUTEX_WAIT_BITSET) && UserAddr(a) && Word(s.words, a) == val % 0x1_0000_0000 {
          var q := Queued(s.ts[s.cur], a, cmd == FUTEX_WAIT_BITSET, Frame(cmd, realtime, timeout, base));
          BlockTimely(s.(ts := s.ts[s.cur := q]));
        }
    }
  }

  /** In every reachable state a thread still blocked has not reached its deadline, and one that is to be told of a
      timeout has. */
  lemma {:induction false} RunTimely(s: Sched, acts: seq<Act>, base: nat)
    requires Good(s) && TimeOk(s) && Runs(s, acts, base)
    ensures TimeOk(After(s, acts, base))
    decreases |acts|
  {
    hide Good, Step, TimeOk;
    if acts != [] {
      GoodShape(s);
      StepGood(s, acts[0], base);
      StepTimely(s, acts[0], base);
      RunTimely(Step(s, acts[0], base), acts[1..], base);
    }
  }

  /** The wait of t has come out as r: it is to be told, or has been. */
  predicate ToldOf(t: Thread, r: int) {
    (t.inWait && t.state == Runnable && t.wakeResult == r) || (!t.inWait && t.state == Running && t.rax == r)
  }

  /** The act wakes waiters on a word. */
  predicate WakesOn(s: Sched, act: Act, a: nat)
    requires Shape(s)
  {
    (act.Exit? && s.ts[s.cur].clearTid == a) || (act.Futex? && act.cmd == FUTEX_WAKE && act.addr == a)
  }

  /** How a wait ends: by a wake on its word, answered 0, or at its deadline and not before, answered -ETIMEDOUT. */
  ghost predicate Ends(s: Sched, act: Act, t: Thread, s': Sched, t': Thread)
    requires Shape(s)
  {
    || t' == t
    || (ToldOf(t', 0) && WakesOn(s, act, t.waitAddr))
    || (ToldOf(t', ETIMEDOUT) && t.hasDeadline && Now(s') >= t.deadline)
  }

  /** The clock the call names has reached its deadline. */
  predicate Late(s: Sched, cmd: nat, realtime: bool, timeout: Option<Timespec>, base: nat) {
    cmd == FUTEX_WAIT_BITSET && timeout.Some?
    && Nanos(if realtime then Realtime(s, base) else Monotonic(s)) >= Nanos(timeout.value)
  }

  /** How a wait begins, its word matching: past its deadline it is told so at once and keeps its turn; otherwise, and
      only then, it sleeps on its word. */
  lemma WaitBegins(s: Sched, a: nat, cmd: nat, val: nat, realtime: bool, timeout: Option<Timespec>, base: nat)
    requires Good(s) && s.mode == User && (cmd == FUTEX_WAIT || cmd == FUTEX_WAIT_BITSET)
    requires UserAddr(a) && Word(s.words, a) == val % 0x1_0000_0000
    ensures var r := Step(s, Futex(a, cmd, val, realtime, timeout), base);
            var t := r.ts[s.cur];
            if Late(s, cmd, realtime, timeout, base)
            then r.mode == User && r.cur == s.cur && t.state == Running && !t.inWait && t.rax == ETIMEDOUT
            else t.state == Blocked && t.inWait && t.waitAddr == a
  {
    hide PickFrom, Pick, Ids;
    var q := Queued(s.ts[s.cur], a, cmd == FUTEX_WAIT_BITSET, Frame(cmd, realtime, timeout, base));
    assert Due(q, Now(s)) <==> Late(s, cmd, realtime, timeout, base);
    var w := s.(ts := s.ts[s.cur := q]);
    assert Step(s, Futex(a, cmd, val, realtime, timeout), base) == BlockRound(w);
  }

  lemma WaitEnds(s: Sched, act: Act, base: nat, i: nat)
    requires Good(s) && Enabled(s, act) && i < SLOTS && s.ts[i].state == Blocked
    ensures Ends(s, act, s.ts[i], Step(s, act, base), Step(s, act, base).ts[i])
  {
    hide PickFrom, Pick, TickStep, Ids, AllocFrom, BlockRound, ExitStep;
    match act {
      case Tick => TickEnds(s, i);
      case Store(_, _) =>
      case Clone(_) =>
      case Exit => ExitEnds(s, i);
      case Futex(a, cmd, val, realtime, timeout) =>
        if (cmd == FUTEX_WAIT || cmd == FUTEX_WAIT_BITSET) && UserAddr(a) && Word(s.words, a) == val % 0x1_0000_0000 {
          BlockEnds(s, a, cmd == FUTEX_WAIT_BITSET, Frame(cmd, realtime, timeout, base), i, act);
        }
    }
  }

  lemma TickEnds(s: Sched, i: nat)
    requires Good(s) && i < SLOTS && s.ts[i].state == Blocked
    ensures Ends(s, Tick, s.ts[i], TickStep(s), TickStep(s).ts[i])
  {
    hide PickFrom, Pick, Ids;
  }

  lemma ExitEnds(s: Sched, i: nat)
    requires Good(s) && s.mode == User && i < SLOTS && s.ts[i].state == Blocked
    ensures Ends(s, Exit, s.ts[i], ExitStep(s), ExitStep(s).ts[i])
  {
    hide PickFrom, Pick, Ids;
  }

  lemma BlockEnds(s: Sched, a: nat, bitset: bool, timeout: Option<Timespec>, i: nat, act: Act)
    requires Good(s) && s.mode == User && i < SLOTS && s.ts[i].state == Blocked
    ensures var r := BlockRound(s.(ts := s.ts[s.cur := Queued(s.ts[s.cur], a, bitset, timeout)]));
            Ends(s, act, s.ts[i], r, r.ts[i])
  {
    hide PickFrom, Pick, Ids;
  }

  /** What a wait has come out as stays so until the thread is told. */
  lemma ResultStays(s: Sched, act: Act, base: nat, i: nat)
    requires Good(s) && Enabled(s, act) && i < SLOTS && s.ts[i].state == Runnable && s.ts[i].inWait
    ensures ToldOf(Step(s, act, base).ts[i], s.ts[i].wakeResult)
  {
    hide PickFrom, Pick, Ids, AllocFrom, Announced, Born, BlockRound, ExitRound, TickStep;
    assert s.mode == User && i != s.cur;
    match act {
      case Tick => TickStays(s, i);
      case Store(_, _) =>
      case Clone(_) =>
      case Exit =>
        var a := s.ts[s.cur].clearTid;
        var c := if UserAddr(a) then s.(words := s.words[a := 0], ts := Woken(s.ts, a, 1)) else s;
        ExitRoundStays(c.(ts := c.ts[c.cur := c.ts[c.cur].(state := Zombie)]), i);
      case Futex(a, cmd, val, realtime, timeout) =>
        if (cmd == FUTEX_WAIT || cmd == FUTEX_WAIT_BITSET) && UserAddr(a) && Word(s.words, a) == val % 0x1_0000_0000 {
          var q := Queued(s.ts[s.cur], a, cmd == FUTEX_WAIT_BITSET, Frame(cmd, realtime, timeout, base));
          BlockRoundStays(s.(ts := s.ts[s.cur := q]), i);
        }
    }
  }

  predicate Pending(s: Sched, i: nat) {
    Shape(s) && i < SLOTS && i != s.cur && s.ts[i].state == Runnable && s.ts[i].inWait
  }

  lemma TickStays(s: Sched, i: nat)
    requires Pending(s, i) && s.mode == User
    ensures ToldOf(TickStep(s).ts[i], s.ts[i].wakeResult)
  {
    hide PickFrom, Pick;
  }

  lemma ExitRoundStays(s: Sched, i: nat)
    requires Pending(s, i)
    ensures ToldOf(ExitRound(s).ts[i], s.ts[i].wakeResult)
  {
    hide PickFrom, Pick;
  }

  lemma BlockRoundStays(s: Sched, i: nat)
    requires Pending(s, i)
    ensures ToldOf(BlockRound(s).ts[i], s.ts[i].wakeResult)
  {
    hide PickFrom, Pick;
  }
}
