/** Joins: a thread's word is cleared and its joiner woken before the slot can be anyone else's. */
module SchedJoins {
  import opened SchedSteps
  import opened SchedLaws
  import opened SchedRuns
  import opened Wrappers

  predicate Owner(t: Thread, w: nat) { Live(t) && t.clearTid == w }

  predicate NoOwner(ts: seq<Thread>, w: nat) { forall i :: 0 <= i < |ts| ==> !Owner(ts[i], w) }

  predicate NoWaiter(ts: seq<Thread>, w: nat) { forall i :: 0 <= i < |ts| ==> !Waits(ts[i], w) }

  predicate OneWaiter(ts: seq<Thread>, w: nat) {
    forall i, j :: 0 <= i < j < |ts| ==> !(Waits(ts[i], w) && Waits(ts[j], w))
  }

  /** The words given to threads so far: once nobody living has one it holds 0 and nobody waits on it. */
  predicate JoinOk(s: Sched, words: set<nat>) {
    && (forall w :: w in words ==> UserAddr(w) && OneWaiter(s.ts, w) && Settled0(s, w))
    && (forall i :: 0 <= i < |s.ts| && Live(s.ts[i]) && UserAddr(s.ts[i].clearTid) ==> s.ts[i].clearTid in words)
    && (forall i, j :: 0 <= i < j < |s.ts| && Live(s.ts[i]) && UserAddr(s.ts[i].clearTid) ==>
        !Owner(s.ts[j], s.ts[i].clearTid))
  }

  predicate Settled0(s: Sched, w: nat) { NoOwner(s.ts, w) ==> Word(s.words, w) == 0 && NoWaiter(s.ts, w) }

  /** How a program uses its joins: one living thread a word, one joiner at a time who waits for a tid, which is not 0,
      and no stores of its own to the words. */
  predicate Disciplined(s: Sched, words: set<nat>, act: Act)
    requires Shape(s)
  {
    match act
    case Store(a, _) => a !in words
    case Clone(c) =>
      && (UserAddr(c.childTid) ==>
          if c.childTid in words then NoOwner(s.ts, c.childTid) else NoWaiter(s.ts, c.childTid))
      && (UserAddr(c.parentTid) ==> c.parentTid !in words || c.parentTid == c.childTid)
    case Futex(a, cmd, val, _, _) =>
      (cmd == FUTEX_WAIT || cmd == FUTEX_WAIT_BITSET) && a in words ==> val % 0x1_0000_0000 != 0 && NoWaiter(s.ts, a)
    case _ => true
  }

  /** The words given out after an act. */
  function WordsAfter(s: Sched, words: set<nat>, act: Act): set<nat>
    requires Shape(s)
  {
    if act.Clone? && UserAddr(act.args.ptr) && AllocFrom(s.ts, s.cur, 1).Some? && UserAddr(act.args.childTid)
    then words + {act.args.childTid}
    else words
  }

  /** Threads change hands, but nobody is born, ends, or begins a wait. */
  predicate Calmer(t: Thread, t': Thread) {
    && t'.clearTid == t.clearTid && (Live(t') <==> Live(t))
    && (t'.state == Blocked ==> t.state == Blocked && t'.waitAddr == t.waitAddr)
  }

  lemma CalmJoin(s: Sched, s': Sched, words: set<nat>)
    requires JoinOk(s, words) && |s'.ts| == |s.ts| && s'.words == s.words
    requires forall i :: 0 <= i < |s.ts| ==> Calmer(s.ts[i], s'.ts[i])
    ensures JoinOk(s', words)
  {
    forall w | w in words ensures Settled0(s', w) {
      if NoOwner(s'.ts, w) {
        assert forall i :: 0 <= i < |s.ts| ==> Calmer(s.ts[i], s'.ts[i]) && !Owner(s'.ts[i], w);
        assert NoOwner(s.ts, w);
      }
    }
  }

  lemma SwitchCalm(s: Sched, next: nat)
    requires Shape(s) && next < SLOTS && s.ts[next].state == Runnable
    ensures forall i :: 0 <= i < SLOTS ==> Calmer(s.ts[i], SwitchTo(s, next).ts[i])
    ensures SwitchTo(s, next).words == s.words
  {
  }

  lemma CalmTwice(ts: seq<Thread>, ts1: seq<Thread>, ts2: seq<Thread>)
    requires |ts| == |ts1| == |ts2|
    requires forall i :: 0 <= i < |ts| ==> Calmer(ts[i], ts1[i])
    requires forall i :: 0 <= i < |ts| ==> Calmer(ts1[i], ts2[i])
    ensures forall i :: 0 <= i < |ts| ==> Calmer(ts[i], ts2[i])
  {
    forall i | 0 <= i < |ts| ensures Calmer(ts[i], ts2[i]) {
      assert Calmer(ts[i], ts1[i]) && Calmer(ts1[i], ts2[i]);
    }
  }

  lemma BlockCalm(s: Sched)
    requires Shape(s)
    ensures forall i :: 0 <= i < SLOTS ==> Calmer(s.ts[i], BlockRound(s).ts[i])
    ensures BlockRound(s).words == s.words
  {
    hide PickFrom, Pick, SwitchTo;
    var e := s.(ts := Expired(s.ts, Now(s)));
    if e.ts[s.cur].state != Runnable && Pick(e.ts, s.cur).Some? {
      var next := Pick(e.ts, s.cur).value;
      SwitchCalm(e, next);
      CalmTwice(s.ts, e.ts, SwitchTo(e, next).ts);
    }
  }

  lemma ExitRoundCalm(s: Sched)
    requires Shape(s)
    ensures forall i :: 0 <= i < SLOTS ==> Calmer(s.ts[i], ExitRound(s).ts[i])
    ensures ExitRound(s).words == s.words
  {
    hide PickFrom, Pick, SwitchTo;
    if Pick(s.ts, s.cur).Some? {
      SwitchCalm(s, Pick(s.ts, s.cur).value);
    }
  }

  lemma TickCalm(s: Sched)
    requires Shape(s)
    ensures forall i :: 0 <= i < SLOTS ==> Calmer(s.ts[i], TickStep(s).ts[i])
    ensures TickStep(s).words == s.words
  {
    hide PickFrom, Pick, SwitchTo, BlockRound, ExitRound, Calmer;
    var now := (s.ticks + 1) * NS_PER_TICK;
    var t := s.(ticks := s.ticks + 1, ts := Expired(s.ts, now));
    ExpiredCalm(s.ts, now);
    ExpiredCalm(t.ts, now);
    match s.mode {
      case User => if Pick(t.ts, t.cur).Some? { SwitchCalm(t, Pick(t.ts, t.cur).value); }
      case Waiting => BlockCalm(t);
      case Exiting => ExitRoundCalm(t);
    }
    CalmTwice(s.ts, t.ts, TickStep(s).ts);
  }

  lemma ExpiredCalm(ts: seq<Thread>, now: nat)
    ensures forall i :: 0 <= i < |ts| ==> Calmer(ts[i], Expired(ts, now)[i]) && Calmer(ts[i], ts[i])
  {
  }

  /** With one joiner on it, the exit's one wake leaves nobody waiting on the word. */
  lemma WakeOne(ts: seq<Thread>, w: nat)
    requires OneWaiter(ts, w) && w != 0
    ensures NoWaiter(Woken(ts, w, 1), w)
  {
    forall i: nat | i < |ts| ensures !Waits(Woken(ts, w, 1)[i], w) {
      if Waits(ts[i], w) {
        WaitersNone(ts[..i], w);
      }
    }
  }

  lemma ExitJoin(s: Sched, words: set<nat>)
    requires Good(s) && s.mode == User && JoinOk(s, words)
    ensures JoinOk(ExitStep(s), words)
  {
    hide Ids, ExitRound;
    var a := s.ts[s.cur].clearTid;
    var c := if UserAddr(a) then s.(words := s.words[a := 0], ts := Woken(s.ts, a, 1)) else s;
    var z := c.(ts := c.ts[c.cur := c.ts[c.cur].(state := Zombie)]);
    if UserAddr(a) {
      assert Live(s.ts[s.cur]) && a in words;
      WakeOne(s.ts, a);
    }
    EndedJoin(s, z, words);
    ExitRoundCalm(z);
    CalmJoin(z, ExitRound(z), words);
  }

  /** The current thread has ended: its word is clear and free of waiters, everything else is calmer than before. */
  lemma EndedJoin(s: Sched, z: Sched, words: set<nat>)
    requires Shape(s) && Shape(z) && JoinOk(s, words) && Live(s.ts[s.cur]) && !Live(z.ts[s.cur])
    requires z.ts[s.cur].state == Zombie
    requires forall i :: 0 <= i < SLOTS && i != s.cur ==> Calmer(s.ts[i], z.ts[i])
    requires var a := s.ts[s.cur].clearTid;
             && (UserAddr(a) ==> Word(z.words, a) == 0 && NoWaiter(z.ts, a))
             && (forall w: nat :: w != a || !UserAddr(a) ==> Word(z.words, w) == Word(s.words, w))
    ensures JoinOk(z, words)
  {
    var a := s.ts[s.cur].clearTid;
    forall w | w in words ensures OneWaiter(z.ts, w) && Settled0(z, w) {
      assert OneWaiter(s.ts, w);
      if NoOwner(z.ts, w) && w != a {
        forall i: nat | i < SLOTS ensures !Owner(s.ts[i], w) {
          if i != s.cur {
            assert Calmer(s.ts[i], z.ts[i]) && !Owner(z.ts[i], w);
          }
        }
      }
    }
  }

  lemma WaitJoin(s: Sched, words: set<nat>, a: nat, val: nat, bitset: bool, timeout: Option<Timespec>)
    requires Good(s) && s.mode == User && JoinOk(s, words) && UserAddr(a) && Word(s.words, a) == val
    requires a in words ==> val != 0 && NoWaiter(s.ts, a)
    ensures JoinOk(BlockRound(s.(ts := s.ts[s.cur := Queued(s.ts[s.cur], a, bitset, timeout)])), words)
  {
    hide Ids, BlockRound;
    var q := s.(ts := s.ts[s.cur := Queued(s.ts[s.cur], a, bitset, timeout)]);
    forall w | w in words ensures OneWaiter(q.ts, w) && Settled0(q, w) {
      assert OneWaiter(s.ts, w) && Settled0(s, w);
      if NoOwner(q.ts, w) {
        forall i: nat | i < SLOTS ensures !Owner(s.ts[i], w) {
          assert !Owner(q.ts[i], w);
        }
        assert w != a;
      }
    }
    BlockCalm(q);
    CalmJoin(q, BlockRound(q), words);
  }

  lemma CloneJoin(s: Sched, words: set<nat>, c: CloneArgs)
    requires Good(s) && s.mode == User && JoinOk(s, words) && Disciplined(s, words, Clone(c))
    ensures JoinOk(CloneStep(s, c), WordsAfter(s, words, Clone(c)))
  {
    hide Ids, AllocFrom;
    var r, words' := CloneStep(s, c), WordsAfter(s, words, Clone(c));
    if UserAddr(c.ptr) && AllocFrom(s.ts, s.cur, 1).Some? {
      var i := AllocFrom(s.ts, s.cur, 1).value;
      CloneSlot(s, c);
      forall w | w in words' ensures UserAddr(w) && OneWaiter(r.ts, w) && Settled0(r, w) {
        BornJoin(s, words, c, i, w);
      }
      BornOwners(s, words, c, i);
    } else {
      assert r == Answered(s, EAGAIN);
      CalmJoin(s, r, words);
    }
  }

  lemma CloneSlot(s: Sched, c: CloneArgs)
    requires Good(s) && s.mode == User && UserAddr(c.ptr) && AllocFrom(s.ts, s.cur, 1).Some?
    ensures var i := AllocFrom(s.ts, s.cur, 1).value;
            1 <= i < SLOTS && i != s.cur && !Live(s.ts[i])
    ensures CloneStep(s, c).ts == s.ts[AllocFrom(s.ts, s.cur, 1).value := Born(s.nextTid, c)]
                                      [s.cur := s.ts[s.cur].(rax := s.nextTid)]
    ensures CloneStep(s, c).words == Announced(s.words, c, s.nextTid)
  {
  }

  ghost predicate Bearing(s: Sched, words: set<nat>, c: CloneArgs, i: nat) {
    && Good(s) && s.mode == User && JoinOk(s, words) && Disciplined(s, words, Clone(c))
    && i < SLOTS && i != s.cur && !Live(s.ts[i])
  }

  function BornIn(s: Sched, c: CloneArgs, i: nat): seq<Thread>
    requires Shape(s) && i < SLOTS
  {
    s.ts[i := Born(s.nextTid, c)][s.cur := s.ts[s.cur].(rax := s.nextTid)]
  }

  lemma BornJoin(s: Sched, words: set<nat>, c: CloneArgs, i: nat, w: nat)
    requires Bearing(s, words, c, i) && (w in words || (UserAddr(c.childTid) && w == c.childTid))
    ensures UserAddr(w) && OneWaiter(BornIn(s, c, i), w)
    ensures NoOwner(BornIn(s, c, i), w) ==>
              Word(Announced(s.words, c, s.nextTid), w) == 0 && NoWaiter(BornIn(s, c, i), w)
  {
    hide Ids;
    var ts := BornIn(s, c, i);
    if w in words {
      assert OneWaiter(s.ts, w) && Settled0(s, w);
    }
    if NoOwner(ts, w) {
      assert !Owner(ts[i], w);
      forall j: nat | j < SLOTS ensures !Owner(s.ts[j], w) {
        assert !Owner(ts[j], w);
      }
    }
  }

  lemma BornOwners(s: Sched, words: set<nat>, c: CloneArgs, i: nat)
    requires Bearing(s, words, c, i)
    ensures var ts := BornIn(s, c, i);
            && (forall j :: 0 <= j < SLOTS && Live(ts[j]) && UserAddr(ts[j].clearTid) ==>
                  ts[j].clearTid in words || ts[j].clearTid == c.childTid)
            && (forall j, l :: 0 <= j < l < SLOTS && Live(ts[j]) && UserAddr(ts[j].clearTid) ==>
                !Owner(ts[l], ts[j].clearTid))
  {
    hide Ids;
  }

  lemma StepJoin(s: Sched, words: set<nat>, act: Act, base: nat)
    requires Good(s) && JoinOk(s, words) && Enabled(s, act) && Disciplined(s, words, act)
    ensures JoinOk(Step(s, act, base), WordsAfter(s, words, act))
  {
    hide Ids, TickStep, CloneStep, ExitStep, BlockRound, JoinOk, AllocFrom;
    match act {
      case Tick => TickCalm(s); CalmJoin(s, TickStep(s), words);
      case Store(_, _) => StoreJoin(s, words, act, base);
      case Clone(c) => CloneJoin(s, words, c);
      case Exit => ExitJoin(s, words);
      case Futex(a, cmd, val, realtime, timeout) =>
        if (cmd == FUTEX_WAIT || cmd == FUTEX_WAIT_BITSET) && UserAddr(a) && Word(s.words, a) == val % 0x1_0000_0000 {
          WaitJoin(s, words, a, val % 0x1_0000_0000, cmd == FUTEX_WAIT_BITSET, Frame(cmd, realtime, timeout, base));
        } else {
          CalmJoin(s, Step(s, act, base), words);
        }
    }
  }

  lemma StoreJoin(s: Sched, words: set<nat>, act: Act, base: nat)
    requires Good(s) && JoinOk(s, words) && act.Store? && Enabled(s, act) && Disciplined(s, words, act)
    ensures JoinOk(Step(s, act, base), words)
  {
    forall w | w in words ensures Settled0(Step(s, act, base), w) {
      assert Settled0(s, w);
    }
  }

  predicate DisciplinedRun(s: Sched, words: set<nat>, acts: seq<Act>, base: nat)
    requires Shape(s)
    decreases |acts|
  {
    acts != [] ==>
      && Enabled(s, acts[0]) && Disciplined(s, words, acts[0])
      && DisciplinedRun(Step(s, acts[0], base), WordsAfter(s, words, acts[0]), acts[1..], base)
  }

  function WordsEnd(s: Sched, words: set<nat>, acts: seq<Act>, base: nat): set<nat>
    requires Shape(s) && DisciplinedRun(s, words, acts, base)
    decreases |acts|
  {
    if acts == [] then words
    else WordsEnd(Step(s, acts[0], base), WordsAfter(s, words, acts[0]), acts[1..], base)
  }

  lemma {:induction false} RunJoin(s: Sched, words: set<nat>, acts: seq<Act>, base: nat)
    requires Good(s) && JoinOk(s, words) && DisciplinedRun(s, words, acts, base)
    ensures Runs(s, acts, base)
    ensures JoinOk(After(s, acts, base), WordsEnd(s, words, acts, base))
    decreases |acts|
  {
    hide Good, Step, JoinOk, WordsAfter;
    if acts != [] {
      GoodShape(s);
      StepGood(s, acts[0], base);
      StepJoin(s, words, acts[0], base);
      RunJoin(Step(s, acts[0], base), WordsAfter(s, words, acts[0]), acts[1..], base);
    }
  }

  /** No thread is ever left waiting on the word of a thread that has ended, whether or not its slot has been used
      again: from the start of the scheduler, after any disciplined run, whoever waits on a word given to some thread
      waits for one that still lives. */
  lemma JoinSafe(words: map<nat, nat>, ticks: nat, acts: seq<Act>, base: nat, i: nat, w: nat)
    requires DisciplinedRun(Initial(words, ticks), {}, acts, base) && i < SLOTS
    ensures Runs(Initial(words, ticks), acts, base)
    ensures var s := After(Initial(words, ticks), acts, base);
            w in WordsEnd(Initial(words, ticks), {}, acts, base) && Waits(s.ts[i], w) ==>
              exists j :: 0 <= j < SLOTS && Owner(s.ts[j], w)
  {
    InitialGood(words, ticks);
    RunJoin(Initial(words, ticks), {}, acts, base);
    var s := After(Initial(words, ticks), acts, base);
    if w in WordsEnd(Initial(words, ticks), {}, acts, base) && Waits(s.ts[i], w) {
      assert Settled0(s, w);
    }
  }

  // ---- why one joiner --------------------------------------------------------------------------------------

  lemma {:induction false} WaitersSame(ts: seq<Thread>, ts': seq<Thread>, a: nat)
    requires |ts| == |ts'| && forall i :: 0 <= i < |ts| ==> (Waits(ts[i], a) <==> Waits(ts'[i], a))
    ensures Waiters(ts, a) == Waiters(ts', a)
  {
    if ts != [] {
      var n := |ts| - 1;
      WaitersSame(ts[..n], ts'[..n], a);
    }
  }

  /** An exit wakes one waiter on its word, so it leaves none exactly when there was at most one. */
  lemma ExitLeaves(s: Sched)
    requires Good(s) && s.mode == User && UserAddr(s.ts[s.cur].clearTid)
    ensures var w := s.ts[s.cur].clearTid;
            Waiters(ExitStep(s).ts, w) == if Waiters(s.ts, w) == 0 then 0 else Waiters(s.ts, w) - 1
  {
    hide Ids, Pick, PickFrom;
    var w := s.ts[s.cur].clearTid;
    WakeCounts(s.ts, w, 1);
    WaitersSame(Woken(s.ts, w, 1), ExitStep(s).ts, w);
  }
}
