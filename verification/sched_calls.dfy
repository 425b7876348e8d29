/** What each call answers and what it leaves as it was, told from the threads and the words themselves. */
module SchedCalls {
  import opened SchedLaws
  import opened SchedRuns
  import opened SchedSteps
  import opened Wrappers

  /** The slots of the threads asleep on a word. */
  function Asleep(ts: seq<Thread>, a: nat): set<nat> {
    set i: nat | i < |ts| && ts[i].state == Blocked && ts[i].waitAddr == a
  }

  /** The queue's count is theirs. */
  lemma {:induction false} CountsAsleep(ts: seq<Thread>, a: nat)
    ensures Waiters(ts, a) == |Asleep(ts, a)|
  {
    if ts == [] {
      assert Asleep(ts, a) == {};
    } else {
      var n := |ts| - 1;
      CountsAsleep(ts[..n], a);
      assert forall i: nat :: i < n ==> ts[..n][i] == ts[i];
      if Waits(ts[n], a) {
        assert Asleep(ts, a) == Asleep(ts[..n], a) + {n};
      } else {
        assert Asleep(ts, a) == Asleep(ts[..n], a);
      }
    }
  }

  /** Only the caller has its answer; everything else is as it was. */
  predicate OnlyAnswer(s: Sched, r: Sched, answer: int)
    requires Shape(s)
  {
    && Shape(r) && r.cur == s.cur && r.mode == s.mode && r.nextTid == s.nextTid && r.ticks == s.ticks
    && r.words == s.words && r.ts[s.cur] == s.ts[s.cur].(rax := answer)
    && forall i :: 0 <= i < SLOTS && i != s.cur ==> r.ts[i] == s.ts[i]
  }

  /** A wait on no user address, or on a word that is not what the caller takes it for, is told -EAGAIN at once; a
      command that is neither a wait nor a wake is told 0.  Nothing sleeps, and nothing else changes. */
  lemma NoWait(s: Sched, a: nat, cmd: nat, val: nat, realtime: bool, timeout: Option<Timespec>, base: nat)
    requires Good(s) && s.mode == User && cmd != 1
    ensures var r := Step(s, Futex(a, cmd, val, realtime, timeout), base);
            var now := if a in s.words then s.words[a] else 0;
            && (cmd != 0 && cmd != 9 ==> OnlyAnswer(s, r, 0))
            && ((cmd == 0 || cmd == 9) && (a == 0 || a >= 0x8000_0000_0000 || now != val % 0x1_0000_0000) ==>
                  OnlyAnswer(s, r, -11))
  {
    hide BlockRound, Settled, Turn;
  }

  /** A wake answers how many it has woken, the smaller of what it was asked and of those asleep on the word; no word
      and no turn changes. */
  lemma WakeAnswers(s: Sched, a: nat, val: nat, realtime: bool, timeout: Option<Timespec>, base: nat)
    requires Good(s) && s.mode == User && a != 0
    ensures var r := Step(s, Futex(a, 1, val, realtime, timeout), base);
            var n := |Asleep(s.ts, a)|;
            && r.ts[s.cur] == s.ts[s.cur].(rax := if n < val then n else val)
            && |Asleep(r.ts, a)| == n - (if n < val then n else val)
            && r.words == s.words && r.cur == s.cur && r.mode == s.mode && r.nextTid == s.nextTid
  {
    hide BlockRound, Settled, Turn, Good;
    CurrentRuns(s);
    GoodShape(s);
    var woken := Woken(s.ts, a, val);
    var r := Step(s, Futex(a, 1, val, realtime, timeout), base);
    CountsAsleep(s.ts, a);
    CountsAsleep(woken, a);
    WakeCounts(s.ts, a, val);
    assert Asleep(r.ts, a) == Asleep(woken, a);
  }

  /** An exit ends the current thread, clears its own word if that is a user address, and writes no other; */
  lemma ExitClears(s: Sched)
    requires Good(s) && s.mode == User
    ensures var r := ExitStep(s);
            var w := s.ts[s.cur].clearTid;
            && r.ts[s.cur].state == Zombie && r.ts[s.cur].tid == s.ts[s.cur].tid && r.nextTid == s.nextTid
            && (0 < w < 0x8000_0000_0000 ==> Word(r.words, w) == 0)
            && forall a: nat :: a != w || a == 0 || a >= 0x8000_0000_0000 ==> Word(r.words, a) == Word(s.words, a)
  {
    hide PickFrom, Pick, Settled;
  }

  /** and an ended thread never runs again: it stays ended until its slot is given to a new thread with a new id. */
  lemma EndedStays(s: Sched, act: Act, base: nat, i: nat)
    requires Good(s) && Enabled(s, act) && i < SLOTS && s.ts[i].state == Zombie
    ensures Step(s, act, base).ts[i] == s.ts[i]
            || (act.Clone? && StartsAs(Step(s, act, base).ts[i], act.args) && Step(s, act, base).ts[i].tid == s.nextTid)
  {
    hide PickFrom, Pick, AllocFrom, Announced, Born, Settled, StartsAs, BlockRound, ExitRound;
    match act {
      case Tick =>
        var t := s.(ticks := s.ticks + 1, ts := Expired(s.ts, (s.ticks + 1) * NS_PER_TICK));
        if s.mode == Waiting { EndedInRound(t, i); }
        if s.mode == Exiting { EndedInExit(t, i); }
      case Store(_, _) =>
      case Clone(a) => BornStarts(s.nextTid, a);
      case Exit =>
        var w := s.ts[s.cur].clearTid;
        var c := if UserAddr(w) then s.(words := s.words[w := 0], ts := Woken(s.ts, w, 1)) else s;
        EndedInExit(c.(ts := c.ts[c.cur := c.ts[c.cur].(state := Zombie)]), i);
      case Futex(a, cmd, val, realtime, timeout) =>
        if (cmd == FUTEX_WAIT || cmd == FUTEX_WAIT_BITSET) && UserAddr(a) && Word(s.words, a) == val % 0x1_0000_0000 {
          var q := Queued(s.ts[s.cur], a, cmd == FUTEX_WAIT_BITSET, Frame(cmd, realtime, timeout, base));
          EndedInRound(s.(ts := s.ts[s.cur := q]), i);
        }
    }
  }

  lemma EndedInRound(s: Sched, i: nat)
    requires Shape(s) && i < SLOTS && s.ts[i].state == Zombie
    ensures BlockRound(s).ts[i] == s.ts[i]
  {
    hide PickFrom, Pick;
  }

  lemma EndedInExit(s: Sched, i: nat)
    requires Shape(s) && i < SLOTS && s.ts[i].state == Zombie
    ensures ExitRound(s).ts[i] == s.ts[i]
  {
    hide PickFrom, Pick;
  }

  // ---- whose turn is next --------------------------------------------------------------------------------------

  lemma {:induction false} PickFromFirst(ts: seq<Thread>, cur: nat, k: nat)
    requires |ts| == SLOTS && 1 <= k <= SLOTS + 1
    ensures match PickFrom(ts, cur, k)
            case Some(i) =>
              exists d: nat :: k <= d <= SLOTS && Slot(cur, d) == i && forall j :: k <= j < d ==>
                ts[Slot(cur, j)].state != Runnable
            case None => forall j :: k <= j <= SLOTS ==> ts[Slot(cur, j)].state != Runnable
    decreases SLOTS + 1 - k
  {
    hide Slot;
    if k <= SLOTS {
      if ts[Slot(cur, k)].state == Runnable {
        assert PickFrom(ts, cur, k) == Some(Slot(cur, k));
      } else {
        PickFromFirst(ts, cur, k + 1);
      }
    }
  }

  /** The turn goes to the first runnable slot after the current one, starting over after the last. */
  lemma PickIsNext(ts: seq<Thread>, cur: nat)
    requires |ts| == SLOTS && cur < SLOTS
    ensures match Pick(ts, cur)
            case Some(i) =>
              && i < 32 && ts[i].state == Runnable
              && forall j :: 0 <= j < 32 && (if cur < i then cur < j < i else cur < j || j < i) ==>
                   ts[j].state != Runnable
            case None => forall j :: 0 <= j < 32 ==> ts[j].state != Runnable
  {
    hide PickFrom, Slot;
    PickFromFirst(ts, cur, 1);
    match Pick(ts, cur) {
      case None => PickNone(ts, cur);
      case Some(i) =>
        var d: nat :| 1 <= d <= SLOTS && Slot(cur, d) == i && forall j :: 1 <= j < d ==>
          ts[Slot(cur, j)].state != Runnable;
        forall j: nat | j < 32 && (if cur < i then cur < j < i else cur < j || j < i) ensures ts[j].state != Runnable {
          SlotBefore(cur, d, i, j);
          assert ts[Slot(cur, Distance(cur, j))].state != Runnable;
        }
    }
  }

  lemma SlotBefore(cur: nat, d: nat, i: nat, j: nat)
    requires cur < SLOTS && 1 <= d <= SLOTS && Slot(cur, d) == i && j < SLOTS
    requires if cur < i then cur < j < i else cur < j || j < i
    ensures Distance(cur, j) < d
  {
  }
}
