/** The scheduler as the body has it: a table of threads edited in place, one current thread, and the user's words. */
module Scheduling {
  import opened SchedSteps
  import opened SchedLaws
  import opened SchedRuns
  import opened Wrappers

  class Scheduler {
    const threads: array<Thread>
    var cur: nat
    var nextTid: nat
    var words: map<nat, nat>
    var ticks: nat
    var mode: Mode

    ghost predicate Shaped()
      reads this
    {
      threads.Length == SLOTS && cur < SLOTS
    }

    ghost function State(): (s: Sched)
      requires Shaped()
      reads this, threads
      ensures Shape(s) && s.ts == threads[..]
    {
      Sched(threads[..], cur, nextTid, words, ticks, mode)
    }

    ghost predicate Valid()
      reads this, threads
    {
      Shaped() && Good(State())
    }

    /** sched_init. */
    constructor (memory: map<nat, nat>, since: nat)
      ensures Valid() && State() == Initial(memory, since) && fresh(threads)
    {
      threads := new Thread[SLOTS](_ => NOBODY);
      cur, nextTid, words, ticks, mode := 0, 1, memory, since, User;
      new;
      threads[0] := threads[0].(state := Running, tid := nextTid);
      nextTid := nextTid + 1;
      assert threads[..] == Initial(memory, since).ts;
      InitialGood(memory, since);
    }

    method PickNext() returns (next: Option<nat>)
      requires Shaped()
      ensures next == Pick(threads[..], cur)
    {
      var k := 1;
      while k <= SLOTS
        invariant 1 <= k <= SLOTS + 1
        invariant Pick(threads[..], cur) == PickFrom(threads[..], cur, k)
      {
        if threads[(cur + k) % SLOTS].state == Runnable { return Some((cur + k) % SLOTS); }
        k := k + 1;
      }
      return None;
    }

    method ExpireDeadlines()
      requires Shaped()
      modifies threads
      ensures threads[..] == Expired(old(threads[..]), ticks * NS_PER_TICK)
    {
      var now := ticks * NS_PER_TICK;
      var i := 0;
      while i < SLOTS
        invariant 0 <= i <= SLOTS
        invariant forall j :: 0 <= j < i ==> threads[j] == Expired(old(threads[..]), now)[j]
        invariant forall j :: i <= j < SLOTS ==> threads[j] == old(threads[j])
      {
        var t := threads[i];
        if t.state == Blocked && t.hasDeadline && now >= t.deadline {
          threads[i] := t.(wakeResult := ETIMEDOUT, waitAddr := 0, hasDeadline := false, state := Runnable);
        }
        i := i + 1;
      }
      assert threads[..] == Expired(old(threads[..]), now);
    }

    /** Wakes up to nr waiters on a word, in slot order. */
    method FutexWake(a: nat, nr: nat) returns (woken: nat)
      requires Shaped()
      modifies threads
      ensures threads[..] == Woken(old(threads[..]), a, nr)
      ensures woken == if Waiters(old(threads[..]), a) < nr then Waiters(old(threads[..]), a) else nr
    {
      ghost var was := threads[..];
      woken := 0;
      var i := 0;
      while i < SLOTS && woken < nr
        invariant 0 <= i <= SLOTS && woken <= nr && woken == Waiters(was[..i], a)
        invariant forall j :: 0 <= j < i ==> threads[j] == Woken(was, a, nr)[j]
        invariant forall j :: i <= j < SLOTS ==> threads[j] == was[j]
      {
        assert was[..i + 1][..i] == was[..i];
        var t := threads[i];
        if t.state == Blocked && t.waitAddr == a {
          threads[i] := t.(wakeResult := 0, waitAddr := 0, hasDeadline := false, state := Runnable);
          woken := woken + 1;
        }
        i := i + 1;
      }
      assert was[..SLOTS] == was;
      if i < SLOTS { RestSleep(was, a, nr, i); }
      assert threads[..] == Woken(was, a, nr);
    }

    method Switch(next: nat)
      requires Shaped() && next < SLOTS
      modifies this, threads
      ensures Shaped() && State() == SwitchTo(old(State()), next)
    {
      if next == cur { return; }
      if threads[cur].state == Running {
        threads[cur] := threads[cur].(state := Runnable);
      }
      cur := next;
      mode := User;
      Resume();
    }

    /** The current thread goes on from where it was: into ring 3 for the first time, out of its wait, or out of the
        timer. */
    method Resume()
      requires Shaped()
      modifies threads
      ensures threads[..] == old(threads[..])[cur := Resumed(old(threads[cur]))]
    {
      var t := threads[cur].(state := Running, firstRun := false);
      if t.inWait {
        t := t.(waitAddr := 0, inWait := false, rax := t.wakeResult);
      }
      threads[cur] := t;
    }

    /** The block loop, up to where it idles. */
    method Block()
      requires Shaped()
      modifies this, threads
      ensures Shaped() && State() == BlockRound(old(State()))
    {
      ExpireDeadlines();
      if threads[cur].state == Runnable {
        Resume();
        mode := User;
        return;
      }
      var next := PickNext();
      match next {
        case Some(n) => Switch(n);
        case None => mode := Waiting;
      }
    }

    /** The exit loop, up to where it idles. */
    method LeaveForever()
      requires Shaped()
      modifies this, threads
      ensures Shaped() && State() == ExitRound(old(State()))
    {
      var next := PickNext();
      match next {
        case Some(n) => Switch(n);
        case None => mode := Exiting;
      }
    }

    method TimerTick()
      requires Valid()
      modifies this, threads
      ensures Valid() && State() == TickStep(old(State()))
    {
      hide Settled, Turn, BlockRound, ExitRound, SwitchTo, Pick, PickFrom;
      StepGood(State(), Tick, 0);
      ticks := ticks + 1;
      ExpireDeadlines();
      match mode {
        case User =>
          var next := PickNext();
          match next {
            case Some(n) => Switch(n);
            case None =>
          }
        case Waiting => Block();
        case Exiting => LeaveForever();
      }
    }

    method Answer(rax: int)
      requires Shaped()
      modifies threads
      ensures State() == Answered(old(State()), rax)
    {
      threads[cur] := threads[cur].(rax := rax);
    }

    method Alloc() returns (slot: Option<nat>)
      requires Shaped()
      ensures slot == AllocFrom(threads[..], cur, 1)
    {
      var i := 1;
      while i < SLOTS
        invariant 1 <= i <= SLOTS
        invariant AllocFrom(threads[..], cur, 1) == AllocFrom(threads[..], cur, i)
      {
        if threads[i].state == Free { return Some(i); }
        if threads[i].state == Zombie && i != cur { return Some(i); }
        i := i + 1;
      }
      return None;
    }

    method Clone3(a: CloneArgs)
      requires Valid() && mode == User
      modifies this, threads
      ensures Valid() && State() == CloneStep(old(State()), a)
    {
      hide Settled, Turn, AllocFrom;
      StepGood(State(), Clone(a), 0);
      if !UserAddr(a.ptr) { Answer(EAGAIN); return; }
      var slot := Alloc();
      match slot {
        case None => Answer(EAGAIN);
        case Some(i) =>
          var tid := nextTid;
          nextTid := nextTid + 1;
          threads[i] := Thread(Runnable, tid, a.childTid, 0, false, 0, 0, true, false, 0,
                               Entry(a.rip, ChildRsp(a), a.func, a.arg, a.tls));
          if UserAddr(a.parentTid) { words := words[a.parentTid := tid]; }
          if UserAddr(a.childTid) && a.childTid != a.parentTid { words := words[a.childTid := tid]; }
          Answer(tid);
      }
    }

    method ThreadExit()
      requires Valid() && mode == User
      modifies this, threads
      ensures Valid() && State() == ExitStep(old(State()))
    {
      hide Settled, Turn, ExitRound;
      StepGood(State(), Exit, 0);
      var a := threads[cur].clearTid;
      if UserAddr(a) {
        words := words[a := 0];
        var _ := FutexWake(a, 1);
      }
      threads[cur] := threads[cur].(state := Zombie);
      LeaveForever();
    }

    method Futex(a: nat, cmd: nat, val: nat, timeout: Option<Timespec>)
      requires Valid() && mode == User
      modifies this, threads
      ensures Valid() && State() == FutexStep(old(State()), a, cmd, val, timeout)
    {
      hide Settled, Turn, BlockRound;
      StepGood(State(), SchedSteps.Futex(a, cmd, val, false, timeout), 0);
      if cmd == FUTEX_WAKE {
        var woken := FutexWake(a, val);
        Answer(woken);
      } else if cmd == FUTEX_WAIT || cmd == FUTEX_WAIT_BITSET {
        if !UserAddr(a) { Answer(EAGAIN); return; }
        if Word(words, a) != val % 0x1_0000_0000 { Answer(EAGAIN); return; }
        threads[cur] := threads[cur].(waitAddr := a, hasDeadline := false, wakeResult := 0);
        if cmd == FUTEX_WAIT_BITSET && timeout.Some? {
          threads[cur] := threads[cur].(deadline := timeout.value.sec * 1000000000 + timeout.value.nsec,
              hasDeadline := true);
        }
        threads[cur] := threads[cur].(state := Blocked, inWait := true);
        assert threads[..] == old(threads[..])[cur := Queued(old(threads[cur]), a, cmd == FUTEX_WAIT_BITSET, timeout)];
        Block();
      } else {
        Answer(0);
      }
    }

    /** The call as it comes in: a realtime deadline is first put in the scheduler's frame. */
    method FutexCall(a: nat, cmd: nat, val: nat, realtime: bool, timeout: Option<Timespec>, base: nat)
      requires Valid() && mode == User
      modifies this, threads
      ensures Valid() && State() == Step(old(State()), SchedSteps.Futex(a, cmd, val, realtime, timeout), base)
    {
      hide Settled, Turn, FutexStep;
      if realtime && cmd == FUTEX_WAIT_BITSET && timeout.Some? {
        var dl := timeout.value.sec * 1000000000 + timeout.value.nsec;
        var mdl := if dl > base then dl - base else 0;
        Futex(a, cmd, val, Some(Timespec(mdl / 1000000000, mdl % 1000000000)));
      } else {
        Futex(a, cmd, val, timeout);
      }
    }

    method UserStore(a: nat, v: nat)
      requires Valid() && mode == User
      modifies this
      ensures Valid() && State() == Step(old(State()), Store(a, v), 0)
    {
      hide Settled;
      words := words[a := v % 0x1_0000_0000];
    }

    /** Any run of the timer and of the threads' calls. */
    method RunAll(acts: seq<Act>, base: nat)
      requires Valid() && Runs(State(), acts, base)
      modifies this, threads
      ensures Valid() && State() == After(old(State()), acts, base)
    {
      hide Good, TickStep, CloneStep, ExitStep, FutexStep;
      ghost var s0 := State();
      var i := 0;
      while i < |acts|
        invariant 0 <= i <= |acts| && Valid() && Runs(State(), acts[i..], base)
        invariant After(s0, acts, base) == After(State(), acts[i..], base)
      {
        assert acts[i..][1..] == acts[i + 1..];
        match acts[i] {
          case Tick => TimerTick();
          case Store(a, v) => UserStore(a, v);
          case Clone(args) => Clone3(args);
          case Exit => ThreadExit();
          case Futex(a, cmd, val, realtime, timeout) => FutexCall(a, cmd, val, realtime, timeout, base);
        }
        i := i + 1;
      }
    }
  }

  /** Once nr waiters have been counted, no later one is woken. */
  lemma RestSleep(ts: seq<Thread>, a: nat, nr: nat, i: nat)
    requires i <= |ts| && Waiters(ts[..i], a) >= nr
    ensures forall j :: i <= j < |ts| ==> Woken(ts, a, nr)[j] == ts[j]
    ensures Waiters(ts, a) >= nr
  {
    forall j: nat | i <= j < |ts| ensures Waiters(ts[..j], a) >= nr {
      WaitersGrow(ts, a, i, j);
    }
    WaitersGrow(ts, a, i, |ts|);
    assert ts[..|ts|] == ts;
  }
}
