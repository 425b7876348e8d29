/** The scheduler as values: threads in 32 slots, one processor, a futex queue spread over the slots. */
module SchedSteps {
  import opened Wrappers

  const SLOTS: nat := 32
  const NS_PER_TICK: nat := 1000000
  const USER_LIMIT: nat := 0x8000_0000_0000
  const EAGAIN: int := -11
  const ETIMEDOUT: int := -110
  const FUTEX_WAIT: nat := 0
  const FUTEX_WAKE: nat := 1
  const FUTEX_WAIT_BITSET: nat := 9

  datatype ThreadState = Free | Runnable | Running | Blocked | Zombie

  /** Where a new thread enters ring 3. */
  datatype Entry = Entry(rip: nat, rsp: nat, func: nat, arg: nat, fs: nat)

  /** inWait: the saved kernel continuation is inside a futex wait.  rax: the last answer given to the thread. */
  datatype Thread = Thread(state: ThreadState, tid: nat, clearTid: nat, waitAddr: nat, hasDeadline: bool, deadline: nat,
                           wakeResult: int, firstRun: bool, inWait: bool, rax: int, entry: Entry)

  const NOBODY := Thread(Free, 0, 0, 0, false, 0, 0, false, false, 0, Entry(0, 0, 0, 0, 0))

  /** User: the current thread runs in ring 3.  Waiting, Exiting: the processor idles inside its block or its exit. */
  datatype Mode = User | Waiting | Exiting

  datatype Sched = Sched(ts: seq<Thread>, cur: nat, nextTid: nat, words: map<nat, nat>, ticks: nat, mode: Mode)

  function Now(s: Sched): nat { s.ticks * NS_PER_TICK }

  function Word(words: map<nat, nat>, a: nat): nat { if a in words then words[a] else 0 }

  predicate UserAddr(a: nat) { 0 < a < USER_LIMIT }

  // ---- the queue ---------------------------------------------------------------------------------------------

  predicate Waits(t: Thread, a: nat) { t.state == Blocked && t.waitAddr == a }

  function Waiters(ts: seq<Thread>, a: nat): (n: nat)
    ensures n <= |ts|
  {
    if ts == [] then 0 else Waiters(ts[..|ts| - 1], a) + if Waits(ts[|ts| - 1], a) then 1 else 0
  }

  function Released(t: Thread, result: int): Thread {
    t.(wakeResult := result, waitAddr := 0, hasDeadline := false, state := Runnable)
  }

  predicate Due(t: Thread, now: nat) { t.state == Blocked && t.hasDeadline && now >= t.deadline }

  function Expired(ts: seq<Thread>, now: nat): (r: seq<Thread>)
    ensures |r| == |ts|
    ensures forall i :: 0 <= i < |ts| ==> r[i] == if Due(ts[i], now) then Released(ts[i], ETIMEDOUT) else ts[i]
  {
    seq(|ts|, i requires 0 <= i < |ts| => if Due(ts[i], now) then Released(ts[i], ETIMEDOUT) else ts[i])
  }

  /** The first nr waiters on a word, in slot order, released. */
  function Woken(ts: seq<Thread>, a: nat, nr: nat): (r: seq<Thread>)
    ensures |r| == |ts|
    ensures forall i :: 0 <= i < |ts| ==>
              r[i] == if Waits(ts[i], a) && Waiters(ts[..i], a) < nr then Released(ts[i], 0) else ts[i]
  {
    seq(|ts|, i requires 0 <= i < |ts| =>
      if Waits(ts[i], a) && Waiters(ts[..i], a) < nr then Released(ts[i], 0) else ts[i])
  }

  // ---- the turn ----------------------------------------------------------------------------------------------

  /** The slot at circular distance k after the current one. */
  function Slot(cur: nat, k: nat): (i: nat)
    ensures i < SLOTS
  {
    (cur + k) % SLOTS
  }

  /** The first runnable slot at circular distance k or more after the current one. */
  function PickFrom(ts: seq<Thread>, cur: nat, k: nat): (r: Option<nat>)
    requires |ts| == SLOTS && k <= SLOTS + 1
    ensures r.Some? ==> r.value < SLOTS && ts[r.value].state == Runnable
    decreases SLOTS + 1 - k
  {
    if k > SLOTS then None
    else if ts[Slot(cur, k)].state == Runnable then Some(Slot(cur, k))
    else PickFrom(ts, cur, k + 1)
  }

  function Pick(ts: seq<Thread>, cur: nat): (r: Option<nat>)
    requires |ts| == SLOTS
    ensures r.Some? ==> r.value < SLOTS && ts[r.value].state == Runnable
  {
    PickFrom(ts, cur, 1)
  }

  /** A thread takes its turn: its first in ring 3, or the end of its wait, or where the timer stopped it. */
  function Resumed(t: Thread): Thread {
    t.(state := Running, firstRun := false, inWait := false,
       waitAddr := if t.inWait then 0 else t.waitAddr, rax := if t.inWait then t.wakeResult else t.rax)
  }

  function Parked(t: Thread): Thread { if t.state == Running then t.(state := Runnable) else t }

  predicate Shape(s: Sched) { |s.ts| == SLOTS && s.cur < SLOTS }

  function SwitchTo(s: Sched, next: nat): (r: Sched)
    requires Shape(s) && next < SLOTS
    ensures Shape(r)
  {
    if next == s.cur then s
    else
      var parked := s.ts[s.cur := Parked(s.ts[s.cur])];
      s.(ts := parked[next := Resumed(parked[next])], cur := next, mode := User)
  }

  /** One round of the block loop. */
  function BlockRound(s: Sched): (r: Sched)
    requires Shape(s)
    ensures Shape(r)
  {
    var e := s.(ts := Expired(s.ts, Now(s)));
    if e.ts[s.cur].state == Runnable then e.(ts := e.ts[s.cur := Resumed(e.ts[s.cur])], mode := User)
    else match Pick(e.ts, s.cur)
         case Some(next) => SwitchTo(e, next)
         case None => e.(mode := Waiting)
  }

  /** One round of the exit loop. */
  function ExitRound(s: Sched): (r: Sched)
    requires Shape(s)
    ensures Shape(r)
  {
    match Pick(s.ts, s.cur)
    case Some(next) => SwitchTo(s, next)
    case None => s.(mode := Exiting)
  }

  /** The timer: deadlines expire; ring 3 gives up its turn if anyone else can have it; an idle loop goes round. */
  function TickStep(s: Sched): (r: Sched)
    requires Shape(s)
    ensures Shape(r)
  {
    var t := s.(ticks := s.ticks + 1, ts := Expired(s.ts, (s.ticks + 1) * NS_PER_TICK));
    match s.mode
    case User => (match Pick(t.ts, t.cur) case Some(next) => SwitchTo(t, next) case None => t)
    case Waiting => BlockRound(t)
    case Exiting => ExitRound(t)
  }

  // ---- what a thread asks for --------------------------------------------------------------------------------

  function Answered(s: Sched, rax: int): (r: Sched)
    requires Shape(s)
    ensures Shape(r)
  {
    s.(ts := s.ts[s.cur := s.ts[s.cur].(rax := rax)])
  }

  datatype CloneArgs = CloneArgs(ptr: nat, childTid: nat, parentTid: nat, stack: nat, stackSize: nat, tls: nat,
                                 rip: nat, func: nat, arg: nat)

  /** One more than the largest 64-bit word. */
  const WORD_RANGE: nat := 0x1_0000_0000_0000_0000

  /** The child's first stack pointer, in 64 bits; without a size it is found below the thread's own block. */
  function ChildRsp(a: CloneArgs): nat {
    if a.stackSize == 0 && a.stack < a.tls < (a.stack + 0x4000_0000) % WORD_RANGE
    then (a.tls + WORD_RANGE - 0x2000) % WORD_RANGE / 16 * 16
    else (a.stack + a.stackSize) % WORD_RANGE
  }

  /** A slot to be born in: never slot 0, never the current one, never one whose thread has not ended. */
  predicate Usable(ts: seq<Thread>, cur: nat, i: nat)
    requires i < |ts|
  {
    ts[i].state == Free || (ts[i].state == Zombie && i != cur)
  }

  function AllocFrom(ts: seq<Thread>, cur: nat, i: nat): (r: Option<nat>)
    requires |ts| == SLOTS && 1 <= i <= SLOTS
    ensures r.Some? ==> i <= r.value < SLOTS && Usable(ts, cur, r.value)
    ensures r.Some? ==> forall j :: i <= j < r.value ==> !Usable(ts, cur, j)
    ensures r == None ==> forall j :: i <= j < SLOTS ==> !Usable(ts, cur, j)
    decreases SLOTS - i
  {
    if i == SLOTS then None else if Usable(ts, cur, i) then Some(i) else AllocFrom(ts, cur, i + 1)
  }

  function Born(tid: nat, a: CloneArgs): Thread {
    Thread(Runnable, tid, a.childTid, 0, false, 0, 0, true, false, 0, Entry(a.rip, ChildRsp(a), a.func, a.arg, a.tls))
  }

  /** The ids stored for the parent and for the child. */
  function Announced(words: map<nat, nat>, a: CloneArgs, tid: nat): map<nat, nat> {
    var w := if UserAddr(a.parentTid) then words[a.parentTid := tid] else words;
    if UserAddr(a.childTid) && a.childTid != a.parentTid then w[a.childTid := tid] else w
  }

  function CloneStep(s: Sched, a: CloneArgs): (r: Sched)
    requires Shape(s)
    ensures Shape(r)
  {
    if !UserAddr(a.ptr) then Answered(s, EAGAIN)
    else match AllocFrom(s.ts, s.cur, 1)
         case None => Answered(s, EAGAIN)
         case Some(i) =>
           Answered(s.(ts := s.ts[i := Born(s.nextTid, a)], nextTid := s.nextTid + 1,
                       words := Announced(s.words, a, s.nextTid)), s.nextTid)
  }

  /** The exit clears the thread's word, wakes one waiter on it, and never comes back. */
  function ExitStep(s: Sched): (r: Sched)
    requires Shape(s)
    ensures Shape(r)
  {
    var a := s.ts[s.cur].clearTid;
    var c := if UserAddr(a) then s.(words := s.words[a := 0], ts := Woken(s.ts, a, 1)) else s;
    ExitRound(c.(ts := c.ts[c.cur := c.ts[c.cur].(state := Zombie)]))
  }

  /** A deadline, as {seconds, nanoseconds}. */
  datatype Timespec = Timespec(sec: nat, nsec: nat)

  function Nanos(t: Timespec): nat { t.sec * 1000000000 + t.nsec }

  function Split(ns: nat): (t: Timespec)
    ensures Nanos(t) == ns && t.nsec < 1000000000
  {
    Timespec(ns / 1000000000, ns % 1000000000)
  }

  /** A realtime deadline in the scheduler's frame: the epoch base is taken off, and a past one is due at once. */
  function Converted(t: Timespec, base: nat): Timespec {
    Split(if Nanos(t) > base then Nanos(t) - base else 0)
  }

  function FutexStep(s: Sched, a: nat, cmd: nat, val: nat, timeout: Option<Timespec>): (r: Sched)
    requires Shape(s)
    ensures Shape(r)
  {
    if cmd == FUTEX_WAKE then
      var n := Waiters(s.ts, a);
      Answered(s.(ts := Woken(s.ts, a, val)), if n < val then n else val)
    else if cmd == FUTEX_WAIT || cmd == FUTEX_WAIT_BITSET then
      if !UserAddr(a) || Word(s.words, a) != val % 0x1_0000_0000 then Answered(s, EAGAIN)
      else
        var t := s.ts[s.cur].(waitAddr := a, hasDeadline := false, wakeResult := 0, state := Blocked, inWait := true);
        BlockRound(s.(ts := s.ts[s.cur :=
          if cmd == FUTEX_WAIT_BITSET && timeout.Some? then t.(deadline := Nanos(timeout.value), hasDeadline := true)
          else t]))
    else Answered(s, 0)
  }

  datatype Act =
    | Tick
    | Store(addr: nat, value: nat)
    | Clone(args: CloneArgs)
    | Exit
    | Futex(addr: nat, cmd: nat, val: nat, realtime: bool, timeout: Option<Timespec>)

  /** Only a thread in ring 3 stores or calls; the timer is always there. */
  predicate Enabled(s: Sched, act: Act) { act.Tick? || s.mode == User }

  /** One step; `base` is what turns the scheduler's clock into the calendar's. */
  function Step(s: Sched, act: Act, base: nat): (r: Sched)
    requires Shape(s) && Enabled(s, act)
    ensures Shape(r)
  {
    match act
    case Tick => TickStep(s)
    case Store(a, v) => s.(words := s.words[a := v % 0x1_0000_0000])
    case Clone(args) => CloneStep(s, args)
    case Exit => ExitStep(s)
    case Futex(a, cmd, val, realtime, timeout) => FutexStep(s, a, cmd, val, Frame(cmd, realtime, timeout, base))
  }

  /** The call's deadline as the scheduler is told it. */
  function Frame(cmd: nat, realtime: bool, timeout: Option<Timespec>, base: nat): Option<Timespec> {
    if realtime && cmd == FUTEX_WAIT_BITSET && timeout.Some? then Some(Converted(timeout.value, base)) else timeout
  }

  /** sched_init: the main thread runs in slot 0. */
  function Initial(words: map<nat, nat>, ticks: nat): (s: Sched)
    ensures Shape(s)
  {
    Sched(seq(SLOTS, i => NOBODY)[0 := NOBODY.(state := Running, tid := 1)], 0, 2, words, ticks, User)
  }
}
