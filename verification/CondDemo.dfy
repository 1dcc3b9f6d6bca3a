/**
  The two phases of the synchronisation demo, statement by statement, on top of the
  futex mutex and the sequence-counter condition variable.

  A thread is a program counter plus its locals; every statement that touches shared
  memory is one step, and the futex calls are atomic because the kernel re-checks the
  word and enqueues under one spinlock.  The lock word has no owner: an unlock is a
  plain store of 0 by whoever executes it.

  Three roles share the machine.  Workers are phase 1 (a shared counter under the
  mutex); producers and consumers are phase 2 (the bounded buffer).
*/
module CondDemo {
  datatype Cond = NotEmpty | NotFull

  /** What the code does after the unlock it is executing. */
  datatype After = Sleep(c: Cond) | Again | Leave

  datatype Pc =
    | Top                                        // loop test of the thread body
    | TryFast | Spin | Arm | Parked | TrySlow    // mct_mutex_lock
    | Check                                      // the `while (predicate)` test
    | Load | Store                               // worker: counter++ as load, then store
    | Fill | AdvanceTail | CountUp               // producer
    | Test | Take | AdvanceHead | CountDown | Tally | Mark | Last  // consumer
    | Bump(c: Cond, all: bool)                   // signal/broadcast: seq++
    | Wake(c: Cond, all: bool)                   // signal/broadcast: futex_wake
    | Snapshot(c: Cond)                          // mct_cond_wait: read seq
    | Release(k: After)                          // mct_mutex_unlock: lock = 0
    | ReleaseWake(k: After)                      // mct_mutex_unlock: futex_wake(lock, 1)
    | CondArm(c: Cond) | CondParked(c: Cond)     // mct_cond_wait: futex_wait on seq
    | Finished

  datatype Role = Worker(iters: nat) | Producer(quota: nat) | Consumer

  /** `made` counts finished loop iterations, `reg` is the register a load filled. */
  datatype Thread = Thread(role: Role, pc: Pc, made: nat, snap: nat, reg: int)

  /** The memory all threads share. */
  datatype Shared = Shared(
    lock: int, seqNE: nat, seqNF: nat,
    counter: int,
    buf: seq<int>, count: int, head: int, tail: int,
    nextItem: int, consumed: int, seen: seq<bool>)

  datatype State = State(g: Shared, threads: seq<Thread>)

  datatype Config = Config(workers: seq<nat>, producers: seq<nat>, consumers: nat, size: nat)

  /** Exec runs one statement of `t`; `w` is the parked thread a single wake picks.
      Expire is the timer sweep releasing a parked thread; NoRoom is futex_wait
      returning -2 because the waiter table is full. */
  datatype Event = Exec(t: nat, w: nat) | Expire(t: nat) | NoRoom(t: nat)

  function Sum(q: seq<nat>): nat { if q == [] then 0 else q[0] + Sum(q[1..]) }

  function Total(cfg: Config): nat { Sum(cfg.producers) }

  function RoleOf(cfg: Config, i: nat): Role {
    if i < |cfg.workers| then Worker(cfg.workers[i])
    else if i < |cfg.workers| + |cfg.producers| then Producer(cfg.producers[i - |cfg.workers|])
    else Consumer
  }

  function Population(cfg: Config): nat { |cfg.workers| + |cfg.producers| + cfg.consumers }

  function Init(cfg: Config): State {
    State(Shared(0, 0, 0, 0, seq(cfg.size, _ => 0), 0, 0, 0, 0, 0, seq(Total(cfg), _ => false)),
          seq(Population(cfg), i requires i >= 0 => Thread(RoleOf(cfg, i), Top, 0, 0, 0)))
  }

  /** The array accesses of the code stay in bounds in these states. */
  predicate Shaped(g: Shared) { 0 <= g.head < |g.buf| && 0 <= g.tail < |g.buf| }

  function SeqOf(g: Shared, c: Cond): nat { if c == NotEmpty then g.seqNE else g.seqNF }

  /** One statement of one thread: the new shared memory and the thread's new locals. */
  datatype Outcome = Outcome(g: Shared, me: Thread)

  function To(g: Shared, me: Thread, pc: Pc): Outcome { Outcome(g, me.(pc := pc)) }

  /** The data statements of a critical section; no lock and no futex. */
  function DataStatement(g: Shared, me: Thread): (r: Outcome)
    requires Shaped(g)
    ensures Shaped(r.g)
  {
    match me.pc
    case Check =>
      (match me.role
       case Worker(_) => To(g, me, Load)
       case Producer(_) => To(g, me, if g.count == |g.buf| then Snapshot(NotFull) else Fill)
       case Consumer => To(g, me, if g.count == 0 && g.consumed < |g.seen| then Snapshot(NotEmpty) else Test))
    case Load => Outcome(g, me.(pc := Store, reg := g.counter))
    case Store => To(g.(counter := me.reg + 1), me, Release(Again))
    case Fill => To(g.(buf := g.buf[g.tail := g.nextItem], nextItem := g.nextItem + 1), me, AdvanceTail)
    case AdvanceTail => To(g.(tail := (g.tail + 1) % |g.buf|), me, CountUp)
    case CountUp => To(g.(count := g.count + 1), me, Bump(NotEmpty, false))
    case Test => To(g, me, if g.count == 0 then Release(Leave) else Take)
    case Take => Outcome(g, me.(pc := AdvanceHead, reg := g.buf[g.head]))
    case AdvanceHead => To(g.(head := (g.head + 1) % |g.buf|), me, CountDown)
    case CountDown => To(g.(count := g.count - 1), me, Tally)
    case Tally => To(g.(consumed := g.consumed + 1), me, Mark)
    case Mark =>
      To(g.(seen := if 0 <= me.reg < |g.seen| then g.seen[me.reg := true] else g.seen), me, Bump(NotFull, false))
    case Last => To(g, me, if g.consumed == |g.seen| then Bump(NotEmpty, true) else Release(Again))
    case _ => Outcome(g, me)
  }

  /** mct_mutex_lock, mct_mutex_unlock, mct_cond_wait, mct_cond_signal and
      mct_cond_broadcast, one atomic access at a time, and the loop around them. */
  function SyncStatement(g: Shared, me: Thread): (r: Outcome)
    requires Shaped(g)
    ensures Shaped(r.g)
  {
    match me.pc
    case Top => To(g, me, if AtEnd(me) then Finished else TryFast)
    case TryFast => if g.lock == 0 then To(g.(lock := 1), me, Check) else To(g, me, Spin)
    case Spin => To(g, me, if g.lock == 1 then Arm else TrySlow)
    case Arm => To(g, me, if g.lock == 1 then Parked else Spin)
    case TrySlow => if g.lock == 0 then To(g.(lock := 1), me, Check) else To(g, me, Spin)
    case Release(k) => To(g.(lock := 0), me, ReleaseWake(k))
    case ReleaseWake(k) =>
      (match k
       case Sleep(c) => To(g, me, CondArm(c))
       case Again => Outcome(g, me.(pc := Top, made := me.made + 1))
       case Leave => To(g, me, Finished))
    case Snapshot(c) => Outcome(g, me.(pc := Release(Sleep(c)), snap := SeqOf(g, c)))
    case CondArm(c) => To(g, me, if SeqOf(g, c) == me.snap then CondParked(c) else TryFast)
    case Bump(c, all) =>
      To(if c == NotEmpty then g.(seqNE := g.seqNE + 1) else g.(seqNF := g.seqNF + 1), me, Wake(c, all))
    case Wake(c, all) => To(g, me, if c == NotFull then Last else Release(Again))
    case _ => Outcome(g, me)
  }

  predicate AtEnd(th: Thread) {
    match th.role
    case Worker(n) => th.made >= n
    case Producer(q) => th.made >= q
    case Consumer => false
  }

  predicate IsData(pc: Pc) {
    pc in {Check, Load, Store, Fill, AdvanceTail, CountUp, Test, Take, AdvanceHead, CountDown, Tally, Mark, Last}
  }

  predicate Blocked(pc: Pc) { pc == Parked || pc.CondParked? || pc == Finished }

  predicate AnyAt(ts: seq<Thread>, pc: Pc) { exists i :: 0 <= i < |ts| && ts[i].pc == pc }

  /** The queue a futex_wake statement serves, and where its waiters resume. */
  predicate IsWake(pc: Pc) { pc.ReleaseWake? || pc.Wake? }

  function Queue(pc: Pc): Pc
    requires IsWake(pc)
  { if pc.Wake? then CondParked(pc.c) else Parked }

  function Resume(pc: Pc): Pc
    requires IsWake(pc)
  { if pc.Wake? then TryFast else Spin }

  /** Is thread `i`, now `th`, released by the wake statement `pc` that picks `w`? */
  predicate Woken(pc: Pc, w: nat, i: nat, th: Thread) {
    IsWake(pc) && th.pc == Queue(pc) && (i == w || (pc.Wake? && pc.all))
  }

  function Serve(pc: Pc, w: nat, ts: seq<Thread>): seq<Thread> {
    seq(|ts|, i requires 0 <= i < |ts| => if Woken(pc, w, i, ts[i]) then ts[i].(pc := Resume(pc)) else ts[i])
  }

  /** A single wake takes a waiter whenever there is one; which one is left open. */
  predicate FairWake(pc: Pc, w: nat, ts: seq<Thread>) {
    IsWake(pc) && AnyAt(ts, Queue(pc)) ==> (w < |ts| && ts[w].pc == Queue(pc)) || (pc.Wake? && pc.all)
  }

  predicate Legal(s: State, e: Event) {
    e.t < |s.threads| && Shaped(s.g) &&
    var me := s.threads[e.t];
    match e
    case Exec(t, w) => !Blocked(me.pc) && FairWake(me.pc, w, s.threads)
    case Expire(t) => me.pc == Parked || me.pc.CondParked?
    case NoRoom(t) => (me.pc == Arm && s.g.lock == 1) || (me.pc.CondArm? && SeqOf(s.g, me.pc.c) == me.snap)
  }

  /** The acting thread's side of an event. */
  function Act(g: Shared, me: Thread, e: Event): (r: Outcome)
    requires Shaped(g)
    ensures Shaped(r.g)
  {
    match e
    case Exec(t, w) => if IsData(me.pc) then DataStatement(g, me) else SyncStatement(g, me)
    case Expire(t) => To(g, me, if me.pc == Parked then Spin else TryFast)
    case NoRoom(t) => To(g, me, if me.pc == Arm then Spin else TryFast)
  }

  function Next(s: State, e: Event): State
    requires Legal(s, e)
  {
    var out := Act(s.g, s.threads[e.t], e);
    var ts := s.threads[e.t := out.me];
    State(out.g, if e.Exec? then Serve(s.threads[e.t].pc, e.w, ts) else ts)
  }

  predicate IsRun(s: State, es: seq<Event>)
    decreases |es|
  {
    es == [] || (Legal(s, es[0]) && IsRun(Next(s, es[0]), es[1..]))
  }

  function Final(s: State, es: seq<Event>): State
    requires IsRun(s, es)
    decreases |es|
  {
    if es == [] then s else Final(Next(s, es[0]), es[1..])
  }

  /** The items handed to consumers along a run, in the order they were marked. */
  function Delivered(s: State, es: seq<Event>): seq<int>
    requires IsRun(s, es)
    decreases |es|
  {
    if es == [] then []
    else
      (if es[0].Exec? && s.threads[es[0].t].pc == Mark then [s.threads[es[0].t].reg] else [])
      + Delivered(Next(s, es[0]), es[1..])
  }

  predicate AllDone(s: State) { forall i :: 0 <= i < |s.threads| ==> s.threads[i].pc == Finished }

  ghost predicate CanStep(s: State) { exists t, w :: Legal(s, Exec(t, w)) }

  /** The statements between winning the lock and the store that gives it back. */
  predicate InCritical(pc: Pc) {
    IsData(pc) || pc.Bump? || pc.Wake? || pc.Snapshot? || pc.Release?
  }
}
