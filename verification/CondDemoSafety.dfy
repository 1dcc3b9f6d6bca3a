/**
  What every step of the demo keeps, whatever the interleaving and however often the
  timer sweep or a full waiter table releases a sleeper early.
*/
module CondDemoSafety {
  import opened CondDemo
  import Modular

  // ---- sums over the thread table -------------------------------------------------

  /** The quantities that are added up over all threads. */
  datatype Gauge =
    | Unmade                 // items a producer has not yet numbered
    | Unrun                  // increments a worker has not yet stored
    | Ready(c: Cond, q: nat) // threads that will look at the buffer again unaided

  predicate Waiting(pc: Pc, c: Cond) {
    pc in {Release(Sleep(c)), ReleaseWake(Sleep(c)), CondArm(c), CondParked(c)}
  }

  /** Asleep on `c`: parked, or bound to park because no signal came since the snapshot. */
  predicate Sleeps(th: Thread, c: Cond, q: nat) {
    th.pc == CondParked(c) || (Waiting(th.pc, c) && th.snap == q)
  }

  predicate Filled(pc: Pc) {
    pc in {AdvanceTail, CountUp, Bump(NotEmpty, false), Wake(NotEmpty, false), Release(Again), ReleaseWake(Again)}
  }

  predicate Signalling(pc: Pc) {
    pc in {Bump(NotEmpty, false), Wake(NotEmpty, false), Release(Again), ReleaseWake(Again)}
  }

  predicate Leaving(pc: Pc) { pc in {Release(Leave), ReleaseWake(Leave), Finished} }

  /** A consumer that has not decided to leave; a producer with an item left to place. */
  predicate Wants(th: Thread, c: Cond) {
    if c == NotEmpty then th.role.Consumer? && !Leaving(th.pc)
    else th.role.Producer? && th.role.quota - th.made - (if Signalling(th.pc) then 1 else 0) > 0
  }

  function Weigh(g: Gauge, th: Thread): int {
    match g
    case Unmade =>
      if th.role.Producer? then th.role.quota - th.made - (if Filled(th.pc) then 1 else 0) else 0
    case Unrun =>
      if th.role.Worker? then th.role.iters - th.made - (if th.pc in {Release(Again), ReleaseWake(Again)} then 1 else 0)
      else 0
    case Ready(c, q) => if Wants(th, c) && !Sleeps(th, c, q) then 1 else 0
  }

  function Tot(g: Gauge, ts: seq<Thread>): int {
    if ts == [] then 0 else Weigh(g, ts[0]) + Tot(g, ts[1..])
  }

  lemma {:induction false} TotUpdate(g: Gauge, ts: seq<Thread>, i: nat, th: Thread)
    requires i < |ts|
    ensures Tot(g, ts[i := th]) == Tot(g, ts) - Weigh(g, ts[i]) + Weigh(g, th)
  {
    if i == 0 {
      assert ts[i := th][1..] == ts[1..];
    } else {
      assert ts[i := th][1..] == ts[1..][i - 1 := th];
      TotUpdate(g, ts[1..], i - 1, th);
    }
  }

  /** What holds thread by thread holds of the sums. */
  lemma {:induction false} TotGrowth(g: Gauge, ts: seq<Thread>, g': Gauge, ts': seq<Thread>)
    requires |ts| == |ts'|
    requires forall i :: 0 <= i < |ts| ==> Weigh(g', ts'[i]) <= Weigh(g, ts[i])
    ensures Tot(g', ts') <= Tot(g, ts)
  {
    if ts != [] {
      assert forall i :: 0 <= i < |ts[1..]| ==> ts[1..][i] == ts[i + 1] && ts'[1..][i] == ts'[i + 1];
      TotGrowth(g, ts[1..], g', ts'[1..]);
    }
  }

  /** In a sum of non-negative terms a term is at most the sum. */
  lemma {:induction false} TotTerm(g: Gauge, ts: seq<Thread>, j: nat)
    requires forall i :: 0 <= i < |ts| ==> Weigh(g, ts[i]) >= 0
    ensures Tot(g, ts) >= 0
    ensures j < |ts| ==> Tot(g, ts) >= Weigh(g, ts[j])
  {
    if ts != [] {
      assert forall i :: 0 <= i < |ts[1..]| ==> ts[1..][i] == ts[i + 1];
      TotTerm(g, ts[1..], if j == 0 then 0 else j - 1);
    }
  }

  lemma {:induction false} TotZero(g: Gauge, ts: seq<Thread>)
    requires forall i :: 0 <= i < |ts| ==> Weigh(g, ts[i]) == 0
    ensures Tot(g, ts) == 0
  {
    if ts != [] {
      assert forall i :: 0 <= i < |ts[1..]| ==> ts[1..][i] == ts[i + 1];
      TotZero(g, ts[1..]);
    }
  }

  // ---- the invariant --------------------------------------------------------------

  /** `h` is the thread inside the critical section, -1 when the lock word is 0. */
  predicate Exclusive(s: State, h: int) {
    -1 <= h < |s.threads| && s.g.lock == (if h < 0 then 0 else 1) &&
    forall i :: 0 <= i < |s.threads| ==> (InCritical(s.threads[i].pc) <==> i == h)
  }

  function Inside(s: State, h: int): Thread
    requires -1 <= h < |s.threads|
  {
    if h < 0 then Thread(Consumer, Finished, 0, 0, 0) else s.threads[h]
  }

  predicate SleepsIn(role: Role, c: Cond) { if c == NotEmpty then role.Consumer? else role.Producer? }

  predicate RoleFits(role: Role, pc: Pc) {
    match pc
    case Load => role.Worker? case Store => role.Worker?
    case Fill => role.Producer? case AdvanceTail => role.Producer? case CountUp => role.Producer?
    case Test => role.Consumer? case Take => role.Consumer? case AdvanceHead => role.Consumer?
    case CountDown => role.Consumer? case Tally => role.Consumer? case Mark => role.Consumer?
    case Last => role.Consumer?
    case Bump(c, all) => if c == NotEmpty && !all then role.Producer? else role.Consumer? && all == (c == NotEmpty)
    case Wake(c, all) => if c == NotEmpty && !all then role.Producer? else role.Consumer? && all == (c == NotEmpty)
    case Snapshot(c) => SleepsIn(role, c)
    case CondArm(c) => SleepsIn(role, c)
    case CondParked(c) => SleepsIn(role, c)
    case Release(k) => UnlockFits(role, k)
    case ReleaseWake(k) => UnlockFits(role, k)
    case _ => true
  }

  predicate UnlockFits(role: Role, k: After) {
    match k
    case Sleep(c) => SleepsIn(role, c)
    case Again => true
    case Leave => role.Consumer?
  }

  predicate LoopFits(th: Thread, bound: nat) {
    if th.pc == Finished then th.made == bound else if th.pc == Top then th.made <= bound else th.made < bound
  }

  predicate ThreadOk(g: Shared, th: Thread) {
    RoleFits(th.role, th.pc)
    && (th.role.Worker? ==> LoopFits(th, th.role.iters))
    && (th.role.Producer? ==> LoopFits(th, th.role.quota))
    && (Waiting(th.pc, NotEmpty) ==> th.snap <= g.seqNE)
    && (Waiting(th.pc, NotFull) ==> th.snap <= g.seqNF)
  }

  predicate Threads(cfg: Config, s: State) {
    |s.threads| == Population(cfg)
    && forall i :: 0 <= i < |s.threads| ==> s.threads[i].role == RoleOf(cfg, i) && ThreadOk(s.g, s.threads[i])
  }

  predicate Contender(pc: Pc) { pc.ReleaseWake? || pc in {Spin, Arm, TrySlow} }

  /** A thread parked on the lock word is never forgotten by an unlock. */
  predicate NoLostUnlock(s: State) {
    AnyAt(s.threads, Parked) ==> s.g.lock == 1 || exists i :: 0 <= i < |s.threads| && Contender(s.threads[i].pc)
  }

  function Slot(k: int, size: nat): nat
    requires size > 0
  { k % size }

  /** The ring and the counters, exact at every statement of the critical section;
      `p` is the holder's program counter. */
  predicate Ring(cfg: Config, g: Shared, p: Pc) {
    |g.buf| == cfg.size && cfg.size > 0 && |g.seen| == Total(cfg)
    && 0 <= g.consumed <= g.nextItem <= Total(cfg)
    && g.nextItem - g.consumed <= cfg.size
    && g.count == g.nextItem - g.consumed - (if p in {AdvanceTail, CountUp, Tally} then 1 else 0)
    && g.tail == Slot(if p == AdvanceTail then g.nextItem - 1 else g.nextItem, cfg.size)
    && g.head == Slot(if p in {CountDown, Tally} then g.consumed + 1 else g.consumed, cfg.size)
    && (forall k :: g.consumed <= k < g.nextItem ==> g.buf[Slot(k, cfg.size)] == k)
    && (forall k :: 0 <= k < |g.seen| ==> (g.seen[k] <==> k < (if p == Mark then g.consumed - 1 else g.consumed)))
  }

  /** What the holder has learnt from the branch it took. */
  predicate Branch(cfg: Config, g: Shared, p: Pc, reg: int) {
    match p
    case Store => reg == g.counter
    case Fill => g.count < cfg.size
    case AdvanceTail => g.consumed < g.nextItem
    case CountUp => g.consumed < g.nextItem
    case Snapshot(c) => if c == NotFull then g.count == cfg.size else g.count == 0 && g.consumed < Total(cfg)
    case Test => g.count > 0 || g.consumed == Total(cfg)
    case Take => g.count > 0
    case AdvanceHead => g.count > 0 && reg == g.consumed
    case CountDown => g.count > 0 && reg == g.consumed
    case Tally => g.consumed < g.nextItem && reg == g.consumed
    case Mark => reg == g.consumed - 1 && 0 <= reg
    case Bump(c, all) =>
      (all ==> g.consumed == Total(cfg) > 0) && (!all ==> (if c == NotFull then g.consumed else g.count) > 0)
    case Wake(c, all) => (all ==> g.consumed == Total(cfg) > 0) && (c == NotFull ==> g.consumed > 0)
    case Last => g.consumed > 0
    case Release(k) => k == Leave ==> g.consumed == Total(cfg)
    case _ => true
  }

  predicate Sums(cfg: Config, s: State) {
    s.g.nextItem + Tot(Unmade, s.threads) == Total(cfg) && s.g.counter + Tot(Unrun, s.threads) == Sum(cfg.workers)
  }

  predicate AnySleeps(s: State, c: Cond) {
    exists i :: 0 <= i < |s.threads| && Sleeps(s.threads[i], c, SeqOf(s.g, c))
  }

  /** Between the last consumption and the end of the broadcast. */
  predicate Closing(p: Pc) {
    p in {Mark, Bump(NotFull, false), Wake(NotFull, false), Last, Bump(NotEmpty, true), Wake(NotEmpty, true)}
  }

  /** What the sleepers on `c` wait for: items, or free slots. */
  function Supply(cfg: Config, g: Shared, c: Cond): int { if c == NotEmpty then g.count else cfg.size - g.count }

  /** A single wake on `c` that the holder still owes for supply it has already added. */
  function Owed(p: Pc, c: Cond): int {
    if c == NotEmpty then if p in {Bump(NotEmpty, false), Wake(NotEmpty, false)} then 1 else 0
    else if p in {Tally, Mark, Bump(NotFull, false), Wake(NotFull, false)} then 1 else 0
  }

  /** No lost signal: while somebody sleeps on `c`, the supply does not exceed the threads
      that are awake for it plus the wake that is still owed. */
  predicate NoLostSignal(cfg: Config, s: State, p: Pc, c: Cond) {
    AnySleeps(s, c) ==> Supply(cfg, s.g, c) <= Tot(Ready(c, SeqOf(s.g, c)), s.threads) + Owed(p, c)
  }

  predicate Closed(cfg: Config, s: State, p: Pc) {
    (s.g.consumed == Total(cfg) && !Closing(p) ==> !AnySleeps(s, NotEmpty))
    && (forall i :: 0 <= i < |s.threads| && s.threads[i].role.Consumer? && Leaving(s.threads[i].pc) ==>
          s.g.consumed == Total(cfg))
  }

  /** While a wake is owed, every waiter on that word already has an outdated snapshot. */
  predicate Outdated(s: State, p: Pc) {
    p.Wake? ==>
      forall i :: 0 <= i < |s.threads| && Waiting(s.threads[i].pc, p.c) ==> s.threads[i].snap < SeqOf(s.g, p.c)
  }

  /** The sequence words count the signals exactly, so neither exceeds total + 1. */
  predicate Signals(cfg: Config, g: Shared, p: Pc) {
    g.seqNF == g.consumed - (if p in {Mark, Bump(NotFull, false)} then 1 else 0)
    && g.seqNE == g.nextItem - (if p in {AdvanceTail, CountUp, Bump(NotEmpty, false)} then 1 else 0)
         + (if Total(cfg) > 0 && g.consumed == Total(cfg)
               && p !in {Mark, Bump(NotFull, false), Wake(NotFull, false), Last, Bump(NotEmpty, true)} then 1 else 0)
  }

  predicate Inv(cfg: Config, s: State, h: int) {
    Exclusive(s, h) && Threads(cfg, s) && NoLostUnlock(s)
    && var me := Inside(s, h);
       Ring(cfg, s.g, me.pc) && Branch(cfg, s.g, me.pc, me.reg) && Sums(cfg, s)
       && NoLostSignal(cfg, s, me.pc, NotEmpty) && NoLostSignal(cfg, s, me.pc, NotFull)
       && Closed(cfg, s, me.pc) && Outdated(s, me.pc) && Signals(cfg, s.g, me.pc)
  }

  // ---- one statement ------------------------------------------------------------------

  predicate Acts(g: Shared, me: Thread, e: Event) {
    match e
    case Exec(_, _) => !Blocked(me.pc)
    case Expire(_) => me.pc == Parked || me.pc.CondParked?
    case NoRoom(_) => (me.pc == Arm && g.lock == 1) || (me.pc.CondArm? && SeqOf(g, me.pc.c) == me.snap)
  }

  /** The lock word changes hands only by a winning cmpxchg and the releasing store. */
  predicate LockRule(g: Shared, me: Thread, o: Outcome) {
    if InCritical(me.pc) then
      if InCritical(o.me.pc) then o.g.lock == g.lock else o.g.lock == 0
    else if InCritical(o.me.pc) then g.lock == 0 && o.g.lock == 1 && o.me.pc == Check
    else o.g.lock == g.lock
  }

  lemma StatementLock(g: Shared, me: Thread, e: Event)
    requires Shaped(g) && Acts(g, me, e)
    ensures LockRule(g, me, Act(g, me, e))
    ensures InCritical(me.pc) ==> e.Exec?
  {
  }

  /** Contention: who stops contending, and who parks. */
  predicate ContendRule(g: Shared, me: Thread, o: Outcome, e: Event) {
    (o.me.pc == Parked ==> g.lock == 1)
    && (Contender(me.pc) && !Contender(o.me.pc) && o.g.lock != 1 ==> e.Exec? && me.pc.ReleaseWake?)
    && (InCritical(me.pc) && !InCritical(o.me.pc) ==> Contender(o.me.pc))
  }

  lemma StatementContend(g: Shared, me: Thread, e: Event)
    requires Shaped(g) && Acts(g, me, e)
    ensures ContendRule(g, me, Act(g, me, e), e)
  {
  }

  predicate ThreadRule(g: Shared, me: Thread, o: Outcome) {
    ThreadOk(o.g, o.me) && o.me.role == me.role && g.seqNE <= o.g.seqNE && g.seqNF <= o.g.seqNF
  }

  lemma DataThread(g: Shared, me: Thread)
    requires Shaped(g) && ThreadOk(g, me) && IsData(me.pc)
    ensures ThreadRule(g, me, DataStatement(g, me))
  {
  }

  /** The statements of mct_mutex_lock and the loop test before it. */
  predicate Locking(pc: Pc) { pc in {Top, TryFast, Spin, Arm, TrySlow} }

  lemma LockingThread(g: Shared, me: Thread)
    requires Shaped(g) && ThreadOk(g, me) && Locking(me.pc)
    ensures ThreadRule(g, me, SyncStatement(g, me))
  {
  }

  lemma SignalThread(g: Shared, me: Thread)
    requires Shaped(g) && ThreadOk(g, me) && (me.pc.Bump? || me.pc.Wake? || me.pc.Snapshot? || me.pc.CondArm?)
    ensures ThreadRule(g, me, SyncStatement(g, me))
  {
  }

  lemma ReleaseThread(g: Shared, me: Thread)
    requires Shaped(g) && ThreadOk(g, me) && (me.pc.Release? || me.pc.ReleaseWake?)
    ensures ThreadRule(g, me, SyncStatement(g, me))
  {
  }

  lemma SyncThread(g: Shared, me: Thread)
    requires Shaped(g) && ThreadOk(g, me) && !IsData(me.pc) && !Blocked(me.pc)
    ensures ThreadRule(g, me, SyncStatement(g, me))
  {
    if Locking(me.pc) { LockingThread(g, me); }
    else if me.pc.Release? || me.pc.ReleaseWake? { ReleaseThread(g, me); }
    else { SignalThread(g, me); }
  }

  lemma StatementThread(g: Shared, me: Thread, e: Event)
    requires Shaped(g) && ThreadOk(g, me) && Acts(g, me, e)
    ensures ThreadRule(g, me, Act(g, me, e))
  {
    if !e.Exec? {
    } else if IsData(me.pc) {
      DataThread(g, me);
    } else {
      SyncThread(g, me);
    }
  }

  /** Outside the critical section a statement touches the lock word only. */
  lemma StatementQuiet(g: Shared, me: Thread, e: Event)
    requires Shaped(g) && Acts(g, me, e) && !InCritical(me.pc)
    ensures var o := Act(g, me, e); o.g == g.(lock := o.g.lock) && (InCritical(o.me.pc) ==> o.me.pc == Check)
  {
  }

  lemma RingFill(cfg: Config, g: Shared, me: Thread)
    requires Shaped(g) && me.pc == Fill && Ring(cfg, g, Fill) && Branch(cfg, g, Fill, me.reg) && g.nextItem < Total(cfg)
    ensures var o := DataStatement(g, me); Ring(cfg, o.g, AdvanceTail) && Branch(cfg, o.g, AdvanceTail, o.me.reg)
  {
    var g' := DataStatement(g, me).g;
    forall k | g'.consumed <= k < g'.nextItem ensures g'.buf[Slot(k, cfg.size)] == k {
      if k < g.nextItem {
        Modular.RemaindersDiffer(k, g.nextItem, cfg.size);
        assert g.buf[Slot(k, cfg.size)] == k;
      }
    }
  }

  lemma RingTail(cfg: Config, g: Shared, me: Thread)
    requires Shaped(g) && me.pc == AdvanceTail && Ring(cfg, g, AdvanceTail) && Branch(cfg, g, AdvanceTail, me.reg)
    ensures var o := DataStatement(g, me); Ring(cfg, o.g, CountUp) && Branch(cfg, o.g, CountUp, o.me.reg)
  {
    Modular.NextRemainder(g.nextItem - 1, cfg.size);
  }

  lemma RingHead(cfg: Config, g: Shared, me: Thread)
    requires Shaped(g) && me.pc == AdvanceHead && Ring(cfg, g, AdvanceHead) && Branch(cfg, g, AdvanceHead, me.reg)
    ensures var o := DataStatement(g, me); Ring(cfg, o.g, CountDown) && Branch(cfg, o.g, CountDown, o.me.reg)
  {
    Modular.NextRemainder(g.consumed, cfg.size);
  }

  lemma RingCounts(cfg: Config, g: Shared, me: Thread)
    requires Shaped(g) && me.pc in {CountUp, CountDown, Tally, Mark}
    requires Ring(cfg, g, me.pc) && Branch(cfg, g, me.pc, me.reg)
    ensures var o := DataStatement(g, me); Ring(cfg, o.g, o.me.pc) && Branch(cfg, o.g, o.me.pc, o.me.reg)
  {
  }

  lemma RingRest(cfg: Config, g: Shared, me: Thread)
    requires Shaped(g) && me.pc in {Load, Store, Test, Take, Last}
    requires Ring(cfg, g, me.pc) && Branch(cfg, g, me.pc, me.reg)
    ensures var o := DataStatement(g, me); Ring(cfg, o.g, o.me.pc) && Branch(cfg, o.g, o.me.pc, o.me.reg)
  {
  }

  lemma RingData(cfg: Config, g: Shared, me: Thread)
    requires Shaped(g) && IsData(me.pc) && me.pc != Check
    requires Ring(cfg, g, me.pc) && Branch(cfg, g, me.pc, me.reg)
    requires me.pc == Fill ==> g.nextItem < Total(cfg)
    ensures var o := DataStatement(g, me); Ring(cfg, o.g, o.me.pc) && Branch(cfg, o.g, o.me.pc, o.me.reg)
  {
    match me.pc
    case Fill => RingFill(cfg, g, me);
    case AdvanceTail => RingTail(cfg, g, me);
    case AdvanceHead => RingHead(cfg, g, me);
    case CountUp => RingCounts(cfg, g, me);
    case CountDown => RingCounts(cfg, g, me);
    case Tally => RingCounts(cfg, g, me);
    case Mark => RingCounts(cfg, g, me);
    case _ => RingRest(cfg, g, me);
  }

  lemma RingCheck(cfg: Config, g: Shared, me: Thread)
    requires Shaped(g) && me.pc == Check && Ring(cfg, g, Check)
    ensures var o := DataStatement(g, me); Ring(cfg, o.g, o.me.pc) && Branch(cfg, o.g, o.me.pc, o.me.reg)
  {
  }

  lemma RingSignal(cfg: Config, g: Shared, me: Thread)
    requires Shaped(g) && (me.pc.Bump? || me.pc.Wake?)
    requires RoleFits(me.role, me.pc) && Ring(cfg, g, me.pc) && Branch(cfg, g, me.pc, me.reg)
    ensures var o := SyncStatement(g, me); Ring(cfg, o.g, o.me.pc) && Branch(cfg, o.g, o.me.pc, o.me.reg)
  {
  }

  lemma RingLeave(cfg: Config, g: Shared, me: Thread)
    requires Shaped(g) && (me.pc.Snapshot? || me.pc.Release?)
    requires Ring(cfg, g, me.pc) && Branch(cfg, g, me.pc, me.reg)
    ensures var o := SyncStatement(g, me); Ring(cfg, o.g, o.me.pc) && Branch(cfg, o.g, o.me.pc, o.me.reg)
  {
  }

  lemma RingSync(cfg: Config, g: Shared, me: Thread, e: Event)
    requires Shaped(g) && e.Exec? && (me.pc == Check || me.pc.Bump? || me.pc.Wake? || me.pc.Snapshot? || me.pc.Release?)
    requires RoleFits(me.role, me.pc) && Ring(cfg, g, me.pc) && Branch(cfg, g, me.pc, me.reg)
    ensures var o := Act(g, me, e); Ring(cfg, o.g, o.me.pc) && Branch(cfg, o.g, o.me.pc, o.me.reg)
  {
    match me.pc
    case Check => RingCheck(cfg, g, me);
    case Bump(_, _) => RingSignal(cfg, g, me);
    case Wake(_, _) => RingSignal(cfg, g, me);
    case _ => RingLeave(cfg, g, me);
  }

  lemma StatementSums(g: Shared, me: Thread, e: Event)
    requires Shaped(g) && Acts(g, me, e) && RoleFits(me.role, me.pc)
    requires me.pc == Store ==> me.reg == g.counter
    ensures var o := Act(g, me, e);
      o.g.nextItem + Weigh(Unmade, o.me) == g.nextItem + Weigh(Unmade, me)
      && o.g.counter + Weigh(Unrun, o.me) == g.counter + Weigh(Unrun, me)
  {
  }

  lemma StatementSignals(cfg: Config, g: Shared, me: Thread, e: Event)
    requires Shaped(g) && InCritical(me.pc) && e.Exec? && RoleFits(me.role, me.pc)
    requires Ring(cfg, g, me.pc) && Branch(cfg, g, me.pc, me.reg) && Signals(cfg, g, me.pc)
    requires me.pc == Fill ==> g.nextItem < Total(cfg)
    ensures var o := Act(g, me, e); Signals(cfg, o.g, o.me.pc)
  {
  }

  /** Waiting on `c` starts at the snapshot and keeps it; the word moves by a bump only. */
  predicate WaitRule(g: Shared, me: Thread, o: Outcome, e: Event, c: Cond) {
    (Waiting(o.me.pc, c) ==>
      || (Waiting(me.pc, c) && o.me.snap == me.snap && (o.me.pc == CondParked(c) ==> me.snap == SeqOf(g, c)))
      || (me.pc == Snapshot(c) && o.me.pc == Release(Sleep(c))))
    && SeqOf(o.g, c) == SeqOf(g, c) + (if me.pc.Bump? && me.pc.c == c then 1 else 0)
  }

  lemma DataWaiting(g: Shared, me: Thread, e: Event, c: Cond)
    requires Shaped(g) && IsData(me.pc)
    ensures WaitRule(g, me, DataStatement(g, me), e, c)
  {
  }

  lemma SyncWaiting(g: Shared, me: Thread, e: Event, c: Cond)
    requires Shaped(g) && Acts(g, me, e) && !IsData(me.pc)
    ensures WaitRule(g, me, Act(g, me, e), e, c)
  {
  }

  lemma StatementWaiting(g: Shared, me: Thread, e: Event, c: Cond)
    requires Shaped(g) && Acts(g, me, e)
    ensures WaitRule(g, me, Act(g, me, e), e, c)
  {
    if IsData(me.pc) { DataWaiting(g, me, e, c); } else { SyncWaiting(g, me, e, c); }
  }

  function HeldPc(pc: Pc): Pc { if InCritical(pc) then pc else Finished }

  /** Supply, owed wakes and the thread's own readiness move together, except that a
      single wake passes the debt on to the thread it wakes. */
  predicate SupplyRule(cfg: Config, g: Shared, me: Thread, o: Outcome, e: Event, c: Cond) {
    var r := Ready(c, SeqOf(g, c));
    var before := Supply(cfg, g, c) - Owed(HeldPc(me.pc), c) - Weigh(r, me);
    var after := Supply(cfg, o.g, c) - Owed(HeldPc(o.me.pc), c) - Weigh(r, o.me);
    Supply(cfg, o.g, c) == 0 || after <= before + (if e.Exec? && me.pc == Wake(c, false) then 1 else 0)
  }

  lemma DataSupply(cfg: Config, g: Shared, me: Thread, e: Event, c: Cond)
    requires Shaped(g) && e.Exec? && IsData(me.pc) && ThreadOk(g, me) && Branch(cfg, g, me.pc, me.reg)
    ensures SupplyRule(cfg, g, me, DataStatement(g, me), e, c)
  {
  }

  lemma SleepSupply(cfg: Config, g: Shared, me: Thread, e: Event, c: Cond)
    requires Shaped(g) && Acts(g, me, e) && ThreadOk(g, me) && Branch(cfg, g, HeldPc(me.pc), me.reg)
    requires me.pc.Snapshot? || me.pc.Release? || me.pc.ReleaseWake? || me.pc.CondArm? || me.pc.CondParked?
    ensures SupplyRule(cfg, g, me, Act(g, me, e), e, c)
  {
  }

  lemma SyncSupply(cfg: Config, g: Shared, me: Thread, e: Event, c: Cond)
    requires Shaped(g) && Acts(g, me, e) && !IsData(me.pc) && ThreadOk(g, me)
    requires !(me.pc.Snapshot? || me.pc.Release? || me.pc.ReleaseWake? || me.pc.CondArm? || me.pc.CondParked?)
    ensures SupplyRule(cfg, g, me, Act(g, me, e), e, c)
  {
  }

  lemma StatementSupply(cfg: Config, g: Shared, me: Thread, e: Event, c: Cond)
    requires Shaped(g) && Acts(g, me, e) && ThreadOk(g, me) && Branch(cfg, g, HeldPc(me.pc), me.reg)
    ensures SupplyRule(cfg, g, me, Act(g, me, e), e, c)
  {
    if IsData(me.pc) {
      DataSupply(cfg, g, me, e, c);
    } else if me.pc.Snapshot? || me.pc.Release? || me.pc.ReleaseWake? || me.pc.CondArm? || me.pc.CondParked? {
      SleepSupply(cfg, g, me, e, c);
    } else {
      SyncSupply(cfg, g, me, e, c);
    }
  }

  /** The last consumption opens the closing phase, and only the broadcast ends it. */
  predicate CloseRule(cfg: Config, g: Shared, me: Thread, o: Outcome) {
    g.consumed <= o.g.consumed && o.me.role == me.role
    && (me.pc == Snapshot(NotEmpty) ==> o.g.consumed < Total(cfg))
    && (g.consumed < o.g.consumed ==> o.me.pc == Mark)
    && (Closing(me.pc) && !Closing(o.me.pc) && o.g.consumed == Total(cfg) ==> me.pc == Wake(NotEmpty, true))
    && (me.role.Consumer? && Leaving(o.me.pc) && !Leaving(me.pc) ==> o.g.consumed == Total(cfg))
  }

  lemma DataClose(cfg: Config, g: Shared, me: Thread)
    requires Shaped(g) && IsData(me.pc) && ThreadOk(g, me) && |g.seen| == Total(cfg) && Branch(cfg, g, me.pc, me.reg)
    ensures CloseRule(cfg, g, me, DataStatement(g, me))
  {
  }

  lemma SyncClose(cfg: Config, g: Shared, me: Thread, e: Event)
    requires Shaped(g) && Acts(g, me, e) && !IsData(me.pc) && ThreadOk(g, me) && Branch(cfg, g, HeldPc(me.pc), me.reg)
    ensures CloseRule(cfg, g, me, Act(g, me, e))
  {
  }

  lemma StatementClose(cfg: Config, g: Shared, me: Thread, e: Event)
    requires Shaped(g) && Acts(g, me, e) && ThreadOk(g, me)
    requires |g.seen| == Total(cfg) && Branch(cfg, g, HeldPc(me.pc), me.reg)
    ensures CloseRule(cfg, g, me, Act(g, me, e))
  {
    if IsData(me.pc) { DataClose(cfg, g, me); } else { SyncClose(cfg, g, me, e); }
  }

  // ---- the thread table ---------------------------------------------------------------

  predicate Released(s: State, e: Event, i: nat)
    requires e.t < |s.threads| && i < |s.threads|
  {
    e.Exec? && i != e.t && Woken(s.threads[e.t].pc, e.w, i, s.threads[i])
  }

  /** From s to s' only the acting thread and the waiters it wakes move. */
  predicate Moves(s: State, e: Event, o: Outcome, s': State) {
    e.t < |s.threads| && |s'.threads| == |s.threads| && s'.g == o.g && s'.threads[e.t] == o.me
    && forall i :: 0 <= i < |s.threads| && i != e.t ==>
         s'.threads[i] == if Released(s, e, i) then s.threads[i].(pc := Resume(s.threads[e.t].pc)) else s.threads[i]
  }

  function Out(s: State, e: Event): Outcome
    requires Legal(s, e)
  { Act(s.g, s.threads[e.t], e) }

  lemma StepMoves(s: State, e: Event)
    requires Legal(s, e)
    ensures Moves(s, e, Out(s, e), Next(s, e)) && Acts(s.g, s.threads[e.t], e)
  {
    var me := s.threads[e.t];
    if e.Exec? && IsWake(me.pc) {
      assert Out(s, e).me.pc != Queue(me.pc);
    }
  }

  /** Who is inside after the step. */
  function NewHolder(h: int, e: Event, o: Outcome): int {
    if InCritical(o.me.pc) then e.t else if e.t == h then -1 else h
  }

  lemma MoveExclusive(s: State, h: int, e: Event, o: Outcome, s': State)
    requires Moves(s, e, o, s') && Exclusive(s, h) && LockRule(s.g, s.threads[e.t], o)
    ensures Exclusive(s', NewHolder(h, e, o))
    ensures e.t != h ==> Inside(s', NewHolder(h, e, o)) == if InCritical(o.me.pc) then o.me else Inside(s, h)
    ensures e.t != h && InCritical(o.me.pc) ==> h == -1
  {
  }

  /** A thread that did not act is all right with newer sequence words, woken or not. */
  lemma OtherThread(g: Shared, g': Shared, th: Thread, pc: Pc)
    requires ThreadOk(g, th) && g.seqNE <= g'.seqNE && g.seqNF <= g'.seqNF
    ensures ThreadOk(g', th)
    ensures IsWake(pc) && th.pc == Queue(pc) ==> ThreadOk(g', th.(pc := Resume(pc)))
  {
  }

  lemma MoveThreads(cfg: Config, s: State, e: Event, o: Outcome, s': State)
    requires Moves(s, e, o, s') && Threads(cfg, s) && ThreadRule(s.g, s.threads[e.t], o)
    ensures Threads(cfg, s')
  {
    forall i | 0 <= i < |s'.threads|
      ensures s'.threads[i].role == RoleOf(cfg, i) && ThreadOk(s'.g, s'.threads[i])
    {
      assert ThreadOk(s.g, s.threads[i]);
      if i != e.t { OtherThread(s.g, s'.g, s.threads[i], s.threads[e.t].pc); }
    }
  }

  lemma MoveUnlock(s: State, h: int, e: Event, o: Outcome, s': State)
    requires Moves(s, e, o, s') && Exclusive(s, h) && NoLostUnlock(s)
    requires LockRule(s.g, s.threads[e.t], o) && ContendRule(s.g, s.threads[e.t], o, e)
    requires e.Exec? ==> FairWake(s.threads[e.t].pc, e.w, s.threads)
    ensures NoLostUnlock(s')
  {
    var me := s.threads[e.t];
    if AnyAt(s'.threads, Parked) && s'.g.lock != 1 && !Contender(o.me.pc) {
      var i :| 0 <= i < |s'.threads| && s'.threads[i].pc == Parked;
      assert s.threads[i].pc == Parked;
      if e.Exec? && me.pc.ReleaseWake? {
        assert Contender(s'.threads[e.w].pc);
      } else {
        var j :| 0 <= j < |s.threads| && Contender(s.threads[j].pc);
        assert Contender(s'.threads[j].pc);
      }
    }
  }

  lemma MoveOutdated(cfg: Config, s: State, e: Event, o: Outcome, s': State, c: Cond)
    requires Moves(s, e, o, s') && Threads(cfg, s) && WaitRule(s.g, s.threads[e.t], o, e, c)
    requires s.threads[e.t].pc != Snapshot(c)
    requires (s.threads[e.t].pc.Bump? && s.threads[e.t].pc.c == c)
      || forall i :: 0 <= i < |s.threads| && Waiting(s.threads[i].pc, c) ==> s.threads[i].snap < SeqOf(s.g, c)
    ensures forall i :: 0 <= i < |s'.threads| && Waiting(s'.threads[i].pc, c) ==> s'.threads[i].snap < SeqOf(s'.g, c)
  {
    forall i | 0 <= i < |s'.threads| && Waiting(s'.threads[i].pc, c) ensures s'.threads[i].snap < SeqOf(s'.g, c) {
      assert ThreadOk(s.g, s.threads[i]);
    }
  }

  /** Falling asleep starts with a snapshot: every other sleeper after a step slept before it. */
  lemma SleptBefore(cfg: Config, s: State, e: Event, o: Outcome, s': State, c: Cond, i: nat)
    requires Moves(s, e, o, s') && Threads(cfg, s) && WaitRule(s.g, s.threads[e.t], o, e, c)
    requires i < |s'.threads| && Sleeps(s'.threads[i], c, SeqOf(s'.g, c))
    ensures Sleeps(s.threads[i], c, SeqOf(s.g, c)) || (i == e.t && s.threads[i].pc == Snapshot(c))
  {
    assert ThreadOk(s.g, s.threads[i]);
  }

  lemma TotMove(g: Gauge, s: State, e: Event, o: Outcome, s': State, g': Gauge)
    requires Moves(s, e, o, s')
    requires forall i :: 0 <= i < |s'.threads| ==>
      Weigh(g, if i == e.t then o.me else s.threads[i]) <= Weigh(g', s'.threads[i])
    ensures Tot(g', s'.threads) >= Tot(g, s.threads) - Weigh(g, s.threads[e.t]) + Weigh(g, o.me)
  {
    TotUpdate(g, s.threads, e.t, o.me);
    TotGrowth(g', s'.threads, g, s.threads[e.t := o.me]);
  }

  /** Being woken changes neither sum. */
  lemma WeighResumed(g: Gauge, th: Thread, pc: Pc)
    requires g in {Unmade, Unrun} && IsWake(pc) && th.pc == Queue(pc)
    ensures Weigh(g, th.(pc := Resume(pc))) == Weigh(g, th)
  {
  }

  lemma {:induction false} TotSame(g: Gauge, ts: seq<Thread>, ts': seq<Thread>)
    requires |ts| == |ts'| && forall i :: 0 <= i < |ts| ==> Weigh(g, ts'[i]) == Weigh(g, ts[i])
    ensures Tot(g, ts') == Tot(g, ts)
  {
    TotGrowth(g, ts, g, ts');
    TotGrowth(g, ts', g, ts);
  }

  lemma TotPlain(g: Gauge, s: State, e: Event, o: Outcome, s': State)
    requires Moves(s, e, o, s') && g in {Unmade, Unrun}
    ensures Tot(g, s'.threads) == Tot(g, s.threads) - Weigh(g, s.threads[e.t]) + Weigh(g, o.me)
  {
    var ts := s.threads[e.t := o.me];
    forall i | 0 <= i < |ts|
      ensures Weigh(g, s'.threads[i]) == Weigh(g, ts[i])
    {
      if i != e.t && Released(s, e, i) { WeighResumed(g, s.threads[i], s.threads[e.t].pc); }
    }
    TotUpdate(g, s.threads, e.t, o.me);
    TotSame(g, ts, s'.threads);
  }

  /** Waking and newer signals only add ready threads. */
  lemma ReadyGrows(cfg: Config, s: State, e: Event, o: Outcome, s': State, c: Cond)
    requires Moves(s, e, o, s') && Threads(cfg, s) && WaitRule(s.g, s.threads[e.t], o, e, c)
    ensures var r := Ready(c, SeqOf(s.g, c));
      Tot(Ready(c, SeqOf(s'.g, c)), s'.threads) >= Tot(r, s.threads) - Weigh(r, s.threads[e.t]) + Weigh(r, o.me)
  {
    var r, r' := Ready(c, SeqOf(s.g, c)), Ready(c, SeqOf(s'.g, c));
    forall i | 0 <= i < |s'.threads|
      ensures Weigh(r, if i == e.t then o.me else s.threads[i]) <= Weigh(r', s'.threads[i])
    {
      assert ThreadOk(s.g, s.threads[i]);
    }
    TotMove(r, s, e, o, s', r');
  }

  /** A wake that is owed reaches a sleeper as long as one still sleeps. */
  lemma Paid(cfg: Config, s: State, e: Event, o: Outcome, s': State, c: Cond, i: nat)
    requires Moves(s, e, o, s') && Threads(cfg, s) && WaitRule(s.g, s.threads[e.t], o, e, c)
    requires e.Exec? && s.threads[e.t].pc == Wake(c, false) && FairWake(Wake(c, false), e.w, s.threads)
    requires i < |s'.threads| && i != e.t && s'.threads[i].pc == CondParked(c)
    ensures var r := Ready(c, SeqOf(s.g, c));
      Tot(r, s'.threads) >= Tot(r, s.threads) - Weigh(r, s.threads[e.t]) + Weigh(r, o.me) + 1
  {
    var r := Ready(c, SeqOf(s.g, c));
    assert s.threads[i].pc == CondParked(c);
    assert e.w != e.t && Released(s, e, e.w);
    var u := s.threads[e.w];
    var u' := u.(pc := TryFast);
    assert s'.threads == s.threads[e.t := o.me][e.w := u'];
    assert ThreadOk(s.g, u);
    assert Weigh(r, u') == 1 && Weigh(r, u) == 0;
    TotUpdate(r, s.threads, e.t, o.me);
    TotUpdate(r, s.threads[e.t := o.me], e.w, u');
  }

  /** Whoever still sleeps after a single wake is parked. */
  lemma StillParked(cfg: Config, s: State, e: Event, o: Outcome, s': State, c: Cond, i: nat)
    requires Moves(s, e, o, s') && Threads(cfg, s) && WaitRule(s.g, s.threads[e.t], o, e, c)
    requires e.Exec? && s.threads[e.t].pc == Wake(c, false)
    requires i < |s'.threads| && Sleeps(s'.threads[i], c, SeqOf(s'.g, c))
    requires forall i :: 0 <= i < |s.threads| && Waiting(s.threads[i].pc, c) ==> s.threads[i].snap < SeqOf(s.g, c)
    ensures i != e.t && s'.threads[i].pc == CondParked(c) && SeqOf(s'.g, c) == SeqOf(s.g, c)
  {
  }

  /** With a sleeper left on `c`, the ready threads grow by the acting thread's change and
      by the one a single wake adds. */
  lemma ReadyAfter(cfg: Config, s: State, e: Event, o: Outcome, s': State, c: Cond, i: nat)
    requires Moves(s, e, o, s') && Threads(cfg, s) && WaitRule(s.g, s.threads[e.t], o, e, c)
    requires e.Exec? ==> FairWake(s.threads[e.t].pc, e.w, s.threads)
    requires i < |s'.threads| && Sleeps(s'.threads[i], c, SeqOf(s'.g, c)) && s.threads[e.t].pc != Snapshot(c)
    requires e.Exec? && s.threads[e.t].pc == Wake(c, false) ==>
      forall i :: 0 <= i < |s.threads| && Waiting(s.threads[i].pc, c) ==> s.threads[i].snap < SeqOf(s.g, c)
    ensures AnySleeps(s, c)
    ensures var r := Ready(c, SeqOf(s.g, c));
      Tot(Ready(c, SeqOf(s'.g, c)), s'.threads) >= Tot(r, s.threads) - Weigh(r, s.threads[e.t]) + Weigh(r, o.me)
        + (if e.Exec? && s.threads[e.t].pc == Wake(c, false) then 1 else 0)
  {
    SleptBefore(cfg, s, e, o, s', c, i);
    if e.Exec? && s.threads[e.t].pc == Wake(c, false) {
      StillParked(cfg, s, e, o, s', c, i);
      Paid(cfg, s, e, o, s', c, i);
    } else {
      ReadyGrows(cfg, s, e, o, s', c);
    }
  }

  lemma MoveSignal(cfg: Config, s: State, p: Pc, e: Event, o: Outcome, s': State, p': Pc, c: Cond)
    requires Moves(s, e, o, s') && Threads(cfg, s) && WaitRule(s.g, s.threads[e.t], o, e, c)
    requires SupplyRule(cfg, s.g, s.threads[e.t], o, e, c)
    requires s.threads[e.t].pc == Snapshot(c) ==> Supply(cfg, s'.g, c) == 0
    requires e.Exec? ==> FairWake(s.threads[e.t].pc, e.w, s.threads)
    requires e.Exec? && s.threads[e.t].pc == Wake(c, false) ==>
      forall i :: 0 <= i < |s.threads| && Waiting(s.threads[i].pc, c) ==> s.threads[i].snap < SeqOf(s.g, c)
    requires Owed(p, c) - Owed(HeldPc(s.threads[e.t].pc), c) == Owed(p', c) - Owed(HeldPc(o.me.pc), c)
    requires NoLostSignal(cfg, s, p, c) && Owed(p', c) >= 0
    ensures NoLostSignal(cfg, s', p', c)
  {
    TotTerm(Ready(c, SeqOf(s'.g, c)), s'.threads, 0);
    if AnySleeps(s', c) && Supply(cfg, s'.g, c) != 0 {
      var i :| 0 <= i < |s'.threads| && Sleeps(s'.threads[i], c, SeqOf(s'.g, c));
      ReadyAfter(cfg, s, e, o, s', c, i);
    }
  }

  lemma MoveClosed(cfg: Config, s: State, p: Pc, e: Event, o: Outcome, s': State, p': Pc)
    requires Moves(s, e, o, s') && Threads(cfg, s) && Closed(cfg, s, p)
    requires WaitRule(s.g, s.threads[e.t], o, e, NotEmpty) && CloseRule(cfg, s.g, s.threads[e.t], o)
    requires s'.g.consumed <= Total(cfg)
    requires InCritical(s.threads[e.t].pc) ==> e.Exec? && p == s.threads[e.t].pc && p' == HeldPc(o.me.pc)
    requires !InCritical(s.threads[e.t].pc) ==> s'.g.consumed == s.g.consumed && (p == p' || !Closing(p))
    requires s.threads[e.t].pc == Wake(NotEmpty, true) ==>
      forall i :: 0 <= i < |s.threads| && Waiting(s.threads[i].pc, NotEmpty) ==> s.threads[i].snap < s.g.seqNE
    ensures Closed(cfg, s', p')
  {
    if s'.g.consumed == Total(cfg) && !Closing(p') && AnySleeps(s', NotEmpty) {
      var i :| 0 <= i < |s'.threads| && Sleeps(s'.threads[i], NotEmpty, s'.g.seqNE);
      SleptBefore(cfg, s, e, o, s', NotEmpty, i);
    }
  }

  // ---- the invariant is inductive -----------------------------------------------------

  lemma InitInv(cfg: Config)
    requires cfg.size > 0
    ensures Inv(cfg, Init(cfg), -1) && Shaped(Init(cfg).g)
  {
    InitTable(cfg);
    InitData(cfg);
    InitSums(cfg);
  }

  lemma InitTable(cfg: Config)
    ensures var s := Init(cfg);
      Exclusive(s, -1) && Threads(cfg, s) && NoLostUnlock(s) && !AnySleeps(s, NotEmpty) && !AnySleeps(s, NotFull)
      && forall i :: 0 <= i < |s.threads| ==> s.threads[i].pc == Top
  {
  }

  lemma InitData(cfg: Config)
    requires cfg.size > 0
    ensures var g := Init(cfg).g; Shaped(g) && Ring(cfg, g, Finished) && Signals(cfg, g, Finished)
  {
  }

  lemma InitSums(cfg: Config)
    ensures Sums(cfg, Init(cfg))
  {
    var s := Init(cfg);
    InitUnmade(cfg, s.threads, 0);
    InitUnrun(cfg, s.threads, 0);
    assert s.threads[0..] == s.threads && cfg.workers[0..] == cfg.workers;
  }

  /** The producers' quotas add up to the total. */
  lemma {:induction false} InitUnmade(cfg: Config, ts: seq<Thread>, k: nat)
    requires |ts| == Population(cfg) && k <= |ts|
    requires forall i :: 0 <= i < |ts| ==> ts[i] == Thread(RoleOf(cfg, i), Top, 0, 0, 0)
    ensures k <= |cfg.workers| ==> Tot(Unmade, ts[k..]) == Total(cfg)
    ensures |cfg.workers| <= k <= |cfg.workers| + |cfg.producers| ==>
      Tot(Unmade, ts[k..]) == Sum(cfg.producers[k - |cfg.workers|..])
    ensures |cfg.workers| + |cfg.producers| <= k ==> Tot(Unmade, ts[k..]) == 0
    decreases |ts| - k
  {
    var j := k - |cfg.workers|;
    assert j == 0 ==> cfg.producers[j..] == cfg.producers;
    if k < |ts| {
      InitUnmade(cfg, ts, k + 1);
      assert ts[k..][0] == ts[k] && ts[k..][1..] == ts[k + 1..];
      if 0 <= j < |cfg.producers| {
        assert cfg.producers[j..][1..] == cfg.producers[j + 1..];
      }
    }
  }

  lemma {:induction false} InitUnrun(cfg: Config, ts: seq<Thread>, k: nat)
    requires |ts| == Population(cfg) && k <= |ts|
    requires forall i :: 0 <= i < |ts| ==> ts[i] == Thread(RoleOf(cfg, i), Top, 0, 0, 0)
    ensures k <= |cfg.workers| ==> Tot(Unrun, ts[k..]) == Sum(cfg.workers[k..])
    ensures |cfg.workers| <= k ==> Tot(Unrun, ts[k..]) == 0
    decreases |ts| - k
  {
    if k < |ts| {
      InitUnrun(cfg, ts, k + 1);
      assert ts[k..][0] == ts[k] && ts[k..][1..] == ts[k + 1..];
      if k < |cfg.workers| {
        assert cfg.workers[k..][1..] == cfg.workers[k + 1..];
      }
    }
  }

  lemma UnmadeTerms(cfg: Config, s: State, j: nat)
    requires Threads(cfg, s)
    ensures Tot(Unmade, s.threads) >= 0
    ensures j < |s.threads| ==> Tot(Unmade, s.threads) >= Weigh(Unmade, s.threads[j]) >= 0
  {
    forall i | 0 <= i < |s.threads| ensures Weigh(Unmade, s.threads[i]) >= 0 {
      assert ThreadOk(s.g, s.threads[i]);
    }
    TotTerm(Unmade, s.threads, j);
  }

  /** A producer about to fill a slot still owes an item, so the sequence is not exhausted. */
  lemma RoomToFill(cfg: Config, s: State, i: nat)
    requires Threads(cfg, s) && Sums(cfg, s) && i < |s.threads|
    ensures s.threads[i].pc == Fill ==> s.g.nextItem < Total(cfg)
  {
    UnmadeTerms(cfg, s, i);
    assert ThreadOk(s.g, s.threads[i]);
  }

  lemma StepTable(cfg: Config, s: State, h: int, e: Event)
    requires Legal(s, e) && Exclusive(s, h) && Threads(cfg, s) && NoLostUnlock(s)
    ensures var s' := Next(s, e); var h' := NewHolder(h, e, Out(s, e));
      Exclusive(s', h') && Threads(cfg, s') && NoLostUnlock(s')
  {
    StepMoves(s, e);
    var me, o, s' := s.threads[e.t], Out(s, e), Next(s, e);
    assert ThreadOk(s.g, me);
    StatementLock(s.g, me, e);
    StatementContend(s.g, me, e);
    StatementThread(s.g, me, e);
    MoveExclusive(s, h, e, o, s');
    MoveThreads(cfg, s, e, o, s');
    MoveUnlock(s, h, e, o, s');
  }

  /** The shared data, seen from the statement that just ran. */
  lemma OutData(cfg: Config, s: State, h: int, e: Event)
    requires Legal(s, e) && Inv(cfg, s, h)
    ensures var o := Out(s, e);
      if e.t == h then
        Ring(cfg, o.g, o.me.pc) && Branch(cfg, o.g, o.me.pc, o.me.reg) && Signals(cfg, o.g, o.me.pc)
      else o.g == s.g.(lock := o.g.lock) && (InCritical(o.me.pc) ==> o.me.pc == Check)
  {
    StepMoves(s, e);
    var me := s.threads[e.t];
    assert ThreadOk(s.g, me);
    StatementLock(s.g, me, e);
    if e.t != h {
      StatementQuiet(s.g, me, e);
    } else {
      RoomToFill(cfg, s, h);
      StatementSignals(cfg, s.g, me, e);
      if IsData(me.pc) && me.pc != Check { RingData(cfg, s.g, me); } else { RingSync(cfg, s.g, me, e); }
    }
  }

  lemma StepData(cfg: Config, s: State, h: int, e: Event)
    requires Legal(s, e) && Inv(cfg, s, h)
    ensures var s' := Next(s, e); var h' := NewHolder(h, e, Out(s, e));
      Exclusive(s', h') && var p := Inside(s', h');
      Ring(cfg, s'.g, p.pc) && Branch(cfg, s'.g, p.pc, p.reg) && Signals(cfg, s'.g, p.pc)
  {
    StepMoves(s, e);
    var o, s', h' := Out(s, e), Next(s, e), NewHolder(h, e, Out(s, e));
    StatementLock(s.g, s.threads[e.t], e);
    MoveExclusive(s, h, e, o, s');
    OutData(cfg, s, h, e);
    if e.t != h {
      DataUnmoved(cfg, s.g, Inside(s, h), o.g, Inside(s', h'));
    } else if h' < 0 {
      DataUnmoved(cfg, o.g, o.me, o.g, Inside(s', h'));
    }
  }

  /** Taking or leaving the lock does not touch the data. */
  lemma DataUnmoved(cfg: Config, g: Shared, me: Thread, g': Shared, me': Thread)
    requires Ring(cfg, g, me.pc) && Branch(cfg, g, me.pc, me.reg) && Signals(cfg, g, me.pc)
    requires g' == g.(lock := g'.lock) && (me' == me || (!InCritical(me.pc) && me'.pc in {Check, Finished}))
    ensures Ring(cfg, g', me'.pc) && Branch(cfg, g', me'.pc, me'.reg) && Signals(cfg, g', me'.pc)
  {
  }

  lemma StepSums(cfg: Config, s: State, h: int, e: Event)
    requires Legal(s, e) && Inv(cfg, s, h)
    ensures Sums(cfg, Next(s, e))
  {
    StepMoves(s, e);
    var me, o, s' := s.threads[e.t], Out(s, e), Next(s, e);
    assert ThreadOk(s.g, me);
    StatementSums(s.g, me, e);
    TotPlain(Unmade, s, e, o, s');
    TotPlain(Unrun, s, e, o, s');
  }

  lemma WakeAfterBump(g: Shared, me: Thread, e: Event)
    requires Shaped(g) && Acts(g, me, e) && Act(g, me, e).me.pc.Wake?
    ensures me.pc.Bump? && me.pc.c == Act(g, me, e).me.pc.c
  {
  }

  lemma StepOutdated(cfg: Config, s: State, h: int, e: Event)
    requires Legal(s, e) && Exclusive(s, h) && Threads(cfg, s) && Outdated(s, Inside(s, h).pc)
    ensures var s' := Next(s, e); var h' := NewHolder(h, e, Out(s, e));
      Exclusive(s', h') && Outdated(s', Inside(s', h').pc)
  {
    StepMoves(s, e);
    var me, o, s' := s.threads[e.t], Out(s, e), Next(s, e);
    StatementLock(s.g, me, e);
    MoveExclusive(s, h, e, o, s');
    var p := Inside(s', NewHolder(h, e, o)).pc;
    if p.Wake? {
      if e.t == h {
        WakeAfterBump(s.g, me, e);
      } else {
        StatementQuiet(s.g, me, e);
        assert p == Inside(s, h).pc;
      }
      StatementWaiting(s.g, me, e, p.c);
      MoveOutdated(cfg, s, e, o, s', p.c);
    }
  }

  lemma StepSignal(cfg: Config, s: State, h: int, e: Event, c: Cond)
    requires Legal(s, e) && Exclusive(s, h) && Threads(cfg, s)
    requires var p := Inside(s, h);
      Branch(cfg, s.g, p.pc, p.reg) && Outdated(s, p.pc) && NoLostSignal(cfg, s, p.pc, c)
    ensures var s' := Next(s, e); var h' := NewHolder(h, e, Out(s, e));
      Exclusive(s', h') && NoLostSignal(cfg, s', Inside(s', h').pc, c)
  {
    StepMoves(s, e);
    var me, o, s' := s.threads[e.t], Out(s, e), Next(s, e);
    var p := Inside(s, h).pc;
    assert ThreadOk(s.g, me);
    StatementLock(s.g, me, e);
    MoveExclusive(s, h, e, o, s');
    var p' := Inside(s', NewHolder(h, e, o)).pc;
    StatementWaiting(s.g, me, e, c);
    StatementSupply(cfg, s.g, me, e, c);
    MoveSignal(cfg, s, p, e, o, s', p', c);
  }

  lemma OutConsumed(cfg: Config, s: State, h: int, e: Event)
    requires Legal(s, e) && Inv(cfg, s, h)
    ensures Out(s, e).g.consumed <= Total(cfg)
    ensures e.t != h ==> Out(s, e).g.consumed == s.g.consumed
    ensures e.t != h && InCritical(Out(s, e).me.pc) ==> Out(s, e).me.pc == Check
  {
    OutData(cfg, s, h, e);
  }

  lemma StepClosed(cfg: Config, s: State, h: int, e: Event)
    requires Legal(s, e) && Exclusive(s, h) && Threads(cfg, s) && |s.g.seen| == Total(cfg)
    requires var p := Inside(s, h); Branch(cfg, s.g, p.pc, p.reg) && Closed(cfg, s, p.pc) && Outdated(s, p.pc)
    requires Out(s, e).g.consumed <= Total(cfg) && (e.t != h ==> Out(s, e).g.consumed == s.g.consumed)
    requires e.t != h && InCritical(Out(s, e).me.pc) ==> Out(s, e).me.pc == Check
    ensures var s' := Next(s, e); var h' := NewHolder(h, e, Out(s, e));
      Exclusive(s', h') && Closed(cfg, s', Inside(s', h').pc)
  {
    StepMoves(s, e);
    var me, o, s' := s.threads[e.t], Out(s, e), Next(s, e);
    assert ThreadOk(s.g, me);
    StatementLock(s.g, me, e);
    MoveExclusive(s, h, e, o, s');
    StatementWaiting(s.g, me, e, NotEmpty);
    StatementClose(cfg, s.g, me, e);
    MoveClosed(cfg, s, Inside(s, h).pc, e, o, s', Inside(s', NewHolder(h, e, o)).pc);
  }

  /** Every step, timeouts and full tables included, keeps the whole invariant. */
  lemma StepInv(cfg: Config, s: State, h: int, e: Event)
    requires Legal(s, e) && Inv(cfg, s, h)
    ensures Inv(cfg, Next(s, e), NewHolder(h, e, Out(s, e)))
  {
    StepTable(cfg, s, h, e);
    StepData(cfg, s, h, e);
    StepSums(cfg, s, h, e);
    StepOutdated(cfg, s, h, e);
    StepSignal(cfg, s, h, e, NotEmpty);
    StepSignal(cfg, s, h, e, NotFull);
    OutConsumed(cfg, s, h, e);
    StepClosed(cfg, s, h, e);
  }
}
