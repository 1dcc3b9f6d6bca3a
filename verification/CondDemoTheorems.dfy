/**
  The headline results of the demo, over every configuration and every interleaving:
  mutual exclusion from an ownerless lock word, exactly-once delivery in order, freedom
  from deadlock without any timeout, and a bound on the length of every run.
*/
module CondDemoTheorems {
  import opened CondDemo
  import opened CondDemoSafety
  import Modular

  // ---- whole runs -----------------------------------------------------------------

  lemma {:induction false} RunInv(cfg: Config, s: State, h: int, es: seq<Event>) returns (h': int)
    requires Inv(cfg, s, h) && IsRun(s, es)
    ensures Inv(cfg, Final(s, es), h')
    decreases |es|
  {
    if es == [] {
      h' := h;
    } else {
      StepInv(cfg, s, h, es[0]);
      h' := RunInv(cfg, Next(s, es[0]), NewHolder(h, es[0], Out(s, es[0])), es[1..]);
    }
  }

  lemma Reached(cfg: Config, es: seq<Event>) returns (h: int)
    requires cfg.size > 0 && IsRun(Init(cfg), es)
    ensures Inv(cfg, Final(Init(cfg), es), h)
  {
    InitInv(cfg);
    h := RunInv(cfg, Init(cfg), -1, es);
  }

  /** Two threads are never inside together, although nothing records who holds the lock. */
  lemma MutualExclusion(cfg: Config, es: seq<Event>, i: nat, j: nat)
    requires cfg.size > 0 && IsRun(Init(cfg), es)
    requires var s := Final(Init(cfg), es);
      i < |s.threads| && j < |s.threads| && InCritical(s.threads[i].pc) && InCritical(s.threads[j].pc)
    ensures i == j && Final(Init(cfg), es).g.lock == 1
  {
    var h := Reached(cfg, es);
  }

  // ---- exactly once, in order -----------------------------------------------------

  function Upto(lo: int, hi: int): seq<int>
    decreases hi - lo
  { if lo >= hi then [] else [lo] + Upto(lo + 1, hi) }

  /** Items handed over so far: the one being marked is counted in `consumed` already. */
  function Marked(s: State, h: int): int
    requires -1 <= h < |s.threads|
  { if Inside(s, h).pc == Mark then s.g.consumed - 1 else s.g.consumed }

  lemma StatementMarked(cfg: Config, g: Shared, me: Thread, e: Event)
    requires Shaped(g) && e.Exec? && Branch(cfg, g, me.pc, me.reg)
    ensures var o := Act(g, me, e);
      o.g.consumed == g.consumed + (if me.pc == Tally then 1 else 0)
      && (o.me.pc == Mark && InCritical(me.pc) ==> me.pc == Tally) && (me.pc == Tally ==> o.me.pc == Mark)
  {
  }

  lemma StepMarked(cfg: Config, s: State, h: int, e: Event)
    requires Legal(s, e) && Exclusive(s, h) && Branch(cfg, s.g, Inside(s, h).pc, Inside(s, h).reg)
    ensures Exclusive(Next(s, e), NewHolder(h, e, Out(s, e)))
    ensures var me := s.threads[e.t]; var h' := NewHolder(h, e, Out(s, e));
      if e.Exec? && me.pc == Mark then me.reg == Marked(s, h) && Marked(Next(s, e), h') == Marked(s, h) + 1
      else Marked(Next(s, e), h') == Marked(s, h)
  {
    StepMoves(s, e);
    var me := s.threads[e.t];
    StatementLock(s.g, me, e);
    MoveExclusive(s, h, e, Out(s, e), Next(s, e));
    if e.t == h { StatementMarked(cfg, s.g, me, e); } else { StatementQuiet(s.g, me, e); }
  }

  lemma StepDelivers(cfg: Config, s: State, h: int, e: Event)
    requires Legal(s, e) && Inv(cfg, s, h)
    ensures var s', h' := Next(s, e), NewHolder(h, e, Out(s, e));
      Inv(cfg, s', h')
      && if e.Exec? && s.threads[e.t].pc == Mark
         then s.threads[e.t].reg == Marked(s, h) && Marked(s', h') == Marked(s, h) + 1
         else Marked(s', h') == Marked(s, h)
  {
    StepInv(cfg, s, h, e);
    StepMarked(cfg, s, h, e);
  }

  lemma {:induction false} RunDelivered(cfg: Config, s: State, h: int, es: seq<Event>) returns (h': int)
    requires Inv(cfg, s, h) && IsRun(s, es)
    ensures Inv(cfg, Final(s, es), h') && Marked(s, h) <= Marked(Final(s, es), h')
    ensures Delivered(s, es) == Upto(Marked(s, h), Marked(Final(s, es), h'))
    decreases |es|
  {
    if es == [] {
      h' := h;
    } else {
      StepDelivers(cfg, s, h, es[0]);
      h' := RunDelivered(cfg, Next(s, es[0]), NewHolder(h, es[0], Out(s, es[0])), es[1..]);
    }
  }

  /** The k-th live item of the ring, counted from the head. */
  function RingAt(g: Shared, k: int): int
    requires |g.buf| > 0
  { g.buf[(g.head + k) % |g.buf|] }

  /** The buffer is the queue of items produced and not yet consumed, and `seen` marks
      exactly the consumed ones. */
  predicate Consistent(cfg: Config, g: Shared) {
    && |g.buf| == cfg.size > 0 && |g.seen| == Total(cfg)
    && g.consumed + g.count == g.nextItem <= Total(cfg)
    && 0 <= g.count <= cfg.size
    && g.tail == (g.head + g.count) % cfg.size
    && (forall k :: 0 <= k < g.count ==> RingAt(g, k) == g.consumed + k)
    && (forall k :: 0 <= k < |g.seen| ==> (g.seen[k] <==> k < g.consumed))
  }

  lemma RingAtIs(cfg: Config, g: Shared, k: nat)
    requires Ring(cfg, g, Finished) && k < g.count
    ensures RingAt(g, k) == g.consumed + k
  {
    Modular.ShiftRemainder(g.consumed, k, cfg.size);
    assert g.buf[Slot(g.consumed + k, cfg.size)] == g.consumed + k;
  }

  lemma FreeRing(cfg: Config, g: Shared)
    requires Ring(cfg, g, Finished)
    ensures Consistent(cfg, g)
  {
    Modular.ShiftRemainder(g.consumed, g.count, cfg.size);
    forall k | 0 <= k < g.count ensures RingAt(g, k) == g.consumed + k { RingAtIs(cfg, g, k); }
  }

  /** Over every interleaving, spurious wakes included, consumers receive 0, 1, 2, ... in
      order: nothing lost, nothing twice; and whenever the lock is free the ring and the
      counters agree with that. */
  lemma ExactlyOnce(cfg: Config, es: seq<Event>)
    requires cfg.size > 0 && IsRun(Init(cfg), es)
    ensures exists m :: 0 <= m <= Total(cfg) && Delivered(Init(cfg), es) == Upto(0, m)
    ensures var g := Final(Init(cfg), es).g;
      g.lock == 0 ==> Consistent(cfg, g) && Delivered(Init(cfg), es) == Upto(0, g.consumed)
  {
    InitInv(cfg);
    var h := RunDelivered(cfg, Init(cfg), -1, es);
    var s := Final(Init(cfg), es);
    assert 0 <= Marked(s, h) <= Total(cfg);
    if s.g.lock == 0 { FreeRing(cfg, s.g); }
  }

  // ---- no deadlock ----------------------------------------------------------------

  lemma AwakeThread(s: State, t: nat)
    requires Shaped(s.g) && t < |s.threads| && !Blocked(s.threads[t].pc)
    ensures CanStep(s)
  {
    var pc := s.threads[t].pc;
    if IsWake(pc) && AnyAt(s.threads, Queue(pc)) {
      var w :| 0 <= w < |s.threads| && s.threads[w].pc == Queue(pc);
      assert Legal(s, Exec(t, w));
    } else {
      assert Legal(s, Exec(t, 0));
    }
  }

  lemma NobodyParked(s: State, i: nat)
    requires NoLostUnlock(s) && s.g.lock == 0 && i < |s.threads|
    requires forall i :: 0 <= i < |s.threads| ==> Blocked(s.threads[i].pc)
    ensures s.threads[i].pc != Parked
  {
  }

  /** When nobody can run, whoever sleeps on a condition has nothing to be woken for. */
  lemma Quiescent(cfg: Config, s: State, c: Cond)
    requires Threads(cfg, s) && NoLostSignal(cfg, s, Finished, c) && NoLostUnlock(s) && s.g.lock == 0
    requires forall i :: 0 <= i < |s.threads| ==> Blocked(s.threads[i].pc)
    ensures AnyAt(s.threads, CondParked(c)) ==> AnySleeps(s, c) && Supply(cfg, s.g, c) <= 0
  {
    var r := Ready(c, SeqOf(s.g, c));
    forall i | 0 <= i < |s.threads| ensures Weigh(r, s.threads[i]) == 0 {
      NobodyParked(s, i);
      assert ThreadOk(s.g, s.threads[i]);
      BlockedIsIdle(s.g, s.threads[i], c);
    }
    TotZero(r, s.threads);
    if AnyAt(s.threads, CondParked(c)) { ParkedSleeps(s, c); }
  }

  lemma BlockedIsIdle(g: Shared, th: Thread, c: Cond)
    requires ThreadOk(g, th) && Blocked(th.pc) && th.pc != Parked
    ensures Weigh(Ready(c, SeqOf(g, c)), th) == 0
  {
  }

  lemma ParkedSleeps(s: State, c: Cond)
    requires AnyAt(s.threads, CondParked(c))
    ensures AnySleeps(s, c)
  {
    var j :| 0 <= j < |s.threads| && s.threads[j].pc == CondParked(c);
    assert Sleeps(s.threads[j], c, SeqOf(s.g, c));
  }

  lemma ProducersDone(cfg: Config, s: State)
    requires Threads(cfg, s) && Sums(cfg, s)
    requires forall i :: 0 <= i < |s.threads| && s.threads[i].role.Producer? ==> s.threads[i].pc == Finished
    ensures s.g.nextItem == Total(cfg)
  {
    forall i | 0 <= i < |s.threads| ensures Weigh(Unmade, s.threads[i]) == 0 {
      assert ThreadOk(s.g, s.threads[i]);
    }
    TotZero(Unmade, s.threads);
  }

  /** A producer asleep still owes an item, so the items are not exhausted. */
  lemma SleeperOwes(cfg: Config, s: State, i: nat)
    requires Threads(cfg, s) && Sums(cfg, s) && i < |s.threads| && s.threads[i].pc == CondParked(NotFull)
    ensures s.g.nextItem < Total(cfg)
  {
    UnmadeTerms(cfg, s, i);
    assert ThreadOk(s.g, s.threads[i]);
  }

  /** The invariant when no thread is inside, cut down to what deadlock is about. */
  predicate Resting(cfg: Config, s: State) {
    Threads(cfg, s) && NoLostUnlock(s) && Sums(cfg, s) && s.g.lock == 0
    && 0 <= s.g.consumed <= s.g.nextItem <= Total(cfg) && s.g.count == s.g.nextItem - s.g.consumed
    && cfg.size > 0 && Closed(cfg, s, Finished)
    && NoLostSignal(cfg, s, Finished, NotEmpty) && NoLostSignal(cfg, s, Finished, NotFull)
    && forall i :: 0 <= i < |s.threads| ==> Blocked(s.threads[i].pc)
  }

  lemma LastConsumer(cfg: Config, s: State)
    requires Resting(cfg, s) && cfg.consumers > 0
    ensures AnyAt(s.threads, CondParked(NotEmpty)) || s.g.consumed == Total(cfg)
  {
    var i := |s.threads| - 1;
    NobodyParked(s, i);
    assert s.threads[i].role == Consumer && ThreadOk(s.g, s.threads[i]) && Blocked(s.threads[i].pc);
  }

  /** A producer cannot be left asleep. */
  lemma NoProducerLeft(cfg: Config, s: State, i: nat)
    requires Resting(cfg, s) && (cfg.consumers > 0 || Total(cfg) <= cfg.size) && i < |s.threads|
    ensures s.threads[i].pc != CondParked(NotFull)
  {
    if cfg.consumers > 0 { LastConsumer(cfg, s); }
    Quiescent(cfg, s, NotFull);
    Quiescent(cfg, s, NotEmpty);
    if s.threads[i].pc == CondParked(NotFull) { SleeperOwes(cfg, s, i); }
  }

  /** A consumer cannot be left asleep once the producers are gone. */
  lemma NoConsumerLeft(cfg: Config, s: State, i: nat)
    requires Resting(cfg, s) && i < |s.threads|
    requires forall j :: 0 <= j < |s.threads| ==> s.threads[j].pc != CondParked(NotFull)
    ensures s.threads[i].pc != CondParked(NotEmpty)
  {
    if s.threads[i].pc == CondParked(NotEmpty) {
      assert AnyAt(s.threads, CondParked(NotEmpty));
      Quiescent(cfg, s, NotEmpty);
      NothingLeftToMake(cfg, s);
    }
  }

  lemma NothingLeftToMake(cfg: Config, s: State)
    requires Threads(cfg, s) && NoLostUnlock(s) && Sums(cfg, s) && s.g.lock == 0
    requires forall i :: 0 <= i < |s.threads| ==> Blocked(s.threads[i].pc)
    requires forall j :: 0 <= j < |s.threads| ==> s.threads[j].pc != CondParked(NotFull)
    ensures s.g.nextItem == Total(cfg)
  {
    forall j | 0 <= j < |s.threads| && s.threads[j].role.Producer? ensures s.threads[j].pc == Finished {
      NobodyParked(s, j);
      assert ThreadOk(s.g, s.threads[j]) && Blocked(s.threads[j].pc);
    }
    ProducersDone(cfg, s);
  }

  lemma StuckIsDone(cfg: Config, s: State)
    requires Resting(cfg, s) && (cfg.consumers > 0 || Total(cfg) <= cfg.size)
    ensures AllDone(s)
  {
    forall i | 0 <= i < |s.threads| ensures s.threads[i].pc != CondParked(NotFull) {
      NoProducerLeft(cfg, s, i);
    }
    forall i | 0 <= i < |s.threads| ensures s.threads[i].pc == Finished {
      NobodyParked(s, i);
      NoConsumerLeft(cfg, s, i);
      assert Blocked(s.threads[i].pc);
    }
  }

  /** With every thread blocked nobody is inside. */
  lemma BlockedRests(cfg: Config, s: State, h: int)
    requires Inv(cfg, s, h) && forall i :: 0 <= i < |s.threads| ==> Blocked(s.threads[i].pc)
    ensures Resting(cfg, s)
  {
  }

  lemma StuckOrStep(cfg: Config, s: State, h: int)
    requires Inv(cfg, s, h) && Shaped(s.g) && (cfg.consumers > 0 || Total(cfg) <= cfg.size)
    ensures AllDone(s) || CanStep(s)
  {
    if t :| 0 <= t < |s.threads| && !Blocked(s.threads[t].pc) {
      AwakeThread(s, t);
    } else {
      BlockedRests(cfg, s, h);
      StuckIsDone(cfg, s);
    }
  }

  lemma InvShaped(cfg: Config, s: State, h: int)
    requires Inv(cfg, s, h)
    ensures Shaped(s.g)
  {
  }

  /** Deadlock freedom without timeouts: with a consumer, or with room for everything, some
      thread can always take an ordinary step until all of them have finished. */
  lemma NoDeadlock(cfg: Config, es: seq<Event>)
    requires cfg.size > 0 && IsRun(Init(cfg), es) && (cfg.consumers > 0 || Total(cfg) <= cfg.size)
    ensures var s := Final(Init(cfg), es); AllDone(s) || CanStep(s)
  {
    var h := Reached(cfg, es);
    InvShaped(cfg, Final(Init(cfg), es), h);
    StuckOrStep(cfg, Final(Init(cfg), es), h);
  }

  /** The condition is exact: with nobody to consume and more items than slots, no run ever
      lets all threads finish. */
  lemma StarvedWithoutConsumers(cfg: Config, es: seq<Event>)
    requires cfg.size > 0 && IsRun(Init(cfg), es) && cfg.consumers == 0 && Total(cfg) > cfg.size
    ensures !AllDone(Final(Init(cfg), es))
  {
    InitTable(cfg);
    ConsumedNeedsConsumer(cfg, Init(cfg), es);
    var h := Reached(cfg, es);
    if AllDone(Final(Init(cfg), es)) { DoneSums(cfg, Final(Init(cfg), es), h); }
  }

  /** What the sums say when every thread has finished. */
  lemma DoneSums(cfg: Config, s: State, h: int)
    requires Inv(cfg, s, h) && AllDone(s)
    ensures h == -1 && s.g.nextItem == Total(cfg) && s.g.counter == Sum(cfg.workers)
    ensures s.g.count == Total(cfg) - s.g.consumed <= cfg.size && |s.g.seen| == Total(cfg)
    ensures forall k :: 0 <= k < |s.g.seen| ==> (s.g.seen[k] <==> k < s.g.consumed)
    ensures cfg.consumers > 0 ==> s.g.consumed == Total(cfg)
  {
    ProducersDone(cfg, s);
    WorkersDone(cfg, s);
    if cfg.consumers > 0 { assert s.threads[|s.threads| - 1].role.Consumer?; }
  }

  lemma WorkersDone(cfg: Config, s: State)
    requires Threads(cfg, s) && Sums(cfg, s) && AllDone(s)
    ensures s.g.counter == Sum(cfg.workers)
  {
    forall i | 0 <= i < |s.threads| ensures Weigh(Unrun, s.threads[i]) == 0 {
      assert ThreadOk(s.g, s.threads[i]);
    }
    TotZero(Unrun, s.threads);
  }

  lemma {:induction false} ConsumedNeedsConsumer(cfg: Config, s: State, es: seq<Event>)
    requires IsRun(s, es) && Threads(cfg, s) && cfg.consumers == 0
    ensures Final(s, es).g.consumed == s.g.consumed
    decreases |es|
  {
    if es != [] {
      var e := es[0];
      StepMoves(s, e);
      assert ThreadOk(s.g, s.threads[e.t]);
      StatementThread(s.g, s.threads[e.t], e);
      MoveThreads(cfg, s, e, Out(s, e), Next(s, e));
      ConsumedNeedsConsumer(cfg, Next(s, e), es[1..]);
    }
  }

  /** When every thread has been joined both final checks of the demo hold: the counter is
      exact, every item was consumed and every item was seen. */
  lemma FinalChecks(cfg: Config, es: seq<Event>)
    requires cfg.size > 0 && IsRun(Init(cfg), es) && AllDone(Final(Init(cfg), es))
    requires cfg.consumers > 0 || Total(cfg) == 0
    ensures var g := Final(Init(cfg), es).g;
      g.counter == Sum(cfg.workers) && g.consumed == Total(cfg) && g.count == 0
      && (forall k :: 0 <= k < |g.seen| ==> g.seen[k]) && |g.seen| == Total(cfg)
      && Delivered(Init(cfg), es) == Upto(0, Total(cfg))
  {
    InitInv(cfg);
    var h := RunDelivered(cfg, Init(cfg), -1, es);
    DoneSums(cfg, Final(Init(cfg), es), h);
  }

  /** The demo's own expectation: equal shares multiply. */
  lemma {:induction false} EqualShares(n: nat, k: nat)
    ensures Sum(seq(n, _ => k)) == n * k
  {
    if n > 0 {
      assert seq(n, _ => k)[1..] == seq(n - 1, _ => k);
      EqualShares(n - 1, k);
    }
  }

  // ---- termination ----------------------------------------------------------------

  // Weights of the termination measure, for n threads.
  function Flip(n: nat): nat { 4 * n + 4 }            // a change of the lock word re-arms every contender
  function Turn(n: nat): nat { 3 * Flip(n) + 20 }     // one acquisition and what it leads to without a signal
  function Signal(n: nat): nat { (n + 1) * (Turn(n) + 2 * Flip(n) + 20) }

  /** An upper bound on what a thread can still do on its own; it falls with every
      statement, and rises only when the lock word flips or a signal is sent. */
  function RankOf(n: nat, lock: int, e: nat, f: nat, th: Thread): int {
    var T, F := Turn(n), Flip(n);
    match th.pc
    case Top => T + 6
    case TryFast => T + (if lock == 1 then 4 else 1)
    case TrySlow => T + (if lock == 1 then 3 else 1)
    case Spin => T + 2
    case Arm => T + (if lock == 1 then 1 else 3)
    case Parked => T
    case Check => 2 * F + 17
    case Test => 2 * F + 16
    case Load => 11 case Store => 10
    case Fill => 13 case AdvanceTail => 12 case CountUp => 11
    case Take => 15 case AdvanceHead => 14 case CountDown => 13 case Tally => 12 case Mark => 11
    case Last => T + 2 * F + 15
    case Bump(_, all) => if all then T + 2 * F + 14 else 10
    case Wake(_, all) => if all then T + 2 * F + 13 else T + 2 * F + 16
    case Snapshot(_) => 2 * F + 8
    case Release(k) => F + 1 + UnlockRank(k, T, F) + (if Stale(th, e, f) then T + 5 else 0)
    case ReleaseWake(k) => UnlockRank(k, T, F) + (if Stale(th, e, f) then T + 5 else 0)
    case CondArm(_) => 1 + (if Stale(th, e, f) then T + 5 else 0)
    case CondParked(_) => if Stale(th, e, f) then T + 5 else 0
    case Finished => 0
  }

  /** Waiting on a word that has moved since the snapshot. */
  predicate Stale(th: Thread, e: nat, f: nat) {
    (Waiting(th.pc, NotEmpty) && th.snap != e) || (Waiting(th.pc, NotFull) && th.snap != f)
  }

  function UnlockRank(k: After, T: nat, F: nat): nat {
    match k
    case Sleep(_) => F + 2
    case Again => T + F + 7
    case Leave => F + 1
  }

  function Rank(n: nat, g: Shared, th: Thread): int { RankOf(n, g.lock, g.seqNE, g.seqNF, th) }

  function Ranks(n: nat, g: Shared, ts: seq<Thread>): seq<int> {
    seq(|ts|, i requires 0 <= i < |ts| => Rank(n, g, ts[i]))
  }

  function Added(a: seq<int>): int { if a == [] then 0 else a[0] + Added(a[1..]) }

  /** Entry t may grow by d and every other entry by k. */
  lemma {:induction false} AddedGrowth(a: seq<int>, b: seq<int>, t: nat, d: int, k: int)
    requires |a| == |b|
    requires forall i :: 0 <= i < |a| ==> b[i] <= a[i] + (if i == t then d else k)
    ensures Added(b) <= Added(a) + (if t < |a| then d - k else 0) + k * |a|
  {
    if a != [] {
      AddedGrowth(a[1..], b[1..], if t == 0 then |a| else t - 1, d, k);
      assert k * |a| == k + k * |a[1..]|;
    }
  }

  lemma {:induction false} AddedBounds(a: seq<int>, top: nat)
    requires forall i :: 0 <= i < |a| ==> 0 <= a[i] <= top
    ensures 0 <= Added(a) <= top * |a|
  {
    if a != [] {
      AddedBounds(a[1..], top);
      assert top * |a| == top + top * |a[1..]|;
    }
  }

  /** Statements that spend one unit of the bounded supply of signals and increments. */
  predicate Spends(pc: Pc) { pc.Bump? || pc == Store }

  /** Statements after which other threads may have to look at the lock word again. */
  predicate Flips(pc: Pc, g: Shared, o: Outcome) { g.lock != o.g.lock || pc.ReleaseWake? }

  /** A statement that spends nothing lowers its thread's rank, and by more than all the
      other ranks can rise together when it flips the lock word or wakes a contender. */
  predicate RankRule(n: nat, g: Shared, me: Thread, o: Outcome) {
    if Spends(me.pc) then Rank(n, o.g, o.me) <= Rank(n, g, me) + Turn(n) + 2 * Flip(n) + 8
    else Rank(n, o.g, o.me) + (if Flips(me.pc, g, o) then 3 * n else 0) < Rank(n, g, me)
  }

  lemma DataRank(n: nat, g: Shared, me: Thread)
    requires Shaped(g) && IsData(me.pc) && 0 <= g.lock <= 1
    ensures RankRule(n, g, me, DataStatement(g, me))
  {
  }

  lemma LockingRank(n: nat, g: Shared, me: Thread)
    requires Shaped(g) && Locking(me.pc) && 0 <= g.lock <= 1
    ensures RankRule(n, g, me, SyncStatement(g, me))
  {
  }

  lemma HoldingRank(n: nat, g: Shared, me: Thread)
    requires Shaped(g) && !IsData(me.pc) && !Blocked(me.pc) && !Locking(me.pc)
    requires 0 <= g.lock <= 1 && RoleFits(me.role, me.pc)
    ensures RankRule(n, g, me, SyncStatement(g, me))
  {
  }

  lemma SyncRank(n: nat, g: Shared, me: Thread)
    requires Shaped(g) && !IsData(me.pc) && !Blocked(me.pc) && 0 <= g.lock <= 1 && RoleFits(me.role, me.pc)
    ensures RankRule(n, g, me, SyncStatement(g, me))
  {
    if Locking(me.pc) { LockingRank(n, g, me); } else { HoldingRank(n, g, me); }
  }

  /** Another thread's rank rises by at most 3 when the lock word flips, and by one turn
      when a sequence word moves. */
  lemma OtherRank(n: nat, g: Shared, g': Shared, th: Thread)
    requires 0 <= g.lock <= 1 && 0 <= g'.lock <= 1
    ensures Rank(n, g', th) <= Rank(n, g, th) + Turn(n) + 5
    ensures g.seqNE == g'.seqNE && g.seqNF == g'.seqNF ==>
      Rank(n, g', th) <= Rank(n, g, th) + (if g.lock != g'.lock then 3 else 0)
    ensures th.pc == Parked ==> Rank(n, g', th.(pc := Spin)) <= Rank(n, g, th) + 3
    ensures th.pc.CondParked? && th.snap < SeqOf(g, th.pc.c) && SeqOf(g, th.pc.c) == SeqOf(g', th.pc.c) ==>
      Rank(n, g', th.(pc := TryFast)) <= Rank(n, g, th)
  {
  }

  /** Signals and increments still to come. */
  function Budget(cfg: Config, g: Shared): int {
    2 * Total(cfg) + 1 - g.seqNE - g.seqNF + Sum(cfg.workers) - g.counter
  }

  function Measure(cfg: Config, s: State): int {
    var n := Population(cfg);
    Signal(n) * Budget(cfg, s.g) + Added(Ranks(n, s.g, s.threads))
  }

  predicate RiseAtMost(n: nat, s: State, s': State, t: nat, k: int)
    requires |s.threads| == |s'.threads|
  {
    forall i :: 0 <= i < |s.threads| && i != t ==> Rank(n, s'.g, s'.threads[i]) <= Rank(n, s.g, s.threads[i]) + k
  }

  lemma MoveRise(n: nat, s: State, p: Pc, e: Event, o: Outcome, s': State)
    requires Moves(s, e, o, s') && e.Exec? && 0 <= s.g.lock <= 1 && 0 <= s'.g.lock <= 1
    requires var pc := s.threads[e.t].pc; InCritical(pc) ==> p == pc
    requires Outdated(s, p)
    requires WaitRule(s.g, s.threads[e.t], o, e, NotEmpty) && WaitRule(s.g, s.threads[e.t], o, e, NotFull)
    ensures var pc := s.threads[e.t].pc;
      RiseAtMost(n, s, s', e.t, if Spends(pc) then Turn(n) + 5 else if Flips(pc, s.g, o) then 3 else 0)
  {
    var pc := s.threads[e.t].pc;
    forall i | 0 <= i < |s.threads| && i != e.t
      ensures Rank(n, s'.g, s'.threads[i]) <= Rank(n, s.g, s.threads[i])
        + (if Spends(pc) then Turn(n) + 5 else if Flips(pc, s.g, o) then 3 else 0)
    {
      OtherRank(n, s.g, s'.g, s.threads[i]);
    }
  }

  lemma SignalPays(n: nat, b: int)
    ensures Signal(n) * (b - 1) == Signal(n) * b - Signal(n)
    ensures Signal(n) > (Turn(n) + 5) * n + Turn(n) + 2 * Flip(n) + 8
  {
    var x := Turn(n) + 2 * Flip(n) + 20;
    assert (n + 1) * x == n * x + x;
    assert n * x == n * (Turn(n) + 5) + n * (2 * Flip(n) + 15);
  }

  lemma MeasureMove(cfg: Config, s: State, e: Event, o: Outcome, s': State, k: nat, d: int)
    requires Moves(s, e, o, s') && |s.threads| == Population(cfg)
    requires RiseAtMost(|s.threads|, s, s', e.t, k)
    requires Rank(|s.threads|, o.g, o.me) <= Rank(|s.threads|, s.g, s.threads[e.t]) + d
    ensures var n := |s.threads|; Added(Ranks(n, s'.g, s'.threads)) <= Added(Ranks(n, s.g, s.threads)) + d - k + k * n
  {
    AddedGrowth(Ranks(|s.threads|, s.g, s.threads), Ranks(|s.threads|, s'.g, s'.threads), e.t, d, k);
  }

  lemma StatementBudget(cfg: Config, g: Shared, me: Thread, e: Event)
    requires Shaped(g) && e.Exec? && !Blocked(me.pc) && (me.pc == Store ==> me.reg == g.counter)
    ensures Budget(cfg, Act(g, me, e).g) == Budget(cfg, g) - (if Spends(me.pc) then 1 else 0)
  {
  }

  /** Every ordinary step, by whichever thread, lowers the measure. */
  lemma StepDescends(cfg: Config, s: State, h: int, e: Event)
    requires Legal(s, e) && Inv(cfg, s, h) && e.Exec?
    ensures Measure(cfg, Next(s, e)) < Measure(cfg, s)
  {
    StepMoves(s, e);
    var n := |s.threads|;
    var me, o, s' := s.threads[e.t], Out(s, e), Next(s, e);
    assert ThreadOk(s.g, me);
    StatementLock(s.g, me, e);
    StatementWaiting(s.g, me, e, NotEmpty);
    StatementWaiting(s.g, me, e, NotFull);
    StatementBudget(cfg, s.g, me, e);
    if IsData(me.pc) { DataRank(n, s.g, me); } else { SyncRank(n, s.g, me); }
    MoveRise(n, s, Inside(s, h).pc, e, o, s');
    DescendsBy(cfg, s, e, o, s');
  }

  lemma DescendsBy(cfg: Config, s: State, e: Event, o: Outcome, s': State)
    requires Moves(s, e, o, s') && |s.threads| == Population(cfg)
    requires RankRule(|s.threads|, s.g, s.threads[e.t], o)
    requires var n, pc := |s.threads|, s.threads[e.t].pc;
      RiseAtMost(n, s, s', e.t, if Spends(pc) then Turn(n) + 5 else if Flips(pc, s.g, o) then 3 else 0)
    requires Budget(cfg, s'.g) == Budget(cfg, s.g) - (if Spends(s.threads[e.t].pc) then 1 else 0)
    ensures Measure(cfg, s') < Measure(cfg, s)
  {
    var n, me := |s.threads|, s.threads[e.t];
    var d := Rank(n, o.g, o.me) - Rank(n, s.g, me);
    SignalPays(n, Budget(cfg, s.g));
    if Spends(me.pc) {
      MeasureMove(cfg, s, e, o, s', Turn(n) + 5, d);
    } else if Flips(me.pc, s.g, o) {
      MeasureMove(cfg, s, e, o, s', 3, d);
    } else {
      MeasureMove(cfg, s, e, o, s', 0, d);
    }
  }

  lemma BudgetFloor(cfg: Config, s: State, p: Pc)
    requires Threads(cfg, s) && Sums(cfg, s) && Ring(cfg, s.g, p) && Signals(cfg, s.g, p)
    ensures Budget(cfg, s.g) >= 0
  {
    forall i | 0 <= i < |s.threads| ensures Weigh(Unrun, s.threads[i]) >= 0 {
      assert ThreadOk(s.g, s.threads[i]);
    }
    TotTerm(Unrun, s.threads, 0);
  }

  lemma MeasureFloor(cfg: Config, s: State, h: int)
    requires Inv(cfg, s, h)
    ensures Measure(cfg, s) >= 0
  {
    var n, b := Population(cfg), Budget(cfg, s.g);
    BudgetFloor(cfg, s, Inside(s, h).pc);
    RankBounds(n, s.g, s.threads);
    AddedBounds(Ranks(n, s.g, s.threads), 2 * Turn(n) + 3 * Flip(n) + 20);
    Modular.ProductFloor(Signal(n), b);
  }

  lemma RankBounds(n: nat, g: Shared, ts: seq<Thread>)
    ensures forall i :: 0 <= i < |ts| ==> 0 <= Ranks(n, g, ts)[i] <= 2 * Turn(n) + 3 * Flip(n) + 20
  {
  }

  lemma {:induction false} RunDescends(cfg: Config, s: State, h: int, es: seq<Event>)
    requires Inv(cfg, s, h) && IsRun(s, es) && forall e :: e in es ==> e.Exec?
    ensures |es| <= Measure(cfg, s)
    decreases |es|
  {
    if es == [] {
      MeasureFloor(cfg, s, h);
    } else {
      StepInv(cfg, s, h, es[0]);
      StepDescends(cfg, s, h, es[0]);
      RunDescends(cfg, Next(s, es[0]), NewHolder(h, es[0], Out(s, es[0])), es[1..]);
    }
  }

  /** Steps any run can take without a timeout, whatever the scheduler does. */
  function Bound(cfg: Config): nat {
    var n := Population(cfg);
    Signal(n) * (2 * Total(cfg) + 1 + Sum(cfg.workers)) + (Turn(n) + 6) * n
  }

  lemma InitMeasure(cfg: Config)
    ensures Measure(cfg, Init(cfg)) <= Bound(cfg)
  {
    var s, n := Init(cfg), Population(cfg);
    var a := Ranks(n, s.g, s.threads);
    forall i | 0 <= i < n ensures a[i] == Turn(n) + 6 {
      assert s.threads[i].pc == Top;
    }
    AddedBounds(a, Turn(n) + 6);
  }

  /** Termination: a run that needs no timeout is no longer than a fixed bound. */
  lemma Terminates(cfg: Config, es: seq<Event>)
    requires cfg.size > 0 && IsRun(Init(cfg), es) && forall e :: e in es ==> e.Exec?
    ensures |es| <= Bound(cfg)
  {
    InitInv(cfg);
    RunDescends(cfg, Init(cfg), -1, es);
    InitMeasure(cfg);
  }

  /** Whatever has happened so far, timeouts included, ordinary steps alone can bring every
      thread to its end. */
  lemma {:induction false} Completes(cfg: Config, s: State, h: int) returns (more: seq<Event>)
    requires cfg.size > 0 && Inv(cfg, s, h) && (cfg.consumers > 0 || Total(cfg) <= cfg.size)
    ensures IsRun(s, more) && AllDone(Final(s, more)) && (forall e :: e in more ==> e.Exec?)
    decreases Measure(cfg, s)
  {
    InvShaped(cfg, s, h);
    StuckOrStep(cfg, s, h);
    if !AllDone(s) {
      var t, w :| Legal(s, Exec(t, w));
      var e := Exec(t, w);
      StepInv(cfg, s, h, e);
      StepDescends(cfg, s, h, e);
      MeasureFloor(cfg, s, h);
      var rest := Completes(cfg, Next(s, e), NewHolder(h, e, Out(s, e)));
      more := [e] + rest;
      assert more[1..] == rest;
    } else {
      more := [];
    }
  }

  lemma AlwaysCompletes(cfg: Config, es: seq<Event>) returns (more: seq<Event>)
    requires cfg.size > 0 && IsRun(Init(cfg), es) && (cfg.consumers > 0 || Total(cfg) <= cfg.size)
    ensures var s := Final(Init(cfg), es);
      IsRun(s, more) && AllDone(Final(s, more)) && forall e :: e in more ==> e.Exec?
  {
    var h := Reached(cfg, es);
    more := Completes(cfg, Final(Init(cfg), es), h);
  }

  // ---- why one unlock ---------------------------------------------------------------

  /** A store of 0 to the lock word by a thread that is not inside. */
  function StrayUnlock(s: State): State { s.(g := s.g.(lock := 0)) }

  /** The lock word alone protects nobody: one stray unlock, and any thread at its
      compare-and-swap joins the one inside. */
  lemma StrayUnlockBreaksExclusion(s: State, i: nat, j: nat)
    requires Shaped(s.g) && i < |s.threads| && j < |s.threads|
    requires InCritical(s.threads[i].pc) && s.threads[j].pc in {TryFast, TrySlow}
    ensures Legal(StrayUnlock(s), Exec(j, 0)) && i != j
    ensures var after := Next(StrayUnlock(s), Exec(j, 0));
      InCritical(after.threads[i].pc) && InCritical(after.threads[j].pc)
  {
  }

  /** Such a moment exists already with two workers of one iteration each. */
  lemma StrayUnlockExample()
    ensures var es := [Exec(0, 0), Exec(1, 0), Exec(0, 0)];
      IsRun(Init(Config([1, 1], [], 0, 1)), es)
      && var s := Final(Init(Config([1, 1], [], 0, 1)), es);
         |s.threads| == 2 && InCritical(s.threads[0].pc) && s.threads[1].pc == TryFast
  {
    var s0 := Init(Config([1, 1], [], 0, 1));
    var s1 := Next(s0, Exec(0, 0));
    var s2 := Next(s1, Exec(1, 0));
    var s3 := Next(s2, Exec(0, 0));
    assert s3.threads[0].pc == Check && s3.threads[1].pc == TryFast;
    var es := [Exec(0, 0), Exec(1, 0), Exec(0, 0)];
    assert es[1..] == [Exec(1, 0), Exec(0, 0)] && es[1..][1..] == [Exec(0, 0)] && es[1..][1..][1..] == [];
  }
}
