/**
  One fetch as the main loop drives it: resolving, connecting, an optional TLS handshake,
  receiving, idle.  Each iteration reads the 32-bit millisecond clock once and gets the answers
  of the network as inputs.
*/
module Request {
  import Modular

  const TICKS := 0x1_0000_0000
  const TIMEOUT_MS := 15000
  const POLL_MS := 50
  const TLS_OK := 0
  const TLS_WANT_READ := 1
  const TLS_WANT_WRITE := 2
  const TLS_CLOSED := -7

  /** browser_state 0, 1, 2, 4 and 3, in the order a fetch goes through the last four. */
  datatype Phase = Idle | Resolving | Connecting | Handshake | Receiving

  datatype Ending = Unfinished | Page | Failure

  /** `sent` counts the requests handed to the transport and `ending` is how the fetch was
      reported; the other fields are the program's. */
  datatype Fetch = Fetch(phase: Phase, tls: bool, stamp: nat, lastPoll: nat, loading: bool, sent: nat, ending: Ending)

  const FRESH := Fetch(Idle, false, 0, 0, false, 0, Unfinished)

  /** What the address bar and the first connection attempt say when a fetch is started. */
  datatype Asked = Asked(parsed: bool, tls: bool, literal: bool, connect: int)

  /** What the network says in one iteration; `rx` is the last return of the receive loop. */
  datatype Net = Net(resolved: bool, connect: int, established: bool, handshake: int, write: int,
                     rx: int, some: bool, complete: bool)

  /** Unsigned 32-bit subtraction of two clock readings. */
  function Since(now: nat, stamp: nat): (d: nat)
    ensures d < TICKS
  { (now - stamp) % TICKS }

  // ---- the transitions ----------------------------------------------------------------

  /** start_request.  A bad URL or a refused connection leaves the phase as it was. */
  function Start(f: Fetch, now: nat, asked: Asked): Fetch {
    var g := Fetch(f.phase, f.tls, now, f.lastPoll, false, 0, Unfinished);
    if !asked.parsed then g
    else if asked.literal && asked.connect < 0 then g.(tls := asked.tls)
    else g.(tls := asked.tls, loading := true, phase := if asked.literal then Connecting else Resolving)
  }

  function Finish(f: Fetch, e: Ending): Fetch { f.(phase := Idle, loading := false, ending := e) }

  /** send_request.  A refused TLS write goes back to idle and nothing else. */
  function Send(f: Fetch, now: nat, net: Net): Fetch {
    if f.tls && net.write != TLS_OK then f.(phase := Idle)
    else f.(phase := Receiving, stamp := now, sent := f.sent + 1)
  }

  function Poll(f: Fetch, now: nat, net: Net): Fetch {
    match f.phase
    case Idle => f
    case Resolving =>
      if !net.resolved then f else if net.connect < 0 then Finish(f, Failure) else f.(phase := Connecting)
    case Connecting =>
      if !net.established then f else if f.tls then f.(phase := Handshake) else Send(f, now, net)
    case Handshake =>
      if net.handshake == TLS_OK then Send(f, now, net)
      else if net.handshake < 0 then Finish(f, Failure) else f
    case Receiving =>
      if net.rx == (if f.tls then TLS_CLOSED else -1) then Finish(f, Page)
      else if f.tls && net.rx < 0 then Finish(f, if net.some then Page else Failure)
      else if !f.tls && net.rx == -2 then Finish(f, Failure)
      else if net.complete then Finish(f, Page) else f
  }

  /** One iteration: first the timeout, then, at most every 50 ms, the network. */
  function Step(f: Fetch, now: nat, net: Net): Fetch {
    if f.phase == Idle then f
    else if Since(now, f.stamp) > TIMEOUT_MS then Finish(f, Failure)
    else if Since(now, f.lastPoll) < POLL_MS then f
    else Poll(f.(lastPoll := now), now, net)
  }

  /** An iteration at a true time in milliseconds, of which the program sees 32 bits. */
  datatype Iteration = Iteration(at: nat, net: Net)

  function Run(f: Fetch, its: seq<Iteration>): Fetch
    decreases |its|
  {
    if its == [] then f else Run(Step(f, its[0].at % TICKS, its[0].net), its[1..])
  }

  // ---- the order of the phases --------------------------------------------------------

  /** The only moves there are. */
  predicate Follows(tls: bool, a: Phase, b: Phase) {
    a == b || b == Idle
    || (a == Resolving && b == Connecting)
    || (a == Connecting && b == if tls then Handshake else Receiving)
    || (a == Handshake && b == Receiving && tls)
  }

  /** Handed over exactly when receiving, never before, and before any page is shown. */
  predicate Accounted(f: Fetch) {
    (f.phase == Receiving ==> f.sent == 1)
    && (f.phase in {Resolving, Connecting, Handshake} ==> f.sent == 0)
    && f.sent <= 1 && (f.ending == Page ==> f.sent == 1)
    && (f.phase == Handshake ==> f.tls) && (f.phase != Idle ==> f.ending == Unfinished && f.loading)
  }

  lemma StepFollows(f: Fetch, now: nat, net: Net)
    requires Accounted(f)
    ensures var g := Step(f, now, net);
      Accounted(g) && g.tls == f.tls && Follows(f.tls, f.phase, g.phase) && f.sent <= g.sent
      && (f.phase == Idle ==> g == f)
  {
  }

  function Trail(f: Fetch, its: seq<Iteration>): (phases: seq<Phase>)
    ensures |phases| == |its| + 1 && phases[0] == f.phase
    decreases |its|
  {
    [f.phase] + if its == [] then [] else Trail(Step(f, its[0].at % TICKS, its[0].net), its[1..])
  }

  predicate Chain(tls: bool, phases: seq<Phase>) {
    forall k :: 0 < k < |phases| ==> Link(tls, phases, k)
  }

  predicate Link(tls: bool, phases: seq<Phase>, k: int)
    requires 0 < k < |phases|
  { Follows(tls, phases[k - 1], phases[k]) }

  /** Over any run the phases come in order and the request is sent at most once. */
  lemma {:induction false} InOrder(f: Fetch, its: seq<Iteration>)
    requires Accounted(f)
    ensures Chain(f.tls, Trail(f, its)) && Accounted(Run(f, its))
    decreases |its|
  {
    if its != [] {
      var g := Step(f, its[0].at % TICKS, its[0].net);
      StepFollows(f, its[0].at % TICKS, its[0].net);
      InOrder(g, its[1..]);
      var phases, rest := Trail(f, its), Trail(g, its[1..]);
      forall k | 0 < k < |phases|
        ensures Link(f.tls, phases, k)
      {
        if k > 1 { assert Link(f.tls, rest, k - 1); }
      }
    }
  }

  function Rank(p: Phase): nat {
    match p case Resolving => 0 case Connecting => 1 case Handshake => 2 case Receiving => 3 case Idle => 4
  }

  /** No phase is ever returned to. */
  lemma {:induction false} NeverBack(tls: bool, phases: seq<Phase>, i: nat, j: nat)
    requires Chain(tls, phases) && i <= j < |phases|
    ensures Rank(phases[i]) <= Rank(phases[j])
    decreases j - i
  {
    if i < j {
      assert Link(tls, phases, j);
      NeverBack(tls, phases, i, j - 1);
    }
  }

  /** A new address that cannot be fetched: it does not parse, or no connection is free. */
  predicate FailsToStart(asked: Asked) { !asked.parsed || (asked.literal && asked.connect < 0) }

  /** A started fetch resolves first unless the host is an address, whatever was under way
      before; a fetch that could not start leaves an idle browser idle. */
  lemma StartAccounted(f: Fetch, now: nat, asked: Asked)
    requires f.phase == Idle || !FailsToStart(asked)
    ensures Accounted(Start(f, now, asked))
    ensures Start(f, now, asked).phase ==
      if FailsToStart(asked) then Idle else if asked.literal then Connecting else Resolving
    ensures !FailsToStart(asked) ==> Start(f, now, asked).tls == asked.tls && Start(f, now, asked).sent == 0
  {
  }

  // ---- "loading" ----------------------------------------------------------------------

  /** The red mark is shown exactly while a fetch is active. */
  predicate InStep(f: Fetch) { f.loading <==> f.phase != Idle }

  /** An iteration at the end of a handshake whose TLS write is refused. */
  predicate RefusedWrite(f: Fetch, now: nat, net: Net) {
    f.phase == Handshake && Since(now, f.stamp) <= TIMEOUT_MS && Since(now, f.lastPoll) >= POLL_MS
    && net.handshake == TLS_OK && net.write != TLS_OK
  }

  lemma LoadingWhenActive(f: Fetch, now: nat, net: Net)
    requires Accounted(f) && InStep(f)
    ensures InStep(Step(f, now, net)) <==> !RefusedWrite(f, now, net)
  {
  }

  /** Starting sets "loading" right unless a fetch is active and the new one fails to start:
      then "loading" is cleared and the old fetch goes on. */
  lemma LoadingAfterStart(f: Fetch, now: nat, asked: Asked)
    ensures InStep(Start(f, now, asked)) <==> f.phase == Idle || !FailsToStart(asked)
    ensures f.phase != Idle && FailsToStart(asked) ==> Start(f, now, asked).phase == f.phase
  {
  }

  /** cancel_load, as the tab and history controls call it. */
  function CancelLoad(f: Fetch): Fetch { if f.loading then f.(phase := Idle, loading := false) else f }

  /** Everything that happens to the fetch of a browser. */
  datatype Event = Begin(now: nat, asked: Asked) | Tick(now: nat, net: Net) | Cancel

  function Go(f: Fetch, e: Event): Fetch {
    match e
    case Begin(now, asked) => Start(f, now, asked)
    case Tick(now, net) => Step(f, now, net)
    case Cancel => CancelLoad(f)
  }

  function GoAll(f: Fetch, es: seq<Event>): Fetch {
    if es == [] then f else Go(GoAll(f, es[..|es| - 1]), es[|es| - 1])
  }

  /** The two ways in which the mark and the fetch come apart. */
  predicate Parts(f: Fetch, e: Event) {
    match e
    case Begin(now, asked) => f.phase != Idle && FailsToStart(asked)
    case Tick(now, net) => RefusedWrite(f, now, net)
    case Cancel => false
  }

  lemma GoInStep(f: Fetch, e: Event)
    requires Accounted(f) && InStep(f)
    ensures InStep(Go(f, e)) <==> !Parts(f, e)
    ensures !Parts(f, e) ==> Accounted(Go(f, e))
  {
    match e
    case Begin(now, asked) => LoadingAfterStart(f, now, asked);
    case Tick(now, net) => LoadingWhenActive(f, now, net); StepFollows(f, now, net);
    case Cancel =>
  }

  predicate InStepAt(f: Fetch, es: seq<Event>, k: nat)
    requires k <= |es|
  { InStep(GoAll(f, es[..k])) }

  predicate PartsAt(f: Fetch, es: seq<Event>, k: nat)
    requires k < |es|
  { Parts(GoAll(f, es[..k]), es[k]) }

  lemma {:induction false} AccountedAt(f: Fetch, es: seq<Event>, k: nat)
    requires Accounted(f) && InStep(f) && k <= |es|
    requires forall j :: 0 <= j < k ==> !PartsAt(f, es, j)
    ensures Accounted(GoAll(f, es[..k])) && InStepAt(f, es, k)
    decreases k
  {
    if k > 0 {
      AccountedAt(f, es, k - 1);
      assert es[..k][..k - 1] == es[..k - 1];
      assert !PartsAt(f, es, k - 1);
      GoInStep(GoAll(f, es[..k - 1]), es[k - 1]);
    }
  }

  /** Over any run of starts, iterations and cancels, "loading" is right throughout exactly when
      no TLS write is refused and no new address fails to start while a fetch is active. */
  lemma LoadingThroughout(f: Fetch, es: seq<Event>)
    requires Accounted(f) && InStep(f)
    ensures (forall k :: 0 <= k <= |es| ==> InStepAt(f, es, k)) <==> (forall k :: 0 <= k < |es| ==> !PartsAt(f, es, k))
  {
    if forall k :: 0 <= k < |es| ==> !PartsAt(f, es, k) {
      forall k | 0 <= k <= |es| ensures InStepAt(f, es, k) { AccountedAt(f, es, k); }
    } else {
      var k := FirstParting(f, es, 0);
      AccountedAt(f, es, k);
      GoInStep(GoAll(f, es[..k]), es[k]);
      assert es[..k + 1][..k] == es[..k];
      assert !InStepAt(f, es, k + 1);
    }
  }

  lemma {:induction false} FirstParting(f: Fetch, es: seq<Event>, i: nat) returns (k: nat)
    requires i <= |es| && exists j :: i <= j < |es| && PartsAt(f, es, j)
    ensures i <= k < |es| && PartsAt(f, es, k) && forall j :: i <= j < k ==> !PartsAt(f, es, j)
    decreases |es| - i
  {
    if PartsAt(f, es, i) { k := i; } else { k := FirstParting(f, es, i + 1); }
  }

  const SILENT := Net(false, 0, false, TLS_WANT_READ, TLS_OK, 0, false, false)

  /** Both ways occur from a fresh browser: a bad URL entered during a fetch leaves the fetch
      running unmarked, and a refused write leaves the mark without a fetch. */
  lemma PartedExample()
    ensures var f := GoAll(FRESH, [Begin(0, Asked(true, false, false, 0)), Begin(1, Asked(false, false, false, 0))]);
      f.phase == Resolving && !f.loading
    ensures var f := GoAll(FRESH, [Begin(0, Asked(true, true, true, 0)), Tick(50, SILENT.(established := true)),
                                   Tick(100, SILENT.(handshake := TLS_OK, write := -1))]);
      f.phase == Idle && f.loading
  {
    var a, b := Begin(0, Asked(true, false, false, 0)), Begin(1, Asked(false, false, false, 0));
    assert [a, b][..1] == [a] && [a][..0] == [];
    var c, d := Begin(0, Asked(true, true, true, 0)), Tick(50, SILENT.(established := true));
    var e := Tick(100, SILENT.(handshake := TLS_OK, write := -1));
    assert [c, d, e][..2] == [c, d] && [c, d][..1] == [c] && [c][..0] == [];
    assert GoAll(FRESH, [c]) == Go(GoAll(FRESH, []), c);
    assert GoAll(FRESH, [c, d]) == Go(GoAll(FRESH, [c]), d);
    assert GoAll(FRESH, [c, d]).phase == Handshake;
  }

  // ---- the time limit -----------------------------------------------------------------

  /** Does an iteration that sees `now` end the fetch for its age? */
  predicate TimesOut(f: Fetch, now: nat) { Since(now, f.stamp) > TIMEOUT_MS }

  /** Active longer than the timeout, but at a reading of the clock that does not show it. */
  predicate Slips(f: Fetch, since: nat, at: nat) {
    f.phase != Idle && at > since + TIMEOUT_MS && (at - since) % TICKS <= TIMEOUT_MS
  }

  /** The unsigned difference of two readings is the true time apart, modulo a turn. */
  lemma SinceIs(at: nat, since: nat)
    ensures Since(at % TICKS, since % TICKS) == (at - since) % TICKS
  {
    var q, r := (at - since) / TICKS, (at - since) % TICKS;
    var k := q - at / TICKS + since / TICKS;
    assert at % TICKS - since % TICKS == k * TICKS + r;
    Modular.RemainderIs(at % TICKS - since % TICKS, TICKS, k, r);
  }

  /** Less than one turn of the clock apart, the unsigned difference is the true one. */
  lemma TrueSince(at: nat, since: nat)
    requires since <= at < since + TICKS
    ensures Since(at % TICKS, since % TICKS) == at - since
  {
    SinceIs(at, since);
  }

  /** The timeout fires exactly when the true age, modulo a turn, exceeds it; an overdue fetch
      escapes it exactly by slipping, and then some answer of the network leaves it active. */
  lemma TimeoutExactly(f: Fetch, since: nat, at: nat)
    requires f.phase != Idle && f.stamp == since % TICKS && since <= at
    ensures TimesOut(f, at % TICKS) <==> (at - since) % TICKS > TIMEOUT_MS
    ensures at > since + TIMEOUT_MS ==>
      (Slips(f, since, at) <==> exists net :: Step(f, at % TICKS, net).phase != Idle)
  {
    SinceIs(at, since);
    if Slips(f, since, at) { assert Step(f, at % TICKS, SILENT).phase == f.phase; }
  }

  /** The time of the start or of the last iteration before number k. */
  function TimeAt(start: nat, its: seq<Iteration>, k: nat): nat
    requires k <= |its|
  { if k == 0 then start else its[k - 1].at }

  /** Time does not run backwards. */
  predicate Later(start: nat, its: seq<Iteration>, k: nat)
    requires k < |its|
  { TimeAt(start, its, k) <= its[k].at }

  predicate Ordered(start: nat, its: seq<Iteration>) { forall k :: 0 <= k < |its| ==> Later(start, its, k) }

  /** True time of the stamp after the first k iterations: the start, or the sending. */
  function StampOf(f: Fetch, start: nat, its: seq<Iteration>, k: nat): nat
    requires k <= |its|
  {
    if k == 0 then start
    else if Run(f, its[..k]).phase == Receiving && Run(f, its[..k - 1]).phase != Receiving then its[k - 1].at
    else StampOf(f, start, its, k - 1)
  }

  predicate SlipsAt(f: Fetch, start: nat, its: seq<Iteration>, k: nat)
    requires k < |its|
  { Slips(Run(f, its[..k]), StampOf(f, start, its, k), its[k].at) }

  /** Active at `at` no later than two timeouts after the start, and one if not yet sent. */
  predicate WithinLimit(g: Fetch, start: nat, at: nat) {
    g.phase != Idle ==> at <= start + 2 * TIMEOUT_MS && (g.sent == 0 ==> at <= start + TIMEOUT_MS)
  }

  /** Whatever the network answers in iteration k, the limit holds after it. */
  ghost predicate LimitAt(f: Fetch, start: nat, its: seq<Iteration>, k: nat)
    requires k < |its|
  { forall net :: WithinLimit(Step(Run(f, its[..k]), its[k].at % TICKS, net), start, its[k].at) }

  lemma {:induction false} RunSnoc(f: Fetch, its: seq<Iteration>, x: Iteration)
    ensures Run(f, its + [x]) == Step(Run(f, its), x.at % TICKS, x.net)
    decreases |its|
  {
    if its == [] {
      assert (its + [x])[1..] == [];
    } else {
      RunSnoc(Step(f, its[0].at % TICKS, its[0].net), its[1..], x);
      assert (its + [x])[1..] == its[1..] + [x];
    }
  }

  lemma RunNext(f: Fetch, its: seq<Iteration>, k: nat)
    requires k < |its|
    ensures Run(f, its[..k + 1]) == Step(Run(f, its[..k]), its[k].at % TICKS, its[k].net)
  {
    RunSnoc(f, its[..k], its[k]);
    assert its[..k + 1] == its[..k] + [its[k]];
  }

  /** The program's stamp is the reading of the true one. */
  predicate Stamped(f: Fetch, start: nat, since: nat, last: nat) {
    Accounted(f) && (f.phase != Idle ==> f.stamp == since % TICKS && start <= since <= last)
    && (f.phase in {Resolving, Connecting, Handshake} ==> since == start)
  }

  /** Moreover the last iteration was within a timeout of it, and the sending of the start. */
  predicate OnTime(f: Fetch, start: nat, since: nat, last: nat) {
    f.phase != Idle ==> last <= since + TIMEOUT_MS && since <= start + TIMEOUT_MS
  }

  function NewStamp(f: Fetch, since: nat, at: nat, g: Fetch): nat {
    if g.phase == Receiving && f.phase != Receiving then at else since
  }

  lemma StepStamped(f: Fetch, start: nat, since: nat, last: nat, at: nat, net: Net)
    requires Stamped(f, start, since, last) && last <= at
    ensures var g := Step(f, at % TICKS, net); var now := NewStamp(f, since, at, g);
      Stamped(g, start, now, at)
      && (OnTime(f, start, since, last) && !Slips(f, since, at) ==> OnTime(g, start, now, at))
  {
    StepFollows(f, at % TICKS, net);
    SinceIs(at, since);
  }

  lemma {:induction false} PrefixStamped(f: Fetch, start: nat, its: seq<Iteration>, k: nat)
    requires Stamped(f, start, start, start) && Ordered(start, its) && k <= |its|
    ensures Stamped(Run(f, its[..k]), start, StampOf(f, start, its, k), TimeAt(start, its, k))
    ensures (forall j :: 0 <= j < k ==> !SlipsAt(f, start, its, j)) ==>
      OnTime(Run(f, its[..k]), start, StampOf(f, start, its, k), TimeAt(start, its, k))
    decreases k
  {
    if k > 0 {
      PrefixStamped(f, start, its, k - 1);
      RunNext(f, its, k - 1);
      var slips := SlipsAt(f, start, its, k - 1);
      assert Later(start, its, k - 1);
      var g, since, last := Run(f, its[..k - 1]), StampOf(f, start, its, k - 1), TimeAt(start, its, k - 1);
      StepStamped(g, start, since, last, its[k - 1].at, its[k - 1].net);
    }
  }

  lemma StampedLimit(g: Fetch, start: nat, since: nat, at: nat)
    requires Stamped(g, start, since, at) && OnTime(g, start, since, at)
    ensures WithinLimit(g, start, at)
  {
  }

  /** The time limit is exact: it holds after every iteration of a run, whatever the network
      answers there, precisely when no iteration slips, that is, finds an overdue fetch at a
      reading of the 32-bit clock that makes it look young. */
  lemma TimeLimitExactly(f: Fetch, start: nat, its: seq<Iteration>)
    requires Stamped(f, start, start, start) && Ordered(start, its)
    ensures (forall k :: 0 <= k < |its| ==> LimitAt(f, start, its, k))
            <==> (forall k :: 0 <= k < |its| ==> !SlipsAt(f, start, its, k))
  {
    if forall k :: 0 <= k < |its| ==> !SlipsAt(f, start, its, k) {
      forall k | 0 <= k < |its| ensures LimitAt(f, start, its, k) { NoSlipsLimit(f, start, its, k); }
    } else {
      var k :| 0 <= k < |its| && SlipsAt(f, start, its, k);
      SlipOverstays(f, start, its, k);
    }
  }

  lemma NoSlipsLimit(f: Fetch, start: nat, its: seq<Iteration>, k: nat)
    requires Stamped(f, start, start, start) && Ordered(start, its) && k < |its|
    requires forall j :: 0 <= j <= k ==> !SlipsAt(f, start, its, j)
    ensures LimitAt(f, start, its, k)
  {
    PrefixStamped(f, start, its, k);
    assert Later(start, its, k) && !SlipsAt(f, start, its, k);
    var g, since, last, at := Run(f, its[..k]), StampOf(f, start, its, k), TimeAt(start, its, k), its[k].at;
    forall net ensures WithinLimit(Step(g, at % TICKS, net), start, at) {
      StepStamped(g, start, since, last, at, net);
      var h := Step(g, at % TICKS, net);
      StampedLimit(h, start, NewStamp(g, since, at, h), at);
    }
  }

  lemma SlipOverstays(f: Fetch, start: nat, its: seq<Iteration>, k: nat)
    requires Stamped(f, start, start, start) && Ordered(start, its) && k < |its| && SlipsAt(f, start, its, k)
    ensures !LimitAt(f, start, its, k)
  {
    PrefixStamped(f, start, its, k);
    var g, since, at := Run(f, its[..k]), StampOf(f, start, its, k), its[k].at;
    SinceIs(at, since);
    assert at >= since + TICKS;
    assert !WithinLimit(Step(g, at % TICKS, SILENT), start, at);
  }

  lemma StartStamped(f: Fetch, start: nat, asked: Asked)
    requires f.phase == Idle || !FailsToStart(asked)
    ensures Stamped(Start(f, start % TICKS, asked), start, start, start)
  {
    StartAccounted(f, start % TICKS, asked);
  }

  // ---- a spacing that suffices --------------------------------------------------------

  predicate Spaced(start: nat, its: seq<Iteration>, k: nat)
    requires k < |its|
  { TimeAt(start, its, k) <= its[k].at < TimeAt(start, its, k) + TICKS - TIMEOUT_MS }

  /** Iterations are less than a turn of the clock, minus the timeout, apart. */
  predicate Timely(start: nat, its: seq<Iteration>) { forall k :: 0 <= k < |its| ==> Spaced(start, its, k) }

  lemma {:induction false} TimelyNeverSlips(f: Fetch, start: nat, its: seq<Iteration>, k: nat)
    requires Stamped(f, start, start, start) && Timely(start, its) && k <= |its|
    ensures Ordered(start, its) && forall j :: 0 <= j < k ==> !SlipsAt(f, start, its, j)
    decreases k
  {
    forall j | 0 <= j < |its| ensures Later(start, its, j) { assert Spaced(start, its, j); }
    if k > 0 {
      TimelyNeverSlips(f, start, its, k - 1);
      PrefixStamped(f, start, its, k - 1);
      assert Spaced(start, its, k - 1);
    }
  }

  /** In such runs no iteration leaves a fetch active later than two timeouts after it was
      started, nor later than one if it has not been sent, wherever the clock wraps. */
  lemma TimeLimit(f: Fetch, start: nat, asked: Asked, its: seq<Iteration>)
    requires (f.phase == Idle || !FailsToStart(asked)) && Timely(start, its)
    ensures WithinLimit(Run(Start(f, start % TICKS, asked), its), start, TimeAt(start, its, |its|))
  {
    var g, n := Start(f, start % TICKS, asked), |its|;
    StartStamped(f, start, asked);
    TimelyNeverSlips(g, start, its, n);
    PrefixStamped(g, start, its, n);
    assert its[..n] == its;
    StampedLimit(Run(g, its), start, StampOf(g, start, its, n), TimeAt(start, its, n));
  }

  /** The spacing is sharp: one millisecond more, and a fetch can outlive a turn of the clock,
      although no two iterations are a turn apart. */
  lemma SharpSpacing(start: nat)
    ensures var f := Start(FRESH, start % TICKS, Asked(true, false, false, 0));
      var its := [Iteration(start + TIMEOUT_MS, SILENT), Iteration(start + TICKS, SILENT)];
      its[1].at - its[0].at == TICKS - TIMEOUT_MS && Run(f, its).phase == Resolving
  {
    var f := Start(FRESH, start % TICKS, Asked(true, false, false, 0));
    var its := [Iteration(start + TIMEOUT_MS, SILENT), Iteration(start + TICKS, SILENT)];
    SinceIs(start + TIMEOUT_MS, start);
    SinceIs(start + TICKS, start);
    var g := Step(f, its[0].at % TICKS, SILENT);
    assert g.phase == Resolving && g.stamp == f.stamp;
    var h := Step(g, its[1].at % TICKS, SILENT);
    assert Run(g, its[1..]) == Run(h, its[1..][1..]) && its[1..][1..] == [];
    assert Run(f, its) == Run(g, its[1..]);
  }

  // ---- the code -----------------------------------------------------------------------

  class Browser {
    var browserState: int
    var usingTls: bool
    var requestStartedAt: nat
    var lastNetPoll: nat
    var loading: bool
    ghost var sent: nat
    ghost var ending: Ending

    static function PhaseOf(state: int): Phase {
      match state case 1 => Resolving case 2 => Connecting case 4 => Handshake case 3 => Receiving case _ => Idle
    }

    ghost function View(): Fetch
      reads this
    { Fetch(PhaseOf(browserState), usingTls, requestStartedAt, lastNetPoll, loading, sent, ending) }

    ghost predicate Valid() reads this { 0 <= browserState <= 4 }

    constructor ()
      ensures Valid() && View() == FRESH
    {
      browserState, usingTls, requestStartedAt, lastNetPoll, loading := 0, false, 0, 0, false;
      sent, ending := 0, Unfinished;
    }

    method Cancel()
      requires Valid()
      modifies this
      ensures Valid() && View() == CancelLoad(old(View()))
    {
      if loading {
        loading := false;
        browserState := 0;
      }
    }

    method FinishWith(e: Ending)
      requires Valid()
      modifies this
      ensures Valid() && View() == Finish(old(View()), e)
    {
      loading := false;
      browserState := 0;
      ending := e;
    }

    method StartRequest(now: nat, asked: Asked)
      requires Valid()
      modifies this
      ensures Valid() && View() == Start(old(View()), now, asked)
    {
      loading := true;
      requestStartedAt := now;
      sent, ending := 0, Unfinished;
      if !asked.parsed {
        loading := false;
        return;
      }
      usingTls := asked.tls;
      if asked.literal {
        if asked.connect < 0 { loading := false; } else { browserState := 2; }
      } else {
        browserState := 1;
      }
    }

    method SendRequest(now: nat, net: Net)
      requires Valid()
      modifies this
      ensures Valid() && View() == Send(old(View()), now, net)
    {
      if usingTls {
        if net.write != TLS_OK {
          browserState := 0;
          return;
        }
      }
      sent := sent + 1;
      browserState := 3;
      requestStartedAt := now;
    }

    method ReceiveSecure(net: Net)
      requires Valid() && View().phase == Receiving && usingTls
      modifies this
      ensures Valid() && View() == Poll(old(View()), 0, net)
    {
      if net.rx == TLS_CLOSED { FinishWith(Page); }
      else if net.rx < 0 {
        if net.some { FinishWith(Page); } else { FinishWith(Failure); }
      } else if net.complete { FinishWith(Page); }
    }

    method ReceivePlain(net: Net)
      requires Valid() && View().phase == Receiving && !usingTls
      modifies this
      ensures Valid() && View() == Poll(old(View()), 0, net)
    {
      if net.rx == -1 { FinishWith(Page); }
      else if net.rx == -2 { FinishWith(Failure); }
      else if net.complete { FinishWith(Page); }
    }

    method Iterate(now: nat, net: Net)
      requires Valid()
      modifies this
      ensures Valid() && View() == Step(old(View()), now, net)
    {
      if browserState <= 0 { return; }
      if Since(now, requestStartedAt) > TIMEOUT_MS {
        FinishWith(Failure);
      } else if Since(now, lastNetPoll) >= POLL_MS {
        lastNetPoll := now;
        if browserState == 1 {
          if net.resolved {
            if net.connect < 0 { FinishWith(Failure); } else { browserState := 2; }
          }
        } else if browserState == 2 {
          if net.established {
            if usingTls { browserState := 4; } else { SendRequest(now, net); }
          }
        } else if browserState == 4 {
          if net.handshake == TLS_OK { SendRequest(now, net); }
          else if net.handshake < 0 && net.handshake != TLS_WANT_READ && net.handshake != TLS_WANT_WRITE {
            FinishWith(Failure);
          }
        } else if usingTls {
          ReceiveSecure(net);
        } else {
          ReceivePlain(net);
        }
      }
    }
  }
}
