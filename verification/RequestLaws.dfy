/** How a fetch gets on and why it ends, in terms of what the network answers. */
module RequestLaws {
  import opened Request

  // ---- the answers --------------------------------------------------------------------

  /** What takes a fetch on from each phase: the name resolves and a slot is granted, the
      connection stands, handshake and write succeed, the body is complete or the peer closes.  A
      TLS stream that breaks off after some data counts as closed. */
  predicate Good(p: Phase, tls: bool, net: Net) {
    match p
    case Resolving => net.resolved && net.connect >= 0
    case Connecting => net.established
    case Handshake => net.handshake == 0 && net.write == 0
    case Receiving =>
      if tls then net.rx == -7 || (net.rx < 0 && net.some) || (net.rx >= 0 && net.complete)
      else net.rx == -1 || (net.rx != -2 && net.complete)
    case Idle => false
  }

  /** What ends it: no free slot, a failed handshake, a lost connection, a TLS error before any data. */
  predicate Bad(p: Phase, tls: bool, net: Net) {
    match p
    case Resolving => net.resolved && net.connect < 0
    case Handshake => net.handshake < 0
    case Receiving => if tls then net.rx < 0 && net.rx != -7 && !net.some else net.rx == -2
    case _ => false
  }

  /** The handshake is through and the write is refused. */
  predicate Refused(p: Phase, net: Net) { p == Handshake && net.handshake == 0 && net.write != 0 }

  /** Nothing that matters has happened. */
  predicate NothingYet(p: Phase, net: Net) {
    match p
    case Resolving => !net.resolved
    case Connecting => !net.established
    case Handshake => net.handshake > 0
    case Receiving => net.rx >= 0 && !net.complete
    case Idle => false
  }

  predicate Silent(p: Phase, tls: bool, net: Net) { !Good(p, tls, net) && !Bad(p, tls, net) && !Refused(p, net) }

  /** The phases of a fetch in order. */
  function Next(p: Phase, tls: bool): Phase {
    match p
    case Resolving => Connecting
    case Connecting => if tls then Handshake else Receiving
    case Handshake => Receiving
    case Receiving => Idle
    case Idle => Idle
  }

  /** The iteration looks at the network, and the fetch is not too old. */
  predicate Heard(f: Fetch, now: nat) { Since(now, f.stamp) <= 15000 && Since(now, f.lastPoll) >= 50 }

  // ---- one iteration ------------------------------------------------------------------

  /** An iteration of an active fetch: it fails exactly by its age or a bad answer, shows a page
      exactly on a good answer while receiving, and moves on exactly on a good answer before. */
  lemma StepReason(f: Fetch, now: nat, net: Net)
    requires Accounted(f) && f.phase != Idle
    ensures var g := Step(f, now, net);
      (g.ending == Failure <==> Since(now, f.stamp) > 15000 || (Heard(f, now) && Bad(f.phase, f.tls, net)))
      && (g.ending == Page <==> Heard(f, now) && f.phase == Receiving && Good(Receiving, f.tls, net))
      && (Heard(f, now) && Good(f.phase, f.tls, net) ==> g.phase == Next(f.phase, f.tls))
      && (g.phase == Idle && g.ending == Unfinished <==> Heard(f, now) && Refused(f.phase, net))
      && (g.phase == f.phase <==> Since(now, f.stamp) <= 15000 && (Heard(f, now) ==> Silent(f.phase, f.tls, net)))
  {
  }

  /** What the answers leave alone: the TLS flag, and the stamp unless the request is sent now. */
  lemma StepFrame(f: Fetch, now: nat, net: Net)
    requires Accounted(f)
    ensures var g := Step(f, now, net);
      g.tls == f.tls && (g.sent == f.sent ==> g.stamp == f.stamp)
      && (g.sent != f.sent ==> g.stamp == now && g.sent == 1)
      && (g.sent != f.sent <==> g.phase == Receiving && f.phase != Receiving)
      && (Heard(f, now) && f.phase != Idle ==> g.lastPoll == now) && (!Heard(f, now) ==> g.lastPoll == f.lastPoll)
  {
    StepFollows(f, now, net);
  }

  // ---- why a fetch ended --------------------------------------------------------------

  function Reading(it: Iteration): nat { it.at % 0x1_0000_0000 }

  predicate FailsIn(f: Fetch, it: Iteration) {
    f.phase != Idle
    && (Since(Reading(it), f.stamp) > 15000 || (Heard(f, Reading(it)) && Bad(f.phase, f.tls, it.net)))
  }

  predicate ShowsIn(f: Fetch, it: Iteration) {
    f.phase == Receiving && Heard(f, Reading(it)) && Good(Receiving, f.tls, it.net)
  }

  predicate FailsAt(f: Fetch, its: seq<Iteration>, k: nat)
    requires k < |its|
  { FailsIn(Run(f, its[..k]), its[k]) }

  predicate ShowsAt(f: Fetch, its: seq<Iteration>, k: nat)
    requires k < |its|
  { ShowsIn(Run(f, its[..k]), its[k]) }

  /** Over a run: a fetch has failed exactly when some iteration found it too old or heard a bad
      answer, and shows a page exactly when some iteration heard a good answer while receiving. */
  lemma {:induction false} EndsExactly(f: Fetch, its: seq<Iteration>, n: nat)
    requires Accounted(f) && f.phase != Idle && n <= |its|
    ensures Accounted(Run(f, its[..n]))
    ensures Run(f, its[..n]).ending == Failure <==> exists k :: 0 <= k < n && FailsAt(f, its, k)
    ensures Run(f, its[..n]).ending == Page <==> exists k :: 0 <= k < n && ShowsAt(f, its, k)
    decreases n
  {
    if n > 0 {
      EndsExactly(f, its, n - 1);
      RunNext(f, its, n - 1);
      var g := Run(f, its[..n - 1]);
      StepFollows(g, Reading(its[n - 1]), its[n - 1].net);
      if g.phase != Idle { StepReason(g, Reading(its[n - 1]), its[n - 1].net); }
      var fails, shows := FailsAt(f, its, n - 1), ShowsAt(f, its, n - 1);
    }
  }

  // ---- progress -----------------------------------------------------------------------

  /** Good answers still needed until the page is shown. */
  function Need(p: Phase, tls: bool): nat {
    match p
    case Resolving => if tls then 4 else 3
    case Connecting => if tls then 3 else 2
    case Handshake => 2
    case Receiving => 1
    case Idle => 0
  }

  /** Every iteration that meets the fetch active is heard and brings a good answer or none. */
  predicate Smooth(f: Fetch, its: seq<Iteration>)
    decreases |its|
  {
    its != [] && f.phase != Idle ==>
      (Heard(f, Reading(its[0])) && (Good(f.phase, f.tls, its[0].net) || NothingYet(f.phase, its[0].net))
       && Smooth(Step(f, Reading(its[0]), its[0].net), its[1..]))
  }

  /** How many of them bring a good one. */
  function Goods(f: Fetch, its: seq<Iteration>): nat
    decreases |its|
  {
    if its == [] || f.phase == Idle then 0
    else (if Good(f.phase, f.tls, its[0].net) then 1 else 0) + Goods(Step(f, Reading(its[0]), its[0].net), its[1..])
  }

  /** A fetch that goes smoothly shows its page with the last good answer it needs, having sent
      its request exactly once, and is still under way before that. */
  lemma {:induction false} Progress(f: Fetch, its: seq<Iteration>)
    requires Accounted(f) && f.phase != Idle && Smooth(f, its)
    ensures var g := Run(f, its);
      Goods(f, its) <= Need(f.phase, f.tls)
      && (g.ending == Page <==> Goods(f, its) == Need(f.phase, f.tls)) && (g.ending == Page ==> g.sent == 1)
      && (g.phase != Idle <==> Goods(f, its) < Need(f.phase, f.tls))
    decreases |its|
  {
    if its != [] {
      var g := Step(f, Reading(its[0]), its[0].net);
      StepFollows(f, Reading(its[0]), its[0].net);
      StepReason(f, Reading(its[0]), its[0].net);
      if g.phase != Idle { Progress(g, its[1..]); } else { IdleStays(g, its[1..]); }
    }
  }

  lemma {:induction false} IdleStays(f: Fetch, its: seq<Iteration>)
    requires f.phase == Idle
    ensures Run(f, its) == f && Goods(f, its) == 0
    decreases |its|
  {
    if its != [] { IdleStays(f, its[1..]); }
  }

  // ---- a fetch from start to page -----------------------------------------------------

  /** Everything the fetch could ask for is answered. */
  predicate AllGood(net: Net) {
    net.resolved && net.connect >= 0 && net.established && net.handshake == 0 && net.write == 0
    && net.rx >= 0 && net.complete
  }

  /** At least 50 ms apart, and none later than `latest`. */
  predicate Polls(last: nat, its: seq<Iteration>, latest: nat)
    decreases |its|
  {
    its != [] ==> last + 50 <= its[0].at <= latest && AllGood(its[0].net) && Polls(its[0].at, its[1..], latest)
  }

  /** The first of them is not too soon after the last poll, whenever that was. */
  predicate Due(f: Fetch, its: seq<Iteration>) { its != [] ==> Since(Reading(its[0]), f.lastPoll) >= 50 }

  lemma {:induction false} PollsSmoothly(f: Fetch, since: nat, last: nat, its: seq<Iteration>)
    requires Accounted(f) && f.stamp == since % TICKS && since <= last
    requires Polls(last, its, since + 15000) && Due(f, its)
    ensures Smooth(f, its) && Goods(f, its) == if |its| < Need(f.phase, f.tls) then |its| else Need(f.phase, f.tls)
    decreases |its|
  {
    if its != [] && f.phase != Idle {
      var at, net := its[0].at, its[0].net;
      var g := Step(f, Reading(its[0]), net);
      TrueSince(at, since);
      if |its| > 1 {
        assert Polls(at, its[1..], since + 15000) && its[1..][0].at <= since + 15000;
        TrueSince(its[1..][0].at, at);
      }
      StepFollows(f, Reading(its[0]), net);
      StepReason(f, Reading(its[0]), net);
      StepFrame(f, Reading(its[0]), net);
      if g.sent != f.sent {
        PollsLater(at, its[1..], since + 15000, at + 15000);
        PollsSmoothly(g, at, at, its[1..]);
      } else {
        PollsSmoothly(g, since, at, its[1..]);
      }
    }
  }

  lemma {:induction false} PollsLater(last: nat, its: seq<Iteration>, latest: nat, later: nat)
    requires Polls(last, its, latest) && latest <= later
    ensures Polls(last, its, later)
    decreases |its|
  {
    if its != [] { PollsLater(its[0].at, its[1..], latest, later); }
  }

  /** From start to page: an address that parses (and whose connection is granted, for a literal),
      iterations at least 50 ms apart and within the timeout, every answer good: the page is shown
      after three of them, one fewer for a literal, one more with TLS, and the request was sent
      once. */
  lemma Fetched(f: Fetch, start: nat, asked: Asked, its: seq<Iteration>)
    requires f.phase == Idle && asked.parsed && (asked.literal ==> asked.connect >= 0)
    requires Due(f, its) && Polls(start, its, start + 15000)
    requires |its| >= 3 - (if asked.literal then 1 else 0) + (if asked.tls then 1 else 0)
    ensures var g := Run(Start(f, start % TICKS, asked), its); g.phase == Idle && g.ending == Page && g.sent == 1
  {
    var g := Start(f, start % TICKS, asked);
    StartAccounted(f, start % TICKS, asked);
    PollsSmoothly(g, start, start, its);
    Progress(g, its);
  }

  /** One answer fewer, and it is still under way. */
  lemma NotYetFetched(f: Fetch, start: nat, asked: Asked, its: seq<Iteration>)
    requires f.phase == Idle && asked.parsed && (asked.literal ==> asked.connect >= 0)
    requires Due(f, its) && Polls(start, its, start + 15000)
    requires |its| < 3 - (if asked.literal then 1 else 0) + (if asked.tls then 1 else 0)
    ensures Run(Start(f, start % TICKS, asked), its).phase != Idle
  {
    var g := Start(f, start % TICKS, asked);
    StartAccounted(f, start % TICKS, asked);
    PollsSmoothly(g, start, start, its);
    Progress(g, its);
  }

  /** A cancelled load is over: nothing is active and nothing is marked. */
  lemma CancelEnds(f: Fetch)
    requires InStep(f)
    ensures CancelLoad(f).phase == Idle && !CancelLoad(f).loading && CancelLoad(f).sent == f.sent
  {
  }
}
