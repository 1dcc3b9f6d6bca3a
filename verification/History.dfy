/**
  The per-tab history: ten slots that shift when they are full, refining a timeline that
  never forgets.  The timeline remembers every page; `floor` is how many of its oldest pages
  the ten slots have dropped.
*/
module History {
  const HIST_MAX := 10

  type Url = seq<char>

  datatype Timeline = Timeline(all: seq<Url>, pos: int, floor: nat)

  const EMPTY := Timeline([], -1, 0)

  function Max(a: int, b: int): int { if a > b then a else b }

  function Push(t: Timeline, url: Url): Timeline
    requires -1 <= t.pos < |t.all|
  {
    if t.pos >= 0 && t.all[t.pos] == url then t
    else
      var all := t.all[..t.pos + 1] + [url];
      Timeline(all, |all| - 1, Max(t.floor, |all| - HIST_MAX))
  }

  function Back(t: Timeline): Timeline { if t.pos > t.floor then t.(pos := t.pos - 1) else t }

  function Forward(t: Timeline): Timeline { if 0 <= t.pos < |t.all| - 1 then t.(pos := t.pos + 1) else t }

  /** The window is the newest part of the timeline, at most ten pages, and contains the
      current page; neighbouring pages differ. */
  predicate Ok(t: Timeline) {
    (if t.all == [] then t == EMPTY else t.floor <= t.pos < |t.all| <= t.floor + HIST_MAX)
    && forall k :: 0 < k < |t.all| ==> t.all[k - 1] != t.all[k]
  }

  datatype Op = PushOp(url: Url) | BackOp | ForwardOp

  function Apply(t: Timeline, op: Op): Timeline
    requires Ok(t)
  {
    match op
    case PushOp(url) => Push(t, url)
    case BackOp => Back(t)
    case ForwardOp => Forward(t)
  }

  lemma ApplyOk(t: Timeline, op: Op)
    requires Ok(t)
    ensures Ok(Apply(t, op)) && t.floor <= Apply(t, op).floor
  {
  }

  function Run(t: Timeline, ops: seq<Op>): Timeline
    requires Ok(t)
    decreases |ops|
  {
    if ops == [] then t else ApplyOk(t, ops[0]); Run(Apply(t, ops[0]), ops[1..])
  }

  /** Over any run: the window holds, neighbours differ, and pages are dropped only at the old end. */
  lemma {:induction false} RunOk(t: Timeline, ops: seq<Op>)
    requires Ok(t)
    ensures Ok(Run(t, ops)) && t.floor <= Run(t, ops).floor
    decreases |ops|
  {
    if ops != [] {
      ApplyOk(t, ops[0]);
      RunOk(Apply(t, ops[0]), ops[1..]);
    }
  }

  /** A browser that forgets nothing: the same steps with no floor. */
  function Ideal(t: Timeline): Timeline { t.(floor := 0) }

  function Remember(t: Timeline, op: Op): Timeline
    requires -1 <= t.pos < |t.all|
  {
    match op
    case PushOp(url) => Ideal(Push(t, url))
    case BackOp => Back(Ideal(t))
    case ForwardOp => Forward(Ideal(t))
  }

  function RememberAll(t: Timeline, ops: seq<Op>): (u: Timeline)
    requires -1 <= t.pos < |t.all| && (t.all == [] <==> t.pos == -1)
    ensures -1 <= u.pos < |u.all|
    decreases |ops|
  {
    if ops == [] then Ideal(t) else RememberAll(Remember(t, ops[0]), ops[1..])
  }

  /** The step asks for a page that existed but has been dropped. */
  predicate TooFar(t: Timeline, op: Op) { op.BackOp? && 0 < t.pos <= t.floor }

  /** No step of the run asks for a dropped page. */
  predicate WithinReach(t: Timeline, ops: seq<Op>)
    requires Ok(t)
    decreases |ops|
  {
    ops != [] ==> (!TooFar(t, ops[0]) && (ApplyOk(t, ops[0]); WithinReach(Apply(t, ops[0]), ops[1..])))
  }

  /** Ten slots behave as a browser that never forgets for as long as no step asks for a
      dropped page; such a step itself always differs. */
  lemma {:induction false} TenSlotsSuffice(t: Timeline, ops: seq<Op>)
    requires Ok(t)
    ensures WithinReach(t, ops) ==> Ideal(Run(t, ops)) == RememberAll(t, ops)
    decreases |ops|
  {
    if ops != [] && WithinReach(t, ops) {
      ApplyOk(t, ops[0]);
      StepAlike(t, ops[0]);
      TenSlotsSuffice(Apply(t, ops[0]), ops[1..]);
      FloorIrrelevant(Apply(t, ops[0]), ops[1..]);
    }
  }

  lemma StepAlike(t: Timeline, op: Op)
    requires Ok(t)
    ensures Ideal(Apply(t, op)) == Remember(t, op) <==> !TooFar(t, op)
  {
  }

  lemma FloorIrrelevant(t: Timeline, ops: seq<Op>)
    requires -1 <= t.pos < |t.all| && (t.all == [] <==> t.pos == -1)
    ensures RememberAll(t, ops) == RememberAll(Ideal(t), ops)
  {
    if ops != [] { assert Remember(t, ops[0]) == Remember(Ideal(t), ops[0]); }
  }

  predicate AlikeAfter(t: Timeline, ops: seq<Op>, k: nat)
    requires Ok(t) && k <= |ops|
  { Ideal(Run(t, ops[..k])) == RememberAll(t, ops[..k]) }

  lemma AlikeShift(t: Timeline, ops: seq<Op>, k: nat)
    requires Ok(t) && 0 < k <= |ops| && !TooFar(t, ops[0]) && Ok(Apply(t, ops[0]))
    ensures AlikeAfter(t, ops, k) <==> AlikeAfter(Apply(t, ops[0]), ops[1..], k - 1)
  {
    StepAlike(t, ops[0]);
    assert ops[..k][1..] == ops[1..][..k - 1];
    FloorIrrelevant(Apply(t, ops[0]), ops[1..][..k - 1]);
  }

  /** The condition is exact: ten slots agree with an unlimited history after every prefix of a
      run precisely when no step of it asks for a dropped page. */
  lemma {:induction false} AlikeThroughout(t: Timeline, ops: seq<Op>)
    requires Ok(t)
    ensures (forall k :: 0 <= k <= |ops| ==> AlikeAfter(t, ops, k)) <==> WithinReach(t, ops)
    decreases |ops|
  {
    if ops != [] {
      ApplyOk(t, ops[0]);
      var u, rest := Apply(t, ops[0]), ops[1..];
      if TooFar(t, ops[0]) {
        StepAlike(t, ops[0]);
        var one := ops[..1];
        assert one[1..] == [] && one[0] == ops[0];
        assert Run(t, one) == Run(u, one[1..]) == u;
        assert RememberAll(t, one) == RememberAll(Remember(t, ops[0]), one[1..]);
        assert !AlikeAfter(t, ops, 1);
      } else {
        AlikeThroughout(u, rest);
        forall k | 0 < k <= |ops| ensures AlikeAfter(t, ops, k) <==> AlikeAfter(u, rest, k - 1) {
          AlikeShift(t, ops, k);
        }
        assert forall j :: 0 <= j <= |rest| ==> (AlikeAfter(u, rest, j) <==> AlikeAfter(t, ops, j + 1));
      }
    }
  }

  // ---- a history that asks too much ---------------------------------------------------

  lemma {:induction false} RunAppend(t: Timeline, a: seq<Op>, b: seq<Op>)
    requires Ok(t)
    ensures Ok(Run(t, a)) && Run(t, a + b) == Run(Run(t, a), b)
    decreases |a|
  {
    if a == [] {
      assert a + b == b;
    } else {
      ApplyOk(t, a[0]);
      RunAppend(Apply(t, a[0]), a[1..], b);
      assert (a + b)[1..] == a[1..] + b;
    }
  }

  function Visit(n: nat): Url { if n % 2 == 0 then "a" else "b" }

  /** n visits, to two pages in turn. */
  function Visits(n: nat): (all: seq<Url>)
    ensures |all| == n && (n > 0 ==> all[n - 1] == Visit(n))
  { if n == 0 then [] else Visits(n - 1) + [Visit(n)] }

  function Climb(n: nat): seq<Op> { if n == 0 then [] else Climb(n - 1) + [PushOp(Visit(n))] }

  lemma ClimbStep(n: nat)
    requires n > 0
    ensures var t := Timeline(Visits(n - 1), n - 2, Max(0, n - 1 - HIST_MAX));
      Push(t, Visit(n)) == Timeline(Visits(n), n - 1, Max(0, n - HIST_MAX))
  {
    assert Visits(n - 1)[..n - 1] == Visits(n - 1);
    assert n > 1 ==> Visit(n - 1) != Visit(n);
  }

  lemma {:induction false} Climbed(n: nat)
    ensures Run(EMPTY, Climb(n)) == Timeline(Visits(n), n - 1, Max(0, n - HIST_MAX))
  {
    if n > 0 {
      Climbed(n - 1);
      ClimbStep(n);
      var last := [PushOp(Visit(n))];
      RunAppend(EMPTY, Climb(n - 1), last);
      assert last[1..] == [];
    }
  }

  lemma {:induction false} SteppedBack(t: Timeline, m: nat)
    requires Ok(t) && m <= t.pos - t.floor
    ensures Run(t, seq(m, _ => BackOp)) == t.(pos := t.pos - m)
    decreases m
  {
    if m > 0 {
      assert seq(m, _ => BackOp)[1..] == seq(m - 1, _ => BackOp);
      SteppedBack(Back(t), m - 1);
    }
  }

  /** Eleven visits and nine steps back: the tenth step back is refused although there was an
      older page. */
  lemma TooFarExample()
    ensures var t := Run(EMPTY, Climb(11) + seq(9, _ => BackOp));
      Ok(t) && TooFar(t, BackOp) && Ideal(Apply(t, BackOp)) != Remember(t, BackOp)
  {
    Climbed(11);
    RunAppend(EMPTY, Climb(11), seq(9, _ => BackOp));
    SteppedBack(Run(EMPTY, Climb(11)), 9);
    RunOk(EMPTY, Climb(11) + seq(9, _ => BackOp));
  }

  /** A page is dropped only by a push onto a full window, and then exactly the oldest. */
  lemma DropsOldest(t: Timeline, url: Url)
    requires Ok(t)
    ensures Push(t, url).floor == t.floor + (if Push(t, url) != t && t.pos + 1 - t.floor == HIST_MAX then 1 else 0)
  {
  }

  /** A new page becomes the last one: everything that was ahead is gone, everything up to the
      page it was opened from stays. */
  lemma PushTruncates(t: Timeline, url: Url)
    requires Ok(t)
    ensures var u := Push(t, url);
      u.pos >= 0 && u.all[u.pos] == url && u.all[..u.pos] <= t.all
      && (u != t ==> Forward(u) == u && u.all == t.all[..t.pos + 1] + [url])
  {
  }

  /** Back and forward undo each other wherever they move at all. */
  lemma BackForward(t: Timeline)
    requires Ok(t)
    ensures Back(t) != t ==> Forward(Back(t)) == t
    ensures Forward(t) != t ==> Back(Forward(t)) == t
  {
  }

  /** After `i - 1` moves the slots below `i - 1` hold their right neighbours. */
  predicate Shifted(now: seq<Url>, was: seq<Url>, i: nat) {
    |now| == |was| && 1 <= i <= |was| && now[..i - 1] == was[1..i] && now[i - 1..] == was[i - 1..]
  }

  lemma ShiftStep(now: seq<Url>, was: seq<Url>, i: nat)
    requires Shifted(now, was, i) && i < |was|
    ensures Shifted(now[i - 1 := now[i]], was, i + 1)
  {
    assert now[i] == now[i - 1..][1] == was[i];
    var moved := now[i - 1 := now[i]];
    assert moved[..i] == now[..i - 1] + [now[i]];
    assert moved[i..] == now[i - 1..][1..];
  }

  lemma WindowAt(window: seq<Url>, t: Timeline, histPos: int)
    requires Ok(t) && window == t.all[t.floor..] && histPos == t.pos - t.floor
    ensures -1 <= histPos < |window| <= HIST_MAX
    ensures histPos >= 0 ==> window[histPos] == t.all[t.pos]
    ensures window[..histPos + 1] == t.all[t.floor..t.pos + 1]
  {
  }

  /** A full window makes room by losing its oldest page. */
  function Room(kept: seq<Url>): seq<Url> { if |kept| >= HIST_MAX then kept[1..] else kept }

  lemma PushWindow(t: Timeline, url: Url)
    requires Ok(t) && Push(t, url) != t
    ensures Ok(Push(t, url))
    ensures var u, kept := Push(t, url), t.all[t.floor..t.pos + 1];
      |kept| <= HIST_MAX && u.all[u.floor..] == Room(kept) + [url] && u.pos - u.floor == |Room(kept)|
  {
    ApplyOk(t, PushOp(url));
    var u, head, kept := Push(t, url), t.all[..t.pos + 1], t.all[t.floor..t.pos + 1];
    assert u.all == head + [url] && u.floor <= |head|;
    assert (head + [url])[u.floor..] == head[u.floor..] + [url];
    assert head[t.floor..] == kept;
    if u.floor != t.floor { assert head[t.floor + 1..] == kept[1..]; }
  }

  class Tab {
    const hist: array<Url>
    var histLen: nat
    var histPos: int
    ghost var timeline: Timeline

    ghost predicate Valid()
      reads this, hist
    {
      hist.Length == HIST_MAX && histLen <= HIST_MAX && Ok(timeline)
      && hist[..histLen] == timeline.all[timeline.floor..]
      && histPos == timeline.pos - timeline.floor
    }

    constructor ()
      ensures Valid() && timeline == EMPTY
    {
      hist := new Url[HIST_MAX](_ => []);
      histLen, histPos, timeline := 0, -1, EMPTY;
    }

    /** Slots 1..9 move down by one; slot 9 keeps its old content. */
    method Shift()
      requires hist.Length == HIST_MAX
      modifies hist
      ensures hist[..HIST_MAX - 1] == old(hist[1..])
    {
      ghost var was := hist[..];
      var i := 1;
      while i < HIST_MAX
        invariant 1 <= i <= HIST_MAX
        invariant Shifted(hist[..], was, i)
      {
        ghost var before := hist[..];
        hist[i - 1] := hist[i];
        assert hist[..] == before[i - 1 := before[i]];
        ShiftStep(before, was, i);
        i := i + 1;
      }
      assert hist[..HIST_MAX - 1] == hist[..][..HIST_MAX - 1];
    }

    /** The url is stored after the first `histLen` slots. */
    method Append(url: Url)
      requires hist.Length == HIST_MAX && histLen < HIST_MAX
      modifies this`histLen, this`histPos, hist
      ensures histLen == old(histLen) + 1 && histPos == histLen - 1
      ensures hist[..histLen] == old(hist[..histLen]) + [url]
    {
      hist[histLen] := url;
      histLen := histLen + 1;
      histPos := histLen - 1;
    }

    /** The pages ahead are cut off, a full window loses its oldest page, the url goes last. */
    method Record(url: Url)
      requires hist.Length == HIST_MAX && histLen <= HIST_MAX && -1 <= histPos && histPos + 1 <= histLen
      modifies this`histLen, this`histPos, hist
      ensures histLen <= HIST_MAX && histPos == histLen - 1
      ensures hist[..histLen] == Room(old(hist[..histPos + 1])) + [url]
    {
      if histPos < histLen - 1 { histLen := histPos + 1; }
      ghost var kept := hist[..histLen];
      if histLen >= HIST_MAX {
        assert kept == hist[..];
        Shift();
        histLen := HIST_MAX - 1;
      }
      Append(url);
    }

    method HistPush(url: Url)
      requires Valid()
      modifies this`histLen, this`histPos, this`timeline, hist
      ensures Valid() && timeline == Push(old(timeline), url)
    {
      WindowAt(hist[..histLen], timeline, histPos);
      if histPos >= 0 && hist[histPos] == url {
        return;
      }
      PushWindow(timeline, url);
      assert hist[..histPos + 1] == hist[..histLen][..histPos + 1];
      Record(url);
      timeline := Push(timeline, url);
    }

    /** hist_back: the page to load, when there is one. */
    method HistBack() returns (moved: bool, url: Url)
      requires Valid()
      modifies this`histPos, this`timeline
      ensures Valid() && timeline == Back(old(timeline)) && (moved <==> timeline != old(timeline))
      ensures moved ==> url == timeline.all[timeline.pos]
    {
      moved, url := false, [];
      if histPos > 0 {
        histPos := histPos - 1;
        timeline := Back(timeline);
        assert hist[histPos] == hist[..histLen][histPos];
        moved, url := true, hist[histPos];
      }
    }

    method HistForward() returns (moved: bool, url: Url)
      requires Valid()
      modifies this`histPos, this`timeline
      ensures Valid() && timeline == Forward(old(timeline)) && (moved <==> timeline != old(timeline))
      ensures moved ==> url == timeline.all[timeline.pos]
    {
      moved, url := false, [];
      assert |hist[..histLen]| == |timeline.all| - timeline.floor;
      if histPos >= 0 && histPos < histLen - 1 {
        histPos := histPos + 1;
        timeline := Forward(timeline);
        assert hist[histPos] == hist[..histLen][histPos];
        moved, url := true, hist[histPos];
      }
    }
  }
}
