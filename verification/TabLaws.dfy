/** What the tabs may rely on and what they may not: when the active fetch is the one of the tab
    shown, and when the request globals are those of the page shown. */
module TabLaws {
  import opened Options
  import opened Url
  import opened Tabs

  // ---- isolation ----------------------------------------------------------------------

  /** No step touches what another tab in use holds. */
  lemma Isolated(t: Tabs, op: Op, j: nat)
    requires Ok(t) && j < MAX_TABS && j != t.cur && t.used[j]
    ensures Apply(t, op).pages[j] == t.pages[j]
  {
    if op.CloseOp? && 0 <= op.i < MAX_TABS && t.used[op.i] && Count(t.used) <= 1 { OnlyOne(t.used, t.cur, op.i); }
  }

  /** The active fetch, if any, was asked for by the tab shown. */
  predicate Home(t: Tabs) { t.asker == -1 || t.asker == t.cur }

  /** A page goes to the tab shown when it arrives: to the tab that asked for it exactly when
      the fetch is at home, and otherwise that tab keeps what it had. */
  lemma PageLands(t: Tabs, e: Ending)
    requires Ok(t) && t.asker >= 0
    ensures EndFetch(t, e).pages[t.cur].page == e.page
    ensures if Home(t) then EndFetch(t, e).pages[t.asker].page == e.page
            else EndFetch(t, e).pages[t.asker] == t.pages[t.asker]
  {
  }

  // ---- leaving a tab during a fetch ---------------------------------------------------

  /** The step goes to another tab. */
  predicate Leaves(t: Tabs, op: Op)
    requires Ok(t)
  {
    match op
    case NewOp => Count(t.used) < MAX_TABS
    case SwitchOp(i) => 0 <= i < MAX_TABS && t.used[i] && i != t.cur
    case CloseOp(i) => i == t.cur && Count(t.used) > 1
    case _ => false
  }

  /** A fetch is active and the loading mark does not show it. */
  predicate Unmarked(t: Tabs) { t.asker >= 0 && !t.loading }

  predicate Strays(t: Tabs, op: Op)
    requires Ok(t)
  { Unmarked(t) && Leaves(t, op) }

  /** Exactly the steps of `Leaves` change the current tab. */
  lemma LeavesExactly(t: Tabs, op: Op)
    requires Ok(t)
    ensures Apply(t, op).cur != t.cur <==> Leaves(t, op)
  {
    CountParts(t.used);
    if op.CloseOp? && 0 <= op.i < MAX_TABS && t.used[op.i] {
      if Count(t.used) <= 1 {
        OnlyOne(t.used, t.cur, op.i);
      } else {
        CountUpdate(t.used, op.i, false);
        CountParts(t.used[op.i := false]);
      }
    }
  }

  /** A step keeps the fetch at home exactly unless it leaves the tab of an unmarked fetch. */
  lemma StepHome(t: Tabs, op: Op)
    requires Ok(t) && Home(t)
    ensures Home(Apply(t, op)) <==> !Strays(t, op)
  {
    LeavesExactly(t, op);
  }

  predicate HomeAt(t: Tabs, ops: seq<Op>, k: nat)
    requires Ok(t) && k <= |ops|
  { Home(After(t, ops, k)) }

  predicate StraysAt(t: Tabs, ops: seq<Op>, k: nat)
    requires Ok(t) && k < |ops|
  { Strays(After(t, ops, k), ops[k]) }

  lemma {:induction false} StaysHome(t: Tabs, ops: seq<Op>, k: nat)
    requires Ok(t) && Home(t) && k <= |ops| && forall j :: 0 <= j < k ==> !StraysAt(t, ops, j)
    ensures HomeAt(t, ops, k)
    decreases k
  {
    if k > 0 {
      StaysHome(t, ops, k - 1);
      assert !StraysAt(t, ops, k - 1);
      StepHome(After(t, ops, k - 1), ops[k - 1]);
    }
  }

  /** Over any run: the active fetch is that of the tab shown after every step, exactly when no
      step leaves the tab while a fetch is active that the mark does not show. */
  lemma HomeThroughout(t: Tabs, ops: seq<Op>)
    requires Ok(t) && Home(t)
    ensures (forall k :: 0 <= k <= |ops| ==> HomeAt(t, ops, k))
            <==> (forall k :: 0 <= k < |ops| ==> !StraysAt(t, ops, k))
  {
    if forall k :: 0 <= k < |ops| ==> !StraysAt(t, ops, k) {
      forall k | 0 <= k <= |ops| ensures HomeAt(t, ops, k) { StaysHome(t, ops, k); }
    } else {
      var k :| 0 <= k < |ops| && StraysAt(t, ops, k);
      if HomeAt(t, ops, k) {
        StepHome(After(t, ops, k), ops[k]);
        assert !HomeAt(t, ops, k + 1);
      }
    }
  }

  /** The mark is lost by one kind of step only: an address that fails to start during a fetch. */
  lemma MarkLost(t: Tabs, op: Op)
    requires Ok(t) && !Unmarked(t)
    ensures Unmarked(Apply(t, op)) <==> op.EnterOp? && !op.nav.ok && t.asker >= 0
  {
  }

  predicate FailsAt(t: Tabs, ops: seq<Op>, k: nat)
    requires Ok(t) && k < |ops|
  { ops[k].EnterOp? && !ops[k].nav.ok && After(t, ops, k).asker >= 0 }

  lemma {:induction false} StaysMarked(t: Tabs, ops: seq<Op>, k: nat)
    requires Ok(t) && !Unmarked(t) && k <= |ops| && forall j :: 0 <= j < k ==> !FailsAt(t, ops, j)
    ensures !Unmarked(After(t, ops, k))
    decreases k
  {
    if k > 0 {
      StaysMarked(t, ops, k - 1);
      assert !FailsAt(t, ops, k - 1);
      MarkLost(After(t, ops, k - 1), ops[k - 1]);
    }
  }

  /** So a run in which no address fails to start during a fetch never loses a page. */
  lemma NoFailureNoStray(t: Tabs, ops: seq<Op>)
    requires Ok(t) && Home(t) && !Unmarked(t) && forall k :: 0 <= k < |ops| ==> !FailsAt(t, ops, k)
    ensures forall k :: 0 <= k <= |ops| ==> HomeAt(t, ops, k)
  {
    forall k | 0 <= k < |ops| ensures !StraysAt(t, ops, k) { StaysMarked(t, ops, k); }
    HomeThroughout(t, ops);
  }

  // ---- a page in the wrong tab --------------------------------------------------------

  /** A browser with one empty tab. */
  function First(r: Req): (t: Tabs)
    ensures Ok(t) && Home(t) && !Unmarked(t)
  { Tabs([true, false, false, false], 0, [NEW_TAB, NEW_TAB, NEW_TAB, NEW_TAB], false, -1, r, r) }

  /** A second tab; in the first a fetch, then an address that does not parse; back to the second. */
  function StrayRun(r: Req, page: string): seq<Op> {
    [NewOp, SwitchOp(0), EnterOp(Nav("example.com", true, r, "Resolving"), 1, 0),
     EnterOp(Nav("example.com:", false, r, "Bad URL"), 2, 1), SwitchOp(1), SendOp,
     EndOp(Ending(true, page, "", 0, 1, ""))]
  }

  lemma SecondTab(r: Req)
    ensures var u := NewTab(First(r)); u == First(r).(used := [true, true, false, false], cur := 1)
  {
    var t := First(r);
    assert FirstWhere(t.used, false, 0) == FirstWhere(t.used, false, 1) == 1;
    assert t.pages[1 := NEW_TAB] == t.pages;
  }

  lemma StrayStart(r: Req, page: string)
    ensures var u := After(First(r), StrayRun(r, page), 4);
      u.asker == 0 && !u.loading && u.cur == 0 && u.used == [true, true, false, false]
  {
    var t, ops := First(r), StrayRun(r, page);
    SecondTab(r);
    var u1 := After(t, ops, 1);
    assert After(t, ops, 0) == t && u1 == NewTab(t);
    var u2 := After(t, ops, 2);
    assert u2 == SwitchTab(u1, 0) && u2.cur == 0 && u2.used == u1.used;
    var u3 := After(t, ops, 3);
    assert u3 == Apply(u2, ops[2]) && u3.asker == 0 && u3.loading && u3.cur == 0 && u3.used == u2.used;
    assert After(t, ops, 4) == Apply(u3, ops[3]);
  }

  /** The page that the first tab asked for is shown in the second. */
  lemma StrayPage(r: Req, page: string)
    ensures var t, ops := First(r), StrayRun(r, page); var u, v := After(t, ops, 6), After(t, ops, 7);
      StraysAt(t, ops, 4) && u.asker == 0 && u.cur == 1 && v.pages[1].page == page && v.pages[0] == u.pages[0]
  {
    var t, ops := First(r), StrayRun(r, page);
    StrayStart(r, page);
    var u4 := After(t, ops, 4);
    var u5 := After(t, ops, 5);
    assert u5 == SwitchTab(u4, 1) && u5.asker == 0 && u5.cur == 1;
    var u6 := After(t, ops, 6);
    assert u6 == SendFetch(u5) && u6.asker == 0 && u6.cur == 1;
    assert After(t, ops, 7) == EndFetch(u6, ops[6].e);
  }

  // ---- the request globals and the page shown -----------------------------------------

  /** The links of such a page are resolved against the request it was fetched with, or there
      are none to follow. */
  predicate Suits(c: Content, req: Req) { c.page == "" || c.origin.None? || c.origin.value == req }

  predicate InTune(t: Tabs)
    requires Shaped(t)
  { Suits(t.pages[t.cur], t.req) }

  /** The step shows a page that does not suit the request globals. */
  predicate Detunes(t: Tabs, op: Op)
    requires Ok(t)
  {
    match op
    case SwitchOp(i) => Leaves(t, op) && !Suits(t.pages[i], t.req)
    case CloseOp(i) =>
      Leaves(t, op) && var j := FirstWhere(t.used[i := false], true, 0); j < MAX_TABS && !Suits(t.pages[j], t.req)
    case EndOp(e) => t.asker >= 0 && !Suits(Shown(t.pages[t.cur], e, t.sent), t.req)
    case _ => false
  }

  /** Only three kinds of step can do that: going to a tab with a page of another request,
      closing down to one, and the end of a fetch that was sent with other globals or failed. */
  lemma StepTune(t: Tabs, op: Op)
    requires Ok(t) && InTune(t)
    ensures Ok(Apply(t, op)) && (InTune(Apply(t, op)) <==> !Detunes(t, op))
  {
    ApplyOk(t, op);
    match op
    case NewOp => OpenOk(t);
    case CloseOp(i) => CloseTune(t, i);
    case _ =>
  }

  lemma CloseTune(t: Tabs, i: int)
    requires Ok(t) && InTune(t)
    ensures Ok(CloseTab(t, i)) && (InTune(CloseTab(t, i)) <==> !Detunes(t, CloseOp(i)))
  {
    CloseOk(t, i);
    CountParts(t.used);
    if 0 <= i < MAX_TABS && t.used[i] {
      if Count(t.used) <= 1 {
        OnlyOne(t.used, t.cur, i);
      } else {
        CountUpdate(t.used, i, false);
        CountParts(t.used[i := false]);
      }
    }
  }

  predicate InTuneAt(t: Tabs, ops: seq<Op>, k: nat)
    requires Ok(t) && k <= |ops|
  { InTune(After(t, ops, k)) }

  predicate DetunesAt(t: Tabs, ops: seq<Op>, k: nat)
    requires Ok(t) && k < |ops|
  { Detunes(After(t, ops, k), ops[k]) }

  lemma {:induction false} StaysInTune(t: Tabs, ops: seq<Op>, k: nat)
    requires Ok(t) && InTune(t) && k <= |ops| && forall j :: 0 <= j < k ==> !DetunesAt(t, ops, j)
    ensures InTuneAt(t, ops, k)
    decreases k
  {
    if k > 0 {
      StaysInTune(t, ops, k - 1);
      assert !DetunesAt(t, ops, k - 1);
      StepTune(After(t, ops, k - 1), ops[k - 1]);
    }
  }

  /** Over any run: the request globals suit the page shown after every step, exactly when no
      step detunes them. */
  lemma TuneThroughout(t: Tabs, ops: seq<Op>)
    requires Ok(t) && InTune(t)
    ensures (forall k :: 0 <= k <= |ops| ==> InTuneAt(t, ops, k))
            <==> (forall k :: 0 <= k < |ops| ==> !DetunesAt(t, ops, k))
  {
    if forall k :: 0 <= k < |ops| ==> !DetunesAt(t, ops, k) {
      forall k | 0 <= k <= |ops| ensures InTuneAt(t, ops, k) { StaysInTune(t, ops, k); }
    } else {
      var k :| 0 <= k < |ops| && DetunesAt(t, ops, k);
      if InTuneAt(t, ops, k) {
        StepTune(After(t, ops, k), ops[k]);
        assert !InTuneAt(t, ops, k + 1);
      }
    }
  }

  /** What that means for a rooted link: it goes to the server of the page it stands on exactly
      when the globals name that server. */
  lemma LinkGoesHome(t: Tabs, prev: Req, href: seq<char>)
    requires Ok(t) && Served(t.req) && t.pages[t.cur].origin.Some? && Rooted(href) && Resolve(t.req, href).Some?
    ensures var own, goal := t.pages[t.cur].origin.value, Parse(prev, Resolve(t.req, href).value).req;
      goal.host == own.host && goal.port == own.port <==> t.req.host == own.host && t.req.port == own.port
  {
    LinkRoundTrip(t.req, prev, href);
  }

  /** A page in each of two tabs, and back to the first. */
  function TwoServers(a: Req, b: Req, page: string): seq<Op> {
    var done := EndOp(Ending(true, page, "", 1, 1, ""));
    [EnterOp(Nav("a", true, a, ""), 1, 0), SendOp, done, NewOp,
     EnterOp(Nav("b", true, b, ""), 1, 0), SendOp, done, SwitchOp(0)]
  }

  lemma FirstServer(a: Req, b: Req, page: string)
    ensures var u := After(First(a), TwoServers(a, b, page), 3);
      u.pages[0].page == page && u.pages[0].origin == Some(a) && u.used == First(a).used && u.cur == 0 && !u.loading
  {
    var t, ops := First(a), TwoServers(a, b, page);
    var u1 := After(t, ops, 1);
    assert After(t, ops, 0) == t && u1 == Apply(t, ops[0]) && u1.asker == 0 && u1.cur == 0 && u1.used == t.used;
    var u2 := After(t, ops, 2);
    assert u2 == SendFetch(u1) && u2.sent == a;
    assert After(t, ops, 3) == EndFetch(u2, ops[2].e);
  }

  lemma SecondServer(a: Req, b: Req, page: string)
    ensures var u, v := After(First(a), TwoServers(a, b, page), 3), After(First(a), TwoServers(a, b, page), 5);
      v.cur == 1 && v.req == b && v.pages[0] == u.pages[0] && v.asker == 1 && v.used[0]
  {
    var t, ops := First(a), TwoServers(a, b, page);
    FirstServer(a, b, page);
    var u3 := After(t, ops, 3);
    assert FirstWhere(u3.used, false, 0) == FirstWhere(u3.used, false, 1) == 1;
    var u4 := After(t, ops, 4);
    assert u4 == NewTab(u3) && u4.cur == 1 && u4.pages[0] == u3.pages[0] && u4.used[0];
    assert After(t, ops, 5) == Apply(u4, ops[4]);
  }

  /** The page of the first tab is shown, and the globals are those of the second. */
  lemma OtherServer(a: Req, b: Req, page: string)
    requires a != b && page != ""
    ensures var t, ops := First(a), TwoServers(a, b, page); var u := After(t, ops, 8);
      u.cur == 0 && u.pages[0].page == page && u.pages[0].origin == Some(a) && u.req == b && !InTune(u)
  {
    var t, ops := First(a), TwoServers(a, b, page);
    FirstServer(a, b, page);
    SecondServer(a, b, page);
    var u5 := After(t, ops, 5);
    var u6 := After(t, ops, 6);
    assert u6 == SendFetch(u5) && u6.cur == 1 && u6.asker == 1;
    var u7 := After(t, ops, 7);
    assert u7 == EndFetch(u6, ops[6].e) && u7.cur == 1 && u7.req == b && u7.pages[0] == u5.pages[0] && !u7.loading;
    assert After(t, ops, 8) == SwitchTab(u7, 0);
  }
}
