/** The tab set and its strip: opening, switching and closing tabs, the one fetch they share, and
    clicks on what the strip shows.  Whether the browser marks itself as loading and whether a
    fetch is active are two facts here, as they are in the code. */
module Tabs {
  import opened Options
  import opened Url

  const MAX_TABS := 4
  const TAB_H := 20
  const STATUS_H := 16
  const STRIP_X := 94
  const TAB_W := 96
  const TAB_STEP := 100
  const CLOSE_W := 16
  const PLUS_W := 28

  /** What a tab holds of its own; `origin` is the request its link table was read with. */
  datatype Content = Content(url: string, title: string, page: string, status: string, focused: bool,
                             histLen: nat, histPos: int, links: nat, scroll: nat, lines: nat, origin: Option<Req>)

  const NEW_TAB :=
    Content("", "", "(new tab)", "Ready - type a URL and press ENTER", true, 0, -1, 0, 0, 1, None)

  /** Which slots are in use, which of them is current and what they hold; the loading mark; the
      tab that asked for the active fetch, -1 when none is active; the request globals, and what
      they were when the request was sent. */
  datatype Tabs = Tabs(used: seq<bool>, cur: int, pages: seq<Content>, loading: bool, asker: int, req: Req, sent: Req)

  predicate Shaped(t: Tabs) { |t.used| == |t.pages| == MAX_TABS && 0 <= t.cur < MAX_TABS }

  function Count(used: seq<bool>): nat {
    if used == [] then 0 else (if used[0] then 1 else 0) + Count(used[1..])
  }

  /** The invariant: the current tab exists, so between one and four tabs do. */
  predicate Ok(t: Tabs) { Shaped(t) && t.used[t.cur] && -1 <= t.asker < MAX_TABS }

  function FirstWhere(used: seq<bool>, value: bool, i: nat): (k: nat)
    requires i <= |used|
    ensures i <= k <= |used| && (k < |used| ==> used[k] == value)
    ensures forall j :: i <= j < k ==> used[j] != value
    decreases |used| - i
  {
    if i == |used| || used[i] == value then i else FirstWhere(used, value, i + 1)
  }

  lemma CountParts(used: seq<bool>)
    ensures Count(used) <= |used|
    ensures Count(used) > 0 <==> exists i :: 0 <= i < |used| && used[i]
    ensures Count(used) < |used| <==> exists i :: 0 <= i < |used| && !used[i]
  {
    if used != [] {
      CountParts(used[1..]);
      assert forall i :: 0 < i < |used| ==> used[i] == used[1..][i - 1];
    }
  }

  lemma {:induction false} CountUpdate(used: seq<bool>, i: nat, v: bool)
    requires i < |used|
    ensures Count(used[i := v]) == Count(used) - (if used[i] then 1 else 0) + (if v then 1 else 0)
  {
    if i == 0 {
      assert used[i := v][1..] == used[1..];
    } else {
      assert used[i := v][1..] == used[1..][i - 1 := v];
      CountUpdate(used[1..], i - 1, v);
    }
  }

  // ---- what the user can do -----------------------------------------------------------

  function SetStatus(t: Tabs, status: string): Tabs
    requires Shaped(t)
  { t.(pages := t.pages[t.cur := t.pages[t.cur].(status := status)]) }

  /** cancel_load without a reason.  The callers look at the mark, not at the fetch. */
  function Dropped(t: Tabs): Tabs { if t.loading then t.(loading := false, asker := -1) else t }

  /** cancel_load with a reason: the tab being left says so. */
  function Cancelled(t: Tabs, why: string): Tabs
    requires Shaped(t)
  { if t.loading then SetStatus(Dropped(t), why) else t }

  /** The lowest free slot becomes the current tab, with nothing in it; with four tabs only the
      status changes. */
  function NewTab(t: Tabs): Tabs
    requires Shaped(t)
  {
    var i := FirstWhere(t.used, false, 0);
    if i == MAX_TABS then SetStatus(t, "Tab limit (4)") else
    var u := Cancelled(t, "Load cancelled (new tab)");
    u.(used := u.used[i := true], cur := i, pages := u.pages[i := NEW_TAB])
  }

  function SwitchTab(t: Tabs, i: int): Tabs
    requires Shaped(t)
  {
    if 0 <= i < MAX_TABS && t.used[i] && i != t.cur then Cancelled(t, "Load cancelled (tab switch)").(cur := i) else t
  }

  /** Closing the last tab leaves a fresh tab in its place; closing the current one gives up a
      marked load and moves to the lowest tab left. */
  function CloseTab(t: Tabs, i: int): Tabs
    requires Shaped(t)
  {
    if !(0 <= i < MAX_TABS && t.used[i]) then t
    else if Count(t.used) <= 1 then t.(cur := i, pages := t.pages[i := NEW_TAB])
    else
      var used := t.used[i := false];
      if i == t.cur then Dropped(t).(used := used, cur := FirstWhere(used, true, 0)) else t.(used := used)
  }

  // ---- the fetch ----------------------------------------------------------------------

  /** An address to fetch, and what start_request makes of it: does it get under way, what are
      the request globals then, what does the status line say? */
  datatype Nav = Nav(url: string, ok: bool, req: Req, status: string)

  /** start_request in the current tab.  When it fails the mark is cleared and a fetch that was
      active goes on. */
  function StartFetch(t: Tabs, nav: Nav): Tabs
    requires Shaped(t)
  {
    t.(pages := t.pages[t.cur := t.pages[t.cur].(url := nav.url, page := "", scroll := 0, status := nav.status)],
       loading := nav.ok, asker := if nav.ok then t.cur else t.asker, req := nav.req)
  }

  function SetHistory(t: Tabs, len: nat, pos: int): Tabs
    requires Shaped(t)
  { t.(pages := t.pages[t.cur := t.pages[t.cur].(histLen := len, histPos := pos)]) }

  /** An address entered or a link followed; the history is as the push leaves it. */
  function Enter(t: Tabs, nav: Nav, len: nat, pos: int): Tabs
    requires Shaped(t)
  { StartFetch(SetHistory(t, len, pos), nav) }

  function GoBackFrom(t: Tabs, nav: Nav): Tabs
    requires Shaped(t)
  {
    var c := t.pages[t.cur];
    if c.histPos > 0 then StartFetch(SetHistory(Dropped(t), c.histLen, c.histPos - 1), nav) else t
  }

  function GoForwardFrom(t: Tabs, nav: Nav): Tabs
    requires Shaped(t)
  {
    var c := t.pages[t.cur];
    if 0 <= c.histPos < c.histLen - 1 then StartFetch(SetHistory(Dropped(t), c.histLen, c.histPos + 1), nav) else t
  }

  function SaveBookmark(t: Tabs, status: string): Tabs
    requires Shaped(t)
  { if t.pages[t.cur].url == "" then t else SetStatus(t, status) }

  /** The request is written with the globals of that moment, or its TLS write is refused. */
  function SendFetch(t: Tabs): Tabs { if t.asker >= 0 then t.(sent := t.req) else t }

  function RefuseWrite(t: Tabs): Tabs { t.(asker := -1) }

  /** How a fetch ends: a rendered page, or a failure message. */
  datatype Ending = Ending(ok: bool, page: string, title: string, links: nat, lines: nat, status: string)

  /** What the tab shows then.  A failure leaves the link table of the last page. */
  function Shown(c: Content, e: Ending, sent: Req): Content {
    if e.ok then c.(page := e.page, title := e.title, links := e.links, lines := e.lines, status := e.status,
                    focused := false, origin := Some(sent))
    else c.(page := e.page, lines := 1, status := "Failed", focused := true)
  }

  /** finish_ok and finish_err write to the tab that is current when the fetch ends. */
  function EndFetch(t: Tabs, e: Ending): Tabs
    requires Shaped(t)
  {
    if t.asker < 0 then t
    else t.(loading := false, asker := -1, pages := t.pages[t.cur := Shown(t.pages[t.cur], e, t.sent)])
  }

  // ---- what every step keeps ----------------------------------------------------------

  lemma OpenOk(t: Tabs)
    requires Ok(t)
    ensures Ok(NewTab(t))
    ensures Count(NewTab(t).used) == if Count(t.used) < MAX_TABS then Count(t.used) + 1 else Count(t.used)
    ensures var u := NewTab(t);
      Count(t.used) < MAX_TABS ==> !u.loading && u.pages[u.cur] == NEW_TAB && !t.used[u.cur]
  {
    CountParts(t.used);
    var i := FirstWhere(t.used, false, 0);
    if i < MAX_TABS { CountUpdate(t.used, i, true); }
  }

  lemma CloseOk(t: Tabs, i: int)
    requires Ok(t)
    ensures Ok(CloseTab(t, i))
    ensures 0 <= i < MAX_TABS && t.used[i] ==>
      Count(CloseTab(t, i).used) == if Count(t.used) > 1 then Count(t.used) - 1 else 1
  {
    CountParts(t.used);
    if 0 <= i < MAX_TABS && t.used[i] {
      CountUpdate(t.used, i, false);
      CountParts(t.used[i := false]);
      if Count(t.used) <= 1 { OnlyOne(t.used, t.cur, i); }
    }
  }

  /** With one tab in use, it is the current one. */
  lemma OnlyOne(used: seq<bool>, i: nat, j: nat)
    requires i < |used| && j < |used| && used[i] && used[j] && Count(used) <= 1
    ensures i == j
  {
    var rest := used[i := false];
    assert j == i || rest[j];
    CountUpdate(used, i, false);
    CountParts(rest);
  }

  datatype Op =
    | NewOp | SwitchOp(i: int) | CloseOp(i: int)
    | EnterOp(nav: Nav, len: nat, pos: int) | BackOp(nav: Nav) | ForwardOp(nav: Nav) | BookmarkOp(status: string)
    | SendOp | RefuseOp | EndOp(e: Ending)

  function Apply(t: Tabs, op: Op): Tabs
    requires Shaped(t)
  {
    match op
    case NewOp => NewTab(t)
    case SwitchOp(i) => SwitchTab(t, i)
    case CloseOp(i) => CloseTab(t, i)
    case EnterOp(nav, len, pos) => Enter(t, nav, len, pos)
    case BackOp(nav) => GoBackFrom(t, nav)
    case ForwardOp(nav) => GoForwardFrom(t, nav)
    case BookmarkOp(status) => SaveBookmark(t, status)
    case SendOp => SendFetch(t)
    case RefuseOp => RefuseWrite(t)
    case EndOp(e) => EndFetch(t, e)
  }

  lemma ApplyOk(t: Tabs, op: Op)
    requires Ok(t)
    ensures Ok(Apply(t, op))
  {
    match op
    case NewOp => OpenOk(t);
    case CloseOp(i) => CloseOk(t, i);
    case _ =>
  }

  /** The state after the first k steps of a run. */
  function After(t: Tabs, ops: seq<Op>, k: nat): (u: Tabs)
    requires Ok(t) && k <= |ops|
    ensures Ok(u)
  {
    if k == 0 then t else
    var u := After(t, ops, k - 1);
    ApplyOk(u, ops[k - 1]);
    Apply(u, ops[k - 1])
  }

  /** Whatever happens, the current tab exists and there are one to four tabs. */
  lemma RunOk(t: Tabs, ops: seq<Op>, k: nat)
    requires Ok(t) && k <= |ops|
    ensures Ok(After(t, ops, k)) && 1 <= Count(After(t, ops, k).used) <= MAX_TABS
  {
    CountParts(After(t, ops, k).used);
  }

  // ---- where the strip shows what -----------------------------------------------------

  /** Left edge of tab i on the strip: one step per tab in use before it. */
  function TabX(used: seq<bool>, i: nat): int
    requires i <= |used|
  { STRIP_X + TAB_STEP * Count(used[..i]) }

  datatype Action = Nothing | GoBack | GoForward | Bookmark | Close(i: nat) | Switch(i: nat) | Open

  /** What the strip shows in column mx, independently of how the click loop searches. */
  predicate Shows(used: seq<bool>, mx: int, a: Action)
    requires |used| == MAX_TABS
  {
    match a
    case GoBack => 4 <= mx < 34
    case GoForward => 34 <= mx < 64
    case Bookmark => 64 <= mx < 94
    case Close(i) => i < MAX_TABS && used[i] && TabX(used, i) + TAB_W - CLOSE_W <= mx < TabX(used, i) + TAB_W
    case Switch(i) => i < MAX_TABS && used[i] && TabX(used, i) <= mx < TabX(used, i) + TAB_W - CLOSE_W
    case Open => Count(used) < MAX_TABS && TabX(used, MAX_TABS) <= mx < TabX(used, MAX_TABS) + PLUS_W
    case Nothing => true
  }

  predicate OnStrip(winCh: int, my: int) { winCh - STATUS_H - TAB_H <= my < winCh - STATUS_H }

  /** What an action does; `nav` is what becomes of a fetch it starts. */
  function Perform(t: Tabs, a: Action, nav: Nav): Tabs
    requires Shaped(t)
  {
    match a
    case Nothing => t
    case GoBack => GoBackFrom(t, nav)
    case GoForward => GoForwardFrom(t, nav)
    case Bookmark => SaveBookmark(t, nav.status)
    case Close(i) => CloseTab(t, i)
    case Switch(i) => SwitchTab(t, i)
    case Open => NewTab(t)
  }

  lemma {:induction false} TabXGrows(used: seq<bool>, i: nat, j: nat)
    requires i <= j <= |used|
    ensures TabX(used, i) <= TabX(used, j)
    ensures i < j && used[i] ==> TabX(used, i) + TAB_STEP <= TabX(used, j)
    decreases j - i
  {
    if i < j {
      CountSnoc(used, i);
      TabXGrows(used, i + 1, j);
    }
  }

  lemma {:induction false} CountSnoc(used: seq<bool>, i: nat)
    requires i < |used|
    ensures Count(used[..i + 1]) == Count(used[..i]) + (if used[i] then 1 else 0)
  {
    if i == 0 {
      assert used[..1] == [used[0]];
    } else {
      assert used[..i + 1][1..] == used[1..][..i] && used[..i][1..] == used[1..][..i - 1];
      CountSnoc(used[1..], i - 1);
    }
  }

  /** Only one thing is shown at a time, so the strip determines the action. */
  lemma ShowsOne(used: seq<bool>, mx: int, a: Action, b: Action)
    requires |used| == MAX_TABS && Shows(used, mx, a) && Shows(used, mx, b) && a != Nothing && b != Nothing
    ensures a == b
  {
    if a.Open? || a.Close? || a.Switch? {
      var i := if a == Open then MAX_TABS else a.i;
      if b.Open? || b.Close? || b.Switch? {
        var j := if b == Open then MAX_TABS else b.i;
        if i < j { TabXGrows(used, i, j); } else if j < i { TabXGrows(used, j, i); }
      }
    }
  }

  lemma LeftOfTabs(used: seq<bool>, mx: int)
    requires |used| == MAX_TABS && mx < 4
    ensures forall b :: b != Nothing ==> !Shows(used, mx, b)
  {
    forall b | b != Nothing
      ensures !Shows(used, mx, b)
    {
      if b.Open? { TabXGrows(used, 0, MAX_TABS); }
    }
  }

  /** A click on what is painted does what it says: the button signs, and for each tab its label,
      which starts 4 pixels in, and its x, which is painted 14 pixels before its end. */
  lemma StripLabels(used: seq<bool>, i: nat)
    requires |used| == MAX_TABS && i < MAX_TABS && used[i]
    ensures Shows(used, 12, GoBack) && Shows(used, 42, GoForward) && Shows(used, 72, Bookmark)
    ensures var x := 94 + 100 * Count(used[..i]);
      (forall mx :: x + 4 <= mx < x + 80 ==> Shows(used, mx, Switch(i)))
      && (forall mx :: x + 82 <= mx < x + 96 ==> Shows(used, mx, Close(i)))
    ensures Count(used) < 4 ==> Shows(used, 94 + 100 * Count(used) + 6, Open)
  {
    assert used[..MAX_TABS] == used;
  }

  /** What a click does to the tab set, said without the functions: a label makes its tab current and
      closes nothing, an x makes its tab unused unless it is the only one, "+" adds an empty tab, and
      the buttons change neither. */
  predicate Effect(t: Tabs, a: Action, u: Tabs)
    requires Shaped(t) && Shaped(u)
  {
    match a
    case Switch(i) => u.cur == i && u.used == t.used
    case Close(i) => i < MAX_TABS && (i != t.cur ==> u.cur == t.cur)
      && (if Count(t.used) > 1 then u.used == t.used[i := false] && u.pages == t.pages
          else u.used == t.used && u.cur == i && u.pages[i] == NEW_TAB)
    case Open => Count(u.used) == Count(t.used) + 1 && !t.used[u.cur] && u.pages[u.cur] == NEW_TAB
    case _ => u.used == t.used && u.cur == t.cur
  }

  lemma PerformEffect(t: Tabs, mx: int, a: Action, nav: Nav)
    requires Ok(t) && Shows(t.used, mx, a)
    ensures Ok(Perform(t, a, nav)) && Effect(t, a, Perform(t, a, nav))
  {
    match a
    case Close(i) => CloseOk(t, i); CloseMeans(t);
    case Open => OpenOk(t);
    case _ =>
  }

  /** Closing the only tab is closing the current one. */
  lemma CloseMeans(t: Tabs)
    requires Ok(t)
    ensures Count(t.used) >= 1
    ensures Count(t.used) == 1 ==> forall i :: 0 <= i < MAX_TABS && t.used[i] ==> i == t.cur
  {
    CountParts(t.used);
    if Count(t.used) == 1 {
      forall i | 0 <= i < MAX_TABS && t.used[i] ensures i == t.cur { OnlyOne(t.used, t.cur, i); }
    }
  }

  // ---- the code -----------------------------------------------------------------------

  method FirstUsed(used: seq<bool>) returns (j: nat)
    ensures j == FirstWhere(used, true, 0)
  {
    j := 0;
    while j < |used| && !used[j]
      invariant j <= |used| && FirstWhere(used, true, j) == FirstWhere(used, true, 0)
    {
      j := j + 1;
    }
  }

  class Strip {
    var used: seq<bool>
    var cur: int
    var pages: seq<Content>
    var loading: bool
    var active: bool
    var req: Req
    var sent: Req   // a record of `req`, not a variable of the program
    ghost var asker: int

    ghost function View(): Tabs
      reads this
    { Tabs(used, cur, pages, loading, if active then asker else -1, req, sent) }

    ghost predicate Valid() reads this { Ok(View()) && 0 <= asker }

    constructor (first: Content, r: Req)
      ensures Valid() && View() == Tabs([true, false, false, false], 0, [first, first, first, first], false, -1, r, r)
    {
      used, cur, pages := [true, false, false, false], 0, [first, first, first, first];
      loading, active, asker, req, sent := false, false, 0, r, r;
    }

    method SetStatusText(status: string)
      requires Valid()
      modifies this`pages
      ensures Valid() && View() == SetStatus(old(View()), status)
    {
      pages := pages[cur := pages[cur].(status := status)];
    }

    /** `if (loading) cancel_load(0)`. */
    method DropLoad()
      requires Valid()
      modifies this`loading, this`active
      ensures Valid() && View() == Dropped(old(View()))
    {
      if loading { loading, active := false, false; }
    }

    /** `if (loading) cancel_load(why)`. */
    method CancelLoad(why: string)
      requires Valid()
      modifies this`pages, this`loading, this`active
      ensures Valid() && View() == Cancelled(old(View()), why)
    {
      if loading {
        DropLoad();
        SetStatusText(why);
      }
    }

    method StartRequest(nav: Nav)
      requires Valid()
      modifies this
      ensures Valid() && View() == StartFetch(old(View()), nav)
    {
      pages := pages[cur := pages[cur].(url := nav.url, page := "", scroll := 0, status := nav.status)];
      loading, req := true, nav.req;
      if nav.ok {
        active, asker := true, cur;
      } else {
        loading := false;
      }
    }

    method SetHistoryOf(len: nat, pos: int)
      requires Valid()
      modifies this`pages
      ensures Valid() && View() == SetHistory(old(View()), len, pos)
    {
      pages := pages[cur := pages[cur].(histLen := len, histPos := pos)];
    }

    method HistBack(nav: Nav)
      requires Valid()
      modifies this
      ensures Valid() && View() == GoBackFrom(old(View()), nav)
    {
      var c := pages[cur];
      if c.histPos > 0 {
        DropLoad();
        SetHistoryOf(c.histLen, c.histPos - 1);
        StartRequest(nav);
      }
    }

    method HistForward(nav: Nav)
      requires Valid()
      modifies this
      ensures Valid() && View() == GoForwardFrom(old(View()), nav)
    {
      var c := pages[cur];
      if c.histPos >= 0 && c.histPos < c.histLen - 1 {
        DropLoad();
        SetHistoryOf(c.histLen, c.histPos + 1);
        StartRequest(nav);
      }
    }

    method BookmarkSave(status: string)
      requires Valid()
      modifies this`pages
      ensures Valid() && View() == SaveBookmark(old(View()), status)
    {
      if pages[cur].url == "" { return; }
      SetStatusText(status);
    }

    /** send_request; `ok` is false when the TLS write is refused. */
    method Send(ok: bool)
      requires Valid()
      modifies this
      ensures Valid() && View() == if ok then SendFetch(old(View())) else RefuseWrite(old(View()))
    {
      if !ok {
        active := false;
      } else if active {
        sent := req;
      }
    }

    /** finish_ok and finish_err. */
    method Finish(e: Ending)
      requires Valid()
      modifies this
      ensures Valid() && View() == EndFetch(old(View()), e)
    {
      if active {
        loading, active := false, false;
        pages := pages[cur := Shown(pages[cur], e, sent)];
      }
    }

    method UsedCount() returns (n: nat)
      ensures n == Count(used)
    {
      n := 0;
      var i := 0;
      while i < |used|
        invariant 0 <= i <= |used| && n + Count(used[i..]) == Count(used)
      {
        assert used[i..][0] == used[i] && used[i..][1..] == used[i + 1..];
        if used[i] { n := n + 1; }
        i := i + 1;
      }
    }

    method TabNew()
      requires Valid()
      modifies this
      ensures Valid() && View() == NewTab(old(View()))
    {
      OpenOk(View());
      var i := FindFree();
      if i < MAX_TABS {
        CancelLoad("Load cancelled (new tab)");
        used, pages, cur := used[i := true], pages[i := NEW_TAB], i;
      } else {
        SetStatusText("Tab limit (4)");
      }
    }

    method FindFree() returns (i: nat)
      requires Valid()
      ensures i == FirstWhere(used, false, 0)
    {
      i := 0;
      while i < MAX_TABS && used[i]
        invariant i <= MAX_TABS && FirstWhere(used, false, i) == FirstWhere(used, false, 0)
      {
        i := i + 1;
      }
    }

    method TabSwitch(i: int)
      requires Valid()
      modifies this
      ensures Valid() && View() == SwitchTab(old(View()), i)
    {
      if i < 0 || i >= MAX_TABS || !used[i] || i == cur { return; }
      CancelLoad("Load cancelled (tab switch)");
      cur := i;
    }

    method TabClose(i: int)
      requires Valid()
      modifies this
      ensures Valid() && View() == CloseTab(old(View()), i)
    {
      CloseOk(View(), i);
      if i < 0 || i >= MAX_TABS || !used[i] { return; }
      var n := UsedCount();
      if n <= 1 {
        pages, cur := pages[i := NEW_TAB], i;
        return;
      }
      if i == cur { DropLoad(); }
      used := used[i := false];
      if i == cur {
        cur := FirstUsed(used);
      }
    }

    /** The painting loop: one header per tab in use, and where the "+" goes, if anywhere. */
    method DrawStrip() returns (headers: map<nat, int>, plus: int)
      requires Valid()
      ensures forall i :: i in headers <==> 0 <= i < MAX_TABS && used[i]
      ensures forall i :: i in headers ==> headers[i] == TabX(used, i)
      ensures plus == if Count(used) < MAX_TABS then TabX(used, MAX_TABS) else -1
    {
      var tx, i := STRIP_X, 0;
      headers := map[];
      while i < MAX_TABS
        invariant 0 <= i <= MAX_TABS && tx == TabX(used, i)
        invariant forall k :: k in headers <==> 0 <= k < i && used[k]
        invariant forall k :: k in headers ==> headers[k] == TabX(used, k)
      {
        CountSnoc(used, i);
        if used[i] {
          headers := headers[i := tx];
          tx := tx + TAB_STEP;
        }
        i := i + 1;
      }
      var n := UsedCount();
      plus := if n < MAX_TABS then tx else -1;
    }

    /** Which tab control is in column mx?  The search loop of tab_strip_click. */
    method Find(mx: int) returns (a: Action)
      requires Valid() && mx >= STRIP_X
      ensures Shows(used, mx, a) && !a.GoBack? && !a.GoForward? && !a.Bookmark?
      ensures a == Nothing ==> forall b :: b != Nothing ==> !Shows(used, mx, b)
    {
      var tx, i := STRIP_X, 0;
      while i < MAX_TABS
        invariant 0 <= i <= MAX_TABS && tx == TabX(used, i)
        invariant forall k :: 0 <= k < i && used[k] ==> !(TabX(used, k) <= mx < TabX(used, k) + TAB_W)
      {
        CountSnoc(used, i);
        if used[i] {
          if mx >= tx && mx < tx + TAB_W {
            return if mx >= tx + TAB_W - CLOSE_W then Close(i) else Switch(i);
          }
          tx := tx + TAB_STEP;
        }
        i := i + 1;
      }
      var n := UsedCount();
      return if n < MAX_TABS && mx >= tx && mx < tx + PLUS_W then Open else Nothing;
    }

    /** A click does exactly what the strip shows under it, and nothing where it shows nothing. */
    method Click(winCh: int, mx: int, my: int, nav: Nav) returns (a: Action)
      requires Valid()
      modifies this
      ensures Valid() && View() == Perform(old(View()), a, nav)
      ensures !OnStrip(winCh, my) ==> a == Nothing
      ensures OnStrip(winCh, my) ==> Shows(old(used), mx, a)
      ensures OnStrip(winCh, my) && a == Nothing ==> forall b :: b != Nothing ==> !Shows(old(used), mx, b)
      ensures Effect(old(View()), a, View())
    {
      ghost var t := View();
      var stripY := winCh - STATUS_H - TAB_H;
      if my < stripY || my >= winCh - STATUS_H { return Nothing; }
      if mx >= 4 && mx < 34 { HistBack(nav); return GoBack; }
      if mx >= 34 && mx < 64 { HistForward(nav); return GoForward; }
      if mx >= 64 && mx < 94 { BookmarkSave(nav.status); return Bookmark; }
      if mx < STRIP_X {
        LeftOfTabs(used, mx);
        return Nothing;
      }
      a := Find(mx);
      PerformEffect(t, mx, a, nav);
      match a {
        case Close(i) => TabClose(i);
        case Switch(i) => TabSwitch(i);
        case Open => TabNew();
        case _ =>
      }
    }
  }
}
