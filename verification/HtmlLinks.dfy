/** Where the link ranges come from: a link that a </a> closed covers exactly the page bytes that
    were written while it was open, and any other link covers nothing. */
module HtmlLinks {
  import opened Ascii
  import opened Html
  import HtmlPages

  /** The link that was open when each byte of the final page was written, -1 for none. */
  function Owners(s: seq<char>, i: nat, r: Rendering, own: seq<int>): seq<int>
    requires i <= |s| && Ok(r)
    decreases |s| - i
  {
    if i == |s| || r.full then own
    else
      var n := OneStep(s, i, r);
      StepOk(s, i, r);
      Owners(s, n.next, n.r, own + seq(Grown(r, n.r), _ => r.open))
  }

  function Grown(r: Rendering, r': Rendering): nat { if |r'.text| > |r.text| then |r'.text| - |r.text| else 0 }

  /** The character at i ends an <a ...> or </a>. */
  predicate EndsAnchor(s: seq<char>, i: nat, r: Rendering)
    requires i < |s|
  { r.inTag && s[i] == '>' && !r.inSkip && Classify(TagName(r.tag)) == A }

  /** The links that were open when a </a> came: those still open at the end of the input or at
      the next <a> are not among them. */
  function Shut(s: seq<char>, i: nat, r: Rendering, shut: set<int>): set<int>
    requires i <= |s| && Ok(r)
    decreases |s| - i
  {
    if i == |s| || r.full then shut
    else
      var n := OneStep(s, i, r);
      StepOk(s, i, r);
      Shut(s, n.next, n.r, shut + Closing(s, i, r))
  }

  function Closing(s: seq<char>, i: nat, r: Rendering): set<int>
    requires i < |s|
  { if EndsAnchor(s, i, r) && IsClosing(r.tag) && r.open >= 0 then {r.open} else {} }

  predicate Owned(links: seq<Link>, open: int, own: seq<int>, shut: set<int>) {
    (forall p :: 0 <= p < |own| ==> -1 <= own[p] < |links|)
    && (forall p :: 0 <= p < |own| && own[p] >= 0 ==> links[own[p]].start <= p)
    && (forall n :: 0 <= n < |links| && n !in shut ==> links[n].start == links[n].end)
    && (forall p, n :: 0 <= p < |own| && 0 <= n < |links| && n in shut ==> (own[p] == n <==> Covers(links[n], p)))
    && (forall n :: n in shut ==> 0 <= n < |links|) && open !in shut
    && (open >= 0 ==> open < |links| && links[open].start <= |own|)
    && (open >= 0 ==> forall p :: links[open].start <= p < |own| ==> own[p] == open)
  }

  predicate Tracked(r: Rendering, own: seq<int>, shut: set<int>) {
    Ok(r) && |own| == |r.text| && Owned(r.links, r.open, own, shut)
  }

  /** Writing bytes, with the link table left alone. */
  lemma Write(links: seq<Link>, open: int, own: seq<int>, shut: set<int>, k: nat)
    requires Owned(links, open, own, shut) && -1 <= open < |links|
    requires forall n :: 0 <= n < |links| ==> links[n].start <= links[n].end <= |own|
    ensures Owned(links, open, own + seq(k, _ => open), shut)
  {
  }

  lemma Opened(links: seq<Link>, open: int, own: seq<int>, shut: set<int>, href: seq<char>)
    requires Owned(links, open, own, shut)
    ensures Owned(links + [Link(|own|, |own|, href)], |links|, own, shut)
  {
  }

  lemma Closed(links: seq<Link>, open: int, own: seq<int>, shut: set<int>)
    requires Owned(links, open, own, shut) && 0 <= open
    ensures Owned(links[open := links[open].(end := |own|)], -1, own, shut + {open})
  {
  }

  lemma AnchorTracked(s: seq<char>, i: nat, r: Rendering, own: seq<int>, shut: set<int>)
    requires i < |s| && Tracked(r, own, shut) && EndsAnchor(s, i, r)
    ensures Tracked(Anchor(s, i, r), own, shut + Closing(s, i, r))
  {
    AnchorOk(s, i, r);
    AnchorOwned(s, i, r, own, shut);
  }

  lemma AnchorOwned(s: seq<char>, i: nat, r: Rendering, own: seq<int>, shut: set<int>)
    requires i < |s| && -1 <= r.open < |r.links| && |own| == |r.text| && Owned(r.links, r.open, own, shut)
    requires EndsAnchor(s, i, r)
    ensures var a := Anchor(s, i, r); a.text == r.text && Owned(a.links, a.open, own, shut + Closing(s, i, r))
  {
    if IsClosing(r.tag) {
      if r.open >= 0 { Closed(r.links, r.open, own, shut); } else { assert shut + {} == shut; }
    } else {
      assert shut + {} == shut;
      if |r.links| < MAX_LINKS {
        var href := Href(s, r.tagStart, i);
        if |href| > 0 { Opened(r.links, r.open, own, shut, UptoNul(href)); }
      }
    }
  }

  /** Every step but an anchor leaves the table alone and only appends to the page. */
  lemma StepWrites(s: seq<char>, i: nat, r: Rendering)
    requires i < |s| && Ok(r)
    ensures var r' := OneStep(s, i, r).r;
      if EndsAnchor(s, i, r) then r' == Anchor(s, i, r).(inTag := false, tag := []) else Writes(r, r')
  {
    if r.inTag {
      if s[i] == '>' {
        var kind := Classify(TagName(r.tag));
        DispatchWrites(s, i, r, kind);
      }
    } else if r.inSkip || s[i] == '<' {
    } else if s[i] == '&' {
    } else {
      TextWrites(r, s[i]);
    }
  }

  /** The link table is untouched and the page no shorter. */
  predicate Writes(r: Rendering, r': Rendering) { r'.links == r.links && r'.open == r.open && |r.text| <= |r'.text| }

  lemma BreakWrites(r: Rendering)
    ensures Writes(r, Break(r))
  {
  }

  lemma DispatchWrites(s: seq<char>, i: nat, r: Rendering, kind: Kind)
    requires i <= |s| && -1 <= r.open < |r.links|
    ensures var d := Dispatch(s, i, r, kind); if !r.inSkip && kind == A then d == Anchor(s, i, r) else Writes(r, d)
  {
    if !r.inSkip {
      match kind
      case LineBreak => BreakWrites(r);
      case _ =>
    }
  }

  lemma BlankWrites(r: Rendering, c: char)
    ensures Writes(r, Blank(r, c))
  {
    if c == '\n' && !r.sawTag {
      var title := if r.titleOn && c == ' ' then TitleBlank(r.title) else r.title;
      BreakWrites(r.(title := title));
    }
  }

  lemma TextWrites(r: Rendering, c: char)
    ensures Writes(r, TextStep(r, c))
  {
    if IsBlank(c) {
      BlankWrites(r, c);
    } else if ' ' <= c <= '~' {
      PrintableFrame(r, c);
    }
  }

  lemma StepTracked(s: seq<char>, i: nat, r: Rendering, own: seq<int>, shut: set<int>)
    requires i < |s| && Tracked(r, own, shut)
    ensures var r' := OneStep(s, i, r).r;
      Tracked(r', own + seq(Grown(r, r'), _ => r.open), shut + Closing(s, i, r))
  {
    StepOk(s, i, r);
    StepWrites(s, i, r);
    var r' := OneStep(s, i, r).r;
    if EndsAnchor(s, i, r) {
      AnchorTracked(s, i, r, own, shut);
      assert own + seq(0, _ => r.open) == own;
    } else {
      assert shut + Closing(s, i, r) == shut;
      Write(r.links, r.open, own, shut, Grown(r, r'));
    }
  }

  lemma {:induction false} RunTracked(s: seq<char>, i: nat, r: Rendering, own: seq<int>, shut: set<int>)
    requires i <= |s| && Tracked(r, own, shut)
    ensures Tracked(Run(s, i, r), Owners(s, i, r, own), Shut(s, i, r, shut))
    decreases |s| - i
  {
    if i < |s| && !r.full {
      StepTracked(s, i, r, own, shut);
      var n := OneStep(s, i, r);
      RunTracked(s, n.next, n.r, own + seq(Grown(r, n.r), _ => r.open), shut + Closing(s, i, r));
    }
  }

  /** A link covers a byte of the page exactly when the byte was written while the link was open
      and a </a> closed it later.  A page that trims to nothing shows the placeholder instead,
      whose bytes no tag wrote. */
  lemma LinkBytes(s: seq<char>, p: nat, n: nat)
    requires n < |PageLinks(s)| && p < |PageText(s)|
    ensures var own, shut, text := Owners(s, 0, START, []), Shut(s, 0, START, {}), Run(s, 0, START).text;
      if Trim(text) == [] then PageText(s) == EMPTY_PAGE
      else PageText(s) <= text && |own| == |text| && (Covers(PageLinks(s)[n], p) <==> own[p] == n && n in shut)
  {
    StartTracked();
    BytesFrom(s, START, PageText(s), p, n);
  }

  lemma BytesFrom(s: seq<char>, r: Rendering, page: seq<char>, p: nat, n: nat)
    requires Tracked(r, [], {}) && n < |Run(s, 0, r).links| && p < |page|
    requires var text := Trim(Run(s, 0, r).text); page == if text == [] then EMPTY_PAGE else text
    ensures var own, shut, u := Owners(s, 0, r, []), Shut(s, 0, r, {}), Run(s, 0, r);
      if Trim(u.text) == [] then page == EMPTY_PAGE
      else page <= u.text && |own| == |u.text| && (Covers(u.links[n], p) <==> own[p] == n && n in shut)
  {
    var text := Run(s, 0, r).text;
    if Trim(text) != [] {
      TrimIsPrefix(text);
      RunOwns(s, 0, r, [], {}, p, n);
    }
  }

  lemma {:induction false} TrimIsPrefix(text: seq<char>)
    ensures Trim(text) <= text
    decreases |text|
  {
    if text != [] && Trim(text) != text { TrimIsPrefix(text[..|text| - 1]); }
  }

  lemma StartTracked()
    ensures Tracked(START, [], {})
  {
  }

  lemma RunOwns(s: seq<char>, i: nat, r: Rendering, own: seq<int>, shut: set<int>, p: nat, n: nat)
    requires i <= |s| && Tracked(r, own, shut) && n < |Run(s, i, r).links| && p < |Run(s, i, r).text|
    ensures var all, l := Owners(s, i, r, own), Run(s, i, r).links[n];
      |all| == |Run(s, i, r).text| && (Covers(l, p) <==> all[p] == n && n in Shut(s, i, r, shut))
  {
    RunTracked(s, i, r, own, shut);
    OwnedMeans(Run(s, i, r), Owners(s, i, r, own), Shut(s, i, r, shut), p, n);
  }

  lemma OwnedMeans(r: Rendering, own: seq<int>, shut: set<int>, p: nat, n: nat)
    requires Tracked(r, own, shut) && n < |r.links| && p < |r.text|
    ensures Covers(r.links[n], p) <==> own[p] == n && n in shut
  {
  }

  /** An <a> without a </a>: the byte was written inside the link, and no link covers it. */
  lemma UnclosedLink(s: seq<char>)
    requires s == HtmlPages.UNCLOSED
    ensures PageText(s) == "y" && CoverOf(PageLinks(s), 0) == -1 && Owners(s, 0, START, []) == [0]
  {
    HtmlPages.UnclosedRun(s);
    CoverNone(PageLinks(s), 0);
    StartTracked();
    StillOpen(s, START, Run(s, 0, START));
  }

  lemma StillOpen(s: seq<char>, r: Rendering, u: Rendering)
    requires Tracked(r, [], {}) && u == Run(s, 0, r)
    requires u.open == 0 && |u.links| == 1 && u.links[0].start == 0 && |u.text| == 1
    ensures Owners(s, 0, r, []) == [0]
  {
    RunTracked(s, 0, r, [], {});
    var own := Owners(s, 0, r, []);
    assert |own| == 1 && own[0] == 0;
  }
}
