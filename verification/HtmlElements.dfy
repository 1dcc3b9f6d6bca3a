/** Elements that are not shown, the title, and links of any address, over input text and page. */
module HtmlElements {
  import opened Ascii
  import opened AsciiLaws
  import opened Html
  import opened HtmlPages
  import opened HtmlTags

  // ---- script and style ---------------------------------------------------------------

  /** The character at i ends a closing script or style tag. */
  predicate EndsSkip(s: seq<char>, i: nat, r: Rendering)
    requires i < |s|
  { r.inTag && s[i] == '>' && IsClosing(r.tag) && TagName(r.tag) in SKIPPED }

  predicate PageKept(r: Rendering, u: Rendering) {
    u.text == r.text && u.title == r.title && u.links == r.links && u.lines == r.lines && u.open == r.open
  }

  lemma SkipTagEnd(s: seq<char>, i: nat, r: Rendering, kind: Kind)
    requires i < |s| && Ok(r) && r.inSkip && kind == Classify(TagName(r.tag))
    ensures var u := EndTag(s, i, r); PageKept(r, u) && (u.inSkip <==> !(IsClosing(r.tag) && kind == Script))
  {
  }

  lemma SkipOther(s: seq<char>, i: nat, r: Rendering)
    requires i < |s| && Ok(r) && r.inSkip && !(r.inTag && s[i] == '>')
    ensures var u := OneStep(s, i, r).r; PageKept(r, u) && u.inSkip
  {
  }

  /** Inside a script or style element nothing reaches the page, the title or the link table, and
      only its closing tag ends it. */
  lemma SkipKeeps(s: seq<char>, i: nat, r: Rendering)
    requires i < |s| && Ok(r) && r.inSkip
    ensures var u := OneStep(s, i, r).r; PageKept(r, u) && (u.inSkip <==> !EndsSkip(s, i, r))
  {
    if r.inTag && s[i] == '>' {
      LeaveStep(s, i, r);
      BreakersExactly(TagName(r.tag));
      SkipTagEnd(s, i, r, Classify(TagName(r.tag)));
    } else {
      SkipOther(s, i, r);
    }
  }

  predicate Skipping(r: Rendering) { Ok(r) && r.inSkip && !r.inTag && !r.full }

  lemma {:induction false} SkipRun(s: seq<char>, i: nat, j: nat, r: Rendering)
    requires i <= j <= |s| && Skipping(r) && forall k :: i <= k < j ==> s[k] != '<'
    ensures Leads(s, i, r, j, r)
    decreases j - i
  {
    if i == j {
      Here(s, i, r);
    } else {
      RunStep(s, i, r, r, i + 1);
      SkipRun(s, i + 1, j, r);
      Then(s, i, r, i + 1, r, j, r);
    }
  }

  function Opened(r: Rendering, i: nat): Rendering { Past(r, i).(inSkip := true) }

  lemma SkippedLower(lower: seq<char>)
    requires lower in SKIPPED
    ensures LowerCase(lower) && Classify(lower) == Script
  {
    BreakersExactly(lower);
  }

  lemma SkipOpens(s: seq<char>, i: nat, j: nat, r: Rendering, tag: seq<char>, lower: seq<char>)
    requires TagAt(s, i, j, tag) && NamedTag(tag, false, lower) && lower in SKIPPED && Plainly(r)
    ensures Leads(s, i, r, j + 1, Opened(r, i)) && Skipping(Opened(r, i))
  {
    SkippedLower(lower);
    NamedIs(tag, false, lower);
    ElementRun(s, i, j, r, tag);
    assert EndTag(s, j, Entered(r, i, Kept(tag))) == Opened(r, i);
  }

  function Inside(r: Rendering, tag: seq<char>): Rendering { r.(inTag := true, tag := tag, sawTag := true) }

  lemma SkipEnters(s: seq<char>, i: nat, j: nat, r: Rendering, tag: seq<char>)
    requires TagAt(s, i, j, tag) && '>' !in tag && Skipping(r)
    ensures Leads(s, i, r, j, Inside(r, Kept(tag)))
  {
    var u := Inside(r, []);
    RunStep(s, i, r, u, i + 1);
    assert s[i + 1..i + 1] == [];
    TagRun(s, i + 1, i + 1, j, u);
    Then(s, i, r, i + 1, u, j, Inside(r, Kept(tag)));
  }

  lemma SkipCloses(s: seq<char>, i: nat, j: nat, r: Rendering, tag: seq<char>, lower: seq<char>)
    requires TagAt(s, i, j, tag) && NamedTag(tag, true, lower) && lower in SKIPPED
    requires Skipping(r) && r.sawTag && r.tag == []
    ensures Leads(s, i, r, j + 1, r.(inSkip := false))
  {
    var v := Inside(r, Kept(tag));
    SkippedLower(lower);
    NamedIs(tag, true, lower);
    SkipEnters(s, i, j, r, tag);
    LeaveStep(s, j, v);
    assert EndTag(s, j, v) == r.(inSkip := false);
    RunStep(s, j, v, r.(inSkip := false), j + 1);
    Then(s, i, r, j, v, j + 1, r.(inSkip := false));
  }

  /** A script or style element, whatever it holds, is as good as not there. */
  lemma SkipElement(s: seq<char>, i: nat, j: nat, k: nat, l: nat, r: Rendering, first: seq<char>, last: seq<char>,
                    lower: seq<char>, lower': seq<char>)
    requires Plainly(r) && TagAt(s, i, j, first) && TagAt(s, k, l, last) && j < k
    requires NamedTag(first, false, lower) && lower in SKIPPED && NamedTag(last, true, lower') && lower' in SKIPPED
    requires forall m :: j < m < k ==> s[m] != '<'
    ensures Leads(s, i, r, l + 1, Past(r, i).(inSkip := false))
  {
    var u := Opened(r, i);
    SkipOpens(s, i, j, r, first, lower);
    SkipRun(s, j + 1, k, u);
    Then(s, i, r, j + 1, u, k, u);
    SkipCloses(s, k, l, u, last, lower');
    Then(s, i, r, k, u, l + 1, u.(inSkip := false));
  }

  lemma ShapeOfSkip(u: seq<char>, first: seq<char>, junk: seq<char>, last: seq<char>, v: seq<char>, s: seq<char>)
    requires s == u + Tag(first) + junk + Tag(last) + v && '<' !in junk
    ensures var i := |u|; var j := i + 1 + |first|; var k := j + 1 + |junk|; var l := k + 1 + |last|;
      s[0..i] == u && TagAt(s, i, j, first) && TagAt(s, k, l, last) && l + 1 <= |s| && s[l + 1..|s|] == v
      && forall m :: j < m < k ==> s[m] != '<'
  {
    var i := |u|;
    var j := i + 1 + |first|;
    var k := j + 1 + |junk|;
    assert forall m :: j < m < k ==> s[m] == junk[m - j - 1];
  }

  lemma SkipBetween(s: seq<char>, r: Rendering, u: seq<char>, junk: seq<char>, v: seq<char>, first: seq<char>,
                    last: seq<char>, lower: seq<char>, lower': seq<char>)
    requires IsWord(u) && IsWord(v) && '<' !in junk && s == u + Tag(first) + junk + Tag(last) + v
    requires Reading(r) && |r.text| + |u| + |v| < PAGE_MAX - 2
    requires NamedTag(first, false, lower) && lower in SKIPPED && NamedTag(last, true, lower') && lower' in SKIPPED
    ensures Leads(s, 0, r, |s|, Written(Past(Written(r, u), |u|).(inSkip := false), v))
  {
    var i := |u|;
    var j := i + 1 + |first|;
    var k := j + 1 + |junk|;
    var l := k + 1 + |last|;
    ShapeOfSkip(u, first, junk, last, v, s);
    var a := Written(r, u);
    WordAt(s, 0, i, r, u);
    SkipElement(s, i, j, k, l, a, first, last, lower, lower');
    WordsAround(s, r, u, i, l + 1, Past(a, i).(inSkip := false), v);
  }

  /** Text between a script or style tag and its closing tag does not reach the page. */
  lemma ScriptUnseen(u: seq<char>, junk: seq<char>, v: seq<char>, first: seq<char>, last: seq<char>,
                     lower: seq<char>, lower': seq<char>, s: seq<char>)
    requires IsWord(u) && IsWord(v) && |u| + |v| < PAGE_MAX - 2 && '<' !in junk
    requires s == u + Tag(first) + junk + Tag(last) + v
    requires NamedTag(first, false, lower) && lower in SKIPPED && NamedTag(last, true, lower') && lower' in SKIPPED
    ensures PageText(s) == u + v && PageLinks(s) == []
  {
    StartReads();
    SkipBetween(s, START, u, junk, v, first, last, lower, lower');
    var c := Written(Past(Written(START, u), |u|).(inSkip := false), v);
    assert c.text == u + v && c.links == [];
    WordPage(s, c, u, v);
  }

  // ---- the title ----------------------------------------------------------------------

  /** Words with single blanks between them. */
  predicate SingleSpaced(t: seq<char>) {
    (forall k :: 0 <= k < |t| ==> WordChar(t[k]) || t[k] == ' ') && (t != [] ==> t[0] != ' ')
    && forall k :: 0 <= k < |t| && t[k] == ' ' ==> AfterWord(t, k)
  }

  predicate AfterWord(t: seq<char>, k: int)
    requires 0 <= k < |t|
  { k > 0 && t[k - 1] != ' ' }

  function Cap(t: seq<char>): seq<char> { if |t| <= 63 then t else t[..63] }

  predicate Titling(r: Rendering) { Plainly(r) && r.titleOn && r.sawTag }

  /** Page characters written or about to be. */
  function Load(r: Rendering): nat { |r.text| + if r.pending then 1 else 0 }

  lemma CapStep(t: seq<char>, i: nat)
    requires i < |t|
    ensures Cap(t[..i + 1]) == if i < 63 then Cap(t[..i]) + [t[i]] else Cap(t[..i])
    ensures |Cap(t[..i])| == (if i < 63 then i else 63)
    ensures 0 < i <= 63 ==> Cap(t[..i])[|Cap(t[..i])| - 1] == t[i - 1]
  {
    if i >= 63 { assert t[..i + 1][..63] == t[..i][..63] == t[..63]; } else { assert t[..i + 1] == t[..i] + [t[i]]; }
  }

  lemma TitleChar(r: Rendering, c: char, title: seq<char>)
    requires Titling(r) && Load(r) < PAGE_MAX - 3 && WordChar(c)
    requires title == if |r.title| < 63 then r.title + [c] else r.title
    ensures var u := TextStep(r, c);
      u.title == title && u.titleOn && u.sawTag && !u.inTag && !u.inSkip && !u.full && Load(u) <= Load(r) + 1
  {
  }

  lemma TitleSpace(r: Rendering, title: seq<char>)
    requires Titling(r) && r.title != [] && (|r.title| < 63 ==> r.title[|r.title| - 1] != ' ')
    requires title == if |r.title| < 63 then r.title + [' '] else r.title
    ensures var u := TextStep(r, ' ');
      u.title == title && u.titleOn && u.sawTag && !u.inTag && !u.inSkip && !u.full && Load(u) <= Load(r) + 1
  {
  }

  lemma TitleStep(s: seq<char>, b: nat, i: nat, r: Rendering, t: seq<char>) returns (u: Rendering)
    requires b <= i && i - b < |t| && b + |t| <= |s| && s[b..b + |t|] == t && SingleSpaced(t)
    requires Titling(r) && r.title == Cap(t[..i - b]) && Load(r) < PAGE_MAX - 3
    ensures Leads(s, i, r, i + 1, u) && Titling(u) && u.title == Cap(t[..i - b + 1]) && Load(u) <= Load(r) + 1
  {
    var c := s[i];
    assert c == t[i - b];
    u := TextStep(r, c);
    CapStep(t, i - b);
    assert OneStep(s, i, r) == Step(u, i + 1);
    if c == ' ' {
      assert AfterWord(t, i - b);
      TitleSpace(r, Cap(t[..i - b + 1]));
    } else {
      TitleChar(r, c, Cap(t[..i - b + 1]));
    }
    StepOk(s, i, r);
    RunStep(s, i, r, u, i + 1);
  }

  lemma {:induction false} TitleRun(s: seq<char>, b: nat, i: nat, r: Rendering, t: seq<char>) returns (u: Rendering)
    requires b <= i <= b + |t| <= |s| && s[b..b + |t|] == t && SingleSpaced(t)
    requires Titling(r) && r.title == Cap(t[..i - b]) && Load(r) + (b + |t| - i) < PAGE_MAX - 2
    ensures Leads(s, i, r, b + |t|, u) && Titling(u) && u.title == Cap(t)
    decreases b + |t| - i
  {
    if i == b + |t| {
      Here(s, i, r);
      assert t[..|t|] == t;
      u := r;
    } else {
      var v := TitleStep(s, b, i, r, t);
      u := TitleRun(s, b, i + 1, v, t);
      Then(s, i, r, i + 1, v, b + |t|, u);
    }
  }

  lemma TitleKind()
    ensures Classify("title") == Title
  {
    BreakersExactly("title");
    NotBreakers();
    assert "title" !in SKIPPED;
  }

  lemma TitleTag(s: seq<char>, i: nat, j: nat, r: Rendering, tag: seq<char>, closing: bool)
    requires TagAt(s, i, j, tag) && NamedTag(tag, closing, "title") && Plainly(r)
    ensures Leads(s, i, r, j + 1, Past(r, i).(titleOn := !closing))
  {
    NamedIs(tag, closing, "title");
    ElementRun(s, i, j, r, tag);
    TitleKind();
    assert EndTag(s, j, Entered(r, i, Kept(tag))) == Past(r, i).(titleOn := !closing);
  }

  lemma ShapeOfTitle(first: seq<char>, t: seq<char>, last: seq<char>, s: seq<char>, b: nat, k: nat)
    requires s == Tag(first) + t + Tag(last) && b == |first| + 2 && k == b + |t|
    ensures TagAt(s, 0, b - 1, first) && k <= |s| && s[b..k] == t && TagAt(s, k, |s| - 1, last)
  {
  }

  lemma TitleText(s: seq<char>, r: Rendering, t: seq<char>, first: seq<char>, b: nat) returns (u: Rendering)
    requires b >= 1 && TagAt(s, 0, b - 1, first) && b + |t| <= |s| && s[b..b + |t|] == t
    requires NamedTag(first, false, "title") && SingleSpaced(t) && |t| < PAGE_MAX - 2
    requires Plainly(r) && r.title == [] && r.text == []
    ensures Leads(s, 0, r, b + |t|, u) && Titling(u) && u.title == Cap(t)
  {
    var v := Past(r, 0).(titleOn := true);
    TitleTag(s, 0, b - 1, r, first, false);
    assert t[..0] == [];
    u := TitleRun(s, b, b, v, t);
    Then(s, 0, r, b, v, b + |t|, u);
  }

  lemma TitleEnd(s: seq<char>, r: Rendering, t: seq<char>, first: seq<char>, last: seq<char>, b: nat, k: nat)
    returns (u: Rendering)
    requires b >= 1 && k == b + |t| && TagAt(s, 0, b - 1, first) && TagAt(s, k, |s| - 1, last) && s[b..k] == t
    requires NamedTag(first, false, "title") && NamedTag(last, true, "title") && SingleSpaced(t) && |t| < PAGE_MAX - 2
    requires Plainly(r) && r.title == [] && r.text == []
    ensures Leads(s, 0, r, |s|, u) && u.title == Cap(t)
  {
    var w := TitleText(s, r, t, first, b);
    u := Past(w, k).(titleOn := false);
    TitleTag(s, k, |s| - 1, w, last, true);
    Then(s, 0, r, k, w, |s|, u);
  }

  /** The title of a page is the text between its title tags, up to 63 characters. */
  lemma TitleIs(t: seq<char>, first: seq<char>, last: seq<char>, s: seq<char>)
    requires s == Tag(first) + t + Tag(last) && SingleSpaced(t) && |t| < PAGE_MAX - 2
    requires NamedTag(first, false, "title") && NamedTag(last, true, "title")
    ensures PageTitle(s) == Cap(t)
  {
    var b := |first| + 2;
    ShapeOfTitle(first, t, last, s, b, b + |t|);
    StartReads();
    var u := TitleEnd(s, START, t, first, last, b, b + |t|);
    LinesAre(s, u);
  }

  // ---- links --------------------------------------------------------------------------

  /** The inside of an <a> tag with this address in quotes. */
  function AnchorText(q: char, h: seq<char>): seq<char> { ['a', ' ', 'h', 'r', 'e', 'f', '=', q] + h + [q] }

  predicate IsAddress(q: char, h: seq<char>) {
    (q == '"' || q == '\'') && 1 <= |h| <= 120 && q !in h && '>' !in h && '\0' !in h
  }

  lemma AnchorCharacters(s: seq<char>, i: nat, q: char, h: seq<char>, j: nat)
    requires TagAt(s, i, j, AnchorText(q, h))
    ensures j == i + 10 + |h| && s[i + 1] == 'a' && s[i + 2] == ' ' && s[i + 3] == 'h' && s[i + 4] == 'r'
    ensures s[i + 5] == 'e' && s[i + 6] == 'f' && s[i + 7] == '=' && s[i + 8] == q && s[j - 1] == q
    ensures s[i + 9..j - 1] == h
  {
    var t := s[i + 1..j];
    assert t == AnchorText(q, h);
    assert s[i + 1] == t[0] && s[i + 2] == t[1] && s[i + 3] == t[2] && s[i + 4] == t[3] && s[i + 5] == t[4];
    assert s[i + 6] == t[5] && s[i + 7] == t[6] && s[i + 8] == t[7] && s[j - 1] == t[8 + |h|];
    assert t[8..8 + |h|] == h;
    SubSlice(s, i + 1, j - i - 1, 8, 8 + |h|);
  }

  lemma {:induction false} QuotedIs(s: seq<char>, p: nat, e: nat, q: char, n: nat, h: seq<char>)
    requires p + |h| < e <= |s| && s[p..p + |h|] == h && s[p + |h|] == q && q !in h && |h| <= n
    ensures Quoted(s, p, e, q, n) == h
    decreases |h|
  {
    if h != [] {
      assert s[p] == h[0] && s[p + 1..p + |h|] == h[1..];
      QuotedIs(s, p + 1, e, q, n - 1, h[1..]);
    }
  }

  lemma HrefFound(s: seq<char>, i: nat, j: nat, q: char, h: seq<char>)
    requires TagAt(s, i, j, AnchorText(q, h)) && IsAddress(q, h)
    ensures Href(s, i, j) == h
  {
    AnchorCharacters(s, i, q, h, j);
    assert SkipToValue(s, i + 7, j) == SkipToValue(s, i + 8, j) == i + 8;
    QuotedIs(s, i + 9, j, q, URL_MAX, h);
    assert StartsCi(s[i + 3..], "href");
    assert Href(s, i + 3, j) == h;
    assert Href(s, i + 2, j) == Href(s, i + 3, j);
    assert Href(s, i + 1, j) == Href(s, i + 2, j);
    assert Href(s, i, j) == Href(s, i + 1, j);
  }

  lemma {:induction false} NoNul(h: seq<char>)
    requires '\0' !in h
    ensures UptoNul(h) == h
  {
    if h != [] { NoNul(h[1..]); }
  }

  /** An address is cut at its first NUL. */
  lemma {:induction false} NulCuts(h: seq<char>, more: seq<char>)
    requires '\0' !in h
    ensures UptoNul(h + ['\0'] + more) == h
  {
    if h != [] {
      assert (h + ['\0'] + more)[1..] == h[1..] + ['\0'] + more;
      NulCuts(h[1..], more);
    }
  }

  lemma AnchorNamed(q: char, h: seq<char>)
    requires IsAddress(q, h)
    ensures NamedTag(AnchorText(q, h), false, "a") && NamedTag(['/', 'a'], true, "a")
  {
    var attrs := [' ', 'h', 'r', 'e', 'f', '=', q] + h + [q];
    assert AnchorText(q, h) == [] + ['a'] + attrs;
    assert TagText(AnchorText(q, h), false, ['a'], attrs) && Spelled(['a'], "a");
    assert ['/', 'a'] == ['/'] + ['a'] + [];
    assert TagText(['/', 'a'], true, ['a'], []);
  }

  lemma AnchorKind()
    ensures Classify("a") == A
  {
    BreakersExactly("a");
    NotBreakers();
    assert "a" !in SKIPPED;
  }

  function LinkOpen(r: Rendering, i: nat, h: seq<char>): Rendering {
    Past(r, i).(links := r.links + [Link(|r.text|, |r.text|, h)], open := |r.links|)
  }

  lemma AnchorOpens(s: seq<char>, i: nat, j: nat, r: Rendering, q: char, h: seq<char>)
    requires TagAt(s, i, j, AnchorText(q, h)) && IsAddress(q, h) && Plainly(r) && |r.links| < MAX_LINKS
    ensures Leads(s, i, r, j + 1, LinkOpen(r, i, h))
  {
    AnchorNamed(q, h);
    NamedIs(AnchorText(q, h), false, "a");
    ElementRun(s, i, j, r, AnchorText(q, h));
    AnchorKind();
    HrefFound(s, i, j, q, h);
    NoNul(h);
    assert EndTag(s, j, Entered(r, i, Kept(AnchorText(q, h)))) == LinkOpen(r, i, h);
  }

  function LinkShut(r: Rendering, i: nat): Rendering
    requires 0 <= r.open < |r.links|
  { Past(r, i).(links := r.links[r.open := r.links[r.open].(end := |r.text|)], open := -1) }

  lemma AnchorCloses(s: seq<char>, i: nat, j: nat, r: Rendering, q: char, h: seq<char>)
    requires TagAt(s, i, j, ['/', 'a']) && IsAddress(q, h) && Plainly(r) && 0 <= r.open
    ensures Leads(s, i, r, j + 1, LinkShut(r, i))
  {
    AnchorNamed(q, h);
    NamedIs(['/', 'a'], true, "a");
    ElementRun(s, i, j, r, ['/', 'a']);
    AnchorKind();
    assert EndTag(s, j, Entered(r, i, Kept(['/', 'a']))) == LinkShut(r, i);
  }

  lemma LinkRuns(s: seq<char>, r: Rendering, q: char, h: seq<char>, w: seq<char>)
    requires s == Tag(AnchorText(q, h)) + w + Tag(['/', 'a']) && IsAddress(q, h) && IsWord(w)
    requires Reading(r) && r.links == [] && |r.text| + |w| <= PAGE_MAX - 2
    ensures var b := |AnchorText(q, h)| + 2;
      Leads(s, 0, r, |s|, LinkShut(Written(LinkOpen(r, 0, h), w), b + |w|))
  {
    var b := |AnchorText(q, h)| + 2;
    var k := b + |w|;
    ShapeOfTitle(AnchorText(q, h), w, ['/', 'a'], s, b, k);
    var u := LinkOpen(r, 0, h);
    AnchorOpens(s, 0, b - 1, r, q, h);
    var v := Written(u, w);
    WordAt(s, b, k, u, w);
    Then(s, 0, r, b, u, k, v);
    AnchorCloses(s, k, |s| - 1, v, q, h);
    Then(s, 0, r, k, v, |s|, LinkShut(v, k));
  }

  /** A link with any address and any word: the word is the page, and the link covers it and has
      that address. */
  lemma LinkPage(q: char, h: seq<char>, w: seq<char>, s: seq<char>)
    requires s == Tag(AnchorText(q, h)) + w + Tag(['/', 'a']) && IsAddress(q, h) && IsWord(w) && |w| <= PAGE_MAX - 2
    ensures PageText(s) == w && PageLinks(s) == [Link(0, |w|, h)]
  {
    StartReads();
    LinkRuns(s, START, q, h, w);
    var c := LinkShut(Written(LinkOpen(START, 0, h), w), |AnchorText(q, h)| + 2 + |w|);
    assert c.text == [] + w && c.links == [Link(0, |w|, h)];
    WordPage(s, c, [], w);
    assert [] + w == w;
  }
}
