/** Three small pages, rendered step by step: one whose links touch, one that trims to nothing
    and is shown as a placeholder, and one whose link is never closed. */
module HtmlPages {
  import opened Ascii
  import opened Html

  const TAG: seq<char> := ['a', ' ', 'h', 'r', 'e', 'f', '=', '"', 'x', '"']
  const END: seq<char> := ['/', 'a']
  const OPEN: seq<char> := ['<'] + TAG + ['>']
  const CLOSE: seq<char> := ['<'] + END + ['>']

  /** A point of the pass over the input. */
  datatype Point = Point(i: nat, r: Rendering)

  predicate StepsTo(s: seq<char>, a: Point, b: Point) {
    a.i < |s| && Ok(a.r) && !a.r.full && OneStep(s, a.i, a.r) == Step(b.r, b.i)
  }

  predicate StepAt(s: seq<char>, path: seq<Point>, k: int)
    requires 0 < k < |path|
  { StepsTo(s, path[k - 1], path[k]) }

  predicate Trace(s: seq<char>, path: seq<Point>, a: Point, b: Point) {
    |path| >= 1 && path[0] == a && path[|path| - 1] == b && forall k :: 0 < k < |path| ==> StepAt(s, path, k)
  }

  /** Rendering from (i, r) goes on from (j, u). */
  ghost predicate Leads(s: seq<char>, i: nat, r: Rendering, j: nat, u: Rendering) {
    i <= j <= |s| && Ok(r) && Ok(u) && exists path :: Trace(s, path, Point(i, r), Point(j, u))
  }

  lemma RunStep(s: seq<char>, i: nat, r: Rendering, u: Rendering, next: nat)
    requires i < |s| && Ok(r) && !r.full && OneStep(s, i, r) == Step(u, next)
    ensures Leads(s, i, r, next, u)
  {
    StepOk(s, i, r);
    var path := [Point(i, r), Point(next, u)];
    assert StepAt(s, path, 1);
    assert Trace(s, path, Point(i, r), Point(next, u));
  }

  lemma Here(s: seq<char>, i: nat, r: Rendering)
    requires i <= |s| && Ok(r)
    ensures Leads(s, i, r, i, r)
  {
    assert Trace(s, [Point(i, r)], Point(i, r), Point(i, r));
  }

  lemma Then(s: seq<char>, i: nat, r: Rendering, j: nat, u: Rendering, k: nat, v: Rendering)
    requires Leads(s, i, r, j, u) && Leads(s, j, u, k, v)
    ensures Leads(s, i, r, k, v)
  {
    var p :| Trace(s, p, Point(i, r), Point(j, u));
    var q :| Trace(s, q, Point(j, u), Point(k, v));
    TraceThen(s, p, q, Point(i, r), Point(j, u), Point(k, v));
  }

  lemma TraceThen(s: seq<char>, p: seq<Point>, q: seq<Point>, a: Point, b: Point, c: Point)
    requires Trace(s, p, a, b) && Trace(s, q, b, c)
    ensures Trace(s, p + q[1..], a, c)
  {
    var path := p + q[1..];
    forall k | 0 < k < |path| ensures StepAt(s, path, k) {
      if k < |p| { assert StepAt(s, p, k); } else { assert StepAt(s, q, k - |p| + 1); }
    }
  }

  lemma {:induction false} TraceRuns(s: seq<char>, path: seq<Point>, a: Point, b: Point)
    requires Trace(s, path, a, b) && a.i <= |s| && Ok(a.r) && b.i <= |s| && Ok(b.r)
    ensures Run(s, a.i, a.r) == Run(s, b.i, b.r)
    decreases |path|
  {
    if |path| > 1 {
      var c, rest := path[1], path[1..];
      assert StepAt(s, path, 1);
      StepOk(s, a.i, a.r);
      forall k | 0 < k < |rest| ensures StepAt(s, rest, k) { assert StepAt(s, path, k + 1); }
      TraceRuns(s, rest, c, b);
      RunUnfolds(s, a.i, a.r);
    }
  }

  lemma RunUnfolds(s: seq<char>, i: nat, r: Rendering)
    requires i < |s| && Ok(r) && !r.full
    ensures var n := OneStep(s, i, r); Ok(n.r) && Run(s, i, r) == Run(s, n.next, n.r)
  {
    StepOk(s, i, r);
  }

  lemma EndIs(s: seq<char>, r: Rendering, u: Rendering)
    requires Leads(s, 0, r, |s|, u)
    ensures Run(s, 0, r) == u
  {
    var path :| Trace(s, path, Point(0, r), Point(|s|, u));
    TraceRuns(s, path, Point(0, r), Point(|s|, u));
  }

  lemma PageIs(s: seq<char>, u: Rendering)
    requires Leads(s, 0, START, |s|, u)
    ensures PageLinks(s) == u.links && PageText(s) == if Trim(u.text) == [] then EMPTY_PAGE else Trim(u.text)
  {
    EndIs(s, START, u);
  }

  // ---- a whole tag --------------------------------------------------------------------

  predicate Plainly(r: Rendering) { Ok(r) && !r.inTag && !r.inSkip && !r.full }

  /** What is kept of a tag: its first 23 characters. */
  function Kept(t: seq<char>): seq<char> { if |t| <= TAG_MAX then t else t[..TAG_MAX] }

  lemma CollectStep(s: seq<char>, b: nat, i: nat, r: Rendering)
    requires b <= i < |s| && Ok(r) && r.inTag && s[i] != '>' && r.tag == Kept(s[b..i])
    ensures OneStep(s, i, r) == Step(r.(tag := Kept(s[b..i + 1])), i + 1)
  {
    assert s[b..i + 1] == s[b..i] + [s[i]];
    if i - b >= TAG_MAX { assert s[b..i + 1][..TAG_MAX] == s[b..i][..TAG_MAX]; }
  }

  /** Inside a tag characters collect until '>'; the tag began just before b. */
  lemma {:induction false} TagRun(s: seq<char>, b: nat, i: nat, j: nat, r: Rendering)
    requires b <= i <= j <= |s| && '>' !in s[b..j]
    requires Ok(r) && r.inTag && !r.full && r.tag == Kept(s[b..i])
    ensures Leads(s, i, r, j, r.(tag := Kept(s[b..j])))
    decreases j - i
  {
    if i == j {
      Here(s, i, r);
    } else {
      assert s[i] == s[b..j][i - b];
      var u := r.(tag := Kept(s[b..i + 1]));
      CollectStep(s, b, i, r);
      RunStep(s, i, r, u, i + 1);
      TagRun(s, b, i + 1, j, u);
      Then(s, i, r, i + 1, u, j, r.(tag := Kept(s[b..j])));
    }
  }

  function Entered(r: Rendering, i: nat, tag: seq<char>): Rendering {
    r.(inTag := true, tag := tag, tagStart := i, pending := false, sawTag := true)
  }

  lemma EnterStep(s: seq<char>, i: nat, r: Rendering)
    requires i < |s| && s[i] == '<' && Plainly(r)
    ensures OneStep(s, i, r) == Step(Entered(r, i, []), i + 1)
  {
  }

  lemma LeaveStep(s: seq<char>, j: nat, r: Rendering)
    requires j < |s| && s[j] == '>' && Ok(r) && r.inTag
    ensures OneStep(s, j, r) == Step(EndTag(s, j, r), j + 1)
  {
  }

  lemma EnterRun(s: seq<char>, i: nat, j: nat, r: Rendering, tag: seq<char>)
    requires i < j < |s| && Plainly(r) && s[i] == '<' && s[i + 1..j] == tag && '>' !in tag
    ensures Leads(s, i, r, j, Entered(r, i, Kept(tag)))
  {
    var u := Entered(r, i, []);
    EnterStep(s, i, r);
    RunStep(s, i, r, u, i + 1);
    assert s[i + 1..i + 1] == [];
    TagRun(s, i + 1, i + 1, j, u);
    Then(s, i, r, i + 1, u, j, Entered(r, i, Kept(tag)));
  }

  /** A whole tag at i..j, read in one go. */
  lemma ElementRun(s: seq<char>, i: nat, j: nat, r: Rendering, tag: seq<char>)
    requires i < j < |s| && Plainly(r) && s[i] == '<' && s[j] == '>' && s[i + 1..j] == tag && '>' !in tag
    ensures Ok(Entered(r, i, Kept(tag))) && Leads(s, i, r, j + 1, EndTag(s, j, Entered(r, i, Kept(tag))))
  {
    var v := Entered(r, i, Kept(tag));
    EnterRun(s, i, j, r, tag);
    LeaveStep(s, j, v);
    RunStep(s, j, v, EndTag(s, j, v), j + 1);
    Then(s, i, r, j, v, j + 1, EndTag(s, j, v));
  }

  // ---- <a> and </a> -------------------------------------------------------------------

  lemma Names()
    ensures TagName(TAG) == "a" && TagName(END) == "a" && Classify("a") == A && UptoNul("x") == "x"
    ensures !IsClosing(TAG) && IsClosing(END)
  {
    var t, u, name := TagName(TAG), TagName(END), END[1..];
    assert NameEnd(TAG, 0) == NameEnd(TAG, 1) == 1;
    assert name == ['a'] && NameEnd(name, 0) == NameEnd(name, 1) == 1;
    assert |t| == 1 && t[0] == Lower(TAG[0]) && |u| == 1 && u[0] == Lower(name[0]);
    assert t == "a" && u == "a";
    assert "x"[1..] == "" && UptoNul("") == "";
    NotBlock();
  }

  lemma NotBlock()
    ensures "a" !in BREAKS && "a" !in BLOCKS
  {
    assert forall k :: 0 <= k < |BLOCKS| ==> |BLOCKS[k]| > 1 || BLOCKS[k][0] == 'p';
    assert |"a"| == 1 && "a"[0] == 'a';
  }

  predicate OpensAt(s: seq<char>, i: nat) { i + 12 <= |s| && s[i..i + 12] == OPEN }

  lemma OpenCharacters(s: seq<char>, i: nat)
    requires OpensAt(s, i)
    ensures s[i] == '<' && s[i + 11] == '>' && s[i + 1..i + 11] == TAG
    ensures s[i + 1] == 'a' && s[i + 2] == ' ' && s[i + 3] == 'h' && s[i + 4] == 'r' && s[i + 5] == 'e'
    ensures s[i + 6] == 'f'
    ensures s[i + 7] == '=' && s[i + 8] == '"' && s[i + 9] == 'x' && s[i + 10] == '"'
  {
    assert s[i] == s[i..i + 12][0] && s[i + 11] == s[i..i + 12][11];
    SubSlice(s, i, 12, 1, 11);
    assert OPEN[1..11] == TAG;
    var t := s[i + 1..i + 11];
    assert s[i + 1] == t[0] && s[i + 2] == t[1] && s[i + 3] == t[2] && s[i + 4] == t[3] && s[i + 5] == t[4];
    assert s[i + 6] == t[5] && s[i + 7] == t[6] && s[i + 8] == t[7] && s[i + 9] == t[8] && s[i + 10] == t[9];
  }

  lemma SubSlice(s: seq<char>, i: nat, n: nat, a: nat, b: nat)
    requires i + n <= |s| && a <= b <= n
    ensures s[i..i + n][a..b] == s[i + a..i + b]
  {
    var t, u := s[i..i + n][a..b], s[i + a..i + b];
    forall k | 0 <= k < |t| ensures t[k] == u[k] {
      assert t[k] == s[i..i + n][a + k] == s[i + (a + k)];
    }
  }

  lemma HrefIsX(s: seq<char>, i: nat)
    requires OpensAt(s, i)
    ensures Href(s, i, i + 11) == "x"
  {
    var e := i + 11;
    OpenCharacters(s, i);
    ValueIsX(s, i);
    assert Href(s, i + 3, e) == "x";
    assert Href(s, i + 2, e) == Href(s, i + 3, e);
    assert Href(s, i + 1, e) == Href(s, i + 2, e);
    assert Href(s, i, e) == Href(s, i + 1, e);
  }

  lemma ValueIsX(s: seq<char>, i: nat)
    requires OpensAt(s, i)
    ensures StartsCi(s[i + 3..], "href") && SkipToValue(s, i + 7, i + 11) == i + 8
    ensures Quoted(s, i + 9, i + 11, '"', URL_MAX) == "x"
  {
    var e := i + 11;
    OpenCharacters(s, i);
    assert SkipToValue(s, i + 7, e) == SkipToValue(s, i + 8, e);
    assert Quoted(s, i + 10, e, '"', URL_MAX - 1) == [];
    assert Quoted(s, i + 9, e, '"', URL_MAX) == ['x'] + Quoted(s, i + 10, e, '"', URL_MAX - 1);
  }

  /** What an <a> leaves: a new empty link, open. */
  function Linked(r: Rendering, i: nat): Rendering {
    Entered(r, i, []).(inTag := false, links := r.links + [Link(|r.text|, |r.text|, "x")], open := |r.links|)
  }

  lemma EndOpen(s: seq<char>, i: nat, r: Rendering)
    requires OpensAt(s, i) && Plainly(r) && |r.links| < MAX_LINKS
    ensures EndTag(s, i + 11, Entered(r, i, TAG)) == Linked(r, i)
  {
    HrefIsX(s, i);
    Names();
    assert Anchor(s, i + 11, Entered(r, i, TAG))
        == Entered(r, i, TAG).(links := r.links + [Link(|r.text|, |r.text|, "x")], open := |r.links|);
  }

  lemma OpenRun(s: seq<char>, i: nat, r: Rendering)
    requires OpensAt(s, i) && Plainly(r) && |r.links| < MAX_LINKS
    ensures Leads(s, i, r, i + 12, Linked(r, i))
  {
    OpenCharacters(s, i);
    ElementRun(s, i, i + 11, r, TAG);
    EndOpen(s, i, r);
  }

  function Unlinked(r: Rendering, i: nat): Rendering
    requires 0 <= r.open < |r.links|
  {
    Entered(r, i, []).(inTag := false, links := r.links[r.open := r.links[r.open].(end := |r.text|)], open := -1)
  }

  predicate ClosesAt(s: seq<char>, i: nat) { i + 4 <= |s| && s[i..i + 4] == CLOSE }

  lemma CloseRun(s: seq<char>, i: nat, r: Rendering)
    requires ClosesAt(s, i) && Plainly(r) && 0 <= r.open
    ensures Leads(s, i, r, i + 4, Unlinked(r, i))
  {
    assert s[i] == s[i..i + 4][0] && s[i + 3] == s[i..i + 4][3];
    SubSlice(s, i, 4, 1, 3);
    assert CLOSE[1..3] == END;
    ElementRun(s, i, i + 3, r, END);
    Names();
  }

  /** One letter on a page with nothing pending. */
  lemma LetterStep(s: seq<char>, i: nat, r: Rendering)
    requires i < |s| && 'a' <= s[i] <= 'z' && Plainly(r) && !r.titleOn && !r.pending && |r.text| < PAGE_MAX - 2
    ensures OneStep(s, i, r) == Step(r.(text := r.text + [s[i]], lastNl := false), i + 1)
  {
  }

  lemma LetterRun(s: seq<char>, i: nat, r: Rendering)
    requires i < |s| && 'a' <= s[i] <= 'z' && Plainly(r) && !r.titleOn && !r.pending && |r.text| < PAGE_MAX - 2
    ensures Leads(s, i, r, i + 1, r.(text := r.text + [s[i]], lastNl := false))
  {
    LetterStep(s, i, r);
    RunStep(s, i, r, r.(text := r.text + [s[i]], lastNl := false), i + 1);
  }

  // ---- a link element -----------------------------------------------------------------

  /** A link around one letter. */
  function Element(c: char): seq<char> { OPEN + [c] + CLOSE }

  predicate ElementAt(s: seq<char>, i: nat, c: char) {
    OpensAt(s, i) && i + 13 <= |s| && s[i + 12] == c && ClosesAt(s, i + 13)
  }

  /** What such an element leaves: one more letter, and a link that covers exactly it. */
  function Appended(r: Rendering, i: nat, c: char): Rendering {
    r.(text := r.text + [c], links := r.links + [Link(|r.text|, |r.text| + 1, "x")], inTag := false, tag := [],
       tagStart := i + 13, pending := false, sawTag := true, lastNl := false, open := -1)
  }

  /** The element up to its closing tag. */
  function Lettered(r: Rendering, i: nat, c: char): Rendering {
    Linked(r, i).(text := r.text + [c], lastNl := false)
  }

  lemma LetteredRun(s: seq<char>, i: nat, r: Rendering, c: char)
    requires ElementAt(s, i, c) && 'a' <= c <= 'z'
    requires Plainly(r) && !r.titleOn && |r.links| < MAX_LINKS && |r.text| < PAGE_MAX - 2
    ensures Leads(s, i, r, i + 13, Lettered(r, i, c))
  {
    OpenRun(s, i, r);
    LetterRun(s, i + 12, Linked(r, i));
    Then(s, i, r, i + 12, Linked(r, i), i + 13, Lettered(r, i, c));
  }

  lemma LinkRun(s: seq<char>, i: nat, r: Rendering, c: char)
    requires ElementAt(s, i, c) && 'a' <= c <= 'z'
    requires Plainly(r) && !r.titleOn && |r.links| < MAX_LINKS && |r.text| < PAGE_MAX - 2
    ensures Leads(s, i, r, i + 17, Appended(r, i, c))
  {
    var v := Lettered(r, i, c);
    LetteredRun(s, i, r, c);
    CloseRun(s, i + 13, v);
    assert Unlinked(v, i + 13).links == r.links + [Link(|r.text|, |r.text| + 1, "x")];
    Then(s, i, r, i + 13, v, i + 17, Appended(r, i, c));
  }

  const TOUCHING: seq<char> := Element('y') + Element('z')

  lemma TouchingShape()
    ensures |TOUCHING| == 34 && ElementAt(TOUCHING, 0, 'y') && ElementAt(TOUCHING, 17, 'z')
  {
    var s := TOUCHING;
    assert s[0..12] == OPEN && s[13..17] == CLOSE && s[17..29] == OPEN && s[30..34] == CLOSE;
    assert s[12] == 'y' && s[29] == 'z';
  }

  /** Two adjacent links: "yz", each letter a link of its own. */
  lemma TouchingPage()
    ensures PageText(TOUCHING) == "yz" && PageLinks(TOUCHING) == [Link(0, 1, "x"), Link(1, 2, "x")]
  {
    var s := TOUCHING;
    TouchingShape();
    assert Plainly(START);
    var u := Appended(START, 0, 'y');
    LinkRun(s, 0, START, 'y');
    var v := Appended(u, 17, 'z');
    LinkRun(s, 17, u, 'z');
    Then(s, 0, START, 17, u, 34, v);
    assert v.text == "yz" && v.links == [Link(0, 1, "x"), Link(1, 2, "x")];
    PageIs(s, v);
    assert Trim("yz") == "yz";
  }

  // ---- a page that trims to nothing ---------------------------------------------------

  const NBSP: seq<char> := ['n', 'b', 's', 'p', ';']

  lemma {:induction false} NamedNbsp(s: seq<char>, j: nat, e: nat)
    requires j + 5 <= |s| && s[j..j + 5] == NBSP && e <= 5
    ensures Named(s, j, e) == 5
    decreases 5 - e
  {
    assert s[j..][0] == s[j..j + 5][0] == 'n';
    if e == 5 {
      assert ENTITIES[5].0 == NBSP == s[j..][..5];
    } else {
      assert ENTITIES[e].0[0] != 'n';
      NamedNbsp(s, j, e + 1);
    }
  }

  lemma NbspRun(s: seq<char>, i: nat, r: Rendering)
    requires i + 6 <= |s| && s[i] == '&' && s[i + 1..i + 6] == NBSP && Plainly(r) && |r.text| < PAGE_MAX - 1
    ensures Leads(s, i, r, i + 6, r.(text := r.text + [' '], lastNl := false))
  {
    NamedNbsp(s, i + 1, 0);
    assert ENTITIES[5] == ("nbsp;", ' ');
    assert DecodeEntity(s, i, true) == Entity(' ', 6);
    RunStep(s, i, r, r.(text := r.text + [' '], lastNl := false), i + 6);
  }

  const BLANK_LINK: seq<char> := OPEN + ['&'] + NBSP + CLOSE

  predicate BlankLinkAt(s: seq<char>, i: nat) {
    OpensAt(s, i) && i + 18 <= |s| && s[i + 12] == '&' && s[i + 13..i + 18] == NBSP && ClosesAt(s, i + 18)
  }

  /** What such an element leaves: a blank, and a link that covers exactly it. */
  function Blanked(r: Rendering, i: nat): Rendering {
    r.(text := r.text + [' '], links := r.links + [Link(|r.text|, |r.text| + 1, "x")], inTag := false, tag := [],
       tagStart := i + 18, pending := false, sawTag := true, lastNl := false, open := -1)
  }

  lemma BlankLinkRun(s: seq<char>, i: nat, r: Rendering)
    requires BlankLinkAt(s, i) && Plainly(r) && |r.links| < MAX_LINKS && |r.text| < PAGE_MAX - 1
    ensures Leads(s, i, r, i + 22, Blanked(r, i))
  {
    var u := Linked(r, i);
    OpenRun(s, i, r);
    var v := u.(text := u.text + [' '], lastNl := false);
    NbspRun(s, i + 12, u);
    Then(s, i, r, i + 12, u, i + 18, v);
    CloseRun(s, i + 18, v);
    Then(s, i, r, i + 18, v, i + 22, Unlinked(v, i + 18));
    assert Unlinked(v, i + 18).links == r.links + [Link(|r.text|, |r.text| + 1, "x")];
  }

  lemma BlankShape()
    ensures |BLANK_LINK| == 22 && BlankLinkAt(BLANK_LINK, 0)
  {
    var s := BLANK_LINK;
    assert s[0..12] == OPEN && s[12] == '&' && s[13..18] == NBSP && s[18..22] == CLOSE;
  }

  /** A linked blank: the page is the placeholder, and its first byte lies in the link although
      no tag wrote it. */
  lemma PlaceholderLinked()
    ensures PageText(BLANK_LINK) == EMPTY_PAGE && PageLinks(BLANK_LINK) == [Link(0, 1, "x")]
    ensures CoverOf(PageLinks(BLANK_LINK), 0) == 0
  {
    BlankShape();
    assert Plainly(START);
    BlankLinkRun(BLANK_LINK, 0, START);
    var w := Blanked(START, 0);
    PageIs(BLANK_LINK, w);
    assert w.text == [' '] && w.links == [Link(0, 1, "x")];
    assert [' '][..0] == [] && Trim([' ']) == [];
  }

  // ---- a link that is never closed ----------------------------------------------------

  const UNCLOSED: seq<char> := OPEN + ['y']

  /** The page is "y"; its link is still open and has the empty range it started with. */
  lemma UnclosedRun(s: seq<char>)
    requires s == UNCLOSED
    ensures PageText(s) == "y" && PageLinks(s) == [Link(0, 0, "x")]
    ensures Run(s, 0, START).open == 0 && Run(s, 0, START).text == "y"
  {
    assert s[0..12] == OPEN && s[12] == 'y' && |s| == 13;
    assert Plainly(START);
    var u := Linked(START, 0);
    OpenRun(s, 0, START);
    var v := u.(text := u.text + ['y'], lastNl := false);
    LetterRun(s, 12, u);
    Then(s, 0, START, 12, u, 13, v);
    assert v.text == "y" && v.links == [Link(0, 0, "x")];
    EndIs(s, START, v);
    PageIs(s, v);
    assert Trim("y") == "y";
  }
}
