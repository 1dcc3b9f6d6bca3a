/** What the tags do to a page, in terms of the text that goes in and the page that comes out. */
module HtmlTags {
  import opened Ascii
  import opened AsciiLaws
  import opened Html
  import opened HtmlPages

  /** The tags that break a line. */
  const BREAKERS: seq<seq<char>> := [
    "br", "hr", "p", "div", "li", "tr", "ul", "ol", "table", "blockquote", "pre",
    "h1", "h2", "h3", "h4", "h5", "h6", "section", "header", "footer",
    "article", "aside", "nav", "form", "dl", "dt", "dd"]

  const SKIPPED: seq<seq<char>> := ["script", "style"]

  predicate LowerCase(t: seq<char>) { forall k :: 0 <= k < |t| ==> !('A' <= t[k] <= 'Z') }

  // ---- recognising a tag --------------------------------------------------------------

  /** The inside of a tag: a slash or none, the name, and attributes after a blank. */
  predicate TagText(tag: seq<char>, closing: bool, name: seq<char>, attrs: seq<char>) {
    tag == (if closing then ['/'] else []) + name + attrs && 1 <= |name| <= 22 && name[0] != '/'
    && (forall k :: 0 <= k < |name| ==> name[k] !in {' ', '\t', '\0', '>'}) && '>' !in attrs
    && (attrs == [] || attrs[0] == ' ' || attrs[0] == '\t')
  }

  lemma {:induction false} NameEndAt(s: seq<char>, k: nat, e: nat)
    requires k <= e <= |s| && (forall j :: k <= j < e ==> s[j] !in {' ', '\t', '\0'})
    requires e < |s| ==> s[e] in {' ', '\t', '\0'}
    ensures NameEnd(s, k) == e
    decreases e - k
  {
    if k < e { NameEndAt(s, k + 1, e); }
  }

  lemma KeptPrefix(t: seq<char>)
    ensures Kept(t) <= t && (|t| <= 23 ==> Kept(t) == t) && (|t| > 23 ==> |Kept(t)| == 23)
  {
  }

  lemma NameRead(rest: seq<char>, name: seq<char>)
    requires name <= rest && (forall k :: 0 <= k < |name| ==> name[k] !in {' ', '\t', '\0', '>'})
    requires |name| < |rest| ==> rest[|name|] in {' ', '\t'}
    ensures NameEnd(rest, 0) == |name|
  {
    NameEndAt(rest, 0, |name|);
  }

  /** The kept part after the slash starts with the name, and a blank ends it. */
  lemma RestKept(tag: seq<char>, closing: bool, name: seq<char>, attrs: seq<char>)
    requires TagText(tag, closing, name, attrs)
    ensures var c := if closing then 1 else 0; var rest := Kept(tag)[c..];
      name <= rest && (|name| < |rest| ==> rest[|name|] in {' ', '\t'})
  {
    var c := if closing then 1 else 0;
    KeptPrefix(tag);
    assert tag[c..] == name + attrs;
    var rest := Kept(tag)[c..];
    assert rest <= tag[c..] && |name| <= |rest|;
    assert rest[..|name|] == tag[c..][..|name|] == name;
  }

  /** However long the attributes, the name is read whole. */
  lemma NameKept(tag: seq<char>, closing: bool, name: seq<char>, attrs: seq<char>)
    requires TagText(tag, closing, name, attrs)
    ensures IsClosing(Kept(tag)) == closing && |TagName(Kept(tag))| == |name|
    ensures forall k :: 0 <= k < |name| ==> TagName(Kept(tag))[k] == Lower(name[k])
  {
    KeptPrefix(tag);
    RestKept(tag, closing, name, attrs);
    var rest := Kept(tag)[if closing then 1 else 0..];
    assert Kept(tag)[0] == tag[0] && Kept(tag)[0..] == Kept(tag);
    NameRead(rest, name);
    assert forall k :: 0 <= k < |name| ==> rest[k] == name[k];
  }

  /** A name in any letter case is looked up in lower case. */
  lemma NameIs(tag: seq<char>, closing: bool, name: seq<char>, attrs: seq<char>, lower: seq<char>)
    requires TagText(tag, closing, name, attrs) && LowerCase(lower)
    ensures TagName(Kept(tag)) == lower <==> Spelled(name, lower)
  {
    NameKept(tag, closing, name, attrs);
    var t := TagName(Kept(tag));
    if |name| == |lower| {
      forall k | 0 <= k < |name| ensures t[k] == lower[k] <==> Case(name[k], lower[k]) {
        LowerMeans(name[k], lower[k]);
      }
    }
  }

  /** A tag with this name in some letter case, attributes or none. */
  ghost predicate NamedTag(tag: seq<char>, closing: bool, lower: seq<char>) {
    exists name, attrs :: TagText(tag, closing, name, attrs) && Spelled(name, lower)
  }

  lemma NamedIs(tag: seq<char>, closing: bool, lower: seq<char>)
    requires NamedTag(tag, closing, lower) && LowerCase(lower)
    ensures TagName(Kept(tag)) == lower && IsClosing(Kept(tag)) == closing && '>' !in tag
  {
    var name, attrs :| TagText(tag, closing, name, attrs) && Spelled(name, lower);
    NameIs(tag, closing, name, attrs, lower);
    NameKept(tag, closing, name, attrs);
    NoGreater(tag, closing, name, attrs);
  }

  lemma BreakersExactly(name: seq<char>)
    ensures Classify(name) == LineBreak <==> name in BREAKERS
    ensures Classify(name) == Script <==> name in SKIPPED
  {
    SameList();
    assert name in BREAKS + BLOCKS <==> name in BREAKS || name in BLOCKS;
    assert SKIPPED[0] == "script" && SKIPPED[1] == "style";
    NotBreakers();
  }

  lemma SameList()
    ensures BREAKS + BLOCKS == BREAKERS
  {
  }

  lemma NotBreakers()
    ensures "script" !in BREAKERS && "style" !in BREAKERS && "title" !in BREAKERS && "a" !in BREAKERS
  {
    forall k | 0 <= k < |BREAKERS|
      ensures BREAKERS[k] != "script" && BREAKERS[k] != "style" && BREAKERS[k] != "title" && BREAKERS[k] != "a"
    {
    }
  }

  // ---- words --------------------------------------------------------------------------

  predicate WordChar(c: char) { ' ' < c <= '~' && c != '<' && c != '&' }

  predicate IsWord(w: seq<char>) { w != [] && forall k :: 0 <= k < |w| ==> WordChar(w[k]) }

  /** Outside tags and title, with no blank waiting. */
  predicate Reading(r: Rendering) { Plainly(r) && !r.titleOn && !r.pending }

  function Written(r: Rendering, w: seq<char>): Rendering {
    if w == [] then r else r.(text := r.text + w, lastNl := false)
  }

  lemma CharStep(s: seq<char>, i: nat, r: Rendering)
    requires i < |s| && WordChar(s[i]) && Reading(r) && |r.text| < PAGE_MAX - 2
    ensures OneStep(s, i, r) == Step(Written(r, [s[i]]), i + 1)
  {
  }

  lemma WrittenMore(r: Rendering, w: seq<char>, c: char)
    ensures Written(Written(r, w), [c]) == Written(r, w + [c])
  {
    assert (r.text + w) + [c] == r.text + (w + [c]);
  }

  /** Words go to the page as they are. */
  lemma {:induction false} WordRun(s: seq<char>, b: nat, i: nat, j: nat, r: Rendering, u: Rendering)
    requires b <= i <= j <= |s| && (forall k :: b <= k < j ==> WordChar(s[k])) && Reading(r)
    requires |r.text| + (j - b) <= PAGE_MAX - 2 && Plainly(u) && u == Written(r, s[b..i])
    ensures Leads(s, i, u, j, Written(r, s[b..j])) && Reading(Written(r, s[b..j]))
    decreases j - i
  {
    if i == j {
      Here(s, i, u);
    } else {
      CharStep(s, i, u);
      var v := Written(u, [s[i]]);
      RunStep(s, i, u, v, i + 1);
      assert s[b..i + 1] == s[b..i] + [s[i]];
      WrittenMore(r, s[b..i], s[i]);
      WordRun(s, b, i + 1, j, r, v);
      Then(s, i, u, i + 1, v, j, Written(r, s[b..j]));
    }
  }

  lemma WordAt(s: seq<char>, i: nat, j: nat, r: Rendering, w: seq<char>)
    requires i <= j <= |s| && s[i..j] == w && IsWord(w) && Reading(r) && |r.text| + |w| <= PAGE_MAX - 2
    ensures Leads(s, i, r, j, Written(r, w)) && Reading(Written(r, w))
  {
    forall k | i <= k < j ensures WordChar(s[k]) { assert s[k] == w[k - i]; }
    assert s[i..i] == [];
    WordRun(s, i, i, j, r, r);
  }

  // ---- what a tag leaves --------------------------------------------------------------

  predicate TagAt(s: seq<char>, i: nat, j: nat, tag: seq<char>) {
    i < j < |s| && s[i] == '<' && s[j] == '>' && s[i + 1..j] == tag
  }

  function Past(r: Rendering, i: nat): Rendering {
    r.(inTag := false, tag := [], tagStart := i, pending := false, sawTag := true)
  }

  function BrokenLine(r: Rendering, i: nat): Rendering {
    Past(r, i).(text := r.text + ['\n'], lastNl := true, lines := r.lines + 1)
  }

  /** A br, hr or block tag, opening or closing, in any letter case and with attributes, ends the
      line. */
  lemma BreakRun(s: seq<char>, i: nat, j: nat, r: Rendering, tag: seq<char>, closing: bool, lower: seq<char>)
    requires TagAt(s, i, j, tag) && NamedTag(tag, closing, lower) && lower in BREAKERS
    requires Reading(r) && !r.lastNl && |r.text| < PAGE_MAX - 1
    ensures Leads(s, i, r, j + 1, BrokenLine(r, i))
  {
    var k :| 0 <= k < |BREAKERS| && BREAKERS[k] == lower;
    BreakersLower(k);
    NamedIs(tag, closing, lower);
    ElementRun(s, i, j, r, tag);
    BreakersExactly(lower);
    assert EndTag(s, j, Entered(r, i, Kept(tag))) == BrokenLine(r, i);
  }

  lemma NoGreater(tag: seq<char>, closing: bool, name: seq<char>, attrs: seq<char>)
    requires TagText(tag, closing, name, attrs)
    ensures '>' !in tag
  {
  }

  /** A tag the browser does not know leaves the page alone. */
  predicate Unknown(name: seq<char>) {
    (forall k :: 0 <= k < |BREAKERS| ==> !Spelled(name, BREAKERS[k]))
    && !Spelled(name, "script") && !Spelled(name, "style") && !Spelled(name, "title") && !Spelled(name, "a")
  }

  lemma UnknownKind(tag: seq<char>, closing: bool, name: seq<char>, attrs: seq<char>)
    requires TagText(tag, closing, name, attrs) && Unknown(name)
    ensures Classify(TagName(Kept(tag))) == Other
  {
    var t := TagName(Kept(tag));
    NameIs(tag, closing, name, attrs, "script");
    NameIs(tag, closing, name, attrs, "style");
    NameIs(tag, closing, name, attrs, "title");
    NameIs(tag, closing, name, attrs, "a");
    forall k | 0 <= k < |BREAKERS| ensures t != BREAKERS[k] {
      BreakersLower(k);
      NameIs(tag, closing, name, attrs, BREAKERS[k]);
    }
    BreakersExactly(t);
    assert SKIPPED == ["script", "style"];
  }

  lemma BreakersLower(k: nat)
    requires k < |BREAKERS|
    ensures LowerCase(BREAKERS[k])
  {
  }

  lemma UnknownRun(s: seq<char>, i: nat, j: nat, r: Rendering, tag: seq<char>, closing: bool, name: seq<char>,
                   attrs: seq<char>)
    requires TagAt(s, i, j, tag) && TagText(tag, closing, name, attrs) && Unknown(name) && Reading(r)
    ensures Leads(s, i, r, j + 1, Past(r, i))
  {
    NoGreater(tag, closing, name, attrs);
    ElementRun(s, i, j, r, tag);
    UnknownKind(tag, closing, name, attrs);
    assert EndTag(s, j, Entered(r, i, Kept(tag))) == Past(r, i);
  }

  // ---- pages --------------------------------------------------------------------------

  function Tag(tag: seq<char>): seq<char> { ['<'] + tag + ['>'] }

  lemma Around(u: seq<char>, tag: seq<char>, v: seq<char>, s: seq<char>)
    requires s == u + Tag(tag) + v
    ensures var i, j := |u|, |u| + 1 + |tag|;
      s[0..i] == u && TagAt(s, i, j, tag) && j + 1 <= |s| && s[j + 1..|s|] == v
  {
  }

  lemma StartReads()
    ensures Reading(START)
  {
  }

  lemma LastWord(text: seq<char>, v: seq<char>)
    requires IsWord(v)
    ensures Trim(text + v) == text + v && text + v != []
  {
    assert WordChar(v[|v| - 1]) && (text + v)[|text + v| - 1] == v[|v| - 1];
  }

  /** A word, something, a word: from r to the end of the input. */
  lemma WordsAround(s: seq<char>, r: Rendering, u: seq<char>, i: nat, k: nat, b: Rendering, v: seq<char>)
    requires i <= k <= |s| && s[0..i] == u && s[k..|s|] == v && IsWord(u) && IsWord(v)
    requires Reading(r) && |r.text| + |u| <= PAGE_MAX - 2 && Reading(b) && |b.text| + |v| <= PAGE_MAX - 2
    requires Leads(s, i, Written(r, u), k, b)
    ensures Leads(s, 0, r, |s|, Written(b, v))
  {
    WordAt(s, 0, i, r, u);
    Then(s, 0, r, i, Written(r, u), k, b);
    WordAt(s, k, |s|, b, v);
    Then(s, 0, r, k, b, |s|, Written(b, v));
  }

  /** The page of a pass that ended in c with a word. */
  lemma WordPage(s: seq<char>, c: Rendering, text: seq<char>, v: seq<char>)
    requires Leads(s, 0, START, |s|, c) && c.text == text + v && IsWord(v)
    ensures PageText(s) == text + v && PageLinks(s) == c.links
  {
    LastWord(text, v);
    PageIs(s, c);
  }

  /** How many lines the pass counted, and the title it found. */
  function PageLines(s: seq<char>): nat { Run(s, 0, START).lines }

  function PageTitle(s: seq<char>): seq<char> { Run(s, 0, START).title }

  lemma LinesAre(s: seq<char>, c: Rendering)
    requires Leads(s, 0, START, |s|, c)
    ensures PageLines(s) == c.lines && PageTitle(s) == c.title
  {
    EndIs(s, START, c);
  }

  /** A word, a tag that ends the line, a word. */
  lemma BreakBetween(s: seq<char>, r: Rendering, u: seq<char>, v: seq<char>, tag: seq<char>, closing: bool,
                     lower: seq<char>)
    requires IsWord(u) && IsWord(v) && s == u + Tag(tag) + v && Reading(r) && |r.text| + |u| + |v| < PAGE_MAX - 2
    requires NamedTag(tag, closing, lower) && lower in BREAKERS
    ensures Leads(s, 0, r, |s|, Written(BrokenLine(Written(r, u), |u|), v))
  {
    var i, j, a := |u|, |u| + 1 + |tag|, Written(r, u);
    Around(u, tag, v, s);
    WordAt(s, 0, i, r, u);
    BreakRun(s, i, j, a, tag, closing, lower);
    WordsAround(s, r, u, i, j + 1, BrokenLine(a, i), v);
  }

  /** Two words with such a tag between them: two lines. */
  lemma TagBreaks(u: seq<char>, v: seq<char>, tag: seq<char>, closing: bool, lower: seq<char>, s: seq<char>)
    requires IsWord(u) && IsWord(v) && |u| + |v| < PAGE_MAX - 2 && s == u + Tag(tag) + v
    requires NamedTag(tag, closing, lower) && lower in BREAKERS
    ensures PageText(s) == u + ['\n'] + v && PageLines(s) == 2 && PageLinks(s) == []
  {
    StartReads();
    BreakBetween(s, START, u, v, tag, closing, lower);
    var c := Written(BrokenLine(Written(START, u), |u|), v);
    assert c.text == (u + ['\n']) + v && c.lines == 2 && c.links == [];
    WordPage(s, c, u + ['\n'], v);
    LinesAre(s, c);
  }

  lemma UnknownBetween(s: seq<char>, r: Rendering, u: seq<char>, v: seq<char>, tag: seq<char>, closing: bool,
                       name: seq<char>, attrs: seq<char>)
    requires IsWord(u) && IsWord(v) && s == u + Tag(tag) + v && Reading(r) && |r.text| + |u| + |v| < PAGE_MAX - 2
    requires TagText(tag, closing, name, attrs) && Unknown(name)
    ensures Leads(s, 0, r, |s|, Written(Past(Written(r, u), |u|), v))
  {
    var i, j, a := |u|, |u| + 1 + |tag|, Written(r, u);
    Around(u, tag, v, s);
    WordAt(s, 0, i, r, u);
    UnknownRun(s, i, j, a, tag, closing, name, attrs);
    WordsAround(s, r, u, i, j + 1, Past(a, i), v);
  }

  /** Two words with an unknown tag between them: one word. */
  lemma UnknownTag(u: seq<char>, v: seq<char>, tag: seq<char>, closing: bool, name: seq<char>, attrs: seq<char>,
                   s: seq<char>)
    requires IsWord(u) && IsWord(v) && |u| + |v| < PAGE_MAX - 2 && s == u + Tag(tag) + v
    requires TagText(tag, closing, name, attrs) && Unknown(name)
    ensures PageText(s) == u + v && PageLines(s) == 1 && PageLinks(s) == []
  {
    StartReads();
    UnknownBetween(s, START, u, v, tag, closing, name, attrs);
    var c := Written(Past(Written(START, u), |u|), v);
    assert c.text == u + v && c.lines == 1 && c.links == [];
    WordPage(s, c, u, v);
    LinesAre(s, c);
  }

  // ---- paragraphs ---------------------------------------------------------------------

  /** At the start of a line such a tag changes nothing on the page: no empty lines. */
  lemma BreakAgain(s: seq<char>, i: nat, j: nat, r: Rendering, tag: seq<char>, closing: bool, lower: seq<char>)
    requires TagAt(s, i, j, tag) && NamedTag(tag, closing, lower) && lower in BREAKERS && Reading(r) && r.lastNl
    ensures Leads(s, i, r, j + 1, Past(r, i))
  {
    var k :| 0 <= k < |BREAKERS| && BREAKERS[k] == lower;
    BreakersLower(k);
    NamedIs(tag, closing, lower);
    ElementRun(s, i, j, r, tag);
    BreakersExactly(lower);
    assert EndTag(s, j, Entered(r, i, Kept(tag))) == Past(r, i);
  }

  /** Two such tags after a word, as between paragraphs, still break the line once. */
  lemma TwoTagsBreakOnce(s: seq<char>, i: nat, j: nat, k: nat, r: Rendering, first: seq<char>, closing: bool,
                         lower: seq<char>, second: seq<char>, closing': bool, lower': seq<char>)
    requires TagAt(s, i, j, first) && TagAt(s, j + 1, k, second)
    requires NamedTag(first, closing, lower) && lower in BREAKERS
    requires NamedTag(second, closing', lower') && lower' in BREAKERS
    requires Reading(r) && !r.lastNl && |r.text| < PAGE_MAX - 1
    ensures Leads(s, i, r, k + 1, Past(BrokenLine(r, i), j + 1))
  {
    var u := BrokenLine(r, i);
    BreakRun(s, i, j, r, first, closing, lower);
    BreakAgain(s, j + 1, k, u, second, closing', lower');
    Then(s, i, r, j + 1, u, k + 1, Past(u, j + 1));
  }

  // ---- blanks after a tag -------------------------------------------------------------

  lemma BlankStep(s: seq<char>, i: nat, r: Rendering)
    requires i < |s| && s[i] in {' ', '\t', '\r', '\n'} && Reading(r) && r.sawTag && !r.lastNl
    ensures OneStep(s, i, r) == Step(r.(pending := true), i + 1)
  {
  }

  lemma JoinStep(s: seq<char>, i: nat, r: Rendering)
    requires i < |s| && WordChar(s[i]) && Reading(r) && !r.lastNl && |r.text| < PAGE_MAX - 2
    ensures OneStep(s, i, r.(pending := true)) == Step(Written(r, [' ', s[i]]), i + 1)
  {
    assert r.text + [' '] + [s[i]] == r.text + [' ', s[i]];
  }

  /** Once a tag has been seen, any blank between two words is one space, a line feed too. */
  lemma BlankRun(s: seq<char>, i: nat, r: Rendering, v: seq<char>)
    requires i + 1 + |v| <= |s| && s[i] in {' ', '\t', '\r', '\n'} && s[i + 1..i + 1 + |v|] == v && IsWord(v)
    requires Reading(r) && r.sawTag && !r.lastNl && |r.text| + |v| < PAGE_MAX - 2
    ensures Leads(s, i, r, i + 1 + |v|, Written(r, [' '] + v))
  {
    var p, u, c := r.(pending := true), Written(r, [' ', v[0]]), v[0];
    assert s[i + 1] == s[i + 1..i + 1 + |v|][0] == c && WordChar(c);
    BlankStep(s, i, r);
    RunStep(s, i, r, p, i + 1);
    JoinStep(s, i + 1, r);
    RunStep(s, i + 1, p, u, i + 2);
    Then(s, i, r, i + 1, p, i + 2, u);
    var rest := v[1..];
    if rest == [] {
      assert [' '] + v == [' ', c];
    } else {
      assert s[i + 2..i + 1 + |v|] == rest;
      assert IsWord(rest);
      WordAt(s, i + 2, i + 1 + |v|, u, rest);
      assert r.text + [' ', c] + rest == r.text + ([' '] + v);
      Then(s, i, r, i + 2, u, i + 1 + |v|, Written(r, [' '] + v));
    }
  }

  // ---- a break that is not one --------------------------------------------------------

  lemma SlashDiffers(name: seq<char>, lower: seq<char>)
    requires |name| == 3 && name[2] == '/' && (|lower| == 3 ==> 'a' <= lower[2] <= 'z')
    ensures !Spelled(name, lower)
  {
    if |lower| == 3 { LowerMeans('/', lower[2]); }
  }

  lemma ThreeLetters(k: nat)
    requires k < |BREAKERS|
    ensures |BREAKERS[k]| == 3 ==> 'a' <= BREAKERS[k][2] <= 'z'
  {
  }

  /** `<br/>` without a blank is not recognised: the words run together. */
  lemma SlashedBreak(u: seq<char>, v: seq<char>, s: seq<char>)
    requires IsWord(u) && IsWord(v) && |u| + |v| < PAGE_MAX - 2 && s == u + Tag(['b', 'r', '/']) + v
    ensures PageText(s) == u + v
  {
    var name := ['b', 'r', '/'];
    forall k | 0 <= k < |BREAKERS| ensures !Spelled(name, BREAKERS[k]) {
      ThreeLetters(k);
      SlashDiffers(name, BREAKERS[k]);
    }
    assert Unknown(name);
    assert name == [] + name + [];
    assert TagText(name, false, name, []);
    UnknownTag(u, v, name, false, name, [], s);
  }
}
