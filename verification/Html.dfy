/**
  HTML to text, as one pass over the input with a small state: tags are recognised by name,
  block tags and (before any tag) line feeds break lines, blanks collapse, entities are
  decoded, and every <a href> leaves a byte range of the page in the link table.
*/
module Html {
  import opened Ascii

  const PAGE_MAX := 16384
  const MAX_LINKS := 64
  const URL_MAX := 120
  const TITLE_MAX := 64
  const TAG_MAX := 23

  /** [start, end) is a range of page bytes. */
  datatype Link = Link(start: nat, end: nat, href: seq<char>)

  /** The tab's page fields and the locals of the loop; `open` is the link being filled, -1
      outside <a>, and `full` says the loop was left because the page is full. */
  datatype Rendering = Rendering(
    text: seq<char>, lines: nat, title: seq<char>, links: seq<Link>,
    inTag: bool, tag: seq<char>, tagStart: nat, inSkip: bool, titleOn: bool,
    pending: bool, lastNl: bool, sawTag: bool, open: int, full: bool)

  const START := Rendering([], 1, [], [], false, [], 0, false, false, false, true, false, -1, false)

  // ---- tags ---------------------------------------------------------------------------

  const BREAKS: seq<seq<char>> := ["br", "hr"]
  const BLOCKS: seq<seq<char>> := [
    "p", "div", "li", "tr", "ul", "ol", "table", "blockquote", "pre",
    "h1", "h2", "h3", "h4", "h5", "h6", "section", "header", "footer",
    "article", "aside", "nav", "form", "dl", "dt", "dd"]

  function NameEnd(s: seq<char>, k: nat): (e: nat)
    requires k <= |s|
    ensures k <= e <= |s|
    decreases |s| - k
  {
    if k == |s| || s[k] in {' ', '\t', '\0'} then k else NameEnd(s, k + 1)
  }

  predicate IsClosing(tag: seq<char>) { tag != [] && tag[0] == '/' }

  /** The lower-case element name, without the slash and without attributes. */
  function TagName(tag: seq<char>): seq<char> {
    var name := if IsClosing(tag) then tag[1..] else tag;
    var n := NameEnd(name, 0);
    seq(n, k requires 0 <= k < n <= |name| => Lower(name[k]))
  }

  function SkipToValue(s: seq<char>, q: nat, e: nat): (r: nat)
    requires q <= e <= |s|
    ensures q <= r <= e
    decreases e - q
  {
    if q < e && (s[q] == ' ' || s[q] == '=') then SkipToValue(s, q + 1, e) else q
  }

  function Quoted(s: seq<char>, q: nat, e: nat, quote: char, n: nat): (r: seq<char>)
    requires q <= e <= |s|
    ensures |r| <= n
    decreases e - q
  {
    if q < e && s[q] != quote && n > 0 then [s[q]] + Quoted(s, q + 1, e, quote, n - 1) else []
  }

  /** The quoted value after the first "href" that has one, in s[h..e). */
  function Href(s: seq<char>, h: nat, e: nat): (r: seq<char>)
    requires e <= |s|
    ensures |r| <= URL_MAX
    decreases e - h
  {
    if h + 5 >= e then [] else
    var q := SkipToValue(s, h + 4, e);
    if (s[h] == 'h' || s[h] == 'H') && StartsCi(s[h..], "href") && q < e && (s[q] == '"' || s[q] == '\'')
    then Quoted(s, q + 1, e, s[q], URL_MAX)
    else Href(s, h + 1, e)
  }

  /** What my_strcpy copies of a buffer: the text before the first NUL. */
  function UptoNul(s: seq<char>): (t: seq<char>)
    ensures t <= s
  { if s == [] || s[0] == '\0' then [] else [s[0]] + UptoNul(s[1..]) }

  function Break(r: Rendering): Rendering {
    if !r.lastNl && |r.text| < PAGE_MAX - 1
    then r.(text := r.text + ['\n'], lastNl := true, lines := r.lines + 1, pending := false)
    else r.(pending := false)
  }

  /** <a ...> or </a>. */
  function Anchor(s: seq<char>, i: nat, r: Rendering): Rendering
    requires i <= |s| && -1 <= r.open < |r.links|
  {
    if IsClosing(r.tag) then
      if r.open >= 0 then r.(links := r.links[r.open := r.links[r.open].(end := |r.text|)], open := -1) else r
    else if |r.links| < MAX_LINKS then
      var href := Href(s, r.tagStart, i);
      if |href| > 0 then r.(links := r.links + [Link(|r.text|, |r.text|, UptoNul(href))], open := |r.links|) else r
    else r
  }

  datatype Kind = Script | LineBreak | Title | A | Other

  function Classify(name: seq<char>): Kind {
    if name == "script" || name == "style" then Script
    else if name in BREAKS || name in BLOCKS then LineBreak
    else if name == "title" then Title
    else if name == "a" then A
    else Other
  }

  function Dispatch(s: seq<char>, i: nat, r: Rendering, kind: Kind): Rendering
    requires i <= |s| && -1 <= r.open < |r.links|
  {
    if r.inSkip then (if IsClosing(r.tag) && kind == Script then r.(inSkip := false) else r)
    else match kind
      case Script => r.(inSkip := true)
      case LineBreak => Break(r)
      case Title => r.(titleOn := !IsClosing(r.tag))
      case A => Anchor(s, i, r)
      case Other => r
  }

  /** The '>' that ends a tag. */
  function EndTag(s: seq<char>, i: nat, r: Rendering): Rendering
    requires i <= |s| && -1 <= r.open < |r.links|
  { Dispatch(s, i, r, Classify(TagName(r.tag))).(inTag := false, tag := []) }

  // ---- entities -----------------------------------------------------------------------

  const ENTITIES: seq<(seq<char>, char)> := [
    ("amp;", '&'), ("lt;", '<'), ("gt;", '>'), ("quot;", '"'), ("apos;", '\''), ("nbsp;", ' '),
    ("copy;", ' '), ("mdash;", '-'), ("ndash;", '-'), ("hellip;", '.'), ("rsquo;", '\''),
    ("lsquo;", '\''), ("rdquo;", '"'), ("ldquo;", '"')]

  /** Index of the first entity name at s[i..], from e on; |ENTITIES| when there is none. */
  function Named(s: seq<char>, i: nat, e: nat): (k: nat)
    requires i <= |s| && e <= |ENTITIES|
    ensures e <= k <= |ENTITIES| && (k < |ENTITIES| ==> ENTITIES[k].0 <= s[i..])
    decreases |ENTITIES| - e
  {
    if e == |ENTITIES| || ENTITIES[e].0 <= s[i..] then e else Named(s, i, e + 1)
  }

  datatype Number = Number(value: nat, digits: nat, next: nat)

  function Numeric(s: seq<char>, j: nat, hex: bool, value: nat, digits: nat): (n: Number)
    requires j <= |s|
    ensures j <= n.next <= |s|
    decreases |s| - j
  {
    if j < |s| && digits < 5 && (IsDigit(s[j]) || (hex && HexVal(s[j]) >= 0))
    then Numeric(s, j + 1, hex, value * (if hex then 16 else 10) + HexVal(s[j]), digits + 1)
    else Number(value, digits, j)
  }

  /** What one '&' turns into: a character, and the input characters it stands for. */
  datatype Entity = Entity(c: char, used: nat)

  /** &#NN; or &#xHH; for a printable character; anything else is a plain ampersand. */
  function NumericEntity(s: seq<char>, i: nat): (e: Entity)
    requires i < |s|
    ensures ' ' <= e.c <= '~' && 1 <= e.used <= |s| - i
  {
    if i + 2 < |s| && s[i + 1] == '#' then
      var hex := s[i + 2] == 'x' || s[i + 2] == 'X';
      var n := Numeric(s, if hex then i + 3 else i + 2, hex, 0, 0);
      if n.digits > 0 && n.next < |s| && s[n.next] == ';' && 32 <= n.value <= 126
      then Entity(n.value as char, n.next + 1 - i)
      else Entity('&', 1)
    else Entity('&', 1)
  }

  function DecodeEntity(s: seq<char>, i: nat, room: bool): (e: Entity)
    requires i < |s| && s[i] == '&'
    ensures ' ' <= e.c <= '~' && 1 <= e.used <= |s| - i
  {
    var k := Named(s, i + 1, 0);
    if k < |ENTITIES| && room then Entity(ENTITIES[k].1, 1 + |ENTITIES[k].0|) else NumericEntity(s, i)
  }

  // ---- text ---------------------------------------------------------------------------

  function Append(text: seq<char>, c: char): seq<char> { if |text| < PAGE_MAX - 1 then text + [c] else text }

  predicate IsBlank(c: char) { c in {' ', '\t', '\r', '\n'} }

  function TitleBlank(t: seq<char>): seq<char> {
    if |t| > 0 && t[|t| - 1] != ' ' && |t| < TITLE_MAX - 1 then t + [' '] else t
  }

  function Blank(r: Rendering, c: char): Rendering {
    var title := if r.titleOn && c == ' ' then TitleBlank(r.title) else r.title;
    if c == '\n' && !r.sawTag then Break(r.(title := title))
    else r.(title := title, pending := r.pending || !r.lastNl)
  }

  function Printable(r: Rendering, c: char): Rendering {
    var title := if r.titleOn && |r.title| < TITLE_MAX - 1 then r.title + [c] else r.title;
    if |r.text| >= PAGE_MAX - 2 then r.(title := title, full := true)
    else if !r.lastNl && r.pending
    then r.(title := title, text := r.text + [' '] + [c], pending := false, lastNl := false)
    else r.(title := title, text := r.text + [c], lastNl := false)
  }

  datatype Step = Step(r: Rendering, next: nat)

  function TagStep(s: seq<char>, i: nat, r: Rendering): Rendering
    requires i < |s| && -1 <= r.open < |r.links|
  {
    if s[i] == '>' then EndTag(s, i, r)
    else if |r.tag| < TAG_MAX then r.(tag := r.tag + [s[i]]) else r
  }

  function TextStep(r: Rendering, c: char): Rendering {
    if IsBlank(c) then Blank(r, c) else if c < ' ' || c > '~' then r else Printable(r, c)
  }

  function EntityStep(r: Rendering, e: Entity): Rendering { r.(text := Append(r.text, e.c), lastNl := false) }

  /** One iteration of the loop, at input index i. */
  function OneStep(s: seq<char>, i: nat, r: Rendering): (n: Step)
    requires i < |s| && -1 <= r.open < |r.links|
    ensures i < n.next <= |s|
  {
    var c := s[i];
    if r.inTag then Step(TagStep(s, i, r), i + 1)
    else if r.inSkip then Step(if c == '<' then r.(inTag := true, tag := [], sawTag := true) else r, i + 1)
    else if c == '<' then
      Step(r.(inTag := true, tag := [], tagStart := i, pending := false, sawTag := true), i + 1)
    else if c == '&' then
      var e := DecodeEntity(s, i, |r.text| < PAGE_MAX - 1);
      Step(EntityStep(r, e), i + e.used)
    else Step(TextStep(r, c), i + 1)
  }

  // ---- what holds all along -----------------------------------------------------------

  predicate Shown(c: char) { c == '\n' || ' ' <= c <= '~' }

  /** No leading newline and no two in a row. */
  predicate Broken(text: seq<char>) {
    (forall k :: 0 <= k < |text| ==> Shown(text[k]))
    && (forall k :: 0 <= k < |text| && text[k] == '\n' ==> k > 0 && text[k - 1] != '\n')
  }

  /** Link ranges in page order, touching at most at their ends. */
  predicate Ordered(links: seq<Link>) {
    (forall n :: 0 <= n < |links| ==> links[n].start <= links[n].end)
    && (forall m, n :: 0 <= m < n < |links| ==> links[m].end <= links[n].start)
  }

  predicate LinksFit(r: Rendering) {
    Ordered(r.links) && |r.links| <= MAX_LINKS
    && (forall n :: 0 <= n < |r.links| ==> r.links[n].end <= |r.text| && |r.links[n].href| <= URL_MAX)
    && (r.open == -1 || (0 <= r.open == |r.links| - 1))
  }

  predicate TextFits(r: Rendering) {
    |r.text| <= PAGE_MAX - 1 && Broken(r.text)
    && (!r.lastNl && |r.text| < PAGE_MAX - 1 ==> r.text != [] && r.text[|r.text| - 1] != '\n')
  }

  predicate Ok(r: Rendering) { TextFits(r) && LinksFit(r) && |r.title| <= TITLE_MAX - 1 && |r.tag| <= TAG_MAX }

  /** Appending one character that may follow. */
  lemma BrokenAppend(text: seq<char>, c: char)
    requires Broken(text) && Shown(c) && (c == '\n' ==> text != [] && text[|text| - 1] != '\n')
    ensures Broken(text + [c])
  {
    var t := text + [c];
    forall k | 0 <= k < |t| && t[k] == '\n' ensures k > 0 && t[k - 1] != '\n' {
      if k < |text| { assert text[k] == '\n'; }
    }
  }

  lemma BreakOk(r: Rendering)
    requires Ok(r)
    ensures Ok(Break(r))
  {
    if !r.lastNl && |r.text| < PAGE_MAX - 1 { BrokenAppend(r.text, '\n'); }
  }

  lemma OpenLink(r: Rendering, href: seq<char>)
    requires LinksFit(r) && |r.links| < MAX_LINKS && |href| <= URL_MAX
    ensures LinksFit(r.(links := r.links + [Link(|r.text|, |r.text|, href)], open := |r.links|))
  {
  }

  lemma CloseLink(r: Rendering)
    requires LinksFit(r) && r.open >= 0
    ensures LinksFit(r.(links := r.links[r.open := r.links[r.open].(end := |r.text|)], open := -1))
  {
  }

  lemma AnchorOk(s: seq<char>, i: nat, r: Rendering)
    requires i <= |s| && Ok(r)
    ensures Ok(Anchor(s, i, r))
  {
    if IsClosing(r.tag) {
      if r.open >= 0 { CloseLink(r); }
    } else if |r.links| < MAX_LINKS && |Href(s, r.tagStart, i)| > 0 {
      OpenLink(r, UptoNul(Href(s, r.tagStart, i)));
    }
  }

  lemma DispatchOk(s: seq<char>, i: nat, r: Rendering, kind: Kind)
    requires i <= |s| && Ok(r)
    ensures Ok(Dispatch(s, i, r, kind))
  {
    if !r.inSkip {
      match kind
      case LineBreak => BreakOk(r);
      case A => AnchorOk(s, i, r);
      case _ =>
    }
  }

  lemma TagStepOk(s: seq<char>, i: nat, r: Rendering)
    requires i < |s| && Ok(r)
    ensures Ok(TagStep(s, i, r))
  {
    if s[i] == '>' {
      var kind := Classify(TagName(r.tag));
      DispatchOk(s, i, r, kind);
    }
  }

  /** Only the text grew, or the title changed. */
  lemma NewText(r: Rendering, r': Rendering)
    requires Ok(r) && r'.links == r.links && r'.open == r.open && r'.tag == r.tag
    requires |r'.title| <= TITLE_MAX - 1 && TextFits(r') && |r.text| <= |r'.text|
    ensures Ok(r')
  {
  }

  lemma PrintableFits(r: Rendering, c: char)
    requires TextFits(r) && ' ' <= c <= '~'
    ensures TextFits(Printable(r, c))
  {
    BrokenAppend(r.text, c);
    BrokenAppend(r.text, ' ');
    BrokenAppend(r.text + [' '], c);
  }

  lemma PrintableFrame(r: Rendering, c: char)
    ensures var r' := Printable(r, c);
      r'.links == r.links && r'.open == r.open && r'.tag == r.tag && |r.text| <= |r'.text|
      && (|r.title| <= TITLE_MAX - 1 ==> |r'.title| <= TITLE_MAX - 1)
  {
  }

  lemma PrintableOk(r: Rendering, c: char)
    requires Ok(r) && ' ' <= c <= '~'
    ensures Ok(Printable(r, c))
  {
    PrintableFits(r, c);
    PrintableFrame(r, c);
    var r' := Printable(r, c);
    NewText(r, r');
  }

  lemma BlankOk(r: Rendering, c: char)
    requires Ok(r)
    ensures Ok(Blank(r, c))
  {
    var title := if r.titleOn && c == ' ' then TitleBlank(r.title) else r.title;
    if c == '\n' && !r.sawTag {
      NewText(r, r.(title := title));
      BreakOk(r.(title := title));
    } else {
      NewText(r, r.(title := title, pending := r.pending || !r.lastNl));
    }
  }

  lemma TextStepOk(r: Rendering, c: char)
    requires Ok(r)
    ensures Ok(TextStep(r, c))
  {
    if IsBlank(c) { BlankOk(r, c); } else if ' ' <= c <= '~' { PrintableOk(r, c); }
  }

  lemma EntityStepOk(r: Rendering, e: Entity)
    requires Ok(r) && ' ' <= e.c <= '~'
    ensures Ok(EntityStep(r, e))
  {
    BrokenAppend(r.text, e.c);
  }

  lemma StepOk(s: seq<char>, i: nat, r: Rendering)
    requires i < |s| && Ok(r)
    ensures Ok(OneStep(s, i, r).r)
  {
    if r.inTag {
      TagStepOk(s, i, r);
    } else if r.inSkip || s[i] == '<' {
    } else if s[i] == '&' {
      EntityStepOk(r, DecodeEntity(s, i, |r.text| < PAGE_MAX - 1));
    } else {
      TextStepOk(r, s[i]);
    }
  }

  // ---- the loop -----------------------------------------------------------------------

  /** The loop from index i in state r to its end. */
  function Run(s: seq<char>, i: nat, r: Rendering): Rendering
    requires i <= |s| && Ok(r)
    decreases |s| - i
  {
    if i == |s| || r.full then r
    else
      var n := OneStep(s, i, r);
      StepOk(s, i, r);
      Run(s, n.next, n.r)
  }

  lemma {:induction false} RunOk(s: seq<char>, i: nat, r: Rendering)
    requires i <= |s| && Ok(r)
    ensures Ok(Run(s, i, r))
    decreases |s| - i
  {
    if i < |s| && !r.full {
      StepOk(s, i, r);
      RunOk(s, OneStep(s, i, r).next, OneStep(s, i, r).r);
    }
  }

  function Trim(text: seq<char>): (t: seq<char>)
    ensures t <= text
    ensures t != [] ==> t[|t| - 1] != '\n' && t[|t| - 1] != ' '
  {
    if text != [] && text[|text| - 1] in {'\n', ' '} then Trim(text[..|text| - 1]) else text
  }

  const EMPTY_PAGE := "(empty page)"

  function PageText(s: seq<char>): seq<char> {
    var t := Trim(Run(s, 0, START).text);
    if t == [] then EMPTY_PAGE else t
  }

  function PageLinks(s: seq<char>): seq<Link> { Run(s, 0, START).links }

  /** Newlines and printable ASCII only; no leading or doubled newline; no trailing newline
      or space; never empty, and within the page buffer. */
  predicate NormalForm(text: seq<char>) {
    Broken(text) && 0 < |text| <= PAGE_MAX - 1 && text[|text| - 1] != '\n' && text[|text| - 1] != ' '
  }

  lemma TrimBroken(text: seq<char>)
    requires Broken(text)
    ensures Broken(Trim(text))
  {
    var t := Trim(text);
    assert forall k :: 0 <= k < |t| ==> t[k] == text[k];
  }

  lemma PageNormal(s: seq<char>)
    ensures NormalForm(PageText(s)) && Ordered(PageLinks(s)) && |PageLinks(s)| <= MAX_LINKS
  {
    RunOk(s, 0, START);
    TrimBroken(Run(s, 0, START).text);
    assert Broken(EMPTY_PAGE);
  }

  // ---- link lookup --------------------------------------------------------------------

  predicate Covers(l: Link, pos: int) { l.start <= pos < l.end }

  /** The link that covers a byte, -1 when none does. */
  function CoverFrom(links: seq<Link>, pos: int, k: nat): (n: int)
    requires k <= |links|
    ensures n == -1 || (k <= n < |links| && Covers(links[n], pos))
    ensures n == -1 ==> forall m :: k <= m < |links| ==> !Covers(links[m], pos)
    decreases |links| - k
  {
    if k == |links| then -1 else if Covers(links[k], pos) then k else CoverFrom(links, pos, k + 1)
  }

  function CoverOf(links: seq<Link>, pos: int): int { CoverFrom(links, pos, 0) }

  lemma CoverUnique(links: seq<Link>, pos: int, n: nat)
    requires Ordered(links) && n < |links| && Covers(links[n], pos)
    ensures CoverOf(links, pos) == n
    ensures forall m :: 0 <= m < |links| && Covers(links[m], pos) ==> m == n
  {
    assert forall m :: 0 <= m < n ==> links[m].end <= links[n].start;
    assert forall m :: n < m < |links| ==> links[n].end <= links[m].start;
  }

  lemma CoverNone(links: seq<Link>, pos: int)
    requires forall m :: 0 <= m < |links| ==> !Covers(links[m], pos)
    ensures CoverOf(links, pos) == -1
  {
  }

  /** Which link covers page byte `pos`?  The scan may stop early because the table is in
      page order, and at most one link can cover a byte. */
  method LinkIndexAt(links: seq<Link>, pos: int) returns (n: int)
    requires Ordered(links)
    ensures n == CoverOf(links, pos)
  {
    var k := 0;
    while k < |links|
      invariant 0 <= k <= |links| && forall m :: 0 <= m < k ==> !Covers(links[m], pos)
    {
      if pos >= links[k].start && pos < links[k].end {
        CoverUnique(links, pos, k);
        return k;
      }
      if links[k].start > pos { break; }
      k := k + 1;
    }
    CoverNone(links, pos);
    return -1;
  }
}
