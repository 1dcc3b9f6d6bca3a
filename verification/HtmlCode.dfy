/** The code of html_to_text: the scanning loops, the cascade over the tag names, and the pass
    over the input, against the step function of `Html`. */
module HtmlCode {
  import opened Ascii
  import CString
  import opened Html

  // ---- scanning loops -----------------------------------------------------------------

  /** The lower-case name of a tag, without slash and attributes. */
  method ReadName(tag: seq<char>) returns (low: seq<char>)
    ensures low == TagName(tag)
  {
    var name := if IsClosing(tag) then tag[1..] else tag;
    var k := 0;
    while k < |name| && name[k] != ' ' && name[k] != '\t' && name[k] != '\0'
      invariant 0 <= k <= |name| && NameEnd(name, k) == NameEnd(name, 0)
    {
      k := k + 1;
    }
    low := [];
    while |low| < k
      invariant |low| <= k <= |name| && forall j :: 0 <= j < |low| ==> low[j] == Lower(name[j])
    {
      low := low + [Lower(name[|low|])];
    }
  }

  method InList(name: seq<char>) returns (found: bool)
    ensures found <==> name in BLOCKS
  {
    var i := 0;
    while i < |BLOCKS|
      invariant 0 <= i <= |BLOCKS| && name !in BLOCKS[..i]
    {
      if name == BLOCKS[i] { return true; }
      i := i + 1;
    }
    return false;
  }

  /** The characters up to the closing quote, at most URL_MAX. */
  method ReadQuoted(s: seq<char>, start: nat, e: nat, quote: char) returns (href: seq<char>)
    requires start <= e <= |s|
    ensures href == Quoted(s, start, e, quote, URL_MAX)
  {
    var q := start;
    href := [];
    while q < e && s[q] != quote && |href| < URL_MAX
      invariant start <= q <= e && |href| <= URL_MAX
      invariant Quoted(s, start, e, quote, URL_MAX) == href + Quoted(s, q, e, quote, URL_MAX - |href|)
    {
      href, q := href + [s[q]], q + 1;
    }
  }

  /** The search for the first href with a quoted value between h and e. */
  method FindHref(s: seq<char>, start: nat, e: nat) returns (href: seq<char>)
    requires e <= |s|
    ensures href == Href(s, start, e)
  {
    var h := start;
    while h + 5 < e
      invariant start <= h && Href(s, h, e) == Href(s, start, e)
      decreases e - h
    {
      var found, q := ValueAt(s, h, e);
      if found {
        href := ReadQuoted(s, q + 1, e, s[q]);
        return;
      }
      h := h + 1;
    }
    href := [];
  }

  /** Is there an href at h with a quoted value, and where does the value start? */
  method ValueAt(s: seq<char>, h: nat, e: nat) returns (found: bool, q: nat)
    requires h + 5 < e <= |s|
    ensures q == SkipToValue(s, h + 4, e)
    ensures found <==>
      (s[h] == 'h' || s[h] == 'H') && StartsCi(s[h..], "href") && q < e && (s[q] == '"' || s[q] == '\'')
  {
    q := SkipEquals(s, h + 4, e);
    found := (s[h] == 'h' || s[h] == 'H') && StartsCi(s[h..], "href") && q < e && (s[q] == '"' || s[q] == '\'');
  }

  method SkipEquals(s: seq<char>, start: nat, e: nat) returns (q: nat)
    requires start <= e <= |s|
    ensures q == SkipToValue(s, start, e)
  {
    q := start;
    while q < e && (s[q] == ' ' || s[q] == '=')
      invariant start <= q <= e && SkipToValue(s, q, e) == SkipToValue(s, start, e)
    {
      q := q + 1;
    }
  }

  /** The copy of an href into the link table stops at a NUL. */
  method CopyHref(href: seq<char>) returns (t: seq<char>)
    ensures t == UptoNul(href)
  {
    t := [];
    var i := 0;
    while i < |href| && href[i] != '\0'
      invariant 0 <= i <= |href| && UptoNul(href) == t + UptoNul(href[i..])
    {
      assert href[i..][0] == href[i] && href[i..][1..] == href[i + 1..];
      CString.Regroup(t, href[i], UptoNul(href[i + 1..]));
      t, i := t + [href[i]], i + 1;
    }
  }

  // ---- entities -----------------------------------------------------------------------

  /** Does the input at j start with the name? */
  method MatchesName(s: seq<char>, j: nat, name: seq<char>) returns (hit: bool)
    requires j <= |s|
    ensures hit <==> name <= s[j..]
  {
    var k := 0;
    while k < |name| && j + k < |s| && s[j + k] == name[k]
      invariant 0 <= k <= |name| && j + k <= |s| && forall m :: 0 <= m < k ==> s[j + m] == name[m]
    {
      k := k + 1;
    }
    hit := k == |name|;
    assert forall m :: 0 <= m < |s| - j ==> s[j..][m] == s[j + m];
  }

  /** The first entity name at j, |ENTITIES| when there is none. */
  method FindNamed(s: seq<char>, j: nat) returns (e: nat)
    requires j <= |s|
    ensures e == Named(s, j, 0)
  {
    e := 0;
    while e < |ENTITIES|
      invariant e <= |ENTITIES| && Named(s, j, e) == Named(s, j, 0)
    {
      var hit := MatchesName(s, j, ENTITIES[e].0);
      if hit { return; }
      e := e + 1;
    }
  }

  method ReadNumber(s: seq<char>, start: nat, hex: bool) returns (n: Number)
    requires start <= |s|
    ensures n == Numeric(s, start, hex, 0, 0)
  {
    var value: nat, digits: nat, j := 0, 0, start;
    while j < |s| && digits < 5 && (IsDigit(s[j]) || (hex && HexVal(s[j]) >= 0))
      invariant start <= j <= |s| && Numeric(s, j, hex, value, digits) == Numeric(s, start, hex, 0, 0)
    {
      value, digits, j := value * (if hex then 16 else 10) + HexVal(s[j]), digits + 1, j + 1;
    }
    n := Number(value, digits, j);
  }

  method ReadNumeric(s: seq<char>, i: nat) returns (e: Entity)
    requires i < |s|
    ensures e == NumericEntity(s, i)
  {
    if i + 2 < |s| && s[i + 1] == '#' {
      var hex := s[i + 2] == 'x' || s[i + 2] == 'X';
      var n := ReadNumber(s, if hex then i + 3 else i + 2, hex);
      if n.digits > 0 && n.next < |s| && s[n.next] == ';' && n.value >= 32 && n.value <= 126 {
        return Entity(n.value as char, n.next + 1 - i);
      }
    }
    return Entity('&', 1);
  }

  /** decode_entity. */
  method ReadEntity(s: seq<char>, i: nat, room: bool) returns (e: Entity)
    requires i < |s| && s[i] == '&'
    ensures e == DecodeEntity(s, i, room)
  {
    if room {
      var k := FindNamed(s, i + 1);
      if k < |ENTITIES| { return Entity(ENTITIES[k].1, 1 + |ENTITIES[k].0|); }
    }
    e := ReadNumeric(s, i);
  }

  // ---- one character of the input -----------------------------------------------------

  method OnAnchor(s: seq<char>, i: nat, r: Rendering) returns (u: Rendering)
    requires i <= |s| && -1 <= r.open < |r.links|
    ensures u == Anchor(s, i, r)
  {
    u := r;
    if IsClosing(r.tag) {
      if r.open >= 0 {
        u := u.(links := r.links[r.open := r.links[r.open].(end := |r.text|)], open := -1);
      }
    } else if |r.links| < MAX_LINKS {
      var href := FindHref(s, r.tagStart, i);
      if |href| > 0 {
        var copy := CopyHref(href);
        u := u.(links := r.links + [Link(|r.text|, |r.text|, copy)], open := |r.links|);
      }
    }
  }

  /** The cascade of comparisons over a tag's name. */
  method KindOf(low: seq<char>) returns (kind: Kind)
    ensures kind == Classify(low)
  {
    if low == "script" || low == "style" { return Script; }
    if low == "br" || low == "hr" { return LineBreak; }
    var block := InList(low);
    if block { return LineBreak; }
    if low == "title" { return Title; }
    return if low == "a" then A else Other;
  }

  method OnTagEnd(s: seq<char>, i: nat, r: Rendering) returns (u: Rendering)
    requires i <= |s| && -1 <= r.open < |r.links|
    ensures u == EndTag(s, i, r)
  {
    var low := ReadName(r.tag);
    var kind := KindOf(low);
    u := r;
    if r.inSkip {
      if IsClosing(r.tag) && kind == Script { u := u.(inSkip := false); }
    } else {
      match kind
      case Script => u := u.(inSkip := true);
      case LineBreak => u := Break(r);
      case Title => u := u.(titleOn := !IsClosing(r.tag));
      case A => u := OnAnchor(s, i, r);
      case Other =>
    }
    u := u.(inTag := false, tag := []);
  }

  method OnCharacter(s: seq<char>, i: nat, r: Rendering) returns (u: Rendering, next: nat)
    requires i < |s| && -1 <= r.open < |r.links|
    ensures Step(u, next) == OneStep(s, i, r)
  {
    var c := s[i];
    u, next := r, i + 1;
    if r.inTag {
      if c == '>' { u := OnTagEnd(s, i, r); }
      else if |r.tag| < TAG_MAX { u := u.(tag := r.tag + [c]); }
    } else if r.inSkip {
      if c == '<' { u := u.(inTag := true, tag := [], sawTag := true); }
    } else if c == '<' {
      u := u.(inTag := true, tag := [], tagStart := i, pending := false, sawTag := true);
    } else if c == '&' {
      var e := ReadEntity(s, i, |r.text| < PAGE_MAX - 1);
      u, next := EntityStep(r, e), i + e.used;
    } else if IsBlank(c) {
      u := Blank(r, c);
    } else if ' ' <= c <= '~' {
      u := Printable(r, c);
    }
  }

  // ---- the page -----------------------------------------------------------------------

  class Page {
    var text: seq<char>
    var totalLines: nat
    var title: seq<char>
    var links: seq<Link>

    constructor ()
      ensures text == [] && title == [] && links == [] && totalLines == 0
    {
      text, title, links, totalLines := [], [], [], 0;
    }

    /** html_to_text. */
    method HtmlToText(s: seq<char>)
      modifies this
      ensures text == PageText(s) && links == PageLinks(s)
      ensures title == Run(s, 0, START).title && totalLines == Run(s, 0, START).lines
      ensures NormalForm(text) && Html.Ordered(links)
    {
      PageNormal(s);
      var r, i := START, 0;
      while i < |s| && !r.full
        invariant 0 <= i <= |s| && Ok(r) && Run(s, i, r) == Run(s, 0, START)
        decreases |s| - i
      {
        StepOk(s, i, r);
        r, i := OnCharacter(s, i, r);
      }
      text, title, links, totalLines := r.text, r.title, r.links, r.lines;
      while |text| > 0 && (text[|text| - 1] == '\n' || text[|text| - 1] == ' ')
        invariant Trim(text) == Trim(r.text) && links == r.links && title == r.title && totalLines == r.lines
        decreases |text|
      {
        text := text[..|text| - 1];
      }
      if |text| == 0 { text := EMPTY_PAGE; }
    }
  }
}
