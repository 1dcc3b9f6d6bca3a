/** Entities over input text and page: what is escaped comes out as it was. */
module HtmlEntities {
  import opened Ascii
  import opened AsciiLaws
  import opened CString
  import opened Html
  import opened HtmlPages
  import opened HtmlTags

  // ---- the table ----------------------------------------------------------------------

  lemma TableIs()
    ensures ENTITIES == [("amp;", '&'), ("lt;", '<'), ("gt;", '>'), ("quot;", '"'), ("apos;", '\''), ("nbsp;", ' '),
      ("copy;", ' '), ("mdash;", '-'), ("ndash;", '-'), ("hellip;", '.'), ("rsquo;", '\''),
      ("lsquo;", '\''), ("rdquo;", '"'), ("ldquo;", '"')]
  {
  }

  /** The names differ in their first two letters. */
  lemma FirstTwo(e: nat, k: nat)
    requires k < e < 14
    ensures |ENTITIES[e].0| >= 2 && |ENTITIES[k].0| >= 2 && ENTITIES[e].0[..2] != ENTITIES[k].0[..2]
  {
    assert ENTITIES[e].0[..2][0] == ENTITIES[e].0[0] && ENTITIES[e].0[..2][1] == ENTITIES[e].0[1];
    assert ENTITIES[k].0[..2][0] == ENTITIES[k].0[0] && ENTITIES[k].0[..2][1] == ENTITIES[k].0[1];
  }

  lemma PrefixTwo(a: seq<char>, t: seq<char>)
    requires a <= t && |a| >= 2
    ensures a[..2] == t[..2]
  {
  }

  lemma NotBoth(e: nat, k: nat, t: seq<char>)
    requires k < e < 14 && ENTITIES[e].0 <= t
    ensures !(ENTITIES[k].0 <= t)
  {
    FirstTwo(e, k);
    PrefixTwo(ENTITIES[e].0, t);
    if ENTITIES[k].0 <= t { PrefixTwo(ENTITIES[k].0, t); }
  }

  lemma {:induction false} NamedAny(s: seq<char>, j: nat, k: nat, e: nat)
    requires j <= |s| && k <= e < 14 && ENTITIES[e].0 <= s[j..]
    ensures Named(s, j, k) == e
    decreases e - k
  {
    if k < e {
      NotBoth(e, k, s[j..]);
      NamedAny(s, j, k + 1, e);
    }
  }

  /** Every named entity stands for its character while the page has room. */
  lemma EntityMeans(s: seq<char>, i: nat, e: nat)
    requires i < |s| && s[i] == '&' && e < 14 && ENTITIES[e].0 <= s[i + 1..]
    ensures DecodeEntity(s, i, true) == Entity(ENTITIES[e].1, 1 + |ENTITIES[e].0|)
  {
    NamedAny(s, i + 1, 0, e);
  }

  // ---- escaped text -------------------------------------------------------------------

  /** The five characters of HTML written as their entities, all others as they are. */
  function Escape(c: char): (e: seq<char>)
    ensures |e| >= 1
  {
    if c == '&' then "&amp;" else if c == '<' then "&lt;" else if c == '>' then "&gt;"
    else if c == '"' then "&quot;" else if c == '\'' then "&apos;" else [c]
  }

  function Escaped(w: seq<char>): seq<char> { if w == [] then [] else Escape(w[0]) + Escaped(w[1..]) }

  predicate Visible(w: seq<char>) { forall k :: 0 <= k < |w| ==> ' ' < w[k] <= '~' }

  /** Index of the entity of a special character in the browser's table. */
  function Entry(c: char): nat
    requires c in {'&', '<', '>', '"', '\''}
  { if c == '&' then 0 else if c == '<' then 1 else if c == '>' then 2 else if c == '"' then 3 else 4 }

  lemma EntryIs(c: char)
    requires c in {'&', '<', '>', '"', '\''}
    ensures ENTITIES[Entry(c)].1 == c && Escape(c) == ['&'] + ENTITIES[Entry(c)].0
  {
  }

  lemma EscapeStep(s: seq<char>, i: nat, r: Rendering, c: char)
    requires c in {'&', '<', '>', '"', '\''} && i + |Escape(c)| <= |s| && s[i..i + |Escape(c)|] == Escape(c)
    requires Reading(r) && |r.text| < PAGE_MAX - 1
    ensures OneStep(s, i, r) == Step(Written(r, [c]), i + |Escape(c)|)
  {
    var e, n := Entry(c), |Escape(c)|;
    EntryIs(c);
    assert s[i] == s[i..i + n][0] == '&';
    assert s[i + 1..][..n - 1] == s[i..i + n][1..] == ENTITIES[e].0;
    EntityMeans(s, i, e);
  }

  /** s[a..b] is how c is written. */
  predicate Piece(s: seq<char>, a: nat, b: nat, c: char) { a <= b <= |s| && s[a..b] == Escape(c) }

  lemma EscapeRun(s: seq<char>, a: nat, b: nat, r: Rendering, c: char)
    requires ' ' < c <= '~' && Piece(s, a, b, c) && Reading(r) && |r.text| < PAGE_MAX - 2
    ensures Leads(s, a, r, b, Written(r, [c])) && Reading(Written(r, [c]))
  {
    if c in {'&', '<', '>', '"', '\''} {
      EscapeStep(s, a, r, c);
    } else {
      assert s[a] == s[a..b][0] == c;
      CharStep(s, a, r);
    }
    RunStep(s, a, r, Written(r, [c]), b);
  }

  /** Where each character of w is written in s. */
  predicate SpelledOut(s: seq<char>, ends: seq<nat>, w: seq<char>) {
    |ends| == |w| + 1 && ends[|w|] <= |s| && forall k :: 0 <= k < |w| ==> PieceAt(s, ends, w, k)
  }

  predicate PieceAt(s: seq<char>, ends: seq<nat>, w: seq<char>, k: nat)
    requires |ends| == |w| + 1 && k < |w|
  { Piece(s, ends[k], ends[k + 1], w[k]) }

  lemma {:induction false} EscapedRun(s: seq<char>, ends: seq<nat>, w: seq<char>, r: Rendering, k: nat)
    requires Visible(w) && SpelledOut(s, ends, w) && Reading(r) && |r.text| + |w| <= PAGE_MAX - 2 && k <= |w|
    requires ends[0] <= |s|
    ensures ends[k] <= |s| && Leads(s, ends[0], r, ends[k], Written(r, w[..k])) && Reading(Written(r, w[..k]))
    decreases k
  {
    if k == 0 {
      Here(s, ends[0], r);
    } else {
      EscapedRun(s, ends, w, r, k - 1);
      var u, c := Written(r, w[..k - 1]), w[k - 1];
      assert PieceAt(s, ends, w, k - 1);
      EscapeRun(s, ends[k - 1], ends[k], u, c);
      assert w[..k] == w[..k - 1] + [c];
      WrittenMore(r, w[..k - 1], c);
      Then(s, ends[0], r, ends[k - 1], u, ends[k], Written(r, w[..k]));
    }
  }

  /** The positions in an escaped text. */
  lemma {:induction false} EscapedEnds(s: seq<char>, i: nat, w: seq<char>) returns (ends: seq<nat>)
    requires i <= |s| && s[i..] == Escaped(w)
    ensures SpelledOut(s, ends, w) && ends[0] == i && ends[|w|] == |s|
    decreases |w|
  {
    if w == [] {
      ends := [i];
    } else {
      var n := |Escape(w[0])|;
      assert s[i..i + n] == s[i..][..n] && s[i + n..] == s[i..][n..];
      var rest := EscapedEnds(s, i + n, w[1..]);
      ends := [i] + rest;
      forall k | 0 <= k < |w| ensures PieceAt(s, ends, w, k) {
        if k > 0 { assert PieceAt(s, rest, w[1..], k - 1); }
      }
    }
  }

  lemma LastVisible(w: seq<char>)
    requires w != [] && Visible(w)
    ensures Trim(w) == w
  {
    assert ' ' < w[|w| - 1];
  }

  lemma VisiblePage(s: seq<char>, w: seq<char>)
    requires w != [] && Visible(w) && Leads(s, 0, START, |s|, Written(START, w))
    ensures PageText(s) == w
  {
    LastVisible(w);
    assert Written(START, w).text == [] + w == w;
    PageIs(s, Written(START, w));
  }

  lemma EscapedLeads(w: seq<char>, s: seq<char>, r: Rendering, ends: seq<nat>)
    requires SpelledOut(s, ends, w) && ends[0] == 0 && ends[|w|] == |s|
    requires Visible(w) && Reading(r) && |r.text| + |w| <= PAGE_MAX - 2
    ensures Leads(s, 0, r, |s|, Written(r, w))
  {
    EscapedRun(s, ends, w, r, |w|);
    assert w[..|w|] == w;
  }

  lemma EscapedPageAt(w: seq<char>, s: seq<char>, ends: seq<nat>)
    requires SpelledOut(s, ends, w) && ends[0] == 0 && ends[|w|] == |s|
    requires w != [] && Visible(w) && |w| <= PAGE_MAX - 2
    ensures PageText(s) == w
  {
    StartReads();
    EscapedLeads(w, s, START, ends);
    VisiblePage(s, w);
  }

  lemma WholeEnds(w: seq<char>, s: seq<char>) returns (ends: seq<nat>)
    requires s == Escaped(w)
    ensures SpelledOut(s, ends, w) && ends[0] == 0 && ends[|w|] == |s|
  {
    assert s[0..] == s;
    ends := EscapedEnds(s, 0, w);
  }

  /** An escaped text without blanks renders as the text, markup characters and all. */
  lemma EscapedPage(w: seq<char>, s: seq<char>)
    requires s == Escaped(w) && w != [] && Visible(w) && |w| <= PAGE_MAX - 2
    ensures PageText(s) == w
  {
    var ends := WholeEnds(w, s);
    EscapedPageAt(w, s, ends);
  }

  // ---- numbers ------------------------------------------------------------------------

  lemma {:induction false} NoName(s: seq<char>, j: nat, e: nat)
    requires j < |s| && s[j] == '#' && e <= |ENTITIES|
    ensures Named(s, j, e) == |ENTITIES|
    decreases |ENTITIES| - e
  {
    if e < |ENTITIES| {
      assert s[j..][0] == '#' && ENTITIES[e].0[0] != '#';
      NoName(s, j, e + 1);
    }
  }

  lemma DigitValue(c: char)
    requires IsDigit(c)
    ensures HexVal(c) == ValueOf(c)
  {
  }

  /** Decimal digits from j to e are read as their value. */
  lemma {:induction false} DecimalEntity(s: seq<char>, j: nat, i: nat, e: nat)
    requires j <= i <= e < |s| && e - j <= 5 && AllDigits(s[j..i]) && AllDigits(s[j..e]) && !IsDigit(s[e])
    ensures Numeric(s, i, false, Value(s[j..i]), i - j) == Number(Value(s[j..e]), e - j, e)
    decreases e - i
  {
    if i < e {
      assert s[j..e][i - j] == s[i];
      DigitValue(s[i]);
      ValueSnoc(s, j, i);
      DecimalEntity(s, j, i + 1, e);
    }
  }

  /** `&#n;` is the character of code n, for the printable ones. */
  lemma DecimalReference(s: seq<char>, i: nat, n: nat, room: bool)
    requires 32 <= n <= 126 && i + 3 + |Printed(n)| <= |s| && s[i] == '&' && s[i + 1] == '#'
    requires s[i + 2..i + 2 + |Printed(n)|] == Printed(n) && s[i + 2 + |Printed(n)|] == ';'
    ensures DecodeEntity(s, i, room) == Entity(n as char, 3 + |Printed(n)|)
  {
    var j, e := i + 2, i + 2 + |Printed(n)|;
    NoName(s, i + 1, 0);
    PrintedValue(n);
    assert Pow10(3) == 1000;
    NumeralShort(n, 3);
    assert s[j] == Printed(n)[0] && IsDigit(s[j]);
    assert s[j..j] == [];
    DecimalEntity(s, j, j, e);
  }

  /** `&#xh;` likewise, with digits of either case. */
  lemma HexReference(s: seq<char>, i: nat, n: nat, room: bool)
    requires 32 <= n <= 126 && i + 6 <= |s| && s[i] == '&' && s[i + 1] == '#' && (s[i + 2] == 'x' || s[i + 2] == 'X')
    requires s[i + 3] == HEX_LOWER[n / 16] || s[i + 3] == HEX_UPPER[n / 16]
    requires (s[i + 4] == HEX_LOWER[n % 16] || s[i + 4] == HEX_UPPER[n % 16]) && s[i + 5] == ';'
    ensures DecodeEntity(s, i, room) == Entity(n as char, 6)
  {
    NoName(s, i + 1, 0);
    HexDigits(n / 16);
    HexDigits(n % 16);
    assert Numeric(s, i + 5, true, n, 2) == Number(n, 2, i + 5);
    assert Numeric(s, i + 4, true, n / 16, 1) == Numeric(s, i + 5, true, n, 2);
    assert Numeric(s, i + 3, true, 0, 0) == Numeric(s, i + 4, true, n / 16, 1);
  }
}
