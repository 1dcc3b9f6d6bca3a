/** Rendering plain text, that is input without '<' or '&', is idempotent. */
module HtmlPlain {
  import opened Ascii
  import opened Html

  predicate Plain(s: seq<char>) { forall k :: 0 <= k < |s| ==> s[k] != '<' && s[k] != '&' }

  predicate White(c: char) { c == ' ' || c == '\n' }

  predicate Word(c: char) { ' ' < c <= '~' && c != '<' && c != '&' }

  /** Words separated by single blanks; a text of full length ends in a one-letter word,
      because the last slot is only ever filled together with the blank before it. */
  predicate Spaced(t: seq<char>) {
    (forall k :: 0 <= k < |t| ==> White(t[k]) || Word(t[k]))
    && (forall k :: 0 <= k < |t| && White(t[k]) ==> k > 0 && Word(t[k - 1]))
    && |t| <= PAGE_MAX - 1
    && (|t| == PAGE_MAX - 1 && t[PAGE_MAX - 2] != '\n' ==> t[PAGE_MAX - 3] == ' ')
  }

  predicate Tidy(t: seq<char>) { Spaced(t) && t != [] && Word(t[|t| - 1]) }

  /** The state while plain text is rendered. */
  predicate PlainState(r: Rendering) {
    !r.inTag && !r.inSkip && !r.sawTag && !r.titleOn && Spaced(r.text)
    && (r.lastNl <==> r.text == [] || r.text[|r.text| - 1] == '\n')
    && (r.text != [] ==> r.text[|r.text| - 1] != ' ') && (r.pending ==> !r.lastNl)
  }

  lemma SpacedAppend(t: seq<char>, c: char)
    requires Spaced(t) && |t| < PAGE_MAX - 1 && (Word(c) || (White(c) && t != [] && Word(t[|t| - 1])))
    requires |t| == PAGE_MAX - 2 && c != '\n' ==> t[PAGE_MAX - 3] == ' '
    ensures Spaced(t + [c])
  {
    var u := t + [c];
    forall k | 0 <= k < |u| && White(u[k]) ensures k > 0 && Word(u[k - 1]) {
      if k < |t| { assert White(t[k]); }
    }
  }

  lemma LastIsWord(r: Rendering)
    requires PlainState(r) && !r.lastNl
    ensures r.text != [] && Word(r.text[|r.text| - 1])
  {
    assert White(r.text[|r.text| - 1]) || Word(r.text[|r.text| - 1]);
  }

  lemma PlainBlank(r: Rendering, c: char)
    requires PlainState(r) && IsBlank(c)
    ensures PlainState(Blank(r, c))
  {
    if !r.lastNl {
      LastIsWord(r);
      if |r.text| < PAGE_MAX - 1 { SpacedAppend(r.text, '\n'); }
    }
  }

  lemma PlainPrintable(r: Rendering, c: char)
    requires PlainState(r) && Word(c)
    ensures PlainState(Printable(r, c))
  {
    if |r.text| < PAGE_MAX - 2 {
      if !r.lastNl && r.pending {
        LastIsWord(r);
        SpacedAppend(r.text, ' ');
        SpacedAppend(r.text + [' '], c);
      } else {
        SpacedAppend(r.text, c);
      }
    }
  }

  lemma {:induction false} RunPlain(s: seq<char>, i: nat, r: Rendering)
    requires Plain(s) && i <= |s| && Ok(r) && PlainState(r)
    ensures PlainState(Run(s, i, r))
    decreases |s| - i
  {
    if i < |s| && !r.full {
      StepOk(s, i, r);
      var c := s[i];
      if IsBlank(c) { PlainBlank(r, c); } else if ' ' <= c <= '~' { PlainPrintable(r, c); }
      RunPlain(s, i + 1, OneStep(s, i, r).r);
    }
  }

  lemma TidyEmpty()
    ensures Tidy(EMPTY_PAGE)
  {
    var t := EMPTY_PAGE;
    forall k | 0 <= k < |t|
      ensures White(t[k]) || Word(t[k])
      ensures White(t[k]) ==> k == 6
    {
    }
    assert Word(t[5]);
  }

  lemma PlainIsTidy(s: seq<char>)
    requires Plain(s)
    ensures Tidy(PageText(s))
  {
    RunPlain(s, 0, START);
    var r := Run(s, 0, START);
    var t := r.text;
    TidyEmpty();
    if t != [] {
      if t[|t| - 1] == '\n' {
        assert Word(t[|t| - 2]);
        assert Trim(t) == t[..|t| - 1];
      } else {
        assert Word(t[|t| - 1]);
      }
    }
  }

  /** Rendering tidy text at index i: either everything before i is on the page, or the
      blank just before i is still pending. */
  predicate Retraced(t: seq<char>, i: nat, r: Rendering)
    requires i <= |t|
  {
    PlainState(r) && !r.full
    && if i > 0 && t[i - 1] == ' ' then r.text == t[..i - 1] && r.pending else r.text == t[..i] && !r.pending
  }

  lemma RetraceStep(t: seq<char>, i: nat, r: Rendering)
    requires Tidy(t) && i < |t| && Retraced(t, i, r)
    ensures Retraced(t, i + 1, TextStep(r, t[i]))
  {
    var c := t[i];
    if White(c) {
      PlainBlank(r, c);
      assert i > 0 && Word(t[i - 1]);
      assert !r.lastNl;
    } else {
      assert Word(c);
      PlainPrintable(r, c);
      assert t[..i + 1] == t[..i] + [c];
      if i > 0 && t[i - 1] == ' ' { assert t[..i] == t[..i - 1] + [' ']; }
    }
  }

  lemma PlainStep(t: seq<char>, i: nat, r: Rendering)
    requires Spaced(t) && i < |t| && Ok(r) && PlainState(r)
    ensures OneStep(t, i, r) == Step(TextStep(r, t[i]), i + 1)
  {
    assert White(t[i]) || Word(t[i]);
  }

  lemma {:induction false} Retrace(t: seq<char>, i: nat, r: Rendering)
    requires Tidy(t) && i <= |t| && Ok(r) && Retraced(t, i, r)
    ensures Run(t, i, r).text == t
    decreases |t| - i
  {
    if i < |t| {
      StepOk(t, i, r);
      RetraceStep(t, i, r);
      PlainStep(t, i, r);
      Retrace(t, i + 1, TextStep(r, t[i]));
    }
  }

  /** Text that is tidy already renders to itself, to the letter. */
  lemma TidyStays(t: seq<char>)
    requires Tidy(t)
    ensures PageText(t) == t
  {
    StartPlain();
    Retrace(t, 0, START);
    TrimTidy(t);
  }

  lemma StartPlain()
    ensures Ok(START) && PlainState(START)
  {
  }

  lemma TrimTidy(t: seq<char>)
    requires Tidy(t)
    ensures Trim(t) == t
  {
  }

  /** Rendered plain text renders to itself. */
  lemma Idempotent(s: seq<char>)
    requires Plain(s)
    ensures PageText(PageText(s)) == PageText(s)
  {
    PlainIsTidy(s);
    TidyStays(PageText(s));
  }

  // ---- nothing is lost ----------------------------------------------------------------

  /** The characters of a text that make up its words, in order. */
  function Letters(t: seq<char>): seq<char> {
    if t == [] then [] else Letters(t[..|t| - 1]) + if Word(t[|t| - 1]) then [t[|t| - 1]] else []
  }

  lemma LettersSnoc(t: seq<char>, c: char)
    ensures Letters(t + [c]) == Letters(t) + if Word(c) then [c] else []
  {
    assert (t + [c])[..|t|] == t;
  }

  /** Characters written to the page or about to be. */
  function Weight(r: Rendering): nat { |r.text| + if r.pending then 1 else 0 }

  lemma BlankLetters(r: Rendering, c: char)
    requires IsBlank(c)
    ensures Letters(Blank(r, c).text) == Letters(r.text) && Weight(Blank(r, c)) <= Weight(r) + 1
    ensures Blank(r, c).full == r.full
  {
    var title := if r.titleOn && c == ' ' then TitleBlank(r.title) else r.title;
    BreakLetters(r.(title := title));
  }

  lemma BreakLetters(r: Rendering)
    ensures Letters(Break(r).text) == Letters(r.text) && Weight(Break(r)) <= Weight(r) + 1 && Break(r).full == r.full
  {
    if !r.lastNl && |r.text| < PAGE_MAX - 1 { LettersSnoc(r.text, '\n'); }
  }

  lemma WordLetters(r: Rendering, c: char)
    requires Word(c) && Weight(r) < PAGE_MAX - 2
    ensures Letters(Printable(r, c).text) == Letters(r.text) + [c] && Weight(Printable(r, c)) <= Weight(r) + 1
    ensures Printable(r, c).full == r.full
  {
    LettersSnoc(r.text, ' ');
    LettersSnoc(r.text + [' '], c);
    LettersSnoc(r.text, c);
  }

  /** One character of plain text: a letter is written, anything else writes no letter. */
  lemma LetterStep(s: seq<char>, i: nat, r: Rendering)
    requires Plain(s) && i < |s| && Ok(r) && PlainState(r) && Weight(r) < PAGE_MAX - 2 && !r.full
    ensures OneStep(s, i, r) == Step(TextStep(r, s[i]), i + 1)
    ensures var u := TextStep(r, s[i]);
      !u.full && PlainState(u) && Weight(u) <= Weight(r) + 1
      && Letters(u.text) == Letters(r.text) + if Word(s[i]) then [s[i]] else []
  {
    var c := s[i];
    if IsBlank(c) {
      PlainBlank(r, c);
      BlankLetters(r, c);
    } else if ' ' <= c <= '~' {
      PlainPrintable(r, c);
      WordLetters(r, c);
    }
  }

  lemma {:induction false} RunLetters(s: seq<char>, i: nat, r: Rendering)
    requires Plain(s) && i <= |s| && |s| <= PAGE_MAX - 3 && Ok(r) && PlainState(r) && !r.full && Weight(r) <= i
    requires Letters(r.text) == Letters(s[..i])
    ensures Letters(Run(s, i, r).text) == Letters(s)
    decreases |s| - i
  {
    if i == |s| {
      assert s[..i] == s;
    } else {
      LetterStep(s, i, r);
      StepOk(s, i, r);
      assert s[..i + 1] == s[..i] + [s[i]];
      LettersSnoc(s[..i], s[i]);
      RunLetters(s, i + 1, TextStep(r, s[i]));
    }
  }

  lemma {:induction false} TrimLetters(t: seq<char>)
    ensures Letters(Trim(t)) == Letters(t)
    decreases |t|
  {
    if t != [] && (t[|t| - 1] == '\n' || t[|t| - 1] == ' ') { TrimLetters(t[..|t| - 1]); }
  }

  /** Plain text that fits loses no letter and gains none. */
  lemma LettersKept(s: seq<char>)
    requires Plain(s) && |s| <= PAGE_MAX - 3 && Letters(s) != []
    ensures Letters(PageText(s)) == Letters(s)
  {
    StartPlain();
    assert s[..0] == [];
    RunLetters(s, 0, START);
    TrimLetters(Run(s, 0, START).text);
  }
}
