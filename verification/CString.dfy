/** NUL-terminated text in fixed buffers, and decimal numbers: what the applications' string
    helpers do, stated on sequences of characters that do not contain NUL. */
module CString {
  import opened Ascii

  function Min(a: int, b: int): int { if a < b then a else b }

  /** The buffer holds the text s: its characters, a NUL, and whatever comes after. */
  ghost predicate Holds(a: array<char>, s: seq<char>)
    reads a
  {
    |s| < a.Length && a[..|s|] == s && a[|s|] == '\0' && '\0' !in s
  }

  method StrLen(a: array<char>, ghost s: seq<char>) returns (n: nat)
    requires Holds(a, s)
    ensures n == |s|
  {
    n := 0;
    while a[n] != '\0'
      invariant 0 <= n <= |s|
      decreases |s| - n
    {
      assert n < |s|;
      n := n + 1;
    }
  }

  /** cat_cap: append while there is room for the NUL below `cap`; the buffer always ends up
      holding text, the whole of it exactly when it fits. */
  method CatCap(a: array<char>, s: seq<char>, cap: nat, ghost was: seq<char>) returns (ok: bool)
    requires Holds(a, was) && |was| < cap <= a.Length && '\0' !in s
    modifies a
    ensures ok <==> |was| + |s| < cap
    ensures Holds(a, (was + s)[..Min(|was| + |s|, cap - 1)])
  {
    var n := StrLen(a, was);
    var i := 0;
    ok := true;
    while i < |s|
      invariant 0 <= i <= |s| && n == |was| + i < cap
      invariant a[..n] == (was + s)[..n]
    {
      if n + 1 >= cap {
        a[n] := '\0';
        return false;
      }
      a[n] := s[i];
      assert a[..n + 1] == (was + s)[..n] + [s[i]] == (was + s)[..n + 1];
      n, i := n + 1, i + 1;
    }
    a[n] := '\0';
  }

  // ---- decimal numbers ----------------------------------------------------------------

  function DigitOf(d: nat): (c: char)
    requires d < 10
    ensures IsDigit(c) && ValueOf(c) == d
  { '0' + d as char }

  function ValueOf(c: char): nat
    requires IsDigit(c)
  { c as int - '0' as int }

  predicate AllDigits(s: seq<char>) { forall k :: 0 <= k < |s| ==> IsDigit(s[k]) }

  /** The number a string of digits stands for. */
  function Value(s: seq<char>): nat
    requires AllDigits(s)
  { if s == [] then 0 else Value(s[..|s| - 1]) * 10 + ValueOf(s[|s| - 1]) }

  /** The digits of v, most significant first; none for zero. */
  function Numeral(v: nat): seq<char> { if v == 0 then [] else Numeral(v / 10) + [DigitOf(v % 10)] }

  function Printed(v: nat): seq<char> { if v == 0 then "0" else Numeral(v) }

  lemma {:induction false} NumeralValue(v: nat)
    ensures AllDigits(Numeral(v)) && Value(Numeral(v)) == v
  {
    if v > 0 {
      NumeralValue(v / 10);
      assert Numeral(v)[..|Numeral(v)| - 1] == Numeral(v / 10);
    }
  }

  /** Printing then reading gives the number back. */
  lemma PrintedValue(v: nat)
    ensures Printed(v) != [] && AllDigits(Printed(v)) && Value(Printed(v)) == v
  {
    NumeralValue(v);
    assert v == 0 ==> Value("0") == Value("0"[..0]) * 10 + 0;
  }

  lemma ValueSnoc(p: seq<char>, i: nat, k: nat)
    requires i <= k < |p| && AllDigits(p[i..k]) && IsDigit(p[k])
    ensures AllDigits(p[i..k + 1]) && Value(p[i..k + 1]) == Value(p[i..k]) * 10 + ValueOf(p[k])
  {
    assert p[i..k + 1] == p[i..k] + [p[k]];
    assert p[i..k + 1][..k - i] == p[i..k];
  }

  /** The laws above fix the numerals up to the base; these fix the base. */
  lemma DecimalAnchors()
    ensures Printed(10) == "10" && Value("10") == 10 && Printed(9) == "9" && Value("9") == 9
  {
    assert Numeral(1) == "1" && Numeral(10) == Numeral(1) + ['0'];
    PrintedValue(10);
    PrintedValue(9);
  }

  function Pow10(n: nat): nat { if n == 0 then 1 else 10 * Pow10(n - 1) }

  lemma {:induction false} NumeralShort(v: nat, n: nat)
    requires v < Pow10(n)
    ensures |Numeral(v)| <= n
  {
    if v > 0 {
      NumeralShort(v / 10, n - 1);
    }
  }

  /** Reading on never makes the number smaller, so an early "too big" is final. */
  lemma {:induction false} PrefixValue(s: seq<char>, i: nat)
    requires i <= |s| && AllDigits(s)
    ensures Value(s[..i]) <= Value(s)
  {
    if i < |s| {
      PrefixValue(s[..|s| - 1], i);
      assert s[..|s| - 1][..i] == s[..i];
    } else {
      assert s[..i] == s;
    }
  }

  function Reverse(s: seq<char>): seq<char> { if s == [] then [] else [s[|s| - 1]] + Reverse(s[..|s| - 1]) }

  lemma ReverseSnoc(s: seq<char>, c: char)
    ensures Reverse(s + [c]) == [c] + Reverse(s)
  {
    assert (s + [c])[..|s|] == s;
  }

  lemma Regroup(a: seq<char>, c: char, b: seq<char>)
    ensures (a + [c]) + b == a + ([c] + b)
  {
  }

  /** Copy the scratch buffer out from its end. */
  method TurnRound(tmp: seq<char>) returns (s: seq<char>)
    ensures s == Reverse(tmp)
  {
    var n := |tmp|;
    s := [];
    assert tmp[..n] == tmp;
    while n > 0
      invariant 0 <= n <= |tmp| && Reverse(tmp) == s + Reverse(tmp[..n])
    {
      n := n - 1;
      assert tmp[..n + 1] == tmp[..n] + [tmp[n]];
      ReverseSnoc(tmp[..n], tmp[n]);
      Regroup(s, tmp[n], Reverse(tmp[..n]));
      s := s + [tmp[n]];
    }
  }

  /** One digit moves from the number to the scratch buffer. */
  lemma NumeralStep(w: nat, tmp: seq<char>)
    requires w > 0
    ensures Numeral(w) + Reverse(tmp) == Numeral(w / 10) + Reverse(tmp + [DigitOf(w % 10)])
  {
    ReverseSnoc(tmp, DigitOf(w % 10));
    Regroup(Numeral(w / 10), DigitOf(w % 10), Reverse(tmp));
  }

  /** The digits of a number, last one first. */
  method Backwards(v: nat) returns (tmp: seq<char>)
    ensures Reverse(tmp) == Numeral(v)
  {
    tmp := [];
    var w := v;
    ghost var all := Numeral(v);
    assert all == all + Reverse([]);
    while w > 0
      invariant all == Numeral(w) + Reverse(tmp)
    {
      NumeralStep(w, tmp);
      tmp := tmp + [DigitOf(w % 10)];
      w := w / 10;
    }
    assert Numeral(0) + Reverse(tmp) == Reverse(tmp);
  }

  /** my_itoa: digits are produced backwards into a scratch buffer, then turned round. */
  method Itoa(v: int) returns (s: seq<char>)
    ensures s == if v < 0 then "-" + Printed(-v) else Printed(v)
  {
    var w: nat := if v < 0 then -v else v;
    var tmp := ['0'];
    if w > 0 { tmp := Backwards(w); } else { assert Reverse(['0']) == "0"; }
    s := TurnRound(tmp);
    if v < 0 { s := "-" + s; }
  }
}
