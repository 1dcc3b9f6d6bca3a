/** What the character tests mean, stated with the alphabets written out. */
module AsciiLaws {
  import opened Ascii

  const LOWER := "abcdefghijklmnopqrstuvwxyz"
  const UPPER := "ABCDEFGHIJKLMNOPQRSTUVWXYZ"
  const HEX_LOWER := "0123456789abcdef"
  const HEX_UPPER := "0123456789ABCDEF"

  // ---- letter case --------------------------------------------------------------------

  /** c and d are the two cases of letter i. */
  predicate Pair(c: char, d: char, i: int)
    requires 0 <= i < 26
  { (c == LOWER[i] && d == UPPER[i]) || (c == UPPER[i] && d == LOWER[i]) }

  /** The same character, or the two cases of one letter. */
  predicate Case(c: char, d: char) { c == d || exists i :: 0 <= i < 26 && Pair(c, d, i) }

  lemma Letters(i: nat)
    requires i < 26
    ensures LOWER[i] as int == 97 + i && UPPER[i] as int == 65 + i
  {
  }

  lemma PairMeans(c: char, d: char, i: nat)
    requires i < 26
    ensures Pair(c, d, i) <==> (c as int == 97 + i && d as int == 65 + i) || (c as int == 65 + i && d as int == 97 + i)
  {
    Letters(i);
  }

  lemma PairLower(c: char, d: char, i: nat)
    requires i < 26 && Pair(c, d, i)
    ensures Lower(c) == Lower(d)
  {
    PairMeans(c, d, i);
  }

  lemma LowerPair(c: char, d: char) returns (i: nat)
    requires Lower(c) == Lower(d) && c != d
    ensures i < 26 && Pair(c, d, i)
  {
    i := if 'A' <= c <= 'Z' then c as int - 65 else d as int - 65;
    PairMeans(c, d, i);
  }

  /** Lowering identifies exactly the two cases of a letter. */
  lemma LowerMeans(c: char, d: char)
    ensures Lower(c) == Lower(d) <==> Case(c, d)
  {
    if c != d {
      if Lower(c) == Lower(d) { var i := LowerPair(c, d); }
      if i :| 0 <= i < 26 && Pair(c, d, i) { PairLower(c, d, i); }
    }
  }

  /** s is the text t, letter case aside. */
  predicate Spelled(s: seq<char>, t: seq<char>) { |s| == |t| && forall k :: 0 <= k < |s| ==> Case(s[k], t[k]) }

  /** The prefix test finds exactly the texts that start with the prefix in some letter case. */
  lemma StartsCiMeans(s: seq<char>, prefix: seq<char>)
    requires '\0' !in s || '\0' !in prefix
    ensures StartsCi(s, prefix) <==> |prefix| <= |s| && Spelled(s[..|prefix|], prefix)
  {
    if |prefix| <= |s| {
      forall k | 0 <= k < |prefix| ensures Lower(s[k]) == Lower(prefix[k]) <==> Case(s[k], prefix[k]) {
        LowerMeans(s[k], prefix[k]);
      }
      if Spelled(s[..|prefix|], prefix) {
        forall k | 0 <= k < |prefix| ensures Lower(s[k]) == Lower(prefix[k]) && s[k] != '\0' {
          assert Case(s[..|prefix|][k], prefix[k]);
          if s[k] == '\0' { NoCase(prefix[k]); }
        }
      }
    }
  }

  lemma NoCase(d: char)
    requires Case('\0', d)
    ensures d == '\0'
  {
    LowerMeans('\0', d);
  }

  /** Lowering a word in any letter case gives the word in lower case. */
  lemma LowerWord(s: seq<char>, t: seq<char>)
    requires Spelled(s, t) && forall k :: 0 <= k < |t| ==> !('A' <= t[k] <= 'Z')
    ensures forall k :: 0 <= k < |s| ==> Lower(s[k]) == t[k]
  {
    forall k | 0 <= k < |s| ensures Lower(s[k]) == t[k] { LowerMeans(s[k], t[k]); }
  }

  // ---- hexadecimal digits -------------------------------------------------------------

  lemma HexDigits(d: nat)
    requires d < 16
    ensures HexVal(HEX_LOWER[d]) == d && HexVal(HEX_UPPER[d]) == d
  {
  }

  /** No other character has a value. */
  lemma HexOnly(c: char)
    ensures HexVal(c) >= 0 <==> c in HEX_LOWER || c in HEX_UPPER
    ensures HexVal(c) < 0 ==> HexVal(c) == -1
  {
    if HexVal(c) >= 0 {
      var d := HexVal(c);
      assert HEX_LOWER[d] == c || HEX_UPPER[d] == c;
    } else {
      forall d | 0 <= d < 16 ensures c != HEX_LOWER[d] && c != HEX_UPPER[d] { HexDigits(d); }
    }
  }
}
