/** The character tests the browser is built on; a C string is a sequence without its NUL. */
module Ascii {
  predicate IsDigit(c: char) { '0' <= c <= '9' }

  function Lower(c: char): char { if 'A' <= c <= 'Z' then c + 32 as char else c }

  /** Does `s` start with `prefix`, letter case aside?  NUL never matches. */
  predicate StartsCi(s: seq<char>, prefix: seq<char>) {
    |prefix| <= |s| && forall k :: 0 <= k < |prefix| ==> Lower(s[k]) == Lower(prefix[k]) && s[k] != '\0'
  }

  /** Value of a hexadecimal digit, -1 for any other character. */
  function HexVal(c: char): int {
    if '0' <= c <= '9' then c as int - '0' as int
    else if 'a' <= c <= 'f' then c as int - 'a' as int + 10
    else if 'A' <= c <= 'F' then c as int - 'A' as int + 10
    else -1
  }
}
