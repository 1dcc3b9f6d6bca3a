/**
  The kernel command line: looking a key up with a hand-written scanner, against a
  specification that first cuts the line into words, and the boot_app directive.
*/
module BootCmd {
  import opened Options

  const KCMD_MAX := 256
  const PATH_SIZE := 128
  const ARG_SIZE := 256
  const BOOT_APP := "boot_app"

  // ---- the specification --------------------------------------------------------------

  /** End of the word at p: the next space or the end of the line. */
  function WordEnd(s: seq<char>, p: nat): (e: nat)
    requires p <= |s|
    ensures p <= e <= |s| && ' ' !in s[p..e] && (e < |s| ==> s[e] == ' ')
    decreases |s| - p
  { if p == |s| || s[p] == ' ' then p else WordEnd(s, p + 1) }

  /** The words of a line from p on. */
  function Words(s: seq<char>, p: nat): seq<seq<char>>
    requires p <= |s|
    decreases |s| - p
  {
    if p == |s| then [] else if s[p] == ' ' then Words(s, p + 1)
    else [s[p..WordEnd(s, p)]] + Words(s, WordEnd(s, p))
  }

  predicate Assigns(word: seq<char>, key: seq<char>) { key + "=" <= word }

  /** What the first word of the form key=value assigns. */
  function Lookup(words: seq<seq<char>>, key: seq<char>): Option<seq<char>> {
    if words == [] then None
    else if Assigns(words[0], key) then Some(words[0][|key| + 1..])
    else Lookup(words[1..], key)
  }

  function ValueOf(line: seq<char>, key: seq<char>): Option<seq<char>> { Lookup(Words(line, 0), key) }

  // ---- laws of the specification ------------------------------------------------------

  lemma {:induction false} WordEndAt(s: seq<char>, p: nat, e: nat)
    requires p <= e <= |s| && ' ' !in s[p..e] && (e < |s| ==> s[e] == ' ')
    ensures WordEnd(s, p) == e
    decreases |s| - p
  {
    if p < e {
      assert s[p] in s[p..e] && s[p + 1..e] == s[p..e][1..];
      WordEndAt(s, p + 1, e);
    }
  }

  /** A suffix has the words of the line from there on. */
  lemma {:induction false} WordsOfSuffix(a: seq<char>, b: seq<char>, p: nat)
    requires p <= |b|
    ensures Words(a + b, |a| + p) == Words(b, p)
    decreases |b| - p
  {
    if p < |b| {
      if b[p] == ' ' {
        WordsOfSuffix(a, b, p + 1);
      } else {
        WordsOfSuffix(a, b, WordEnd(b, p));
        SuffixWord(a, b, p, a + b);
      }
    }
  }

  lemma SuffixWord(a: seq<char>, b: seq<char>, p: nat, s: seq<char>)
    requires p < |b| && b[p] != ' ' && s == a + b
    ensures var e := WordEnd(b, p); Words(s, |a| + p) == [b[p..e]] + Words(s, |a| + e)
  {
    var e := WordEnd(b, p);
    assert s[|a| + p..|a| + e] == b[p..e];
    assert e < |b| ==> s[|a| + e] == b[e];
    WordEndAt(s, |a| + p, |a| + e);
  }

  /** A line cut at a space has the words of both parts. */
  lemma {:induction false} WordsSplit(a: seq<char>, b: seq<char>, p: nat)
    requires p <= |a|
    ensures Words(a + " " + b, p) == Words(a, p) + Words(b, 0)
    decreases |a| - p
  {
    var s := a + " " + b;
    if p == |a| {
      assert s[p] == ' ';
      WordsOfSuffix(a + " ", b, 0);
    } else if a[p] == ' ' {
      WordsSplit(a, b, p + 1);
    } else {
      var e := WordEnd(a, p);
      assert s[p..e] == a[p..e] && s[e] == ' ';
      WordEndAt(s, p, e);
      WordsSplit(a, b, e);
    }
  }

  lemma OneWord(w: seq<char>)
    requires w != [] && ' ' !in w
    ensures Words(w, 0) == [w]
  {
    assert w[0..|w|] == w && w[0] in w;
    WordEndAt(w, 0, |w|);
  }

  lemma {:induction false} LookupPast(a: seq<seq<char>>, b: seq<seq<char>>, key: seq<char>)
    requires Lookup(a, key) == None
    ensures Lookup(a + b, key) == Lookup(b, key)
  {
    if a == [] {
      assert a + b == b;
    } else {
      assert (a + b)[1..] == a[1..] + b;
      LookupPast(a[1..], b, key);
    }
  }

  /** Word i assigns the value, and no word before it assigns the key. */
  predicate FirstAt(words: seq<seq<char>>, key: seq<char>, value: seq<char>, i: nat)
    requires i < |words|
  { words[i] == key + "=" + value && forall w :: w in words[..i] ==> !Assigns(w, key) }

  /** The key is absent exactly when no word assigns it, and otherwise the value is that of the
      first word that does. */
  lemma {:induction false} LookupFirst(words: seq<seq<char>>, key: seq<char>)
    ensures Lookup(words, key) == None <==> forall w :: w in words ==> !Assigns(w, key)
    ensures Lookup(words, key).Some? ==>
      exists i :: 0 <= i < |words| && FirstAt(words, key, Lookup(words, key).value, i)
  {
    if words != [] {
      LookupFirst(words[1..], key);
      assert forall w :: w in words <==> w == words[0] || w in words[1..];
      if Assigns(words[0], key) {
        assert words[0] == key + "=" + words[0][|key| + 1..];
        assert FirstAt(words, key, words[0][|key| + 1..], 0);
      } else if Lookup(words, key).Some? {
        var v := Lookup(words, key).value;
        var i :| 0 <= i < |words[1..]| && FirstAt(words[1..], key, v, i);
        assert words[..i + 1] == [words[0]] + words[1..][..i];
        assert FirstAt(words, key, v, i + 1);
      }
    }
  }

  // ---- the scanner --------------------------------------------------------------------

  /** The comparison loop: does the word at p start with the key and an equals sign? */
  method MatchesAt(line: seq<char>, p: nat, key: seq<char>) returns (hit: bool)
    requires p < |line| && line[p] != ' '
    ensures hit <==> Assigns(line[p..WordEnd(line, p)], key)
  {
    ghost var e := WordEnd(line, p);
    var i := 0;
    while p + i < |line| && line[p + i] != ' ' && i < |key| && line[p + i] == key[i]
      invariant 0 <= i <= |key| && p + i <= e && line[p..p + i] == key[..i] && WordEnd(line, p + i) == e
    {
      assert line[p..p + i + 1] == line[p..p + i] + [line[p + i]];
      i := i + 1;
    }
    hit := i == |key| && p + i < |line| && line[p + i] == '=';
    AssignsAt(line, p, e, key, i);
  }

  /** What the position where the comparison stopped says. */
  lemma AssignsAt(line: seq<char>, p: nat, e: nat, key: seq<char>, i: nat)
    requires p <= e <= |line| && p + i <= e && i <= |key| && line[p..p + i] == key[..i]
    requires e == WordEnd(line, p + i)
    requires !(p + i < |line| && line[p + i] != ' ' && i < |key| && line[p + i] == key[i])
    ensures Assigns(line[p..e], key) <==> i == |key| && p + i < |line| && line[p + i] == '='
  {
    var w := line[p..e];
    AssignsMeans(w, key);
    assert w[..i] == line[p..p + i];
    if i < |key| {
      assert i < |w| ==> w[i] == line[p + i] && line[p + i] in line[p + i..e];
      assert |w| > |key| ==> w[..|key|][i] == w[i];
    } else {
      assert key[..i] == key;
    }
  }

  lemma AssignsMeans(w: seq<char>, key: seq<char>)
    ensures Assigns(w, key) <==> |w| > |key| && w[..|key|] == key && w[|key|] == '='
  {
    if |w| > |key| && w[..|key|] == key && w[|key|] == '=' {
      assert key + "=" == w[..|key| + 1];
    }
    if Assigns(w, key) {
      assert w[..|key| + 1] == key + "=";
      assert w[..|key|] == w[..|key| + 1][..|key|];
    }
  }

  /** kcmd_value.  The value is copied into a buffer as large as the line's own. */
  method KcmdValue(line: seq<char>, key: seq<char>) returns (r: Option<seq<char>>)
    requires |line| < KCMD_MAX
    ensures r == ValueOf(line, key)
  {
    var p := 0;
    while p < |line|
      invariant 0 <= p <= |line| && Lookup(Words(line, p), key) == ValueOf(line, key)
    {
      p := SkipSpaces(line, p);
      if p == |line| { break; }
      var hit := MatchesAt(line, p, key);
      var e := SkipWord(line, p);
      if hit {
        var v := p + |key| + 1;
        var val := Copy(line, v, e);
        assert line[p..e][|key| + 1..] == line[v..e];
        return Some(val);
      }
      assert Words(line, p) == [line[p..e]] + Words(line, e);
      p := e;
    }
    r := None;
  }

  method SkipSpaces(line: seq<char>, p: nat) returns (q: nat)
    requires p <= |line|
    ensures p <= q <= |line| && Words(line, q) == Words(line, p) && (q < |line| ==> line[q] != ' ')
  {
    q := p;
    while q < |line| && line[q] == ' '
      invariant p <= q <= |line| && Words(line, q) == Words(line, p)
    {
      q := q + 1;
    }
  }

  method SkipWord(line: seq<char>, p: nat) returns (e: nat)
    requires p <= |line|
    ensures e == WordEnd(line, p)
  {
    e := p;
    while e < |line| && line[e] != ' '
      invariant p <= e <= |line| && WordEnd(line, e) == WordEnd(line, p)
    {
      e := e + 1;
    }
  }

  method Copy(line: seq<char>, v: nat, e: nat) returns (val: seq<char>)
    requires v <= e <= |line| < KCMD_MAX
    ensures val == line[v..e]
  {
    val := [];
    while v + |val| < e && |val| < KCMD_MAX - 1
      invariant v + |val| <= e && val == line[v..v + |val|]
    {
      val := val + [line[v + |val|]];
    }
  }

  // ---- the directive ------------------------------------------------------------------

  datatype App = App(path: seq<char>, arg: seq<char>)

  /** What is launched for a directive's value: nothing without a path. */
  function Launched(spec: seq<char>): Option<App> {
    var n := PathEnd(spec, 0);
    if n == 0 then None
    else if n < |spec| && spec[n] == ':' then Some(App(spec[..n], Upto(spec[n + 1..], ARG_SIZE - 1)))
    else Some(App(spec[..n], []))
  }

  function Upto(s: seq<char>, n: nat): seq<char> { if |s| <= n then s else s[..n] }

  /** The path ends at the first colon or where its buffer is full. */
  function PathEnd(spec: seq<char>, i: nat): (n: nat)
    requires i <= |spec| && i < PATH_SIZE
    ensures i <= n <= |spec| && n < PATH_SIZE
    decreases |spec| - i
  { if i == |spec| || spec[i] == ':' || i == PATH_SIZE - 1 then i else PathEnd(spec, i + 1) }

  function Boot(line: seq<char>): Option<App> {
    var spec := ValueOf(line, BOOT_APP);
    if spec.None? then None else Launched(spec.value)
  }

  /** The part of net_autotest_launch that decides what to launch. */
  method AutotestLaunch(line: seq<char>) returns (app: Option<App>)
    requires |line| < KCMD_MAX
    ensures app == Boot(line)
  {
    var value := KcmdValue(line, BOOT_APP);
    if value.None? || value.value == [] { return None; }
    var spec := value.value;
    var path: seq<char>, arg: seq<char> := [], [];
    while |path| < |spec| && spec[|path|] != ':' && |path| < PATH_SIZE - 1
      invariant |path| <= |spec| && |path| < PATH_SIZE && path == spec[..|path|]
      invariant PathEnd(spec, |path|) == PathEnd(spec, 0)
    {
      path := path + [spec[|path|]];
    }
    if |path| < |spec| && spec[|path|] == ':' {
      var rest := spec[|path| + 1..];
      while |arg| < |rest| && |arg| < ARG_SIZE - 1
        invariant |arg| <= |rest| && |arg| <= ARG_SIZE - 1 && arg == rest[..|arg|]
      {
        arg := arg + [rest[|arg|]];
      }
      assert rest[..|rest|] == rest;
      assert arg == Upto(rest, ARG_SIZE - 1);
    }
    if |path| == 0 { return None; }
    return Some(App(path, arg));
  }

  lemma {:induction false} PathEndAt(spec: seq<char>, i: nat, n: nat)
    requires i <= n <= |spec| && n < PATH_SIZE && ':' !in spec[i..n] && (n < |spec| ==> spec[n] == ':')
    ensures PathEnd(spec, i) == n
    decreases n - i
  {
    if i < n {
      assert spec[i] in spec[i..n] && spec[i + 1..n] == spec[i..n][1..];
      PathEndAt(spec, i + 1, n);
    }
  }

  /** Splitting at the first colon recovers path and argument, colons in the argument included. */
  lemma LaunchedRoundTrip(path: seq<char>, arg: seq<char>)
    requires path != [] && |path| < PATH_SIZE && ':' !in path && |arg| < ARG_SIZE
    ensures Launched(path + ":" + arg) == Some(App(path, arg)) && Launched(path) == Some(App(path, []))
  {
    var spec := path + ":" + arg;
    assert spec[0..|path|] == path && spec[|path|] == ':' && path[0..|path|] == path;
    PathEndAt(spec, 0, |path|);
    PathEndAt(path, 0, |path|);
    assert spec[|path| + 1..] == arg;
  }

  predicate EndsWord(before: seq<char>) { before == [] || before[|before| - 1] == ' ' }

  predicate StartsWord(after: seq<char>) { after == [] || after[0] == ' ' }

  lemma WordsBefore(before: seq<char>, rest: seq<char>)
    requires EndsWord(before)
    ensures Words(before + rest, 0) == Words(before, 0) + Words(rest, 0)
  {
    if before == [] {
      assert before + rest == rest;
    } else {
      var b := before[..|before| - 1];
      assert before == b + " " && before == b + " " + [];
      WordsSplit(b, rest, 0);
      WordsSplit(b, [], 0);
    }
  }

  lemma WordsAfter(word: seq<char>, after: seq<char>)
    requires word != [] && ' ' !in word && StartsWord(after)
    ensures Words(word + after, 0) == [word] + Words(after, 0)
  {
    OneWord(word);
    if after == [] {
      assert word + after == word;
    } else {
      assert after == " " + after[1..];
      assert word + after == word + " " + after[1..];
      WordsSplit(word, after[1..], 0);
      WordsOfSuffix(" ", after[1..], 0);
    }
  }

  /** A word that assigns the key is found, whatever stands before and after it, as long as
      nothing before it assigns the key. */
  lemma ValueFound(before: seq<char>, key: seq<char>, value: seq<char>, after: seq<char>)
    requires EndsWord(before) && StartsWord(after)
    requires ValueOf(before, key) == None && ' ' !in key && ' ' !in value
    ensures ValueOf(before + (key + "=" + value + after), key) == Some(value)
  {
    var word := key + "=" + value;
    WordsBefore(before, word + after);
    WordsAfter(word, after);
    LookupPast(Words(before, 0), [word] + Words(after, 0), key);
    assert key + "=" <= word && word[|key| + 1..] == value;
  }

  /** The boot directive round trip: path and argument come back from any command line they
      are placed on. */
  lemma BootRoundTrip(before: seq<char>, path: seq<char>, arg: seq<char>, after: seq<char>)
    requires EndsWord(before) && StartsWord(after) && ValueOf(before, BOOT_APP) == None
    requires path != [] && |path| < PATH_SIZE && ':' !in path && ' ' !in path && ' ' !in arg
    requires |before| + 9 + |path| + 1 + |arg| + |after| < KCMD_MAX
    ensures Boot(before + (BOOT_APP + "=" + (path + ":" + arg) + after)) == Some(App(path, arg))
    ensures Boot(before + (BOOT_APP + "=" + path + after)) == Some(App(path, []))
  {
    ValueFound(before, BOOT_APP, path + ":" + arg, after);
    ValueFound(before, BOOT_APP, path, after);
    LaunchedRoundTrip(path, arg);
  }
}
