/** What a whole reply is taken for: head lines as a server writes them, a body, and the framing
    of section 6.3 of RFC 9112. */
module ResponseLaws {
  import opened Ascii
  import opened AsciiLaws
  import opened CString
  import opened Response
  import Chunked
  import ChunkedLaws

  // ---- one header line ----------------------------------------------------------------

  predicate NamesLength(l: seq<char>) { |l| >= 15 && Spelled(l[..15], "content-length:") }

  predicate NamesTransfer(l: seq<char>) { |l| >= 18 && Spelled(l[..18], "transfer-encoding:") }

  /** The two header names are recognised in any letter case, and nothing else is. */
  lemma NamesExactly(l: seq<char>)
    ensures IsLength(l) <==> NamesLength(l)
    ensures StartsCi(l, TRANSFER_ENCODING) <==> NamesTransfer(l)
  {
    StartsCiMeans(l, "content-length:");
    StartsCiMeans(l, "transfer-encoding:");
  }

  lemma {:induction false} SpacesAt(l: seq<char>, i: nat, j: nat)
    requires i <= j <= |l| && (forall k :: i <= k < j ==> l[k] == ' ') && (j < |l| ==> l[j] != ' ')
    ensures Spaces(l, i) == j
    decreases j - i
  {
    if i < j { SpacesAt(l, i + 1, j); }
  }

  /** The digits from j to e are read as their decimal value. */
  lemma {:induction false} DecimalRun(l: seq<char>, j: nat, i: nat, e: nat)
    requires j <= i <= e <= |l| && e - j <= 10 && AllDigits(l[j..i]) && AllDigits(l[j..e])
    requires e < |l| ==> !IsDigit(l[e]) || e - j == 10
    ensures Decimal(l, i, Value(l[j..i]), i - j) == if e == j then -1 else Value(l[j..e])
    decreases e - i
  {
    if i < e {
      assert l[j..e][i - j] == l[i];
      ValueSnoc(l, j, i);
      DecimalRun(l, j, i + 1, e);
    }
  }

  /** A Content-Length line in its parts: blanks, digits, and what comes after. */
  predicate LengthParts(name: seq<char>, spaces: seq<char>, ds: seq<char>, tail: seq<char>) {
    Spelled(name, "content-length:") && (forall k :: 0 <= k < |spaces| ==> spaces[k] == ' ')
    && AllDigits(ds) && |ds| <= 10 && (tail != [] ==> !IsDigit(tail[0]) || |ds| == 10)
    && (ds == [] && tail != [] ==> tail[0] != ' ')
  }

  /** Its length is the decimal value of the digits, none without a digit. */
  lemma LengthReads(name: seq<char>, spaces: seq<char>, ds: seq<char>, tail: seq<char>, l: seq<char>)
    requires LengthParts(name, spaces, ds, tail) && l == name + spaces + ds + tail
    ensures IsLength(l) && LengthOf(l) == if ds == [] then -1 else Value(ds)
  {
    var j := 15 + |spaces|;
    var e := j + |ds|;
    assert l[..15] == name;
    NamesExactly(l);
    assert forall k :: 15 <= k < j ==> l[k] == spaces[k - 15];
    assert j < |l| ==> l[j] == if ds != [] then ds[0] else tail[0];
    SpacesAt(l, 15, j);
    assert l[j..e] == ds && l[j..j] == [];
    assert e < |l| ==> l[e] == tail[0];
    DecimalRun(l, j, j, e);
  }

  /** A printed number of up to ten digits is read as itself. */
  lemma PrintedLength(name: seq<char>, spaces: seq<char>, n: nat, tail: seq<char>)
    requires Spelled(name, "content-length:") && (forall k :: 0 <= k < |spaces| ==> spaces[k] == ' ')
    requires n < 10_000_000_000 && (tail != [] ==> !IsDigit(tail[0]))
    ensures var l := name + spaces + Printed(n) + tail; IsLength(l) && LengthOf(l) == n
  {
    PrintedValue(n);
    assert Pow10(10) == 10_000_000_000 by { assert Pow10(5) == 100_000; }
    NumeralShort(n, 10);
    LengthReads(name, spaces, Printed(n), tail, name + spaces + Printed(n) + tail);
  }

  // ---- a head as it is written --------------------------------------------------------

  const CRLF: seq<char> := ['\r', '\n']

  predicate IsLine(l: seq<char>) { l != [] && forall k :: 0 <= k < |l| ==> l[k] != '\r' && l[k] != '\n' }

  predicate AreLines(ls: seq<seq<char>>) { forall k :: 0 <= k < |ls| ==> IsLine(ls[k]) }

  /** The lines, each with its line end, and the empty line. */
  function HeadText(ls: seq<seq<char>>): (h: seq<char>)
    ensures |h| >= 2
  { if ls == [] then CRLF else ls[0] + CRLF + HeadText(ls[1..]) }

  /** The head text stands in h from p on, and h[..p] is over. */
  predicate HeadAt(h: seq<char>, p: nat, ls: seq<seq<char>>) {
    p + |HeadText(ls)| <= |h| && h[p..p + |HeadText(ls)|] == HeadText(ls)
  }

  lemma FirstLine(h: seq<char>, p: nat, ls: seq<seq<char>>)
    requires HeadAt(h, p, ls) && AreLines(ls)
    ensures var e := if ls == [] then p else p + |ls[0]|;
      e + 1 < |h| && h[e] == '\r' && h[e + 1] == '\n' && (forall k :: p <= k < e ==> h[k] != '\r' && h[k] != '\n')
      && (ls != [] ==> h[p..e] == ls[0] && HeadAt(h, e + 2, ls[1..]))
  {
    var t := h[p..p + |HeadText(ls)|];
    if ls == [] {
      assert t[0] == h[p] && t[1] == h[p + 1];
    } else {
      var n := |ls[0]|;
      assert t[..n] == ls[0] && t[n] == '\r' && t[n + 1] == '\n' && t[n + 2..] == HeadText(ls[1..]);
      assert h[p..p + n] == t[..n];
      assert IsLine(ls[0]);
      forall k | p <= k < p + n ensures h[k] != '\r' && h[k] != '\n' { assert h[k] == t[..n][k - p]; }
      assert h[p + n] == t[n] && h[p + n + 1] == t[n + 1];
      assert h[p + n + 2..p + |HeadText(ls)|] == t[n + 2..];
    }
  }

  /** The lines are found again, with the empty one that ends the head. */
  lemma {:induction false} LinesFrom(h: seq<char>, p: nat, ls: seq<seq<char>>)
    requires HeadAt(h, p, ls) && AreLines(ls) && p + |HeadText(ls)| == |h|
    ensures Lines(h, p) == ls + [[]]
    decreases |ls|
  {
    FirstLine(h, p, ls);
    if ls == [] {
      LineAt(h, p, p);
      assert h[p..p] == [] && Lines(h, p + 2) == [];
    } else {
      LineAt(h, p, p + |ls[0]|);
      LinesFrom(h, p + |ls[0]| + 2, ls[1..]);
    }
  }

  lemma {:induction false} BlankSkip(b: seq<char>, p: nat, q: nat)
    requires p <= q && forall k :: p <= k < q ==> !BlankAt(b, k)
    ensures BlankFrom(b, p) == BlankFrom(b, q)
    decreases q - p
  {
    if p < q { BlankSkip(b, p + 1, q); }
  }

  /** The head ends where its empty line does, and no earlier. */
  lemma {:induction false} HeadEnds(b: seq<char>, p: nat, ls: seq<seq<char>>)
    requires HeadAt(b, p, ls) && AreLines(ls) && ls != []
    ensures BlankFrom(b, p) == p + |HeadText(ls)|
    decreases |ls|
  {
    var e := p + |ls[0]|;
    FirstLine(b, p, ls);
    FirstLine(b, e + 2, ls[1..]);
    BlankSkip(b, p, e);
    if |ls| == 1 {
      assert HeadText(ls[1..]) == CRLF && BlankAt(b, e);
    } else {
      assert IsLine(ls[1]) && b[e + 2] == b[e + 2..e + 2 + |ls[1]|][0];
      BlankSkip(b, e, e + 2);
      HeadEnds(b, e + 2, ls[1..]);
    }
  }

  /** A reply: a head whose first line is an HTTP status line, and a body. */
  predicate IsReply(ls: seq<seq<char>>) { AreLines(ls) && |ls| >= 1 && "HTTP/" <= ls[0] }

  lemma ReplySniffed(ls: seq<seq<char>>, body: seq<char>, b: seq<char>)
    requires IsReply(ls) && b == HeadText(ls) + body
    ensures IsHttp(b) && Sniff(b) == Sniffed(|HeadText(ls)|, Fold(NO_FRAME, ls + [[]]))
    ensures b[|HeadText(ls)|..] == body
  {
    var h := HeadText(ls);
    assert b[0..|h|] == h && b[..|h|] == h && h[0..|h|] == h;
    HeadEnds(b, 0, ls);
    LinesFrom(h, 0, ls);
    assert ls[0] <= h && "HTTP/" <= ls[0];
    assert b[..5] == h[..5] == ls[0][..5] == "HTTP/";
    assert |h| >= |ls[0]| + 4;
    HttpStarts(b, b[..5]);
  }

  // ---- what the framing means ---------------------------------------------------------

  predicate NoTransfer(ls: seq<seq<char>>) { forall k :: 0 <= k < |ls| ==> !NamesTransfer(ls[k]) }

  predicate NoLengthFrom(ls: seq<seq<char>>, i: nat) { forall k :: i <= k < |ls| ==> !NamesLength(ls[k]) }

  lemma NotChunked(ls: seq<seq<char>>)
    requires NoTransfer(ls)
    ensures !Fold(NO_FRAME, ls + [[]]).chunked
  {
    var all := ls + [[]];
    ChunkedWhen(NO_FRAME, all);
    forall l | l in all ensures !IsChunked(l) {
      NamesExactly(l);
      if l != [] { var k :| 0 <= k < |ls| && ls[k] == l; }
    }
  }

  lemma LastLength(ls: seq<seq<char>>, i: nat, n: nat)
    requires i < |ls| && IsLength(ls[i]) && LengthOf(ls[i]) == n && NoLengthFrom(ls, i + 1)
    ensures Fold(NO_FRAME, ls + [[]]).expected == n
  {
    var all := ls + [[]];
    forall l | l in all[i + 1..] ensures !Carries(l) {
      NamesExactly(l);
      if l != [] {
        var k :| 0 <= k < |all[i + 1..]| && all[i + 1..][k] == l;
        assert l == ls[i + 1 + k];
      }
    }
    ExpectedWhen(NO_FRAME, all, i);
  }

  lemma NoLength(ls: seq<seq<char>>)
    requires NoLengthFrom(ls, 0)
    ensures Fold(NO_FRAME, ls + [[]]).expected == -1
  {
    var all := ls + [[]];
    forall l | l in all ensures !Carries(l) {
      NamesExactly(l);
      if l != [] { var k :| 0 <= k < |ls| && ls[k] == l; }
    }
    ExpectedWhen(NO_FRAME, all, 0);
  }

  /** With a Content-Length of n the reply is complete exactly from n body bytes on, and the page
      is made of the first n of them. */
  lemma FixedLength(ls: seq<seq<char>>, i: nat, name: seq<char>, spaces: seq<char>, ds: seq<char>, tail: seq<char>,
                    body: seq<char>, b: seq<char>)
    requires IsReply(ls) && b == HeadText(ls) + body && i < |ls| && NoTransfer(ls) && NoLengthFrom(ls, i + 1)
    requires LengthParts(name, spaces, ds, tail) && ds != [] && ls[i] == name + spaces + ds + tail
    ensures var n := Value(ds);
      (Complete(b) <==> |body| >= n) && Rendered(b) == if |body| < n then body else body[..n]
  {
    var n, start := Value(ds), |HeadText(ls)|;
    ReplySniffed(ls, body, b);
    NotChunked(ls);
    LengthReads(name, spaces, ds, tail, ls[i]);
    LastLength(ls, i, n);
    if n <= |body| { assert b[start..start + n] == body[..n]; }
    if n == |body| { assert body[..n] == body; }
  }

  /** Without either header the reply ends only with the connection, and all of the body counts. */
  lemma UntilClosed(ls: seq<seq<char>>, body: seq<char>, b: seq<char>)
    requires IsReply(ls) && b == HeadText(ls) + body && NoTransfer(ls) && NoLengthFrom(ls, 0)
    ensures !Complete(b) && Rendered(b) == body
  {
    ReplySniffed(ls, body, b);
    NotChunked(ls);
    NoLength(ls);
  }

  /** A Transfer-Encoding line that names "chunked" anywhere, in any letter case. */
  predicate ChunkedParts(name: seq<char>, before: seq<char>, word: seq<char>, after: seq<char>) {
    Spelled(name, "transfer-encoding:") && Spelled(word, "chunked")
  }

  lemma ChunkedLine(name: seq<char>, before: seq<char>, word: seq<char>, after: seq<char>, l: seq<char>)
    requires ChunkedParts(name, before, word, after) && l == name + before + word + after
    ensures IsChunked(l)
  {
    var k := 18 + |before|;
    assert l[..18] == name && l[k..][..7] == word;
    NamesExactly(l);
    StartsCiMeans(l[k..], "chunked");
    assert k + 7 <= |l| && StartsCi(l[k..], CHUNKED);
    assert !NamesLength(l) by { FirstLetters(l); }
  }

  lemma FirstLetters(l: seq<char>)
    requires NamesTransfer(l)
    ensures !NamesLength(l)
  {
    LowerMeans(l[0], 't');
    LowerMeans(l[0], 'c');
    assert l[..18][0] == l[0] && "transfer-encoding:"[0] == 't';
    if |l| >= 15 { assert l[..15][0] == l[0] && "content-length:"[0] == 'c'; }
  }

  /** With such a line the body is what the chunk decoder makes of it. */
  lemma ChunkedBody(ls: seq<seq<char>>, i: nat, name: seq<char>, before: seq<char>, word: seq<char>, after: seq<char>,
                    body: seq<char>, b: seq<char>)
    requires IsReply(ls) && b == HeadText(ls) + body && i < |ls|
    requires ChunkedParts(name, before, word, after) && ls[i] == name + before + word + after
    ensures (Complete(b) <==> Chunked.Walk(body).done) && Rendered(b) == Chunked.Walk(body).body
  {
    ReplySniffed(ls, body, b);
    ChunkedLine(name, before, word, after, ls[i]);
    var all := ls + [[]];
    ChunkedWhen(NO_FRAME, all);
    assert all[i] == ls[i] && ls[i] in all;
  }

  /** End to end: printed chunks under such a head come out as their data, and completely. */
  lemma ChunkedReply(ls: seq<seq<char>>, i: nat, name: seq<char>, before: seq<char>, word: seq<char>, after: seq<char>,
                     ps: seq<ChunkedLaws.Piece>, last: ChunkedLaws.Piece, trailer: seq<char>)
    requires IsReply(ls) && i < |ls|
    requires ChunkedParts(name, before, word, after) && ls[i] == name + before + word + after
    requires forall k :: 0 <= k < |ps| ==> ChunkedLaws.AsPrinted(ps[k]) && ps[k].data != []
    requires ChunkedLaws.AsPrinted(last) && last.data == []
    ensures var b := HeadText(ls) + ChunkedLaws.Encode(ps, last, trailer);
      Complete(b) && Rendered(b) == ChunkedLaws.Data(ps)
  {
    var body := ChunkedLaws.Encode(ps, last, trailer);
    ChunkedLaws.PrintedRoundTrip(ps, last, trailer);
    ChunkedBody(ls, i, name, before, word, after, body, HeadText(ls) + body);
  }

  /** What does not start like an HTTP reply is shown as it is. */
  lemma RawReply(b: seq<char>)
    requires !("HTTP/" <= b) || |b| == 5
    ensures Rendered(b) == b
  {
    assert |b| > 5 && b[..5] == "HTTP/" ==> "HTTP/" <= b;
  }
}
