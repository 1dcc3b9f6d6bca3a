/**
  The receive side of a fetch: bytes accumulate in one buffer, the head is sniffed for its
  framing (section 6.3 of RFC 9112), and the body is complete, and later rendered, according
  to that framing.  The functions say what each decision is in terms of the bytes received so
  far; the class is the code that takes them.
*/
module Response {
  import opened Ascii
  import Chunked
  import ChunkedLaws

  const RAW_MAX := 24576

  // ---- the head -----------------------------------------------------------------------

  predicate BlankAt(b: seq<char>, j: int) {
    0 <= j && j + 3 < |b| && b[j] == '\r' && b[j + 1] == '\n' && b[j + 2] == '\r' && b[j + 3] == '\n'
  }

  /** Offset just past the first blank line at or after j, -1 when there is none. */
  function BlankFrom(b: seq<char>, j: nat): (e: int)
    ensures e == -1 || (j <= e - 4 && BlankAt(b, e - 4))
    ensures forall k :: j <= k && (e == -1 || k < e - 4) ==> !BlankAt(b, k)
    decreases |b| - j
  {
    if j + 3 >= |b| then -1 else if BlankAt(b, j) then j + 4 else BlankFrom(b, j + 1)
  }

  function HeaderEnd(b: seq<char>): int { BlankFrom(b, 0) }

  /** What the head says about the body; expected is -1 without a usable Content-Length. */
  datatype Frame = Frame(expected: int, chunked: bool)

  const NO_FRAME := Frame(-1, false)
  const CONTENT_LENGTH := "content-length:"
  const TRANSFER_ENCODING := "transfer-encoding:"
  const CHUNKED := "chunked"

  function TextEnd(h: seq<char>, p: nat): (e: nat)
    requires p <= |h|
    ensures p <= e <= |h| && (e < |h| ==> h[e] == '\r' || h[e] == '\n')
    decreases |h| - p
  {
    if p == |h| || h[p] == '\r' || h[p] == '\n' then p else TextEnd(h, p + 1)
  }

  /** Start of the line after the one at p; |h| + 1 when the head ends without a line feed. */
  function NextLine(h: seq<char>, p: nat): (q: nat)
    requires p <= |h|
    ensures p < q <= |h| + 1
    decreases |h| - p
  {
    if p == |h| || h[p] == '\n' then p + 1 else NextLine(h, p + 1)
  }

  function Spaces(l: seq<char>, i: nat): (j: nat)
    requires i <= |l|
    ensures i <= j <= |l|
    decreases |l| - i
  {
    if i < |l| && l[i] == ' ' then Spaces(l, i + 1) else i
  }

  /** Decimal value of at most ten digits at i, -1 when there is no digit. */
  function Decimal(l: seq<char>, i: nat, v: nat, d: nat): int
    requires i <= |l|
    decreases |l| - i
  {
    if i < |l| && IsDigit(l[i]) && d <= 9 then Decimal(l, i + 1, v * 10 + (l[i] as int - '0' as int), d + 1)
    else if d > 0 then v else -1
  }

  predicate IsLength(l: seq<char>) { StartsCi(l, CONTENT_LENGTH) }

  function LengthOf(l: seq<char>): int
    requires IsLength(l)
  { Decimal(l, Spaces(l, 15), 0, 0) }

  predicate MentionsFrom(l: seq<char>, i: nat)
    requires i <= |l|
  { exists k :: i <= k && k + 7 <= |l| && StartsCi(l[k..], CHUNKED) }

  predicate IsChunked(l: seq<char>) { !IsLength(l) && StartsCi(l, TRANSFER_ENCODING) && MentionsFrom(l, 18) }

  function Apply(f: Frame, l: seq<char>): Frame {
    if IsLength(l) then (if LengthOf(l) >= 0 then f.(expected := LengthOf(l)) else f)
    else if IsChunked(l) then f.(chunked := true) else f
  }

  /** The lines of the head `h` from p on, each cut at its first CR or LF. */
  function Lines(h: seq<char>, p: nat): seq<seq<char>>
    decreases |h| - p
  {
    if p >= |h| then [] else [h[p..TextEnd(h, p)]] + Lines(h, NextLine(h, p))
  }

  function Fold(f: Frame, ls: seq<seq<char>>): Frame
    decreases |ls|
  {
    if ls == [] then f else Fold(Apply(f, ls[0]), ls[1..])
  }

  datatype Sniffed = Pending | Sniffed(start: nat, frame: Frame)

  function Sniff(b: seq<char>): (s: Sniffed)
    ensures s.Sniffed? ==> 4 <= s.start <= |b|
  {
    if |b| < 5 || !StartsCi(b, "HTTP/") || HeaderEnd(b) < 0 then Pending
    else Sniffed(HeaderEnd(b), Fold(NO_FRAME, Lines(b[..HeaderEnd(b)], 0)))
  }

  predicate Carries(l: seq<char>) { IsLength(l) && LengthOf(l) >= 0 }

  /** The body is chunked exactly when some header line says so. */
  lemma {:induction false} ChunkedWhen(f: Frame, ls: seq<seq<char>>)
    ensures Fold(f, ls).chunked <==> f.chunked || exists l :: l in ls && IsChunked(l)
    decreases |ls|
  {
    if ls != [] {
      ChunkedWhen(Apply(f, ls[0]), ls[1..]);
      assert forall l :: l in ls <==> l == ls[0] || l in ls[1..];
    }
  }

  /** The expected length is that of the last line carrying one, and unset without any. */
  lemma {:induction false} ExpectedWhen(f: Frame, ls: seq<seq<char>>, i: nat)
    ensures (forall l :: l in ls ==> !Carries(l)) ==> Fold(f, ls).expected == f.expected
    ensures i < |ls| && Carries(ls[i]) && (forall l :: l in ls[i + 1..] ==> !Carries(l)) ==>
      Fold(f, ls).expected == LengthOf(ls[i])
    decreases |ls|
  {
    if ls != [] {
      ExpectedWhen(Apply(f, ls[0]), ls[1..], if i == 0 then 0 else i - 1);
      assert i > 0 && i < |ls| ==> ls[1..][i..] == ls[i + 1..];
      assert ls[0] in ls && forall l :: l in ls[1..] ==> l in ls;
    }
  }

  // ---- complete, and what is rendered -------------------------------------------------

  function Decoded(b: seq<char>, start: nat): Chunked.Walked
    requires start <= |b|
  { Chunked.Walk(b[start..]) }

  /** May the fetch stop reading here? */
  predicate Complete(b: seq<char>) {
    var s := Sniff(b);
    s.Sniffed?
    && if s.frame.chunked then Decoded(b, s.start).done
       else s.frame.expected >= 0 && |b| - s.start >= s.frame.expected
  }

  predicate IsHttp(b: seq<char>) { |b| > 5 && b[..5] == "HTTP/" }

  /** The bytes handed to the renderer once reading has stopped. */
  function Rendered(b: seq<char>): seq<char> {
    if !IsHttp(b) then b else
    var s := Sniff(b);
    if s.Pending? then []
    else if s.frame.chunked then Decoded(b, s.start).body
    else if 0 <= s.frame.expected < |b| - s.start then b[s.start..s.start + s.frame.expected]
    else b[s.start..]
  }

  lemma {:induction false} BlankGrows(b: seq<char>, x: seq<char>, j: nat)
    ensures BlankFrom(b, j) >= 0 ==> BlankFrom(b + x, j) == BlankFrom(b, j)
    decreases |b| - j
  {
    if j + 3 < |b| && !BlankAt(b, j) { BlankGrows(b, x, j + 1); }
  }

  /** Once the head is complete, later bytes change neither its end nor its framing. */
  lemma SniffGrows(b: seq<char>, x: seq<char>)
    ensures Sniff(b).Sniffed? ==> Sniff(b + x) == Sniff(b)
  {
    if Sniff(b).Sniffed? {
      BlankGrows(b, x, 0);
      assert (b + x)[..HeaderEnd(b)] == b[..HeaderEnd(b)];
    }
  }

  /** Segmentation independence: a complete response stays complete, with the same head and
      the same bytes to render, however much more of the stream has arrived. */
  lemma CompleteGrows(b: seq<char>, x: seq<char>)
    requires Complete(b)
    ensures Complete(b + x) && Sniff(b + x) == Sniff(b)
    ensures IsHttp(b) ==> Rendered(b + x) == Rendered(b)
  {
    SniffGrows(b, x);
    var s := Sniff(b);
    assert (b + x)[s.start..] == b[s.start..] + x;
    if s.frame.chunked {
      ChunkedLaws.WalkGrows(b[s.start..], x);
    } else if IsHttp(b) {
      var e := s.start + s.frame.expected;
      assert (b + x)[s.start..e] == b[s.start..e];
      assert e == |b| ==> b[s.start..e] == b[s.start..];
      assert e == |b + x| ==> (b + x)[s.start..e] == (b + x)[s.start..];
    }
  }

  /** Two readers of one stream that both stop at a complete prefix agree. */
  lemma SameStream(stream: seq<char>, n: nat, m: nat)
    requires n <= m <= |stream| && Complete(stream[..n]) && IsHttp(stream[..n])
    ensures Complete(stream[..m]) && HeaderEnd(stream[..n]) == HeaderEnd(stream[..m])
    ensures Rendered(stream[..n]) == Rendered(stream[..m])
  {
    assert stream[..m] == stream[..n] + stream[n..m];
    CompleteGrows(stream[..n], stream[n..m]);
  }

  /** The renderer insists on an upper-case status line while the framing does not, so the
      law holds for exactly the replies that start "HTTP/". */
  lemma StableExactlyWhenHttp(b: seq<char>)
    requires Complete(b)
    ensures (forall x :: Rendered(b + x) == Rendered(b)) <==> IsHttp(b)
  {
    if IsHttp(b) {
      forall x ensures Rendered(b + x) == Rendered(b) { CompleteGrows(b, x); }
    } else {
      assert |b| > 5 by { assert BlankAt(b, HeaderEnd(b) - 4); HeadIsLong(b); }
      assert !IsHttp(b + ['?']) by { assert (b + ['?'])[..5] == b[..5]; }
      assert |Rendered(b + ['?'])| != |Rendered(b)|;
    }
  }

  lemma HeadIsLong(b: seq<char>)
    requires Sniff(b).Sniffed?
    ensures |b| > 5
  {
    assert BlankAt(b, HeaderEnd(b) - 4);
  }

  // ---- a reply on the failing side ----------------------------------------------------

  lemma {:induction false} TextEndAt(h: seq<char>, p: nat, e: nat)
    requires p <= e < |h| && h[e] == '\r' && forall k :: p <= k < e ==> h[k] != '\r' && h[k] != '\n'
    ensures TextEnd(h, p) == e
    decreases e - p
  {
    if p < e { TextEndAt(h, p + 1, e); }
  }

  lemma {:induction false} NextLineAt(h: seq<char>, p: nat, e: nat)
    requires p <= e < |h| && h[e] == '\n' && forall k :: p <= k < e ==> h[k] != '\n'
    ensures NextLine(h, p) == e + 1
    decreases e - p
  {
    if p < e { NextLineAt(h, p + 1, e); }
  }

  /** One line of a head: its text, and the line after it. */
  lemma LineAt(h: seq<char>, p: nat, e: nat)
    requires p <= e && e + 1 < |h| && h[e] == '\r' && h[e + 1] == '\n'
    requires forall k :: p <= k < e ==> h[k] != '\r' && h[k] != '\n'
    ensures Lines(h, p) == [h[p..e]] + Lines(h, e + 2)
  {
    TextEndAt(h, p, e);
    NextLineAt(h, p, e + 1);
  }

  const STATUS: seq<char> := "http/"
  const LENGTH_0: seq<char> := "content-length:0"
  const LOWER_CASE: seq<char> := STATUS + "\r\n" + LENGTH_0 + "\r\n\r\n"

  lemma NoBreaks()
    ensures |STATUS| == 5 && |LENGTH_0| == 16
    ensures forall k :: 0 <= k < 5 ==> STATUS[k] != '\r' && STATUS[k] != '\n'
    ensures forall k :: 0 <= k < 16 ==> LENGTH_0[k] != '\r' && LENGTH_0[k] != '\n'
  {
  }

  lemma LowerCaseShape()
    ensures var b := LOWER_CASE;
      |b| == 27 && b[..5] == STATUS && b[7..23] == LENGTH_0
      && b[5] == '\r' && b[6] == '\n' && b[23] == '\r' && b[24] == '\n' && b[25] == '\r' && b[26] == '\n'
    ensures forall k :: 0 <= k < 23 && k != 5 && k != 6 ==> LOWER_CASE[k] != '\r' && LOWER_CASE[k] != '\n'
  {
    var b := LOWER_CASE;
    NoBreaks();
    forall k | 0 <= k < 23 && k != 5 && k != 6 ensures b[k] != '\r' && b[k] != '\n' {
      if k < 5 { assert b[k] == STATUS[k]; } else { assert b[k] == LENGTH_0[k - 7]; }
    }
  }

  lemma LowerCaseHead()
    ensures HeaderEnd(LOWER_CASE) == 27 && LOWER_CASE[..27] == LOWER_CASE
    ensures Lines(LOWER_CASE, 0) == [STATUS, LENGTH_0, []]
  {
    var b := LOWER_CASE;
    LowerCaseShape();
    assert BlankAt(b, 23);
    assert forall k :: 0 <= k < 23 ==> !BlankAt(b, k);
    LineAt(b, 0, 5);
    LineAt(b, 7, 23);
    LineAt(b, 25, 25);
    assert Lines(b, 27) == [] && b[25..25] == [];
  }

  lemma LowerCaseFrame()
    ensures Fold(NO_FRAME, [STATUS, LENGTH_0, []]) == Frame(0, false)
  {
    var ls := [STATUS, LENGTH_0, []];
    assert STATUS[0] == 'h' && LENGTH_0[0] == 'c';
    assert Apply(NO_FRAME, STATUS) == NO_FRAME;
    assert IsLength(LENGTH_0) && LengthOf(LENGTH_0) == 0;
    assert Apply(NO_FRAME, LENGTH_0) == Frame(0, false);
    FoldFirst(NO_FRAME, STATUS, [LENGTH_0, []]);
    FoldFirst(NO_FRAME, LENGTH_0, [[]]);
    assert ls == [STATUS] + [LENGTH_0, []] && [LENGTH_0, []] == [LENGTH_0] + [[]];
    assert Fold(Frame(0, false), [[]]) == Fold(Apply(Frame(0, false), []), [[]][1..]);
  }

  /** A complete reply in lower case: what follows it in the stream changes the page. */
  lemma LowerCaseReply()
    ensures Complete(LOWER_CASE) && !IsHttp(LOWER_CASE) && exists x :: Rendered(LOWER_CASE + x) != Rendered(LOWER_CASE)
  {
    var b := LOWER_CASE;
    LowerCaseShape();
    LowerCaseHead();
    LowerCaseFrame();
    assert StartsCi(b, "HTTP/") by { assert forall k :: 0 <= k < 5 ==> b[k] == STATUS[k]; }
    assert Sniff(b) == Sniffed(27, Frame(0, false));
    assert b[..5][0] == 'h';
    StableExactlyWhenHttp(b);
  }

  /** Whatever arrives, what would be rendered only ever grows. */
  lemma RenderedGrows(b: seq<char>, x: seq<char>)
    requires IsHttp(b)
    ensures Rendered(b) <= Rendered(b + x)
  {
    assert (b + x)[..5] == b[..5];
    var s := Sniff(b);
    if s.Sniffed? {
      SniffGrows(b, x);
      assert (b + x)[s.start..] == b[s.start..] + x;
      if s.frame.chunked { ChunkedLaws.WalkGrows(b[s.start..], x); }
    }
  }

  // ---- the code -----------------------------------------------------------------------

  method ReadLength(l: seq<char>) returns (v: int, d: nat)
    requires IsLength(l)
    ensures v >= 0 && LengthOf(l) == if d > 0 then v else -1
  {
    var i := 15;
    while i < |l| && l[i] == ' '
      invariant 15 <= i <= |l| && Spaces(l, i) == Spaces(l, 15)
    {
      i := i + 1;
    }
    v, d := 0, 0;
    while i < |l| && IsDigit(l[i]) && d <= 9
      invariant i <= |l| && v >= 0 && Decimal(l, i, v, d) == LengthOf(l)
      decreases |l| - i
    {
      v := v * 10 + (l[i] as int - '0' as int);
      i := i + 1;
      d := d + 1;
    }
  }

  method FindChunked(l: seq<char>) returns (found: bool)
    requires StartsCi(l, TRANSFER_ENCODING)
    ensures found == MentionsFrom(l, 18)
  {
    var i := 18;
    while i + 7 <= |l|
      invariant 18 <= i
      invariant forall k :: 18 <= k < i && k + 7 <= |l| ==> !StartsCi(l[k..], CHUNKED)
    {
      if StartsCi(l[i..], CHUNKED) { return true; }
      i := i + 1;
    }
    return false;
  }

  method ApplyLine(f: Frame, l: seq<char>) returns (r: Frame)
    ensures r == Apply(f, l)
  {
    r := f;
    if |l| >= 15 && StartsCi(l, CONTENT_LENGTH) {
      var v, d := ReadLength(l);
      if d > 0 { r := f.(expected := v); }
    } else if |l| >= 18 && StartsCi(l, TRANSFER_ENCODING) {
      var found := FindChunked(l);
      if found { r := f.(chunked := true); }
    }
  }

  method FindTextEnd(h: seq<char>, line: nat) returns (eol: nat)
    requires line <= |h|
    ensures eol == TextEnd(h, line)
  {
    eol := line;
    while eol < |h| && h[eol] != '\r' && h[eol] != '\n'
      invariant line <= eol <= |h| && TextEnd(h, eol) == TextEnd(h, line)
    {
      eol := eol + 1;
    }
  }

  method FindNextLine(h: seq<char>, start: nat) returns (line: nat)
    requires start <= |h|
    ensures line == NextLine(h, start)
  {
    line := start;
    while line < |h| && h[line] != '\n'
      invariant start <= line <= |h| && NextLine(h, line) == NextLine(h, start)
    {
      line := line + 1;
    }
    line := line + 1;
  }

  /** The header loop of sniff_headers, over the head of the buffer. */
  method SniffLines(h: seq<char>) returns (f: Frame)
    ensures f == Fold(NO_FRAME, Lines(h, 0))
  {
    f := NO_FRAME;
    var line := 0;
    while line < |h|
      invariant 0 <= line <= |h| + 1
      invariant Fold(f, Lines(h, line)) == Fold(NO_FRAME, Lines(h, 0))
    {
      var eol := FindTextEnd(h, line);
      FoldFirst(f, h[line..eol], Lines(h, NextLine(h, line)));
      f := ApplyLine(f, h[line..eol]);
      line := FindNextLine(h, line);
    }
  }

  lemma FoldFirst(f: Frame, l: seq<char>, ls: seq<seq<char>>)
    ensures Fold(f, [l] + ls) == Fold(Apply(f, l), ls)
  {
    assert ([l] + ls)[1..] == ls;
  }

  lemma AppendStep(now: seq<char>, n: nat, head: seq<char>, rx: seq<char>, i: nat)
    requires n < |now| && i < |rx| && now[..n] == head + rx[..i]
    ensures now[n := rx[i]][..n + 1] == head + rx[..i + 1]
  {
  }

  class Receiver {
    const raw: array<char>
    var rawLen: nat
    var bodyStart: int
    var bodyExpected: int
    var bodyChunked: bool

    /** The bytes received so far, of the current request. */
    ghost function Bytes(): seq<char>
      requires rawLen <= raw.Length
      reads this, raw
    { raw[..rawLen] }

    /** The sniffed fields are unset, or say what the bytes say. */
    ghost predicate Valid()
      reads this, raw
    {
      raw.Length == RAW_MAX && rawLen <= RAW_MAX - 1
      && if bodyStart < 0 then bodyStart == -1 && Frame(bodyExpected, bodyChunked) == NO_FRAME
         else Sniff(Bytes()) == Sniffed(bodyStart, Frame(bodyExpected, bodyChunked))
    }

    constructor ()
      ensures Valid() && Bytes() == [] && fresh(raw)
    {
      raw := new char[RAW_MAX];
      rawLen, bodyStart, bodyExpected, bodyChunked := 0, -1, -1, false;
    }

    /** One read: what fits is appended, the rest of the read is dropped. */
    method Receive(rx: seq<char>) returns (copy: nat)
      requires Valid()
      modifies this`rawLen, raw
      ensures Valid() && copy <= |rx| && (copy < |rx| ==> rawLen == RAW_MAX - 1)
      ensures Bytes() == old(Bytes()) + rx[..copy]
    {
      copy := |rx|;
      if rawLen + copy >= RAW_MAX - 1 { copy := RAW_MAX - 1 - rawLen; }
      CopyIn(rx, copy);
      SniffGrows(Bytes(), rx[..copy]);
      rawLen := rawLen + copy;
    }

    method CopyIn(rx: seq<char>, copy: nat)
      requires rawLen + copy <= raw.Length && copy <= |rx|
      modifies raw
      ensures raw[..rawLen + copy] == old(raw[..rawLen]) + rx[..copy] && raw[..rawLen] == old(raw[..rawLen])
    {
      ghost var was := raw[..rawLen];
      var i := 0;
      while i < copy
        invariant 0 <= i <= copy && raw[..][..rawLen + i] == was + rx[..i]
      {
        AppendStep(raw[..], rawLen + i, was, rx, i);
        raw[rawLen + i] := rx[i];
        i := i + 1;
      }
      assert raw[..rawLen] == raw[..rawLen + copy][..rawLen];
    }

    method FindBlank() returns (e: int)
      requires Valid()
      ensures e == HeaderEnd(Bytes())
    {
      var j := 0;
      while j + 3 < rawLen
        invariant 0 <= j && BlankFrom(Bytes(), j) == HeaderEnd(Bytes())
      {
        if raw[j] == '\r' && raw[j + 1] == '\n' && raw[j + 2] == '\r' && raw[j + 3] == '\n' {
          assert BlankAt(Bytes(), j);
          return j + 4;
        }
        assert !BlankAt(Bytes(), j);
        j := j + 1;
      }
      return -1;
    }

    method SniffHeaders()
      requires Valid()
      modifies this`bodyStart, this`bodyExpected, this`bodyChunked
      ensures Valid() && (bodyStart < 0 <==> Sniff(Bytes()).Pending?)
    {
      if bodyStart >= 0 { return; }
      if rawLen < 5 || !StartsCi(raw[..rawLen], "HTTP/") { return; }
      var end := FindBlank();
      if end < 0 { return; }
      bodyStart := end;
      var f := SniffLines(raw[..end]);
      assert Bytes()[..end] == raw[..end];
      bodyExpected, bodyChunked := f.expected, f.chunked;
    }

    method ResponseComplete() returns (c: bool)
      requires Valid()
      modifies this`bodyStart, this`bodyExpected, this`bodyChunked, raw
      ensures Valid() && Bytes() == old(Bytes()) && c == Complete(Bytes())
    {
      SniffHeaders();
      if bodyStart < 0 { return false; }
      if bodyChunked {
        assert raw[bodyStart..rawLen] == Bytes()[bodyStart..];
        var len;
        c, len := Chunked.ChunkWalk(raw, bodyStart, rawLen, false);
        assert raw[..rawLen] == raw[..][..rawLen];
        return c;
      }
      return bodyExpected >= 0 && rawLen - bodyStart >= bodyExpected;
    }

    /** parse_response up to the call of the renderer: the bytes it is given.  A chunked body
        is decoded over itself in the buffer first. */
    method ParseResponse() returns (body: seq<char>)
      requires Valid()
      modifies this`bodyStart, this`bodyExpected, this`bodyChunked, raw
      ensures body == Rendered(old(Bytes()))
    {
      SniffHeaders();
      ghost var b := Bytes();
      if rawLen > 5 && raw[..5] == "HTTP/" {
        HttpStarts(b, raw[..5]);
        var start := FindBlank();
        if start < 0 { start := rawLen; }
        if bodyChunked {
          assert raw[start..rawLen] == b[start..];
          ghost var was := raw[..];
          var done, len := Chunked.ChunkWalk(raw, start, rawLen, true);
          Chunked.OverlayBody(was, start, Decoded(b, start).body);
          body := raw[..][start..start + len];
        } else {
          var blen := rawLen - start;
          if 0 <= bodyExpected < blen { blen := bodyExpected; }
          body := raw[..rawLen][start..start + blen];
        }
      } else {
        assert rawLen > 5 ==> b[..5] == raw[..5];
        body := raw[..rawLen];
      }
    }
  }

  lemma HttpStarts(b: seq<char>, five: seq<char>)
    requires |b| > 5 && five == b[..5] == "HTTP/"
    ensures IsHttp(b) && StartsCi(b, "HTTP/")
  {
    assert b[0] == 'H' && b[1] == 'T' && b[2] == 'T' && b[3] == 'P' && b[4] == '/';
  }
}
