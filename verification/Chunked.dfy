/**
  Chunked transfer coding (section 7.1 of RFC 9112) as the browser decodes it: a pure
  decoder over the bytes not yet read, and the in-place loop that refines it.
*/
module Chunked {
  import opened Ascii

  const MAX_UINT := 0xFFFF_FFFF

  // ---- the decoder --------------------------------------------------------------------

  /** `done` once the zero-length chunk was seen; `body` is the decoded data. */
  datatype Walked = Walked(done: bool, body: seq<char>)

  function SkipCrlf(u: seq<char>): (r: seq<char>)
    ensures |r| <= |u|
  {
    if |u| >= 2 && u[0] == '\r' && u[1] == '\n' then SkipCrlf(u[2..]) else u
  }

  /** A chunk size and the bytes after it; Bad is the guard against a size that does not fit. */
  datatype Size = Bad | Size(value: nat, digits: nat, rest: seq<char>)

  function ReadSize(u: seq<char>, value: nat, digits: nat): (s: Size)
    ensures s.Size? ==> |s.rest| + s.digits == |u| + digits && digits <= s.digits
    ensures s.Size? && value <= MAX_UINT ==> s.value <= MAX_UINT
  {
    if u == [] || HexVal(u[0]) < 0 then Size(value, digits, u)
    else if value > (MAX_UINT - HexVal(u[0])) / 16 then Bad
    else if digits + 1 > 8 then Bad
    else ReadSize(u[1..], value * 16 + HexVal(u[0]), digits + 1)
  }

  /** The bytes after the first line feed. */
  datatype Line = Unfinished | Line(rest: seq<char>)

  function AfterLine(u: seq<char>): (l: Line)
    ensures l.Line? ==> |l.rest| < |u|
  {
    if u == [] then Unfinished else if u[0] == '\n' then Line(u[1..]) else AfterLine(u[1..])
  }

  /** What the next chunk header says: nothing decodable (yet), the last chunk, or a chunk
      of `size` bytes whose data starts at `rest`. */
  datatype Head = Stop | Final | Chunk(size: nat, rest: seq<char>)

  function ReadHead(bytes: seq<char>): (h: Head)
    ensures h.Chunk? ==> 0 < h.size <= MAX_UINT && |h.rest| < |bytes|
  {
    var u := SkipCrlf(bytes);
    if u == [] then Stop else
    var s := ReadSize(u, 0, 0);
    if s.Bad? || s.digits == 0 then Stop else
    var l := AfterLine(s.rest);
    if l.Unfinished? then Stop else if s.value == 0 then Final else Chunk(s.value, l.rest)
  }

  function Walk(bytes: seq<char>): (w: Walked)
    ensures |w.body| <= |bytes|
    decreases |bytes|
  {
    match ReadHead(bytes)
    case Stop => Walked(false, [])
    case Final => Walked(true, [])
    case Chunk(n, rest) =>
      if n > |rest| then Walked(false, rest)
      else
        var more := Walk(rest[n..]);
        Walked(more.done, rest[..n] + more.body)
  }

  // ---- the loop -----------------------------------------------------------------------

  method SkipCrlfAt(buf: array<char>, start: nat, end: nat) returns (r: nat)
    requires start <= end <= buf.Length
    ensures start <= r <= end && SkipCrlf(buf[start..end]) == buf[r..end]
  {
    r := start;
    while r + 1 < end && buf[r] == '\r' && buf[r + 1] == '\n'
      invariant start <= r <= end && SkipCrlf(buf[start..end]) == SkipCrlf(buf[r..end])
    {
      assert buf[r..end][2..] == buf[r + 2..end];
      r := r + 2;
    }
  }

  method ReadSizeAt(buf: array<char>, start: nat, end: nat) returns (ok: bool, sz: nat, digits: nat, r: nat)
    requires start <= end <= buf.Length
    ensures ok ==> start <= r <= end
    ensures ReadSize(buf[start..end], 0, 0) == if ok then Size(sz, digits, buf[r..end]) else Bad
    ensures ok ==> sz <= MAX_UINT
  {
    sz, digits, r := 0, 0, start;
    while r < end
      invariant start <= r <= end && sz <= MAX_UINT && digits <= 8
      invariant ReadSize(buf[start..end], 0, 0) == ReadSize(buf[r..end], sz, digits)
    {
      var d := HexVal(buf[r]);
      if d < 0 { break; }
      assert buf[r..end][0] == buf[r] && buf[r..end][1..] == buf[r + 1..end];
      if sz > (MAX_UINT - d) / 16 { return false, sz, digits, r; }
      sz := sz * 16 + d;
      r := r + 1;
      digits := digits + 1;
      if digits > 8 { return false, sz, digits, r; }
    }
    return true, sz, digits, r;
  }

  method AfterLineAt(buf: array<char>, start: nat, end: nat) returns (r: nat)
    requires start <= end <= buf.Length
    ensures start <= r <= end
    ensures AfterLine(buf[start..end]) == if r < end then Line(buf[r + 1..end]) else Unfinished
  {
    r := start;
    while r < end && buf[r] != '\n'
      invariant start <= r <= end && AfterLine(buf[start..end]) == AfterLine(buf[r..end])
    {
      assert buf[r..end][1..] == buf[r + 1..end];
      r := r + 1;
    }
    if r < end { assert buf[r..end][1..] == buf[r + 1..end]; }
  }

  /** Forward copy to a lower or equal index: every source byte is read before the write
      cursor reaches it. */
  method CopyDown(buf: array<char>, to: nat, src: nat, n: nat)
    requires to <= src && src + n <= buf.Length
    modifies buf
    ensures buf[..] == old(buf[..to]) + old(buf[src..src + n]) + old(buf[to + n..])
  {
    ghost var was := buf[..];
    var i := 0;
    while i < n
      invariant 0 <= i <= n
      invariant Copied(buf[..], was, to, src, i)
    {
      CopyStep(buf[..], was, to, src, i);
      buf[to + i] := buf[src + i];
      i := i + 1;
    }
    CopiedIs(buf[..], was, to, src, n);
  }

  /** `now` is `was` with n bytes moved down from src to `to`. */
  predicate Copied(now: seq<char>, was: seq<char>, to: nat, src: nat, n: nat)
    requires to <= src && src + n <= |was|
  {
    |now| == |was|
    && forall k :: 0 <= k < |now| ==> now[k] == was[if to <= k < to + n then k - to + src else k]
  }

  lemma CopyStep(now: seq<char>, was: seq<char>, to: nat, src: nat, i: nat)
    requires to <= src && src + i < |was| && Copied(now, was, to, src, i)
    ensures Copied(now[to + i := now[src + i]], was, to, src, i + 1)
  {
  }

  lemma CopiedIs(now: seq<char>, was: seq<char>, to: nat, src: nat, n: nat)
    requires to <= src && src + n <= |was| && Copied(now, was, to, src, n)
    ensures now == was[..to] + was[src..src + n] + was[to + n..]
  {
  }

  /** `was` with `body` written over it from index `from` on. */
  function Overlay(was: seq<char>, from: nat, body: seq<char>): seq<char>
    requires from + |body| <= |was|
  { was[..from] + body + was[from + |body|..] }

  /** Past the write cursor nothing has changed. */
  lemma OverlayTail(was: seq<char>, from: nat, body: seq<char>, r: nat, end: nat)
    requires from + |body| <= r <= end <= |was|
    ensures Overlay(was, from, body)[r..end] == was[r..end]
  {
  }

  lemma OverlayBody(was: seq<char>, from: nat, body: seq<char>)
    requires from + |body| <= |was|
    ensures Overlay(was, from, body)[from..from + |body|] == body
  {
  }

  lemma OverlayCopy(was: seq<char>, from: nat, body: seq<char>, r: nat, n: nat)
    requires from + |body| <= r && r + n <= |was|
    ensures var now, to := Overlay(was, from, body), from + |body|;
      now[..to] + now[r..r + n] + now[to + n..] == Overlay(was, from, body + was[r..r + n])
  {
    var now, to := Overlay(was, from, body), from + |body|;
    assert now[..to] == was[..from] + body;
    OverlayTail(was, from, body, r, r + n);
    OverlayTail(was, from, body, to + n, |was|);
  }

  method CopyChunk(buf: array<char>, from: nat, w: nat, r: nat, n: nat, ghost was: seq<char>, ghost body: seq<char>)
    requires w == |body| && from + w <= r && r + n <= buf.Length == |was| && buf[..] == Overlay(was, from, body)
    modifies buf
    ensures buf[..] == Overlay(was, from, body + was[r..r + n])
  {
    OverlayCopy(was, from, body, r, n);
    ghost var now := buf[..];
    CopyDown(buf, from + w, r, n);
    assert buf[..] == now[..from + w] + now[r..r + n] + now[from + w + n..];
  }

  method ReadHeadAt(buf: array<char>, start: nat, end: nat) returns (code: int, sz: nat, r: nat)
    requires start <= end <= buf.Length
    ensures 0 <= code <= 2 && (code == 2 ==> start < r <= end)
    ensures ReadHead(buf[start..end]) == if code == 0 then Stop else if code == 1 then Final else Chunk(sz, buf[r..end])
  {
    r := SkipCrlfAt(buf, start, end);
    if r >= end { return 0, 0, r; }
    var ok, size, digits, q := ReadSizeAt(buf, r, end);
    if !ok || digits == 0 { return 0, 0, r; }
    r := AfterLineAt(buf, q, end);
    if r >= end { return 0, 0, r; }
    return if size == 0 then 1 else 2, size, r + 1;
  }

  /** The buffer while r bytes are read and `body` is decoded: only the decoded prefix may
      differ from the bytes as received, and it never reaches the unread part. */
  predicate Decoding(now: seq<char>, was: seq<char>, from: nat, end: nat, r: nat, body: seq<char>, inPlace: bool) {
    |now| == |was| && from + |body| <= r <= end <= |was|
    && now == if inPlace then Overlay(was, from, body) else was
  }

  lemma SliceParts(s: seq<char>, q: nat, n: nat, end: nat)
    requires q + n <= end <= |s|
    ensures s[q..q + n] == s[q..end][..n] && s[q + n..end] == s[q..end][n..]
  {
  }

  /** One round of the loop: read a header and, for a chunk, move what has arrived of it. */
  method WalkOne(buf: array<char>, from: nat, end: nat, inPlace: bool, r: nat, w: nat,
                 ghost was: seq<char>, ghost body: seq<char>)
    returns (code: int, short: bool, r': nat, w': nat, ghost more: seq<char>)
    requires Decoding(buf[..], was, from, end, r, body, inPlace) && w == |body|
    modifies buf
    ensures 0 <= code <= 2 && w' == |body + more| && (code < 2 ==> more == [] && !short) && (code == 2 ==> r < r')
    ensures Decoding(buf[..], was, from, end, r', body + more, inPlace)
    ensures match ReadHead(was[r..end])
            case Stop => code == 0
            case Final => code == 1
            case Chunk(n, rest) => (code == 2 && short == (n > |rest|)
                && if short then more == rest else more == rest[..n] && was[r'..end] == rest[n..])
  {
    assert buf[r..end] == was[r..end] by {
      OverlayTail(was, from, body, r, end);
      assert buf[r..end] == buf[..][r..end];
    }
    var sz, q;
    code, sz, q := ReadHeadAt(buf, r, end);
    short, r', w', more := false, r, w, [];
    assert body + more == body;
    if code == 2 {
      assert buf[q..end] == was[q..end] by {
        OverlayTail(was, from, body, q, end);
        assert buf[q..end] == buf[..][q..end];
      }
      short := sz > end - q;
      var take := if short then end - q else sz;
      more := was[q..q + take];
      if inPlace { CopyChunk(buf, from, w, q, take, was, body); }
      assert Decoding(buf[..], was, from, end, q + take, body + more, inPlace);
      r', w' := q + take, w + take;
      SliceParts(was, q, take, end);
    }
  }

  /** chunk_walk: decodes buf[from..end).  With `inPlace` the decoded bytes are written over
      the buffer at `from`; otherwise it only measures.  Either way flag and length are those
      of the pure decoder on the bytes as received, and no byte outside the decoded prefix
      changes. */
  method ChunkWalk(buf: array<char>, from: nat, end: nat, inPlace: bool) returns (done: bool, len: nat)
    requires from <= end <= buf.Length
    modifies buf
    ensures var d := Walk(old(buf[from..end]));
      done == d.done && len == |d.body|
      && buf[..] == if inPlace then Overlay(old(buf[..]), from, d.body) else old(buf[..])
  {
    ghost var was := buf[..];
    ghost var total, body := Walk(was[from..end]), [];
    var r, w := from, 0;
    assert was[from..end] == buf[from..end] && Overlay(was, from, []) == was;
    while true
      invariant Decoding(buf[..], was, from, end, r, body, inPlace) && w == |body|
      invariant total == Prepend(body, Walk(was[r..end]))
      decreases end - r
    {
      ghost var u := was[r..end];
      ghost var more;
      var code, short;
      code, short, r, w, more := WalkOne(buf, from, end, inPlace, r, w, was, body);
      if code == 2 { Advance(u, ReadHead(u).size, ReadHead(u).rest, body); }
      body := body + more;
      if code == 0 || short { return false, w; }
      if code == 1 { return true, w; }
    }
  }

  function Prepend(body: seq<char>, w: Walked): Walked { Walked(w.done, body + w.body) }

  /** One chunk moves its data from the undecoded side to the decoded side. */
  lemma Advance(u: seq<char>, n: nat, rest: seq<char>, body: seq<char>)
    requires ReadHead(u) == Chunk(n, rest)
    ensures n > |rest| ==> Prepend(body, Walk(u)) == Walked(false, body + rest[..|rest|])
    ensures n <= |rest| ==> Prepend(body, Walk(u)) == Prepend(body + rest[..n], Walk(rest[n..]))
  {
    assert rest[..|rest|] == rest;
    if n <= |rest| { assert body + (rest[..n] + Walk(rest[n..]).body) == body + rest[..n] + Walk(rest[n..]).body; }
  }
}
