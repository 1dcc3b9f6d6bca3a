/** Laws of the chunk decoder: it does not depend on how the stream was cut into reads, and
    it inverts the encoding of section 7.1 of RFC 9112. */
module ChunkedLaws {
  import opened Ascii
  import opened AsciiLaws
  import opened Chunked

  // ---- growing the stream -------------------------------------------------------------

  lemma {:induction false} SkipGrows(u: seq<char>, x: seq<char>)
    ensures SkipCrlf(u + x) == SkipCrlf(SkipCrlf(u) + x)
  {
    if |u| >= 2 && u[0] == '\r' && u[1] == '\n' {
      SkipGrows(u[2..], x);
      assert (u + x)[2..] == u[2..] + x;
    }
  }

  lemma {:induction false} SizeGrows(u: seq<char>, x: seq<char>, v: nat, d: nat)
    ensures var s := ReadSize(u, v, d);
      if s.Bad? then ReadSize(u + x, v, d) == Bad
      else s.rest != [] ==> ReadSize(u + x, v, d) == Size(s.value, s.digits, s.rest + x)
  {
    if u != [] && HexVal(u[0]) >= 0 && v <= (MAX_UINT - HexVal(u[0])) / 16 && d + 1 <= 8 {
      SizeGrows(u[1..], x, v * 16 + HexVal(u[0]), d + 1);
      assert (u + x)[1..] == u[1..] + x;
    }
  }

  lemma {:induction false} LineGrows(u: seq<char>, x: seq<char>)
    ensures var l := AfterLine(u); l.Line? ==> AfterLine(u + x) == Line(l.rest + x)
  {
    if u != [] {
      assert (u + x)[1..] == u[1..] + x;
      if u[0] != '\n' { LineGrows(u[1..], x); }
    }
  }

  /** What is there is not a chunk header and cannot become one: no hexadecimal digit, or a
      size that does not fit.  A lone CR may still turn out to be a line end. */
  predicate Rejected(bytes: seq<char>) {
    var u := SkipCrlf(bytes);
    u != [] && u != ['\r'] && (ReadSize(u, 0, 0).Bad? || ReadSize(u, 0, 0).digits == 0)
  }

  lemma {:induction false} SkipStops(u: seq<char>)
    ensures var r := SkipCrlf(u); !(|r| >= 2 && r[0] == '\r' && r[1] == '\n')
  {
    if |u| >= 2 && u[0] == '\r' && u[1] == '\n' { SkipStops(u[2..]); }
  }

  /** A rejection is final. */
  lemma RejectionGrows(u: seq<char>, x: seq<char>)
    requires Rejected(u)
    ensures Rejected(u + x) && ReadHead(u + x) == Stop
  {
    var r := SkipCrlf(u);
    SkipGrows(u, x);
    SkipStops(u);
    assert r[0] == '\r' ==> |r| >= 2;
    assert SkipCrlf(r + x) == r + x;
    SizeGrows(r, x, 0, 0);
    assert (r + x)[0] == r[0];
    if ReadSize(r, 0, 0).Size? { assert HexVal(r[0]) < 0; }
  }

  /** A header that could be read stays what it is when more bytes arrive, and so does a
      rejection. */
  lemma HeadGrows(u: seq<char>, x: seq<char>)
    ensures Rejected(u) ==> Rejected(u + x) && ReadHead(u) == ReadHead(u + x) == Stop
    ensures var h := ReadHead(u);
      match h
      case Stop => true
      case Final => ReadHead(u + x) == Final
      case Chunk(n, rest) => ReadHead(u + x) == Chunk(n, rest + x)
  {
    if Rejected(u) { RejectionGrows(u, x); }
    var r := SkipCrlf(u);
    SkipGrows(u, x);
    if r != [] {
      SizeGrows(r, x, 0, 0);
      var s := ReadSize(r, 0, 0);
      if s.Size? && s.digits > 0 {
        assert HexVal(r[0]) >= 0;
        assert SkipCrlf(r + x) == r + x;
        LineGrows(s.rest, x);
      }
    }
  }

  /** Decoding a prefix of the stream yields a prefix of the decoding, and a complete
      decoding is final: whatever follows cannot change it. */
  lemma {:induction false} WalkGrows(u: seq<char>, x: seq<char>)
    ensures Walk(u).body <= Walk(u + x).body
    ensures Walk(u).done ==> Walk(u + x) == Walk(u)
    decreases |u|
  {
    HeadGrows(u, x);
    var h := ReadHead(u);
    if h.Chunk? {
      if h.size <= |h.rest| {
        WalkGrows(h.rest[h.size..], x);
        assert (h.rest + x)[..h.size] == h.rest[..h.size] && (h.rest + x)[h.size..] == h.rest[h.size..] + x;
      } else if h.size <= |h.rest + x| {
        assert (h.rest + x)[..h.size][..|h.rest|] == h.rest;
      }
    }
  }

  // ---- the coding itself --------------------------------------------------------------

  /** One chunk on the wire: size digits, extension, data. */
  datatype Piece = Piece(size: seq<char>, ext: seq<char>, data: seq<char>)

  function HexNumber(s: seq<char>, acc: nat): nat
    requires forall k :: 0 <= k < |s| ==> HexVal(s[k]) >= 0
  { if s == [] then acc else HexNumber(s[1..], acc * 16 + HexVal(s[0])) }

  predicate IsHex(c: char) { c in HEX_LOWER || c in HEX_UPPER }

  predicate Extension(ext: seq<char>) {
    (forall k :: 0 <= k < |ext| ==> ext[k] != '\n') && (ext != [] ==> !IsHex(ext[0]))
  }

  /** s is the number n in hexadecimal: digits of either case, leading zeros allowed. */
  predicate Spells(s: seq<char>, n: nat) {
    if s == [] then n == 0
    else var c, d := s[|s| - 1], n % 16; (c == HEX_LOWER[d] || c == HEX_UPPER[d]) && Spells(s[..|s| - 1], n / 16)
  }

  predicate WellFormed(p: Piece) { 1 <= |p.size| <= 8 && Spells(p.size, |p.data|) && Extension(p.ext) }

  lemma {:induction false} HexSnoc(s: seq<char>, c: char, acc: nat)
    requires HexVal(c) >= 0 && forall k :: 0 <= k < |s| ==> HexVal(s[k]) >= 0
    ensures HexNumber(s + [c], acc) == HexNumber(s, acc) * 16 + HexVal(c)
  {
    if s == [] {
      assert s + [c] == [c] && [c][1..] == [];
    } else {
      HexSnoc(s[1..], c, acc * 16 + HexVal(s[0]));
      assert (s + [c])[1..] == s[1..] + [c];
    }
  }

  /** The value of a digit string is the number it spells. */
  lemma {:induction false} SpellsNumber(s: seq<char>, n: nat)
    requires Spells(s, n)
    ensures (forall k :: 0 <= k < |s| ==> HexVal(s[k]) >= 0) && HexNumber(s, 0) == n
    decreases |s|
  {
    if s != [] {
      var t, c := s[..|s| - 1], s[|s| - 1];
      SpellsNumber(t, n / 16);
      HexDigits(n % 16);
      HexSnoc(t, c, 0);
      assert s == t + [c];
    }
  }

  function Header(p: Piece): seq<char> { p.size + p.ext + ['\r', '\n'] }

  /** The chunks, then a chunk of size zero, then anything at all as the trailer. */
  function Encode(ps: seq<Piece>, last: Piece, trailer: seq<char>): seq<char> {
    if ps == [] then Header(last) + trailer
    else Header(ps[0]) + ps[0].data + ['\r', '\n'] + Encode(ps[1..], last, trailer)
  }

  function Data(ps: seq<Piece>): seq<char> { if ps == [] then [] else ps[0].data + Data(ps[1..]) }

  function Pow16(d: nat): nat { if d == 0 then 1 else 16 * Pow16(d - 1) }

  /** A size of up to eight digits is read as the number it spells: no digit is misread, the guard
      is never tripped, the 32-bit size cannot wrap. */
  lemma SizeExact(s: seq<char>, n: nat, rest: seq<char>)
    requires |s| <= 8 && Spells(s, n) && (rest != [] ==> !IsHex(rest[0]))
    ensures ReadSize(s + rest, 0, 0) == Size(n, |s|, rest)
  {
    SpellsNumber(s, n);
    if rest != [] { HexOnly(rest[0]); }
    SizeReads(s, rest, 0, 0);
  }

  lemma {:induction false} SizeReads(s: seq<char>, rest: seq<char>, v: nat, d: nat)
    requires forall k :: 0 <= k < |s| ==> HexVal(s[k]) >= 0
    requires d + |s| <= 8 && v < Pow16(d) && (rest != [] ==> HexVal(rest[0]) < 0)
    ensures ReadSize(s + rest, v, d) == Size(HexNumber(s, v), d + |s|, rest)
  {
    if s == [] {
      assert s + rest == rest;
    } else {
      NoWrap(v, d, HexVal(s[0]));
      assert (s + rest)[1..] == s[1..] + rest;
      SizeReads(s[1..], rest, v * 16 + HexVal(s[0]), d + 1);
    }
  }

  /** Nine or more digits are refused, whatever they say. */
  lemma {:induction false} TooManyDigits(u: seq<char>, v: nat, d: nat)
    requires d <= 8 && |u| >= 9 - d && forall k :: 0 <= k < 9 - d ==> IsHex(u[k])
    ensures ReadSize(u, v, d).Bad?
    decreases 9 - d
  {
    HexOnly(u[0]);
    if d < 8 && v <= (MAX_UINT - HexVal(u[0])) / 16 { TooManyDigits(u[1..], v * 16 + HexVal(u[0]), d + 1); }
  }

  lemma NoWrap(v: nat, d: nat, x: int)
    requires d <= 7 && v < Pow16(d) && 0 <= x < 16
    ensures v <= (MAX_UINT - x) / 16 && v * 16 + x < Pow16(d + 1)
  {
    assert Pow16(7) == 0x1000_0000;
    PowGrows(d, 7);
  }

  lemma {:induction false} PowGrows(d: nat, e: nat)
    requires d <= e
    ensures Pow16(d) <= Pow16(e)
  {
    if d < e { PowGrows(d, e - 1); }
  }

  lemma {:induction false} LineExact(a: seq<char>, rest: seq<char>)
    requires forall k :: 0 <= k < |a| ==> a[k] != '\n'
    ensures AfterLine(a + ['\n'] + rest) == Line(rest)
  {
    var u := a + ['\n'] + rest;
    if a == [] {
      assert u[1..] == rest;
    } else {
      LineExact(a[1..], rest);
      assert u[1..] == a[1..] + ['\n'] + rest;
    }
  }

  lemma HeadExact(p: Piece, rest: seq<char>)
    requires WellFormed(p)
    ensures ReadHead(Header(p) + rest) == if |p.data| == 0 then Final else Chunk(|p.data|, rest)
    ensures SkipCrlf(Header(p) + rest) == Header(p) + rest
  {
    var u := Header(p) + rest;
    var tail := p.ext + ['\r', '\n'] + rest;
    assert u == p.size + tail;
    assert u[0] == p.size[0] && tail[0] == (if p.ext == [] then '\r' else p.ext[0]);
    SpellsNumber(p.size, |p.data|);
    SizeExact(p.size, |p.data|, tail);
    assert tail == (p.ext + ['\r']) + ['\n'] + rest;
    LineExact(p.ext + ['\r'], rest);
  }

  lemma BetweenChunks(u: seq<char>)
    requires SkipCrlf(u) == u
    ensures SkipCrlf(['\r', '\n'] + u) == u && Walk(['\r', '\n'] + u) == Walk(u)
  {
    assert (['\r', '\n'] + u)[2..] == u;
    assert ReadHead(['\r', '\n'] + u) == ReadHead(u);
  }

  lemma {:induction false} EncodeStarts(ps: seq<Piece>, last: Piece, trailer: seq<char>)
    requires forall i :: 0 <= i < |ps| ==> WellFormed(ps[i])
    requires WellFormed(last)
    ensures SkipCrlf(Encode(ps, last, trailer)) == Encode(ps, last, trailer)
  {
    if ps == [] {
      HeadExact(last, trailer);
    } else {
      var rest := ps[0].data + ['\r', '\n'] + Encode(ps[1..], last, trailer);
      assert Encode(ps, last, trailer) == Header(ps[0]) + rest;
      HeadExact(ps[0], rest);
    }
  }

  /** A chunk in front of a stream adds its data to the decoding. */
  lemma ChunkFirst(q: Piece, more: seq<char>, u: seq<char>)
    requires WellFormed(q) && q.data != [] && SkipCrlf(more) == more
    requires u == Header(q) + (q.data + (['\r', '\n'] + more))
    ensures Walk(u) == Walked(Walk(more).done, q.data + Walk(more).body)
  {
    var rest := q.data + (['\r', '\n'] + more);
    HeadExact(q, rest);
    assert rest[..|q.data|] == q.data && rest[|q.data|..] == ['\r', '\n'] + more;
    BetweenChunks(more);
  }

  /** Round trip: decoding an encoding is complete and gives back exactly the data. */
  lemma {:induction false} RoundTrip(ps: seq<Piece>, last: Piece, trailer: seq<char>)
    requires forall i :: 0 <= i < |ps| ==> WellFormed(ps[i]) && ps[i].data != []
    requires WellFormed(last) && last.data == []
    ensures Walk(Encode(ps, last, trailer)) == Walked(true, Data(ps))
  {
    if ps == [] {
      HeadExact(last, trailer);
    } else {
      var more, u := Encode(ps[1..], last, trailer), Encode(ps, last, trailer);
      EncodeStarts(ps[1..], last, trailer);
      RoundTrip(ps[1..], last, trailer);
      Nested(Header(ps[0]), ps[0].data, ['\r', '\n'], more);
      ChunkFirst(ps[0], more, u);
    }
  }

  lemma Nested(a: seq<char>, b: seq<char>, c: seq<char>, d: seq<char>)
    ensures a + b + c + d == a + (b + (c + d))
  {
  }

  /** Any stream that begins with an encoding decodes to it, however much follows. */
  lemma RoundTripInStream(ps: seq<Piece>, last: Piece, trailer: seq<char>, more: seq<char>)
    requires forall i :: 0 <= i < |ps| ==> WellFormed(ps[i]) && ps[i].data != []
    requires WellFormed(last) && last.data == []
    ensures Walk(Encode(ps, last, trailer) + more) == Walked(true, Data(ps))
  {
    RoundTrip(ps, last, trailer);
    WalkGrows(Encode(ps, last, trailer), more);
  }

  // ---- printed sizes ------------------------------------------------------------------

  /** n in hexadecimal without leading zeros, in one case or the other. */
  function PrintHex(n: nat, upper: bool): (s: seq<char>)
    ensures |s| >= 1
  {
    var digit := [if upper then HEX_UPPER[n % 16] else HEX_LOWER[n % 16]];
    if n < 16 then digit else PrintHex(n / 16, upper) + digit
  }

  lemma {:induction false} PrintHexSpells(n: nat, upper: bool)
    ensures Spells(PrintHex(n, upper), n)
  {
    var s := PrintHex(n, upper);
    if n < 16 {
      assert s[..|s| - 1] == [];
    } else {
      PrintHexSpells(n / 16, upper);
      assert s[..|s| - 1] == PrintHex(n / 16, upper);
    }
  }

  lemma {:induction false} PrintHexShort(n: nat, upper: bool, k: nat)
    requires k >= 1 && n < Pow16(k)
    ensures |PrintHex(n, upper)| <= k
  {
    if n >= 16 { PrintHexShort(n / 16, upper, k - 1); }
  }

  /** A chunk as a server writes it: the size printed in hexadecimal. */
  predicate AsPrinted(p: Piece) {
    |p.data| <= 0xFFFF_FFFF && Extension(p.ext)
    && (p.size == PrintHex(|p.data|, false) || p.size == PrintHex(|p.data|, true))
  }

  lemma PrintedIsWellFormed(p: Piece)
    requires AsPrinted(p)
    ensures WellFormed(p)
  {
    PrintHexSpells(|p.data|, false);
    PrintHexSpells(|p.data|, true);
    assert Pow16(8) == 0x1_0000_0000 by { assert Pow16(4) == 0x1_0000; }
    PrintHexShort(|p.data|, false, 8);
    PrintHexShort(|p.data|, true, 8);
  }

  /** Chunks of any size that 32 bits can say come back from their printed encoding. */
  lemma PrintedRoundTrip(ps: seq<Piece>, last: Piece, trailer: seq<char>)
    requires forall i :: 0 <= i < |ps| ==> AsPrinted(ps[i]) && ps[i].data != []
    requires AsPrinted(last) && last.data == []
    ensures Walk(Encode(ps, last, trailer)) == Walked(true, Data(ps))
  {
    forall i | 0 <= i < |ps| ensures WellFormed(ps[i]) { PrintedIsWellFormed(ps[i]); }
    PrintedIsWellFormed(last);
    RoundTrip(ps, last, trailer);
  }

  // ---- a stream that breaks off -------------------------------------------------------

  /** Whole chunks, without the end. */
  function Chunks(ps: seq<Piece>): seq<char> {
    if ps == [] then [] else Header(ps[0]) + ps[0].data + ['\r', '\n'] + Chunks(ps[1..])
  }

  lemma {:induction false} ChunksStart(ps: seq<Piece>, more: seq<char>)
    requires (forall i :: 0 <= i < |ps| ==> WellFormed(ps[i])) && SkipCrlf(more) == more
    ensures SkipCrlf(Chunks(ps) + more) == Chunks(ps) + more
  {
    if ps == [] {
      assert Chunks(ps) + more == more;
    } else {
      var rest := ps[0].data + ['\r', '\n'] + Chunks(ps[1..]) + more;
      assert Chunks(ps) + more == Header(ps[0]) + rest;
      HeadExact(ps[0], rest);
    }
  }

  lemma CutFirst(p: Piece, k: nat)
    requires WellFormed(p) && k < |p.data|
    ensures Walk(Header(p) + p.data[..k]) == Walked(false, p.data[..k])
  {
    HeadExact(p, p.data[..k]);
  }

  lemma ChunksMore(ps: seq<Piece>, end: seq<char>)
    requires ps != []
    ensures Chunks(ps) + end == Header(ps[0]) + (ps[0].data + (['\r', '\n'] + (Chunks(ps[1..]) + end)))
  {
  }

  lemma DataMore(ps: seq<Piece>, b: seq<char>)
    requires ps != []
    ensures ps[0].data + (Data(ps[1..]) + b) == Data(ps) + b
  {
  }

  /** Whole chunks in front of a stream add their data to the decoding. */
  lemma {:induction false} ChunksFirst(ps: seq<Piece>, more: seq<char>, w: Walked)
    requires forall i :: 0 <= i < |ps| ==> WellFormed(ps[i]) && ps[i].data != []
    requires SkipCrlf(more) == more && w == Walk(more)
    ensures Walk(Chunks(ps) + more) == Walked(w.done, Data(ps) + w.body)
  {
    if ps == [] {
      assert Chunks(ps) + more == more && Data(ps) + w.body == w.body;
    } else {
      ChunksStart(ps[1..], more);
      ChunksFirst(ps[1..], more, w);
      ChunksMore(ps, more);
      ChunkFirst(ps[0], Chunks(ps[1..]) + more, Chunks(ps) + more);
      DataMore(ps, w.body);
    }
  }

  /** A stream that breaks off inside a chunk decodes to everything that arrived of it. */
  lemma CutShort(ps: seq<Piece>, p: Piece, k: nat)
    requires forall i :: 0 <= i < |ps| ==> WellFormed(ps[i]) && ps[i].data != []
    requires WellFormed(p) && k < |p.data|
    ensures Walk(Chunks(ps) + (Header(p) + p.data[..k])) == Walked(false, Data(ps) + p.data[..k])
  {
    HeadExact(p, p.data[..k]);
    CutFirst(p, k);
    ChunksFirst(ps, Header(p) + p.data[..k], Walked(false, p.data[..k]));
  }
}
