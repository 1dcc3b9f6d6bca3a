/** The code behind `Url`: scanning loops with early exits, and the bounded assembly of a URL. */
module UrlCode {
  import opened Ascii
  import opened CString
  import opened Options
  import opened Url

  // ---- dotted addresses ---------------------------------------------------------------

  predicate IsOctet(s: seq<char>) { 1 <= |s| <= 3 && AllDigits(s) && Value(s) <= 255 }

  /** s[pos..e] is an octet of value v, with the dot or end that belongs after part `part`. */
  predicate OctetAt(s: seq<char>, pos: nat, e: nat, part: nat, v: nat) {
    pos <= e <= |s| && IsOctet(s[pos..e]) && Value(s[pos..e]) == v
    && if part == 3 then e == |s| else e < |s| && s[e] == '.'
  }

  lemma LastOctet(s: seq<char>, pos: nat, v: nat)
    requires OctetAt(s, pos, |s|, 3, v)
    ensures Quad(s, pos, 3) == Some([v])
  {
    DigitsEndAt(s, pos, |s|);
  }

  lemma OctetBefore(s: seq<char>, pos: nat, e: nat, part: nat, v: nat, rest: seq<nat>)
    requires part < 3 && OctetAt(s, pos, e, part, v) && Quad(s, e + 1, part + 1) == Some(rest)
    ensures Quad(s, pos, part) == Some([v] + rest)
  {
    DigitsEndAt(s, pos, e);
  }

  /** One pass of the loop, both ways. */
  lemma OctetRead(s: seq<char>, pos: nat, part: nat, ip: seq<nat>) returns (e: nat)
    requires pos <= |s| && part <= 3 && Quad(s, pos, part) == Some(ip)
    ensures ip != [] && OctetAt(s, pos, e, part, ip[0])
    ensures if part == 3 then ip == [ip[0]] && e == |s| else Quad(s, e + 1, part + 1) == Some(ip[1..])
  {
    e := DigitsEnd(s, pos);
  }

  /** The text is four octets of these values, the later three starting at p1, p2 and p3. */
  predicate FourAt(s: seq<char>, p1: nat, p2: nat, p3: nat, ip: seq<nat>) {
    |ip| == 4 && 0 < p1 && 0 < p2 && 0 < p3
    && OctetAt(s, 0, p1 - 1, 0, ip[0]) && OctetAt(s, p1, p2 - 1, 1, ip[1])
    && OctetAt(s, p2, p3 - 1, 2, ip[2]) && OctetAt(s, p3, |s|, 3, ip[3])
  }

  lemma LastTwo(s: seq<char>, p2: nat, p3: nat, u: nat, v: nat)
    requires 0 < p3 && OctetAt(s, p2, p3 - 1, 2, u) && OctetAt(s, p3, |s|, 3, v)
    ensures Quad(s, p2, 2) == Some([u, v])
  {
    LastOctet(s, p3, v);
    OctetBefore(s, p2, p3 - 1, 2, u, [v]);
    assert [u] + [v] == [u, v];
  }

  lemma LastThree(s: seq<char>, p1: nat, p2: nat, p3: nat, ip: seq<nat>)
    requires |ip| == 3 && 0 < p2 && 0 < p3 && OctetAt(s, p1, p2 - 1, 1, ip[0])
    requires OctetAt(s, p2, p3 - 1, 2, ip[1]) && OctetAt(s, p3, |s|, 3, ip[2])
    ensures Quad(s, p1, 1) == Some(ip)
  {
    var rest := [ip[1], ip[2]];
    LastTwo(s, p2, p3, ip[1], ip[2]);
    OctetBefore(s, p1, p2 - 1, 1, ip[0], rest);
    assert [ip[0]] + rest == ip;
  }

  lemma FourRead(s: seq<char>, p1: nat, p2: nat, p3: nat, ip: seq<nat>)
    requires FourAt(s, p1, p2, p3, ip)
    ensures Ip4(s) == Some(ip)
  {
    var rest := ip[1..];
    LastThree(s, p1, p2, p3, rest);
    OctetBefore(s, 0, p1 - 1, 0, ip[0], rest);
    assert [ip[0]] + rest == ip;
  }

  /** The text from pos on is the octets `part`..3 with these values. */
  ghost predicate PartsAt(s: seq<char>, pos: nat, part: nat, ip: seq<nat>)
    decreases |ip|
  {
    |ip| >= 1 && part + |ip| == 4
    && exists e: nat :: OctetAt(s, pos, e, part, ip[0]) && (part == 3 || PartsAt(s, e + 1, part + 1, ip[1..]))
  }

  lemma {:induction false} QuadParts(s: seq<char>, pos: nat, part: nat, ip: seq<nat>)
    requires pos <= |s| && part <= 3 && Quad(s, pos, part) == Some(ip)
    ensures PartsAt(s, pos, part, ip)
    decreases 3 - part
  {
    var e := OctetRead(s, pos, part, ip);
    if part < 3 { QuadParts(s, e + 1, part + 1, ip[1..]); }
  }

  lemma PartsFirst(s: seq<char>, pos: nat, part: nat, ip: seq<nat>) returns (e: nat)
    requires PartsAt(s, pos, part, ip) && part < 3
    ensures |ip| == 4 - part && OctetAt(s, pos, e, part, ip[0]) && PartsAt(s, e + 1, part + 1, ip[1..])
  {
    e :| OctetAt(s, pos, e, part, ip[0]) && PartsAt(s, e + 1, part + 1, ip[1..]);
  }

  lemma PartsLast(s: seq<char>, pos: nat, ip: seq<nat>)
    requires PartsAt(s, pos, 3, ip)
    ensures |ip| == 1 && OctetAt(s, pos, |s|, 3, ip[0])
  {
  }

  /** The last two of four. */
  lemma PartsPair(s: seq<char>, pos: nat, ip: seq<nat>) returns (e: nat)
    requires PartsAt(s, pos, 2, ip)
    ensures |ip| == 2 && OctetAt(s, pos, e, 2, ip[0]) && OctetAt(s, e + 1, |s|, 3, ip[1])
  {
    e := PartsFirst(s, pos, 2, ip);
    PartsLast(s, e + 1, ip[1..]);
  }

  lemma PartsFour(s: seq<char>, ip: seq<nat>) returns (p1: nat, p2: nat, p3: nat)
    requires PartsAt(s, 0, 0, ip)
    ensures FourAt(s, p1, p2, p3, ip)
  {
    var e0 := PartsFirst(s, 0, 0, ip);
    var r1 := ip[1..];
    var e1 := PartsFirst(s, e0 + 1, 1, r1);
    var r2 := r1[1..];
    var e2 := PartsPair(s, e1 + 1, r2);
    assert r1[0] == ip[1] && r2[0] == ip[2] && r2[1] == ip[3];
    p1, p2, p3 := e0 + 1, e1 + 1, e2 + 1;
  }

  lemma FourFound(s: seq<char>, ip: seq<nat>) returns (p1: nat, p2: nat, p3: nat)
    requires Quad(s, 0, 0) == Some(ip)
    ensures FourAt(s, p1, p2, p3, ip)
  {
    QuadParts(s, 0, 0, ip);
    p1, p2, p3 := PartsFour(s, ip);
  }

  /** A host is taken for an address exactly when it is four numbers of one to three digits, up
      to 255, with single dots between them, and then the address has those values. */
  lemma AddressMeans(s: seq<char>, ip: seq<nat>)
    ensures Ip4(s) == Some(ip) <==> exists p1, p2, p3 :: FourAt(s, p1, p2, p3, ip)
  {
    if Ip4(s) == Some(ip) {
      var p1, p2, p3 := FourFound(s, ip);
    }
    if p1, p2, p3 :| FourAt(s, p1, p2, p3, ip) {
      FourRead(s, p1, p2, p3, ip);
    }
  }

  // ---- scanning -----------------------------------------------------------------------

  /** The digit loop: stops early on too many digits or too large a value, and that early stop
      is right because reading on can only make either larger. */
  method ScanNumber(p: seq<char>, i: nat, maxDigits: nat, maxValue: nat) returns (ok: bool, v: nat, at: nat)
    requires i <= |p|
    ensures ok <==> DigitsEnd(p, i) - i <= maxDigits && Value(p[i..DigitsEnd(p, i)]) <= maxValue
    ensures ok ==> at == DigitsEnd(p, i) && v == Value(p[i..at])
  {
    ghost var e := DigitsEnd(p, i);
    v, at := 0, i;
    while at < |p| && IsDigit(p[at])
      invariant i <= at <= e && DigitsEnd(p, at) == e && AllDigits(p[i..at])
      invariant v == Value(p[i..at]) <= maxValue && at - i <= maxDigits
    {
      ValueSnoc(p, i, at);
      v := v * 10 + ValueOf(p[at]);
      at := at + 1;
      if at - i > maxDigits || v > maxValue {
        PrefixValue(p[i..e], at - i);
        assert p[i..e][..at - i] == p[i..at];
        return false, v, at;
      }
    }
    ok := true;
  }

  /** The octets read so far in front of those still to come. */
  function Prefixed(octets: seq<nat>, rest: Option<seq<nat>>): Option<seq<nat>> {
    if rest.None? then None else Some(octets + rest.value)
  }

  lemma PrefixedTwice(a: seq<nat>, b: seq<nat>, rest: Option<seq<nat>>)
    ensures Prefixed(a, Prefixed(b, rest)) == Prefixed(a + b, rest) && Prefixed([], rest) == rest
  {
    if rest.Some? { assert a + (b + rest.value) == (a + b) + rest.value && [] + rest.value == rest.value; }
  }

  /** What remains to be read after `part` octets: the rest of the address, or nothing. */
  function Remaining(s: seq<char>, pos: nat, part: nat): Option<seq<nat>>
    requires pos <= |s| && part <= 4
  { if part < 4 then Quad(s, pos, part) else if pos == |s| then Some([]) else None }

  /** One pass: an octet and, except after the last, its dot. */
  method ReadOctet(s: seq<char>, pos: nat, part: nat) returns (ok: bool, v: nat, next: nat)
    requires pos <= |s| && part <= 3
    ensures !ok ==> Remaining(s, pos, part) == None
    ensures ok ==> next <= |s| && Remaining(s, pos, part) == Prefixed([v], Remaining(s, next, part + 1))
  {
    var fits, n, at := ScanNumber(s, pos, 3, 999);
    if !fits || at == pos || n > 255 { return false, 0, pos; }
    if part < 3 {
      if at >= |s| || s[at] != '.' { return false, 0, pos; }
      at := at + 1;
    }
    assert [n] + [] == [n];
    return true, n, at;
  }

  /** parse_ip4: four passes of the digit loop with dots between them. */
  method ParseIp4(s: seq<char>) returns (ip: Option<seq<nat>>)
    ensures ip == Ip4(s)
  {
    if |s| <= 0 || |s| > 15 { return None; }
    var part: nat, pos: nat := 0, 0;
    var octets: seq<nat> := [];
    PrefixedTwice([], [], Quad(s, 0, 0));
    while part < 4
      invariant part <= 4 && pos <= |s| && Ip4(s) == Prefixed(octets, Remaining(s, pos, part))
    {
      var ok, v, next := ReadOctet(s, pos, part);
      if !ok { return None; }
      PrefixedTwice(octets, [v], Remaining(s, next, part + 1));
      octets, pos, part := octets + [v], next, part + 1;
    }
    assert octets + [] == octets;
    return if pos == |s| then Some(octets) else None;
  }

  // ---- the request globals ------------------------------------------------------------

  class Fetcher {
    var reqTls: bool
    var reqHost: seq<char>
    var reqPort: nat
    var reqPath: seq<char>
    var reqIp: Option<seq<nat>>

    ghost function View(): Req reads this { Req(reqTls, reqHost, reqPort, reqPath, reqIp) }

    constructor ()
      ensures View() == Req(false, "", 80, "", None)
    {
      reqTls, reqHost, reqPort, reqPath, reqIp := false, "", 80, "", None;
    }

    /** The host loop; it gives up at the bound, before it has seen the end of the host. */
    method ScanHost(p: seq<char>) returns (ok: bool, h: nat)
      ensures ok <==> 0 < HostEnd(p, 0) <= URL_MAX
      ensures ok ==> h == HostEnd(p, 0)
    {
      h := 0;
      while h < |p| && !EndsHost(p[h])
        invariant 0 <= h <= |p| && h <= URL_MAX && HostEnd(p, h) == HostEnd(p, 0)
      {
        if h >= URL_MAX { return false, h; }
        h := h + 1;
      }
      ok := h != 0;
    }

    /** The path loop: at most URL_MAX characters are copied. */
    method CopyPath(p: seq<char>, at: nat) returns (path: seq<char>)
      requires at <= |p|
      ensures path == PathAt(p, at)
    {
      if at == |p| || p[at] != '/' { return "/"; }
      path := [];
      var idx := at;
      while idx < |p| && |path| < URL_MAX
        invariant at <= idx <= |p| && |path| == idx - at <= URL_MAX && path == p[at..idx]
      {
        path := path + [p[idx]];
        idx := idx + 1;
      }
    }

    /** The optional port after the host. */
    method ReadPort(p: seq<char>, h: nat, default: nat) returns (ok: bool, port: nat, idx: nat)
      requires h <= |p|
      ensures PortAt(p, h, default) == if ok then Port(port, idx) else BadPort
      ensures ok ==> idx <= |p|
    {
      ok, port, idx := true, default, h;
      if idx < |p| && p[idx] == ':' {
        ok, port, idx := ScanNumber(p, h + 1, 5, 65535);
        ok := ok && idx != h + 1;
      }
    }

    method ParseUrl(url: seq<char>) returns (ok: bool)
      modifies this
      ensures Outcome(ok, View()) == Parse(old(View()), url)
    {
      reqPort, reqIp, reqTls := 80, None, false;
      var p := url;
      if StartsCi(url, HTTPS) {
        reqTls, reqPort, p := true, 443, url[8..];
      } else if StartsCi(url, HTTP) {
        p := url[7..];
      }
      ok := ParseRest(p);
    }

    method ParseRest(p: seq<char>) returns (ok: bool)
      requires reqPort == (if reqTls then 443 else 80) && reqIp == None
      modifies this
      ensures Outcome(ok, View()) == ParseAfter(old(View()), old(reqTls), p)
    {
      var found, h := ScanHost(p);
      if !found { return false; }
      reqHost := p[..h];
      var fits, port, idx := ReadPort(p, h, reqPort);
      if !fits { return false; }
      reqPort := port;
      reqPath := CopyPath(p, idx);
      reqIp := ParseIp4(reqHost);
      ok := true;
    }

    /** resolve_href: the buffer always ends up holding text that fits, and the resolved URL
        exactly when there is one. */
    method ResolveHref(out: array<char>, href: seq<char>) returns (ok: bool)
      requires out.Length > URL_MAX && '\0' !in href && '\0' !in reqHost && '\0' !in reqPath
      modifies out
      ensures ok <==> Resolve(View(), href).Some?
      ensures ok ==> Holds(out, Resolve(View(), href).value)
      ensures exists s :: Holds(out, s) && |s| <= URL_MAX
    {
      out[0] := '\0';
      if StartsCi(href, HTTP) || StartsCi(href, HTTPS) {
        ok := Add(out, href, []);
        return;
      }
      ok := WriteBase(out);
      if !ok { return; }
      ghost var text := Base(View());
      if href == [] || href[0] != '/' {
        ok := Add(out, reqPath, text);
        if !ok { return; }
        text := text + reqPath;
        DropSegment(out, text);
        text := CutSlash(text, |text|);
      }
      ok := Add(out, href, text);
    }

    /** cat_cap with the bound of a URL. */
    method Add(out: array<char>, s: seq<char>, ghost was: seq<char>) returns (ok: bool)
      requires out.Length > URL_MAX && Holds(out, was) && |was| <= URL_MAX && '\0' !in s
      modifies out
      ensures ok <==> |was + s| <= URL_MAX
      ensures ok ==> Holds(out, was + s)
      ensures exists t :: Holds(out, t) && |t| <= URL_MAX
    {
      ok := CatCap(out, s, URL_MAX + 1, was);
      ghost var t := (was + s)[..Min(|was| + |s|, URL_MAX)];
      assert Holds(out, t) && |t| <= URL_MAX;
      assert ok ==> t == was + s;
    }

    /** Scheme, host and, unless it is 80, the port. */
    method WriteBase(out: array<char>) returns (ok: bool)
      requires out.Length > URL_MAX && Holds(out, []) && '\0' !in reqHost
      modifies out
      ensures ok <==> |Base(View())| <= URL_MAX
      ensures ok ==> Holds(out, Base(View()))
      ensures exists t :: Holds(out, t) && |t| <= URL_MAX
    {
      BaseParts(View());
      ok := Add(out, HTTP, []);
      if !ok { return; }
      ok := Add(out, reqHost, HTTP);
      if !ok || reqPort == 80 { return; }
      var pb := Itoa(reqPort);
      PrintedValue(reqPort);
      ok := Add(out, ":", HTTP + reqHost);
      if !ok { return; }
      ok := Add(out, pb, HTTP + reqHost + ":");
    }

    /** The loop that ends the text at its last slash. */
    method DropSegment(out: array<char>, ghost was: seq<char>)
      requires Holds(out, was)
      modifies out
      ensures Holds(out, CutSlash(was, |was|))
    {
      var k := StrLen(out, was);
      while k > 0
        invariant 0 <= k <= |was| && Holds(out, was) && CutSlash(was, k) == CutSlash(was, |was|)
      {
        assert out[k - 1] == was[k - 1];
        if out[k - 1] == '/' {
          out[k - 1] := '\0';
          assert out[..k - 1] == was[..k - 1];
          return;
        }
        k := k - 1;
      }
    }
  }

  lemma BaseParts(r: Req)
    ensures Base(r) == if r.port == 80 then HTTP + r.host else (HTTP + r.host + ":") + Printed(r.port)
    ensures [] + HTTP == HTTP
  {
  }
}
