/**
  URLs: parsing what the address bar holds into a request, and turning the href of a link
  into a URL again.  `Parse` and `Resolve` say what the two computations mean; the class is
  the code, with its early exits and its bounded buffer.
*/
module Url {
  import opened Ascii
  import opened CString
  import opened Options

  const URL_MAX := 120
  const HTTP := "http://"
  const HTTPS := "https://"

  /** The request globals; `ip` is set when the host is an IPv4 literal. */
  datatype Req = Req(tls: bool, host: seq<char>, port: nat, path: seq<char>, ip: Option<seq<nat>>)

  // ---- parsing ------------------------------------------------------------------------

  function SchemeLen(url: seq<char>): (n: nat)
    ensures n <= |url|
  { if StartsCi(url, HTTPS) then 8 else if StartsCi(url, HTTP) then 7 else 0 }

  predicate EndsHost(c: char) { c == ':' || c == '/' }

  function HostEnd(p: seq<char>, i: nat): (e: nat)
    requires i <= |p|
    ensures i <= e <= |p| && (e < |p| ==> EndsHost(p[e]))
    ensures forall k :: i <= k < e ==> !EndsHost(p[k])
    decreases |p| - i
  { if i == |p| || EndsHost(p[i]) then i else HostEnd(p, i + 1) }

  function DigitsEnd(p: seq<char>, i: nat): (e: nat)
    requires i <= |p|
    ensures i <= e <= |p| && (e < |p| ==> !IsDigit(p[e])) && forall k :: i <= k < e ==> IsDigit(p[k])
    decreases |p| - i
  { if i == |p| || !IsDigit(p[i]) then i else DigitsEnd(p, i + 1) }

  datatype Port = BadPort | Port(number: nat, after: nat)

  /** The port written after the host, if there is a colon: one to five digits, up to 65535. */
  function PortAt(p: seq<char>, h: nat, default: nat): Port
    requires h <= |p|
  {
    if h == |p| || p[h] != ':' then Port(default, h) else
    var e := DigitsEnd(p, h + 1);
    var v := Value(p[h + 1..e]);
    if 1 <= e - (h + 1) <= 5 && v <= 65535 then Port(v, e) else BadPort
  }

  function PathAt(p: seq<char>, e: nat): seq<char>
    requires e <= |p|
  { if e < |p| && p[e] == '/' then p[e..Min(|p|, e + URL_MAX)] else "/" }

  /** Octets `part`..3 of a dotted address written from `pos` to the end of s. */
  function Quad(s: seq<char>, pos: nat, part: nat): Option<seq<nat>>
    requires pos <= |s| && part <= 3
    decreases |s| - pos
  {
    var e := DigitsEnd(s, pos);
    var v := Value(s[pos..e]);
    if !(1 <= e - pos <= 3 && v <= 255) then None
    else if part == 3 then (if e == |s| then Some([v]) else None)
    else if e == |s| || s[e] != '.' then None
    else
      var rest := Quad(s, e + 1, part + 1);
      if rest.None? then None else Some([v] + rest.value)
  }

  function Ip4(s: seq<char>): Option<seq<nat>> { if 1 <= |s| <= 15 then Quad(s, 0, 0) else None }

  datatype Outcome = Outcome(ok: bool, req: Req)

  /** What parse_url makes of the previous request and a URL; a bad URL still overwrites the
      pieces read before the fault. */
  function Parse(r: Req, url: seq<char>): Outcome {
    ParseAfter(r, StartsCi(url, HTTPS), url[SchemeLen(url)..])
  }

  /** The part after the scheme. */
  function ParseAfter(r: Req, tls: bool, p: seq<char>): Outcome {
    var h := HostEnd(p, 0);
    var default := if tls then 443 else 80;
    if h == 0 || h > URL_MAX then Outcome(false, Req(tls, r.host, default, r.path, None)) else
    var port := PortAt(p, h, default);
    if port.BadPort? then Outcome(false, Req(tls, p[..h], default, r.path, None))
    else Outcome(true, Req(tls, p[..h], port.number, PathAt(p, port.after), Ip4(p[..h])))
  }

  /** What every request that parsed looks like. */
  predicate Served(r: Req) {
    r.host != [] && (forall k :: 0 <= k < |r.host| ==> !EndsHost(r.host[k]))
    && r.port <= 65535 && r.path != [] && r.path[0] == '/' && r.ip == Ip4(r.host)
  }

  lemma ParseServes(r: Req, url: seq<char>)
    requires Parse(r, url).ok
    ensures Served(Parse(r, url).req)
  {
  }

  // ---- resolving a link ---------------------------------------------------------------

  function Server(r: Req): seq<char> { r.host + if r.port == 80 then "" else ":" + Printed(r.port) }

  function Base(r: Req): seq<char> { HTTP + Server(r) }

  predicate Absolute(href: seq<char>) { StartsCi(href, HTTP) || StartsCi(href, HTTPS) }

  predicate Rooted(href: seq<char>) { href != [] && href[0] == '/' }

  /** s cut just before the last slash among its first k characters. */
  function CutSlash(s: seq<char>, k: nat): (c: seq<char>)
    requires k <= |s|
    ensures c <= s
  { if k == 0 then s else if s[k - 1] == '/' then s[..k - 1] else CutSlash(s, k - 1) }

  function Fit(s: seq<char>): Option<seq<char>> { if |s| <= URL_MAX then Some(s) else None }

  function Resolve(r: Req, href: seq<char>): Option<seq<char>> {
    if Absolute(href) then Fit(href)
    else if |Base(r)| > URL_MAX then None
    else if Rooted(href) then Fit(Base(r) + href)
    else
      var full := Base(r) + r.path;
      if |full| > URL_MAX then None else Fit(CutSlash(full, |full|) + href)
  }

  // ---- the round trip -----------------------------------------------------------------

  lemma {:induction false} HostEndAt(p: seq<char>, i: nat, e: nat)
    requires i <= e <= |p| && (forall k :: i <= k < e ==> !EndsHost(p[k])) && (e < |p| ==> EndsHost(p[e]))
    ensures HostEnd(p, i) == e
    decreases |p| - i
  {
    if i < e { HostEndAt(p, i + 1, e); }
  }

  lemma {:induction false} DigitsEndAt(p: seq<char>, i: nat, e: nat)
    requires i <= e <= |p| && (forall k :: i <= k < e ==> IsDigit(p[k])) && (e < |p| ==> !IsDigit(p[e]))
    ensures DigitsEnd(p, i) == e
    decreases |p| - i
  {
    if i < e { DigitsEndAt(p, i + 1, e); }
  }

  lemma PrintedPort(v: nat)
    requires v <= 65535
    ensures 1 <= |Printed(v)| <= 5 && AllDigits(Printed(v)) && Value(Printed(v)) == v
  {
    PrintedValue(v);
    assert Pow10(5) == 100000 by { assert Pow10(3) == 1000; }
    NumeralShort(v, 5);
  }

  lemma HostReads(host: seq<char>, rest: seq<char>)
    requires (forall k :: 0 <= k < |host| ==> !EndsHost(host[k])) && (rest != [] ==> EndsHost(rest[0]))
    ensures HostEnd(host + rest, 0) == |host| && (host + rest)[..|host|] == host
  {
    HostEndAt(host + rest, 0, |host|);
  }

  lemma PortReads(host: seq<char>, port: nat, rest: seq<char>)
    requires port <= 65535 && (rest != [] ==> rest[0] == '/')
    ensures PortAt(host + (":" + Printed(port) + rest), |host|, 80) == Port(port, |host| + 1 + |Printed(port)|)
  {
    PrintedPort(port);
    var p, h, e := host + (":" + Printed(port) + rest), |host|, |host| + 1 + |Printed(port)|;
    assert p[h] == ':' && p[h + 1..e] == Printed(port);
    assert e < |p| ==> p[e] == '/';
    DigitsEndAt(p, h + 1, e);
  }

  /** A printed server reads back, whatever path comes after it. */
  lemma ServerReads(r: Req, rest: seq<char>)
    requires Served(r) && (rest != [] ==> rest[0] == '/')
    ensures var p := Server(r) + rest;
      HostEnd(p, 0) == |r.host| && p[..|r.host|] == r.host && PortAt(p, |r.host|, 80) == Port(r.port, |Server(r)|)
  {
    if r.port == 80 {
      assert Server(r) == r.host;
      HostReads(r.host, rest);
    } else {
      var tail := ":" + Printed(r.port) + rest;
      assert Server(r) + rest == r.host + tail;
      HostReads(r.host, tail);
      PortReads(r.host, r.port, rest);
    }
  }

  lemma PlainHttp(s: seq<char>)
    ensures SchemeLen(HTTP + s) == 7 && !StartsCi(HTTP + s, HTTPS) && (HTTP + s)[7..] == s
  {
    assert (HTTP + s)[4] == ':';
    assert HTTPS[4] == 's';
  }

  lemma ServerPath(r: Req, rest: seq<char>)
    requires rest != [] ==> rest[0] == '/'
    requires |rest| <= URL_MAX
    ensures PathAt(Server(r) + rest, |Server(r)|) == if rest == [] then "/" else rest
  {
    assert (Server(r) + rest)[|Server(r)|..] == rest;
  }

  lemma BaseSplit(r: Req, rest: seq<char>)
    ensures Base(r) + rest == HTTP + (Server(r) + rest)
    ensures |Base(r) + rest| == 7 + |Server(r)| + |rest| && |Server(r)| >= |r.host|
  {
  }

  lemma HttpAfter(prev: Req, s: seq<char>)
    ensures Parse(prev, HTTP + s) == ParseAfter(prev, false, s)
  {
    PlainHttp(s);
  }

  lemma ServerAfter(r: Req, prev: Req, rest: seq<char>)
    requires Served(r) && (rest != [] ==> rest[0] == '/') && |r.host| <= URL_MAX && |rest| <= URL_MAX
    ensures ParseAfter(prev, false, Server(r) + rest)
         == Outcome(true, Req(false, r.host, r.port, if rest == [] then "/" else rest, r.ip))
  {
    ServerReads(r, rest);
    ServerPath(r, rest);
  }

  /** A URL assembled from a request parses to the same server. */
  lemma BaseReads(r: Req, prev: Req, rest: seq<char>)
    requires Served(r) && (rest != [] ==> rest[0] == '/') && |Base(r) + rest| <= URL_MAX
    ensures Parse(prev, Base(r) + rest) == Outcome(true, r.(tls := false, path := if rest == [] then "/" else rest))
  {
    BaseSplit(r, rest);
    HttpAfter(prev, Server(r) + rest);
    ServerAfter(r, prev, rest);
  }

  /** Following a rooted link: whenever it resolves, the new request has the host of the last
      request, its port through printing and parsing, its address, and the href as path, over
      plain HTTP.  The last request is the one of the page shown unless a tab was switched in
      between: the request globals are shared by all tabs. */
  lemma LinkRoundTrip(r: Req, prev: Req, href: seq<char>)
    requires Served(r) && Rooted(href) && Resolve(r, href).Some?
    ensures Parse(prev, Resolve(r, href).value) == Outcome(true, r.(tls := false, path := href))
  {
    assert !StartsCi(href, HTTP) && !StartsCi(href, HTTPS) by {
      assert HTTP[0] == 'h' && HTTPS[0] == 'h' && href[0] == '/';
    }
    BaseReads(r, prev, href);
  }

  /** It resolves exactly when the assembled URL fits. */
  lemma LinkFits(r: Req, href: seq<char>)
    requires Rooted(href)
    ensures Resolve(r, href).Some? <==> 7 + |Server(r)| + |href| <= 120
  {
    assert HTTP[0] == 'h' && HTTPS[0] == 'h' && href[0] == '/';
  }

  // ---- relative links: where the code departs from its comment ------------------------

  lemma {:induction false} CutAt(s: seq<char>, dir: seq<char>, seg: seq<char>, k: nat)
    requires s == dir + "/" + seg && '/' !in seg && |dir| < k <= |s|
    ensures CutSlash(s, k) == dir
  {
    if k - 1 == |dir| {
      assert s[..k - 1] == dir;
    } else {
      assert s[k - 1] == seg[k - 1 - |dir| - 1];
      CutAt(s, dir, seg, k - 1);
    }
  }

  /** The slash before the last segment goes with it: the href is glued to the directory name,
      never placed inside the directory. */
  lemma RelativeGlues(r: Req, dir: seq<char>, seg: seq<char>, href: seq<char>)
    requires r.path == dir + "/" + seg && '/' !in seg && !Absolute(href) && !Rooted(href)
    requires Resolve(r, href).Some?
    ensures Resolve(r, href).value == Base(r) + dir + href != Base(r) + dir + "/" + href
  {
    var full := Base(r) + r.path;
    assert full == (Base(r) + dir) + "/" + seg;
    CutAt(full, Base(r) + dir, seg, |full|);
    assert |Base(r) + dir + href| != |Base(r) + dir + "/" + href|;
  }

  /** A relative link as resolve_href leaves it to parse_url, with its directory split off. */
  predicate Relative(r: Req, dir: seq<char>, seg: seq<char>, href: seq<char>) {
    Served(r) && r.path == dir + "/" + seg && '/' !in seg && !Absolute(href) && !Rooted(href) && Resolve(r, href).Some?
  }

  /** Below the top level such a link still goes to the same server. */
  lemma RelativeKeepsServer(r: Req, prev: Req, dir: seq<char>, seg: seq<char>, href: seq<char>)
    requires Relative(r, dir, seg, href) && dir != []
    ensures Parse(prev, Resolve(r, href).value) == Outcome(true, r.(tls := false, path := dir + href))
  {
    RelativeGlues(r, dir, seg, href);
    assert Base(r) + dir + href == Base(r) + (dir + href);
    assert dir[0] == r.path[0];
    BaseReads(r, prev, dir + href);
  }

  /** The text after the scheme when such a link is followed at the top level. */
  lemma TopLevelText(r: Req, prev: Req, seg: seq<char>, href: seq<char>)
    requires Relative(r, [], seg, href)
    ensures Parse(prev, Resolve(r, href).value) == ParseAfter(prev, false, Server(r) + href)
  {
    RelativeGlues(r, [], seg, href);
    BaseSplit(r, href);
    assert Base(r) + [] + href == Base(r) + href;
    HttpAfter(prev, Server(r) + href);
  }

  lemma HostGrows(host: seq<char>, href: seq<char>)
    requires (forall k :: 0 <= k < |host| ==> !EndsHost(host[k])) && href != [] && !EndsHost(href[0])
    ensures HostEnd(host + href, 0) > |host|
  {
    assert (host + href)[|host|] == href[0];
  }

  /** Where the host ends when something is glued to the server. */
  lemma GluedHost(r: Req, href: seq<char>)
    requires Served(r) && !Rooted(href)
    ensures var p := Server(r) + href;
      if r.port != 80 || href == [] || href[0] == ':' then HostEnd(p, 0) == |r.host| && p[..|r.host|] == r.host
      else HostEnd(p, 0) > |r.host|
  {
    if r.port != 80 {
      var tail := ":" + Printed(r.port) + href;
      assert Server(r) + href == r.host + tail;
      HostReads(r.host, tail);
    } else {
      assert Server(r) == r.host;
      if href == [] || href[0] == ':' { HostReads(r.host, href); } else { HostGrows(r.host, href); }
    }
  }

  /** Such a link keeps the host exactly below the top level, or off the default port, or when
      it is empty or starts with a colon. */
  lemma RelativeKeepsHost(r: Req, prev: Req, dir: seq<char>, seg: seq<char>, href: seq<char>)
    requires Relative(r, dir, seg, href)
    ensures Parse(prev, Resolve(r, href).value).req.host == r.host
            <==> dir != [] || r.port != 80 || href == [] || href[0] == ':'
  {
    if dir != [] {
      RelativeKeepsServer(r, prev, dir, seg, href);
    } else {
      TopLevelText(r, prev, seg, href);
      GluedHost(r, href);
      TopLevelFits(r, seg, href);
    }
  }

  lemma TopLevelFits(r: Req, seg: seq<char>, href: seq<char>)
    requires Relative(r, [], seg, href)
    ensures |Server(r) + href| <= URL_MAX && |r.host| <= |Server(r)|
  {
    RelativeGlues(r, [], seg, href);
    BaseSplit(r, href);
    assert Base(r) + [] + href == Base(r) + href;
  }

  // ---- and the port -------------------------------------------------------------------

  /** What is glued to a server leaves it alone: on the default port nothing, or an explicit
      port 80; on another port nothing that goes on with its digits, port 0 and zeros aside. */
  predicate ServerSafe(r: Req, href: seq<char>) {
    if r.port == 80 then (href == [] || href[0] == ':') && PortAt(href, 0, 80).Port? && PortAt(href, 0, 80).number == 80
    else var d := DigitsEnd(href, 0); d == 0 || (r.port == 0 && d <= 4 && Value(href[..d]) == 0)
  }

  lemma {:induction false} DigitsEndShift(a: seq<char>, b: seq<char>, i: nat)
    requires i <= |b|
    ensures DigitsEnd(a + b, |a| + i) == |a| + DigitsEnd(b, i)
    decreases |b| - i
  {
    if i < |b| && IsDigit(b[i]) { DigitsEndShift(a, b, i + 1); }
  }

  /** A port written in the href itself is read as it would be at the start. */
  lemma PortShift(a: seq<char>, b: seq<char>, default: nat)
    ensures PortAt(a + b, |a|, default) ==
      match PortAt(b, 0, default) case BadPort => BadPort case Port(n, e) => Port(n, |a| + e)
  {
    if b != [] && b[0] == ':' {
      DigitsEndShift(a, b, 1);
      var e := DigitsEnd(b, 1);
      assert (a + b)[|a| + 1..|a| + e] == b[1..e];
    }
  }

  /** Digits after a number: the value of both together. */
  lemma {:induction false} ValueConcat(a: seq<char>, b: seq<char>)
    requires AllDigits(a) && AllDigits(b)
    ensures AllDigits(a + b) && Value(a + b) >= (if b == [] then 1 else 10) * Value(a)
    ensures Value(a) == 0 ==> Value(a + b) == Value(b)
  {
    if b == [] {
      assert a + b == a;
    } else {
      var c := b[..|b| - 1];
      assert (a + b)[..|a + b| - 1] == a + c;
      ValueConcat(a, c);
    }
  }

  /** Digits glued to a printed port. */
  lemma GluedDigits(port: nat, more: seq<char>)
    requires port <= 65535 && more != [] && AllDigits(more)
    ensures AllDigits(Printed(port) + more)
    ensures Value(Printed(port) + more) == port <==> port == 0 && Value(more) == 0
  {
    PrintedPort(port);
    ValueConcat(Printed(port), more);
  }

  lemma {:induction false} DigitsSkip(p: seq<char>, i: nat, j: nat)
    requires i <= j <= |p| && forall k :: i <= k < j ==> IsDigit(p[k])
    ensures DigitsEnd(p, i) == DigitsEnd(p, j)
    decreases j - i
  {
    if i < j { DigitsSkip(p, i + 1, j); }
  }

  /** A number in the middle of a text goes on with the digits that follow it. */
  lemma NumberGoesOn(a: seq<char>, n: seq<char>, more: seq<char>, p: seq<char>)
    requires AllDigits(n) && p == a + n + more
    ensures var d := DigitsEnd(more, 0);
      DigitsEnd(p, |a|) == |a| + |n| + d && p[|a|..|a| + |n| + d] == n + more[..d]
  {
    var an := a + n;
    NumberInside(a, n, more, p);
    DigitsSkip(p, |a|, |an|);
    DigitsEndShift(an, more, 0);
    MiddleSlice(a, n, more, DigitsEnd(more, 0), p);
  }

  lemma NumberInside(a: seq<char>, n: seq<char>, more: seq<char>, p: seq<char>)
    requires AllDigits(n) && p == a + n + more
    ensures forall k :: |a| <= k < |a| + |n| ==> IsDigit(p[k])
  {
    assert forall k :: |a| <= k < |a| + |n| ==> p[k] == n[k - |a|];
  }

  lemma MiddleSlice(a: seq<char>, n: seq<char>, more: seq<char>, d: nat, p: seq<char>)
    requires d <= |more| && p == a + n + more
    ensures p[|a|..|a| + |n| + d] == n + more[..d]
  {
  }

  /** The port read where something is glued to a server with an explicit one. */
  lemma GluedPortAt(r: Req, href: seq<char>, p: seq<char>)
    requires Served(r) && r.port != 80 && p == Server(r) + href
    ensures var n := Printed(r.port) + href[..DigitsEnd(href, 0)];
      AllDigits(n) && PortAt(p, |r.host|, 80) ==
        if 1 <= |n| <= 5 && Value(n) <= 65535 then Port(Value(n), |r.host| + 1 + |n|) else BadPort
  {
    var n, a := Printed(r.port), r.host + ":";
    PrintedPort(r.port);
    assert p == a + n + href && p[|r.host|] == ':';
    NumberGoesOn(a, n, href, p);
  }

  lemma GluedPort(r: Req, href: seq<char>)
    requires Served(r) && r.port != 80
    ensures var port := PortAt(Server(r) + href, |r.host|, 80);
      port.Port? && port.number == r.port <==> ServerSafe(r, href)
  {
    var n, d := Printed(r.port), DigitsEnd(href, 0);
    PrintedPort(r.port);
    GluedPortAt(r, href, Server(r) + href);
    assert AllDigits(href[..d]) by { assert href[0..d] == href[..d]; }
    if d == 0 { assert n + href[..d] == n; } else { GluedDigits(r.port, href[..d]); }
    if r.port == 0 { assert |n| == 1; }
  }

  /** The promise "same host and same port" holds of a relative link exactly below the top
      level, and at the top level for what leaves the server alone. */
  lemma RelativeSameServer(r: Req, prev: Req, dir: seq<char>, seg: seq<char>, href: seq<char>)
    requires Relative(r, dir, seg, href)
    ensures var o := Parse(prev, Resolve(r, href).value);
      o.ok && o.req.host == r.host && o.req.port == r.port <==> dir != [] || ServerSafe(r, href)
  {
    if dir != [] {
      RelativeKeepsServer(r, prev, dir, seg, href);
    } else {
      TopLevelText(r, prev, seg, href);
      TopLevelFits(r, seg, href);
      GluedHost(r, href);
      if r.port == 80 {
        assert Server(r) == r.host;
        PortShift(r.host, href, 80);
      } else {
        GluedPort(r, href);
      }
    }
  }

  lemma RelativeExample()
    ensures var r := Req(false, "h", 80, "/a/b", None);
      Resolve(r, "c") == Some("http://h/ac") && Resolve(r.(path := "/b"), "c") == Some("http://hc")
      && Resolve(r.(path := "/b"), ":81") == Some("http://h:81")
  {
    var r := Req(false, "h", 80, "/a/b", None);
    assert !Absolute("c") && !Rooted("c") by { assert "c"[0] == 'c'; }
    assert !Absolute(":81") && !Rooted(":81") by { assert ":81"[0] == ':'; }
    assert Base(r) == "http://h" == Base(r.(path := "/b"));
    assert Base(r) + "/a/b" == "http://h/a/b" == "http://h/a" + "/" + "b";
    CutAt("http://h/a/b", "http://h/a", "b", 12);
    assert "http://h/a" + "c" == "http://h/ac";
    assert Base(r) + "/b" == "http://h/b" == "http://h" + "/" + "b";
    CutAt("http://h/b", "http://h", "b", 10);
    assert "http://h" + "c" == "http://hc" && "http://h" + ":81" == "http://h:81";
  }

  /** A digit after an explicit port changes the port, here beyond what a port can be. */
  lemma BadPortExample(prev: Req)
    ensures var r := Req(false, "h", 8080, "/b", None);
      Resolve(r, "1") == Some("http://h:80801") && !Parse(prev, "http://h:80801").ok
  {
    var r := Req(false, "h", 8080, "/b", None);
    Printed8080();
    assert Base(r) == "http://h:8080";
    assert !Absolute("1") && !Rooted("1") by { assert "1"[0] == '1'; }
    assert Base(r) + "/b" == "http://h:8080/b" == "http://h:8080" + "/" + "b";
    CutAt("http://h:8080/b", "http://h:8080", "b", 15);
    assert "http://h:8080" + "1" == "http://h:80801" == HTTP + "h:80801";
    HttpAfter(prev, "h:80801");
    TooLarge(prev);
  }

  lemma Printed8080()
    ensures Printed(8080) == "8080"
  {
    assert Numeral(80) == "80" && Numeral(808) == "808";
  }

  lemma TooLarge(prev: Req)
    ensures !ParseAfter(prev, false, "h:80801").ok
  {
    var p := "h:80801";
    HostReads("h", ":80801");
    assert "h" + ":80801" == p;
    assert "h:" + "8080" + "1" == p;
    NumberGoesOn("h:", "8080", "1", p);
    assert DigitsEnd("1", 0) == 1 && "1"[..1] == "1";
    Printed8080();
    PrintedValue(8080);
    ValueConcat("8080", "1");
    assert DigitsEnd(p, 2) == 7 && Value(p[2..7]) >= 80800;
  }
}
