/** What an address means: [http://|https://]host[:port][/path], letter case of the scheme aside.
    The parse is exact: it succeeds on these texts and on no others, with these results. */
module UrlLaws {
  import opened Ascii
  import opened AsciiLaws
  import opened CString
  import opened Options
  import opened Url

  predicate IsScheme(scheme: seq<char>, tls: bool) {
    if tls then Spelled(scheme, "https://") else scheme == [] || Spelled(scheme, "http://")
  }

  predicate IsHost(host: seq<char>) { 1 <= |host| <= 120 && ':' !in host && '/' !in host }

  /** The port as written, nothing for none, and what may come after it. */
  predicate IsPort(ds: seq<char>, rest: seq<char>) {
    if ds == [] then rest == [] || rest[0] == '/'
    else |ds| <= 5 && AllDigits(ds) && Value(ds) <= 65535 && (rest == [] || !IsDigit(rest[0]))
  }

  function PortPart(ds: seq<char>): seq<char> { if ds == [] then [] else [':'] + ds }

  /** An address in its parts. */
  predicate Splits(url: seq<char>, scheme: seq<char>, tls: bool, host: seq<char>, ds: seq<char>, rest: seq<char>) {
    url == scheme + (host + (PortPart(ds) + rest)) && IsScheme(scheme, tls) && IsHost(host) && IsPort(ds, rest)
  }

  /** What is fetched for it. */
  function Meaning(tls: bool, host: seq<char>, ds: seq<char>, rest: seq<char>): Req
    requires IsPort(ds, rest)
  {
    var port := if ds != [] then Value(ds) else if tls then 443 else 80;
    var path := if rest == [] || rest[0] != '/' then "/" else if |rest| <= 120 then rest else rest[..120];
    Req(tls, host, port, path, Ip4(host))
  }

  // ---- the scheme ---------------------------------------------------------------------

  lemma SchemeMeans(url: seq<char>)
    ensures StartsCi(url, HTTP) <==> |url| >= 7 && Spelled(url[..7], "http://")
    ensures StartsCi(url, HTTPS) <==> |url| >= 8 && Spelled(url[..8], "https://")
  {
    StartsCiMeans(url, "http://");
    StartsCiMeans(url, "https://");
  }

  /** Five characters in, the two schemes differ. */
  lemma OneScheme(url: seq<char>)
    ensures !(StartsCi(url, HTTP) && StartsCi(url, HTTPS))
  {
    assert HTTP[4] == ':' && HTTPS[4] == 's';
  }

  lemma HttpColon(url: seq<char>)
    requires StartsCi(url, HTTP)
    ensures HostEnd(url, 0) == 4 && url[4] == ':' && url[5] == '/'
  {
    assert Lower(url[0]) == 'h' && Lower(url[1]) == 't' && Lower(url[2]) == 't' && Lower(url[3]) == 'p';
    assert Lower(url[4]) == ':' && Lower(url[5]) == '/';
    HostEndAt(url, 0, 4);
  }

  lemma HttpsColon(url: seq<char>)
    requires StartsCi(url, HTTPS)
    ensures HostEnd(url, 0) == 5 && url[5] == ':' && url[6] == '/'
  {
    assert Lower(url[0]) == 'h' && Lower(url[1]) == 't' && Lower(url[2]) == 't' && Lower(url[3]) == 'p';
    assert Lower(url[4]) == 's' && Lower(url[5]) == ':' && Lower(url[6]) == '/';
    HostEndAt(url, 0, 5);
  }

  /** A text that starts with a scheme has its first colon right before a slash. */
  lemma SchemeColon(url: seq<char>)
    requires StartsCi(url, HTTP) || StartsCi(url, HTTPS)
    ensures var h := HostEnd(url, 0); h + 1 < |url| && url[h] == ':' && url[h + 1] == '/'
  {
    if StartsCi(url, HTTP) { HttpColon(url); } else { HttpsColon(url); }
  }

  lemma SchemeTaken(url: seq<char>, scheme: seq<char>, tls: bool, host: seq<char>, ds: seq<char>, rest: seq<char>)
    requires Splits(url, scheme, tls, host, ds, rest)
    ensures StartsCi(url, HTTPS) == tls && SchemeLen(url) == |scheme| && url[|scheme|..] == host + (PortPart(ds) + rest)
  {
    var p := host + (PortPart(ds) + rest);
    SchemeMeans(url);
    if scheme == [] {
      assert url == p;
      if StartsCi(url, HTTP) || StartsCi(url, HTTPS) {
        SchemeColon(url);
        NoSchemeInside(host, ds, rest);
      }
    } else {
      assert url[..|scheme|] == scheme;
      OneScheme(url);
    }
  }

  /** After the host of such a text there is no colon followed by a slash. */
  lemma NoSchemeInside(host: seq<char>, ds: seq<char>, rest: seq<char>)
    requires IsHost(host) && IsPort(ds, rest)
    ensures var p, h := host + (PortPart(ds) + rest), |host|;
      HostEnd(p, 0) == h && !(h + 1 < |p| && p[h] == ':' && p[h + 1] == '/')
  {
    var tail := PortPart(ds) + rest;
    HostReads(host, tail);
    if ds != [] { assert (host + tail)[|host| + 1] == ds[0]; }
  }

  // ---- the rest -----------------------------------------------------------------------

  lemma PortFrom(p: seq<char>, h: nat, ds: seq<char>, default: nat)
    requires h < |p| && p[h] == ':' && 1 <= |ds| <= 5 && AllDigits(ds) && Value(ds) <= 65535
    requires h + 1 + |ds| <= |p| && p[h + 1..h + 1 + |ds|] == ds && DigitsEnd(p, h + 1) == h + 1 + |ds|
    ensures PortAt(p, h, default) == Port(Value(ds), h + 1 + |ds|)
  {
  }

  /** Where the parts are. */
  lemma Inside(host: seq<char>, ds: seq<char>, rest: seq<char>, p: seq<char>, h: nat, e: nat)
    requires p == host + ([':'] + ds + rest) && h == |host| && e == |host| + 1 + |ds|
    ensures h < e <= |p| && p[h] == ':' && p[h + 1..e] == ds && p[e..] == rest
  {
  }

  lemma DigitsInside(p: seq<char>, h: nat, e: nat, ds: seq<char>, rest: seq<char>)
    requires h < e <= |p| && p[h + 1..e] == ds && p[e..] == rest
    requires AllDigits(ds) && (rest == [] || !IsDigit(rest[0]))
    ensures DigitsEnd(p, h + 1) == e
  {
    forall k | h < k < e ensures IsDigit(p[k]) { assert p[k] == ds[k - h - 1]; }
    assert e < |p| ==> p[e] == p[e..][0];
    DigitsEndAt(p, h + 1, e);
  }

  lemma WrittenPort(host: seq<char>, ds: seq<char>, rest: seq<char>, default: nat, p: seq<char>)
    requires ds != [] && IsPort(ds, rest) && p == host + ([':'] + ds + rest)
    ensures PortAt(p, |host|, default) == Port(Value(ds), |host| + 1 + |ds|)
    ensures |host| + 1 + |ds| <= |p| && p[|host| + 1 + |ds|..] == rest
  {
    var h, e := |host|, |host| + 1 + |ds|;
    Inside(host, ds, rest, p, h, e);
    DigitsInside(p, h, e, ds, rest);
    PortFrom(p, h, ds, default);
  }

  lemma PortTaken(host: seq<char>, ds: seq<char>, rest: seq<char>, default: nat, p: seq<char>)
    requires IsPort(ds, rest) && p == host + (PortPart(ds) + rest)
    ensures var e := |host| + |PortPart(ds)|;
      PortAt(p, |host|, default) == Port(if ds == [] then default else Value(ds), e) && p[e..] == rest
  {
    if ds == [] {
      assert p == host + rest;
    } else {
      WrittenPort(host, ds, rest, default, p);
    }
  }

  lemma PathTaken(p: seq<char>, e: nat, rest: seq<char>)
    requires e <= |p| && p[e..] == rest
    ensures PathAt(p, e) == if rest == [] || rest[0] != '/' then "/" else if |rest| <= 120 then rest else rest[..120]
  {
    if |rest| > 120 { assert p[e..e + 120] == rest[..120]; }
  }

  lemma AfterIs(prev: Req, tls: bool, p: seq<char>, h: nat, port: nat, e: nat)
    requires 1 <= h <= 120 && h <= |p| && HostEnd(p, 0) == h && e <= |p|
    requires PortAt(p, h, if tls then 443 else 80) == Port(port, e)
    ensures ParseAfter(prev, tls, p) == Outcome(true, Req(tls, p[..h], port, PathAt(p, e), Ip4(p[..h])))
  {
  }

  lemma RestReads(prev: Req, tls: bool, host: seq<char>, ds: seq<char>, rest: seq<char>, p: seq<char>)
    requires IsHost(host) && IsPort(ds, rest) && p == host + (PortPart(ds) + rest)
    ensures ParseAfter(prev, tls, p) == Outcome(true, Meaning(tls, host, ds, rest))
  {
    var h, e, default := |host|, |host| + |PortPart(ds)|, if tls then 443 else 80;
    var port := if ds == [] then default else Value(ds);
    HostReads(host, PortPart(ds) + rest);
    PortTaken(host, ds, rest, default, p);
    PathTaken(p, e, rest);
    PartsMean(prev, tls, p, host, port, e, Meaning(tls, host, ds, rest).path);
  }

  lemma PartsMean(prev: Req, tls: bool, p: seq<char>, host: seq<char>, port: nat, e: nat, path: seq<char>)
    requires 1 <= |host| <= 120 && |host| <= |p| && p[..|host|] == host && HostEnd(p, 0) == |host|
    requires e <= |p| && PortAt(p, |host|, if tls then 443 else 80) == Port(port, e) && PathAt(p, e) == path
    ensures ParseAfter(prev, tls, p) == Outcome(true, Req(tls, host, port, path, Ip4(host)))
  {
    AfterIs(prev, tls, p, |host|, port, e);
  }

  /** Every address of this form parses to what it means: TLS exactly for https, the host as
      written, the port as written or else 443 for https and 80 otherwise, the path or "/". */
  lemma ParseReads(prev: Req, url: seq<char>, scheme: seq<char>, tls: bool, host: seq<char>, ds: seq<char>,
                   rest: seq<char>)
    requires Splits(url, scheme, tls, host, ds, rest)
    ensures Parse(prev, url) == Outcome(true, Meaning(tls, host, ds, rest))
  {
    SchemeTaken(url, scheme, tls, host, ds, rest);
    RestReads(prev, tls, host, ds, rest, host + (PortPart(ds) + rest));
  }

  /** Nothing else parses. */
  lemma ParseSplits(prev: Req, url: seq<char>)
    returns (scheme: seq<char>, tls: bool, host: seq<char>, ds: seq<char>, rest: seq<char>)
    requires Parse(prev, url).ok
    ensures Splits(url, scheme, tls, host, ds, rest)
  {
    var n := SchemeLen(url);
    tls, scheme := StartsCi(url, HTTPS), url[..n];
    SchemeMeans(url);
    var p := url[n..];
    host, ds, rest := RestSplits(prev, tls, p);
    assert url == scheme + p;
  }

  lemma HostText(p: seq<char>, h: nat)
    requires 1 <= h <= 120 && h <= |p| && forall k :: 0 <= k < h ==> !EndsHost(p[k])
    ensures IsHost(p[..h])
  {
    assert forall k :: 0 <= k < h ==> p[..h][k] == p[k];
  }

  lemma PortSplits(p: seq<char>, h: nat, e: nat)
    requires h < e <= |p| && p[h] == ':'
    ensures p == p[..h] + ([':'] + p[h + 1..e] + p[e..])
  {
    assert p[h..] == [':'] + p[h + 1..];
    assert p[h + 1..] == p[h + 1..e] + p[e..];
  }

  lemma AfterOk(prev: Req, tls: bool, p: seq<char>)
    requires ParseAfter(prev, tls, p).ok
    ensures var h := HostEnd(p, 0); 1 <= h <= 120 && PortAt(p, h, if tls then 443 else 80).Port?
  {
  }

  lemma PortOk(p: seq<char>, h: nat, default: nat)
    requires h < |p| && p[h] == ':' && PortAt(p, h, default).Port?
    ensures var e := DigitsEnd(p, h + 1); p[h + 1..e] != [] && IsPort(p[h + 1..e], p[e..])
  {
  }

  lemma PartsOf(p: seq<char>, h: nat, default: nat) returns (ds: seq<char>, rest: seq<char>)
    requires h <= |p| && (h < |p| ==> EndsHost(p[h])) && PortAt(p, h, default).Port?
    ensures p == p[..h] + (PortPart(ds) + rest) && IsPort(ds, rest)
  {
    if h < |p| && p[h] == ':' {
      var e := DigitsEnd(p, h + 1);
      PortOk(p, h, default);
      PortSplits(p, h, e);
      ds, rest := p[h + 1..e], p[e..];
    } else {
      ds, rest := [], p[h..];
      assert PortPart(ds) + rest == rest;
    }
  }

  lemma RestSplits(prev: Req, tls: bool, p: seq<char>) returns (host: seq<char>, ds: seq<char>, rest: seq<char>)
    requires ParseAfter(prev, tls, p).ok
    ensures p == host + (PortPart(ds) + rest) && IsHost(host) && IsPort(ds, rest)
  {
    var h := HostEnd(p, 0);
    AfterOk(prev, tls, p);
    host := p[..h];
    HostText(p, h);
    ds, rest := PartsOf(p, h, if tls then 443 else 80);
  }

  /** A text that does not parse still sets scheme and default port and clears the address; the
      path stays, and the host is replaced exactly when one could be read. */
  lemma FailedParse(prev: Req, url: seq<char>)
    requires !Parse(prev, url).ok
    ensures var r := Parse(prev, url).req;
      r.tls == StartsCi(url, "https://") && r.port == (if r.tls then 443 else 80) && r.path == prev.path && r.ip == None
      && (r.host == prev.host || (IsHost(r.host) && [':'] <= url[SchemeLen(url)..][|r.host|..]))
  {
    var p := url[SchemeLen(url)..];
    var h := HostEnd(p, 0);
    if 1 <= h <= 120 {
      HostText(p, h);
      assert h < |p| && p[h] == ':';
    }
  }

  /** A printed port is read as its number. */
  lemma PrintedPortReads(prev: Req, scheme: seq<char>, tls: bool, host: seq<char>, port: nat, path: seq<char>)
    requires IsScheme(scheme, tls) && IsHost(host) && port <= 65535 && (path == [] || path[0] == '/') && |path| <= 120
    ensures Parse(prev, scheme + (host + (([':'] + Printed(port)) + path)))
         == Outcome(true, Req(tls, host, port, if path == [] then "/" else path, Ip4(host)))
  {
    PrintedPort(port);
    ParseReads(prev, scheme + (host + (([':'] + Printed(port)) + path)), scheme, tls, host, Printed(port), path);
  }

  // ---- absolute links -----------------------------------------------------------------

  /** An href with a scheme is followed as it is, if it fits. */
  lemma AbsoluteKept(r: Req, href: seq<char>)
    requires (|href| >= 7 && Spelled(href[..7], "http://")) || (|href| >= 8 && Spelled(href[..8], "https://"))
    ensures Resolve(r, href) == if |href| <= 120 then Some(href) else None
  {
    SchemeMeans(href);
  }
}
