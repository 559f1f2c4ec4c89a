/** DLSPEED's URL parser and HTTP request builder over their NUL-terminated buffers. */
module DlspeedUrl {
  import opened Bytes

  const HOST_SIZE := 64
  const PORT_SIZE := 8
  const PATH_SIZE := 192
  const REQ_SIZE := 384

  const SCHEME := "http://"
  const DEFAULT_PORT := "80"
  const DEFAULT_PATH := "/"
  const REQ_GET := "GET "
  const REQ_HOST := " HTTP/1.1\r\nHost: "
  const REQ_COLON := ":"
  const REQ_ENCODING := "\r\nAccept-Encoding: identity\r\n"
  const REQ_KEEP := "Connection: keep-alive\r\n\r\n"
  const REQ_END := REQ_ENCODING + REQ_KEEP
  const NUL := '\0'

  // ---- what a URL says ----

  datatype Parts = Parts(host: string, port: string, path: string)

  /** The characters up to the first '/' or ':'. */
  function HostPart(s: string): (r: string)
    ensures r <= s && |r| <= |s|
  {
    if s == "" || s[0] == '/' || s[0] == ':' then "" else [s[0]] + HostPart(s[1..])
  }

  /** The characters up to the first '/'. */
  function PortPart(s: string): (r: string)
    ensures r <= s && |r| <= |s|
  {
    if s == "" || s[0] == '/' then "" else [s[0]] + PortPart(s[1..])
  }

  predicate IsDigit(c: char) {
    '0' <= c <= '9'
  }

  predicate AllDigits(s: string) {
    forall k :: 0 <= k < |s| ==> IsDigit(s[k])
  }

  function WithPath(host: string, port: string, rest: string): Option<Parts> {
    if rest == "" then Some(Parts(host, port, DEFAULT_PATH))
    else if rest[0] == '/' && |rest| < PATH_SIZE then Some(Parts(host, port, rest))
    else None
  }

  function WithPort(host: string, s: string): Option<Parts> {
    var port := PortPart(s);
    if port == "" || |port| >= PORT_SIZE || !AllDigits(port) then None
    else WithPath(host, port, s[|port|..])
  }

  /** From the first character that is not part of the host. */
  function AfterHost(host: string, rest: string): Option<Parts> {
    if |host| >= HOST_SIZE then None
    else if rest != "" && rest[0] == ':' then WithPort(host, rest[1..])
    else if host == "" then None
    else WithPath(host, DEFAULT_PORT, rest)
  }

  /** `PARSE_URL`; None is the carry flag. */
  function Parse(url: string): Option<Parts> {
    if !(SCHEME <= url) then None
    else
      var s := url[|SCHEME|..];
      var host := HostPart(s);
      AfterHost(host, s[|host|..])
  }

  // ---- an independent grammar ----

  predicate ValidHost(host: string) {
    |host| <= 63 && '/' !in host && ':' !in host
  }

  predicate ValidPort(port: string) {
    1 <= |port| <= 7 && AllDigits(port)
  }

  predicate ValidPath(path: string) {
    1 <= |path| <= 191 && path[0] == '/'
  }

  /** The text after the host, for the parts that were found in it. */
  ghost predicate Tail(rest: string, p: Parts, port: string, path: string) {
    && rest == port + path
    && (port == ":" + p.port || (port == "" && p.port == "80" && p.host != ""))
    && (path == p.path || (path == "" && p.path == "/"))
  }

  /** "http://" host [":" port] [path], the port absent only after a host, an absent part standing for its default. */
  ghost predicate Reprints(url: string, p: Parts) {
    && ValidHost(p.host) && ValidPort(p.port) && ValidPath(p.path)
    && exists port: string, path: string ::
         url == "http://" + p.host + port + path && Tail(port + path, p, port, path)
  }

  lemma {:induction false} HostPartIs(s: string, host: string)
    requires '/' !in host && ':' !in host
    requires host <= s && (|s| > |host| ==> s[|host|] == '/' || s[|host|] == ':')
    ensures HostPart(s) == host
    decreases |host|
  {
    if host != "" {
      HostPartIs(s[1..], host[1..]);
    }
  }

  lemma {:induction false} HostPartStops(s: string)
    ensures var host := HostPart(s);
            && '/' !in host && ':' !in host
            && (|s| > |host| ==> s[|host|] == '/' || s[|host|] == ':')
    decreases |s|
  {
    if s != "" && s[0] != '/' && s[0] != ':' {
      HostPartStops(s[1..]);
    }
  }

  lemma {:induction false} PortPartIs(s: string, port: string)
    requires '/' !in port
    requires port <= s && (|s| > |port| ==> s[|port|] == '/')
    ensures PortPart(s) == port
    decreases |port|
  {
    if port != "" {
      PortPartIs(s[1..], port[1..]);
    }
  }

  lemma {:induction false} PortPartStops(s: string)
    ensures var port := PortPart(s);
            && '/' !in port
            && (|s| > |port| ==> s[|port|] == '/')
    decreases |s|
  {
    if s != "" && s[0] != '/' {
      PortPartStops(s[1..]);
    }
  }

  lemma DigitsHaveNoSlash(port: string)
    requires AllDigits(port)
    ensures '/' !in port
  {
  }

  lemma Splits(a: string, b: string)
    ensures a <= a + b && (a + b)[|a|..] == b
  {
  }

  lemma TailParsed(host: string, rest: string) returns (port: string, path: string)
    requires rest != "" ==> rest[0] == ':' || rest[0] == '/'
    requires AfterHost(host, rest).Some?
    ensures Tail(rest, AfterHost(host, rest).value, port, path)
    ensures var p := AfterHost(host, rest).value; p.host == host && ValidPort(p.port) && ValidPath(p.path)
  {
    if rest != "" && rest[0] == ':' {
      var digits := PortPart(rest[1..]);
      PortPartStops(rest[1..]);
      port, path := ":" + digits, rest[1..][|digits|..];
      assert rest == port + path;
    } else {
      port, path := "", rest;
      assert rest == "" + rest;
    }
  }

  /** Whatever the parser accepts reprints the input. */
  lemma ParsedReprints(url: string)
    requires Parse(url).Some?
    ensures Reprints(url, Parse(url).value)
  {
    hide AfterHost, HostPart, ValidPort, ValidPath, Tail;
    var s := url[|SCHEME|..];
    var host := HostPart(s);
    var rest := s[|host|..];
    HostPartStops(s);
    Short(host, rest);
    var port, path := TailParsed(host, rest);
    TailJoins(rest, Parse(url).value, port, path);
    Joined(url, host, port, path);
  }

  lemma Joined(url: string, host: string, port: string, path: string)
    requires SCHEME <= url && host <= url[|SCHEME|..] && url[|SCHEME|..][|host|..] == port + path
    ensures url == SCHEME + host + port + path
  {
    assert url[|SCHEME|..] == host + (port + path);
    Associates(SCHEME, host, port + path);
    Associates(SCHEME + host, port, path);
    assert url == SCHEME + url[|SCHEME|..];
  }

  lemma TailJoins(rest: string, p: Parts, port: string, path: string)
    requires Tail(rest, p, port, path)
    ensures rest == port + path && Tail(port + path, p, port, path)
  {
  }

  lemma Short(host: string, rest: string)
    requires AfterHost(host, rest).Some?
    ensures |host| < HOST_SIZE && AfterHost(host, rest).value.host == host
  {
  }

  lemma TailParses(p: Parts, rest: string, port: string, path: string)
    requires |p.host| < HOST_SIZE && ValidPort(p.port) && ValidPath(p.path) && Tail(rest, p, port, path)
    ensures AfterHost(p.host, rest) == Some(p)
  {
    if port != "" {
      DigitsHaveNoSlash(p.port);
      assert rest[1..] == p.port + path;
      Splits(p.port, path);
      PortPartIs(rest[1..], p.port);
    } else {
      assert rest == path;
    }
  }

  lemma ReprintedParses(url: string, p: Parts, port: string, path: string)
    requires ValidHost(p.host) && ValidPort(p.port) && ValidPath(p.path)
    requires url == SCHEME + p.host + port + path && Tail(port + path, p, port, path)
    ensures Parse(url) == Some(p)
  {
    hide AfterHost, HostPart;
    TailParses(p, port + path, port, path);
    assert url == SCHEME + (p.host + (port + path));
    Splits(SCHEME, p.host + (port + path));
    Splits(p.host, port + path);
    HostPartIs(p.host + (port + path), p.host);
  }

  /** The parser accepts exactly the grammar, and takes it apart in the only way. */
  lemma ParseIsGrammar(url: string, p: Parts)
    ensures Parse(url) == Some(p) <==> Reprints(url, p)
  {
    hide Parse, ValidHost, ValidPort, ValidPath, Tail;
    if Parse(url) == Some(p) {
      ParsedReprints(url);
    }
    if Reprints(url, p) {
      var port: string, path: string :|
        url == SCHEME + p.host + port + path && Tail(port + path, p, port, path);
      ReprintedParses(url, p, port, path);
    }
  }

  // ---- NUL-terminated buffers ----

  /** The buffer starts with `text` and a NUL. */
  predicate Terminated(s: seq<char>, text: string) {
    |text| < |s| && s[..|text|] == text && s[|text|] == NUL && NUL !in text
  }

  lemma CharAt(s: seq<char>, text: string, i: nat)
    requires Terminated(s, text) && i <= |text|
    ensures i < |text| ==> s[i] == text[i] && s[i] != NUL
    ensures i == |text| ==> s[i] == NUL
  {
    if i < |text| {
      assert s[i] == s[..|text|][i];
      assert text[i] in text;
    }
  }

  method StartsWith(s: seq<char>, prefix: seq<char>, ghost text: string, ghost front: string) returns (match_: bool)
    requires Terminated(s, text) && Terminated(prefix, front)
    ensures match_ <==> front <= text
  {
    var i := 0;
    CharAt(prefix, front, 0);
    CharAt(s, text, 0);
    while prefix[i] != NUL
      invariant i <= |front| && i <= |text| && front[..i] == text[..i]
      invariant prefix[i] == NUL <==> i == |front|
      decreases |front| - i
    {
      CharAt(prefix, front, i);
      CharAt(s, text, i);
      if prefix[i] != s[i] {
        assert i < |text| ==> front[i] != text[i];
        return false;
      }
      i := i + 1;
      CharAt(prefix, front, i);
    }
    return true;
  }

  method StrEq(s: seq<char>, t: seq<char>, ghost a: string, ghost b: string) returns (equal: bool)
    requires Terminated(s, a) && Terminated(t, b)
    ensures equal <==> a == b
  {
    hide Terminated;
    var i := 0;
    while true
      invariant i <= |a| && i <= |b| && a[..i] == b[..i]
      decreases |a| - i
    {
      CharAt(s, a, i);
      CharAt(t, b, i);
      InBounds(s, a);
      InBounds(t, b);
      if s[i] != t[i] {
        return false;
      }
      if s[i] == NUL {
        assert a == a[..i] && b == b[..i];
        return true;
      }
      i := i + 1;
    }
  }

  lemma InBounds(s: seq<char>, text: string)
    requires Terminated(s, text)
    ensures |text| < |s|
  {
  }

  /** Copies `s` with its NUL to `at` and says where the NUL went. */
  method AppendStr(req: array<char>, at: nat, s: seq<char>, ghost text: string) returns (end: nat)
    requires Terminated(s, text) && at + |text| < req.Length
    modifies req
    ensures end == at + |text| && req[..end] == old(req[..at]) + text && req[end] == NUL
  {
    hide Terminated;
    var i := 0;
    end := at;
    CharAt(s, text, 0);
    InBounds(s, text);
    while s[i] != NUL
      invariant i <= |text| && end == at + i
      invariant s[i] == NUL <==> i == |text|
      invariant req[..end] == old(req[..at]) + text[..i]
      decreases |text| - i
    {
      CharAt(s, text, i);
      req[end] := s[i];
      i := i + 1;
      end := end + 1;
      CharAt(s, text, i);
    }
    assert text[..i] == text;
    req[end] := NUL;
  }

  // ---- PARSE_URL ----

  /** `part` was copied of `whole`, and `rest` is left to copy. */
  ghost predicate Copying(whole: string, part: string, rest: string, copy: seq<char>, n: nat) {
    n == |part| <= |copy| && copy[..n] == part && whole == part + rest
  }

  lemma CopyOne(whole: string, part: string, rest: string, copy: seq<char>, n: nat)
    requires Copying(whole, part, rest, copy, n) && n < |copy| && rest != ""
    ensures Copying(whole, part + [rest[0]], rest[1..], copy[n := rest[0]], n + 1)
    ensures |whole| > n
  {
    Associates(part, [rest[0]], rest[1..]);
    assert rest == [rest[0]] + rest[1..];
  }

  lemma CopyStarts(whole: string, copy: seq<char>)
    ensures Copying(whole, "", whole, copy, 0)
  {
  }

  /** All is copied: with a NUL behind it the copy holds the text. */
  lemma CopyEnds(whole: string, part: string, copy: seq<char>, n: nat)
    requires Copying(whole, part, "", copy, n) && n < |copy| && NUL !in whole
    ensures n == |whole| && Terminated(copy[n := NUL], whole)
  {
    assert part + "" == part;
  }

  lemma HostHead(text: string, i: nat)
    requires i <= |text|
    ensures i == |text| || text[i] == '/' || text[i] == ':' ==> HostPart(text[i..]) == ""
    ensures i < |text| && text[i] != '/' && text[i] != ':' ==>
              && HostPart(text[i..]) != "" && HostPart(text[i..])[0] == text[i]
              && HostPart(text[i..])[1..] == HostPart(text[i + 1..])
  {
    if i < |text| {
      assert text[i..][1..] == text[i + 1..];
    }
  }

  lemma PartIsClean(url: seq<char>, text: string, from: nat, part: string)
    requires Terminated(url, text) && from <= |text| && part <= text[from..]
    ensures NUL !in part
  {
    forall k | 0 <= k < |part|
      ensures part[k] != NUL
    {
      assert part[k] == text[from..][k] == text[from + k] && text[from + k] in text;
    }
  }

  method CopyHost(url: seq<char>, from: nat, host: array<char>, ghost text: string) returns (ok: bool, i: nat)
    requires Terminated(url, text) && from <= |text| && host.Length == HOST_SIZE
    modifies host
    ensures var h := HostPart(text[from..]);
            && ok == (|h| < HOST_SIZE)
            && (ok ==> i == from + |h| && Terminated(host[..], h))
  {
    hide Terminated, HostPart, Copying;
    i := from;
    var n: nat := 0;
    ghost var h, part := HostPart(text[from..]), "";
    InBounds(url, text);
    CharAt(url, text, i);
    HostHead(text, i);
    CopyStarts(h, host[..]);
    while url[i] != NUL && url[i] != '/' && url[i] != ':'
      invariant i == from + n <= |text| && n < HOST_SIZE
      invariant i < |text| ==> url[i] == text[i] && url[i] != NUL
      invariant i == |text| ==> url[i] == NUL
      invariant Copying(h, part, HostPart(text[i..]), host[..], n)
      decreases |text| - i
    {
      HostHead(text, i);
      CopyOne(h, part, HostPart(text[i..]), host[..], n);
      if n == HOST_SIZE - 1 {
        return false, i;
      }
      part := part + [text[i]];
      ghost var copied := host[..][n := url[i]];
      host[n] := url[i];
      assert host[..] == copied;
      i, n := i + 1, n + 1;
      CharAt(url, text, i);
    }
    HostHead(text, i);
    PartIsClean(url, text, from, h);
    CopyEnds(h, part, host[..], n);
    ghost var copied := host[..][n := NUL];
    host[n] := NUL;
    assert host[..] == copied;
    return true, i;
  }

  lemma PortHead(text: string, i: nat)
    requires i <= |text|
    ensures i == |text| || text[i] == '/' ==> PortPart(text[i..]) == ""
    ensures i < |text| && text[i] != '/' ==>
              && PortPart(text[i..]) != "" && PortPart(text[i..])[0] == text[i]
              && PortPart(text[i..])[1..] == PortPart(text[i + 1..])
  {
    if i < |text| {
      assert text[i..][1..] == text[i + 1..];
    }
  }

  lemma DigitsSoFar(whole: string, part: string, rest: string, copy: seq<char>, n: nat)
    requires Copying(whole, part, rest, copy, n) && AllDigits(part)
    ensures rest != "" && !IsDigit(rest[0]) ==> !AllDigits(whole)
    ensures rest != "" && IsDigit(rest[0]) ==> AllDigits(part + [rest[0]])
    ensures rest == "" ==> AllDigits(whole)
  {
    if rest != "" && !IsDigit(rest[0]) {
      assert whole[n] == rest[0];
    }
    if rest == "" {
      assert whole == part;
    }
  }

  method CopyPort(url: seq<char>, from: nat, port: array<char>, ghost text: string) returns (ok: bool, i: nat)
    requires Terminated(url, text) && from <= |text| && port.Length == PORT_SIZE
    modifies port
    ensures var p := PortPart(text[from..]);
            && ok == (p != "" && |p| < PORT_SIZE && AllDigits(p))
            && (ok ==> i == from + |p| && Terminated(port[..], p))
  {
    hide Terminated, PortPart, Copying, AllDigits;
    i := from;
    var n: nat := 0;
    ghost var p, part := PortPart(text[from..]), "";
    InBounds(url, text);
    CharAt(url, text, i);
    NoDigits();
    CopyStarts(p, port[..]);
    while url[i] != NUL && url[i] != '/'
      invariant i == from + n <= |text| && n < PORT_SIZE
      invariant i < |text| ==> url[i] == text[i] && url[i] != NUL
      invariant i == |text| ==> url[i] == NUL
      invariant Copying(p, part, PortPart(text[i..]), port[..], n) && AllDigits(part)
      decreases |text| - i
    {
      PortHead(text, i);
      DigitsSoFar(p, part, PortPart(text[i..]), port[..], n);
      if url[i] < '0' || url[i] > '9' {
        return false, i;
      }
      CopyOne(p, part, PortPart(text[i..]), port[..], n);
      if n == PORT_SIZE - 1 {
        return false, i;
      }
      part := part + [text[i]];
      ghost var copied := port[..][n := url[i]];
      port[n] := url[i];
      assert port[..] == copied;
      i, n := i + 1, n + 1;
      CharAt(url, text, i);
    }
    PortHead(text, i);
    DigitsSoFar(p, part, "", port[..], n);
    PartIsClean(url, text, from, p);
    CopyEnds(p, part, port[..], n);
    ghost var copied := port[..][n := NUL];
    port[n] := NUL;
    assert port[..] == copied;
    CharAt(port[..], p, 0);
    return port[0] != NUL, i;
  }

  lemma NoDigits()
    ensures AllDigits("")
  {
  }

  /** What is left of the text. */
  function Left(text: string, i: nat): string
    requires i <= |text|
  {
    text[i..]
  }

  lemma LeftHead(text: string, i: nat)
    requires i <= |text|
    ensures i < |text| ==> Left(text, i) != "" && Left(text, i)[0] == text[i] && Left(text, i)[1..] == Left(text, i + 1)
    ensures i == |text| ==> Left(text, i) == ""
  {
  }

  lemma LeftIs(text: string, i: nat)
    requires i <= |text|
    ensures Left(text, i) == text[i..]
  {
  }

  method CopyPath(s: seq<char>, from: nat, path: array<char>, ghost text: string) returns (ok: bool)
    requires Terminated(s, text) && from <= |text| && path.Length == PATH_SIZE
    modifies path
    ensures ok == (|text[from..]| < PATH_SIZE) && (ok ==> Terminated(path[..], text[from..]))
  {
    hide Terminated, Copying, Left;
    ghost var whole := text[from..];
    var i, n: nat := from, 0;
    ghost var part := "";
    InBounds(s, text);
    CharAt(s, text, i);
    CopyStarts(whole, path[..]);
    assert Left(text, from) == whole by { LeftIs(text, from); }
    LeftHead(text, i);
    while s[i] != NUL
      invariant i == from + n <= |text| && n < PATH_SIZE
      invariant s[i] == NUL <==> i == |text|
      invariant Copying(whole, part, Left(text, i), path[..], n)
      decreases |text| - i
    {
      CharAt(s, text, i);
      LeftHead(text, i);
      CopyOne(whole, part, Left(text, i), path[..], n);
      if n == PATH_SIZE - 1 {
        return false;
      }
      part := part + [text[i]];
      ghost var copied := path[..][n := s[i]];
      path[n] := s[i];
      assert path[..] == copied;
      i, n := i + 1, n + 1;
      CharAt(s, text, i);
    }
    LeftHead(text, i);
    PartIsClean(s, text, from, whole);
    CopyEnds(whole, part, path[..], n);
    ghost var copied := path[..][n := NUL];
    path[n] := NUL;
    assert path[..] == copied;
    return true;
  }

  /** A string constant as it lies in the image. */
  function Asciiz(s: string): seq<char> {
    s + [NUL]
  }

  /** The program's buffers. */
  class Buffers {
    const host: array<char>
    const port: array<char>
    const path: array<char>
    const req: array<char>

    ghost predicate Valid() {
      && host.Length == HOST_SIZE && port.Length == PORT_SIZE && path.Length == PATH_SIZE && req.Length == REQ_SIZE
      && host != port && host != path && host != req && port != path && port != req && path != req
    }

    constructor ()
      ensures Valid() && fresh(host) && fresh(port) && fresh(path) && fresh(req)
    {
      host, port := new char[HOST_SIZE], new char[PORT_SIZE];
      path, req := new char[PATH_SIZE], new char[REQ_SIZE];
    }

    ghost predicate Hold(p: Parts)
      reads this, host, port, path
    {
      Terminated(host[..], p.host) && Terminated(port[..], p.port) && Terminated(path[..], p.path)
    }

    /** Takes the URL apart; false is the carry flag. */
    method ParseUrl(url: seq<char>, ghost text: string) returns (ok: bool)
      requires Valid() && Terminated(url, text)
      modifies host, port, path
      ensures ok == Parse(text).Some?
      ensures ok ==> Hold(Parse(text).value)
    {
      hide Terminated, HostPart, WithPort, WithPath;
      Constants();
      var found := StartsWith(url, Asciiz(SCHEME), text, SCHEME);
      if !found {
        return false;
      }
      var i: nat;
      ok, i := CopyHost(url, |SCHEME|, host, text);
      if !ok {
        return;
      }
      ghost var h := HostPart(text[|SCHEME|..]);
      assert text[|SCHEME|..][|h|..] == text[i..];
      CharAt(url, text, i);
      InBounds(url, text);
      if url[i] == ':' {
        ok := PortAndPath(url, i + 1, text, h);
      } else {
        CharAt(host[..], h, 0);
        if host[0] == NUL {
          return false;
        }
        CopyDefaultPort();
        ok := PathFrom(url, i, text, Parts(h, DEFAULT_PORT, ""));
      }
    }

    method CopyDefaultPort()
      requires Valid()
      modifies port
      ensures Terminated(port[..], DEFAULT_PORT)
    {
      Constants();
      var end := AppendStr(port, 0, Asciiz(DEFAULT_PORT), DEFAULT_PORT);
    }

    /** Writes the request for the parts in the buffers, terminated within the request buffer. */
    method BuildHttpRequest(ghost p: Parts)
      requires Valid() && Hold(p)
      modifies req
      ensures Terminated(req[..], Request(p))
    {
      hide Terminated, Request, Hold;
      RequestConstants();
      Sizes(p);
      RequestFits(p);
      Held(p);
      var end := AppendTarget(p);
      end := AppendPort(end, p);
      end := AppendStr(req, end, Asciiz(REQ_END), REQ_END);
      RequestIs(p);
      RequestIsTerminated(req[..], p);
    }

    lemma Held(p: Parts)
      requires Valid() && Hold(p)
      ensures Terminated(host[..], p.host) && Terminated(port[..], p.port) && Terminated(path[..], p.path)
    {
    }

    /** The request line and the host. */
    method AppendTarget(ghost p: Parts) returns (end: nat)
      requires Valid() && Terminated(path[..], p.path) && Terminated(host[..], p.host)
      modifies req
      ensures end == 21 + |p.path| + |p.host| < 21 + PATH_SIZE + HOST_SIZE
      ensures req[..end] == REQ_GET + p.path + REQ_HOST + p.host
    {
      hide Terminated;
      RequestConstants();
      InBounds(path[..], p.path);
      InBounds(host[..], p.host);
      end := AppendStr(req, 0, Asciiz(REQ_GET), REQ_GET);
      end := AppendStr(req, end, path[..], p.path);
      end := AppendStr(req, end, Asciiz(REQ_HOST), REQ_HOST);
      end := AppendStr(req, end, host[..], p.host);
    }

    method AppendPort(at: nat, ghost p: Parts) returns (end: nat)
      requires Valid() && Terminated(port[..], p.port) && at + 1 + |p.port| < req.Length
      modifies req
      ensures at <= end <= at + 1 + |p.port|
      ensures req[..end] == old(req[..at]) + if p.port == DEFAULT_PORT then "" else REQ_COLON + p.port
    {
      hide Terminated;
      RequestConstants();
      Constants();
      end := at;
      var default_ := StrEq(port[..], Asciiz(DEFAULT_PORT), p.port, DEFAULT_PORT);
      if !default_ {
        end := AppendStr(req, end, Asciiz(REQ_COLON), REQ_COLON);
        end := AppendStr(req, end, port[..], p.port);
      }
    }

    lemma Sizes(p: Parts)
      requires Valid() && Hold(p)
      ensures |p.host| < HOST_SIZE && |p.port| < PORT_SIZE && |p.path| < PATH_SIZE
      ensures NUL !in p.host && NUL !in p.port && NUL !in p.path
    {
    }

    /** From the digits of a port on. */
    method PortAndPath(url: seq<char>, from: nat, ghost text: string, ghost h: string) returns (ok: bool)
      requires Valid() && Terminated(url, text) && from <= |text| && Terminated(host[..], h)
      modifies port, path
      ensures ok == WithPort(h, text[from..]).Some?
      ensures ok ==> Hold(WithPort(h, text[from..]).value)
    {
      hide Terminated, PortPart, WithPath;
      var i: nat;
      ok, i := CopyPort(url, from, port, text);
      if ok {
        ghost var p := PortPart(text[from..]);
        assert text[from..][|p|..] == text[i..];
        ok := PathFrom(url, i, text, Parts(h, p, ""));
      }
    }

    /** From where the path should start; `p` says what host and port were found. */
    method PathFrom(url: seq<char>, from: nat, ghost text: string, ghost p: Parts) returns (ok: bool)
      requires Valid() && Terminated(url, text) && from <= |text|
      requires Terminated(host[..], p.host) && Terminated(port[..], p.port)
      modifies path
      ensures ok == WithPath(p.host, p.port, text[from..]).Some?
      ensures ok ==> Hold(WithPath(p.host, p.port, text[from..]).value)
    {
      hide Terminated;
      CharAt(url, text, from);
      InBounds(url, text);
      if url[from] == '/' {
        ok := CopyPath(url, from, path, text);
      } else if url[from] != NUL {
        ok := false;
      } else {
        Constants();
        ok := CopyPath(Asciiz(DEFAULT_PATH), 0, path, DEFAULT_PATH);
      }
    }
  }

  // ---- BUILD_HTTP_REQUEST ----

  /** The request's text; the default port is left out. */
  function Request(p: Parts): string {
    REQ_GET + p.path + REQ_HOST + p.host + (if p.port == DEFAULT_PORT then "" else REQ_COLON + p.port) + REQ_END
  }

  lemma RequestConstants()
    ensures Terminated(Asciiz(REQ_GET), REQ_GET) && Terminated(Asciiz(REQ_HOST), REQ_HOST)
    ensures Terminated(Asciiz(REQ_COLON), REQ_COLON) && Terminated(Asciiz(REQ_END), REQ_END)
    ensures |REQ_GET| == 4 && |REQ_HOST| == 17 && |REQ_COLON| == 1 && |REQ_END| == 55
  {
    EndIsClean();
  }

  lemma EndIsClean()
    ensures NUL !in REQ_END
  {
    assert NUL !in REQ_ENCODING;
    assert NUL !in REQ_KEEP;
  }

  /** Parts that fit their buffers make a request that fits its own, with its NUL. */
  lemma RequestFits(p: Parts)
    requires |p.host| < HOST_SIZE && |p.port| < PORT_SIZE && |p.path| < PATH_SIZE
    ensures |Request(p)| <= 338 < REQ_SIZE
  {
    RequestConstants();
  }

  lemma RequestIs(p: Parts)
    ensures Request(p) ==
            REQ_GET + p.path + REQ_HOST + p.host + (if p.port == DEFAULT_PORT then "" else REQ_COLON + p.port) + REQ_END
  {
  }

  /** The request as it goes out: a port other than 80 is named in the Host field. */
  lemma RequestText(p: Parts)
    ensures Request(p) ==
            "GET " + p.path + " HTTP/1.1\r\nHost: " + p.host + (if p.port == "80" then "" else ":" + p.port) +
            "\r\nAccept-Encoding: identity\r\nConnection: keep-alive\r\n\r\n"
  {
  }

  lemma RequestIsTerminated(req: seq<char>, p: Parts)
    requires |Request(p)| < |req| && req[..|Request(p)|] == Request(p) && req[|Request(p)|] == NUL
    requires NUL !in p.host && NUL !in p.port && NUL !in p.path
    ensures Terminated(req, Request(p))
  {
    RequestConstants();
  }

  lemma Constants()
    ensures Terminated(Asciiz(SCHEME), SCHEME) && Terminated(Asciiz(DEFAULT_PORT), DEFAULT_PORT)
    ensures Terminated(Asciiz(DEFAULT_PATH), DEFAULT_PATH) && DEFAULT_PATH[0..] == DEFAULT_PATH
  {
  }
}
