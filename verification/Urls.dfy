/** URLs as far as chrome/common/x_callback_url.cc looks at them: GURL's view of a text. */
module Urls {
  import opened Options
  import opened Decimals
  import opened QueryStrings

  /**
   The components of a GURL the code looks at. Only a standard URL has a host; in another
   one the authority is a part of the path.
   */
  datatype Url =
    | InvalidUrl
    | Url(scheme: string, standard: bool, host: string, path: string, query: string)

  predicate IsLetter(c: char) {
    'a' <= c <= 'z' || 'A' <= c <= 'Z'
  }

  /** Section 3.1 of RFC 3986. */
  predicate ValidScheme(scheme: string) {
    && scheme != "" && IsLetter(scheme[0])
    && forall i :: 0 <= i < |scheme| ==>
      IsLetter(scheme[i]) || '0' <= scheme[i] <= '9' || scheme[i] in {'+', '-', '.'}
  }

  /** The canonical form of a scheme. */
  function LowerCase(s: string): string {
    seq(|s|, i requires 0 <= i < |s| => if 'A' <= s[i] <= 'Z' then s[i] - 'A' + 'a' else s[i])
  }

  /** What precedes the first `c`, and what follows it. */
  function Cut(s: string, c: char): string {
    s[..IndexOf(s, c)]
  }

  function Rest(s: string, c: char): string {
    var n := IndexOf(s, c);
    if n < |s| then s[n + 1..] else ""
  }

  // ---------- The authority of a standard URL ----------

  /** What follows the user information. */
  function Server(authority: string): string
    decreases |authority|
  {
    if '@' in authority then
      AtIsInside(authority);
      Server(Rest(authority, '@'))
    else authority
  }

  lemma AtIsInside(s: string)
    requires '@' in s
    ensures IndexOf(s, '@') < |s|
  {
    assert s[..|s|] == s;
  }

  function HostOf(authority: string): string {
    LowerCase(Cut(Server(authority), ':'))
  }

  predicate IsPort(port: string) {
    AllDigits(port) && ValueOf(port) <= 65535
  }

  lemma PortIsDecimal(n: nat)
    ensures IsPort(Digits(n)) <==> n <= 65535
  {
    DigitsStandForNumber(n);
  }

  predicate ValidPort(authority: string) {
    IsPort(Rest(Server(authority), ':'))
  }

  const FILE := "file"
  const FILESYSTEM := "filesystem"

  /**
   The host of a standard URL, if the authority is valid. A file URL takes neither user nor
   port but may lack a host; a filesystem URL has a URL inside instead of an authority.
   */
  function HostFor(scheme: string, authority: string): Option<string> {
    if scheme == FILESYSTEM then None
    else if scheme == FILE then
      if '@' in authority || ':' in authority then None else Some(LowerCase(authority))
    else if HostOf(authority) == "" || !ValidPort(authority) then None
    else Some(HostOf(authority))
  }

  predicate HostChar(c: char) {
    IsLetter(c) || '0' <= c <= '9' || c in {'-', '.', '_'}
  }

  /** Digits of a number in any notation, and dots. */
  predicate NumberChar(c: char) {
    '0' <= c <= '9' || 'a' <= c <= 'f' || 'A' <= c <= 'F' || c in {'x', 'X', '.'}
  }

  /**
   The server is spelled out and is a name: no escapes, no brackets, nothing to be mapped to
   ASCII, no number to be read as an address.
   */
  predicate IsSpelledOut(authority: string) {
    && '\\' !in authority && (forall c :: c in Server(authority) ==> HostChar(c) || c == ':')
    && var host := Cut(Server(authority), ':');
    host != "" ==> exists c :: c in host && !NumberChar(c)
  }

  lemma PlainServer(authority: string)
    requires '@' !in authority && ':' !in authority
    ensures HostOf(authority) == LowerCase(authority) && ValidPort(authority)
  {
    assert authority[..|authority|] == authority;
  }

  /** The host and the port of an authority with all three parts. */
  lemma {:induction false} ServerAfterUser(user: string, server: string)
    requires '@' !in server
    ensures Server(user + "@" + server) == server
    decreases |user|
  {
    var all := user + "@" + server;
    assert all[|user|] == '@';
    AtIsInside(all);
    var n := IndexOf(all, '@');
    FirstAt(user, server);
    if '@' in user {
      AtIsInside(user);
      assert Rest(all, '@') == user[n + 1..] + "@" + server;
      ServerAfterUser(user[n + 1..], server);
    } else {
      assert Rest(all, '@') == server;
    }
  }

  lemma FirstAt(user: string, server: string)
    ensures IndexOf(user + "@" + server, '@') == IndexOf(user, '@')
  {
    var all, n := user + "@" + server, IndexOf(user, '@');
    assert all[..n] == user[..n];
    if n == |user| {
      assert all[n] == '@';
    } else {
      assert all[n] == user[n];
    }
    IndexUnique(all, '@', n);
  }

  lemma HostAndPort(user: string, host: string, port: string)
    requires '@' !in host && '@' !in port && ':' !in host
    ensures var authority := user + "@" + (host + (":" + port));
      HostOf(authority) == LowerCase(host) && (ValidPort(authority) <==> IsPort(port))
  {
    ServerAfterUser(user, host + (":" + port));
    CutAfter(host, ":" + port, ':');
    assert (":" + port)[0] == ':' && (":" + port)[1..] == port;
    assert host + "" == host;
  }

  /** Capitals become small letters, by the distance in ASCII, and nothing else changes. */
  lemma LowerCaseAt(s: string, i: nat)
    requires i < |s|
    ensures |LowerCase(s)| == |s| && !('A' <= LowerCase(s)[i] <= 'Z')
    ensures LowerCase(s)[i] == s[i] || ('a' <= LowerCase(s)[i] <= 'z' && LowerCase(s)[i] as int == s[i] as int + 32)
    ensures LowerCase(s)[i] != s[i] ==> 'A' <= s[i] <= 'Z'
  {
  }

  lemma LowerCaseStays(s: string)
    requires forall i :: 0 <= i < |s| ==> !('A' <= s[i] <= 'Z')
    ensures LowerCase(s) == s
  {
  }

  // ---------- Splitting ----------

  /** Splits a URL; `standard` are the schemes of standard URLs. */
  function ParseUrl(text: string, standard: set<string>): Url {
    var scheme, unfragmented := Cut(text, ':'), Cut(Rest(text, ':'), '#');
    if ':' !in text || !ValidScheme(scheme) then InvalidUrl
    else ParseBody(LowerCase(scheme), LowerCase(scheme) in standard, Cut(unfragmented, '?'), Rest(unfragmented, '?'))
  }

  function ParseBody(scheme: string, standard: bool, body: string, query: string): Url {
    if !standard then Url(scheme, false, "", body, query)
    else if |body| < 2 || body[..2] != "//" then InvalidUrl
    else
      var slash := IndexOf(body[2..], '/');
      var host := HostFor(scheme, body[2..][..slash]);
      if host.None? then InvalidUrl else Url(scheme, true, host.value, body[2..][slash..], query)
  }

  lemma CutAfter(a: string, b: string, c: char)
    requires c !in a
    ensures Cut(a + b, c) == a + Cut(b, c) && Rest(a + b, c) == Rest(b, c)
  {
    IndexAfter(a, b, c);
    var n := IndexOf(b, c);
    assert (a + b)[..|a| + n] == a + b[..n];
    if n < |b| {
      assert (a + b)[|a| + n + 1..] == b[n + 1..];
    }
  }

  lemma {:induction false} IndexAfter(a: string, b: string, c: char)
    requires c !in a
    ensures IndexOf(a + b, c) == |a| + IndexOf(b, c)
  {
    if a == "" {
      assert a + b == b;
    } else {
      assert (a + b)[0] == a[0] && (a + b)[1..] == a[1..] + b;
      IndexAfter(a[1..], b, c);
    }
  }

  /** An authority ends at the first of these. */
  predicate EndsAuthority(tail: string) {
    tail == "" || tail[0] in {'/', '?', '#'}
  }

  predicate PlainAuthority(host: string) {
    '/' !in host && '?' !in host && '#' !in host
  }

  lemma PlainName(name: string)
    requires name != "" && forall i :: 0 <= i < |name| ==> 'a' <= name[i] <= 'z' || name[i] == '-'
    requires exists c :: c in name && !NumberChar(c)
    ensures PlainAuthority(name) && IsSpelledOut(name)
    ensures forall scheme :: HostFor(scheme, name) == if scheme == FILESYSTEM then None else Some(name)
  {
    PlainServer(name);
    LowerCaseStays(name);
    assert name[..|name|] == name;
  }

  /** A URL with the authority `host`, and a path, a query and a fragment in `tail`. */
  function TextOf(scheme: string, host: string, tail: string): string {
    scheme + (":" + ("//" + (host + tail)))
  }

  function PathOf(tail: string): string {
    Cut(Cut(tail, '#'), '?')
  }

  function QueryOf(tail: string): string {
    Rest(Cut(tail, '#'), '?')
  }

  lemma SplitScheme(scheme: string, rest: string)
    requires ':' !in scheme
    ensures ':' in scheme + (":" + rest)
    ensures Cut(scheme + (":" + rest), ':') == scheme && Rest(scheme + (":" + rest), ':') == rest
  {
    var colon := ":" + rest;
    CutAfter(scheme, colon, ':');
    assert colon[0] == ':' && colon[1..] == rest;
    assert (scheme + colon)[|scheme|] == ':';
  }

  lemma SplitRest(host: string, tail: string)
    requires PlainAuthority(host)
    ensures var unfragmented := Cut("//" + (host + tail), '#');
      && Cut(unfragmented, '?') == "//" + (host + PathOf(tail))
      && Rest(unfragmented, '?') == QueryOf(tail)
  {
    var head := "//" + host;
    assert "//" + (host + tail) == head + tail;
    assert "//" + (host + PathOf(tail)) == head + PathOf(tail);
    CutAfter(head, tail, '#');
    CutAfter(head, Cut(tail, '#'), '?');
  }

  lemma PathStartsWithSlash(tail: string)
    requires EndsAuthority(tail)
    ensures PathOf(tail) == "" || PathOf(tail)[0] == '/'
  {
  }

  /** In what follows "//" the authority ends at the first slash. */
  lemma SlashEndsHost(host: string, path: string)
    requires '/' !in host && (path == "" || path[0] == '/')
    ensures ("//" + (host + path))[..2] == "//" && ("//" + (host + path))[2..] == host + path
    ensures IndexOf(host + path, '/') == |host|
    ensures (host + path)[..|host|] == host && (host + path)[|host|..] == path
  {
    IndexAfter(host, path, '/');
  }

  lemma ParseAuthority(scheme: string, authority: string, tail: string, standard: set<string>)
    requires ValidScheme(scheme) && PlainAuthority(authority) && EndsAuthority(tail)
    requires LowerCase(scheme) in standard ==> IsSpelledOut(authority)
    ensures ParseUrl(TextOf(scheme, authority, tail), standard) ==
      if LowerCase(scheme) !in standard then
        Url(LowerCase(scheme), false, "", "//" + (authority + PathOf(tail)), QueryOf(tail))
      else
        var host := HostFor(LowerCase(scheme), authority);
        if host.None? then InvalidUrl else Url(LowerCase(scheme), true, host.value, PathOf(tail), QueryOf(tail))
  {
    SplitScheme(scheme, "//" + (authority + tail));
    SplitRest(authority, tail);
    PathStartsWithSlash(tail);
    SlashEndsHost(authority, PathOf(tail));
  }

  lemma ParseOpaque(scheme: string, first: string, tail: string, standard: set<string>)
    requires ValidScheme(scheme) && LowerCase(scheme) !in standard && PlainAuthority(first)
    ensures ParseUrl(scheme + (":" + (first + tail)), standard)
      == Url(LowerCase(scheme), false, "", first + PathOf(tail), QueryOf(tail))
  {
    SplitScheme(scheme, first + tail);
    CutAfter(first, tail, '#');
    CutAfter(first, Cut(tail, '#'), '?');
  }
}
