/**
 * A simplified model of Go's net/url as the service uses it: Parse, the
 * scheme and host that origin checks compare, Hostname, String and Query.
 * Percent-unescaping is not modelled, and a bracketed host is not checked to
 * hold an IPv6 address.
 */
module Urls {
  import opened Common

  /** A parsed URL (net/url.URL without RawPath, RawFragment and ForceQuery). */
  datatype Url = Url(
    scheme: string,        // lower-cased scheme, "" when there is none
    opaquePart: string,      // the text after "scheme:" when it does not start with '/'
    user: Option<string>,  // the userinfo before the last '@' of the authority
    host: string,          // host or host:port
    path: string,
    rawQuery: string,
    fragment: string,
    omitHost: bool)        // "scheme:/path": no authority was written

  predicate IsAlpha(c: char) {
    ('a' <= c <= 'z') || ('A' <= c <= 'Z')
  }

  predicate IsAlnum(c: char) {
    IsAlpha(c) || IsDigit(c)
  }

  function LowerAscii(s: string): (r: string)
    ensures |r| == |s|
  {
    if |s| == 0 then ""
    else [if 'A' <= s[0] <= 'Z' then (s[0] as int + 32) as char else s[0]] + LowerAscii(s[1..])
  }

  /** A byte below 0x20 or DEL: url.Parse refuses URLs holding one. */
  predicate HasControl(s: string) {
    |s| > 0 && (s[0] as int < 0x20 || s[0] as int == 0x7F || HasControl(s[1..]))
  }

  /** The outcome of getScheme: the scheme text and the rest, or an error. */
  datatype SchemeSplit = NoScheme | SchemeAt(colon: nat) | MissingScheme

  /**
   * getScheme: scans letters, then digits, '+', '-' or '.' after the first
   * position, up to a ':'; a ':' at position 0 is an error and any other
   * character means the URL has no scheme.
   */
  function GetScheme(s: string, from: nat): (r: SchemeSplit)
    requires from <= |s| && ':' !in s[..from]
    ensures r.SchemeAt? ==> 0 < r.colon < |s| && s[r.colon] == ':' && ':' !in s[..r.colon]
    ensures r.MissingScheme? ==> |s| > 0 && s[0] == ':'
    decreases |s| - from
  {
    if from == |s| then NoScheme
    else
      var c := s[from];
      assert s[..from + 1] == s[..from] + [c];
      if IsAlpha(c) then GetScheme(s, from + 1)
      else if IsDigit(c) || c == '+' || c == '-' || c == '.' then
        if from == 0 then NoScheme else GetScheme(s, from + 1)
      else if c == ':' then
        if from == 0 then MissingScheme else SchemeAt(from)
      else NoScheme
  }

  predicate ValidUserinfoChar(c: char) {
    IsAlnum(c) || c == '-' || c == '.' || c == '_' || c == ':' || c == '~' || c == '!' || c == '$'
    || c == '&' || c == '\'' || c == '(' || c == ')' || c == '*' || c == '+' || c == ','
    || c == ';' || c == '=' || c == '%' || c == '@'
  }

  /** validOptionalPort: empty, or ':' followed only by digits. */
  predicate ValidOptionalPort(p: string) {
    p == "" || (p[0] == ':' && AllDigits(p[1..]))
  }

  /** ASCII characters url.Parse accepts in a host name. */
  predicate ValidHostChar(c: char) {
    c as int >= 0x80 || IsAlnum(c) || c == '-' || c == '_' || c == '.' || c == '~' || c == '!'
    || c == '$' || c == '&' || c == '\'' || c == '(' || c == ')' || c == '*' || c == '+' || c == ','
    || c == ';' || c == '=' || c == ':' || c == '[' || c == ']' || c == '<' || c == '>' || c == '"'
    || c == '%'
  }

  predicate ValidHostChars(h: string) {
    forall k :: 0 <= k < |h| ==> ValidHostChar(h[k])
  }

  /**
   * parseHost: a host starting with '[' needs a closing ']' and only an
   * optional ":port" after the last one; any other host needs a numeric
   * port after its last ':'. The text between the brackets is not checked
   * to be an IPv6 address.
   */
  function ParseHost(h: string): (r: Option<string>)
    ensures r.Some? ==> r.value == h && '#' !in h && '@' !in h && '/' !in h
  {
    if HasPrefix(h, "[") then
      var j := LastIndexOf(h, ']');
      if j < 0 || !ValidOptionalPort(h[j + 1..]) then None
      else if !ValidHostChars(h) then None
      else Some(h)
    else
      var i := LastIndexOf(h, ':');
      if i >= 0 && !ValidOptionalPort(h[i..]) then None
      else if !ValidHostChars(h) then None
      else Some(h)
  }

  lemma ValidHostCharsConcat(a: string, b: string)
    requires ValidHostChars(a) && ValidHostChars(b)
    ensures ValidHostChars(a + b)
  {
    forall k | 0 <= k < |a + b| ensures ValidHostChar((a + b)[k]) {
      if k >= |a| { assert (a + b)[k] == b[k - |a|]; }
    }
  }

  /** A host opening with '[' whose last ']' is followed by an optional port parses. */
  lemma BracketedHost(h: string, j: nat)
    requires 0 < j < |h| && h[0] == '[' && h[j] == ']' && ']' !in h[j + 1..]
    requires ValidOptionalPort(h[j + 1..]) && ValidHostChars(h)
    ensures ParseHost(h) == Some(h)
  {
    assert h[..1] == "[";
  }

  /** `[addr]`, for host characters without ']' inside, is a host. */
  lemma BareBracketedAccepted(addr: string)
    requires ']' !in addr && ValidHostChars(addr)
    ensures ParseHost("[" + addr + "]") == Some("[" + addr + "]")
  {
    var h := "[" + addr + "]";
    ValidHostCharsConcat("[", addr);
    ValidHostCharsConcat("[" + addr, "]");
    assert h[|addr| + 1] == ']' && h[|addr| + 2..] == "";
    BracketedHost(h, |addr| + 1);
  }

  /** `[addr]:port`, for host characters without ']' inside and a numeric port, is a host. */
  lemma PortBracketedAccepted(addr: string, port: string)
    requires ']' !in addr && ValidHostChars(addr) && AllDigits(port)
    ensures ParseHost("[" + addr + "]:" + port) == Some("[" + addr + "]:" + port)
  {
    var h := "[" + addr + "]:" + port;
    var tail := ":" + port;
    assert h == ("[" + addr + "]") + tail;
    assert tail[1..] == port;
    assert ValidHostChars(port) by {
      forall k | 0 <= k < |port| ensures ValidHostChar(port[k]) { assert IsDigit(port[k]); }
    }
    ValidHostCharsConcat("[", addr);
    ValidHostCharsConcat("[" + addr, "]");
    ValidHostCharsConcat(":", port);
    ValidHostCharsConcat("[" + addr + "]", tail);
    assert h[|addr| + 1] == ']' && h[|addr| + 2..] == tail;
    assert ']' !in tail;
    BracketedHost(h, |addr| + 1);
  }

  /** The loopback address written as an IPv6 literal without a port is a host. */
  lemma LoopbackLiteralAccepted()
    ensures ParseHost("[::1]") == Some("[::1]")
  {
    assert ValidHostChars("::1");
    BareBracketedAccepted("::1");
  }

  /** parseAuthority: userinfo before the last '@', host after it. */
  function ParseAuthority(a: string): (r: Option<(Option<string>, string)>)
    ensures r.Some? ==> '#' !in r.value.1 && '@' !in r.value.1
  {
    var i := LastIndexOf(a, '@');
    if i < 0 then
      match ParseHost(a)
      case None => None
      case Some(h) => Some((None, h))
    else
      match ParseHost(a[i + 1..])
      case None => None
      case Some(h) =>
        if forall k :: 0 <= k < i ==> ValidUserinfoChar(a[k]) then Some((Some(a[..i]), h))
        else None
  }

  /** The part of `s` before the first `c`, and the part after it (strings.Cut). */
  function Cut(s: string, c: char): (r: (string, string))
    ensures c !in r.0
    ensures c !in s ==> r == (s, "")
    ensures c in s ==> s == r.0 + [c] + r.1
  {
    var i := IndexOf(s, c);
    if i < 0 then (s, "")
    else
      assert s == s[..i] + [c] + s[i + 1..];
      (s[..i], s[i + 1..])
  }

  /** url.Parse, as far as the service's inputs need it (None is an error). */
  function Parse(raw: string): (r: Option<Url>)
    ensures r.Some? ==> '#' !in r.value.host && '@' !in r.value.host
    ensures r.Some? && r.value.user.Some? ==> r.value.opaquePart == "" && !r.value.omitHost
  {
    var (beforeFragment, fragment) := Cut(raw, '#');
    if HasControl(beforeFragment) then None
    else if beforeFragment == "*" then Some(Url("", "", None, "", "*", "", fragment, false))
    else
      match GetScheme(beforeFragment, 0)
      case MissingScheme => None
      case NoScheme => ParseRest("", beforeFragment, fragment)
      case SchemeAt(k) => ParseRest(LowerAscii(beforeFragment[..k]), beforeFragment[k + 1..], fragment)
  }

  function ParseRest(scheme: string, afterScheme: string, fragment: string): (r: Option<Url>)
    ensures r.Some? ==> '#' !in r.value.host && '@' !in r.value.host
    ensures r.Some? ==> r.value.scheme == scheme
    ensures r.Some? && r.value.user.Some? ==> r.value.opaquePart == "" && !r.value.omitHost
  {
    var (rest, rawQuery) := Cut(afterScheme, '?');
    if !HasPrefix(rest, "/") && scheme != "" then
      Some(Url(scheme, rest, None, "", "", rawQuery, fragment, false))
    else if !HasPrefix(rest, "/") && ':' in Cut(rest, '/').0 then
      None  // "first path segment in URL cannot contain colon"
    else if (scheme != "" || !HasPrefix(rest, "///")) && HasPrefix(rest, "//") then
      var (authority, path) := SplitAuthority(rest[2..]);
      match ParseAuthority(authority)
      case None => None
      case Some((user, host)) =>
        Some(Url(scheme, "", user, host, path, rawQuery, fragment, false))
    else
      Some(Url(scheme, "", None, "", rest, rawQuery, fragment, scheme != "" && HasPrefix(rest, "/")))
  }

  /** The authority runs up to the first '/', which starts the path. */
  function SplitAuthority(s: string): (r: (string, string))
    ensures '/' !in r.0 && s == r.0 + r.1
    ensures r.1 == "" || r.1[0] == '/'
  {
    var i := IndexOf(s, '/');
    if i < 0 then (s, "") else (s[..i], s[i..])
  }

  /** The text origin checks compare: scheme + "://" + host (port included). */
  function Origin(u: Url): string {
    u.scheme + "://" + u.host
  }

  /** URL.Hostname: the host without a valid ":port" suffix or IPv6 brackets. */
  function Hostname(u: Url): (h: string)
    ensures |h| <= |u.host|
  {
    var i := LastIndexOf(u.host, ':');
    var h := if i >= 0 && ValidOptionalPort(u.host[i..]) then u.host[..i] else u.host;
    if HasPrefix(h, "[") && HasSuffix(h, "]") && |h| >= 2 then h[1..|h| - 1] else h
  }

  /** URL.String, without percent-escaping. */
  function Render(u: Url): string {
    var head :=
      if u.opaquePart != "" then u.scheme + ":" + u.opaquePart
      else
        (if u.scheme != "" then u.scheme + ":" else "")
        + (if (u.scheme != "" || u.host != "" || u.user.Some?) && !(u.omitHost && u.host == "" && u.user.None?)
           then (if u.host != "" || u.path != "" || u.user.Some? then "//" else "")
                + (if u.user.Some? then u.user.value + "@" else "")
                + u.host
           else "")
        + u.path;
    head + (if u.rawQuery != "" then "?" + u.rawQuery else "")
         + (if u.fragment != "" then "#" + u.fragment else "")
  }

  // ------------------------------------------------------------------
  // Query values (url.Values)
  // ------------------------------------------------------------------

  type Values = map<string, seq<string>>

  /**
   * url.ParseQuery without unescaping: '&'-separated pieces, empty pieces and
   * pieces holding ';' skipped, each cut at its first '=' and appended to the
   * values of its key in order.
   */
  function ParseQuery(raw: string): Values {
    AddPieces(map[], Split(raw, '&'))
  }

  function AddPieces(m: Values, pieces: seq<string>): Values
    decreases |pieces|
  {
    if |pieces| == 0 then m
    else
      var p := pieces[0];
      if p == "" || ';' in p then AddPieces(m, pieces[1..])
      else
        var (k, v) := Cut(p, '=');
        AddPieces(m[k := (if k in m then m[k] else []) + [v]], pieces[1..])
  }

  /** Values.Set: the key gets exactly one value, every other key is kept. */
  function SetValue(q: Values, key: string, value: string): (r: Values)
    ensures key in r && r[key] == [value]
    ensures forall k :: k in q && k != key ==> k in r && r[k] == q[k]
    ensures r.Keys == q.Keys + {key}
  {
    q[key := [value]]
  }
}
