/**
 * Spam protection: the per-IP sliding-window rate limiter and the pure
 * heuristics (honeypot field, link count and blocked patterns, minimum
 * time between rendering the form and submitting it). Times are
 * nanoseconds for the limiter and Unix seconds for the form timestamp;
 * both are parameters.
 */
module Spam {
  import opened Common

  // ------------------------------------------------------------------
  // Rate limiting
  // ------------------------------------------------------------------

  const NanosPerSecond := 1_000_000_000

  /** The timestamps strictly after `cutoff` (t.After(cutoff)), in their order. */
  function Unexpired(ts: seq<int>, cutoff: int): (r: seq<int>)
    ensures |r| <= |ts|
  {
    if |ts| == 0 then []
    else Unexpired(ts[..|ts| - 1], cutoff) + (if ts[|ts| - 1] > cutoff then [ts[|ts| - 1]] else [])
  }

  /** The timestamps stored for `ip`; a missing entry is an empty list. */
  function Stored(entries: map<string, seq<int>>, ip: string): seq<int> {
    if ip in entries then entries[ip] else []
  }

  /**
   * Allow as a function: the decision and the new entries. A non-positive
   * `max` disables limiting; otherwise the expired timestamps of `ip` are
   * dropped and `now` is recorded only when fewer than `max` remain.
   */
  function AllowStep(window: int, max: int, entries: map<string, seq<int>>, ip: string, now: int)
    : (bool, map<string, seq<int>>)
  {
    if max <= 0 then (true, entries)
    else
      var valid := Unexpired(Stored(entries, ip), now - window);
      if |valid| >= max then (false, entries[ip := valid])
      else (true, entries[ip := valid + [now]])
  }

  /** The cleanup sweep: every IP keeps its unexpired timestamps, or goes when none is left. */
  function Swept(entries: map<string, seq<int>>, cutoff: int): map<string, seq<int>> {
    map ip | ip in entries && Unexpired(entries[ip], cutoff) != [] :: Unexpired(entries[ip], cutoff)
  }

  class RateLimiter {
    /** time.Duration(windowSeconds) * time.Second, an int64 product that wraps. */
    const window: int
    /** At most this many requests per IP and window; 0 or less disables limiting. */
    const max: int
    var entries: map<string, seq<int>>

    /** NewRateLimiter (the sweep goroutine it starts is the Sweep method). */
    constructor(windowSeconds: int, max: int)
      ensures window == WrapInt64(windowSeconds * NanosPerSecond) && this.max == max
      ensures entries == map[]
    {
      window := WrapInt64(windowSeconds * NanosPerSecond);
      this.max := max;
      entries := map[];
    }

    /** The in-place filter of one IP's timestamps. */
    static method Prune(ts: seq<int>, cutoff: int) returns (valid: seq<int>)
      ensures valid == Unexpired(ts, cutoff)
    {
      valid := [];
      for i := 0 to |ts|
        invariant valid == Unexpired(ts[..i], cutoff)
      {
        assert ts[..i + 1][..i] == ts[..i];
        if ts[i] > cutoff {
          valid := valid + [ts[i]];
        }
      }
      assert ts[..|ts|] == ts;
    }

    /** Allow, at time `now`. */
    method Allow(ip: string, now: int) returns (allowed: bool)
      modifies this
      ensures (allowed, entries) == AllowStep(window, max, old(entries), ip, now)
    {
      if max <= 0 {
        return true;
      }
      var cutoff := now - window;
      var timestamps := if ip in entries then entries[ip] else [];
      var valid := Prune(timestamps, cutoff);
      if |valid| >= max {
        entries := entries[ip := valid];
        return false;
      }
      entries := entries[ip := valid + [now]];
      return true;
    }

    /** One tick of cleanup, at time `now`. */
    method Sweep(now: int)
      modifies this
      ensures entries == Swept(old(entries), now - window)
    {
      var cutoff := now - window;
      var pending := entries.Keys;
      ghost var before := entries;
      while pending != {}
        invariant SweptExcept(entries, before, pending, cutoff)
        decreases pending
      {
        var ip :| ip in pending;
        SweepStep(entries, before, pending, cutoff, ip);
        var valid := Prune(entries[ip], cutoff);
        if |valid| == 0 {
          entries := entries - {ip};
        } else {
          entries := entries[ip := valid];
        }
        pending := pending - {ip};
      }
      SweptExactly(entries, before, cutoff);
    }
  }

  /**
   * Part way through a sweep of `before`: the IPs still pending are as they
   * were, every other IP holds its unexpired timestamps and is gone when it
   * has none.
   */
  ghost predicate SweptExcept(m: map<string, seq<int>>, before: map<string, seq<int>>, pending: set<string>, cutoff: int) {
    && pending <= before.Keys && m.Keys <= before.Keys
    && (forall ip :: ip in pending ==> ip in m && m[ip] == before[ip])
    && (forall ip :: ip in before && ip !in pending ==>
          (ip in m <==> Unexpired(before[ip], cutoff) != []) && (ip in m ==> m[ip] == Unexpired(before[ip], cutoff)))
  }

  /** Sweeping one more pending IP. */
  lemma SweepStep(m: map<string, seq<int>>, before: map<string, seq<int>>, pending: set<string>, cutoff: int, ip: string)
    requires SweptExcept(m, before, pending, cutoff) && ip in pending
    ensures var valid := Unexpired(m[ip], cutoff);
      SweptExcept(if valid == [] then m - {ip} else m[ip := valid], before, pending - {ip}, cutoff)
  {
  }

  /** A map holding, for each IP of `before`, its unexpired timestamps when there are any, is the swept map. */
  lemma SweptExactly(m: map<string, seq<int>>, before: map<string, seq<int>>, cutoff: int)
    requires m.Keys <= before.Keys
    requires forall ip :: ip in before ==>
      (ip in m <==> Unexpired(before[ip], cutoff) != []) && (ip in m ==> m[ip] == Unexpired(before[ip], cutoff))
    ensures m == Swept(before, cutoff)
  {
    var s := Swept(before, cutoff);
    assert m.Keys == s.Keys;
    forall ip | ip in m
      ensures m[ip] == s[ip]
    {
    }
  }

  // Properties of the rate limiter

  /** What Unexpired keeps: exactly the timestamps after the cutoff. */
  lemma {:induction false} UnexpiredMembers(ts: seq<int>, cutoff: int)
    ensures forall t :: t in Unexpired(ts, cutoff) <==> t in ts && t > cutoff
  {
    if |ts| > 0 {
      UnexpiredMembers(ts[..|ts| - 1], cutoff);
      assert ts == ts[..|ts| - 1] + [ts[|ts| - 1]];
    }
  }

  /** Pruning with a later cutoff after an earlier one is the same as pruning once. */
  lemma {:induction false} UnexpiredTwice(ts: seq<int>, c1: int, c2: int)
    requires c1 <= c2
    ensures Unexpired(Unexpired(ts, c1), c2) == Unexpired(ts, c2)
  {
    if |ts| > 0 {
      var init := ts[..|ts| - 1];
      var last := ts[|ts| - 1];
      UnexpiredTwice(init, c1, c2);
      var u := Unexpired(init, c1);
      assert ts[..|ts| - 1] == init;
      assert Unexpired(ts, c2) == Unexpired(init, c2) + (if last > c2 then [last] else []);
      if last > c1 {
        assert Unexpired(ts, c1) == u + [last];
        assert (u + [last])[..|u + [last]| - 1] == u;
        assert Unexpired(u + [last], c2) == Unexpired(u, c2) + (if last > c2 then [last] else []);
      } else {
        assert Unexpired(ts, c1) == u;
        assert Unexpired(ts, c2) == Unexpired(init, c2);
      }
    }
  }

  /** With limiting disabled, every request is allowed and nothing is stored. */
  lemma AllowDisabled(window: int, max: int, entries: map<string, seq<int>>, ip: string, now: int)
    requires max <= 0
    ensures AllowStep(window, max, entries, ip, now) == (true, entries)
  {
  }

  /**
   * A request is refused exactly when at least `max` of its IP's stored
   * timestamps are after now - window; the IP then keeps only those, in
   * order, and `now` is appended when the request is allowed. Every other
   * IP's entry is untouched.
   */
  lemma AllowDecision(window: int, max: int, entries: map<string, seq<int>>, ip: string, now: int)
    requires max > 0
    ensures var (allowed, after) := AllowStep(window, max, entries, ip, now);
      var valid := Unexpired(Stored(entries, ip), now - window);
      && (!allowed <==> |valid| >= max)
      && ip in after
      && (forall t :: t in valid <==> t in Stored(entries, ip) && t > now - window)
      && after[ip] == (if allowed then valid + [now] else valid)
      && (forall other :: other != ip ==>
            (other in after <==> other in entries) && (other in entries ==> after[other] == entries[other]))
  {
    UnexpiredMembers(Stored(entries, ip), now - window);
  }

  /** Allow keeps every stored list at most `max` long. */
  lemma AllowKeepsBound(window: int, max: int, entries: map<string, seq<int>>, ip: string, now: int)
    requires forall k :: k in entries ==> |entries[k]| <= max
    ensures var after := AllowStep(window, max, entries, ip, now).1;
      forall k :: k in after ==> |after[k]| <= max
  {
  }

  /**
   * The sweep removes exactly the IPs with no timestamp after the cutoff
   * and leaves the others only their timestamps after it.
   */
  lemma SweptEntries(entries: map<string, seq<int>>, cutoff: int)
    ensures forall ip :: ip in Swept(entries, cutoff) <==>
      ip in entries && exists t :: t in entries[ip] && t > cutoff
    ensures forall ip, t :: ip in Swept(entries, cutoff) ==>
      (t in Swept(entries, cutoff)[ip] <==> t in entries[ip] && t > cutoff)
  {
    forall ip | ip in entries
      ensures ip in Swept(entries, cutoff) <==> exists t :: t in entries[ip] && t > cutoff
      ensures forall t :: ip in Swept(entries, cutoff) ==>
        (t in Swept(entries, cutoff)[ip] <==> t in entries[ip] && t > cutoff)
    {
      var u := Unexpired(entries[ip], cutoff);
      UnexpiredMembers(entries[ip], cutoff);
      assert ip in Swept(entries, cutoff) <==> u != [];
      if u != [] {
        var t := u[0];
        assert t in u;
        assert t in entries[ip] && t > cutoff;
      }
    }
  }

  /** A sweep never changes a later decision of Allow. */
  lemma SweepKeepsDecisions(window: int, max: int, entries: map<string, seq<int>>, sweptAt: int, ip: string, now: int)
    requires sweptAt <= now
    ensures AllowStep(window, max, Swept(entries, sweptAt - window), ip, now).0
         == AllowStep(window, max, entries, ip, now).0
  {
    var swept := Swept(entries, sweptAt - window);
    if ip in entries {
      UnexpiredTwice(entries[ip], sweptAt - window, now - window);
      if ip !in swept {
        assert Unexpired(entries[ip], sweptAt - window) == [];
      }
    }
  }

  // ------------------------------------------------------------------
  // Client address
  // ------------------------------------------------------------------

  /** net.SplitHostPort: host and port, or an error (None). */
  function SplitHostPort(hp: string): (r: Option<(string, string)>)
    ensures r.Some? ==> |r.value.0| < |hp|
  {
    var i := LastIndexOf(hp, ':');
    if i < 0 then None  // missing port
    else if hp[0] == '[' then
      var end := IndexOf(hp, ']');
      if end < 0 then None  // missing ']'
      else if end + 1 != i then None  // missing port, or too many colons
      else if '[' in hp[1..] || ']' in hp[end + 1..] then None
      else Some((hp[1..end], hp[i + 1..]))
    else
      var host := hp[..i];
      if ':' in host || '[' in hp || ']' in hp then None
      else Some((host, hp[i + 1..]))
  }

  /** extractIP: the host part of RemoteAddr, or all of it when it does not split. */
  function ExtractIP(remoteAddr: string): string {
    match SplitHostPort(remoteAddr)
    case None => remoteAddr
    case Some((host, _)) => host
  }

  /** "host:port" gives the host, for a host and port without colons or brackets. */
  lemma ExtractIPHostPort(host: string, port: string)
    requires ':' !in host && '[' !in host && ']' !in host
    requires ':' !in port && '[' !in port && ']' !in port
    ensures ExtractIP(host + ":" + port) == host
  {
    var hp := host + [':'] + port;
    assert host + ":" + port == hp;
    LastIndexOfBefore(host, ':', port);
    assert hp[..|host|] == host;
    assert hp[0] != '[';
  }

  lemma BracketedParts(hp: string, host: string, port: string)
    requires hp == ['['] + host + [']', ':'] + port
    requires ']' !in host && ':' !in port
    ensures LastIndexOf(hp, ':') == |host| + 2 && IndexOf(hp, ']') == |host| + 1
    ensures hp[1..|host| + 1] == host && hp[|host| + 3..] == port
    ensures hp[1..] == host + ([']', ':'] + port) && hp[|host| + 2..] == [':'] + port
  {
    BracketedSlices(hp, host, port);
    assert LastIndexOf(hp, ':') == |host| + 2 by {
      assert hp == (['['] + host + [']']) + [':'] + port;
      LastIndexOfBefore(['['] + host + [']'], ':', port);
    }
    assert IndexOf(hp, ']') == |host| + 1 by {
      assert hp == (['['] + host) + [']'] + ([':'] + port);
      IndexOfAfter(['['] + host, ']', [':'] + port);
    }
  }

  lemma BracketedSlices(hp: string, host: string, port: string)
    requires hp == ['['] + host + [']', ':'] + port
    ensures hp[1..|host| + 1] == host && hp[|host| + 3..] == port
    ensures hp[1..] == host + ([']', ':'] + port) && hp[|host| + 2..] == [':'] + port
  {
    var tail := host + ([']', ':'] + port);
    assert hp == ['['] + tail;
    assert hp[1..] == tail;
    assert tail[..|host|] == host && tail[|host| + 1..] == [':'] + port;
  }

  lemma SplitBracketed(hp: string, host: string, port: string)
    requires hp == ['['] + host + [']', ':'] + port
    requires '[' !in host && ']' !in host
    requires ':' !in port && '[' !in port && ']' !in port
    ensures SplitHostPort(hp) == Some((host, port))
  {
    BracketedParts(hp, host, port);
    assert '[' !in hp[1..] && ']' !in hp[|host| + 2..];
  }

  /**
   * The addresses net.SplitHostPort accepts: `host:port` with no colon or
   * bracket in the host, or `[host]:port` with no bracket in the host; the
   * port holds no colon or bracket.
   */
  predicate HostPortForm(hp: string, host: string, port: string) {
    && ':' !in port && '[' !in port && ']' !in port
    && '[' !in host && ']' !in host
    && ((hp == host + ":" + port && ':' !in host) || hp == "[" + host + "]:" + port)
  }

  /** "host:port" splits into the host and the port. */
  lemma SplitPlain(hp: string, host: string, port: string)
    requires hp == host + [':'] + port
    requires ':' !in host && '[' !in host && ']' !in host
    requires ':' !in port && '[' !in port && ']' !in port
    ensures SplitHostPort(hp) == Some((host, port))
  {
    LastIndexOfBefore(host, ':', port);
    assert hp[..|host|] == host && hp[|host| + 1..] == port;
    assert hp[0] != '[' by {
      if |host| > 0 { assert hp[0] == host[0]; } else { assert hp[0] == ':'; }
    }
    assert '[' !in hp && ']' !in hp by {
      forall k | 0 <= k < |hp| ensures hp[k] != '[' && hp[k] != ']' {
        if k < |host| { assert hp[k] == host[k]; }
        else if k > |host| { assert hp[k] == port[k - |host| - 1]; }
      }
    }
  }

  /** A character missing from a slice is missing from every slice inside it. */
  lemma SliceAvoids(s: string, c: char, x: nat, y: nat, a: nat, b: nat)
    requires x <= a <= b <= y <= |s| && c !in s[x..y]
    ensures c !in s[a..b]
  {
    forall k | 0 <= k < b - a ensures s[a..b][k] != c {
      assert s[a..b][k] == s[x..y][k + a - x];
    }
  }

  /** A split names a host and port that rebuild the address. */
  lemma SplitHostPortSound(hp: string)
    requires SplitHostPort(hp).Some?
    ensures HostPortForm(hp, SplitHostPort(hp).value.0, SplitHostPort(hp).value.1)
  {
    var i := LastIndexOf(hp, ':');
    if hp[0] == '[' {
      BracketedSound(hp, i, IndexOf(hp, ']'));
    } else {
      var host := hp[..i];
      var port := hp[i + 1..];
      assert hp == host + [hp[i]] + port;
      SliceAvoids(hp, '[', 0, |hp|, 0, i);
      SliceAvoids(hp, ']', 0, |hp|, 0, i);
      SliceAvoids(hp, '[', 0, |hp|, i + 1, |hp|);
      SliceAvoids(hp, ']', 0, |hp|, i + 1, |hp|);
    }
  }

  lemma BracketedSound(hp: string, i: int, end: int)
    requires 0 < |hp| && hp[0] == '['
    requires 0 <= end && end + 1 == i < |hp|
    requires hp[end] == ']' && ']' !in hp[..end] && hp[i] == ':' && ':' !in hp[i + 1..]
    requires '[' !in hp[1..] && ']' !in hp[end + 1..]
    ensures HostPortForm(hp, hp[1..end], hp[i + 1..])
  {
    var host := hp[1..end];
    var port := hp[i + 1..];
    assert hp == [hp[0]] + host + [hp[end], hp[i]] + port by {
      assert hp == hp[..1] + hp[1..end] + hp[end..i + 1] + hp[i + 1..];
    }
    SliceAvoids(hp, '[', 1, |hp|, 1, end);
    SliceAvoids(hp, '[', 1, |hp|, i + 1, |hp|);
    SliceAvoids(hp, ']', 0, end, 1, end);
    SliceAvoids(hp, ']', end + 1, |hp|, i + 1, |hp|);
  }

  /**
   * SplitHostPort splits an address into `host` and `port` exactly when the
   * address is `host:port` or `[host]:port` of that host and port.
   */
  lemma SplitHostPortIff(hp: string, host: string, port: string)
    ensures SplitHostPort(hp) == Some((host, port)) <==> HostPortForm(hp, host, port)
  {
    if SplitHostPort(hp) == Some((host, port)) {
      SplitHostPortSound(hp);
    }
    if HostPortForm(hp, host, port) {
      if hp == "[" + host + "]:" + port {
        assert hp == ['['] + host + [']', ':'] + port;
        SplitBracketed(hp, host, port);
      } else {
        assert hp == host + [':'] + port;
        SplitPlain(hp, host, port);
      }
    }
  }

  /** "[host]:port" gives the host between the brackets, colons and all. */
  lemma ExtractIPBracketed(host: string, port: string)
    requires '[' !in host && ']' !in host
    requires ':' !in port && '[' !in port && ']' !in port
    ensures ExtractIP("[" + host + "]:" + port) == host
  {
    assert "[" + host + "]:" + port == ['['] + host + [']', ':'] + port;
    SplitBracketed("[" + host + "]:" + port, host, port);
  }

  /** An address without a port, or an unbracketed IPv6 literal, comes back as it is. */
  lemma ExtractIPFallback(remoteAddr: string, i: nat, j: nat)
    requires ':' !in remoteAddr || (i < j < |remoteAddr| && remoteAddr[i] == ':' && remoteAddr[j] == ':'
                                     && remoteAddr[0] != '[')
    ensures ExtractIP(remoteAddr) == remoteAddr
  {
    if ':' in remoteAddr {
      var k := LastIndexOf(remoteAddr, ':');
      assert remoteAddr[..k][i] == ':';
    }
  }

  // ------------------------------------------------------------------
  // Honeypot, content and timing heuristics
  // ------------------------------------------------------------------

  /** checkHoneypot: a non-blank value in the hidden field marks a bot. */
  function CheckHoneypot(fieldName: string, value: string): bool {
    fieldName != "" && TrimSpace(value) != ""
  }

  lemma TrimSpaceEmpty(s: string)
    ensures TrimSpace(s) == "" <==> forall k :: 0 <= k < |s| ==> IsSpace(s[k])
  {
    var i, j := TrimSpaceSlice(s);
    if TrimSpace(s) != "" {
      assert !IsSpace(s[i]);
    }
  }

  /**
   * The honeypot is off without a field name; otherwise it trips exactly
   * when the field holds a character that is not white space.
   */
  lemma HoneypotTrips(fieldName: string, value: string)
    ensures CheckHoneypot(fieldName, value) <==>
      fieldName != "" && exists k :: 0 <= k < |value| && !IsSpace(value[k])
  {
    TrimSpaceEmpty(value);
  }

  predicate LinkAt(s: string) {
    HasPrefix(s, "http://") || HasPrefix(s, "https://")
  }

  /**
   * The number of matches of `https?://` that FindAllStringIndex reports:
   * leftmost matches, each scan resuming after the previous match.
   */
  function LinkCount(s: string): nat
    decreases |s|
  {
    if HasPrefix(s, "https://") then 1 + LinkCount(s[8..])
    else if HasPrefix(s, "http://") then 1 + LinkCount(s[7..])
    else if |s| == 0 then 0
    else LinkCount(s[1..])
  }

  /** The positions where a link starts, counted one by one. */
  function LinkStarts(s: string): nat
    decreases |s|
  {
    if |s| == 0 then 0 else (if LinkAt(s) then 1 else 0) + LinkStarts(s[1..])
  }

  lemma {:induction false} LinkStartsSkip(s: string, k: nat)
    requires k <= |s| && forall j :: 0 <= j < k ==> s[j] != 'h'
    ensures LinkStarts(s) == LinkStarts(s[k..])
    decreases k
  {
    if k > 0 {
      assert !LinkAt(s) by {
        assert s[0] != 'h';
      }
      LinkStartsSkip(s[1..], k - 1);
      assert s[1..][k - 1..] == s[k..];
    }
  }

  /**
   * Matches of `https?://` never overlap, so the left-to-right scan counts
   * every position where a link starts.
   */
  lemma {:induction false} LinkCountCountsEveryLink(s: string)
    ensures LinkCount(s) == LinkStarts(s)
    decreases |s|
  {
    if HasPrefix(s, "https://") {
      LinkCountCountsEveryLink(s[8..]);
      LinkStartsSkip(s[1..], 7);
      assert s[1..][7..] == s[8..];
    } else if HasPrefix(s, "http://") {
      LinkCountCountsEveryLink(s[7..]);
      LinkStartsSkip(s[1..], 6);
      assert s[1..][6..] == s[7..];
    } else if |s| > 0 {
      LinkCountCountsEveryLink(s[1..]);
    }
  }

  /** Text without "://" holds no link. */
  lemma {:induction false} LinkCountNoScheme(s: string)
    requires !Contains(s, "://")
    ensures LinkCount(s) == 0
    decreases |s|
  {
    ContainsIff(s, "://");
    if HasPrefix(s, "https://") {
      assert HasPrefix(s[5..], "://");
    } else if HasPrefix(s, "http://") {
      assert HasPrefix(s[4..], "://");
    } else if |s| > 0 {
      assert !Contains(s[1..], "://") by {
        ContainsIff(s[1..], "://");
        forall i | 0 <= i <= |s[1..]| ensures !HasPrefix(s[1..][i..], "://") {
          assert s[1..][i..] == s[i + 1..];
        }
      }
      LinkCountNoScheme(s[1..]);
    }
  }

  const BlockedMessage := "Comment contains blocked content"

  function TooManyLinksMessage(maxLinks: int): string {
    "Too many links (max " + IntToString(maxLinks) + ")"
  }

  /**
   * checkBodyContent: the link limit first (when positive), then the blocked
   * patterns; `matches` stands for the compiled expressions' MatchString.
   */
  function CheckBodyContent<P>(body: string, maxLinks: int, blocked: seq<P>, matches: (P, string) -> bool): (r: string)
    ensures r == "" <==> (maxLinks <= 0 || LinkStarts(body) <= maxLinks)
                         && forall i :: 0 <= i < |blocked| ==> !matches(blocked[i], body)
    ensures maxLinks > 0 && LinkStarts(body) > maxLinks ==> r == TooManyLinksMessage(maxLinks)
    ensures (maxLinks <= 0 || LinkStarts(body) <= maxLinks) && r != "" ==> r == BlockedMessage
  {
    LinkCountCountsEveryLink(body);
    if maxLinks > 0 && LinkCount(body) > maxLinks then TooManyLinksMessage(maxLinks)
    else if exists i :: 0 <= i < |blocked| && matches(blocked[i], body) then BlockedMessage
    else ""
  }

  /**
   * checkTimestamp: too fast when the form's Unix timestamp is less than
   * `minSeconds` before `nowUnix` (an int64 subtraction); an unparsable
   * value is suspicious, a blank one or a non-positive minimum skips the check.
   */
  function CheckTimestamp(minSeconds: int, field: string, nowUnix: int): bool {
    if minSeconds <= 0 then false
    else
      var text := TrimSpace(field);
      if text == "" then false
      else
        match ParseInt(text)
        case None => true
        case Some(ts) => WrapInt64(nowUnix - ts) < minSeconds
  }

  /** The outcomes of checkTimestamp, case by case. */
  lemma TimestampOutcomes(minSeconds: int, field: string, nowUnix: int)
    ensures minSeconds <= 0 || TrimSpace(field) == "" ==> !CheckTimestamp(minSeconds, field, nowUnix)
    ensures minSeconds > 0 && TrimSpace(field) != "" && ParseInt(TrimSpace(field)).None? ==>
      CheckTimestamp(minSeconds, field, nowUnix)
    ensures minSeconds > 0 && ParseInt(TrimSpace(field)).Some? && InInt64(nowUnix - ParseInt(TrimSpace(field)).value) ==>
      (CheckTimestamp(minSeconds, field, nowUnix) <==> nowUnix - ParseInt(TrimSpace(field)).value < minSeconds)
  {
  }

  /** A form rendered at `rendered` and posted at `nowUnix` passes exactly when enough time went by. */
  lemma TimestampRoundTrip(minSeconds: int, rendered: int, nowUnix: int)
    requires minSeconds > 0 && InInt64(rendered) && InInt64(nowUnix - rendered)
    ensures CheckTimestamp(minSeconds, IntToString(rendered), nowUnix) <==> nowUnix - rendered < minSeconds
  {
    var text := IntToString(rendered);
    ParseIntFormat(rendered);
    TrimSpaceKeeps(text);
  }
}
