/** The two ways a host is cut out of a URL, one for scopes and one for limiters, and
    when they find the right one. */
module Hosts {
  import opened Wrappers
  import opened Splitting

  // ----- for scopes

  /** The position after the first "://", if there is one. */
  function AfterScheme(url: string, from: nat): (i: Option<nat>)
    requires from <= |url|
    ensures i.Some? ==> from + 3 <= i.value <= |url| && url[i.value - 3..i.value] == "://"
    decreases |url| - from
  {
    if from + 3 > |url| then None
    else if url[from..from + 3] == "://" then Some(from + 3)
    else AfterScheme(url, from + 1)
  }

  function Lower(c: char): char {
    if 'A' <= c <= 'Z' then (c as int - 'A' as int + 'a' as int) as char else c
  }

  /** The letters A to Z become a to z, one for one, and nothing else changes. */
  lemma LowerIs(c: char)
    ensures 'A' <= c <= 'Z' ==> 'a' <= Lower(c) <= 'z' && Lower(c) - 'a' == c - 'A'
    ensures !('A' <= c <= 'Z') ==> Lower(c) == c
  {
  }

  function LowerAll(s: string): (r: string)
    ensures |r| == |s|
  {
    seq(|s|, i requires 0 <= i < |s| => Lower(s[i]))
  }

  /** The host after the scheme.  A user part is skipped when an '@' comes before
      the first slash. */
  function HostText(url: string, start: nat): string
    requires start <= |url|
  {
    var at := FindFirstOf(url, {'@'}, start);
    var slash := FindFirstOf(url, {'/'}, start);
    var hostStart := if at < |url| && (slash == |url| || at < slash) then at + 1 else start;
    url[hostStart..FindFirstOf(url, {'/', ':', '?'}, hostStart)]
  }

  /** The host of a URL, lower-cased; empty if the URL has no scheme. */
  function ExtractHostFromUrl(url: string): string {
    match AfterScheme(url, 0)
    case None => ""
    case Some(start) => LowerAll(HostText(url, start))
  }

  // ----- for limiters

  /** The key of a URL's limiter: what stands between the scheme and the first port,
      path, query or fragment; all of a URL without a scheme. */
  function ExtractHost(url: string): string {
    match AfterScheme(url, 0)
    case None => url
    case Some(start) => url[start..FindFirstOf(url, {':', '/', '?', '#'}, start)]
  }

  // ----- the parts of a URL

  predicate NoneOf(s: string, chars: set<char>) {
    forall k :: 0 <= k < |s| ==> s[k] !in chars
  }

  /** The authority of a URL, by section 3.2 of RFC 3986: perhaps a user part, a host,
      perhaps a port with its colon.  A host with a colon in it is an IP literal in
      brackets. */
  datatype Authority = Authority(user: Option<string>, host: string, port: string) {
    ghost predicate Legal() {
      && (user.Some? ==> NoneOf(user.value, {'/', '?', '#', '@'}))
      && NoneOf(host, {'/', '?', '#', '@'}) && NoneOf(port, {'/', '?', '#', '@'})
      && (port != "" ==> port[0] == ':')
      && (':' in host ==> host[0] == '[' && host[|host| - 1] == ']')
    }

    function UserText(): string {
      if user.Some? then user.value + "@" else ""
    }

    function Text(): string {
      UserText() + host + port
    }
  }

  /** What follows an authority: nothing, a path, a query or a fragment. */
  predicate EndsAuthority(tail: string) {
    tail == "" || tail[0] in {'/', '?', '#'}
  }

  function Url(scheme: string, a: Authority, tail: string): string {
    scheme + "://" + a.Text() + tail
  }

  predicate StartsFragment(tail: string) {
    tail != "" && tail[0] == '#'
  }

  lemma {:induction false} SchemeFound(url: string, from: nat, end: nat)
    requires from <= end && end + 3 <= |url| && url[end..end + 3] == "://"
    requires forall k :: from <= k < end ==> url[k] != ':'
    ensures AfterScheme(url, from) == Some(end + 3)
    decreases end - from
  {
    if from < end {
      assert url[from..from + 3][0] != ':';
      SchemeFound(url, from + 1, end);
    }
  }

  /** Whether an '@' stands before the first slash. */
  predicate AtBeforeSlash(tail: string) {
    FindFirstOf(tail, {'@'}, 0) < FindFirstOf(tail, {'/'}, 0)
  }

  /** The text behind that '@', up to a path, port or query. */
  function BehindAt(tail: string): string
    requires AtBeforeSlash(tail)
  {
    var at := FindFirstOf(tail, {'@'}, 0);
    tail[at + 1..FindFirstOf(tail, {'/', ':', '?'}, at + 1)]
  }

  /** The text up to the first path, port or query. */
  function UpTo(s: string): string {
    s[..FindFirstOf(s, {'/', ':', '?'}, 0)]
  }

  /** An '@' behind an authority without a user part is taken for the end of one. */
  ghost predicate Captured(a: Authority, tail: string) {
    a.user.None? && AtBeforeSlash(tail)
  }

  /** A search passes over a text with nothing to find in it. */
  lemma FindAfter(text: string, tail: string, stops: set<char>)
    requires NoneOf(text, stops)
    ensures FindFirstOf(text + tail, stops, 0) == |text| + FindFirstOf(tail, stops, 0)
  {
    hide FindFirstOf;
    var s, i := text + tail, FindFirstOf(tail, stops, 0);
    assert s[|text|..] == tail;
    forall k | 0 <= k < |text| + i
      ensures s[k] !in stops
    {
      assert s[k] == if k < |text| then text[k] else tail[k - |text|];
    }
    FirstOfIs(s, stops, 0, |text| + i);
  }

  lemma FindShifted(s: string, stops: set<char>, start: nat, from: nat)
    requires start + from <= |s|
    ensures FindFirstOf(s, stops, start + from) == start + FindFirstOf(s[start..], stops, from)
  {
    hide FindFirstOf;
    FirstOfIs(s, stops, start + from, start + FindFirstOf(s[start..], stops, from));
  }

  lemma Slice(s: string, start: nat, from: nat, to: nat)
    requires start <= |s| && from <= to <= |s| - start
    ensures s[start + from..start + to] == s[start..][from..to]
  {
  }

  /** Only what stands behind the scheme counts. */
  lemma HostTextBehind(url: string, start: nat)
    requires start <= |url|
    ensures HostText(url, start) == HostText(url[start..], 0)
  {
    hide FindFirstOf;
    var s := url[start..];
    FindShifted(url, {'@'}, start, 0);
    FindShifted(url, {'/'}, start, 0);
    var at, slash := FindFirstOf(s, {'@'}, 0), FindFirstOf(s, {'/'}, 0);
    var from := if at < |s| && (slash == |s| || at < slash) then at + 1 else 0;
    FindShifted(url, {'/', ':', '?'}, start, from);
    Slice(url, start, from, FindFirstOf(s, {'/', ':', '?'}, from));
  }

  lemma TextTaken(text: string, tail: string)
    requires NoneOf(text, {'/', '@'}) && AtBeforeSlash(tail)
    ensures HostText(text + tail, 0) == BehindAt(tail)
  {
    hide FindFirstOf;
    var s, at := text + tail, FindFirstOf(tail, {'@'}, 0);
    FindAfter(text, tail, {'/'});
    FindAfter(text, tail, {'@'});
    hide NoneOf;
    assert s[|text|..] == tail;
    FindShifted(s, {'/', ':', '?'}, |text|, at + 1);
    Slice(s, |text|, at + 1, FindFirstOf(tail, {'/', ':', '?'}, at + 1));
  }

  lemma TextFound(text: string, tail: string)
    requires NoneOf(text, {'/', '@'}) && !AtBeforeSlash(tail)
    ensures HostText(text + tail, 0) == UpTo(text + tail)
  {
    hide FindFirstOf;
    FindAfter(text, tail, {'/'});
    FindAfter(text, tail, {'@'});
  }

  lemma TextBehindUser(user: string, text: string)
    requires NoneOf(user, {'/', '@'})
    ensures HostText(user + ("@" + text), 0) == UpTo(text)
  {
    hide FindFirstOf;
    var s, mark := user + ("@" + text), "@" + text;
    FindAfter(user, mark, {'@'});
    FindAfter(user, mark, {'/'});
    FirstOfIs(mark, {'@'}, 0, 0);
    hide NoneOf;
    var from := |user| + 1;
    assert s[from..] == text;
    FindShifted(s, {'/', ':', '?'}, from, 0);
    Slice(s, from, 0, FindFirstOf(text, {'/', ':', '?'}, 0));
    SlashAfter(mark);
  }

  lemma SlashAfter(mark: string)
    requires mark != "" && mark[0] == '@'
    ensures FindFirstOf(mark, {'/'}, 0) > 0
  {
  }

  /** Behind the scheme. */
  lemma Behind(scheme: string, rest: string)
    requires NoneOf(scheme, {':'})
    ensures AfterScheme(scheme + "://" + rest, 0) == Some(|scheme| + 3)
    ensures (scheme + "://" + rest)[|scheme| + 3..] == rest
  {
    hide AfterScheme;
    var url := scheme + "://" + rest;
    assert url[|scheme|..|scheme| + 3] == "://";
    SchemeFound(url, 0, |scheme|);
  }

  lemma HostBehind(scheme: string, rest: string)
    requires NoneOf(scheme, {':'})
    ensures ExtractHostFromUrl(scheme + "://" + rest) == LowerAll(HostText(rest, 0))
  {
    Behind(scheme, rest);
    hide AfterScheme, HostText, LowerAll, NoneOf;
    HostTextBehind(scheme + "://" + rest, |scheme| + 3);
  }

  lemma UrlText(scheme: string, a: Authority, tail: string)
    ensures Url(scheme, a, tail) == scheme + "://" + (a.UserText() + (a.host + a.port + tail))
    ensures a.user.Some? ==> a.UserText() + (a.host + a.port + tail) == a.user.value + ("@" + (a.host + a.port + tail))
    ensures a.user.None? ==> a.UserText() + (a.host + a.port + tail) == a.host + a.port + tail
  {
  }

  /** The host found in any URL. */
  lemma HostOfUrl(scheme: string, a: Authority, tail: string)
    requires NoneOf(scheme, {':'}) && a.Legal() && EndsAuthority(tail)
    ensures ExtractHostFromUrl(Url(scheme, a, tail)) ==
            LowerAll(if Captured(a, tail) then BehindAt(tail) else UpTo(a.host + a.port + tail))
  {
    hide ExtractHostFromUrl, LowerAll, HostText, BehindAt, UpTo, AtBeforeSlash, Url;
    UrlText(scheme, a, tail);
    HostBehind(scheme, a.UserText() + (a.host + a.port + tail));
    if Captured(a, tail) {
      TextTaken(a.host + a.port, tail);
    } else if a.user.None? {
      TextFound(a.host + a.port, tail);
    } else {
      TextBehindUser(a.user.value, a.host + a.port + tail);
    }
  }

  /** What is found of a host that nothing is captured behind: the host, unless it has
      a colon in it, which is then too little, or a fragment comes right behind it,
      which is then too much. */
  lemma UpToHost(a: Authority, tail: string)
    requires a.Legal() && EndsAuthority(tail)
    ensures var found := UpTo(a.host + a.port + tail);
            if ':' !in a.host && !(a.port == "" && StartsFragment(tail)) then found == a.host else |found| != |a.host|
  {
    var stops, rest := {'/', ':', '?'}, a.port + tail;
    assert a.host + a.port + tail == a.host + rest;
    if ':' in a.host {
      var k :| 0 <= k < |a.host| && a.host[k] == ':';
      hide FindFirstOf;
      assert (a.host + rest)[k] == ':';
    } else {
      FindAfter(a.host, rest, stops);
      assert rest != "" ==> rest[0] == if a.port != "" then ':' else tail[0];
    }
  }

  lemma LowerAllLength(s: string, t: string)
    requires |s| != |t|
    ensures LowerAll(s) != LowerAll(t)
  {
    assert |LowerAll(s)| != |LowerAll(t)|;
  }

  /** When a URL's host is the one found for it.  Without a capture: just when it is no
      literal with a colon and has no fragment right behind it.  With one: only if
      the captured text happens to be the host again. */
  lemma HostRightExactly(scheme: string, a: Authority, tail: string)
    requires NoneOf(scheme, {':'}) && a.Legal() && EndsAuthority(tail)
    ensures ExtractHostFromUrl(Url(scheme, a, tail)) == LowerAll(a.host) <==>
            if Captured(a, tail) then LowerAll(BehindAt(tail)) == LowerAll(a.host)
            else ':' !in a.host && !(a.port == "" && StartsFragment(tail))
  {
    HostOfUrl(scheme, a, tail);
    UpToHost(a, tail);
    hide LowerAll, UpTo, Url, BehindAt, ExtractHostFromUrl;
    var found := UpTo(a.host + a.port + tail);
    if |found| != |a.host| {
      LowerAllLength(found, a.host);
    }
  }

  /** A literal with a colon in it, as of an IPv6 address, is never found. */
  lemma LiteralNeverFound(scheme: string, a: Authority, tail: string)
    requires NoneOf(scheme, {':'}) && a.Legal() && EndsAuthority(tail) && ':' in a.host
    ensures ExtractHostFromUrl(Url(scheme, a, tail)) != LowerAll(a.host)
  {
    HostRightExactly(scheme, a, tail);
    if Captured(a, tail) {
      hide FindFirstOf;
      var k :| 0 <= k < |a.host| && a.host[k] == ':';
      assert LowerAll(a.host)[k] == ':';
      assert forall i :: 0 <= i < |BehindAt(tail)| ==> LowerAll(BehindAt(tail))[i] != ':';
    }
  }

  /** Behind a user part a plain host is found whatever follows, but for a fragment
      right behind it. */
  lemma HostBehindUser(scheme: string, a: Authority, tail: string)
    requires NoneOf(scheme, {':'}) && a.Legal() && EndsAuthority(tail) && a.user.Some? && ':' !in a.host
    ensures ExtractHostFromUrl(Url(scheme, a, tail)) == LowerAll(a.host) <==> !(a.port == "" && StartsFragment(tail))
  {
    HostRightExactly(scheme, a, tail);
  }

  ghost predicate PlainHost(user: Option<string>, host: string, port: string) {
    Authority(user, host, port).Legal() && ':' !in host
  }

  /** So, whatever plain host stands between a user part and a port, it is the one
      found if and only if what follows does not begin with a fragment right behind
      it, nor has an '@' before its first slash where there is no user part. */
  lemma HostRightIff(scheme: string, user: Option<string>, port: string, tail: string)
    requires NoneOf(scheme, {':'}) && Authority(user, "", port).Legal() && EndsAuthority(tail)
    ensures (forall host :: PlainHost(user, host, port) ==>
               ExtractHostFromUrl(Url(scheme, Authority(user, host, port), tail)) == LowerAll(host)) <==>
            !(port == "" && StartsFragment(tail)) && !(user.None? && AtBeforeSlash(tail))
  {
    hide ExtractHostFromUrl, AtBeforeSlash, BehindAt, Url, LowerAll;
    forall host | PlainHost(user, host, port)
      ensures ExtractHostFromUrl(Url(scheme, Authority(user, host, port), tail)) == LowerAll(host) <==>
              if user.None? && AtBeforeSlash(tail) then LowerAll(BehindAt(tail)) == LowerAll(host)
              else !(port == "" && StartsFragment(tail))
    {
      HostRightExactly(scheme, Authority(user, host, port), tail);
    }
    assert PlainHost(user, "a", port) && PlainHost(user, "b", port);
    TwoHosts();
  }

  lemma TwoHosts()
    ensures LowerAll("a") != LowerAll("b")
  {
    assert LowerAll("a")[0] != LowerAll("b")[0];
  }

  // One URL of each kind that fails.

  /** A URL with nothing in its tail to capture. */
  lemma Uncaptured(url: string, host: string, tail: string, found: nat)
    requires url == Url("http", Authority(None, host, ""), tail) && NoneOf(host, {'/', '?', '#', '@'}) && EndsAuthority(tail)
    requires ':' in host ==> host[0] == '[' && host[|host| - 1] == ']'
    requires '@' !in tail && found <= |host + tail|
    requires NoneOf((host + tail)[..found], {'/', ':', '?'}) && (found < |host + tail| ==> (host + tail)[found] in {'/', ':', '?'})
    ensures ExtractHostFromUrl(url) == LowerAll((host + tail)[..found])
  {
    hide FindFirstOf, Url, LowerAll, ExtractHostFromUrl;
    var a := Authority(None, host, "");
    assert NoneOf("http", {':'}) && a.Legal();
    HostOfUrl("http", a, tail);
    FirstOfIs(tail, {'@'}, 0, |tail|);
    assert host + "" + tail == host + tail;
    assert forall k :: 0 <= k < found ==> (host + tail)[..found][k] == (host + tail)[k];
    FirstOfIs(host + tail, {'/', ':', '?'}, 0, found);
  }

  lemma FragmentTakenIn()
    ensures ExtractHostFromUrl("http://a.b#c") == "a.b#c"
  {
    hide ExtractHostFromUrl, LowerAll;
    assert "http://a.b#c" == Url("http", Authority(None, "a.b", ""), "#c");
    assert "a.b" + "#c" == "a.b#c" && "a.b#c"[..5] == "a.b#c";
    Uncaptured("http://a.b#c", "a.b", "#c", 5);
    Lowered("a.b#c");
  }

  lemma LiteralCutShort()
    ensures ExtractHostFromUrl("http://[::1]/x") == "["
  {
    hide ExtractHostFromUrl, LowerAll;
    assert "http://[::1]/x" == Url("http", Authority(None, "[::1]", ""), "/x");
    assert "[::1]" + "/x" == "[::1]/x" && "[::1]/x"[..1] == "[";
    Uncaptured("http://[::1]/x", "[::1]", "/x", 1);
    Lowered("[");
  }

  lemma Lowered(s: string)
    requires forall k :: 0 <= k < |s| ==> !('A' <= s[k] <= 'Z')
    ensures LowerAll(s) == s
  {
  }

  lemma QueryCaptured()
    ensures ExtractHostFromUrl("http://a.b?x=c@d.e") == "d.e"
  {
    hide ExtractHostFromUrl, LowerAll, FindFirstOf;
    var host, tail := "a.b", "?x=c@d.e";
    assert "http://a.b?x=c@d.e" == Url("http", Authority(None, host, ""), tail);
    TailCaptured(tail);
    hide Url;
    CapturedHost("http://a.b?x=c@d.e", host, tail);
    Lowered("d.e");
  }

  lemma TailCaptured(tail: string)
    requires tail == "?x=c@d.e"
    ensures AtBeforeSlash(tail) && BehindAt(tail) == "d.e"
  {
    hide FindFirstOf;
    FirstOfIs(tail, {'@'}, 0, 4);
    FirstOfIs(tail, {'/'}, 0, 8);
    FirstOfIs(tail, {'/', ':', '?'}, 5, 8);
    assert tail[5..8] == "d.e";
  }

  lemma CapturedHost(url: string, host: string, tail: string)
    requires url == Url("http", Authority(None, host, ""), tail) && NoneOf(host, {'/', '?', '#', '@', ':'}) && EndsAuthority(tail)
    requires AtBeforeSlash(tail)
    ensures ExtractHostFromUrl(url) == LowerAll(BehindAt(tail))
  {
    hide Url, LowerAll, ExtractHostFromUrl, AtBeforeSlash, BehindAt;
    var a := Authority(None, host, "");
    assert NoneOf("http", {':'}) && a.Legal();
    HostOfUrl("http", a, tail);
  }

  // ----- the limiter's key

  /** What the key of a limiter is made of: a user's name counts for the host, and
      the host keeps its case. */
  function KeyText(a: Authority): string {
    var text := a.UserText() + a.host;
    text[..FindFirstOf(text, {':'}, 0)]
  }

  lemma KeyOfUrl(scheme: string, a: Authority, tail: string)
    requires NoneOf(scheme, {':'}) && a.Legal() && EndsAuthority(tail)
    ensures ExtractHost(Url(scheme, a, tail)) == KeyText(a)
  {
    var text, rest := a.UserText() + a.host, a.port + tail;
    assert Url(scheme, a, tail) == scheme + "://" + (text + rest);
    Behind(scheme, text + rest);
    hide Url;
    assert NoneOf(text, {'/', '?', '#'}) && (rest == "" || rest[0] in {':', '/', '?', '#'});
    KeyBehind(scheme + "://" + (text + rest), |scheme| + 3, text, rest);
  }

  lemma KeyBehind(url: string, start: nat, text: string, rest: string)
    requires AfterScheme(url, 0) == Some(start) && url[start..] == text + rest
    requires NoneOf(text, {'/', '?', '#'}) && (rest == "" || rest[0] in {':', '/', '?', '#'})
    ensures ExtractHost(url) == text[..FindFirstOf(text, {':'}, 0)]
  {
    hide AfterScheme, FindFirstOf, NoneOf;
    var n := FindFirstOf(text, {':'}, 0);
    FindShifted(url, {':', '/', '?', '#'}, start, 0);
    KeyEnds(text, rest, n);
    Slice(url, start, 0, n);
  }

  lemma KeyEnds(text: string, rest: string, n: nat)
    requires NoneOf(text, {'/', '?', '#'}) && (rest == "" || rest[0] in {':', '/', '?', '#'})
    requires n == FindFirstOf(text, {':'}, 0)
    ensures FindFirstOf(text + rest, {':', '/', '?', '#'}, 0) == n && (text + rest)[..n] == text[..n]
  {
    hide FindFirstOf;
    var s := text + rest;
    assert forall k :: 0 <= k < |text| ==> s[k] == text[k];
    FirstOfIs(s, {':', '/', '?', '#'}, 0, n);
  }

  /** The key of a plain host's limiter is the host if and only if there is no user
      part, or its name is the host again. */
  lemma KeyIsHostIff(a: Authority)
    requires a.Legal() && ':' !in a.host
    ensures KeyText(a) == a.host <==> a.user.None? || (a.host + ":") <= a.user.value
  {
    hide FindFirstOf;
    var text := a.UserText() + a.host;
    var n := FindFirstOf(text, {':'}, 0);
    if a.user.Some? {
      var u := a.user.value;
      assert forall k :: 0 <= k < |u| ==> text[k] == u[k];
      assert text[|u|] == '@' && '@' !in a.host;
      if a.host + ":" <= u {
        assert u[..|a.host|] == a.host && u[|a.host|] == ':';
        FirstOfIs(text, {':'}, 0, |a.host|);
        assert text[..|a.host|] == u[..|a.host|];
      } else if KeyText(a) == a.host {
        KeyWithoutAt(text, n, a.host, u);
      }
    } else {
      assert text == a.host;
    }
  }

  lemma KeyWithoutAt(text: string, n: nat, host: string, user: string)
    requires n <= |text| && text[..n] == host && '@' !in host && |user| < |text| && user == text[..|user|] && text[|user|] == '@'
    requires n < |text| ==> text[n] == ':'
    ensures host + ":" <= user
  {
    assert forall k :: 0 <= k < n ==> text[k] == host[k] && host[k] in host;
    assert n <= |user|;
    assert n < |user| && user[n] == ':' && user[..n] == host;
    assert user[..n + 1] == host + ":";
  }

  /** So two URLs without user parts, of plain hosts, share a limiter's key if and only
      if their hosts are spelled alike, upper and lower case included; for scopes they
      have one host already when they differ in case only. */
  lemma SameKeyIff(scheme: string, a: Authority, tail: string, scheme': string, b: Authority, tail': string)
    requires NoneOf(scheme, {':'}) && a.Legal() && EndsAuthority(tail) && a.user.None? && ':' !in a.host
    requires NoneOf(scheme', {':'}) && b.Legal() && EndsAuthority(tail') && b.user.None? && ':' !in b.host
    ensures ExtractHost(Url(scheme, a, tail)) == ExtractHost(Url(scheme', b, tail')) <==> a.host == b.host
  {
    KeyOfUrl(scheme, a, tail);
    KeyOfUrl(scheme', b, tail');
    KeyIsHostIff(a);
    KeyIsHostIff(b);
  }
}
