/** Hosts as sequences of labels, and what it is for a scope's host to match a URL's. */
module Labels {
  import opened Splitting

  /** The scope's host is the URL's host, or a parent domain of it. */
  predicate HostMatches(scopeHost: string, urlHost: string) {
    && scopeHost != "" && urlHost != ""
    && (urlHost == scopeHost ||
        (|urlHost| > |scopeHost|
         && urlHost[|urlHost| - |scopeHost|..] == scopeHost
         && urlHost[|urlHost| - |scopeHost| - 1] == '.'))
  }

  /** The labels of a host: what stands between its dots. */
  function Of(host: string): seq<string> {
    Split(host, '.')
  }

  predicate EndsWith<T(==)>(s: seq<T>, end: seq<T>) {
    |end| <= |s| && s[|s| - |end|..] == end
  }

  /** A scope's host matches if and only if its labels are the last labels of the
      URL's host. */
  lemma MatchIffLastLabels(scopeHost: string, urlHost: string)
    ensures HostMatches(scopeHost, urlHost) <==>
            scopeHost != "" && urlHost != "" && EndsWith(Split(urlHost, '.'), Split(scopeHost, '.'))
  {
    if HostMatches(scopeHost, urlHost) && urlHost != scopeHost {
      var before := urlHost[..|urlHost| - |scopeHost| - 1];
      assert urlHost == before + ['.'] + scopeHost;
      SplitMiddle(before, '.', scopeHost);
    }
    if EndsWith(Of(urlHost), Of(scopeHost)) {
      LastLabels(scopeHost, urlHost);
    }
  }

  lemma LastLabels(scopeHost: string, urlHost: string)
    requires EndsWith(Of(urlHost), Of(scopeHost))
    ensures urlHost == scopeHost || exists before: string :: urlHost == before + ['.'] + scopeHost
  {
    var u, s := Of(urlHost), Of(scopeHost);
    JoinSplit(urlHost, '.');
    JoinSplit(scopeHost, '.');
    hide Split, Join;
    if |u| == |s| {
      assert u == s;
    } else {
      var before := u[..|u| - |s|];
      assert u == before + s;
      JoinConcat(before, s, '.');
      assert urlHost == Join(before, '.') + ['.'] + scopeHost;
    }
  }

  /** Of two hosts that match one URL, the longer has more labels. */
  lemma LongerIffMoreLabels(a: string, b: string, urlHost: string)
    requires HostMatches(a, urlHost) && HostMatches(b, urlHost)
    ensures |a| > |b| <==> |Split(a, '.')| > |Split(b, '.')|
  {
    hide Split, HostMatches;
    MatchIffLastLabels(a, urlHost);
    MatchIffLastLabels(b, urlHost);
    var u := Of(urlHost);
    if |Of(a)| > |Of(b)| {
      LastOfLast(Of(a), Of(b), u);
      Longer(b, a);
    } else {
      LastOfLast(Of(b), Of(a), u);
      Longer(a, b);
    }
  }

  lemma Longer(scopeHost: string, urlHost: string)
    requires EndsWith(Of(urlHost), Of(scopeHost))
    ensures |urlHost| > |scopeHost| || urlHost == scopeHost
  {
    LastLabels(scopeHost, urlHost);
  }

  lemma LastOfLast(longer: seq<string>, shorter: seq<string>, s: seq<string>)
    requires EndsWith(s, longer) && EndsWith(s, shorter) && |shorter| <= |longer|
    ensures EndsWith(longer, shorter)
  {
  }
}
