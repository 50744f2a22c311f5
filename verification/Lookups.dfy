/** The look-ups of host limiters, and which limiter each was given. */
module Lookups {
  import opened RateLimiting
  import opened LruPool
  import opened Recency
  import opened Leasing

  function HostsOf(asks: seq<Ask>): (s: seq<string>)
    ensures |s| == |asks| && forall i :: 0 <= i < |s| ==> s[i] == asks[i].host
  {
    seq(|asks|, i requires 0 <= i < |asks| => asks[i].host)
  }

  /** Every look-up is an access to the pool. */
  function TraceOf(asks: seq<Ask>): (s: seq<Access<string>>)
    ensures |s| == |asks| && forall i :: 0 <= i < |s| ==> s[i] == GetOrCreate(asks[i].host)
  {
    seq(|asks|, i requires 0 <= i < |asks| => GetOrCreate(asks[i].host))
  }

  /** Whether a host is among the last `size` distinct ones. */
  ghost predicate Recent(hosts: seq<string>, host: string, size: nat) {
    host in Take(MostRecent(hosts), size)
  }

  /** Look-up j is given the limiter that the look-up of its host before it was given,
      if the host is still a recent one, and else one that none was given before. */
  ghost predicate GivenWell(hosts: seq<string>, given: seq<GCRARateLimiter>, size: nat, j: nat)
    requires j < |hosts| == |given|
  {
    if hosts[j] in hosts[..j] && Recent(hosts[..j], hosts[j], size) then given[j] == given[LastAccess(hosts[..j], hosts[j])]
    else given[j] !in given[..j]
  }

  /** The pool has seen just the look-ups, and holds what was given last. */
  ghost predicate LookedUp(asks: seq<Ask>, given: seq<GCRARateLimiter>, trace: seq<Access<string>>,
                           index: map<string, Node<string, GCRARateLimiter>>, size: nat) {
    var hosts := HostsOf(asks);
    && trace == TraceOf(asks) && |given| == |asks|
    && (forall k :: k in index ==> k in hosts && index[k].value == given[LastAccess(hosts, k)])
    && (forall j :: 0 <= j < |hosts| ==> GivenWell(hosts, given, size, j))
  }

  lemma RecentMembers(hosts: seq<string>, host: string, size: nat)
    requires Recent(hosts, host, size)
    ensures host in hosts
  {
    MostRecentMembers(hosts, host);
  }

  lemma LastAccessNext(hosts: seq<string>, host: string, k: string)
    requires k in hosts + [host]
    ensures LastAccess(hosts + [host], k) == if k == host then |hosts| else LastAccess(hosts, k)
  {
    assert (hosts + [host])[..|hosts|] == hosts;
  }

  lemma GivenStays(hosts: seq<string>, given: seq<GCRARateLimiter>, size: nat, j: nat, host: string, l: GCRARateLimiter)
    requires j < |hosts| == |given| && GivenWell(hosts, given, size, j)
    ensures GivenWell(hosts + [host], given + [l], size, j)
  {
    hide Recent, LastAccess;
    assert (hosts + [host])[..j] == hosts[..j] && (given + [l])[..j] == given[..j];
  }

  lemma LookedUpNext(asks: seq<Ask>, given: seq<GCRARateLimiter>, trace: seq<Access<string>>,
                     index: map<string, Node<string, GCRARateLimiter>>, after: map<string, Node<string, GCRARateLimiter>>,
                     size: nat, ask: Ask, l: GCRARateLimiter)
    requires LookedUp(asks, given, trace, index, size)
    requires ask.host in index <==> Recent(HostsOf(asks), ask.host, size)
    requires forall k :: k in after && k != ask.host ==> k in index && after[k] == index[k]
    requires ask.host in after && after[ask.host].value == l
    requires if ask.host in index then index[ask.host].value == l else l !in given
    ensures LookedUp(asks + [ask], given + [l], trace + [GetOrCreate(ask.host)], after, size)
  {
    hide Recent, LastAccess, GivenWell;
    var hosts, host := HostsOf(asks), ask.host;
    assert HostsOf(asks + [ask]) == hosts + [host];
    forall k | k in after
      ensures k in hosts + [host] && after[k].value == (given + [l])[LastAccess(hosts + [host], k)]
    {
      assert k == host || k in hosts;
      LastAccessNext(hosts, host, k);
    }
    forall j | 0 <= j <= |hosts|
      ensures GivenWell(hosts + [host], given + [l], size, j)
    {
      if j < |hosts| {
        GivenStays(hosts, given, size, j, host, l);
      } else {
        GivenLast(hosts, given, size, host, l);
      }
    }
  }

  lemma GivenLast(hosts: seq<string>, given: seq<GCRARateLimiter>, size: nat, host: string, l: GCRARateLimiter)
    requires |hosts| == |given|
    requires if Recent(hosts, host, size) then host in hosts && l == given[LastAccess(hosts, host)] else l !in given
    ensures GivenWell(hosts + [host], given + [l], size, |hosts|)
  {
    hide Recent, LastAccess;
    assert (hosts + [host])[..|hosts|] == hosts && (given + [l])[..|hosts|] == given;
  }

  /** Look-ups always succeed. */
  lemma {:induction false} AllSucceed(size: nat, asks: seq<Ask>)
    requires size >= 1
    ensures Successes(size, TraceOf(asks)) == HostsOf(asks)
  {
    if asks != [] {
      var n := |asks| - 1;
      assert TraceOf(asks)[..n] == TraceOf(asks[..n]);
      AllSucceed(size, asks[..n]);
      assert HostsOf(asks) == HostsOf(asks[..n]) + [asks[n].host];
    }
  }

  // ----- how long a host stays

  /** The hosts looked up after a position. */
  ghost function Since(hosts: seq<string>, i: nat): set<string> {
    set j: nat | i < j < |hosts| :: hosts[j]
  }

  /** A key's place in the recency order is the number of other keys accessed since it
      was. */
  lemma {:induction false} PlaceIsSince(hosts: seq<string>, host: string) returns (p: nat)
    requires host in hosts
    ensures p < |MostRecent(hosts)| && MostRecent(hosts)[p] == host
    ensures p == |Since(hosts, LastAccess(hosts, host))|
    ensures forall x :: x in Since(hosts, LastAccess(hosts, host)) <==> x in MostRecent(hosts)[..p]
  {
    var n := |hosts| - 1;
    var last, init := hosts[n], hosts[..n];
    var i := LastAccess(hosts, host);
    if last == host {
      p := 0;
      assert Since(hosts, i) == {};
    } else {
      assert host in init by {
        assert hosts[i] == host && init[i] == host;
      }
      var q := PlaceIsSince(init, host);
      var before, s := MostRecent(init), Since(init, i);
      assert Since(hosts, i) == s + {last} by {
        SinceNext(init, last, i);
        assert init + [last] == hosts;
      }
      MostRecentDistinct(init);
      p := PlaceNext(before, last, q);
      assert s + {last} == if last in s then s else s + {last};
    }
  }

  lemma SinceNext(hosts: seq<string>, last: string, i: nat)
    requires i < |hosts|
    ensures Since(hosts + [last], i) == Since(hosts, i) + {last}
  {
    var all := hosts + [last];
    forall x | x in Since(hosts, i) + {last}
      ensures x in Since(all, i)
    {
      if x in Since(hosts, i) {
        var j: nat :| i < j < |hosts| && hosts[j] == x;
        assert all[j] == x;
      } else {
        assert all[|hosts|] == x;
      }
    }
  }

  /** Where a key goes when another one moves to the front. */
  lemma PlaceNext(s: seq<string>, last: string, q: nat) returns (p: nat)
    requires Distinct(s) && q < |s| && s[q] != last
    ensures p == if last in s[..q] then q else q + 1
    ensures var after := [last] + Without(s, last);
            p < |after| && after[p] == s[q] && forall x :: x in after[..p] <==> x in s[..q] || x == last
  {
    p := if last in s[..q] then q else q + 1;
    if last in s {
      var i: nat :| i < |s| && s[i] == last;
      WithoutAt(s, i);
      hide Distinct, Without;
      if i < q {
        assert s[..q][i] == last;
        FromBefore(s, i, q);
      } else {
        NotBefore(s, i, q);
        FromBehind(s, s[..i] + s[i + 1..], last, q);
      }
    } else {
      hide Distinct, Without;
      assert last !in s[..q];
      FromBehind(s, s, last, q);
    }
  }

  lemma NotBefore(s: seq<string>, i: nat, q: nat)
    requires Distinct(s) && q < i < |s|
    ensures s[i] !in s[..q] && (s[..i] + s[i + 1..])[..q + 1] == s[..q + 1]
  {
  }

  lemma FromBefore(s: seq<string>, i: nat, q: nat)
    requires i < q < |s|
    ensures var after := [s[i]] + (s[..i] + s[i + 1..]);
            after[q] == s[q] && forall x :: x in after[..q] <==> x in s[..q]
  {
    var after := [s[i]] + (s[..i] + s[i + 1..]);
    assert after[..q] == [s[i]] + s[..i] + s[i + 1..q];
    assert s[..q] == s[..i] + [s[i]] + s[i + 1..q];
  }

  lemma FromBehind(s: seq<string>, rest: seq<string>, last: string, q: nat)
    requires q < |s| && q < |rest| && rest[..q + 1] == s[..q + 1]
    ensures var after := [last] + rest;
            after[q + 1] == s[q] && forall x :: x in after[..q + 1] <==> x in s[..q] || x == last
  {
    var after := [last] + rest;
    assert rest[q] == rest[..q + 1][q] && s[q] == s[..q + 1][q];
    assert after[..q + 1] == [last] + rest[..q] && rest[..q] == rest[..q + 1][..q] && s[..q] == s[..q + 1][..q];
  }

  /** A host is a recent one if and only if fewer than `size` others were looked up
      since it was. */
  lemma RecentIffFewSince(hosts: seq<string>, host: string, size: nat)
    requires host in hosts
    ensures Recent(hosts, host, size) <==> |Since(hosts, LastAccess(hosts, host))| < size
  {
    var p := PlaceIsSince(hosts, host);
    var recent := MostRecent(hosts);
    MostRecentDistinct(hosts);
    hide MostRecent, Since, LastAccess;
    if size < |recent| {
      if p < size {
        assert recent[..size][p] == host;
      } else {
        assert forall k :: 0 <= k < size ==> recent[..size][k] == recent[k] && recent[k] != recent[p];
      }
    }
  }
}
