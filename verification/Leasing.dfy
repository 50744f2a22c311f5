/** Requests on their way out: the tokens they hold, the limiters those are of, and
    what a sequence of them keeps. */
module Leasing {
  import opened Gcra
  import opened RateLimiting
  import opened LruPool
  import opened Pacing

  /** What parsing a rate limit string yields; a rate of zero or less means no
      limit.  The parser itself is a parameter. */
  datatype Parsed = Malformed | PerSecond(rate: real)

  /** The part of a request's resolved configuration that steers its sending. */
  datatype Settings = Settings(
    rateSpec: string, burst: real, globalSpec: string, globalBurst: real, maxConcurrent: int)

  /** A queued request.  `ready` says that its configuration resolved and its
      session was built; `content` stands for everything the network looks at. */
  datatype Pending = Pending(host: string, settings: Settings, content: string, ready: bool)

  datatype Reply = Reply(response: Response, content: string)

  const DEFAULT_RATE_LIMIT := "20/s"
  const DEFAULT_BURST := 5.0

  function Effective(spec: string): string {
    if spec == "" then DEFAULT_RATE_LIMIT else spec
  }

  /** The backoff after a 429: a second unless the header names a number. */
  function Backoff(h: RetryAfter): real {
    match h
    case Missing => 1.0
    case Unparsable => 1.0
    case Seconds(value) => value
  }

  /** A look-up of a host's limiter that reached the registry, and what it asked
      for. */
  datatype Ask = Ask(host: string, spec: string, burst: real)

  /** What looking up a limiter yields: an exception, or a limiter or none. */
  datatype Lookup = Threw | Found(limiter: GCRARateLimiter?)

  /** A request with the tokens it was given: one of its host's limiter and one
      of the global limiter, where there are such limiters. */
  datatype Lease = Lease(
    request: Pending, host: GCRARateLimiter?, hostTicket: nat, global: GCRARateLimiter?, globalTicket: nat)

  /** A leased request leaving. */
  datatype Departure = Departure(lease: Lease, at: real)

  ghost function TicketsOf(e: Lease, l: GCRARateLimiter): seq<nat> {
    (if e.global == l then [e.globalTicket] else []) + (if e.host == l then [e.hostTicket] else [])
  }

  /** The tokens of one limiter among some leases, in order. */
  ghost function Tickets(leases: seq<Lease>, l: GCRARateLimiter): seq<nat> {
    if leases == [] then [] else
      var n := |leases| - 1;
      Tickets(leases[..n], l) + TicketsOf(leases[n], l)
  }

  /** The requests that left under one limiter, in order. */
  ghost function Under(ds: seq<Departure>, l: GCRARateLimiter): seq<Shot> {
    if ds == [] then [] else
      var n := |ds| - 1;
      Under(ds[..n], l) + Fired(TicketsOf(ds[n].lease, l), ds[n].at)
  }

  /** The host limiter of a lease, if it has one. */
  ghost function HostOf(e: Lease): seq<GCRARateLimiter> {
    if e.host == null then [] else [e.host]
  }

  ghost function HostsIn(leases: seq<Lease>): seq<GCRARateLimiter> {
    if leases == [] then [] else
      var n := |leases| - 1;
      HostsIn(leases[..n]) + HostOf(leases[n])
  }

  lemma HostsInNext(leases: seq<Lease>, e: Lease)
    ensures HostsIn(leases + [e]) == HostsIn(leases) + HostOf(e)
  {
    assert (leases + [e])[..|leases|] == leases;
  }

  ghost function Depart(leases: seq<Lease>, at: real): seq<Departure> {
    seq(|leases|, i requires 0 <= i < |leases| => Departure(leases[i], at))
  }

  ghost function Requests(ds: seq<Departure>): seq<Pending> {
    seq(|ds|, i requires 0 <= i < |ds| => ds[i].lease.request)
  }

  lemma TicketsAppend(leases: seq<Lease>, e: Lease, l: GCRARateLimiter)
    ensures Tickets(leases + [e], l) == Tickets(leases, l) + TicketsOf(e, l)
    ensures e.global == l && e.host != l ==> Tickets(leases + [e], l) == Tickets(leases, l) + [e.globalTicket]
    ensures e.global != l && e.host == l ==> Tickets(leases + [e], l) == Tickets(leases, l) + [e.hostTicket]
    ensures e.global != l && e.host != l ==> Tickets(leases + [e], l) == Tickets(leases, l)
  {
    assert (leases + [e])[..|leases|] == leases;
  }

  lemma UnderAppend(ds: seq<Departure>, d: Departure, l: GCRARateLimiter)
    ensures Under(ds + [d], l) == Under(ds, l) + Fired(TicketsOf(d.lease, l), d.at)
  {
    assert (ds + [d])[..|ds|] == ds;
  }

  lemma FiredSum(s: seq<nat>, t: seq<nat>, at: real)
    ensures Fired(s + t, at) == Fired(s, at) + Fired(t, at)
  {
  }

  lemma DepartAppend(leases: seq<Lease>, e: Lease, at: real)
    ensures Depart(leases + [e], at) == Depart(leases, at) + [Departure(e, at)]
  {
  }

  lemma {:induction false} UnderConcat(s: seq<Departure>, t: seq<Departure>, l: GCRARateLimiter)
    ensures Under(s + t, l) == Under(s, l) + Under(t, l)
  {
    if t == [] {
      assert s + t == s && Under(s, l) + [] == Under(s, l);
    } else {
      var n := |t| - 1;
      assert s + t == s + t[..n] + [t[n]];
      UnderConcat(s, t[..n], l);
      UnderAppend(s + t[..n], t[n], l);
    }
  }

  lemma {:induction false} UnderDepart(leases: seq<Lease>, at: real, l: GCRARateLimiter)
    ensures Under(Depart(leases, at), l) == Fired(Tickets(leases, l), at)
  {
    if leases != [] {
      var n := |leases| - 1;
      UnderDepart(leases[..n], at, l);
      DepartAppend(leases[..n], leases[n], at);
      assert leases[..n] + [leases[n]] == leases;
      hide TicketsOf;
      UnderAppend(Depart(leases[..n], at), Departure(leases[n], at), l);
      FiredSum(Tickets(leases[..n], l), TicketsOf(leases[n], l), at);
    }
  }

  lemma DepartUnder(ds: seq<Departure>, leases: seq<Lease>, at: real, l: GCRARateLimiter)
    ensures Under(ds + Depart(leases, at), l) == Under(ds, l) + Fired(Tickets(leases, l), at)
  {
    UnderConcat(ds, Depart(leases, at), l);
    UnderDepart(leases, at, l);
  }

  /** Leases speak of known limiters: the limiter of the request's own host, and a
      limiter of everything. */
  ghost predicate Known(e: Lease, limiters: set<GCRARateLimiter>) {
    && (e.host != null ==> e.host in limiters && e.host.owner == Host(e.request.host))
    && (e.global != null ==> e.global in limiters && e.global.owner == Everyone)
  }

  ghost predicate AllKnown(leases: seq<Lease>, limiters: set<GCRARateLimiter>) {
    forall i :: 0 <= i < |leases| ==> Known(leases[i], limiters)
  }

  lemma NoneKnown(limiters: set<GCRARateLimiter>)
    ensures AllKnown([], limiters)
  {
  }

  ghost function Leases(ds: seq<Departure>): (r: seq<Lease>)
    ensures |r| == |ds| && forall i :: 0 <= i < |r| ==> r[i] == ds[i].lease
  {
    seq(|ds|, i requires 0 <= i < |ds| => ds[i].lease)
  }

  lemma MoreKnown(leases: seq<Lease>, limiters: set<GCRARateLimiter>, more: set<GCRARateLimiter>)
    requires AllKnown(leases, limiters) && limiters <= more
    ensures AllKnown(leases, more)
  {
    forall i | 0 <= i < |leases|
      ensures Known(leases[i], more)
    {
      assert Known(leases[i], limiters);
    }
  }

  /** A request holds at most one token of any limiter. */
  lemma {:induction false} TicketsBounded(leases: seq<Lease>, l: GCRARateLimiter, limiters: set<GCRARateLimiter>)
    requires AllKnown(leases, limiters)
    ensures |Tickets(leases, l)| <= |leases|
    ensures l !in limiters ==> Tickets(leases, l) == []
  {
    if leases != [] {
      var n := |leases| - 1;
      assert Known(leases[n], limiters);
      TicketsBounded(leases[..n], l, limiters);
    }
  }

  lemma {:induction false} UnderUnknown(ds: seq<Departure>, l: GCRARateLimiter, limiters: set<GCRARateLimiter>)
    requires AllKnown(Leases(ds), limiters) && l !in limiters
    ensures Under(ds, l) == []
  {
    if ds != [] {
      var n := |ds| - 1;
      assert Known(Leases(ds)[n], limiters);
      assert Leases(ds[..n]) == Leases(ds)[..n];
      UnderUnknown(ds[..n], l, limiters);
    }
  }

  /** Departures are in order of time, and over by t. */
  ghost predicate LeftBy(ds: seq<Departure>, t: real) {
    && (forall i :: 0 <= i < |ds| ==> ds[i].at <= t)
    && (forall i, j :: 0 <= i < j < |ds| ==> ds[i].at <= ds[j].at)
  }

  lemma LeftByLater(ds: seq<Departure>, t: real, later: real)
    requires LeftBy(ds, t) && t <= later
    ensures LeftBy(ds, later)
  {
  }

  lemma {:induction false} UnderLeftBy(ds: seq<Departure>, l: GCRARateLimiter, t: real)
    requires LeftBy(ds, t)
    ensures forall a :: 0 <= a < |Under(ds, l)| ==> Under(ds, l)[a].at <= t
  {
    if ds != [] {
      var n := |ds| - 1;
      UnderLeftBy(ds[..n], l, t);
    }
  }

  /** A limiter in good order: what left under it is well paced.  Below a burst of
      one it never gives a token, and nothing is claimed. */
  ghost predicate Sound(l: GCRARateLimiter, shots: seq<Shot>, m: nat)
    reads l`tat, l`history
  {
    l.Valid() && l.limits.Valid() && (l.limits.burst >= 1.0 ==> WellPaced(l.Tokens(), shots, m))
  }

  /** What is held of it, since the beginning of a wave. */
  ghost predicate Held(l: GCRARateLimiter, shots: seq<Shot>, tickets: seq<nat>, since: real)
    reads l`history
  {
    l.limits.burst >= 1.0 ==> Holding(l.Tokens(), shots, tickets, since)
  }

  lemma NewIsSound(l: GCRARateLimiter, since: real, m: nat)
    requires l.Valid() && l.limits.Valid() && l.history == []
    ensures Sound(l, [], m) && Held(l, [], [], since)
  {
  }

  /** Firing what is held of a limiter keeps it sound. */
  lemma HeldFired(l: GCRARateLimiter, shots: seq<Shot>, tickets: seq<nat>, since: real, at: real, m: nat)
    requires Sound(l, shots, m) && Held(l, shots, tickets, since) && l.UpTo(at)
    requires |tickets| <= m && since <= at
    ensures Sound(l, shots + Fired(tickets, at), m)
  {
    hide Limits.Valid;
    if l.limits.burst >= 1.0 {
      forall k | 0 <= k < |l.Tokens()|
        ensures l.Tokens()[k] <= at
      {
        GrantsInOrder(l.limits, l.born, l.history, k, k);
      }
      hide Grants;
      FireKeepsPace(l.Tokens(), shots, tickets, since, at, m);
    }
  }

  lemma Departing(ds: seq<Departure>, leases: seq<Lease>, at: real, limiters: set<GCRARateLimiter>)
    requires AllKnown(Leases(ds), limiters) && AllKnown(leases, limiters) && LeftBy(ds, at)
    ensures var all := ds + Depart(leases, at);
            && AllKnown(Leases(all), limiters) && LeftBy(all, at)
            && Requests(all) == Requests(ds) + Requests(Depart(leases, at))
            && Leases(all) + [] == Leases(ds) + leases
  {
    var all := ds + Depart(leases, at);
    forall i | 0 <= i < |all|
      ensures Known(Leases(all)[i], limiters)
    {
      if i < |ds| {
        assert Known(Leases(ds)[i], limiters);
      } else {
        assert Known(leases[i - |ds|], limiters);
      }
    }
  }

  /** Once a limiter has had a request of its host, every later request of the host
      that has a host limiter has that one. */
  ghost predicate Loyal(es: seq<Lease>, host: string, l: GCRARateLimiter) {
    forall i, j :: 0 <= i < j < |es| && es[i].host == l && es[j].host != null && es[j].request.host == host ==> es[j].host == l
  }

  lemma LoyalNext(es: seq<Lease>, e: Lease, host: string, l: GCRARateLimiter)
    requires Loyal(es, host, l) && (e.host != null && e.request.host == host ==> e.host == l)
    ensures Loyal(es + [e], host, l)
  {
  }

  lemma LoyalPrefix(es: seq<Lease>, more: seq<Lease>, host: string, l: GCRARateLimiter)
    requires Loyal(es + more, host, l)
    ensures Loyal(es, host, l)
  {
    assert forall i :: 0 <= i < |es| ==> es[i] == (es + more)[i];
  }

  /** A new limiter has had no request, whoever it displaces. */
  lemma LoyalAnew(es: seq<Lease>, limiters: set<GCRARateLimiter>, host: string, l: GCRARateLimiter)
    requires AllKnown(es, limiters) && l !in limiters
    ensures Loyal(es, host, l)
  {
    forall i | 0 <= i < |es|
      ensures es[i].host != l
    {
      assert Known(es[i], limiters);
    }
  }

  ghost predicate LoyalUnder(es: seq<Lease>, index: map<string, Node<string, GCRARateLimiter>>) {
    forall k :: k in index ==> Loyal(es, k, index[k].value)
  }

  lemma LoyalRegistered(es: seq<Lease>, index: map<string, Node<string, GCRARateLimiter>>,
                        after: map<string, Node<string, GCRARateLimiter>>, host: string, known: set<GCRARateLimiter>)
    requires LoyalUnder(es, index)
    requires forall k :: k in after && k != host ==> k in index && after[k] == index[k]
    requires host in after && (host in index ==> after == index)
    requires host !in index ==> AllKnown(es, known) && after[host].value !in known
    ensures LoyalUnder(es, after)
  {
    hide Loyal, AllKnown;
    if host !in index {
      LoyalAnew(es, known, host, after[host].value);
    }
  }

  lemma LoyalLease(es: seq<Lease>, index: map<string, Node<string, GCRARateLimiter>>, e: Lease)
    requires LoyalUnder(es, index)
    requires e.host != null ==> e.request.host in index && index[e.request.host].value == e.host
    ensures LoyalUnder(es + [e], index)
  {
    hide Loyal;
    forall k | k in index
      ensures Loyal(es + [e], k, index[k].value)
    {
      LoyalNext(es, e, k, index[k].value);
    }
  }

  lemma LoyalBefore(es: seq<Lease>, more: seq<Lease>, index: map<string, Node<string, GCRARateLimiter>>)
    requires LoyalUnder(es + more, index)
    ensures LoyalUnder(es, index)
  {
    hide Loyal;
    forall k | k in index
      ensures Loyal(es, k, index[k].value)
    {
      LoyalPrefix(es, more, k, index[k].value);
    }
  }

  // ----- feedback

  /** A response fed to a limiter: at which step of its history, how many tokens the
      limiter had given and how many requests had left by then, and when. */
  datatype Fed = Fed(limiter: GCRARateLimiter, response: Response, step: nat, grants: nat, departed: nat, at: real)

  /** What the limiter's history shows of it: a throttle if the status was 429. */
  ghost predicate KeptIn(x: Fed, h: seq<Step>) {
    && x.step <= |h| && x.grants == |Grants(x.limiter.limits, x.limiter.born, h[..x.step])|
    && (x.response.status == 429 ==> x.step < |h| && h[x.step] == Step(x.at, Throttle(Backoff(x.response.retryAfter))))
  }

  lemma KeptLonger(x: Fed, h: seq<Step>, longer: seq<Step>)
    requires KeptIn(x, h) && h <= longer
    ensures KeptIn(x, longer)
  {
    assert longer[..x.step] == h[..x.step];
  }

  /** Requests that leave after a response was fed to their limiter hold tokens given
      after it. */
  ghost predicate Barred(es: seq<Lease>, feedback: seq<Fed>) {
    forall i, k :: 0 <= i < |feedback| && feedback[i].departed <= k < |es| && es[k].host == feedback[i].limiter ==>
      es[k].hostTicket >= feedback[i].grants
  }

  ghost predicate TicketBehind(e: Lease, feedback: seq<Fed>) {
    forall i :: 0 <= i < |feedback| && feedback[i].limiter == e.host ==> e.hostTicket >= feedback[i].grants
  }

  lemma BarredLease(es: seq<Lease>, feedback: seq<Fed>, e: Lease)
    requires Barred(es, feedback) && TicketBehind(e, feedback)
    ensures Barred(es + [e], feedback)
  {
  }

  lemma BarredBefore(es: seq<Lease>, more: seq<Lease>, feedback: seq<Fed>)
    requires Barred(es + more, feedback)
    ensures Barred(es, feedback)
  {
    assert forall k :: 0 <= k < |es| ==> es[k] == (es + more)[k];
  }

  lemma BarredFed(es: seq<Lease>, feedback: seq<Fed>, x: Fed)
    requires Barred(es, feedback) && |es| <= x.departed
    ensures Barred(es, feedback + [x])
  {
  }

  /** The request of number k left under its host's limiter as one of its shots. */
  lemma {:induction false} DepartureIsShot(ds: seq<Departure>, k: nat, l: GCRARateLimiter) returns (a: nat)
    requires k < |ds| && ds[k].lease.host == l
    ensures a < |Under(ds, l)| && Under(ds, l)[a] == Shot(ds[k].lease.hostTicket, ds[k].at)
  {
    var n := |ds| - 1;
    if k < n {
      a := DepartureIsShot(ds[..n], k, l);
    } else {
      a := |Under(ds, l)| - 1;
    }
  }
}
