/** Performing a batch: resolve everything, then send the requests in waves, each
    wave taking all its tokens before any of it leaves. */
module Batch {
  import opened Gcra
  import opened RateLimiting
  import opened LruPool
  import opened Recency
  import opened Pacing
  import opened Leasing
  import opened Lookups
  import opened Flattening

  class Core {
    const clock: Clock
    const registry: LRUPool<string, GCRARateLimiter>
    const parse: string -> Parsed
    const network: (nat, Pending) -> Reply
    var global: GCRARateLimiter?
    var globalSpec: string
    var sent: nat

    // Everything that has left, request by request and wave by wave.
    ghost var departures: seq<Departure>
    ghost var waves: seq<seq<Pending>>

    // Every look-up in the registry, in order, and the limiter it was given.
    ghost var asks: seq<Ask>
    ghost var given: seq<GCRARateLimiter>

    // Every response fed to a host's limiter, in order.
    ghost var feedback: seq<Fed>

    // Every limiter there has been, evicted and replaced ones included.
    ghost var limiters: set<GCRARateLimiter>

    ghost predicate Fine(l: GCRARateLimiter, m: nat)
      reads this`departures, l`tat, l`history
    {
      Sound(l, Under(departures, l), m)
    }

    /** No server asks for a negative backoff. */
    ghost predicate Polite() {
      forall n: nat, p: Pending :: network(n, p).response.retryAfter.Seconds? ==> network(n, p).response.retryAfter.value >= 0.0
    }

    ghost predicate Unhurried(l: GCRARateLimiter)
      reads l`history
    {
      Polite() ==> BackoffsNonNegative(l.history)
    }

    /** Every registered limiter has its host's requests to itself, from its first
        on, and requests are behind the feedback that came before them; `leases` are
        those about to leave. */
    ghost predicate Orderly(leases: seq<Lease>)
      reads this`departures, this`feedback, registry`index
    {
      LoyalUnder(Leases(departures) + leases, registry.index) && Barred(Leases(departures) + leases, feedback)
    }

    /** A limiter limits to what was asked for when it was made; a host's limiter, by
        the look-up that registered it. */
    ghost predicate AsAsked(l: GCRARateLimiter)
      reads this`asks
    {
      && l.limits.rate > 0.0 && l.limits == MakeLimits(l.limits.rate, l.limits.burst)
      && parse(l.rateSpec) == PerSecond(l.limits.rate)
      && match l.owner
         case Everyone => true
         case Host(name) =>
           && l.lookup < |asks| && asks[l.lookup].host == name
           && l.rateSpec == Effective(asks[l.lookup].spec) && l.limits.burst == asks[l.lookup].burst
    }

    ghost predicate AllAsAsked()
      reads this`asks, this`limiters
    {
      forall l :: l in limiters ==> AsAsked(l)
    }

    /** Registered limiters are known ones, each of its key's host. */
    ghost predicate RegistryFits()
      reads registry`index, this`limiters
    {
      forall k :: k in registry.index ==> registry.index[k].value in limiters && registry.index[k].value.owner == Host(k)
    }

    ghost predicate GlobalFits()
      reads this`global, this`globalSpec, this`limiters
    {
      global != null ==> global in limiters && global.owner == Everyone && global.rateSpec == globalSpec
    }

    /** What has left was leased from known limiters, in order of time, wave by
        wave. */
    ghost predicate DeparturesFit(now: real)
      reads this`departures, this`limiters, this`waves, this`sent
    {
      && AllKnown(Leases(departures), limiters) && LeftBy(departures, now)
      && Requests(departures) == Flatten(waves) && sent == |departures|
    }

    ghost predicate LimitersFit(now: real, m: nat)
      reads this`departures, this`limiters, limiters`tat, limiters`history
    {
      forall l :: l in limiters ==> Fine(l, m) && l.UpTo(now) && Unhurried(l)
    }

    /** What was fed shows in the limiters' histories. */
    ghost predicate AllKept()
      reads this`feedback, this`limiters, limiters`history
    {
      forall i :: 0 <= i < |feedback| ==> feedback[i].limiter in limiters && KeptIn(feedback[i], feedback[i].limiter.history)
    }

    ghost predicate GivenKnown()
      reads this`given, this`limiters
    {
      forall i :: 0 <= i < |given| ==> given[i] in limiters
    }

    /** The registry has seen the look-ups and nothing else. */
    ghost predicate Traced()
      reads this`asks, this`given, registry`trace, registry`index
    {
      LookedUp(asks, given, registry.trace, registry.index, registry.maxSize)
    }

    ghost predicate Valid(m: nat)
      reads this, clock, registry, limiters`tat, limiters`history
    {
      Settled(m) && Traced()
    }

    /** All of it but the registry's trace. */
    ghost predicate Settled(m: nat)
      reads this, clock, registry, limiters`tat, limiters`history
    {
      && registry.Valid() && GivenKnown() && RegistryFits() && GlobalFits() && AllAsAsked() && AllKept() && Orderly([])
      && DeparturesFit(clock.now) && LimitersFit(clock.now, m)
      && parse(DEFAULT_RATE_LIMIT) == PerSecond(20.0)
    }

    /** Time passing changes nothing of that. */
    lemma Later(now: real, later: real, m: nat)
      requires now <= later
      ensures DeparturesFit(now) ==> DeparturesFit(later)
      ensures LimitersFit(now, m) ==> LimitersFit(later, m)
    {
      hide AllKnown, Fine, Unhurried, Requests, Flatten;
    }

    ghost predicate Holds(l: GCRARateLimiter, tickets: seq<nat>, since: real)
      reads this`departures, l`history
    {
      Held(l, Under(departures, l), tickets, since)
    }

    /** The wave being assembled: the leases given out since it began. */
    ghost predicate Assembling(leases: seq<Lease>, since: real)
      reads this`departures, this`limiters, limiters`history
    {
      && AllKnown(leases, limiters)
      && (forall l :: l in limiters ==> Holds(l, Tickets(leases, l), since))
    }

    constructor (clock: Clock, maxHosts: nat, parse: string -> Parsed, network: (nat, Pending) -> Reply, ghost m: nat)
      requires maxHosts >= 1 && parse("20/s") == PerSecond(20.0)
      ensures Valid(m) && this.clock == clock && this.parse == parse && this.network == network
      ensures sent == 0 && departures == [] && waves == [] && limiters == {} && asks == [] && given == [] && feedback == [] && fresh(registry)
    {
      this.clock, this.parse, this.network := clock, parse, network;
      registry := new LRUPool(maxHosts);
      global, globalSpec, sent, departures, waves, limiters, asks, given, feedback := null, "", 0, [], [], {}, [], [], [];
    }

    /** Notes a look-up. */
    ghost method Note(ask: Ask, m: nat)
      requires Settled(m)
      modifies this`asks
      ensures Settled(m) && asks == old(asks) + [ask]
    {
      hide LRUPool.Valid, DeparturesFit, LimitersFit, RegistryFits, GlobalFits, Orderly, AllKept, Effective;
      asks := asks + [ask];
    }

    /** Notes the limiter that a look-up was given. */
    ghost method NoteGiven(l: GCRARateLimiter, m: nat)
      requires Settled(m) && l in limiters
      modifies this`given
      ensures Settled(m) && given == old(given) + [l]
    {
      hide LRUPool.Valid, DeparturesFit, LimitersFit, RegistryFits, GlobalFits, Orderly, AllKept, AllAsAsked;
      given := given + [l];
    }

    /** Makes a limiter, for a look-up or for everything. */
    method NewLimiter(rate: real, burst: real, spec: string, ghost owner: Owner, ghost lookup: nat,
                      ghost leases: seq<Lease>, ghost since: real, ghost m: nat)
        returns (l: GCRARateLimiter)
      requires rate > 0.0 && Settled(m) && Assembling(leases, since) && parse(spec) == PerSecond(rate)
      requires owner.Host? ==> lookup < |asks| && asks[lookup] == Ask(owner.name, asks[lookup].spec, burst) && spec == Effective(asks[lookup].spec)
      modifies clock, this`limiters
      ensures Settled(m) && Assembling(leases, since) && clock.now >= old(clock.now)
      ensures fresh(l) && l.owner == owner && l.lookup == lookup && l.rateSpec == spec && l.limits == MakeLimits(rate, burst)
      ensures l.facts == NO_FACTS && l.history == [] && l.throttled429 == 0
      ensures limiters == old(limiters) + {l}
    {
      hide Sound, Held, AllKnown, Flatten, LRUPool.Valid, Under, Tickets, Orderly, KeptIn, LeftBy, Requests, Effective, Leases;
      hide Polite, Grants, Tat, Chronological, Limits.Valid;
      ghost var was := clock.now;
      l := new GCRARateLimiter(rate, burst, spec, clock, owner, lookup);
      LeftByLater(departures, was, clock.now);
      NewIsSound(l, since, m);
      UnderUnknown(departures, l, limiters);
      TicketsBounded(leases, l, limiters);
      MoreKnown(Leases(departures), limiters, limiters + {l});
      MoreKnown(leases, limiters, limiters + {l});
      limiters := limiters + {l};
    }

    /** The global limiter for a spec, made anew whenever the spec changes. */
    method GlobalLimiter(spec: string, burst: real, ghost leases: seq<Lease>, ghost since: real, ghost m: nat)
        returns (r: Lookup)
      requires Valid(m) && Assembling(leases, since)
      requires spec != "" && parse(spec).PerSecond? ==> parse(spec).rate > 0.0
      modifies clock, this`global, this`globalSpec, this`limiters
      ensures Valid(m) && Assembling(leases, since) && clock.now >= old(clock.now)
      ensures r.Threw? <==> spec != "" && parse(spec).Malformed?
      ensures r.Found? ==> (r.limiter == null <==> spec == "")
      ensures r.Found? && r.limiter != null ==>
                && r.limiter in limiters && r.limiter.owner == Everyone && r.limiter == global
                && r.limiter.limits.rate == parse(spec).rate
                && (if old(global) != null && old(globalSpec) == spec then global == old(global)
                    else r.limiter.limits == MakeLimits(parse(spec).rate, burst))
      ensures old(limiters) <= limiters && fresh(limiters - old(limiters))
    {
      hide Assembling, LRUPool.Valid, DeparturesFit, LimitersFit, RegistryFits, Orderly, AllKept, Traced, GivenKnown;
      if spec == "" {
        return Found(null);
      }
      if global == null || globalSpec != spec {
        var parsed := parse(spec);
        if parsed.Malformed? {
          return Threw;
        }
        global := NewLimiter(parsed.rate, burst, spec, Everyone, 0, leases, since, m);
        globalSpec := spec;
      }
      return Found(global);
    }

    lemma EveryLeaseKnown(leases: seq<Lease>, since: real, m: nat)
      requires Settled(m) && Assembling(leases, since)
      ensures AllKnown(Leases(departures) + leases, limiters) && AllKnown(Leases(departures) + [], limiters)
    {
      hide Known, LimitersFit, LRUPool.Valid, Holds, Leases, Orderly, AllAsAsked, AllKept, RegistryFits;
    }

    /** The registered hosts are the last distinct ones looked up. */
    lemma InRegistry(host: string)
      requires registry.Valid() && Traced()
      ensures host in registry.index <==> Recent(HostsOf(asks), host, registry.maxSize)
    {
      AllSucceed(registry.maxSize, asks);
      PoolIsMostRecent(registry);
    }

    /** The limiter of a host, made on first use; none when the spec disables
        limiting.  An empty spec means the default. */
    method HostLimiter(host: string, spec: string, burst: real, ghost leases: seq<Lease>, ghost since: real, ghost m: nat)
        returns (r: Lookup)
      requires Valid(m) && Assembling(leases, since) && Orderly(leases)
      modifies clock, registry, this`limiters, this`asks, this`given
      ensures Valid(m) && Assembling(leases, since) && Orderly(leases) && clock.now >= old(clock.now)
      ensures r.Threw? <==> parse(Effective(spec)).Malformed?
      ensures r.Found? ==> (r.limiter == null <==> parse(Effective(spec)).rate <= 0.0)
      ensures r.Found? && r.limiter != null ==> r.limiter in limiters && r.limiter.owner == Host(host)
      ensures r.Found? && r.limiter != null ==> host in registry.index && registry.index[host].value == r.limiter
      ensures old(limiters) <= limiters && fresh(limiters - old(limiters))
      ensures asks == old(asks) + if r.Found? && r.limiter != null then [Ask(host, spec, burst)] else []
      ensures given == old(given) + if r.Found? && r.limiter != null then [r.limiter] else []
      ensures r.Found? && r.limiter != null ==>
                if host in old(registry.index) then r.limiter == old(registry.index[host].value)
                else
                  && r.limiter !in old(limiters) && r.limiter.lookup == |old(asks)|
                  && r.limiter.limits == MakeLimits(parse(Effective(spec)).rate, burst)
      ensures r.Found? && r.limiter != null && r.limiter !in old(limiters) ==>
                fresh(r.limiter) && r.limiter.facts == NO_FACTS && r.limiter.history == [] && r.limiter.throttled429 == 0
    {
      hide Valid, Assembling, Orderly;
      var parsed := parse(Effective(spec));
      if parsed.Malformed? {
        return Threw;
      }
      if parsed.rate <= 0.0 {
        return Found(null);
      }
      var l := Register(host, Effective(spec), parsed.rate, Ask(host, spec, burst), leases, since, m);
      return Found(l);
    }

    /** The look-up in the registry, of a rate that limits. */
    method Register(host: string, effective: string, rate: real, ask: Ask, ghost leases: seq<Lease>, ghost since: real, ghost m: nat)
        returns (l: GCRARateLimiter)
      requires Valid(m) && Assembling(leases, since) && Orderly(leases)
      requires ask.host == host && effective == Effective(ask.spec) && parse(effective) == PerSecond(rate) && rate > 0.0
      modifies clock, registry, this`limiters, this`asks, this`given
      ensures Valid(m) && Assembling(leases, since) && Orderly(leases) && clock.now >= old(clock.now)
      ensures l in limiters && l.owner == Host(host) && host in registry.index && registry.index[host].value == l
      ensures old(limiters) <= limiters && fresh(limiters - old(limiters))
      ensures asks == old(asks) + [ask] && given == old(given) + [l]
      ensures if host in old(registry.index) then l == old(registry.index[host].value)
              else l !in old(limiters) && l.lookup == |old(asks)| && l.limits == MakeLimits(rate, ask.burst)
      ensures l !in old(limiters) ==> fresh(l) && l.facts == NO_FACTS && l.history == [] && l.throttled429 == 0
    {
      hide Settled, Assembling, Orderly, LookedUp, Effective, Recent, LRUPool.Valid;
      ghost var before, trace, index := asks, registry.trace, registry.index;
      RegistryValid(m);
      InRegistry(host);
      l := FindOrCreate(host, effective, rate, ask, leases, since, m);
      LookedUpNext(before, given, trace, index, registry.index, registry.maxSize, ask, l);
      NoteGiven(l, m);
    }

    /** The access to the registry itself. */
    method FindOrCreate(host: string, effective: string, rate: real, ask: Ask, ghost leases: seq<Lease>, ghost since: real, ghost m: nat)
        returns (l: GCRARateLimiter)
      requires Settled(m) && Assembling(leases, since) && Orderly(leases)
      requires ask.host == host && effective == Effective(ask.spec) && parse(effective) == PerSecond(rate) && rate > 0.0
      modifies clock, registry, this`limiters, this`asks
      ensures Settled(m) && Assembling(leases, since) && Orderly(leases) && clock.now >= old(clock.now)
      ensures l in limiters && l.owner == Host(host) && host in registry.index && registry.index[host].value == l
      ensures old(limiters) <= limiters && fresh(limiters - old(limiters))
      ensures asks == old(asks) + [ask] && registry.trace == old(registry.trace) + [GetOrCreate(host)]
      ensures forall k :: k in registry.index && k != host ==> k in old(registry.index) && registry.index[k] == old(registry.index[k])
      ensures if host in old(registry.index) then l == old(registry.index[host].value)
              else l !in old(limiters) && l.lookup == |old(asks)| && l.limits == MakeLimits(rate, ask.burst)
      ensures l !in old(limiters) ==> fresh(l) && l.facts == NO_FACTS && l.history == [] && l.throttled429 == 0
    {
      hide Assembling, AllKnown, LRUPool.Valid, Create, LoyalUnder, Barred, Leases, DeparturesFit, LimitersFit, GlobalFits, AllAsAsked, AllKept, Effective;
      ghost var index, known, es := registry.index, limiters, Leases(departures) + leases;
      EveryLeaseKnown(leases, since, m);
      Note(ask, m);
      // The pool calls its factory on a miss only.
      var made: GCRARateLimiter;
      if host in registry.index {
        made := registry.index[host].value;
      } else {
        made := NewLimiter(rate, ask.burst, effective, Host(host), |asks| - 1, leases, since, m);
      }
      l := registry.GetOrCreate(host, () => made);
      LoyalRegistered(es, index, registry.index, host, known);
      LoyalRegistered(Leases(departures) + [], index, registry.index, host, known);
    }

    lemma RegistryValid(m: nat)
      requires Settled(m)
      ensures registry.Valid() && GivenKnown() && RegistryFits()
    {
      hide LRUPool.Valid, GivenKnown, RegistryFits;
    }

    /** The registered hosts are the most recent ones, latest first, of all that were
        looked up: a look-up moves its host to the front, and the last host falls out
        when there are too many. */
    lemma RegisteredHosts(m: nat)
      requires Valid(m)
      ensures registry.Keys() == Recency.Take(MostRecent(HostsOf(asks)), registry.maxSize)
      ensures forall k :: k in registry.index <==> k in registry.Keys()
    {
      RegistryValid(m);
      hide Settled, RegistryFits, GivenKnown;
      AllSucceed(registry.maxSize, asks);
      PoolIsMostRecent(registry);
    }

    /** Two look-ups of a host in a row, by number, give the same limiter, with the
        tokens and the backoff it has, if and only if fewer distinct hosts than the
        registry holds were looked up between them. */
    lemma SameLimiterIff(i: nat, j: nat, m: nat)
      requires Valid(m) && i < j < |asks| && asks[i].host == asks[j].host
      requires forall k :: i < k < j ==> asks[k].host != asks[i].host
      ensures |given| == |asks|
      ensures given[i] == given[j] <==> |set k: nat | i < k < j :: asks[k].host| < registry.maxSize
    {
      hide Settled, Recent, MostRecent;
      var hosts, host := HostsOf(asks), asks[i].host;
      assert GivenWell(hosts, given, registry.maxSize, j);
      assert LastAccess(hosts[..j], host) == i by {
        assert hosts[..j][i] == host && forall k :: i < k < j ==> hosts[..j][k] != host;
      }
      RecentIffFewSince(hosts[..j], host, registry.maxSize);
      assert Since(hosts[..j], i) == set k: nat | i < k < j :: asks[k].host;
    }

    /** Takes a token of one limiter for the wave being assembled. */
    method Acquire(l: GCRARateLimiter?, ghost leases: seq<Lease>, ghost since: real, ghost m: nat)
        returns (ghost ticket: nat)
      requires Valid(m) && Assembling(leases, since) && since <= clock.now
      requires l == null || l in limiters
      modifies clock
      modifies if l == null then {} else {l}
      ensures Valid(m) && clock.now >= old(clock.now)
      ensures l != null ==> Holds(l, Tickets(leases, l) + [ticket], since) && ticket == |old(l.Tokens())|
      ensures forall x :: x in limiters && x != l ==> Holds(x, Tickets(leases, x), since)
    {
      hide DeparturesFit, RegistryFits, GlobalFits, AllAsAsked, Orderly, KeptIn;
      hide AllKnown, LRUPool.Valid, Under, Tickets, Limits.Valid, WellPaced, Holding, Grants, Tat, Chronological, Polite;
      ticket := 0;
      if l != null {
        ghost var tokens := l.Tokens();
        ticket := |tokens|;
        ghost var h, was := l.history, clock.now;
        AcquireRateLimit(l, clock);
        Later(was, clock.now, m);
        forall i | 0 <= i < |feedback|
          ensures KeptIn(feedback[i], feedback[i].limiter.history)
        {
          if feedback[i].limiter == l {
            KeptLonger(feedback[i], h, l.history);
          }
        }
        if l.limits.burst >= 1.0 {
          TokenTaken(tokens, clock.now, Under(departures, l), Tickets(leases, l), since, m);
        }
      }
    }

    ghost predicate SpecsParse(p: Pending) {
      && (p.settings.globalSpec != "" ==> parse(p.settings.globalSpec).PerSecond?)
      && parse(Effective(p.settings.rateSpec)).PerSecond?
    }

    /** The rate a request's host is limited to; none if not positive. */
    ghost function Limit(p: Pending): real
      requires SpecsParse(p)
    {
      parse(Effective(p.settings.rateSpec)).rate
    }

    /** The look-up a request makes in the registry, if any. */
    function AskOf(p: Pending): seq<Ask> {
      match parse(Effective(p.settings.rateSpec))
      case Malformed => []
      case PerSecond(rate) => if rate > 0.0 then [Ask(p.host, p.settings.rateSpec, p.settings.burst)] else []
    }

    function AsksOf(batch: seq<Pending>): seq<Ask> {
      if batch == [] then [] else AsksOf(batch[..|batch| - 1]) + AskOf(batch[|batch| - 1])
    }

    lemma {:induction false} AsksOfMembers(batch: seq<Pending>, a: Ask)
      requires a in AsksOf(batch)
      ensures exists p :: p in batch && a in AskOf(p)
    {
      hide AskOf;
      var n := |batch| - 1;
      if a in AsksOf(batch[..n]) {
        AsksOfMembers(batch[..n], a);
      } else {
        assert batch[n] in batch;
      }
    }

    /** The rate limiter's arithmetic needs a positive rate. */
    ghost predicate GlobalRatePositive(p: Pending) {
      var spec := p.settings.globalSpec;
      spec != "" && parse(spec).PerSecond? ==> parse(spec).rate > 0.0
    }

    /** The next token of a limiter is behind all feedback. */
    lemma NextTicketBehind(l: GCRARateLimiter, m: nat)
      requires Valid(m)
      ensures forall i :: 0 <= i < |feedback| && feedback[i].limiter == l ==> |l.Tokens()| >= feedback[i].grants
    {
      hide DeparturesFit, LimitersFit, RegistryFits, GlobalFits, AllAsAsked, Orderly, LRUPool.Valid;
      forall i | 0 <= i < |feedback| && feedback[i].limiter == l
        ensures |l.Tokens()| >= feedback[i].grants
      {
        GrantsGrow(l.limits, l.born, l.history, feedback[i].step);
      }
    }

    lemma LoyalMore(leases: seq<Lease>, e: Lease)
      requires Orderly(leases) && TicketBehind(e, feedback)
      requires e.host != null ==> e.request.host in registry.index && registry.index[e.request.host].value == e.host
      ensures Orderly(leases + [e])
    {
      LoyalLease(Leases(departures) + leases, registry.index, e);
      BarredLease(Leases(departures) + leases, feedback, e);
      assert Leases(departures) + leases + [e] == Leases(departures) + (leases + [e]);
    }

    lemma LoyalLess(leases: seq<Lease>, e: Lease)
      requires Orderly(leases + [e])
      ensures Orderly(leases)
    {
      assert Leases(departures) + leases + [e] == Leases(departures) + (leases + [e]);
      LoyalBefore(Leases(departures) + leases, [e], registry.index);
      BarredBefore(Leases(departures) + leases, [e], feedback);
    }

    /** Takes the tokens one request needs: of the global limiter, then of its
        host's.  Fails just when one of the two specs does not parse. */
    method Take(p: Pending, ghost leases: seq<Lease>, ghost since: real, ghost m: nat)
        returns (ok: bool, ghost e: Lease)
      requires Valid(m) && Assembling(leases, since) && Orderly(leases) && since <= clock.now && GlobalRatePositive(p)
      modifies clock, registry, limiters, this`global, this`globalSpec, this`limiters, this`asks, this`given
      ensures Valid(m) && clock.now >= old(clock.now)
      ensures old(limiters) <= limiters && fresh(limiters - old(limiters))
      ensures ok <==> SpecsParse(p)
      ensures ok ==> Assembling(leases + [e], since) && Orderly(leases + [e]) && Fits(e, p)
      ensures asks == old(asks) + if ok then AskOf(p) else []
      ensures given == old(given) + if ok then HostOf(e) else []
    {
      hide Valid, Assembling, Orderly;
      ok, e := TakeGlobal(p, leases, since, m);
      if ok {
        ok, e := TakeHost(p, leases, e, since, m);
      }
    }

    method TakeGlobal(p: Pending, ghost leases: seq<Lease>, ghost since: real, ghost m: nat)
        returns (ok: bool, ghost e: Lease)
      requires Valid(m) && Assembling(leases, since) && Orderly(leases) && since <= clock.now && GlobalRatePositive(p)
      modifies clock, limiters, this`global, this`globalSpec, this`limiters
      ensures Valid(m) && clock.now >= old(clock.now)
      ensures old(limiters) <= limiters && fresh(limiters - old(limiters))
      ensures ok <==> (p.settings.globalSpec != "" ==> parse(p.settings.globalSpec).PerSecond?)
      ensures ok ==> Assembling(leases + [e], since) && Orderly(leases + [e])
      ensures ok ==> e == Lease(p, null, 0, e.global, e.globalTicket) && GlobalFit(e, p)
      ensures ok && e.global != null ==>
                if old(global) != null && old(globalSpec) == p.settings.globalSpec then e.global == old(global)
                else e.global.limits == MakeLimits(parse(p.settings.globalSpec).rate, p.settings.globalBurst)
    {
      hide Valid, Assembling, Orderly, Holds, Tickets, KeptIn;
      e := Lease(p, null, 0, null, 0);
      var g := GlobalLimiter(p.settings.globalSpec, p.settings.globalBurst, leases, since, m);
      if g.Threw? {
        return false, e;
      }
      KnownLeases(leases, since);
      ghost var ticket := Acquire(g.limiter, leases, since, m);
      e := Lease(p, null, 0, g.limiter, ticket);
      GlobalAdded(leases, e, since);
      LoyalMore(leases, e);
      ok := true;
    }

    method TakeHost(p: Pending, ghost leases: seq<Lease>, ghost half: Lease, ghost since: real, ghost m: nat)
        returns (ok: bool, ghost e: Lease)
      requires Valid(m) && Assembling(leases + [half], since) && Orderly(leases + [half]) && since <= clock.now
      requires half == Lease(p, null, 0, half.global, half.globalTicket)
      modifies clock, registry, limiters, this`limiters, this`asks, this`given
      ensures Valid(m) && clock.now >= old(clock.now)
      ensures old(limiters) <= limiters && fresh(limiters - old(limiters))
      ensures ok <==> parse(Effective(p.settings.rateSpec)).PerSecond?
      ensures ok ==> Assembling(leases + [e], since) && Orderly(leases + [e])
      ensures ok ==> e == half.(host := e.host, hostTicket := e.hostTicket) && (e.host == null <==> AskOf(p) == [])
      ensures asks == old(asks) + if ok then AskOf(p) else []
      ensures ok ==> asks == old(asks) + if e.host != null then [Ask(p.host, p.settings.rateSpec, p.settings.burst)] else []
      ensures given == old(given) + if ok then HostOf(e) else []
    {
      hide Valid, Assembling, Orderly, Holds, Tickets, KeptIn;
      e := half;
      var h := HostLimiter(p.host, p.settings.rateSpec, p.settings.burst, leases + [half], since, m);
      if h.Threw? {
        return false, e;
      }
      if h.limiter != null {
        NextTicketBehind(h.limiter, m);
      }
      KnownLeases(leases + [half], since);
      ghost var ticket := Acquire(h.limiter, leases + [half], since, m);
      e := half.(host := h.limiter, hostTicket := ticket);
      LoyalLess(leases, half);
      LoyalMore(leases, e);
      HostAdded(leases, half, e, since);
      ok := true;
    }

    lemma KnownLeases(leases: seq<Lease>, since: real)
      requires Assembling(leases, since)
      ensures AllKnown(leases, limiters)
    {
      hide Holds;
    }

    /** A wave with one more request, that holds a token of the global limiter. */
    lemma GlobalAdded(leases: seq<Lease>, e: Lease, since: real)
      requires AllKnown(leases, limiters) && Known(e, limiters) && e.host == null
      requires forall l :: l in limiters && l != e.global ==> Holds(l, Tickets(leases, l), since)
      requires e.global != null ==> Holds(e.global, Tickets(leases, e.global) + [e.globalTicket], since)
      ensures Assembling(leases + [e], since)
    {
      hide Holds, Tickets, Known;
      forall l | l in limiters
        ensures Holds(l, Tickets(leases + [e], l), since)
      {
        TicketsAppend(leases, e, l);
      }
    }

    /** And one of its host's limiter, too. */
    lemma HostAdded(leases: seq<Lease>, half: Lease, e: Lease, since: real)
      requires AllKnown(leases + [half], limiters) && half == e.(host := null, hostTicket := 0)
      requires e.host != null ==> e.host in limiters && e.host.owner == Host(e.request.host)
      requires forall l :: l in limiters && l != e.host ==> Holds(l, Tickets(leases + [half], l), since)
      requires e.host != null ==> Holds(e.host, Tickets(leases + [half], e.host) + [e.hostTicket], since)
      ensures Assembling(leases + [e], since)
    {
      hide Holds, Tickets;
      assert Known((leases + [half])[|leases|], limiters);
      forall i | 0 <= i < |leases|
        ensures Known(leases[i], limiters)
      {
        assert Known((leases + [half])[i], limiters);
      }
      hide Known;
      forall l | l in limiters
        ensures Holds(l, Tickets(leases + [e], l), since)
      {
        TicketsAppend(leases, half, l);
        TicketsAppend(leases, e, l);
        if l == e.host {
          assert TicketsOf(e, l) == TicketsOf(half, l) + [e.hostTicket];
          assert Tickets(leases, l) + (TicketsOf(half, l) + [e.hostTicket]) == Tickets(leases + [half], l) + [e.hostTicket];
        }
      }
    }

    /** Whether a lease has the global limiter its request's configuration asks for,
        and none if it asks for none. */
    ghost predicate GlobalFit(e: Lease, p: Pending)
      requires p.settings.globalSpec != "" ==> parse(p.settings.globalSpec).PerSecond?
    {
      && (e.global == null <==> p.settings.globalSpec == "")
      && (e.global != null ==> e.global.limits.rate == parse(p.settings.globalSpec).rate)
    }

    /** Whether a lease gives its request what its configuration asks for. */
    ghost predicate Fits(e: Lease, p: Pending)
      requires SpecsParse(p)
    {
      && e.request == p
      && GlobalFit(e, p)
      && (e.host == null <==> Limit(p) <= 0.0)
    }

    ghost predicate AllFit(leases: seq<Lease>, batch: seq<Pending>) {
      |leases| == |batch| && forall i :: 0 <= i < |batch| ==> SpecsParse(batch[i]) && Fits(leases[i], batch[i])
    }

    lemma WaveBegins(m: nat)
      requires Valid(m)
      ensures Assembling([], clock.now) && Orderly([])
    {
      hide Grants, WellPaced, Flatten, LRUPool.Valid, AllKnown, Unhurried;
      assert AllKnown([], limiters) by {
        NoneKnown(limiters);
      }
      forall l | l in limiters
        ensures Holds(l, Tickets([], l), clock.now)
      {
        UnderLeftBy(departures, l, clock.now);
      }
    }

    /** Takes the tokens of a whole wave, one request after the other. */
    method TakeAll(batch: seq<Pending>, ghost m: nat) returns (ok: bool, taken: nat, ghost leases: seq<Lease>)
      requires Valid(m) && forall i :: 0 <= i < |batch| ==> GlobalRatePositive(batch[i])
      modifies clock, registry, limiters, this`global, this`globalSpec, this`limiters, this`asks, this`given
      ensures Valid(m) && clock.now >= old(clock.now)
      ensures old(limiters) <= limiters && fresh(limiters - old(limiters))
      ensures taken <= |batch| && (ok <==> taken == |batch|)
      ensures forall i :: 0 <= i < taken ==> SpecsParse(batch[i])
      ensures taken < |batch| ==> !SpecsParse(batch[taken])
      ensures asks == old(asks) + AsksOf(batch[..taken])
      ensures given == old(given) + HostsIn(leases) && |leases| == taken
      ensures ok ==> Assembling(leases, old(clock.now)) && Orderly(leases) && AllFit(leases, batch)
    {
      hide Valid, Assembling, Orderly, SpecsParse, GlobalRatePositive, AskOf, Fits, Tickets;
      WaveBegins(m);
      assert batch[..0] == [];
      leases := [];
      taken := 0;
      while taken < |batch|
        invariant 0 <= taken <= |batch|
        invariant Valid(m) && Assembling(leases, old(clock.now)) && Orderly(leases) && clock.now >= old(clock.now)
        invariant old(limiters) <= limiters && fresh(limiters - old(limiters))
        invariant asks == old(asks) + AsksOf(batch[..taken])
        invariant given == old(given) + HostsIn(leases)
        invariant AllFit(leases, batch[..taken])
        invariant forall i :: 0 <= i < taken ==> SpecsParse(batch[i])
      {
        ghost var e;
        ok, e := Take(batch[taken], leases, old(clock.now), m);
        if !ok {
          return;
        }
        HostsInNext(leases, e);
        leases := leases + [e];
        assert AllFit(leases, batch[..taken + 1]);
        assert batch[..taken + 1][..taken] == batch[..taken];
        taken := taken + 1;
      }
      assert batch[..taken] == batch;
      ok := true;
    }

    lemma LimitersStaySound(leases: seq<Lease>, since: real, at: real, m: nat)
      requires Assembling(leases, since) && since <= at && |leases| <= m
      requires forall l :: l in limiters ==> Fine(l, m) && l.UpTo(at)
      ensures forall l :: l in limiters ==> Sound(l, Under(departures + Depart(leases, at), l), m)
    {
      hide Sound, Held;
      forall l | l in limiters
        ensures Sound(l, Under(departures + Depart(leases, at), l), m)
      {
        DepartUnder(departures, leases, at, l);
        TicketsBounded(leases, l, limiters);
        HeldFired(l, Under(departures, l), Tickets(leases, l), since, at, m);
      }
    }

    function Replies(first: nat, batch: seq<Pending>): (r: seq<Reply>)
      ensures |r| == |batch| && forall i :: 0 <= i < |batch| ==> r[i] == network(first + i, batch[i])
    {
      seq(|batch|, i requires 0 <= i < |batch| => network(first + i, batch[i]))
    }

    lemma DepartRequests(leases: seq<Lease>, batch: seq<Pending>, at: real)
      requires AllFit(leases, batch)
      ensures Requests(Depart(leases, at)) == batch && |Depart(leases, at)| == |batch| == |leases|
    {
      hide SpecsParse;
    }

    /** Hands a leased wave to the network, all requests together. */
    method Send(batch: seq<Pending>, ghost leases: seq<Lease>, ghost since: real, ghost m: nat)
        returns (replies: seq<Reply>)
      requires Valid(m) && Assembling(leases, since) && Orderly(leases) && since <= clock.now
      requires AllFit(leases, batch) && |batch| <= m
      modifies clock, this`sent, this`departures, this`waves
      ensures Valid(m) && clock.now >= old(clock.now)
      ensures |replies| == |batch| && forall i :: 0 <= i < |batch| ==> replies[i] == network(old(sent) + i, batch[i])
      ensures sent == old(sent) + |batch| && waves == old(waves) + [batch]
      ensures departures == old(departures) + Depart(leases, clock.now)
    {
      hide Sound, Holds, LRUPool.Valid, Under, Tickets, Flatten, AllKnown, SpecsParse, Unhurried, LoyalUnder, Barred, RegistryFits, GlobalFits, AllAsAsked, AllKept;
      hide Depart, Requests, Leases, Replies, Known, LeftBy, Fits, AllFit;
      var first := sent;
      ghost var was := clock.now;
      var now := clock.Read();
      LeftByLater(departures, was, now);
      DepartRequests(leases, batch, now);
      LimitersStaySound(leases, since, now, m);
      Departing(departures, leases, now, limiters);
      FlattenAppend(waves, batch);
      hide Assembling;
      departures := departures + Depart(leases, now);
      waves := waves + [batch];
      sent := sent + |batch|;
      replies := Replies(first, batch);
    }

    /** A core in good order for m requests in flight is so for more. */
    lemma MoreInFlight(m: nat, n: nat)
      requires Valid(m) && m <= n
      ensures Valid(n)
    {
      forall l | l in limiters
        ensures Fine(l, n)
      {
        assert Fine(l, m);
      }
    }

    lemma SentHasLeft(m: nat)
      requires Valid(m)
      ensures |departures| == sent
    {
    }

    lemma GlobalKnown(m: nat)
      requires Valid(m)
      ensures global != null ==> global in limiters && global.owner == Everyone
    {
    }

    lemma DefaultParses(m: nat)
      requires Valid(m)
      ensures parse(Effective("")) == PerSecond(20.0) && DEFAULT_BURST == 5.0
    {
    }

    /** Throttling a limiter takes no tokens and so leaves it sound. */
    method Throttle(l: GCRARateLimiter, seconds: real, ghost m: nat)
      requires Valid(m) && l in limiters && (Polite() ==> seconds >= 0.0)
      modifies clock, l`tat, l`history, l`throttled429
      ensures Valid(m) && clock.now >= old(clock.now)
      ensures l.throttled429 == old(l.throttled429) + 1
      ensures l.history == old(l.history) + [Step(clock.now, Op.Throttle(seconds))]
    {
      hide RegistryFits, GlobalFits, DeparturesFit, AllAsAsked, Orderly, KeptIn, LRUPool.Valid;
      hide Under, WellPaced, Grants, Tat, Chronological, Limits.Valid, Polite;
      ghost var h, was := l.history, clock.now;
      l.RecordThrottle(seconds, clock);
      Later(was, clock.now, m);
      forall i | 0 <= i < |feedback|
        ensures KeptIn(feedback[i], feedback[i].limiter.history)
      {
        if feedback[i].limiter == l {
          KeptLonger(feedback[i], h, l.history);
        }
      }
    }

    /** Notes what was fed to a limiter. */
    ghost method NoteFeedback(x: Fed, m: nat)
      requires Valid(m) && x.limiter in limiters && KeptIn(x, x.limiter.history) && x.departed == |departures|
      modifies this`feedback
      ensures Valid(m) && feedback == old(feedback) + [x]
    {
      hide RegistryFits, GlobalFits, DeparturesFit, LimitersFit, AllAsAsked, KeptIn, LRUPool.Valid, LoyalUnder, Barred;
      BarredFed(Leases(departures) + [], feedback, x);
      feedback := feedback + [x];
    }

    /** Feeds a response to a limiter, and notes that. */
    method Feed(l: GCRARateLimiter, r: Response, ghost m: nat)
      requires Valid(m) && l in limiters && (Polite() && r.retryAfter.Seconds? ==> r.retryAfter.value >= 0.0)
      modifies clock, l`facts, l`tat, l`history, l`throttled429, this`feedback
      ensures Valid(m) && clock.now >= old(clock.now)
      ensures l.facts == Recorded(old(l.facts), r)
      ensures l.throttled429 == old(l.throttled429) + (if r.status == 429 then 1 else 0)
      ensures l.history == old(l.history) +
                           (if r.status == 429
                            then [Step(clock.now, Op.Throttle(if r.retryAfter.Seconds? then r.retryAfter.value else 1.0))] else [])
      ensures feedback == old(feedback) + [Fed(l, r, |old(l.history)|, |old(l.Tokens())|, |departures|, clock.now)]
    {
      hide Valid, Recorded, Polite, Grants;
      ghost var h, grants := l.history, |l.Tokens()|;
      l.RecordResponse(r);
      if r.status == 429 {
        Throttle(l, Backoff(r.retryAfter), m);
      }
      assert l.history[..|h|] == h;
      NoteFeedback(Fed(l, r, |h|, grants, |departures|, clock.now), m);
    }

    /** The limiter of a host, as a look-up with no spec of its own finds it. */
    method DefaultLimiter(host: string, ghost m: nat) returns (l: GCRARateLimiter)
      requires Valid(m)
      modifies clock, registry, this`limiters, this`asks, this`given
      ensures Valid(m) && clock.now >= old(clock.now)
      ensures l in limiters && l.owner == Host(host) && host in registry.index && registry.index[host].value == l
      ensures old(limiters) <= limiters && fresh(limiters - old(limiters))
      ensures asks == old(asks) + [Ask(host, "", DEFAULT_BURST)] && given == old(given) + [l]
      ensures if host in old(registry.index) then l == old(registry.index[host].value) else l !in old(limiters) && l.lookup == |old(asks)|
      ensures l in old(limiters) || fresh(l)
      ensures l !in old(limiters) ==> l.facts == NO_FACTS && l.history == [] && l.throttled429 == 0
    {
      hide *;
      DefaultParses(m);
      WaveBegins(m);
      var found := HostLimiter(host, "", DEFAULT_BURST, [], clock.now, m);
      l := found.limiter;
    }

    /** Looks up the limiter of a host, making one if need be, and feeds it. */
    method FeedHost(r: Response, host: string, ghost m: nat) returns (ghost l: GCRARateLimiter)
      requires Valid(m) && (Polite() && r.retryAfter.Seconds? ==> r.retryAfter.value >= 0.0)
      modifies clock, registry, limiters, this`limiters, this`asks, this`given, this`feedback
      ensures Valid(m) && clock.now >= old(clock.now)
      ensures old(limiters) <= limiters && fresh(limiters - old(limiters))
      ensures host in registry.index && registry.index[host].value == l && l in limiters && l.owner == Host(host)
      ensures asks == old(asks) + [Ask(host, "", DEFAULT_BURST)] && given == old(given) + [l]
      ensures |feedback| == |old(feedback)| + 1 && old(feedback) <= feedback
      ensures var x := feedback[|old(feedback)|];
              x.limiter == l && x.response == r && x.departed == |departures| && x.at == clock.now
      ensures if host in old(registry.index) then l == old(registry.index[host].value) else l.lookup == |old(asks)|
      ensures l.facts == Recorded(if l in old(limiters) then old(l.facts) else NO_FACTS, r)
      ensures l.throttled429 == (if l in old(limiters) then old(l.throttled429) else 0) + (if r.status == 429 then 1 else 0)
      ensures l.history == (if l in old(limiters) then old(l.history) else []) +
                           (if r.status == 429
                            then [Step(clock.now, Op.Throttle(if r.retryAfter.Seconds? then r.retryAfter.value else 1.0))] else [])
      ensures forall x :: x in old(limiters) && x != l ==> unchanged(x)
    {
      hide *;
      var found := DefaultLimiter(host, m);
      l := found;
      Feed(found, r, m);
    }

    /** The first look-up decides.  If the first that a host is looked up for is
        feedback, as when its first request asked for no limit, its limiter is the
        default one, whatever the next request asks for. */
    method FeedbackRegisters(r: Response, host: string, spec: string, burst: real, ghost m: nat) returns (l: GCRARateLimiter)
      requires Valid(m) && (Polite() && r.retryAfter.Seconds? ==> r.retryAfter.value >= 0.0)
      requires host !in registry.index && parse(Effective(spec)).PerSecond? && parse(Effective(spec)).rate > 0.0
      modifies clock, registry, limiters, this`limiters, this`asks, this`given, this`feedback
      ensures Valid(m) && host in registry.index && registry.index[host].value == l
      ensures l.limits.rate == 20.0 && l.limits.burst == 5.0
    {
      hide *;
      ghost var first := FeedHost(r, host, m);
      WaveBegins(m);
      var found := HostLimiter(host, spec, burst, [], clock.now, m);
      l := found.limiter;
      DefaultParses(m);
      LimitsAsAsked(l, m);
    }

    /** A host's limiter has the rate and the burst that the look-up which registered
        it asked for. */
    lemma LimitsAsAsked(l: GCRARateLimiter, m: nat)
      requires Valid(m) && l in limiters && l.owner.Host?
      ensures l.lookup < |asks| && asks[l.lookup].host == l.owner.name
      ensures asks[l.lookup].spec != "" ==> parse(asks[l.lookup].spec) == PerSecond(l.limits.rate)
      ensures asks[l.lookup].spec == "" ==> l.limits.rate == 20.0
      ensures parse(Effective(asks[l.lookup].spec)) == PerSecond(l.limits.rate) && l.limits.burst == asks[l.lookup].burst
    {
      hide RegistryFits, GlobalFits, DeparturesFit, LimitersFit, AllKept, Orderly, LRUPool.Valid;
      assert AsAsked(l);
    }

    /** What a request's configuration asks for: an empty global rate is none at all,
        an empty rate of its own is the default of 20 a second. */
    lemma SpecsMean(p: Pending, m: nat)
      requires Valid(m)
      ensures SpecsParse(p) <==>
                && (p.settings.globalSpec == "" || parse(p.settings.globalSpec).PerSecond?)
                && (p.settings.rateSpec == "" || parse(p.settings.rateSpec).PerSecond?)
      ensures SpecsParse(p) ==> Limit(p) == if p.settings.rateSpec == "" then 20.0 else parse(p.settings.rateSpec).rate
    {
      hide RegistryFits, GlobalFits, DeparturesFit, LimitersFit, AllKept, Orderly, LRUPool.Valid, AllAsAsked, LookedUp;
    }

    /** So a request is limited to the rate its own configuration asks for if and only
        if the look-up that registered its limiter asked for that rate. */
    lemma RateAsConfiguredIff(k: nat, m: nat)
      requires Valid(m) && k < |departures| && departures[k].lease.host != null && SpecsParse(departures[k].lease.request)
      ensures var l, p := departures[k].lease.host, departures[k].lease.request;
              && l.lookup < |asks| && asks[l.lookup].host == p.host
              && (l.limits.rate == Limit(p) <==> parse(Effective(asks[l.lookup].spec)) == PerSecond(Limit(p)))
    {
      hide RegistryFits, GlobalFits, LimitersFit, AllKept, Orderly, LRUPool.Valid, Effective, AllAsAsked;
      assert Known(Leases(departures)[k], limiters);
      LimitsAsAsked(departures[k].lease.host, m);
    }

    /** The global limiter, if there is one, counts a response too. */
    method FeedGlobal(r: Response, ghost m: nat)
      requires Valid(m)
      modifies if global == null then {} else {global}`facts
      ensures Valid(m)
      ensures global != null ==> global.owner == Everyone && global.facts == Recorded(old(global.facts), r)
    {
      hide Valid, Recorded;
      GlobalKnown(m);
      if global != null {
        global.RecordResponse(r);
      }
    }

    /** Feeds a response back to the limiter of its host: the counters, and on a
        429 the backoff the server asked for.  The global limiter counts it too. */
    method RecordResponseStats(r: Response, host: string, ghost m: nat) returns (ghost l: GCRARateLimiter)
      requires Valid(m) && (Polite() && r.retryAfter.Seconds? ==> r.retryAfter.value >= 0.0)
      modifies clock, registry, limiters, this`limiters, this`asks, this`given, this`feedback
      ensures Valid(m) && clock.now >= old(clock.now)
      ensures old(limiters) <= limiters && fresh(limiters - old(limiters))
      ensures host in registry.index && registry.index[host].value == l && l in limiters && l.owner == Host(host)
      ensures asks == old(asks) + [Ask(host, "", DEFAULT_BURST)] && given == old(given) + [l]
      ensures |feedback| == |old(feedback)| + 1 && old(feedback) <= feedback
      ensures var x := feedback[|old(feedback)|];
              x.limiter == l && x.response == r && x.departed == |departures| && x.at == clock.now
      ensures l.facts == Recorded(if l in old(limiters) then old(l.facts) else NO_FACTS, r)
      ensures l.throttled429 == (if l in old(limiters) then old(l.throttled429) else 0) + (if r.status == 429 then 1 else 0)
      ensures l.history == (if l in old(limiters) then old(l.history) else []) +
                           (if r.status == 429
                            then [Step(clock.now, Op.Throttle(if r.retryAfter.Seconds? then r.retryAfter.value else 1.0))] else [])
      ensures global == old(global)
      ensures global != null ==>
                && global in old(limiters) && global.facts == Recorded(old(global.facts), r)
                && global.tat == old(global.tat) && global.history == old(global.history) && global.throttled429 == old(global.throttled429)
    {
      hide *;
      GlobalKnown(m);
      l := FeedHost(r, host, m);
      assert global != null ==> unchanged(global);
      FeedGlobal(r, m);
    }
  }
}
