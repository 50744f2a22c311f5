/** The batch handle: queue requests, perform them, read the results; and what a
    whole run of batches is bounded by. */
module Performing {
  import opened Gcra
  import opened RateLimiting
  import opened LruPool
  import opened Pacing
  import opened Leasing
  import opened Batch
  import opened Flattening

  /** A result slot: as assigned before sending, or filled by a response. */
  datatype Result = Blank | Got(reply: Reply)

  /** How many requests of a batch go out together: as the first one says. */
  function Concurrency(pending: seq<Pending>): (n: nat)
    ensures n >= 1
    ensures pending != [] && pending[0].settings.maxConcurrent >= 1 ==> n == pending[0].settings.maxConcurrent
    ensures pending != [] && pending[0].settings.maxConcurrent < 1 ==> n == 1
  {
    var c := if pending == [] then 10 else pending[0].settings.maxConcurrent;
    if c < 1 then 1 else c
  }

  ghost predicate AllReady(pending: seq<Pending>) {
    forall i :: 0 <= i < |pending| ==> pending[i].ready
  }

  ghost predicate AllParse(core: Core, pending: seq<Pending>) {
    forall i :: 0 <= i < |pending| ==> core.SpecsParse(pending[i])
  }

  ghost predicate AllGlobalRatesPositive(core: Core, pending: seq<Pending>) {
    forall i :: 0 <= i < |pending| ==> core.GlobalRatePositive(pending[i])
  }

  /** Consecutive waves of n requests each, perhaps fewer in the last. */
  ghost predicate InWaves<T>(waves: seq<seq<T>>, s: seq<T>, n: nat) {
    && Flatten(waves) == s
    && (forall i :: 0 <= i < |waves| ==> 1 <= |waves[i]| <= n)
    && (forall i :: 0 <= i < |waves| - 1 ==> |waves[i]| == n)
  }

  ghost predicate Full<T>(waves: seq<seq<T>>, n: nat) {
    forall i :: 0 <= i < |waves| ==> |waves[i]| == n
  }

  lemma NextWave<T>(waves: seq<seq<T>>, s: seq<T>, w: seq<T>, n: nat)
    requires InWaves(waves, s, n) && Full(waves, n) && 1 <= |w| <= n
    ensures InWaves(waves + [w], s + w, n) && (|w| == n ==> Full(waves + [w], n))
  {
    FlattenAppend(waves, w);
  }

  /** The results once the first `gone` requests have been answered. */
  ghost predicate Answered(results: seq<Result>, core: Core, first: nat, pending: seq<Pending>, gone: nat) {
    && |results| == |pending|
    && (forall i :: 0 <= i < gone && i < |results| ==> results[i] == Got(core.network(first + i, pending[i])))
    && (forall i :: gone <= i < |results| ==> results[i] == Blank)
  }

  /** The responses to some requests, the first of number `first`, were fed in order,
      each to a limiter of its request's host, after the request had left. */
  ghost predicate FedAll(added: seq<Fed>, core: Core, first: nat, pending: seq<Pending>) {
    && |added| == |pending|
    && forall i :: 0 <= i < |pending| ==>
         && added[i].response == core.network(first + i, pending[i]).response
         && added[i].limiter.owner == Host(pending[i].host)
         && first + i < added[i].departed <= first + |pending|
  }

  lemma FedMore(a: seq<Fed>, b: seq<Fed>, core: Core, first: nat, p: seq<Pending>, q: seq<Pending>)
    requires FedAll(a, core, first, p) && FedAll(b, core, first + |p|, q)
    ensures FedAll(a + b, core, first, p + q)
  {
    forall i | 0 <= i < |p + q|
      ensures (a + b)[i].response == core.network(first + i, (p + q)[i]).response
      ensures (a + b)[i].limiter.owner == Host((p + q)[i].host)
      ensures first + i < (a + b)[i].departed <= first + |p + q|
    {
      if i >= |p| {
        assert (a + b)[i] == b[i - |p|] && (p + q)[i] == q[i - |p|];
      }
    }
  }

  /** Every one of these look-ups was made for some of these requests: to take its
      token, or to feed back its response. */
  ghost predicate AskedFor(added: seq<Ask>, core: Core, pending: seq<Pending>) {
    forall a :: a in added ==>
      exists p :: p in pending && (a in core.AskOf(p) || a == Ask(p.host, "", DEFAULT_BURST))
  }

  lemma AskedMore(a: seq<Ask>, b: seq<Ask>, core: Core, pending: seq<Pending>)
    requires AskedFor(a, core, pending) && AskedFor(b, core, pending)
    ensures AskedFor(a + b, core, pending)
  {
  }

  lemma WaveAsks(core: Core, wave: seq<Pending>, pending: seq<Pending>)
    requires forall p :: p in wave ==> p in pending
    ensures AskedFor(core.AsksOf(wave), core, pending)
  {
    hide Core.AskOf, Core.AsksOf;
    forall a | a in core.AsksOf(wave)
      ensures exists p :: p in pending && (a in core.AskOf(p) || a == Ask(p.host, "", DEFAULT_BURST))
    {
      core.AsksOfMembers(wave, a);
    }
  }

  function FirstWave(pending: seq<Pending>): seq<Pending> {
    if |pending| <= Concurrency(pending) then pending else pending[..Concurrency(pending)]
  }

  lemma {:induction false} FullLength<T>(waves: seq<seq<T>>, n: nat)
    requires n >= 1 && Full(waves, n)
    ensures waves == [] || |Flatten(waves)| >= n
  {
  }

  /** A batch that fails on a rate limit has sent nothing just when the rate limit
      that does not parse is in the first wave. */
  lemma WhenNothingIsSent(core: Core, pending: seq<Pending>, waves: seq<seq<Pending>>, gone: nat, bad: nat)
    requires gone <= bad < |pending| && bad < gone + Concurrency(pending) && !core.SpecsParse(pending[bad])
    requires AllParse(core, pending[..gone])
    requires Full(waves, Concurrency(pending)) && InWaves(waves, pending[..gone], Concurrency(pending))
    ensures gone == 0 <==> !AllParse(core, FirstWave(pending))
  {
    hide Core.SpecsParse;
    var n := Concurrency(pending);
    if gone == 0 {
      assert FirstWave(pending)[bad] == pending[bad];
    } else {
      FullLength(waves, n);
      assert FirstWave(pending) == pending[..gone][..n];
    }
  }

  class BatchHandle {
    var pending: seq<Pending>
    var results: seq<Result>

    constructor ()
      ensures pending == [] && results == []
    {
      pending, results := [], [];
    }

    /** Queues a request, unless it has no method or no URL; headers and parameters
        that do not parse count as none.  A refused request leaves the batch as it
        was. */
    method Add(httpMethod: string, url: string, request: Pending) returns (ok: bool)
      modifies this`pending
      ensures ok <==> httpMethod != "" && url != ""
      ensures pending == old(pending) + if ok then [request] else []
    {
      if httpMethod == "" || url == "" {
        return false;
      }
      pending := pending + [request];
      return true;
    }

    /** Performs the batch; `gone` is how many of its requests were sent.

        Nothing is sent, and no result touched, when a configuration or session
        fails to build.  Otherwise the requests go out in order, in waves of at
        most the configured concurrency, and result i answers request i.  A rate
        limit that does not parse is noticed only when its wave takes its tokens:
        the waves before it have gone out by then. */
    method Perform(core: Core, ghost m: nat) returns (ok: bool, ghost gone: nat)
      requires core.Valid(m) && Concurrency(pending) <= m && AllGlobalRatesPositive(core, pending)
      modifies this`results, core, core.clock, core.registry, core.limiters
      ensures core.Valid(m) && core.clock.now >= old(core.clock.now)
      ensures old(core.limiters) <= core.limiters && fresh(core.limiters - old(core.limiters))
      ensures ok <==> AllReady(pending) && AllParse(core, pending)
      ensures gone <= |pending| && core.sent == old(core.sent) + gone
      ensures old(core.waves) <= core.waves
      ensures InWaves(core.waves[|old(core.waves)|..], pending[..gone], Concurrency(pending))
      ensures ok ==> gone == |pending|
      ensures !AllReady(pending) ==> gone == 0 && results == old(results)
      ensures AllReady(pending) ==> Answered(results, core, old(core.sent), pending, gone)
      ensures old(core.feedback) <= core.feedback
      ensures FedAll(core.feedback[|old(core.feedback)|..], core, old(core.sent), pending[..gone])
      ensures old(core.asks) <= core.asks && AskedFor(core.asks[|old(core.asks)|..], core, pending)
      ensures AllReady(pending) && !ok ==>
                && AllParse(core, pending[..gone])
                && Full(core.waves[|old(core.waves)|..], Concurrency(pending))
                && (exists f :: gone <= f < |pending| && f < gone + Concurrency(pending) && !core.SpecsParse(pending[f]))
                && (gone == 0 <==> !AllParse(core, FirstWave(pending)))
    {
      hide Core.Valid, Core.SpecsParse, Core.GlobalRatePositive, Flatten, FedAll, AskedFor, InWaves, Full;
      gone := 0;
      NothingSent(core, core.sent, pending);
      assert core.waves[|core.waves|..] == [] && core.feedback[|core.feedback|..] == [] && core.asks[|core.asks|..] == [];
      for i := 0 to |pending|
        invariant AllReady(pending[..i])
      {
        if !pending[i].ready {
          return false, 0;
        }
        assert AllReady(pending[..i + 1]);
      }
      assert pending[..|pending|] == pending;
      results := seq(|pending|, _ => Blank);
      ghost var bad, base := 0, core.waves;
      ok, gone, bad := SendWaves(core, m);
      if !ok {
        WhenNothingIsSent(core, pending, core.waves[|base|..], gone, bad);
      }
    }

    /** The waves of a batch whose sessions are built. */
    method SendWaves(core: Core, ghost m: nat) returns (ok: bool, ghost gone: nat, ghost bad: nat)
      requires core.Valid(m) && Concurrency(pending) <= m && AllGlobalRatesPositive(core, pending)
      requires Answered(results, core, core.sent, pending, 0)
      modifies this`results, core, core.clock, core.registry, core.limiters
      ensures core.Valid(m) && core.clock.now >= old(core.clock.now)
      ensures old(core.limiters) <= core.limiters && fresh(core.limiters - old(core.limiters))
      ensures gone <= |pending| && core.sent == old(core.sent) + gone
      ensures AllParse(core, pending[..gone]) && Answered(results, core, old(core.sent), pending, gone)
      ensures old(core.waves) <= core.waves
      ensures InWaves(core.waves[|old(core.waves)|..], pending[..gone], Concurrency(pending))
      ensures old(core.feedback) <= core.feedback
      ensures FedAll(core.feedback[|old(core.feedback)|..], core, old(core.sent), pending[..gone])
      ensures old(core.asks) <= core.asks && AskedFor(core.asks[|old(core.asks)|..], core, pending)
      ensures ok ==> gone == |pending|
      ensures !ok ==>
                && gone <= bad < |pending| && bad < gone + Concurrency(pending) && !core.SpecsParse(pending[bad])
                && Full(core.waves[|old(core.waves)|..], Concurrency(pending))
    {
      hide Core.Valid, Core.SpecsParse, Core.GlobalRatePositive, Flatten, FedAll, AskedFor, InWaves, Full, Answered, Concurrency;
      var maxConcurrent := Concurrency(pending);
      ghost var base, fed, asked, first := core.waves, core.feedback, core.asks, core.sent;
      ghost var ws: seq<seq<Pending>>, feeds: seq<Fed>, asks: seq<Ask> := [], [], [];
      NothingSent(core, first, pending);
      var start := 0;
      bad := 0;
      while start < |pending|
        invariant 0 <= start <= |pending|
        invariant core.Valid(m) && core.clock.now >= old(core.clock.now)
        invariant old(core.limiters) <= core.limiters && fresh(core.limiters - old(core.limiters))
        invariant core.sent == first + start && core.waves == base + ws && core.feedback == fed + feeds && core.asks == asked + asks
        invariant InWaves(ws, pending[..start], maxConcurrent)
        invariant start < |pending| ==> Full(ws, maxConcurrent)
        invariant AllParse(core, pending[..start])
        invariant Answered(results, core, first, pending, start)
        invariant FedAll(feeds, core, first, pending[..start]) && AskedFor(asks, core, pending)
      {
        ghost var fedNow, askedNow := |core.feedback|, |core.asks|;
        var end := if start + maxConcurrent <= |pending| then start + maxConcurrent else |pending|;
        var granted;
        granted, bad := PerformWave(core, start, end, first, m);
        AskedMore(asks, core.asks[askedNow..], core, pending);
        asks := asks + core.asks[askedNow..];
        if !granted {
          assert core.waves[|base|..] == ws && core.feedback[|fed|..] == feeds && core.asks[|asked|..] == asks;
          return false, start, bad;
        }
        NextWave(ws, pending[..start], pending[start..end], maxConcurrent);
        FedMore(feeds, core.feedback[fedNow..], core, first, pending[..start], pending[start..end]);
        ParseMore(core, pending, start, end);
        assert pending[..start] + pending[start..end] == pending[..end];
        feeds := feeds + core.feedback[fedNow..];
        ws := ws + [pending[start..end]];
        start := end;
      }
      assert core.waves[|base|..] == ws && core.feedback[|fed|..] == feeds && core.asks[|asked|..] == asks;
      return true, start, bad;
    }

    /** One wave: take all its tokens, send it, file the responses. */
    method PerformWave(core: Core, start: nat, end: nat, ghost first: nat, ghost m: nat) returns (granted: bool, ghost bad: nat)
      requires core.Valid(m) && start <= end <= |pending| && end - start <= m
      requires AllGlobalRatesPositive(core, pending)
      requires core.sent == first + start && Answered(results, core, first, pending, start)
      modifies this`results, core, core.clock, core.registry, core.limiters
      ensures core.Valid(m) && core.clock.now >= old(core.clock.now)
      ensures old(core.limiters) <= core.limiters && fresh(core.limiters - old(core.limiters))
      ensures old(core.feedback) <= core.feedback
      ensures old(core.asks) <= core.asks && AskedFor(core.asks[|old(core.asks)|..], core, pending)
      ensures granted ==> FedAll(core.feedback[|old(core.feedback)|..], core, first + start, pending[start..end])
      ensures !granted ==> core.feedback == old(core.feedback)
      ensures granted ==>
                && AllParse(core, pending[start..end])
                && core.waves == old(core.waves) + [pending[start..end]]
                && core.sent == first + end
                && Answered(results, core, first, pending, end)
      ensures !granted ==>
                && start <= bad < end && !core.SpecsParse(pending[bad])
                && core.waves == old(core.waves) && core.sent == old(core.sent) && results == old(results)
    {
      hide Core.Valid, Core.SpecsParse, Core.GlobalRatePositive, Core.Assembling, Core.Orderly, Core.AskOf, Core.AsksOf, Core.Fits, HostsIn, Depart, FedAll, AskedFor, Answered;
      var wave := pending[start..end];
      ghost var asked := core.asks;
      ghost var since := core.clock.now;
      var taken;
      ghost var leases;
      granted, taken, leases := core.TakeAll(wave, m);
      bad := start + taken;
      WaveAsks(core, wave[..taken], pending);
      assert core.asks[|asked|..] == core.AsksOf(wave[..taken]);
      if granted {
        var replies := core.Send(wave, leases, since, m);
        ghost var before := core.asks;
        FileResults(core, replies, start, first, m);
        AskedMore(core.AsksOf(wave[..taken]), core.asks[|before|..], core, pending);
        assert core.asks[|asked|..] == core.AsksOf(wave[..taken]) + core.asks[|before|..];
      }
    }

    /** Records the responses of one wave and files them under their requests. */
    method FileResults(core: Core, replies: seq<Reply>, start: nat, ghost first: nat, ghost m: nat)
      requires core.Valid(m)
      requires start + |replies| <= |pending| && Answered(results, core, first, pending, start)
      requires forall k :: 0 <= k < |replies| ==> replies[k] == core.network(first + start + k, pending[start + k])
      requires core.sent == first + start + |replies|
      modifies this`results, core`limiters, core`asks, core`given, core`feedback, core.clock, core.registry, core.limiters
      ensures core.Valid(m) && core.clock.now >= old(core.clock.now)
      ensures old(core.limiters) <= core.limiters && fresh(core.limiters - old(core.limiters))
      ensures Answered(results, core, first, pending, start + |replies|)
      ensures old(core.feedback) <= core.feedback
      ensures FedAll(core.feedback[|old(core.feedback)|..], core, first + start, pending[start..start + |replies|])
      ensures old(core.asks) <= core.asks && AskedFor(core.asks[|old(core.asks)|..], core, pending)
    {
      hide Core.Valid, Core.AskOf, FedAll, AskedFor, Answered;
      ghost var fed, asked := core.feedback, core.asks;
      ghost var feeds: seq<Fed>, asks: seq<Ask> := [], [];
      NothingFed(core, first + start, pending);
      assert AskedFor([], core, pending);
      core.SentHasLeft(m);
      for k := 0 to |replies|
        invariant core.Valid(m) && core.clock.now >= old(core.clock.now)
        invariant old(core.limiters) <= core.limiters && fresh(core.limiters - old(core.limiters))
        invariant Answered(results, core, first, pending, start + k)
        invariant core.feedback == fed + feeds && core.asks == asked + asks && |feeds| == k
        invariant forall i :: 0 <= i < k ==> FedFor(feeds[i], replies[i], pending[start + i], core.sent)
        invariant AskedFor(asks, core, pending)
      {
        ghost var was := results;
        assert |was| == |pending| by {
          AnsweredLength(was, core, first, pending, start + k);
        }
        ghost var x := FileOne(core, replies[k], start + k, first + start + k, m);
        AnsweredNext(was, core, first, pending, start + k);
        feeds := feeds + [x];
        AskedBack(asks, core, pending, start + k);
        asks := asks + [Ask(pending[start + k].host, "", DEFAULT_BURST)];
      }
      assert core.feedback[|fed|..] == feeds && core.asks[|asked|..] == asks;
      FedWave(feeds, replies, core, first + start, pending[start..start + |replies|]);
    }

    /** Records one response and files it. */
    method FileOne(core: Core, reply: Reply, i: nat, ghost number: nat, ghost m: nat) returns (ghost x: Fed)
      requires core.Valid(m) && i < |pending| == |results| && reply == core.network(number, pending[i])
      modifies this`results, core`limiters, core`asks, core`given, core`feedback, core.clock, core.registry, core.limiters
      ensures core.Valid(m) && core.clock.now >= old(core.clock.now)
      ensures old(core.limiters) <= core.limiters && fresh(core.limiters - old(core.limiters))
      ensures results == old(results)[i := Got(reply)]
      ensures core.feedback == old(core.feedback) + [x] && FedFor(x, reply, pending[i], |core.departures|)
      ensures core.asks == old(core.asks) + [Ask(pending[i].host, "", DEFAULT_BURST)]
    {
      hide Core.Valid;
      PoliteReply(core, number, pending[i]);
      ghost var fed := core.feedback;
      ghost var l := core.RecordResponseStats(reply.response, pending[i].host, m);
      x := core.feedback[|fed|];
      results := results[i := Got(reply)];
    }
  }

  lemma PoliteReply(core: Core, number: nat, p: Pending)
    ensures var h := core.network(number, p).response.retryAfter; core.Polite() && h.Seconds? ==> h.value >= 0.0
  {
  }

  /** A response fed for a request, when so many had left. */
  ghost predicate FedFor(x: Fed, reply: Reply, p: Pending, departed: nat) {
    x.response == reply.response && x.limiter.owner == Host(p.host) && x.departed == departed
  }

  lemma FedWave(feeds: seq<Fed>, replies: seq<Reply>, core: Core, first: nat, wave: seq<Pending>)
    requires |feeds| == |replies| == |wave|
    requires forall i :: 0 <= i < |wave| ==> replies[i] == core.network(first + i, wave[i])
    requires forall i :: 0 <= i < |wave| ==> FedFor(feeds[i], replies[i], wave[i], first + |wave|)
    ensures FedAll(feeds, core, first, wave)
  {
  }

  lemma AskedBack(asks: seq<Ask>, core: Core, pending: seq<Pending>, i: nat)
    requires AskedFor(asks, core, pending) && i < |pending|
    ensures AskedFor(asks + [Ask(pending[i].host, "", DEFAULT_BURST)], core, pending)
  {
    hide Core.AskOf;
    assert pending[i] in pending;
  }

  lemma AnsweredLength(results: seq<Result>, core: Core, first: nat, pending: seq<Pending>, gone: nat)
    requires Answered(results, core, first, pending, gone)
    ensures |results| == |pending|
  {
  }

  lemma AnsweredNext(results: seq<Result>, core: Core, first: nat, pending: seq<Pending>, gone: nat)
    requires Answered(results, core, first, pending, gone) && gone < |pending|
    ensures Answered(results[gone := Got(core.network(first + gone, pending[gone]))], core, first, pending, gone + 1)
  {
  }

  lemma NothingSent(core: Core, first: nat, pending: seq<Pending>)
    ensures InWaves([], pending[..0], Concurrency(pending)) && Full<Pending>([], Concurrency(pending))
    ensures FedAll([], core, first, pending[..0]) && AskedFor([], core, pending) && AllParse(core, pending[..0])
  {
  }

  lemma ParseMore(core: Core, pending: seq<Pending>, start: nat, end: nat)
    requires start <= end <= |pending| && AllParse(core, pending[..start]) && AllParse(core, pending[start..end])
    ensures AllParse(core, pending[..end])
  {
    hide Core.SpecsParse;
    forall i | 0 <= i < end
      ensures core.SpecsParse(pending[..end][i])
    {
      assert core.SpecsParse(if i < start then pending[..start][i] else pending[start..end][i - start]);
    }
  }

  lemma NothingFed(core: Core, first: nat, pending: seq<Pending>)
    ensures FedAll([], core, first, pending[..0]) && AskedFor([], core, pending)
  {
  }

  // ----- the firing bound over whole runs

  ghost predicate Uses(e: Lease, l: GCRARateLimiter) {
    e.host == l || e.global == l
  }

  /** The requests that left under a limiter within [t, t + w]. */
  ghost function Leaving(ds: seq<Departure>, l: GCRARateLimiter, t: real, w: real): set<nat> {
    set k: nat | k < |ds| && Uses(ds[k].lease, l) && t <= ds[k].at <= t + w
  }

  lemma WindowAppend(shots: seq<Shot>, x: Shot, t: real, w: real)
    ensures |Window(shots + [x], t, w)| == |Window(shots, t, w)| + if t <= x.at <= t + w then 1 else 0
  {
    if t <= x.at <= t + w {
      assert Window(shots + [x], t, w) == Window(shots, t, w) + {|shots|};
    } else {
      assert Window(shots + [x], t, w) == Window(shots, t, w);
    }
  }

  lemma LeavingAppend(ds: seq<Departure>, d: Departure, l: GCRARateLimiter, t: real, w: real)
    ensures |Leaving(ds + [d], l, t, w)| ==
            |Leaving(ds, l, t, w)| + if Uses(d.lease, l) && t <= d.at <= t + w then 1 else 0
  {
    if Uses(d.lease, l) && t <= d.at <= t + w {
      assert Leaving(ds + [d], l, t, w) == Leaving(ds, l, t, w) + {|ds|};
    } else {
      assert Leaving(ds + [d], l, t, w) == Leaving(ds, l, t, w);
    }
  }

  /** Each request that uses a limiter is one shot of that limiter. */
  lemma {:induction false} LeavingIsWindow(ds: seq<Departure>, l: GCRARateLimiter, limiters: set<GCRARateLimiter>, t: real, w: real)
    requires AllKnown(Leases(ds), limiters)
    ensures |Leaving(ds, l, t, w)| == |Window(Under(ds, l), t, w)|
  {
    if ds != [] {
      var n := |ds| - 1;
      var d := ds[n];
      assert Leases(ds[..n]) == Leases(ds)[..n] && ds == ds[..n] + [d];
      LeavingIsWindow(ds[..n], l, limiters, t, w);
      assert Known(Leases(ds)[n], limiters);
      LeavingAppend(ds[..n], d, l, t, w);
      UnderAppend(ds[..n], d, l);
      if Uses(d.lease, l) {
        var x := Fired(TicketsOf(d.lease, l), d.at)[0];
        assert Under(ds, l) == Under(ds[..n], l) + [x];
        WindowAppend(Under(ds[..n], l), x, t, w);
      } else {
        assert Under(ds, l) == Under(ds[..n], l);
      }
    }
  }

  /** End-to-end firing bound.  After any run of batches with at most m requests
      in flight together (that is what Valid(m) keeps), at most
      m + burst + rate * w requests have left under any limiter, of a host or of
      everything, in any window of length w. */
  lemma EndToEnd(core: Core, m: nat, l: GCRARateLimiter, t: real, w: real)
    requires core.Valid(m) && l in core.limiters && l.limits.burst >= 1.0
    requires BackoffsNonNegative(l.history) && w >= 0.0
    ensures |Leaving(core.departures, l, t, w)| as real <= m as real + l.limits.burst + l.limits.rate * w
  {
    hide Grants, WellPaced, Under, AllKnown, Limits.Valid;
    LeavingIsWindow(core.departures, l, core.limiters, t, w);
    assert core.Fine(l, m);
    FiringBound(l.limits, l.born, l.history, Under(core.departures, l), m, t, w);
  }

  /** So for everything under the global limiter there is now, in the rate that its
      spec asks for. */
  lemma GlobalEndToEnd(core: Core, m: nat, t: real, w: real)
    requires core.Valid(m) && core.global != null && core.global.limits.burst >= 1.0 && core.Polite() && w >= 0.0
    ensures core.parse(core.globalSpec).PerSecond?
    ensures |Leaving(core.departures, core.global, t, w)| as real <=
            m as real + core.global.limits.burst + core.parse(core.globalSpec).rate * w
  {
    hide Sound, LRUPool.Valid, Core.DeparturesFit, Core.RegistryFits, Core.AllKept, Core.Orderly, Limits.Valid, Core.Polite, Leaving;
    assert core.AsAsked(core.global) && core.Unhurried(core.global);
    EndToEnd(core, m, core.global, t, w);
  }

  /** The requests that left for a host, limited, from number `from` on, within
      [t, t + w]. */
  ghost function LeavingFor(ds: seq<Departure>, from: nat, host: string, t: real, w: real): set<nat> {
    set k: nat | from <= k < |ds| && ds[k].lease.host != null && ds[k].lease.request.host == host && t <= ds[k].at <= t + w
  }

  /** So while a host stays in the registry, the bound is one on all the limited
      requests sent to it, whatever limiters it had before: from the first request
      on that left under the registered limiter, and so in every window after that
      request's wave.  The rate and the burst are those that the look-up which
      registered the host asked for.  It needs nothing but servers that ask for no
      negative backoff. */
  lemma HostEndToEnd(core: Core, m: nat, host: string, from: nat, t: real, w: real)
    requires core.Valid(m) && host in core.registry.index
    requires from < |core.departures| && core.departures[from].lease.host == core.registry.index[host].value
    requires core.registry.index[host].value.limits.burst >= 1.0 && core.Polite() && w >= 0.0
    ensures var i := core.registry.index[host].value.lookup;
            i < |core.asks| && core.asks[i].host == host && core.parse(Effective(core.asks[i].spec)).PerSecond?
    ensures var ask := core.asks[core.registry.index[host].value.lookup];
            && |LeavingFor(core.departures, from, host, t, w)| as real <=
               m as real + ask.burst + core.parse(Effective(ask.spec)).rate * w
            && (core.departures[from].at < t ==>
                  LeavingFor(core.departures, 0, host, t, w) == LeavingFor(core.departures, from, host, t, w))
  {
    hide Sound, LRUPool.Valid, AllKnown, Flatten, Limits.Valid, Under, Core.Polite, Core.AllAsAsked, Core.AllKept, Effective, Barred, Core.GlobalFits;
    var ds, l := core.departures, core.registry.index[host].value;
    core.LimitsAsAsked(l, m);
    assert Loyal(Leases(ds), host, l) by {
      assert Leases(ds) + [] == Leases(ds);
    }
    forall k | k in LeavingFor(ds, from, host, t, w)
      ensures k in Leaving(ds, l, t, w)
    {
      assert Leases(ds)[from].host == l && Leases(ds)[k] == ds[k].lease;
    }
    Cardinality(LeavingFor(ds, from, host, t, w), Leaving(ds, l, t, w));
    assert core.Unhurried(l);
    EndToEnd(core, m, l, t, w);
  }

  /** And in the rate and burst of the host's own configuration, if every look-up of
      the host since it was registered, feedback included, asked for them. */
  lemma ConfiguredEndToEnd(core: Core, m: nat, host: string, spec: string, burst: real, from: nat, t: real, w: real)
    requires core.Valid(m) && host in core.registry.index && burst >= 1.0
    requires forall i :: core.registry.index[host].value.lookup <= i < |core.asks| && core.asks[i].host == host ==>
               core.parse(Effective(core.asks[i].spec)) == core.parse(Effective(spec)) && core.asks[i].burst == burst
    requires from < |core.departures| && core.departures[from].lease.host == core.registry.index[host].value
    requires core.Polite() && w >= 0.0
    ensures core.parse(Effective(spec)).PerSecond?
    ensures |LeavingFor(core.departures, from, host, t, w)| as real <= m as real + burst + core.parse(Effective(spec)).rate * w
  {
    hide LeavingFor, Effective, Core.Valid, Core.Polite;
    RegisteredKnown(core, m, host);
    core.LimitsAsAsked(core.registry.index[host].value, m);
    HostEndToEnd(core, m, host, from, t, w);
  }

  lemma RegisteredKnown(core: Core, m: nat, host: string)
    requires core.Valid(m) && host in core.registry.index
    ensures core.registry.index[host].value in core.limiters && core.registry.index[host].value.owner == Host(host)
  {
  }

  // ----- backoffs

  /** Backoff, end to end.  Once a 429 has been fed to a limiter at some time, every
      request that leaves later with that limiter leaves when the server's backoff
      lets it, up to the burst. */
  lemma BackoffEndToEnd(core: Core, m: nat, i: nat, k: nat)
    requires core.Valid(m) && i < |core.feedback| && core.feedback[i].response.status == 429
    requires core.feedback[i].limiter.limits.burst >= 1.0 && BackoffsNonNegative(core.feedback[i].limiter.history)
    requires core.feedback[i].departed <= k < |core.departures|
    requires core.departures[k].lease.host == core.feedback[i].limiter
    ensures var x := core.feedback[i]; var c := x.limiter.limits;
            core.departures[k].at >= x.at + (if x.response.retryAfter.Seconds? then x.response.retryAfter.value else 1.0) - (c.burst - 1.0) * c.interval
  {
    hide Core.RegistryFits, Core.GlobalFits, Core.DeparturesFit, Core.AllAsAsked, LRUPool.Valid, LoyalUnder, Grants, Under, Limits.Valid;
    var ds, x := core.departures, core.feedback[i];
    var l := x.limiter;
    assert ds[k].lease.hostTicket >= x.grants by {
      assert (Leases(ds) + [])[k] == ds[k].lease;
    }
    assert core.Fine(l, m) && KeptIn(x, l.history);
    var a := DepartureIsShot(ds, k, l);
    var q := ds[k].lease.hostTicket;
    assert q < |l.Tokens()| && l.Tokens()[q] <= ds[k].at;
    GrantsBehindBackoff(l.limits, l.born, l.history, x.step, q);
  }

  /** So while a host keeps the limiter that was fed, none of its limited requests
      leaves before, from the first that left under that limiter on. */
  lemma HostBackoff(core: Core, m: nat, host: string, i: nat, from: nat, k: nat)
    requires core.Valid(m) && core.Polite() && i < |core.feedback| && core.feedback[i].response.status == 429
    requires host in core.registry.index && core.registry.index[host].value == core.feedback[i].limiter
    requires core.feedback[i].limiter.limits.burst >= 1.0
    requires from < k < |core.departures| && core.departures[from].lease.host == core.feedback[i].limiter
    requires core.feedback[i].departed <= k && core.departures[k].lease.host != null && core.departures[k].lease.request.host == host
    ensures var x := core.feedback[i]; var c := x.limiter.limits;
            core.departures[k].at >= x.at + (if x.response.retryAfter.Seconds? then x.response.retryAfter.value else 1.0) - (c.burst - 1.0) * c.interval
  {
    hide Core.RegistryFits, Core.GlobalFits, Core.DeparturesFit, Core.AllAsAsked, LRUPool.Valid, Barred, KeptIn, Sound, Limits.Valid, Core.Polite;
    var ds, l := core.departures, core.feedback[i].limiter;
    assert Leases(ds) + [] == Leases(ds);
    assert Loyal(Leases(ds), host, l);
    assert Leases(ds)[from] == ds[from].lease && Leases(ds)[k] == ds[k].lease;
    assert core.Unhurried(l);
    BackoffEndToEnd(core, m, i, k);
  }

  // ----- why the bound adds the number in flight

  /** A wave of n requests to one limited host leaves at one instant, whatever the
      host's burst and rate: n requests in a window of no length. */
  method WholeWave(core: Core, p: Pending, n: nat, ghost m: nat)
    requires core.Valid(m) && n <= m && core.SpecsParse(p) && core.GlobalRatePositive(p) && core.Limit(p) > 0.0
    modifies core, core.clock, core.registry, core.limiters
    ensures core.Valid(m)
    ensures |LeavingFor(core.departures, |old(core.departures)|, p.host, core.clock.now, 0.0)| == n
  {
    hide Core.Valid, Core.Assembling, Core.Orderly, Core.AskOf, Core.AsksOf, HostsIn;
    ghost var since, base := core.clock.now, |core.departures|;
    var wave := seq(n, _ => p);
    ghost var leases;
    var ok, taken;
    ok, taken, leases := core.TakeAll(wave, m);
    var _ := core.Send(wave, leases, since, m);
    assert LeavingFor(core.departures, base, p.host, core.clock.now, 0.0) == Numbers(base, n);
  }

  /** The n numbers from `base` on. */
  ghost function Numbers(base: nat, n: nat): (s: set<nat>)
    ensures |s| == n && forall k: nat :: k in s <==> base <= k < base + n
  {
    if n == 0 then {} else Numbers(base, n - 1) + {base + n - 1}
  }
}
