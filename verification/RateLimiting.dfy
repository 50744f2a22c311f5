/** The limiter object, the clock it reads, and the loop that takes a token. */
module RateLimiting {
  import opened Gcra

  /** A monotone clock.  Before every reading, and after every sleep, the world
      may take any amount of time: `lag` supplies it, so a statement about every
      clock is a statement about every schedule of delays. */
  class Clock {
    const lag: nat -> real
    var now: real
    var readings: nat

    constructor (start: real, lag: nat -> real)
      ensures now == start && this.lag == lag
    {
      this.lag, now, readings := lag, start, 0;
    }

    /** No delay other than the sleeps asked for, which are then exact. */
    ghost predicate Exact() {
      forall k: nat :: lag(k) <= 0.0
    }

    method Read() returns (t: real)
      modifies this
      ensures t == now && now >= old(now)
      ensures Exact() ==> now == old(now)
    {
      var delay := lag(readings);
      if delay > 0.0 {
        now := now + delay;
      }
      readings := readings + 1;
      t := now;
    }

    method Sleep(seconds: real)
      modifies this
      ensures now >= old(now) + seconds
      ensures Exact() ==> now == old(now) + seconds
    {
      now := now + seconds;
      var _ := Read();
    }
  }

  /** One completed response, as far as the limiter looks at it. */
  datatype Response = Response(elapsed: real, bytes: nat, status: int, retryAfter: RetryAfter)

  /** The Retry-After header: missing, not a number, or a number of seconds. */
  datatype RetryAfter = Missing | Unparsable | Seconds(value: real)

  /** The response-level counters. */
  datatype Facts = Facts(responses: nat, bytes: nat, elapsed: real, minElapsed: real, maxElapsed: real, errors: nat)

  const NO_FACTS := Facts(0, 0, 0.0, 0.0, 0.0, 0)

  predicate IsError(r: Response) {
    r.status < 200 || r.status >= 300
  }

  function Recorded(f: Facts, r: Response): Facts {
    Facts(
      f.responses + 1,
      f.bytes + r.bytes,
      f.elapsed + r.elapsed,
      if r.elapsed < f.minElapsed || f.responses == 0 then r.elapsed else f.minElapsed,
      if r.elapsed > f.maxElapsed then r.elapsed else f.maxElapsed,
      f.errors + if IsError(r) then 1 else 0)
  }

  /** Whom a limiter limits: one host, or everything. */
  datatype Owner = Host(name: string) | Everyone

  class GCRARateLimiter {
    const limits: Limits
    const rateSpec: string
    var tat: real
    var requests: nat
    var paced: nat
    var totalWait: real
    var throttled429: nat
    var facts: Facts

    // Whom it limits, which look-up it was made for, and what has happened to it
    // so far.
    ghost const owner: Owner
    ghost const lookup: nat
    ghost const born: real
    ghost var history: seq<Step>

    ghost predicate Valid()
      reads this`tat, this`history
    {
      && limits.Sane()
      && Chronological(born, history)
      && tat == Tat(limits, born, history)
    }

    /** Nothing in the history is later than t. */
    ghost predicate UpTo(t: real)
      reads this`history
    {
      Latest(born, history) <= t
    }

    ghost function Tokens(): seq<real>
      reads this`history
    {
      Grants(limits, born, history)
    }

    constructor (rate: real, burst: real, rateSpec: string, clock: Clock, ghost owner: Owner, ghost lookup: nat)
      requires rate > 0.0
      modifies clock
      ensures Valid() && UpTo(clock.now) && clock.now >= old(clock.now)
      ensures limits == MakeLimits(rate, burst) && this.rateSpec == rateSpec
      ensures this.owner == owner && this.lookup == lookup
      ensures tat == born == clock.now && history == []
      ensures requests == paced == throttled429 == 0 && totalWait == 0.0 && facts == NO_FACTS
    {
      var now := clock.Read();
      limits, this.rateSpec, tat := MakeLimits(rate, burst), rateSpec, now;
      requests, paced, totalWait, throttled429, facts := 0, 0, 0.0, 0, NO_FACTS;
      this.owner, this.lookup, born, history := owner, lookup, now, [];
    }

    method TryAcquire(clock: Clock) returns (ok: bool)
      requires Valid() && UpTo(clock.now)
      modifies this`tat, this`history, clock
      ensures Valid() && UpTo(clock.now) && clock.now >= old(clock.now)
      ensures clock.Exact() ==> clock.now == old(clock.now)
      ensures ok == Admits(limits, old(tat), clock.now)
      ensures tat == After(limits, old(tat), Step(clock.now, Op.TryAcquire))
      ensures history == old(history) + [Step(clock.now, Op.TryAcquire)]
      ensures Tokens() == old(Tokens()) + if ok then [clock.now] else []
    {
      var now := clock.Read();
      Extend(limits, born, history, Step(now, Op.TryAcquire));
      history := history + [Step(now, Op.TryAcquire)];
      var newTat := if tat < now then now else tat;
      var diff := newTat - now + limits.interval;
      if diff > limits.offset {
        return false;
      }
      tat := newTat + limits.interval;
      return true;
    }

    /** The whole backlog, whether or not a request would be allowed now. */
    method WaitTime(clock: Clock) returns (seconds: real)
      modifies clock
      ensures clock.now >= old(clock.now)
      ensures clock.Exact() ==> clock.now == old(clock.now)
      ensures seconds == Backlog(tat, clock.now)
    {
      var now := clock.Read();
      var wait := tat - now;
      seconds := if wait > 0.0 then wait else 0.0;
    }

    method RecordRequest()
      modifies this`requests
      ensures requests == old(requests) + 1
    {
      requests := requests + 1;
    }

    method RecordPacing(seconds: real)
      modifies this`paced, this`totalWait
      ensures paced == old(paced) + 1 && totalWait == old(totalWait) + seconds
    {
      paced := paced + 1;
      totalWait := totalWait + seconds;
    }

    method RecordThrottle(retryAfter: real, clock: Clock)
      requires Valid() && UpTo(clock.now)
      modifies this`tat, this`history, this`throttled429, clock
      ensures Valid() && UpTo(clock.now) && clock.now >= old(clock.now)
      ensures tat == After(limits, old(tat), Step(clock.now, Throttle(retryAfter)))
      ensures history == old(history) + [Step(clock.now, Throttle(retryAfter))]
      ensures throttled429 == old(throttled429) + 1
      ensures Tokens() == old(Tokens())
    {
      throttled429 := throttled429 + 1;
      var now := clock.Read();
      Extend(limits, born, history, Step(now, Throttle(retryAfter)));
      history := history + [Step(now, Throttle(retryAfter))];
      var newTat := if tat < now then now else tat;
      tat := newTat + retryAfter;
    }

    method RecordResponse(r: Response)
      modifies this`facts
      ensures facts == Recorded(old(facts), r)
    {
      facts := facts.(elapsed := facts.elapsed + r.elapsed);
      if r.elapsed < facts.minElapsed || facts.responses == 0 {
        facts := facts.(minElapsed := r.elapsed);
      }
      if r.elapsed > facts.maxElapsed {
        facts := facts.(maxElapsed := r.elapsed);
      }
      facts := facts.(bytes := facts.bytes + r.bytes);
      facts := facts.(responses := facts.responses + 1);
      if r.status < 200 || r.status >= 300 {
        facts := facts.(errors := facts.errors + 1);
      }
    }
  }

  // ----- taking a token

  const MAX_ATTEMPTS := 50

  /** The pacing state of a limiter together with the time. */
  datatype Pacer = Pacer(tat: real, now: real, paced: nat, totalWait: real)

  /** What one AcquireRateLimit does when nothing but its own sleep takes time. */
  function AcquireExact(c: Limits, p: Pacer): Pacer {
    if Admits(c, p.tat, p.now) then
      Pacer(Max(p.tat, p.now) + c.interval, p.now, p.paced, p.totalWait)
    else
      Pacer(p.tat + c.interval, p.tat, p.paced + 1, p.totalWait + (p.tat - p.now))
  }

  /** And what it does, likewise, below a burst of one: it waits out the backlog once
      and lets the request through, the TAT as it was. */
  function LetThrough(p: Pacer): Pacer {
    Pacer(p.tat, Max(p.tat, p.now), p.paced + (if p.tat > p.now then 1 else 0), p.totalWait + Backlog(p.tat, p.now))
  }

  ghost function PacerOf(l: GCRARateLimiter, clock: Clock): Pacer
    reads l`tat, l`paced, l`totalWait, clock`now
  {
    Pacer(l.tat, clock.now, l.paced, l.totalWait)
  }

  /** Takes a token, sleeping as required; no limiter, no wait. */
  method AcquireRateLimit(l: GCRARateLimiter?, clock: Clock)
    requires l != null ==> l.Valid() && l.UpTo(clock.now)
    modifies clock
    modifies if l == null then {} else {l}
    ensures clock.now >= old(clock.now)
    ensures l == null ==> clock.now == old(clock.now)
    ensures l != null ==> Acquired(l, clock)
    ensures l != null ==> l.facts == old(l.facts) && l.throttled429 == old(l.throttled429)
  {
    if l != null {
      TakeToken(l, clock);
    }
  }

  ghost predicate AllTries(h: seq<Step>) {
    forall k :: 0 <= k < |h| ==> h[k].op == TryAcquire
  }

  /** The effect of one AcquireRateLimit on its limiter.  One caller with a burst
      of at least one is always given a token, at the moment of return, after at
      most two attempts.  With a smaller burst no token is ever given and the
      request goes ahead without one, after 51 refusals.  The time accounted as
      waiting never exceeds the time that passed. */
  twostate predicate Acquired(l: GCRARateLimiter, clock: Clock)
    reads l, clock
  {
    && l.Valid() && l.UpTo(clock.now)
    && l.requests == old(l.requests) + 1
    && old(l.history) <= l.history && AllTries(l.history[|old(l.history)|..])
    && (if l.limits.burst >= 1.0 then
          && l.Tokens() == old(l.Tokens()) + [clock.now]
          && 1 <= |l.history| - |old(l.history)| <= 2
        else
          && l.Tokens() == old(l.Tokens())
          && |l.history| - |old(l.history)| == 51)
    && 0.0 <= l.totalWait - old(l.totalWait) <= clock.now - old(clock.now)
    && l.paced == old(l.paced) + (if l.totalWait > old(l.totalWait) then 1 else 0)
    && (clock.Exact() ==>
          PacerOf(l, clock) ==
          if l.limits.burst >= 1.0 then AcquireExact(l.limits, old(PacerOf(l, clock))) else LetThrough(old(PacerOf(l, clock))))
  }

  method TakeToken(l: GCRARateLimiter, clock: Clock)
    requires l.Valid() && l.UpTo(clock.now)
    modifies clock, l`tat, l`history, l`requests, l`paced, l`totalWait
    ensures clock.now >= old(clock.now)
    ensures Acquired(l, clock)
  {
    hide Grants, Tat, Chronological;
    var retries := MAX_ATTEMPTS;
    var paced := false;
    var total := 0.0;
    ghost var start := clock.now;
    var admitted := l.TryAcquire(clock);
    ghost var tries := [Step(clock.now, TryAcquire)];
    while !admitted && retries > 0
      modifies clock, l`tat, l`history
      invariant l.Valid() && l.UpTo(clock.now)
      invariant 0 <= retries <= MAX_ATTEMPTS
      invariant if l.limits.burst < 1.0 then !admitted else admitted || retries == MAX_ATTEMPTS
      invariant l.Tokens() == old(l.Tokens()) + if admitted then [clock.now] else []
      invariant !admitted ==> l.tat == old(l.tat)
      invariant l.history == old(l.history) + tries && AllTries(tries)
      invariant |tries| == 1 + MAX_ATTEMPTS - retries
      invariant admitted ==> retries >= MAX_ATTEMPTS - 1
      invariant 0.0 <= total <= clock.now - start
      invariant paced <==> total > 0.0
      invariant clock.Exact() && retries == MAX_ATTEMPTS ==> clock.now == start
      invariant clock.Exact() && l.limits.burst >= 1.0 ==>
                  if retries == MAX_ATTEMPTS then !paced && (admitted <==> Admits(l.limits, old(l.tat), start))
                  else !Admits(l.limits, old(l.tat), start) && total == old(l.tat) - start && clock.now == old(l.tat)
      invariant clock.Exact() && l.limits.burst < 1.0 && retries < MAX_ATTEMPTS ==>
                  total == Backlog(old(l.tat), start) && clock.now == Max(old(l.tat), start)
      invariant admitted ==> l.tat == Max(old(l.tat), clock.now) + l.limits.interval
    {
      retries := retries - 1;
      var wait;
      admitted, wait := Retry(l, clock);
      if wait > 0.0 {
        paced := true;
        total := total + wait;
      }
      tries := tries + [Step(clock.now, TryAcquire)];
    }
    assert l.history[|old(l.history)|..] == tries;
    l.RecordRequest();
    if paced {
      l.RecordPacing(total);
    }
  }

  /** One round of the loop: wait out the backlog, then try again. */
  method Retry(l: GCRARateLimiter, clock: Clock) returns (admitted: bool, wait: real)
    requires l.Valid() && l.UpTo(clock.now)
    modifies clock, l`tat, l`history
    ensures l.Valid() && l.UpTo(clock.now)
    ensures 0.0 <= wait <= clock.now - old(clock.now)
    ensures admitted <==> l.limits.burst >= 1.0
    ensures l.history == old(l.history) + [Step(clock.now, TryAcquire)]
    ensures l.Tokens() == old(l.Tokens()) + if admitted then [clock.now] else []
    ensures l.tat == if admitted then Max(old(l.tat), clock.now) + l.limits.interval else old(l.tat)
    ensures clock.Exact() ==> wait == Max(old(l.tat) - old(clock.now), 0.0) && clock.now == old(clock.now) + wait
  {
    wait := l.WaitTime(clock);
    if wait > 0.0 {
      clock.Sleep(wait);
    }
    admitted := l.TryAcquire(clock);
  }

  // ----- the exact schedule

  function Calls(c: Limits, p: Pacer, n: nat): Pacer {
    if n == 0 then p else AcquireExact(c, Calls(c, p, n - 1))
  }

  /** An idle pacer: the TAT is not ahead of the time. */
  ghost predicate Idle(p: Pacer) {
    p.tat <= p.now
  }

  /** The first calls, up to a whole burst, are all admitted at once. */
  lemma {:induction false} WithinBurst(c: Limits, p: Pacer, size: nat, n: nat)
    requires c.interval > 0.0 && c.offset == Times(size, c.interval) && 1 <= n <= size && Idle(p)
    ensures Calls(c, p, n) == p.(tat := p.now + Times(n, c.interval))
  {
    TimesMonotone(n, size, c.interval);
    if n == 1 {
      assert Calls(c, p, 0) == p;
      assert Times(1, c.interval) == c.interval;
    } else {
      WithinBurst(c, p, size, n - 1);
    }
  }

  /** The idle state in which the call after k whole bursts finds the limiter. */
  ghost function AfterBursts(c: Limits, p: Pacer, size: nat, k: nat): Pacer
    decreases k
  {
    if k == 0 then p else
      var q := AfterBursts(c, p, size, k - 1);
      var w := Times(size, c.interval);
      Pacer(q.now + w, q.now + w, q.paced + 1, q.totalWait + w)
  }

  ghost function Whole(size: nat, k: nat): nat {
    if k == 0 then 0 else Whole(size, k - 1) + size
  }

  /** Whole bursts can be skipped. */
  lemma {:induction false} SkipBurst(c: Limits, p: Pacer, size: nat, n: nat)
    requires c.interval > 0.0 && c.offset == Times(size, c.interval) && size >= 1 && n >= 1 && Idle(p)
    ensures Calls(c, p, size + n) == Calls(c, AfterBursts(c, p, size, 1), n)
  {
    if n == 1 {
      WithinBurst(c, p, size, size);
      var q := AfterBursts(c, p, size, 1);
      assert AfterBursts(c, p, size, 0) == p;
      assert Calls(c, q, 0) == q;
      assert Calls(c, q, 1) == AcquireExact(c, q);
      TimesMonotone(1, size, c.interval);
      assert Times(1, c.interval) == c.interval;
    } else {
      SkipBurst(c, p, size, n - 1);
    }
  }

  lemma {:induction false} BurstsCompose(c: Limits, p: Pacer, size: nat, k: nat)
    ensures AfterBursts(c, AfterBursts(c, p, size, 1), size, k) == AfterBursts(c, p, size, k + 1)
  {
    if k > 0 {
      BurstsCompose(c, p, size, k - 1);
    }
  }

  lemma {:induction false} SkipBursts(c: Limits, p: Pacer, size: nat, k: nat, n: nat)
    requires c.interval > 0.0 && c.offset == Times(size, c.interval) && size >= 1 && n >= 1 && Idle(p)
    ensures Calls(c, p, Whole(size, k) + n) == Calls(c, AfterBursts(c, p, size, k), n)
    decreases k
  {
    if k > 0 {
      SkipBurst(c, p, size, Whole(size, k - 1) + n);
      SkipBursts(c, AfterBursts(c, p, size, 1), size, k - 1, n);
      BurstsCompose(c, p, size, k - 1);
    }
  }

  lemma {:induction false} WholeIsProduct(size: nat, k: nat)
    ensures Whole(size, k) == k * size
    decreases k
  {
    if k > 0 {
      WholeIsProduct(size, k - 1);
    }
  }

  lemma {:induction false} AfterBurstsIs(c: Limits, p: Pacer, size: nat, k: nat)
    requires Idle(p)
    ensures var q := AfterBursts(c, p, size, k); var w := Times(Whole(size, k), c.interval);
            && Idle(q) && q.now == p.now + w
            && q.paced == p.paced + k && q.totalWait == p.totalWait + w
    decreases k
  {
    if k > 0 {
      AfterBurstsIs(c, p, size, k - 1);
      TimesSum(Whole(size, k - 1), size, c.interval);
    }
  }

  lemma ScheduleAt(c: Limits, p: Pacer, size: nat, cycles: nat, used: nat)
    requires c.interval > 0.0 && c.offset == Times(size, c.interval) && 1 <= used <= size && Idle(p)
    ensures var q := Calls(c, p, Whole(size, cycles) + used); var w := Times(Whole(size, cycles), c.interval);
            q.now == p.now + w && q.paced == p.paced + cycles && q.totalWait == p.totalWait + w
  {
    AfterBurstsIs(c, p, size, cycles);
    SkipBursts(c, p, size, cycles, used);
    WithinBurst(c, AfterBursts(c, p, size, cycles), size, used);
  }

  /** Exact pacing schedule.  Back-to-back calls on an idle limiter with a whole
      burst B, delayed by nothing but their own sleeps: with n - 1 == k * B + j
      and j < B, so k == floor((n-1)/B), call n - 1 is admitted at
      t0 + k * B * interval, and by then k calls have slept, for exactly that
      long in all. */
  lemma ExactSchedule(c: Limits, p: Pacer, size: nat, k: nat, j: nat)
    requires c.Valid() && c.burst == size as real && j < size && Idle(p)
    ensures var q := Calls(c, p, k * size + j + 1);
            var slept := (k * size) as real * c.interval;
            q.now == p.now + slept && q.paced == p.paced + k && q.totalWait == p.totalWait + slept
  {
    var n, slept := InProducts(c, size, k);
    ScheduleAt(c, p, size, k, j + 1);
  }

  lemma InProducts(c: Limits, size: nat, k: nat) returns (n: nat, slept: real)
    requires c.Valid() && c.burst == size as real
    ensures c.offset == Times(size, c.interval)
    ensures n == Whole(size, k) == k * size
    ensures slept == Times(n, c.interval) == (k * size) as real * c.interval
  {
    TimesIsProduct(size, c.interval);
    WholeIsProduct(size, k);
    n, slept := Whole(size, k), Times(k * size, c.interval);
    TimesIsProduct(n, c.interval);
  }

  /** Takes n tokens back to back, as a wave of n requests to one host does.  On an
      exact clock the calls follow the closed form above, or, below a burst of one,
      all of them return at one instant, however many they are. */
  method TakeTokens(l: GCRARateLimiter, clock: Clock, n: nat) returns (ghost times: seq<real>)
    requires l.Valid() && l.UpTo(clock.now)
    modifies clock, l
    ensures l.Valid() && l.UpTo(clock.now) && |times| == n
    ensures l.Tokens() == old(l.Tokens()) + if l.limits.burst >= 1.0 then times else []
    ensures clock.Exact() && l.limits.burst >= 1.0 ==>
              && PacerOf(l, clock) == Calls(l.limits, old(PacerOf(l, clock)), n)
              && forall i :: 0 <= i < n ==> times[i] == Calls(l.limits, old(PacerOf(l, clock)), i + 1).now
    ensures clock.Exact() && l.limits.burst < 1.0 ==>
              && l.tat == old(l.tat)
              && forall i :: 0 <= i < n ==> times[i] == Max(old(l.tat), old(clock.now))
  {
    hide Grants, AcquireExact;
    times := [];
    ghost var p := PacerOf(l, clock);
    assert Calls(l.limits, p, 0) == p;
    for i := 0 to n
      invariant l.Valid() && l.UpTo(clock.now) && |times| == i
      invariant l.Tokens() == old(l.Tokens()) + if l.limits.burst >= 1.0 then times else []
      invariant clock.Exact() && l.limits.burst >= 1.0 ==>
                  && PacerOf(l, clock) == Calls(l.limits, p, i)
                  && forall k :: 0 <= k < i ==> times[k] == Calls(l.limits, p, k + 1).now
      invariant clock.Exact() && l.limits.burst < 1.0 ==>
                  && l.tat == p.tat && (clock.now == p.now || clock.now == Max(p.tat, p.now))
                  && forall k :: 0 <= k < i ==> times[k] == Max(p.tat, p.now)
    {
      AcquireRateLimit(l, clock);
      times := times + [clock.now];
      assert Calls(l.limits, p, i + 1) == AcquireExact(l.limits, Calls(l.limits, p, i));
    }
  }

  /** The exact schedule, of the limiter itself. */
  method TakeScheduledTokens(l: GCRARateLimiter, clock: Clock, size: nat, k: nat, j: nat)
    requires l.Valid() && l.UpTo(clock.now) && l.limits.Valid() && clock.Exact()
    requires l.limits.burst == size as real && j < size && l.tat <= clock.now
    modifies clock, l
    ensures l.Valid() && |l.Tokens()| == |old(l.Tokens())| + k * size + j + 1
    ensures var slept := (k * size) as real * l.limits.interval;
            && clock.now == old(clock.now) + slept
            && l.paced == old(l.paced) + k && l.totalWait == old(l.totalWait) + slept
  {
    hide Calls, Grants;
    ExactSchedule(l.limits, PacerOf(l, clock), size, k, j);
    ghost var times := TakeTokens(l, clock, k * size + j + 1);
  }

  /** So a run of more than one burst and at most two is paced once, for one
      burst window.  The README's example is fifteen requests at burst ten. */
  lemma SecondBurstPacedOnce(c: Limits, p: Pacer, size: nat, n: nat)
    requires c.Valid() && c.burst == size as real && size < n <= 2 * size && Idle(p)
    ensures var q := Calls(c, p, n);
            q.now == p.now + c.offset && q.paced == p.paced + 1 && q.totalWait == p.totalWait + c.offset
  {
    hide Calls, Idle;
    ExactSchedule(c, p, size, 1, n - 1 - size);
    hide *;
    assert 1 * size + (n - 1 - size) + 1 == n && 1 * size == size;
  }

  // ----- response facts

  function FactsOf(rs: seq<Response>): Facts {
    if rs == [] then NO_FACTS else Recorded(FactsOf(rs[..|rs| - 1]), rs[|rs| - 1])
  }

  /** The counters summarise what was recorded: the minimum is the least elapsed
      time, the maximum the greatest (from zero up), bytes and time are the sums, and
      the errors are the responses outside 200..299. */
  lemma {:induction false} FactsSummarise(rs: seq<Response>)
    ensures var f := FactsOf(rs);
            && f.responses == |rs|
            && (rs != [] ==> exists k :: 0 <= k < |rs| && rs[k].elapsed == f.minElapsed)
            && (forall k :: 0 <= k < |rs| ==> f.minElapsed <= rs[k].elapsed <= f.maxElapsed)
            && (f.maxElapsed == 0.0 || exists k :: 0 <= k < |rs| && rs[k].elapsed == f.maxElapsed)
            && f.errors == |Errors(rs)| && f.bytes == Bytes(rs) && f.elapsed == Elapsed(rs)
  {
    if rs != [] {
      var n := |rs| - 1;
      FactsSummarise(rs[..n]);
      SumsAppend(rs[..n], rs[n]);
      var g := FactsOf(rs[..n]);
      assert forall k :: 0 <= k < n ==> rs[..n][k] == rs[k];
      if n > 0 && rs[n].elapsed >= g.minElapsed {
        var k :| 0 <= k < n && rs[..n][k].elapsed == g.minElapsed;
        assert rs[k].elapsed == FactsOf(rs).minElapsed;
      } else {
        assert rs[n].elapsed == FactsOf(rs).minElapsed;
      }
      if rs[n].elapsed > g.maxElapsed {
        assert rs[n].elapsed == FactsOf(rs).maxElapsed;
      } else if g.maxElapsed != 0.0 {
        var k :| 0 <= k < n && rs[..n][k].elapsed == g.maxElapsed;
        assert rs[k].elapsed == FactsOf(rs).maxElapsed;
      }
      ErrorsAppend(rs[..n], rs[n]);
      assert rs[..n] + [rs[n]] == rs;
    }
  }

  /** The positions of the error responses. */
  ghost function Errors(rs: seq<Response>): set<nat> {
    set k: nat | k < |rs| && !(200 <= rs[k].status <= 299)
  }

  /** The sums, counted from the first response on. */
  ghost function Bytes(rs: seq<Response>): nat {
    if rs == [] then 0 else rs[0].bytes + Bytes(rs[1..])
  }

  ghost function Elapsed(rs: seq<Response>): real {
    if rs == [] then 0.0 else rs[0].elapsed + Elapsed(rs[1..])
  }

  lemma {:induction false} SumsAppend(rs: seq<Response>, r: Response)
    ensures Bytes(rs + [r]) == Bytes(rs) + r.bytes && Elapsed(rs + [r]) == Elapsed(rs) + r.elapsed
  {
    if rs != [] {
      SumsAppend(rs[1..], r);
      assert (rs + [r])[1..] == rs[1..] + [r];
    } else {
      assert (rs + [r])[1..] == [];
    }
  }

  lemma ErrorsAppend(rs: seq<Response>, r: Response)
    ensures |Errors(rs + [r])| == |Errors(rs)| + if IsError(r) then 1 else 0
  {
    if IsError(r) {
      assert Errors(rs + [r]) == Errors(rs) + {|rs|};
    } else {
      assert Errors(rs + [r]) == Errors(rs);
    }
  }
}
