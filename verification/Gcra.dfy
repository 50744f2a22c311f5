/** The Generic Cell Rate Algorithm as a machine over timestamped steps.

    A limiter holds one number, the theoretical arrival time (TAT).  Each method
    of the limiter that touches it is one atomic step, and a history is the
    sequence of those steps in the order in which they happened, whoever made
    them.  Time is `real`: rounding to clock ticks is not modelled. */
module Gcra {

  /** The fixed fields of a limiter: seconds between requests, the burst window
      in seconds, requests per second, and the burst size. */
  datatype Limits = Limits(interval: real, offset: real, rate: real, burst: real) {
    /** What the steps of the algorithm rely on. */
    ghost predicate Sane() {
      interval > 0.0 && rate > 0.0 && (burst >= 1.0 <==> offset >= interval)
    }

    /** What the constructor establishes. */
    ghost predicate Valid() {
      && Sane()
      && interval * rate == 1.0
      && offset == interval * burst
    }
  }

  lemma BurstWindow(interval: real, burst: real)
    requires interval > 0.0
    ensures burst >= 1.0 <==> interval * burst >= interval
  {
    if burst >= 1.0 {
      assert interval * (burst - 1.0) >= 0.0;
    } else {
      assert interval * (1.0 - burst) > 0.0;
    }
  }

  /** How the constructor derives them from a rate and a burst. */
  function MakeLimits(rate: real, burst: real): (c: Limits)
    requires rate > 0.0
    ensures c.Valid() && c.rate == rate && c.burst == burst
  {
    var interval := 1.0 / rate;
    BurstWindow(interval, burst);
    Limits(interval, interval * burst, rate, burst)
  }

  datatype Op = TryAcquire | Throttle(retryAfter: real)

  datatype Step = Step(now: real, op: Op)

  function Max(a: real, b: real): real {
    if a < b then b else a
  }

  /** Seconds by which the TAT is ahead of a moment. */
  function Backlog(tat: real, now: real): real {
    Max(tat - now, 0.0)
  }

  predicate Admits(c: Limits, tat: real, now: real)
  {
    Max(tat, now) - now + c.interval <= c.offset
  }

  /** The TAT after one step. */
  function After(c: Limits, tat: real, s: Step): real
  {
    match s.op
    case TryAcquire => if Admits(c, tat, s.now) then Max(tat, s.now) + c.interval else tat
    case Throttle(r) => Max(tat, s.now) + r
  }

  /** The TAT after a whole history. */
  function Tat(c: Limits, born: real, h: seq<Step>): real
  {
    if h == [] then born else After(c, Tat(c, born, h[..|h| - 1]), h[|h| - 1])
  }

  /** Whether step k of a history is a successful TryAcquire. */
  predicate Granted(c: Limits, born: real, h: seq<Step>, k: nat)
    requires k < |h|
  {
    h[k].op == TryAcquire && Admits(c, Tat(c, born, h[..k]), h[k].now)
  }

  /** The times of the successful TryAcquire steps, in order. */
  function Grants(c: Limits, born: real, h: seq<Step>): seq<real>
  {
    if h == [] then [] else
      var k := |h| - 1;
      Grants(c, born, h[..k]) + if Granted(c, born, h, k) then [h[k].now] else []
  }

  /** The time of the last step, or `start` before the first. */
  function Latest(start: real, h: seq<Step>): real {
    if h == [] then start else h[|h| - 1].now
  }

  /** Steps never go back in time, and none precedes `start`. */
  ghost predicate Chronological(start: real, h: seq<Step>) {
    h != [] ==>
      var k := |h| - 1;
      Chronological(start, h[..k]) && Latest(start, h[..k]) <= h[k].now
  }

  ghost predicate BackoffsNonNegative(h: seq<Step>) {
    forall i :: 0 <= i < |h| && h[i].op.Throttle? ==> h[i].op.retryAfter >= 0.0
  }

  // ----- one step at a time

  lemma Extend(c: Limits, born: real, h: seq<Step>, s: Step)
    ensures Tat(c, born, h + [s]) == After(c, Tat(c, born, h), s)
    ensures Grants(c, born, h + [s]) ==
            Grants(c, born, h) + if s.op == TryAcquire && Admits(c, Tat(c, born, h), s.now) then [s.now] else []
    ensures Chronological(born, h) && Latest(born, h) <= s.now ==> Chronological(born, h + [s])
  {
    assert (h + [s])[..|h|] == h;
  }

  /** n intervals, added up one at a time. */
  ghost function Times(n: nat, interval: real): real {
    if n == 0 then 0.0 else Times(n - 1, interval) + interval
  }

  lemma {:induction false} TimesIsProduct(n: nat, interval: real)
    ensures Times(n, interval) == n as real * interval
  {
    if n > 0 {
      TimesIsProduct(n - 1, interval);
      var m := (n - 1) as real;
      assert (m + 1.0) * interval == m * interval + interval;
      assert n as real == m + 1.0;
    }
  }

  lemma {:induction false} TimesSum(m: nat, n: nat, interval: real)
    ensures Times(m + n, interval) == Times(m, interval) + Times(n, interval)
  {
    if n > 0 {
      TimesSum(m, n - 1, interval);
    }
  }

  lemma {:induction false} TimesMonotone(m: nat, n: nat, interval: real)
    requires m <= n && interval >= 0.0
    ensures Times(m, interval) <= Times(n, interval)
  {
    if m < n {
      TimesMonotone(m, n - 1, interval);
    }
  }

  /** Every grant pushes the TAT one interval further: with n grants in all, the
      TAT is at least n - i intervals after grant i. */
  lemma {:induction false} TatAhead(c: Limits, born: real, h: seq<Step>, i: nat)
    requires BackoffsNonNegative(h) && i < |Grants(c, born, h)|
    ensures var g := Grants(c, born, h);
            Tat(c, born, h) >= g[i] + Times(|g| - i, c.interval)
  {
    var k := |h| - 1;
    var g' := Grants(c, born, h[..k]);
    if i < |g'| {
      TatAhead(c, born, h[..k], i);
    }
  }

  lemma {:induction false} GrantSpan(c: Limits, born: real, h: seq<Step>, i: nat, j: nat)
    requires BackoffsNonNegative(h) && i <= j < |Grants(c, born, h)|
    ensures var g := Grants(c, born, h); g[i] + Times(j - i + 1, c.interval) <= g[j] + c.offset
  {
    var k := |h| - 1;
    var g' := Grants(c, born, h[..k]);
    if j < |g'| {
      GrantSpan(c, born, h[..k], i, j);
    } else {
      TatAhead(c, born, h, i);
    }
  }

  /** Admission bound.  Whoever the callers are and however their steps
      interleave, n successive successful TryAcquire calls take at least
      n - burst intervals from the first to the last. */
  lemma AdmissionBound(c: Limits, born: real, h: seq<Step>, i: nat, j: nat)
    requires c.Valid() && BackoffsNonNegative(h)
    requires i <= j < |Grants(c, born, h)|
    ensures var g := Grants(c, born, h);
            ((j - i + 1) as real - c.burst) * c.interval <= g[j] - g[i]
  {
    GrantSpan(c, born, h, i, j);
    TimesIsProduct(j - i + 1, c.interval);
  }

  lemma {:induction false} TatNeverFalls(c: Limits, born: real, h: seq<Step>, k: nat)
    requires c.interval >= 0.0 && BackoffsNonNegative(h) && k <= |h|
    ensures Tat(c, born, h[..k]) <= Tat(c, born, h)
  {
    if k == |h| {
      assert h[..k] == h;
    } else {
      var m := |h| - 1;
      assert h[..m][..k] == h[..k];
      TatNeverFalls(c, born, h[..m], k);
    }
  }

  /** Backoff barrier.  After RecordThrottle(r) at time t, whatever happens in
      between, nothing is admitted before t + r - (burst - 1) * interval. */
  lemma BackoffBarrier(c: Limits, born: real, h: seq<Step>, k: nat, j: nat)
    requires c.Valid() && BackoffsNonNegative(h)
    requires k < j < |h| && h[k].op.Throttle? && Granted(c, born, h, j)
    ensures h[j].now >= h[k].now + h[k].op.retryAfter - (c.burst - 1.0) * c.interval
  {
    assert h[..j][..k + 1] == h[..k + 1];
    assert h[..k + 1][..k] == h[..k];
    TatNeverFalls(c, born, h[..j], k + 1);
    assert (c.burst - 1.0) * c.interval == c.offset - c.interval;
  }

  /** Histories only add grants. */
  lemma {:induction false} GrantsGrow(c: Limits, born: real, h: seq<Step>, i: nat)
    requires i <= |h|
    ensures Grants(c, born, h[..i]) <= Grants(c, born, h)
  {
    if i == |h| {
      assert h[..i] == h;
    } else {
      var k := |h| - 1;
      assert h[..k][..i] == h[..i];
      GrantsGrow(c, born, h[..k], i);
    }
  }

  /** The backoff barrier, by number: every grant that is not among those before a
      throttle comes when the throttle lets it. */
  lemma {:induction false} GrantsBehindBackoff(c: Limits, born: real, h: seq<Step>, i: nat, q: nat)
    requires c.Valid() && BackoffsNonNegative(h) && i < |h| && h[i].op.Throttle?
    requires |Grants(c, born, h[..i])| <= q < |Grants(c, born, h)|
    ensures Grants(c, born, h)[q] >= h[i].now + h[i].op.retryAfter - (c.burst - 1.0) * c.interval
  {
    var k := |h| - 1;
    assert i < k;
    assert h[..k][..i] == h[..i];
    if q < |Grants(c, born, h[..k])| {
      GrantsBehindBackoff(c, born, h[..k], i, q);
    } else {
      BackoffBarrier(c, born, h, i, k);
    }
  }

  /** Grants come in order and never after the last step. */
  lemma {:induction false} GrantsInOrder(c: Limits, born: real, h: seq<Step>, i: nat, j: nat)
    requires Chronological(born, h) && i <= j < |Grants(c, born, h)|
    ensures var g := Grants(c, born, h); born <= g[i] <= g[j] <= Latest(born, h)
  {
    var k := |h| - 1;
    var g' := Grants(c, born, h[..k]);
    if i < |g'| {
      GrantsInOrder(c, born, h[..k], i, if j < |g'| then j else i);
    } else {
      LatestNotBefore(born, h);
    }
  }

  lemma {:induction false} LatestNotBefore(start: real, h: seq<Step>)
    requires Chronological(start, h)
    ensures start <= Latest(start, h)
  {
    if h != [] {
      LatestNotBefore(start, h[..|h| - 1]);
    }
  }

  /** A negative Retry-After is parsed like any other number and lowers the TAT: at
      any admission, of any limiter, a throttle of minus one interval lets a second
      request through at the same instant, and so on without end. */
  lemma NegativeBackoffBreaksTheBound(c: Limits, born: real, h: seq<Step>, s: Step)
    requires c.Valid() && c.burst >= 1.0 && s.op == TryAcquire && Admits(c, Tat(c, born, h), s.now)
    ensures var back := Step(s.now, Throttle(-c.interval));
            Grants(c, born, h + [s] + [back] + [s]) == Grants(c, born, h) + [s.now] + [s.now]
  {
    var back := Step(s.now, Throttle(-c.interval));
    Extend(c, born, h, s);
    Extend(c, born, h + [s], back);
    Extend(c, born, h + [s] + [back], s);
  }

  // ----- callers that are overtaken

  ghost predicate OnlyTries(h: seq<Step>) {
    forall i :: 0 <= i < |h| ==> h[i].op == TryAcquire
  }

  lemma {:induction false} InTime(start: real, h: seq<Step>, i: nat, j: nat)
    requires Chronological(start, h) && i <= j < |h|
    ensures h[i].now <= h[j].now
  {
    var k := |h| - 1;
    if j < k {
      InTime(start, h[..k], i, j);
    } else if i < k {
      InTime(start, h[..k], i, k - 1);
    }
  }

  /** The TAT outruns the time only by the grants there are. */
  lemma {:induction false} TatBehind(c: Limits, born: real, h: seq<Step>, i: nat, t: real)
    requires c.interval > 0.0 && i <= |h| && OnlyTries(h) && Tat(c, born, h[..i]) <= t
    requires forall k :: i <= k < |h| ==> h[k].now <= t
    ensures |Grants(c, born, h[..i])| <= |Grants(c, born, h)|
    ensures Tat(c, born, h) <= t + Times(|Grants(c, born, h)| - |Grants(c, born, h[..i])|, c.interval)
  {
    hide Grants, Tat, Granted, Times;
    TimesNext(0, c.interval);
    if i == |h| {
      assert h[..i] == h;
    } else {
      var k := |h| - 1;
      assert h[..k][..i] == h[..i];
      TatBehind(c, born, h[..k], i, t);
      LastTry(c, born, h, t);
      var n := |Grants(c, born, h[..k])| - |Grants(c, born, h[..i])|;
      TimesNonNegative(n, c.interval);
      TimesNext(n, c.interval);
    }
  }

  lemma TimesNext(n: nat, interval: real)
    ensures Times(0, interval) == 0.0 && Times(n + 1, interval) == Times(n, interval) + interval
  {
  }

  lemma LastTry(c: Limits, born: real, h: seq<Step>, t: real)
    requires c.interval > 0.0 && h != [] && h[|h| - 1].op == TryAcquire && h[|h| - 1].now <= t
    ensures var k := |h| - 1;
            var before, after := Grants(c, born, h[..k]), Grants(c, born, h);
            if Granted(c, born, h, k) then
              |after| == |before| + 1 && Tat(c, born, h) <= Max(Tat(c, born, h[..k]), t) + c.interval
            else
              |after| == |before| && Tat(c, born, h) == Tat(c, born, h[..k])
  {
  }

  /** One more refusal.  A caller that waited out the TAT it saw after a refusal and is
      refused again was overtaken by a whole burst of grants in between. */
  lemma RefusedAgain(c: Limits, born: real, h: seq<Step>, i: nat, j: nat)
    requires c.Valid() && c.burst >= 1.0 && OnlyTries(h) && Chronological(born, h) && i < j < |h|
    requires h[j].now >= Tat(c, born, h[..i + 1]) && !Granted(c, born, h, j)
    ensures |Grants(c, born, h[..j])| >= |Grants(c, born, h[..i + 1])| + c.burst.Floor
  {
    hide Grants, Tat, Times, Limits.Valid;
    var t := h[j].now;
    forall k | 0 <= k < j
      ensures h[..j][k].now <= t
    {
      InTime(born, h, k, j);
    }
    assert h[..j][..i + 1] == h[..i + 1];
    PositiveInterval(c);
    TatBehind(c, born, h[..j], i + 1, t);
    var n := |Grants(c, born, h[..j])| - |Grants(c, born, h[..i + 1])|;
    hide Chronological, OnlyTries;
    assert Times(n, c.interval) > c.offset - c.interval;
    AtLeastBurst(c, n);
  }

  lemma PositiveInterval(c: Limits)
    requires c.Valid()
    ensures c.interval > 0.0 && (c.burst >= 1.0 ==> c.offset >= c.interval)
  {
  }

  lemma AtLeastBurst(c: Limits, n: nat)
    requires c.Valid() && Times(n, c.interval) > c.offset - c.interval
    ensures n >= c.burst.Floor
  {
    hide Times;
    TimesIsProduct(n, c.interval);
    assert (n as real - (c.burst - 1.0)) * c.interval > 0.0;
    assert n as real > c.burst - 1.0;
  }

  /** Overtaken.  However callers interleave, one that is refused time and again,
      each time waiting for as long as it is told, is overtaken by at least a whole
      burst of grants at every retry; so one that goes ahead without a token, after
      51 refusals, by fifty. */
  lemma {:induction false} Overtaken(c: Limits, born: real, h: seq<Step>, refusals: seq<nat>)
    requires c.Valid() && c.burst >= 1.0 && OnlyTries(h) && Chronological(born, h) && refusals != []
    requires forall a :: 0 <= a < |refusals| ==> refusals[a] < |h| && !Granted(c, born, h, refusals[a])
    requires forall a :: 0 < a < |refusals| ==>
               refusals[a - 1] < refusals[a] && h[refusals[a]].now >= Tat(c, born, h[..refusals[a - 1] + 1])
    ensures |Grants(c, born, h[..refusals[|refusals| - 1]])| >= |Grants(c, born, h[..refusals[0]])| + (|refusals| - 1) * c.burst.Floor
  {
    hide Grants, Tat, Granted, Chronological, OnlyTries, Limits.Valid;
    var n, f := |refusals| - 1, c.burst.Floor;
    if n > 0 {
      var i := refusals[n - 1];
      Overtaken(c, born, h, refusals[..n]);
      RefusedAgain(c, born, h, i, refusals[n]);
      assert h[..i + 1][..i] == h[..i];
      GrantsGrow(c, born, h[..i + 1], i);
      OneMore(n, f);
    }
  }

  lemma OneMore(n: int, f: int)
    ensures (n - 1) * f + f == n * f
  {
  }

  // ----- exactly which backoffs keep the bound

  ghost predicate AllBackoffsAre(h: seq<Step>, r: real) {
    forall i :: 0 <= i < |h| && h[i].op.Throttle? ==> h[i].op.retryAfter == r
  }

  /** What the admission bound says of one history. */
  ghost predicate Bounded(c: Limits, born: real, h: seq<Step>) {
    var g := Grants(c, born, h);
    forall i, j :: 0 <= i <= j < |g| ==> ((j - i + 1) as real - c.burst) * c.interval <= g[j] - g[i]
  }

  function Tries(n: nat, at: real): (h: seq<Step>)
    ensures |h| == n && forall k :: 0 <= k < n ==> h[k] == Step(at, TryAcquire)
  {
    if n == 0 then [] else Tries(n - 1, at) + [Step(at, TryAcquire)]
  }

  /** Up to a whole burst is granted at once. */
  lemma {:induction false} BurstAtOnce(c: Limits, at: real, n: nat)
    requires c.Sane() && Times(n, c.interval) <= c.offset
    ensures var h := Tries(n, at);
            && |Grants(c, at, h)| == n && (forall k :: 0 <= k < n ==> Grants(c, at, h)[k] == at)
            && Tat(c, at, h) == at + Times(n, c.interval)
            && Chronological(at, h) && Latest(at, h) == at
  {
    if n > 0 {
      TimesNonNegative(n - 1, c.interval);
      BurstAtOnce(c, at, n - 1);
      Extend(c, at, Tries(n - 1, at), Step(at, TryAcquire));
      hide Grants, Tat;
      assert Tries(n, at)[..n - 1] == Tries(n - 1, at);
    }
  }

  lemma {:induction false} TimesNonNegative(n: nat, interval: real)
    requires interval >= 0.0
    ensures Times(n, interval) >= 0.0
  {
    if n > 0 {
      TimesNonNegative(n - 1, interval);
    }
  }

  /** A whole burst at the start, a negative backoff, and a try as soon as that
      allows one: the try is granted before the bound allows it. */
  lemma TooSoon(c: Limits, r: real, n: nat) returns (h: seq<Step>)
    requires c.Valid() && n >= 1 && n as real <= c.burst < n as real + 1.0 && r < 0.0
    ensures Chronological(0.0, h) && AllBackoffsAre(h, r) && !Bounded(c, 0.0, h)
  {
    hide Grants, Tat, Times, Tries;
    var burst, back := Tries(n, 0.0), Step(0.0, Throttle(r));
    TimesIsProduct(n, c.interval);
    Scaled(c, n);
    BurstAtOnce(c, 0.0, n);
    var due := Times(n, c.interval) + r + c.interval - c.offset;
    var next := Step(Max(0.0, due), TryAcquire);
    TimesNonNegative(n, c.interval);
    Extend(c, 0.0, burst, back);
    Extend(c, 0.0, burst + [back], next);
    hide Chronological;
    h := burst + [back] + [next];
    var g := Grants(c, 0.0, h);
    assert Tat(c, 0.0, burst + [back]) == Times(n, c.interval) + r;
    assert g == Grants(c, 0.0, burst) + [next.now];
    assert g[0] == 0.0 && g[n] == next.now;
    Denied(c, 0.0, h, n);
  }

  lemma Denied(c: Limits, born: real, h: seq<Step>, n: nat)
    requires var g := Grants(c, born, h);
             n < |g| && (n as real + 1.0 - c.burst) * c.interval > g[n] - g[0]
    ensures !Bounded(c, born, h)
  {
    assert (n - 0 + 1) as real == n as real + 1.0;
  }

  /** A whole burst fits the window, one more does not. */
  lemma Scaled(c: Limits, n: nat)
    requires c.Valid() && n as real <= c.burst < n as real + 1.0
    ensures n as real * c.interval <= c.offset
    ensures (n as real + 1.0 - c.burst) * c.interval == n as real * c.interval + c.interval - c.offset > 0.0
  {
    assert (c.burst - n as real) * c.interval >= 0.0;
    assert (n as real + 1.0 - c.burst) * c.interval > 0.0;
  }

  lemma {:induction false} NothingBelowOne(c: Limits, born: real, h: seq<Step>)
    requires c.Sane() && c.burst < 1.0
    ensures Grants(c, born, h) == []
  {
    if h != [] {
      NothingBelowOne(c, born, h[..|h| - 1]);
    }
  }

  /** The sign condition is exact.  With throttles by r, every history meets the
      admission bound if and only if r is not negative, or the burst is below one
      and nothing is ever granted. */
  lemma BoundIffBackoffNonNegative(c: Limits, r: real)
    requires c.Valid()
    ensures (forall born, h :: Chronological(born, h) && AllBackoffsAre(h, r) ==> Bounded(c, born, h)) <==>
            r >= 0.0 || c.burst < 1.0
  {
    if c.burst < 1.0 {
      forall born, h | Chronological(born, h) && AllBackoffsAre(h, r)
        ensures Bounded(c, born, h)
      {
        NothingBelowOne(c, born, h);
      }
    } else if r >= 0.0 {
      forall born, h | Chronological(born, h) && AllBackoffsAre(h, r)
        ensures Bounded(c, born, h)
      {
        forall i, j | 0 <= i <= j < |Grants(c, born, h)|
          ensures ((j - i + 1) as real - c.burst) * c.interval <= Grants(c, born, h)[j] - Grants(c, born, h)[i]
        {
          AdmissionBound(c, born, h, i, j);
        }
      }
    } else {
      var n := c.burst.Floor;
      var h := TooSoon(c, r, n);
    }
  }

  // ----- the waiting time

  lemma Positive(x: real, y: real)
    requires x > 0.0 && y > 0.0
    ensures x * y > 0.0
  {
  }

  /** A limiter that would admit a request tells to wait for nothing, as its comment
      says, just when its burst is at most one: with a larger burst it admits
      requests while it has a backlog. */
  lemma WaitIsZeroWhenAdmitted(c: Limits)
    requires c.Valid()
    ensures (forall tat, now :: Admits(c, tat, now) ==> Backlog(tat, now) == 0.0) <==> c.burst <= 1.0
  {
    if c.burst <= 1.0 {
      assert (1.0 - c.burst) * c.interval >= 0.0;
    } else {
      var tat := (c.burst - 1.0) * c.interval;
      Positive(c.burst - 1.0, c.interval);
      assert tat + c.interval == c.offset;
      assert Admits(c, tat, 0.0) && Backlog(tat, 0.0) > 0.0;
    }
  }
}
