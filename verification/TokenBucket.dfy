/** The limiter seen as the token bucket it stands in for: the bucket refills at
    the rate, never holds more than the burst, admits when a whole token is
    there, and pays a 429 backoff in tokens, going into debt if need be. */
module TokenBucket {
  import opened Gcra

  datatype Bucket = Bucket(level: real, last: real)

  function Min(a: real, b: real): real {
    if a < b then a else b
  }

  function Refilled(c: Limits, b: Bucket, now: real): real {
    Min(c.burst, b.level + (now - b.last) * c.rate)
  }

  predicate HasToken(c: Limits, b: Bucket, now: real) {
    Refilled(c, b, now) >= 1.0
  }

  function Pay(c: Limits, b: Bucket, s: Step): Bucket {
    var level := Refilled(c, b, s.now);
    match s.op
    case TryAcquire => Bucket(if HasToken(c, b, s.now) then level - 1.0 else level, s.now)
    case Throttle(r) => Bucket(Min(c.burst, level - r * c.rate), s.now)
  }

  function Run(c: Limits, b: Bucket, h: seq<Step>): Bucket {
    if h == [] then b else Pay(c, Run(c, b, h[..|h| - 1]), h[|h| - 1])
  }

  function Admissions(c: Limits, b: Bucket, h: seq<Step>): seq<real> {
    if h == [] then [] else
      var k := |h| - 1;
      Admissions(c, b, h[..k]) +
      if h[k].op == TryAcquire && HasToken(c, Run(c, b, h[..k]), h[k].now) then [h[k].now] else []
  }

  /** The bucket a TAT stands for at a moment. */
  function Abstract(c: Limits, tat: real, now: real): Bucket {
    Bucket(c.burst - Backlog(tat, now) * c.rate, now)
  }

  lemma Scale(rate: real, x: real, y: real)
    requires rate > 0.0
    ensures x <= y <==> x * rate <= y * rate
    ensures (x - y) * rate == x * rate - y * rate
    ensures (x + y) * rate == x * rate + y * rate
  {
    if x <= y {
      assert 0.0 <= (y - x) * rate;
    } else {
      assert 0.0 < (x - y) * rate;
    }
  }

  lemma WindowInTokens(c: Limits)
    requires c.Valid()
    ensures c.offset * c.rate == c.burst
  {
    assert c.offset * c.rate == c.burst * (c.interval * c.rate);
  }

  /** Letting time pass commutes with the abstraction. */
  lemma RefillCommutes(c: Limits, tat: real, last: real, now: real)
    requires c.Valid() && last <= now
    ensures Refilled(c, Abstract(c, tat, last), now) == Abstract(c, tat, now).level
  {
    WindowInTokens(c);
    Scale(c.rate, Backlog(tat, last), now - last);
    Scale(c.rate, Backlog(tat, last) - (now - last), 0.0);
  }

  /** The two admission tests are the same test. */
  lemma SameAdmission(c: Limits, tat: real, now: real)
    requires c.Valid()
    ensures Admits(c, tat, now) <==> Abstract(c, tat, now).level >= 1.0
  {
    WindowInTokens(c);
    var d := Backlog(tat, now);
    Scale(c.rate, d + c.interval, c.offset);
    Scale(c.rate, d, c.interval);
    assert Max(tat, now) - now == d;
  }

  /** One step of the limiter is one step of the bucket. */
  lemma StepCommutes(c: Limits, tat: real, last: real, s: Step)
    requires c.Valid() && last <= s.now
    ensures Pay(c, Abstract(c, tat, last), s) == Abstract(c, After(c, tat, s), s.now)
    ensures Admits(c, tat, s.now) <==> HasToken(c, Abstract(c, tat, last), s.now)
  {
    RefillCommutes(c, tat, last, s.now);
    SameAdmission(c, tat, s.now);
    WindowInTokens(c);
    var d := Backlog(tat, s.now);
    match s.op
    case TryAcquire =>
      Scale(c.rate, d, c.interval);
    case Throttle(r) =>
      Scale(c.rate, d, r);
      Scale(c.rate, d + r, 0.0);
  }

  /** Refinement.  Every run of TryAcquire and RecordThrottle, from any TAT, is
      simulated step for step by the bucket, and the two admit the same requests
      at the same times.  No sign condition on the backoffs is needed. */
  lemma {:induction false} LimiterRefinesBucket(c: Limits, born: real, t0: real, h: seq<Step>)
    requires c.Valid() && Chronological(t0, h)
    ensures Run(c, Abstract(c, born, t0), h) == Abstract(c, Tat(c, born, h), Latest(t0, h))
    ensures Admissions(c, Abstract(c, born, t0), h) == Grants(c, born, h)
  {
    if h != [] {
      var k := |h| - 1;
      LimiterRefinesBucket(c, born, t0, h[..k]);
      StepCommutes(c, Tat(c, born, h[..k]), Latest(t0, h[..k]), h[k]);
    }
  }

  /** In particular a limiter is, from its creation on, a bucket that starts full. */
  lemma NewLimiterIsFullBucket(c: Limits, born: real, h: seq<Step>)
    requires c.Valid() && Chronological(born, h)
    ensures Admissions(c, Bucket(c.burst, born), h) == Grants(c, born, h)
  {
    LimiterRefinesBucket(c, born, born, h);
  }
}
