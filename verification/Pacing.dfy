/** What a limiter's tokens and the requests that left with them have to do with
    each other, and what that bounds. */
module Pacing {
  import opened Gcra
  import opened RateLimiting

  /** A request leaving: which token of its limiter it holds, and when it goes. */
  datatype Shot = Shot(ticket: nat, at: real)

  /** The requests that left under a limiter, in order, against its tokens.
      Every request left with its own token, later tokens for later requests; and
      with at most m requests in flight together, a request left before the token
      of the m-th request after it was even taken. */
  ghost predicate WellPaced(tokens: seq<real>, shots: seq<Shot>, m: nat) {
    && (forall a :: 0 <= a < |shots| ==> shots[a].ticket < |tokens| && tokens[shots[a].ticket] <= shots[a].at)
    && (forall a, b :: 0 <= a < b < |shots| ==> shots[a].ticket < shots[b].ticket && shots[a].at <= shots[b].at)
    && (forall a, b :: 0 <= a <= b - m && b < |shots| ==> shots[a].at <= tokens[shots[b].ticket])
  }

  /** Tokens taken since `since` and not yet used. */
  ghost predicate Holding(tokens: seq<real>, shots: seq<Shot>, tickets: seq<nat>, since: real) {
    && (forall a :: 0 <= a < |shots| ==> shots[a].at <= since)
    && (forall k :: 0 <= k < |tickets| ==> tickets[k] < |tokens| && since <= tokens[tickets[k]])
    && (forall j, k :: 0 <= j < k < |tickets| ==> tickets[j] < tickets[k])
    && (forall a, k :: 0 <= a < |shots| && 0 <= k < |tickets| ==> shots[a].ticket < tickets[k])
  }

  /** Taking one more token. */
  lemma TokenTaken(tokens: seq<real>, now: real, shots: seq<Shot>, tickets: seq<nat>, since: real, m: nat)
    requires WellPaced(tokens, shots, m) && Holding(tokens, shots, tickets, since) && since <= now
    ensures WellPaced(tokens + [now], shots, m)
    ensures Holding(tokens + [now], shots, tickets + [|tokens|], since)
  {
  }

  function Fired(tickets: seq<nat>, at: real): (r: seq<Shot>)
    ensures |r| == |tickets| && forall k :: 0 <= k < |r| ==> r[k] == Shot(tickets[k], at)
  {
    seq(|tickets|, k requires 0 <= k < |tickets| => Shot(tickets[k], at))
  }

  /** Firing everything held, at most m requests, keeps the pacing. */
  lemma FireKeepsPace(tokens: seq<real>, shots: seq<Shot>, tickets: seq<nat>, since: real, at: real, m: nat)
    requires WellPaced(tokens, shots, m) && Holding(tokens, shots, tickets, since)
    requires |tickets| <= m && since <= at
    requires forall k :: 0 <= k < |tokens| ==> tokens[k] <= at
    ensures WellPaced(tokens, shots + Fired(tickets, at), m)
  {
    var after := shots + Fired(tickets, at);
    forall a, b | 0 <= a <= b - m && b < |after|
      ensures after[a].at <= tokens[after[b].ticket]
    {
      if b >= |shots| {
        assert a < |shots|;
        assert after[b].ticket == tickets[b - |shots|];
      }
    }
  }

  lemma Strictly(shots: seq<Shot>, tokens: seq<real>, m: nat, a: nat, b: nat)
    requires WellPaced(tokens, shots, m) && a <= b < |shots|
    ensures shots[b].ticket - shots[a].ticket >= b - a
  {
    if a < b {
      Strictly(shots, tokens, m, a, b - 1);
    }
  }

  lemma Rescale(c: Limits, n: int, m: nat, w: real)
    requires c.Valid() && ((n - m) as real - c.burst) * c.interval <= w
    ensures n as real <= m as real + c.burst + c.rate * w
  {
    var x := (n - m) as real - c.burst;
    assert x == x * (c.interval * c.rate) == (x * c.interval) * c.rate;
    assert (w - x * c.interval) * c.rate >= 0.0;
  }

  lemma Gaps(c: Limits, x: real, y: real, w: real)
    requires c.interval > 0.0 && x <= y && (y - c.burst) * c.interval <= w
    ensures (x - c.burst) * c.interval <= w
  {
    assert (y - x) * c.interval >= 0.0;
  }

  /** Beyond the first m, the requests from the a-th to the b-th each needed a
      token taken after the a-th had left. */
  lemma TokensBetween(c: Limits, born: real, h: seq<Step>, shots: seq<Shot>, m: nat, a: nat, b: nat)
      returns (i: nat, j: nat)
    requires c.Valid() && BackoffsNonNegative(h)
    requires WellPaced(Grants(c, born, h), shots, m) && a + m <= b < |shots|
    ensures b - a - m <= j - i
    ensures ((j - i + 1) as real - c.burst) * c.interval <= shots[b].at - shots[a].at
  {
    hide Grants;
    i, j := shots[a + m].ticket, shots[b].ticket;
    Strictly(shots, Grants(c, born, h), m, a + m, b);
    AdmissionBound(c, born, h, i, j);
  }

  /** Firing bound, on indices: the requests from the a-th to the b-th cannot lie
      closer together than the bound allows. */
  lemma SpanBound(c: Limits, born: real, h: seq<Step>, shots: seq<Shot>, m: nat, a: nat, b: nat)
    requires c.Valid() && c.burst >= 0.0 && BackoffsNonNegative(h)
    requires WellPaced(Grants(c, born, h), shots, m) && a <= b < |shots|
    ensures (b - a + 1) as real <= m as real + c.burst + c.rate * (shots[b].at - shots[a].at)
  {
    hide Grants;
    assert shots[a].at <= shots[b].at;
    if b < a + m {
      NonNegative(c.rate, shots[b].at - shots[a].at);
    } else {
      var i, j := TokensBetween(c, born, h, shots, m, a, b);
      hide WellPaced;
      Gaps(c, (b - a + 1 - m) as real, (j - i + 1) as real, shots[b].at - shots[a].at);
      Rescale(c, b - a + 1, m, shots[b].at - shots[a].at);
    }
  }

  lemma NonNegative(x: real, y: real)
    requires x >= 0.0 && y >= 0.0
    ensures x * y >= 0.0
  {
  }

  lemma Widen(c: Limits, n: nat, m: nat, n': nat, w: real, w': real)
    requires c.rate > 0.0 && w <= w' && n' <= n
    requires n as real <= m as real + c.burst + c.rate * w
    ensures n' as real <= m as real + c.burst + c.rate * w'
  {
    NonNegative(c.rate, w' - w);
  }

  /** The requests of a record that left within [t, t + w]. */
  ghost function Window(shots: seq<Shot>, t: real, w: real): set<nat> {
    set k: nat | k < |shots| && t <= shots[k].at <= t + w
  }

  lemma {:induction false} WidestPair(s: set<nat>) returns (a: nat, b: nat)
    requires s != {}
    ensures a in s && b in s && a <= b
    ensures forall x :: x in s ==> a <= x <= b
    decreases |s|
  {
    var x :| x in s;
    var rest := s - {x};
    assert forall y :: y in s ==> y == x || y in rest;
    if rest == {} {
      a, b := x, x;
    } else {
      var a', b' := WidestPair(rest);
      a, b := if x < a' then x else a', if x > b' then x else b';
    }
  }

  lemma FitsBetween(s: set<nat>, a: nat, b: nat)
    requires a <= b && forall x :: x in s ==> a <= x <= b
    ensures |s| <= b - a + 1
    decreases b
  {
    if b in s && b > a {
      FitsBetween(s - {b}, a, b - 1);
    } else if b > a {
      FitsBetween(s, a, b - 1);
    } else {
      assert s <= {b};
      Cardinality(s, {b});
    }
  }

  lemma {:induction false} Cardinality(s: set<nat>, t: set<nat>)
    requires s <= t
    ensures |s| <= |t|
  {
    if s != {} {
      var x :| x in s;
      Cardinality(s - {x}, t - {x});
    }
  }

  lemma PositiveRate(c: Limits)
    requires c.Valid()
    ensures c.rate > 0.0
  {
  }

  /** Firing bound.  In any window of length w, at most m + burst + rate * w
      requests leave under one limiter, when at most m leave together. */
  lemma FiringBound(c: Limits, born: real, h: seq<Step>, shots: seq<Shot>, m: nat, t: real, w: real)
    requires c.Valid() && c.burst >= 0.0 && BackoffsNonNegative(h) && w >= 0.0
    requires WellPaced(Grants(c, born, h), shots, m)
    ensures |Window(shots, t, w)| as real <= m as real + c.burst + c.rate * w
  {
    hide Grants, BackoffsNonNegative, WellPaced, Limits.Valid;
    var s := Window(shots, t, w);
    if s == {} {
      EmptyWindow(c, m, w);
    } else {
      var a, b := WidestPair(s);
      FitsBetween(s, a, b);
      assert shots[b].at - shots[a].at <= w;
      hide Window;
      WidestSpan(c, born, h, shots, m, a, b, |s|, w);
    }
  }

  lemma EmptyWindow(c: Limits, m: nat, w: real)
    requires c.Valid() && c.burst >= 0.0 && w >= 0.0
    ensures 0.0 <= m as real + c.burst + c.rate * w
  {
    NonNegative(c.rate, w);
  }

  lemma WidestSpan(c: Limits, born: real, h: seq<Step>, shots: seq<Shot>, m: nat, a: nat, b: nat, n: nat, w: real)
    requires c.Valid() && c.burst >= 0.0 && BackoffsNonNegative(h)
    requires WellPaced(Grants(c, born, h), shots, m) && a <= b < |shots|
    requires shots[b].at - shots[a].at <= w && n <= b - a + 1
    ensures n as real <= m as real + c.burst + c.rate * w
  {
    hide Grants, BackoffsNonNegative, WellPaced, Limits.Valid;
    PositiveRate(c);
    SpanBound(c, born, h, shots, m, a, b);
    Widen(c, b - a + 1, m, n, shots[b].at - shots[a].at, w);
  }
}
