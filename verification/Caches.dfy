/** The two lease caches, for vault secrets and for vault tokens.  Looking up and
    storing happen under a lock; the fetch between them does not, so the steps of
    many threads interleave. */
module Caches {
  import opened RateLimiting
  import opened Wrappers
  import opened Splitting
  import opened VaultReplies

  datatype Entry<V> = Entry(value: V, storedAt: real)

  /** What the cache answers: the entry, while it is younger than its lifetime. */
  function Lookup<V>(ttl: V -> real, cache: map<string, Entry<V>>, key: string, now: real): Option<V> {
    if key in cache && now - cache[key].storedAt < ttl(cache[key].value) then Some(cache[key].value) else None
  }

  // ----- threads

  /** What a thread is at.  Replies are numbered in the order in which they come. */
  datatype Phase<V> = Idle | Fetching(key: string) | Fetched(key: string, value: V, number: nat)

  datatype Step<V> =
    | Check(thread: nat, key: string, at: real)
    | Receive(thread: nat, value: V)
    | Fail(thread: nat)
    | Put(thread: nat, at: real)

  datatype Event<V> =
    | Stored(thread: nat, key: string, value: V, at: real, number: nat)
    | Served(thread: nat, key: string, value: V, at: real)

  datatype State<V> = State(cache: map<string, Entry<V>>, phases: map<nat, Phase<V>>, events: seq<Event<V>>, received: nat)

  function PhaseOf<V>(s: State<V>, thread: nat): Phase<V> {
    if thread in s.phases then s.phases[thread] else Idle
  }

  /** One step; a step its thread is not ready for changes nothing. */
  function Next<V>(ttl: V -> real, s: State<V>, step: Step<V>): State<V> {
    match (step, PhaseOf(s, step.thread))
    case (Check(t, key, at), Idle) =>
      (match Lookup(ttl, s.cache, key, at)
       case Some(v) => s.(events := s.events + [Served(t, key, v, at)])
       case None => s.(phases := s.phases[t := Fetching(key)]))
    case (Receive(t, v), Fetching(key)) =>
      s.(phases := s.phases[t := Fetched(key, v, s.received)], received := s.received + 1)
    case (Fail(t), Fetching(_)) => s.(phases := s.phases[t := Idle])
    case (Put(t, at), Fetched(key, v, n)) =>
      s.(cache := s.cache[key := Entry(v, at)], phases := s.phases[t := Idle], events := s.events + [Stored(t, key, v, at, n)])
    case _ => s
  }

  function Run<V>(ttl: V -> real, steps: seq<Step<V>>): State<V> {
    if steps == [] then State(map[], map[], [], 0)
    else Next(ttl, Run(ttl, steps[..|steps| - 1]), steps[|steps| - 1])
  }

  function Time<V>(step: Step<V>, otherwise: real): real {
    if step.Check? || step.Put? then step.at else otherwise
  }

  /** The time of the last clock reading of a run. */
  function Now<V>(start: real, steps: seq<Step<V>>): real {
    if steps == [] then start else Time(steps[|steps| - 1], Now(start, steps[..|steps| - 1]))
  }

  /** Clock readings never go back. */
  ghost predicate InOrder<V>(start: real, steps: seq<Step<V>>) {
    steps != [] ==>
      var init := steps[..|steps| - 1];
      InOrder(start, init) && Now(start, init) <= Time(steps[|steps| - 1], Now(start, init))
  }

  // ----- freshness

  /** Event j is the last store of a key among the first n events. */
  ghost predicate LastStore<V>(events: seq<Event<V>>, n: nat, j: nat, key: string) {
    && j < n <= |events| && events[j].Stored? && events[j].key == key
    && forall i :: j < i < n && events[i].Stored? ==> events[i].key != key
  }

  /** Event i, an answer from the cache, is backed by the last store of an equal
      key, made no longer ago than the lifetime. */
  ghost predicate Backed<V>(ttl: V -> real, events: seq<Event<V>>, i: nat)
    requires i < |events| && events[i].Served?
  {
    exists j: nat ::
      LastStore(events, i, j, events[i].key) && events[j].value == events[i].value
      && events[j].at <= events[i].at < events[j].at + ttl(events[j].value)
  }

  ghost predicate Holds<V>(events: seq<Event<V>>, key: string, e: Entry<V>) {
    exists j: nat :: LastStore(events, |events|, j, key) && Entry(events[j].value, events[j].at) == e
  }

  ghost predicate Invariant<V>(ttl: V -> real, s: State<V>, now: real) {
    && (forall key :: key in s.cache ==> s.cache[key].storedAt <= now && Holds(s.events, key, s.cache[key]))
    && (forall i :: 0 <= i < |s.events| && s.events[i].Served? ==> Backed(ttl, s.events, i))
  }

  lemma Extend<V>(events: seq<Event<V>>, more: seq<Event<V>>, n: nat, j: nat, key: string)
    requires LastStore(events, n, j, key)
    ensures LastStore(events + more, n, j, key)
  {
  }

  lemma BackedStays<V>(ttl: V -> real, events: seq<Event<V>>, more: seq<Event<V>>, i: nat)
    requires i < |events| && events[i].Served? && Backed(ttl, events, i)
    ensures Backed(ttl, events + more, i)
  {
    var j: nat :| LastStore(events, i, j, events[i].key) && events[j].value == events[i].value
             && events[j].at <= events[i].at < events[j].at + ttl(events[j].value);
    Extend(events, more, i, j, events[i].key);
  }

  lemma HoldsStays<V>(events: seq<Event<V>>, x: Event<V>, key: string, e: Entry<V>)
    requires Holds(events, key, e) && (x.Stored? ==> x.key != key)
    ensures Holds(events + [x], key, e)
  {
    var j: nat :| LastStore(events, |events|, j, key) && Entry(events[j].value, events[j].at) == e;
    assert LastStore(events + [x], |events| + 1, j, key);
  }

  lemma ServeKeeps<V>(ttl: V -> real, s: State<V>, now: real, t: nat, key: string, v: V, at: real)
    requires Invariant(ttl, s, now) && now <= at && Lookup(ttl, s.cache, key, at) == Some(v)
    ensures Invariant(ttl, s.(events := s.events + [Served(t, key, v, at)]), at)
  {
    var x := Served(t, key, v, at);
    var events := s.events + [x];
    forall k | k in s.cache
      ensures Holds(events, k, s.cache[k])
    {
      HoldsStays(s.events, x, k, s.cache[k]);
    }
    forall i | 0 <= i < |events| && events[i].Served?
      ensures Backed(ttl, events, i)
    {
      if i < |s.events| {
        BackedStays(ttl, s.events, [x], i);
      } else {
        var j: nat :| LastStore(s.events, |s.events|, j, key) && Entry(s.events[j].value, s.events[j].at) == s.cache[key];
        Extend(s.events, [x], |s.events|, j, key);
      }
    }
  }

  lemma StoreKeeps<V>(ttl: V -> real, s: State<V>, now: real, x: Event<V>, after: State<V>)
    requires Invariant(ttl, s, now) && x.Stored? && now <= x.at
    requires after.cache == s.cache[x.key := Entry(x.value, x.at)] && after.events == s.events + [x]
    ensures Invariant(ttl, after, x.at)
  {
    var events, cache, key := after.events, after.cache, x.key;
    forall k | k in cache
      ensures Holds(events, k, cache[k])
    {
      if k == key {
        assert LastStore(events, |events|, |s.events|, k);
      } else {
        HoldsStays(s.events, x, k, s.cache[k]);
      }
    }
    forall i | 0 <= i < |events| && events[i].Served?
      ensures Backed(ttl, events, i)
    {
      BackedStays(ttl, s.events, [x], i);
    }
  }

  lemma {:induction false} InvariantHolds<V>(ttl: V -> real, start: real, steps: seq<Step<V>>)
    requires InOrder(start, steps)
    ensures Invariant(ttl, Run(ttl, steps), Now(start, steps))
  {
    if steps != [] {
      var init, step := steps[..|steps| - 1], steps[|steps| - 1];
      InvariantHolds(ttl, start, init);
      var s, now := Run(ttl, init), Now(start, init);
      match (step, PhaseOf(s, step.thread))
      case (Check(t, key, at), Idle) =>
        if Lookup(ttl, s.cache, key, at).Some? {
          ServeKeeps(ttl, s, now, t, key, Lookup(ttl, s.cache, key, at).value, at);
        }
      case (Put(t, at), Fetched(key, v, n)) =>
        StoreKeeps(ttl, s, now, Stored(t, key, v, at, n), Next(ttl, s, step));
      case _ =>
    }
  }

  /** Cache freshness.  In any interleaving of any number of threads, an answer
      from the cache is the value of the last store of an equal key, and that
      store is no older than the value's lifetime. */
  lemma ServedIsFresh<V>(ttl: V -> real, start: real, steps: seq<Step<V>>, i: nat)
    requires InOrder(start, steps) && i < |Run(ttl, steps).events| && Run(ttl, steps).events[i].Served?
    ensures Backed(ttl, Run(ttl, steps).events, i)
  {
    InvariantHolds(ttl, start, steps);
  }

  // ----- lifetimes

  /** A secret lives five minutes. */
  const SECRET_TTL := 300.0

  /** Integer division that drops the fraction, as the language has it. */
  function Halve(n: int): int {
    if n >= 0 then n / 2 else -((-n) / 2)
  }

  /** A token is given up a minute early, or after half of a short lease. */
  function TokenTtl(lease: int): int {
    if lease > 120 then lease - 60 else Halve(lease)
  }

  /** A secret served from the cache was stored for an equal key less than five
      minutes before. */
  lemma SecretIsFresh(start: real, steps: seq<Step<string>>, i: nat) returns (j: nat)
    requires InOrder(start, steps)
    requires i < |Run(_ => SECRET_TTL, steps).events| && Run(_ => SECRET_TTL, steps).events[i].Served?
    ensures var e := Run(_ => SECRET_TTL, steps).events;
            && j < i && e[j].Stored? && e[j].key == e[i].key && e[j].value == e[i].value
            && 0.0 <= e[i].at - e[j].at < 300.0
  {
    var ttl: string -> real := _ => SECRET_TTL;
    ServedIsFresh(ttl, start, steps, i);
    var e := Run(ttl, steps).events;
    j :| LastStore(e, i, j, e[i].key) && e[j].value == e[i].value && e[j].at <= e[i].at < e[j].at + ttl(e[j].value);
  }

  /** Whether a token of so long a lease is still served at an age. */
  ghost predicate Lives(lease: int, age: real) {
    if lease > 120 then lease as real - age > 60.0 else lease >= 2 && age < (lease / 2) as real
  }

  lemma LivesIffYounger(lease: int, age: real)
    requires age >= 0.0
    ensures age < TokenTtl(lease) as real <==> Lives(lease, age)
  {
  }

  lemma LeaseLeft(lease: int, age: real)
    requires 0.0 <= age < TokenTtl(lease) as real
    ensures lease as real - age >= if lease as real / 2.0 < 60.0 then lease as real / 2.0 else 60.0
  {
  }

  /** A token served from the cache has at least a minute of its lease left, or
      half of a lease shorter than two minutes, counted from the store. */
  lemma TokenIsFresh(start: real, steps: seq<Step<Token>>, i: nat) returns (j: nat)
    requires InOrder(start, steps)
    requires var ttl := (t: Token) => TokenTtl(t.lease) as real;
             i < |Run(ttl, steps).events| && Run(ttl, steps).events[i].Served?
    ensures var ttl := (t: Token) => TokenTtl(t.lease) as real;
            var e := Run(ttl, steps).events;
            && j < i && e[j].Stored? && e[j].key == e[i].key && e[j].value == e[i].value
            && var lease, age := e[i].value.lease as real, e[i].at - e[j].at;
               0.0 <= age && lease - age >= if lease / 2.0 < 60.0 then lease / 2.0 else 60.0
  {
    var ttl := (t: Token) => TokenTtl(t.lease) as real;
    ServedIsFresh(ttl, start, steps, i);
    var e := Run(ttl, steps).events;
    j :| LastStore(e, i, j, e[i].key) && e[j].value == e[i].value && e[j].at <= e[i].at < e[j].at + ttl(e[j].value);
    LeaseLeft(e[i].value.lease, e[i].at - e[j].at);
  }

  // ----- the order of stores

  /** Whether a thread is between its miss and its store. */
  predicate Out<V>(s: State<V>, thread: nat, key: string) {
    !PhaseOf(s, thread).Idle? && PhaseOf(s, thread).key == key
  }

  /** Whether it has its reply. */
  predicate HasReply<V>(s: State<V>, thread: nat, key: string) {
    PhaseOf(s, thread).Fetched? && PhaseOf(s, thread).key == key
  }

  function NumberOf<V>(s: State<V>, thread: nat): nat {
    if PhaseOf(s, thread).Fetched? then PhaseOf(s, thread).number else 0
  }

  ghost predicate SomeoneOut<V>(s: State<V>, key: string) {
    exists t: nat :: Out(s, t, key)
  }

  /** Two threads are out for one key. */
  ghost predicate Crowded<V>(s: State<V>, key: string) {
    exists t: nat, u: nat :: t != u && Out(s, t, key) && Out(s, u, key)
  }

  /** At no time of a run were two threads out for the key. */
  ghost predicate SingleFlight<V>(ttl: V -> real, steps: seq<Step<V>>, key: string) {
    !Crowded(Run(ttl, steps), key) && (steps != [] ==> SingleFlight(ttl, steps[..|steps| - 1], key))
  }

  /** The stores of a key come in the order in which their replies came. */
  ghost predicate InOrderOfReceipt<V>(events: seq<Event<V>>, key: string) {
    forall i, j :: 0 <= i < j < |events| && events[i].Stored? && events[j].Stored? && events[i].key == events[j].key == key ==>
      events[i].number < events[j].number
  }

  /** Numbers are given out once, and before they are stored. */
  ghost predicate Numbered<V>(s: State<V>) {
    && (forall i :: 0 <= i < |s.events| && s.events[i].Stored? ==> s.events[i].number < s.received)
    && (forall t: nat :: PhaseOf(s, t).Fetched? ==> PhaseOf(s, t).number < s.received)
    && (forall t: nat, u: nat :: t != u && PhaseOf(s, t).Fetched? && PhaseOf(s, u).Fetched? ==> PhaseOf(s, t).number != PhaseOf(s, u).number)
  }

  /** A reply not yet stored is newer than all that are. */
  ghost predicate NewerOut<V>(s: State<V>, key: string) {
    forall i, t: nat :: 0 <= i < |s.events| && s.events[i].Stored? && s.events[i].key == key && PhaseOf(s, t).Fetched? && PhaseOf(s, t).key == key ==>
      s.events[i].number < PhaseOf(s, t).number
  }

  /** A step changes the phase of its own thread only. */
  lemma OtherPhases<V>(ttl: V -> real, s: State<V>, step: Step<V>, u: nat)
    requires u != step.thread
    ensures PhaseOf(Next(ttl, s, step), u) == PhaseOf(s, u)
  {
  }

  lemma NumberedNext<V>(ttl: V -> real, s: State<V>, step: Step<V>)
    requires Numbered(s)
    ensures Numbered(Next(ttl, s, step))
  {
    var after := Next(ttl, s, step);
    forall t: nat | PhaseOf(after, t).Fetched?
      ensures PhaseOf(after, t).number < after.received
      ensures t != step.thread ==> PhaseOf(after, t) == PhaseOf(s, t)
    {
      if t != step.thread {
        OtherPhases(ttl, s, step, t);
      }
    }
  }

  lemma {:induction false} AlwaysNumbered<V>(ttl: V -> real, steps: seq<Step<V>>)
    ensures Numbered(Run(ttl, steps))
  {
    if steps != [] {
      AlwaysNumbered(ttl, steps[..|steps| - 1]);
      NumberedNext(ttl, Run(ttl, steps[..|steps| - 1]), steps[|steps| - 1]);
    }
  }

  lemma OrderNext<V>(ttl: V -> real, s: State<V>, step: Step<V>, key: string)
    requires Numbered(s) && !Crowded(s, key) && NewerOut(s, key) && InOrderOfReceipt(s.events, key)
    ensures NewerOut(Next(ttl, s, step), key) && InOrderOfReceipt(Next(ttl, s, step).events, key)
  {
    var after := Next(ttl, s, step);
    assert |after.events| > |s.events| && after.events[|s.events|].Stored? && after.events[|s.events|].key == key ==>
        Out(s, step.thread, key);
    forall i, t: nat | 0 <= i < |after.events| && after.events[i].Stored? && after.events[i].key == key &&
                       PhaseOf(after, t).Fetched? && PhaseOf(after, t).key == key
      ensures after.events[i].number < PhaseOf(after, t).number
    {
      if t != step.thread {
        OtherPhases(ttl, s, step, t);
        assert Out(s, t, key);
      }
    }
  }

  /** Single flight keeps the order.  If at most one thread at a time is out for a
      key, its replies are stored in the order in which they came. */
  lemma {:induction false} SingleFlightKeepsOrder<V>(ttl: V -> real, steps: seq<Step<V>>, key: string)
    requires SingleFlight(ttl, steps, key)
    ensures InOrderOfReceipt(Run(ttl, steps).events, key) && NewerOut(Run(ttl, steps), key)
  {
    if steps != [] {
      var init := steps[..|steps| - 1];
      SingleFlightKeepsOrder(ttl, init, key);
      AlwaysNumbered(ttl, init);
      OrderNext(ttl, Run(ttl, init), steps[|steps| - 1], key);
    }
  }

  /** A step that sends its thread out for a key. */
  ghost predicate SendsOut<V>(ttl: V -> real, s: State<V>, step: Step<V>, key: string) {
    step.Check? && step.key == key && PhaseOf(s, step.thread).Idle? && Lookup(ttl, s.cache, key, step.at).None?
  }

  /** Single flight can be kept by looking before a fetch: a run stays single flight
      if and only if nobody goes out for the key while someone is. */
  lemma SingleFlightGate<V>(ttl: V -> real, steps: seq<Step<V>>, step: Step<V>, key: string)
    requires SingleFlight(ttl, steps, key)
    ensures SingleFlight(ttl, steps + [step], key) <==>
            !(SendsOut(ttl, Run(ttl, steps), step, key) && SomeoneOut(Run(ttl, steps), key))
  {
    assert (steps + [step])[..|steps|] == steps;
    var s, after := Run(ttl, steps), Next(ttl, Run(ttl, steps), step);
    forall u: nat | u != step.thread
      ensures PhaseOf(after, u) == PhaseOf(s, u)
    {
      OtherPhases(ttl, s, step, u);
    }
    if SendsOut(ttl, s, step, key) && SomeoneOut(s, key) {
      var u: nat :| Out(s, u, key);
      assert Out(after, u, key) && Out(after, step.thread, key);
    }
    if Crowded(after, key) {
      var t: nat, u: nat :| t != u && Out(after, t, key) && Out(after, u, key);
      var other := if t == step.thread then u else t;
      assert Out(s, other, key);
      if !SendsOut(ttl, s, step, key) {
        assert Out(s, t, key) && Out(s, u, key);
      }
    }
  }

  /** Steps that send nobody out. */
  ghost predicate Drains<V>(steps: seq<Step<V>>) {
    forall i :: 0 <= i < |steps| ==> !steps[i].Check?
  }

  lemma {:induction false} DrainingStaysSingle<V>(ttl: V -> real, steps: seq<Step<V>>, more: seq<Step<V>>, key: string)
    requires SingleFlight(ttl, steps, key) && Drains(more)
    ensures SingleFlight(ttl, steps + more, key)
  {
    if more == [] {
      assert steps + more == steps;
    } else {
      var n := |more| - 1;
      DrainingStaysSingle(ttl, steps, more[..n], key);
      SingleFlightGate(ttl, steps + more[..n], more[n], key);
      assert steps + more[..n] + [more[n]] == steps + more;
    }
  }

  /** The last two events store an older reply over a newer one. */
  ghost predicate Reversed<V>(events: seq<Event<V>>, key: string) {
    var n := |events|;
    && n >= 2 && events[n - 2].Stored? && events[n - 1].Stored?
    && events[n - 2].key == events[n - 1].key == key && events[n - 1].number < events[n - 2].number
  }

  /** A run ends so, and the check that follows serves the older reply, if its
      lifetime is positive. */
  ghost predicate OlderWins<V>(ttl: V -> real, start: real, steps: seq<Step<V>>, check: Step<V>, key: string) {
    && InOrder(start, steps + [check]) && check.Check? && check.key == key
    && var events := Run(ttl, steps).events;
       && Reversed(events, key)
       && var older := events[|events| - 1].value;
          ttl(older) > 0.0 ==> Run(ttl, steps + [check]).events == events + [Served(check.thread, key, older, check.at)]
  }

  lemma OneStep<V>(ttl: V -> real, start: real, steps: seq<Step<V>>, step: Step<V>) returns (longer: seq<Step<V>>)
    requires InOrder(start, steps) && Now(start, steps) <= Time(step, Now(start, steps))
    ensures longer == steps + [step]
    ensures Run(ttl, longer) == Next(ttl, Run(ttl, steps), step)
    ensures InOrder(start, longer) && Now(start, longer) == Time(step, Now(start, steps))
  {
    hide Next, Time;
    longer := steps + [step];
    assert longer[..|longer| - 1] == steps;
  }

  /** A thread that is out gets its reply, if it has none yet. */
  lemma GetReply<V>(ttl: V -> real, start: real, steps: seq<Step<V>>, t: nat, key: string, v: V) returns (more: seq<Step<V>>)
    requires InOrder(start, steps) && Out(Run(ttl, steps), t, key)
    ensures InOrder(start, steps + more) && Drains(more) && Now(start, steps + more) == Now(start, steps)
    ensures HasReply(Run(ttl, steps + more), t, key)
    ensures forall u: nat :: u != t ==> PhaseOf(Run(ttl, steps + more), u) == PhaseOf(Run(ttl, steps), u)
  {
    hide Run, InOrder, Now;
    if PhaseOf(Run(ttl, steps), t).Fetched? {
      more := [];
      assert steps + more == steps;
    } else {
      more := [Receive(t, v)];
      var longer := OneStep(ttl, start, steps, Receive(t, v));
    }
  }

  /** Two threads with their replies store them the wrong way round, and the older
      one is then served. */
  lemma StoreReversed<V>(ttl: V -> real, start: real, steps: seq<Step<V>>, t: nat, u: nat, key: string)
      returns (more: seq<Step<V>>, check: Step<V>)
    requires InOrder(start, steps) && t != u
    requires HasReply(Run(ttl, steps), t, key) && HasReply(Run(ttl, steps), u, key)
    requires NumberOf(Run(ttl, steps), t) < NumberOf(Run(ttl, steps), u)
    ensures Drains(more) && InOrder(start, steps + more) && OlderWins(ttl, start, steps + more, check, key)
  {
    hide Run, InOrder, Now;
    var s, now := Run(ttl, steps), Now(start, steps);
    more := [Put(u, now), Put(t, now)];
    check := Check(t, key, now);
    var b := OneStep(ttl, start, steps, Put(u, now));
    b := OneStep(ttl, start, b, Put(t, now));
    assert b == steps + more;
    assert Run(ttl, b).cache[key] == Entry(PhaseOf(s, t).value, now) && PhaseOf(Run(ttl, b), t).Idle?;
    b := OneStep(ttl, start, b, check);
  }

  /** And it is needed: from any state of any run in which two threads are out for
      one key, some continuation that sends nobody else out stores the older reply
      over the newer one, and the next look-up serves it if its lifetime is
      positive. */
  lemma CrowdedCanReverse<V>(ttl: V -> real, start: real, steps: seq<Step<V>>, key: string, v: V)
      returns (more: seq<Step<V>>, check: Step<V>)
    requires InOrder(start, steps) && Crowded(Run(ttl, steps), key)
    ensures Drains(more) && InOrder(start, steps + more) && OlderWins(ttl, start, steps + more, check, key)
  {
    var t: nat, u: nat :| t != u && Out(Run(ttl, steps), t, key) && Out(Run(ttl, steps), u, key);
    hide Run, InOrder, Now, OlderWins, Out, PhaseOf, Drains, Crowded;
    var a := BothReply(ttl, start, steps, t, u, key, v);
    var b;
    if NumberOf(Run(ttl, steps + a), t) < NumberOf(Run(ttl, steps + a), u) {
      b, check := StoreReversed(ttl, start, steps + a, t, u, key);
    } else {
      b, check := StoreReversed(ttl, start, steps + a, u, t, key);
    }
    more := a + b;
    DrainsConcat(a, b);
    Reassociate(steps, a, b);
  }

  lemma Reassociate<T>(a: seq<T>, b: seq<T>, c: seq<T>)
    ensures a + b + c == a + (b + c)
  {
  }

  lemma DrainsConcat<V>(a: seq<Step<V>>, b: seq<Step<V>>)
    requires Drains(a) && Drains(b)
    ensures Drains(a + b)
  {
  }

  /** Two threads that are out both get their replies. */
  lemma BothReply<V>(ttl: V -> real, start: real, steps: seq<Step<V>>, t: nat, u: nat, key: string, v: V) returns (more: seq<Step<V>>)
    requires InOrder(start, steps) && t != u && Out(Run(ttl, steps), t, key) && Out(Run(ttl, steps), u, key)
    ensures Drains(more) && InOrder(start, steps + more)
    ensures HasReply(Run(ttl, steps + more), t, key) && HasReply(Run(ttl, steps + more), u, key)
    ensures NumberOf(Run(ttl, steps + more), t) != NumberOf(Run(ttl, steps + more), u)
  {
    hide Run, InOrder, Now, Drains;
    var a := GetReply(ttl, start, steps, t, key, v);
    var b := GetReply(ttl, start, steps + a, u, key, v);
    AlwaysNumbered(ttl, steps + a + b);
    more := a + b;
    DrainsConcat(a, b);
    Reassociate(steps, a, b);
  }

  /** So, at a miss of a run that was single flight so far, replies are bound to be
      stored in order, whatever those that are out by then do and as long as nobody
      else goes out, if and only if nobody was out for the key. */
  lemma OrderBoundIffNobodyOut<V>(ttl: V -> real, start: real, steps: seq<Step<V>>, step: Step<V>, key: string, v: V)
    requires SingleFlight(ttl, steps, key) && InOrder(start, steps + [step]) && SendsOut(ttl, Run(ttl, steps), step, key)
    ensures (forall more :: Drains(more) && InOrder(start, steps + [step] + more) ==>
               InOrderOfReceipt(Run(ttl, steps + [step] + more).events, key)) <==>
            !SomeoneOut(Run(ttl, steps), key)
  {
    hide Run, InOrder, Now, Reversed, Crowded;
    SingleFlightGate(ttl, steps, step, key);
    if SomeoneOut(Run(ttl, steps), key) {
      NowCrowded(ttl, steps, step, key);
      var more, check := CrowdedCanReverse(ttl, start, steps + [step], key, v);
      ReversedIsNotInOrder(Run(ttl, steps + [step] + more).events, key);
    } else {
      forall more | Drains(more) && InOrder(start, steps + [step] + more)
        ensures InOrderOfReceipt(Run(ttl, steps + [step] + more).events, key)
      {
        DrainingStaysSingle(ttl, steps + [step], more, key);
        SingleFlightKeepsOrder(ttl, steps + [step] + more, key);
      }
    }
  }

  lemma ReversedIsNotInOrder<V>(events: seq<Event<V>>, key: string)
    requires Reversed(events, key)
    ensures !InOrderOfReceipt(events, key)
  {
  }

  lemma NowCrowded<V>(ttl: V -> real, steps: seq<Step<V>>, step: Step<V>, key: string)
    requires SendsOut(ttl, Run(ttl, steps), step, key) && SomeoneOut(Run(ttl, steps), key)
    ensures Crowded(Run(ttl, steps + [step]), key)
  {
    assert (steps + [step])[..|steps|] == steps;
    var s := Run(ttl, steps);
    var u: nat :| Out(s, u, key);
    OtherPhases(ttl, s, step, u);
    assert Out(Next(ttl, s, step), u, key) && Out(Next(ttl, s, step), step.thread, key);
  }

  /** The shortest such run: an older reply is stored over a newer one and served
      after it. */
  lemma OlderReplyCanWin<V>(ttl: V -> real, key: string, older: V, newer: V)
    requires ttl(older) > 1.0 && ttl(newer) > 1.0
    ensures var steps := [Check(1, key, 0.0), Check(2, key, 0.0), Receive(1, older), Receive(2, newer),
                          Put(2, 0.0), Check(3, key, 1.0), Put(1, 2.0), Check(3, key, 3.0)];
            && InOrder(0.0, steps)
            && Run(ttl, steps).events ==
               [Stored(2, key, newer, 0.0, 1), Served(3, key, newer, 1.0), Stored(1, key, older, 2.0, 0), Served(3, key, older, 3.0)]
  {
    hide Run, InOrder, Now;
    var b := TwoFetchOneStores(ttl, key, older, newer);
    b := OneStep(ttl, 0.0, b, Check(3, key, 1.0));
    b := OneStep(ttl, 0.0, b, Put(1, 2.0));
    var s := Run(ttl, b);
    assert s.cache[key] == Entry(older, 2.0) && PhaseOf(s, 3) == Idle;
    b := OneStep(ttl, 0.0, b, Check(3, key, 3.0));
    assert b == [Check(1, key, 0.0), Check(2, key, 0.0), Receive(1, older), Receive(2, newer),
                 Put(2, 0.0), Check(3, key, 1.0), Put(1, 2.0), Check(3, key, 3.0)];
  }

  lemma TwoFetchOneStores<V>(ttl: V -> real, key: string, older: V, newer: V) returns (b: seq<Step<V>>)
    ensures b == [Check(1, key, 0.0), Check(2, key, 0.0), Receive(1, older), Receive(2, newer), Put(2, 0.0)]
    ensures InOrder(0.0, b) && Now(0.0, b) == 0.0
    ensures Run(ttl, b).cache == map[key := Entry(newer, 0.0)]
    ensures PhaseOf(Run(ttl, b), 1) == Fetched(key, older, 0) && PhaseOf(Run(ttl, b), 3) == Idle
    ensures Run(ttl, b).events == [Stored(2, key, newer, 0.0, 1)]
  {
    hide Run, InOrder, Now;
    NoSteps(ttl);
    b := OneStep(ttl, 0.0, [], Check(1, key, 0.0));
    b := OneStep(ttl, 0.0, b, Check(2, key, 0.0));
    assert Run(ttl, b) == State(map[], map[1 := Fetching(key), 2 := Fetching(key)], [], 0);
    b := OneStep(ttl, 0.0, b, Receive(1, older));
    b := OneStep(ttl, 0.0, b, Receive(2, newer));
    assert Run(ttl, b) == State(map[], map[1 := Fetched(key, older, 0), 2 := Fetched(key, newer, 1)], [], 2);
    b := OneStep(ttl, 0.0, b, Put(2, 0.0));
  }

  lemma NoSteps<V>(ttl: V -> real)
    ensures Run(ttl, []) == State(map[], map[], [], 0) && InOrder<V>(0.0, []) && Now<V>(0.0, []) == 0.0
  {
  }

  // ----- keys

  /** The components of a key, joined by bars. */
  function Key(parts: seq<string>): string
    requires parts != []
  {
    if |parts| == 1 then parts[0] else parts[0] + "|" + Key(parts[1..])
  }

  predicate NoBar(s: string) {
    forall k :: 0 <= k < |s| ==> s[k] != '|'
  }

  predicate NoBars(parts: seq<string>) {
    forall i :: 0 <= i < |parts| ==> NoBar(parts[i])
  }

  lemma {:induction false} SplitKey(parts: seq<string>)
    requires parts != [] && NoBars(parts)
    ensures Split(Key(parts), '|') == parts
  {
    if |parts| == 1 {
      SplitNone(parts[0], '|');
    } else {
      SplitAt(parts[0], '|', Key(parts[1..]));
      SplitKey(parts[1..]);
    }
  }

  lemma {:induction false} SplitConcat(a: string, b: string)
    ensures |Split(a + b, '|')| == |Split(a, '|')| + |Split(b, '|')| - 1
  {
    if a == "" {
      assert a + b == b;
    } else {
      assert (a + b)[1..] == a[1..] + b;
      SplitConcat(a[1..], b);
    }
  }

  lemma {:induction false} BarCount(s: string)
    ensures |Split(s, '|')| == 1 <==> NoBar(s)
  {
    if s != "" {
      BarCount(s[1..]);
      if NoBar(s) {
        assert forall k :: 0 <= k < |s[1..]| ==> s[1..][k] == s[k + 1];
      }
      if NoBar(s[1..]) && s[0] != '|' {
        assert forall k :: 0 < k < |s| ==> s[k] == s[1..][k - 1];
      }
    }
  }

  /** A key has a piece for every component, and more when components have bars. */
  lemma {:induction false} PieceCount(parts: seq<string>)
    requires parts != []
    ensures |Split(Key(parts), '|')| >= |parts|
    ensures |Split(Key(parts), '|')| == |parts| <==> NoBars(parts)
  {
    BarCount(parts[0]);
    if |parts| > 1 {
      PieceCount(parts[1..]);
      SplitConcat(parts[0], "|" + Key(parts[1..]));
      assert parts[0] + ("|" + Key(parts[1..])) == Key(parts);
      assert ("|" + Key(parts[1..]))[1..] == Key(parts[1..]);
      assert NoBars(parts) <==> NoBar(parts[0]) && NoBars(parts[1..]) by {
        assert forall i :: 0 < i < |parts| ==> parts[i] == parts[1..][i - 1];
      }
    }
  }

  /** Keys of components without bars are the keys of nothing else of the same
      number of components. */
  lemma KeyInjective(parts: seq<string>, others: seq<string>)
    requires parts != [] && |parts| == |others| && NoBars(parts) && Key(parts) == Key(others)
    ensures parts == others
  {
    PieceCount(parts);
    PieceCount(others);
    SplitKey(parts);
    SplitKey(others);
  }

  ghost predicate KeyUnique(parts: seq<string>)
    requires parts != []
  {
    forall others: seq<string> :: |others| == |parts| && Key(others) == Key(parts) ==> others == parts
  }

  lemma {:induction false} KeyReplace(parts: seq<string>, i: nat, x: string, y: string)
    requires i + 1 < |parts| && parts[i] + "|" + parts[i + 1] == x + "|" + y
    ensures Key(parts[i := x][i + 1 := y]) == Key(parts)
  {
    var others := parts[i := x][i + 1 := y];
    if i == 0 {
      if |parts| == 2 {
        assert Key(parts[1..]) == parts[1] && Key(others[1..]) == y;
      } else {
        assert others[2..] == parts[2..] && others[1..][1..] == others[2..] && parts[1..][1..] == parts[2..];
        var rest := "|" + Key(parts[2..]);
        assert Key(parts) == (parts[0] + "|" + parts[1]) + rest;
        assert Key(others) == (x + "|" + y) + rest;
      }
    } else {
      KeyReplace(parts[1..], i - 1, x, y);
      assert others[1..] == parts[1..][i - 1 := x][i := y];
    }
  }

  /** And the condition is exact: a component with a bar in it always has a
      namesake, another list of as many components with the same key. */
  lemma KeyUniqueIff(parts: seq<string>)
    requires |parts| >= 2
    ensures KeyUnique(parts) <==> NoBars(parts)
  {
    if NoBars(parts) {
      forall others: seq<string> | |others| == |parts| && Key(others) == Key(parts)
        ensures others == parts
      {
        KeyInjective(parts, others);
      }
    } else {
      var i: nat :| i < |parts| && !NoBar(parts[i]);
      var others := Namesake(parts, i);
    }
  }

  lemma Namesake(parts: seq<string>, i: nat) returns (others: seq<string>)
    requires |parts| >= 2 && i < |parts| && !NoBar(parts[i])
    ensures |others| == |parts| && Key(others) == Key(parts) && others != parts
  {
    hide Key;
    var k :| 0 <= k < |parts[i]| && parts[i][k] == '|';
    var x, y := parts[i][..k], parts[i][k + 1..];
    assert parts[i] == x + "|" + y;
    if i + 1 < |parts| {
      var z := y + "|" + parts[i + 1];
      assert parts[i] + "|" + parts[i + 1] == x + "|" + z;
      KeyReplace(parts, i, x, z);
      others := parts[i := x][i + 1 := z];
      assert |others[i]| < |parts[i]|;
    } else {
      var z := parts[i - 1] + "|" + x;
      assert parts[i - 1] + "|" + parts[i] == z + "|" + y;
      KeyReplace(parts, i - 1, z, y);
      others := parts[i - 1 := z][i := y];
      assert |others[i]| < |parts[i]|;
    }
  }

  // ----- the code

  /** A process-wide cache; each method is one section under its lock, and one step
      of the run so far. */
  class LeaseCache<V> {
    const ttl: V -> real
    var cache: map<string, Entry<V>>

    // When it was made, and what has happened to it.
    ghost const born: real
    ghost var steps: seq<Step<V>>

    ghost predicate Valid()
      reads this
    {
      InOrder(born, steps) && cache == Run(ttl, steps).cache
    }

    ghost predicate UpTo(t: real)
      reads this`steps
    {
      Now(born, steps) <= t
    }

    ghost function PhaseNow(thread: nat): Phase<V>
      reads this`steps
    {
      PhaseOf(Run(ttl, steps), thread)
    }

    constructor (ttl: V -> real, ghost born: real)
      ensures Valid() && UpTo(born) && this.ttl == ttl && cache == map[] && steps == []
    {
      this.ttl, cache, this.born, steps := ttl, map[], born, [];
    }

    method Check(key: string, clock: Clock, ghost thread: nat) returns (r: Option<V>)
      requires Valid() && UpTo(clock.now) && PhaseNow(thread).Idle?
      modifies this`steps, clock
      ensures Valid() && UpTo(clock.now) && clock.now >= old(clock.now)
      ensures steps == old(steps) + [Step.Check(thread, key, clock.now)]
      ensures r == Lookup(ttl, cache, key, clock.now)
      ensures PhaseNow(thread) == if r.Some? then Idle else Fetching(key)
    {
      hide Run, InOrder, Now;
      r := None;
      if key in cache {
        var now := clock.Read();
        if now - cache[key].storedAt < ttl(cache[key].value) {
          r := Some(cache[key].value);
        }
      }
      steps := OneStep(ttl, born, steps, Step.Check(thread, key, clock.now));
    }

    /** The reply of a fetch comes in, or it fails; outside the lock. */
    ghost method Reply(reply: Option<V>, thread: nat)
      requires Valid() && PhaseNow(thread).Fetching?
      modifies this`steps
      ensures Valid() && forall t: real :: old(UpTo(t)) ==> UpTo(t)
      ensures steps == old(steps) + [if reply.Some? then Receive(thread, reply.value) else Fail(thread)]
      ensures if reply.Some? then
                PhaseNow(thread).Fetched? && PhaseNow(thread).key == old(PhaseNow(thread)).key && PhaseNow(thread).value == reply.value
              else
                PhaseNow(thread).Idle?
    {
      hide Run, InOrder, Now;
      steps := OneStep(ttl, born, steps, if reply.Some? then Receive(thread, reply.value) else Fail(thread));
    }

    method Put(key: string, value: V, clock: Clock, ghost thread: nat)
      requires Valid() && UpTo(clock.now)
      requires PhaseNow(thread).Fetched? && PhaseNow(thread).key == key && PhaseNow(thread).value == value
      modifies this, clock
      ensures Valid() && UpTo(clock.now) && clock.now >= old(clock.now)
      ensures steps == old(steps) + [Step.Put(thread, clock.now)] && PhaseNow(thread).Idle?
      ensures cache == old(cache)[key := Entry(value, clock.now)]
    {
      hide Run, InOrder, Now;
      var now := clock.Read();
      cache := cache[key := Entry(value, now)];
      steps := OneStep(ttl, born, steps, Step.Put(thread, now));
    }
  }

  /** The steps of one call that nobody interferes with. */
  function CallSteps<V>(thread: nat, key: string, cached: bool, reply: Option<V>, checkedAt: real, storedAt: real): seq<Step<V>> {
    if cached then [Check(thread, key, checkedAt)]
    else if reply.Some? then [Check(thread, key, checkedAt), Receive(thread, reply.value), Put(thread, storedAt)]
    else [Check(thread, key, checkedAt), Fail(thread)]
  }

  lemma StoredBefore<V>(cache: LeaseCache<V>, key: string)
    requires cache.Valid() && key in cache.cache
    ensures cache.cache[key].storedAt <= Now(cache.born, cache.steps)
  {
    InvariantHolds(cache.ttl, cache.born, cache.steps);
  }

  /** The value of a key: from the cache, or else the reply of a fetch, which is then
      stored; a failed fetch stores nothing. */
  method CachedFetch<V>(cache: LeaseCache<V>, clock: Clock, key: string, reply: Option<V>, ghost thread: nat)
      returns (r: Option<V>, ghost checkedAt: real)
    requires cache.Valid() && cache.UpTo(clock.now) && cache.PhaseNow(thread).Idle?
    modifies cache, clock
    ensures cache.Valid() && cache.UpTo(clock.now) && cache.PhaseNow(thread).Idle?
    ensures old(clock.now) <= checkedAt <= clock.now
    ensures var cached := Lookup(cache.ttl, old(cache.cache), key, checkedAt);
            && r == (if cached.Some? then cached else reply)
            && cache.cache == (if cached.None? && reply.Some?
                               then old(cache.cache)[key := Entry(reply.value, clock.now)] else old(cache.cache))
            && cache.steps == old(cache.steps) + CallSteps(thread, key, cached.Some?, reply, checkedAt, clock.now)
    ensures Lookup(cache.ttl, old(cache.cache), key, checkedAt).Some? ==>
              key in old(cache.cache) && var e := old(cache.cache)[key]; 0.0 <= checkedAt - e.storedAt < cache.ttl(e.value)
    ensures key in old(cache.cache) ==> old(cache.cache)[key].storedAt <= checkedAt
  {
    hide Run, InOrder, Now;
    if key in cache.cache {
      StoredBefore(cache, key);
    }
    r := cache.Check(key, clock, thread);
    checkedAt := clock.now;
    if r.Some? {
      return;
    }
    cache.Reply(reply, thread);
    if reply.None? {
      return None, checkedAt;
    }
    cache.Put(key, reply.value, clock, thread);
    return reply, checkedAt;
  }

  /** A secret, from the cache or from the vault, which answers at every URL.  The
      key does not depend on the engine version. */
  method FetchVaultSecret(cache: LeaseCache<string>, clock: Clock, addr: string, path: string, field: string, version: int,
                          vault: string -> VaultReplies.Response, ghost thread: nat)
      returns (r: Option<string>, ghost checkedAt: real)
    requires cache.Valid() && cache.UpTo(clock.now) && cache.PhaseNow(thread).Idle?
    requires forall v :: cache.ttl(v) == 300.0
    modifies cache, clock
    ensures cache.Valid() && cache.UpTo(clock.now) && cache.PhaseNow(thread).Idle?
    ensures old(clock.now) <= checkedAt <= clock.now
    ensures var key, was := Key([addr, path, field]), old(cache.cache);
            var hit := key in was && checkedAt - was[key].storedAt < 300.0;
            && (hit ==> r == Some(was[key].value) && was[key].storedAt <= checkedAt && cache.cache == was)
            && (!hit ==> cache.cache == if r.Some? then was[key := Entry(r.value, clock.now)] else was)
            && (!hit ==> forall s :: r == Some(s) <==> HoldsSecret(vault(SecretUrl(addr, path, version)), field, version, s))
            && cache.steps == old(cache.steps) + CallSteps(thread, key, hit, r, checkedAt, clock.now)
  {
    ThreeParts(addr, path, field);
    hide Run, InOrder, Now, Key, SecretOf, SecretUrl, HoldsSecret;
    var reply := SecretOf(vault(SecretUrl(addr, path, version)), field, version);
    r, checkedAt := CachedFetch(cache, clock, addr + "|" + path + "|" + field, reply, thread);
    forall s: string {
      SecretOfIff(vault(SecretUrl(addr, path, version)), field, version, s);
    }
  }

  lemma ThreeParts(a: string, b: string, c: string)
    ensures a + "|" + b + "|" + c == Key([a, b, c])
  {
    assert [a, b, c][1..] == [b, c] && [b, c][1..] == [c];
    assert Key([c]) == c && Key([b, c]) == b + "|" + c;
    assert a + "|" + (b + "|" + c) == a + "|" + b + "|" + c;
  }

  lemma FourParts(a: string, b: string, c: string, d: string)
    ensures a + "|" + b + "|" + c + "|" + d == Key([a, b, c, d])
  {
    ThreeParts(b, c, d);
    assert [a, b, c, d][1..] == [b, c, d];
    assert a + "|" + (b + "|" + c + "|" + d) == a + "|" + b + "|" + c + "|" + d;
  }

  /** A vault token by single sign-on, from the cache or by logging in.  A complete
      configuration is needed only on a miss. */
  method VaultTokenFromJwt(cache: LeaseCache<Token>, clock: Clock, addr: string, role: string, issuer: string, clientId: string,
                           jwt: Option<string>, login: (string, string) -> VaultReplies.Response, ghost thread: nat)
      returns (r: Option<string>, ghost granted: Option<Token>, ghost checkedAt: real)
    requires cache.Valid() && cache.UpTo(clock.now) && cache.PhaseNow(thread).Idle?
    requires forall t :: cache.ttl(t) == TokenTtl(t.lease) as real
    modifies cache, clock
    ensures cache.Valid() && cache.UpTo(clock.now) && cache.PhaseNow(thread).Idle?
    ensures old(clock.now) <= checkedAt <= clock.now
    ensures var key, was := Key([addr, role, issuer, clientId]), old(cache.cache);
            var hit := key in was && Lives(was[key].value.lease, checkedAt - was[key].storedAt);
            && (hit ==> r == Some(was[key].value.text) && was[key].storedAt <= checkedAt && cache.cache == was)
            && (!hit ==> forall t :: granted == Some(t) <==> IsGranted(role, issuer, clientId, jwt, login, t))
            && (!hit ==> r == if granted.Some? then Some(granted.value.text) else None)
            && (!hit ==> cache.cache == if granted.Some? then was[key := Entry(granted.value, clock.now)] else was)
            && cache.steps == old(cache.steps) + CallSteps(thread, key, hit, granted, checkedAt, clock.now)
    ensures var key, was := Key([addr, role, issuer, clientId]), old(cache.cache);
            key in was && Lives(was[key].value.lease, checkedAt - was[key].storedAt) ==>
              var lease, age := was[key].value.lease as real, checkedAt - was[key].storedAt;
              lease - age >= if lease / 2.0 < 60.0 then lease / 2.0 else 60.0
  {
    FourParts(addr, role, issuer, clientId);
    hide Run, InOrder, Now, Key, Granted, IsGranted, TokenTtl, Lives, PhaseOf;
    ghost var before := cache.cache;
    var key := addr + "|" + role + "|" + issuer + "|" + clientId;
    granted := Granted(role, issuer, clientId, jwt, login);
    var token;
    token, checkedAt := CachedFetch(cache, clock, key, Granted(role, issuer, clientId, jwt, login), thread);
    r := if token.Some? then Some(token.value.text) else None;
    forall t: Token {
      GrantedIff(role, issuer, clientId, jwt, login, t);
    }
    if key in before {
      LivesIffYounger(before[key].value.lease, checkedAt - before[key].storedAt);
      if Lives(before[key].value.lease, checkedAt - before[key].storedAt) {
        LeaseLeft(before[key].value.lease, checkedAt - before[key].storedAt);
      }
    }
  }
}
