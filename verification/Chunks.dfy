/** The DuckDB scalar function: a chunk of rows becomes a few batches, one to a run
    of rows of equal configuration, and the results go back row by row. */
module Chunks {
  import opened Wrappers
  import opened Flattening
  import opened RaggedMaps
  import opened Leasing
  import opened Batch
  import opened Performing

  // ----- input

  datatype Column = Column(data: seq<string>, validity: Mask)

  predicate Holds(c: Column, size: nat) {
    size <= |c.data| && forall row :: 0 <= row < size ==> Covers(c.validity, row)
  }

  /** A NULL reads as an empty string. */
  function ReadVarchar(c: Column, row: nat): string
    requires row < |c.data| && Covers(c.validity, row)
  {
    if RowIsValid(c.validity, row) then c.data[row] else ""
  }

  datatype Chunk = Chunk(
    size: nat, httpMethod: Column, url: Column, headers: Column, params: Column, body: Column, contentType: Column, config: Column)

  predicate Complete(c: Chunk) {
    && Holds(c.httpMethod, c.size) && Holds(c.url, c.size) && Holds(c.headers, c.size) && Holds(c.params, c.size)
    && Holds(c.body, c.size) && Holds(c.contentType, c.size) && Holds(c.config, c.size)
  }

  datatype Row = Row(
    httpMethod: string, url: string, headers: string, params: string, body: string, contentType: string, config: string)

  function RowAt(c: Chunk, r: nat): Row
    requires Complete(c) && r < c.size
  {
    Row(ReadVarchar(c.httpMethod, r), ReadVarchar(c.url, r), ReadVarchar(c.headers, r), ReadVarchar(c.params, r),
        ReadVarchar(c.body, r), ReadVarchar(c.contentType, r), ReadVarchar(c.config, r))
  }

  function Rows(c: Chunk): (rows: seq<Row>)
    requires Complete(c)
    ensures |rows| == c.size && forall r :: 0 <= r < c.size ==> rows[r] == RowAt(c, r)
  {
    seq(c.size, r requires 0 <= r < c.size => RowAt(c, r))
  }

  /** What the adapter is told by code outside of it: the request a row makes under a
      configuration, and the headers of a result.  Configurations, headers and
      parameters that do not parse count as empty ones. */
  datatype Outside = Outside(
    build: (string, Row) -> Pending,
    requestHeaders: Result -> seq<Header>,
    responseHeaders: Result -> seq<Header>)

  datatype Error = MethodOrUrlMissing | NotPerformed

  function ConfigText(config: string): string {
    if config == "" then "{}" else config
  }

  /** What is wrong with a row, or its request. */
  datatype Prepared = Wrong(error: Error) | Right(request: Pending)

  function Prepare(o: Outside, row: Row): Prepared {
    if row.httpMethod == "" || row.url == "" then Wrong(MethodOrUrlMissing)
    else Right(o.build(ConfigText(row.config), row))
  }

  predicate AllPrepared(o: Outside, rows: seq<Row>) {
    forall r :: 0 <= r < |rows| ==> Prepare(o, rows[r]).Right?
  }

  function Requested(o: Outside, rows: seq<Row>): (s: seq<Pending>)
    requires AllPrepared(o, rows)
    ensures |s| == |rows| && forall r :: 0 <= r < |s| ==> s[r] == Prepare(o, rows[r]).request
  {
    seq(|rows|, r requires 0 <= r < |rows| => Prepare(o, rows[r]).request)
  }

  /** Nothing stands in the way of a row. */
  ghost predicate Good(core: Core, o: Outside, row: Row) {
    && Prepare(o, row).Right?
    && Prepare(o, row).request.ready
    && core.SpecsParse(Prepare(o, row).request)
  }

  ghost predicate AllGood(core: Core, o: Outside, rows: seq<Row>) {
    forall r :: 0 <= r < |rows| ==> Good(core, o, rows[r])
  }

  // ----- groups

  /** Rows from..to have the configuration of row `from`, as text. */
  predicate SameConfig(rows: seq<Row>, from: nat, to: nat) {
    from < to <= |rows| && forall r :: from <= r < to ==> rows[r].config == rows[from].config
  }

  /** And they are all the rows around them that have. */
  predicate Group(rows: seq<Row>, from: nat, to: nat) {
    && SameConfig(rows, from, to)
    && (from > 0 ==> rows[from - 1].config != rows[from].config)
    && (to < |rows| ==> rows[to].config != rows[from].config)
  }

  /** The first row of the group a row is in. */
  function GroupStart(rows: seq<Row>, r: nat): (from: nat)
    requires r < |rows|
    ensures from <= r
  {
    if r > 0 && rows[r - 1].config == rows[r].config then GroupStart(rows, r - 1) else r
  }

  lemma {:induction false} StartOfGroup(rows: seq<Row>, from: nat, to: nat, r: nat)
    requires Group(rows, from, to) && from <= r < to
    ensures GroupStart(rows, r) == from
  {
    if r > from {
      assert rows[r].config == rows[from].config && rows[r - 1].config == rows[from].config;
      StartOfGroup(rows, from, to, r - 1);
    }
  }

  // ----- one group

  /** What performing needs of the requests a chunk can make. */
  ghost predicate Fitting(core: Core, o: Outside, rows: seq<Row>, m: nat) {
    1 <= m && forall r :: 0 <= r < |rows| && Prepare(o, rows[r]).Right? ==>
      Prepare(o, rows[r]).request.settings.maxConcurrent <= m && core.GlobalRatePositive(Prepare(o, rows[r]).request)
  }

  /** Which error a group of rows ends with. */
  ghost predicate Diagnosed(core: Core, o: Outside, rows: seq<Row>, e: Error)
    requires rows != []
  {
    if AllPrepared(o, rows) then e == NotPerformed && !AllGood(core, o, rows)
    else exists k :: 0 <= k < |rows| && Prepare(o, rows[k]) == Wrong(e) && AllPrepared(o, rows[..k])
  }

  /** Whether any request of a group leaves. */
  ghost predicate AnySent(core: Core, o: Outside, rows: seq<Row>)
    requires rows != []
  {
    && AllPrepared(o, rows)
    && AllReady(Requested(o, rows))
    && AllParse(core, FirstWave(Requested(o, rows)))
  }

  lemma PreparedNext(o: Outside, rows: seq<Row>, r: nat)
    requires r < |rows| && AllPrepared(o, rows[..r]) && Prepare(o, rows[r]).Right?
    ensures AllPrepared(o, rows[..r + 1])
    ensures Requested(o, rows[..r + 1]) == Requested(o, rows[..r]) + [Prepare(o, rows[r]).request]
  {
    assert rows[..r + 1] == rows[..r] + [rows[r]];
    hide Prepare;
  }

  lemma GoodGroup(core: Core, o: Outside, rows: seq<Row>)
    requires rows != [] && AllPrepared(o, rows)
    requires forall r :: 0 <= r < |rows| ==> rows[r].config == rows[0].config
    ensures AllGood(core, o, rows) <==> AllReady(Requested(o, rows)) && AllParse(core, Requested(o, rows))
  {
    hide Core.SpecsParse, Prepare;
    var s := Requested(o, rows);
    if AllGood(core, o, rows) {
      forall r | 0 <= r < |s|
        ensures s[r].ready && core.SpecsParse(s[r])
      {
        assert Good(core, o, rows[r]);
      }
    }
    if AllReady(s) && AllParse(core, s) {
      forall r | 0 <= r < |rows|
        ensures Good(core, o, rows[r])
      {
        assert s[r].ready && core.SpecsParse(s[r]);
      }
    }
  }

  lemma FirstWaveParses(core: Core, s: seq<Pending>)
    requires AllParse(core, s)
    ensures AllParse(core, FirstWave(s))
  {
    hide Core.SpecsParse;
  }

  /** The result of row r: what the network says to the request that row makes under
      its own configuration. */
  ghost function Answer(core: Core, o: Outside, first: nat, row: Row, r: nat): Result
    requires Prepare(o, row).Right?
  {
    Got(core.network(first + r, Prepare(o, row).request))
  }

  lemma NoWaves<T>(waves: seq<seq<T>>, s: seq<T>, n: nat)
    requires InWaves(waves, s, n)
    ensures waves == [] <==> s == []
  {
    if waves != [] {
      assert Flatten(waves) == Flatten(waves[..|waves| - 1]) + waves[|waves| - 1];
      assert |waves[|waves| - 1]| >= 1;
    }
  }

  /** Queues the requests of a group, up to the first row that has something wrong. */
  method QueueRows(o: Outside, rows: seq<Row>) returns (error: Option<Error>, batch: BatchHandle)
    ensures fresh(batch)
    ensures error.None? ==> AllPrepared(o, rows) && batch.pending == Requested(o, rows)
    ensures error.Some? ==> exists k :: 0 <= k < |rows| && Prepare(o, rows[k]) == Wrong(error.value) && AllPrepared(o, rows[..k])
  {
    batch := new BatchHandle();
    for r := 0 to |rows|
      invariant AllPrepared(o, rows[..r]) && batch.pending == Requested(o, rows[..r])
    {
      var row := rows[r];
      if row.httpMethod == "" || row.url == "" {
        return Some(MethodOrUrlMissing), batch;
      }
      var added := batch.Add(row.httpMethod, row.url, o.build(ConfigText(row.config), row));
      PreparedNext(o, rows, r);
    }
    assert rows[..|rows|] == rows;
    error := None;
  }

  /** Performs one group; `gone` is how many of its requests were sent. */
  method PerformGroup(core: Core, o: Outside, rows: seq<Row>, ghost m: nat)
      returns (error: Option<Error>, answers: seq<Result>, ghost gone: nat)
    requires rows != [] && forall r :: 0 <= r < |rows| ==> rows[r].config == rows[0].config
    requires core.Valid(m) && Fitting(core, o, rows, m)
    modifies core, core.clock, core.registry, core.limiters
    ensures core.Valid(m) && core.clock.now >= old(core.clock.now)
    ensures old(core.limiters) <= core.limiters && fresh(core.limiters - old(core.limiters))
    ensures error.None? <==> AllGood(core, o, rows)
    ensures error.Some? ==> Diagnosed(core, o, rows, error.value)
    ensures gone <= |rows| && core.sent == old(core.sent) + gone && old(core.waves) <= core.waves
    ensures gone > 0 <==> AnySent(core, o, rows)
    ensures gone == 0 ==> core.waves == old(core.waves)
    ensures gone > 0 ==> InWaves(core.waves[|old(core.waves)|..], Requested(o, rows)[..gone], Concurrency(Requested(o, rows)))
    ensures error.None? ==> gone == |rows| == |answers| && AllPrepared(o, rows)
    ensures error.None? ==> forall r :: 0 <= r < |rows| ==> answers[r] == Answer(core, o, old(core.sent), rows[r], r)
  {
    hide Core.Valid, Core.SpecsParse, Core.GlobalRatePositive, Prepare, InWaves, Full, FirstWave;
    answers, gone := [], 0;
    var batch;
    error, batch := QueueRows(o, rows);
    if error.Some? {
      return error, answers, 0;
    }
    assert Concurrency(batch.pending) <= m && AllGlobalRatesPositive(core, batch.pending);
    GoodGroup(core, o, rows);
    var ok;
    ghost var before := core.waves;
    ok, gone := batch.Perform(core, m);
    if gone == 0 {
      assert batch.pending[..gone] == [];
      NoWaves(core.waves[|before|..], [], Concurrency(batch.pending));
      assert core.waves == before + core.waves[|before|..];
    }
    if !ok {
      return Some(NotPerformed), answers, gone;
    }
    FirstWaveParses(core, batch.pending);
    error, answers := None, batch.results;
  }

  // ----- the chunk

  /** A wave of `size` requests that begins at row `from` stays within the group of
      that row, and within what the first row of the group says. */
  ghost predicate WaveFits(o: Outside, rows: seq<Row>, from: nat, size: nat) {
    && size >= 1 && SameConfig(rows, from, from + size)
    && Prepare(o, rows[GroupStart(rows, from)]).Right?
    && size <= Concurrency([Prepare(o, rows[GroupStart(rows, from)]).request])
  }

  ghost predicate WavesFit(o: Outside, rows: seq<Row>, waves: seq<seq<Pending>>) {
    forall i :: 0 <= i < |waves| ==> WaveFits(o, rows, |Flatten(waves[..i])|, |waves[i]|)
  }

  /** The waves carry exactly the requests of the first n rows, in row order. */
  ghost predicate Covered(o: Outside, rows: seq<Row>, waves: seq<seq<Pending>>, n: nat) {
    && n <= |rows| && AllPrepared(o, rows[..n])
    && Flatten(waves) == Requested(o, rows[..n])
    && WavesFit(o, rows, waves)
  }

  lemma {:induction false} FlattenConcat<T>(a: seq<seq<T>>, b: seq<seq<T>>)
    ensures Flatten(a + b) == Flatten(a) + Flatten(b)
  {
    if b == [] {
      assert a + b == a;
    } else {
      var n := |b| - 1;
      FlattenConcat(a, b[..n]);
      assert (a + b)[..|a| + n] == a + b[..n];
    }
  }

  lemma WaveInside<T>(waves: seq<seq<T>>, s: seq<T>, n: nat, i: nat)
    requires InWaves(waves, s, n) && i < |waves|
    ensures |Flatten(waves[..i])| + |waves[i]| <= |s| && 1 <= |waves[i]| <= n
  {
    FlattenAppend(waves[..i], waves[i]);
    assert waves == waves[..i] + [waves[i]] + waves[i + 1..];
    FlattenConcat(waves[..i] + [waves[i]], waves[i + 1..]);
  }

  lemma RequestedConcat(o: Outside, a: seq<Row>, b: seq<Row>)
    requires AllPrepared(o, a) && AllPrepared(o, b)
    ensures AllPrepared(o, a + b) && Requested(o, a + b) == Requested(o, a) + Requested(o, b)
  {
    hide Prepare;
  }

  lemma WaveFitsGroup(o: Outside, rows: seq<Row>, from: nat, to: nat, more: seq<seq<Pending>>, gone: nat, k: nat)
    requires Group(rows, from, to) && gone <= to - from && AllPrepared(o, rows[from..to]) && k < |more|
    requires InWaves(more, Requested(o, rows[from..to])[..gone], Concurrency(Requested(o, rows[from..to])))
    ensures WaveFits(o, rows, from + |Flatten(more[..k])|, |more[k]|)
  {
    hide Prepare;
    var group := rows[from..to];
    WaveInside(more, Requested(o, group)[..gone], Concurrency(Requested(o, group)), k);
    var at := from + |Flatten(more[..k])|;
    hide Flatten, InWaves;
    StartOfGroup(rows, from, to, at);
    hide GroupStart;
    assert group[0] == rows[from];
    assert forall r :: at <= r < at + |more[k]| ==> rows[r].config == rows[from].config;
  }

  lemma CoveredNext(o: Outside, rows: seq<Row>, waves: seq<seq<Pending>>, from: nat, to: nat, more: seq<seq<Pending>>, gone: nat)
    requires Covered(o, rows, waves, from) && Group(rows, from, to) && gone <= to - from
    requires AllPrepared(o, rows[from..to])
    requires InWaves(more, Requested(o, rows[from..to])[..gone], Concurrency(Requested(o, rows[from..to])))
    ensures Covered(o, rows, waves + more, from + gone)
  {
    hide Prepare, WaveFits;
    var group, all := rows[from..to], waves + more;
    assert Flatten(more) == Requested(o, group)[..gone];
    forall i | 0 <= i < |all|
      ensures WaveFits(o, rows, |Flatten(all[..i])|, |all[i]|)
    {
      if i < |waves| {
        assert all[..i] == waves[..i];
      } else {
        var k := i - |waves|;
        assert all[..i] == waves + more[..k];
        FlattenConcat(waves, more[..k]);
        WaveFitsGroup(o, rows, from, to, more, gone, k);
      }
    }
    hide InWaves, Group;
    FlattenConcat(waves, more);
    hide Flatten;
    assert rows[..from + gone] == rows[..from] + group[..gone];
    RequestedConcat(o, rows[..from], group[..gone]);
    assert Requested(o, group[..gone]) == Requested(o, group)[..gone];
  }

  /** Row r of the output is the answer to row r of the input. */
  ghost predicate Filed(core: Core, o: Outside, first: nat, rows: seq<Row>, results: seq<Result>) {
    && |results| <= |rows| && AllPrepared(o, rows[..|results|])
    && forall r :: 0 <= r < |results| ==> results[r] == Answer(core, o, first, rows[..|results|][r], r)
  }

  lemma FiledNext(core: Core, o: Outside, first: nat, rows: seq<Row>, results: seq<Result>, to: nat, answers: seq<Result>)
    requires Filed(core, o, first, rows, results) && |results| <= to <= |rows| && |answers| == to - |results|
    requires AllPrepared(o, rows[|results|..to])
    requires forall r :: 0 <= r < |answers| ==> answers[r] == Answer(core, o, first + |results|, rows[|results|..to][r], r)
    ensures Filed(core, o, first, rows, results + answers)
  {
    hide Prepare, AllPrepared, Requested, Answer;
    var before, group, all := rows[..|results|], rows[|results|..to], results + answers;
    assert rows[..|all|] == before + group;
    FiledConcat(core, o, first, before, group, results, answers);
  }

  lemma FiledConcat(core: Core, o: Outside, first: nat, before: seq<Row>, group: seq<Row>, results: seq<Result>, answers: seq<Result>)
    requires AllPrepared(o, before) && AllPrepared(o, group) && |before| == |results| && |group| == |answers|
    requires forall r :: 0 <= r < |results| ==> results[r] == Answer(core, o, first, before[r], r)
    requires forall r :: 0 <= r < |answers| ==> answers[r] == Answer(core, o, first + |results|, group[r], r)
    ensures AllPrepared(o, before + group)
    ensures forall r :: 0 <= r < |results + answers| ==> (results + answers)[r] == Answer(core, o, first, (before + group)[r], r)
  {
    hide Prepare, Requested;
    RequestedConcat(o, before, group);
  }

  lemma GoodNext(core: Core, o: Outside, rows: seq<Row>, from: nat, to: nat)
    requires from <= to <= |rows| && AllGood(core, o, rows[..from])
    ensures AllGood(core, o, rows[..to]) <==> AllGood(core, o, rows[from..to])
  {
    hide Good;
    if AllGood(core, o, rows[from..to]) {
      forall r | 0 <= r < to
        ensures Good(core, o, rows[..to][r])
      {
        if r < from {
          assert Good(core, o, rows[..from][r]);
        } else {
          assert Good(core, o, rows[from..to][r - from]);
        }
      }
    }
    if AllGood(core, o, rows[..to]) {
      forall r | 0 <= r < to - from
        ensures Good(core, o, rows[from..to][r])
      {
        assert Good(core, o, rows[..to][from + r]);
      }
    }
  }

  lemma FittingSlice(core: Core, o: Outside, rows: seq<Row>, m: nat, from: nat, to: nat)
    requires Fitting(core, o, rows, m) && from <= to <= |rows|
    ensures Fitting(core, o, rows[from..to], m)
  {
    hide Core.GlobalRatePositive, Prepare;
  }

  lemma NothingYet(core: Core, o: Outside, first: nat, rows: seq<Row>)
    ensures Covered(o, rows, [], 0) && Filed(core, o, first, rows, []) && AllGood(core, o, rows[..0])
  {
  }

  lemma GroupBounds(rows: seq<Row>, from: nat, to: nat)
    requires Group(rows, from, to)
    ensures from < to <= |rows| && (to < |rows| ==> rows[to - 1].config != rows[to].config)
    ensures forall r :: 0 <= r < to - from ==> rows[from..to][r].config == rows[from..to][0].config
  {
  }

  lemma SentPrepared(core: Core, o: Outside, rows: seq<Row>)
    requires rows != [] && AnySent(core, o, rows)
    ensures AllPrepared(o, rows)
  {
  }

  lemma GoodPrefix(core: Core, o: Outside, rows: seq<Row>, to: nat)
    requires to <= |rows| && AllGood(core, o, rows)
    ensures AllGood(core, o, rows[..to])
  {
    hide Good;
  }

  /** The end of the group that begins at a row. */
  method FindGroup(rows: seq<Row>, row: nat) returns (groupEnd: nat)
    requires row < |rows|
    requires row > 0 ==> rows[row - 1].config != rows[row].config
    ensures Group(rows, row, groupEnd)
  {
    var config := rows[row].config;
    groupEnd := row + 1;
    while groupEnd < |rows| && rows[groupEnd].config == config
      invariant SameConfig(rows, row, groupEnd)
    {
      groupEnd := groupEnd + 1;
    }
  }

  /** Sends the group after the results so far. */
  method SendNext(core: Core, o: Outside, rows: seq<Row>, row: nat, ghost results: seq<Result>,
                  ghost ws: seq<seq<Pending>>, ghost m: nat)
      returns (error: Option<Error>, answers: seq<Result>, ghost more: seq<seq<Pending>>, ghost end: nat, ghost gone: nat)
    requires core.Valid(m) && Fitting(core, o, rows, m)
    requires row == |results| < |rows| && (row > 0 ==> rows[row - 1].config != rows[row].config)
    requires core.sent >= row && Filed(core, o, core.sent - row, rows, results) && Covered(o, rows, ws, row)
    requires AllGood(core, o, rows[..row])
    modifies core, core.clock, core.registry, core.limiters
    ensures core.Valid(m) && core.clock.now >= old(core.clock.now)
    ensures old(core.limiters) <= core.limiters && fresh(core.limiters - old(core.limiters))
    ensures core.sent == old(core.sent) + gone && core.waves == old(core.waves) + more
    ensures Covered(o, rows, ws + more, row + gone)
    ensures error.None? ==>
              && gone == |answers| > 0 && row + gone <= |rows|
              && (row + gone < |rows| ==> rows[row + gone - 1].config != rows[row + gone].config)
              && Filed(core, o, old(core.sent) - row, rows, results + answers)
              && AllGood(core, o, rows[..row + gone])
    ensures error.Some? ==>
              && Group(rows, row, end) && Diagnosed(core, o, rows[row..end], error.value)
              && (gone > 0 <==> AnySent(core, o, rows[row..end])) && !AllGood(core, o, rows)
  {
    hide Core.Valid, Prepare, Fitting, Group, Covered, Filed, Good, AllGood, AllPrepared, InWaves, AnySent, Diagnosed, Answer, Requested, Concurrency;
    var groupEnd := FindGroup(rows, row);
    GroupBounds(rows, row, groupEnd);
    FittingSlice(core, o, rows, m, row, groupEnd);
    error, answers, gone := PerformGroup(core, o, rows[row..groupEnd], m);
    end := groupEnd;
    GoodNext(core, o, rows, row, groupEnd);
    more := core.waves[|old(core.waves)|..];
    if gone > 0 {
      SentPrepared(core, o, rows[row..groupEnd]);
      CoveredNext(o, rows, ws, row, groupEnd, more, gone);
    } else {
      assert more == [] && ws + more == ws;
    }
    if error.None? {
      FiledNext(core, o, old(core.sent) - row, rows, results, groupEnd, answers);
    } else if AllGood(core, o, rows) {
      GoodPrefix(core, o, rows, groupEnd);
    }
  }

  /** Writes the answers of a group behind those of the groups before. */
  method WriteResults(output: array<Result>, row: nat, answers: seq<Result>, ghost done: seq<Result>, ghost was: seq<Result>)
    requires row == |done| && row + |answers| <= output.Length == |was|
    requires output[..] == done + was[row..]
    modifies output
    ensures output[..] == done + answers + was[|done + answers|..]
  {
    for i := 0 to |answers|
      invariant forall k :: 0 <= k < output.Length ==>
                  output[k] == if k < row then done[k] else if k < row + i then answers[k - row] else was[k]
    {
      output[row + i] := answers[i];
    }
  }

  /** Sends a chunk, group after group, and stops at the first group that fails.
      The output holds `results`, of the groups before that one; `gone` requests of
      the failing group itself had left. */
  method SendGroups(core: Core, o: Outside, rows: seq<Row>, output: array<Result>, ghost m: nat)
      returns (error: Option<Error>, results: seq<Result>, ghost end: nat, ghost gone: nat)
    requires core.Valid(m) && Fitting(core, o, rows, m) && |rows| <= output.Length
    modifies core, core.clock, core.registry, core.limiters, output
    ensures core.Valid(m) && core.clock.now >= old(core.clock.now)
    ensures old(core.limiters) <= core.limiters && fresh(core.limiters - old(core.limiters))
    ensures error.None? <==> AllGood(core, o, rows)
    ensures error.None? ==> gone == 0 && |results| == |rows|
    ensures error.Some? ==>
              && Group(rows, |results|, end)
              && Diagnosed(core, o, rows[|results|..end], error.value)
              && (gone > 0 <==> AnySent(core, o, rows[|results|..end]))
    ensures core.sent == old(core.sent) + |results| + gone && old(core.waves) <= core.waves
    ensures Covered(o, rows, core.waves[|old(core.waves)|..], |results| + gone)
    ensures Filed(core, o, old(core.sent), rows, results)
    ensures |results| <= |rows| && output[..] == results + old(output[..])[|results|..]
  {
    hide *;
    ghost var base, first, was := core.waves, core.sent, output[..];
    ghost var ws: seq<seq<Pending>> := [];
    error, results, gone, end := None, [], 0, 0;
    NothingYet(core, o, first, rows);
    while |results| < |rows|
      invariant |results| <= |rows| && error.None?
      invariant core.Valid(m) && core.clock.now >= old(core.clock.now)
      invariant old(core.limiters) <= core.limiters && fresh(core.limiters - old(core.limiters))
      invariant 0 < |results| < |rows| ==> rows[|results| - 1].config != rows[|results|].config
      invariant AllGood(core, o, rows[..|results|])
      invariant core.sent == first + |results| && core.waves == base + ws
      invariant Covered(o, rows, ws, |results|)
      invariant Filed(core, o, first, rows, results)
      invariant output[..] == results + was[|results|..]
    {
      var answers;
      ghost var more;
      error, answers, more, end, gone := SendNext(core, o, rows, |results|, results, ws, m);
      ws := ws + more;
      if error.Some? {
        assert core.waves[|base|..] == ws;
        return;
      }
      WriteResults(output, |results|, answers, results, was);
      results := results + answers;
    }
    gone := 0;
    assert rows[..|results|] == rows && core.waves[|base|..] == ws;
  }

  function HeadersOf(of: Result -> seq<Header>, results: seq<Result>): (s: seq<seq<Header>>)
    ensures |s| == |results| && forall r :: 0 <= r < |s| ==> s[r] == of(results[r])
  {
    seq(|results|, r requires 0 <= r < |results| => of(results[r]))
  }

  // ----- the output, from the columns

  /** A text is what a column says at a row: the text there, where there is no mask or
      the row's bit of it is set, and an empty one where the row is NULL. */
  ghost predicate Reads(text: string, c: Column, r: nat)
    requires r < |c.data| && Covers(c.validity, r)
  {
    if c.validity.None? || c.validity.value[r / 64] & (1 << (r % 64) as bv7) != 0 then text == c.data[r] else text == ""
  }

  /** A row has the texts of the seven columns. */
  ghost predicate Gives(row: Row, c: Chunk, r: nat)
    requires Complete(c) && r < c.size
  {
    && Reads(row.httpMethod, c.httpMethod, r) && Reads(row.url, c.url, r) && Reads(row.headers, c.headers, r)
    && Reads(row.params, c.params, r) && Reads(row.body, c.body, r) && Reads(row.contentType, c.contentType, r)
    && Reads(row.config, c.config, r)
  }

  /** The answer to row r is the network's, to request number first + r: the one that
      the row's texts make under the row's configuration, `{}` where that is empty. */
  ghost predicate AnswersRow(core: Core, o: Outside, c: Chunk, first: nat, r: nat, result: Result)
    requires Complete(c) && r < c.size
  {
    exists row: Row :: Gives(row, c, r) && row.httpMethod != "" && row.url != "" &&
      result == Got(core.network(first + r, o.build(if row.config == "" then "{}" else row.config, row)))
  }

  lemma ReadVarcharReads(c: Column, r: nat)
    requires r < |c.data| && Covers(c.validity, r)
    ensures Reads(ReadVarchar(c, r), c, r)
  {
  }

  lemma RowGives(c: Chunk, r: nat)
    requires Complete(c) && r < c.size
    ensures Gives(RowAt(c, r), c, r)
  {
    hide Reads, ReadVarchar;
    ReadVarcharReads(c.httpMethod, r);
    ReadVarcharReads(c.url, r);
    ReadVarcharReads(c.headers, r);
    ReadVarcharReads(c.params, r);
    ReadVarcharReads(c.body, r);
    ReadVarcharReads(c.contentType, r);
    ReadVarcharReads(c.config, r);
  }

  lemma FiledAnswersRows(core: Core, o: Outside, c: Chunk, first: nat, results: seq<Result>)
    requires Complete(c) && |results| == c.size && Filed(core, o, first, Rows(c), results)
    ensures forall r :: 0 <= r < c.size ==> AnswersRow(core, o, c, first, r, results[r])
  {
    hide Gives, RowAt, Complete;
    forall r | 0 <= r < c.size
      ensures AnswersRow(core, o, c, first, r, results[r])
    {
      RowGives(c, r);
      assert Rows(c)[..c.size] == Rows(c);
      assert results[r] == Answer(core, o, first, RowAt(c, r), r);
    }
  }

  /** What stands in the way of a row. */
  lemma GoodIff(core: Core, o: Outside, row: Row)
    ensures Good(core, o, row) <==>
            && row.httpMethod != "" && row.url != ""
            && var p := o.build(if row.config == "" then "{}" else row.config, row); p.ready && core.SpecsParse(p)
  {
    hide Core.SpecsParse;
  }

  /** The scalar function.  Batching is invisible in the output: row r holds the
      answer to the request row r makes under its own configuration, and its maps
      read back as that answer's headers.  On an error the maps are not written. */
  method RawRequest(core: Core, o: Outside, c: Chunk, output: array<Result>, req: MapVector, resp: MapVector, ghost m: nat)
      returns (error: Option<Error>, ghost rows: seq<Row>)
    requires Complete(c) && core.Valid(m) && Fitting(core, o, Rows(c), m)
    requires req.Valid() && resp.Valid() && Apart(req, resp) && req != resp
    requires c.size <= output.Length && c.size <= req.entries.Length && c.size <= resp.entries.Length
    modifies core, core.clock, core.registry, core.limiters, output
    modifies req, req.entries, req.keys, req.values, resp, resp.entries, resp.keys, resp.values
    ensures core.Valid(m) && rows == Rows(c)
    ensures error.None? <==> AllGood(core, o, rows)
    ensures error.None? ==> core.sent == old(core.sent) + |rows| && Filed(core, o, old(core.sent), rows, output[..|rows|])
    ensures error.None? ==> forall r :: 0 <= r < c.size ==> AnswersRow(core, o, c, old(core.sent), r, output[r])
    ensures error.None? && rows != [] ==> Shown(o.requestHeaders, output[..|rows|], req) && Shown(o.responseHeaders, output[..|rows|], resp)
    ensures error.Some? ==>
              && unchanged(req, old(req.entries), old(req.keys), old(req.values))
              && unchanged(resp, old(resp.entries), old(resp.keys), old(resp.values))
  {
    hide Core.Valid, Fitting, AllGood, Complete, Filed, Apart, Covered, Flatten, Shown, Rows, Diagnosed, AnySent, Group, AnswersRow;
    error, rows := None, Rows(c);
    if c.size == 0 {
      NothingGood(core, o, rows);
      assert output[..0] == [];
      return;
    }
    var results;
    ghost var end, gone;
    error, results, end, gone := SendGroups(core, o, Rows(c), output, m);
    if error.Some? {
      return;
    }
    assert output[..c.size] == results;
    FiledAnswersRows(core, o, c, old(core.sent), results);
    assert forall r :: 0 <= r < c.size ==> output[r] == results[r];
    WriteHeaders(req, resp, HeadersOf(o.requestHeaders, results), HeadersOf(o.responseHeaders, results));
    ShownWhenWritten(o.requestHeaders, results, req);
    ShownWhenWritten(o.responseHeaders, results, resp);
  }

  lemma NothingGood(core: Core, o: Outside, rows: seq<Row>)
    requires rows == []
    ensures AllGood(core, o, rows) && Filed(core, o, core.sent, rows, [])
  {
  }

  /** Every row of a map column reads as the headers of the row's result. */
  ghost predicate Shown(of: Result -> seq<Header>, results: seq<Result>, v: MapVector)
    reads v, v.entries, v.keys, v.values
  {
    && v.Aligned() && |results| <= v.entries.Length
    && forall r :: 0 <= r < |results| ==>
         v.entries[r].offset + v.entries[r].length <= v.keys.Length && v.RowPairs(r) == of(results[r])
  }

  lemma ShownWhenWritten(of: Result -> seq<Header>, results: seq<Result>, v: MapVector)
    requires v.Aligned() && v.Written(HeadersOf(of, results), |results|)
    ensures Shown(of, results, v)
  {
    forall r | 0 <= r < |results|
      ensures v.entries[r].offset + v.entries[r].length <= v.keys.Length && v.RowPairs(r) == of(results[r])
    {
      v.RowsReadBack(HeadersOf(of, results), |results|, r);
    }
  }
}
