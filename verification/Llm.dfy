/** A logical LLM call: complete, continuing while the model stops on length, and
    with a schema retry with the errors as correction. */
module Llm {
  import opened Wrappers

  datatype Message = Message(role: string, content: string)

  datatype Usage = Usage(prompt: int, completion: int, total: int)

  /** One round-trip.  It can fail outright (a status other than 200, a body that
      is no JSON), or answer; an answer without choices fails when its content is
      taken. */
  datatype Reply =
    | Failure
    | Answer(choice: Option<Choice>, usage: Option<Usage>, model: Option<string>, elapsed: real)

  datatype Choice = Choice(content: string, finishReason: string)

  /** What parsing and validating a completed text comes to. */
  datatype Verdict = Accept | SchemaReject(errors: string) | ParseReject(what: string)

  const LENGTH := "length"
  const CONTINUE := Message("user", "Continue exactly where you left off.")

  predicate Usable(r: Reply) {
    r.Answer? && r.choice.Some?
  }

  function Content(r: Reply): string
    requires Usable(r)
  {
    r.choice.value.content
  }

  predicate Truncated(r: Reply) {
    Usable(r) && r.choice.value.finishReason == "length"
  }

  function Clip(errors: string): string {
    if |errors| > 2000 then errors[..2000] + "..." else errors
  }

  function Correction(v: Verdict): Message
    requires v != Accept
  {
    match v
    case SchemaReject(errors) =>
      Message("user", "Validation errors:\n" + Clip(errors) + "\nFix the errors and try again.")
    case ParseReject(what) =>
      Message("user", "Invalid JSON: " + what + "\nReturn valid JSON matching the schema.")
  }

  /** The endpoint: its n-th reply is script(n).  It keeps the message lists of the
      requests it got, and the schema each forced on the model as a tool, if any. */
  class Endpoint {
    const script: nat -> Reply
    var log: seq<seq<Message>>
    var tools: seq<Option<string>>

    constructor (script: nat -> Reply)
      ensures this.script == script && log == [] && tools == []
    {
      this.script, log, tools := script, [], [];
    }

    method Post(messages: seq<Message>, tool: Option<string>) returns (r: Reply)
      modifies this
      ensures log == old(log) + [messages] && tools == old(tools) + [tool]
      ensures r == script(|old(log)|)
    {
      r := script(|log|);
      log := log + [messages];
      tools := tools + [tool];
    }
  }

  /** n more entries, all the same. */
  ghost predicate Repeated<T>(before: seq<T>, after: seq<T>, x: T, n: int) {
    before <= after && |after| == |before| + n && forall i :: |before| <= i < |after| ==> after[i] == x
  }

  lemma RepeatedNone<T>(before: seq<T>, x: T)
    ensures Repeated(before, before, x, 0)
  {
  }

  lemma RepeatedNext<T>(before: seq<T>, after: seq<T>, x: T, n: int)
    requires Repeated(before, after, x, n)
    ensures Repeated(before, after + [x], x, n + 1)
  {
  }

  /** What the answers add up to: how many, tokens, time, and the last model named. */
  datatype Sums = Sums(answers: nat, prompt: int, completion: int, total: int, elapsed: real, model: string)

  function Accumulated(t: Sums, r: Reply): Sums {
    match r
    case Failure => t
    case Answer(_, usage, model, elapsed) =>
      var u := if usage.Some? then usage.value else Usage(0, 0, 0);
      Sums(t.answers + 1, t.prompt + u.prompt, t.completion + u.completion, t.total + u.total,
             t.elapsed + elapsed, if model.Some? then model.value else t.model)
  }

  /** The totals of n replies, from number `first` on. */
  function TotalsOf(script: nat -> Reply, first: nat, n: nat): Sums {
    if n == 0 then Sums(0, 0, 0, 0, 0.0, "") else Accumulated(TotalsOf(script, first, n - 1), script(first + n - 1))
  }

  class LlmStats {
    var httpRequests: nat
    var continuations: nat
    var retries: nat
    var promptTokens: int
    var completionTokens: int
    var totalTokens: int
    var elapsedSeconds: real
    var model: string
    var finishReason: string

    ghost function Totals(): Sums
      reads this`httpRequests, this`promptTokens, this`completionTokens, this`totalTokens, this`elapsedSeconds, this`model
    {
      Sums(httpRequests, promptTokens, completionTokens, totalTokens, elapsedSeconds, model)
    }

    constructor ()
      ensures httpRequests == continuations == retries == 0
      ensures Totals() == Sums(0, 0, 0, 0, 0.0, "") && finishReason == ""
    {
      httpRequests, continuations, retries := 0, 0, 0;
      promptTokens, completionTokens, totalTokens := 0, 0, 0;
      elapsedSeconds, model, finishReason := 0.0, "", "";
    }

    method AccumulateUsage(r: Reply)
      requires r.Answer?
      modifies this`httpRequests, this`elapsedSeconds, this`promptTokens, this`completionTokens, this`totalTokens, this`model
      ensures Totals() == Accumulated(old(Totals()), r)
      ensures httpRequests == old(httpRequests) + 1 && elapsedSeconds == old(elapsedSeconds) + r.elapsed
      ensures r.usage.Some? ==>
                && promptTokens == old(promptTokens) + r.usage.value.prompt
                && completionTokens == old(completionTokens) + r.usage.value.completion
                && totalTokens == old(totalTokens) + r.usage.value.total
      ensures r.usage.None? ==> promptTokens == old(promptTokens) && completionTokens == old(completionTokens) && totalTokens == old(totalTokens)
      ensures model == if r.model.Some? then r.model.value else old(model)
    {
      httpRequests := httpRequests + 1;
      elapsedSeconds := elapsedSeconds + r.elapsed;
      if r.usage.Some? {
        promptTokens := promptTokens + r.usage.value.prompt;
        completionTokens := completionTokens + r.usage.value.completion;
        totalTokens := totalTokens + r.usage.value.total;
      }
      if r.model.Some? {
        model := r.model.value;
      }
    }
  }

  // ----- one attempt

  /** How an attempt ended: finished, at the continuation limit, or by a failed
      request. */
  datatype End = Finished | AtLimit | Broken

  /** An attempt: the contents it received, in order, and how it ended. */
  datatype Attempt = Attempt(chunks: seq<string>, end: End)

  function Joined(chunks: seq<string>): string {
    if chunks == [] then "" else Joined(chunks[..|chunks| - 1]) + chunks[|chunks| - 1]
  }

  /** The turns that k truncated contents add: after each, everything so far as an
      assistant turn, and the request to continue. */
  function Turns(chunks: seq<string>): seq<Message> {
    if chunks == [] then [] else
      Turns(chunks[..|chunks| - 1]) + [Message("assistant", Joined(chunks)), CONTINUE]
  }

  /** The number of requests of an attempt. */
  function Posts(a: Attempt): nat {
    |a.chunks| + if a.end == Broken then 1 else 0
  }

  /** The requests of an attempt on some messages. */
  function Requests(messages: seq<Message>, a: Attempt): (r: seq<seq<Message>>)
    ensures |r| == Posts(a)
  {
    seq(Posts(a), k requires 0 <= k < Posts(a) => messages + Turns(a.chunks[..k]))
  }

  /** The replies to n requests, from number `first` on. */
  ghost function Replies(script: nat -> Reply, first: nat, n: nat): seq<Reply> {
    seq(n, k requires 0 <= k < n => script(first + k))
  }

  function NonNegative(n: int): nat {
    if n < 0 then 0 else n
  }

  /** An attempt is what its replies make of it: contents truncated on length until
      one that is not, or until the limit, or until a request fails. */
  ghost predicate Happened(replies: seq<Reply>, limit: int, a: Attempt) {
    var n := |a.chunks|;
    && |replies| == Posts(a)
    && (forall k :: 0 <= k < n ==> Usable(replies[k]) && Content(replies[k]) == a.chunks[k])
    && (forall k :: 0 <= k < n - 1 ==> Truncated(replies[k]))
    && match a.end
       case Finished => 0 < n <= limit && !Truncated(replies[n - 1])
       case AtLimit => n == NonNegative(limit) && (n > 0 ==> Truncated(replies[n - 1]))
       case Broken => n < limit && !Usable(replies[n]) && (n > 0 ==> Truncated(replies[n - 1]))
  }

  /** Every one of these replies was truncated on length. */
  ghost predicate AllTruncated(replies: seq<Reply>, chunks: seq<string>) {
    && |replies| == |chunks|
    && forall k :: 0 <= k < |chunks| ==> Truncated(replies[k]) && Content(replies[k]) == chunks[k]
  }

  lemma ReplyAfter(replies: seq<Reply>, chunks: seq<string>, r: Reply, limit: int)
    requires AllTruncated(replies, chunks) && |chunks| < limit
    ensures !Usable(r) ==> Happened(replies + [r], limit, Attempt(chunks, Broken))
    ensures Usable(r) && !Truncated(r) ==> Happened(replies + [r], limit, Attempt(chunks + [Content(r)], Finished))
    ensures Truncated(r) ==> AllTruncated(replies + [r], chunks + [Content(r)])
  {
  }

  lemma NextReply(script: nat -> Reply, first: nat, n: nat)
    ensures Replies(script, first, n + 1) == Replies(script, first, n) + [script(first + n)]
  {
  }

  lemma OneMoreChunk(messages: seq<Message>, chunks: seq<string>, chunk: string, e: End)
    requires e != Broken
    ensures Requests(messages, Attempt(chunks, Broken)) ==
            Requests(messages, Attempt(chunks, AtLimit)) + [messages + Turns(chunks)]
    ensures Requests(messages, Attempt(chunks + [chunk], e)) == Requests(messages, Attempt(chunks, Broken))
    ensures Joined(chunks + [chunk]) == Joined(chunks) + chunk
    ensures Turns(chunks + [chunk]) == Turns(chunks) + [Message("assistant", Joined(chunks + [chunk])), CONTINUE]
  {
    assert chunks[..|chunks|] == chunks;
    assert (chunks + [chunk])[..|chunks|] == chunks;
    forall k | 0 <= k <= |chunks|
      ensures (chunks + [chunk])[..k] == chunks[..k]
    {
    }
  }

  /** One round-trip, and its place in the statistics if it answers. */
  method PostAndCount(endpoint: Endpoint, stats: LlmStats, messages: seq<Message>, tool: Option<string>, ghost base: nat)
      returns (r: Reply)
    requires base <= |endpoint.log| && stats.Totals() == TotalsOf(endpoint.script, base, |endpoint.log| - base)
    modifies endpoint, stats
    ensures endpoint.tools == old(endpoint.tools) + [tool]
    ensures endpoint.log == old(endpoint.log) + [messages] && r == endpoint.script(|old(endpoint.log)|)
    ensures stats.Totals() == TotalsOf(endpoint.script, base, |endpoint.log| - base)
    ensures stats.httpRequests == old(stats.httpRequests) + if r.Answer? then 1 else 0
    ensures stats.retries == old(stats.retries) && stats.continuations == old(stats.continuations)
    ensures stats.finishReason == old(stats.finishReason)
  {
    r := endpoint.Post(messages, tool);
    if r.Answer? {
      stats.AccumulateUsage(r);
    }
  }

  datatype Completion = Complete(content: string) | Incomplete | Threw

  /** Completes, continuing while truncated.  `messages` is the caller's list; the
      continuation turns go onto a copy. */
  method DoComplete(endpoint: Endpoint, stats: LlmStats, messages: seq<Message>, tool: Option<string>, maxContinuations: int,
                    ghost base: nat)
      returns (out: Completion, ghost a: Attempt)
    requires base <= |endpoint.log| && stats.Totals() == TotalsOf(endpoint.script, base, |endpoint.log| - base)
    modifies endpoint, stats
    ensures Happened(Replies(endpoint.script, |old(endpoint.log)|, Posts(a)), maxContinuations, a)
    ensures endpoint.log == old(endpoint.log) + Requests(messages, a)
    ensures Repeated(old(endpoint.tools), endpoint.tools, tool, |endpoint.log| - |old(endpoint.log)|)
    ensures stats.Totals() == TotalsOf(endpoint.script, base, |endpoint.log| - base)
    ensures out.Complete? ==> FinishedBy(stats, endpoint)
    ensures a.end == Finished <==> out.Complete?
    ensures a.end == AtLimit <==> out.Incomplete?
    ensures out.Complete? ==> out.content == Joined(a.chunks)
    ensures stats.retries == old(stats.retries)
    ensures a.end != Broken ==> stats.httpRequests == old(stats.httpRequests) + Posts(a)
    ensures out.Complete? ==> stats.continuations == old(stats.continuations) + |a.chunks| - 1
  {
    hide Requests, Turns, Joined, Replies, AllTruncated, Happened, TotalsOf, LlmStats.Totals, Accumulated, Repeated;
    RepeatedNone(endpoint.tools, tool);
    ghost var first, log := |endpoint.log|, endpoint.log;
    ghost var chunks: seq<string> := [];
    NoChunks(endpoint.script, first, messages);
    var body := messages;
    var accumulated := "";
    var cont := 0;
    while cont < maxContinuations
      invariant 0 <= cont <= NonNegative(maxContinuations) && |chunks| == cont
      invariant accumulated == Joined(chunks)
      invariant body == messages + Turns(chunks)
      invariant AllTruncated(Replies(endpoint.script, first, cont), chunks)
      invariant endpoint.log == log + Requests(messages, Attempt(chunks, AtLimit))
      invariant Repeated(old(endpoint.tools), endpoint.tools, tool, |endpoint.log| - |log|)
      invariant stats.retries == old(stats.retries)
      invariant stats.Totals() == TotalsOf(endpoint.script, base, |endpoint.log| - base)
      invariant stats.httpRequests == old(stats.httpRequests) + cont
      invariant stats.continuations == old(stats.continuations) + cont
    {
      RepeatedNext(old(endpoint.tools), endpoint.tools, tool, |endpoint.log| - |log|);
      var r := PostAndCount(endpoint, stats, body, tool, base);
      NextReply(endpoint.script, first, cont);
      ReplyAfter(Replies(endpoint.script, first, cont), chunks, r, maxContinuations);
      ghost var content := if Usable(r) then Content(r) else "";
      OneMoreChunk(messages, chunks, content, AtLimit);
      OneMoreChunk(messages, chunks, content, Finished);
      if !r.Answer? {
        return Threw, Attempt(chunks, Broken);
      }
      if r.choice.None? {
        return Threw, Attempt(chunks, Broken);
      }
      accumulated := accumulated + r.choice.value.content;
      chunks := chunks + [content];
      if r.choice.value.finishReason != LENGTH {
        stats.finishReason := r.choice.value.finishReason;
        return Complete(accumulated), Attempt(chunks, Finished);
      }
      stats.continuations := stats.continuations + 1;
      body := body + [Message("assistant", accumulated)];
      body := body + [CONTINUE];
      cont := cont + 1;
    }
    LimitReached(Replies(endpoint.script, first, cont), chunks, maxContinuations);
    return Incomplete, Attempt(chunks, AtLimit);
  }

  lemma NoChunks(script: nat -> Reply, first: nat, messages: seq<Message>)
    ensures Requests(messages, Attempt([], AtLimit)) == [] && Turns([]) == [] && Joined([]) == ""
    ensures AllTruncated(Replies(script, first, 0), [])
  {
  }

  lemma LimitReached(replies: seq<Reply>, chunks: seq<string>, limit: int)
    requires AllTruncated(replies, chunks) && |chunks| == NonNegative(limit)
    ensures Happened(replies, limit, Attempt(chunks, AtLimit))
  {
  }

  // ----- the whole call

  /** The correction turns after an attempt whose text was rejected. */
  function CorrectionTurns(verdict: string -> Verdict, a: Attempt): seq<Message> {
    var content := Joined(a.chunks);
    if verdict(content) == Accept then []
    else [Message("assistant", content), Correction(verdict(content))]
  }

  function Corrections(verdict: string -> Verdict, attempts: seq<Attempt>): seq<Message> {
    if attempts == [] then [] else
      var n := |attempts| - 1;
      Corrections(verdict, attempts[..n]) + CorrectionTurns(verdict, attempts[n])
  }

  function TotalPosts(attempts: seq<Attempt>): nat {
    if attempts == [] then 0 else TotalPosts(attempts[..|attempts| - 1]) + Posts(attempts[|attempts| - 1])
  }

  /** All the requests of a call, in order. */
  function RunLog(messages: seq<Message>, verdict: string -> Verdict, attempts: seq<Attempt>): (log: seq<seq<Message>>)
    ensures |log| == TotalPosts(attempts)
  {
    if attempts == [] then [] else
      var n := |attempts| - 1;
      RunLog(messages, verdict, attempts[..n]) +
      Requests(messages + Corrections(verdict, attempts[..n]), attempts[n])
  }

  predicate Rejected(verdict: string -> Verdict, a: Attempt) {
    a.end == Finished && verdict(Joined(a.chunks)) != Accept
  }

  /** A call is a sequence of attempts, each what its replies made of it, each but
      perhaps the last finished and rejected. */
  ghost predicate RunHappened(script: nat -> Reply, first: nat, limit: int, verdict: string -> Verdict, attempts: seq<Attempt>) {
    attempts != [] ==>
      var n := |attempts| - 1;
      && AllRejected(verdict, attempts[..n])
      && RunHappened(script, first, limit, verdict, attempts[..n])
      && Happened(Replies(script, first + TotalPosts(attempts[..n]), Posts(attempts[n])), limit, attempts[n])
  }

  ghost predicate AllRejected(verdict: string -> Verdict, attempts: seq<Attempt>) {
    forall r :: 0 <= r < |attempts| ==> Rejected(verdict, attempts[r])
  }

  lemma OneMoreAttempt(messages: seq<Message>, script: nat -> Reply, first: nat, limit: int, verdict: string -> Verdict,
                       attempts: seq<Attempt>, a: Attempt)
    requires AllRejected(verdict, attempts) && RunHappened(script, first, limit, verdict, attempts)
    requires Happened(Replies(script, first + TotalPosts(attempts), Posts(a)), limit, a)
    ensures RunHappened(script, first, limit, verdict, attempts + [a])
    ensures TotalPosts(attempts + [a]) == TotalPosts(attempts) + Posts(a)
    ensures RunLog(messages, verdict, attempts + [a]) ==
            RunLog(messages, verdict, attempts) + Requests(messages + Corrections(verdict, attempts), a)
    ensures Corrections(verdict, attempts + [a]) == Corrections(verdict, attempts) + CorrectionTurns(verdict, a)
    ensures Rejected(verdict, a) ==> AllRejected(verdict, attempts + [a])
  {
    hide Happened, Requests, Posts;
    assert (attempts + [a])[..|attempts|] == attempts;
  }

  lemma NoAttempts(messages: seq<Message>, script: nat -> Reply, first: nat, limit: int, verdict: string -> Verdict)
    ensures AllRejected(verdict, []) && RunHappened(script, first, limit, verdict, [])
    ensures RunLog(messages, verdict, []) == [] && Corrections(verdict, []) == [] && TotalPosts([]) == 0
  {
  }

  datatype Outcome = SchemaInvalid | Success(content: string) | ContinuationLimit | RequestFailed | SchemaFailed

  /** How a call ends, given its attempts. */
  ghost predicate Ends(out: Outcome, useSchema: bool, verdict: string -> Verdict, maxRetries: int, attempts: seq<Attempt>) {
    match out
    case SchemaInvalid => useSchema && attempts == []
    case SchemaFailed => useSchema && |attempts| == NonNegative(maxRetries) && AllRejected(verdict, attempts)
    case Success(content) =>
      && attempts != []
      && var a := attempts[|attempts| - 1];
         a.end == Finished && content == Joined(a.chunks) && (useSchema ==> verdict(content) == Accept)
    case ContinuationLimit => attempts != [] && attempts[|attempts| - 1].end == AtLimit
    case RequestFailed => attempts != [] && attempts[|attempts| - 1].end == Broken
  }

  /** A logical call: one attempt, or with a schema as many as it takes, and all it
      did. */
  method LlmCompleteLoop(endpoint: Endpoint, messages: seq<Message>, schema: string, compiles: string -> bool,
                         verdict: string -> Verdict, maxContinuations: int, maxRetries: int)
      returns (out: Outcome, stats: LlmStats, ghost useSchema: bool, ghost attempts: seq<Attempt>)
    modifies endpoint
    ensures fresh(stats) && useSchema == (schema != "")
    ensures out.SchemaInvalid? <==> useSchema && !compiles(schema)
    ensures Repeated(old(endpoint.tools), endpoint.tools, if useSchema then Some(schema) else None,
                     |endpoint.log| - |old(endpoint.log)|)
    ensures RunHappened(endpoint.script, |old(endpoint.log)|, maxContinuations, verdict, attempts)
    ensures endpoint.log == old(endpoint.log) + RunLog(messages, verdict, attempts)
    ensures if useSchema then |attempts| <= NonNegative(maxRetries) else |attempts| == 1
    ensures Ends(out, useSchema, verdict, maxRetries, attempts)
    ensures |endpoint.log| - |old(endpoint.log)| <= (if useSchema then NonNegative(maxRetries) else 1) * NonNegative(maxContinuations)
    ensures stats.Totals() == TotalsOf(endpoint.script, |old(endpoint.log)|, |endpoint.log| - |old(endpoint.log)|)
    ensures out.Success? ==>
              && stats.httpRequests == |endpoint.log| - |old(endpoint.log)| == stats.continuations + stats.retries + 1
              && stats.retries == |attempts| - 1
              && (if useSchema then stats.retries < maxRetries && verdict(out.content) == Accept else stats.retries == 0)
              && FinishedBy(stats, endpoint)
  {
    hide RunHappened, RunLog, TotalPosts, TotalsOf, LlmStats.Totals, FinishedBy;
    ghost var first := |endpoint.log|;
    stats := new LlmStats();
    NoTotals(endpoint.script, first);
    useSchema := schema != "";
    if schema != "" && !compiles(schema) {
      NoAttempts(messages, endpoint.script, first, maxContinuations, verdict);
      out, attempts := SchemaInvalid, [];
    } else {
      var tool := if schema != "" then Some(schema) else None;
      out, attempts := RunAttempts(endpoint, stats, messages, tool, verdict, maxContinuations, maxRetries);
    }
    Accounting(endpoint.script, first, maxContinuations, verdict, attempts, useSchema, maxRetries, out);
  }

  /** The finish reason is that of the last reply, and not that of a truncated one. */
  ghost predicate FinishedBy(stats: LlmStats, endpoint: Endpoint)
    reads stats`finishReason, endpoint
  {
    |endpoint.log| > 0 &&
    var last := endpoint.script(|endpoint.log| - 1);
    Usable(last) && stats.finishReason == last.choice.value.finishReason != LENGTH
  }

  method RunAttempts(endpoint: Endpoint, stats: LlmStats, messages: seq<Message>, tool: Option<string>, verdict: string -> Verdict,
                     maxContinuations: int, maxRetries: int)
      returns (out: Outcome, ghost attempts: seq<Attempt>)
    requires stats.httpRequests == stats.continuations == stats.retries == 0
    requires stats.Totals() == TotalsOf(endpoint.script, |endpoint.log|, 0)
    modifies endpoint, stats
    ensures RunHappened(endpoint.script, |old(endpoint.log)|, maxContinuations, verdict, attempts)
    ensures endpoint.log == old(endpoint.log) + RunLog(messages, verdict, attempts)
    ensures if tool.Some? then |attempts| <= NonNegative(maxRetries) else |attempts| == 1
    ensures Ends(out, tool.Some?, verdict, maxRetries, attempts)
    ensures !out.SchemaInvalid?
    ensures Repeated(old(endpoint.tools), endpoint.tools, tool, |endpoint.log| - |old(endpoint.log)|)
    ensures stats.Totals() == TotalsOf(endpoint.script, |old(endpoint.log)|, |endpoint.log| - |old(endpoint.log)|)
    ensures out.Success? ==>
              && stats.httpRequests == TotalPosts(attempts)
              && stats.retries == |attempts| - 1
              && stats.continuations == TotalPosts(attempts) - |attempts|
              && FinishedBy(stats, endpoint)
  {
    hide Happened, Requests, Corrections, CorrectionTurns, RunLog, RunHappened, TotalPosts, AllRejected, Joined, Correction, TotalsOf, LlmStats.Totals, FinishedBy;
    ghost var first := |endpoint.log|;
    ghost var log := endpoint.log;
    attempts := [];
    NoAttempts(messages, endpoint.script, first, maxContinuations, verdict);
    var body := messages;
    if tool.None? {
      var c;
      ghost var a;
      c, a := DoComplete(endpoint, stats, body, tool, maxContinuations, first);
      OneMoreAttempt(messages, endpoint.script, first, maxContinuations, verdict, [], a);
      attempts := [] + [a];
      assert messages + [] == messages;
      return ResultOf(c), attempts;
    }
    var attempt := 0;
    while attempt < maxRetries
      invariant 0 <= attempt <= NonNegative(maxRetries) && |attempts| == attempt
      invariant AllRejected(verdict, attempts)
      invariant RunHappened(endpoint.script, first, maxContinuations, verdict, attempts)
      invariant endpoint.log == log + RunLog(messages, verdict, attempts)
      invariant Repeated(old(endpoint.tools), endpoint.tools, tool, |endpoint.log| - |log|)
      invariant stats.Totals() == TotalsOf(endpoint.script, first, |endpoint.log| - first)
      invariant body == messages + Corrections(verdict, attempts)
      invariant stats.httpRequests == TotalPosts(attempts)
      invariant stats.retries == attempt
      invariant stats.continuations == TotalPosts(attempts) - attempt
    {
      var attemptBody := body;
      var c;
      ghost var a;
      c, a := DoComplete(endpoint, stats, attemptBody, tool, maxContinuations, first);
      OneMoreAttempt(messages, endpoint.script, first, maxContinuations, verdict, attempts, a);
      assert CorrectionTurns(verdict, a) == if verdict(Joined(a.chunks)) == Accept then [] else [Message("assistant", Joined(a.chunks)), Correction(verdict(Joined(a.chunks)))] by {
        CorrectionTurnsAre(verdict, a);
      }
      attempts := attempts + [a];
      if !c.Complete? {
        return ResultOf(c), attempts;
      }
      if verdict(c.content) == Accept {
        return Success(c.content), attempts;
      }
      stats.retries := stats.retries + 1;
      body := body + [Message("assistant", c.content)];
      body := body + [Correction(verdict(c.content))];
      attempt := attempt + 1;
    }
    return SchemaFailed, attempts;
  }

  lemma NoTotals(script: nat -> Reply, first: nat)
    ensures TotalsOf(script, first, 0) == Sums(0, 0, 0, 0, 0.0, "")
  {
  }

  function ResultOf(c: Completion): Outcome {
    match c
    case Complete(content) => Success(content)
    case Incomplete => ContinuationLimit
    case Threw => RequestFailed
  }

  lemma CorrectionTurnsAre(verdict: string -> Verdict, a: Attempt)
    ensures CorrectionTurns(verdict, a) ==
            if verdict(Joined(a.chunks)) == Accept then []
            else [Message("assistant", Joined(a.chunks)), Correction(verdict(Joined(a.chunks)))]
  {
  }

  // ----- what the transcript looks like

  lemma {:induction false} TurnsAt(chunks: seq<string>, k: nat)
    requires k < |chunks|
    ensures |Turns(chunks)| == 2 * |chunks|
    ensures Turns(chunks)[2 * k] == Message("assistant", Joined(chunks[..k + 1])) && Turns(chunks)[2 * k + 1] == Message("user", "Continue exactly where you left off.")
  {
    var n := |chunks| - 1;
    if k < n {
      TurnsAt(chunks[..n], k);
      assert chunks[..n][..k + 1] == chunks[..k + 1];
    } else {
      TurnsLength(chunks[..n]);
      assert chunks[..k + 1] == chunks;
    }
  }

  lemma {:induction false} TurnsLength(chunks: seq<string>)
    ensures |Turns(chunks)| == 2 * |chunks|
  {
    if chunks != [] {
      TurnsLength(chunks[..|chunks| - 1]);
    }
  }

  /** Each assistant turn continues the one before it. */
  lemma {:induction false} JoinedGrows(chunks: seq<string>, k: nat)
    requires k <= |chunks|
    ensures Joined(chunks[..k]) <= Joined(chunks)
  {
    if k == |chunks| {
      assert chunks[..k] == chunks;
    } else {
      var n := |chunks| - 1;
      assert chunks[..n][..k] == chunks[..k];
      JoinedGrows(chunks[..n], k);
    }
  }

  lemma AssistantTurnsGrow(chunks: seq<string>, j: nat, k: nat)
    requires j <= k < |chunks|
    ensures |Turns(chunks)| == 2 * |chunks| && Turns(chunks)[2 * j].content <= Turns(chunks)[2 * k].content
  {
    TurnsAt(chunks, j);
    TurnsAt(chunks, k);
    assert chunks[..k + 1][..j + 1] == chunks[..j + 1];
    JoinedGrows(chunks[..k + 1], j + 1);
  }

  /** A message tells the model what was wrong: the errors, up to 2000 characters of
      them, or why its text is no JSON. */
  ghost predicate Corrects(m: Message, v: Verdict) {
    && m.role == "user"
    && match v
       case Accept => false
       case SchemaReject(e) =>
         m.content == "Validation errors:\n" + (if |e| <= 2000 then e else e[..2000] + "...") + "\nFix the errors and try again."
       case ParseReject(what) => m.content == "Invalid JSON: " + what + "\nReturn valid JSON matching the schema."
  }

  lemma CorrectionCorrects(v: Verdict)
    ensures v != Accept ==> Corrects(Correction(v), v)
  {
  }

  lemma {:induction false} CorrectionsAre(verdict: string -> Verdict, attempts: seq<Attempt>, r: nat)
    requires AllRejected(verdict, attempts) && r < |attempts|
    ensures var text := Joined(attempts[r].chunks);
            && |Corrections(verdict, attempts)| == 2 * |attempts|
            && Corrections(verdict, attempts)[2 * r] == Message("assistant", text)
            && Corrects(Corrections(verdict, attempts)[2 * r + 1], verdict(text))
  {
    hide Correction, Corrects;
    CorrectionCorrects(verdict(Joined(attempts[r].chunks)));
    var n := |attempts| - 1;
    CorrectionsLength(verdict, attempts[..n]);
    if r < n {
      CorrectionsAre(verdict, attempts[..n], r);
    }
  }

  lemma {:induction false} CorrectionsLength(verdict: string -> Verdict, attempts: seq<Attempt>)
    requires AllRejected(verdict, attempts)
    ensures |Corrections(verdict, attempts)| == 2 * |attempts|
  {
    if attempts != [] {
      CorrectionsLength(verdict, attempts[..|attempts| - 1]);
    }
  }

  lemma {:induction false} PostsUpTo(attempts: seq<Attempt>, r: nat)
    requires r < |attempts|
    ensures TotalPosts(attempts[..r]) + Posts(attempts[r]) <= TotalPosts(attempts)
  {
    var n := |attempts| - 1;
    if r < n {
      PostsUpTo(attempts[..n], r);
      assert attempts[..n][..r] == attempts[..r];
    }
  }

  lemma LogPrefix(messages: seq<Message>, verdict: string -> Verdict, attempts: seq<Attempt>, i: nat)
    requires attempts != []
    ensures var n := |attempts| - 1;
            TotalPosts(attempts) == TotalPosts(attempts[..n]) + Posts(attempts[n])
    ensures var n := |attempts| - 1;
            i < TotalPosts(attempts[..n]) ==> RunLog(messages, verdict, attempts)[i] == RunLog(messages, verdict, attempts[..n])[i]
  {
    hide Requests;
  }

  lemma LogLast(messages: seq<Message>, verdict: string -> Verdict, attempts: seq<Attempt>, k: nat)
    requires attempts != [] && k < Posts(attempts[|attempts| - 1])
    ensures var n := |attempts| - 1;
            RunLog(messages, verdict, attempts)[TotalPosts(attempts[..n]) + k] ==
            messages + Corrections(verdict, attempts[..n]) + Turns(attempts[n].chunks[..k])
  {
    hide Corrections, Turns, Posts, TotalPosts;
    var n := |attempts| - 1;
    var before, last := RunLog(messages, verdict, attempts[..n]), Requests(messages + Corrections(verdict, attempts[..n]), attempts[n]);
    assert RunLog(messages, verdict, attempts) == before + last;
    assert |before| == TotalPosts(attempts[..n]) && k < |last|;
    hide RunLog;
  }

  lemma {:induction false} LogAt(messages: seq<Message>, verdict: string -> Verdict, attempts: seq<Attempt>, r: nat, k: nat)
    requires r < |attempts| && k < Posts(attempts[r])
    ensures TotalPosts(attempts[..r]) + k < TotalPosts(attempts)
    ensures RunLog(messages, verdict, attempts)[TotalPosts(attempts[..r]) + k] ==
            messages + Corrections(verdict, attempts[..r]) + Turns(attempts[r].chunks[..k])
  {
    hide RunLog, Corrections, Turns, Posts, TotalPosts;
    var n := |attempts| - 1;
    PostsUpTo(attempts, r);
    if r < n {
      LogAt(messages, verdict, attempts[..n], r, k);
      assert attempts[..n][..r] == attempts[..r];
      LogPrefix(messages, verdict, attempts, TotalPosts(attempts[..r]) + k);
    } else {
      LogLast(messages, verdict, attempts, k);
    }
  }

  /** Transcript.  The request of attempt r after k continuations carries the
      original messages, then exactly r correction pairs, then exactly k
      continuation pairs, those of this attempt. */
  lemma Transcript(messages: seq<Message>, script: nat -> Reply, first: nat, limit: int, verdict: string -> Verdict,
                   attempts: seq<Attempt>, r: nat, k: nat)
    requires RunHappened(script, first, limit, verdict, attempts) && r < |attempts| && k < Posts(attempts[r])
    ensures TotalPosts(attempts[..r]) + k < TotalPosts(attempts)
    ensures var corrections, turns := Corrections(verdict, attempts[..r]), Turns(attempts[r].chunks[..k]);
            && |corrections| == 2 * r && |turns| == 2 * k
            && RunLog(messages, verdict, attempts)[TotalPosts(attempts[..r]) + k] == messages + corrections + turns
  {
    LogAt(messages, verdict, attempts, r, k);
    TurnsLength(attempts[r].chunks[..k]);
    assert AllRejected(verdict, attempts[..r]) by {
      assert attempts[..r] == attempts[..|attempts| - 1][..r];
    }
    CorrectionsLength(verdict, attempts[..r]);
  }

  // ----- accounting

  lemma {:induction false} PostsBounded(script: nat -> Reply, first: nat, limit: int, verdict: string -> Verdict, attempts: seq<Attempt>)
    requires RunHappened(script, first, limit, verdict, attempts)
    ensures TotalPosts(attempts) <= |attempts| * NonNegative(limit)
  {
    if attempts != [] {
      var n := |attempts| - 1;
      PostsBounded(script, first, limit, verdict, attempts[..n]);
      var m := NonNegative(limit);
      assert Posts(attempts[n]) <= m;
      assert (n + 1) * m == n * m + m;
    }
  }

  /** Accounting, for every way a call can end: the requests made are bounded by
      the two limits, and a success under a schema is an accepted text, reached
      before the last retry was used up. */
  lemma Accounting(script: nat -> Reply, first: nat, limit: int, verdict: string -> Verdict, attempts: seq<Attempt>,
                   useSchema: bool, maxRetries: int, out: Outcome)
    requires RunHappened(script, first, limit, verdict, attempts)
    requires if useSchema then |attempts| <= NonNegative(maxRetries) else |attempts| == 1
    requires Ends(out, useSchema, verdict, maxRetries, attempts)
    ensures TotalPosts(attempts) <= (if useSchema then NonNegative(maxRetries) else 1) * NonNegative(limit)
    ensures out.Success? && useSchema ==> 0 <= |attempts| - 1 < maxRetries && verdict(out.content) == Accept
  {
    hide Happened, AllRejected;
    PostsBounded(script, first, limit, verdict, attempts);
    if useSchema {
      Times(|attempts|, NonNegative(maxRetries), NonNegative(limit));
    }
  }

  lemma Times(a: nat, b: nat, m: nat)
    requires a <= b
    ensures a * m <= b * m
  {
  }
}
