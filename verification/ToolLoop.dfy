/** The agent's chat: up to four rounds with the model provider, each of up to three attempts, with
    tool calls in between, and a local answer when the provider gives none. */
module ToolLoop {
  import opened Text

  const MAX_ATTEMPTS: nat := 3
  const MAX_ROUNDS: nat := 4

  datatype Mode = Deterministic | Provider
  datatype Call = Call(id: string, name: string, args: string)

  datatype Event =
    | Started
    | Filtered(items: nat)
    | Attempt(round: nat, attempt: nat)
    | TextDelta(text: string)
    | CallStarted(call: Call)
    | CallDone(id: string, name: string, success: bool)
    | Blocked
    | Fallback(reason: string)
    | Completed(mode: Mode)

  datatype Message =
    | System
    | User
    | AssistantCalls(content: Option<string>, calls: seq<Call>)
    | ToolResult(id: string, output: string)

  /** What one request to the provider leads to: no response, a response whose stream is broken off
      by an error, or a complete one. */
  datatype Attempted =
    | NoResponse(retryable: bool, reason: string)
    | Garbled(deltas: seq<string>, reason: string)
    | Complete(deltas: seq<string>, content: Option<string>, calls: seq<Call>)

  /** What executing a tool leads to. `output` is `None` when the result cannot be encoded. */
  datatype Executed = Executed(success: bool, filtered: nat, output: Option<string>)

  /** Everything outside the loop: the checks made before it, the provider and the tools. */
  datatype Env = Env(
    injection: bool, configured: bool, filtered: nat, problem: Option<string>,
    provider: (nat, nat, seq<Message>) -> Attempted,
    tool: (nat, nat, Call) -> Executed)

  datatype Reply = Gave(reason: string) | Got(content: Option<string>, calls: seq<Call>)
  datatype Result = Failed | Finished(events: seq<Event>, messages: seq<Message>, mode: Mode, answer: string,
                                      fallback: Option<string>)

  function Deltas(texts: seq<string>): seq<Event> {
    seq(|texts|, i requires 0 <= i < |texts| => TextDelta(texts[i]))
  }

  // ----- what the loop computes

  /** `provider_round` from one attempt on. */
  function TryFrom(env: Env, round: nat, messages: seq<Message>, attempt: nat): (seq<Event>, Reply)
    requires 1 <= attempt <= MAX_ATTEMPTS
    decreases MAX_ATTEMPTS - attempt
  {
    var here := [Attempt(round, attempt)];
    match env.provider(round, attempt, messages)
    case Complete(deltas, content, calls) => (here + Deltas(deltas), Got(content, calls))
    case Garbled(deltas, reason) => (here + Deltas(deltas), Gave(reason))
    case NoResponse(retryable, reason) =>
      if !retryable || attempt == MAX_ATTEMPTS then (here, Gave(reason))
      else
        var (events, reply) := TryFrom(env, round, messages, attempt + 1);
        (here + events, reply)
  }

  function CallEvents(call: Call, done: Executed): seq<Event> {
    [CallStarted(call), CallDone(call.id, call.name, done.success)] + if done.filtered > 0
      then [Filtered(done.filtered)] else []
  }

  /** The events and result messages of a round's tool calls, if all results could be encoded. */
  function DoCalls(env: Env, round: nat, calls: seq<Call>): Option<(seq<Event>, seq<Message>)> {
    if calls == [] then Some(([], []))
    else
      var n := |calls| - 1;
      var done := env.tool(round, n, calls[n]);
      match DoCalls(env, round, calls[..n])
      case None => None
      case Some(before) =>
        if done.output.None? then None
        else Some((before.0 + CallEvents(calls[n], done), before.1 + [ToolResult(calls[n].id, done.output.value)]))
  }

  function Locally(events: seq<Event>, messages: seq<Message>, fallback: Option<string>): Result {
    var why := match fallback case Some(reason) => [Fallback(reason)] case None => [];
    Finished(events + why + [Completed(Deterministic)], messages, Deterministic, "", fallback)
  }

  const NO_TEXT := "provider returned no text or tool call"
  const TOO_MANY := "provider exceeded the 4-round tool-call limit"

  /** The rounds from one on. */
  function RoundsFrom(env: Env, round: nat, messages: seq<Message>, events: seq<Event>): Result
    requires 1 <= round <= MAX_ROUNDS + 1
    decreases MAX_ROUNDS + 1 - round
  {
    if round > MAX_ROUNDS then Locally(events, messages, Some(TOO_MANY))
    else
      var (attempts, reply) := TryFrom(env, round, messages, 1);
      match reply
      case Gave(reason) => Locally(events + attempts, messages, Some(reason))
      case Got(content, calls) =>
        if calls == [] then
          if content.Some? && Trim(content.value) != ""
          then Finished(events + attempts + [Completed(Provider)], messages, Provider, Trim(content.value), None)
          else Locally(events + attempts, messages, Some(NO_TEXT))
        else match DoCalls(env, round, calls)
          case None => Failed
          case Some(done) =>
            RoundsFrom(env, round + 1, messages + [AssistantCalls(content, calls)] + done.1, events + attempts + done.0)
  }

  function Opening(env: Env): seq<Event> {
    [Started] + if env.filtered > 0 then [Filtered(env.filtered)] else []
  }

  const PROMPT: seq<Message> := [System, User]

  /** `chat_with_events_inner`. */
  function Chat(env: Env): Result {
    if env.injection then Finished([Blocked, Completed(Deterministic)], [], Deterministic, "", None)
    else if !env.configured then Locally([], [], None)
    else if env.problem.Some? then Locally(Opening(env), [], env.problem)
    else RoundsFrom(env, 1, PROMPT, Opening(env))
  }

  // ----- counting events

  datatype Kind = Attempts | CallsStarted | CallsDone | CallsFailed | Completions | Fallbacks | Blocks

  predicate IsKind(e: Event, k: Kind) {
    match k
    case Attempts => e.Attempt?
    case CallsStarted => e.CallStarted?
    case CallsDone => e.CallDone?
    case CallsFailed => e.CallDone? && !e.success
    case Completions => e.Completed?
    case Fallbacks => e.Fallback?
    case Blocks => e.Blocked?
  }

  function Number(events: seq<Event>, k: Kind): nat {
    if events == [] then 0
    else Number(events[..|events| - 1], k) + if IsKind(events[|events| - 1], k) then 1 else 0
  }

  lemma {:induction false} NumberConcat(a: seq<Event>, b: seq<Event>, k: Kind)
    ensures Number(a + b, k) == Number(a, k) + Number(b, k)
  {
    if b == [] {
      assert a + b == a;
    } else {
      assert (a + b)[..|a + b| - 1] == a + b[..|b| - 1];
      NumberConcat(a, b[..|b| - 1], k);
    }
  }

  lemma NumberOne(e: Event, k: Kind)
    ensures Number([e], k) == if IsKind(e, k) then 1 else 0
  {
    assert [e][..0] == [];
  }

  lemma {:induction false} NoneAmongDeltas(texts: seq<string>, k: Kind)
    ensures Number(Deltas(texts), k) == 0
    decreases |texts|
  {
    if texts != [] {
      var n := |texts| - 1;
      assert Deltas(texts)[..n] == Deltas(texts[..n]);
      NoneAmongDeltas(texts[..n], k);
    }
  }

  // ----- attempts

  /** The text a request leads to. */
  function TextOf(done: Attempted): seq<string> {
    if done.NoResponse? then [] else done.deltas
  }

  /** What a request tells the loop. */
  function ReplyOf(done: Attempted): Reply {
    if done.Complete? then Got(done.content, done.calls) else Gave(done.reason)
  }

  /** The attempts of a round, numbered in order. */
  function Tries(round: nat, from: nat, used: nat): seq<Event>
    requires from <= used
  {
    seq(used + 1 - from, i requires 0 <= i => Attempt(round, from + i))
  }

  /** One to three attempts of the round, in order, each after a retryable failure of the one before
      and up to one that is not or is the third; then the text of the last. */
  ghost predicate AttemptsInOrder(env: Env, round: nat, messages: seq<Message>, events: seq<Event>, from: nat,
                                  used: nat) {
    && 1 <= from <= used <= MAX_ATTEMPTS
    && events == Tries(round, from, used) + Deltas(TextOf(env.provider(round, used, messages)))
    && (forall a :: from <= a < used ==> IsRetryable(env, round, messages, a))
    && (used == MAX_ATTEMPTS || !IsRetryable(env, round, messages, used))
  }

  predicate IsRetryable(env: Env, round: nat, messages: seq<Message>, attempt: nat) {
    var done := env.provider(round, attempt, messages);
    done.NoResponse? && done.retryable
  }

  lemma {:induction false} RoundAttempts(env: Env, round: nat, messages: seq<Message>, attempt: nat) returns (used: nat)
    requires 1 <= attempt <= MAX_ATTEMPTS
    ensures AttemptsInOrder(env, round, messages, TryFrom(env, round, messages, attempt).0, attempt, used)
    ensures TryFrom(env, round, messages, attempt).1 == ReplyOf(env.provider(round, used, messages))
    decreases MAX_ATTEMPTS - attempt
  {
    used := attempt;
    if attempt < MAX_ATTEMPTS && IsRetryable(env, round, messages, attempt) {
      used := RoundAttempts(env, round, messages, attempt + 1);
      var text := Deltas(TextOf(env.provider(round, used, messages)));
      assert Tries(round, attempt, used) == [Attempt(round, attempt)] + Tries(round, attempt + 1, used);
      assert [Attempt(round, attempt)] + (Tries(round, attempt + 1, used) + text) == Tries(round, attempt, used) + text;
    } else {
      assert Tries(round, attempt, used) == [Attempt(round, attempt)];
      assert [Attempt(round, attempt)] + [] == [Attempt(round, attempt)];
    }
  }

  lemma {:induction false} TriesCounted(round: nat, from: nat, used: nat, k: Kind)
    requires from <= used
    ensures Number(Tries(round, from, used), k) == if k == Attempts then used + 1 - from else 0
    decreases used
  {
    var tries := Tries(round, from, used);
    if used > from {
      TriesCounted(round, from, used - 1, k);
      assert tries[..used - from] == Tries(round, from, used - 1);
    } else {
      assert tries == [Attempt(round, from)];
      NumberOne(Attempt(round, from), k);
    }
  }

  lemma AttemptsCounted(env: Env, round: nat, messages: seq<Message>, events: seq<Event>, used: nat)
    requires AttemptsInOrder(env, round, messages, events, 1, used)
    ensures forall k :: Number(events, k) == if k == Attempts then used else 0
    ensures StartedCalls(events) == []
  {
    hide Number, StartedCalls, Deltas;
    var text := TextOf(env.provider(round, used, messages));
    forall k ensures Number(events, k) == if k == Attempts then used else 0 {
      NumberConcat(Tries(round, 1, used), Deltas(text), k);
      TriesCounted(round, 1, used, k);
      NoneAmongDeltas(text, k);
    }
    NoneStarted(round, used, text);
  }

  lemma NoneStarted(round: nat, used: nat, text: seq<string>)
    requires 1 <= used
    ensures StartedCalls(Tries(round, 1, used) + Deltas(text)) == []
  {
    NoCallsStarted(Tries(round, 1, used) + Deltas(text));
  }

  // ----- tool calls and their results

  /** The results answer the calls one for one, in order. */
  ghost predicate Answer(results: seq<Message>, calls: seq<Call>) {
    && |results| == |calls|
    && forall i :: 0 <= i < |calls| ==> results[i].ToolResult? && results[i].id == calls[i].id
  }

  /** A conversation after the prompt: assistant calls, each followed by their results. */
  ghost predicate Paired(messages: seq<Message>) {
    messages == [] ||
    (&& messages[0].AssistantCalls? && messages[0].calls != [] && |messages[0].calls| < |messages|
     && Answer(messages[1..1 + |messages[0].calls|], messages[0].calls)
     && Paired(messages[1 + |messages[0].calls|..]))
  }

  /** All calls the assistant made in the conversation. */
  function AllCalls(messages: seq<Message>): seq<Call> {
    if messages == [] then []
    else
      var last := messages[|messages| - 1];
      AllCalls(messages[..|messages| - 1]) + if last.AssistantCalls? then last.calls else []
  }

  /** The calls that were started, as the events tell. */
  function StartedCalls(events: seq<Event>): seq<Call> {
    if events == [] then []
    else
      var last := events[|events| - 1];
      StartedCalls(events[..|events| - 1]) + if last.CallStarted? then [last.call] else []
  }

  lemma {:induction false} StartedConcat(a: seq<Event>, b: seq<Event>)
    ensures StartedCalls(a + b) == StartedCalls(a) + StartedCalls(b)
  {
    if b == [] {
      assert a + b == a;
    } else {
      assert (a + b)[..|a + b| - 1] == a + b[..|b| - 1];
      StartedConcat(a, b[..|b| - 1]);
    }
  }

  lemma {:induction false} NoCallsStarted(events: seq<Event>)
    requires forall i :: 0 <= i < |events| ==> !events[i].CallStarted?
    ensures StartedCalls(events) == []
  {
    if events != [] { NoCallsStarted(events[..|events| - 1]); }
  }

  lemma {:induction false} NoCallsMade(messages: seq<Message>)
    requires forall i :: 0 <= i < |messages| ==> !messages[i].AssistantCalls?
    ensures AllCalls(messages) == []
  {
    if messages != [] { NoCallsMade(messages[..|messages| - 1]); }
  }

  lemma {:induction false} CallsConcat(a: seq<Message>, b: seq<Message>)
    ensures AllCalls(a + b) == AllCalls(a) + AllCalls(b)
  {
    if b == [] {
      assert a + b == a;
    } else {
      assert (a + b)[..|a + b| - 1] == a + b[..|b| - 1];
      CallsConcat(a, b[..|b| - 1]);
    }
  }

  /** How many events of a kind one call makes. */
  function OfOneCall(k: Kind, success: bool): nat {
    match k
    case CallsStarted => 1
    case CallsDone => 1
    case CallsFailed => if success then 0 else 1
    case _ => 0
  }

  lemma OneCallEvents(call: Call, done: Executed)
    ensures StartedCalls(CallEvents(call, done)) == [call]
    ensures forall k :: Number(CallEvents(call, done), k) == OfOneCall(k, done.success)
  {
    var start, end := CallStarted(call), CallDone(call.id, call.name, done.success);
    var tail := if done.filtered > 0 then [Filtered(done.filtered)] else [];
    assert CallEvents(call, done) == [start] + ([end] + tail);
    StartedConcat([start], [end] + tail);
    NoCallsStarted([end] + tail);
    assert [start][..0] == [];
    assert StartedCalls([start]) == [call];
    forall k ensures Number(CallEvents(call, done), k) == OfOneCall(k, done.success) {
      NumberConcat([start], [end] + tail, k);
      NumberConcat([end], tail, k);
      NumberOne(start, k);
      NumberOne(end, k);
      NumberOne(Filtered(done.filtered), k);
    }
  }

  /** Events of `n` tool calls and nothing else that is counted. */
  ghost predicate CallCounts(events: seq<Event>, n: nat) {
    && Number(events, CallsStarted) == Number(events, CallsDone) == n && Number(events, CallsFailed) <= n
    && Number(events, Attempts) == Number(events, Completions) == Number(events, Fallbacks) ==
       Number(events, Blocks) == 0
  }

  lemma OneMoreCall(before: seq<Event>, n: nat, call: Call, done: Executed)
    requires CallCounts(before, n)
    ensures CallCounts(before + CallEvents(call, done), n + 1)
  {
    hide Number, CallEvents;
    OneCallEvents(call, done);
    forall k
      ensures Number(before + CallEvents(call, done), k) == Number(before, k) + Number(CallEvents(call, done), k)
    {
      NumberConcat(before, CallEvents(call, done), k);
    }
  }

  lemma {:induction false} CallsAnswered(env: Env, round: nat, calls: seq<Call>)
    requires DoCalls(env, round, calls).Some?
    ensures var (events, results) := DoCalls(env, round, calls).value;
            Answer(results, calls) && StartedCalls(events) == calls && CallCounts(events, |calls|)
    decreases |calls|
  {
    if calls != [] {
      var n := |calls| - 1;
      CallsAnswered(env, round, calls[..n]);
      hide CallCounts, StartedCalls, CallEvents;
      var before := DoCalls(env, round, calls[..n]).value;
      var done := env.tool(round, n, calls[n]);
      OneCallEvents(calls[n], done);
      StartedConcat(before.0, CallEvents(calls[n], done));
      OneMoreCall(before.0, n, calls[n], done);
      assert calls == calls[..n] + [calls[n]];
    }
  }

  /** Each result is what the tool gave for the call at its place. */
  ghost predicate Outputs(env: Env, round: nat, calls: seq<Call>, results: seq<Message>) {
    && |results| == |calls|
    && forall i :: 0 <= i < |calls| ==>
         && env.tool(round, i, calls[i]).output.Some?
         && results[i] == ToolResult(calls[i].id, env.tool(round, i, calls[i]).output.value)
  }

  /** The events from `a` up to `b` start the call, say whether it succeeded, and how many items of
      its output were filtered if any were. */
  ghost predicate Block(done: Executed, call: Call, events: seq<Event>, a: nat, b: nat) {
    && b == a + (if done.filtered > 0 then 3 else 2) && b <= |events|
    && events[a] == CallStarted(call) && events[a + 1] == CallDone(call.id, call.name, done.success)
    && (done.filtered > 0 ==> events[a + 2] == Filtered(done.filtered))
  }

  /** The events are those of the calls in order and no others; those of call `i` begin at `at[i]`. */
  ghost predicate Layout(env: Env, round: nat, calls: seq<Call>, events: seq<Event>, at: seq<nat>) {
    && |at| == |calls| + 1 && at[0] == 0 && at[|calls|] == |events|
    && forall i :: 0 <= i < |calls| ==> Block(env.tool(round, i, calls[i]), calls[i], events, at[i], at[i + 1])
  }

  lemma BlockStays(done: Executed, call: Call, events: seq<Event>, more: seq<Event>, a: nat, b: nat)
    requires Block(done, call, events, a, b)
    ensures Block(done, call, events + more, a, b)
  {
  }

  lemma LayoutGrows(env: Env, round: nat, calls: seq<Call>, events: seq<Event>, at: seq<nat>)
    requires calls != [] && Layout(env, round, calls[..|calls| - 1], events, at)
    ensures var n := |calls| - 1;
            var all := events + CallEvents(calls[n], env.tool(round, n, calls[n]));
            Layout(env, round, calls, all, at + [|all|])
  {
    var n := |calls| - 1;
    var done := env.tool(round, n, calls[n]);
    var more := CallEvents(calls[n], done);
    var at' := at + [|events + more|];
    assert Block(done, calls[n], events + more, |events|, |events + more|);
    hide Block, CallEvents;
    forall i | 0 <= i < |calls|
      ensures Block(env.tool(round, i, calls[i]), calls[i], events + more, at'[i], at'[i + 1])
    {
      if i < n { BlockStays(env.tool(round, i, calls[i]), calls[i], events, more, at[i], at[i + 1]); }
    }
  }

  /** The output of call `i` cannot be encoded. */
  predicate Unencoded(env: Env, round: nat, calls: seq<Call>, i: nat) {
    i < |calls| && env.tool(round, i, calls[i]).output.None?
  }

  lemma LastUnencoded(env: Env, round: nat, calls: seq<Call>)
    requires calls != []
    ensures var n := |calls| - 1;
            (exists i: nat :: Unencoded(env, round, calls, i)) <==>
              (exists i: nat :: Unencoded(env, round, calls[..n], i)) || env.tool(round, n, calls[n]).output.None?
  {
    var n := |calls| - 1;
    assert Unencoded(env, round, calls, n) <==> env.tool(round, n, calls[n]).output.None?;
    assert forall i: nat :: i < n ==> (Unencoded(env, round, calls, i) <==> Unencoded(env, round, calls[..n], i));
  }

  lemma OneMoreOutput(env: Env, round: nat, calls: seq<Call>, results: seq<Message>, output: string)
    requires calls != [] && Outputs(env, round, calls[..|calls| - 1], results)
    requires env.tool(round, |calls| - 1, calls[|calls| - 1]).output == Some(output)
    ensures Outputs(env, round, calls, results + [ToolResult(calls[|calls| - 1].id, output)])
  {
  }

  /** MAIN: executing a round's calls fails exactly when the output of one cannot be encoded.
      Otherwise result `i` carries the id of call `i` and what the tool gave for that call, and the
      events of call `i` are its start, its end with its own success, and its own filter event. */
  lemma {:induction false} CallsExecuted(env: Env, round: nat, calls: seq<Call>) returns (at: seq<nat>)
    ensures DoCalls(env, round, calls).None? <==> exists i: nat :: Unencoded(env, round, calls, i)
    ensures var done := DoCalls(env, round, calls);
            done.Some? ==> Outputs(env, round, calls, done.value.1) && Layout(env, round, calls, done.value.0, at)
    decreases |calls|
  {
    at := [0];
    if calls != [] {
      var n := |calls| - 1;
      at := CallsExecuted(env, round, calls[..n]);
      var before, done := DoCalls(env, round, calls[..n]), env.tool(round, n, calls[n]);
      LastUnencoded(env, round, calls);
      hide CallEvents, Layout, Outputs, Unencoded;
      if before.Some? && done.output.Some? {
        OneMoreOutput(env, round, calls, before.value.1, done.output.value);
        LayoutGrows(env, round, calls, before.value.0, at);
        at := at + [|before.value.0 + CallEvents(calls[n], done)|];
      }
    }
  }

  lemma {:induction false} PairedConcat(a: seq<Message>, b: seq<Message>)
    requires Paired(a) && Paired(b)
    ensures Paired(a + b)
    decreases |a|
  {
    if a == [] {
      assert a + b == b;
    } else {
      hide Answer;
      var n := 1 + |a[0].calls|;
      PairedConcat(a[n..], b);
      SlicesOfConcat(a, b, n);
    }
  }

  lemma SlicesOfConcat(a: seq<Message>, b: seq<Message>, n: nat)
    requires 1 <= n <= |a|
    ensures (a + b)[0] == a[0] && (a + b)[1..n] == a[1..n] && (a + b)[n..] == a[n..] + b
  {
  }

  lemma AfterHead(head: Message, results: seq<Message>)
    ensures var all := [head] + results;
            all[0] == head && all[1..1 + |results|] == results && all[1 + |results|..] == []
  {
  }

  lemma OneCalling(content: Option<string>, calls: seq<Call>)
    ensures AllCalls([AssistantCalls(content, calls)]) == calls
  {
    assert [AssistantCalls(content, calls)][..0] == [];
  }

  lemma OnePair(content: Option<string>, calls: seq<Call>, results: seq<Message>)
    requires calls != [] && Answer(results, calls)
    ensures Paired([AssistantCalls(content, calls)] + results)
    ensures AllCalls([AssistantCalls(content, calls)] + results) == calls
  {
    hide AllCalls;
    AfterHead(AssistantCalls(content, calls), results);
    OneCalling(content, calls);
    CallsConcat([AssistantCalls(content, calls)], results);
    NoCallsMade(results);
    assert calls + [] == calls;
  }

  // ----- the whole chat

  /** The prompt and a conversation in which every tool call has its result. */
  ghost predicate Conversation(messages: seq<Message>) {
    |messages| >= 2 && messages[..2] == PROMPT && Paired(messages[2..])
  }

  ghost predicate SoFar(round: nat, messages: seq<Message>, events: seq<Event>) {
    && round >= 1 && Conversation(messages) && StartedCalls(events) == AllCalls(messages)
    && Number(events, Attempts) <= MAX_ATTEMPTS * (round - 1)
    && Number(events, CallsStarted) == Number(events, CallsDone) &&
       Number(events, CallsFailed) <= Number(events, CallsStarted)
    && Number(events, Completions) == Number(events, Fallbacks) == Number(events, Blocks) == 0
  }

  ghost predicate EndsOnce(r: Result)
    requires r.Finished?
  {
    var n := |r.events|;
    && n >= 1 && r.events[n - 1] == Completed(r.mode) && Number(r.events, Completions) == 1
    && (r.fallback.Some? ==> n >= 2 && r.mode == Deterministic && r.events[n - 2] == Fallback(r.fallback.value))
    && Number(r.events, Fallbacks) == (if r.fallback.Some? then 1 else 0)
    && (r.mode == Provider ==> r.answer != "")
  }

  /** What holds of a chat that finished. */
  ghost predicate GoodResult(r: Result)
    requires r.Finished?
  {
    && EndsOnce(r)
    && Number(r.events, Attempts) <= MAX_ROUNDS * MAX_ATTEMPTS
    && Number(r.events, CallsStarted) == Number(r.events, CallsDone) &&
       Number(r.events, CallsFailed) <= Number(r.events, CallsStarted)
    && (r.messages == [] || Conversation(r.messages)) && StartedCalls(r.events) == AllCalls(r.messages)
  }

  lemma OneMoreEvent(events: seq<Event>, e: Event)
    requires !e.CallStarted?
    ensures StartedCalls(events + [e]) == StartedCalls(events)
    ensures forall k :: Number(events + [e], k) == Number(events, k) + if IsKind(e, k) then 1 else 0
  {
    assert (events + [e])[..|events|] == events;
  }

  /** Ending with a local answer, for events that count as in a chat so far. */
  lemma LocallyIsGood(events: seq<Event>, messages: seq<Message>, fallback: Option<string>)
    requires messages == [] || Conversation(messages)
    requires StartedCalls(events) == AllCalls(messages) && Number(events, Attempts) <= MAX_ROUNDS * MAX_ATTEMPTS
    requires Number(events, CallsStarted) == Number(events, CallsDone)
    requires Number(events, CallsFailed) <= Number(events, CallsStarted)
    requires Number(events, Completions) == Number(events, Fallbacks) == 0
    ensures GoodResult(Locally(events, messages, fallback))
  {
    hide Number, StartedCalls, Conversation, AllCalls;
    if fallback.Some? {
      OneMoreEvent(events, Fallback(fallback.value));
      OneMoreEvent(events + [Fallback(fallback.value)], Completed(Deterministic));
    } else {
      assert events + [] == events;
      OneMoreEvent(events, Completed(Deterministic));
    }
  }

  lemma AttemptsAdded(env: Env, round: nat, messages: seq<Message>, events: seq<Event>)
    requires SoFar(round, messages, events)
    ensures var all := events + TryFrom(env, round, messages, 1).0;
            && StartedCalls(all) == AllCalls(messages) && Number(all, Attempts) <= MAX_ATTEMPTS * round
            && Number(all, CallsStarted) == Number(all, CallsDone) &&
               Number(all, CallsFailed) <= Number(all, CallsStarted)
            && Number(all, Completions) == Number(all, Fallbacks) == Number(all, Blocks) == 0
  {
    hide Number, StartedCalls, TryFrom, Conversation, AllCalls;
    var more := TryFrom(env, round, messages, 1).0;
    var used := RoundAttempts(env, round, messages, 1);
    AttemptsCounted(env, round, messages, more, used);
    forall k ensures Number(events + more, k) == Number(events, k) + Number(more, k) { NumberConcat(events, more, k); }
    StartedConcat(events, more);
    assert StartedCalls(events) + [] == StartedCalls(events);
  }

  /** A round with tool calls leads to the next one. */
  lemma RoundAdds(env: Env, round: nat, messages: seq<Message>, events: seq<Event>)
    requires SoFar(round, messages, events) && TryFrom(env, round, messages, 1).1.Got?
    requires var calls := TryFrom(env, round, messages, 1).1.calls; calls != [] && DoCalls(env, round, calls).Some?
    ensures var (attempts, reply) := TryFrom(env, round, messages, 1);
            var done := DoCalls(env, round, reply.calls).value;
            SoFar(round + 1, messages + [AssistantCalls(reply.content, reply.calls)] + done.1, events + attempts +
              done.0)
  {
    hide Number, StartedCalls, TryFrom, DoCalls, AllCalls, Answer, Paired, Conversation, CallCounts;
    var (attempts, reply) := TryFrom(env, round, messages, 1);
    var done := DoCalls(env, round, reply.calls).value;
    AttemptsAdded(env, round, messages, events);
    CallsAnswered(env, round, reply.calls);
    OnePair(reply.content, reply.calls, done.1);
    var pair := [AssistantCalls(reply.content, reply.calls)] + done.1;
    MorePairs(messages, pair);
    assert messages + [AssistantCalls(reply.content, reply.calls)] + done.1 == messages + pair;
    StartedConcat(events + attempts, done.0);
    CallsAdded(events + attempts, done.0, |reply.calls|);
  }

  lemma CallsAdded(events: seq<Event>, more: seq<Event>, n: nat)
    requires CallCounts(more, n)
    ensures var all := events + more;
            && Number(all, Attempts) == Number(events, Attempts) &&
               Number(all, Completions) == Number(events, Completions)
            && Number(all, Fallbacks) == Number(events, Fallbacks) && Number(all, Blocks) == Number(events, Blocks)
            && Number(all, CallsStarted) == Number(events, CallsStarted) + n &&
               Number(all, CallsDone) == Number(events, CallsDone) + n
            && Number(all, CallsFailed) <= Number(events, CallsFailed) + n
  {
    hide Number;
    forall k ensures Number(events + more, k) == Number(events, k) + Number(more, k) { NumberConcat(events, more, k); }
  }

  lemma MorePairs(messages: seq<Message>, more: seq<Message>)
    requires Conversation(messages) && Paired(more)
    ensures Conversation(messages + more) && AllCalls(messages + more) == AllCalls(messages) + AllCalls(more)
  {
    hide Paired, AllCalls;
    CallsConcat(messages, more);
    PairedConcat(messages[2..], more);
    assert (messages + more)[2..] == messages[2..] + more && (messages + more)[..2] == messages[..2];
  }

  lemma {:induction false} RoundsAreGood(env: Env, round: nat, messages: seq<Message>, events: seq<Event>)
    requires 1 <= round <= MAX_ROUNDS + 1 && SoFar(round, messages, events)
    ensures var r := RoundsFrom(env, round, messages, events); r.Finished? ==> GoodResult(r)
    decreases MAX_ROUNDS + 1 - round
  {
    hide Number, StartedCalls, TryFrom, DoCalls, AllCalls, GoodResult, Conversation, Trim;
    if round > MAX_ROUNDS {
      LocallyIsGood(events, messages, Some(TOO_MANY));
    } else {
      var (attempts, reply) := TryFrom(env, round, messages, 1);
      var all := events + attempts;
      AttemptsAdded(env, round, messages, events);
      if reply.Gave? {
        LocallyIsGood(all, messages, Some(reply.reason));
      } else if reply.calls == [] {
        if reply.content.Some? && Trim(reply.content.value) != "" {
          ProviderIsGood(all, messages, Trim(reply.content.value));
        } else {
          LocallyIsGood(all, messages, Some(NO_TEXT));
        }
      } else if DoCalls(env, round, reply.calls).Some? {
        var done := DoCalls(env, round, reply.calls).value;
        RoundAdds(env, round, messages, events);
        RoundsAreGood(env, round + 1, messages + [AssistantCalls(reply.content, reply.calls)] + done.1, all + done.0);
      }
    }
  }

  lemma ProviderIsGood(events: seq<Event>, messages: seq<Message>, answer: string)
    requires Conversation(messages) && answer != ""
    requires StartedCalls(events) == AllCalls(messages) && Number(events, Attempts) <= MAX_ROUNDS * MAX_ATTEMPTS
    requires Number(events, CallsStarted) == Number(events, CallsDone)
    requires Number(events, CallsFailed) <= Number(events, CallsStarted)
    requires Number(events, Completions) == Number(events, Fallbacks) == 0
    ensures GoodResult(Finished(events + [Completed(Provider)], messages, Provider, answer, None))
  {
    hide Number, StartedCalls, Conversation, AllCalls;
    OneMoreEvent(events, Completed(Provider));
  }

  lemma OpeningCounts(env: Env)
    ensures SoFar(1, PROMPT, Opening(env))
    ensures StartedCalls(Opening(env)) == [] && forall k :: Number(Opening(env), k) == 0
  {
    NoCallsStarted(Opening(env));
    NoCallsMade(PROMPT);
    forall k ensures Number(Opening(env), k) == 0 {
      var tail := if env.filtered > 0 then [Filtered(env.filtered)] else [];
      NumberConcat([Started], tail, k);
      NumberOne(Started, k);
      NumberOne(Filtered(env.filtered), k);
    }
    assert PROMPT[2..] == [];
  }

  /** MAIN: for every provider and every tool, a chat that finishes made at most twelve attempts,
      completed once and last, gave every tool call its result in order, and reports a fallback
      exactly when it fell back. */
  lemma ChatIsGood(env: Env)
    ensures Chat(env).Finished? ==> GoodResult(Chat(env))
  {
    if env.injection {
      BlockedIsGood();
    } else {
      hide Number, StartedCalls, AllCalls, GoodResult, Conversation, SoFar, RoundsFrom, Opening;
      OpeningCounts(env);
      if !env.configured {
        NothingCounted();
        LocallyIsGood([], [], None);
      } else if env.problem.Some? {
        NothingCounted();
        LocallyIsGood(Opening(env), [], env.problem);
      } else {
        RoundsAreGood(env, 1, PROMPT, Opening(env));
      }
    }
  }

  lemma NothingCounted()
    ensures AllCalls([]) == [] && StartedCalls([]) == [] && forall k :: Number([], k) == 0
  {
  }

  lemma BlockedIsGood()
    ensures GoodResult(Finished([Blocked, Completed(Deterministic)], [], Deterministic, "", None))
  {
    hide Number, StartedCalls, AllCalls;
    NothingCounted();
    assert [] + [Blocked] == [Blocked] && [Blocked] + [Completed(Deterministic)] == [Blocked, Completed(Deterministic)];
    OneMoreEvent([], Blocked);
    OneMoreEvent([Blocked], Completed(Deterministic));
  }

  // ----- what the provider is asked

  /** Rounds one to four, attempts one to three, and every tool call with its result. */
  ghost predicate MayAsk(round: nat, attempt: nat, messages: seq<Message>) {
    1 <= round <= MAX_ROUNDS && 1 <= attempt <= MAX_ATTEMPTS && Conversation(messages)
  }

  /** The two providers agree wherever the loop may ask them. */
  ghost predicate Agree(env: Env, other: Env) {
    && other == env.(provider := other.provider)
    && forall round, attempt, messages :: MayAsk(round, attempt, messages) ==>
         env.provider(round, attempt, messages) == other.provider(round, attempt, messages)
  }

  lemma {:induction false} SameAttempts(env: Env, other: Env, round: nat, messages: seq<Message>, attempt: nat)
    requires Agree(env, other) && 1 <= round <= MAX_ROUNDS && 1 <= attempt <= MAX_ATTEMPTS && Conversation(messages)
    ensures TryFrom(env, round, messages, attempt) == TryFrom(other, round, messages, attempt)
    decreases MAX_ATTEMPTS - attempt
  {
    assert env.provider(round, attempt, messages) == other.provider(round, attempt, messages);
    if attempt < MAX_ATTEMPTS { SameAttempts(env, other, round, messages, attempt + 1); }
  }

  lemma {:induction false} SameCalls(env: Env, other: Env, round: nat, calls: seq<Call>)
    requires other.tool == env.tool
    ensures DoCalls(env, round, calls) == DoCalls(other, round, calls)
    decreases |calls|
  {
    if calls != [] { SameCalls(env, other, round, calls[..|calls| - 1]); }
  }

  lemma {:induction false} SameRounds(env: Env, other: Env, round: nat, messages: seq<Message>, events: seq<Event>)
    requires Agree(env, other) && 1 <= round <= MAX_ROUNDS + 1 && SoFar(round, messages, events)
    ensures RoundsFrom(env, round, messages, events) == RoundsFrom(other, round, messages, events)
    decreases MAX_ROUNDS + 1 - round
  {
    hide Number, StartedCalls, TryFrom, DoCalls, AllCalls, Conversation, Trim, Agree;
    if round <= MAX_ROUNDS {
      SameAttempts(env, other, round, messages, 1);
      var (attempts, reply) := TryFrom(env, round, messages, 1);
      if reply.Got? && reply.calls != [] {
        SameTools(env, other);
        SameCalls(env, other, round, reply.calls);
        if DoCalls(env, round, reply.calls).Some? {
          var done := DoCalls(env, round, reply.calls).value;
          RoundAdds(env, round, messages, events);
          SameRounds(env, other, round + 1, messages + [AssistantCalls(reply.content, reply.calls)] + done.1, events +
            attempts + done.0);
        }
      }
    }
  }

  lemma SameTools(env: Env, other: Env)
    requires Agree(env, other)
    ensures env.tool == other.tool
  {
  }

  /** MAIN: the provider is consulted only in rounds one to four, attempts one to three, and only
      with conversations in which every tool call has its result: what it would answer to anything
      else does not matter. */
  lemma OnlyPairedConversationsAreSent(env: Env, other: Env)
    requires Agree(env, other)
    ensures Chat(env) == Chat(other)
  {
    OpeningCounts(env);
    hide Number, StartedCalls, AllCalls, Conversation, SoFar, RoundsFrom;
    SameRounds(env, other, 1, PROMPT, Opening(env));
  }

  // ----- the loops

  lemma JoinedOn(before: seq<Event>, one: seq<Event>, more: seq<Event>)
    ensures before + one + more == before + (one + more)
  {
  }

  /** `provider_round`. */
  method AskProvider(env: Env, round: nat, messages: seq<Message>) returns (events: seq<Event>, reply: Reply)
    ensures (events, reply) == TryFrom(env, round, messages, 1)
  {
    hide Deltas;
    events := [];
    var attempt := 1;
    assert [] + TryFrom(env, round, messages, 1).0 == TryFrom(env, round, messages, 1).0;
    while true
      invariant 1 <= attempt <= MAX_ATTEMPTS
      invariant TryFrom(env, round, messages, 1) ==
              (events + TryFrom(env, round, messages, attempt).0, TryFrom(env, round, messages, attempt).1)
      decreases MAX_ATTEMPTS - attempt
    {
      var here := [Attempt(round, attempt)];
      match env.provider(round, attempt, messages) {
        case Complete(deltas, content, calls) =>
          JoinedOn(events, here, Deltas(deltas));
          return events + here + Deltas(deltas), Got(content, calls);
        case Garbled(deltas, reason) =>
          JoinedOn(events, here, Deltas(deltas));
          return events + here + Deltas(deltas), Gave(reason);
        case NoResponse(retryable, reason) =>
          if !retryable || attempt == MAX_ATTEMPTS { return events + here, Gave(reason); }
          JoinedOn(events, here, TryFrom(env, round, messages, attempt + 1).0);
          events, attempt := events + here, attempt + 1;
      }
    }
  }

  /** The tool calls of one round. */
  method ExecuteCalls(env: Env, round: nat, calls: seq<Call>) returns (done: Option<(seq<Event>, seq<Message>)>)
    ensures done == DoCalls(env, round, calls)
    ensures done.Some? ==> Outputs(env, round, calls, done.value.1)
  {
    ghost var at := CallsExecuted(env, round, calls);
    hide Outputs, Layout;
    var events, results := [], [];
    for i := 0 to |calls|
      invariant DoCalls(env, round, calls[..i]) == Some((events, results))
    {
      var call := calls[i];
      assert calls[..i + 1][..i] == calls[..i];
      var executed := env.tool(round, i, call);
      events := events + CallEvents(call, executed);
      if executed.output.None? {
        StaysBroken(env, round, calls, i + 1);
        return None;
      }
      results := results + [ToolResult(call.id, executed.output.value)];
    }
    assert calls[..|calls|] == calls;
    return Some((events, results));
  }

  lemma {:induction false} StaysBroken(env: Env, round: nat, calls: seq<Call>, i: nat)
    requires i <= |calls| && DoCalls(env, round, calls[..i]) == None
    ensures DoCalls(env, round, calls) == None
    decreases |calls|
  {
    if i == |calls| {
      assert calls[..i] == calls;
    } else {
      assert calls[..|calls| - 1][..i] == calls[..i];
      StaysBroken(env, round, calls[..|calls| - 1], i);
    }
  }

  /** The chat as it runs, over a growing list of messages and events. */
  method RunChat(env: Env) returns (r: Result)
    ensures r == Chat(env)
  {
    hide TryFrom, DoCalls, Trim;
    if env.injection { return Finished([Blocked, Completed(Deterministic)], [], Deterministic, "", None); }
    if !env.configured { return Locally([], [], None); }
    var events := Opening(env);
    if env.problem.Some? { return Locally(events, [], env.problem); }
    var messages, round := PROMPT, 1;
    while round <= MAX_ROUNDS
      invariant 1 <= round <= MAX_ROUNDS + 1
      invariant Chat(env) == RoundsFrom(env, round, messages, events)
    {
      var attempts, reply := AskProvider(env, round, messages);
      events := events + attempts;
      if reply.Gave? { return Locally(events, messages, Some(reply.reason)); }
      if reply.calls == [] {
        var answer := if reply.content.Some? then Trim(reply.content.value) else "";
        if answer == "" { return Locally(events, messages, Some(NO_TEXT)); }
        return Finished(events + [Completed(Provider)], messages, Provider, answer, None);
      }
      messages := messages + [AssistantCalls(reply.content, reply.calls)];
      var done := ExecuteCalls(env, round, reply.calls);
      if done.None? { return Failed; }
      messages, events, round := messages + done.value.1, events + done.value.0, round + 1;
    }
    return Locally(events, messages, Some(TOO_MANY));
  }
}
