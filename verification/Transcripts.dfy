/** Whole chats told round by round: which attempt each reply comes from, what each tool gave, and
    how the chat ends. */
module Transcripts {
  import opened Text
  import opened ToolLoop

  /** A round that led to tool calls. */
  datatype RoundLog = RoundLog(tries: seq<Event>, content: Option<string>, calls: seq<Call>, done: seq<Event>,
                               results: seq<Message>)

  /** The conversation after these rounds. */
  function Said(log: seq<RoundLog>): seq<Message> {
    if log == [] then PROMPT
    else
      var last := log[|log| - 1];
      Said(log[..|log| - 1]) + [AssistantCalls(last.content, last.calls)] + last.results
  }

  /** The events up to the end of these rounds. */
  function Shown(env: Env, log: seq<RoundLog>): seq<Event> {
    if log == [] then Opening(env)
    else Shown(env, log[..|log| - 1]) + log[|log| - 1].tries + log[|log| - 1].done
  }

  /** The round makes its attempts in order, and its reply is that of the last. */
  ghost predicate Replies(env: Env, round: nat, messages: seq<Message>, tries: seq<Event>, reply: Reply) {
    exists used: nat ::
      && AttemptsInOrder(env, round, messages, tries, 1, used)
      && reply == ReplyOf(env.provider(round, used, messages))
  }

  /** All calls of the round were executed, each with its own result and events. */
  ghost predicate Executes(env: Env, round: nat, calls: seq<Call>, done: seq<Event>, results: seq<Message>) {
    Outputs(env, round, calls, results) && exists at: seq<nat> :: Layout(env, round, calls, done, at)
  }

  /** Round `i + 1`, asked with the conversation so far, called tools and got their results. */
  ghost predicate RoundOk(env: Env, log: seq<RoundLog>, i: nat)
    requires i < |log|
  {
    var l := log[i];
    && Replies(env, i + 1, Said(log[..i]), l.tries, Got(l.content, l.calls))
    && l.calls != [] && Executes(env, i + 1, l.calls, l.done, l.results)
  }

  ghost predicate LogOk(env: Env, log: seq<RoundLog>) {
    |log| <= MAX_ROUNDS && forall i: nat :: i < |log| ==> RoundOk(env, log, i)
  }

  lemma TryReplies(env: Env, round: nat, messages: seq<Message>)
    ensures Replies(env, round, messages, TryFrom(env, round, messages, 1).0, TryFrom(env, round, messages, 1).1)
  {
    var used := RoundAttempts(env, round, messages, 1);
  }

  lemma CallsExecute(env: Env, round: nat, calls: seq<Call>)
    requires DoCalls(env, round, calls).Some?
    ensures var (done, results) := DoCalls(env, round, calls).value; Executes(env, round, calls, done, results)
  {
    var at := CallsExecuted(env, round, calls);
  }

  /** A round has only one way to go: which attempt is the last is settled. */
  lemma OneReply(env: Env, round: nat, messages: seq<Message>, a: seq<Event>, b: seq<Event>, r: Reply, s: Reply)
    requires Replies(env, round, messages, a, r) && Replies(env, round, messages, b, s)
    ensures a == b && r == s
  {
    var m: nat :| AttemptsInOrder(env, round, messages, a, 1, m) && r == ReplyOf(env.provider(round, m, messages));
    var n: nat :| AttemptsInOrder(env, round, messages, b, 1, n) && s == ReplyOf(env.provider(round, n, messages));
    assert m < n ==> IsRetryable(env, round, messages, m);
    assert n < m ==> IsRetryable(env, round, messages, n);
  }

  // ----- the end of a chat

  /** The model answered with text: the answer is that text, trimmed. */
  predicate Answered(r: Result, shown: seq<Event>, content: Option<string>) {
    && r.Finished? && r.mode == Provider && r.fallback == None && r.events == shown + [Completed(Provider)]
    && content.Some? && r.answer == Trim(content.value) && r.answer != ""
  }

  /** The chat fell back to a local answer for this reason. */
  predicate FellBack(r: Result, shown: seq<Event>, reason: string) {
    && r.Finished? && r.mode == Deterministic && r.fallback == Some(reason) && r.answer == ""
    && r.events == shown + [Fallback(reason)] + [Completed(Deterministic)]
  }

  predicate HasText(content: Option<string>) {
    content.Some? && Trim(content.value) != ""
  }

  /** What the reply of the last round makes of the chat. */
  ghost predicate Ends(env: Env, round: nat, shown: seq<Event>, reply: Reply, r: Result) {
    match reply
    case Gave(reason) => FellBack(r, shown, reason)
    case Got(content, calls) =>
      if calls != [] then r == Failed && exists i: nat :: Unencoded(env, round, calls, i)
      else if HasText(content) then Answered(r, shown, content)
      else FellBack(r, shown, "provider returned no text or tool call")
  }

  /** The whole chat: rounds with tool calls, and then a round that ends it or no round left. */
  ghost predicate Tells(env: Env, log: seq<RoundLog>, tries: seq<Event>, reply: Reply, r: Result) {
    && LogOk(env, log) && (r.Finished? ==> r.messages == Said(log))
    && if |log| == MAX_ROUNDS
       then FellBack(r, Shown(env, log), "provider exceeded the 4-round tool-call limit")
       else
         && Replies(env, |log| + 1, Said(log), tries, reply)
         && Ends(env, |log| + 1, Shown(env, log) + tries, reply, r)
  }

  lemma LongerLog(env: Env, log: seq<RoundLog>, l: RoundLog)
    requires LogOk(env, log) && |log| < MAX_ROUNDS
    requires Replies(env, |log| + 1, Said(log), l.tries, Got(l.content, l.calls))
    requires l.calls != [] && Executes(env, |log| + 1, l.calls, l.done, l.results)
    ensures LogOk(env, log + [l])
    ensures Said(log + [l]) == Said(log) + [AssistantCalls(l.content, l.calls)] + l.results
    ensures Shown(env, log + [l]) == Shown(env, log) + l.tries + l.done
  {
    hide Replies, Executes;
    var more := log + [l];
    assert more[..|log|] == log;
    forall i: nat | i < |more| ensures RoundOk(env, more, i) {
      if i < |log| {
        assert RoundOk(env, log, i);
        assert more[..i] == log[..i];
      }
    }
  }

  lemma LastRound(env: Env, round: nat, messages: seq<Message>, events: seq<Event>)
    requires 1 <= round <= MAX_ROUNDS
    requires var reply := TryFrom(env, round, messages, 1).1;
             reply.Got? && reply.calls != [] ==> DoCalls(env, round, reply.calls).None?
    ensures var (tries, reply) := TryFrom(env, round, messages, 1);
            var r := RoundsFrom(env, round, messages, events);
            Ends(env, round, events + tries, reply, r) && (r.Finished? ==> r.messages == messages)
  {
    hide TryFrom, DoCalls, Trim;
    var reply := TryFrom(env, round, messages, 1).1;
    if reply.Got? && reply.calls != [] { var at := CallsExecuted(env, round, reply.calls); }
  }

  lemma {:induction false} RoundsTold(env: Env, log: seq<RoundLog>)
    returns (all: seq<RoundLog>, tries: seq<Event>, reply: Reply)
    requires LogOk(env, log)
    ensures Tells(env, all, tries, reply, RoundsFrom(env, |log| + 1, Said(log), Shown(env, log)))
    decreases MAX_ROUNDS - |log|
  {
    hide TryFrom, DoCalls, Trim, Said, Shown, LogOk, Replies, Executes, Ends, RoundsFrom;
    var round, messages, events := |log| + 1, Said(log), Shown(env, log);
    all, tries, reply := log, [], Gave("");
    LogBounded(env, log);
    if |log| == MAX_ROUNDS {
      NoRoundLeft(env, round, messages, events);
    } else {
      TryReplies(env, round, messages);
      var (tries', reply') := TryFrom(env, round, messages, 1);
      tries, reply := tries', reply';
      if reply.Got? && reply.calls != [] && DoCalls(env, round, reply.calls).Some? {
        var (done, results) := DoCalls(env, round, reply.calls).value;
        CallsExecute(env, round, reply.calls);
        var l := RoundLog(tries, reply.content, reply.calls, done, results);
        LongerLog(env, log, l);
        NextRound(env, round, messages, events);
        all, tries, reply := RoundsTold(env, log + [l]);
      } else {
        LastRound(env, round, messages, events);
      }
    }
  }

  lemma LogBounded(env: Env, log: seq<RoundLog>)
    requires LogOk(env, log)
    ensures |log| <= MAX_ROUNDS
  {
  }

  lemma NoRoundLeft(env: Env, round: nat, messages: seq<Message>, events: seq<Event>)
    requires round == MAX_ROUNDS + 1
    ensures var r := RoundsFrom(env, round, messages, events);
            FellBack(r, events, "provider exceeded the 4-round tool-call limit") && r.messages == messages
  {
  }

  lemma NextRound(env: Env, round: nat, messages: seq<Message>, events: seq<Event>)
    requires 1 <= round <= MAX_ROUNDS
    requires var reply := TryFrom(env, round, messages, 1).1;
             reply.Got? && reply.calls != [] && DoCalls(env, round, reply.calls).Some?
    ensures var (tries, reply) := TryFrom(env, round, messages, 1);
            var (done, results) := DoCalls(env, round, reply.calls).value;
            RoundsFrom(env, round, messages, events) ==
            RoundsFrom(env, round + 1, messages + [AssistantCalls(reply.content, reply.calls)] + results,
                       events + tries + done)
  {
    hide TryFrom, DoCalls, Trim;
  }

  /** MAIN: every chat with the provider is told by a log of rounds with tool calls, in each of which
      the reply is that of the last attempt, made with the conversation so far, and every result is
      what the tool gave for that very call. It ends in the first round that makes no call, with that
      reply's text, trimmed, or with a fallback for that round's reason; with a failure if an output
      cannot be encoded; or after four rounds. */
  lemma ChatTold(env: Env) returns (log: seq<RoundLog>, tries: seq<Event>, reply: Reply)
    requires !env.injection && env.configured && env.problem.None?
    ensures Tells(env, log, tries, reply, Chat(env))
  {
    hide RoundsFrom, Tells;
    EmptyLog(env);
    log, tries, reply := RoundsTold(env, []);
  }

  lemma EmptyLog(env: Env)
    ensures LogOk(env, []) && Said([]) == PROMPT && Shown(env, []) == Opening(env)
  {
  }

  /** The log is settled round by round: after the same rounds the next has the same attempts, reply
      and results. */
  lemma OneTelling(env: Env, a: seq<RoundLog>, b: seq<RoundLog>, i: nat)
    requires LogOk(env, a) && LogOk(env, b) && i < |a| && i < |b| && a[..i] == b[..i]
    ensures a[i].tries == b[i].tries && a[i].content == b[i].content && a[i].calls == b[i].calls
    ensures a[i].results == b[i].results
  {
    assert RoundOk(env, a, i) && RoundOk(env, b, i);
    hide LogOk, Said;
    OneReply(env, i + 1, Said(a[..i]), a[i].tries, b[i].tries, Got(a[i].content, a[i].calls),
             Got(b[i].content, b[i].calls));
  }

  /** Before any request: a suspected injection is blocked and answered locally with no fallback, so
      is a chat without a provider, and a problem on the way is the reason of the fallback. */
  lemma NoRequestMade(env: Env)
    requires env.injection || !env.configured || env.problem.Some?
    ensures var r := Chat(env);
            && r.Finished? && r.mode == Deterministic && r.answer == "" && r.messages == []
            && r.fallback == (if env.injection || !env.configured then None else env.problem)
            && (Blocked in r.events <==> env.injection)
            && (Started in r.events <==> !env.injection && env.configured)
            && forall e :: e in r.events ==> !e.Attempt? && !e.CallStarted?
  {
  }
}
