/** The agent's counters, as `record_observation` keeps them over all chats. */
module Counters {
  import opened ToolLoop

  const U64_MAX: nat := 0xFFFF_FFFF_FFFF_FFFF

  /** `saturating_add`. */
  function Add(x: nat, n: nat): nat {
    if x + n > U64_MAX then U64_MAX else x + n
  }

  datatype Counts = Counts(
    requests: nat, successes: nat, deterministic: nat, failures: nat, fallbacks: nat,
    attempts: nat, calls: nat, callFailures: nat, blocks: nat, filtered: nat)

  const ZERO: Counts := Counts(0, 0, 0, 0, 0, 0, 0, 0, 0, 0)

  function FilteredItems(events: seq<Event>): nat {
    if events == [] then 0
    else
      var last := events[|events| - 1];
      FilteredItems(events[..|events| - 1]) + if last.Filtered? then last.items else 0
  }

  /** The counters after the events of a chat. */
  function Tallied(c: Counts, events: seq<Event>): Counts {
    c.(attempts := Add(c.attempts, Number(events, Attempts)), calls := Add(c.calls, Number(events, CallsStarted)),
       callFailures := Add(c.callFailures, Number(events, CallsFailed)),
       blocks := Add(c.blocks, Number(events, Blocks)),
       filtered := Add(c.filtered, FilteredItems(events)))
  }

  /** The counters after one chat. */
  function Recorded(c: Counts, r: Result): Counts {
    var c1 := c.(requests := Add(c.requests, 1));
    match r
    case Failed => c1.(failures := Add(c.failures, 1))
    case Finished(events, _, mode, _, fallback) =>
      Tallied(c1.(successes := if mode == Provider then Add(c.successes, 1) else c.successes,
                  deterministic := if mode == Deterministic then Add(c.deterministic, 1) else c.deterministic,
                  fallbacks := if fallback.Some? then Add(c.fallbacks, 1) else c.fallbacks), events)
  }

  function RecordedAll(results: seq<Result>): Counts {
    if results == [] then ZERO else Recorded(RecordedAll(results[..|results| - 1]), results[|results| - 1])
  }

  class Observability {
    var requests: nat
    var successes: nat
    var deterministic: nat
    var failures: nat
    var fallbacks: nat
    var attempts: nat
    var calls: nat
    var callFailures: nat
    var blocks: nat
    var filtered: nat

    function View(): Counts
      reads this
    {
      Counts(requests, successes, deterministic, failures, fallbacks, attempts, calls, callFailures, blocks, filtered)
    }

    constructor ()
      ensures View() == ZERO
    {
      requests, successes, deterministic, failures, fallbacks := 0, 0, 0, 0, 0;
      attempts, calls, callFailures, blocks, filtered := 0, 0, 0, 0, 0;
    }

    /** Counts the events of a chat, one by one. */
    method TallyEvents(events: seq<Event>)
      requires Fits(View())
      modifies this
      ensures View() == Tallied(old(View()), events)
    {
      for i := 0 to |events|
        invariant View() == Tallied(old(View()), events[..i])
      {
        assert events[..i + 1][..i] == events[..i];
        match events[i] {
          case Attempt(_, _) => attempts := Add(attempts, 1);
          case CallStarted(_) => calls := Add(calls, 1);
          case CallDone(_, _, success) => if !success { callFailures := Add(callFailures, 1); }
          case Blocked => blocks := Add(blocks, 1);
          case Filtered(items) => filtered := Add(filtered, items);
          case _ =>
        }
      }
      assert events[..|events|] == events;
    }

    method Record(r: Result)
      requires Fits(View())
      modifies this
      ensures View() == Recorded(old(View()), r) && Fits(View())
    {
      requests := Add(requests, 1);
      if r.Failed? {
        failures := Add(failures, 1);
        return;
      }
      match r.mode {
        case Provider => successes := Add(successes, 1);
        case Deterministic => deterministic := Add(deterministic, 1);
      }
      if r.fallback.Some? { fallbacks := Add(fallbacks, 1); }
      TallyEvents(r.events);
    }
  }

  /** Every counter is a 64-bit number. */
  predicate Fits(c: Counts) {
    && c.requests <= U64_MAX && c.successes <= U64_MAX && c.deterministic <= U64_MAX && c.failures <= U64_MAX &&
       c.fallbacks <= U64_MAX
    && c.attempts <= U64_MAX && c.calls <= U64_MAX && c.callFailures <= U64_MAX && c.blocks <= U64_MAX &&
       c.filtered <= U64_MAX
  }

  /** The laws between the counters; the first is exact until the sum reaches the maximum. */
  ghost predicate Consistent(c: Counts) {
    && c.requests == Add(c.successes + c.deterministic + c.failures, 0)
    && c.fallbacks <= c.deterministic && c.callFailures <= c.calls
  }

  lemma RecordKeeps(c: Counts, r: Result)
    requires Fits(c) && Consistent(c) && (r.Finished? ==> GoodResult(r))
    ensures Fits(Recorded(c, r)) && Consistent(Recorded(c, r))
  {
    hide Number, FilteredItems, StartedCalls, AllCalls, Conversation;
  }

  /** MAIN: over every sequence of chats, with any providers and tools, requests are the provider
      answers, local answers and failures together, local answers cover the fallbacks, and failed
      tool calls are tool calls; saturation breaks none of it. */
  lemma {:induction false} CountersStayConsistent(envs: seq<Env>)
    ensures var c := RecordedAll(Chats(envs)); Fits(c) && Consistent(c)
    ensures var c := RecordedAll(Chats(envs)); c.requests < U64_MAX ==>
        c.requests == c.successes + c.deterministic + c.failures
  {
    if envs != [] {
      var n := |envs| - 1;
      CountersStayConsistent(envs[..n]);
      hide Chat, Recorded, Fits, Consistent, GoodResult;
      assert Chats(envs)[..n] == Chats(envs[..n]);
      ChatIsGood(envs[n]);
      RecordKeeps(RecordedAll(Chats(envs[..n])), Chat(envs[n]));
    }
    ExactBelowSaturation(RecordedAll(Chats(envs)));
  }

  lemma ExactBelowSaturation(c: Counts)
    requires Consistent(c)
    ensures c.requests < U64_MAX ==> c.requests == c.successes + c.deterministic + c.failures
  {
  }

  // ----- every counter is a total

  datatype Counter =
    Requests | Answers | LocalAnswers | Failures | FallBacks | ProviderAttempts | ToolCalls | ToolFailures |
    BlockedChats | FilteredOut

  function Reading(c: Counts, what: Counter): nat {
    match what
    case Requests => c.requests
    case Answers => c.successes
    case LocalAnswers => c.deterministic
    case Failures => c.failures
    case FallBacks => c.fallbacks
    case ProviderAttempts => c.attempts
    case ToolCalls => c.calls
    case ToolFailures => c.callFailures
    case BlockedChats => c.blocks
    case FilteredOut => c.filtered
  }

  function One(b: bool): nat {
    if b then 1 else 0
  }

  /** What one chat is worth. */
  function Worth(r: Result, what: Counter): nat {
    var events := if r.Finished? then r.events else [];
    match what
    case Requests => 1
    case Answers => One(r.Finished? && r.mode == Provider)
    case LocalAnswers => One(r.Finished? && r.mode == Deterministic)
    case Failures => One(r.Failed?)
    case FallBacks => One(r.Finished? && r.fallback.Some?)
    case ProviderAttempts => Number(events, Attempts)
    case ToolCalls => Number(events, CallsStarted)
    case ToolFailures => Number(events, CallsFailed)
    case BlockedChats => Number(events, Blocks)
    case FilteredOut => FilteredItems(events)
  }

  function TotalWorth(results: seq<Result>, what: Counter): nat {
    if results == [] then 0 else TotalWorth(results[..|results| - 1], what) + Worth(results[|results| - 1], what)
  }

  lemma RecordAdds(c: Counts, r: Result, what: Counter)
    requires Reading(c, what) <= U64_MAX
    ensures Reading(Recorded(c, r), what) == Add(Reading(c, what), Worth(r, what))
  {
  }

  /** MAIN: after any chats every counter is the exact total of what the chats were worth, or the
      largest 64-bit number if the total is larger. */
  lemma {:induction false} CountersAreTotals(results: seq<Result>, what: Counter)
    ensures var total := TotalWorth(results, what);
            Reading(RecordedAll(results), what) == if total <= U64_MAX then total else U64_MAX
  {
    if results != [] {
      CountersAreTotals(results[..|results| - 1], what);
      hide Recorded, Reading, Worth;
      RecordAdds(RecordedAll(results[..|results| - 1]), results[|results| - 1], what);
    } else {
      AtZero(what);
    }
  }

  lemma AtZero(what: Counter)
    ensures Reading(ZERO, what) == 0
  {
  }

  function Chats(envs: seq<Env>): seq<Result> {
    seq(|envs|, i requires 0 <= i < |envs| => Chat(envs[i]))
  }
}
