/** The fixed-window limiter of the tool endpoint. One call reads the clock several times, and
    all subjects share a map that every call purges. */
module RateLimit {
  import opened Text

  /** One minute in nanoseconds. */
  const MINUTE: nat := 60_000_000_000

  datatype Window = Window(start: nat, requests: nat)

  /** A request together with the clock readings made while deciding it: one per stored window
      during the purge, one for the window it may open, one for the expiry check and one for the
      window it may renew. A reading that is not made counts as the one before it. */
  datatype Call = Call(subject: string, purge: string -> nat, openedAt: nat, checkedAt: nat, renewedAt: nat)

  /** The window a call is counted in, given its subject's surviving window. */
  function CurrentWindow(stored: Option<Window>, c: Call): Window {
    var w := if stored.Some? then stored.value else Window(c.openedAt, 0);
    if c.checkedAt >= w.start + MINUTE then Window(c.renewedAt, 0) else w
  }

  function Survives(w: Window, reading: nat): bool {
    reading < w.start + MINUTE
  }

  function Count(limit: nat, w: Window): (Window, bool) {
    if w.requests >= limit then (w, false) else (w.(requests := w.requests + 1), true)
  }

  /** The limiter's state after a call, and whether the call is admitted. */
  function Permit(limit: nat, windows: map<string, Window>, c: Call): (map<string, Window>, bool) {
    var kept := map s | s in windows && Survives(windows[s], c.purge(s)) :: windows[s];
    var stored := if c.subject in kept then Some(kept[c.subject]) else None;
    var (w, ok) := Count(limit, CurrentWindow(stored, c));
    (kept[c.subject := w], ok)
  }

  /** The limiter as the endpoint holds it. */
  class Limiter {
    const limit: nat
    var windows: map<string, Window>

    constructor (limit: nat)
      ensures this.limit == limit && windows == map[]
    {
      this.limit, windows := limit, map[];
    }

    /** `permits_request`: purge every expired window, then look up or open the caller's. */
    method PermitsRequest(c: Call) returns (ok: bool)
      modifies this
      ensures (windows, ok) == Permit(limit, old(windows), c)
    {
      windows := map s | s in windows && Survives(windows[s], c.purge(s)) :: windows[s];
      ghost var kept := windows;
      if c.subject !in windows {
        windows := windows[c.subject := Window(c.openedAt, 0)];
      }
      var w := windows[c.subject];
      if c.checkedAt >= w.start + MINUTE {
        w := Window(c.renewedAt, 0);
        windows := windows[c.subject := w];
      }
      assert windows == kept[c.subject := w];
      if w.requests >= limit {
        return false;
      }
      windows := windows[c.subject := w.(requests := w.requests + 1)];
      assert windows == kept[c.subject := w.(requests := w.requests + 1)];
      return true;
    }
  }

  // ----- runs

  /** The clock never goes back, within a call or between calls. */
  ghost predicate ClockRun(calls: seq<Call>) {
    && (forall i :: 0 <= i < |calls| ==> calls[i].openedAt <= calls[i].checkedAt <= calls[i].renewedAt)
    && (forall i, s :: 0 <= i < |calls| ==> calls[i].purge(s) <= calls[i].openedAt)
    && (forall i, j, s :: 0 <= i < j < |calls| ==> calls[i].renewedAt <= calls[j].purge(s))
  }

  function State(limit: nat, calls: seq<Call>, n: nat): map<string, Window>
    requires n <= |calls|
  {
    if n == 0 then map[] else Permit(limit, State(limit, calls, n - 1), calls[n - 1]).0
  }

  function Admitted(limit: nat, calls: seq<Call>, i: nat): bool
    requires i < |calls|
  {
    Permit(limit, State(limit, calls, i), calls[i]).1
  }

  // ----- one subject on its own

  /** A window of its own for one subject: no shared map, nobody else's purge. */
  function OwnWindow(limit: nat, calls: seq<Call>, subject: string, n: nat): Option<Window>
    requires n <= |calls|
  {
    if n == 0 then None
    else
      var before := OwnWindow(limit, calls, subject, n - 1);
      if calls[n - 1].subject == subject then Some(Count(limit, OwnCurrent(before, calls[n - 1])).0) else before
  }

  function OwnCurrent(own: Option<Window>, c: Call): Window {
    CurrentWindow(if own.Some? && Survives(own.value, c.purge(c.subject)) then own else None, c)
  }

  /** The window that call `i` of `subject` is counted in, and the decision. */
  function WindowOf(limit: nat, calls: seq<Call>, subject: string, i: nat): Window
    requires i < |calls|
  {
    OwnCurrent(OwnWindow(limit, calls, subject, i), calls[i])
  }

  function OwnAdmits(limit: nat, calls: seq<Call>, subject: string, i: nat): bool
    requires i < |calls|
  {
    Count(limit, WindowOf(limit, calls, subject, i)).1
  }

  /** Refinement: the shared map holds the subject's own window, or has dropped it after expiry. */
  lemma {:induction false} SharedMapHoldsOwnWindow(limit: nat, calls: seq<Call>, subject: string, n: nat)
    requires ClockRun(calls) && n <= |calls|
    ensures var shared, own := State(limit, calls, n), OwnWindow(limit, calls, subject, n);
            if subject in shared then own == Some(shared[subject])
            else own.None? || (n > 0 && own.value.start + MINUTE <= calls[n - 1].renewedAt)
  {
    if n > 0 {
      SharedMapHoldsOwnWindow(limit, calls, subject, n - 1);
      assert n > 1 ==> calls[n - 2].renewedAt <= calls[n - 1].purge(subject);
    }
  }

  /** MAIN: the shared map with its purge decides every call exactly as the subject's own window
      would. */
  lemma SharedDecidesAsOwn(limit: nat, calls: seq<Call>, i: nat)
    requires ClockRun(calls) && i < |calls|
    ensures Admitted(limit, calls, i) == OwnAdmits(limit, calls, calls[i].subject, i)
  {
    SharedMapHoldsOwnWindow(limit, calls, calls[i].subject, i);
    assert i > 0 ==> calls[i - 1].renewedAt <= calls[i].purge(calls[i].subject);
  }

  // ----- windows of one subject

  /** The instant of a decision: the last clock reading of the call. */
  function Instant(limit: nat, calls: seq<Call>, i: nat): nat
    requires i < |calls|
  {
    var w := WindowOf(limit, calls, calls[i].subject, i);
    if w.start > calls[i].checkedAt then calls[i].renewedAt else calls[i].checkedAt
  }

  lemma InstantInWindow(limit: nat, calls: seq<Call>, i: nat)
    requires ClockRun(calls) && i < |calls|
    ensures var w := WindowOf(limit, calls, calls[i].subject, i);
            w.start <= Instant(limit, calls, i) < w.start + MINUTE
  {
    OwnWindowStarted(limit, calls, calls[i].subject, i);
    assert i > 0 ==> calls[i - 1].renewedAt <= calls[i].purge(calls[i].subject);
  }

  lemma {:induction false} OwnWindowStarted(limit: nat, calls: seq<Call>, subject: string, n: nat)
    requires ClockRun(calls) && n <= |calls|
    ensures var own := OwnWindow(limit, calls, subject, n); own.Some? ==>
        n > 0 && own.value.start <= calls[n - 1].renewedAt
  {
    if n > 0 {
      OwnWindowStarted(limit, calls, subject, n - 1);
      assert n > 1 ==> calls[n - 2].renewedAt <= calls[n - 1].purge(subject);
    }
  }

  /** The calls of `subject` among the first `n` that were admitted in the window started at `start`. */
  ghost function InWindow(limit: nat, calls: seq<Call>, subject: string, n: nat, start: nat): set<nat>
    requires n <= |calls|
  {
    set i | 0 <= i < n && calls[i].subject == subject && OwnAdmits(limit, calls, subject, i) &&
            WindowOf(limit, calls, subject, i).start == start
  }

  /** A subject's windows follow each other at least a minute apart, and the current one counts
      the calls admitted in it. */
  lemma {:induction false} WindowsApart(limit: nat, calls: seq<Call>, subject: string, n: nat)
    requires ClockRun(calls) && n <= |calls|
    ensures var own := OwnWindow(limit, calls, subject, n);
            && (own.None? ==> forall i :: 0 <= i < n ==> calls[i].subject != subject)
            && (own.Some? ==> own.value.requests <= limit)
            && (own.Some? ==> forall i :: 0 <= i < n && calls[i].subject == subject ==>
                                var s := WindowOf(limit, calls, subject, i).start;
                                s == own.value.start || s + MINUTE <= own.value.start)
  {
    if n > 0 {
      WindowsApart(limit, calls, subject, n - 1);
    }
  }

  /** Before call `i` of the subject, its window has as many calls in it as it counts. */
  lemma WindowSoFar(limit: nat, calls: seq<Call>, subject: string, i: nat)
    requires ClockRun(calls) && i < |calls| && calls[i].subject == subject
    requires var own := OwnWindow(limit, calls, subject, i);
             own.Some? ==> |InWindow(limit, calls, subject, i, own.value.start)| == own.value.requests
    ensures var w := WindowOf(limit, calls, subject, i); |InWindow(limit, calls, subject, i, w.start)| == w.requests
  {
    hide WindowOf, InWindow, OwnWindow, ClockRun;
    if OwnWindow(limit, calls, subject, i) != Some(WindowOf(limit, calls, subject, i)) {
      NewWindowEmpty(limit, calls, subject, i);
    }
  }

  lemma OwnWindowStep(limit: nat, calls: seq<Call>, subject: string, n: nat)
    requires 0 < n <= |calls|
    ensures calls[n - 1].subject != subject ==>
        OwnWindow(limit, calls, subject, n) == OwnWindow(limit, calls, subject, n - 1)
    ensures calls[n - 1].subject == subject ==>
              var w := WindowOf(limit, calls, subject, n - 1);
              OwnWindow(limit, calls, subject, n) ==
                Some(if OwnAdmits(limit, calls, subject, n - 1) then Window(w.start, w.requests + 1) else w)
  {
  }

  lemma {:induction false} WindowCounts(limit: nat, calls: seq<Call>, subject: string, n: nat)
    requires ClockRun(calls) && n <= |calls|
    ensures var own := OwnWindow(limit, calls, subject, n);
            own.Some? ==> |InWindow(limit, calls, subject, n, own.value.start)| == own.value.requests
  {
    if n > 0 {
      hide WindowOf, InWindow, OwnWindow, OwnAdmits, ClockRun;
      WindowCounts(limit, calls, subject, n - 1);
      OwnWindowStep(limit, calls, subject, n);
      var own := OwnWindow(limit, calls, subject, n);
      if own.Some? { InWindowStep(limit, calls, subject, n, own.value.start); }
      if calls[n - 1].subject == subject { WindowSoFar(limit, calls, subject, n - 1); }
    }
  }

  predicate AdmittedIn(limit: nat, calls: seq<Call>, subject: string, i: nat, start: nat)
    requires i < |calls|
  {
    calls[i].subject == subject && OwnAdmits(limit, calls, subject, i) &&
      WindowOf(limit, calls, subject, i).start == start
  }

  lemma InWindowStep(limit: nat, calls: seq<Call>, subject: string, n: nat, start: nat)
    requires 0 < n <= |calls|
    ensures |InWindow(limit, calls, subject, n, start)| ==
              |InWindow(limit, calls, subject, n - 1, start)| + if AdmittedIn(limit, calls, subject, n - 1, start)
                then 1 else 0
  {
    var before, now := InWindow(limit, calls, subject, n - 1, start), InWindow(limit, calls, subject, n, start);
    hide OwnAdmits, WindowOf;
    assert now == before + if AdmittedIn(limit, calls, subject, n - 1, start) then {n - 1} else {};
  }

  /** A window that a call opens or renews has no earlier calls in it. */
  lemma NewWindowEmpty(limit: nat, calls: seq<Call>, subject: string, i: nat)
    requires ClockRun(calls) && i < |calls| && calls[i].subject == subject
    requires OwnWindow(limit, calls, subject, i) != Some(WindowOf(limit, calls, subject, i))
    ensures WindowOf(limit, calls, subject, i).requests == 0
    ensures InWindow(limit, calls, subject, i, WindowOf(limit, calls, subject, i).start) == {}
  {
    WindowsApart(limit, calls, subject, i);
  }

  /** MAIN: each window admits at most the limit. */
  lemma {:induction false} WindowAdmitsAtMostLimit(limit: nat, calls: seq<Call>, subject: string, n: nat, start: nat)
    requires ClockRun(calls) && n <= |calls|
    ensures |InWindow(limit, calls, subject, n, start)| <= limit
  {
    if n > 0 {
      WindowAdmitsAtMostLimit(limit, calls, subject, n - 1, start);
      InWindowStep(limit, calls, subject, n, start);
      WindowCounts(limit, calls, subject, n);
      WindowsApart(limit, calls, subject, n);
    }
  }

  /** MAIN: a call is admitted exactly when fewer calls than the limit have been admitted before it in
      the window it is counted in. */
  lemma AdmittedExactly(limit: nat, calls: seq<Call>, i: nat)
    requires ClockRun(calls) && i < |calls|
    ensures var subject := calls[i].subject;
            Admitted(limit, calls, i) <==>
            |InWindow(limit, calls, subject, i, WindowOf(limit, calls, subject, i).start)| < limit
  {
    hide InWindow, OwnWindow, ClockRun, Admitted;
    SharedDecidesAsOwn(limit, calls, i);
    WindowCounts(limit, calls, calls[i].subject, i);
    WindowSoFar(limit, calls, calls[i].subject, i);
  }

  /** No call of the subject before call `i`, or none after call `j`. */
  ghost predicate NoneSince(calls: seq<Call>, subject: string, j: nat, i: nat) {
    forall k :: j <= k < i && k < |calls| ==> calls[k].subject != subject
  }

  lemma {:induction false} SameOwnWindow(limit: nat, calls: seq<Call>, subject: string, j: nat, i: nat)
    requires j <= i <= |calls| && NoneSince(calls, subject, j, i)
    ensures OwnWindow(limit, calls, subject, i) == OwnWindow(limit, calls, subject, j)
    decreases i
  {
    if j < i { SameOwnWindow(limit, calls, subject, j, i - 1); }
  }

  /** MAIN: a subject's next call is counted in the same window exactly while the clock has not passed
      a minute from its start; otherwise, as for its first call, its window starts during the call. */
  lemma WindowRule(limit: nat, calls: seq<Call>, j: nat, i: nat)
    requires ClockRun(calls) && j < i < |calls| && calls[j].subject == calls[i].subject
    requires NoneSince(calls, calls[i].subject, j + 1, i)
    ensures var subject := calls[i].subject;
            var a, b := WindowOf(limit, calls, subject, j).start, WindowOf(limit, calls, subject, i).start;
            if calls[i].checkedAt < a + MINUTE then b == a
            else calls[i].openedAt <= b <= calls[i].renewedAt && a + MINUTE <= b
  {
    SameOwnWindow(limit, calls, calls[i].subject, j + 1, i);
    OwnWindowStep(limit, calls, calls[i].subject, j + 1);
    assert calls[i].purge(calls[i].subject) <= calls[i].openedAt;
  }

  lemma FirstWindow(limit: nat, calls: seq<Call>, i: nat)
    requires ClockRun(calls) && i < |calls| && NoneSince(calls, calls[i].subject, 0, i)
    ensures var w := WindowOf(limit, calls, calls[i].subject, i);
            calls[i].openedAt <= w.start <= calls[i].renewedAt && w.requests == 0
  {
    SameOwnWindow(limit, calls, calls[i].subject, 0, i);
  }

  /** Two windows of a subject are the same or at least a minute apart. */
  lemma WindowStartsApart(limit: nat, calls: seq<Call>, subject: string, i: nat, j: nat)
    requires ClockRun(calls) && i < |calls| && j < |calls| && calls[i].subject == subject && calls[j].subject == subject
    ensures var a, b := WindowOf(limit, calls, subject, i).start, WindowOf(limit, calls, subject, j).start;
            a == b || a + MINUTE <= b || b + MINUTE <= a
  {
    WindowsApart(limit, calls, subject, if i < j then j + 1 else i + 1);
  }

  /** The calls of `subject` admitted in the minute that begins at `from`. */
  ghost function InMinute(limit: nat, calls: seq<Call>, subject: string, from: nat): set<nat> {
    set i | 0 <= i < |calls| && calls[i].subject == subject && Admitted(limit, calls, i) &&
            from <= Instant(limit, calls, i) < from + MINUTE
  }

  /** Calls admitted in one minute belong to windows whose starts lie within two minutes. */
  lemma MinuteMember(limit: nat, calls: seq<Call>, subject: string, from: nat, i: nat)
    requires ClockRun(calls) && i in InMinute(limit, calls, subject, from)
    ensures var start := WindowOf(limit, calls, subject, i).start;
            from < start + MINUTE && start < from + MINUTE && i in InWindow(limit, calls, subject, |calls|, start)
  {
    InstantInWindow(limit, calls, i);
    SharedDecidesAsOwn(limit, calls, i);
  }

  lemma OnlyTwoWindows(limit: nat, calls: seq<Call>, subject: string, from: nat, a: nat, b: nat, c: nat)
    requires ClockRun(calls) && {a, b, c} <= InMinute(limit, calls, subject, from)
    requires WindowOf(limit, calls, subject, a).start != WindowOf(limit, calls, subject, b).start
    ensures c in InWindow(limit, calls, subject, |calls|, WindowOf(limit, calls, subject, a).start) ||
            c in InWindow(limit, calls, subject, |calls|, WindowOf(limit, calls, subject, b).start)
  {
    assert a in {a, b, c} && b in {a, b, c} && c in {a, b, c};
    MinuteMember(limit, calls, subject, from, a);
    MinuteMember(limit, calls, subject, from, b);
    MinuteMember(limit, calls, subject, from, c);
    WindowStartsApart(limit, calls, subject, a, b);
    WindowStartsApart(limit, calls, subject, a, c);
    WindowStartsApart(limit, calls, subject, b, c);
  }

  lemma {:induction false} SubsetSize<T>(a: set<T>, b: set<T>)
    requires a <= b
    ensures |a| <= |b|
  {
    if a != {} {
      var x :| x in a;
      SubsetSize(a - {x}, b - {x});
    }
  }

  /** MAIN: any minute, wherever it begins, admits at most twice the limit for one subject. */
  lemma MinuteAdmitsAtMostTwiceLimit(limit: nat, calls: seq<Call>, subject: string, from: nat)
    requires ClockRun(calls)
    ensures |InMinute(limit, calls, subject, from)| <= 2 * limit
  {
    hide InWindow, WindowOf, Instant, ClockRun, Admitted;
    var all, n := InMinute(limit, calls, subject, from), |calls|;
    if all != {} {
      var a :| a in all;
      var first := WindowOf(limit, calls, subject, a).start;
      var one := InWindow(limit, calls, subject, n, first);
      WindowAdmitsAtMostLimit(limit, calls, subject, n, first);
      if b :| b in all && WindowOf(limit, calls, subject, b).start != first {
        var second := WindowOf(limit, calls, subject, b).start;
        var two := InWindow(limit, calls, subject, n, second);
        WindowAdmitsAtMostLimit(limit, calls, subject, n, second);
        forall c | c in all ensures c in one + two {
          OnlyTwoWindows(limit, calls, subject, from, a, b, c);
        }
        SubsetSize(all, one + two);
        assert |one + two| <= |one| + |two|;
      } else {
        forall c | c in all ensures c in one {
          MinuteMember(limit, calls, subject, from, c);
        }
        SubsetSize(all, one);
      }
    }
  }

  /** A window of the subject starts strictly within the minute. */
  ghost predicate WindowStartsInside(limit: nat, calls: seq<Call>, subject: string, from: nat) {
    exists i :: 0 <= i < |calls| && calls[i].subject == subject &&
      from < WindowOf(limit, calls, subject, i).start < from + MINUTE
  }

  /** MAIN: a minute in which no window of the subject starts admits at most the limit; only a
      minute that spans two windows can admit more. */
  lemma QuietMinuteAdmitsAtMostLimit(limit: nat, calls: seq<Call>, subject: string, from: nat)
    requires ClockRun(calls) && !WindowStartsInside(limit, calls, subject, from)
    ensures |InMinute(limit, calls, subject, from)| <= limit
  {
    hide InWindow, WindowOf, Instant, ClockRun, Admitted;
    var all, n := InMinute(limit, calls, subject, from), |calls|;
    if all != {} {
      var a :| a in all;
      var start := WindowOf(limit, calls, subject, a).start;
      MinuteMember(limit, calls, subject, from, a);
      WindowAdmitsAtMostLimit(limit, calls, subject, n, start);
      forall c | c in all ensures c in InWindow(limit, calls, subject, n, start) {
        MinuteMember(limit, calls, subject, from, c);
        WindowStartsApart(limit, calls, subject, a, c);
      }
      SubsetSize(all, InWindow(limit, calls, subject, n, start));
    }
  }

  // ----- twice the limit is reached

  /** A call whose clock readings are all `t`, except that it may start earlier. */
  function At(started: nat, t: nat): Call {
    Call("s", _ => started, started, t, t)
  }

  /** A slow first call that opens a window and is decided at its last instant, more calls at that
      instant up to the limit, and as many right after the window has ended. */
  function BurstCall(limit: nat, i: nat): Call {
    if i == 0 then At(0, MINUTE - 1) else if i < limit then At(MINUTE - 1, MINUTE - 1) else At(MINUTE, MINUTE)
  }

  function Burst(limit: nat): (calls: seq<Call>)
    ensures |calls| == 2 * limit && forall i :: 0 <= i < |calls| ==> calls[i] == BurstCall(limit, i)
  {
    seq(2 * limit, i requires 0 <= i < 2 * limit => BurstCall(limit, i))
  }

  lemma BurstIsClockRun(limit: nat)
    requires limit >= 1
    ensures ClockRun(Burst(limit))
  {
    var calls := Burst(limit);
    forall i, s | 0 <= i < |calls|
      ensures calls[i].purge(s) == calls[i].openedAt
    {
      assert calls[i] == BurstCall(limit, i);
    }
  }

  lemma {:induction false} BurstWindows(limit: nat, n: nat)
    requires limit >= 1 && 0 < n <= 2 * limit
    ensures OwnWindow(limit, Burst(limit), "s", n) ==
            Some(if n <= limit then Window(0, n) else Window(MINUTE, n - limit))
  {
    var calls := Burst(limit);
    if n == 1 {
      assert OwnWindow(limit, calls, "s", 0).None?;
    } else {
      BurstWindows(limit, n - 1);
    }
    assert calls[n - 1] == BurstCall(limit, n - 1);
  }

  lemma BurstWindowOf(limit: nat, i: nat)
    requires limit >= 1 && i < 2 * limit
    ensures WindowOf(limit, Burst(limit), "s", i) == if i < limit then Window(0, i) else Window(MINUTE, i - limit)
  {
    if i > 0 { BurstWindows(limit, i); }
    assert Burst(limit)[i] == BurstCall(limit, i);
  }

  lemma BurstAdmits(limit: nat, i: nat)
    requires limit >= 1 && i < 2 * limit
    ensures i in InMinute(limit, Burst(limit), "s", MINUTE - 1)
  {
    hide OwnWindow, WindowOf, ClockRun, Admitted, Burst;
    BurstIsClockRun(limit);
    SharedDecidesAsOwn(limit, Burst(limit), i);
    BurstWindowOf(limit, i);
    assert Burst(limit)[i] == BurstCall(limit, i);
  }

  /** The first `n` call numbers. */
  function First(n: nat): (s: set<nat>)
    ensures |s| == n && forall i: nat :: i in s <==> i < n
  {
    if n == 0 then {} else First(n - 1) + {n - 1}
  }

  /** MAIN: for every limit the bound is tight: there is a run in which one minute admits twice the
      limit. */
  lemma TwiceLimitIsReached(limit: nat)
    requires limit >= 1
    ensures ClockRun(Burst(limit)) && |InMinute(limit, Burst(limit), "s", MINUTE - 1)| == 2 * limit
  {
    BurstIsClockRun(limit);
    var all := InMinute(limit, Burst(limit), "s", MINUTE - 1);
    forall i | i in First(2 * limit) ensures i in all { BurstAdmits(limit, i); }
    assert all == First(2 * limit);
  }
}
