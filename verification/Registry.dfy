/** The gateway's session registry: which session of an edge gets its commands. */
module Registry {
  import opened Text

  datatype Event =
    | Register(edge: string, session: nat)
    | Unregister(edge: string, session: nat)

  /** A registration replaces the entry; only the session that holds the entry removes it. */
  function After(sessions: map<string, nat>, e: Event): map<string, nat> {
    match e
    case Register(edge, session) => sessions[edge := session]
    case Unregister(edge, session) =>
      if edge in sessions && sessions[edge] == session then sessions - {edge} else sessions
  }

  function Run(trace: seq<Event>): map<string, nat> {
    if trace == [] then map[] else After(Run(trace[..|trace| - 1]), trace[|trace| - 1])
  }

  class CommandRegistry {
    var sessions: map<string, nat>

    constructor ()
      ensures sessions == Run([])
    {
      sessions := map[];
    }

    method AddSession(edge: string, session: nat)
      modifies this
      ensures sessions == After(old(sessions), Register(edge, session))
    {
      sessions := sessions[edge := session];
    }

    method RemoveSession(edge: string, session: nat)
      modifies this
      ensures sessions == After(old(sessions), Unregister(edge, session))
    {
      if edge in sessions && sessions[edge] == session { sessions := sessions - {edge}; }
    }
  }

  // ----- the entry, read off the trace

  /** Event `i` is the edge's last registration. */
  ghost predicate IsLast(trace: seq<Event>, edge: string, i: nat) {
    && i < |trace| && trace[i].Register? && trace[i].edge == edge
    && forall j :: i < j < |trace| && trace[j].Register? ==> trace[j].edge != edge
  }

  ghost predicate LeftSince(trace: seq<Event>, i: nat)
    requires i < |trace|
  {
    Unregister(trace[i].edge, trace[i].session) in trace[i + 1..]
  }

  /** The session that should be getting the edge's commands. */
  ghost predicate Holds(trace: seq<Event>, edge: string, session: nat) {
    exists i: nat :: IsLast(trace, edge, i) && trace[i].session == session && !LeftSince(trace, i)
  }

  lemma IsLastBefore(trace: seq<Event>, edge: string, i: nat)
    requires |trace| > 0 && i < |trace| - 1 && trace[|trace| - 1] != Register(edge, trace[|trace| - 1].session)
    ensures var before, last := trace[..|trace| - 1], trace[|trace| - 1];
            && (IsLast(trace, edge, i) <==> IsLast(before, edge, i))
            && (LeftSince(trace, i) <==> LeftSince(before, i) || last == Unregister(trace[i].edge, trace[i].session))
  {
    var before, last := trace[..|trace| - 1], trace[|trace| - 1];
    assert forall j :: 0 <= j < |before| ==> before[j] == trace[j];
    assert trace[i + 1..] == before[i + 1..] + [last];
  }

  lemma LastIsUnique(trace: seq<Event>, edge: string, i: nat, j: nat)
    requires IsLast(trace, edge, i) && IsLast(trace, edge, j)
    ensures i == j
  {
  }

  /** MAIN: after every interleaving of registrations and removals the entry of an edge is its last
      registered session, and there is none exactly when that session has left since. */
  lemma {:induction false} EntryIsLastRegistered(trace: seq<Event>, edge: string, session: nat)
    ensures edge in Run(trace) && Run(trace)[edge] == session <==> Holds(trace, edge, session)
  {
    if trace != [] {
      var n := |trace|;
      var before, last := trace[..n - 1], trace[n - 1];
      EntryIsLastRegistered(before, edge, session);
      if last.Register? && last.edge == edge {
        assert IsLast(trace, edge, n - 1) && !LeftSince(trace, n - 1);
        forall i: nat | IsLast(trace, edge, i) ensures i == n - 1 { LastIsUnique(trace, edge, i, n - 1); }
      } else {
        LastStep(trace, edge, session);
      }
    }
  }

  lemma LastStep(trace: seq<Event>, edge: string, session: nat)
    requires trace != [] && !(trace[|trace| - 1].Register? && trace[|trace| - 1].edge == edge)
    ensures var before, last := trace[..|trace| - 1], trace[|trace| - 1];
            Holds(trace, edge, session) <==> Holds(before, edge, session) && last != Unregister(edge, session)
  {
    var n := |trace|;
    var before, last := trace[..n - 1], trace[n - 1];
    if Holds(trace, edge, session) {
      var i: nat :| IsLast(trace, edge, i) && trace[i].session == session && !LeftSince(trace, i);
      IsLastBefore(trace, edge, i);
      assert IsLast(before, edge, i) && !LeftSince(before, i);
    }
    if Holds(before, edge, session) && last != Unregister(edge, session) {
      var i: nat :| IsLast(before, edge, i) && before[i].session == session && !LeftSince(before, i);
      IsLastBefore(trace, edge, i);
      assert IsLast(trace, edge, i) && !LeftSince(trace, i);
    }
  }

  // ----- sessions with identifiers of their own

  /** Session identifiers are drawn once, and a session leaves only after it registered. */
  ghost predicate Proper(trace: seq<Event>) {
    && (forall i, j :: 0 <= i < j < |trace| && trace[i].Register? && trace[j].Register? ==>
         trace[i].session != trace[j].session)
    && (forall j :: 0 <= j < |trace| && trace[j].Unregister? ==>
          exists i :: 0 <= i < j && trace[i] == Register(trace[j].edge, trace[j].session))
  }

  /** MAIN: an edge is online exactly when its last registered session has not left at all, so a
      stale session that ends never takes a newer one offline. */
  lemma OnlineExactly(trace: seq<Event>, edge: string)
    requires Proper(trace)
    ensures edge in Run(trace) <==>
              exists i: nat :: IsLast(trace, edge, i) && Unregister(edge, trace[i].session) !in trace
  {
    if edge in Run(trace) {
      EntryIsLastRegistered(trace, edge, Run(trace)[edge]);
      var i: nat :| IsLast(trace, edge, i) && trace[i].session == Run(trace)[edge] && !LeftSince(trace, i);
      LeavesAfterRegistering(trace, i);
    }
    if i: nat :| IsLast(trace, edge, i) && Unregister(edge, trace[i].session) !in trace {
      assert !LeftSince(trace, i);
      assert Holds(trace, edge, trace[i].session);
      EntryIsLastRegistered(trace, edge, trace[i].session);
    }
  }

  lemma LeavesAfterRegistering(trace: seq<Event>, i: nat)
    requires Proper(trace) && i < |trace| && trace[i].Register? && !LeftSince(trace, i)
    ensures Unregister(trace[i].edge, trace[i].session) !in trace
  {
    forall j | 0 <= j < |trace| ensures trace[j] != Unregister(trace[i].edge, trace[i].session) {
      if i < j { assert trace[i + 1..][j - i - 1] == trace[j]; }
    }
  }

  /** A session other than the last registered one leaves without effect. */
  lemma StaleSessionLeaves(trace: seq<Event>, edge: string, i: nat, stale: nat)
    requires IsLast(trace, edge, i) && trace[i].session != stale
    ensures Run(trace + [Unregister(edge, stale)]) == Run(trace)
  {
    var longer := trace + [Unregister(edge, stale)];
    assert longer[..|longer| - 1] == trace;
    if edge in Run(trace) {
      EntryIsLastRegistered(trace, edge, Run(trace)[edge]);
      var j: nat :| IsLast(trace, edge, j) && trace[j].session == Run(trace)[edge];
      LastIsUnique(trace, edge, i, j);
    }
  }
}
