/** Which reply a discovery command gets, and when: exact conditions for every turn of a session and
    for whole sessions. */
module Replies {
  import opened Text
  import opened Discovery

  lemma TurnExtends(st: State, e: Event)
    ensures st.effects <= Turn(st, e).effects
  {
  }

  /** What a turn adds to the session's effects. */
  ghost function Added(st: State, e: Event): seq<Effect> {
    TurnExtends(st, e);
    Turn(st, e).effects[|st.effects|..]
  }

  // ----- one turn

  ghost predicate WaitsFor(st: State, job: string, c: nat) {
    job in st.pending && st.pending[job].channel == c
  }

  /** The reply that the event calls for on channel `c`. */
  ghost predicate ReplyDue(st: State, e: Event, c: nat, r: Reply) {
    match e
    case Nack(ack, reason, _, _) =>
      && (exists job :: Answers(st.pending, ack, job) && st.pending[job].channel == c)
      && r == Refused(if reason.Some? then reason.value else "runtime rejected discovery request")
    case Finding(report, ours, saved, written) =>
      && WaitsFor(st, report.job, c)
      && (if report.connection != st.pending[report.job].connection then r == Refused(MISMATCH)
          else if ours && saved && written then r == Delivered(report)
          else r == Dropped)
    case Discover(channel, _, _, _, written, error) =>
      channel == c && if st.pending != map[] then r == Refused(BUSY) else !written && r == Refused(error)
    case _ => false
  }

  lemma NackReplies(st: State, e: Event, c: nat, r: Reply)
    requires st.status == Live && AtMostOne(st.pending) && e.Nack?
    ensures Replied(c, r) in Added(st, e) <==> ReplyDue(st, e, c, r)
  {
    if job :| Answers(st.pending, e.ack, job) {
      assert Added(st, e) == [Replied(st.pending[job].channel, Refused(ReasonOr(e.reason)))];
    } else {
      assert Added(st, e) <= [Nacked];
    }
  }

  lemma FindingReplies(st: State, e: Event, c: nat, r: Reply)
    requires st.status == Live && AtMostOne(st.pending) && e.Finding?
    ensures Replied(c, r) in Added(st, e) <==> ReplyDue(st, e, c, r)
  {
    ReportAdds(st, e);
    if !Matches(st, e) && e.report.job in st.pending {
      var mismatch := Replied(st.pending[e.report.job].channel, Refused(MISMATCH));
      assert Added(st, e) == if e.written then [mismatch, Nacked] else [mismatch];
    } else if !Matches(st, e) {
      assert Added(st, e) <= [Nacked];
    }
  }

  lemma DiscoverReplies(st: State, e: Event, c: nat, r: Reply)
    requires st.status == Live && e.Discover?
    ensures Replied(c, r) in Added(st, e) <==> ReplyDue(st, e, c, r)
  {
    if st.pending != map[] {
      assert Added(st, e) == [Taken(e.channel), Replied(e.channel, Refused(BUSY))];
    } else if !e.written {
      assert Added(st, e) == [Taken(e.channel), Replied(e.channel, Refused(e.error))];
    } else {
      assert Added(st, e) == [Taken(e.channel), Requested(e.channel, e.job, e.connection, e.message, st.sequence)];
    }
  }

  lemma OtherReplies(st: State, e: Event, c: nat, r: Reply)
    requires st.status == Live && !e.Nack? && !e.Finding? && !e.Discover?
    ensures Replied(c, r) !in Added(st, e)
  {
    if e.Other? { assert Added(st, e) <= [if e.accepted then Acked else Nacked]; }
  }

  /** MAIN: in a live session a turn replies on a channel exactly as the event calls for: a matching
      report that is ours, saved and acknowledged is delivered; one that is not is dropped; one for
      another connection, a refusal by the runtime, a second command and a failed write are refused
      with their reasons; and nothing else is replied to. */
  lemma RepliesExactly(st: State, e: Event, c: nat, r: Reply)
    requires st.status == Live && AtMostOne(st.pending)
    ensures Replied(c, r) in Added(st, e) <==> ReplyDue(st, e, c, r)
  {
    hide Added, ReplyDue;
    match e {
      case Nack(_, _, _, _) => NackReplies(st, e, c, r);
      case Finding(_, _, _, _) => FindingReplies(st, e, c, r);
      case Discover(_, _, _, _, _, _) => DiscoverReplies(st, e, c, r);
      case _ =>
        OtherReplies(st, e, c, r);
        NothingDue(st, e, c, r);
    }
  }

  lemma NothingDue(st: State, e: Event, c: nat, r: Reply)
    requires !e.Nack? && !e.Finding? && !e.Discover?
    ensures !ReplyDue(st, e, c, r)
  {
  }

  /** The end of the session refuses exactly the command that still waits. */
  lemma ClosingExactly(pending: map<string, Pending>, c: nat, r: Reply)
    requires AtMostOne(pending)
    ensures Replied(c, r) in Closing(pending) <==>
              r == Refused(DISCONNECTED) && exists job :: job in pending && pending[job].channel == c
  {
  }

  /** The event is a report for the job and the connection that wait. */
  ghost predicate Matches(st: State, e: Event) {
    e.Finding? && e.report.job in st.pending && e.report.connection == st.pending[e.report.job].connection
  }

  /** The runtime's refusal names the request that waits. */
  ghost predicate IsRefusal(st: State, e: Event) {
    e.Nack? && exists job :: Answers(st.pending, e.ack, job)
  }

  /** A turn fails exactly when the read fails, or a message that has to be ours, kept or answered is
      not, or a request cannot be written; and it ends the session exactly on an end of stream, a
      closed queue or a changed configuration. */
  lemma StatusExactly(st: State, e: Event)
    requires st.status == Live
    ensures Turn(st, e).status == Ended <==> e.Eof? || e.QueueClosed? || e.ConfigChanged?
    ensures Turn(st, e).status == Failed <==>
              || e.ReadFailed?
              || (e.Nack? && !IsRefusal(st, e) && !(e.ours && e.written))
              || (e.Finding? && !(e.written && (Matches(st, e) ==> e.ours && e.saved)))
              || (e.Other? && !(e.ours && e.saved && e.written))
              || (e.Discover? && st.pending == map[] && !e.written)
  {
  }

  /** A turn acknowledges exactly the accepted messages that are ours and kept, a matching report
      among them, and stores exactly the matching reports that are ours. */
  lemma AcksExactly(st: State, e: Event, report: Report)
    requires st.status == Live
    ensures Acked in Added(st, e) <==>
              (Matches(st, e) || (e.Other? && e.accepted)) && e.ours && e.saved && e.written
    ensures Stored(report) in Added(st, e) <==> Matches(st, e) && e.ours && e.report == report
  {
    var added := Added(st, e);
    match e {
      case Nack(_, _, _, _) => assert added <= [Nacked] || (|added| == 1 && added[0].Replied?);
      case Finding(_, _, _, _) => ReportAdds(st, e);
      case Other(_, _, _, _) => assert added <= [if e.accepted then Acked else Nacked];
      case Discover(_, _, _, _, _, _) =>
        assert |added| == 2 && added[0].Taken? && (added[1].Replied? || added[1].Requested?);
      case _ => assert added == [];
    }
  }

  lemma ReportAdds(st: State, e: Event)
    requires st.status == Live && e.Finding?
    ensures !Matches(st, e) ==> Acked !in Added(st, e) && forall r :: Stored(r) !in Added(st, e)
    ensures Matches(st, e) ==>
              var channel := st.pending[e.report.job].channel;
              Added(st, e) == if !e.ours then [Replied(channel, Dropped)]
                              else if e.saved && e.written
                              then [Stored(e.report), Acked, Replied(channel, Delivered(e.report))]
                              else [Stored(e.report), Replied(channel, Dropped)]
  {
    if !Matches(st, e) {
      if e.report.job in st.pending {
        var mismatch := Replied(st.pending[e.report.job].channel, Refused(MISMATCH));
        assert Added(st, e) == if e.written then [mismatch, Nacked] else [mismatch];
      } else {
        assert Added(st, e) <= [Nacked];
      }
    }
  }

  /** The event settles the request that waits: a refusal that names it, or any report for its job. */
  ghost predicate Settles(st: State, e: Event) {
    IsRefusal(st, e) || (e.Finding? && e.report.job in st.pending)
  }

  /** Which request waits after a turn. */
  lemma WaitingExactly(st: State, e: Event)
    requires st.status == Live && AtMostOne(st.pending)
    ensures Settles(st, e) ==> Turn(st, e).pending == map[]
    ensures e.Discover? && e.written && st.pending == map[] ==>
              Turn(st, e).pending == map[e.job := Pending(e.message, e.connection, e.channel)]
    ensures !Settles(st, e) && !(e.Discover? && e.written && st.pending == map[]) ==>
              Turn(st, e).pending == st.pending
  {
    match e {
      case Nack(ack, _, _, _) =>
        if job :| Answers(st.pending, ack, job) { RemovedWaits(st.pending, job, 0); }
      case Finding(report, _, _, _) =>
        if report.job in st.pending { RemovedWaits(st.pending, report.job, 0); }
      case _ =>
    }
  }

  // ----- sessions

  lemma {:induction false} RunExtends(events: seq<Event>, k: nat)
    requires k <= |events|
    ensures Run(events[..k]).effects <= Run(events).effects
    ensures Run(events[..k]).status != Live ==> Run(events) == Run(events[..k])
    decreases |events|
  {
    if k == |events| {
      assert events[..k] == events;
    } else {
      var n := |events|;
      assert events[..n - 1][..k] == events[..k];
      RunExtends(events[..n - 1], k);
      TurnExtends(Run(events[..n - 1]), events[n - 1]);
    }
  }

  lemma RunStep(events: seq<Event>, k: nat)
    requires k < |events|
    ensures Run(events[..k + 1]) == Turn(Run(events[..k]), events[k])
  {
    assert events[..k + 1][..k] == events[..k];
  }

  /** Event `i` is a discovery command that is written while nothing waits. */
  ghost predicate Asked(events: seq<Event>, i: nat) {
    && i < |events| && Run(events[..i]).status == Live && Run(events[..i]).pending == map[]
    && events[i].Discover? && events[i].written
  }

  /** The runtime answers or refuses the request. */
  predicate IsAnswer(e: Event, job: string, message: nat) {
    (e.Nack? && e.ack == message) || (e.Finding? && e.report.job == job)
  }

  lemma OthersKeepIt(st: State, e: Event, job: string, p: Pending)
    requires st.status == Live && st.pending == map[job := p] && !IsAnswer(e, job, p.message)
    ensures Turn(st, e).pending == st.pending
  {
    assert job in st.pending;
    assert forall j :: Answers(st.pending, p.message, j) ==> j == job;
    WaitingExactly(st, e);
  }

  /** A request waits until it is answered, as long as the session lives. */
  lemma {:induction false} StillWaits(events: seq<Event>, i: nat, k: nat)
    requires Asked(events, i) && i < k <= |events| && Run(events[..k]).status == Live
    requires forall m :: i < m < k ==> !IsAnswer(events[m], events[i].job, events[i].message)
    ensures var e := events[i]; Run(events[..k]).pending == map[e.job := Pending(e.message, e.connection, e.channel)]
    decreases k
  {
    hide Run, Turn;
    RunStep(events, k - 1);
    RunsBalance(events[..k - 1], 0);
    LiveBefore(events, k);
    if k - 1 > i {
      StillWaits(events, i, k - 1);
      var e := events[i];
      OthersKeepIt(Run(events[..k - 1]), events[k - 1], e.job, Pending(e.message, e.connection, e.channel));
    } else {
      WaitingExactly(Run(events[..k - 1]), events[k - 1]);
    }
  }

  lemma LiveBefore(events: seq<Event>, k: nat)
    requires 0 < k <= |events| && Run(events[..k]).status == Live
    ensures Run(events[..k - 1]).status == Live
  {
    RunStep(events, k - 1);
  }

  /** MAIN: if the runtime answers a waiting request with a report for its job and connection, as the
      first answer, and the report is ours, saved and acknowledged, then the command's channel gets
      that report. */
  lemma MatchingReportIsDelivered(events: seq<Event>, i: nat, k: nat)
    requires Asked(events, i) && i < k < |events| && Run(events[..k]).status == Live
    requires forall m :: i < m < k ==> !IsAnswer(events[m], events[i].job, events[i].message)
    requires events[k].Finding? && events[k].ours && events[k].saved && events[k].written
    requires events[k].report.job == events[i].job && events[k].report.connection == events[i].connection
    ensures Replied(events[i].channel, Delivered(events[k].report)) in Session(events)
  {
    var st, e, reply := Run(events[..k]), events[k], Replied(events[i].channel, Delivered(events[k].report));
    StillWaits(events, i, k);
    RunsBalance(events[..k], 0);
    RunStep(events, k);
    RunExtends(events, k + 1);
    hide Run, Turn;
    RepliesExactly(st, e, events[i].channel, Delivered(e.report));
    assert reply in Added(st, e);
    AddedStays(st, e, Run(events).effects, reply);
  }

  lemma AddedStays(st: State, e: Event, all: seq<Effect>, fx: Effect)
    requires Turn(st, e).effects <= all && fx in Added(st, e)
    ensures fx in all
  {
    var added := Added(st, e);
    var j :| 0 <= j < |added| && added[j] == fx;
    assert all[|st.effects| + j] == fx;
  }

  // ----- counts and numbers

  function AckCount(effects: seq<Effect>): nat {
    if effects == [] then 0 else AckCount(effects[..|effects| - 1]) + if effects[|effects| - 1].Acked? then 1 else 0
  }

  function RequestCount(effects: seq<Effect>): nat {
    if effects == [] then 0
    else RequestCount(effects[..|effects| - 1]) + if effects[|effects| - 1].Requested? then 1 else 0
  }

  lemma CountOneMore(effects: seq<Effect>, e: Effect)
    ensures AckCount(effects + [e]) == AckCount(effects) + if e.Acked? then 1 else 0
    ensures RequestCount(effects + [e]) == RequestCount(effects) + if e.Requested? then 1 else 0
  {
    assert (effects + [e])[..|effects|] == effects;
  }

  /** The sequence number of the request after `n` others. */
  function NumberAfter(n: nat): nat {
    if FIRST_SEQUENCE + n < U64_MAX then FIRST_SEQUENCE + n else U64_MAX
  }

  /** As long as nothing failed, the count is that of acknowledgements and the next number follows
      the requests written. */
  ghost predicate Counted(st: State) {
    st.status != Failed ==>
      st.accepted == AckCount(st.effects) && st.sequence == NumberAfter(RequestCount(st.effects))
  }

  lemma OrdinaryCounts(st: State, ours: bool, accepted: bool, saved: bool, written: bool)
    requires Counted(st) && st.status == Live
    ensures Counted(Ordinary(st, ours, accepted, saved, written))
  {
    CountOneMore(st.effects, if accepted then Acked else Nacked);
  }

  lemma ReportCounts(st: State, report: Report, ours: bool, saved: bool, written: bool)
    requires Counted(st) && st.status == Live
    ensures Counted(OnReport(st, report, ours, saved, written))
  {
    hide AckCount, RequestCount;
    CountOneMore(st.effects, Nacked);
    if report.job in st.pending {
      var p, fx := st.pending[report.job], st.effects;
      CountOneMore(fx, Replied(p.channel, Refused(MISMATCH)));
      CountOneMore(fx + [Replied(p.channel, Refused(MISMATCH))], Nacked);
      CountOneMore(fx, Stored(report));
      CountOneMore(fx + [Stored(report)], Acked);
      CountOneMore(fx + [Stored(report)] + [Acked], Replied(p.channel, Delivered(report)));
    }
  }

  lemma DiscoverCounts(st: State, e: Event)
    requires e.Discover? && Counted(st) && st.status == Live
    ensures Counted(OnDiscover(st, e))
  {
    hide AckCount, RequestCount;
    var taken := st.effects + [Taken(e.channel)];
    CountOneMore(st.effects, Taken(e.channel));
    CountOneMore(taken, Replied(e.channel, Refused(BUSY)));
    CountOneMore(taken, Requested(e.channel, e.job, e.connection, e.message, st.sequence));
  }

  lemma TurnCounts(st: State, e: Event)
    requires AtMostOne(st.pending) && Counted(st)
    ensures Counted(Turn(st, e))
  {
    hide OnReport, OnDiscover, Ordinary, AckCount, RequestCount;
    if st.status == Live {
      match e {
        case Nack(ack, reason, ours, written) =>
          OrdinaryCounts(st, ours, false, true, written);
          if job :| Answers(st.pending, ack, job) {
            CountOneMore(st.effects, Replied(st.pending[job].channel, Refused(ReasonOr(reason))));
          }
        case Finding(report, ours, saved, written) => ReportCounts(st, report, ours, saved, written);
        case Other(ours, accepted, saved, written) => OrdinaryCounts(st, ours, accepted, saved, written);
        case Discover(_, _, _, _, _, _) => DiscoverCounts(st, e);
        case _ =>
      }
    }
  }

  /** MAIN: a session that has not failed has accepted as many messages as it acknowledged, and
      numbers its requests from 10000 on, up to the largest 64-bit number. */
  lemma {:induction false} RunsCount(events: seq<Event>)
    ensures Counted(Run(events))
  {
    if events != [] {
      RunsCount(events[..|events| - 1]);
      RunsBalance(events[..|events| - 1], 0);
      hide Turn, Counted;
      TurnCounts(Run(events[..|events| - 1]), events[|events| - 1]);
    }
  }

  /** A command that is written while nothing waits is the next request, with the next number. */
  lemma RequestWritten(events: seq<Event>, i: nat)
    requires Asked(events, i)
    ensures var e, fx := events[i], Run(events[..i]).effects;
            Added(Run(events[..i]), e) ==
              [Taken(e.channel), Requested(e.channel, e.job, e.connection, e.message, NumberAfter(RequestCount(fx)))]
  {
    RunsCount(events[..i]);
    hide Run, RequestCount, AckCount;
  }
}
