/** A connected gateway session: runtime messages and control-plane commands, with one discovery
    request at a time and a one-shot reply channel for each discovery command. */
module Discovery {
  import opened Text

  const U64_MAX: nat := 0xFFFF_FFFF_FFFF_FFFF
  const FIRST_SEQUENCE: nat := 10_000
  const BUSY := "another discovery request is already running"
  const MISMATCH := "discovery report protocol connection does not match request"
  const DISCONNECTED := "runtime disconnected before discovery request completed"

  datatype Report = Report(job: string, connection: string, body: string)

  /** How a reply channel ends: with the report, with a reason, or dropped unanswered. */
  datatype Reply = Delivered(report: Report) | Refused(reason: string) | Dropped

  /** What the session does, in order: takes a command, writes a request, stores a report for its
      edge, acknowledges, refuses a message, resolves a channel. */
  datatype Effect =
    | Taken(channel: nat)
    | Requested(channel: nat, job: string, connection: string, message: nat, sequence: nat)
    | Stored(report: Report)
    | Acked
    | Nacked
    | Replied(channel: nat, reply: Reply)

  /** What the session meets. `ours` says the message carries the session's edge and runtime
      identifiers, `saved` and `written` that the database and the connection accepted a write. */
  datatype Event =
    | Eof
    | ReadFailed
    | Nack(ack: nat, reason: Option<string>, ours: bool, written: bool)
    | Finding(report: Report, ours: bool, saved: bool, written: bool)
    | Other(ours: bool, accepted: bool, saved: bool, written: bool)
    | QueueClosed
    | ConfigChanged
    | Discover(channel: nat, job: string, connection: string, message: nat, written: bool, error: string)

  datatype Pending = Pending(message: nat, connection: string, channel: nat)
  datatype Status = Live | Ended | Failed

  datatype State = State(pending: map<string, Pending>, accepted: nat, sequence: nat, effects: seq<Effect>,
                         status: Status)

  const START: State := State(map[], 0, FIRST_SEQUENCE, [], Live)

  predicate AtMostOne(pending: map<string, Pending>) {
    forall i, j :: i in pending && j in pending ==> i == j
  }

  predicate Answers(pending: map<string, Pending>, ack: nat, job: string) {
    job in pending && pending[job].message == ack
  }

  /** A message with no discovery involved: kept and answered. */
  function Ordinary(st: State, ours: bool, accepted: bool, saved: bool, written: bool): State {
    if !ours || !saved then st.(status := Failed)
    else
      var st1 := if accepted then st.(accepted := st.accepted + 1) else st;
      if !written then st1.(status := Failed) else st1.(effects := st.effects + [if accepted then Acked else Nacked])
  }

  function OnReport(st: State, report: Report, ours: bool, saved: bool, written: bool): State {
    if report.job !in st.pending then
      if written then st.(effects := st.effects + [Nacked]) else st.(status := Failed)
    else
      var p := st.pending[report.job];
      var st1 := st.(pending := st.pending - {report.job});
      if report.connection != p.connection then
        var st2 := st1.(effects := st.effects + [Replied(p.channel, Refused(MISMATCH))]);
        if written then st2.(effects := st2.effects + [Nacked]) else st2.(status := Failed)
      else if !ours then st1.(effects := st.effects + [Replied(p.channel, Dropped)], status := Failed)
      else if !saved || !written then
        st1.(effects := st.effects + [Stored(report)] + [Replied(p.channel, Dropped)], status := Failed)
      else
        var fx := st.effects + [Stored(report)] + [Acked] + [Replied(p.channel, Delivered(report))];
        st1.(effects := fx, accepted := st.accepted + 1)
  }

  function OnDiscover(st: State, e: Event): State
    requires e.Discover?
  {
    var taken := st.effects + [Taken(e.channel)];
    if st.pending != map[] then
      st.(effects := taken + [Replied(e.channel, Refused(BUSY))])
    else
      var st1 := st.(sequence := if st.sequence < U64_MAX then st.sequence + 1 else U64_MAX);
      if !e.written then st1.(effects := taken + [Replied(e.channel, Refused(e.error))], status := Failed)
      else st1.(effects := taken + [Requested(e.channel, e.job, e.connection, e.message, st.sequence)],
                pending := map[e.job := Pending(e.message, e.connection, e.channel)])
  }

  function ReasonOr(reason: Option<string>): string {
    if reason.Some? then reason.value else "runtime rejected discovery request"
  }

  /** One turn of the session loop. */
  ghost function Turn(st: State, e: Event): State {
    if st.status != Live then st
    else match e
      case Eof => st.(status := Ended)
      case ReadFailed => st.(status := Failed)
      case Nack(ack, reason, ours, written) =>
        if job :| Answers(st.pending, ack, job)
        then
          var answer := Replied(st.pending[job].channel, Refused(ReasonOr(reason)));
          st.(pending := st.pending - {job}, effects := st.effects + [answer])
        else Ordinary(st, ours, false, true, written)
      case Finding(report, ours, saved, written) => OnReport(st, report, ours, saved, written)
      case Other(ours, accepted, saved, written) => Ordinary(st, ours, accepted, saved, written)
      case QueueClosed => st.(status := Ended)
      case ConfigChanged => st.(status := Ended)
      case Discover(_, _, _, _, _, _) => OnDiscover(st, e)
  }

  ghost function Run(events: seq<Event>): State {
    if events == [] then START else Turn(Run(events[..|events| - 1]), events[|events| - 1])
  }

  /** The reply still owed when the session ends. */
  ghost function Closing(pending: map<string, Pending>): seq<Effect> {
    if job :| job in pending then [Replied(pending[job].channel, Refused(DISCONNECTED))]
    else []
  }

  /** All effects of a session that met `events` and then ended. */
  ghost function Session(events: seq<Event>): seq<Effect> {
    Run(events).effects + Closing(Run(events).pending)
  }

  // ----- one at a time, and every channel resolved once

  function TakenCount(effects: seq<Effect>, c: nat): nat {
    if effects == [] then 0
    else TakenCount(effects[..|effects| - 1], c) + if effects[|effects| - 1] == Taken(c) then 1 else 0
  }

  function ReplyCount(effects: seq<Effect>, c: nat): nat {
    if effects == [] then 0
    else
      var last := effects[|effects| - 1];
      ReplyCount(effects[..|effects| - 1], c) + if last.Replied? && last.channel == c then 1 else 0
  }

  ghost predicate Waits(pending: map<string, Pending>, c: nat) {
    exists job :: job in pending && pending[job].channel == c
  }

  lemma CountOne(effects: seq<Effect>, e: Effect, c: nat)
    ensures TakenCount(effects + [e], c) == TakenCount(effects, c) + if e == Taken(c) then 1 else 0
    ensures ReplyCount(effects + [e], c) == ReplyCount(effects, c) + if e.Replied? && e.channel == c then 1 else 0
  {
    assert (effects + [e])[..|effects|] == effects;
  }

  /** Every command taken on channel `c` has been answered or waits. */
  ghost predicate Balanced(st: State, c: nat) {
    TakenCount(st.effects, c) == ReplyCount(st.effects, c) + if Waits(st.pending, c) then 1 else 0
  }

  lemma OrdinaryBalances(st: State, ours: bool, accepted: bool, saved: bool, written: bool, c: nat)
    requires Balanced(st, c)
    ensures Balanced(Ordinary(st, ours, accepted, saved, written), c)
    ensures Ordinary(st, ours, accepted, saved, written).pending == st.pending
  {
    CountOne(st.effects, if accepted then Acked else Nacked, c);
  }

  lemma RemovedWaits(pending: map<string, Pending>, job: string, c: nat)
    requires AtMostOne(pending) && job in pending
    ensures pending - {job} == map[] && !Waits(pending - {job}, c)
    ensures Waits(pending, c) <==> pending[job].channel == c
  {
  }

  lemma ReportBalances(st: State, report: Report, ours: bool, saved: bool, written: bool, c: nat)
    requires AtMostOne(st.pending) && Balanced(st, c)
    ensures var next := OnReport(st, report, ours, saved, written); AtMostOne(next.pending) && Balanced(next, c)
  {
    hide TakenCount, ReplyCount, Waits;
    var fx := st.effects;
    CountOne(fx, Nacked, c);
    if report.job in st.pending {
      var p := st.pending[report.job];
      RemovedWaits(st.pending, report.job, c);
      CountOne(fx, Replied(p.channel, Dropped), c);
      var mismatch := Replied(p.channel, Refused(MISMATCH));
      CountOne(fx, mismatch, c);
      CountOne(fx + [mismatch], Nacked, c);
      CountOne(fx, Stored(report), c);
      CountOne(fx + [Stored(report)], Replied(p.channel, Dropped), c);
      CountOne(fx + [Stored(report)], Acked, c);
      CountOne(fx + [Stored(report)] + [Acked], Replied(p.channel, Delivered(report)), c);
    }
  }

  lemma DiscoverBalances(st: State, e: Event, c: nat)
    requires e.Discover? && AtMostOne(st.pending) && Balanced(st, c)
    ensures AtMostOne(OnDiscover(st, e).pending) && Balanced(OnDiscover(st, e), c)
  {
    hide TakenCount, ReplyCount;
    var fx := st.effects;
    CountOne(fx, Taken(e.channel), c);
    CountOne(fx + [Taken(e.channel)], Replied(e.channel, Refused(BUSY)), c);
    CountOne(fx + [Taken(e.channel)], Replied(e.channel, Refused(e.error)), c);
    CountOne(fx + [Taken(e.channel)], Requested(e.channel, e.job, e.connection, e.message, st.sequence), c);
    var pending := map[e.job := Pending(e.message, e.connection, e.channel)];
    assert e.job in pending;
    assert Waits(pending, c) <==> e.channel == c;
  }

  lemma TurnBalances(st: State, e: Event, c: nat)
    requires AtMostOne(st.pending) && Balanced(st, c)
    ensures AtMostOne(Turn(st, e).pending) && Balanced(Turn(st, e), c)
  {
    hide OnReport, OnDiscover, Ordinary, TakenCount, ReplyCount;
    match e {
      case Nack(ack, reason, ours, written) =>
        OrdinaryBalances(st, ours, false, true, written, c);
        if job :| Answers(st.pending, ack, job) {
          RemovedWaits(st.pending, job, c);
          CountOne(st.effects, Replied(st.pending[job].channel, Refused(ReasonOr(reason))), c);
        }
      case Finding(report, ours, saved, written) => ReportBalances(st, report, ours, saved, written, c);
      case Other(ours, accepted, saved, written) => OrdinaryBalances(st, ours, accepted, saved, written, c);
      case Discover(_, _, _, _, _, _) => DiscoverBalances(st, e, c);
      case _ =>
    }
  }

  /** MAIN: in every run at most one request is pending, and for every channel the commands taken
      are the replies made plus the one that waits. */
  lemma {:induction false} RunsBalance(events: seq<Event>, c: nat)
    ensures AtMostOne(Run(events).pending) && Balanced(Run(events), c)
  {
    if events != [] {
      RunsBalance(events[..|events| - 1], c);
      TurnBalances(Run(events[..|events| - 1]), events[|events| - 1], c);
    }
  }

  /** MAIN: when the session has ended every command that was taken has had exactly one reply. */
  lemma EveryChannelResolvedOnce(events: seq<Event>, c: nat)
    ensures ReplyCount(Session(events), c) == TakenCount(Session(events), c)
  {
    RunsBalance(events, c);
    var st := Run(events);
    hide Run;
    if job :| job in st.pending {
      CountOne(st.effects, Closing(st.pending)[0], c);
      assert Closing(st.pending) == [Closing(st.pending)[0]];
    } else {
      assert st.effects + Closing(st.pending) == st.effects;
    }
  }

  // ----- deliveries answer the open request with a stored report

  /** Effect `i` wrote the request and no request was written since. */
  ghost predicate OpenRequest(effects: seq<Effect>, i: nat, channel: nat, job: string, connection: string) {
    && i < |effects| && effects[i].Requested?
    && effects[i].channel == channel && effects[i].job == job && effects[i].connection == connection
    && forall m :: i < m < |effects| ==> !effects[m].Requested?
  }

  /** The request that waits was the last one written. */
  ghost predicate PendingIsOpen(st: State) {
    forall job :: job in st.pending ==>
      exists i: nat :: OpenRequest(st.effects, i, st.pending[job].channel, job, st.pending[job].connection)
  }

  /** A delivery at `k` answers the request open at `i` with the report stored at `j`. */
  ghost predicate Justified(effects: seq<Effect>, k: nat, i: nat, j: nat)
    requires k < |effects| && effects[k].Replied? && effects[k].reply.Delivered?
  {
    var report := effects[k].reply.report;
    i < j < k && effects[j] == Stored(report) &&
      OpenRequest(effects[..k], i, effects[k].channel, report.job, report.connection)
  }

  predicate IsDelivery(effects: seq<Effect>, k: nat) {
    k < |effects| && effects[k].Replied? && effects[k].reply.Delivered?
  }

  ghost predicate DeliveriesOk(effects: seq<Effect>) {
    forall k: nat :: IsDelivery(effects, k) ==> exists i: nat, j: nat :: Justified(effects, k, i, j)
  }

  lemma QuietEffect(effects: seq<Effect>, e: Effect)
    requires DeliveriesOk(effects) && !(e.Replied? && e.reply.Delivered?)
    ensures DeliveriesOk(effects + [e])
  {
    var longer := effects + [e];
    forall k: nat | IsDelivery(longer, k) ensures exists i: nat, j: nat :: Justified(longer, k, i, j) {
      assert IsDelivery(effects, k);
      var i: nat, j: nat :| Justified(effects, k, i, j);
      assert longer[..k] == effects[..k];
      assert Justified(longer, k, i, j);
    }
  }

  lemma OpenStays(effects: seq<Effect>, e: Effect, i: nat, channel: nat, job: string, connection: string)
    requires OpenRequest(effects, i, channel, job, connection) && !e.Requested?
    ensures OpenRequest(effects + [e], i, channel, job, connection)
  {
  }

  lemma DeliveryOk(effects: seq<Effect>, channel: nat, report: Report, i: nat)
    requires DeliveriesOk(effects) && OpenRequest(effects, i, channel, report.job, report.connection)
    ensures DeliveriesOk(effects + [Stored(report)] + [Acked] + [Replied(channel, Delivered(report))])
  {
    var fx := effects + [Stored(report)] + [Acked];
    QuietEffect(effects, Stored(report));
    QuietEffect(effects + [Stored(report)], Acked);
    OpenStays(effects, Stored(report), i, channel, report.job, report.connection);
    OpenStays(effects + [Stored(report)], Acked, i, channel, report.job, report.connection);
    var last := Replied(channel, Delivered(report));
    var all := fx + [last];
    forall k: nat | IsDelivery(all, k) ensures exists i: nat, j: nat :: Justified(all, k, i, j) {
      if k < |fx| {
        assert IsDelivery(fx, k);
        var i', j' :| Justified(fx, k, i', j');
        assert all[..k] == fx[..k];
        assert Justified(all, k, i', j');
      } else {
        assert all[..k] == fx && all[|effects|] == Stored(report);
        assert Justified(all, k, i, |effects|);
      }
    }
  }

  ghost predicate Correlated(st: State) {
    PendingIsOpen(st) && DeliveriesOk(st.effects)
  }

  lemma QuietKeeps(st: State, next: State, e: Effect)
    requires Correlated(st) && !(e.Replied? && e.reply.Delivered?) && !e.Requested?
    requires next.effects == st.effects + [e] && next.pending.Keys <= st.pending.Keys
    requires forall job :: job in next.pending ==> next.pending[job] == st.pending[job]
    ensures Correlated(next)
  {
    QuietEffect(st.effects, e);
    forall job | job in next.pending
      ensures exists i: nat :: OpenRequest(next.effects, i, next.pending[job].channel, job,
                                           next.pending[job].connection)
    {
      var i: nat :| OpenRequest(st.effects, i, st.pending[job].channel, job, st.pending[job].connection);
      OpenStays(st.effects, e, i, st.pending[job].channel, job, st.pending[job].connection);
    }
  }

  lemma ReportCorrelates(st: State, report: Report, ours: bool, saved: bool, written: bool)
    requires AtMostOne(st.pending) && Correlated(st)
    ensures Correlated(OnReport(st, report, ours, saved, written))
  {
    hide Correlated;
    var next := OnReport(st, report, ours, saved, written);
    if report.job !in st.pending {
      if written { QuietKeeps(st, next, Nacked); } else { SameKeeps(st, next); }
    } else {
      var p := st.pending[report.job];
      var st1 := st.(pending := st.pending - {report.job});
      if report.connection != p.connection {
        var mismatch := Replied(p.channel, Refused(MISMATCH));
        var st2 := st1.(effects := st.effects + [mismatch]);
        QuietKeeps(st, st2, mismatch);
        if written { QuietKeeps(st2, next, Nacked); } else { SameKeeps(st2, next); }
      } else if !ours {
        QuietKeeps(st, next, Replied(p.channel, Dropped));
      } else if !saved || !written {
        var st2 := st1.(effects := st.effects + [Stored(report)]);
        QuietKeeps(st, st2, Stored(report));
        QuietKeeps(st2, next, Replied(p.channel, Dropped));
      } else {
        DeliveryCorrelates(st, next, report);
      }
    }
  }

  lemma SameKeeps(st: State, next: State)
    requires Correlated(st) && next.pending == st.pending && next.effects == st.effects
    ensures Correlated(next)
  {
  }

  lemma DeliveryCorrelates(st: State, next: State, report: Report)
    requires AtMostOne(st.pending) && Correlated(st) && report.job in st.pending
    requires report.connection == st.pending[report.job].connection
    requires next.pending == st.pending - {report.job}
    requires next.effects ==
            st.effects + [Stored(report)] + [Acked] + [Replied(st.pending[report.job].channel, Delivered(report))]
    ensures Correlated(next)
  {
    var p := st.pending[report.job];
    var i: nat :| OpenRequest(st.effects, i, p.channel, report.job, p.connection);
    DeliveryOk(st.effects, p.channel, report, i);
  }

  lemma DiscoverCorrelates(st: State, e: Event)
    requires e.Discover? && Correlated(st)
    ensures Correlated(OnDiscover(st, e))
  {
    hide Correlated;
    var next, st1 := OnDiscover(st, e), st.(effects := st.effects + [Taken(e.channel)]);
    QuietKeeps(st, st1, Taken(e.channel));
    if st.pending != map[] {
      QuietKeeps(st1, next, Replied(e.channel, Refused(BUSY)));
    } else if !e.written {
      QuietKeeps(st1, next, Replied(e.channel, Refused(e.error)));
    } else {
      RequestCorrelates(st1, next, Requested(e.channel, e.job, e.connection, e.message, st.sequence), e.message);
    }
  }

  lemma RequestCorrelates(st: State, next: State, r: Effect, message: nat)
    requires Correlated(st) && r.Requested? && next.effects == st.effects + [r]
    requires next.pending == map[r.job := Pending(message, r.connection, r.channel)]
    ensures Correlated(next)
  {
    QuietEffect(st.effects, r);
    assert OpenRequest(next.effects, |st.effects|, r.channel, r.job, r.connection);
  }

  lemma TurnCorrelates(st: State, e: Event)
    requires AtMostOne(st.pending) && Correlated(st)
    ensures Correlated(Turn(st, e))
  {
    hide Correlated, OnReport, OnDiscover;
    var next := Turn(st, e);
    if st.status == Live {
      match e {
        case Nack(ack, reason, ours, written) =>
          if job :| Answers(st.pending, ack, job) {
            QuietKeeps(st, next, Replied(st.pending[job].channel, Refused(ReasonOr(reason))));
          } else {
            OrdinaryCorrelates(st, ours, false, true, written);
          }
        case Finding(report, ours, saved, written) => ReportCorrelates(st, report, ours, saved, written);
        case Other(ours, accepted, saved, written) => OrdinaryCorrelates(st, ours, accepted, saved, written);
        case Discover(_, _, _, _, _, _) => DiscoverCorrelates(st, e);
        case _ => SameKeeps(st, next);
      }
    }
  }

  lemma OrdinaryCorrelates(st: State, ours: bool, accepted: bool, saved: bool, written: bool)
    requires Correlated(st)
    ensures Correlated(Ordinary(st, ours, accepted, saved, written))
  {
    hide Correlated;
    var next := Ordinary(st, ours, accepted, saved, written);
    if next.effects == st.effects {
      SameKeeps(st, next);
    } else {
      QuietKeeps(st, next, if accepted then Acked else Nacked);
    }
  }

  lemma {:induction false} RunsCorrelate(events: seq<Event>)
    ensures Correlated(Run(events))
  {
    if events != [] {
      RunsCorrelate(events[..|events| - 1]);
      RunsBalance(events[..|events| - 1], 0);
      hide Turn, Correlated;
      TurnCorrelates(Run(events[..|events| - 1]), events[|events| - 1]);
    }
  }

  /** MAIN: in every session a report is delivered only to the channel of the request that is open,
      only if it names that request's job and connection, and only after it was stored. */
  lemma DeliveriesAreJustified(events: seq<Event>, k: nat) returns (i: nat, j: nat)
    requires IsDelivery(Session(events), k)
    ensures Justified(Session(events), k, i, j)
  {
    RunsCorrelate(events);
    var st, all := Run(events), Session(events);
    hide Run;
    assert k < |st.effects|;
    assert IsDelivery(st.effects, k);
    i, j :| Justified(st.effects, k, i, j);
    assert all[..k] == st.effects[..k];
  }

  // ----- the session loop

  class GatewaySession {
    var pending: map<string, Pending>
    var accepted: nat
    var sequence: nat
    var status: Status
    var effects: seq<Effect>

    function View(): State
      reads this
    {
      State(pending, accepted, sequence, effects, status)
    }

    constructor ()
      ensures View() == START
    {
      pending, accepted, sequence, status, effects := map[], 0, FIRST_SEQUENCE, Live, [];
    }

    /** The pending job whose request carries the message identifier. */
    method FindJob(ack: nat) returns (found: Option<string>)
      ensures found.Some? ==> Answers(pending, ack, found.value)
      ensures found.None? ==> forall job :: !Answers(pending, ack, job)
    {
      var rest := pending.Keys;
      while rest != {}
        invariant rest <= pending.Keys
        invariant forall job :: Answers(pending, ack, job) ==> job in rest
        decreases rest
      {
        var job :| job in rest;
        if pending[job].message == ack { return Some(job); }
        rest := rest - {job};
      }
      return None;
    }

    method HandleOther(ours: bool, counts: bool, saved: bool, written: bool)
      modifies this
      ensures View() == Ordinary(old(View()), ours, counts, saved, written)
    {
      if !ours || !saved { status := Failed; return; }
      if counts { accepted := accepted + 1; }
      if !written { status := Failed; return; }
      effects := effects + [if counts then Acked else Nacked];
    }

    method HandleReport(report: Report, ours: bool, saved: bool, written: bool)
      modifies this
      ensures View() == OnReport(old(View()), report, ours, saved, written)
    {
      if report.job !in pending {
        if written { effects := effects + [Nacked]; } else { status := Failed; }
        return;
      }
      var expected := pending[report.job];
      pending := pending - {report.job};
      if report.connection != expected.connection {
        effects := effects + [Replied(expected.channel, Refused(MISMATCH))];
        if written { effects := effects + [Nacked]; } else { status := Failed; }
        return;
      }
      if !ours {
        effects, status := effects + [Replied(expected.channel, Dropped)], Failed;
        return;
      }
      effects := effects + [Stored(report)];
      if !saved || !written {
        effects, status := effects + [Replied(expected.channel, Dropped)], Failed;
        return;
      }
      effects := effects + [Acked];
      effects := effects + [Replied(expected.channel, Delivered(report))];
      accepted := accepted + 1;
    }

    method HandleDiscover(e: Event)
      requires e.Discover?
      modifies this
      ensures View() == OnDiscover(old(View()), e)
    {
      effects := effects + [Taken(e.channel)];
      if pending != map[] {
        effects := effects + [Replied(e.channel, Refused(BUSY))];
        return;
      }
      var number := sequence;
      if sequence < U64_MAX { sequence := sequence + 1; } else { sequence := U64_MAX; }
      if !e.written {
        effects, status := effects + [Replied(e.channel, Refused(e.error))], Failed;
        return;
      }
      effects := effects + [Requested(e.channel, e.job, e.connection, e.message, number)];
      pending := pending[e.job := Pending(e.message, e.connection, e.channel)];
    }

    method Handle(e: Event)
      requires status == Live && AtMostOne(pending)
      modifies this
      ensures View() == Turn(old(View()), e)
    {
      hide Ordinary, OnReport, OnDiscover;
      match e {
        case Eof => status := Ended;
        case ReadFailed => status := Failed;
        case QueueClosed => status := Ended;
        case ConfigChanged => status := Ended;
        case Other(ours, counts, saved, written) => HandleOther(ours, counts, saved, written);
        case Finding(report, ours, saved, written) => HandleReport(report, ours, saved, written);
        case Discover(_, _, _, _, _, _) => HandleDiscover(e);
        case Nack(ack, reason, ours, written) =>
          var found := FindJob(ack);
          if found.Some? {
            var request := pending[found.value];
            pending := pending - {found.value};
            effects := effects + [Replied(request.channel, Refused(ReasonOr(reason)))];
          } else {
            HandleOther(ours, false, true, written);
          }
      }
    }

    /** The whole session: turns until one ends it, then a reply to whoever still waits. */
    method Serve(events: seq<Event>) returns (result: Option<nat>)
      requires View() == START
      modifies this
      ensures effects == Session(events)
      ensures result == if Run(events).status == Failed then None else Some(Run(events).accepted)
    {
      var i := 0;
      while i < |events| && status == Live
        invariant i <= |events| && View() == Run(events[..i])
      {
        RunsBalance(events[..i], 0);
        assert events[..i + 1][..i] == events[..i];
        Handle(events[i]);
        i := i + 1;
      }
      StopsThere(events, i);
      RunsBalance(events, 0);
      var owed := pending.Keys;
      ghost var before := effects;
      while owed != {}
        invariant owed <= pending.Keys
        invariant pending == Run(events).pending && status == Run(events).status && accepted == Run(events).accepted
        invariant effects == if owed == pending.Keys then before else before + Closing(pending)
        decreases owed
      {
        var job :| job in owed;
        effects := effects + [Replied(pending[job].channel, Refused(DISCONNECTED))];
        owed := owed - {job};
      }
      return if status == Failed then None else Some(accepted);
    }
  }

  lemma {:induction false} StopsThere(events: seq<Event>, i: nat)
    requires i <= |events| && (i == |events| || Run(events[..i]).status != Live)
    ensures Run(events) == Run(events[..i])
    decreases |events|
  {
    if i == |events| {
      assert events[..i] == events;
    } else {
      var n := |events|;
      assert events[..n - 1][..i] == events[..i];
      StopsThere(events[..n - 1], i);
    }
  }
}
