/** What a reconnecting runtime is sent. */
module Convergence {
  import opened Text
  import opened Control
  import opened Releases
  import opened ReleaseRuns

  // ----- the release `max_by` picks

  lemma HighestIs(w: World, edge: string, status: ReleaseStatus, id: nat)
    requires IsHighest(w, edge, status, id)
    ensures Highest(w, edge, status) == Some(id)
  {
    forall j: nat | IsHighest(w, edge, status, j) ensures j == id {
      assert Matches(w, edge, status, j);
      LessTotal(w.releases[id].desired, w.releases[j].desired);
    }
  }

  /** The release with the greatest version among `ids`, the last one if there are several. */
  lemma {:induction false} HighestAmong(w: World, ids: set<nat>) returns (id: nat)
    requires ids != {} && ids <= w.releases.Keys
    ensures id in ids
    ensures forall j :: j in ids ==> !Less(w.releases[id].desired, w.releases[j].desired)
    ensures forall j :: j in ids && w.releases[j].desired == w.releases[id].desired ==> j <= id
  {
    var first :| first in ids;
    id := first;
    var rest := ids - {first};
    assert forall j :: j in ids ==> j == first || j in rest;
    LessIrreflexive(w.releases[id].desired);
    if rest != {} {
      var other := HighestAmong(w, rest);
      var x, y := w.releases[first].desired, w.releases[other].desired;
      if Less(x, y) || (x == y && first < other) { id := other; }
      forall j | j in ids ensures !Less(w.releases[id].desired, w.releases[j].desired) &&
                                  (w.releases[j].desired == w.releases[id].desired ==> j <= id) {
        var z := w.releases[j].desired;
        LessIrreflexive(x);
        LessIrreflexive(y);
        LessTotal(x, y);
        if Less(x, y) {
          LessAsymmetric(x, y);
        } else if Less(y, x) && j != first && Less(x, z) {
          LessTransitive(y, x, z);
        }
      }
    }
  }

  /** The selection finds the highest matching release whenever there is one. */
  lemma HighestSpec(w: World, edge: string, status: ReleaseStatus)
    ensures Highest(w, edge, status).None? ==> forall id: nat :: !Matches(w, edge, status, id)
    ensures Highest(w, edge, status).Some? ==> IsHighest(w, edge, status, Highest(w, edge, status).value)
  {
    var ids := set id | id in w.releases && Matches(w, edge, status, id);
    forall id: nat | Matches(w, edge, status, id) ensures id in ids {}
    if ids != {} {
      var id := HighestAmong(w, ids);
      HighestIs(w, edge, status, id);
    }
  }

  predicate NothingPending(w: World, edge: string) {
    forall id :: id in w.releases ==> !Matches(w, edge, Pending, id)
  }

  /** A pending revision is what is sent, whatever the runtime runs. */
  lemma PendingIsSent(w: World, edge: string, id: nat, runtime: Option<string>)
    requires ReleasesOk(w) && Matches(w, edge, Pending, id)
    ensures Deployable(w, edge, runtime) == Some(id)
  {
    assert IsPending(w, id);
    HighestSpec(w, edge, Pending);
    var h := Highest(w, edge, Pending).value;
    assert IsPending(w, h);
    WasOnePending(w, id, h);
  }

  /** MAIN: with nothing pending, a runtime on an applied version is left alone exactly when no
      applied revision has a greater version; otherwise it is sent one with a greater version. */
  lemma ReconnectExact(w: World, edge: string, id: nat)
    requires ReleasesOk(w) && NothingPending(w, edge) && Matches(w, edge, Applied, id)
    ensures var x := w.releases[id].desired; var sent := Deployable(w, edge, Some(x));
            && (sent == None <==> forall j: nat :: Matches(w, edge, Applied, j) ==> !Less(x, w.releases[j].desired))
            && (sent.Some? ==> Matches(w, edge, Applied, sent.value) && Less(x, w.releases[sent.value].desired))
  {
    HighestSpec(w, edge, Pending);
    HighestSpec(w, edge, Applied);
    var x, h := w.releases[id].desired, Highest(w, edge, Applied).value;
    var y := w.releases[h].desired;
    assert !Less(y, x);
    LessTotal(x, y);
    LessIrreflexive(x);
  }

  // ----- growing versions

  predicate IsNewFor(w: World, w': World, edge: string, id: nat) {
    id in w'.releases && id !in w.releases && w'.releases[id].edge == edge
  }

  /** New releases of the edge carry versions above all it had. */
  ghost predicate GrowsAt(w: World, w': World, edge: string) {
    forall id, j :: IsNewFor(w, w', edge, id) && j in w.releases && w.releases[j].edge == edge ==>
      Less(w.releases[j].desired, w'.releases[id].desired)
  }

  ghost predicate Grows(states: seq<World>, edge: string) {
    forall i :: 0 <= i < |states| - 1 ==> GrowsAt(states[i], states[i + 1], edge)
  }

  ghost predicate PendingIsNewest(w: World, edge: string) {
    forall p: nat, j :: Matches(w, edge, Pending, p) && j in w.releases && j != p && w.releases[j].edge == edge ==>
      Less(w.releases[j].desired, w.releases[p].desired)
  }

  lemma SameTarget(w: World, s: Step, id: nat)
    requires ReleasesOk(w) && Allowed(w, s) && id in w.releases && id in Next(w, s).releases
    ensures var w' := Next(w, s);
            w'.releases[id].edge == w.releases[id].edge && w'.releases[id].desired == w.releases[id].desired
    ensures var w' := Next(w, s); IsPending(w', id) ==> IsPending(w, id)
  {
    hide Next, Allowed, ReleasesOk;
    HowAReleaseMoves(w, s, id);
  }

  lemma StepKeepsNewest(w: World, s: Step, edge: string)
    requires ReleasesOk(w) && Allowed(w, s) && PendingIsNewest(w, edge) && GrowsAt(w, Next(w, s), edge)
    ensures PendingIsNewest(Next(w, s), edge)
  {
    hide Next, Allowed, ReleasesOk;
    var w' := Next(w, s);
    StepKeepsReleases(w, s);
    forall p: nat, j | Matches(w', edge, Pending, p) && j in w'.releases && j != p && w'.releases[j].edge == edge
      ensures Less(w'.releases[j].desired, w'.releases[p].desired)
    {
      if j in w.releases {
        SameTarget(w, s, j);
        if p in w.releases { SameTarget(w, s, p); }
      } else {
        HowReleasesAppear(w, s, j);
        WasOnePending(w', p, j);
      }
    }
  }

  // ----- the version applied last

  ghost predicate AppliedNow(w: World, w': World, edge: string, id: nat) {
    Matches(w', edge, Applied, id) && !Matches(w, edge, Applied, id)
  }

  ghost function JustApplied(w: World, w': World, edge: string): Option<nat> {
    if id :| AppliedNow(w, w', edge, id) then Some(id) else None
  }

  /** The release of the edge whose report last said applied, while it is stored. */
  ghost function LastApplied(states: seq<World>, edge: string, i: nat): Option<nat>
    requires i < |states|
  {
    if i == 0 then None
    else if JustApplied(states[i - 1], states[i], edge).Some? then JustApplied(states[i - 1], states[i], edge)
    else
      var last := LastApplied(states, edge, i - 1);
      if last.Some? && last.value in states[i].releases then last else None
  }

  lemma AppliedNowWasPending(w: World, s: Step, edge: string, id: nat)
    requires ReleasesOk(w) && Allowed(w, s) && AppliedNow(w, Next(w, s), edge, id)
    ensures Matches(w, edge, Pending, id) && Next(w, s).releases[id].desired == w.releases[id].desired
  {
    hide Next, Allowed, ReleasesOk;
    if id in w.releases { HowAReleaseMoves(w, s, id); } else { HowReleasesAppear(w, s, id); }
  }

  /** A revision that is reported applied becomes the highest applied one. */
  lemma AppliedNowIsHighest(w: World, s: Step, edge: string, id: nat)
    requires ReleasesOk(w) && Allowed(w, s) && PendingIsNewest(w, edge) && AppliedNow(w, Next(w, s), edge, id)
    ensures IsHighest(Next(w, s), edge, Applied, id)
  {
    hide Next, Allowed, ReleasesOk;
    var w' := Next(w, s);
    AppliedNowWasPending(w, s, edge, id);
    LessIrreflexive(w'.releases[id].desired);
    forall j: nat | Matches(w', edge, Applied, j) && j != id
      ensures Less(w'.releases[j].desired, w'.releases[id].desired)
    {
      if AppliedNow(w, w', edge, j) {
        AppliedNowWasPending(w, s, edge, j);
        WasOnePending(w, id, j);
      }
      SameTarget(w, s, j);
    }
    forall j: nat | Matches(w', edge, Applied, j) && j != id
      ensures !Less(w'.releases[id].desired, w'.releases[j].desired)
      ensures w'.releases[j].desired != w'.releases[id].desired
    {
      LessAsymmetric(w'.releases[j].desired, w'.releases[id].desired);
      LessIrreflexive(w'.releases[j].desired);
    }
  }

  lemma DeletionIsTotal(w: World, s: Step, edge: string, h: nat)
    requires s == DeleteEdge(edge) && h in w.releases && h !in Next(w, s).releases
    ensures forall j :: j in Next(w, s).releases ==> Next(w, s).releases[j].edge != edge
  {
  }

  /** Otherwise the highest applied one stays, or goes with its edge. */
  lemma HighestStays(w: World, s: Step, edge: string)
    requires ReleasesOk(w) && Allowed(w, s)
    requires forall id: nat :: !AppliedNow(w, Next(w, s), edge, id)
    ensures var last := Highest(w, edge, Applied);
            Highest(Next(w, s), edge, Applied) == if last.Some? && last.value in Next(w, s).releases then last else None
  {
    hide Next, Allowed, ReleasesOk, Highest;
    var w' := Next(w, s);
    HighestSpec(w, edge, Applied);
    HighestSpec(w', edge, Applied);
    var last := Highest(w, edge, Applied);
    if last.Some? {
      HowAReleaseMoves(w, s, last.value);
      if last.value in w'.releases {
        forall j: nat | Matches(w', edge, Applied, j)
          ensures Matches(w, edge, Applied, j) && w'.releases[j].desired == w.releases[j].desired
        {
          assert !AppliedNow(w, w', edge, j);
          SameTarget(w, s, j);
        }
        HighestIs(w', edge, Applied, last.value);
      } else {
        DeletionIsTotal(w, s, edge, last.value);
      }
    } else {
      forall j: nat ensures !Matches(w', edge, Applied, j) {
        assert !AppliedNow(w, w', edge, j);
      }
    }
  }

  /** MAIN: while the edge's versions grow, the highest applied revision is the one applied last,
      and a pending revision is above all others. */
  lemma {:induction false} HighestIsLastApplied(states: seq<World>, steps: seq<Step>, edge: string, i: nat)
    requires IsRun(states, steps) && Grows(states, edge) && i < |states|
    ensures Highest(states[i], edge, Applied) == LastApplied(states, edge, i)
    ensures PendingIsNewest(states[i], edge)
  {
    hide Next, Allowed, ReleasesOk, Highest, PendingIsNewest;
    if i == 0 {
      NothingApplied(states[0], edge);
    } else {
      HighestIsLastApplied(states, steps, edge, i - 1);
      var w, s := states[i - 1], steps[i - 1];
      RunsKeepReleases(states, steps, i - 1);
      assert GrowsAt(states[i - 1], states[i - 1 + 1], edge);
      StepKeepsNewest(w, s, edge);
      if JustApplied(w, states[i], edge).Some? {
        var id := LastApplied(states, edge, i).value;
        AppliedNowIsHighest(w, s, edge, id);
        HighestIs(states[i], edge, Applied, id);
      } else {
        HighestStays(w, s, edge);
      }
    }
  }

  lemma NothingApplied(w: World, edge: string)
    requires w == EMPTY
    ensures Highest(w, edge, Applied) == None && PendingIsNewest(w, edge)
  {
  }

  /** MAIN: over growing versions a reconnecting runtime is sent the pending revision if there is
      one; otherwise nothing when it runs the version applied last, and the stored package of that
      version when it does not. */
  lemma ReconnectConverges(states: seq<World>, steps: seq<Step>, edge: string, i: nat, runtime: Option<string>)
    requires IsRun(states, steps) && Grows(states, edge) && i < |states|
    ensures var w, last := states[i], LastApplied(states, edge, i);
            NothingPending(w, edge) ==>
              (last.None? ==> Deployable(w, edge, runtime) == None) &&
              (last.Some? ==> last.value in w.releases && (edge, w.releases[last.value].desired) in w.packages &&
                              Deployable(w, edge, runtime) ==
                                if runtime == Some(w.releases[last.value].desired) then None else last)
    ensures var w := states[i]; forall id: nat :: Matches(w, edge, Pending, id) ==>
        Deployable(w, edge, runtime) == Some(id)
  {
    HighestIsLastApplied(states, steps, edge, i);
    RunsKeepReleases(states, steps, i);
    hide IsRun, Grows, GrowsAt;
    var w := states[i];
    HighestSpec(w, edge, Pending);
    HighestSpec(w, edge, Applied);
    forall id: nat | Matches(w, edge, Pending, id) ensures Deployable(w, edge, runtime) == Some(id) {
      PendingIsSent(w, edge, id, runtime);
    }
  }

  // ----- a lowered version

  /** The rollout step gives the edge a pending release of the version. */
  lemma RolloutReleases(w: World, product: string, version: string, r: Rollout, edge: string) returns (id: nat)
    requires ReleasesOk(w) && TicketsFit(w, product, r) && CanTransition(w, product, version, true, r)
    requires Bound(w, product, edge)
    ensures var w' := Next(w, Rollback(product, version, r));
            Matches(w', edge, Pending, id) && w'.releases[id].desired == version
    ensures var w' := Next(w, Rollback(product, version, r));
            forall j: nat :: Matches(w, edge, Applied, j) ==> j in w'.releases && w'.releases[j] == w.releases[j]
  {
    assert edge in BoundEdges(w, product);
    id :| id in r.tickets && r.tickets[id] == edge;
    NextRollback(w, product, version, r);
    RolledOutReleases(w, product, version, r, edge, id);
    hide Next, RolledOut, TicketsFit;
  }

  lemma NextRollback(w: World, product: string, version: string, r: Rollout)
    requires CanTransition(w, product, version, true, r)
    ensures Next(w, Rollback(product, version, r)) == RolledOut(w, product, version, r)
  {
    hide RolledOut;
  }

  lemma RolledOutReleases(w: World, product: string, version: string, r: Rollout, edge: string, id: nat)
    requires w.releases.Keys <= w.issued && TicketsFit(w, product, r)
    requires product in w.products && (product, version) in w.versions && BuildsAll(w, product, r)
    requires id in r.tickets && r.tickets[id] == edge
    ensures var w' := RolledOut(w, product, version, r);
            && Matches(w', edge, Pending, id) && w'.releases[id].desired == version
            && forall j: nat :: Matches(w, edge, Applied, j) ==> j in w'.releases && w'.releases[j] == w.releases[j]
  {
    hide BuildsAll, BoundEdges, RetireLatest;
  }

  /** Reporting the version that was sent marks the pending release and no other. */
  lemma ReportApplies(w: World, n: nat, id: nat)
    requires ReleasesOk(w) && IsPending(w, id) && n in w.flights
    requires w.flights[n].edge == w.releases[id].edge && w.flights[n].version == w.releases[id].desired
    ensures var w' := Next(w, Receive(n, w.releases[id].desired, Some(w.releases[id].desired)));
            w'.releases == w.releases[id := w.releases[id].(reported := Some(w.releases[id].desired),
                                                            status := Applied)]
  {
    var w1 := w.(flights := w.flights - {n});
    var ids := PendingFor(w1, w.releases[id].edge, w.releases[id].desired);
    assert id in ids;
    assert IsPending(w, Smallest(ids));
    WasOnePending(w, id, Smallest(ids));
  }

  /** MAIN: rolling an edge back below a version it applied is not stable. Once the runtime reports
      the lower version applied, its next reconnect sends it a greater version again. */
  lemma RollbackIsUndone(w: World, product: string, version: string, r: Rollout, edge: string, higher: nat, n: nat,
                         runtime: Option<string>)
    requires ReleasesOk(w) && Allowed(w, Rollback(product, version, r)) && CanTransition(w, product, version, true, r)
    requires Bound(w, product, edge) && Matches(w, edge, Applied, higher) && Less(version, w.releases[higher].desired)
    ensures var w1 := Next(w, Rollback(product, version, r));
            var w2 := Next(w1, Send(n, edge, runtime));
            var w3 := Next(w2, Receive(n, version, Some(version)));
            var sent := Deployable(w3, edge, Some(version));
            sent.Some? && Less(version, w3.releases[sent.value].desired)
  {
    hide Next, Allowed, Deployable, CanTransition, TicketsFit, Bound, ReleasesOk;
    var w1 := Next(w, Rollback(product, version, r));
    RollbackTickets(w, product, version, r);
    var id := RolloutReleases(w, product, version, r, edge);
    StepKeepsReleases(w, Rollback(product, version, r));
    SendsPending(w1, edge, id, n, runtime);
    AfterLowering(Next(w1, Send(n, edge, runtime)), version, edge, id, higher, n);
  }

  lemma RollbackTickets(w: World, product: string, version: string, r: Rollout)
    requires Allowed(w, Rollback(product, version, r))
    ensures TicketsFit(w, product, r)
  {
  }

  predicate IsFlightOf(f: Flight, edge: string, version: string, id: nat) {
    f.edge == edge && f.version == version && f.release == id
  }

  lemma SendsPending(w: World, edge: string, id: nat, n: nat, runtime: Option<string>)
    requires ReleasesOk(w) && Matches(w, edge, Pending, id)
    ensures var w' := Next(w, Send(n, edge, runtime));
            ReleasesOk(w') && w'.releases == w.releases && n in w'.flights &&
              IsFlightOf(w'.flights[n], edge, w.releases[id].desired, id)
  {
    PendingIsSent(w, edge, id, runtime);
    StepKeepsReleases(w, Send(n, edge, runtime));
  }

  lemma AfterLowering(w2: World, version: string, edge: string, id: nat, higher: nat, n: nat)
    requires ReleasesOk(w2) && n in w2.flights && IsFlightOf(w2.flights[n], edge, version, id)
    requires Matches(w2, edge, Pending, id) && w2.releases[id].desired == version
    requires Matches(w2, edge, Applied, higher) && Less(version, w2.releases[higher].desired)
    ensures var w3 := Next(w2, Receive(n, version, Some(version)));
            var sent := Deployable(w3, edge, Some(version));
            sent.Some? && Less(version, w3.releases[sent.value].desired)
  {
    var w3 := Next(w2, Receive(n, version, Some(version)));
    assert IsPending(w2, id);
    ReportApplies(w2, n, id);
    StepKeepsReleases(w2, Receive(n, version, Some(version)));
    hide Next, ReleasesOk, Deployable;
    forall j | j in w3.releases ensures !Matches(w3, edge, Pending, j) {
      if j != id && Matches(w2, edge, Pending, j) { WasOnePending(w2, id, j); }
    }
    assert Matches(w3, edge, Applied, higher);
    ReconnectExact(w3, edge, id);
  }

  // ----- a repeated version

  /** MAIN: why the late-report theorem asks for distinct versions. If the version that was sent is
      saved again before the runtime answers, the answer is booked on the new revision, which was
      never sent, while the one that was sent stays superseded. */
  lemma ReportOfRepeatedVersion(w: World, edge: string, sent: nat, n: nat, runtime: Option<string>, body: string,
                                id: nat)
    requires ReleasesOk(w) && Matches(w, edge, Pending, sent) && id !in w.issued
    ensures var version := w.releases[sent].desired;
            var w1 := Next(w, Send(n, edge, runtime));
            var w2 := Next(w1, Save(edge, version, body, true, id, true));
            var w3 := Next(w2, Receive(n, version, Some(version)));
            && n in w1.flights && w1.flights[n].release == sent
            && sent in w3.releases && w3.releases[sent].status == Superseded
            && id in w3.releases && w3.releases[id] == Release(edge, version, Some(version), Applied)
  {
    var version := w.releases[sent].desired;
    SendsPending(w, edge, sent, n, runtime);
    var w1 := Next(w, Send(n, edge, runtime));
    SendIssuesNothing(w, n, edge, runtime);
    SavedAgain(w1, edge, version, body, sent, id);
    var s := Save(edge, version, body, true, id, true);
    StepKeepsReleases(w1, s);
    hide Next, ReleasesOk, Deployable;
    ReportApplies(Next(w1, s), n, id);
  }

  lemma SendIssuesNothing(w: World, n: nat, edge: string, runtime: Option<string>)
    ensures Next(w, Send(n, edge, runtime)).issued == w.issued
  {
  }

  lemma SavedAgain(w: World, edge: string, version: string, body: string, sent: nat, id: nat)
    requires Matches(w, edge, Pending, sent) && id !in w.issued && w.releases.Keys <= w.issued
    ensures var w' := Next(w, Save(edge, version, body, true, id, true));
            && id != sent && sent in w'.releases && w'.releases[sent].status == Superseded
            && IsPending(w', id) && w'.releases[id] == Release(edge, version, None, Pending) && w'.flights == w.flights
  {
  }
}
