/** How releases move over whole runs: what ends a pending release, what never changes again, and
    what a late report can still touch. */
module ReleaseRuns {
  import opened Text
  import opened Control
  import opened Releases
  import Versions

  /** Superseded because a new pending release of the same edge took its place. */
  ghost predicate SupersededNow(w: World, w': World, id: nat)
    requires id in w.releases
  {
    && IsPending(w, id) && id in w'.releases && w'.releases[id] == w.releases[id].(status := Superseded)
    && exists j :: j !in w.issued && IsPending(w', j) && w'.releases[j].edge == w.releases[id].edge
  }

  function Marked(r: Release, version: string): Release {
    r.(reported := Some(version), status := if r.desired == version then Applied else Failed)
  }

  /** The report says which release it is about: an EdgeLink report always does; an HTTP report does
      by its desired version or, without one, by reporting the release's version. */
  predicate Identifies(s: Step, r: Release) {
    || s.Receive?
    || (s.HttpReport? && (s.desiredVersion == Some(r.desired) || (s.desiredVersion.None? && s.reported == r.desired)))
  }

  /** Ended by its own report. */
  ghost predicate ReportedNow(w: World, w': World, s: Step, id: nat)
    requires id in w.releases
  {
    Identifies(s, w.releases[id]) &&
    exists version :: Reports(w, s, id, version) && id in w'.releases &&
      w'.releases[id] == Marked(w.releases[id], version)
  }

  /** Failed by an HTTP report of another version, being the edge's only pending release. */
  ghost predicate MistakenNow(w: World, w': World, s: Step, id: nat)
    requires id in w.releases
  {
    && IsPending(w, id) && s.HttpReport? && s.edge == w.releases[id].edge && s.desiredVersion.None? &&
       s.reported != w.releases[id].desired
    && id in w'.releases && w'.releases[id] == w.releases[id].(reported := Some(s.reported), status := Failed)
  }

  lemma CreateMoves(w: World, w': World, batch: map<nat, Release>, id: nat)
    requires ReleasesOk(w) && Creates(w, w', batch) && id in w.releases
    ensures id in w'.releases && (w'.releases[id] == w.releases[id] || SupersededNow(w, w', id))
  {
    assert id !in batch;
    assert id in w'.releases;
    CreatesOne(w, w', batch, id);
    if w'.releases[id] != w.releases[id] {
      var j :| j in batch && batch[j].edge == w.releases[id].edge;
      assert j in w'.releases;
      CreatesOne(w, w', batch, j);
      assert IsPending(w', j);
    }
  }

  lemma ReportMoves(w: World, s: Step, id: nat)
    requires (s.Receive? || s.HttpReport?) && id in w.releases
    ensures var w' := Next(w, s);
            || (id in w'.releases && w'.releases[id] == w.releases[id])
            || ReportedNow(w, w', s, id) || MistakenNow(w, w', s, id)
  {
    hide Next;
    var marked, version := ReportStep(w, s);
    if marked == Some(id) {
      assert Next(w, s).releases[id] == Marked(w.releases[id], version);
    }
  }

  lemma OtherMoves(w: World, s: Step, id: nat)
    requires (s.DeleteEdge? || s.Send? || s.Hangup?) && id in w.releases
    ensures var w' := Next(w, s);
            || (id in w'.releases && w'.releases[id] == w.releases[id])
            || (s == DeleteEdge(w.releases[id].edge) && id !in w'.releases)
  {
    hide Deployable;
  }

  /** MAIN: an allowed step leaves a release alone, supersedes it while pending by a newer one of
      the same edge, records its own report while pending, fails it while pending on an HTTP report
      of another version, or deletes it with its edge. */
  lemma HowAReleaseMoves(w: World, s: Step, id: nat)
    requires ReleasesOk(w) && Allowed(w, s) && id in w.releases
    ensures var w' := Next(w, s);
            || (id in w'.releases && w'.releases[id] == w.releases[id])
            || SupersededNow(w, w', id)
            || ReportedNow(w, w', s, id)
            || MistakenNow(w, w', s, id)
            || (s == DeleteEdge(w.releases[id].edge) && id !in w'.releases)
  {
    hide Next, Allowed, ReleasesOk, Creates, SupersededNow, ReportedNow, MistakenNow;
    if OnlyCreates(s) {
      var batch := StepCreates(w, s);
      CreateMoves(w, Next(w, s), batch, id);
    } else if s.Receive? || s.HttpReport? {
      ReportMoves(w, s, id);
    } else {
      OtherMoves(w, s, id);
    }
  }

  /** New releases are pending and carry an identifier never used before. */
  lemma HowReleasesAppear(w: World, s: Step, id: nat)
    requires ReleasesOk(w) && Allowed(w, s) && id !in w.releases && id in Next(w, s).releases
    ensures id !in w.issued && IsPending(Next(w, s), id) && Next(w, s).releases[id].reported == None
  {
    hide Next, Allowed, Creates, ReleasesOk;
    if OnlyCreates(s) {
      var batch := StepCreates(w, s);
      CreatedIsNew(w, Next(w, s), batch, id);
    } else if s.Receive? || s.HttpReport? {
      var marked, version := ReportStep(w, s);
    } else {
      NothingAppears(w, s);
    }
  }

  lemma CreatedIsNew(w: World, w': World, batch: map<nat, Release>, id: nat)
    requires ReleasesOk(w) && Creates(w, w', batch) && id !in w.releases && id in w'.releases
    ensures id !in w.issued && IsPending(w', id) && w'.releases[id].reported == None
  {
    CreatesOne(w, w', batch, id);
    hide Supersede, ReleasesOk;
  }

  lemma NothingAppears(w: World, s: Step)
    requires s.DeleteEdge? || s.Send? || s.Hangup?
    ensures Next(w, s).releases.Keys <= w.releases.Keys && Next(w, s).issued == w.issued
  {
    hide Deployable;
  }

  lemma IssuedGrows(w: World, s: Step)
    requires Allowed(w, s)
    ensures w.issued <= Next(w, s).issued
  {
    hide Next, Allowed;
    if OnlyCreates(s) {
      var batch := StepCreates(w, s);
    } else if s.Receive? || s.HttpReport? {
      var marked, version := ReportStep(w, s);
    } else {
      NothingAppears(w, s);
    }
  }

  /** A release that is final is the same in every later state, or deleted for good. */
  ghost predicate Final(w: World, id: nat, r: Release) {
    id in w.issued && r.status != Pending && (id in w.releases ==> w.releases[id] == r)
  }

  lemma StepKeepsFinal(w: World, s: Step, id: nat, r: Release)
    requires ReleasesOk(w) && Allowed(w, s) && Final(w, id, r)
    ensures Final(Next(w, s), id, r)
  {
    hide Next, Allowed, ReleasesOk;
    IssuedGrows(w, s);
    if id in w.releases {
      HowAReleaseMoves(w, s, id);
    } else if id in Next(w, s).releases {
      HowReleasesAppear(w, s, id);
    }
  }

  /** MAIN: applied, failed and superseded releases never change again, in any run. */
  lemma {:induction false} FinalForever(states: seq<World>, steps: seq<Step>, i: nat, j: nat, id: nat)
    requires IsRun(states, steps) && i <= j < |states|
    requires id in states[i].releases && states[i].releases[id].status != Pending
    ensures id in states[j].releases ==> states[j].releases[id] == states[i].releases[id]
    ensures Final(states[j], id, states[i].releases[id])
    decreases j
  {
    RunsKeepReleases(states, steps, i);
    if i < j {
      FinalForever(states, steps, i, j - 1, id);
      RunsKeepReleases(states, steps, j - 1);
      StepKeepsFinal(states[j - 1], steps[j - 1], id, states[i].releases[id]);
    }
  }

  // ----- late reports

  /** No two releases of the edge want the same version. */
  ghost predicate VersionsDistinct(w: World, edge: string) {
    forall i, j :: i in w.releases && j in w.releases && i != j && w.releases[i].edge == w.releases[j].edge == edge ==>
      w.releases[i].desired != w.releases[j].desired
  }

  /** A report changes a release exactly when it names the version that was sent and a release of
      that edge and version is pending. */
  lemma ReportChangesExactly(w: World, n: nat, desired: string, applied: Option<string>)
    requires n in w.flights
    ensures var f := w.flights[n];
            Next(w, Receive(n, desired, applied)).releases != w.releases <==>
              && desired == f.version
              && exists id :: Matches(w, f.edge, Pending, id) && w.releases[id].desired == f.version
  {
    NextReceive(w, n, desired, applied);
    hide Next, RecordReport;
    var f, w1 := w.flights[n], w.(flights := w.flights - {n});
    RecordChanges(w1, f.edge, f.version, applied);
    assert forall id: nat :: Matches(w1, f.edge, Pending, id) <==> Matches(w, f.edge, Pending, id);
  }

  lemma RecordChanges(w: World, edge: string, version: string, applied: Option<string>)
    ensures RecordReport(w, edge, version, applied).releases != w.releases <==>
              exists id: nat :: Matches(w, edge, Pending, id) && w.releases[id].desired == version
  {
    var ids := PendingFor(w, edge, version);
    if ids == {} {
      forall id: nat | Matches(w, edge, Pending, id) ensures w.releases[id].desired != version {
        assert id !in ids;
      }
    } else {
      var id := Smallest(ids);
      assert Matches(w, edge, Pending, id) && w.releases[id].desired == version;
      assert RecordReport(w, edge, version, applied).releases[id].status != Pending;
    }
  }

  lemma NextReceive(w: World, n: nat, desired: string, applied: Option<string>)
    ensures Next(w, Receive(n, desired, applied)) == ReceiveReport(w, n, desired, applied)
  {
    hide ReceiveReport;
  }

  /** MAIN: once the release that was sent is no longer pending, its report changes no release, as
      long as the edge's versions are distinct. */
  lemma LateReportChangesNothing(w: World, n: nat, desired: string, applied: Option<string>)
    requires ReleasesOk(w) && n in w.flights && VersionsDistinct(w, w.flights[n].edge)
    requires w.flights[n].release in w.releases && !IsPending(w, w.flights[n].release)
    ensures Next(w, Receive(n, desired, applied)).releases == w.releases
  {
    ReportChangesExactly(w, n, desired, applied);
  }

  /** An HTTP report changes a release exactly when one is pending that the report's desired version,
      if it gives one, names; the reported version does not matter. */
  lemma HttpReportChangesExactly(w: World, edge: string, reported: string, desired: Option<string>)
    requires ReleasesOk(w)
    ensures Next(w, HttpReport(edge, reported, desired)).releases != w.releases <==>
              exists id: nat ::
                Matches(w, edge, Pending, id) && (desired.Some? ==> w.releases[id].desired == desired.value)
  {
    var w' := Next(w, HttpReport(edge, reported, desired));
    if id: nat :| Matches(w, edge, Pending, id) && (desired.Some? ==> w.releases[id].desired == desired.value) {
      HttpReportMarks(w, edge, id, reported, desired);
      assert w'.releases[id] != w.releases[id];
    }
    if w'.releases != w.releases { var id := HttpReportFound(w, edge, reported, desired); }
  }

  lemma HttpReportFound(w: World, edge: string, reported: string, desired: Option<string>) returns (id: nat)
    requires Next(w, HttpReport(edge, reported, desired)).releases != w.releases
    ensures Matches(w, edge, Pending, id) && (desired.Some? ==> w.releases[id].desired == desired.value)
  {
    hide Next;
    var marked, version := ReportStep(w, HttpReport(edge, reported, desired));
    assert marked.Some?;
    id := marked.value;
  }

  /** The one pending release is what the report is booked on, whatever version it reports. */
  lemma HttpReportMarks(w: World, edge: string, id: nat, reported: string, desired: Option<string>)
    requires ReleasesOk(w) && Matches(w, edge, Pending, id)
    requires (desired.Some? ==> w.releases[id].desired == desired.value)
    ensures Next(w, HttpReport(edge, reported, desired)).releases == w.releases[id := Marked(w.releases[id], reported)]
  {
    OnlyPending(w, edge, id);
    NextHttpReport(w, edge, reported, desired);
    hide ReleasesOk, Next;
    forall v: string ensures PendingFor(w, edge, v) == if w.releases[id].desired == v then {id} else {} {}
  }

  lemma NextHttpReport(w: World, edge: string, reported: string, desired: Option<string>)
    ensures Next(w, HttpReport(edge, reported, desired)) == HttpReported(w, edge, reported, desired)
  {
    hide HttpReported;
  }

  lemma OnlyPending(w: World, edge: string, id: nat)
    requires ReleasesOk(w) && Matches(w, edge, Pending, id)
    ensures PendingIds(w, edge) == {id}
  {
    forall j | j in PendingIds(w, edge) ensures j == id {
      assert IsPending(w, id) && IsPending(w, j);
    }
  }

  /** MAIN: a late HTTP report, about a release that is no longer pending, changes no release exactly
      when it gives the desired version or nothing is pending. Without a desired version it fails
      the newer pending release instead. */
  lemma LateHttpReportExactly(w: World, late: nat, desired: Option<string>)
    requires ReleasesOk(w) && late in w.releases && !IsPending(w, late) && VersionsDistinct(w, w.releases[late].edge)
    requires desired.Some? ==> desired.value == w.releases[late].desired
    ensures var r := w.releases[late];
            var w' := Next(w, HttpReport(r.edge, r.desired, desired));
            && (w'.releases == w.releases <==> desired.Some? || PendingIds(w, r.edge) == {})
            && forall id: nat :: Matches(w, r.edge, Pending, id) && desired.None? ==>
                 w'.releases == w.releases[id := w.releases[id].(reported := Some(r.desired), status := Failed)]
  {
    var r := w.releases[late];
    HttpReportChangesExactly(w, r.edge, r.desired, desired);
    forall id: nat | Matches(w, r.edge, Pending, id) && desired.None?
      ensures Next(w, HttpReport(r.edge, r.desired, desired)).releases ==
                w.releases[id := w.releases[id].(reported := Some(r.desired), status := Failed)]
    {
      HttpReportMarks(w, r.edge, id, r.desired, desired);
    }
    hide Next, ReleasesOk;
    assert forall id: nat :: Matches(w, r.edge, Pending, id) <==> id in PendingIds(w, r.edge);
  }

  /** A rejection is recorded as a failure, except for a version that is itself named "rejected":
      then the runtime's refusal is recorded as applied. */
  lemma RejectionRecorded(w: World, edge: string, version: string)
    requires ReleasesOk(w) && PendingFor(w, edge, version) != {}
    ensures var id := Smallest(PendingFor(w, edge, version));
            RecordReport(w, edge, version, None).releases[id].status ==
              (if version == "rejected" then Applied else Failed)
  {
  }

  /** The compatibility publish route supersedes nothing: it keeps one pending release per edge
      exactly when the edge had none pending or it published nothing. */
  lemma CompatibilityPublish(w: World, edge: string, valid: bool, id: nat)
    requires ReleasesOk(w) && id !in w.issued
    ensures OnePending(Next(w, CompatPublish(edge, valid, id))) <==>
              PendingIds(w, edge) == {} || !valid || StoredVersions(w, edge) == {}
  {
    var w', stored := Next(w, CompatPublish(edge, valid, id)), StoredVersions(w, edge);
    assert id !in w.releases;
    if valid && stored != {} {
      var m := GreatestExists(stored);
      assert Versions.IsLatest(stored, m);
      assert IsPending(w', id) && w'.releases[id].edge == edge;
      if p :| p in PendingIds(w, edge) {
        assert IsPending(w', p) && w'.releases[p].edge == edge;
      } else {
        forall i: nat, j: nat | IsPending(w', i) && IsPending(w', j) && w'.releases[i].edge == w'.releases[j].edge
          ensures i == j
        {
          if i != id && j != id { WasOnePending(w, i, j); }
          assert i != id && w'.releases[i].edge == edge ==> i in PendingIds(w, edge);
          assert j != id && w'.releases[j].edge == edge ==> j in PendingIds(w, edge);
        }
      }
    } else {
      assert w'.releases == w.releases;
      forall i: nat, j: nat | IsPending(w', i) && IsPending(w', j) && w'.releases[i].edge == w'.releases[j].edge
        ensures i == j
      {
        WasOnePending(w, i, j);
      }
    }
  }
}
