/** Runs from the empty store that reach the states in which the releases surprise. */
module Witnesses {
  import opened Text
  import opened Control
  import opened Releases
  import opened ReleaseRuns
  import opened Convergence

  /** The state is the last one of a run. */
  ghost predicate Reachable(w: World) {
    exists states, steps :: IsRun(states, steps) && states[|steps|] == w
  }

  lemma StartIsReachable()
    ensures Reachable(EMPTY)
  {
    var states: seq<World>, steps: seq<Step> := [EMPTY], [];
    assert IsRun(states, steps) && states[|steps|] == EMPTY;
  }

  lemma StepIsReachable(w: World, s: Step)
    requires Reachable(w) && Allowed(w, s)
    ensures Reachable(Next(w, s))
  {
    hide Next, Allowed;
    var states, steps :| IsRun(states, steps) && states[|steps|] == w;
    ExtendRun(states, steps, s);
    var longer, more := states + [Next(w, s)], steps + [s];
    assert IsRun(longer, more) && longer[|more|] == Next(w, s);
  }

  lemma ReachableIsOk(w: World)
    requires Reachable(w)
    ensures ReleasesOk(w)
  {
    hide ReleasesOk, Next, Allowed;
    var states, steps :| IsRun(states, steps) && states[|steps|] == w;
    RunsKeepReleases(states, steps, |steps|);
  }

  /** One valid save to an edge: its release is pending. */
  lemma SavedOnce(edge: string, version: string) returns (w: World)
    ensures Reachable(w) && ReleasesOk(w) && w.issued == {1} && Matches(w, edge, Pending, 1)
    ensures w.releases[1].desired == version
  {
    var s := Save(edge, version, "", true, 1, true);
    StartIsReachable();
    StepIsReachable(EMPTY, s);
    w := Next(EMPTY, s);
    ReachableIsOk(w);
  }

  /** A second save to the same edge: the first release is superseded, the second pending. */
  lemma SavedTwice(edge: string, first: string, second: string) returns (w: World)
    ensures Reachable(w) && ReleasesOk(w) && Matches(w, edge, Superseded, 1) && w.releases[1].desired == first
    ensures Matches(w, edge, Pending, 2) && w.releases[2].desired == second && w.releases.Keys == {1, 2}
  {
    var s, t := Save(edge, first, "", true, 1, true), Save(edge, second, "", true, 2, true);
    StartIsReachable();
    StepIsReachable(EMPTY, s);
    var w1 := Next(EMPTY, s);
    StepIsReachable(w1, t);
    w := Next(w1, t);
    ReachableIsOk(w);
  }

  /** A rejected revision of a version named "rejected" is recorded as applied. */
  lemma RejectedAsApplied(edge: string) returns (w: World, id: nat)
    ensures Reachable(w) && id in w.releases && w.releases[id].desired == "rejected" && IsPending(w, id)
    ensures RecordReport(w, edge, "rejected", None).releases[id].status == Applied
  {
    w := SavedOnce(edge, "rejected");
    id := 1;
    OnlyPending(w, edge, id);
    assert PendingFor(w, edge, "rejected") == {id};
    RejectionRecorded(w, edge, "rejected");
  }

  /** The compatibility route leads from a reachable state to two pending releases of one edge. */
  lemma TwoPending(edge: string, version: string) returns (w: World)
    ensures Reachable(w) && !OnePending(Next(w, CompatPublish(edge, true, 2)))
  {
    w := SavedOnce(edge, version);
    CompatibilityPublish(w, edge, true, 2);
    assert (edge, version) in w.packages;
    assert version in StoredVersions(w, edge) && 1 in PendingIds(w, edge);
  }

  /** A late HTTP report without a desired version fails the newer revision. */
  lemma LateHttpReportFails(edge: string, first: string, second: string) returns (w: World)
    requires first != second
    ensures Reachable(w) && Matches(w, edge, Pending, 2) && w.releases[2].desired == second
    ensures Matches(Next(w, HttpReport(edge, first, None)), edge, Failed, 2)
  {
    w := SavedTwice(edge, first, second);
    LateHttpReportExactly(w, 1, None);
  }

  /** The answer to a version saved again is booked on the second save. */
  lemma RepeatedVersionBooked(edge: string, version: string) returns (w: World, w': World)
    ensures Reachable(w) && Reachable(w') && Matches(w, edge, Pending, 1)
    ensures Matches(w', edge, Superseded, 1) && Matches(w', edge, Applied, 2)
  {
    w := SavedOnce(edge, version);
    var send, again, answer := Send(0, edge, None), Save(edge, version, "", true, 2, true),
      Receive(0, version, Some(version));
    ReportOfRepeatedVersion(w, edge, 1, 0, None, "", 2);
    SendIssuesNothing(w, 0, edge, None);
    var w1 := Next(w, send);
    var w2 := Next(w1, again);
    w' := Next(w2, answer);
    RepeatedAllowed(w, w1, w2, edge, version);
    hide Next, Allowed, ReleasesOk;
    StepIsReachable(w, send);
    StepIsReachable(w1, again);
    StepIsReachable(w2, answer);
    StaysOfEdge(w, w1, w2, w', edge, version);
  }

  lemma RepeatedAllowed(w: World, w1: World, w2: World, edge: string, version: string)
    requires w1.issued == w.issued == {1}
    ensures Allowed(w, Send(0, edge, None)) && Allowed(w1, Save(edge, version, "", true, 2, true))
    ensures Allowed(w2, Receive(0, version, Some(version)))
  {
  }

  /** A release keeps its edge over the three steps. */
  lemma StaysOfEdge(w: World, w1: World, w2: World, w': World, edge: string, version: string)
    requires Reachable(w) && Reachable(w1) && Reachable(w2) && 1 in w.releases && 1 in w'.releases
    requires w.releases[1].edge == edge
    requires w1 == Next(w, Send(0, edge, None)) && w2 == Next(w1, Save(edge, version, "", true, 2, true))
    requires w' == Next(w2, Receive(0, version, Some(version)))
    requires w1.issued == w.issued == {1}
    ensures w'.releases[1].edge == edge
  {
    RepeatedAllowed(w, w1, w2, edge, version);
    ReachableIsOk(w);
    ReachableIsOk(w1);
    ReachableIsOk(w2);
    hide Next, Allowed, ReleasesOk;
    HowAReleaseMoves(w, Send(0, edge, None), 1);
    HowAReleaseMoves(w1, Save(edge, version, "", true, 2, true), 1);
    HowAReleaseMoves(w2, Receive(0, version, Some(version)), 1);
  }

  // ----- a product with two versions and one edge

  const PACKAGE: Built := Package("", true)

  /** A rollout that meets no obstacle, with one release for `edge`. */
  function Smooth(edge: string, id: nat): Rollout {
    Rollout(true, map[edge := PACKAGE], map[id := edge], true)
  }

  const NOWHERE: Rollout := Rollout(true, map[], map[], true)

  /** A new version that is complete and can be rolled out is published at once. */
  lemma PublishesNew(w: World, product: string, version: string, r: Rollout)
    requires product in w.products && (product, version) !in w.versions && r.publishable && r.saved
    requires BuildsAll(w, product, r)
    ensures var draft := w.(versions := w.versions[(product, version) := ProductVersion(Drafted, "")]);
            && CanTransition(draft, product, version, false, r)
            && Next(w, CreateVersion(product, version, "", r)) == RolledOut(draft, product, version, r)
  {
    hide RolledOut;
    var draft := w.(versions := w.versions[(product, version) := ProductVersion(Drafted, "")]);
    assert BuildsAll(draft, product, r);
    assert PutVersion(w, product, version, "", r) == Transition(draft, product, version, false, r);
  }

  /** The product has its first version published and no edge. */
  ghost predicate OneVersion(w: World, p: string, a: string) {
    && w.products == map[p := Some(a)] && w.nodes == map[] && w.issued == {} && w.releases == map[]
    && w.versions.Keys == {(p, a)} && w.versions[(p, a)].status == Published
  }

  lemma FirstPublished(p: string, a: string) returns (w: World)
    ensures Reachable(w) && OneVersion(w, p, a)
  {
    var made := EMPTY.(products := map[p := None]);
    StartIsReachable();
    ProductMade(p, made);
    NobodyBound(made, p);
    hide Next, Allowed;
    StepIsReachable(EMPTY, CreateProduct(p));
    StepIsReachable(made, CreateVersion(p, a, "", NOWHERE));
    PublishesNew(made, p, a, NOWHERE);
    w := Next(made, CreateVersion(p, a, "", NOWHERE));
    FirstGives(p, a, made.(versions := made.versions[(p, a) := ProductVersion(Drafted, "")]));
  }

  lemma ProductMade(p: string, made: World)
    requires made == EMPTY.(products := map[p := None])
    ensures Allowed(EMPTY, CreateProduct(p)) && Next(EMPTY, CreateProduct(p)) == made
  {
  }

  lemma NobodyBound(w: World, p: string)
    requires w.nodes == map[] && w.issued == {}
    ensures BuildsAll(w, p, NOWHERE)
    ensures forall v, body :: Allowed(w, CreateVersion(p, v, body, NOWHERE))
  {
    assert BoundEdges(w, p) == {};
    assert TicketsFit(w, p, NOWHERE);
  }

  lemma FirstGives(p: string, a: string, draft: World)
    requires CanTransition(draft, p, a, false, NOWHERE) && draft.products == map[p := None]
    requires draft.versions.Keys == {(p, a)}
    requires draft.nodes == map[] && draft.issued == {} && draft.releases == map[]
    ensures OneVersion(RolledOut(draft, p, a, NOWHERE), p, a)
  {
    hide BuildsAll, BoundEdges;
    var w := RolledOut(draft, p, a, NOWHERE);
    assert w.products == map[p := Some(a)] && w.nodes == map[] && w.releases == map[] && w.issued == {};
  }

  /** The edge is bound to the version. */
  ghost predicate EdgeOn(w: World, p: string, e: string, a: string) {
    && w.products == map[p := Some(a)] && w.nodes.Keys == {e} && Bound(w, p, e) && w.issued == {1}
    && w.versions.Keys == {(p, a)} && w.versions[(p, a)].status == Published
  }

  lemma EdgeBound(w: World, p: string, e: string, a: string) returns (w': World)
    requires Reachable(w) && OneVersion(w, p, a)
    ensures Reachable(w') && EdgeOn(w', p, e, a)
  {
    var s := CreateEdge(e, p, PACKAGE, 1, true);
    assert Allowed(w, s);
    StepIsReachable(w, s);
    w' := Next(w, s);
    EdgeGives(w, p, e, a);
  }

  lemma EdgeGives(w: World, p: string, e: string, a: string)
    requires OneVersion(w, p, a)
    ensures EdgeOn(Next(w, CreateEdge(e, p, PACKAGE, 1, true)), p, e, a)
  {
    hide Supersede;
    var w' := AddEdge(w, e, p, PACKAGE, 1, true);
    assert w'.nodes.Keys == {e} && w'.issued == {1};
  }

  /** Version `b` is published over `a` and rolled out to the edge. */
  ghost predicate TwoVersions(w: World, p: string, e: string, a: string, b: string) {
    && p in w.products && w.products[p] == Some(b) && w.issued == {1, 2} && w.nodes.Keys == {e} && Bound(w, p, e)
    && (p, a) in w.versions && w.versions[(p, a)].status == Retired
  }

  lemma OneTicket(w: World, p: string, e: string, id: nat)
    requires w.nodes.Keys == {e} && Bound(w, p, e) && id !in w.issued
    ensures BuildsAll(w, p, Smooth(e, id)) && TicketsFit(w, p, Smooth(e, id))
  {
    assert BoundEdges(w, p) == {e};
    assert id in Smooth(e, id).tickets && Smooth(e, id).tickets[id] == e;
  }

  lemma SecondGives(w: World, draft: World, p: string, e: string, a: string, b: string)
    requires EdgeOn(w, p, e, a) && a != b && CanTransition(draft, p, b, false, Smooth(e, 2))
    requires w.releases.Keys <= w.issued
    requires draft == w.(versions := w.versions[(p, b) := ProductVersion(Drafted, "")])
    ensures var w' := RolledOut(draft, p, b, Smooth(e, 2));
            TwoVersions(w', p, e, a, b) && Matches(w', e, Pending, 2) && w'.releases[2].desired == b
  {
    var r := Smooth(e, 2);
    OneTicket(draft, p, e, 2);
    assert 2 in r.tickets && r.tickets[2] == e;
    hide TicketsFit, BuildsAll, RolledOut;
    RolledOutReleases(draft, p, b, r, e, 2);
    SecondCatalog(draft, p, e, a, b);
  }

  lemma SecondCatalog(draft: World, p: string, e: string, a: string, b: string)
    requires a != b && CanTransition(draft, p, b, false, Smooth(e, 2)) && draft.issued == {1} && draft.nodes.Keys == {e}
    requires Bound(draft, p, e) && draft.products[p] == Some(a) && (p, a) in draft.versions
    ensures TwoVersions(RolledOut(draft, p, b, Smooth(e, 2)), p, e, a, b)
  {
    hide BuildsAll, BoundEdges, Supersede;
    assert Smooth(e, 2).tickets.Keys == {2};
  }

  lemma SecondPublished(w: World, p: string, e: string, a: string, b: string) returns (w': World)
    requires Reachable(w) && EdgeOn(w, p, e, a) && a != b
    ensures Reachable(w') && TwoVersions(w', p, e, a, b) && Matches(w', e, Pending, 2) && w'.releases[2].desired == b
  {
    var r := Smooth(e, 2);
    OneTicket(w, p, e, 2);
    assert Allowed(w, CreateVersion(p, b, "", r));
    hide Next, Allowed, RolledOut, TwoVersions, TicketsFit, BuildsAll;
    StepIsReachable(w, CreateVersion(p, b, "", r));
    ReachableIsOk(w);
    PublishesNew(w, p, b, r);
    SecondGives(w, w.(versions := w.versions[(p, b) := ProductVersion(Drafted, "")]), p, e, a, b);
    w' := Next(w, CreateVersion(p, b, "", r));
  }

  /** The handshake leaves the catalog alone. */
  lemma HandshakeKeeps(w: World, s: Step, p: string, e: string, a: string, b: string)
    requires TwoVersions(w, p, e, a, b) && (s.Send? || s.Receive?)
    ensures TwoVersions(Next(w, s), p, e, a, b)
  {
    hide Deployable;
    if s.Receive? {
      hide Next;
      var id, version := ReportStep(w, s);
    }
  }

  lemma SecondApplied(w: World, p: string, e: string, a: string, b: string) returns (w': World)
    requires Reachable(w) && TwoVersions(w, p, e, a, b) && Matches(w, e, Pending, 2) && w.releases[2].desired == b
    ensures Reachable(w') && TwoVersions(w', p, e, a, b) && Matches(w', e, Applied, 2) && w'.releases[2].desired == b
  {
    hide Next, ReleasesOk, Reachable, TwoVersions, TicketsFit;
    var send, answer := Send(0, e, None), Receive(0, b, Some(b));
    ReachableIsOk(w);
    SendsPending(w, e, 2, 0, None);
    StepIsReachable(w, send);
    HandshakeKeeps(w, send, p, e, a, b);
    var w5 := Next(w, send);
    assert IsPending(w5, 2);
    ReportApplies(w5, 0, 2);
    StepIsReachable(w5, answer);
    HandshakeKeeps(w5, answer, p, e, a, b);
    w' := Next(w5, answer);
  }

  lemma BackAllowed(w: World, p: string, e: string, a: string, b: string)
    requires TwoVersions(w, p, e, a, b) && a != b
    ensures Allowed(w, Rollback(p, a, Smooth(e, 3))) && CanTransition(w, p, a, true, Smooth(e, 3))
  {
    hide TicketsFit, BuildsAll;
    OneTicket(w, p, e, 3);
  }

  /** MAIN: for any two versions a run from the empty store reaches a rollback that does not stick:
      the edge applies the greater version, is rolled back to the lower one, applies that, and is
      sent a greater one again. */
  lemma RollbackIsUndoneFromStart(p: string, e: string, a: string, b: string) returns (w: World)
    requires Less(a, b)
    ensures Reachable(w) && CanTransition(w, p, a, true, Smooth(e, 3)) && Allowed(w, Rollback(p, a, Smooth(e, 3)))
    ensures var w1 := Next(w, Rollback(p, a, Smooth(e, 3)));
            var w3 := Next(Next(w1, Send(0, e, Some(b))), Receive(0, a, Some(a)));
            var sent := Deployable(w3, e, Some(a));
            sent.Some? && Less(a, w3.releases[sent.value].desired)
  {
    hide Next, Allowed, ReleasesOk, Reachable, CanTransition, Deployable, OneVersion, EdgeOn;
    LessAsymmetric(a, b);
    w := FirstPublished(p, a);
    w := EdgeBound(w, p, e, a);
    w := SecondPublished(w, p, e, a, b);
    w := SecondApplied(w, p, e, a, b);
    BackAllowed(w, p, e, a, b);
    ReachableIsOk(w);
    RollbackIsUndone(w, p, a, Smooth(e, 3), e, 2, 0, Some(b));
  }
}
