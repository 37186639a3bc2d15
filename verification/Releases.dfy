/** What every run keeps about configuration releases, and how a pending release can end. */
module Releases {
  import opened Text
  import opened Control
  import Versions
  import G = Governance

  // ----- what a handler can do to releases

  function EdgesOf(batch: map<nat, Release>): set<string> {
    set id | id in batch :: batch[id].edge
  }

  /** New pending releases, one per edge, each with its package; they supersede what was pending. */
  ghost predicate IsBatch(w: World, batch: map<nat, Release>) {
    && batch.Keys !! w.issued
    && (forall id :: id in batch ==> batch[id].status == Pending && batch[id].reported == None)
    && (forall i, j :: i in batch && j in batch && batch[i].edge == batch[j].edge ==> i == j)
  }

  ghost predicate Creates(w: World, w': World, batch: map<nat, Release>) {
    && IsBatch(w, batch)
    && w'.releases == Supersede(w.releases, EdgesOf(batch)) + batch
    && w'.issued == w.issued + batch.Keys && w'.flights == w.flights
    && w.packages.Keys <= w'.packages.Keys
    && (forall id :: id in batch ==> (batch[id].edge, batch[id].desired) in w'.packages)
    && ReportsKept(w, w')
  }

  /** No node's reported version changes, and new nodes have none. */
  ghost predicate ReportsKept(w: World, w': World) {
    && w.nodes.Keys <= w'.nodes.Keys
    && forall e :: e in w'.nodes ==> w'.nodes[e].reported == if e in w.nodes then w.nodes[e].reported else None
  }

  /** `w1` is `w` with more packages or different nodes, versions or change sets. */
  ghost predicate Prepares(w: World, w1: World) {
    && w1.releases == w.releases && w1.issued == w.issued && w1.flights == w.flights
    && w.packages.Keys <= w1.packages.Keys && ReportsKept(w, w1)
  }

  lemma PreparesThenCreates(w: World, w1: World, w': World, batch: map<nat, Release>)
    requires Prepares(w, w1) && Creates(w1, w', batch)
    ensures Creates(w, w', batch)
  {
  }

  lemma PreparesOnly(w: World, w': World)
    requires Prepares(w, w')
    ensures Creates(w, w', map[])
  {
    assert Supersede(w.releases, EdgesOf(map[])) == w.releases;
    assert w'.releases == w.releases + map[];
  }

  lemma SameNodes(w: World, w': World)
    requires w'.nodes == w.nodes
    ensures ReportsKept(w, w')
  {
  }

  lemma SingleBatch(w: World, id: nat, edge: string, version: string)
    requires id !in w.issued
    ensures var batch := map[id := Release(edge, version, None, Pending)];
            IsBatch(w, batch) && EdgesOf(batch) == {edge} && batch.Keys == {id}
  {
    var batch := map[id := Release(edge, version, None, Pending)];
    assert batch[id].edge == edge;
  }

  lemma SaveCreates(w: World, edge: string, version: string, body: string, valid: bool, id: nat, saved: bool)
    returns (batch: map<nat, Release>)
    requires id !in w.issued
    ensures Creates(w, SavePackage(w, edge, version, body, valid, id, saved), batch)
  {
    hide Supersede, ReportsKept, IsBatch, EdgesOf;
    var w' := SavePackage(w, edge, version, body, valid, id, saved);
    SameNodes(w, w');
    if saved && valid {
      batch := map[id := Release(edge, version, None, Pending)];
      SingleBatch(w, id, edge, version);
    } else {
      batch := map[];
      PreparesOnly(w, w');
    }
  }

  lemma BindCreates(w: World, edge: string, node: Node, version: string, build: Built, id: nat, saved: bool)
    returns (batch: map<nat, Release>)
    requires id !in w.issued && node.reported == if edge in w.nodes then w.nodes[edge].reported else None
    ensures Creates(w, BindNode(w, edge, node, version, build, id, saved), batch)
  {
    hide SavePackage, Creates;
    if build.Package? {
      var w1 := w.(nodes := w.nodes[edge := node], packages := w.packages[(edge, version) := build.body]);
      batch := SaveCreates(w1, edge, version, build.body, build.valid, id, saved);
      PreparesThenCreates(w, w1, SavePackage(w1, edge, version, build.body, build.valid, id, saved), batch);
    } else {
      batch := map[];
      PreparesOnly(w, w);
    }
  }

  /** An edit saves under the next version of the latest package, or does nothing. */
  lemma EditSaves(w: World, edge: string, body: string, valid: bool, id: nat, saved: bool)
    returns (next: Option<string>)
    ensures next.None? ==> EditPackage(w, edge, body, valid, id, saved) == w
    ensures next.Some? ==>
              EditPackage(w, edge, body, valid, id, saved) ==
                SavePackage(w.(packages := w.packages[(edge, next.value) := body]), edge, next.value, body, valid, id,
                            saved)
    ensures forall v :: Versions.IsLatest(StoredVersions(w, edge), v) ==> next == Versions.NextVersion(v)
    ensures StoredVersions(w, edge) == {} ==> next.None?
  {
    hide SavePackage, StoredVersions, Versions.NextVersion;
    var stored := StoredVersions(w, edge);
    next := None;
    if stored != {} {
      var m := GreatestExists(stored);
      assert Versions.IsLatest(stored, m);
      next := Versions.NextVersion(m);
      forall v | Versions.IsLatest(stored, v) ensures v == m { Versions.LatestUnique(stored, v, m); }
    }
  }

  lemma EditCreates(w: World, edge: string, body: string, valid: bool, id: nat, saved: bool)
    returns (batch: map<nat, Release>)
    requires id !in w.issued
    ensures Creates(w, EditPackage(w, edge, body, valid, id, saved), batch)
  {
    hide SavePackage, Creates, StoredVersions, EditPackage;
    var next := EditSaves(w, edge, body, valid, id, saved);
    if next.None? {
      batch := NothingDone(w);
    } else {
      var w1 := w.(packages := w.packages[(edge, next.value) := body]);
      batch := SaveCreates(w1, edge, next.value, body, valid, id, saved);
      PreparesThenCreates(w, w1, EditPackage(w, edge, body, valid, id, saved), batch);
    }
  }

  function Batch(version: string, r: Rollout): map<nat, Release> {
    map id | id in r.tickets :: Release(r.tickets[id], version, None, Pending)
  }

  lemma BatchEdges(w: World, product: string, version: string, r: Rollout)
    requires TicketsFit(w, product, r)
    ensures EdgesOf(Batch(version, r)) == BoundEdges(w, product) && IsBatch(w, Batch(version, r))
  {
    var batch := Batch(version, r);
    forall e | e in BoundEdges(w, product) ensures e in EdgesOf(batch) {
      var id :| id in r.tickets && r.tickets[id] == e;
      assert batch[id].edge == e;
    }
  }

  lemma RolloutCreates(w: World, product: string, version: string, r: Rollout)
    returns (batch: map<nat, Release>)
    requires TicketsFit(w, product, r)
    requires product in w.products && (product, version) in w.versions && BuildsAll(w, product, r)
    ensures Creates(w, RolledOut(w, product, version, r), batch)
  {
    hide Supersede, BuildsAll, IsBatch, EdgesOf, ReportsKept;
    batch := Batch(version, r);
    BatchEdges(w, product, version, r);
    RolloutKeepsReports(w, product, version, r);
  }

  lemma RolloutKeepsReports(w: World, product: string, version: string, r: Rollout)
    requires product in w.products && (product, version) in w.versions && BuildsAll(w, product, r)
    ensures ReportsKept(w, RolledOut(w, product, version, r))
  {
  }

  lemma TransitionCreates(w: World, product: string, version: string, rollback: bool, r: Rollout)
    returns (batch: map<nat, Release>)
    requires TicketsFit(w, product, r)
    ensures Creates(w, Transition(w, product, version, rollback, r), batch)
  {
    hide RolledOut, Creates;
    if CanTransition(w, product, version, rollback, r) {
      batch := RolloutCreates(w, product, version, r);
    } else {
      batch := map[];
      PreparesOnly(w, w);
    }
  }

  lemma TicketsAfterDraft(w: World, w': World, product: string, r: Rollout)
    requires TicketsFit(w, product, r) && w'.nodes == w.nodes && w'.issued == w.issued
    ensures TicketsFit(w', product, r)
  {
    assert BoundEdges(w', product) == BoundEdges(w, product);
  }

  lemma PutCreates(w: World, product: string, version: string, body: string, r: Rollout)
    returns (batch: map<nat, Release>)
    requires TicketsFit(w, product, r)
    ensures Creates(w, PutVersion(w, product, version, body, r), batch)
  {
    hide TicketsFit, Transition, Creates;
    var w1 := w.(versions := w.versions[(product, version) := ProductVersion(Drafted, body)]);
    TicketsAfterDraft(w, w1, product, r);
    if r.publishable {
      batch := TransitionCreates(w1, product, version, false, r);
      PreparesThenCreates(w, w1, Transition(w1, product, version, false, r), batch);
    } else {
      batch := map[];
      PreparesOnly(w, w1);
    }
  }

  lemma CreatesThenPrepares(w: World, w1: World, w': World, batch: map<nat, Release>)
    requires Creates(w, w1, batch) && Prepares(w1, w')
    ensures Creates(w, w', batch)
  {
  }

  /** Everything but the change sets stays. */
  ghost predicate OnlyChangesMove(w: World, w': World) {
    && w'.releases == w.releases && w'.issued == w.issued && w'.flights == w.flights && w'.packages == w.packages
    && w'.nodes == w.nodes && w'.products == w.products && w'.versions == w.versions
  }

  lemma EndMovesChanges(w: World, id: string, success: bool, written: bool)
    requires id in w.changes
    ensures OnlyChangesMove(w, EndChange(w, id, success, written))
  {
    hide G.After;
  }

  lemma ItemMovesChanges(w: World, id: string, item: G.Item)
    requires id in w.changes
    ensures OnlyChangesMove(w, WithItem(w, id, item))
  {
  }

  predicate GoesThrough(w: World, id: string, sound: bool, r: Rollout, db: Answers) {
    && id in w.changes && w.changes[id].item.status == G.Confirmed && db.start
    && ChangeIsValid(w, w.changes[id], sound, r) && db.version
  }

  /** An application that gets as far as publishing publishes from the prepared world and then
      writes the set's end. */
  lemma ApplyPublishes(w: World, id: string, sound: bool, r: Rollout, db: Answers)
    requires GoesThrough(w, id, sound, r, db)
    ensures var c, w2 := w.changes[id], PreparedChange(w, id);
            var w3 := Transition(w2, c.product, c.target, false, r);
            && w3.changes == w2.changes && id in w3.changes
            && ApplyChange(w, id, sound, r, db) == EndChange(w3, id, r.saved, db.finish)
            && OnlyChangesMove(w3, ApplyChange(w, id, sound, r, db))
  {
    hide Transition, ChangeIsValid, EndChange, OnlyChangesMove;
    var c, w2 := w.changes[id], PreparedChange(w, id);
    TransitionKeepsChanges(w2, c.product, c.target, r);
    EndMovesChanges(Transition(w2, c.product, c.target, false, r), id, r.saved, db.finish);
  }

  lemma ApplyStops(w: World, id: string, sound: bool, r: Rollout, db: Answers)
    requires !GoesThrough(w, id, sound, r, db)
    ensures OnlyChangesMove(w, ApplyChange(w, id, sound, r, db))
  {
    hide ChangeIsValid, G.After, WithItem, EndChange, Transition;
    if id in w.changes && w.changes[id].item.status == G.Confirmed && db.start {
      ItemMovesChanges(w, id, G.After(w.changes[id].item, G.Validate([G.Error])));
      StartKeepsId(w, id);
      EndMovesChanges(StartedChange(w, id), id, false, db.finish);
    }
  }

  lemma StartKeepsId(w: World, id: string)
    requires id in w.changes
    ensures id in StartedChange(w, id).changes && OnlyChangesMove(w, StartedChange(w, id))
  {
    hide G.After;
  }

  lemma PreparedMoves(w: World, id: string)
    requires id in w.changes
    ensures var w2, c := PreparedChange(w, id), w.changes[id];
            && id in w2.changes && w2.releases == w.releases && w2.issued == w.issued && w2.flights == w.flights
            && w2.packages == w.packages && w2.nodes == w.nodes && w2.products == w.products
            && w2.versions == w.versions[(c.product, c.target) := ProductVersion(Drafted, c.body)]
  {
    hide G.After;
  }

  lemma ApplyCreates(w: World, id: string, sound: bool, r: Rollout, db: Answers) returns (batch: map<nat, Release>)
    requires id in w.changes ==> TicketsFit(w, w.changes[id].product, r)
    ensures Creates(w, ApplyChange(w, id, sound, r, db), batch)
  {
    hide TicketsFit, Transition, Creates, ChangeIsValid, Prepares, ApplyChange, PreparedChange;
    var w' := ApplyChange(w, id, sound, r, db);
    if GoesThrough(w, id, sound, r, db) {
      var c, w2 := w.changes[id], PreparedChange(w, id);
      var w3 := Transition(w2, c.product, c.target, false, r);
      ApplyPublishes(w, id, sound, r, db);
      PreparedMoves(w, id);
      TicketsAfterDraft(w, w2, c.product, r);
      batch := TransitionCreates(w2, c.product, c.target, false, r);
      OnlyCatalogMoves(w, w2);
      PreparesThenCreates(w, w2, w3, batch);
      OnlyCatalogMoves(w3, w');
      CreatesThenPrepares(w, w3, w', batch);
    } else {
      batch := map[];
      ApplyStops(w, id, sound, r, db);
      OnlyCatalogMoves(w, w');
      PreparesOnly(w, w');
    }
  }

  lemma OnlyCatalogMoves(w: World, w': World)
    requires w'.releases == w.releases && w'.issued == w.issued && w'.flights == w.flights
    requires w'.packages == w.packages && w'.nodes == w.nodes
    ensures Prepares(w, w')
  {
  }

  lemma TransitionKeepsChanges(w: World, product: string, version: string, r: Rollout)
    ensures Transition(w, product, version, false, r).changes == w.changes
  {
  }

  /** Steps that neither deliver a package or a report nor delete an edge only create releases. */
  predicate OnlyCreates(s: Step) {
    !s.Send? && !s.Receive? && !s.Hangup? && !s.HttpReport? && !s.DeleteEdge?
  }

  lemma StepCreates(w: World, s: Step) returns (batch: map<nat, Release>)
    requires Allowed(w, s) && OnlyCreates(s)
    ensures Creates(w, Next(w, s), batch)
  {
    hide Next, Creates, Prepares, TicketsFit;
    if s.Connect? || s.CreateProduct? || s.DeleteProduct? || s.DeleteVersion? || s.Propose? || s.Review? ||
      s.DropChanges? {
      batch := map[];
      OtherPrepares(w, s);
      PreparesOnly(w, Next(w, s));
    } else if s.Save? || s.Edit? || s.CreateEdge? || s.BindEdge? {
      batch := PackageStepCreates(w, s);
    } else {
      batch := VersionStepCreates(w, s);
    }
  }

  lemma PackageStepCreates(w: World, s: Step) returns (batch: map<nat, Release>)
    requires Allowed(w, s) && (s.Save? || s.Edit? || s.CreateEdge? || s.BindEdge?)
    ensures Creates(w, Next(w, s), batch)
  {
    hide SavePackage, EditPackage, AddEdge, Rebind, Creates;
    match s {
      case Save(e, v, body, valid, id, saved) => batch := SaveCreates(w, e, v, body, valid, id, saved);
      case Edit(e, body, valid, id, saved) => batch := EditCreates(w, e, body, valid, id, saved);
      case CreateEdge(e, p, build, id, saved) => batch := AddEdgeCreates(w, e, p, build, id, saved);
      case BindEdge(e, p, requested, build, id, saved) => batch := RebindCreates(w, e, p, requested, build, id, saved);
    }
  }

  lemma VersionStepCreates(w: World, s: Step) returns (batch: map<nat, Release>)
    requires Allowed(w, s) && OnlyCreates(s)
    requires s.CreateVersion? || s.SaveVersion? || s.Publish? || s.Rollback? || s.ApplyChangeSet?
    ensures Creates(w, Next(w, s), batch)
  {
    hide Transition, PutVersion, ApplyChange, TicketsFit, Creates;
    match s {
      case CreateVersion(p, v, body, r) =>
        if p in w.products && (p, v) !in w.versions {
          batch := PutCreates(w, p, v, body, r);
        } else {
          batch := NothingDone(w);
        }
      case SaveVersion(p, v, body, r) =>
        if p in w.products && IsDraft(w, (p, v)) {
          batch := PutCreates(w, p, v, body, r);
        } else {
          batch := NothingDone(w);
        }
      case Publish(p, v, r) => batch := TransitionCreates(w, p, v, false, r);
      case Rollback(p, v, r) => batch := TransitionCreates(w, p, v, true, r);
      case ApplyChangeSet(id, sound, r, db) => batch := ApplyCreates(w, id, sound, r, db);
    }
  }

  lemma OtherPrepares(w: World, s: Step)
    requires s.Connect? || s.CreateProduct? || s.DeleteProduct? || s.DeleteVersion? || s.Propose? || s.Review? ||
            s.DropChanges?
    ensures Prepares(w, Next(w, s))
  {
    hide Prepares, Greet, AddProduct, RemoveProduct, RemoveDraft, ReviewChange;
    match s {
      case Connect(e) => GreetPrepares(w, e);
      case CreateProduct(p) => AddProductPrepares(w, p);
      case DeleteProduct(p) => RemoveProductPrepares(w, p);
      case DeleteVersion(p, v) => RemoveDraftPrepares(w, p, v);
      case Review(id, actions) => ReviewPrepares(w, id, actions);
      case Propose(id, change) => OnlyCatalogMoves(w, w.(changes := w.changes[id := change]));
      case DropChanges(dropped) => OnlyCatalogMoves(w, w.(changes := w.changes - dropped));
    }
  }

  lemma AddProductPrepares(w: World, product: string)
    ensures Prepares(w, AddProduct(w, product))
  {
    hide Prepares;
    OnlyCatalogMoves(w, AddProduct(w, product));
  }

  lemma RemoveDraftPrepares(w: World, product: string, version: string)
    ensures Prepares(w, RemoveDraft(w, product, version))
  {
    hide Prepares;
    OnlyCatalogMoves(w, RemoveDraft(w, product, version));
  }

  lemma RemoveProductPrepares(w: World, product: string)
    ensures Prepares(w, RemoveProduct(w, product))
  {
    hide Prepares, BoundEdges;
    OnlyCatalogMoves(w, RemoveProduct(w, product));
  }

  lemma ReviewPrepares(w: World, id: string, actions: seq<G.Action>)
    ensures Prepares(w, ReviewChange(w, id, actions))
  {
    hide Prepares, G.Run;
    OnlyCatalogMoves(w, ReviewChange(w, id, actions));
  }

  lemma NewNodeKeepsReports(w: World, w': World, edge: string)
    requires edge !in w.nodes && w'.nodes == w.nodes[edge := Node(None, None, None)]
    ensures ReportsKept(w, w')
  {
  }

  lemma GreetPrepares(w: World, edge: string)
    ensures Prepares(w, Greet(w, edge))
  {
    hide ReportsKept;
    var w' := Greet(w, edge);
    if edge in w.nodes { SameNodes(w, w'); } else { NewNodeKeepsReports(w, w', edge); }
  }

  lemma NothingDone(w: World) returns (batch: map<nat, Release>)
    ensures Creates(w, w, batch)
  {
    batch := map[];
    PreparesOnly(w, w);
  }

  lemma AddEdgeCreates(w: World, edge: string, product: string, build: Built, id: nat, saved: bool)
    returns (batch: map<nat, Release>)
    requires id !in w.issued && edge !in w.nodes
    ensures Creates(w, AddEdge(w, edge, product, build, id, saved), batch)
  {
    hide BindNode, Creates;
    if AddEdge(w, edge, product, build, id, saved) == w {
      batch := NothingDone(w);
    } else {
      var v := w.products[product];
      batch := BindCreates(w, edge, Node(Some(product), v, None), v.value, build, id, saved);
    }
  }

  lemma RebindCreates(w: World, edge: string, product: string, requested: Option<string>, build: Built, id: nat,
                      saved: bool)
    returns (batch: map<nat, Release>)
    requires id !in w.issued
    ensures Creates(w, Rebind(w, edge, product, requested, build, id, saved), batch)
  {
    hide BindNode, Creates;
    if Rebind(w, edge, product, requested, build, id, saved) == w {
      batch := NothingDone(w);
    } else {
      var v := if requested.Some? then requested else w.products[product];
      batch := BindCreates(w, edge, w.nodes[edge].(product := Some(product), desired := v), v.value, build, id, saved);
    }
  }

  // ----- reports

  /** The version a runtime's answer counts as. */
  function Answer(applied: Option<string>): string {
    if applied.Some? then applied.value else "rejected"
  }

  /** The release a report step is about, and the version it reports. */
  ghost predicate Reports(w: World, s: Step, id: nat, version: string) {
    && id in w.releases && w.releases[id].status == Pending
    && match s
       case Receive(n, desired, applied) =>
         n in w.flights && w.flights[n].edge == w.releases[id].edge &&
           w.flights[n].version == desired == w.releases[id].desired &&
         version == Answer(applied)
       case HttpReport(e, reported, desired) =>
         e == w.releases[id].edge && version == reported && (desired.Some? ==> desired.value == w.releases[id].desired)
       case _ => false
  }

  ghost function WithoutFlight(w: World, s: Step): World {
    if s.Receive? then w.(flights := w.flights - {s.session}) else w
  }

  /** A report step marks one pending release it is about, or changes no release. */
  lemma ReportStep(w: World, s: Step) returns (id: Option<nat>, version: string)
    requires s.Receive? || s.HttpReport?
    ensures id.None? ==> Next(w, s) == WithoutFlight(w, s)
    ensures id.Some? ==>
        Reports(w, s, id.value, version) && Next(w, s) == MarkReported(WithoutFlight(w, s), id.value, version)
  {
    id, version := None, "";
    match s {
      case Receive(n, desired, applied) =>
        if n in w.flights && desired == w.flights[n].version {
          var ids := PendingFor(w, w.flights[n].edge, desired);
          assert PendingFor(WithoutFlight(w, s), w.flights[n].edge, desired) == ids;
          if ids != {} { id, version := Some(Smallest(ids)), Answer(applied); }
        } else if n !in w.flights {
          assert w.flights - {n} == w.flights;
        }
      case HttpReport(e, reported, desired) =>
        version := reported;
        if desired.Some? {
          if PendingFor(w, e, desired.value) != {} { id := Some(Smallest(PendingFor(w, e, desired.value))); }
        } else if PendingFor(w, e, reported) != {} {
          id := Some(Smallest(PendingFor(w, e, reported)));
        } else if |PendingIds(w, e)| == 1 {
          assert PendingIds(w, e) != {};
          id := Some(Smallest(PendingIds(w, e)));
        }
    }
  }

  // ----- the invariant

  predicate IsPending(w: World, id: nat) {
    id in w.releases && w.releases[id].status == Pending
  }

  ghost predicate OnePending(w: World) {
    forall i: nat, j: nat :: IsPending(w, i) && IsPending(w, j) && w.releases[i].edge == w.releases[j].edge ==> i == j
  }

  /** Applied exactly when the report named the desired version, failed when it named another,
      and no report otherwise. */
  ghost predicate ReportFits(r: Release) {
    && (r.status == Applied <==> r.reported == Some(r.desired))
    && (r.reported.Some? <==> r.status == Applied || r.status == Failed)
  }

  ghost predicate FlightFits(w: World, f: Flight) {
    && f.release in w.issued
    && (f.release in w.releases ==> w.releases[f.release].edge == f.edge && w.releases[f.release].desired == f.version)
  }

  ghost predicate ReleasesOk(w: World) {
    && w.releases.Keys <= w.issued
    && OnePending(w)
    && (forall id :: id in w.releases ==> ReportFits(w.releases[id]))
    && (forall id :: id in w.releases ==> (w.releases[id].edge, w.releases[id].desired) in w.packages)
    && (forall n :: n in w.flights ==> FlightFits(w, w.flights[n]))
  }

  function SupersededBy(r: Release, edges: set<string>): Release {
    if r.status == Pending && r.edge in edges then r.(status := Superseded) else r
  }

  /** What a batch leaves of an old release, and what it adds. */
  lemma CreatesOne(w: World, w': World, batch: map<nat, Release>, id: nat)
    requires ReleasesOk(w) && Creates(w, w', batch) && id in w'.releases
    ensures id in batch ==> id !in w.releases && w'.releases[id] == batch[id] && batch[id].edge in EdgesOf(batch)
    ensures id !in batch ==> id in w.releases
    ensures id !in batch ==> w'.releases[id] == SupersededBy(w.releases[id], EdgesOf(batch))
  {
  }

  lemma CreatesOnePending(w: World, w': World, batch: map<nat, Release>)
    requires ReleasesOk(w) && Creates(w, w', batch)
    ensures OnePending(w')
  {
    hide Creates, ReleasesOk;
    forall i: nat, j: nat | IsPending(w', i) && IsPending(w', j) && w'.releases[i].edge == w'.releases[j].edge
      ensures i == j
    {
      CreatedOnce(w, w', batch, i, j);
    }
  }

  lemma CreatedOnce(w: World, w': World, batch: map<nat, Release>, i: nat, j: nat)
    requires ReleasesOk(w) && Creates(w, w', batch)
    requires IsPending(w', i) && IsPending(w', j) && w'.releases[i].edge == w'.releases[j].edge
    ensures i == j
  {
    hide Creates, ReleasesOk, Supersede, EdgesOf;
    CreatesOne(w, w', batch, i);
    CreatesOne(w, w', batch, j);
    if i in batch && j in batch { BatchOnePerEdge(w, w', batch, i, j); }
    if i !in batch && j !in batch { WasOnePending(w, i, j); }
  }

  lemma BatchOnePerEdge(w: World, w': World, batch: map<nat, Release>, i: nat, j: nat)
    requires Creates(w, w', batch) && i in batch && j in batch && batch[i].edge == batch[j].edge
    ensures i == j
  {
  }

  lemma WasOnePending(w: World, i: nat, j: nat)
    requires ReleasesOk(w) && IsPending(w, i) && IsPending(w, j) && w.releases[i].edge == w.releases[j].edge
    ensures i == j
  {
  }

  lemma CreatedRecordOk(w: World, w': World, batch: map<nat, Release>, id: nat)
    requires ReleasesOk(w) && Creates(w, w', batch) && id in w'.releases
    ensures id in w'.issued && ReportFits(w'.releases[id])
    ensures (w'.releases[id].edge, w'.releases[id].desired) in w'.packages
  {
    CreatesOne(w, w', batch, id);
    hide Supersede, OnePending, EdgesOf, FlightFits;
  }

  lemma CreatedFlightOk(w: World, w': World, batch: map<nat, Release>, n: nat)
    requires ReleasesOk(w) && Creates(w, w', batch) && n in w'.flights
    ensures FlightFits(w', w'.flights[n])
  {
    hide Supersede, OnePending, EdgesOf, ReportFits;
    var f := w.flights[n];
    assert FlightFits(w, f);
    if f.release in w'.releases { CreatesOne(w, w', batch, f.release); }
  }

  lemma CreatesKeeps(w: World, w': World, batch: map<nat, Release>)
    requires ReleasesOk(w) && Creates(w, w', batch)
    ensures ReleasesOk(w')
  {
    hide Creates, OnePending, ReportFits, FlightFits;
    CreatesOnePending(w, w', batch);
    forall id | id in w'.releases
      ensures id in w'.issued && ReportFits(w'.releases[id])
      ensures (w'.releases[id].edge, w'.releases[id].desired) in w'.packages
    {
      CreatedRecordOk(w, w', batch, id);
    }
    forall n | n in w'.flights ensures FlightFits(w', w'.flights[n]) {
      CreatedFlightOk(w, w', batch, n);
    }
  }

  lemma MarkKeeps(w: World, id: nat, version: string)
    requires ReleasesOk(w) && IsPending(w, id)
    ensures ReleasesOk(MarkReported(w, id, version))
  {
  }

  lemma ReportKeeps(w: World, s: Step)
    requires ReleasesOk(w) && (s.Receive? || s.HttpReport?)
    ensures ReleasesOk(Next(w, s))
  {
    var w1 := WithoutFlight(w, s);
    assert ReleasesOk(w1);
    hide Next, ReleasesOk, MarkReported;
    var id, version := ReportStep(w, s);
    if id.Some? { MarkKeeps(w1, id.value, version); }
  }

  lemma RemovalKeeps(w: World, edge: string)
    requires ReleasesOk(w)
    ensures ReleasesOk(RemoveEdge(w, edge))
  {
  }

  lemma SendKeeps(w: World, n: nat, edge: string, runtime: Option<string>)
    requires ReleasesOk(w)
    ensures ReleasesOk(SendPackage(w, n, edge, runtime))
  {
    hide Deployable, ReportFits;
    if Deployable(w, edge, runtime).Some? { DeployableMatches(w, edge, runtime); }
  }

  lemma HangupKeeps(w: World, n: nat)
    requires ReleasesOk(w)
    ensures ReleasesOk(w.(flights := w.flights - {n}))
  {
    hide ReportFits;
  }

  lemma OtherKeeps(w: World, s: Step)
    requires ReleasesOk(w) && (s.DeleteEdge? || s.Send? || s.Hangup?)
    ensures ReleasesOk(Next(w, s))
  {
    hide RemoveEdge, SendPackage, ReleasesOk;
    match s {
      case DeleteEdge(e) => RemovalKeeps(w, e);
      case Send(n, e, runtime) => SendKeeps(w, n, e, runtime);
      case Hangup(n) => HangupKeeps(w, n);
    }
  }

  lemma DeployableMatches(w: World, edge: string, runtime: Option<string>)
    requires Deployable(w, edge, runtime).Some?
    ensures var id := Deployable(w, edge, runtime).value; id in w.releases && w.releases[id].edge == edge
  {
  }

  /** Every allowed step keeps the invariant. */
  lemma StepKeepsReleases(w: World, s: Step)
    requires ReleasesOk(w) && Allowed(w, s)
    ensures ReleasesOk(Next(w, s))
  {
    hide Next, Allowed, ReleasesOk, Creates;
    if OnlyCreates(s) {
      var batch := StepCreates(w, s);
      CreatesKeeps(w, Next(w, s), batch);
    } else if s.Receive? || s.HttpReport? {
      ReportKeeps(w, s);
    } else {
      OtherKeeps(w, s);
    }
  }

  /** A run with one more step. */
  lemma ExtendRun(states: seq<World>, steps: seq<Step>, s: Step)
    requires IsRun(states, steps) && Allowed(states[|steps|], s)
    ensures IsRun(states + [Next(states[|steps|], s)], steps + [s])
  {
    hide Next, Allowed;
  }

  /** MAIN: in every run, in every state: one pending release per edge at most, a release is applied
      exactly when its report named the desired version, and its package is stored. */
  lemma {:induction false} RunsKeepReleases(states: seq<World>, steps: seq<Step>, i: nat)
    requires IsRun(states, steps) && i < |states|
    ensures ReleasesOk(states[i])
  {
    if i > 0 {
      RunsKeepReleases(states, steps, i - 1);
      StepKeepsReleases(states[i - 1], steps[i - 1]);
    }
  }
}
