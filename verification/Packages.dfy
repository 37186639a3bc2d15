/** Which configuration an edge's stored packages hold, over whole runs. */
module Packages {
  import opened Text
  import opened Control
  import opened Releases
  import Versions
  import G = Governance

  /** The stored package of an edge and version. */
  function Stored(w: World, edge: string, version: string): Option<string> {
    if (edge, version) in w.packages then Some(w.packages[(edge, version)]) else None
  }

  // ----- what a step is asked to store

  /** The product's latest version, while it is published. */
  function Current(w: World, product: string): Option<string> {
    if product in w.products && w.products[product].Some? && IsOn(w, product, w.products[product].value)
    then w.products[product] else None
  }

  predicate IsOn(w: World, product: string, version: string) {
    (product, version) in w.versions && w.versions[(product, version)].status == Published
  }

  ghost predicate EditsTo(w: World, edge: string, version: string) {
    exists v :: Versions.IsLatest(StoredVersions(w, edge), v) && Versions.NextVersion(v) == Some(version)
  }

  /** A rollout of the version gets through to the edge. */
  predicate Reaches(w: World, product: string, r: Rollout, edge: string) {
    r.publishable && r.saved && BuildsAll(w, product, r) && Bound(w, product, edge)
  }

  function BodyIf(stored: bool, body: string): Option<string> {
    if stored then Some(body) else None
  }

  /** The body a rollout carries for the edge. */
  function Carried(r: Rollout, edge: string): string {
    if edge in r.built && r.built[edge].Package? then r.built[edge].body else ""
  }

  /** The configuration that the step's request stores for the edge and version, if it does. */
  ghost function Writes(w: World, s: Step, edge: string, version: string): Option<string> {
    match s
    case Save(e, v, body, _, _, saved) => BodyIf(saved && e == edge && v == version, body)
    case Edit(e, body, _, _, _) => BodyIf(e == edge && EditsTo(w, edge, version), body)
    case CreateEdge(e, p, build, _, _) =>
      if e == edge && build.Package? && Current(w, p) == Some(version) then Some(build.body) else None
    case BindEdge(e, p, requested, build, _, _) =>
      if && e == edge && e in w.nodes && build.Package? && p in w.products && IsOn(w, p, version)
         && Some(version) == (if requested.Some? then requested else w.products[p])
      then Some(build.body) else None
    case CreateVersion(p, v, _, r) =>
      BodyIf(p in w.products && (p, v) !in w.versions && v == version && Reaches(w, p, r, edge), Carried(r, edge))
    case SaveVersion(p, v, _, r) =>
      BodyIf(p in w.products && IsDraft(w, (p, v)) && v == version && Reaches(w, p, r, edge), Carried(r, edge))
    case Publish(p, v, r) =>
      BodyIf(v == version && CanTransition(w, p, v, false, r) && Bound(w, p, edge), Carried(r, edge))
    case Rollback(p, v, r) =>
      BodyIf(v == version && CanTransition(w, p, v, true, r) && Bound(w, p, edge), Carried(r, edge))
    case ApplyChangeSet(id, sound, r, db) =>
      BodyIf(GoesThrough(w, id, sound, r, db) && w.changes[id].target == version &&
             Reaches(w, w.changes[id].product, r, edge), Carried(r, edge))
    case _ => None
  }

  /** What the stored package becomes. */
  function Then(written: Option<string>, before: Option<string>): Option<string> {
    if written.Some? then written else before
  }

  // ----- each kind of step

  /** A save stores exactly its body under its edge and version; a failed database write, nothing. */
  lemma SaveStores(w: World, s: Step, edge: string, version: string)
    requires s.Save?
    ensures Stored(Next(w, s), edge, version) == Then(Writes(w, s, edge, version), Stored(w, edge, version))
  {
    hide Supersede;
  }

  lemma BodySaved(w: World, e: string, v: string, body: string, valid: bool, id: nat, saved: bool)
    requires (e, v) in w.packages && w.packages[(e, v)] == body
    ensures SavePackage(w, e, v, body, valid, id, saved).packages == w.packages
  {
    hide Supersede;
    assert w.packages[(e, v) := body] == w.packages;
  }

  /** Storing the package before saving it makes no difference to what is stored. */
  lemma SavedTwice(w: World, e: string, v: string, body: string, valid: bool, id: nat, saved: bool)
    ensures var w1 := w.(packages := w.packages[(e, v) := body]);
            SavePackage(w1, e, v, body, valid, id, saved).packages == w.packages[(e, v) := body]
  {
    hide SavePackage;
    BodySaved(w.(packages := w.packages[(e, v) := body]), e, v, body, valid, id, saved);
  }

  lemma NextEditIs(w: World, s: Step)
    requires s.Edit?
    ensures Next(w, s) == EditPackage(w, s.edge, s.body, s.valid, s.id, s.saved)
  {
    hide EditPackage;
  }

  lemma EditedPackages(w: World, s: Step) returns (next: Option<string>)
    requires s.Edit?
    ensures forall version :: EditsTo(w, s.edge, version) <==> next == Some(version)
    ensures Next(w, s).packages == if next.None? then w.packages else w.packages[(s.edge, next.value) := s.body]
  {
    NextEditIs(w, s);
    hide Next, EditPackage, SavePackage, StoredVersions, Versions.NextVersion, Versions.IsLatest, EditsTo;
    next := EditSaves(w, s.edge, s.body, s.valid, s.id, s.saved);
    EditTarget(w, s, next);
    if next.Some? { SavedTwice(w, s.edge, next.value, s.body, s.valid, s.id, s.saved); }
  }

  /** An edit stores its body under the next version, also in memory when the database fails. */
  lemma EditStoresBody(w: World, s: Step, edge: string, version: string)
    requires s.Edit?
    ensures Stored(Next(w, s), edge, version) == Then(Writes(w, s, edge, version), Stored(w, edge, version))
  {
    hide Next, EditsTo;
    var next := EditedPackages(w, s);
  }

  lemma EditTarget(w: World, s: Step, next: Option<string>)
    requires s.Edit?
    requires forall v :: Versions.IsLatest(StoredVersions(w, s.edge), v) ==> next == Versions.NextVersion(v)
    requires StoredVersions(w, s.edge) == {} ==> next.None?
    ensures forall version :: EditsTo(w, s.edge, version) <==> next == Some(version)
  {
    hide Versions.NextVersion, StoredVersions;
    var stored := StoredVersions(w, s.edge);
    if stored != {} {
      var m := GreatestExists(stored);
      assert Versions.IsLatest(stored, m);
    }
  }

  lemma BindStoresBody(w: World, e: string, node: Node, v: string, build: Built, id: nat, saved: bool)
    requires build.Package?
    ensures BindNode(w, e, node, v, build, id, saved).packages == w.packages[(e, v) := build.body]
  {
    hide SavePackage;
    var w1 := w.(nodes := w.nodes[e := node], packages := w.packages[(e, v) := build.body]);
    BodySaved(w1, e, v, build.body, build.valid, id, saved);
  }

  /** Creating or binding an edge stores the package built for it. */
  lemma BindingStores(w: World, s: Step, edge: string, version: string)
    requires s.CreateEdge? || s.BindEdge?
    ensures Stored(Next(w, s), edge, version) == Then(Writes(w, s, edge, version), Stored(w, edge, version))
  {
    hide BindNode;
    if s.build.Package? {
      if s.CreateEdge? {
        if Current(w, s.product).Some? {
          var v := w.products[s.product];
          BindStoresBody(w, s.edge, Node(Some(s.product), v, None), v.value, s.build, s.id, s.saved);
        }
      } else if s.edge in w.nodes && s.product in w.products {
        var v := if s.requested.Some? then s.requested else w.products[s.product];
        if v.Some? {
          var node := w.nodes[s.edge].(product := Some(s.product), desired := v);
          BindStoresBody(w, s.edge, node, v.value, s.build, s.id, s.saved);
        }
      }
    } else {
      NothingBuilt(w, s);
    }
  }

  lemma NothingBuilt(w: World, s: Step)
    requires (s.CreateEdge? || s.BindEdge?) && s.build.NoPackage?
    ensures Next(w, s).packages == w.packages
  {
  }

  lemma TransitionStores(w: World, p: string, v: string, rollback: bool, r: Rollout, edge: string, version: string)
    ensures Stored(Transition(w, p, v, rollback, r), edge, version) ==
              Then(BodyIf(v == version && CanTransition(w, p, v, rollback, r) && Bound(w, p, edge), Carried(r, edge)),
                   Stored(w, edge, version))
  {
    hide Supersede, RetireLatest;
  }

  lemma PutStores(w: World, p: string, v: string, body: string, r: Rollout, edge: string, version: string)
    requires p in w.products && ((p, v) !in w.versions || IsDraft(w, (p, v)))
    ensures Stored(PutVersion(w, p, v, body, r), edge, version) ==
              Then(BodyIf(v == version && Reaches(w, p, r, edge), Carried(r, edge)), Stored(w, edge, version))
  {
    hide Transition;
    var w1 := w.(versions := w.versions[(p, v) := ProductVersion(Drafted, body)]);
    TransitionStores(w1, p, v, false, r, edge, version);
    DraftCan(w, w1, p, v, r);
  }

  lemma DraftCan(w: World, w1: World, p: string, v: string, r: Rollout)
    requires p in w.products && w1.products == w.products && w1.nodes == w.nodes
    requires (p, v) in w1.versions && w1.versions[(p, v)].status == Drafted
    ensures CanTransition(w1, p, v, false, r) <==> r.publishable && r.saved && BuildsAll(w, p, r)
  {
    assert BuildsAll(w1, p, r) <==> BuildsAll(w, p, r);
  }

  lemma ApplyStores(w: World, s: Step, edge: string, version: string)
    requires s.ApplyChangeSet?
    ensures Stored(Next(w, s), edge, version) == Then(Writes(w, s, edge, version), Stored(w, edge, version))
  {
    hide ApplyChange, PreparedChange, Transition, ChangeIsValid, CanTransition, BuildsAll;
    var id := s.changeId;
    if GoesThrough(w, id, s.sound, s.rollout, s.db) {
      var c := w.changes[id];
      ApplyPublishes(w, id, s.sound, s.rollout, s.db);
      PreparedMoves(w, id);
      TransitionStores(PreparedChange(w, id), c.product, c.target, false, s.rollout, edge, version);
      ValidHasProduct(w, c, s.sound, s.rollout);
      DraftCan(w, PreparedChange(w, id), c.product, c.target, s.rollout);
    } else {
      ApplyStops(w, id, s.sound, s.rollout, s.db);
    }
  }

  lemma ValidHasProduct(w: World, c: Change, sound: bool, r: Rollout)
    requires ChangeIsValid(w, c, sound, r)
    ensures c.product in w.products
  {
  }

  /** Publishing, rolling back, and storing a version that is complete store the packages built for
      the bound edges. */
  lemma RolloutStores(w: World, s: Step, edge: string, version: string)
    requires s.CreateVersion? || s.SaveVersion? || s.Publish? || s.Rollback?
    ensures Stored(Next(w, s), edge, version) == Then(Writes(w, s, edge, version), Stored(w, edge, version))
  {
    hide Transition, PutVersion, CanTransition, Reaches;
    match s {
      case Publish(p, v, r) => TransitionStores(w, p, v, false, r, edge, version);
      case Rollback(p, v, r) => TransitionStores(w, p, v, true, r, edge, version);
      case CreateVersion(p, v, body, r) =>
        if p in w.products && (p, v) !in w.versions { PutStores(w, p, v, body, r, edge, version); }
      case SaveVersion(p, v, body, r) =>
        if p in w.products && IsDraft(w, (p, v)) { PutStores(w, p, v, body, r, edge, version); }
    }
  }

  predicate Erases(w: World, s: Step, edge: string) {
    s == DeleteEdge(edge) && edge in w.nodes
  }

  lemma OthersStoreNothing(w: World, s: Step)
    requires !s.Save? && !s.Edit? && !s.CreateEdge? && !s.BindEdge? && !s.CreateVersion? && !s.SaveVersion?
    requires !s.Publish? && !s.Rollback? && !s.ApplyChangeSet? && !s.DeleteEdge?
    ensures Next(w, s).packages == w.packages
  {
    if s.Receive? || s.HttpReport? {
      hide Next;
      var id, version := ReportStep(w, s);
    } else {
      hide Deployable, StoredVersions, BoundEdges, ReceiveReport, HttpReported;
    }
  }

  lemma RemovalErases(w: World, e: string, edge: string, version: string)
    ensures Stored(RemoveEdge(w, e), edge, version) ==
              if e == edge && e in w.nodes then None else Stored(w, edge, version)
  {
  }

  /** MAIN: a step stores for an edge and version exactly the configuration it was asked to store;
      deleting the edge erases it; and every other stored package stays as it is. */
  lemma PackagesMove(w: World, s: Step, edge: string, version: string)
    ensures Stored(Next(w, s), edge, version) ==
              if Erases(w, s, edge) then None else Then(Writes(w, s, edge, version), Stored(w, edge, version))
  {
    hide Next, Stored;
    match s {
      case Save(_, _, _, _, _, _) => SaveStores(w, s, edge, version);
      case Edit(_, _, _, _, _) => EditStoresBody(w, s, edge, version);
      case CreateEdge(_, _, _, _, _) => BindingStores(w, s, edge, version);
      case BindEdge(_, _, _, _, _, _) => BindingStores(w, s, edge, version);
      case CreateVersion(_, _, _, _) => RolloutStores(w, s, edge, version);
      case SaveVersion(_, _, _, _) => RolloutStores(w, s, edge, version);
      case Publish(_, _, _) => RolloutStores(w, s, edge, version);
      case Rollback(_, _, _) => RolloutStores(w, s, edge, version);
      case ApplyChangeSet(_, _, _, _) => ApplyStores(w, s, edge, version);
      case DeleteEdge(e) => DeletionErases(w, e, edge, version);
      case _ =>
        OthersStoreNothing(w, s);
        SameStored(w, Next(w, s), edge, version);
    }
  }

  lemma DeletionErases(w: World, e: string, edge: string, version: string)
    ensures Stored(Next(w, DeleteEdge(e)), edge, version) ==
              if e == edge && e in w.nodes then None else Stored(w, edge, version)
  {
    hide RemoveEdge;
    RemovalErases(w, e, edge, version);
  }

  lemma SameStored(w: World, w': World, edge: string, version: string)
    requires w'.packages == w.packages
    ensures Stored(w', edge, version) == Stored(w, edge, version)
  {
  }

  // ----- over runs

  /** The configuration last stored for the edge and version by the steps so far, as they asked. */
  ghost function LastBody(states: seq<World>, steps: seq<Step>, edge: string, version: string, i: nat): Option<string>
    requires |states| == |steps| + 1 && i <= |steps|
  {
    if i == 0 then None
    else if Erases(states[i - 1], steps[i - 1], edge) then None
    else Then(Writes(states[i - 1], steps[i - 1], edge, version), LastBody(states, steps, edge, version, i - 1))
  }

  /** MAIN: in every state of every run the stored package of an edge and version is the
      configuration last stored for them. */
  lemma {:induction false} RunsStoreLastBody(states: seq<World>, steps: seq<Step>, edge: string, version: string,
                                             i: nat)
    requires IsRun(states, steps) && i < |states|
    ensures Stored(states[i], edge, version) == LastBody(states, steps, edge, version, i)
  {
    hide Next, Allowed, Writes, Erases;
    if i > 0 {
      RunsStoreLastBody(states, steps, edge, version, i - 1);
      PackagesMove(states[i - 1], steps[i - 1], edge, version);
    }
  }

  /** MAIN: what a runtime is sent is the configuration last stored for its edge and the version of
      the release that was chosen. */
  lemma SentIsLastStored(states: seq<World>, steps: seq<Step>, i: nat)
    requires IsRun(states, steps) && i < |steps| && steps[i].Send?
    requires Deployable(states[i], steps[i].edge, steps[i].runtime).Some?
    ensures var s, w, w' := steps[i], states[i], states[i + 1];
            var id := Deployable(w, s.edge, s.runtime).value;
            && s.session in w'.flights && id in w.releases && w'.flights[s.session].release == id
            && Some(w'.flights[s.session].body) == LastBody(states, steps, s.edge, w.releases[id].desired, i)
  {
    var s, w := steps[i], states[i];
    var id := Deployable(w, s.edge, s.runtime).value;
    RunsStoreLastBody(states, steps, s.edge, w.releases[id].desired, i);
    assert states[i + 1] == Next(w, s);
    SendSends(w, s);
    hide IsRun, Next;
  }

  lemma SendSends(w: World, s: Step)
    requires s.Send? && Deployable(w, s.edge, s.runtime).Some?
    ensures var id := Deployable(w, s.edge, s.runtime).value; var f := Next(w, s).flights;
            && id in w.releases && s.session in f && f[s.session].release == id
            && Stored(w, s.edge, w.releases[id].desired) == Some(f[s.session].body)
  {
    DeployableMatches(w, s.edge, s.runtime);
  }
}
