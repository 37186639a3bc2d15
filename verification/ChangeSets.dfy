/** Change sets over whole runs: how one comes to be applied, and when two drafted against the same
    version can both be. */
module ChangeSets {
  import opened Text
  import opened Control
  import opened Releases
  import opened Catalog
  import G = Governance

  // ----- review keeps its rules inside the store

  lemma {:induction false} ReviewKeepsGoverned(item: G.Item, actions: seq<G.Action>)
    requires G.WellGoverned(item) && forall i :: 0 <= i < |actions| ==> !actions[i].Finish?
    ensures G.WellGoverned(G.Run(item, actions)) && G.Run(item, actions).kind == item.kind
    ensures G.Run(item, actions).status == G.Succeeded ==> item.status == G.Succeeded
  {
    if actions != [] {
      var n := |actions|;
      ReviewKeepsGoverned(item, actions[..n - 1]);
      G.ActionKeepsGoverned(G.Run(item, actions[..n - 1]), actions[n - 1]);
    }
  }

  predicate IsApplied(w: World, id: string) {
    id in w.changes && w.changes[id].item.status == G.Succeeded
  }

  ghost predicate ItemsOk(w: World) {
    forall id :: id in w.changes ==> G.WellGoverned(w.changes[id].item) && w.changes[id].item.kind == G.ChangeSet
  }

  /** The change set is what it was but for its review state. */
  predicate SameDraft(c: Change, d: Change) {
    c.product == d.product && c.target == d.target && c.base == d.base && c.body == d.body
  }

  /** What applying saw before and left after: the product at the base version and no target
      version; then the target as its latest and published version. */
  ghost predicate AppliedOnBase(w: World, w': World, c: Change) {
    && c.product in w.products && LatestOrNone(w, c.product) == c.base && (c.product, c.target) !in w.versions
    && c.product in w'.products && w'.products[c.product] == Some(c.target) && IsPublished(w', (c.product, c.target))
    && w'.versions[(c.product, c.target)].body == c.body
    && c.item.status == G.Confirmed && c.item.confirmation.Some? &&
       G.Suffices(c.item.confirmation.value, G.ChangeSet, c.item.risk)
    && c.item.validation.Some? && G.Error !in c.item.validation.value.issues
  }

  /** The part of applying that comes after validation and the start mark. */
  lemma ValidChangesGoThrough(w: World, w2: World, c: Change, sound: bool, r: Rollout)
    requires ChangeIsValid(w, c, sound, r) && r.saved
    requires w2.nodes == w.nodes && w2.products == w.products
    requires w2.versions == w.versions[(c.product, c.target) := ProductVersion(Drafted, c.body)]
    ensures var w3 := Transition(w2, c.product, c.target, false, r);
            && c.product in w3.products && w3.products[c.product] == Some(c.target)
            && IsPublished(w3, (c.product, c.target)) && w3.versions[(c.product, c.target)].body == c.body
  {
    assert BuildsAll(w2, c.product, r);
    assert CanTransition(w2, c.product, c.target, false, r);
    PublishesTarget(w2, c.product, c.target, r);
  }

  /** The review item an application leaves behind. */
  function ItemAfterApply(item: G.Item, valid: bool, stored: bool, success: bool, finished: bool): G.Item {
    if !valid then G.After(item, G.Validate([G.Error]))
    else if !finished then G.After(item, G.Start)
    else G.After(G.After(item, G.Start), G.Finish(stored && success, ""))
  }

  lemma ApplyItem(w: World, id: string, sound: bool, r: Rollout, db: Answers)
    requires id in w.changes && w.changes[id].item.status == G.Confirmed && db.start
    ensures var valid := ChangeIsValid(w, w.changes[id], sound, r);
            var item := ItemAfterApply(w.changes[id].item, valid, db.version, r.saved, db.finish);
            ApplyChange(w, id, sound, r, db).changes == w.changes[id := w.changes[id].(item := item)]
  {
    hide ChangeIsValid, Transition, G.After;
    TransitionKeepsChanges(PreparedChange(w, id), w.changes[id].product, w.changes[id].target, r);
  }

  lemma ItemAfterApplyIsGoverned(item: G.Item, valid: bool, stored: bool, success: bool, finished: bool)
    requires G.WellGoverned(item) && item.status == G.Confirmed
    ensures var next := ItemAfterApply(item, valid, stored, success, finished);
            && G.WellGoverned(next) && next.kind == item.kind
            && (next.status == G.Succeeded <==> valid && stored && success && finished)
  {
  }

  lemma ApplyMoves(w: World, id: string, sound: bool, r: Rollout, db: Answers)
    requires ItemsOk(w)
    ensures var w' := ApplyChange(w, id, sound, r, db);
            && ItemsOk(w') && w'.changes.Keys == w.changes.Keys
            && (forall x :: x in w.changes && x != id ==> w'.changes[x] == w.changes[x])
            && (id in w.changes ==> SameDraft(w.changes[id], w'.changes[id]))
            && (IsApplied(w', id) && !IsApplied(w, id) ==> AppliedOnBase(w, w', w.changes[id]))
  {
    hide ChangeIsValid, ApplyChange, ItemAfterApply, G.WellGoverned, AppliedOnBase;
    if id in w.changes && w.changes[id].item.status == G.Confirmed && db.start {
      var c := w.changes[id];
      ApplyItem(w, id, sound, r, db);
      var valid := ChangeIsValid(w, c, sound, r);
      ItemAfterApplyIsGoverned(c.item, valid, db.version, r.saved, db.finish);
      if valid && db.version && r.saved && db.finish { SuccessOnBase(w, id, sound, r, db); }
    } else {
      NothingApplied(w, id, sound, r, db);
    }
  }

  /** An apply step that finds a confirmed set invalid makes it a draft without a confirmation and
      changes nothing else. */
  lemma InvalidApplyVoids(w: World, id: string, sound: bool, r: Rollout, db: Answers)
    requires id in w.changes && w.changes[id].item.status == G.Confirmed && db.start
    requires !ChangeIsValid(w, w.changes[id], sound, r)
    ensures var w' := Next(w, ApplyChangeSet(id, sound, r, db));
            && OnlyChangesMove(w, w') && w'.changes.Keys == w.changes.Keys
            && (forall x :: x in w.changes && x != id ==> w'.changes[x] == w.changes[x])
            && SameDraft(w.changes[id], w'.changes[id])
            && w'.changes[id].item.status == G.Draft && w'.changes[id].item.confirmation == None
  {
    NextApply(w, id, sound, r, db);
    ApplyStops(w, id, sound, r, db);
    ApplyItem(w, id, sound, r, db);
    G.ValidateExact(w.changes[id].item, [G.Error]);
    hide Next, ApplyChange, ChangeIsValid;
  }

  lemma NextApply(w: World, id: string, sound: bool, r: Rollout, db: Answers)
    ensures Next(w, ApplyChangeSet(id, sound, r, db)) == ApplyChange(w, id, sound, r, db)
  {
    hide ApplyChange;
  }

  lemma NothingApplied(w: World, id: string, sound: bool, r: Rollout, db: Answers)
    requires !(id in w.changes && w.changes[id].item.status == G.Confirmed && db.start)
    ensures ApplyChange(w, id, sound, r, db) == w
  {
  }

  lemma SuccessOnBase(w: World, id: string, sound: bool, r: Rollout, db: Answers)
    requires ItemsOk(w) && id in w.changes && w.changes[id].item.status == G.Confirmed
    requires ChangeIsValid(w, w.changes[id], sound, r)
    requires db == Answers(true, true, true) && r.saved
    ensures AppliedOnBase(w, ApplyChange(w, id, sound, r, db), w.changes[id])
  {
    hide ChangeIsValid, Transition, ApplyChange, PreparedChange, G.WellGoverned;
    var c := w.changes[id];
    ApplyPublishes(w, id, sound, r, db);
    PreparedMoves(w, id);
    ValidChangesGoThrough(w, PreparedChange(w, id), c, sound, r);
    ConfirmedHasEvidence(c.item);
    ValidOnBase(w, c, sound, r);
  }

  lemma ConfirmedHasEvidence(item: G.Item)
    requires G.WellGoverned(item) && item.status == G.Confirmed
    ensures item.confirmation.Some? && G.Suffices(item.confirmation.value, item.kind, item.risk)
    ensures item.validation.Some? && G.Error !in item.validation.value.issues
  {
  }

  lemma ValidOnBase(w: World, c: Change, sound: bool, r: Rollout)
    requires ChangeIsValid(w, c, sound, r)
    ensures c.product in w.products && LatestOrNone(w, c.product) == c.base && (c.product, c.target) !in w.versions
  {
  }

  lemma SaveKeepsChanges(w: World, edge: string, version: string, body: string, valid: bool, id: nat, saved: bool)
    ensures SavePackage(w, edge, version, body, valid, id, saved).changes == w.changes
  {
  }

  lemma PutKeepsChanges(w: World, product: string, version: string, body: string, r: Rollout)
    ensures PutVersion(w, product, version, body, r).changes == w.changes
  {
    hide Transition;
    TransitionKeepsChanges(w.(versions := w.versions[(product, version) := ProductVersion(Drafted, body)]), product,
                           version, r);
  }

  lemma RollbackKeepsChanges(w: World, product: string, version: string, r: Rollout)
    ensures Transition(w, product, version, true, r).changes == w.changes
  {
  }

  lemma EditKeepsChanges(w: World, edge: string, body: string, valid: bool, id: nat, saved: bool)
    ensures EditPackage(w, edge, body, valid, id, saved).changes == w.changes
  {
    hide EditPackage, SavePackage, StoredVersions;
    var next := EditSaves(w, edge, body, valid, id, saved);
    if next.Some? {
      SaveKeepsChanges(w.(packages := w.packages[(edge, next.value) := body]), edge, next.value, body, valid, id,
                       saved);
    }
  }

  lemma ReportKeepsChanges(w: World, s: Step)
    requires s.Receive? || s.HttpReport?
    ensures Next(w, s).changes == w.changes
  {
    hide Next;
    var id, version := ReportStep(w, s);
  }

  lemma BindKeepsChanges(w: World, edge: string, node: Node, version: string, build: Built, id: nat, saved: bool)
    ensures BindNode(w, edge, node, version, build, id, saved).changes == w.changes
  {
    hide SavePackage;
    if build.Package? {
      var w1 := w.(nodes := w.nodes[edge := node], packages := w.packages[(edge, version) := build.body]);
      SaveKeepsChanges(w1, edge, version, build.body, build.valid, id, saved);
    }
  }

  lemma AddEdgeKeepsChanges(w: World, edge: string, product: string, build: Built, id: nat, saved: bool)
    ensures AddEdge(w, edge, product, build, id, saved).changes == w.changes
  {
    hide BindNode;
    if product in w.products && w.products[product].Some? {
      var v := w.products[product];
      BindKeepsChanges(w, edge, Node(Some(product), v, None), v.value, build, id, saved);
    }
  }

  lemma RebindKeepsChanges(w: World, edge: string, product: string, requested: Option<string>, build: Built, id: nat,
                           saved: bool)
    ensures Rebind(w, edge, product, requested, build, id, saved).changes == w.changes
  {
    hide BindNode;
    if edge in w.nodes && product in w.products {
      var v := if requested.Some? then requested else w.products[product];
      if v.Some? {
        BindKeepsChanges(w, edge, w.nodes[edge].(product := Some(product), desired := v), v.value, build, id, saved);
      }
    }
  }

  lemma SmallStepsKeepChanges(w: World, s: Step)
    requires s.DeleteEdge? || s.Connect? || s.Send? || s.Hangup? || s.CreateProduct? || s.DeleteProduct? ||
            s.DeleteVersion? || s.CompatPublish?
    ensures Next(w, s).changes == w.changes
  {
    hide Deployable, StoredVersions, BoundEdges;
  }

  /** Steps that are not about change sets leave them alone. */
  lemma OtherStepsKeepChanges(w: World, s: Step)
    requires !s.Propose? && !s.Review? && !s.ApplyChangeSet? && !s.DropChanges?
    ensures Next(w, s).changes == w.changes
  {
    hide SavePackage, Transition, PutVersion, EditPackage, AddEdge, Rebind, RemoveEdge, Greet, SendPackage,
         ReceiveReport,
         HttpReported, AddProduct, RemoveProduct, RemoveDraft, PublishLatest;
    match s {
      case Save(e, v, body, valid, id, saved) => SaveKeepsChanges(w, e, v, body, valid, id, saved);
      case Edit(e, body, valid, id, saved) => EditKeepsChanges(w, e, body, valid, id, saved);
      case CreateVersion(p, v, body, r) => PutKeepsChanges(w, p, v, body, r);
      case SaveVersion(p, v, body, r) => PutKeepsChanges(w, p, v, body, r);
      case Publish(p, v, r) => TransitionKeepsChanges(w, p, v, r);
      case Rollback(p, v, r) => RollbackKeepsChanges(w, p, v, r);
      case Receive(_, _, _) => ReportKeepsChanges(w, s);
      case HttpReport(_, _, _) => ReportKeepsChanges(w, s);
      case CreateEdge(e, p, build, id, saved) => AddEdgeKeepsChanges(w, e, p, build, id, saved);
      case BindEdge(e, p, requested, build, id, saved) => RebindKeepsChanges(w, e, p, requested, build, id, saved);
      case _ => SmallStepsKeepChanges(w, s);
    }
  }

  /** Every step keeps the review rules. A change set becomes applied only by being applied, while
      the product was at its base version and its target version did not exist. */
  lemma StepMovesChanges(w: World, s: Step, id: string)
    requires ItemsOk(w) && Allowed(w, s)
    ensures ItemsOk(Next(w, s))
    ensures id in Next(w, s).changes && id !in w.changes ==> !IsApplied(Next(w, s), id)
    ensures id in Next(w, s).changes && id in w.changes ==> SameDraft(w.changes[id], Next(w, s).changes[id])
    ensures IsApplied(Next(w, s), id) && !IsApplied(w, id) ==>
              s.ApplyChangeSet? && s.changeId == id && id in w.changes && AppliedOnBase(w, Next(w, s), w.changes[id])
  {
    hide Next, Allowed, G.WellGoverned, AppliedOnBase;
    match s {
      case ApplyChangeSet(_, _, _, _) => ApplyStep(w, s);
      case Propose(x, c) => ProposalMoves(w, x, c);
      case Review(x, actions) => ReviewMoves(w, x, actions);
      case DropChanges(dropped) => DropMoves(w, dropped);
      case _ => OtherStepsKeepChanges(w, s);
    }
  }

  lemma ApplyStep(w: World, s: Step)
    requires ItemsOk(w) && s.ApplyChangeSet?
    ensures var w', id := Next(w, s), s.changeId;
            && ItemsOk(w') && w'.changes.Keys == w.changes.Keys
            && (forall x :: x in w.changes && x != id ==> w'.changes[x] == w.changes[x])
            && (id in w.changes ==> SameDraft(w.changes[id], w'.changes[id]))
            && (IsApplied(w', id) && !IsApplied(w, id) ==> AppliedOnBase(w, w', w.changes[id]))
  {
    hide ApplyChange;
    ApplyMoves(w, s.changeId, s.sound, s.rollout, s.db);
  }

  lemma ReviewMoves(w: World, x: string, actions: seq<G.Action>)
    requires ItemsOk(w) && Allowed(w, Review(x, actions))
    ensures var w' := Next(w, Review(x, actions));
            && ItemsOk(w') && w'.changes.Keys == w.changes.Keys
            && forall id :: id in w.changes ==>
                 SameDraft(w.changes[id], w'.changes[id]) && (IsApplied(w', id) ==> IsApplied(w, id))
  {
    NextReview(w, x, actions);
    hide Next, G.Run, G.WellGoverned;
    if x in w.changes { ReviewKeepsGoverned(w.changes[x].item, actions); }
  }

  lemma NextReview(w: World, x: string, actions: seq<G.Action>)
    ensures Next(w, Review(x, actions)) == ReviewChange(w, x, actions)
  {
    hide ReviewChange;
  }

  lemma DropMoves(w: World, dropped: set<string>)
    ensures Next(w, DropChanges(dropped)).changes == w.changes - dropped
  {
  }

  lemma NewIsGoverned(risk: G.Risk, issues: seq<G.Severity>)
    ensures var item := G.After(G.NewItem(G.ChangeSet, risk), G.Validate(issues));
            G.WellGoverned(item) && item.kind == G.ChangeSet && item.status != G.Succeeded
  {
  }

  lemma ProposalMoves(w: World, id: string, c: Change)
    requires ItemsOk(w) && Allowed(w, Propose(id, c))
    ensures var w' := Next(w, Propose(id, c));
            w'.changes == w.changes[id := c] && id !in w.changes && !IsApplied(w', id) && ItemsOk(w')
  {
    hide G.After, G.WellGoverned, G.NewItem;
    var risk, issues :| c.item == G.After(G.NewItem(G.ChangeSet, risk), G.Validate(issues));
    NewIsGoverned(risk, issues);
  }

  lemma {:induction false} RunsKeepItems(states: seq<World>, steps: seq<Step>, i: nat)
    requires IsRun(states, steps) && i < |states|
    ensures ItemsOk(states[i])
  {
    if i > 0 {
      RunsKeepItems(states, steps, i - 1);
      hide Next, Allowed, ItemsOk, AppliedOnBase;
      StepMovesChanges(states[i - 1], steps[i - 1], "");
    }
  }

  ghost predicate BecomesApplied(w: World, w': World, id: string) {
    IsApplied(w', id) && !IsApplied(w, id)
  }

  /** MAIN: in every run, a change set becomes applied only in a step that found it confirmed by a
      person on a valid report, its product at its base version and its target version absent, and
      that left the target published as the latest. */
  lemma AppliedOnItsBase(states: seq<World>, steps: seq<Step>, i: nat, id: string)
    requires IsRun(states, steps) && i < |steps| && BecomesApplied(states[i], states[i + 1], id)
    ensures id in states[i].changes && AppliedOnBase(states[i], states[i + 1], states[i].changes[id])
    ensures steps[i].ApplyChangeSet? && steps[i].changeId == id
    ensures SameDraft(states[i].changes[id], states[i + 1].changes[id])
  {
    hide Next, Allowed, ItemsOk, AppliedOnBase;
    RunsKeepItems(states, steps, i);
    StepMovesChanges(states[i], steps[i], id);
  }

  // ----- the catalog only advances

  predicate IsFresh(w: World, k: Key) {
    k !in w.versions || w.versions[k].status == Drafted
  }

  /** Products stay, a new latest version was fresh before, and used versions stay used. */
  ghost predicate Advances(w: World, w': World) {
    && (forall p :: p in w.products ==> p in w'.products)
    && (forall p :: p in w.products && w'.products[p] != w.products[p] ==>
          w'.products[p].Some? && IsFresh(w, (p, w'.products[p].value)))
    && (forall k :: !IsFresh(w, k) ==> !IsFresh(w', k))
  }

  lemma DraftAdvances(w: World, w': World, k: Key)
    requires IsFresh(w, k) && w'.products == w.products
    requires forall j :: j != k ==>
        (j in w'.versions <==> j in w.versions) && (j in w.versions ==> w'.versions[j] == w.versions[j])
    ensures Advances(w, w')
  {
  }

  lemma PublishAdvances(w: World, product: string, version: string, r: Rollout)
    ensures Advances(w, Transition(w, product, version, false, r))
  {
    hide BuildsAll, BoundEdges, Supersede;
  }

  lemma DraftThenPublish(w: World, w1: World, product: string, version: string, r: Rollout)
    requires IsFresh(w, (product, version)) && product in w.products && w1.products == w.products
    requires (product, version) in w1.versions && w1.versions[(product, version)].status == Drafted
    requires w1.versions == w.versions[(product, version) := w1.versions[(product, version)]]
    ensures Advances(w, Transition(w1, product, version, false, r))
  {
    hide BuildsAll, BoundEdges, Supersede;
  }

  lemma PutAdvances(w: World, product: string, version: string, body: string, r: Rollout)
    requires IsFresh(w, (product, version)) && product in w.products
    ensures Advances(w, PutVersion(w, product, version, body, r))
  {
    hide Transition, Advances;
    var w1 := w.(versions := w.versions[(product, version) := ProductVersion(Drafted, body)]);
    if r.publishable {
      DraftThenPublish(w, w1, product, version, r);
    } else {
      DraftAdvances(w, w1, (product, version));
    }
  }

  lemma ApplyAdvances(w: World, id: string, sound: bool, r: Rollout, db: Answers)
    ensures Advances(w, ApplyChange(w, id, sound, r, db))
  {
    hide Transition, Advances, ApplyChange, PreparedChange, BuildsAll;
    var w' := ApplyChange(w, id, sound, r, db);
    if GoesThrough(w, id, sound, r, db) {
      var c := w.changes[id];
      ApplyPublishes(w, id, sound, r, db);
      PreparedMoves(w, id);
      DraftThenPublish(w, PreparedChange(w, id), c.product, c.target, r);
      SameCatalogAdvances(w, Transition(PreparedChange(w, id), c.product, c.target, false, r), w');
    } else {
      ApplyStops(w, id, sound, r, db);
      NoChangeAdvances(w, w');
    }
  }

  lemma NoChangeAdvances(w: World, w': World)
    requires w'.products == w.products && w'.versions == w.versions
    ensures Advances(w, w')
  {
  }

  lemma SameCatalogAdvances(w: World, w1: World, w': World)
    requires Advances(w, w1) && w'.products == w1.products && w'.versions == w1.versions
    ensures Advances(w, w')
  {
  }

  lemma BindAdvances(w: World, edge: string, node: Node, version: string, build: Built, id: nat, saved: bool)
    ensures Advances(w, BindNode(w, edge, node, version, build, id, saved))
  {
    hide Supersede, Advances;
    NoChangeAdvances(w, BindNode(w, edge, node, version, build, id, saved));
  }

  lemma EdgeStepAdvances(w: World, s: Step)
    requires s.CreateEdge? || s.BindEdge?
    ensures Advances(w, Next(w, s))
  {
    hide BindNode, Advances;
    if Next(w, s) == w {
      NoChangeAdvances(w, w);
    } else if s.CreateEdge? {
      var v := w.products[s.product];
      BindAdvances(w, s.edge, Node(Some(s.product), v, None), v.value, s.build, s.id, s.saved);
    } else {
      var v := if s.requested.Some? then s.requested else w.products[s.product];
      BindAdvances(w, s.edge, w.nodes[s.edge].(product := Some(s.product), desired := v), v.value, s.build, s.id,
                   s.saved);
    }
  }

  lemma DraftStepAdvances(w: World, s: Step)
    requires s.CreateVersion? || s.SaveVersion? || s.DeleteVersion?
    ensures Advances(w, Next(w, s))
  {
    hide PutVersion, Advances;
    if Next(w, s) == w {
      NoChangeAdvances(w, w);
    } else if s.DeleteVersion? {
      DraftAdvances(w, Next(w, s), (s.product, s.version));
    } else {
      PutAdvances(w, s.product, s.version, s.body, s.rollout);
    }
  }

  /** Without rollbacks and product deletion the catalog only advances. */
  lemma StepAdvances(w: World, s: Step)
    requires !s.Rollback? && !s.DeleteProduct?
    ensures Advances(w, Next(w, s))
  {
    hide Transition, ApplyChange, Advances, AddProduct;
    if !TouchesCatalog(s) {
      hide Next;
      OtherStepsLeave(w, s);
      NoChangeAdvances(w, Next(w, s));
    } else if s.CreateEdge? || s.BindEdge? {
      hide Next;
      EdgeStepAdvances(w, s);
    } else if s.CreateVersion? || s.SaveVersion? || s.DeleteVersion? {
      hide Next;
      DraftStepAdvances(w, s);
    } else {
      match s {
        case CreateProduct(p) => ProductAdvances(w, p);
        case Publish(p, v, r) => PublishAdvances(w, p, v, r);
        case ApplyChangeSet(id, sound, r, db) => ApplyAdvances(w, id, sound, r, db);
      }
    }
  }

  lemma ProductAdvances(w: World, product: string)
    ensures Advances(w, AddProduct(w, product))
  {
  }

  /** The product has moved past version `u`: it is used and no longer the latest. */
  ghost predicate MovedPast(w: World, product: string, u: string) {
    product in w.products && w.products[product].Some? && w.products[product].value != u && !IsFresh(w, (product, u))
  }

  ghost predicate OnlyAdvances(steps: seq<Step>) {
    forall i :: 0 <= i < |steps| ==> !steps[i].Rollback? && !steps[i].DeleteProduct?
  }

  lemma AdvancingKeepsPast(w: World, w': World, product: string, u: string)
    requires Advances(w, w')
    ensures product in w.products && w.products[product].Some? ==> product in w'.products && w'.products[product].Some?
    ensures MovedPast(w, product, u) ==> MovedPast(w', product, u)
  {
  }

  /** Once past a version the product never returns to it; once it has a latest version it keeps one. */
  lemma {:induction false} NeverReturns(states: seq<World>, steps: seq<Step>, i: nat, j: nat, product: string,
                                        u: string)
    requires IsRun(states, steps) && OnlyAdvances(steps) && i <= j < |states|
    ensures product in states[i].products && states[i].products[product].Some? ==>
              product in states[j].products && states[j].products[product].Some?
    ensures MovedPast(states[i], product, u) ==> MovedPast(states[j], product, u)
    decreases j
  {
    hide Next, Allowed, Advances, MovedPast;
    if i < j {
      NeverReturns(states, steps, i, j - 1, product, u);
      StepAdvances(states[j - 1], steps[j - 1]);
      AdvancingKeepsPast(states[j - 1], states[j], product, u);
    }
  }

  lemma ApplyingMovesPast(w: World, w': World, c: Change)
    requires CatalogOk(w) && AppliedOnBase(w, w', c) && Advances(w, w') && w.products[c.product].Some?
    ensures MovedPast(w', c.product, c.base)
  {
    assert IsPublished(w, (c.product, c.base));
  }

  /** MAIN: in a run without rollbacks and product deletion, after a change set was applied its
      product stands at its base again exactly when the base is "none", the set found the product
      without a version, and the product now stands at a version named "none". */
  lemma BaseReturnsExactly(states: seq<World>, steps: seq<Step>, i: nat, j: nat, x: string)
    requires IsRun(states, steps) && OnlyAdvances(steps) && i < |steps| && i < j < |states|
    requires BecomesApplied(states[i], states[i + 1], x)
    ensures var c, w, w' := states[i + 1].changes[x], states[i], states[j];
            && c.product in w.products && c.product in w'.products
            && (LatestOrNone(w', c.product) == c.base <==>
                  c.base == "none" && w.products[c.product] == None && w'.products[c.product] == Some("none"))
  {
    hide Next, Allowed, CatalogOk, Advances;
    AppliedOnItsBase(states, steps, i, x);
    var c := states[i].changes[x];
    if states[i].products[c.product].Some? {
      RunsKeepCatalog(states, steps, i);
      StepAdvances(states[i], steps[i]);
      ApplyingMovesPast(states[i], states[i + 1], c);
    }
    NeverReturns(states, steps, i + 1, j, c.product, c.base);
  }

  /** So two change sets on one product and base are both applied only in that case. */
  lemma OneAppliedPerBase(states: seq<World>, steps: seq<Step>, i: nat, j: nat, x: string, y: string)
    requires IsRun(states, steps) && OnlyAdvances(steps) && i < j < |steps|
    requires BecomesApplied(states[i], states[i + 1], x) && BecomesApplied(states[j], states[j + 1], y)
    requires states[i + 1].changes[x].product == states[j + 1].changes[y].product
    requires states[i + 1].changes[x].base == states[j + 1].changes[y].base
    ensures var c := states[i + 1].changes[x];
            && c.base == "none" && c.product in states[i].products && states[i].products[c.product] == None
            && c.product in states[j].products && states[j].products[c.product] == Some("none")
  {
    hide Next, Allowed;
    AppliedOnItsBase(states, steps, j, y);
    BaseReturnsExactly(states, steps, i, j, x);
  }

  /** So a base version that is not named "none" admits one change set. */
  lemma OneAppliedPerNamedBase(states: seq<World>, steps: seq<Step>, i: nat, j: nat, x: string, y: string)
    requires IsRun(states, steps) && OnlyAdvances(steps) && i < |steps| && j < |steps| && i != j
    requires BecomesApplied(states[i], states[i + 1], x) && BecomesApplied(states[j], states[j + 1], y)
    requires states[i + 1].changes[x].base != "none"
    ensures !(states[i + 1].changes[x].product == states[j + 1].changes[y].product &&
              states[i + 1].changes[x].base == states[j + 1].changes[y].base)
  {
    hide Next, Allowed;
    if states[i + 1].changes[x].product == states[j + 1].changes[y].product &&
       states[i + 1].changes[x].base == states[j + 1].changes[y].base {
      if i < j { OneAppliedPerBase(states, steps, i, j, x, y); } else { OneAppliedPerBase(states, steps, j, i, y, x); }
    }
  }

  // ----- a version named "none"

  const REVIEWED: G.Item := G.After(G.NewItem(G.ChangeSet, G.Low), G.Validate([]))
  const APPROVAL: G.Action := G.Confirm(G.Evidence("ana", None, None))
  const NO_EDGES: Rollout := Rollout(true, map[], map[], true)

  lemma ApprovalConfirms()
    ensures G.Run(REVIEWED, [APPROVAL]).status == G.Confirmed
  {
    var actions := [APPROVAL];
    assert actions[..0] == [];
    assert G.Run(REVIEWED, actions[..0]) == REVIEWED;
    assert TrimStart("ana") == "ana" && TrimEnd("ana") == "ana";
  }

  /** A product without versions, with two confirmed change sets on it; the first adds version
      "none", the second any other. */
  ghost predicate TwoConfirmed(w: World, product: string, second: string, x: string, y: string) {
    && w.products == map[product := None] && w.versions == map[] && w.nodes == map[]
    && x != y && x in w.changes && y in w.changes && second != "none"
    && SameDraft(w.changes[x], Change(product, "none", "none", "", REVIEWED)) && w.changes[x].item.status == G.Confirmed
    && SameDraft(w.changes[y], Change(product, second, "none", "", REVIEWED)) && w.changes[y].item.status == G.Confirmed
  }

  lemma BothApply(w: World, product: string, second: string, x: string, y: string)
    requires ItemsOk(w) && TwoConfirmed(w, product, second, x, y)
    ensures var db := Answers(true, true, true);
            var s, t := ApplyChangeSet(x, true, NO_EDGES, db), ApplyChangeSet(y, true, NO_EDGES, db);
            var w1 := Next(w, s);
            && Allowed(w, s) && Allowed(w1, t)
            && BecomesApplied(w, w1, x) && BecomesApplied(w1, Next(w1, t), y)
            && x in Next(w1, t).changes && SameDraft(w.changes[x], w1.changes[x]) &&
               SameDraft(w.changes[y], Next(w1, t).changes[y])
  {
    hide ItemsOk, ApplyChange, Allowed, IsApplied, APPROVAL, REVIEWED, NO_EDGES;
    var db := Answers(true, true, true);
    var w1 := ApplyChange(w, x, true, NO_EDGES, db);
    ApplySucceeds(w, product, x);
    ApplySucceeds(w1, product, y);
  }

  /** With no edges to reach, a confirmed change set on its base goes through. */
  lemma ApplySucceeds(w: World, product: string, id: string)
    requires ItemsOk(w) && id in w.changes && w.changes[id].item.status == G.Confirmed
    requires w.changes[id].product == product
    requires w.nodes == map[] && product in w.products && LatestOrNone(w, product) == w.changes[id].base
    requires (product, w.changes[id].target) !in w.versions
    ensures var w' := ApplyChange(w, id, true, NO_EDGES, Answers(true, true, true));
            && Allowed(w, ApplyChangeSet(id, true, NO_EDGES, Answers(true, true, true)))
            && BecomesApplied(w, w', id) && ItemsOk(w') && AppliedOnBase(w, w', w.changes[id])
            && w'.nodes == map[] && w'.changes.Keys == w.changes.Keys
            && (forall x :: x in w.changes && x != id ==> w'.changes[x] == w.changes[x])
            && SameDraft(w.changes[id], w'.changes[id])
            && (forall k :: k in w'.versions ==> k in w.versions || k == (product, w.changes[id].target))
  {
    var c, db := w.changes[id], Answers(true, true, true);
    assert ChangeIsValid(w, c, true, NO_EDGES);
    assert BoundEdges(w, product) == {};
    ApplyMoves(w, id, true, NO_EDGES, db);
    ApplyItem(w, id, true, NO_EDGES, db);
    ItemAfterApplyIsGoverned(c.item, true, true, true, true);
    NoEdgesMove(w, id, true, NO_EDGES, db);
  }

  lemma NoEdgesMove(w: World, id: string, sound: bool, r: Rollout, db: Answers)
    requires w.nodes == map[] && id in w.changes
    ensures var w' := ApplyChange(w, id, sound, r, db);
            w'.nodes == map[] && forall k :: k in w'.versions ==>
              k in w.versions || k == (w.changes[id].product, w.changes[id].target)
  {
    hide ApplyChange, PreparedChange, ChangeIsValid, Transition;
    if GoesThrough(w, id, sound, r, db) {
      ApplyPublishes(w, id, sound, r, db);
      PreparedMoves(w, id);
      TransitionWithoutEdges(PreparedChange(w, id), w.changes[id].product, w.changes[id].target, r);
    } else {
      ApplyStops(w, id, sound, r, db);
    }
  }

  lemma TransitionWithoutEdges(w: World, product: string, version: string, r: Rollout)
    requires w.nodes == map[]
    ensures var w' := Transition(w, product, version, false, r);
            w'.nodes == map[] && forall k :: k in w'.versions ==> k in w.versions
  {
    hide BuildsAll, Supersede, BoundEdges;
  }

  lemma ConfirmReviewed(w: World, id: string)
    requires id in w.changes && w.changes[id].item == REVIEWED
    ensures var s := Review(id, [APPROVAL]); var w' := Next(w, s);
            && Allowed(w, s) && w' == w.(changes := w'.changes) && w'.changes.Keys == w.changes.Keys
            && (forall x :: x in w.changes && x != id ==> w'.changes[x] == w.changes[x])
            && SameDraft(w.changes[id], w'.changes[id]) && w'.changes[id].item.status == G.Confirmed
  {
    ApprovalConfirms();
    hide G.Run;
  }

  /** A run with one more step. */
  lemma Extend(states: seq<World>, steps: seq<Step>, s: Step) returns (states': seq<World>, steps': seq<Step>)
    requires IsRun(states, steps) && OnlyAdvances(steps) && Allowed(states[|steps|], s) && !s.Rollback?
    requires !s.DeleteProduct?
    ensures IsRun(states', steps') && OnlyAdvances(steps') && |steps'| == |steps| + 1
    ensures states'[..|states|] == states && states'[|steps'|] == Next(states[|steps|], s)
  {
    hide Next, Allowed;
    ExtendRun(states, steps, s);
    states', steps' := states + [Next(states[|steps|], s)], steps + [s];
  }

  lemma ConfirmedRun() returns (states: seq<World>, steps: seq<Step>)
    ensures IsRun(states, steps) && OnlyAdvances(steps) && TwoConfirmed(states[|steps|], "p", "v2", "a", "b")
  {
    hide G.After, G.Run, IsApplied, IsRun, OnlyAdvances;
    var ca, cb := Change("p", "none", "none", "", REVIEWED), Change("p", "v2", "none", "", REVIEWED);
    var w1 := EMPTY.(products := map["p" := None]);
    var w2 := w1.(changes := map["a" := ca]);
    var w3 := w1.(changes := map["a" := ca, "b" := cb]);
    Proposals(w1, w2, w3, ca, cb);
    hide Next, Allowed;
    states, steps := EmptyRun();
    states, steps := Extend(states, steps, CreateProduct("p"));
    states, steps := Extend(states, steps, Propose("a", ca));
    states, steps := Extend(states, steps, Propose("b", cb));
    ConfirmReviewed(w3, "a");
    states, steps := Extend(states, steps, Review("a", [APPROVAL]));
    var w4 := Next(w3, Review("a", [APPROVAL]));
    ConfirmReviewed(w4, "b");
    states, steps := Extend(states, steps, Review("b", [APPROVAL]));
  }

  lemma EmptyRun() returns (states: seq<World>, steps: seq<Step>)
    ensures IsRun(states, steps) && OnlyAdvances(steps) && |steps| == 0 && states[0] == EMPTY
  {
    states, steps := [EMPTY], [];
  }

  /** MAIN: such a run exists: a version named "none" lets two change sets drafted against the same
      base of the same product both be applied. */
  lemma TwoAppliedOnNone() returns (states: seq<World>, steps: seq<Step>, i: nat)
    ensures IsRun(states, steps) && OnlyAdvances(steps) && i + 1 < |steps|
    ensures BecomesApplied(states[i], states[i + 1], "a") && BecomesApplied(states[i + 1], states[i + 2], "b")
    ensures SameDraft(states[i + 1].changes["a"], Change("p", "none", "none", "", REVIEWED))
    ensures SameDraft(states[i + 2].changes["b"], Change("p", "v2", "none", "", REVIEWED))
  {
    hide Next, Allowed, ItemsOk, IsApplied, REVIEWED, NO_EDGES;
    var db := Answers(true, true, true);
    var before, start := ConfirmedRun();
    i := |start|;
    RunsKeepItems(before, start, i);
    BothApply(before[i], "p", "v2", "a", "b");
    var middle, reached := Extend(before, start, ApplyChangeSet("a", true, NO_EDGES, db));
    states, steps := Extend(middle, reached, ApplyChangeSet("b", true, NO_EDGES, db));
    SameBefore(before, middle, states);
  }

  lemma SameBefore(before: seq<World>, middle: seq<World>, states: seq<World>)
    requires 0 < |before| == |middle| - 1 && |middle| == |states| - 1
    requires middle[..|before|] == before && states[..|middle|] == middle
    ensures states[|before| - 1] == before[|before| - 1] && states[|before|] == middle[|before|]
  {
  }

  lemma Proposals(w1: World, w2: World, w3: World, ca: Change, cb: Change)
    requires w1 == EMPTY.(products := map["p" := None]) && ca.item == REVIEWED && cb.item == REVIEWED
    requires w2 == w1.(changes := map["a" := ca]) && w3 == w1.(changes := map["a" := ca, "b" := cb])
    ensures Allowed(EMPTY, CreateProduct("p")) && Next(EMPTY, CreateProduct("p")) == w1
    ensures Allowed(w1, Propose("a", ca)) && Next(w1, Propose("a", ca)) == w2
    ensures Allowed(w2, Propose("b", cb)) && Next(w2, Propose("b", cb)) == w3
  {
    hide G.After;
    assert ca.item == G.After(G.NewItem(G.ChangeSet, G.Low), G.Validate([]));
    assert w2.changes["b" := cb] == w3.changes;
  }
}
