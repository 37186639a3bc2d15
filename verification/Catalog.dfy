/** What every run keeps about the product catalog and the edges bound to it. */
module Catalog {
  import opened Text
  import opened Control
  import opened Releases
  import G = Governance

  predicate IsPublished(w: World, k: Key) {
    k in w.versions && w.versions[k].status == Published
  }

  /** A product's latest version is its only published one, and versions belong to products. */
  ghost predicate LatestOk(w: World) {
    && (forall p :: p in w.products && w.products[p].Some? ==> IsPublished(w, (p, w.products[p].value)))
    && (forall k :: IsPublished(w, k) ==> k.0 in w.products && w.products[k.0] == Some(k.1))
    && (forall k :: k in w.versions ==> k.0 in w.products)
  }

  /** The edge desires the latest version of its product and has a package for it. */
  ghost predicate EdgeFollows(w: World, edge: string)
    requires edge in w.nodes && w.nodes[edge].product.Some?
  {
    var p := w.nodes[edge].product.value;
    && p in w.products && w.products[p].Some? && w.nodes[edge].desired == w.products[p]
    && (edge, w.products[p].value) in w.packages
  }

  ghost predicate EdgesOk(w: World) {
    forall e :: e in w.nodes && w.nodes[e].product.Some? ==> EdgeFollows(w, e)
  }

  ghost predicate CatalogOk(w: World) {
    LatestOk(w) && EdgesOk(w)
  }

  // ----- steps that leave the catalog alone

  /** Same products and versions; edges keep their binding and its package, or are gone. */
  ghost predicate LeavesCatalog(w: World, w': World) {
    && w'.products == w.products && w'.versions == w.versions
    && (forall e :: e in w'.nodes && w'.nodes[e].product.Some? ==>
          e in w.nodes && w'.nodes[e].product == w.nodes[e].product && w'.nodes[e].desired == w.nodes[e].desired)
    && (forall k :: k in w.packages && k.0 in w'.nodes && w'.nodes[k.0].product.Some? ==> k in w'.packages)
  }

  lemma LeavingKeeps(w: World, w': World)
    requires CatalogOk(w) && LeavesCatalog(w, w')
    ensures CatalogOk(w')
  {
    assert forall k :: IsPublished(w', k) <==> IsPublished(w, k);
    forall e | e in w'.nodes && w'.nodes[e].product.Some? ensures EdgeFollows(w', e) {
      assert EdgeFollows(w, e);
    }
  }

  predicate TouchesCatalog(s: Step) {
    s.CreateEdge? || s.BindEdge? || s.CreateProduct? || s.DeleteProduct? || s.CreateVersion? || s.SaveVersion? ||
    s.DeleteVersion? || s.Publish? || s.Rollback? || s.ApplyChangeSet?
  }

  lemma MarkLeaves(w: World, id: nat, version: string)
    requires id in w.releases
    ensures LeavesCatalog(w, MarkReported(w, id, version))
  {
  }

  lemma SaveLeaves(w: World, edge: string, version: string, body: string, valid: bool, id: nat, saved: bool)
    ensures LeavesCatalog(w, SavePackage(w, edge, version, body, valid, id, saved))
  {
  }

  lemma OtherStepsLeave(w: World, s: Step)
    requires !TouchesCatalog(s)
    ensures LeavesCatalog(w, Next(w, s))
  {
    hide SavePackage, EditPackage, RemoveEdge, Greet, LeavesCatalog, SendPackage, ReceiveReport, HttpReported,
         ReviewChange, PublishLatest;
    match s {
      case Save(e, v, body, valid, id, saved) => SaveLeaves(w, e, v, body, valid, id, saved);
      case Edit(e, body, valid, id, saved) => EditLeaves(w, e, body, valid, id, saved);
      case Receive(_, _, _) => ReportLeaves(w, s);
      case HttpReport(_, _, _) => ReportLeaves(w, s);
      case DeleteEdge(e) => RemovalLeaves(w, e);
      case Connect(e) => GreetLeaves(w, e);
      case Send(n, e, runtime) => SendLeaves(w, n, e, runtime);
      case Review(id, actions) => ReviewLeaves(w, id, actions);
      case CompatPublish(e, valid, id) => PublishLatestLeaves(w, e, valid, id);
      case _ => SameLeaves(w, Next(w, s));
    }
  }

  lemma SameLeaves(w: World, w': World)
    requires w'.products == w.products && w'.versions == w.versions && w'.nodes == w.nodes && w'.packages == w.packages
    ensures LeavesCatalog(w, w')
  {
  }

  lemma RemovalLeaves(w: World, edge: string)
    ensures LeavesCatalog(w, RemoveEdge(w, edge))
  {
  }

  lemma GreetLeaves(w: World, edge: string)
    ensures LeavesCatalog(w, Greet(w, edge))
  {
    hide LeavesCatalog;
    if edge in w.nodes { SameLeaves(w, w); } else { NewNodeLeaves(w, Greet(w, edge), edge); }
  }

  lemma NewNodeLeaves(w: World, w': World, edge: string)
    requires edge !in w.nodes && w'.nodes == w.nodes[edge := Node(None, None, None)]
    requires w'.products == w.products && w'.versions == w.versions && w'.packages == w.packages
    ensures LeavesCatalog(w, w')
  {
  }

  lemma SendLeaves(w: World, n: nat, edge: string, runtime: Option<string>)
    ensures LeavesCatalog(w, SendPackage(w, n, edge, runtime))
  {
    hide LeavesCatalog, Deployable;
    SameLeaves(w, SendPackage(w, n, edge, runtime));
  }

  lemma ReviewLeaves(w: World, id: string, actions: seq<G.Action>)
    ensures LeavesCatalog(w, ReviewChange(w, id, actions))
  {
    hide LeavesCatalog, G.Run;
    SameLeaves(w, ReviewChange(w, id, actions));
  }

  lemma PublishLatestLeaves(w: World, edge: string, valid: bool, id: nat)
    ensures LeavesCatalog(w, PublishLatest(w, edge, valid, id))
  {
    hide LeavesCatalog, StoredVersions;
    SameLeaves(w, PublishLatest(w, edge, valid, id));
  }

  lemma EditLeaves(w: World, edge: string, body: string, valid: bool, id: nat, saved: bool)
    ensures LeavesCatalog(w, EditPackage(w, edge, body, valid, id, saved))
  {
    hide EditPackage, SavePackage, StoredVersions;
    var next := EditSaves(w, edge, body, valid, id, saved);
    if next.Some? {
      SaveLeaves(w.(packages := w.packages[(edge, next.value) := body]), edge, next.value, body, valid, id, saved);
    }
  }

  lemma ReportLeaves(w: World, s: Step)
    requires s.Receive? || s.HttpReport?
    ensures LeavesCatalog(w, Next(w, s))
  {
    hide Next, MarkReported;
    var id, version := ReportStep(w, s);
    if id.Some? { MarkLeaves(WithoutFlight(w, s), id.value, version); }
  }

  // ----- binding an edge

  lemma BindKeeps(w: World, edge: string, node: Node, version: string, build: Built, id: nat, saved: bool)
    requires CatalogOk(w)
    requires node.product.Some? && IsPublished(w, (node.product.value, version)) && node.desired == Some(version)
    ensures CatalogOk(BindNode(w, edge, node, version, build, id, saved))
  {
    if build.Package? {
      var w1 := w.(nodes := w.nodes[edge := node], packages := w.packages[(edge, version) := build.body]);
      assert forall k :: IsPublished(w1, k) <==> IsPublished(w, k);
      forall e | e in w1.nodes && w1.nodes[e].product.Some? ensures EdgeFollows(w1, e) {
        if e != edge { assert EdgeFollows(w, e); }
      }
      SaveLeaves(w1, edge, version, build.body, build.valid, id, saved);
      LeavingKeeps(w1, SavePackage(w1, edge, version, build.body, build.valid, id, saved));
    }
  }

  // ----- versions

  /** Adding or replacing a draft, or removing one. */
  lemma DraftKeeps(w: World, w': World, k: Key)
    requires CatalogOk(w) && !IsPublished(w, k) && k.0 in w.products
    requires w' == w.(versions := w'.versions)
    requires k in w'.versions ==> w'.versions[k].status == Drafted
    requires forall j :: j != k ==>
        (j in w'.versions <==> j in w.versions) && (j in w.versions ==> w'.versions[j] == w.versions[j])
    ensures CatalogOk(w')
  {
    assert forall j :: IsPublished(w', j) <==> IsPublished(w, j);
    forall e | e in w'.nodes && w'.nodes[e].product.Some? ensures EdgeFollows(w', e) {
      assert EdgeFollows(w, e);
    }
  }

  lemma RolloutLatest(w: World, product: string, version: string, r: Rollout)
    requires LatestOk(w) && product in w.products && (product, version) in w.versions && BuildsAll(w, product, r)
    ensures LatestOk(RolledOut(w, product, version, r))
  {
    hide BuildsAll, BoundEdges;
    var w' := RolledOut(w, product, version, r);
    forall k | IsPublished(w', k) ensures k.0 in w'.products && w'.products[k.0] == Some(k.1) {
      if k != (product, version) { assert IsPublished(w, k); }
    }
    forall p | p in w'.products && w'.products[p].Some? ensures IsPublished(w', (p, w'.products[p].value)) {
      if p != product { assert IsPublished(w, (p, w.products[p].value)); }
    }
  }

  lemma RolloutEdges(w: World, product: string, version: string, r: Rollout)
    requires EdgesOk(w) && product in w.products && (product, version) in w.versions && BuildsAll(w, product, r)
    ensures EdgesOk(RolledOut(w, product, version, r))
  {
    hide BuildsAll;
    var w' := RolledOut(w, product, version, r);
    forall e | e in w'.nodes && w'.nodes[e].product.Some? ensures EdgeFollows(w', e) {
      assert EdgeFollows(w, e);
      if Bound(w, product, e) { assert e in BoundEdges(w, product); }
    }
  }

  lemma TransitionKeeps(w: World, product: string, version: string, rollback: bool, r: Rollout)
    requires CatalogOk(w)
    ensures CatalogOk(Transition(w, product, version, rollback, r))
  {
    hide RolledOut, LatestOk, EdgesOk;
    if CanTransition(w, product, version, rollback, r) {
      RolloutLatest(w, product, version, r);
      RolloutEdges(w, product, version, r);
    }
  }

  lemma PutKeeps(w: World, product: string, version: string, body: string, r: Rollout)
    requires CatalogOk(w) && product in w.products && !IsPublished(w, (product, version))
    ensures CatalogOk(PutVersion(w, product, version, body, r))
  {
    hide Transition, CatalogOk;
    var w1 := w.(versions := w.versions[(product, version) := ProductVersion(Drafted, body)]);
    DraftKeeps(w, w1, (product, version));
    TransitionKeeps(w1, product, version, false, r);
  }

  lemma ApplyKeeps(w: World, id: string, sound: bool, r: Rollout, db: Answers)
    requires CatalogOk(w)
    ensures CatalogOk(ApplyChange(w, id, sound, r, db))
  {
    hide Transition, CatalogOk, ApplyChange;
    var w' := ApplyChange(w, id, sound, r, db);
    if GoesThrough(w, id, sound, r, db) {
      var c := w.changes[id];
      ApplyPublishes(w, id, sound, r, db);
      PreparedKeeps(w, id);
      TransitionKeeps(PreparedChange(w, id), c.product, c.target, false, r);
      ItemKeeps(Transition(PreparedChange(w, id), c.product, c.target, false, r), w');
    } else {
      ApplyStops(w, id, sound, r, db);
      ItemKeeps(w, w');
    }
  }

  lemma PreparedKeeps(w: World, id: string)
    requires CatalogOk(w) && id in w.changes
    requires var c := w.changes[id]; c.product in w.products && !IsPublished(w, (c.product, c.target))
    ensures CatalogOk(PreparedChange(w, id))
  {
    hide CatalogOk, PreparedChange, G.After;
    var c := w.changes[id];
    var w1 := w.(versions := w.versions[(c.product, c.target) := ProductVersion(Drafted, c.body)]);
    DraftKeeps(w, w1, (c.product, c.target));
    PreparedMoves(w, id);
    ItemKeeps(w1, PreparedChange(w, id));
  }

  lemma ItemKeeps(w: World, w': World)
    requires CatalogOk(w) && OnlyChangesMove(w, w')
    ensures CatalogOk(w')
  {
    hide CatalogOk;
    SameLeaves(w, w');
    LeavingKeeps(w, w');
  }

  lemma DeleteProductKeeps(w: World, product: string)
    requires CatalogOk(w)
    ensures CatalogOk(RemoveProduct(w, product))
  {
    var w' := RemoveProduct(w, product);
    if w' != w {
      forall p | p in w'.products && w'.products[p].Some? ensures IsPublished(w', (p, w'.products[p].value)) {
        assert IsPublished(w, (p, w.products[p].value));
      }
      forall k | IsPublished(w', k) ensures k.0 in w'.products && w'.products[k.0] == Some(k.1) {
        assert IsPublished(w, k);
      }
      forall e | e in w'.nodes && w'.nodes[e].product.Some? ensures EdgeFollows(w', e) {
        assert EdgeFollows(w, e);
        assert e !in BoundEdges(w, product);
      }
    }
  }

  lemma AddProductLatest(w: World, product: string)
    requires LatestOk(w)
    ensures LatestOk(AddProduct(w, product))
  {
    assert forall k :: IsPublished(AddProduct(w, product), k) <==> IsPublished(w, k);
  }

  lemma AddProductKeeps(w: World, product: string)
    requires CatalogOk(w)
    ensures CatalogOk(AddProduct(w, product))
  {
    var w' := AddProduct(w, product);
    AddProductLatest(w, product);
    hide LatestOk;
    forall e | e in w'.nodes && w'.nodes[e].product.Some? ensures EdgeFollows(w', e) {
      assert EdgeFollows(w, e);
    }
  }

  lemma AddEdgeKeeps(w: World, edge: string, product: string, build: Built, id: nat, saved: bool)
    requires CatalogOk(w)
    ensures CatalogOk(AddEdge(w, edge, product, build, id, saved))
  {
    hide CatalogOk, BindNode;
    if AddEdge(w, edge, product, build, id, saved) != w {
      var v := w.products[product];
      BindKeeps(w, edge, Node(Some(product), v, None), v.value, build, id, saved);
    }
  }

  lemma RebindKeeps(w: World, edge: string, product: string, requested: Option<string>, build: Built, id: nat,
                    saved: bool)
    requires CatalogOk(w)
    ensures CatalogOk(Rebind(w, edge, product, requested, build, id, saved))
  {
    hide CatalogOk, BindNode;
    if Rebind(w, edge, product, requested, build, id, saved) != w {
      var v := if requested.Some? then requested else w.products[product];
      BindKeeps(w, edge, w.nodes[edge].(product := Some(product), desired := v), v.value, build, id, saved);
    }
  }

  lemma StepKeepsCatalog(w: World, s: Step)
    requires CatalogOk(w)
    ensures CatalogOk(Next(w, s))
  {
    hide CatalogOk, PutVersion, Transition, ApplyChange, AddEdge, Rebind, RemoveProduct, AddProduct, RemoveDraft;
    if !TouchesCatalog(s) {
      hide Next;
      OtherStepsLeave(w, s);
      LeavingKeeps(w, Next(w, s));
    } else {
      match s {
        case CreateProduct(p) => AddProductKeeps(w, p);
        case DeleteProduct(p) => DeleteProductKeeps(w, p);
        case CreateVersion(p, v, body, r) => if p in w.products && (p, v) !in w.versions { PutKeeps(w, p, v, body, r); }
        case SaveVersion(p, v, body, r) =>
          if p in w.products && IsDraft(w, (p, v)) { PutKeeps(w, p, v, body, r); }
        case DeleteVersion(p, v) => DeleteVersionKeeps(w, p, v);
        case Publish(p, v, r) => TransitionKeeps(w, p, v, false, r);
        case Rollback(p, v, r) => TransitionKeeps(w, p, v, true, r);
        case ApplyChangeSet(id, sound, r, db) => ApplyKeeps(w, id, sound, r, db);
        case CreateEdge(e, p, build, id, saved) => AddEdgeKeeps(w, e, p, build, id, saved);
        case BindEdge(e, p, requested, build, id, saved) => RebindKeeps(w, e, p, requested, build, id, saved);
      }
    }
  }

  lemma DeleteVersionKeeps(w: World, p: string, v: string)
    requires CatalogOk(w)
    ensures CatalogOk(RemoveDraft(w, p, v))
  {
    var w' := RemoveDraft(w, p, v);
    if w' != w { DraftKeeps(w, w', (p, v)); }
  }

  /** MAIN: in every state of every run a product's latest version, once set, is its only published
      version, and each edge bound to the product desires it and has a package for it. */
  lemma {:induction false} RunsKeepCatalog(states: seq<World>, steps: seq<Step>, i: nat)
    requires IsRun(states, steps) && i < |states|
    ensures CatalogOk(states[i])
  {
    if i > 0 {
      RunsKeepCatalog(states, steps, i - 1);
      hide CatalogOk, Next, Allowed;
      StepKeepsCatalog(states[i - 1], steps[i - 1]);
    } else {
      EmptyIsOk(states[0]);
    }
  }

  lemma EmptyIsOk(w: World)
    requires w == EMPTY
    ensures CatalogOk(w)
  {
  }

  // ----- rollouts are all or nothing

  /** The rollout leaves every edge that is not bound to the product alone. */
  ghost predicate OnlyBoundEdgesMove(w: World, w': World, product: string, version: string) {
    && w'.nodes.Keys == w.nodes.Keys
    && (forall e :: e in w.nodes && !Bound(w, product, e) ==> w'.nodes[e] == w.nodes[e])
    && (forall k :: k in w.packages && !(k.1 == version && Bound(w, product, k.0)) ==>
         k in w'.packages && w'.packages[k] == w.packages[k])
    && (forall id :: id in w.releases && !Bound(w, product, w.releases[id].edge) ==>
         id in w'.releases && w'.releases[id] == w.releases[id])
  }

  predicate IsMoved(w: World, product: string, version: string, k: Key)
    requires product in w.products
  {
    k.0 == product && (k.1 == version || w.products[product] == Some(k.1))
  }

  /** Of the catalog it changes the product, the version and the one that was the latest. */
  ghost predicate OnlyTargetMoves(w: World, w': World, product: string, version: string) {
    && product in w.products && w'.changes == w.changes && w'.flights == w.flights
    && w'.versions.Keys == w.versions.Keys && w'.products.Keys == w.products.Keys
    && (forall k :: k in w.versions && !IsMoved(w, product, version, k) ==> w'.versions[k] == w.versions[k])
    && (forall p :: p in w.products && p != product ==> w'.products[p] == w.products[p])
  }

  ghost predicate RolledOutTo(w: World, w': World, e: string, version: string, body: string) {
    && e in w.nodes && e in w'.nodes && w'.nodes[e] == w.nodes[e].(desired := Some(version))
    && (e, version) in w'.packages && w'.packages[(e, version)] == body
    && exists id :: id in w'.releases && id !in w.issued && w'.releases[id] == Release(e, version, None, Pending)
  }

  /** MAIN: publishing or rolling back reaches every bound edge and nothing else, and if a package
      cannot be built or is invalid for any bound edge, nothing at all changes. */
  lemma TransitionIsAllOrNothing(w: World, product: string, version: string, rollback: bool, r: Rollout)
    requires w.releases.Keys <= w.issued && TicketsFit(w, product, r)
    ensures var w' := Transition(w, product, version, rollback, r);
            || (w' == w && !CanTransition(w, product, version, rollback, r))
            || (&& CanTransition(w, product, version, rollback, r)
                && product in w'.products && w'.products[product] == Some(version) &&
                   IsPublished(w', (product, version))
                && OnlyBoundEdgesMove(w, w', product, version) && OnlyTargetMoves(w, w', product, version)
                && forall e :: e in BoundEdges(w, product) ==> RolledOutTo(w, w', e, version, r.built[e].body))
    ensures var w' := Transition(w, product, version, rollback, r);
            (exists e :: e in BoundEdges(w, product) &&
              (e !in r.built || r.built[e].NoPackage? || !r.built[e].valid)) ==> w' == w
  {
    if CanTransition(w, product, version, rollback, r) {
      hide RolledOut, OnlyBoundEdgesMove, OnlyTargetMoves, RolledOutTo, TicketsFit;
      PublishesTarget(w, product, version, r);
      MovesOnlyBound(w, product, version, r);
      MovesOnlyTarget(w, product, version, r);
      forall e | e in BoundEdges(w, product)
        ensures RolledOutTo(w, RolledOut(w, product, version, r), e, version, r.built[e].body)
      {
        ReachesBound(w, product, version, r, e);
      }
    }
  }

  lemma MovesOnlyBound(w: World, product: string, version: string, r: Rollout)
    requires product in w.products && (product, version) in w.versions && BuildsAll(w, product, r)
    requires w.releases.Keys <= w.issued && TicketsFit(w, product, r)
    ensures OnlyBoundEdgesMove(w, RolledOut(w, product, version, r), product, version)
  {
    hide BuildsAll, TicketsFit, RetireLatest;
    NewTickets(w, product, r);
    var w' := RolledOut(w, product, version, r);
    forall id | id in w.releases && !Bound(w, product, w.releases[id].edge) ensures w'.releases[id] == w.releases[id] {
      assert w.releases[id].edge !in BoundEdges(w, product);
    }
  }

  lemma NewTickets(w: World, product: string, r: Rollout)
    requires w.releases.Keys <= w.issued && TicketsFit(w, product, r)
    ensures r.tickets.Keys !! w.releases.Keys
  {
  }

  lemma MovesOnlyTarget(w: World, product: string, version: string, r: Rollout)
    requires product in w.products && (product, version) in w.versions && BuildsAll(w, product, r)
    ensures OnlyTargetMoves(w, RolledOut(w, product, version, r), product, version)
  {
    hide BuildsAll, BoundEdges, Supersede;
  }

  lemma PublishesTarget(w: World, product: string, version: string, r: Rollout)
    requires product in w.products && (product, version) in w.versions && BuildsAll(w, product, r)
    ensures var w' := RolledOut(w, product, version, r);
            && product in w'.products && w'.products[product] == Some(version) && IsPublished(w', (product, version))
            && w'.versions[(product, version)].body == w.versions[(product, version)].body
  {
  }

  lemma ReachesBound(w: World, product: string, version: string, r: Rollout, e: string)
    requires TicketsFit(w, product, r) && product in w.products && (product, version) in w.versions
    requires BuildsAll(w, product, r)
    requires e in BoundEdges(w, product)
    ensures RolledOutTo(w, RolledOut(w, product, version, r), e, version, r.built[e].body)
  {
    var id :| id in r.tickets && r.tickets[id] == e;
    assert RolledOut(w, product, version, r).releases[id] == Release(e, version, None, Pending);
  }
}
