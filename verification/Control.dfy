/** The control plane's store and the steps its handlers take on it: configuration packages and
    their releases, the deployment handshake of a gateway session, the product catalog with its
    rollouts, and change sets drafted by the agent. Each handler is one step; the deployment
    handshake is two. What handlers cannot know beforehand (identifiers, the outcome of package
    materialization and validation, whether the database accepted a write) are step parameters. */
module Control {
  import opened Text
  import Versions
  import G = Governance

  datatype ReleaseStatus = Pending | Applied | Failed | Superseded

  /** A configuration revision on its way to an edge. */
  datatype Release = Release(edge: string, desired: string, reported: Option<string>, status: ReleaseStatus)

  /** A registered edge: the product it is bound to, the version it should run and the one it
      last reported as applied. */
  datatype Node = Node(product: Option<string>, desired: Option<string>, reported: Option<string>)

  datatype VersionStatus = Drafted | Published | Retired
  datatype ProductVersion = ProductVersion(status: VersionStatus, body: string)

  /** A change set: the product version it wants to add, and the version it was drafted against. */
  datatype Change = Change(product: string, target: string, base: string, body: string, item: G.Item)

  /** A package sent to a runtime whose report has not arrived, and the release that chose it. */
  datatype Flight = Flight(edge: string, version: string, release: nat, body: string)

  type Key = (string, string)

  datatype World = World(
    nodes: map<string, Node>,
    packages: map<Key, string>,           // by edge and version
    releases: map<nat, Release>,
    products: map<string, Option<string>>, // the latest version, once there is one
    versions: map<Key, ProductVersion>,   // by product and version
    changes: map<string, Change>,
    flights: map<nat, Flight>,            // by gateway session
    issued: set<nat>                      // release identifiers ever drawn
  )

  const EMPTY: World := World(map[], map[], map[], map[], map[], map[], map[], {})

  // ----- releases

  /** Marks the pending releases of `edges` as superseded. */
  function Supersede(releases: map<nat, Release>, edges: set<string>): map<nat, Release> {
    map id | id in releases ::
      var r := releases[id];
      if r.edge in edges && r.status == Pending then r.(status := Superseded) else r
  }

  /** `persist_config_package`: an invalid package is only stored; a valid one supersedes the
      edge's pending revisions and becomes the pending one. A failed database write changes nothing. */
  function SavePackage(w: World, edge: string, version: string, body: string, valid: bool, id: nat,
                       saved: bool): World {
    if !saved then w
    else if !valid then w.(packages := w.packages[(edge, version) := body])
    else w.(packages := w.packages[(edge, version) := body],
            releases := Supersede(w.releases, {edge}) + map[id := Release(edge, version, None, Pending)],
            issued := w.issued + {id})
  }

  /** The versions stored for an edge. */
  function StoredVersions(w: World, edge: string): set<string> {
    set k | k in w.packages && k.0 == edge :: k.1
  }

  /** A configuration edit: the latest package under the next version, saved. */
  ghost function EditPackage(w: World, edge: string, body: string, valid: bool, id: nat, saved: bool): World {
    var stored := StoredVersions(w, edge);
    if stored == {} then w
    else
      assert exists v :: Versions.IsLatest(stored, v) by {
        var m := GreatestExists(stored);
        assert Versions.IsLatest(stored, m);
      }
      var v :| Versions.IsLatest(stored, v);
      match Versions.NextVersion(v)
      case None => w
      case Some(next) =>
        SavePackage(w.(packages := w.packages[(edge, next) := body]), edge, next, body, valid, id, saved)
  }

  /** `mark_reported`, and the note on the node when the revision was applied. */
  function MarkReported(w: World, id: nat, version: string): World
    requires id in w.releases
  {
    var r := w.releases[id];
    var applied := r.desired == version;
    w.(releases := w.releases[id := r.(reported := Some(version), status := if applied then Applied else Failed)],
       nodes := if applied && r.edge in w.nodes
                then w.nodes[r.edge := w.nodes[r.edge].(reported := Some(version))] else w.nodes)
  }

  function PendingIds(w: World, edge: string): set<nat> {
    set id | id in w.releases && w.releases[id].edge == edge && w.releases[id].status == Pending
  }

  function PendingFor(w: World, edge: string, version: string): set<nat> {
    set id | id in PendingIds(w, edge) && w.releases[id].desired == version
  }

  ghost predicate IsSmallest(ids: set<nat>, id: nat) {
    id in ids && forall j :: j in ids ==> id <= j
  }

  lemma {:induction false} SmallestExists(ids: set<nat>) returns (id: nat)
    requires ids != {}
    ensures IsSmallest(ids, id)
  {
    id :| id in ids;
    var rest := ids - {id};
    assert forall j :: j in ids ==> j == id || j in rest;
    if rest != {} {
      var other := SmallestExists(rest);
      if other < id { id := other; }
    }
  }

  /** The first of the matching releases in store order. */
  ghost function Smallest(ids: set<nat>): nat
    requires ids != {}
    ensures IsSmallest(ids, Smallest(ids))
  {
    assert exists id :: IsSmallest(ids, id) by { var id := SmallestExists(ids); }
    var id :| IsSmallest(ids, id);
    id
  }

  /** `persist_config_report`: records a runtime's answer on the pending release of that version,
      if there is one; a runtime that applied nothing counts as reporting "rejected". */
  ghost function RecordReport(w: World, edge: string, version: string, applied: Option<string>): World {
    var ids := PendingFor(w, edge, version);
    if ids == {} then w
    else MarkReported(w, Smallest(ids), if applied.Some? then applied.value else "rejected")
  }

  /** `edge_reported_config`: the release is found by the desired version if given, else by the
      reported one, else it must be the only pending one. */
  ghost function HttpReported(w: World, edge: string, reported: string, desired: Option<string>): World {
    var ids := match desired
               case Some(v) => PendingFor(w, edge, v)
               case None =>
                 if PendingFor(w, edge, reported) != {} then PendingFor(w, edge, reported)
                 else if |PendingIds(w, edge)| == 1 then PendingIds(w, edge) else {};
    if ids == {} then w else MarkReported(w, Smallest(ids), reported)
  }

  // ----- choosing what to deploy

  predicate Matches(w: World, edge: string, status: ReleaseStatus, id: nat) {
    id in w.releases && w.releases[id].edge == edge && w.releases[id].status == status
  }

  /** `max_by` on the desired version; among equals the last one in store order. */
  ghost predicate IsHighest(w: World, edge: string, status: ReleaseStatus, id: nat) {
    && Matches(w, edge, status, id)
    && forall j: nat :: Matches(w, edge, status, j) ==>
         !Less(w.releases[id].desired, w.releases[j].desired) &&
         (w.releases[j].desired == w.releases[id].desired ==> j <= id)
  }

  ghost function Highest(w: World, edge: string, status: ReleaseStatus): Option<nat> {
    if id :| IsHighest(w, edge, status, id) then Some(id) else None
  }

  /** `deployable_config_package`: the highest pending release; without one, the highest applied
      release unless the runtime already runs that version. */
  ghost function Deployable(w: World, edge: string, runtime: Option<string>): Option<nat> {
    var pending, applied := Highest(w, edge, Pending), Highest(w, edge, Applied);
    var chosen := if pending.Some? then pending
                  else if applied.Some? && runtime != Some(w.releases[applied.value].desired) then applied
                  else None;
    if chosen.Some? && (edge, w.releases[chosen.value].desired) in w.packages then chosen else None
  }

  // ----- the catalog

  predicate Bound(w: World, product: string, edge: string) {
    edge in w.nodes && w.nodes[edge].product == Some(product)
  }

  function BoundEdges(w: World, product: string): set<string> {
    set e | e in w.nodes && Bound(w, product, e)
  }

  /** What materializing a product version for an edge gave: no package, or one and whether the
      validator accepts it. */
  datatype Built = NoPackage | Package(body: string, valid: bool)

  /** What a rollout meets: whether the version is complete enough to publish, the package built
      for each edge, the identifier drawn for each edge's release, and the database's answer. */
  datatype Rollout = Rollout(publishable: bool, built: map<string, Built>, tickets: map<nat, string>, saved: bool)

  predicate BuildsAll(w: World, product: string, r: Rollout) {
    forall e :: e in w.nodes && Bound(w, product, e) ==> e in r.built && r.built[e].Package? && r.built[e].valid
  }

  predicate CanTransition(w: World, product: string, version: string, rollback: bool, r: Rollout) {
    && product in w.products && (product, version) in w.versions
    && (w.versions[(product, version)].status == Drafted <==> !rollback)
    && !(w.products[product] == Some(version) && w.versions[(product, version)].status == Published)
    && r.publishable && BuildsAll(w, product, r) && r.saved
  }

  function RetireLatest(w: World, product: string, version: string): map<Key, ProductVersion>
    requires product in w.products
  {
    match w.products[product]
    case Some(u) => if u != version && (product, u) in w.versions
                    then w.versions[(product, u) := w.versions[(product, u)].(status := Retired)] else w.versions
    case None => w.versions
  }

  /** A rollout that goes through: the previous version is retired, the target published, and every
      bound edge gets the new desired version, its package and a pending release. */
  function RolledOut(w: World, product: string, version: string, r: Rollout): World
    requires product in w.products && (product, version) in w.versions && BuildsAll(w, product, r)
  {
    var bound, target := BoundEdges(w, product), w.versions[(product, version)];
    w.(versions := RetireLatest(w, product, version)[(product, version) := target.(status := Published)],
       products := w.products[product := Some(version)],
       nodes := map e | e in w.nodes ::
                  if Bound(w, product, e) then w.nodes[e].(desired := Some(version)) else w.nodes[e],
       packages := map k | k in w.packages.Keys + (set e | e in bound :: (e, version)) ::
                     if k.1 == version && k.0 in bound then r.built[k.0].body else w.packages[k],
       releases := Supersede(w.releases, bound) +
                   map id | id in r.tickets :: Release(r.tickets[id], version, None, Pending),
       issued := w.issued + r.tickets.Keys)
  }

  /** `transition_product_version`: publish a draft or roll back to an earlier version. */
  function Transition(w: World, product: string, version: string, rollback: bool, r: Rollout): World {
    if CanTransition(w, product, version, rollback, r) then RolledOut(w, product, version, r) else w
  }

  /** Stores a draft and publishes it if it is complete. */
  function PutVersion(w: World, product: string, version: string, body: string, r: Rollout): World {
    var w1 := w.(versions := w.versions[(product, version) := ProductVersion(Drafted, body)]);
    if r.publishable then Transition(w1, product, version, false, r) else w1
  }

  /** Registers an edge under a product and stores its package before saving it. */
  function BindNode(w: World, edge: string, node: Node, version: string, build: Built, id: nat, saved: bool): World {
    if build.NoPackage? then w
    else SavePackage(w.(nodes := w.nodes[edge := node], packages := w.packages[(edge, version) := build.body]),
                     edge, version, build.body, build.valid, id, saved)
  }

  // ----- change sets

  function LatestOrNone(w: World, product: string): string
    requires product in w.products
  {
    if w.products[product].Some? then w.products[product].value else "none"
  }

  /** What validation checks against the catalog; `sound` stands for everything it checks in the
      draft itself. */
  predicate ChangeIsValid(w: World, c: Change, sound: bool, r: Rollout) {
    && sound && c.product in w.products && c.base == LatestOrNone(w, c.product)
    && (c.product, c.target) !in w.versions
    && r.publishable && BuildsAll(w, c.product, r)
  }

  function WithItem(w: World, id: string, item: G.Item): World
    requires id in w.changes
  {
    w.(changes := w.changes[id := w.changes[id].(item := item)])
  }

  /** The database's answers while a change set is applied. */
  datatype Answers = Answers(start: bool, version: bool, finish: bool)

  /** Ends a running change set; if that cannot be written it stays running. */
  function EndChange(w: World, id: string, success: bool, written: bool): World
    requires id in w.changes
  {
    if written then WithItem(w, id, G.After(w.changes[id].item, G.Finish(success, ""))) else w
  }

  /** The set runs. */
  function StartedChange(w: World, id: string): World
    requires id in w.changes
  {
    WithItem(w, id, G.After(w.changes[id].item, G.Start))
  }

  /** The set runs and its version is stored as a draft. */
  function PreparedChange(w: World, id: string): World
    requires id in w.changes
  {
    var c, w1 := w.changes[id], StartedChange(w, id);
    w1.(versions := w1.versions[(c.product, c.target) := ProductVersion(Drafted, c.body)])
  }

  /** `apply_agent_change_set`: revalidates, marks the set as running, adds its version as a draft
      and publishes it. */
  function ApplyChange(w: World, id: string, sound: bool, r: Rollout, db: Answers): World {
    if id !in w.changes || w.changes[id].item.status != G.Confirmed || !db.start then w
    else if !ChangeIsValid(w, w.changes[id], sound, r) then
      WithItem(w, id, G.After(w.changes[id].item, G.Validate([G.Error])))
    else if !db.version then EndChange(StartedChange(w, id), id, false, db.finish)
    else
      var c := w.changes[id];
      EndChange(Transition(PreparedChange(w, id), c.product, c.target, false, r), id, r.saved, db.finish)
  }

  // ----- the steps

  datatype Step =
    | Save(edge: string, version: string, body: string, valid: bool, id: nat, saved: bool)
    | Edit(edge: string, body: string, valid: bool, id: nat, saved: bool)
    | CreateEdge(edge: string, product: string, build: Built, id: nat, saved: bool)
    | BindEdge(edge: string, product: string, requested: Option<string>, build: Built, id: nat, saved: bool)
    | DeleteEdge(edge: string)
    | Connect(edge: string)
    | Send(session: nat, edge: string, runtime: Option<string>)
    | Receive(session: nat, desired: string, applied: Option<string>)
    | Hangup(session: nat)
    | HttpReport(edge: string, reported: string, desiredVersion: Option<string>)
    | CreateProduct(product: string)
    | DeleteProduct(product: string)
    | CreateVersion(product: string, version: string, body: string, rollout: Rollout)
    | SaveVersion(product: string, version: string, body: string, rollout: Rollout)
    | DeleteVersion(product: string, version: string)
    | Publish(product: string, version: string, rollout: Rollout)
    | Rollback(product: string, version: string, rollout: Rollout)
    | Propose(changeId: string, change: Change)
    | Review(changeId: string, actions: seq<G.Action>)
    | ApplyChangeSet(changeId: string, sound: bool, rollout: Rollout, db: Answers)
    | DropChanges(dropped: set<string>)
    | CompatPublish(edge: string, valid: bool, id: nat)

  /** `create_edge`: only under a product with a published latest version. */
  function AddEdge(w: World, edge: string, product: string, build: Built, id: nat, saved: bool): World {
    if product in w.products && w.products[product].Some? && (product, w.products[product].value) in w.versions &&
       w.versions[(product, w.products[product].value)].status == Published
    then
      var v := w.products[product].value;
      BindNode(w, edge, Node(Some(product), Some(v), None), v, build, id, saved)
    else w
  }

  /** Binds an edge to a published version: the requested one, or the product's latest. */
  function Rebind(w: World, edge: string, product: string, requested: Option<string>, build: Built, id: nat,
                  saved: bool): World {
    if edge in w.nodes && product in w.products then
      var v := if requested.Some? then requested else w.products[product];
      if v.Some? && (product, v.value) in w.versions && w.versions[(product, v.value)].status == Published
      then BindNode(w, edge, w.nodes[edge].(product := Some(product), desired := v), v.value, build, id, saved)
      else w
    else w
  }

  /** Deleting an edge deletes its packages and releases. */
  function RemoveEdge(w: World, edge: string): World {
    if edge !in w.nodes then w
    else w.(nodes := w.nodes - {edge},
            packages := map k | k in w.packages && k.0 != edge :: w.packages[k],
            releases := map id | id in w.releases && w.releases[id].edge != edge :: w.releases[id])
  }

  function Greet(w: World, edge: string): World {
    if edge in w.nodes then w else w.(nodes := w.nodes[edge := Node(None, None, None)])
  }

  /** The first half of the deployment handshake. */
  ghost function SendPackage(w: World, session: nat, edge: string, runtime: Option<string>): World {
    var chosen := Deployable(w, edge, runtime);
    if chosen.None? then w
    else
      var version := w.releases[chosen.value].desired;
      w.(flights := w.flights[session := Flight(edge, version, chosen.value, w.packages[(edge, version)])])
  }

  /** The second half: the runtime's report, if it is about the version that was sent. */
  ghost function ReceiveReport(w: World, session: nat, desired: string, applied: Option<string>): World {
    if session !in w.flights then w
    else
      var w1 := w.(flights := w.flights - {session});
      if desired == w.flights[session].version then RecordReport(w1, w.flights[session].edge, desired, applied) else w1
  }

  function AddProduct(w: World, product: string): World {
    if product in w.products then w else w.(products := w.products[product := None])
  }

  function RemoveProduct(w: World, product: string): World {
    if product in w.products && BoundEdges(w, product) == {}
    then w.(products := w.products - {product}, versions := map k | k in w.versions && k.0 != product :: w.versions[k])
    else w
  }

  predicate IsDraft(w: World, k: Key) {
    k in w.versions && w.versions[k].status == Drafted
  }

  function AddVersion(w: World, product: string, version: string, body: string, r: Rollout): World {
    if product in w.products && (product, version) !in w.versions then PutVersion(w, product, version, body, r) else w
  }

  function ReplaceDraft(w: World, product: string, version: string, body: string, r: Rollout): World {
    if product in w.products && IsDraft(w, (product, version)) then PutVersion(w, product, version, body, r) else w
  }

  function RemoveDraft(w: World, product: string, version: string): World {
    if IsDraft(w, (product, version)) then w.(versions := w.versions - {(product, version)}) else w
  }

  function ReviewChange(w: World, id: string, actions: seq<G.Action>): World {
    if id in w.changes then WithItem(w, id, G.Run(w.changes[id].item, actions)) else w
  }

  /** The compatibility route: a release of the latest package, whatever is pending. */
  ghost function PublishLatest(w: World, edge: string, valid: bool, id: nat): World {
    var stored := StoredVersions(w, edge);
    if v :| Versions.IsLatest(stored, v) && valid
    then w.(releases := w.releases[id := Release(edge, v, None, Pending)], issued := w.issued + {id}) else w
  }

  ghost function Next(w: World, s: Step): World {
    match s
    case Save(e, v, body, valid, id, saved) => SavePackage(w, e, v, body, valid, id, saved)
    case Edit(e, body, valid, id, saved) => EditPackage(w, e, body, valid, id, saved)
    case CreateEdge(e, p, build, id, saved) => AddEdge(w, e, p, build, id, saved)
    case BindEdge(e, p, requested, build, id, saved) => Rebind(w, e, p, requested, build, id, saved)
    case DeleteEdge(e) => RemoveEdge(w, e)
    case Connect(e) => Greet(w, e)
    case Send(n, e, runtime) => SendPackage(w, n, e, runtime)
    case Receive(n, desired, applied) => ReceiveReport(w, n, desired, applied)
    case Hangup(n) => w.(flights := w.flights - {n})
    case HttpReport(e, reported, desired) => HttpReported(w, e, reported, desired)
    case CreateProduct(p) => AddProduct(w, p)
    case DeleteProduct(p) => RemoveProduct(w, p)
    case CreateVersion(p, v, body, r) => AddVersion(w, p, v, body, r)
    case SaveVersion(p, v, body, r) => ReplaceDraft(w, p, v, body, r)
    case DeleteVersion(p, v) => RemoveDraft(w, p, v)
    case Publish(p, v, r) => Transition(w, p, v, false, r)
    case Rollback(p, v, r) => Transition(w, p, v, true, r)
    case Propose(id, change) => w.(changes := w.changes[id := change])
    case Review(id, actions) => ReviewChange(w, id, actions)
    case ApplyChangeSet(id, sound, r, db) => ApplyChange(w, id, sound, r, db)
    case DropChanges(dropped) => w.(changes := w.changes - dropped)
    case CompatPublish(e, valid, id) => PublishLatest(w, e, valid, id)
  }

  /** A rollout draws one new identifier for each edge bound to the product. */
  ghost predicate TicketsFit(w: World, product: string, r: Rollout) {
    && r.tickets.Keys !! w.issued
    && (forall id :: id in r.tickets ==> r.tickets[id] in BoundEdges(w, product))
    && (forall e :: e in BoundEdges(w, product) ==> exists id :: id in r.tickets && r.tickets[id] == e)
    && (forall i, j :: i in r.tickets && j in r.tickets && r.tickets[i] == r.tickets[j] ==> i == j)
  }

  /** Identifiers are new, a new edge is not registered yet, change sets are new drafts reviewed by
      review actions, and the compatibility publish route is not used. */
  ghost predicate Allowed(w: World, s: Step) {
    match s
    case Save(_, _, _, _, id, _) => id !in w.issued
    case Edit(_, _, _, id, _) => id !in w.issued
    case CreateEdge(e, _, _, id, _) => id !in w.issued && e !in w.nodes
    case BindEdge(_, _, _, _, id, _) => id !in w.issued
    case CreateVersion(p, _, _, r) => TicketsFit(w, p, r)
    case SaveVersion(p, _, _, r) => TicketsFit(w, p, r)
    case Publish(p, _, r) => TicketsFit(w, p, r)
    case Rollback(p, _, r) => TicketsFit(w, p, r)
    case ApplyChangeSet(id, _, r, _) => id in w.changes ==> TicketsFit(w, w.changes[id].product, r)
    case Propose(id, c) =>
      id !in w.changes && exists risk, issues :: c.item == G.After(G.NewItem(G.ChangeSet, risk), G.Validate(issues))
    case Review(_, actions) => forall i :: 0 <= i < |actions| ==> !actions[i].Start? && !actions[i].Finish?
    case CompatPublish(_, _, _) => false
    case _ => true
  }

  /** States before and after each step of a run. */
  ghost predicate IsRun(states: seq<World>, steps: seq<Step>) {
    && |states| == |steps| + 1 && states[0] == EMPTY
    && forall i :: 0 <= i < |steps| ==> Allowed(states[i], steps[i]) && states[i + 1] == Next(states[i], steps[i])
  }
}
