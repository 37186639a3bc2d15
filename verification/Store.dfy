/** The control plane's store as the handlers update it, field by field and in loops. Every method
    is proved to do what the corresponding step function of the control model says. */
module Store {
  import opened Text
  import opened Control
  import Convergence

  // ----- writing a list of records into a map

  function InsertAll<K, V>(m: map<K, V>, entries: seq<(K, V)>): map<K, V> {
    if entries == [] then m
    else
      var n := |entries|;
      InsertAll(m, entries[..n - 1])[entries[n - 1].0 := entries[n - 1].1]
  }

  /** Every entry agrees with `target`. */
  ghost predicate Sound<K, V>(entries: seq<(K, V)>, target: map<K, V>) {
    forall i :: 0 <= i < |entries| ==> entries[i].0 in target && target[entries[i].0] == entries[i].1
  }

  /** What `entries` do not write is already as in `target`. */
  ghost predicate Complete<K, V>(m: map<K, V>, entries: seq<(K, V)>, target: map<K, V>) {
    && m.Keys <= target.Keys
    && forall k :: k in target ==> (k in m && m[k] == target[k]) || (k, target[k]) in entries
  }

  lemma {:induction false} InsertAllAt<K, V>(m: map<K, V>, entries: seq<(K, V)>, target: map<K, V>)
    requires Sound(entries, target) && m.Keys <= target.Keys
    ensures InsertAll(m, entries).Keys <= target.Keys
    ensures forall i :: 0 <= i < |entries| ==>
              entries[i].0 in InsertAll(m, entries) && InsertAll(m, entries)[entries[i].0] == entries[i].1
    ensures forall k :: k in m && m[k] == target[k] ==> k in InsertAll(m, entries) && InsertAll(m, entries)[k] == m[k]
  {
    if entries != [] {
      var n := |entries|;
      var before := entries[..n - 1];
      InsertAllAt(m, before, target);
      forall i | 0 <= i < n
        ensures entries[i].0 in InsertAll(m, entries) && InsertAll(m, entries)[entries[i].0] == entries[i].1
      {
        if i < n - 1 { assert before[i] == entries[i]; }
      }
    }
  }

  /** Writing sound and complete entries, in any order, gives the target. */
  lemma InsertAllGives<K, V>(m: map<K, V>, entries: seq<(K, V)>, target: map<K, V>)
    requires Sound(entries, target) && Complete(m, entries, target)
    ensures InsertAll(m, entries) == target
  {
    InsertAllAt(m, entries, target);
    forall k | k in target ensures k in InsertAll(m, entries) && InsertAll(m, entries)[k] == target[k] {
      if !(k in m && m[k] == target[k]) {
        var i :| 0 <= i < |entries| && entries[i] == (k, target[k]);
      }
    }
  }

  /** The keys in store order. */
  method Ascending(keys: set<nat>) returns (order: seq<nat>)
    ensures forall k :: k in order <==> k in keys
    ensures forall i, j :: 0 <= i < j < |order| ==> order[i] < order[j]
  {
    order := [];
    var rest := keys;
    while rest != {}
      invariant rest <= keys
      invariant forall k :: k in keys <==> k in order || k in rest
      invariant forall i, j :: 0 <= i < j < |order| ==> order[i] < order[j]
      invariant forall i, k :: 0 <= i < |order| && k in rest ==> order[i] < k
      decreases rest
    {
      ghost var first := SmallestExists(rest);
      var k: nat :| k in rest && forall j :: j in rest ==> k <= j;
      order, rest := order + [k], rest - {k};
    }
  }

  datatype Outcome = Done | Refused

  /** The edges, packages and releases a rollout writes. */
  datatype Plan = Plan(nodes: seq<(string, Node)>, packages: seq<(Key, string)>, releases: seq<(nat, Release)>)

  predicate IsActive(w: World, product: string, version: string) {
    product in w.products && w.products[product] == Some(version) &&
    (product, version) in w.versions && w.versions[(product, version)].status == Published
  }

  class ControlStore {
    var nodes: map<string, Node>
    var packages: map<Key, string>
    var releases: map<nat, Release>
    var products: map<string, Option<string>>
    var versions: map<Key, ProductVersion>
    ghost var changes: map<string, Change>
    ghost var flights: map<nat, Flight>
    ghost var issued: set<nat>

    ghost function View(): World
      reads this
    {
      World(nodes, packages, releases, products, versions, changes, flights, issued)
    }

    constructor ()
      ensures View() == EMPTY
    {
      nodes, packages, releases, products, versions := map[], map[], map[], map[], map[];
      changes, flights, issued := map[], map[], {};
    }

    /** Superseded copies of the edge's pending releases. */
    method SupersededCopies(edge: string) returns (copies: seq<(nat, Release)>)
      ensures forall i :: 0 <= i < |copies| ==> IsCopy(View(), {edge}, copies[i])
      ensures forall id: nat :: Matches(View(), edge, Pending, id) ==>
          (id, releases[id].(status := Superseded)) in copies
    {
      copies := [];
      var order := Ascending(releases.Keys);
      for i := 0 to |order|
        invariant forall j :: 0 <= j < |copies| ==> IsCopy(View(), {edge}, copies[j])
        invariant forall k :: 0 <= k < i && Matches(View(), edge, Pending, order[k]) ==>
                    (order[k], releases[order[k]].(status := Superseded)) in copies
      {
        var r := releases[order[i]];
        if r.edge == edge && r.status == Pending {
          copies := copies + [(order[i], r.(status := Superseded))];
        }
      }
    }

    /** Writes release records one by one. */
    method InsertReleases(records: seq<(nat, Release)>)
      modifies this`releases
      ensures releases == InsertAll(old(releases), records)
    {
      for i := 0 to |records|
        invariant releases == InsertAll(old(releases), records[..i])
      {
        assert records[..i + 1][..i] == records[..i];
        releases := releases[records[i].0 := records[i].1];
      }
      assert records[..|records|] == records;
    }

    /** `persist_config_package`. */
    method PersistConfigPackage(edge: string, version: string, body: string, valid: bool, id: nat, saved: bool)
      requires id !in releases
      modifies this
      ensures View() == SavePackage(old(View()), edge, version, body, valid, id, saved)
    {
      if !saved { return; }
      if !valid {
        packages := packages[(edge, version) := body];
        return;
      }
      var records := SupersededCopies(edge);
      var revision := Release(edge, version, None, Pending);
      RevisionRecords(View(), {edge}, map[id := revision], records, [(id, revision)]);
      packages := packages[(edge, version) := body];
      InsertReleases(records + [(id, revision)]);
      issued := issued + {id};
    }

    /** The first pending release of the edge and version in store order. */
    method FindPending(edge: string, version: string) returns (found: Option<nat>)
      ensures found.None? <==> PendingFor(View(), edge, version) == {}
      ensures found.Some? ==> found.value == Smallest(PendingFor(View(), edge, version))
    {
      var order := Ascending(releases.Keys);
      ghost var ids := PendingFor(View(), edge, version);
      for i := 0 to |order|
        invariant forall k :: 0 <= k < i ==> order[k] !in ids
      {
        var r := releases[order[i]];
        if r.edge == edge && r.desired == version && r.status == Pending {
          assert order[i] in ids;
          forall j | j in ids ensures order[i] <= j {
            var k :| 0 <= k < |order| && order[k] == j;
          }
          return Some(order[i]);
        }
      }
      assert forall id :: id in ids ==> id in order;
      return None;
    }

    /** `mark_reported`, for a release that is stored. */
    method MarkRelease(id: nat, version: string) returns (updated: Option<Release>)
      modifies this`releases
      ensures updated.None? <==> id !in old(releases)
      ensures updated.None? ==> releases == old(releases)
      ensures updated.Some? ==>
          releases == MarkReported(old(View()), id, version).releases && updated == Some(releases[id])
    {
      if id !in releases { return None; }
      var r := releases[id];
      r := r.(reported := Some(version));
      r := r.(status := if r.desired == version then Applied else Failed);
      releases := releases[id := r];
      return Some(r);
    }

    /** `persist_config_report`: a report for another version than the one sent is refused. */
    method PersistConfigReport(edge: string, expected: string, desired: string, applied: Option<string>)
      returns (outcome: Outcome)
      modifies this
      ensures outcome == if desired == expected then Done else Refused
      ensures View() == if desired == expected then RecordReport(old(View()), edge, desired, applied) else old(View())
    {
      if desired != expected { return Refused; }
      var found := FindPending(edge, desired);
      if found.None? { return Done; }
      var reported := if applied.Some? then applied.value else "rejected";
      var updated := MarkRelease(found.value, reported);
      if updated.value.status == Applied && edge in nodes {
        nodes := nodes[edge := nodes[edge].(reported := Some(reported))];
      }
      return Done;
    }

    /** `max_by` over the edge's releases with that status. */
    method FindHighest(edge: string, status: ReleaseStatus) returns (best: Option<nat>)
      ensures best == Highest(View(), edge, status)
    {
      best := None;
      var order := Ascending(releases.Keys);
      for i := 0 to |order|
        invariant HighestSoFar(View(), edge, status, order[..i], best)
      {
        var r := releases[order[i]];
        SeesOneMore(View(), edge, status, order[..i], best, order[i]);
        assert order[..i + 1] == order[..i] + [order[i]];
        if r.edge == edge && r.status == status && (best.None? || !Less(r.desired, releases[best.value].desired)) {
          best := Some(order[i]);
        }
      }
      assert order[..|order|] == order;
      SawAll(View(), edge, status, order, best);
    }

    /** `deployable_config_package`: the release that is chosen and its package. */
    method DeployablePackage(edge: string, runtime: Option<string>)
      returns (chosen: Option<nat>, package: Option<string>)
      ensures chosen == Deployable(View(), edge, runtime)
      ensures package == if chosen.Some? then Some(packages[(edge, releases[chosen.value].desired)]) else None
    {
      var pending := FindHighest(edge, Pending);
      var applied := FindHighest(edge, Applied);
      Convergence.HighestSpec(View(), edge, Pending);
      Convergence.HighestSpec(View(), edge, Applied);
      if pending.Some? {
        chosen := pending;
      } else if applied.Some? && runtime != Some(releases[applied.value].desired) {
        chosen := applied;
      } else {
        return None, None;
      }
      var key := (edge, releases[chosen.value].desired);
      if key in packages { package := Some(packages[key]); } else { chosen, package := None, None; }
    }

    /** The records a rollout will write, or nothing if some bound edge gets no valid package. */
    method PlanRollout(product: string, version: string, r: Rollout) returns (plan: Option<Plan>)
      requires TicketsFit(View(), product, r)
      ensures plan.Some? <==> BuildsAll(View(), product, r)
      ensures plan.Some? ==> Planned(View(), version, r, BoundEdges(View(), product), plan.value)
    {
      hide Planned, IsCopy, TicketsFit;
      var records := Plan([], [], []);
      PlansNothing(View(), version, r);
      var rest := set e | e in nodes && nodes[e].product == Some(product);
      ghost var bound, done := BoundEdges(View(), product), {};
      while rest != {}
        invariant rest <= bound && done == bound - rest
        invariant forall e :: e in done ==> e in r.built && r.built[e].Package? && r.built[e].valid
        invariant Planned(View(), version, r, done, records)
        decreases rest
      {
        var e :| e in rest;
        if e !in r.built || r.built[e].NoPackage? { return None; }
        var copies := SupersededCopies(e);
        if !r.built[e].valid { return None; }
        TicketFor(View(), product, r, e);
        var id :| id in r.tickets && r.tickets[id] == e;
        PlansOneMore(View(), version, r, done, records, e, copies, id);
        records := Plan(records.nodes + [(e, nodes[e].(desired := Some(version)))],
                        records.packages + [((e, version), r.built[e].body)],
                        records.releases + copies + [(id, Release(e, version, None, Pending))]);
        rest := rest - {e};
        done := done + {e};
      }
      assert done == bound;
      return Some(records);
    }

    method RegisterEdges(records: seq<(string, Node)>)
      modifies this`nodes
      ensures nodes == InsertAll(old(nodes), records)
    {
      for i := 0 to |records|
        invariant nodes == InsertAll(old(nodes), records[..i])
      {
        assert records[..i + 1][..i] == records[..i];
        nodes := nodes[records[i].0 := records[i].1];
      }
      assert records[..|records|] == records;
    }

    method UpsertPackages(records: seq<(Key, string)>)
      modifies this`packages
      ensures packages == InsertAll(old(packages), records)
    {
      for i := 0 to |records|
        invariant packages == InsertAll(old(packages), records[..i])
      {
        assert records[..i + 1][..i] == records[..i];
        packages := packages[records[i].0 := records[i].1];
      }
      assert records[..|records|] == records;
    }

    /** Makes the version the published latest one and retires the one before it. */
    method UpsertCatalog(product: string, version: string)
      requires product in products && (product, version) in versions
      modifies this`products, this`versions
      ensures products == old(products)[product := Some(version)]
      ensures var target := old(versions)[(product, version)].(status := Published);
              versions == RetireLatest(old(View()), product, version)[(product, version) := target]
    {
      var latest, target := products[product], versions[(product, version)];
      products := products[product := Some(version)];
      if latest.Some? && latest.value != version && (product, latest.value) in versions {
        versions := versions[(product, latest.value) := versions[(product, latest.value)].(status := Retired)];
      }
      versions := versions[(product, version) := target.(status := Published)];
    }

    /** Writes a planned rollout: the product, its versions, the edges, packages and releases. */
    method WriteRollout(product: string, version: string, r: Rollout, plan: Plan)
      requires product in products && (product, version) in versions && BuildsAll(View(), product, r)
      requires TicketsFit(View(), product, r) && releases.Keys <= issued
      requires Planned(View(), version, r, BoundEdges(View(), product), plan)
      modifies this
      ensures View() == RolledOut(old(View()), product, version, r)
    {
      hide TicketsFit, BuildsAll, Planned, RolledOut, InsertAll, BoundEdges, RetireLatest;
      PlanGives(View(), product, version, r, plan);
      RolloutCatalog(View(), product, version, r);
      UpsertCatalog(product, version);
      RegisterEdges(plan.nodes);
      UpsertPackages(plan.packages);
      InsertReleases(plan.releases);
      issued := issued + r.tickets.Keys;
    }

    /** `transition_product_version`: everything is prepared before anything is written, so that a
        failure on any edge, or of the database, leaves the store as it was. */
    method TransitionProductVersion(product: string, version: string, rollback: bool, r: Rollout)
      returns (outcome: Outcome)
      requires TicketsFit(View(), product, r) && releases.Keys <= issued
      modifies this
      ensures View() == Transition(old(View()), product, version, rollback, r)
      ensures outcome == Done <==>
                CanTransition(old(View()), product, version, rollback, r) || IsActive(old(View()), product, version)
    {
      if product !in products || (product, version) !in versions { return Refused; }
      var latest, target := products[product], versions[(product, version)];
      if latest == Some(version) && target.status == Published { return Done; }
      if rollback {
        if target.status == Drafted { return Refused; }
      } else if target.status != Drafted {
        return Refused;
      }
      if !r.publishable { return Refused; }
      var plan := PlanRollout(product, version, r);
      if plan.None? || !r.saved { return Refused; }
      hide TicketsFit, BuildsAll, Planned, RolledOut;
      WriteRollout(product, version, r, plan.value);
      return Done;
    }
  }

  /** `best` is the highest match among the releases seen so far, the last one among equals. */
  ghost predicate HighestSoFar(w: World, edge: string, status: ReleaseStatus, seen: seq<nat>, best: Option<nat>) {
    && (best.None? ==> forall j :: j in seen ==> !Matches(w, edge, status, j))
    && (best.Some? ==> best.value in seen && Matches(w, edge, status, best.value))
    && (best.Some? ==> forall j :: j in seen && Matches(w, edge, status, j) ==> NotAbove(w, j, best.value))
  }

  predicate NotAbove(w: World, j: nat, id: nat)
    requires j in w.releases && id in w.releases
  {
    var x, y := w.releases[id].desired, w.releases[j].desired;
    !Less(x, y) && (y == x ==> j <= id)
  }

  lemma SeesOneMore(w: World, edge: string, status: ReleaseStatus, seen: seq<nat>, best: Option<nat>, id: nat)
    requires HighestSoFar(w, edge, status, seen, best) && id in w.releases && forall j :: j in seen ==> j < id
    ensures HighestSoFar(w, edge, status, seen + [id],
                         if Matches(w, edge, status, id) &&
                           (best.None? || !Less(w.releases[id].desired, w.releases[best.value].desired))
                         then Some(id) else best)
  {
    LessIrreflexive(w.releases[id].desired);
    if Matches(w, edge, status, id) && best.Some? {
      var x, y := w.releases[best.value].desired, w.releases[id].desired;
      if Less(y, x) {
        LessAsymmetric(y, x);
      } else {
        LessTotal(x, y);
        forall j | j in seen && Matches(w, edge, status, j) ensures NotAbove(w, j, id) {
          assert NotAbove(w, j, best.value);
          if Less(x, y) && Less(y, w.releases[j].desired) { LessTransitive(x, y, w.releases[j].desired); }
        }
      }
    }
  }

  lemma SawAll(w: World, edge: string, status: ReleaseStatus, seen: seq<nat>, best: Option<nat>)
    requires HighestSoFar(w, edge, status, seen, best) && forall id :: id in w.releases ==> id in seen
    ensures best == Highest(w, edge, status)
  {
    if best.Some? {
      forall j: nat | Matches(w, edge, status, j) ensures NotAbove(w, j, best.value) {}
      Convergence.HighestIs(w, edge, status, best.value);
    } else {
      Convergence.HighestSpec(w, edge, status);
    }
  }

  /** A superseded copy of a release that was pending on one of `edges`. */
  ghost predicate IsCopy(w: World, edges: set<string>, copy: (nat, Release)) {
    && copy.0 in w.releases && w.releases[copy.0].status == Pending && w.releases[copy.0].edge in edges
    && copy.1 == w.releases[copy.0].(status := Superseded)
  }

  /** Superseded copies of all that was pending on `edges`, with new releases, write the revision. */
  lemma RevisionRecords(w: World, edges: set<string>, batch: map<nat, Release>, copies: seq<(nat, Release)>,
                        added: seq<(nat, Release)>)
    requires batch.Keys !! w.releases.Keys
    requires forall i :: 0 <= i < |copies| ==> IsCopy(w, edges, copies[i])
    requires forall id :: id in w.releases && w.releases[id].status == Pending && w.releases[id].edge in edges ==>
               (id, w.releases[id].(status := Superseded)) in copies
    requires Sound(added, batch) && forall id :: id in batch ==> (id, batch[id]) in added
    ensures InsertAll(w.releases, copies + added) == Supersede(w.releases, edges) + batch
  {
    var target, entries := Supersede(w.releases, edges) + batch, copies + added;
    assert Sound(entries, target);
    forall id | id in target ensures (id in w.releases && w.releases[id] == target[id]) || (id, target[id]) in entries {
      if id in batch { assert (id, batch[id]) in added; }
    }
    InsertAllGives(w.releases, entries, target);
  }

  // ----- a rollout's records

  ghost predicate PlannedNodes(w: World, version: string, done: set<string>, records: seq<(string, Node)>) {
    && (forall i :: 0 <= i < |records| ==> records[i].0 in done && records[i].0 in w.nodes &&
                                           records[i].1 == w.nodes[records[i].0].(desired := Some(version)))
    && (forall e :: e in done && e in w.nodes ==> (e, w.nodes[e].(desired := Some(version))) in records)
  }

  ghost predicate PlannedPackages(version: string, r: Rollout, done: set<string>, records: seq<(Key, string)>) {
    && (forall i :: 0 <= i < |records| ==> IsPlannedPackage(version, r, done, records[i]))
    && (forall e :: e in done && e in r.built && r.built[e].Package? ==> ((e, version), r.built[e].body) in records)
  }

  ghost predicate IsPlannedPackage(version: string, r: Rollout, done: set<string>, record: (Key, string)) {
    var e := record.0.0;
    record.0.1 == version && e in done && e in r.built && r.built[e].Package? && record.1 == r.built[e].body
  }

  ghost predicate IsTicket(version: string, r: Rollout, done: set<string>, record: (nat, Release)) {
    record.0 in r.tickets && r.tickets[record.0] in done &&
      record.1 == Release(r.tickets[record.0], version, None, Pending)
  }

  ghost predicate PlannedReleases(w: World, version: string, r: Rollout, done: set<string>,
                                  records: seq<(nat, Release)>) {
    && (forall i :: 0 <= i < |records| ==> IsCopy(w, done, records[i]) || IsTicket(version, r, done, records[i]))
    && (forall id :: id in w.releases && w.releases[id].status == Pending && w.releases[id].edge in done ==>
          (id, w.releases[id].(status := Superseded)) in records)
    && (forall id :: id in r.tickets && r.tickets[id] in done ==>
         (id, Release(r.tickets[id], version, None, Pending)) in records)
  }

  ghost predicate Planned(w: World, version: string, r: Rollout, done: set<string>, plan: Plan) {
    && PlannedNodes(w, version, done, plan.nodes)
    && PlannedPackages(version, r, done, plan.packages)
    && PlannedReleases(w, version, r, done, plan.releases)
  }

  lemma ReleasesOneMore(w: World, version: string, r: Rollout, done: set<string>, records: seq<(nat, Release)>,
                        e: string,
                        copies: seq<(nat, Release)>, id: nat)
    requires PlannedReleases(w, version, r, done, records) && id in r.tickets && r.tickets[id] == e
    requires forall i, j :: i in r.tickets && j in r.tickets && r.tickets[i] == r.tickets[j] ==> i == j
    requires forall i :: 0 <= i < |copies| ==> IsCopy(w, {e}, copies[i])
    requires forall id: nat :: Matches(w, e, Pending, id) ==> (id, w.releases[id].(status := Superseded)) in copies
    ensures PlannedReleases(w, version, r, done + {e}, records + copies + [(id, Release(e, version, None, Pending))])
  {
    var all := records + copies + [(id, Release(e, version, None, Pending))];
    assert forall c :: c in records || c in copies ==> c in all;
    assert (id, Release(e, version, None, Pending)) == all[|all| - 1];
    forall i | 0 <= i < |all| ensures IsCopy(w, done + {e}, all[i]) || IsTicket(version, r, done + {e}, all[i]) {
      if i < |records| {
        assert all[i] == records[i];
      } else if i < |records| + |copies| {
        assert all[i] == copies[i - |records|];
      }
    }
    forall k | k in w.releases && w.releases[k].status == Pending && w.releases[k].edge in done + {e}
      ensures (k, w.releases[k].(status := Superseded)) in all
    {
      if w.releases[k].edge == e { assert Matches(w, e, Pending, k); }
    }
  }

  lemma PlansNothing(w: World, version: string, r: Rollout)
    ensures Planned(w, version, r, {}, Plan([], [], []))
  {
  }

  lemma TicketFor(w: World, product: string, r: Rollout, e: string)
    requires TicketsFit(w, product, r) && e in BoundEdges(w, product)
    ensures exists id :: id in r.tickets && r.tickets[id] == e
    ensures forall i, j :: i in r.tickets && j in r.tickets && r.tickets[i] == r.tickets[j] ==> i == j
  {
  }

  lemma PlansOneMore(w: World, version: string, r: Rollout, done: set<string>, plan: Plan, e: string,
                     copies: seq<(nat, Release)>, id: nat)
    requires Planned(w, version, r, done, plan) && id in r.tickets && r.tickets[id] == e
    requires e in w.nodes && e in r.built && r.built[e].Package?
    requires forall i, j :: i in r.tickets && j in r.tickets && r.tickets[i] == r.tickets[j] ==> i == j
    requires forall i :: 0 <= i < |copies| ==> IsCopy(w, {e}, copies[i])
    requires forall id: nat :: Matches(w, e, Pending, id) ==> (id, w.releases[id].(status := Superseded)) in copies
    ensures Planned(w, version, r, done + {e},
                    Plan(plan.nodes + [(e, w.nodes[e].(desired := Some(version)))],
                         plan.packages + [((e, version), r.built[e].body)],
                         plan.releases + copies + [(id, Release(e, version, None, Pending))]))
  {
    ReleasesOneMore(w, version, r, done, plan.releases, e, copies, id);
    hide PlannedReleases;
    var nodes := plan.nodes + [(e, w.nodes[e].(desired := Some(version)))];
    var packages := plan.packages + [((e, version), r.built[e].body)];
    assert nodes[|nodes| - 1].0 == e && packages[|packages| - 1].0 == (e, version);
    assert forall n :: n in plan.nodes ==> n in nodes;
    assert forall k :: k in plan.packages ==> k in packages;
    assert PlannedNodes(w, version, done + {e}, nodes);
    assert PlannedPackages(version, r, done + {e}, packages);
  }

  /** Writing the records of all bound edges is the rollout. */
  lemma PlanGives(w: World, product: string, version: string, r: Rollout, plan: Plan)
    requires product in w.products && (product, version) in w.versions && BuildsAll(w, product, r)
    requires TicketsFit(w, product, r) && w.releases.Keys <= w.issued
    requires Planned(w, version, r, BoundEdges(w, product), plan)
    ensures var w' := RolledOut(w, product, version, r);
            && InsertAll(w.nodes, plan.nodes) == w'.nodes
            && InsertAll(w.packages, plan.packages) == w'.packages
            && InsertAll(w.releases, plan.releases) == w'.releases
  {
    hide RolledOut, Planned;
    NodesGive(w, product, version, r, plan);
    PackagesGive(w, product, version, r, plan);
    ReleasesGive(w, product, version, r, plan);
  }

  lemma RolloutCatalog(w: World, product: string, version: string, r: Rollout)
    requires product in w.products && (product, version) in w.versions && BuildsAll(w, product, r)
    ensures var w' := RolledOut(w, product, version, r);
            && w'.versions ==
                 RetireLatest(w, product, version)
                   [(product, version) := w.versions[(product, version)].(status := Published)]
            && w'.products == w.products[product := Some(version)] && w'.issued == w.issued + r.tickets.Keys
            && w'.changes == w.changes && w'.flights == w.flights
  {
  }

  lemma NodesGive(w: World, product: string, version: string, r: Rollout, plan: Plan)
    requires product in w.products && (product, version) in w.versions && BuildsAll(w, product, r)
    requires Planned(w, version, r, BoundEdges(w, product), plan)
    ensures InsertAll(w.nodes, plan.nodes) == RolledOut(w, product, version, r).nodes
  {
    hide PlannedReleases, PlannedPackages;
    var target := RolledOut(w, product, version, r).nodes;
    InsertAllGives(w.nodes, plan.nodes, target);
  }

  lemma PackagesGive(w: World, product: string, version: string, r: Rollout, plan: Plan)
    requires product in w.products && (product, version) in w.versions && BuildsAll(w, product, r)
    requires Planned(w, version, r, BoundEdges(w, product), plan)
    ensures InsertAll(w.packages, plan.packages) == RolledOut(w, product, version, r).packages
  {
    hide PlannedReleases, PlannedNodes;
    var target := RolledOut(w, product, version, r).packages;
    forall k | k in target ensures (k in w.packages && w.packages[k] == target[k]) || (k, target[k]) in plan.packages {
      if k.1 == version && k.0 in BoundEdges(w, product) {
        assert ((k.0, version), r.built[k.0].body) in plan.packages;
      }
    }
    InsertAllGives(w.packages, plan.packages, target);
  }

  lemma ReleasesGive(w: World, product: string, version: string, r: Rollout, plan: Plan)
    requires product in w.products && (product, version) in w.versions && BuildsAll(w, product, r)
    requires TicketsFit(w, product, r) && w.releases.Keys <= w.issued
    requires Planned(w, version, r, BoundEdges(w, product), plan)
    ensures InsertAll(w.releases, plan.releases) == RolledOut(w, product, version, r).releases
  {
    hide PlannedPackages, PlannedNodes, BoundEdges;
    var target := RolledOut(w, product, version, r).releases;
    InsertAllGives(w.releases, plan.releases, target);
  }
}
