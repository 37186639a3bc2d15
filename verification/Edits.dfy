/** Configuration edits as steps of the store: what the version laws mean for releases. */
module Edits {
  import opened Text
  import opened Versions
  import opened Control
  import opened Releases
  import opened ReleaseRuns
  import opened Convergence

  // ----- one edit

  lemma StoredAfter(w: World, edge: string, version: string, body: string, valid: bool, id: nat, saved: bool)
    ensures var w1 := w.(packages := w.packages[(edge, version) := body]);
            StoredVersions(SavePackage(w1, edge, version, body, valid, id, saved), edge) ==
              StoredVersions(w, edge) + {version}
  {
    var w1 := w.(packages := w.packages[(edge, version) := body]);
    var w2 := SavePackage(w1, edge, version, body, valid, id, saved);
    assert w2.packages.Keys == w.packages.Keys + {(edge, version)};
    forall v | v in StoredVersions(w, edge) + {version} ensures v in StoredVersions(w2, edge) {
      assert (edge, v) in w2.packages;
    }
  }

  lemma NextEdit(w: World, edge: string, body: string, valid: bool, id: nat, saved: bool)
    ensures Next(w, Edit(edge, body, valid, id, saved)) == EditPackage(w, edge, body, valid, id, saved)
  {
    hide EditPackage;
  }

  /** MAIN: the edit step of the store adds the next version of the latest package to the stored
      versions, whether or not the database took it. */
  lemma EditStores(w: World, edge: string, body: string, valid: bool, id: nat, saved: bool, latest: string)
    requires IsLatest(StoredVersions(w, edge), latest)
    ensures StoredVersions(Next(w, Edit(edge, body, valid, id, saved)), edge) ==
            AfterEdit(StoredVersions(w, edge), latest)
  {
    hide EditPackage, SavePackage, StoredVersions, Next, NextVersion;
    NextEdit(w, edge, body, valid, id, saved);
    var next := EditSaves(w, edge, body, valid, id, saved);
    if next.Some? { StoredAfter(w, edge, next.value, body, valid, id, saved); }
  }

  /** The step edits the edge's latest package, and its version advances. */
  ghost predicate AdvancingEdit(w: World, s: Step, edge: string) {
    s.Edit? && s.edge == edge && exists v :: IsLatest(StoredVersions(w, edge), v) && Advances(v)
  }

  lemma SaveReleases(w: World, edge: string, version: string, body: string, valid: bool, id: nat, saved: bool, j: nat)
    requires j !in w.releases && j in SavePackage(w, edge, version, body, valid, id, saved).releases
    ensures SavePackage(w, edge, version, body, valid, id, saved).releases[j].desired == version
  {
  }

  lemma EditReleases(w: World, s: Step, edge: string, id: nat, v: string)
    requires ReleasesOk(w) && s.Edit? && s.edge == edge && IsLatest(StoredVersions(w, edge), v)
    requires id in Next(w, s).releases && id !in w.releases
    ensures NextVersion(v) == Some(Next(w, s).releases[id].desired)
  {
    hide EditPackage, SavePackage, StoredVersions, Next, NextVersion, ReleasesOk, IsLatest;
    NextEdit(w, edge, s.body, s.valid, s.id, s.saved);
    var next := EditSaves(w, edge, s.body, s.valid, s.id, s.saved);
    if next.Some? {
      SaveReleases(w.(packages := w.packages[(edge, next.value) := s.body]), edge, next.value, s.body, s.valid, s.id,
                   s.saved, id);
    }
  }

  /** The releases of an edge have their versions among the stored ones. */
  lemma ReleaseIsStored(w: World, edge: string, j: nat)
    requires ReleasesOk(w) && j in w.releases && w.releases[j].edge == edge
    ensures w.releases[j].desired in StoredVersions(w, edge)
  {
    assert (edge, w.releases[j].desired) in w.packages;
  }

  lemma AdvancingEditGrows(w: World, s: Step, edge: string)
    requires ReleasesOk(w) && AdvancingEdit(w, s, edge)
    ensures GrowsAt(w, Next(w, s), edge)
  {
    hide Next, ReleasesOk, StoredVersions, NextVersion, Advances;
    var v :| IsLatest(StoredVersions(w, edge), v) && Advances(v);
    var w' := Next(w, s);
    forall id, j | id in w'.releases && id !in w.releases && w'.releases[id].edge == edge && j in w.releases &&
      w.releases[j].edge == edge
      ensures Less(w.releases[j].desired, w'.releases[id].desired)
    {
      EditReleases(w, s, edge, id, v);
      NextVersionExact(v);
      ReleaseIsStored(w, edge, j);
      BelowLatest(w.releases[j].desired, v, w'.releases[id].desired);
    }
  }

  lemma BelowLatest(x: string, v: string, next: string)
    requires !Less(v, x) && Less(v, next)
    ensures Less(x, next)
  {
    LessTotal(v, x);
    if Less(x, v) { LessTransitive(x, v, next); }
  }

  // ----- edited edges

  /** The edge's releases come from advancing edits, apart from the first one. */
  ghost predicate EditedOnly(states: seq<World>, steps: seq<Step>, edge: string)
    requires |states| == |steps| + 1
  {
    forall i :: 0 <= i < |steps| ==>
      AdvancingEdit(states[i], steps[i], edge) || NoReleaseAdded(states[i], states[i + 1], edge) ||
        NoReleases(states[i], edge)
  }

  ghost predicate NoReleaseAdded(w: World, w': World, edge: string) {
    forall id :: id in w'.releases && w'.releases[id].edge == edge ==> id in w.releases
  }

  ghost predicate NoReleases(w: World, edge: string) {
    forall id :: id in w.releases ==> w.releases[id].edge != edge
  }

  /** MAIN: an edge whose releases come from edits of advancing versions has growing versions, so
      all that is proved about reconnecting runtimes holds for it. */
  lemma EditedEdgesGrow(states: seq<World>, steps: seq<Step>, edge: string)
    requires IsRun(states, steps) && EditedOnly(states, steps, edge)
    ensures Grows(states, edge)
  {
    hide Next, Allowed, ReleasesOk, AdvancingEdit, GrowsAt, NoReleaseAdded, NoReleases;
    forall i | 0 <= i < |states| - 1 ensures GrowsAt(states[i], states[i + 1], edge) {
      RunsKeepReleases(states, steps, i);
      if AdvancingEdit(states[i], steps[i], edge) {
        AdvancingEditGrows(states[i], steps[i], edge);
      } else {
        NothingToCompare(states[i], states[i + 1], edge);
      }
    }
  }

  lemma NothingToCompare(w: World, w': World, edge: string)
    requires NoReleaseAdded(w, w', edge) || NoReleases(w, edge)
    ensures GrowsAt(w, w', edge)
  {
  }

  // ----- many edits in a row

  ghost predicate EditPath(states: seq<World>, steps: seq<Step>, edge: string) {
    && |states| == |steps| + 1
    && forall i :: 0 <= i < |steps| ==>
         steps[i].Edit? && steps[i].edge == edge && states[i + 1] == Next(states[i], steps[i])
  }

  /** The stored versions of the edge in each state, with the latest. */
  ghost predicate Shelves(states: seq<World>, edge: string, run: seq<Shelf>) {
    && |run| == |states|
    && forall i :: 0 <= i < |states| ==>
         run[i].versions == StoredVersions(states[i], edge) && IsLatest(run[i].versions, run[i].latest)
  }

  /** Consecutive edit steps are an edit run, so their versions are numbered and stall as proved. */
  lemma EditStepsAreEditRun(states: seq<World>, steps: seq<Step>, edge: string, run: seq<Shelf>)
    requires EditPath(states, steps, edge) && Shelves(states, edge, run)
    requires forall i :: 0 <= i < |run| - 1 ==> NextVersion(run[i].latest).Some?
    ensures IsEditRun(run)
  {
    hide Next, StoredVersions, IsLatest, NextVersion;
    forall i | 0 <= i < |run| - 1 ensures run[i + 1].versions == AfterEdit(run[i].versions, run[i].latest) {
      var s := steps[i];
      EditStores(states[i], edge, s.body, s.valid, s.id, s.saved, run[i].latest);
    }
  }
}
