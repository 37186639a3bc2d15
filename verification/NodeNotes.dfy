/** What the registry holds about an edge, over whole runs: its product, the version it should run
    and the version it last reported as applied. */
module NodeNotes {
  import opened Text
  import opened Control
  import opened Releases
  import opened Packages
  import G = Governance

  function NodeOf(w: World, edge: string): Option<Node> {
    if edge in w.nodes then Some(w.nodes[edge]) else None
  }

  /** The version a report step names. */
  function Named(s: Step): string
    requires s.Receive? || s.HttpReport?
  {
    if s.Receive? then Answer(s.applied) else s.reported
  }

  /** The step reports a pending release of the edge as applied, under the version it wanted. */
  ghost predicate Applies(w: World, s: Step, edge: string) {
    && (s.Receive? || s.HttpReport?)
    && exists id :: Reports(w, s, id, Named(s)) && w.releases[id].edge == edge && w.releases[id].desired == Named(s)
  }

  /** The version a rollout step brings to the edge. */
  ghost function Brings(w: World, s: Step, edge: string): Option<string> {
    match s
    case CreateVersion(p, v, _, r) =>
      if p in w.products && (p, v) !in w.versions && Reaches(w, p, r, edge) then Some(v) else None
    case SaveVersion(p, v, _, r) =>
      if p in w.products && IsDraft(w, (p, v)) && Reaches(w, p, r, edge) then Some(v) else None
    case Publish(p, v, r) => if CanTransition(w, p, v, false, r) && Bound(w, p, edge) then Some(v) else None
    case Rollback(p, v, r) => if CanTransition(w, p, v, true, r) && Bound(w, p, edge) then Some(v) else None
    case ApplyChangeSet(id, sound, r, db) =>
      if GoesThrough(w, id, sound, r, db) && Reaches(w, w.changes[id].product, r, edge)
      then Some(w.changes[id].target) else None
    case _ => None
  }

  /** What the registry holds about the edge after the step. */
  ghost function NodeAfter(w: World, s: Step, edge: string): Option<Node> {
    var node := NodeOf(w, edge);
    if s == DeleteEdge(edge) then None
    else if s == Connect(edge) then (if node.None? then Some(Node(None, None, None)) else node)
    else if s.CreateEdge? && s.edge == edge && s.build.Package? && Current(w, s.product).Some? then
      Some(Node(Some(s.product), Current(w, s.product), None))
    else if node.None? then None
    else if s.BindEdge? && s.edge == edge && s.build.Package? && BindsTo(w, s).Some? then
      Some(node.value.(product := Some(s.product), desired := BindsTo(w, s)))
    else if Applies(w, s, edge) then Some(node.value.(reported := Some(Named(s))))
    else if Brings(w, s, edge).Some? then Some(node.value.(desired := Brings(w, s, edge)))
    else node
  }

  /** The published version the step binds the edge to: the one requested, or the product's latest. */
  function BindsTo(w: World, s: Step): Option<string>
    requires s.BindEdge?
  {
    if s.product !in w.products then None
    else
      var v := if s.requested.Some? then s.requested else w.products[s.product];
      if v.Some? && IsOn(w, s.product, v.value) then v else None
  }

  // ----- reports

  lemma ReportNotes(w: World, s: Step, edge: string)
    requires s.Receive? || s.HttpReport?
    ensures NodeOf(Next(w, s), edge) ==
              if edge in w.nodes && Applies(w, s, edge) then Some(w.nodes[edge].(reported := Some(Named(s))))
              else NodeOf(w, edge)
  {
    hide Next;
    if Applies(w, s, edge) {
      var wanted :| Reports(w, s, wanted, Named(s)) && w.releases[wanted].edge == edge &&
                    w.releases[wanted].desired == Named(s);
      var j := ReportFinds(w, s, wanted);
    } else {
      var id, version := ReportStep(w, s);
      if id.Some? { assert Reports(w, s, id.value, version) && version == Named(s); }
    }
  }

  /** A report that fits a release is not lost. */
  lemma ReportFinds(w: World, s: Step, id: nat) returns (j: nat)
    requires s.Receive? || s.HttpReport?
    requires Reports(w, s, id, Named(s)) && w.releases[id].desired == Named(s)
    ensures Reports(w, s, j, Named(s)) && w.releases[j].desired == Named(s)
    ensures w.releases[j].edge == w.releases[id].edge
    ensures Next(w, s) == MarkReported(WithoutFlight(w, s), j, Named(s))
  {
    var edge := w.releases[id].edge;
    var ids := PendingFor(w, edge, Named(s));
    assert id in ids;
    j := Smallest(ids);
    hide MarkReported, IsSmallest;
    if s.Receive? { assert PendingFor(WithoutFlight(w, s), edge, s.desired) == ids; }
  }

  // ----- rollouts

  function WithDesired(node: Option<Node>, version: Option<string>): Option<Node> {
    if node.Some? && version.Some? then Some(node.value.(desired := version)) else node
  }

  lemma TransitionBrings(w: World, p: string, v: string, rollback: bool, r: Rollout, edge: string)
    ensures NodeOf(Transition(w, p, v, rollback, r), edge) ==
              WithDesired(NodeOf(w, edge),
                          if CanTransition(w, p, v, rollback, r) && Bound(w, p, edge) then Some(v) else None)
  {
    hide Supersede, RetireLatest, BoundEdges;
  }

  lemma PutBrings(w: World, p: string, v: string, body: string, r: Rollout, edge: string)
    requires p in w.products && ((p, v) !in w.versions || IsDraft(w, (p, v)))
    ensures NodeOf(PutVersion(w, p, v, body, r), edge) ==
              WithDesired(NodeOf(w, edge), if Reaches(w, p, r, edge) then Some(v) else None)
  {
    hide Transition;
    var w1 := w.(versions := w.versions[(p, v) := ProductVersion(Drafted, body)]);
    TransitionBrings(w1, p, v, false, r, edge);
    DraftCan(w, w1, p, v, r);
  }

  lemma ApplyBrings(w: World, s: Step, edge: string)
    requires s.ApplyChangeSet?
    ensures NodeOf(Next(w, s), edge) == WithDesired(NodeOf(w, edge), Brings(w, s, edge))
  {
    hide ApplyChange, PreparedChange, Transition, ChangeIsValid, CanTransition, BuildsAll;
    var id := s.changeId;
    if GoesThrough(w, id, s.sound, s.rollout, s.db) {
      var c := w.changes[id];
      ApplyPublishes(w, id, s.sound, s.rollout, s.db);
      PreparedMoves(w, id);
      TransitionBrings(PreparedChange(w, id), c.product, c.target, false, s.rollout, edge);
      ValidHasProduct(w, c, s.sound, s.rollout);
      DraftCan(w, PreparedChange(w, id), c.product, c.target, s.rollout);
    } else {
      ApplyStops(w, id, s.sound, s.rollout, s.db);
    }
  }

  predicate IsRollout(s: Step) {
    s.CreateVersion? || s.SaveVersion? || s.Publish? || s.Rollback? || s.ApplyChangeSet?
  }

  lemma RolloutBrings(w: World, s: Step, edge: string)
    requires IsRollout(s)
    ensures NodeOf(Next(w, s), edge) == WithDesired(NodeOf(w, edge), Brings(w, s, edge))
  {
    hide Transition, PutVersion, CanTransition, Reaches, NodeOf, Bound, ApplyChange;
    match s {
      case Publish(p, v, r) => TransitionBrings(w, p, v, false, r, edge);
      case Rollback(p, v, r) => TransitionBrings(w, p, v, true, r, edge);
      case CreateVersion(p, v, body, r) =>
        if p in w.products && (p, v) !in w.versions { PutBrings(w, p, v, body, r, edge); }
      case SaveVersion(p, v, body, r) =>
        if p in w.products && IsDraft(w, (p, v)) { PutBrings(w, p, v, body, r, edge); }
      case ApplyChangeSet(_, _, _, _) => ApplyBrings(w, s, edge);
    }
  }

  // ----- edges that come, are bound and go

  lemma BindNotes(w: World, e: string, node: Node, v: string, build: Built, id: nat, saved: bool, edge: string)
    ensures NodeOf(BindNode(w, e, node, v, build, id, saved), edge) ==
              if e == edge && build.Package? then Some(node) else NodeOf(w, edge)
  {
  }

  lemma CreateNotes(w: World, s: Step, edge: string)
    requires s.CreateEdge?
    ensures NodeOf(Next(w, s), edge) == NodeAfter(w, s, edge)
  {
    assert !Applies(w, s, edge) && Brings(w, s, edge).None?;
    hide BindNode, Applies, Brings;
    if Current(w, s.product).Some? {
      var v := w.products[s.product].value;
      BindNotes(w, s.edge, Node(Some(s.product), Some(v), None), v, s.build, s.id, s.saved, edge);
    }
  }

  lemma RebindNotes(w: World, s: Step, edge: string)
    requires s.BindEdge?
    ensures NodeOf(Next(w, s), edge) == NodeAfter(w, s, edge)
  {
    assert !Applies(w, s, edge) && Brings(w, s, edge).None?;
    hide BindNode, Applies, Brings;
    if s.edge in w.nodes && BindsTo(w, s).Some? {
      var v := BindsTo(w, s);
      var node := w.nodes[s.edge].(product := Some(s.product), desired := v);
      BindNotes(w, s.edge, node, v.value, s.build, s.id, s.saved, edge);
    }
  }

  lemma RemovalNotes(w: World, e: string, edge: string)
    ensures NodeOf(RemoveEdge(w, e), edge) == if e == edge then None else NodeOf(w, edge)
  {
  }

  lemma GreetNotes(w: World, e: string, edge: string)
    ensures NodeOf(Greet(w, e), edge) ==
              if e == edge && edge !in w.nodes then Some(Node(None, None, None)) else NodeOf(w, edge)
  {
  }

  lemma ComingAndGoingNotes(w: World, s: Step, edge: string)
    requires s.DeleteEdge? || s.Connect?
    ensures NodeOf(Next(w, s), edge) == NodeAfter(w, s, edge)
  {
    assert !Applies(w, s, edge) && Brings(w, s, edge).None?;
    hide Applies, Brings, RemoveEdge, Greet;
    if s.DeleteEdge? { RemovalNotes(w, s.edge, edge); } else { GreetNotes(w, s.edge, edge); }
  }

  lemma EditNotesNothing(w: World, e: string, body: string, valid: bool, id: nat, saved: bool)
    ensures EditPackage(w, e, body, valid, id, saved).nodes == w.nodes
  {
    hide Supersede, StoredVersions;
  }

  lemma OthersNoteNothing(w: World, s: Step)
    requires !IsRollout(s) && !s.CreateEdge? && !s.BindEdge? && !s.DeleteEdge? && !s.Connect?
    requires !s.Receive? && !s.HttpReport?
    ensures Next(w, s).nodes == w.nodes
  {
    hide Deployable, StoredVersions, BoundEdges, Supersede, G.Run, EditPackage;
    if s.Edit? { EditNotesNothing(w, s.edge, s.body, s.valid, s.id, s.saved); }
  }

  /** MAIN: what the registry holds about an edge after a step. Its product and the version it should
      run move only when the edge is created or bound, or a rollout of its product reaches it; the
      version it reported moves only when a report says that a pending release of the edge was
      applied, to the version of that release; and it is forgotten exactly when it is deleted. */
  lemma NodesMove(w: World, s: Step, edge: string)
    ensures NodeOf(Next(w, s), edge) == NodeAfter(w, s, edge)
  {
    hide Next, NodeOf, Reaches, CanTransition;
    if s.CreateEdge? {
      CreateNotes(w, s, edge);
    } else if s.BindEdge? {
      RebindNotes(w, s, edge);
    } else if s.DeleteEdge? || s.Connect? {
      ComingAndGoingNotes(w, s, edge);
    } else if s.Receive? || s.HttpReport? {
      ReportMeans(w, s, edge);
    } else if IsRollout(s) {
      RolloutMeans(w, s, edge);
    } else {
      OthersNoteNothing(w, s);
      SameNode(w, Next(w, s), edge);
    }
  }

  lemma ReportMeans(w: World, s: Step, edge: string)
    requires s.Receive? || s.HttpReport?
    ensures NodeOf(Next(w, s), edge) == NodeAfter(w, s, edge)
  {
    hide Next, Applies;
    ReportNotes(w, s, edge);
  }

  lemma RolloutMeans(w: World, s: Step, edge: string)
    requires IsRollout(s)
    ensures NodeOf(Next(w, s), edge) == NodeAfter(w, s, edge)
  {
    hide Next, Brings;
    RolloutBrings(w, s, edge);
  }

  lemma SameNode(w: World, w': World, edge: string)
    requires w'.nodes == w.nodes
    ensures NodeOf(w', edge) == NodeOf(w, edge)
  {
  }

  /** A version noted as reported comes from the step, or was noted before. */
  lemma NoteMoves(w: World, s: Step, edge: string)
    requires NodeAfter(w, s, edge).Some? && NodeAfter(w, s, edge).value.reported.Some?
    ensures var note := NodeAfter(w, s, edge).value.reported;
            if Applies(w, s, edge) then note == Some(Named(s))
            else edge in w.nodes && note == w.nodes[edge].reported
  {
    assert Applies(w, s, edge) ==> s.Receive? || s.HttpReport?;
    hide Applies, Brings, Current, BindsTo, Named;
  }

  /** MAIN: in every run a version noted as reported by an edge was reported earlier, for a release of
      that edge that wanted it and was pending then. */
  lemma {:induction false} NotesAreReports(states: seq<World>, steps: seq<Step>, edge: string, i: nat) returns (k: nat)
    requires IsRun(states, steps) && i < |states| && edge in states[i].nodes && states[i].nodes[edge].reported.Some?
    ensures k < i && Applies(states[k], steps[k], edge) && Some(Named(steps[k])) == states[i].nodes[edge].reported
  {
    hide Next, Allowed, Applies, Named;
    assert i > 0;
    k := i - 1;
    assert states[k + 1] == Next(states[k], steps[k]);
    NodesMove(states[k], steps[k], edge);
    NoteMoves(states[k], steps[k], edge);
    if !Applies(states[k], steps[k], edge) { k := NotesAreReports(states, steps, edge, k); }
  }
}
