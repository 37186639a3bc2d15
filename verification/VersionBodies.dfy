/** Which body a product version holds, over whole runs: it changes only while the version is a
    draft. */
module VersionBodies {
  import opened Text
  import opened Control
  import opened Releases
  import opened Catalog

  function BodyOf(w: World, k: Key): Option<string> {
    if k in w.versions then Some(w.versions[k].body) else None
  }

  /** Published, now or earlier. */
  predicate IsSettled(w: World, k: Key) {
    k in w.versions && w.versions[k].status != Drafted
  }

  /** The body that the step's request stores as the version, if it does. */
  function Puts(w: World, s: Step, k: Key): Option<string> {
    match s
    case CreateVersion(p, v, body, _) =>
      if k == (p, v) && p in w.products && k !in w.versions then Some(body) else None
    case SaveVersion(p, v, body, _) =>
      if k == (p, v) && p in w.products && IsDraft(w, k) then Some(body) else None
    case ApplyChangeSet(id, sound, r, db) =>
      if GoesThrough(w, id, sound, r, db) && k == (w.changes[id].product, w.changes[id].target)
      then Some(w.changes[id].body) else None
    case _ => None
  }

  /** The version is a draft that is deleted, or its product is deleted, which no edge is bound to. */
  predicate Drops(w: World, s: Step, k: Key) {
    || (s == DeleteVersion(k.0, k.1) && IsDraft(w, k))
    || (s == DeleteProduct(k.0) && k.0 in w.products && forall e :: e in w.nodes ==> !Bound(w, k.0, e))
  }

  function OrElse(first: Option<string>, second: Option<string>): Option<string> {
    if first.Some? then first else second
  }

  lemma TransitionKeepsBody(w: World, p: string, v: string, rollback: bool, r: Rollout, k: Key)
    ensures BodyOf(Transition(w, p, v, rollback, r), k) == BodyOf(w, k)
    ensures IsSettled(w, k) ==> IsSettled(Transition(w, p, v, rollback, r), k)
  {
    hide Supersede, BoundEdges, BuildsAll;
  }

  lemma PutMovesBody(w: World, p: string, v: string, body: string, r: Rollout, k: Key)
    ensures BodyOf(PutVersion(w, p, v, body, r), k) == if k == (p, v) then Some(body) else BodyOf(w, k)
    ensures IsSettled(w, k) && k != (p, v) ==> IsSettled(PutVersion(w, p, v, body, r), k)
  {
    hide Transition;
    var w1 := w.(versions := w.versions[(p, v) := ProductVersion(Drafted, body)]);
    TransitionKeepsBody(w1, p, v, false, r, k);
  }

  lemma ApplyMovesBody(w: World, s: Step, k: Key)
    requires s.ApplyChangeSet?
    ensures BodyOf(ApplyChange(w, s.changeId, s.sound, s.rollout, s.db), k) == OrElse(Puts(w, s, k), BodyOf(w, k))
    ensures IsSettled(w, k) ==> IsSettled(ApplyChange(w, s.changeId, s.sound, s.rollout, s.db), k)
  {
    hide ApplyChange, PreparedChange, Transition, BuildsAll;
    var id := s.changeId;
    if GoesThrough(w, id, s.sound, s.rollout, s.db) {
      var c := w.changes[id];
      ApplyPublishes(w, id, s.sound, s.rollout, s.db);
      PreparedMoves(w, id);
      TransitionKeepsBody(PreparedChange(w, id), c.product, c.target, false, s.rollout, k);
    } else {
      ApplyStops(w, id, s.sound, s.rollout, s.db);
    }
  }

  lemma EdgeStepsLeaveVersions(w: World, s: Step)
    requires s.CreateEdge? || s.BindEdge? || s.CreateProduct? || !TouchesCatalog(s)
    ensures Next(w, s).versions == w.versions
  {
    if !TouchesCatalog(s) {
      hide Next;
      OtherStepsLeave(w, s);
    } else {
      hide Supersede;
    }
  }

  lemma ProductDropsVersions(w: World, p: string, k: Key)
    ensures var w', dropped := RemoveProduct(w, p), Drops(w, DeleteProduct(p), k);
            && BodyOf(w', k) == (if dropped then None else BodyOf(w, k))
            && (IsSettled(w, k) && !dropped ==> IsSettled(w', k))
  {
    assert BoundEdges(w, p) == {} <==> forall e :: e in w.nodes ==> !Bound(w, p, e) by {
      assert forall e :: e in BoundEdges(w, p) <==> e in w.nodes && Bound(w, p, e);
    }
    hide BoundEdges, Bound;
  }

  lemma RemovalDropsVersions(w: World, s: Step, k: Key)
    requires s.DeleteProduct? || s.DeleteVersion?
    ensures BodyOf(Next(w, s), k) == if Drops(w, s, k) then None else BodyOf(w, k)
    ensures IsSettled(w, k) && !Drops(w, s, k) ==> IsSettled(Next(w, s), k)
  {
    hide RemoveProduct, Bound;
    if s.DeleteProduct? { ProductDropsVersions(w, s.product, k); }
  }

  lemma DraftsMoveBody(w: World, s: Step, k: Key)
    requires s.CreateVersion? || s.SaveVersion?
    ensures BodyOf(Next(w, s), k) == OrElse(Puts(w, s, k), BodyOf(w, k))
    ensures IsSettled(w, k) ==> IsSettled(Next(w, s), k)
  {
    hide PutVersion;
    PutMovesBody(w, s.product, s.version, s.body, s.rollout, k);
  }

  lemma StoringMovesBody(w: World, s: Step, k: Key)
    requires s.CreateVersion? || s.SaveVersion? || s.Publish? || s.Rollback? || s.ApplyChangeSet?
    ensures BodyOf(Next(w, s), k) == OrElse(Puts(w, s, k), BodyOf(w, k))
    ensures IsSettled(w, k) ==> IsSettled(Next(w, s), k)
  {
    hide Transition, PutVersion, ApplyChange, GoesThrough, BodyOf, IsSettled;
    match s {
      case CreateVersion(_, _, _, _) => DraftsMoveBody(w, s, k);
      case SaveVersion(_, _, _, _) => DraftsMoveBody(w, s, k);
      case Publish(p, v, r) => TransitionKeepsBody(w, p, v, false, r, k);
      case Rollback(p, v, r) => TransitionKeepsBody(w, p, v, true, r, k);
      case ApplyChangeSet(_, _, _, _) => ApplyMovesBody(w, s, k);
    }
  }

  lemma SettledGetsNothing(w: World, s: Step, k: Key)
    requires IsSettled(w, k)
    ensures Puts(w, s, k) == None
  {
  }

  /** MAIN: a step stores as a version exactly the body it was asked to store, deletes exactly the
      drafts and the unused products it was asked to delete, and leaves every other version's body
      alone; a version once published is never a draft again. */
  lemma BodiesMove(w: World, s: Step, k: Key)
    ensures BodyOf(Next(w, s), k) == if Drops(w, s, k) then None else OrElse(Puts(w, s, k), BodyOf(w, k))
    ensures IsSettled(w, k) && !Drops(w, s, k) ==> IsSettled(Next(w, s), k)
  {
    hide Next;
    if s.CreateVersion? || s.SaveVersion? || s.Publish? || s.Rollback? || s.ApplyChangeSet? {
      StoringMovesBody(w, s, k);
    } else if s.DeleteProduct? || s.DeleteVersion? {
      RemovalDropsVersions(w, s, k);
    } else {
      EdgeStepsLeaveVersions(w, s);
    }
  }

  /** MAIN: in every run the body of a version that has been published stays what it was, through
      retirement and rollback, until its product is deleted. */
  lemma {:induction false} PublishedBodiesStay(states: seq<World>, steps: seq<Step>, k: Key, i: nat, j: nat)
    requires IsRun(states, steps) && i <= j < |states| && IsSettled(states[i], k)
    requires forall m :: i <= m < j ==> !Drops(states[m], steps[m], k)
    ensures IsSettled(states[j], k) && states[j].versions[k].body == states[i].versions[k].body
    decreases j
  {
    hide Next, Allowed, Puts, Drops;
    if i < j {
      PublishedBodiesStay(states, steps, k, i, j - 1);
      assert states[j - 1 + 1] == Next(states[j - 1], steps[j - 1]);
      BodiesMove(states[j - 1], steps[j - 1], k);
      SettledGetsNothing(states[j - 1], steps[j - 1], k);
    }
  }
}
