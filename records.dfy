/**
 * The record classes of `wrappers.py` where they do more than forward a call
 * to the store: `PhaseRecord.delete_from_db`, `ProjectRecord.new_phase` and
 * `add_phase`, and the `TaskRecord` methods. A record is a value here: each
 * operation takes it, works on the store through `ModelDB`, and returns the
 * record as the source leaves it.
 */
module Records {
  import opened Common
  import opened Schema
  import opened PhaseOrder
  import opened ModelStore

  // ---------------------------------------------------------------------------
  // Deleting a phase.

  /** `f` is the phase right after `orig` in `orig`'s project. */
  ghost predicate FollowerOf(t: PhaseTable, orig: Id, f: Id)
  {
    orig in t && IsFirstAbove(t, t[orig].projectId, None, t[orig].position, f)
  }

  /** `pred` is the phase right before `orig` in `orig`'s project. */
  ghost predicate PredecessorOf(t: PhaseTable, orig: Id, pred: Id)
  {
    orig in t && IsLastBelow(t, t[orig].projectId, t[orig].position, pred)
  }

  /** `orig` is gone and, of the other phases, `f` alone has a new position. */
  ghost predicate Relinked(t0: PhaseTable, orig: Id, f: Id, t: PhaseTable)
  {
    orig in t0 && f in t0 && f != orig && f in t &&
    t == (t0 - {orig})[f := t0[f].(position := t[f].position)]
  }

  /** Of the phases of `pid` other than `f`, the same ones lie below `f` in `t0` and in `t`. */
  ghost predicate KeepsPlace(t0: PhaseTable, t: PhaseTable, pid: Id, f: Id)
    requires f in t0 && f in t
  {
    forall q :: InProject(t, pid, q) && q != f ==>
      q in t0 && (t[q].position < t[f].position <==> t0[q].position < t0[f].position)
  }

  /**
   * Re-saving a phase read from the store passes the name check (the name is
   * its own); it fails only when its project is gone or on the `follows` it
   * is given.
   */
  lemma ResaveFailure(projects: map<Id, Project>, t: PhaseTable, f: Id, followsId: Option<Id>)
    requires PhaseNamesUnique(t) && f in t
    ensures var row := t[f];
            SavePhaseFailure(projects, t, row.name, Some(f), Some(row.projectId), None, followsId) ==
              if row.projectId !in projects then Some(InvalidProjectId)
              else if followsId == Some(f) then Some(Misplaced(FollowsItself))
              else if followsId.Some? && followsId.value !in t then Some(Misplaced(FollowsMissing))
              else if followsId.Some? && t[followsId.value].projectId != row.projectId then Some(Misplaced(FollowsOtherProject))
              else None
  {
    assert t[f].nameLower == Lower(t[f].name);
    assert !PhaseNameTaken(t, Lower(t[f].name), Some(f));
  }

  /**
   * When the deleted phase's cached `follows` is its true predecessor and no
   * two phases share a position, re-inserting the follower after that
   * predecessor puts it back between the same neighbours.
   */
  lemma RelinkKeepsPlace(t0: PhaseTable, orig: Id, f: Id, pred: Id, t2: PhaseTable, p: Placement, next: Option<Id>)
    requires DistinctPositions(t0)
    requires FollowerOf(t0, orig, f) && PredecessorOf(t0, orig, pred)
    requires t2 == t0 - {orig}
    requires Inserted(t2, t0[orig].projectId, Some(f), pred, p, next)
    ensures forall q :: InProject(t2, t0[orig].projectId, q) && q != f ==>
              (t0[q].position < p.position <==> t0[q].position < t0[f].position)
  {
    var pid := t0[orig].projectId;
    assert pred != orig && pred != f && t2[pred] == t0[pred];
    forall q | InProject(t2, pid, q) && q != f
      ensures t0[q].position < p.position <==> t0[q].position < t0[f].position
    {
      assert q != orig && InProject(t0, pid, q) && t2[q] == t0[q];
      if t0[q].position < t0[f].position {
        // q is not above orig, so it lies at or below the predecessor.
        assert t0[q].position < t0[orig].position;
        assert t0[q].position <= t0[pred].position;
      } else {
        assert t0[pred].position < t2[q].position;
        assert next.Some? && t2[next.value].position <= t2[q].position;
      }
    }
  }

  /**
   * The first half of the follower's move: it is saved without `follows`
   * (which parks it after every phase of its project) and the deleted row is
   * dropped. Fails, writing nothing, when the follower's project is gone.
   */
  method ParkAndDrop(db: ModelDB, orig: Id, fr: PhaseRecord) returns (r: Result<PhaseRecord, StoreError>)
    requires db.Valid()
    requires fr.phaseId.Some? && FollowerOf(db.phases, orig, fr.phaseId.value)
    requires fr == PhaseRecordOf(fr.phaseId.value, db.phases[fr.phaseId.value], fr.followsId)
    modifies db
    ensures db.Valid()
    ensures db.projects == old(db.projects) && db.tasks == old(db.tasks) && db.blockers == old(db.blockers)
    ensures r.Err? <==> old(db.phases)[fr.phaseId.value].projectId !in db.projects
    ensures r.Err? ==> r.error == InvalidProjectId && db.phases == old(db.phases)
    ensures r.Ok? ==> var f := fr.phaseId.value;
                      f in db.phases && r.value == PhaseRecordOf(f, db.phases[f], r.value.followsId) &&
                      db.phases == (old(db.phases) - {orig})[f := old(db.phases)[f].(position := r.value.position)]
  {
    var f := fr.phaseId.value;
    ResaveFailure(db.projects, db.phases, f, None);
    ghost var t0 := db.phases;
    ghost var anchor;
    r, anchor := db.SavePhaseRecord(fr.(followsId := None));
    if r.Err? {
      return;
    }
    assert db.phases == t0[f := t0[f].(position := r.value.position)];
    db.DeletePhaseRow(Some(orig));
  }

  /**
   * The second half: the parked follower is saved again with the deleted
   * phase's cached `follows`, taking the position the rule gives it.
   */
  method Reinsert(db: ModelDB, parked: PhaseRecord, link: Option<Id>) returns (r: Result<PhaseRecord, StoreError>, ghost p: Placement, ghost anchor: Option<Id>)
    requires db.Valid()
    requires parked.phaseId.Some? && parked.phaseId.value in db.phases
    requires parked == PhaseRecordOf(parked.phaseId.value, db.phases[parked.phaseId.value], parked.followsId)
    requires db.phases[parked.phaseId.value].projectId in db.projects
    modifies db
    ensures db.Valid()
    ensures db.projects == old(db.projects) && db.tasks == old(db.tasks) && db.blockers == old(db.blockers)
    ensures var f := parked.phaseId.value; var pid := old(db.phases)[f].projectId;
            r.Err? <==> link.Some? && (link == parked.phaseId || link.value !in old(db.phases) || old(db.phases)[link.value].projectId != pid)
    ensures r.Err? ==> r.error.Misplaced? && db.phases == old(db.phases)
    ensures r.Ok? ==> var f := parked.phaseId.value; var pid := old(db.phases)[f].projectId;
                      db.phases == old(db.phases)[f := old(db.phases)[f].(position := p.position)] &&
                      PlannedPhase(old(db.phases), Some(f), pid, link, p, anchor)
  {
    var f := parked.phaseId.value;
    ResaveFailure(db.projects, db.phases, f, link);
    ghost var t0 := db.phases;
    r, anchor := db.SavePhaseRecord(parked.(followsId := link));
    p := Placement(0.0, None);
    if r.Ok? {
      p := Placement(r.value.position, r.value.followsId);
      assert db.phases == t0[f := t0[f].(position := p.position)];
    }
  }

  /**
   * `PhaseRecord.delete_from_db`: the phase's tasks leave it; the follower,
   * if any, is parked at the end, the row is deleted, and the follower is
   * saved again after the deleted phase's cached `follows`. The record comes
   * back without an id. The ghost `follower` names the phase that was moved.
   */
  method DeletePhase(db: ModelDB, rec: PhaseRecord) returns (r: Result<PhaseRecord, StoreError>, ghost follower: Option<Id>)
    requires db.Valid()
    modifies db
    ensures db.Valid()
    ensures db.projects == old(db.projects) && db.blockers == old(db.blockers)
    ensures rec.phaseId.None? ==> r == Ok(rec) && follower.None? && db.phases == old(db.phases) && db.tasks == old(db.tasks)
    ensures rec.phaseId.Some? ==> db.tasks == ClearPhase(old(db.tasks), rec.phaseId)
    ensures r.Ok? ==> r.value == rec.(phaseId := None)
    ensures follower.Some? ==> rec.phaseId.Some? && FollowerOf(old(db.phases), rec.phaseId.value, follower.value)
    ensures rec.phaseId.Some? && follower.None? ==>
              r.Ok? && db.phases == old(db.phases) - {rec.phaseId.value} &&
              (rec.phaseId.value in old(db.phases) ==>
                 NoneAbove(old(db.phases), old(db.phases)[rec.phaseId.value].projectId, None, old(db.phases)[rec.phaseId.value].position))
    ensures r.Err? <==> (follower.Some? &&
              var f := follower.value; var pid := old(db.phases)[f].projectId; var link := rec.followsId;
              (pid !in db.projects ||
               (link.Some? && (link == follower || link == rec.phaseId || link.value !in old(db.phases) ||
                               old(db.phases)[link.value].projectId != pid))))
    ensures r.Err? && r.error == InvalidProjectId ==> db.phases == old(db.phases)
    ensures r.Err? && r.error != InvalidProjectId ==> r.error.Misplaced? && rec.phaseId.value !in db.phases
    ensures r.Ok? && follower.Some? ==> Relinked(old(db.phases), rec.phaseId.value, follower.value, db.phases)
    ensures r.Ok? && follower.Some? && rec.followsId.None? ==>
              var f := follower.value;
              forall q :: InProject(db.phases, db.phases[f].projectId, q) && q != f ==> db.phases[q].position < db.phases[f].position
    ensures r.Ok? && follower.Some? && rec.followsId.Some? ==>
              var f := follower.value;
              IsLastBelow(db.phases, db.phases[f].projectId, db.phases[f].position, rec.followsId.value)
    ensures r.Ok? && follower.Some? && rec.followsId.Some? &&
            DistinctPositions(old(db.phases)) && PredecessorOf(old(db.phases), rec.phaseId.value, rec.followsId.value) ==>
              KeepsPlace(old(db.phases), db.phases, old(db.phases)[rec.phaseId.value].projectId, follower.value)
  {
    follower := None;
    if rec.phaseId.None? {
      return Ok(rec), follower;
    }
    var orig := rec.phaseId.value;
    var cleared := db.ReplaceTaskPhaseRefs(rec.phaseId, None);
    var next := PhaseThatFollows(db.phases, rec.phaseId);
    if next.None? {
      db.DeletePhaseRow(rec.phaseId);
      return Ok(rec.(phaseId := None)), follower;
    }
    ghost var t0 := db.phases;
    var fr := next.value;
    var f := fr.phaseId.value;
    follower := fr.phaseId;
    var parked := ParkAndDrop(db, orig, fr);
    if parked.Err? {
      return Err(parked.error), follower;
    }
    ghost var t2 := db.phases;
    var relinked;
    ghost var p, a;
    relinked, p, a := Reinsert(db, parked.value, rec.followsId);
    if relinked.Err? {
      return Err(relinked.error), follower;
    }
    r := Ok(rec.(phaseId := None));
    FinishRelink(t0, orig, f, rec.followsId, t2, p, a, db.phases);
  }

  /** What the re-insertion leaves, in terms of the table before the delete. */
  lemma FinishRelink(t0: PhaseTable, orig: Id, f: Id, link: Option<Id>, t2: PhaseTable, p: Placement, a: Option<Id>, t3: PhaseTable)
    requires FollowerOf(t0, orig, f)
    requires f in t2 && t2 == (t0 - {orig})[f := t0[f].(position := t2[f].position)]
    requires t3 == t2[f := t2[f].(position := p.position)]
    requires PlannedPhase(t2, Some(f), t0[f].projectId, link, p, a) && link != Some(f)
    ensures Relinked(t0, orig, f, t3)
    ensures link.None? ==> forall q :: InProject(t3, t3[f].projectId, q) && q != f ==> t3[q].position < t3[f].position
    ensures link.Some? ==> IsLastBelow(t3, t3[f].projectId, t3[f].position, link.value)
    ensures link.Some? && DistinctPositions(t0) && PredecessorOf(t0, orig, link.value) ==>
              KeepsPlace(t0, t3, t0[orig].projectId, f)
  {
    var pid := t0[f].projectId;
    var row := t2[f].(position := p.position);
    if link.None? {
      AppendedGoesLast(t2, pid, Some(f), p, a, f, row);
    } else {
      InsertedGoesBetween(t2, pid, Some(f), link.value, p, a, f, row);
      if DistinctPositions(t0) && PredecessorOf(t0, orig, link.value) {
        var t1 := t0 - {orig};
        assert Inserted(t1, pid, Some(f), link.value, p, a) by {
          InsertedIgnoresSelf(t2, t1, pid, f, link.value, p, a);
        }
        RelinkKeepsPlace(t0, orig, f, link.value, t1, p, a);
      }
    }
  }

  /** The position rule ignores the row of the phase being saved, so that row may differ. */
  lemma InsertedIgnoresSelf(t: PhaseTable, u: PhaseTable, pid: Id, f: Id, pred: Id, p: Placement, next: Option<Id>)
    requires Inserted(t, pid, Some(f), pred, p, next) && pred != f
    requires t.Keys == u.Keys && forall q :: q in t && q != f ==> u[q] == t[q]
    ensures Inserted(u, pid, Some(f), pred, p, next)
  {
  }

  /**
   * Deleting the first phase of a project as written: with phases at 1.0,
   * 2.0 and 3.0, deleting the first (whose cached `follows` is rightly None)
   * re-saves its follower without `follows`, which appends it after the
   * third, so the second and third phases swap places.
   */
  lemma FirstDeletionReorders(t3: PhaseTable)
    requires Relinked(ThreePhases(), 1, 2, t3)
    requires forall q :: InProject(t3, t3[2].projectId, q) && q != 2 ==> t3[q].position < t3[2].position
    ensures FollowerOf(ThreePhases(), 1, 2) && NoneBelow(ThreePhases(), 1, ThreePhases()[1].position)
    ensures ThreePhases()[2].position < ThreePhases()[3].position && t3[3].position < t3[2].position
  {
    var t0 := ThreePhases();
    assert t3[3] == t0[3] && InProject(t3, 1, 3);
  }

  /** Three phases of project 1, in order. */
  function ThreePhases(): (t: PhaseTable)
    ensures DistinctPositions(t)
  {
    map[1 := Phase("a", "a", None, 1, 1.0), 2 := Phase("b", "b", None, 1, 2.0), 3 := Phase("c", "c", None, 1, 3.0)]
  }

  /**
   * Removing a phase mends the derived chain by itself: its follower now
   * follows its predecessor, or becomes the first phase when it had none.
   */
  lemma RemovalMendsChain(t0: PhaseTable, orig: Id, f: Id)
    requires DistinctPositions(t0) && FollowerOf(t0, orig, f)
    ensures forall pred :: PredecessorOf(t0, orig, pred) ==>
              IsLastBelow(t0 - {orig}, t0[orig].projectId, t0[f].position, pred)
    ensures NoneBelow(t0, t0[orig].projectId, t0[orig].position) ==>
              NoneBelow(t0 - {orig}, t0[orig].projectId, t0[f].position)
  {
    var pid := t0[orig].projectId;
    var t1 := t0 - {orig};
    // Every other phase of the project lies strictly below orig or at or above f.
    forall q | InProject(t1, pid, q)
      ensures t0[q].position < t0[orig].position || t0[f].position <= t0[q].position
    {
      assert q != orig && InProject(t0, pid, q);
    }
    forall pred | PredecessorOf(t0, orig, pred)
      ensures IsLastBelow(t1, pid, t0[f].position, pred)
    {
      assert pred != orig && InProject(t1, pid, pred);
    }
  }

  /**
   * Phase deletion that keeps the order: the tasks leave the phase and the
   * row is removed, with no re-save of the follower. Every remaining phase
   * keeps its position, and by `RemovalMendsChain` the follower's derived
   * `follows` is the deleted phase's predecessor.
   */
  method DeletePhaseKeepingOrder(db: ModelDB, rec: PhaseRecord) returns (r: PhaseRecord)
    requires db.Valid()
    modifies db
    ensures db.Valid()
    ensures db.projects == old(db.projects) && db.blockers == old(db.blockers)
    ensures r == rec.(phaseId := None)
    ensures rec.phaseId.None? ==> db.phases == old(db.phases) && db.tasks == old(db.tasks)
    ensures rec.phaseId.Some? ==> db.tasks == ClearPhase(old(db.tasks), rec.phaseId) &&
                                  db.phases == old(db.phases) - {rec.phaseId.value}
    ensures rec.phaseId.Some? && DistinctPositions(old(db.phases)) ==>
              forall f, pred :: FollowerOf(old(db.phases), rec.phaseId.value, f) && PredecessorOf(old(db.phases), rec.phaseId.value, pred) ==>
                IsLastBelow(db.phases, db.phases[f].projectId, db.phases[f].position, pred)
  {
    if rec.phaseId.None? {
      return rec;
    }
    var cleared := db.ReplaceTaskPhaseRefs(rec.phaseId, None);
    db.DeletePhaseRow(rec.phaseId);
    r := rec.(phaseId := None);
    forall f | DistinctPositions(old(db.phases)) && FollowerOf(old(db.phases), rec.phaseId.value, f) {
      RemovalMendsChain(old(db.phases), rec.phaseId.value, f);
    }
  }

  // ---------------------------------------------------------------------------
  // Adding phases to a project.

  /**
   * `follows in project.get_phases()`: the project's phases are listed and
   * compared by record equality, so a record without an id is never found.
   */
  method FollowsListed(t: PhaseTable, proj: ProjectRecord, follows: PhaseRecord) returns (b: bool)
    ensures b <==> proj.projectId.Some? && follows.phaseId.Some? && InProject(t, proj.projectId.value, follows.phaseId.value)
  {
    if proj.projectId.None? {
      // No phase row is without a project, so the list is empty.
      return false;
    }
    var phases := PhasesOfProject(t, proj.projectId.value);
    b := false;
    var i := 0;
    while i < |phases|
      invariant 0 <= i <= |phases|
      invariant b <==> exists j :: 0 <= j < i && SameRecord(follows.phaseId, phases[j].phaseId)
    {
      if SameRecord(follows.phaseId, phases[i].phaseId) {
        b := true;
      }
      i := i + 1;
    }
  }

  /**
   * Where a saved phase lands: after every other phase of its project when
   * saved without `follows`, otherwise right after the phase it follows.
   */
  lemma PlacedPhaseOrder(t: PhaseTable, self: Option<Id>, pid: Id, followsId: Option<Id>, p: Placement, anchor: Option<Id>,
                         id: Id, row: Phase)
    requires PlannedPhase(t, self, pid, followsId, p, anchor)
    requires self == Some(id) || (self.None? && id !in t)
    requires followsId != Some(id)
    requires row.projectId == pid && row.position == p.position
    ensures followsId.None? ==> forall q :: InProject(t[id := row], pid, q) && q != id ==> t[q].position < p.position
    ensures followsId.Some? ==> IsLastBelow(t[id := row], pid, p.position, followsId.value)
  {
    if followsId.None? {
      AppendedGoesLast(t, pid, self, p, anchor, id, row);
      forall q | InProject(t[id := row], pid, q) && q != id
        ensures t[q].position < p.position
      {
        assert InProject(t, pid, q);
      }
    } else {
      InsertedGoesBetween(t, pid, self, followsId.value, p, anchor, id, row);
    }
  }

  /**
   * `ProjectRecord.new_phase`: a `follows` that is not one of the project's
   * phases is refused; otherwise `add_phase` creates the phase in the
   * project, last or right after `follows`.
   */
  method NewPhase(db: ModelDB, proj: ProjectRecord, name: string, description: Option<string>, follows: Option<PhaseRecord>)
    returns (r: Result<PhaseRecord, StoreError>)
    requires db.Valid()
    modifies db
    ensures db.Valid()
    ensures db.projects == old(db.projects) && db.tasks == old(db.tasks) && db.blockers == old(db.blockers)
    ensures var followsId := if follows.Some? then follows.value.phaseId else None;
            if follows.Some? && !(proj.projectId.Some? && followsId.Some? && InProject(old(db.phases), proj.projectId.value, followsId.value))
            then r == Err(NotInProject) && db.phases == old(db.phases)
            else
              (r.Err? <==> SavePhaseFailure(db.projects, old(db.phases), name, None, None, Some(proj), followsId).Some?) &&
              (r.Err? ==> db.phases == old(db.phases)) &&
              (r.Ok? ==> proj.projectId.Some? && r.value.phaseId.Some? && r.value.phaseId.value !in old(db.phases) &&
                         var id := r.value.phaseId.value;
                         db.phases == old(db.phases)[id := Phase(name, Lower(name), description, proj.projectId.value, r.value.position)] &&
                         r.value.projectId == proj.projectId &&
                         (followsId.None? ==> forall q :: InProject(db.phases, proj.projectId.value, q) && q != id ==>
                                                db.phases[q].position < r.value.position) &&
                         (followsId.Some? ==> r.value.followsId == followsId &&
                                              IsLastBelow(db.phases, proj.projectId.value, r.value.position, followsId.value)))
  {
    var followsId := None;
    if follows.Some? {
      var listed := FollowsListed(db.phases, proj, follows.value);
      if !listed {
        return Err(NotInProject);
      }
      followsId := follows.value.phaseId;
    }
    ghost var t0 := db.phases;
    ghost var anchor;
    r, anchor := db.SavePhase(name, description, None, None, Some(proj), followsId);
    if r.Ok? {
      var id := r.value.phaseId.value;
      PlacedPhaseOrder(t0, None, proj.projectId.value, followsId, Placement(r.value.position, r.value.followsId), anchor,
                       id, db.phases[id]);
    }
  }

  /**
   * `ProjectRecord.add_phase`: the same check on `follows`; the phase record
   * is then moved into the project, given that `follows`, and saved.
   */
  method AddPhaseToProject(db: ModelDB, proj: ProjectRecord, phase: PhaseRecord, follows: Option<PhaseRecord>)
    returns (r: Result<PhaseRecord, StoreError>)
    requires db.Valid()
    modifies db
    ensures db.Valid()
    ensures db.projects == old(db.projects) && db.tasks == old(db.tasks) && db.blockers == old(db.blockers)
    ensures var followsId := if follows.Some? then follows.value.phaseId else None;
            if follows.Some? && !(proj.projectId.Some? && followsId.Some? && InProject(old(db.phases), proj.projectId.value, followsId.value))
            then r == Err(NotInProject) && db.phases == old(db.phases)
            else
              (r.Err? <==> SavePhaseFailure(db.projects, old(db.phases), phase.name, phase.phaseId, proj.projectId, None, followsId).Some?) &&
              (r.Err? ==> db.phases == old(db.phases)) &&
              (r.Ok? ==> proj.projectId.Some? && r.value.phaseId.Some? &&
                         (phase.phaseId.Some? ==> r.value.phaseId == phase.phaseId) &&
                         (phase.phaseId.None? ==> r.value.phaseId.value !in old(db.phases)) &&
                         var id := r.value.phaseId.value;
                         db.phases == old(db.phases)[id := Phase(phase.name, Lower(phase.name), phase.description, proj.projectId.value, r.value.position)] &&
                         r.value.projectId == proj.projectId &&
                         (followsId.None? ==> forall q :: InProject(db.phases, proj.projectId.value, q) && q != id ==>
                                                db.phases[q].position < r.value.position) &&
                         (followsId.Some? ==> r.value.followsId == followsId &&
                                              IsLastBelow(db.phases, proj.projectId.value, r.value.position, followsId.value)))
  {
    var followsId := None;
    if follows.Some? {
      var listed := FollowsListed(db.phases, proj, follows.value);
      if !listed {
        return Err(NotInProject);
      }
      followsId := follows.value.phaseId;
    }
    ghost var t0 := db.phases;
    ghost var anchor;
    r, anchor := db.SavePhaseRecord(phase.(projectId := proj.projectId, followsId := followsId));
    if r.Ok? {
      var id := r.value.phaseId.value;
      PlacedPhaseOrder(t0, phase.phaseId, proj.projectId.value, followsId, Placement(r.value.position, r.value.followsId), anchor,
                       id, db.phases[id]);
    }
  }
}
