/**
 * `TaskDB`: the SQLite-era store that shares the schema and the phase
 * position rule with `ModelDB`. Its phase save runs the same checks in the
 * same order and places the phase by the same rule; the record it returns is
 * re-read from the table, so its `follows` is derived from positions. Its
 * blocker queries look every edge's task up without skipping missing ones,
 * and deleting a task always drops the task's edges.
 */
module TaskStore {
  import opened Common
  import opened Schema
  import opened PhaseOrder
  import opened ModelStore

  /**
   * The parent id a new `ProjectRecord` takes: the parent record's id when a
   * record is given, which must then agree with any `parentId` also given.
   * Whenever both constructors accept, they pick the same parent.
   */
  function RecordParent(parent: Option<ProjectRecord>, parentId: Option<Id>): (r: Result<Option<Id>, StoreError>)
    ensures r.Err? <==> parent.Some? && parentId.Some? && parent.value.projectId != parentId
    ensures r.Err? ==> r.error == InconsistentParent
    ensures r.Ok? ==> r.value == ChosenParent(parentId, parent)
    ensures r.Ok? && parent.Some? ==> r.value == parent.value.projectId
  {
    if parent.Some? then
      if parentId.Some? && parent.value.projectId != parentId then Err(InconsistentParent)
      else Ok(parent.value.projectId)
    else Ok(parentId)
  }

  /** Some edge out of `taskId` names a task that is not in the table. */
  ghost predicate Dangling(tasks: map<Id, Task>, blockers: map<Id, Blocker>, taskId: Option<Id>)
  {
    exists k :: k in blockers && Some(blockers[k].item) == taskId && blockers[k].required !in tasks
  }

  /** Some edge into `taskId` comes from a task that is not in the table. */
  ghost predicate DanglingFrom(tasks: map<Id, Task>, blockers: map<Id, Blocker>, taskId: Option<Id>)
  {
    exists k :: k in blockers && Some(blockers[k].required) == taskId && blockers[k].item !in tasks
  }

  /**
   * `TaskDB.get_task_blockers`: each edge's task is looked up, and a missing
   * one comes back as None. With `onlyNotDone` a missing task's status is
   * read, which raises. Otherwise the answer is the blockers `ModelDB`
   * reports, plus None for the missing ones.
   */
  method GetTaskBlockers(tasks: map<Id, Task>, blockers: map<Id, Blocker>, taskId: Option<Id>, onlyNotDone: bool)
    returns (r: Result<seq<Option<Id>>, StoreError>)
    ensures r.Err? <==> onlyNotDone && Dangling(tasks, blockers, taskId)
    ensures r.Err? ==> r.error == NoRecord
    ensures r.Ok? ==> forall x: Id :: Some(x) in r.value <==> BlocksTask(tasks, blockers, taskId, onlyNotDone, x)
    ensures r.Ok? ==> (None in r.value <==> Dangling(tasks, blockers, taskId))
  {
    var s: seq<Option<Id>> := [];
    var rest := blockers.Keys;
    while rest != {}
      invariant rest <= blockers.Keys
      invariant forall x :: Some(x) in s ==> BlocksTask(tasks, blockers, taskId, onlyNotDone, x)
      invariant forall k :: (k in blockers && k !in rest && Some(blockers[k].item) == taskId &&
                             blockers[k].required in tasks &&
                             (onlyNotDone ==> tasks[blockers[k].required].status != DoneStatus)) ==>
                  Some(blockers[k].required) in s
      invariant None in s ==> Dangling(tasks, blockers, taskId)
      invariant forall k :: (k in blockers && k !in rest && Some(blockers[k].item) == taskId &&
                             blockers[k].required !in tasks) ==> !onlyNotDone && None in s
      decreases rest
    {
      var k :| k in rest;
      rest := rest - {k};
      var b := blockers[k];
      if Some(b.item) == taskId {
        var found := if b.required in tasks then Some(b.required) else None;
        if onlyNotDone {
          if found.None? {
            return Err(NoRecord);
          }
          if tasks[b.required].status != DoneStatus {
            s := s + [found];
          }
        } else {
          s := s + [found];
        }
      }
    }
    r := Ok(s);
  }

  /**
   * `TaskDB.get_tasks_blocked`: the tasks `taskId` blocks, as `ModelDB`
   * reports them, plus None for each edge from a task that is gone.
   */
  method GetTasksBlocked(tasks: map<Id, Task>, blockers: map<Id, Blocker>, taskId: Option<Id>)
    returns (s: seq<Option<Id>>)
    ensures forall x: Id :: Some(x) in s <==> BlockedBy(tasks, blockers, taskId, x)
    ensures None in s <==> DanglingFrom(tasks, blockers, taskId)
  {
    s := [];
    var rest := blockers.Keys;
    while rest != {}
      invariant rest <= blockers.Keys
      invariant forall x :: Some(x) in s ==> BlockedBy(tasks, blockers, taskId, x)
      invariant forall k :: (k in blockers && k !in rest && Some(blockers[k].required) == taskId &&
                             blockers[k].item in tasks) ==> Some(blockers[k].item) in s
      invariant None in s ==> DanglingFrom(tasks, blockers, taskId)
      invariant forall k :: (k in blockers && k !in rest && Some(blockers[k].required) == taskId &&
                             blockers[k].item !in tasks) ==> None in s
      decreases rest
    {
      var k :| k in rest;
      rest := rest - {k};
      var b := blockers[k];
      if Some(b.required) == taskId {
        s := s + [if b.item in tasks then Some(b.item) else None];
      }
    }
  }

  /**
   * Re-saving the last phase of a project without `follows` is where the
   * two stores report different predecessors: `ModelDB` reports the rule's
   * `follows` (None, since the last phase is the phase itself), while the
   * record `TaskDB` re-reads derives the phase below it.
   */
  lemma ResavedLastReportsDiffer()
    ensures var t := map[1 := Phase("a", "a", None, 1, 1.0), 2 := Phase("b", "b", None, 1, 2.0)];
            var row := Phase("b", "b", None, 1, 3.0);
            Appended(t, 1, Some(2), Placement(3.0, None), Some(2)) &&
            IsLastBelow(t[2 := row], 1, 3.0, 1)
  {
    var t := map[1 := Phase("a", "a", None, 1, 1.0), 2 := Phase("b", "b", None, 1, 2.0)];
    var t' := t[2 := Phase("b", "b", None, 1, 3.0)];
    forall q | InProject(t, 1, q)
      ensures t[q].position <= t[2].position
    {
      assert q == 1 || q == 2;
    }
    forall q | InProject(t', 1, q) && t'[q].position < 3.0
      ensures t'[q].position <= t'[1].position
    {
      assert q == 1 || q == 2;
    }
  }

  /**
   * With distinct positions, the predecessor a re-read record derives is
   * the one the placement rule reported, whenever the rule reported one.
   */
  lemma DerivedIsReported(t0: PhaseTable, pid: Id, self: Option<Id>, followsId: Option<Id>, p: Placement,
                          anchor: Option<Id>, id: Id, row: Phase, derived: Option<Id>)
    requires PlannedPhase(t0, self, pid, followsId, p, anchor)
    requires self == Some(id) || (self.None? && id !in t0)
    requires followsId != Some(id)
    requires row.projectId == pid && row.position == p.position
    requires DistinctPositions(t0[id := row]) && p.follows.Some?
    requires derived.Some? ==> IsLastBelow(t0[id := row], pid, p.position, derived.value)
    requires derived.None? ==> NoneBelow(t0[id := row], pid, p.position)
    ensures derived == p.follows
  {
    if followsId.None? {
      AppendedGoesLast(t0, pid, self, p, anchor, id, row);
    } else {
      InsertedGoesBetween(t0, pid, self, followsId.value, p, anchor, id, row);
    }
    if derived.Some? {
      FollowsIsUnique(t0[id := row], pid, p.position, p.follows.value, derived.value);
    }
  }

  class TaskDB {
    var projects: map<Id, Project>
    var phases: map<Id, Phase>
    var tasks: map<Id, Task>
    var blockers: map<Id, Blocker>
    var nextPhaseId: Id
    var nextBlockerId: Id

    ghost predicate Valid()
      reads this
    {
      KeysBelow(phases, nextPhaseId) && PhaseNamesUnique(phases) &&
      KeysBelow(blockers, nextBlockerId) && EdgesUnique(blockers)
    }

    /** A freshly created store is empty. */
    constructor ()
      ensures Valid()
      ensures projects == map[] && phases == map[] && tasks == map[] && blockers == map[]
    {
      projects, phases, tasks, blockers := map[], map[], map[], map[];
      nextPhaseId, nextBlockerId := 1, 1;
    }

    /**
     * `save_phase`: the checks of `ModelDB._save_phase`, in the same order,
     * and the row placed by the same rule. The returned record is re-read
     * (`row_to_phase`), so its `follows` is derived from positions; when the
     * rule reported a predecessor and positions are distinct, the derived
     * one is that same phase.
     */
    method SavePhase(name: string, description: Option<string>, phaseId: Option<Id>, projectId: Option<Id>,
                     project: Option<ProjectRecord>, followsId: Option<Id>)
      returns (r: Result<PhaseRecord, StoreError>, ghost placed: Placement, ghost anchor: Option<Id>)
      requires Valid()
      modifies this
      ensures Valid()
      ensures projects == old(projects) && tasks == old(tasks) && blockers == old(blockers)
      ensures r.Err? <==> SavePhaseFailure(projects, old(phases), name, phaseId, projectId, project, followsId).Some?
      ensures r.Err? ==> r.error == SavePhaseFailure(projects, old(phases), name, phaseId, projectId, project, followsId).value &&
                         phases == old(phases)
      ensures r.Ok? ==> r.value.phaseId.Some? && (phaseId.Some? ==> r.value.phaseId == phaseId) &&
                        (phaseId.None? ==> r.value.phaseId.value !in old(phases)) &&
                        PlannedPhase(old(phases), phaseId, PhaseOwner(projectId, project).value, followsId, placed, anchor) &&
                        phases == old(phases)[r.value.phaseId.value :=
                          Phase(name, Lower(name), description, PhaseOwner(projectId, project).value, placed.position)] &&
                        r.value == PhaseRecordOf(r.value.phaseId.value, phases[r.value.phaseId.value], r.value.followsId)
      ensures r.Ok? && r.value.followsId.Some? ==>
                IsLastBelow(phases, PhaseOwner(projectId, project).value, placed.position, r.value.followsId.value)
      ensures r.Ok? && r.value.followsId.None? ==>
                NoneBelow(phases, PhaseOwner(projectId, project).value, placed.position)
      ensures r.Ok? && DistinctPositions(old(phases)) ==>
                DistinctPositions(phases) && (placed.follows.Some? ==> r.value.followsId == placed.follows)
    {
      var plan;
      plan, anchor := PlanPhase(projects, phases, nextPhaseId, name, description, phaseId, projectId, project, followsId);
      placed := Placement(1.0, None);
      if plan.Err? {
        return Err(plan.error), placed, anchor;
      }
      var (id, row, follows) := plan.value;
      placed := Placement(row.position, follows);
      ghost var t0 := phases;
      PutPhase(id, row);
      var rec := PhaseById(phases, Some(id));
      r := Ok(rec.value);
      if DistinctPositions(t0) && follows.Some? {
        DerivedIsReported(t0, row.projectId, phaseId, followsId, placed, anchor, id, row, rec.value.followsId);
      }
    }

    /** Writes one phase row, at an existing id or at the next fresh one. */
    method PutPhase(id: Id, row: Phase)
      requires Valid()
      requires Keyed(row.name, row.nameLower) && !PhaseNameTaken(phases, row.nameLower, Some(id))
      requires id in phases || id == nextPhaseId
      modifies this
      ensures Valid()
      ensures phases == old(phases)[id := row]
      ensures projects == old(projects) && tasks == old(tasks) && blockers == old(blockers)
    {
      var next := if id in phases then nextPhaseId else nextPhaseId + 1;
      PhaseUpsert(phases, id, row);
      KeysBelowUpsert(phases, id, row, nextPhaseId, next);
      phases, nextPhaseId := phases[id := row], next;
    }

    /**
     * `add_task_blocker`: an edge already present is not stored again; its id
     * is returned. A missing task id fails the NOT NULL columns.
     */
    method AddTaskBlocker(item: Option<Id>, required: Option<Id>) returns (r: Result<Id, StoreError>)
      requires Valid()
      modifies this
      ensures Valid()
      ensures projects == old(projects) && phases == old(phases) && tasks == old(tasks)
      ensures item.None? || required.None? ==> r == Err(MissingTaskId) && blockers == old(blockers)
      ensures item.Some? && required.Some? ==>
                r.Ok? && r.value in blockers && blockers[r.value] == Blocker(item.value, required.value)
      ensures r.Ok? && r.value in old(blockers) ==> blockers == old(blockers)
      ensures r.Ok? && r.value !in old(blockers) ==>
                blockers == old(blockers)[r.value := Blocker(item.value, required.value)] &&
                forall k :: k in old(blockers) ==> old(blockers)[k] != Blocker(item.value, required.value)
    {
      if item.None? || required.None? {
        return Err(MissingTaskId);
      }
      var edge := Blocker(item.value, required.value);
      var existing := FirstWhere(blockers, (b: Blocker) => b == edge);
      if existing.Some? {
        return Ok(existing.value);
      }
      var id := nextBlockerId;
      blockers := blockers[id := edge];
      nextBlockerId := nextBlockerId + 1;
      r := Ok(id);
    }

    /** `delete_task_blocker`: removes every edge for the pair; a missing id matches none. */
    method DeleteTaskBlocker(item: Option<Id>, required: Option<Id>)
      requires Valid()
      modifies this
      ensures Valid()
      ensures projects == old(projects) && phases == old(phases) && tasks == old(tasks)
      ensures item.None? || required.None? ==> blockers == old(blockers)
      ensures item.Some? && required.Some? ==>
                blockers == map k | k in old(blockers) && old(blockers)[k] != Blocker(item.value, required.value) :: old(blockers)[k]
    {
      if item.None? || required.None? {
        return;
      }
      var edge := Blocker(item.value, required.value);
      blockers := map k | k in blockers && blockers[k] != edge :: blockers[k];
    }

    /**
     * `delete_task_record`: removes the task row and every edge that names
     * it at either end, whether or not the task row exists; a record without
     * an id matches nothing.
     */
    method DeleteTaskRecord(taskId: Option<Id>)
      requires Valid()
      modifies this
      ensures Valid()
      ensures projects == old(projects) && phases == old(phases)
      ensures taskId.Some? ==> tasks == old(tasks) - {taskId.value} && blockers == EdgesWithout(old(blockers), taskId.value)
      ensures taskId.None? ==> tasks == old(tasks) && blockers == old(blockers)
    {
      if taskId.None? {
        return;
      }
      tasks := tasks - {taskId.value};
      blockers := EdgesWithout(blockers, taskId.value);
    }
  }
}
