/**
 * `ModelDB`: the store of projects, phases, tasks and blocker edges, with the
 * checks each write performs and the cascades a delete triggers. The tables
 * are maps from row id to row; ids come from one autoincrement counter per
 * table and are never reused.
 */
module ModelStore {
  import opened Common
  import opened Schema
  import opened PhaseOrder

  /** One kind per exception the store raises. */
  datatype StoreError =
    | DuplicateName
    | InvalidStatus
    | InvalidTaskId
    | InvalidProjectId
    | InvalidPhaseId
    | PhaseNotInTaskProject
    | PhaseNeedsProject
    | InvalidParent
    | Misplaced(reason: PlaceError)
    | ConsistencyError
    | MissingTaskId
    | WouldCreateLoop
    | NoRecord
    | NotInProject
    /** Python's `RecursionError` on a walk the bound ran out on. */
    | RecursionLimit
    /** An upward walk that visited more entries than its bound. */
    | StepLimit
    /** A `ProjectRecord` given both a parent record and a different parent id. */
    | InconsistentParent
    /** An overlay story or task given no record to hang on. */
    | NoAnchor

  const OrphansName: string := "Orphans"
  const OrphansDescription: string :=
    "A project used to collect phases that are orphaned when a project is deleted but still has phases. This is done automatically. "

  // ---------------------------------------------------------------------------
  // Table-level facts used in contracts.

  ghost predicate ProjectNamesUnique(m: map<Id, Project>)
  {
    (forall a :: a in m ==> Keyed(m[a].name, m[a].nameLower)) &&
    forall a, b {:trigger m[a].nameLower, m[b].nameLower} :: a in m && b in m && m[a].nameLower == m[b].nameLower ==> a == b
  }

  ghost predicate PhaseNamesUnique(m: map<Id, Phase>)
  {
    (forall a :: a in m ==> Keyed(m[a].name, m[a].nameLower)) &&
    forall a, b {:trigger m[a].nameLower, m[b].nameLower} :: a in m && b in m && m[a].nameLower == m[b].nameLower ==> a == b
  }

  ghost predicate TaskNamesUnique(m: map<Id, Task>)
  {
    (forall a :: a in m ==> Keyed(m[a].name, m[a].nameLower)) &&
    forall a, b {:trigger m[a].nameLower, m[b].nameLower} :: a in m && b in m && m[a].nameLower == m[b].nameLower ==> a == b
  }

  /** Every id in use is below the table's next id, so a new id is fresh. */
  ghost predicate KeysBelow<V>(m: map<Id, V>, next: Id)
  {
    forall k :: k in m ==> k < next
  }

  /** No blocker edge is stored twice. */
  ghost predicate EdgesUnique(m: map<Id, Blocker>)
  {
    forall a, b {:trigger m[a].item, m[b].item} :: a in m && b in m && m[a].item == m[b].item && m[a].required == m[b].required ==> a == b
  }

  /** A row other than `except` already uses the name key. */
  ghost predicate ProjectNameTaken(m: map<Id, Project>, key: string, except: Option<Id>)
  {
    exists k :: k in m && m[k].nameLower == key && Some(k) != except
  }

  ghost predicate PhaseNameTaken(m: map<Id, Phase>, key: string, except: Option<Id>)
  {
    exists k :: k in m && m[k].nameLower == key && Some(k) != except
  }

  ghost predicate TaskNameTaken(m: map<Id, Task>, key: string, except: Option<Id>)
  {
    exists k :: k in m && m[k].nameLower == key && Some(k) != except
  }

  /** Writing a row whose name no other row uses keeps the names unique. */
  lemma ProjectUpsert(m: map<Id, Project>, id: Id, row: Project)
    requires ProjectNamesUnique(m) && Keyed(row.name, row.nameLower)
    requires !ProjectNameTaken(m, row.nameLower, Some(id))
    ensures ProjectNamesUnique(m[id := row])
  {
  }

  lemma PhaseUpsert(m: map<Id, Phase>, id: Id, row: Phase)
    requires PhaseNamesUnique(m) && Keyed(row.name, row.nameLower)
    requires !PhaseNameTaken(m, row.nameLower, Some(id))
    ensures PhaseNamesUnique(m[id := row])
  {
  }

  lemma TaskUpsert(m: map<Id, Task>, id: Id, row: Task)
    requires TaskNamesUnique(m) && Keyed(row.name, row.nameLower)
    requires !TaskNameTaken(m, row.nameLower, Some(id))
    ensures TaskNamesUnique(m[id := row])
  {
  }

  /** Writing at an id below the (possibly advanced) next id keeps every id below it. */
  lemma KeysBelowUpsert<V>(m: map<Id, V>, id: Id, v: V, next: Id, next': Id)
    requires KeysBelow(m, next) && next <= next' && id < next'
    ensures KeysBelow(m[id := v], next')
  {
  }

  /** Changing only project and phase references keeps the task names unique. */
  lemma TaskNamesKept(a: map<Id, Task>, b: map<Id, Task>)
    requires TaskNamesUnique(a)
    requires a.Keys == b.Keys
    requires forall k :: k in a ==> b[k].name == a[k].name && b[k].nameLower == a[k].nameLower
    ensures TaskNamesUnique(b)
  {
  }

  /** `description or ""`. */
  function OrEmpty(d: Option<string>): string
  {
    if d.Some? then d.value else ""
  }

  /** `add_task` fills a missing project from the phase, when that phase exists. */
  function FilledProject(phases: map<Id, Phase>, projectId: Option<Id>, phaseId: Option<Id>): Option<Id>
  {
    if projectId.None? && phaseId.Some? && phaseId.value in phases then Some(phases[phaseId.value].projectId)
    else projectId
  }

  /** The first check `save_task_record` fails, if any. */
  ghost function SaveTaskFailure(tasks: map<Id, Task>, phases: map<Id, Phase>, rec: TaskRecord): Option<StoreError>
  {
    if rec.taskId.Some? && rec.taskId.value !in tasks then Some(InvalidTaskId)
    else if TaskNameTaken(tasks, Lower(rec.name), rec.taskId) then Some(DuplicateName)
    else if rec.phaseId.Some? && rec.phaseId.value !in phases then Some(InvalidPhaseId)
    else if !PhaseAgrees(phases, rec.projectId, rec.phaseId) then Some(PhaseNotInTaskProject)
    else None
  }

  /** Tasks of project `from` moved to project `to` (`replace_task_project_refs`). */
  function RetargetProject(tasks: map<Id, Task>, from: Option<Id>, to: Option<Id>): (r: map<Id, Task>)
    ensures r.Keys == tasks.Keys
    ensures forall k :: k in tasks && tasks[k].projectId == from ==> r[k] == tasks[k].(projectId := to)
    ensures forall k :: k in tasks && tasks[k].projectId != from ==> r[k] == tasks[k]
  {
    map k | k in tasks :: if tasks[k].projectId == from then tasks[k].(projectId := to) else tasks[k]
  }

  /** Tasks of phase `from` taken out of every phase, keeping their project. */
  function ClearPhase(tasks: map<Id, Task>, from: Option<Id>): (r: map<Id, Task>)
    ensures r.Keys == tasks.Keys
    ensures forall k :: k in tasks && tasks[k].phaseId == from ==> r[k] == tasks[k].(phaseId := None)
    ensures forall k :: k in tasks && tasks[k].phaseId != from ==> r[k] == tasks[k]
  {
    map k | k in tasks :: if tasks[k].phaseId == from then tasks[k].(phaseId := None) else tasks[k]
  }

  /** Tasks of phase `from` moved into phase `to` of project `pid`. */
  function RetargetPhase(tasks: map<Id, Task>, from: Option<Id>, to: Id, pid: Id): (r: map<Id, Task>)
    ensures r.Keys == tasks.Keys
    ensures forall k :: k in tasks && tasks[k].phaseId == from ==> r[k] == tasks[k].(phaseId := Some(to), projectId := Some(pid))
    ensures forall k :: k in tasks && tasks[k].phaseId != from ==> r[k] == tasks[k]
  {
    map k | k in tasks :: if tasks[k].phaseId == from then tasks[k].(phaseId := Some(to), projectId := Some(pid)) else tasks[k]
  }

  /** The tasks of phase `ph` follow it into project `pid` (`move_phase_and_tasks_to_project`). */
  function FollowPhase(tasks: map<Id, Task>, ph: Id, pid: Id): (r: map<Id, Task>)
    ensures r.Keys == tasks.Keys
    ensures forall k :: k in tasks && tasks[k].phaseId == Some(ph) ==> r[k] == tasks[k].(projectId := Some(pid))
    ensures forall k :: k in tasks && tasks[k].phaseId != Some(ph) ==> r[k] == tasks[k]
  {
    map k | k in tasks :: if tasks[k].phaseId == Some(ph) then tasks[k].(projectId := Some(pid)) else tasks[k]
  }

  lemma RetargetProjectByRow(before: map<Id, Task>, after: map<Id, Task>, from: Option<Id>, to: Option<Id>)
    requires after.Keys == before.Keys
    requires forall k :: k in after ==> after[k] == if before[k].projectId == from then before[k].(projectId := to) else before[k]
    ensures after == RetargetProject(before, from, to)
  {
  }

  lemma ClearPhaseByRow(before: map<Id, Task>, after: map<Id, Task>, from: Option<Id>)
    requires after.Keys == before.Keys
    requires forall k :: k in after ==> after[k] == if before[k].phaseId == from then before[k].(phaseId := None) else before[k]
    ensures after == ClearPhase(before, from)
  {
  }

  lemma RetargetPhaseByRow(before: map<Id, Task>, after: map<Id, Task>, from: Option<Id>, to: Id, pid: Id)
    requires after.Keys == before.Keys
    requires forall k :: k in after ==>
               after[k] == if before[k].phaseId == from then before[k].(phaseId := Some(to), projectId := Some(pid)) else before[k]
    ensures after == RetargetPhase(before, from, to, pid)
  {
  }

  /** A per-row description of `FollowPhase`, as the update loop establishes it. */
  lemma FollowPhaseByRow(before: map<Id, Task>, after: map<Id, Task>, ph: Id, pid: Id)
    requires after.Keys == before.Keys
    requires forall k :: k in after ==> after[k] == if before[k].phaseId == Some(ph) then before[k].(projectId := Some(pid)) else before[k]
    ensures after == FollowPhase(before, ph, pid)
  {
  }

  /** The edges that survive deleting task `id`: those that mention it in neither end. */
  function EdgesWithout(blockers: map<Id, Blocker>, id: Id): (r: map<Id, Blocker>)
    ensures forall k :: k in r ==> r[k].item != id && r[k].required != id
    ensures forall k :: k in blockers && blockers[k].item != id && blockers[k].required != id ==> k in r && r[k] == blockers[k]
    ensures r.Keys <= blockers.Keys
  {
    map k | k in blockers && blockers[k].item != id && blockers[k].required != id :: blockers[k]
  }

  // ---------------------------------------------------------------------------
  // Read-only queries over the tables.

  /**
   * `get_task_blockers`: the tasks that block `taskId`, skipping edges to
   * tasks that no longer exist and, with `onlyNotDone`, tasks marked Done.
   */
  ghost predicate BlocksTask(tasks: map<Id, Task>, blockers: map<Id, Blocker>, taskId: Option<Id>,
                             onlyNotDone: bool, x: Id)
  {
    (exists k :: k in blockers && Some(blockers[k].item) == taskId && blockers[k].required == x) &&
    x in tasks && (onlyNotDone ==> tasks[x].status != DoneStatus)
  }

  method TaskBlockers(tasks: map<Id, Task>, blockers: map<Id, Blocker>, taskId: Option<Id>, onlyNotDone: bool)
    returns (s: seq<Id>)
    requires EdgesUnique(blockers)
    ensures forall x :: x in s <==> BlocksTask(tasks, blockers, taskId, onlyNotDone, x)
    ensures forall i, j :: 0 <= i < j < |s| ==> s[i] != s[j]
  {
    s := [];
    ghost var via: seq<Id> := [];
    var rest := blockers.Keys;
    while rest != {}
      invariant rest <= blockers.Keys
      invariant forall x :: x in s ==> BlocksTask(tasks, blockers, taskId, onlyNotDone, x)
      invariant forall k :: (k in blockers && k !in rest && Some(blockers[k].item) == taskId &&
                             blockers[k].required in tasks &&
                             (onlyNotDone ==> tasks[blockers[k].required].status != DoneStatus)) ==>
                  blockers[k].required in s
      invariant |via| == |s|
      invariant forall i :: 0 <= i < |s| ==> via[i] in blockers && via[i] !in rest && Some(blockers[via[i]].item) == taskId && blockers[via[i]].required == s[i]
      invariant forall i, j :: 0 <= i < j < |s| ==> s[i] != s[j]
      decreases rest
    {
      var k :| k in rest;
      var b := blockers[k];
      if Some(b.item) == taskId && b.required in tasks && (!onlyNotDone || tasks[b.required].status != DoneStatus) {
        forall i | 0 <= i < |s|
          ensures s[i] != b.required
        {
          assert via[i] != k;
        }
        s, via := s + [b.required], via + [k];
      }
      rest := rest - {k};
    }
  }

  /** `get_tasks_blocked`: the existing tasks that `taskId` blocks. */
  ghost predicate BlockedBy(tasks: map<Id, Task>, blockers: map<Id, Blocker>, taskId: Option<Id>, x: Id)
  {
    (exists k :: k in blockers && Some(blockers[k].required) == taskId && blockers[k].item == x) && x in tasks
  }

  method TasksBlocked(tasks: map<Id, Task>, blockers: map<Id, Blocker>, taskId: Option<Id>) returns (s: seq<Id>)
    requires EdgesUnique(blockers)
    ensures forall x :: x in s <==> BlockedBy(tasks, blockers, taskId, x)
    ensures forall i, j :: 0 <= i < j < |s| ==> s[i] != s[j]
  {
    s := [];
    ghost var via: seq<Id> := [];
    var rest := blockers.Keys;
    while rest != {}
      invariant rest <= blockers.Keys
      invariant forall x :: x in s ==> BlockedBy(tasks, blockers, taskId, x)
      invariant forall k :: (k in blockers && k !in rest && Some(blockers[k].required) == taskId &&
                             blockers[k].item in tasks) ==> blockers[k].item in s
      invariant |via| == |s|
      invariant forall i :: 0 <= i < |s| ==> via[i] in blockers && via[i] !in rest && Some(blockers[via[i]].required) == taskId && blockers[via[i]].item == s[i]
      invariant forall i, j :: 0 <= i < j < |s| ==> s[i] != s[j]
      decreases rest
    {
      var k :| k in rest;
      var b := blockers[k];
      if Some(b.required) == taskId && b.item in tasks {
        forall i | 0 <= i < |s|
          ensures s[i] != b.item
        {
          assert via[i] != k;
        }
        s, via := s + [b.item], via + [k];
      }
      rest := rest - {k};
    }
  }

  /** `get_projects_by_parent_id`: the children of a project, or the root projects for None. */
  method ProjectsByParent(projects: map<Id, Project>, parentId: Option<Id>) returns (s: seq<Id>)
    ensures forall x :: x in s <==> x in projects && projects[x].parentId == parentId
    ensures forall i, j :: 0 <= i < j < |s| ==> s[i] != s[j]
  {
    s := [];
    var rest := projects.Keys;
    while rest != {}
      invariant rest <= projects.Keys
      invariant forall x :: x in s <==> x in projects && x !in rest && projects[x].parentId == parentId
      invariant forall i, j :: 0 <= i < j < |s| ==> s[i] != s[j]
      decreases rest
    {
      var k :| k in rest;
      rest := rest - {k};
      if projects[k].parentId == parentId {
        s := s + [k];
      }
    }
  }

  /** `get_phase_by_id`: the phase with its `follows` derived from position. */
  method PhaseById(t: PhaseTable, id: Option<Id>) returns (r: Option<PhaseRecord>)
    ensures r.Some? <==> id.Some? && id.value in t
    ensures r.Some? ==> r.value == PhaseRecordOf(id.value, t[id.value], r.value.followsId)
    ensures r.Some? && r.value.followsId.Some? ==>
              IsLastBelow(t, t[id.value].projectId, t[id.value].position, r.value.followsId.value)
    ensures r.Some? && r.value.followsId.None? ==> NoneBelow(t, t[id.value].projectId, t[id.value].position)
  {
    if id.None? || id.value !in t {
      return None;
    }
    var row := t[id.value];
    var f := FindLastBelow(t, row.projectId, row.position);
    r := Some(PhaseRecordOf(id.value, row, f));
  }

  /**
   * `get_phase_that_follows`: the phase right after `id` in its project. When
   * positions are distinct, that phase's derived `follows` is `id` itself.
   */
  method PhaseThatFollows(t: PhaseTable, id: Option<Id>) returns (r: Option<PhaseRecord>)
    ensures id.None? || id.value !in t ==> r.None?
    ensures r.Some? ==> id.Some? && id.value in t && r.value.phaseId.Some? &&
                        IsFirstAbove(t, t[id.value].projectId, None, t[id.value].position, r.value.phaseId.value)
    ensures id.Some? && id.value in t && r.None? ==> NoneAbove(t, t[id.value].projectId, None, t[id.value].position)
    ensures r.Some? ==> r.value.phaseId.value in t &&
                        r.value == PhaseRecordOf(r.value.phaseId.value, t[r.value.phaseId.value], r.value.followsId)
    ensures r.Some? && DistinctPositions(t) ==> r.value.followsId == id
  {
    if id.None? || id.value !in t {
      return None;
    }
    var row := t[id.value];
    var next := FindFirstAbove(t, row.projectId, None, row.position);
    if next.None? {
      return None;
    }
    r := PhaseById(t, next);
    if DistinctPositions(t) {
      assert IsLastBelow(t, row.projectId, t[next.value].position, id.value);
      if r.value.followsId.Some? {
        FollowsIsUnique(t, row.projectId, t[next.value].position, r.value.followsId.value, id.value);
      }
    }
  }

  /**
   * The record of the `i`-th phase of a project's ordered list; with distinct
   * positions its derived `follows` is the entry before it.
   */
  method RecordInList(t: PhaseTable, pid: Id, s: seq<Id>, i: int) returns (rec: PhaseRecord)
    requires SortedByPosition(t, s)
    requires forall a, b :: 0 <= a < b < |s| ==> s[a] != s[b]
    requires forall k :: 0 <= k < |s| ==> InProject(t, pid, s[k])
    requires forall q :: InProject(t, pid, q) ==> q in s
    requires 0 <= i < |s|
    ensures rec.phaseId == Some(s[i]) && rec.position == t[s[i]].position
    ensures DistinctPositions(t) && i == 0 ==> rec.followsId.None?
    ensures DistinctPositions(t) && 0 < i ==> rec.followsId == Some(s[i-1])
  {
    var r := PhaseById(t, Some(s[i]));
    rec := r.value;
    if DistinctPositions(t) {
      OrderedListIsChain(t, pid, s, i);
      if 0 < i && rec.followsId.Some? {
        FollowsIsUnique(t, pid, t[s[i]].position, rec.followsId.value, s[i-1]);
      }
    }
  }

  /** Each record's `follows` is the record listed before it. */
  ghost predicate Chained(rs: seq<PhaseRecord>)
  {
    forall k :: 0 < k < |rs| ==> rs[k].followsId == rs[k-1].phaseId
  }

  /** The records of an ordered list of a project's phases, entry by entry. */
  method RecordsOf(t: PhaseTable, pid: Id, s: seq<Id>) returns (rs: seq<PhaseRecord>)
    requires SortedByPosition(t, s)
    requires forall a, b :: 0 <= a < b < |s| ==> s[a] != s[b]
    requires forall k :: 0 <= k < |s| ==> InProject(t, pid, s[k])
    requires forall q :: InProject(t, pid, q) ==> q in s
    ensures |rs| == |s|
    ensures forall k :: 0 <= k < |s| ==> rs[k].phaseId == Some(s[k]) && rs[k].position == t[s[k]].position
    ensures DistinctPositions(t) && |rs| > 0 ==> rs[0].followsId.None?
    ensures DistinctPositions(t) ==> Chained(rs)
  {
    rs := [];
    var i := 0;
    while i < |s|
      invariant 0 <= i <= |s| && |rs| == i
      invariant forall k :: 0 <= k < i ==> rs[k].phaseId == Some(s[k]) && rs[k].position == t[s[k]].position
      invariant DistinctPositions(t) && 0 < i ==> rs[0].followsId.None?
      invariant DistinctPositions(t) ==> Chained(rs)
    {
      var rec := RecordInList(t, pid, s, i);
      rs := rs + [rec];
      i := i + 1;
    }
  }

  /**
   * `get_phases_by_project_id`: the phases of a project in position order,
   * each with its derived `follows`; when positions are distinct each phase
   * follows the one listed before it.
   */
  method PhasesOfProject(t: PhaseTable, pid: Id) returns (rs: seq<PhaseRecord>)
    ensures forall i :: 0 <= i < |rs| ==> rs[i].phaseId.Some? && InProject(t, pid, rs[i].phaseId.value) &&
                                           rs[i].position == t[rs[i].phaseId.value].position
    ensures forall q: Id :: InProject(t, pid, q) ==> exists i :: 0 <= i < |rs| && rs[i].phaseId == Some(q)
    ensures forall i, j :: 0 <= i < j < |rs| ==> rs[i].position <= rs[j].position && rs[i].phaseId != rs[j].phaseId
    ensures DistinctPositions(t) && |rs| > 0 ==> rs[0].followsId.None?
    ensures DistinctPositions(t) ==> Chained(rs)
  {
    var s := PhasesInOrder(t, pid);
    rs := RecordsOf(t, pid, s);
    RecordsFollowList(t, pid, s, rs);
  }

  /** Records made entry by entry from the ordered list inherit its order and coverage. */
  lemma RecordsFollowList(t: PhaseTable, pid: Id, s: seq<Id>, rs: seq<PhaseRecord>)
    requires SortedByPosition(t, s)
    requires forall a, b :: 0 <= a < b < |s| ==> s[a] != s[b]
    requires forall k :: 0 <= k < |s| ==> InProject(t, pid, s[k])
    requires forall q :: InProject(t, pid, q) ==> q in s
    requires |rs| == |s|
    requires forall k :: 0 <= k < |s| ==> rs[k].phaseId == Some(s[k]) && rs[k].position == t[s[k]].position
    ensures forall i :: 0 <= i < |rs| ==> rs[i].phaseId.Some? && InProject(t, pid, rs[i].phaseId.value) &&
                                           rs[i].position == t[rs[i].phaseId.value].position
    ensures forall q: Id :: InProject(t, pid, q) ==> exists i :: 0 <= i < |rs| && rs[i].phaseId == Some(q)
    ensures forall i, j :: 0 <= i < j < |rs| ==> rs[i].position <= rs[j].position && rs[i].phaseId != rs[j].phaseId
  {
    forall q: Id | InProject(t, pid, q)
      ensures exists i :: 0 <= i < |rs| && rs[i].phaseId == Some(q)
    {
      var k :| 0 <= k < |s| && s[k] == q;
      assert rs[k].phaseId == Some(q);
    }
  }

  /** The project a saved phase belongs to: the record's id wins over `projectId`. */
  function PhaseOwner(projectId: Option<Id>, project: Option<ProjectRecord>): Option<Id>
  {
    if project.Some? then project.value.projectId else projectId
  }

  /** The position rule's outcome for a phase saved with or without `follows`. */
  ghost predicate PlannedPhase(t: PhaseTable, self: Option<Id>, pid: Id, followsId: Option<Id>, p: Placement, anchor: Option<Id>)
  {
    (followsId.None? ==> Appended(t, pid, self, p, anchor)) &&
    (followsId.Some? ==> Inserted(t, pid, self, followsId.value, p, anchor))
  }

  /** The first of `_save_phase`'s checks on the name and the project that fails, if any. */
  ghost function OwnerFailure(projects: map<Id, Project>, phases: PhaseTable, name: string, phaseId: Option<Id>,
                              projectId: Option<Id>, project: Option<ProjectRecord>): Option<StoreError>
  {
    var pid := PhaseOwner(projectId, project);
    if PhaseNameTaken(phases, Lower(name), phaseId) then Some(DuplicateName)
    else if projectId.None? && project.None? then Some(PhaseNeedsProject)
    else if pid.None? || pid.value !in projects then Some(InvalidProjectId)
    else None
  }

  /** `_save_phase`'s checks on the name and the project; the project the phase goes to. */
  method CheckOwner(projects: map<Id, Project>, phases: PhaseTable, name: string, phaseId: Option<Id>,
                    projectId: Option<Id>, project: Option<ProjectRecord>)
    returns (r: Result<Id, StoreError>)
    requires PhaseNamesUnique(phases)
    ensures r.Err? <==> OwnerFailure(projects, phases, name, phaseId, projectId, project).Some?
    ensures r.Err? ==> r.error == OwnerFailure(projects, phases, name, phaseId, projectId, project).value
    ensures r.Ok? ==> PhaseOwner(projectId, project) == Some(r.value) && r.value in projects &&
                      !PhaseNameTaken(phases, Lower(name), phaseId)
  {
    var key := Lower(name);
    var existing := FirstWhere(phases, (p: Phase) => p.nameLower == key);
    if existing.Some? && Some(existing.value) != phaseId {
      return Err(DuplicateName);
    }
    assert !PhaseNameTaken(phases, key, phaseId);
    if projectId.None? && project.None? {
      return Err(PhaseNeedsProject);
    }
    var owner := PhaseOwner(projectId, project);
    if owner.None? || owner.value !in projects {
      return Err(InvalidProjectId);
    }
    r := Ok(owner.value);
  }

  /** The first check `_save_phase` fails, in the order it makes them, if any. */
  ghost function SavePhaseFailure(projects: map<Id, Project>, phases: PhaseTable, name: string, phaseId: Option<Id>,
                                  projectId: Option<Id>, project: Option<ProjectRecord>, followsId: Option<Id>): Option<StoreError>
  {
    var pid := PhaseOwner(projectId, project);
    if OwnerFailure(projects, phases, name, phaseId, projectId, project).Some? then
      OwnerFailure(projects, phases, name, phaseId, projectId, project)
    else if followsId.Some? && followsId == phaseId then Some(Misplaced(FollowsItself))
    else if followsId.Some? && followsId.value !in phases then Some(Misplaced(FollowsMissing))
    else if followsId.Some? && phases[followsId.value].projectId != pid.value then Some(Misplaced(FollowsOtherProject))
    else if phaseId.Some? && phaseId.value !in phases then Some(InvalidPhaseId)
    else None
  }

  /**
   * The checks `_save_phase` makes, in its order, and the row it writes: at
   * the given phase id, or at `nextId` for a new phase. The
   * record returned to the caller carries the derived `follows`.
   */
  method PlanPhase(projects: map<Id, Project>, phases: PhaseTable, nextId: Id, name: string, description: Option<string>, phaseId: Option<Id>,
                   projectId: Option<Id>, project: Option<ProjectRecord>, followsId: Option<Id>)
    returns (r: Result<(Id, Phase, Option<Id>), StoreError>, ghost anchor: Option<Id>)
    requires PhaseNamesUnique(phases) && nextId !in phases
    ensures r.Err? <==> SavePhaseFailure(projects, phases, name, phaseId, projectId, project, followsId).Some?
    ensures r.Err? ==> r.error == SavePhaseFailure(projects, phases, name, phaseId, projectId, project, followsId).value
    ensures r.Ok? ==>
              var (id, row, follows) := r.value;
              id == (if phaseId.Some? then phaseId.value else nextId) &&
              PhaseOwner(projectId, project) == Some(row.projectId) && row.projectId in projects &&
              row == Phase(name, Lower(name), description, row.projectId, row.position) &&
              !PhaseNameTaken(phases, row.nameLower, Some(id)) &&
              PlannedPhase(phases, phaseId, row.projectId, followsId, Placement(row.position, follows), anchor) &&
              (DistinctPositions(phases) ==> DistinctPositions(phases[id := row]))
  {
    anchor := None;
    var owner := CheckOwner(projects, phases, name, phaseId, projectId, project);
    if owner.Err? {
      return Err(owner.error), anchor;
    }
    var pid := owner.value;
    var placed;
    placed, anchor := Place(phases, pid, phaseId, followsId);
    if placed.Err? {
      return Err(Misplaced(placed.error)), anchor;
    }
    if phaseId.Some? && phaseId.value !in phases {
      return Err(InvalidPhaseId), anchor;
    }
    var id: Id := if phaseId.Some? then phaseId.value else nextId;
    var row := Phase(name, Lower(name), description, pid, placed.value.position);
    if DistinctPositions(phases) {
      PlacementKeepsPositionsDistinct(phases, pid, phaseId, placed.value, anchor, followsId, id, row);
    }
    r := Ok((id, row, placed.value.follows));
  }

  /** The table after phase `id` moved to project `pid` at position `pos`. */
  function Moved(t: PhaseTable, id: Id, pid: Id, pos: real): PhaseTable
    requires id in t
  {
    t[id := t[id].(projectId := pid, position := pos)]
  }

  /**
   * Where `move_phase_and_tasks_to_project` puts a phase: strictly after every
   * phase the destination already has, following the last of them (unless
   * that is the phase itself). A missing phase is a consistency error.
   */
  method PlanMove(t: PhaseTable, phaseId: Option<Id>, newPid: Id) returns (r: Result<PhaseRecord, StoreError>, ghost last: Option<Id>)
    ensures r.Err? <==> phaseId.None? || phaseId.value !in t
    ensures r.Err? ==> r.error == ConsistencyError
    ensures r.Ok? ==>
              var id := phaseId.value;
              var t' := Moved(t, id, newPid, r.value.position);
              r.value == PhaseRecordOf(id, t'[id], r.value.followsId) &&
              Appended(t, newPid, phaseId, Placement(r.value.position, r.value.followsId), last) &&
              IsLast(t', newPid, id) &&
              (forall q :: InProject(t, newPid, q) ==> t[q].position < r.value.position) &&
              (r.value.followsId.Some? ==> IsLastBelow(t', newPid, r.value.position, r.value.followsId.value)) &&
              (DistinctPositions(t) ==> DistinctPositions(t'))
  {
    var placed;
    placed, last := Place(t, newPid, phaseId, None);
    if phaseId.None? || phaseId.value !in t {
      return Err(ConsistencyError), last;
    }
    var id := phaseId.value;
    var row := t[id].(projectId := newPid, position := placed.value.position);
    AppendedGoesLast(t, newPid, phaseId, placed.value, last, id, row);
    if DistinctPositions(t) {
      PlacementKeepsPositionsDistinct(t, newPid, phaseId, placed.value, last, None, id, row);
    }
    r := Ok(PhaseRecordOf(id, row, placed.value.follows));
  }

  /**
   * The checks `add_task` makes, in its order, and the row it inserts at
   * `nextId`: a taken name, then a status other than ToDo, Doing or Done. A
   * task given only a phase takes that phase's project; neither the project
   * nor the phase has to exist.
   */
  method PlanAddTask(tasks: map<Id, Task>, phases: PhaseTable, nextId: Id, name: string, description: Option<string>,
                     status: string, projectId: Option<Id>, phaseId: Option<Id>)
    returns (r: Result<Task, StoreError>)
    requires nextId !in tasks
    ensures TaskNameTaken(tasks, Lower(name), None) ==> r == Err(DuplicateName)
    ensures !TaskNameTaken(tasks, Lower(name), None) && status !in ValidStatusValues ==> r == Err(InvalidStatus)
    ensures !TaskNameTaken(tasks, Lower(name), None) && status in ValidStatusValues ==>
              r == Ok(Task(name, Lower(name), status, Some(OrEmpty(description)), FilledProject(phases, projectId, phaseId), phaseId))
    ensures r.Ok? ==> !TaskNameTaken(tasks, r.value.nameLower, Some(nextId)) && Keyed(r.value.name, r.value.nameLower)
  {
    var key := Lower(name);
    var existing := FirstWhere(tasks, (t: Task) => t.nameLower == key);
    if existing.Some? {
      return Err(DuplicateName);
    }
    if status !in ValidStatusValues {
      return Err(InvalidStatus);
    }
    var pid := projectId;
    if projectId.None? && phaseId.Some? && phaseId.value in phases {
      pid := Some(phases[phaseId.value].projectId);
    }
    r := Ok(Task(name, key, status, Some(OrEmpty(description)), pid, phaseId));
  }

  /**
   * The checks `save_task_record` makes, in its order, and the row it writes
   * at the record's id, or at `nextId` for a record without one.
   */
  method PlanTaskSave(tasks: map<Id, Task>, phases: PhaseTable, nextId: Id, rec: TaskRecord)
    returns (r: Result<(Id, Task), StoreError>)
    requires TaskNamesUnique(tasks) && nextId !in tasks
    ensures r.Err? <==> SaveTaskFailure(tasks, phases, rec).Some?
    ensures r.Err? ==> r.error == SaveTaskFailure(tasks, phases, rec).value
    ensures r.Ok? ==> r.value.0 == (if rec.taskId.Some? then rec.taskId.value else nextId) &&
                      r.value.1 == Task(rec.name, Lower(rec.name), rec.status, rec.description, rec.projectId, rec.phaseId) &&
                      !TaskNameTaken(tasks, r.value.1.nameLower, Some(r.value.0)) &&
                      PhaseAgrees(phases, rec.projectId, rec.phaseId)
  {
    if rec.taskId.Some? && rec.taskId.value !in tasks {
      return Err(InvalidTaskId);
    }
    var key := Lower(rec.name);
    var dup := FirstWhere(tasks, (t: Task) => t.nameLower == key);
    if dup.Some? && Some(dup.value) != rec.taskId {
      return Err(DuplicateName);
    }
    assert !TaskNameTaken(tasks, key, rec.taskId);
    if rec.phaseId.Some? {
      if rec.phaseId.value !in phases {
        return Err(InvalidPhaseId);
      }
      if Some(phases[rec.phaseId.value].projectId) != rec.projectId {
        return Err(PhaseNotInTaskProject);
      }
    }
    var id := if rec.taskId.Some? then rec.taskId.value else nextId;
    r := Ok((id, Task(rec.name, key, rec.status, rec.description, rec.projectId, rec.phaseId)));
  }

  /** The parent `add_project` uses: an explicit `parentId` wins over the `parent` record. */
  function ChosenParent(parentId: Option<Id>, parent: Option<ProjectRecord>): Option<Id>
  {
    if parentId.Some? then parentId else if parent.Some? then parent.value.projectId else None
  }

  /**
   * The checks `add_project` makes, in its order, and the row it inserts: a
   * taken name, then a parent that does not exist.
   */
  method PlanAddProject(projects: map<Id, Project>, nextId: Id, name: string, description: Option<string>,
                        parentId: Option<Id>, parent: Option<ProjectRecord>)
    returns (r: Result<Project, StoreError>)
    requires nextId !in projects
    ensures ProjectNameTaken(projects, Lower(name), None) ==> r == Err(DuplicateName)
    ensures !ProjectNameTaken(projects, Lower(name), None) ==>
              var pid := ChosenParent(parentId, parent);
              if pid.Some? && pid.value !in projects then r == Err(InvalidParent)
              else r == Ok(Project(name, Lower(name), Some(OrEmpty(description)), pid))
    ensures r.Ok? ==> !ProjectNameTaken(projects, r.value.nameLower, Some(nextId)) && Keyed(r.value.name, r.value.nameLower)
  {
    var key := Lower(name);
    var existing := FirstWhere(projects, (p: Project) => p.nameLower == key);
    if existing.Some? {
      return Err(DuplicateName);
    }
    var pid := ChosenParent(parentId, parent);
    if pid.Some? && pid.value !in projects {
      return Err(InvalidParent);
    }
    r := Ok(Project(name, key, Some(OrEmpty(description)), pid));
  }

  /**
   * The checks `save_project_record` makes, in its order, and the row it
   * writes: an id that does not exist, then a name another project has. The
   * parent is written as given and not checked.
   */
  method PlanProjectSave(projects: map<Id, Project>, nextId: Id, rec: ProjectRecord)
    returns (r: Result<(Id, Project), StoreError>)
    requires ProjectNamesUnique(projects) && nextId !in projects
    ensures rec.projectId.Some? && rec.projectId.value !in projects ==> r == Err(InvalidProjectId)
    ensures !(rec.projectId.Some? && rec.projectId.value !in projects) ==>
              if ProjectNameTaken(projects, Lower(rec.name), rec.projectId) then r == Err(DuplicateName)
              else r == Ok((if rec.projectId.Some? then rec.projectId.value else nextId,
                            Project(rec.name, Lower(rec.name), rec.description, rec.parentId)))
    ensures r.Ok? ==> !ProjectNameTaken(projects, r.value.1.nameLower, Some(r.value.0))
  {
    if rec.projectId.Some? && rec.projectId.value !in projects {
      return Err(InvalidProjectId);
    }
    var key := Lower(rec.name);
    var dup := FirstWhere(projects, (p: Project) => p.nameLower == key);
    if dup.Some? && Some(dup.value) != rec.projectId {
      return Err(DuplicateName);
    }
    assert !ProjectNameTaken(projects, key, rec.projectId);
    var id := if rec.projectId.Some? then rec.projectId.value else nextId;
    r := Ok((id, Project(rec.name, key, rec.description, rec.parentId)));
  }

  /**
   * The loop the reference rewrites share: every task that `sel` picks
   * becomes `upd` of itself; the others are kept.
   */
  method UpdateWhere(ts: map<Id, Task>, sel: Task -> bool, upd: Task -> Task) returns (r: map<Id, Task>)
    ensures r.Keys == ts.Keys
    ensures forall k :: k in r ==> r[k] == if sel(ts[k]) then upd(ts[k]) else ts[k]
  {
    r := ts;
    var rest := r.Keys;
    while rest != {}
      invariant rest <= r.Keys && r.Keys == ts.Keys
      invariant forall k :: k in rest ==> r[k] == ts[k]
      invariant forall k :: k in r && k !in rest ==> r[k] == if sel(ts[k]) then upd(ts[k]) else ts[k]
      decreases rest
    {
      var k :| k in rest;
      rest := rest - {k};
      if sel(r[k]) {
        r := r[k := upd(r[k])];
      }
    }
  }

  /** The loop of `delete_task_record` that deletes every edge mentioning task `id`. */
  method DropEdgesOf(blockers: map<Id, Blocker>, id: Id) returns (r: map<Id, Blocker>)
    ensures r == EdgesWithout(blockers, id)
  {
    r := blockers;
    var rest := r.Keys;
    while rest != {}
      invariant rest <= r.Keys <= blockers.Keys
      invariant forall k :: k in r ==> r[k] == blockers[k]
      invariant forall k :: k in blockers && k !in rest ==> (k in r <==> blockers[k].item != id && blockers[k].required != id)
      decreases rest
    {
      var k :| k in rest;
      rest := rest - {k};
      if r[k].item == id || r[k].required == id {
        r := r - {k};
      }
    }
  }

  /** Every task of a phase listed in `moved` has followed its phase into `heir`. */
  function HandedTasks(tasks: map<Id, Task>, moved: seq<Id>, heir: Id): (r: map<Id, Task>)
    ensures r.Keys == tasks.Keys
    ensures forall k :: k in tasks && tasks[k].phaseId.Some? && tasks[k].phaseId.value in moved ==>
                          r[k] == tasks[k].(projectId := Some(heir))
    ensures forall k :: k in tasks && (tasks[k].phaseId.None? || tasks[k].phaseId.value !in moved) ==> r[k] == tasks[k]
  {
    map k | k in tasks :: if tasks[k].phaseId.Some? && tasks[k].phaseId.value in moved then tasks[k].(projectId := Some(heir)) else tasks[k]
  }

  /** Moving the next listed phase and its tasks extends the hand-over by that phase. */
  lemma HandedStep(tasks: map<Id, Task>, list: seq<Id>, n: nat, heir: Id)
    requires n < |list|
    ensures FollowPhase(HandedTasks(tasks, list[..n], heir), list[n], heir) == HandedTasks(tasks, list[..n + 1], heir)
  {
    var moved, ph := list[..n], list[n];
    assert list[..n + 1] == moved + [ph];
    var a := FollowPhase(HandedTasks(tasks, moved, heir), ph, heir);
    var b := HandedTasks(tasks, moved + [ph], heir);
    forall k | k in tasks
      ensures a[k] == b[k]
    {
      assert tasks[k].phaseId.Some? && tasks[k].phaseId.value in moved + [ph] <==>
             (tasks[k].phaseId.Some? && tasks[k].phaseId.value in moved) || tasks[k].phaseId == Some(ph);
    }
  }

  /** Before any phase has moved, the hand-over has changed nothing. */
  lemma HandedNothing(tasks: map<Id, Task>, heir: Id)
    ensures HandedTasks(tasks, [], heir) == tasks
  {
  }

  /**
   * After the first `n` phases of `list` moved to `heir`: the other rows are
   * as before and each moved phase changed only its project and position
   * (`HandedRows`); the moved phases keep their order and sit above every
   * phase the heir already had (`HandedOrder`).
   */
  ghost predicate HandedPhases(before: PhaseTable, after: PhaseTable, list: seq<Id>, n: nat, heir: Id)
    requires n <= |list|
  {
    HandedRows(before, after, list, n, heir) && HandedOrder(before, after, list, n, heir)
  }

  ghost predicate HandedRows(before: PhaseTable, after: PhaseTable, list: seq<Id>, n: nat, heir: Id)
    requires n <= |list|
  {
    after.Keys == before.Keys &&
    (forall q :: q in after && q !in list[..n] ==> after[q] == before[q]) &&
    (forall j :: 0 <= j < n ==>
       list[j] in before && after[list[j]] == before[list[j]].(projectId := heir, position := after[list[j]].position))
  }

  ghost predicate HandedOrder(before: PhaseTable, after: PhaseTable, list: seq<Id>, n: nat, heir: Id)
    requires n <= |list|
    requires HandedRows(before, after, list, n, heir)
  {
    (forall a, b :: 0 <= a < b < n ==> after[list[a]].position < after[list[b]].position) &&
    (forall q, j :: InProject(before, heir, q) && q !in list && 0 <= j < n ==> before[q].position < after[list[j]].position)
  }

  /** In a list without repeats, no element occurs before its own index. */
  lemma NotListedEarlier(list: seq<Id>, n: nat)
    requires n < |list|
    requires forall a, b :: 0 <= a < b < |list| ==> list[a] != list[b]
    ensures list[n] !in list[..n]
  {
  }

  /** Moving the next listed phase to the end of the heir extends `HandedPhases` by one. */
  lemma HandedPhasesStep(before: PhaseTable, mid: PhaseTable, list: seq<Id>, n: nat, heir: Id, pos: real)
    requires n < |list| && list[n] in mid
    requires forall a, b :: 0 <= a < b < |list| ==> list[a] != list[b]
    requires HandedPhases(before, mid, list, n, heir)
    requires forall q :: InProject(mid, heir, q) ==> mid[q].position < pos
    ensures HandedPhases(before, Moved(mid, list[n], heir, pos), list, n + 1, heir)
  {
    NotListedEarlier(list, n);
    HandedRowsStep(before, mid, list, n, heir, pos);
    HandedOrderStep(before, mid, list, n, heir, pos);
  }

  lemma HandedRowsStep(before: PhaseTable, mid: PhaseTable, list: seq<Id>, n: nat, heir: Id, pos: real)
    requires n < |list| && list[n] in mid && list[n] !in list[..n]
    requires HandedRows(before, mid, list, n, heir)
    ensures HandedRows(before, Moved(mid, list[n], heir, pos), list, n + 1, heir)
  {
    var x := list[n];
    var after := Moved(mid, x, heir, pos);
    assert list[..n + 1] == list[..n] + [x];
    forall q | q in after && q !in list[..n + 1]
      ensures after[q] == before[q]
    {
      assert q !in list[..n];
    }
    assert mid[x] == before[x];
  }

  lemma HandedOrderStep(before: PhaseTable, mid: PhaseTable, list: seq<Id>, n: nat, heir: Id, pos: real)
    requires n < |list| && list[n] in mid && list[n] !in list[..n]
    requires HandedRows(before, mid, list, n, heir) && HandedOrder(before, mid, list, n, heir)
    requires HandedRows(before, Moved(mid, list[n], heir, pos), list, n + 1, heir)
    requires forall q :: InProject(mid, heir, q) ==> mid[q].position < pos
    ensures HandedOrder(before, Moved(mid, list[n], heir, pos), list, n + 1, heir)
  {
    var x := list[n];
    var after := Moved(mid, x, heir, pos);
    forall a, b | 0 <= a < b < n + 1
      ensures after[list[a]].position < after[list[b]].position
    {
      if b == n {
        assert list[a] in list[..n];
        assert InProject(mid, heir, list[a]);
      }
    }
    forall q, j | InProject(before, heir, q) && q !in list && 0 <= j < n + 1
      ensures before[q].position < after[list[j]].position
    {
      if j == n {
        assert q !in list[..n];
        assert InProject(mid, heir, q);
      } else {
        assert list[j] in list[..n];
      }
    }
  }

  /** Nothing has moved yet. */
  lemma HandedPhasesNone(t: PhaseTable, list: seq<Id>, heir: Id)
    ensures HandedPhases(t, t, list, 0, heir)
  {
  }

  /** `s` lists the phases of `pid`, each once, in position order (what `PhasesInOrder` returns). */
  ghost predicate PhaseListing(t: PhaseTable, pid: Id, s: seq<Id>)
  {
    SortedByPosition(t, s) &&
    (forall i :: 0 <= i < |s| ==> InProject(t, pid, s[i])) &&
    (forall q :: InProject(t, pid, q) ==> q in s) &&
    (forall i, j :: 0 <= i < j < |s| ==> s[i] != s[j])
  }

  /**
   * The contents of project `pid` went to `heir`: its phases, listed in
   * position order, moved to the end of the heir's phases with their tasks;
   * with no phases, its tasks were pointed at the heir instead.
   */
  ghost predicate HandedOver(ph0: PhaseTable, t0: map<Id, Task>, ph1: PhaseTable, t1: map<Id, Task>, pid: Id, heir: Id)
  {
    exists list :: PhaseListing(ph0, pid, list) &&
      HandedPhases(ph0, ph1, list, |list|, heir) &&
      (|list| == 0 ==> t1 == RetargetProject(t0, Some(pid), Some(heir))) &&
      (|list| > 0 ==> t1 == HandedTasks(t0, list, heir))
  }

  /**
   * `h` is the project that inherits the contents of `rec` (`ResolveHeir`),
   * judged by the projects `p0` and the next free id `next0` beforehand:
   * the parent, else the existing "Orphans" project, else the new one.
   */
  ghost predicate HeirOf(p0: map<Id, Project>, next0: Id, rec: ProjectRecord, h: Id)
  {
    if rec.parentId.Some? then h == rec.parentId.value && h in p0
    else if ProjectNameTaken(p0, Lower(OrphansName), None) then h in p0 && p0[h].nameLower == Lower(OrphansName)
    else h == next0
  }

  /** Every row of `p0` is still in `p1`, unchanged. */
  ghost predicate RowsKept(p0: map<Id, Project>, p1: map<Id, Project>)
  {
    forall k :: k in p0 ==> k in p1 && p1[k] == p0[k]
  }

  /** No project names `pid` as its parent. */
  ghost predicate Childless(p: map<Id, Project>, pid: Id)
  {
    forall c :: c in p ==> p[c].parentId != Some(pid)
  }

  /** Only the owner of a row changed (and, for a phase, its position). */
  ghost predicate OwnersMoved(ph0: PhaseTable, t0: map<Id, Task>, ph1: PhaseTable, t1: map<Id, Task>)
  {
    ph1.Keys == ph0.Keys && t1.Keys == t0.Keys &&
    (forall q :: q in ph1 ==> ph1[q] == ph0[q].(projectId := ph1[q].projectId, position := ph1[q].position)) &&
    (forall k :: k in t1 ==> t1[k] == t0[k].(projectId := t1[k].projectId))
  }

  lemma OwnersMovedRefl(ph: PhaseTable, t: map<Id, Task>)
    ensures OwnersMoved(ph, t, ph, t)
  {
  }

  lemma OwnersMovedTrans(ph0: PhaseTable, t0: map<Id, Task>, ph1: PhaseTable, t1: map<Id, Task>,
                         ph2: PhaseTable, t2: map<Id, Task>)
    requires OwnersMoved(ph0, t0, ph1, t1) && OwnersMoved(ph1, t1, ph2, t2)
    ensures OwnersMoved(ph0, t0, ph2, t2)
  {
  }

  /** The hand-over changes only owners and positions. */
  lemma HandOverMovesOwners(ph0: PhaseTable, t0: map<Id, Task>, ph1: PhaseTable, t1: map<Id, Task>,
                            list: seq<Id>, pid: Id, heir: Id)
    requires HandedPhases(ph0, ph1, list, |list|, heir)
    requires |list| == 0 ==> t1 == RetargetProject(t0, Some(pid), Some(heir))
    requires |list| > 0 ==> t1 == HandedTasks(t0, list, heir)
    ensures OwnersMoved(ph0, t0, ph1, t1)
  {
    assert list[..|list|] == list;
    forall q | q in ph1
      ensures ph1[q] == ph0[q].(projectId := ph1[q].projectId, position := ph1[q].position)
    {
      if q in list {
        var j :| 0 <= j < |list| && list[j] == q;
      }
    }
  }

  /**
   * Projects only went away, except for "Orphans" rows added at ids from
   * `next0` on; the rows that stayed are unchanged.
   */
  ghost predicate ProjectsPruned(p0: map<Id, Project>, next0: Id, p1: map<Id, Project>)
  {
    (forall k :: k in p1 ==> k in p0 || (next0 <= k && p1[k].name == OrphansName && p1[k].parentId == None)) &&
    (forall k :: k in p1 && k in p0 ==> p1[k] == p0[k])
  }

  lemma ProjectsPrunedTrans(p0: map<Id, Project>, next0: Id, p1: map<Id, Project>, next1: Id, p2: map<Id, Project>)
    requires KeysBelow(p0, next0) && next0 <= next1
    requires ProjectsPruned(p0, next0, p1) && ProjectsPruned(p1, next1, p2)
    ensures ProjectsPruned(p0, next0, p2)
  {
  }

  /**
   * The children deleted so far stay deleted: later steps only add rows at
   * ids from `next1` on, above every child id.
   */
  lemma StaysGone(gone: seq<Id>, n: nat, next0: Id, p1: map<Id, Project>, next1: Id, p2: map<Id, Project>)
    requires n < |gone|
    requires forall j :: 0 <= j < n ==> gone[j] !in p1
    requires forall j :: 0 <= j < |gone| ==> gone[j] < next0
    requires next0 <= next1 && ProjectsPruned(p1, next1, p2) && gone[n] !in p2
    ensures forall j :: 0 <= j <= n ==> gone[j] !in p2
  {
  }

  /**
   * `x` lies `n` child links below `p`: `n` parent links up from `x` reach
   * `p` (for `p == None`, a project without a parent).
   */
  ghost predicate Below(projects: map<Id, Project>, p: Option<Id>, n: nat, x: Id)
    decreases n
  {
    n > 0 && x in projects &&
    if n == 1 then projects[x].parentId == p
    else projects[x].parentId.Some? && Below(projects, p, n - 1, projects[x].parentId.value)
  }

  /** `x` is somewhere in the subtree under `p`. */
  ghost predicate Descendant(projects: map<Id, Project>, x: Id, p: Option<Id>)
  {
    exists n :: Below(projects, p, n, x)
  }

  /** A chain of `n` child links hangs below `p`: the cascade from `p` must go `n` deep. */
  ghost predicate DeepBelow(projects: map<Id, Project>, p: Option<Id>, n: nat)
  {
    exists x :: Below(projects, p, n, x)
  }

  /**
   * The cascade from `p` can run with `fuel`: the row of `p` (if any) is
   * there, and no chain below it is longer than `fuel + 1` links can reach.
   */
  ghost predicate Shallow(projects: map<Id, Project>, p: Option<Id>, fuel: nat)
  {
    (p.None? || p.value in projects) && !DeepBelow(projects, p, fuel + 1)
  }

  /** Following parent links from `p` comes back to `p`. */
  ghost predicate Cyclic(projects: map<Id, Project>, p: Id)
  {
    Descendant(projects, p, Some(p))
  }

  /** `x` is one of the first `i` children or lies under one of them. */
  ghost predicate UnderFirst(projects: map<Id, Project>, children: seq<Id>, i: nat, x: Id)
  {
    exists j :: 0 <= j < i && j < |children| && (x == children[j] || Descendant(projects, x, Some(children[j])))
  }

  /** Chains join: `a` links from `p` down to `y`, then `b` from `y` down to `x`. */
  lemma {:induction false} BelowJoin(projects: map<Id, Project>, p: Option<Id>, a: nat, y: Id, b: nat, x: Id)
    requires Below(projects, p, a, y) && Below(projects, Some(y), b, x)
    ensures Below(projects, p, a + b, x)
    decreases b
  {
    if b > 1 {
      BelowJoin(projects, p, a, y, b - 1, projects[x].parentId.value);
    }
  }

  /** A chain of more than one link starts at a child of `p`. */
  lemma {:induction false} BelowSplit(projects: map<Id, Project>, p: Option<Id>, n: nat, x: Id) returns (c: Id)
    requires n > 1 && Below(projects, p, n, x)
    ensures Below(projects, p, 1, c) && Below(projects, Some(c), n - 1, x)
    decreases n
  {
    var z := projects[x].parentId.value;
    if n == 2 {
      c := z;
    } else {
      c := BelowSplit(projects, p, n - 1, z);
      assert Below(projects, Some(c), n - 1, x);
    }
  }

  /** A chain of `n` links holds one of every shorter length. */
  lemma {:induction false} BelowShorter(projects: map<Id, Project>, p: Option<Id>, n: nat, x: Id, m: nat)
    requires Below(projects, p, n, x) && 1 <= m <= n
    ensures DeepBelow(projects, p, m)
    decreases n
  {
    if m < n {
      BelowShorter(projects, p, n - 1, projects[x].parentId.value, m);
    }
  }

  /** Around a cycle the chains below `p` grow without end. */
  lemma {:induction false} CycleIsDeep(projects: map<Id, Project>, p: Id, l: nat, m: nat)
    requires Below(projects, Some(p), l, p) && 1 <= m
    ensures DeepBelow(projects, Some(p), m)
    decreases m
  {
    if m <= l {
      BelowShorter(projects, Some(p), l, p, m);
    } else {
      CycleIsDeep(projects, p, l, m - l);
      var x :| Below(projects, Some(p), m - l, x);
      BelowJoin(projects, Some(p), l, p, m - l, x);
    }
  }

  /** Rows added while the cascade runs have no parent, so no chain below a project grows. */
  lemma {:induction false} BelowPruned(p0: map<Id, Project>, next0: Id, p1: map<Id, Project>, c: Id, n: nat, x: Id)
    requires ProjectsPruned(p0, next0, p1) && Below(p1, Some(c), n, x)
    ensures Below(p0, Some(c), n, x)
    decreases n
  {
    if n > 1 {
      BelowPruned(p0, next0, p1, c, n - 1, p1[x].parentId.value);
    }
  }

  /** Chains survive in a table that keeps every row. */
  lemma {:induction false} BelowKept(p0: map<Id, Project>, p1: map<Id, Project>, p: Option<Id>, n: nat, x: Id)
    requires forall k :: k in p0 ==> k in p1 && p1[k] == p0[k]
    requires Below(p0, p, n, x)
    ensures Below(p1, p, n, x)
    decreases n
  {
    if n > 1 {
      BelowKept(p0, p1, p, n - 1, p0[x].parentId.value);
    }
  }

  /**
   * A chain of `p0` is still whole in the pruned `p1`, or some project on it
   * is gone, with `x` at or under that project.
   */
  lemma {:induction false} BelowSurvives(p0: map<Id, Project>, next0: Id, p1: map<Id, Project>, p: Option<Id>, n: nat, x: Id)
    returns (y: Id)
    requires ProjectsPruned(p0, next0, p1) && Below(p0, p, n, x)
    ensures Below(p1, p, n, x) || (y in p0 && y !in p1 && (y == x || Descendant(p0, x, Some(y))))
    decreases n
  {
    y := x;
    if x in p1 && n > 1 {
      var z := p0[x].parentId.value;
      y := BelowSurvives(p0, next0, p1, p, n - 1, z);
      if !Below(p1, p, n - 1, z) {
        if y == z {
          assert Below(p0, Some(y), 1, x);
        } else {
          var k :| Below(p0, Some(y), k, z);
          BelowJoin(p0, Some(y), k, z, 1, x);
        }
      }
    }
  }

  /** Under a project that is under one of the first `i` children is under that child. */
  lemma UnderFirstCloses(projects: map<Id, Project>, children: seq<Id>, i: nat, y: Id, x: Id)
    requires UnderFirst(projects, children, i, y) && (x == y || Descendant(projects, x, Some(y)))
    ensures UnderFirst(projects, children, i, x)
  {
    var j :| 0 <= j < i && j < |children| && (y == children[j] || Descendant(projects, y, Some(children[j])));
    if x != y && y != children[j] {
      var a :| Below(projects, Some(children[j]), a, y);
      var b :| Below(projects, Some(y), b, x);
      BelowJoin(projects, Some(children[j]), a, y, b, x);
    }
  }

  /**
   * A child of `parent` that lies under a sibling (or is the parent itself
   * under one) closes a cycle through `parent`.
   */
  lemma SiblingUnderSibling(projects: map<Id, Project>, pv: Id, c: Id, n: nat, x: Id)
    requires c in projects && projects[c].parentId == Some(pv)
    requires Below(projects, Some(c), n, x) && (x == pv || projects[x].parentId == Some(pv))
    ensures Cyclic(projects, pv)
  {
    assert Below(projects, Some(pv), 1, c);
    if x == pv {
      BelowJoin(projects, Some(pv), 1, c, n, x);
    } else if n == 1 {
      assert Below(projects, Some(pv), 1, pv);
    } else {
      BelowJoin(projects, Some(pv), 1, c, n - 1, pv);
    }
  }

  /**
   * One turn of the loop over the children: once child `i` has been deleted
   * with its subtree, exactly the first `i + 1` subtrees are gone.
   */
  lemma SiblingDeleted(p0: map<Id, Project>, next0: Id, p1: map<Id, Project>, next1: Id, p2: map<Id, Project>,
                       children: seq<Id>, i: nat)
    requires KeysBelow(p0, next0) && next0 <= next1
    requires ProjectsPruned(p0, next0, p1) && ProjectsPruned(p1, next1, p2)
    requires i < |children|
    requires forall x :: x in p0 ==> (x in p1 <==> !UnderFirst(p0, children, i, x))
    requires children[i] !in p2 && forall x :: Descendant(p1, x, Some(children[i])) ==> x !in p2
    requires forall x :: x in p1 && x !in p2 ==> x == children[i] || Descendant(p1, x, Some(children[i]))
    ensures forall x :: x in p0 ==> (x in p2 <==> !UnderFirst(p0, children, i + 1, x))
  {
    var c := children[i];
    forall x | x in p0
      ensures x in p2 <==> !UnderFirst(p0, children, i + 1, x)
    {
      if UnderFirst(p0, children, i + 1, x) && !UnderFirst(p0, children, i, x) {
        var j :| 0 <= j < i + 1 && j < |children| && (x == children[j] || Descendant(p0, x, Some(children[j])));
        assert j == i;
      }
      if x == c || Descendant(p0, x, Some(c)) {
        assert UnderFirst(p0, children, i + 1, x);
      }
      if x in p2 {
        assert x in p1;
        if Descendant(p0, x, Some(c)) {
          var n :| Below(p0, Some(c), n, x);
          var y := BelowSurvives(p0, next0, p1, Some(c), n, x);
          if !Below(p1, Some(c), n, x) {
            UnderFirstCloses(p0, children, i, y, x);
          }
        }
      } else if x in p1 && x != c {
        var n :| Below(p1, Some(c), n, x);
        BelowPruned(p0, next0, p1, c, n, x);
      }
    }
  }

  /** A cycle through `p` makes the cascade below it as deep as any bound. */
  lemma CycleIsDeepAny(projects: map<Id, Project>, p: Id, m: nat)
    requires 1 <= m
    ensures Cyclic(projects, p) ==> DeepBelow(projects, Some(p), m)
  {
    if Cyclic(projects, p) {
      var l :| Below(projects, Some(p), l, p);
      CycleIsDeep(projects, p, l, m);
    }
  }

  /**
   * The parent, or a later child of it, can lie under one of the first `i`
   * children only around a cycle through the parent.
   */
  lemma UnderSiblingCycles(projects: map<Id, Project>, pv: Id, children: seq<Id>, i: nat, x: Id)
    requires forall j :: 0 <= j < |children| ==> children[j] in projects && projects[children[j]].parentId == Some(pv)
    requires x == pv || (x in projects && projects[x].parentId == Some(pv) &&
                         forall j :: 0 <= j < i && j < |children| ==> children[j] != x)
    ensures UnderFirst(projects, children, i, x) ==> Cyclic(projects, pv)
  {
    if UnderFirst(projects, children, i, x) {
      var j :| 0 <= j < i && j < |children| && (x == children[j] || Descendant(projects, x, Some(children[j])));
      if x == children[j] {
        assert Below(projects, Some(pv), 1, pv);
      } else {
        var n :| Below(projects, Some(children[j]), n, x);
        SiblingUnderSibling(projects, pv, children[j], n, x);
      }
    }
  }

  /** A project without a parent lies under no other project. */
  lemma RootNotUnder(projects: map<Id, Project>, children: seq<Id>, i: nat, x: Id)
    requires x in projects && projects[x].parentId == None
    requires forall j :: 0 <= j < i && j < |children| ==> children[j] != x
    ensures !UnderFirst(projects, children, i, x)
  {
    forall j, n: nat | 0 <= j < i && j < |children|
      ensures !Below(projects, Some(children[j]), n, x)
    {
    }
  }

  /** A chain below a child, in the pruned table, is one link shorter than one below its parent. */
  lemma ChildDepth(p0: map<Id, Project>, next0: Id, p1: map<Id, Project>, parent: Option<Id>, c: Id, m: nat)
    requires c in p0 && p0[c].parentId == parent && ProjectsPruned(p0, next0, p1)
    ensures DeepBelow(p1, Some(c), m) ==> DeepBelow(p0, parent, m + 1)
  {
    if DeepBelow(p1, Some(c), m) {
      var x :| Below(p1, Some(c), m, x);
      BelowPruned(p0, next0, p1, c, m, x);
      assert Below(p0, parent, 1, c);
      BelowJoin(p0, parent, 1, c, m, x);
    }
  }

  /**
   * Before child `i` is deleted, it is still there, so is its parent, and its
   * subtree is no deeper than the cascade below the parent allows.
   */
  lemma ChildCanGo(p0: map<Id, Project>, next0: Id, p1: map<Id, Project>, parent: Option<Id>,
                   children: seq<Id>, i: nat, fuel: nat)
    requires ProjectsPruned(p0, next0, p1)
    requires i < |children| && forall a, b :: 0 <= a < b < |children| ==> children[a] != children[b]
    requires forall j :: 0 <= j < |children| ==> children[j] in p0 && p0[children[j]].parentId == parent
    requires forall x :: x in p0 ==> (x in p1 <==> !UnderFirst(p0, children, i, x))
    requires (parent.None? || parent.value in p0) && !DeepBelow(p0, parent, fuel + 2)
    ensures children[i] in p1 && (parent.None? || parent.value in p1)
    ensures !DeepBelow(p1, Some(children[i]), fuel + 1)
  {
    if parent.Some? {
      CycleIsDeepAny(p0, parent.value, fuel + 2);
      UnderSiblingCycles(p0, parent.value, children, i, parent.value);
      UnderSiblingCycles(p0, parent.value, children, i, children[i]);
    } else {
      RootNotUnder(p0, children, i, children[i]);
    }
    ChildDepth(p0, next0, p1, parent, children[i], fuel + 1);
  }

  /** What the loop over the children removes lies under their parent. */
  lemma RemovedUnderParent(p0: map<Id, Project>, next0: Id, p1: map<Id, Project>, p2: map<Id, Project>,
                           parent: Option<Id>, c: Id)
    requires c in p0 && p0[c].parentId == parent && ProjectsPruned(p0, next0, p1)
    requires forall x :: x in p0 && x !in p1 ==> Descendant(p0, x, parent)
    requires forall x :: x in p1 && x !in p2 ==> x == c || Descendant(p1, x, Some(c))
    ensures forall x :: x in p0 && x !in p2 ==> Descendant(p0, x, parent)
  {
    assert Below(p0, parent, 1, c);
    forall x | x in p0 && x in p1 && x !in p2
      ensures Descendant(p0, x, parent)
    {
      if x != c {
        var n :| Below(p1, Some(c), n, x);
        BelowPruned(p0, next0, p1, c, n, x);
        BelowJoin(p0, parent, 1, c, n, x);
      }
    }
  }

  /** Everything under `parent` is under one of its children. */
  lemma AllUnder(projects: map<Id, Project>, parent: Option<Id>, children: seq<Id>, x: Id)
    requires forall c :: c in projects && projects[c].parentId == parent ==> c in children
    requires Descendant(projects, x, parent)
    ensures UnderFirst(projects, children, |children|, x)
  {
    var n :| Below(projects, parent, n, x);
    var c := x;
    if n > 1 {
      c := BelowSplit(projects, parent, n, x);
    }
    var j :| 0 <= j < |children| && children[j] == c;
  }

  /** No chain starts below a project without children. */
  lemma {:induction false} NoFirstLink(projects: map<Id, Project>, pid: Option<Id>, n: nat, x: Id)
    requires forall c :: c in projects ==> projects[c].parentId != pid
    ensures !Below(projects, pid, n, x)
    decreases n
  {
    if n > 1 && x in projects && projects[x].parentId.Some? {
      NoFirstLink(projects, pid, n - 1, projects[x].parentId.value);
    }
  }

  lemma NoChildNoDescendant(projects: map<Id, Project>, pid: Option<Id>)
    requires forall c :: c in projects ==> projects[c].parentId != pid
    ensures forall x :: !Descendant(projects, x, pid)
  {
    forall x, n: nat
      ensures !Below(projects, pid, n, x)
    {
      NoFirstLink(projects, pid, n, x);
    }
  }

  /** Rows of `p0` only went from under `parent`; rows added have no parent. */
  ghost predicate PrunedUnder(p0: map<Id, Project>, next0: Id, p1: map<Id, Project>, parent: Option<Id>)
  {
    KeysBelow(p0, next0) && ProjectsPruned(p0, next0, p1) &&
    (forall x :: x in p0 && x !in p1 ==> Descendant(p0, x, parent))
  }

  /** Exactly the first `i` children of a cascade, and their subtrees, are gone from `p1`. */
  ghost predicate Swept(p0: map<Id, Project>, children: seq<Id>, i: nat, p1: map<Id, Project>)
  {
    (forall j :: 0 <= j < i && j < |children| ==> children[j] !in p1) &&
    (forall x :: x in p0 ==> (x in p1 <==> !UnderFirst(p0, children, i, x)))
  }

  /** Deleting child `c` of `parent` keeps every removed row under `parent`. */
  lemma ChildPruned(p0: map<Id, Project>, next0: Id, p1: map<Id, Project>, next1: Id, p2: map<Id, Project>,
                    parent: Option<Id>, c: Id)
    requires PrunedUnder(p0, next0, p1, parent) && next0 <= next1
    requires c in p0 && p0[c].parentId == parent
    requires ProjectsPruned(p1, next1, p2)
    requires forall x :: x in p1 && x !in p2 ==> Some(x) == Some(c) || Descendant(p1, x, Some(c))
    ensures PrunedUnder(p0, next0, p2, parent)
  {
    RemovedUnderParent(p0, next0, p1, p2, parent, c);
    ProjectsPrunedTrans(p0, next0, p1, next1, p2);
  }

  /** Once child `i` is gone with its subtree, the first `i + 1` are swept. */
  lemma ChildSwept(p0: map<Id, Project>, next0: Id, p1: map<Id, Project>, next1: Id, p2: map<Id, Project>,
                   children: seq<Id>, i: nat)
    requires KeysBelow(p0, next0) && ProjectsPruned(p0, next0, p1) && next0 <= next1 && ProjectsPruned(p1, next1, p2)
    requires i < |children| && forall j :: 0 <= j < |children| ==> children[j] in p0
    requires Swept(p0, children, i, p1)
    requires children[i] !in p2 && forall x :: Descendant(p1, x, Some(children[i])) ==> x !in p2
    requires forall x :: x in p1 && x !in p2 ==> Some(x) == Some(children[i]) || Descendant(p1, x, Some(children[i]))
    ensures Swept(p0, children, i + 1, p2)
  {
    StaysGone(children, i, next0, p1, next1, p2);
    SiblingDeleted(p0, next0, p1, next1, p2, children, i);
  }

  /** Every project under `p` in `p0` is gone from `p1`. */
  ghost predicate SubtreeGone(p0: map<Id, Project>, p1: map<Id, Project>, p: Option<Id>)
  {
    forall x :: Descendant(p0, x, p) ==> x !in p1
  }

  /** The only rows of `p0` missing from `p1` are `p` itself and projects under it. */
  ghost predicate RemovedFrom(p0: map<Id, Project>, p1: map<Id, Project>, p: Option<Id>)
  {
    forall x :: x in p0 && x !in p1 ==> Some(x) == p || Descendant(p0, x, p)
  }

  /**
   * What the cascade from `pid` does in the table left by the hand-over
   * holds of the table before it: the hand-over keeps every row and adds
   * only rows without a parent.
   */
  lemma CascadeLifts(p0: map<Id, Project>, next0: Id, p1: map<Id, Project>, p2: map<Id, Project>, pid: Id, fuel: nat)
    requires RowsKept(p0, p1) && ProjectsPruned(p0, next0, p1)
    ensures Shallow(p0, Some(pid), fuel) ==> Shallow(p1, Some(pid), fuel)
    ensures SubtreeGone(p1, p2, Some(pid)) ==> SubtreeGone(p0, p2, Some(pid))
    ensures RemovedFrom(p1, p2, Some(pid)) ==> RemovedFrom(p0, p2, Some(pid))
  {
    if DeepBelow(p1, Some(pid), fuel + 1) {
      var x :| Below(p1, Some(pid), fuel + 1, x);
      BelowPruned(p0, next0, p1, pid, fuel + 1, x);
    }
    forall x | Descendant(p0, x, Some(pid))
      ensures Descendant(p1, x, Some(pid))
    {
      var n :| Below(p0, Some(pid), n, x);
      BelowKept(p0, p1, Some(pid), n, x);
    }
    forall x | x in p1 && Descendant(p1, x, Some(pid))
      ensures Descendant(p0, x, Some(pid))
    {
      var n :| Below(p1, Some(pid), n, x);
      BelowPruned(p0, next0, p1, pid, n, x);
    }
  }

  /** The children's subtrees gone, dropping the row of `pid` itself completes the cascade. */
  lemma RecordCascade(p0: map<Id, Project>, next0: Id, p1: map<Id, Project>, p2: map<Id, Project>, pid: Option<Id>)
    requires PrunedUnder(p0, next0, p1, pid)
    requires p2 == p1 - (if pid.Some? then {pid.value} else {})
    ensures RemovedFrom(p0, p2, pid)
    ensures SubtreeGone(p0, p1, pid) ==> SubtreeGone(p0, p2, pid)
  {
  }

  // ---------------------------------------------------------------------------
  // The store.

  class ModelDB {
    var projects: map<Id, Project>
    var phases: map<Id, Phase>
    var tasks: map<Id, Task>
    var blockers: map<Id, Blocker>
    var nextProjectId: Id
    var nextPhaseId: Id
    var nextTaskId: Id
    var nextBlockerId: Id

    ghost predicate Valid()
      reads this
    {
      KeysBelow(projects, nextProjectId) && KeysBelow(phases, nextPhaseId) &&
      KeysBelow(tasks, nextTaskId) && KeysBelow(blockers, nextBlockerId) &&
      ProjectNamesUnique(projects) && PhaseNamesUnique(phases) && TaskNamesUnique(tasks) &&
      EdgesUnique(blockers)
    }

    /** A freshly created store is empty. */
    constructor ()
      ensures Valid()
      ensures projects == map[] && phases == map[] && tasks == map[] && blockers == map[]
    {
      projects, phases, tasks, blockers := map[], map[], map[], map[];
      nextProjectId, nextPhaseId, nextTaskId, nextBlockerId := 1, 1, 1, 1;
    }

    // --- Tasks ---------------------------------------------------------------

    /** `add_task`: the checks and row of `PlanAddTask`, inserted at the next id. */
    method AddTask(name: string, description: Option<string>, status: string, projectId: Option<Id>, phaseId: Option<Id>)
      returns (r: Result<TaskRecord, StoreError>)
      requires Valid()
      modifies this
      ensures Valid()
      ensures projects == old(projects) && phases == old(phases) && blockers == old(blockers)
      ensures TaskNameTaken(old(tasks), Lower(name), None) ==> r == Err(DuplicateName)
      ensures !TaskNameTaken(old(tasks), Lower(name), None) && status !in ValidStatusValues ==> r == Err(InvalidStatus)
      ensures r.Err? ==> tasks == old(tasks)
      ensures !TaskNameTaken(old(tasks), Lower(name), None) && status in ValidStatusValues ==>
                r.Ok? && r.value.taskId == Some(old(nextTaskId)) &&
                tasks == old(tasks)[old(nextTaskId) :=
                  Task(name, Lower(name), status, Some(OrEmpty(description)), FilledProject(phases, projectId, phaseId), phaseId)] &&
                r.value == TaskRecordOf(old(nextTaskId), tasks[old(nextTaskId)])
    {
      var planned := PlanAddTask(tasks, phases, nextTaskId, name, description, status, projectId, phaseId);
      if planned.Err? {
        return Err(planned.error);
      }
      var id := nextTaskId;
      PutTask(id, planned.value);
      r := Ok(TaskRecordOf(id, planned.value));
    }

    /**
     * `save_task_record`: the checks and row of `PlanTaskSave`, written at the
     * record's id or inserted at the next id.
     */
    method SaveTaskRecord(rec: TaskRecord) returns (r: Result<TaskRecord, StoreError>)
      requires Valid()
      modifies this
      ensures Valid()
      ensures projects == old(projects) && phases == old(phases) && blockers == old(blockers)
      ensures r.Err? <==> SaveTaskFailure(old(tasks), phases, rec).Some?
      ensures r.Err? ==> r.error == SaveTaskFailure(old(tasks), phases, rec).value && tasks == old(tasks)
      ensures r.Ok? ==> var id := if rec.taskId.Some? then rec.taskId.value else old(nextTaskId);
                        tasks == old(tasks)[id := Task(rec.name, Lower(rec.name), rec.status, rec.description, rec.projectId, rec.phaseId)] &&
                        r.value == TaskRecordOf(id, tasks[id]) &&
                        PhaseAgrees(phases, tasks[id].projectId, tasks[id].phaseId)
    {
      var planned := PlanTaskSave(tasks, phases, nextTaskId, rec);
      if planned.Err? {
        return Err(planned.error);
      }
      var (id, row) := planned.value;
      PutTask(id, row);
      r := Ok(TaskRecordOf(id, row));
    }

    /**
     * Writes one task row, at an existing id or at the next fresh one; the
     * caller has checked that no other task uses the name.
     */
    method PutTask(id: Id, row: Task)
      requires Valid()
      requires Keyed(row.name, row.nameLower) && !TaskNameTaken(tasks, row.nameLower, Some(id))
      requires id in tasks || id == nextTaskId
      modifies this
      ensures Valid()
      ensures tasks == old(tasks)[id := row]
      ensures projects == old(projects) && phases == old(phases) && blockers == old(blockers)
      ensures nextTaskId == if id in old(tasks) then old(nextTaskId) else old(nextTaskId) + 1
      ensures nextProjectId == old(nextProjectId) && nextPhaseId == old(nextPhaseId) && nextBlockerId == old(nextBlockerId)
    {
      var next := if id in tasks then nextTaskId else nextTaskId + 1;
      TaskUpsert(tasks, id, row);
      KeysBelowUpsert(tasks, id, row, nextTaskId, next);
      tasks, nextTaskId := tasks[id := row], next;
    }

    /**
     * `delete_task_record`: when the task exists, removes it and every edge
     * in which it is the blocked or the blocking task; otherwise nothing.
     */
    method DeleteTaskRecord(taskId: Option<Id>)
      requires Valid()
      modifies this
      ensures Valid()
      ensures projects == old(projects) && phases == old(phases)
      ensures taskId.Some? && taskId.value in old(tasks) ==>
                tasks == old(tasks) - {taskId.value} && blockers == EdgesWithout(old(blockers), taskId.value)
      ensures taskId.None? || taskId.value !in old(tasks) ==> tasks == old(tasks) && blockers == old(blockers)
    {
      if taskId.None? || taskId.value !in tasks {
        return;
      }
      var id := taskId.value;
      tasks := tasks - {id};
      var bs := DropEdgesOf(blockers, id);
      blockers := bs;
    }

    /**
     * `replace_task_project_refs`: every task of project `from` moves to
     * project `to`, which must exist when given.
     */
    method ReplaceTaskProjectRefs(from: Option<Id>, to: Option<Id>) returns (r: Result<(), StoreError>)
      requires Valid()
      modifies this
      ensures Valid()
      ensures projects == old(projects) && phases == old(phases) && blockers == old(blockers)
      ensures nextProjectId == old(nextProjectId)
      ensures r.Err? <==> to.Some? && to.value !in projects
      ensures r.Err? ==> r.error == InvalidProjectId && tasks == old(tasks)
      ensures r.Ok? ==> tasks == RetargetProject(old(tasks), from, to)
    {
      if to.Some? && to.value !in projects {
        return Err(InvalidProjectId);
      }
      RewriteTasks((t: Task) => t.projectId == from, (t: Task) => t.(projectId := to));
      RetargetProjectByRow(old(tasks), tasks, from, to);
      r := Ok(());
    }

    /**
     * `replace_task_phase_refs`: every task of phase `from` leaves it (when
     * `to` is None) or moves into phase `to` and that phase's project; the
     * same phase on both sides changes nothing.
     */
    method ReplaceTaskPhaseRefs(from: Option<Id>, to: Option<Id>) returns (r: Result<(), StoreError>)
      requires Valid()
      modifies this
      ensures Valid()
      ensures projects == old(projects) && phases == old(phases) && blockers == old(blockers)
      ensures r.Err? <==> from != to && to.Some? && to.value !in phases
      ensures r.Err? ==> r.error == InvalidPhaseId
      ensures from == to || r.Err? ==> tasks == old(tasks)
      ensures from != to && to.None? ==> tasks == ClearPhase(old(tasks), from)
      ensures from != to && r.Ok? && to.Some? ==> tasks == RetargetPhase(old(tasks), from, to.value, phases[to.value].projectId)
    {
      if from == to {
        return Ok(());
      }
      if to.Some? && to.value !in phases {
        return Err(InvalidPhaseId);
      }
      if to.None? {
        RewriteTasks((t: Task) => t.phaseId == from, (t: Task) => t.(phaseId := None));
        ClearPhaseByRow(old(tasks), tasks, from);
      } else {
        var pid := phases[to.value].projectId;
        RewriteTasks((t: Task) => t.phaseId == from, (t: Task) => t.(phaseId := to, projectId := Some(pid)));
        RetargetPhaseByRow(old(tasks), tasks, from, to.value, pid);
      }
      r := Ok(());
    }

    // --- Blockers ------------------------------------------------------------

    /**
     * `add_task_blocker`: records that `item` requires `required`. An edge
     * already present is not stored again; its id is returned.
     */
    method AddTaskBlocker(item: Option<Id>, required: Option<Id>) returns (r: Result<Id, StoreError>)
      requires Valid()
      modifies this
      ensures Valid()
      ensures projects == old(projects) && phases == old(phases) && tasks == old(tasks)
      ensures item.None? || required.None? ==> r == Err(MissingTaskId) && blockers == old(blockers)
      ensures item.Some? && required.Some? ==>
                r.Ok? && r.value in blockers && blockers[r.value] == Blocker(item.value, required.value)
      ensures r.Ok? && r.value in old(blockers) ==> blockers == old(blockers)
      ensures r.Ok? && r.value !in old(blockers) ==>
                blockers == old(blockers)[r.value := Blocker(item.value, required.value)] &&
                forall k :: k in old(blockers) ==> old(blockers)[k] != Blocker(item.value, required.value)
    {
      if item.None? || required.None? {
        return Err(MissingTaskId);
      }
      var edge := Blocker(item.value, required.value);
      var existing := FirstWhere(blockers, (b: Blocker) => b == edge);
      if existing.Some? {
        return Ok(existing.value);
      }
      var id := nextBlockerId;
      blockers := blockers[id := edge];
      nextBlockerId := nextBlockerId + 1;
      r := Ok(id);
    }

    /** `delete_task_blocker`: removes the edge if present; otherwise nothing. */
    method DeleteTaskBlocker(item: Option<Id>, required: Option<Id>)
      requires Valid()
      modifies this
      ensures Valid()
      ensures projects == old(projects) && phases == old(phases) && tasks == old(tasks)
      ensures item.Some? && required.Some? ==>
                (forall k :: k in blockers ==> blockers[k] != Blocker(item.value, required.value)) &&
                forall k :: k in old(blockers) && old(blockers)[k] != Blocker(item.value, required.value) ==>
                  k in blockers && blockers[k] == old(blockers)[k]
      ensures blockers.Keys <= old(blockers).Keys
      ensures item.None? || required.None? ==> blockers == old(blockers)
    {
      if item.None? || required.None? {
        return;
      }
      var edge := Blocker(item.value, required.value);
      var existing := FirstWhere(blockers, (b: Blocker) => b == edge);
      if existing.Some? {
        blockers := blockers - {existing.value};
      }
    }

    // --- Projects ------------------------------------------------------------

    /** `add_project`: the checks and row of `PlanAddProject`, inserted at the next id. */
    method AddProject(name: string, description: Option<string>, parentId: Option<Id>, parent: Option<ProjectRecord>)
      returns (r: Result<ProjectRecord, StoreError>)
      requires Valid()
      modifies this
      ensures Valid()
      ensures phases == old(phases) && tasks == old(tasks) && blockers == old(blockers)
      ensures nextProjectId >= old(nextProjectId)
      ensures var pid := ChosenParent(parentId, parent);
              if ProjectNameTaken(old(projects), Lower(name), None) then r == Err(DuplicateName) && projects == old(projects)
              else if pid.Some? && pid.value !in old(projects) then r == Err(InvalidParent) && projects == old(projects)
              else r.Ok? && r.value.projectId == Some(old(nextProjectId)) &&
                   projects == old(projects)[old(nextProjectId) := Project(name, Lower(name), Some(OrEmpty(description)), pid)] &&
                   r.value == ProjectRecordOf(old(nextProjectId), projects[old(nextProjectId)])
    {
      var planned := PlanAddProject(projects, nextProjectId, name, description, parentId, parent);
      if planned.Err? {
        return Err(planned.error);
      }
      var id := nextProjectId;
      PutProject(id, planned.value);
      r := Ok(ProjectRecordOf(id, planned.value));
    }

    /** `save_project_record`: the checks and row of `PlanProjectSave`. */
    method SaveProjectRecord(rec: ProjectRecord) returns (r: Result<ProjectRecord, StoreError>)
      requires Valid()
      modifies this
      ensures Valid()
      ensures phases == old(phases) && tasks == old(tasks) && blockers == old(blockers)
      ensures nextProjectId >= old(nextProjectId)
      ensures if rec.projectId.Some? && rec.projectId.value !in old(projects) then r == Err(InvalidProjectId) && projects == old(projects)
              else if ProjectNameTaken(old(projects), Lower(rec.name), rec.projectId) then r == Err(DuplicateName) && projects == old(projects)
              else var id := if rec.projectId.Some? then rec.projectId.value else old(nextProjectId);
                   r.Ok? && projects == old(projects)[id := Project(rec.name, Lower(rec.name), rec.description, rec.parentId)] &&
                   r.value == ProjectRecordOf(id, projects[id])
    {
      var planned := PlanProjectSave(projects, nextProjectId, rec);
      if planned.Err? {
        return Err(planned.error);
      }
      var (id, row) := planned.value;
      PutProject(id, row);
      r := Ok(ProjectRecordOf(id, row));
    }

    /**
     * Writes one project row, at an existing id or at the next fresh one; the
     * caller has checked that no other project uses the name.
     */
    method PutProject(id: Id, row: Project)
      requires Valid()
      requires Keyed(row.name, row.nameLower) && !ProjectNameTaken(projects, row.nameLower, Some(id))
      requires id in projects || id == nextProjectId
      modifies this
      ensures Valid()
      ensures projects == old(projects)[id := row]
      ensures phases == old(phases) && tasks == old(tasks) && blockers == old(blockers)
      ensures nextProjectId == if id in old(projects) then old(nextProjectId) else old(nextProjectId) + 1
      ensures nextPhaseId == old(nextPhaseId) && nextTaskId == old(nextTaskId) && nextBlockerId == old(nextBlockerId)
    {
      var next := if id in projects then nextProjectId else nextProjectId + 1;
      ProjectUpsert(projects, id, row);
      KeysBelowUpsert(projects, id, row, nextProjectId, next);
      projects, nextProjectId := projects[id := row], next;
    }

    // --- Phases --------------------------------------------------------------

    /**
     * `_save_phase` (and `add_phase`, which calls it without a phase id): the
     * checks of `PlanPhase`, then that an updated phase exists; the row takes
     * the planned project and position, and the returned record carries the
     * `follows` the placement derived.
     */
    method SavePhase(name: string, description: Option<string>, phaseId: Option<Id>, projectId: Option<Id>,
                     project: Option<ProjectRecord>, followsId: Option<Id>)
      returns (r: Result<PhaseRecord, StoreError>, ghost anchor: Option<Id>)
      requires Valid()
      modifies this
      ensures Valid()
      ensures projects == old(projects) && tasks == old(tasks) && blockers == old(blockers)
      ensures r.Err? <==> SavePhaseFailure(projects, old(phases), name, phaseId, projectId, project, followsId).Some?
      ensures r.Err? ==> r.error == SavePhaseFailure(projects, old(phases), name, phaseId, projectId, project, followsId).value &&
                         phases == old(phases)
      ensures r.Ok? ==> r.value.phaseId.Some? && (phaseId.Some? ==> r.value.phaseId == phaseId) &&
                        (phaseId.None? ==> r.value.phaseId.value !in old(phases)) &&
                        PlannedPhase(old(phases), phaseId, PhaseOwner(projectId, project).value, followsId,
                                     Placement(r.value.position, r.value.followsId), anchor) &&
                        phases == old(phases)[r.value.phaseId.value :=
                          Phase(name, Lower(name), description, PhaseOwner(projectId, project).value, r.value.position)] &&
                        r.value == PhaseRecordOf(r.value.phaseId.value, phases[r.value.phaseId.value], r.value.followsId)
      ensures r.Ok? && DistinctPositions(old(phases)) ==> DistinctPositions(phases)
    {
      var plan;
      plan, anchor := PlanPhase(projects, phases, nextPhaseId, name, description, phaseId, projectId, project, followsId);
      if plan.Err? {
        return Err(plan.error), anchor;
      }
      var (id, row, follows) := plan.value;
      PutPhase(id, row);
      r := Ok(PhaseRecordOf(id, row, follows));
    }

    /**
     * `save_phase_record`: saves the record's fields through `_save_phase`,
     * by project id and with the record's cached `follows`, and returns the
     * record as saved.
     */
    method SavePhaseRecord(rec: PhaseRecord) returns (r: Result<PhaseRecord, StoreError>, ghost anchor: Option<Id>)
      requires Valid()
      modifies this
      ensures Valid()
      ensures projects == old(projects) && tasks == old(tasks) && blockers == old(blockers)
      ensures r.Err? <==> SavePhaseFailure(projects, old(phases), rec.name, rec.phaseId, rec.projectId, None, rec.followsId).Some?
      ensures r.Err? ==> r.error == SavePhaseFailure(projects, old(phases), rec.name, rec.phaseId, rec.projectId, None, rec.followsId).value &&
                         phases == old(phases)
      ensures r.Ok? ==> rec.projectId.Some? && r.value.phaseId.Some? && (rec.phaseId.Some? ==> r.value.phaseId == rec.phaseId) &&
                        (rec.phaseId.None? ==> r.value.phaseId.value !in old(phases)) &&
                        PlannedPhase(old(phases), rec.phaseId, rec.projectId.value, rec.followsId,
                                     Placement(r.value.position, r.value.followsId), anchor) &&
                        phases == old(phases)[r.value.phaseId.value :=
                          Phase(rec.name, Lower(rec.name), rec.description, rec.projectId.value, r.value.position)] &&
                        r.value == PhaseRecordOf(r.value.phaseId.value, phases[r.value.phaseId.value], r.value.followsId)
      ensures r.Ok? && DistinctPositions(old(phases)) ==> DistinctPositions(phases)
    {
      r, anchor := SavePhase(rec.name, rec.description, rec.phaseId, rec.projectId, None, rec.followsId);
    }

    /**
     * Writes one phase row, at an existing id or at the next fresh one; the
     * caller has checked that no other phase uses the name.
     */
    method PutPhase(id: Id, row: Phase)
      requires Valid()
      requires Keyed(row.name, row.nameLower) && !PhaseNameTaken(phases, row.nameLower, Some(id))
      requires id in phases || id == nextPhaseId
      modifies this
      ensures Valid()
      ensures phases == old(phases)[id := row]
      ensures projects == old(projects) && tasks == old(tasks) && blockers == old(blockers)
      ensures nextPhaseId == if id in old(phases) then old(nextPhaseId) else old(nextPhaseId) + 1
      ensures nextProjectId == old(nextProjectId) && nextTaskId == old(nextTaskId) && nextBlockerId == old(nextBlockerId)
    {
      var next := if id in phases then nextPhaseId else nextPhaseId + 1;
      PhaseUpsert(phases, id, row);
      KeysBelowUpsert(phases, id, row, nextPhaseId, next);
      phases, nextPhaseId := phases[id := row], next;
    }

    /** `delete_phase_record`: removes the row if present. */
    method DeletePhaseRow(phaseId: Option<Id>)
      requires Valid()
      modifies this
      ensures Valid()
      ensures projects == old(projects) && tasks == old(tasks) && blockers == old(blockers)
      ensures phases == if phaseId.Some? then old(phases) - {phaseId.value} else old(phases)
    {
      if phaseId.Some? {
        phases := phases - {phaseId.value};
      }
    }

    /** Applies `UpdateWhere` to the task table; the rest of the store is untouched. */
    method RewriteTasks(sel: Task -> bool, upd: Task -> Task)
      requires Valid()
      requires forall t :: upd(t).name == t.name && upd(t).nameLower == t.nameLower
      modifies this
      ensures Valid()
      ensures projects == old(projects) && phases == old(phases) && blockers == old(blockers)
      ensures nextProjectId == old(nextProjectId) && nextPhaseId == old(nextPhaseId) && nextTaskId == old(nextTaskId) && nextBlockerId == old(nextBlockerId)
      ensures tasks.Keys == old(tasks).Keys
      ensures forall k :: k in tasks ==> tasks[k] == if sel(old(tasks)[k]) then upd(old(tasks)[k]) else old(tasks)[k]
    {
      var ts := UpdateWhere(tasks, sel, upd);
      tasks := ts;
      TaskNamesKept(old(tasks), tasks);
    }

    /**
     * `move_phase_and_tasks_to_project`: the phase goes after the last phase
     * of the destination (`PlanMove`), and every task of the phase follows it
     * there. A missing phase raises before anything is written; the
     * destination project is not checked.
     */
    method MovePhaseAndTasks(phaseId: Option<Id>, newPid: Id) returns (r: Result<PhaseRecord, StoreError>, ghost last: Option<Id>)
      requires Valid()
      modifies this
      ensures Valid()
      ensures projects == old(projects) && blockers == old(blockers) && nextProjectId == old(nextProjectId)
      ensures r.Err? <==> phaseId.None? || phaseId.value !in old(phases)
      ensures r.Err? ==> r.error == ConsistencyError && phases == old(phases) && tasks == old(tasks)
      ensures r.Ok? ==> r.value.phaseId == phaseId &&
                        Appended(old(phases), newPid, phaseId, Placement(r.value.position, r.value.followsId), last) &&
                        phases == Moved(old(phases), phaseId.value, newPid, r.value.position) &&
                        tasks == FollowPhase(old(tasks), phaseId.value, newPid) &&
                        IsLast(phases, newPid, phaseId.value) &&
                        (forall q :: InProject(old(phases), newPid, q) ==> old(phases)[q].position < r.value.position)
      ensures r.Ok? && DistinctPositions(old(phases)) ==> DistinctPositions(phases)
    {
      r, last := PlanMove(phases, phaseId, newPid);
      if r.Err? {
        return;
      }
      var id := phaseId.value;
      PutPhase(id, phases[id].(projectId := newPid, position := r.value.position));
      RewriteTasks((t: Task) => t.phaseId == phaseId, (t: Task) => t.(projectId := Some(newPid)));
      FollowPhaseByRow(old(tasks), tasks, id, newPid);
    }

    /**
     * The project that inherits the contents of `rec` when it is deleted: its
     * parent, or else the project named "Orphans" (`OrphansProject`). A
     * parent id with no row behind it fails before anything is written.
     */
    method ResolveHeir(rec: ProjectRecord) returns (r: Result<Id, StoreError>)
      requires Valid()
      modifies this
      ensures Valid()
      ensures phases == old(phases) && tasks == old(tasks) && blockers == old(blockers)
      ensures nextProjectId >= old(nextProjectId)
      ensures rec.parentId.Some? ==>
                projects == old(projects) &&
                r == if rec.parentId.value in projects then Ok(rec.parentId.value) else Err(NoRecord)
      ensures rec.parentId.None? ==> r.Ok? && r.value in projects && projects[r.value].nameLower == Lower(OrphansName)
      ensures r.Err? <==> rec.parentId.Some? && rec.parentId.value !in old(projects)
      ensures r.Ok? ==> r.value in projects && HeirOf(old(projects), old(nextProjectId), rec, r.value)
      ensures ProjectsPruned(old(projects), old(nextProjectId), projects) && RowsKept(old(projects), projects)
    {
      if rec.parentId.Some? {
        if rec.parentId.value in projects {
          return Ok(rec.parentId.value);
        }
        return Err(NoRecord);
      }
      var id := OrphansProject(OrphansDescription);
      r := Ok(id);
    }

    /**
     * The project named "Orphans", matched without regard to case, added with
     * `description` (`ResolveHeir` passes `OrphansDescription`) and no parent
     * when there is none.
     */
    method OrphansProject(description: string) returns (id: Id)
      requires Valid()
      modifies this
      ensures Valid()
      ensures phases == old(phases) && tasks == old(tasks) && blockers == old(blockers)
      ensures nextProjectId >= old(nextProjectId)
      ensures id in projects && projects[id].nameLower == Lower(OrphansName)
      ensures ProjectNameTaken(old(projects), Lower(OrphansName), None) ==> projects == old(projects)
      ensures !ProjectNameTaken(old(projects), Lower(OrphansName), None) ==>
                id == old(nextProjectId) && projects == old(projects)[old(nextProjectId) := Project(OrphansName, Lower(OrphansName), Some(description), None)]
      ensures ProjectsPruned(old(projects), old(nextProjectId), projects)
    {
      var key := Lower(OrphansName);
      var found := FirstWhere(projects, (p: Project) => p.nameLower == key);
      if found.Some? {
        return found.value;
      }
      // `add_project` with no parent: the name was just found free, so the
      // insert cannot fail.
      id := nextProjectId;
      PutProject(id, Project(OrphansName, key, Some(description), None));
    }

    /**
     * The hand-over `delete_from_db` makes before the project goes, given its
     * phases in position order: with no phases, the tasks of the project are
     * pointed at the heir; otherwise each phase in turn moves to the end of
     * the heir's phases (`HandedPhases`) and takes its tasks along. Tasks that
     * sit directly in the project keep their project id in that case.
     */
    method HandOverContents(pid: Id, heir: Id, list: seq<Id>)
      requires Valid()
      requires heir in projects
      requires forall j :: 0 <= j < |list| ==> list[j] in phases
      requires forall a, b :: 0 <= a < b < |list| ==> list[a] != list[b]
      modifies this
      ensures Valid()
      ensures projects == old(projects) && blockers == old(blockers) && nextProjectId == old(nextProjectId)
      ensures HandedPhases(old(phases), phases, list, |list|, heir)
      ensures |list| == 0 ==> tasks == RetargetProject(old(tasks), Some(pid), Some(heir))
      ensures |list| > 0 ==> tasks == HandedTasks(old(tasks), list, heir)
    {
      HandedPhasesNone(phases, list, heir);
      if |list| == 0 {
        var done := ReplaceTaskProjectRefs(Some(pid), Some(heir));
        return;
      }
      HandedNothing(tasks, heir);
      var i := 0;
      while i < |list|
        invariant 0 <= i <= |list|
        invariant Valid()
        invariant projects == old(projects) && blockers == old(blockers) && nextProjectId == old(nextProjectId)
        invariant HandedPhases(old(phases), phases, list, i, heir)
        invariant tasks == HandedTasks(old(tasks), list[..i], heir)
      {
        HandOverNext(old(phases), old(tasks), heir, list, i);
        i := i + 1;
      }
      assert list[..i] == list;
    }

    /** One turn of the hand-over loop: the next listed phase moves, with its tasks. */
    method HandOverNext(ghost ph0: PhaseTable, ghost t0: map<Id, Task>, heir: Id, list: seq<Id>, i: nat)
      requires Valid()
      requires i < |list|
      requires forall a, b :: 0 <= a < b < |list| ==> list[a] != list[b]
      requires HandedPhases(ph0, phases, list, i, heir) && list[i] in ph0
      requires tasks == HandedTasks(t0, list[..i], heir)
      modifies this
      ensures Valid()
      ensures projects == old(projects) && blockers == old(blockers) && nextProjectId == old(nextProjectId)
      ensures HandedPhases(ph0, phases, list, i + 1, heir)
      ensures tasks == HandedTasks(t0, list[..i + 1], heir)
    {
      var moved;
      ghost var last;
      moved, last := MovePhaseAndTasks(Some(list[i]), heir);
      HandedPhasesStep(ph0, old(phases), list, i, heir, moved.value.position);
      HandedStep(t0, list, i, heir);
    }

    /**
     * The first half of `delete_from_db`: find the heir (`ResolveHeir`) and
     * hand the project's phases, in position order, or its tasks over to it.
     */
    method PassOnContents(rec: ProjectRecord, pid: Id) returns (r: Result<Id, StoreError>)
      requires Valid()
      modifies this
      ensures Valid()
      ensures blockers == old(blockers) && nextProjectId >= old(nextProjectId)
      ensures OwnersMoved(old(phases), old(tasks), phases, tasks)
      ensures ProjectsPruned(old(projects), old(nextProjectId), projects) && RowsKept(old(projects), projects)
      ensures r.Err? ==> r.error == NoRecord
      ensures r.Err? <==> rec.parentId.Some? && rec.parentId.value !in old(projects)
      ensures r.Err? ==> projects == old(projects) && phases == old(phases) && tasks == old(tasks)
      ensures r.Ok? ==> r.value in projects && HeirOf(old(projects), old(nextProjectId), rec, r.value)
      ensures r.Ok? ==> HandedOver(old(phases), old(tasks), phases, tasks, pid, r.value)
    {
      var list := PhasesInOrder(phases, pid);
      r := ResolveHeir(rec);
      if r.Err? {
        return;
      }
      ghost var (ph0, t0) := (phases, tasks);
      assert PhaseListing(ph0, pid, list);
      HandOverContents(pid, r.value, list);
      HandOverMovesOwners(ph0, t0, phases, tasks, list, pid, r.value);
    }

    /**
     * `ProjectRecord.delete_from_db`. `fuel` bounds how deep the cascade
     * through child projects may go: the source recurses without a bound, and
     * on a cycle of parent links it ends in a recursion error, modelled as
     * `RecursionLimit`. The phases (or, with none, the tasks) go to the heir
     * first; `delete_project_record` then removes the children and the row.
     */
    method DeleteProject(rec: ProjectRecord, fuel: nat) returns (r: Result<ProjectRecord, StoreError>)
      requires Valid()
      modifies this
      decreases fuel, 2
      ensures Valid()
      ensures blockers == old(blockers) && nextProjectId >= old(nextProjectId)
      ensures OwnersMoved(old(phases), old(tasks), phases, tasks)
      ensures ProjectsPruned(old(projects), old(nextProjectId), projects)
      ensures r.Ok? ==> r.value == rec.(projectId := None)
      ensures r.Err? ==> r.error == NoRecord || r.error == RecursionLimit
      ensures rec.projectId.None? ==>
                r.Ok? && projects == old(projects) && phases == old(phases) && tasks == old(tasks)
      ensures rec.projectId.Some? && rec.parentId.Some? && rec.parentId.value !in old(projects) ==>
                r == Err(NoRecord) && projects == old(projects) && phases == old(phases) && tasks == old(tasks)
      ensures r.Ok? && rec.projectId.Some? ==> rec.projectId.value !in projects
      ensures (rec.projectId.Some? && Childless(old(projects), rec.projectId.value) &&
               (rec.parentId.None? || rec.parentId.value in old(projects))) ==> r.Ok?
      ensures r.Ok? && rec.projectId.Some? && Childless(old(projects), rec.projectId.value) ==>
                exists h :: HeirOf(old(projects), old(nextProjectId), rec, h) &&
                            HandedOver(old(phases), old(tasks), phases, tasks, rec.projectId.value, h)
      ensures (rec.projectId.Some? && (rec.parentId.None? || rec.parentId.value in old(projects)) &&
               Shallow(old(projects), rec.projectId, fuel)) ==> r.Ok?
      ensures r.Ok? && rec.projectId.Some? ==> SubtreeGone(old(projects), projects, rec.projectId)
      ensures RemovedFrom(old(projects), projects, rec.projectId)
    {
      if rec.projectId.None? {
        return Ok(rec);
      }
      var pid := rec.projectId.value;
      var heir := PassOnContents(rec, pid);
      if heir.Err? {
        assert rec.parentId.Some? && rec.parentId.value !in old(projects);
        return Err(heir.error);
      }
      ghost var (ph1, t1, p1, n1) := (phases, tasks, projects, nextProjectId);
      if Childless(old(projects), pid) {
        assert Childless(p1, pid);
      }
      var done := DeleteProjectRecord(rec.projectId, fuel);
      CascadeLifts(old(projects), old(nextProjectId), p1, projects, pid, fuel);
      OwnersMovedTrans(old(phases), old(tasks), ph1, t1, phases, tasks);
      ProjectsPrunedTrans(old(projects), old(nextProjectId), p1, n1, projects);
      if done.Err? {
        return Err(done.error);
      }
      if Childless(old(projects), pid) {
        assert HeirOf(old(projects), old(nextProjectId), rec, heir.value);
      }
      r := Ok(rec.(projectId := None));
    }

    /**
     * `delete_project_record`: the children, listed once up front, are each
     * deleted with `DeleteProject` (so their contents go to this project while
     * its row still exists), then the row itself goes. With no id, the
     * "children" are the projects without a parent.
     */
    method DeleteProjectRecord(pid: Option<Id>, fuel: nat) returns (r: Result<(), StoreError>)
      requires Valid()
      modifies this
      decreases fuel, 1
      ensures Valid()
      ensures blockers == old(blockers) && nextProjectId >= old(nextProjectId)
      ensures OwnersMoved(old(phases), old(tasks), phases, tasks)
      ensures ProjectsPruned(old(projects), old(nextProjectId), projects)
      ensures r.Err? ==> r.error == NoRecord || r.error == RecursionLimit
      ensures fuel == 0 && (exists c :: c in old(projects) && old(projects)[c].parentId == pid) ==>
                r == Err(RecursionLimit) && projects == old(projects) && phases == old(phases) && tasks == old(tasks)
      ensures (forall c :: c in old(projects) ==> old(projects)[c].parentId != pid) ==>
                r.Ok? && projects == old(projects) - (if pid.Some? then {pid.value} else {}) &&
                phases == old(phases) && tasks == old(tasks)
      ensures r.Ok? ==> forall c :: c in old(projects) && old(projects)[c].parentId == pid ==> c !in projects
      ensures r.Ok? && pid.Some? ==> pid.value !in projects
      ensures Shallow(old(projects), pid, fuel) ==> r.Ok?
      ensures r.Ok? ==> SubtreeGone(old(projects), projects, pid)
      ensures RemovedFrom(old(projects), projects, pid)
    {
      var children := ProjectsByParent(projects, pid);
      if |children| == 0 {
        NoChildNoDescendant(projects, pid);
        OwnersMovedRefl(phases, tasks);
        DropProject(pid);
        return Ok(());
      }
      assert Below(projects, pid, 1, children[0]);
      if fuel == 0 {
        return Err(RecursionLimit);
      }
      r := DeleteListed(pid, children, fuel);
    }

    /** `delete_project_record` once the listed children are known to be there and fuel is left. */
    method DeleteListed(pid: Option<Id>, children: seq<Id>, fuel: nat) returns (r: Result<(), StoreError>)
      requires Valid() && fuel > 0 && |children| > 0
      requires forall x :: x in children <==> x in projects && projects[x].parentId == pid
      requires forall i, j :: 0 <= i < j < |children| ==> children[i] != children[j]
      modifies this
      decreases fuel, 0
      ensures Valid()
      ensures blockers == old(blockers) && nextProjectId >= old(nextProjectId)
      ensures OwnersMoved(old(phases), old(tasks), phases, tasks)
      ensures ProjectsPruned(old(projects), old(nextProjectId), projects)
      ensures r.Err? ==> r.error == NoRecord || r.error == RecursionLimit
      ensures r.Ok? ==> forall c :: c in old(projects) && old(projects)[c].parentId == pid ==> c !in projects
      ensures r.Ok? && pid.Some? ==> pid.value !in projects
      ensures Shallow(old(projects), pid, fuel) ==> r.Ok?
      ensures r.Ok? ==> SubtreeGone(old(projects), projects, pid)
      ensures RemovedFrom(old(projects), projects, pid)
    {
      var table := projects;
      var kids := seq(|children|, j requires 0 <= j < |children| => ProjectRecordOf(children[j], table[children[j]]));
      r := DeleteChildren(pid, children, kids, fuel - 1);
      if r.Err? {
        return;
      }
      ghost var (p1, n1) := (projects, nextProjectId);
      DropProject(pid);
      ProjectsPrunedTrans(old(projects), old(nextProjectId), p1, n1, projects);
      RecordCascade(old(projects), old(nextProjectId), p1, projects, pid);
    }

    /** The row delete at the end of `delete_project_record`; a missing row is skipped. */
    method DropProject(pid: Option<Id>)
      requires Valid()
      modifies this
      ensures Valid()
      ensures phases == old(phases) && tasks == old(tasks) && blockers == old(blockers)
      ensures nextProjectId == old(nextProjectId)
      ensures projects == old(projects) - (if pid.Some? then {pid.value} else {})
      ensures ProjectsPruned(old(projects), old(nextProjectId), projects)
    {
      if pid.Some? {
        projects := projects - {pid.value};
      }
    }

    /** The loop of `delete_project_record` over the listed children. */
    method DeleteChildren(ghost parent: Option<Id>, children: seq<Id>, kids: seq<ProjectRecord>, fuel: nat)
      returns (r: Result<(), StoreError>)
      requires Valid()
      requires |kids| == |children|
      requires forall j :: 0 <= j < |kids| ==> kids[j].projectId == Some(children[j]) && children[j] in projects
      requires forall j :: 0 <= j < |kids| ==> kids[j].parentId == parent && projects[children[j]].parentId == parent
      requires forall a, b :: 0 <= a < b < |children| ==> children[a] != children[b]
      requires forall c :: c in projects && projects[c].parentId == parent ==> c in children
      modifies this
      decreases fuel, 4
      ensures Valid()
      ensures blockers == old(blockers) && nextProjectId >= old(nextProjectId)
      ensures OwnersMoved(old(phases), old(tasks), phases, tasks)
      ensures ProjectsPruned(old(projects), old(nextProjectId), projects)
      ensures r.Err? ==> r.error == NoRecord || r.error == RecursionLimit
      ensures r.Ok? ==> forall j :: 0 <= j < |children| ==> children[j] !in projects
      ensures (parent.None? || parent.value in old(projects)) && !DeepBelow(old(projects), parent, fuel + 2) ==> r.Ok?
      ensures r.Ok? ==> SubtreeGone(old(projects), projects, parent)
      ensures PrunedUnder(old(projects), old(nextProjectId), projects, parent)
    {
      OwnersMovedRefl(phases, tasks);
      r := Ok(());
      var i := 0;
      while i < |kids| && r.Ok?
        invariant 0 <= i <= |kids|
        invariant Valid()
        invariant CascadeFrame(old(projects), old(nextProjectId), old(phases), old(tasks), old(blockers), parent)
        invariant r.Ok? ==> SweptFirst(old(projects), children, i)
        invariant r.Err? ==> r.error == NoRecord || r.error == RecursionLimit
        invariant (parent.None? || parent.value in old(projects)) && !DeepBelow(old(projects), parent, fuel + 2) ==> r.Ok?
        decreases |kids| - i, if r.Ok? then 1 else 0
      {
        r := DeleteChildStep(old(projects), old(nextProjectId), old(phases), old(tasks), old(blockers),
                             parent, children, kids, i, fuel);
        if r.Ok? {
          i := i + 1;
        }
      }
      if r.Ok? {
        forall x | Descendant(old(projects), x, parent)
          ensures UnderFirst(old(projects), children, |children|, x)
        {
          AllUnder(old(projects), parent, children, x);
        }
      }
    }

    /**
     * What the cascade under `parent` keeps true against the state it started
     * from: only owners moved, blockers are untouched, and every project row
     * that went was under `parent`.
     */
    ghost predicate CascadeFrame(p0: map<Id, Project>, next0: Id, ph0: PhaseTable, t0: map<Id, Task>,
                                 b0: map<Id, Blocker>, parent: Option<Id>)
      reads this
    {
      blockers == b0 && nextProjectId >= next0 && OwnersMoved(ph0, t0, phases, tasks) &&
      PrunedUnder(p0, next0, projects, parent)
    }

    /** Exactly the first `i` children and their subtrees are gone. */
    ghost predicate SweptFirst(p0: map<Id, Project>, children: seq<Id>, i: nat)
      reads this
    {
      Swept(p0, children, i, projects)
    }

    /** One turn of the loop over the children: child `i` is deleted with `delete_from_db`. */
    method DeleteChildStep(ghost p0: map<Id, Project>, ghost next0: Id, ghost ph0: PhaseTable, ghost t0: map<Id, Task>,
                           ghost b0: map<Id, Blocker>, ghost parent: Option<Id>,
                           children: seq<Id>, kids: seq<ProjectRecord>, i: nat, fuel: nat)
      returns (r: Result<(), StoreError>)
      requires Valid() && i < |kids| == |children|
      requires forall j :: 0 <= j < |kids| ==> kids[j].projectId == Some(children[j]) && kids[j].parentId == parent
      requires forall j :: 0 <= j < |children| ==> children[j] in p0 && p0[children[j]].parentId == parent
      requires forall a, b :: 0 <= a < b < |children| ==> children[a] != children[b]
      requires CascadeFrame(p0, next0, ph0, t0, b0, parent) && SweptFirst(p0, children, i)
      modifies this
      decreases fuel, 3
      ensures Valid() && CascadeFrame(p0, next0, ph0, t0, b0, parent)
      ensures r.Err? ==> r.error == NoRecord || r.error == RecursionLimit
      ensures r.Ok? ==> SweptFirst(p0, children, i + 1)
      ensures (parent.None? || parent.value in p0) && !DeepBelow(p0, parent, fuel + 2) ==> r.Ok?
    {
      ghost var (ph1, t1, p1, n1) := (phases, tasks, projects, nextProjectId);
      if (parent.None? || parent.value in p0) && !DeepBelow(p0, parent, fuel + 2) {
        ChildCanGo(p0, next0, p1, parent, children, i, fuel);
      }
      var res := DeleteProject(kids[i], fuel);
      OwnersMovedTrans(ph0, t0, ph1, t1, phases, tasks);
      ChildPruned(p0, next0, p1, n1, projects, parent, children[i]);
      if res.Err? {
        return Err(res.error);
      }
      ChildSwept(p0, next0, p1, n1, projects, children, i);
      r := Ok(());
    }
  }
}
