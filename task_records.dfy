/**
 * `TaskRecord` in `wrappers.py`: saving a task (which fills in a missing
 * project from the task's phase), moving it into a project or a phase, the
 * loop check on adding a blocker, and the two walks over blocker edges:
 * `get_blockers` downwards and `blocks_tasks` upwards.
 */
module TaskRecords {
  import opened Common
  import opened Schema
  import opened PhaseOrder
  import opened ModelStore

  // ---------------------------------------------------------------------------
  // Saving and placing a task.

  /** `save` cannot fill the project: the task names a phase that does not exist. */
  predicate PhaseLookupFails(phases: map<Id, Phase>, rec: TaskRecord)
  {
    rec.phaseId.Some? && rec.projectId.None? && rec.phaseId.value !in phases
  }

  /** The record `save` hands to `save_task_record`. */
  function Filled(phases: map<Id, Phase>, rec: TaskRecord): TaskRecord
  {
    rec.(projectId := FilledProject(phases, rec.projectId, rec.phaseId))
  }

  /**
   * What `save` did with `rec`, going from tasks `t0` to `t1`: it failed
   * without writing, because the phase lookup or `save_task_record`
   * refused, or it wrote exactly the one row of the filled record, at the
   * record's own id or at a new one.
   */
  ghost predicate SaveOutcome(t0: map<Id, Task>, t1: map<Id, Task>, phases: map<Id, Phase>, rec: TaskRecord,
                              r: Result<TaskRecord, StoreError>)
  {
    var filled := Filled(phases, rec);
    (r.Err? <==> PhaseLookupFails(phases, rec) || SaveTaskFailure(t0, phases, filled).Some?) &&
    (r.Err? ==> t1 == t0) &&
    (r.Err? && PhaseLookupFails(phases, rec) ==> r.error == NoRecord) &&
    (r.Err? && !PhaseLookupFails(phases, rec) ==> r.error == SaveTaskFailure(t0, phases, filled).value) &&
    (r.Ok? ==> r.value.taskId.Some? && r.value == filled.(taskId := r.value.taskId) &&
               (rec.taskId.Some? ==> r.value.taskId == rec.taskId) &&
               (rec.taskId.None? ==> r.value.taskId.value !in t0) &&
               t1 == t0[r.value.taskId.value := Task(rec.name, Lower(rec.name), rec.status, rec.description, filled.projectId, rec.phaseId)])
  }

  /**
   * `TaskRecord.save`: a task with a phase but no project first takes the
   * phase's project (the phase lookup yields None for a missing phase, and
   * reading its project fails); then `save_task_record`. The record comes
   * back with its id.
   */
  method SaveTask(db: ModelDB, rec: TaskRecord) returns (r: Result<TaskRecord, StoreError>)
    requires db.Valid()
    modifies db
    ensures db.Valid()
    ensures db.projects == old(db.projects) && db.phases == old(db.phases) && db.blockers == old(db.blockers)
    ensures PhaseLookupFails(db.phases, rec) ==> r == Err(NoRecord) && db.tasks == old(db.tasks)
    ensures !PhaseLookupFails(db.phases, rec) ==>
              var filled := Filled(db.phases, rec);
              (r.Err? <==> SaveTaskFailure(old(db.tasks), db.phases, filled).Some?) &&
              (r.Err? ==> r.error == SaveTaskFailure(old(db.tasks), db.phases, filled).value && db.tasks == old(db.tasks)) &&
              (r.Ok? ==> r.value.taskId.Some? && r.value == filled.(taskId := r.value.taskId) &&
                         (rec.taskId.Some? ==> r.value.taskId == rec.taskId) &&
                         (rec.taskId.None? ==> r.value.taskId.value !in old(db.tasks)) &&
                         db.tasks == old(db.tasks)[r.value.taskId.value :=
                           Task(rec.name, Lower(rec.name), rec.status, rec.description, filled.projectId, rec.phaseId)])
    ensures r.Ok? ==> PhaseAgrees(db.phases, r.value.projectId, r.value.phaseId) &&
                      (rec.phaseId.Some? ==> r.value.projectId == Some(db.phases[rec.phaseId.value].projectId))
    ensures SaveOutcome(old(db.tasks), db.tasks, db.phases, rec, r)
  {
    var toSave := rec;
    if rec.phaseId.Some? && rec.projectId.None? {
      var phase := PhaseById(db.phases, rec.phaseId);
      if phase.None? {
        return Err(NoRecord);
      }
      toSave := rec.(projectId := phase.value.projectId);
    }
    var saved := db.SaveTaskRecord(toSave);
    if saved.Err? {
      return Err(saved.error);
    }
    r := Ok(toSave.(taskId := saved.value.taskId));
  }

  /** `add_to_project`: the project id is set directly (the phase is kept) and the task saved. */
  method AddToProject(db: ModelDB, rec: TaskRecord, proj: ProjectRecord) returns (r: Result<TaskRecord, StoreError>)
    requires db.Valid()
    modifies db
    ensures db.Valid()
    ensures db.projects == old(db.projects) && db.phases == old(db.phases) && db.blockers == old(db.blockers)
    ensures proj.projectId.None? && rec.phaseId.Some? && rec.phaseId.value !in db.phases ==> r == Err(NoRecord)
    ensures r.Ok? ==> r.value.phaseId == rec.phaseId && r.value.taskId.Some? && r.value.taskId.value in db.tasks &&
                      (proj.projectId.Some? ==> r.value.projectId == proj.projectId)
    ensures rec.phaseId.Some? && rec.phaseId.value in db.phases && proj.projectId.Some? ==>
              (Some(db.phases[rec.phaseId.value].projectId) != proj.projectId ==> r.Err? && db.tasks == old(db.tasks))
    ensures SaveOutcome(old(db.tasks), db.tasks, db.phases, rec.(projectId := proj.projectId), r)
  {
    r := SaveTask(db, rec.(projectId := proj.projectId));
  }

  /** `get_project_by_id(...)`, reduced to the id of the record it returns. */
  function FoundProject(projects: map<Id, Project>, id: Option<Id>): (r: Option<Id>)
    ensures r.Some? <==> id.Some? && id.value in projects
    ensures r.Some? ==> r == id
  {
    if id.Some? && id.value in projects then id else None
  }

  /**
   * `add_to_phase`'s refusal: the task keeps its project and the phase's
   * project differs from it. Both lookups come back as records or None and
   * are compared with `!=`, so two missing projects count as the same.
   */
  predicate WrongProject(projects: map<Id, Project>, rec: TaskRecord, phase: PhaseRecord, moveToProject: bool)
  {
    rec.projectId.Some? && !moveToProject && FoundProject(projects, phase.projectId) != FoundProject(projects, rec.projectId)
  }

  /**
   * The record `add_to_phase` saves when it does not refuse: the task takes
   * the phase, and also the phase's project unless it keeps its own.
   */
  function PhaseMove(projects: map<Id, Project>, rec: TaskRecord, phase: PhaseRecord, moveToProject: bool): TaskRecord
  {
    var moved := if rec.projectId.Some? && !moveToProject then rec else rec.(projectId := FoundProject(projects, phase.projectId));
    moved.(phaseId := phase.phaseId)
  }

  /**
   * `add_to_phase`: a task that has a project and is not being moved must
   * already be in the phase's project; otherwise it takes the phase's
   * project, which must exist. It then takes the phase and is saved.
   */
  method AddToPhase(db: ModelDB, rec: TaskRecord, phase: PhaseRecord, moveToProject: bool)
    returns (r: Result<TaskRecord, StoreError>)
    requires db.Valid()
    modifies db
    ensures db.Valid()
    ensures db.projects == old(db.projects) && db.phases == old(db.phases) && db.blockers == old(db.blockers)
    ensures WrongProject(db.projects, rec, phase, moveToProject) ==> r == Err(NotInProject) && db.tasks == old(db.tasks)
    ensures (rec.projectId.None? || moveToProject) && FoundProject(db.projects, phase.projectId).None? ==>
              r == Err(NoRecord) && db.tasks == old(db.tasks)
    ensures r.Ok? ==> r.value.phaseId == phase.phaseId && r.value.taskId.Some? && r.value.taskId.value in db.tasks &&
                      db.tasks[r.value.taskId.value].phaseId == phase.phaseId &&
                      PhaseAgrees(db.phases, r.value.projectId, phase.phaseId)
    ensures r.Ok? && (rec.projectId.None? || moveToProject) ==> r.value.projectId == phase.projectId
    ensures r.Ok? && rec.projectId.Some? && !moveToProject ==> r.value.projectId == rec.projectId
    ensures !WrongProject(db.projects, rec, phase, moveToProject) &&
            !((rec.projectId.None? || moveToProject) && FoundProject(db.projects, phase.projectId).None?) ==>
              SaveOutcome(old(db.tasks), db.tasks, db.phases, PhaseMove(db.projects, rec, phase, moveToProject), r)
  {
    var phaseProject := FoundProject(db.projects, phase.projectId);
    var moved := rec;
    if rec.projectId.Some? && !moveToProject {
      var proj := FoundProject(db.projects, rec.projectId);
      if phaseProject != proj {
        return Err(NotInProject);
      }
    } else {
      if phaseProject.None? {
        return Err(NoRecord);
      }
      moved := rec.(projectId := phaseProject);
    }
    r := SaveTask(db, moved.(phaseId := phase.phaseId));
  }

  /** `TaskRecord.delete_from_db`: a saved task is deleted with its edges; the record loses its id. */
  method DeleteTask(db: ModelDB, rec: TaskRecord) returns (r: TaskRecord)
    requires db.Valid()
    modifies db
    ensures db.Valid()
    ensures db.projects == old(db.projects) && db.phases == old(db.phases)
    ensures r == rec.(taskId := None)
    ensures rec.taskId.Some? && rec.taskId.value in old(db.tasks) ==>
              db.tasks == old(db.tasks) - {rec.taskId.value} && db.blockers == EdgesWithout(old(db.blockers), rec.taskId.value)
    ensures rec.taskId.None? || rec.taskId.value !in old(db.tasks) ==> db.tasks == old(db.tasks) && db.blockers == old(db.blockers)
    ensures rec.taskId.Some? && rec.taskId.value in old(db.tasks) ==> forall k :: k in db.blockers ==>
              db.blockers[k].item != rec.taskId.value && db.blockers[k].required != rec.taskId.value
  {
    r := rec;
    if rec.taskId.Some? {
      db.DeleteTaskRecord(rec.taskId);
      r := rec.(taskId := None);
    }
  }

  // ---------------------------------------------------------------------------
  // Walking blocker edges.

  /**
   * One step of a walk over blocker edges: downwards to a task that `from`
   * requires (skipping Done tasks with `onlyNotDone`), upwards to a task
   * that requires `from`.
   */
  ghost predicate Step(tasks: map<Id, Task>, blockers: map<Id, Blocker>, up: bool, onlyNotDone: bool, from: Option<Id>, x: Id)
  {
    if up then BlockedBy(tasks, blockers, from, x) else BlocksTask(tasks, blockers, from, onlyNotDone, x)
  }

  /** `x` is reached from `from` in at most `n` steps. */
  ghost predicate Reaches(tasks: map<Id, Task>, blockers: map<Id, Blocker>, up: bool, onlyNotDone: bool,
                          from: Option<Id>, n: nat, x: Id)
    decreases n
  {
    n > 0 &&
    (Step(tasks, blockers, up, onlyNotDone, from, x) ||
     exists y :: Step(tasks, blockers, up, onlyNotDone, from, y) && Reaches(tasks, blockers, up, onlyNotDone, Some(y), n - 1, x))
  }

  ghost predicate Reachable(tasks: map<Id, Task>, blockers: map<Id, Blocker>, up: bool, onlyNotDone: bool, from: Option<Id>, x: Id)
  {
    exists n: nat :: Reaches(tasks, blockers, up, onlyNotDone, from, n, x)
  }

  /** A walk from `a` to `y` followed by a walk from `y` to `z` is a walk from `a` to `z`. */
  lemma {:induction false} ReachesThrough(tasks: map<Id, Task>, blockers: map<Id, Blocker>, up: bool, onlyNotDone: bool,
                                          a: Option<Id>, n: nat, y: Id, m: nat, z: Id)
    requires Reaches(tasks, blockers, up, onlyNotDone, a, n, y)
    requires Reaches(tasks, blockers, up, onlyNotDone, Some(y), m, z)
    ensures Reachable(tasks, blockers, up, onlyNotDone, a, z)
    decreases n
  {
    if Step(tasks, blockers, up, onlyNotDone, a, y) {
      assert Reaches(tasks, blockers, up, onlyNotDone, a, m + 1, z);
    } else {
      var w :| Step(tasks, blockers, up, onlyNotDone, a, w) && Reaches(tasks, blockers, up, onlyNotDone, Some(w), n - 1, y);
      ReachesThrough(tasks, blockers, up, onlyNotDone, Some(w), n - 1, y, m, z);
      var k: nat :| Reaches(tasks, blockers, up, onlyNotDone, Some(w), k, z);
      assert Reaches(tasks, blockers, up, onlyNotDone, a, k + 1, z);
    }
  }

  /** Every task a walk reaches exists. */
  lemma ReachedIsTask(tasks: map<Id, Task>, blockers: map<Id, Blocker>, up: bool, onlyNotDone: bool, from: Option<Id>, n: nat, x: Id)
    requires Reaches(tasks, blockers, up, onlyNotDone, from, n, x)
    ensures x in tasks
    decreases n
  {
    if !Step(tasks, blockers, up, onlyNotDone, from, x) {
      var y :| Step(tasks, blockers, up, onlyNotDone, from, y) && Reaches(tasks, blockers, up, onlyNotDone, Some(y), n - 1, x);
      ReachedIsTask(tasks, blockers, up, onlyNotDone, Some(y), n - 1, x);
    }
  }

  /**
   * A list that holds every step from `from` and every step from each of its
   * own entries holds everything reachable from `from`.
   */
  lemma {:induction false} ClosedHoldsReached(tasks: map<Id, Task>, blockers: map<Id, Blocker>, up: bool, onlyNotDone: bool,
                                              from: Option<Id>, s: seq<Id>, n: nat, x: Id)
    requires forall y :: Step(tasks, blockers, up, onlyNotDone, from, y) ==> y in s
    requires forall y, z :: y in s && Step(tasks, blockers, up, onlyNotDone, Some(y), z) ==> z in s
    requires Reaches(tasks, blockers, up, onlyNotDone, from, n, x)
    ensures x in s
    decreases n
  {
    if !Step(tasks, blockers, up, onlyNotDone, from, x) {
      var y :| Step(tasks, blockers, up, onlyNotDone, from, y) && Reaches(tasks, blockers, up, onlyNotDone, Some(y), n - 1, x);
      ClosedHoldsReached(tasks, blockers, up, onlyNotDone, Some(y), s, n - 1, x);
    }
  }

  /** Some walk from `from` is (at least) `n` steps long. */
  ghost predicate LongWalk(tasks: map<Id, Task>, blockers: map<Id, Blocker>, up: bool, onlyNotDone: bool,
                           from: Option<Id>, n: nat)
    decreases n
  {
    n == 0 ||
    exists y :: Step(tasks, blockers, up, onlyNotDone, from, y) && LongWalk(tasks, blockers, up, onlyNotDone, Some(y), n - 1)
  }

  /** A walk of exactly `n` steps from `from` ends at `x`; told by its last step. */
  ghost predicate WalkTo(tasks: map<Id, Task>, blockers: map<Id, Blocker>, up: bool, onlyNotDone: bool,
                         from: Option<Id>, n: nat, x: Id)
    decreases n
  {
    if n == 0 then false
    else if n == 1 then Step(tasks, blockers, up, onlyNotDone, from, x)
    else exists y :: WalkTo(tasks, blockers, up, onlyNotDone, from, n - 1, y) && Step(tasks, blockers, up, onlyNotDone, Some(y), x)
  }

  /** A walk that is `n` steps long is also `m` steps long for every `m <= n`. */
  lemma {:induction false} LongWalkShorter(tasks: map<Id, Task>, blockers: map<Id, Blocker>, up: bool, onlyNotDone: bool,
                                           from: Option<Id>, n: nat, m: nat)
    requires LongWalk(tasks, blockers, up, onlyNotDone, from, n) && m <= n
    ensures LongWalk(tasks, blockers, up, onlyNotDone, from, m)
    decreases m
  {
    if m > 0 {
      var y :| Step(tasks, blockers, up, onlyNotDone, from, y) && LongWalk(tasks, blockers, up, onlyNotDone, Some(y), n - 1);
      LongWalkShorter(tasks, blockers, up, onlyNotDone, Some(y), n - 1, m - 1);
    }
  }

  /** Reaching `x` and then walking `m` steps from it makes a walk of more than `m` steps. */
  lemma {:induction false} WalkExtends(tasks: map<Id, Task>, blockers: map<Id, Blocker>, up: bool, onlyNotDone: bool,
                                       from: Option<Id>, n: nat, x: Id, m: nat)
    requires Reaches(tasks, blockers, up, onlyNotDone, from, n, x)
    requires LongWalk(tasks, blockers, up, onlyNotDone, Some(x), m)
    ensures LongWalk(tasks, blockers, up, onlyNotDone, from, m + 1)
    decreases n
  {
    if Step(tasks, blockers, up, onlyNotDone, from, x) {
      assert Step(tasks, blockers, up, onlyNotDone, from, x) && LongWalk(tasks, blockers, up, onlyNotDone, Some(x), m);
    } else {
      var y :| Step(tasks, blockers, up, onlyNotDone, from, y) && Reaches(tasks, blockers, up, onlyNotDone, Some(y), n - 1, x);
      WalkExtends(tasks, blockers, up, onlyNotDone, Some(y), n - 1, x, m);
      LongWalkShorter(tasks, blockers, up, onlyNotDone, Some(y), m + 1, m);
      assert Step(tasks, blockers, up, onlyNotDone, from, y) && LongWalk(tasks, blockers, up, onlyNotDone, Some(y), m);
    }
  }

  /** A walk of `n` steps to `y`, then `m` more from `y`: the walk is `n + m` steps long. */
  lemma {:induction false} WalkToThen(tasks: map<Id, Task>, blockers: map<Id, Blocker>, up: bool, onlyNotDone: bool,
                                      from: Option<Id>, n: nat, y: Id, m: nat)
    requires WalkTo(tasks, blockers, up, onlyNotDone, from, n, y)
    requires LongWalk(tasks, blockers, up, onlyNotDone, Some(y), m)
    ensures LongWalk(tasks, blockers, up, onlyNotDone, from, n + m)
    decreases n
  {
    if n == 1 {
      assert Step(tasks, blockers, up, onlyNotDone, from, y) && LongWalk(tasks, blockers, up, onlyNotDone, Some(y), m);
    } else {
      var z :| WalkTo(tasks, blockers, up, onlyNotDone, from, n - 1, z) && Step(tasks, blockers, up, onlyNotDone, Some(z), y);
      assert Step(tasks, blockers, up, onlyNotDone, Some(z), y) && LongWalk(tasks, blockers, up, onlyNotDone, Some(y), m);
      WalkToThen(tasks, blockers, up, onlyNotDone, from, n - 1, z, m + 1);
    }
  }

  /** With no walk `d` steps long, every walk to a task is shorter than `d`. */
  lemma WalkShorterThan(tasks: map<Id, Task>, blockers: map<Id, Blocker>, up: bool, onlyNotDone: bool,
                        from: Option<Id>, n: nat, x: Id, d: nat)
    requires WalkTo(tasks, blockers, up, onlyNotDone, from, n, x)
    requires !LongWalk(tasks, blockers, up, onlyNotDone, from, d)
    ensures n < d
  {
    WalkToThen(tasks, blockers, up, onlyNotDone, from, n, x, 0);
    if d <= n {
      LongWalkShorter(tasks, blockers, up, onlyNotDone, from, n, d);
    }
  }

  /** A list without repeats drawn from a set is no longer than the set. */
  lemma {:induction false} DistinctWithin(s: seq<Id>, S: set<Id>)
    requires forall i, j :: 0 <= i < j < |s| ==> s[i] != s[j]
    requires forall x :: x in s ==> x in S
    ensures |s| <= |S|
    decreases |s|
  {
    if |s| > 0 {
      var last := s[|s| - 1];
      var init := s[..|s| - 1];
      forall x | x in init
        ensures x in S - {last}
      {
        var i :| 0 <= i < |init| && init[i] == x;
        assert s[i] == x;
      }
      DistinctWithin(init, S - {last});
    }
  }

  /**
   * `get_blockers`: the tasks `taskId` requires (with `onlyNotDone`, those
   * not Done). With `descend`, the list is walked while it grows and each
   * entry's own `get_blockers(descend=True)` is merged in without repeats,
   * so the result is every task reachable downwards. Each descending call
   * spends one unit of `fuel`; running out stands for the recursion error a
   * cycle of blockers causes.
   */
  method GetBlockers(tasks: map<Id, Task>, blockers: map<Id, Blocker>, taskId: Option<Id>, descend: bool, onlyNotDone: bool,
                     fuel: nat)
    returns (r: Result<seq<Id>, StoreError>)
    requires EdgesUnique(blockers)
    ensures r.Err? ==> descend && r.error == RecursionLimit
    ensures !descend ==> r.Ok? && forall x :: x in r.value <==> BlocksTask(tasks, blockers, taskId, onlyNotDone, x)
    ensures r.Ok? ==> forall i, j :: 0 <= i < j < |r.value| ==> r.value[i] != r.value[j]
    ensures r.Ok? ==> forall x :: x in r.value ==> x in tasks
    ensures r.Ok? && descend ==> forall x :: x in r.value <==> Reachable(tasks, blockers, false, onlyNotDone, taskId, x)
    ensures descend ==> (r.Ok? <==> !LongWalk(tasks, blockers, false, onlyNotDone, taskId, fuel))
    decreases fuel, 1
  {
    var res := TaskBlockers(tasks, blockers, taskId, onlyNotDone);
    if !descend {
      return Ok(res);
    }
    if fuel == 0 {
      return Err(RecursionLimit);
    }
    forall x | x in res
      ensures Reaches(tasks, blockers, false, onlyNotDone, taskId, 1, x)
    {
      assert Step(tasks, blockers, false, onlyNotDone, taskId, x);
    }
    var i := 0;
    while i < |res|
      invariant Descending(tasks, blockers, onlyNotDone, taskId, res, i, fuel - 1)
      decreases |tasks.Keys| - i
    {
      DistinctWithin(res, tasks.Keys);
      var grown := DescendStep(tasks, blockers, onlyNotDone, taskId, res, i, fuel - 1);
      if grown.Err? {
        return grown;
      }
      res := grown.value;
      i := i + 1;
    }
    DescentDone(tasks, blockers, onlyNotDone, taskId, res, fuel);
    r := Ok(res);
  }

  /**
   * What the descending walk of `get_blockers` keeps true once it has
   * expanded the first `i` entries: the entries are distinct reachable
   * tasks, the direct blockers and those of every expanded entry are
   * listed, and no walk from an expanded entry is `below` steps long.
   */
  ghost predicate Descending(tasks: map<Id, Task>, blockers: map<Id, Blocker>, onlyNotDone: bool, taskId: Option<Id>,
                             res: seq<Id>, i: nat, below: nat)
  {
    i <= |res| &&
    (forall a, b :: 0 <= a < b < |res| ==> res[a] != res[b]) &&
    (forall x :: x in res ==> x in tasks && Reachable(tasks, blockers, false, onlyNotDone, taskId, x)) &&
    (forall x :: BlocksTask(tasks, blockers, taskId, onlyNotDone, x) ==> x in res) &&
    (forall j, z :: 0 <= j < i && Step(tasks, blockers, false, onlyNotDone, Some(res[j]), z) ==> z in res) &&
    (forall j :: 0 <= j < i ==> !LongWalk(tasks, blockers, false, onlyNotDone, Some(res[j]), below))
  }

  /**
   * Once every entry is expanded, the list is exactly the tasks reachable
   * downwards, and no walk from `taskId` is `fuel` steps long.
   */
  lemma DescentDone(tasks: map<Id, Task>, blockers: map<Id, Blocker>, onlyNotDone: bool, taskId: Option<Id>,
                    res: seq<Id>, fuel: nat)
    requires fuel > 0 && Descending(tasks, blockers, onlyNotDone, taskId, res, |res|, fuel - 1)
    ensures forall x :: x in res <==> Reachable(tasks, blockers, false, onlyNotDone, taskId, x)
    ensures !LongWalk(tasks, blockers, false, onlyNotDone, taskId, fuel)
  {
    forall x | Reachable(tasks, blockers, false, onlyNotDone, taskId, x)
      ensures x in res
    {
      var n: nat :| Reaches(tasks, blockers, false, onlyNotDone, taskId, n, x);
      ClosedHoldsReached(tasks, blockers, false, onlyNotDone, taskId, res, n, x);
    }
    forall y | Step(tasks, blockers, false, onlyNotDone, taskId, y)
      ensures !LongWalk(tasks, blockers, false, onlyNotDone, Some(y), fuel - 1)
    {
      assert y in res;
      var j :| 0 <= j < |res| && res[j] == y;
    }
  }

  /**
   * One turn of the descending walk: entry `i`'s own `get_blockers(descend=True)`
   * is merged in. Its recursion error is passed on, and shows a walk from
   * `taskId` of more than `below` steps.
   */
  method DescendStep(tasks: map<Id, Task>, blockers: map<Id, Blocker>, onlyNotDone: bool, taskId: Option<Id>,
                     res: seq<Id>, i: nat, below: nat)
    returns (r: Result<seq<Id>, StoreError>)
    requires EdgesUnique(blockers)
    requires Descending(tasks, blockers, onlyNotDone, taskId, res, i, below) && i < |res|
    ensures r.Err? ==> r.error == RecursionLimit && LongWalk(tasks, blockers, false, onlyNotDone, taskId, below + 1)
    ensures r.Ok? ==> Descending(tasks, blockers, onlyNotDone, taskId, r.value, i + 1, below)
    decreases below + 1, 0
  {
    var here := res[i];
    var more := GetBlockers(tasks, blockers, Some(here), true, onlyNotDone, below);
    if more.Err? {
      assert here in res;
      ghost var n: nat :| Reaches(tasks, blockers, false, onlyNotDone, taskId, n, here);
      WalkExtends(tasks, blockers, false, onlyNotDone, taskId, n, here, below);
      return more;
    }
    var merged := MergeReached(tasks, blockers, onlyNotDone, taskId, res, here, more.value);
    forall j, z | 0 <= j < i + 1 && Step(tasks, blockers, false, onlyNotDone, Some(merged[j]), z)
      ensures z in merged
    {
      assert merged[j] == res[j];
      if j == i {
        assert Reaches(tasks, blockers, false, onlyNotDone, Some(here), 1, z);
      }
    }
    forall j | 0 <= j < i + 1
      ensures !LongWalk(tasks, blockers, false, onlyNotDone, Some(merged[j]), below)
    {
      assert merged[j] == res[j];
    }
    r := Ok(merged);
  }

  /**
   * `for item in more: if item not in res: res.append(item)`, where `more`
   * is everything reachable from `here`, itself reachable from `taskId`.
   */
  method MergeReached(ghost tasks: map<Id, Task>, ghost blockers: map<Id, Blocker>, ghost onlyNotDone: bool, ghost taskId: Option<Id>,
                      res: seq<Id>, ghost here: Id, more: seq<Id>)
    returns (merged: seq<Id>)
    requires forall a, b :: 0 <= a < b < |res| ==> res[a] != res[b]
    requires forall x :: x in res ==> x in tasks && Reachable(tasks, blockers, false, onlyNotDone, taskId, x)
    requires here in res
    requires forall x :: x in more ==> x in tasks && Reachable(tasks, blockers, false, onlyNotDone, Some(here), x)
    ensures res <= merged && forall x :: x in res ==> x in merged
    ensures forall a, b :: 0 <= a < b < |merged| ==> merged[a] != merged[b]
    ensures forall x :: x in merged ==> x in tasks && Reachable(tasks, blockers, false, onlyNotDone, taskId, x)
    ensures forall x :: x in more ==> x in merged
  {
    merged := res;
    var k := 0;
    ghost var hn: nat :| Reaches(tasks, blockers, false, onlyNotDone, taskId, hn, here);
    while k < |more|
      invariant 0 <= k <= |more|
      invariant res <= merged && forall x :: x in res ==> x in merged
      invariant forall a, b :: 0 <= a < b < |merged| ==> merged[a] != merged[b]
      invariant forall x :: x in merged ==> x in tasks && Reachable(tasks, blockers, false, onlyNotDone, taskId, x)
      invariant forall t :: 0 <= t < k ==> more[t] in merged
    {
      var item := more[k];
      if item !in merged {
        assert item in more && Reachable(tasks, blockers, false, onlyNotDone, Some(here), item);
        ghost var m: nat :| Reaches(tasks, blockers, false, onlyNotDone, Some(here), m, item);
        ReachesThrough(tasks, blockers, false, onlyNotDone, taskId, hn, here, m, item);
        merged := merged + [item];
      }
      k := k + 1;
    }
  }

  /**
   * `M + M*M + ... + M^r`: how many walks of 1 to `r` steps there can be
   * when each task is required by at most `M` others.
   */
  function Tree(M: nat, r: nat): nat
  {
    if r == 0 then 0 else M + M * Tree(M, r - 1)
  }

  /**
   * How many entries the listed walks, of the given lengths, may still add
   * to the list of `blocks_tasks(ascend=True)` when no walk is `d` steps long.
   */
  ghost function Room(depth: seq<nat>, M: nat, d: nat): nat
  {
    if depth == [] then 0
    else (if depth[0] < d then Tree(M, d - 1 - depth[0]) else 0) + Room(depth[1..], M, d)
  }

  lemma {:induction false} RoomAppend(s: seq<nat>, t: seq<nat>, M: nat, d: nat)
    ensures Room(s + t, M, d) == Room(s, M, d) + Room(t, M, d)
    decreases |s|
  {
    if s != [] {
      assert (s + t)[1..] == s[1..] + t;
      RoomAppend(s[1..], t, M, d);
    } else {
      assert s + t == t;
    }
  }

  lemma {:induction false} RoomSame(n: nat, c: nat, M: nat, d: nat)
    requires c < d
    ensures Room(seq(n, _ => c), M, d) == n * Tree(M, d - 1 - c)
    decreases n
  {
    if n > 0 {
      assert seq(n, _ => c)[1..] == seq(n - 1, _ => c);
      RoomSame(n - 1, c, M, d);
    }
  }

  /**
   * Walking from an entry of length `k` that is required by `n <= M` tasks
   * uses up its room: the `n` new entries, of length `k + 1`, and what they
   * may still add fit in what the entry could add.
   */
  lemma RoomStep(depth: seq<nat>, i: nat, n: nat, M: nat, d: nat)
    requires i < |depth| && depth[i] < d && n <= M
    requires n > 0 ==> depth[i] + 1 < d
    ensures n + Room((depth + seq(n, _ => depth[i] + 1))[i + 1..], M, d) <= Room(depth[i..], M, d)
  {
    var k := depth[i];
    var more := seq(n, _ => k + 1);
    assert (depth + more)[i + 1..] == depth[i + 1..] + more;
    RoomAppend(depth[i + 1..], more, M, d);
    assert depth[i..][1..] == depth[i + 1..];
    assert Room(depth[i..], M, d) == Tree(M, d - 1 - k) + Room(depth[i + 1..], M, d);
    if n > 0 {
      var t := Tree(M, d - 2 - k);
      RoomSame(n, k + 1, M, d);
      assert Room(more, M, d) == n * t;
      assert Tree(M, d - 1 - k) == M + M * t;
      MulLe(n, M, 1 + t);
      Distribute(n, t);
      Distribute(M, t);
    }
  }

  lemma Distribute(a: nat, t: nat)
    ensures a * (1 + t) == a + a * t
  {
  }

  lemma MulLe(a: nat, b: nat, c: nat)
    requires a <= b
    ensures a * c <= b * c
  {
  }

  /**
   * `blocks_tasks`: the tasks that require `taskId`. With `ascend`, the list
   * is walked while it grows and each entry's blocked tasks are appended as
   * they come, without removing repeats, so the entries are exactly the
   * tasks reachable upwards. The source's walk never ends on a cycle; here
   * it stops with an error after `fuel` entries. The contract speaks of the
   * set of entries only: how often a task reached along two paths repeats
   * in the list is not characterised.
   */
  method BlocksTasks(tasks: map<Id, Task>, blockers: map<Id, Blocker>, taskId: Option<Id>, ascend: bool, fuel: nat)
    returns (r: Result<seq<Id>, StoreError>)
    requires EdgesUnique(blockers)
    ensures r.Err? ==> ascend && r.error == StepLimit
    ensures !ascend ==> r.Ok? && (forall x :: x in r.value <==> BlockedBy(tasks, blockers, taskId, x)) &&
                        forall i, j :: 0 <= i < j < |r.value| ==> r.value[i] != r.value[j]
    ensures r.Ok? && ascend ==> |r.value| <= fuel &&
                                forall x :: x in r.value <==> Reachable(tasks, blockers, true, false, taskId, x)
    ensures (forall x :: !BlockedBy(tasks, blockers, taskId, x)) ==> r == Ok([])
    ensures forall d :: (1 <= d && !LongWalk(tasks, blockers, true, false, taskId, d) &&
                         Tree(|tasks.Keys|, d - 1) <= fuel) ==> r.Ok?
  {
    var res := TasksBlocked(tasks, blockers, taskId);
    if |res| > 0 {
      assert BlockedBy(tasks, blockers, taskId, res[0]);
    }
    if !ascend {
      return Ok(res);
    }
    ghost var depth := AscentStart(tasks, blockers, taskId, res);
    var i := 0;
    while i < |res|
      invariant 0 <= i <= |res| && i <= fuel
      invariant Ascending(tasks, blockers, taskId, res, depth, i)
      decreases fuel - i
    {
      if i == fuel {
        return Err(StepLimit);
      }
      res, depth := AscendStep(tasks, blockers, taskId, res, depth, i);
      i := i + 1;
    }
    forall x | Reachable(tasks, blockers, true, false, taskId, x)
      ensures x in res
    {
      var n: nat :| Reaches(tasks, blockers, true, false, taskId, n, x);
      ClosedHoldsReached(tasks, blockers, true, false, taskId, res, n, x);
    }
    r := Ok(res);
  }

  /**
   * What the walk of `blocks_tasks(ascend=True)` keeps true once it has
   * expanded the first `i` entries: every entry is reachable and is the end
   * of a walk as long as its `depth`, the direct dependants and those of
   * every expanded entry are listed, and when no walk is `d` steps long the
   * list and the room its unexpanded entries leave stay within
   * `Tree(|tasks|, d - 1)`.
   */
  ghost predicate Ascending(tasks: map<Id, Task>, blockers: map<Id, Blocker>, taskId: Option<Id>,
                            res: seq<Id>, depth: seq<nat>, i: nat)
  {
    i <= |res| && |depth| == |res| &&
    (forall x :: x in res ==> Reachable(tasks, blockers, true, false, taskId, x)) &&
    (forall x :: BlockedBy(tasks, blockers, taskId, x) ==> x in res) &&
    (forall j, z :: 0 <= j < i && Step(tasks, blockers, true, false, Some(res[j]), z) ==> z in res) &&
    (|res| > 0 ==> BlockedBy(tasks, blockers, taskId, res[0])) &&
    (forall j :: 0 <= j < |res| ==> WalkTo(tasks, blockers, true, false, taskId, depth[j], res[j])) &&
    (forall d :: 1 <= d && !LongWalk(tasks, blockers, true, false, taskId, d) ==>
                 |depth| + Room(depth[i..], |tasks.Keys|, d) <= Tree(|tasks.Keys|, d - 1))
  }

  /** Before the walk: the direct dependants, each the end of a one-step walk. */
  lemma AscentStart(tasks: map<Id, Task>, blockers: map<Id, Blocker>, taskId: Option<Id>, res: seq<Id>)
    returns (depth: seq<nat>)
    requires forall x :: x in res <==> BlockedBy(tasks, blockers, taskId, x)
    requires forall i, j :: 0 <= i < j < |res| ==> res[i] != res[j]
    ensures Ascending(tasks, blockers, taskId, res, depth, 0)
  {
    depth := seq(|res|, _ => 1);
    var M := |tasks.Keys|;
    forall x | x in res
      ensures Reaches(tasks, blockers, true, false, taskId, 1, x)
    {
      assert Step(tasks, blockers, true, false, taskId, x);
    }
    forall d | 1 <= d && !LongWalk(tasks, blockers, true, false, taskId, d)
      ensures |depth| + Room(depth[0..], M, d) <= Tree(M, d - 1)
    {
      assert depth[0..] == depth;
      if |res| > 0 {
        assert WalkTo(tasks, blockers, true, false, taskId, 1, res[0]);
        WalkShorterThan(tasks, blockers, true, false, taskId, 1, res[0], d);
        DistinctWithin(res, tasks.Keys);
        RoomSame(|res|, 1, M, d);
        MulLe(|res|, M, 1 + Tree(M, d - 2));
      }
    }
    if |res| > 0 {
      assert res[0] in res;
    }
  }

  /** One turn of the walk: entry `i` is expanded and its dependants appended. */
  method AscendStep(tasks: map<Id, Task>, blockers: map<Id, Blocker>, taskId: Option<Id>,
                    res: seq<Id>, ghost depth: seq<nat>, i: nat)
    returns (grown: seq<Id>, ghost grownDepth: seq<nat>)
    requires EdgesUnique(blockers)
    requires Ascending(tasks, blockers, taskId, res, depth, i) && i < |res|
    ensures Ascending(tasks, blockers, taskId, grown, grownDepth, i + 1)
  {
    var M := |tasks.Keys|;
    var here := res[i];
    var more := TasksBlocked(tasks, blockers, Some(here));
    DistinctWithin(more, tasks.Keys);
    grownDepth := depth + seq(|more|, _ => depth[i] + 1);
    forall d | 1 <= d && !LongWalk(tasks, blockers, true, false, taskId, d)
      ensures |grownDepth| + Room(grownDepth[i + 1..], M, d) <= Tree(M, d - 1)
    {
      WalkShorterThan(tasks, blockers, true, false, taskId, depth[i], here, d);
      if |more| > 0 {
        assert WalkTo(tasks, blockers, true, false, taskId, depth[i] + 1, more[0]) by {
          assert WalkTo(tasks, blockers, true, false, taskId, depth[i], here) &&
                 Step(tasks, blockers, true, false, Some(here), more[0]);
        }
        WalkShorterThan(tasks, blockers, true, false, taskId, depth[i] + 1, more[0], d);
      }
      RoomStep(depth, i, |more|, M, d);
    }
    forall j | |res| <= j < |grownDepth|
      ensures WalkTo(tasks, blockers, true, false, taskId, grownDepth[j], (res + more)[j])
    {
      assert WalkTo(tasks, blockers, true, false, taskId, depth[i], here) &&
             Step(tasks, blockers, true, false, Some(here), (res + more)[j]);
    }
    forall x | x in more
      ensures Reachable(tasks, blockers, true, false, taskId, x)
    {
      assert Reaches(tasks, blockers, true, false, Some(here), 1, x);
      assert here in res && Reachable(tasks, blockers, true, false, taskId, here);
      var hn: nat :| Reaches(tasks, blockers, true, false, taskId, hn, here);
      ReachesThrough(tasks, blockers, true, false, taskId, hn, here, 1, x);
    }
    grown := res;
    if |more| > 0 {
      grown := res + more;
    }
    assert grown == res + more;
  }

  // ---------------------------------------------------------------------------
  // Adding a blocker.

  /**
   * `add_blocker` refuses a task blocking itself (ids compared as values, so
   * two unsaved records count as the same) and a task that `other` already
   * requires and that is not Done. The check looks one edge deep.
   */
  ghost predicate LoopRefused(tasks: map<Id, Task>, blockers: map<Id, Blocker>, rec: TaskRecord, other: TaskRecord)
  {
    other.taskId == rec.taskId || (rec.taskId.Some? && BlocksTask(tasks, blockers, other.taskId, true, rec.taskId.value))
  }

  /** `TaskRecord.add_blocker`: `rec` comes to require `other`, unless the loop check refuses. */
  method AddBlocker(db: ModelDB, rec: TaskRecord, other: TaskRecord) returns (r: Result<Id, StoreError>)
    requires db.Valid()
    modifies db
    ensures db.Valid()
    ensures db.projects == old(db.projects) && db.phases == old(db.phases) && db.tasks == old(db.tasks)
    ensures LoopRefused(db.tasks, old(db.blockers), rec, other) ==> r == Err(WouldCreateLoop) && db.blockers == old(db.blockers)
    ensures !LoopRefused(db.tasks, old(db.blockers), rec, other) && (rec.taskId.None? || other.taskId.None?) ==>
              r == Err(MissingTaskId) && db.blockers == old(db.blockers)
    ensures !LoopRefused(db.tasks, old(db.blockers), rec, other) && rec.taskId.Some? && other.taskId.Some? ==>
              r.Ok? && r.value in db.blockers && db.blockers[r.value] == Blocker(rec.taskId.value, other.taskId.value) &&
              db.blockers.Keys == old(db.blockers).Keys + {r.value} &&
              forall k :: k in old(db.blockers) ==> db.blockers[k] == old(db.blockers)[k]
  {
    if other.taskId == rec.taskId {
      return Err(WouldCreateLoop);
    }
    var needs := GetBlockers(db.tasks, db.blockers, other.taskId, false, true, 0);
    var i := 0;
    while i < |needs.value|
      invariant 0 <= i <= |needs.value|
      invariant forall j :: 0 <= j < i ==> Some(needs.value[j]) != rec.taskId
    {
      if Some(needs.value[i]) == rec.taskId {
        return Err(WouldCreateLoop);
      }
      i := i + 1;
    }
    r := db.AddTaskBlocker(rec.taskId, other.taskId);
  }

  /** Three tasks, none Done. */
  function ThreeTasks(): (t: map<Id, Task>)
    ensures forall k :: k in t ==> t[k].status != DoneStatus
  {
    map[1 := Task("a", "a", "ToDo", None, None, None),
        2 := Task("b", "b", "ToDo", None, None, None),
        3 := Task("c", "c", "ToDo", None, None, None)]
  }

  /**
   * The loop check looks one edge deep: with task 1 requiring 2 and 2
   * requiring 3, making 3 require 1 passes the check and closes a cycle
   * through all three.
   */
  lemma LoopCheckIsOneEdgeDeep()
    ensures var tasks := ThreeTasks(); var before := map[1 := Blocker(1, 2), 2 := Blocker(2, 3)];
            !LoopRefused(tasks, before, TaskRecordOf(3, tasks[3]), TaskRecordOf(1, tasks[1])) &&
            Reachable(tasks, before[3 := Blocker(3, 1)], false, true, Some(1), 1)
  {
    var tasks := ThreeTasks();
    var before := map[1 := Blocker(1, 2), 2 := Blocker(2, 3)];
    var after := before[3 := Blocker(3, 1)];
    assert !BlocksTask(tasks, before, Some(1), true, 3);
    assert Step(tasks, after, false, true, Some(3), 1) by {
      assert after[3].item == 3 && after[3].required == 1;
    }
    assert Reaches(tasks, after, false, true, Some(3), 1, 1);
    assert Step(tasks, after, false, true, Some(2), 3) by {
      assert after[2].item == 2 && after[2].required == 3;
    }
    assert Reaches(tasks, after, false, true, Some(2), 2, 1);
    assert Step(tasks, after, false, true, Some(1), 2) by {
      assert after[1].item == 1 && after[1].required == 2;
    }
    assert Reaches(tasks, after, false, true, Some(1), 3, 1);
  }
}
